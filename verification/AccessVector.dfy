/** The access-vector evaluator of kernel/feature/selinux_hide.c: context_struct_compute_av and
    its mutual recursion with type_attribute_bounds_av. */
module AccessVector {
  import opened Bytes
  import opened Policy
  import C = ConstraintExpr

  datatype Avd = Avd(allowed: Av, auditallow: Av, auditdeny: Av)

  // ---- legal policies ---------------------------------------------------------------------

  predicate LegalOp(attr: C.Attr, op: C.Op) {
    match attr
    case User => op.Eq? || op.Neq?
    case Type => op.Eq? || op.Neq?
    case OtherAttr => false
    case _ => !op.OtherOp?
  }

  /** A test that can be evaluated without a third context. */
  predicate LegalLeaf(node: C.Node) {
    match node
    case AttrTest(attr, op) => LegalOp(attr, op)
    case NamesTest(f, op, _) => (f.target || !f.xtarget) && (f.user || f.role || f.typ) && (op.Eq? || op.Neq?)
    case _ => false
  }

  ghost predicate LegalTree(t: C.Tree) {
    match t
    case Leaf(node) => LegalLeaf(node)
    case Not(sub) => LegalTree(sub)
    case And(l, r) => LegalTree(l) && LegalTree(r)
    case Or(l, r) => LegalTree(l) && LegalTree(r)
  }

  ghost predicate LegalExpr(expr: seq<C.Node>) {
    exists t: C.Tree :: LegalTree(t) && C.Postfix(t) == expr
  }

  ghost predicate LegalConstraints(cs: seq<Constraint>) {
    forall k :: 0 <= k < |cs| ==> LegalExpr(cs[k].expr)
  }

  /** Every type has its attributes, bounding types are types, constraints are expressions. */
  ghost predicate PolicyOk(db: Policydb) {
    && db.attrs.Keys == db.bounds.Keys
    && (forall v :: v in db.bounds && db.bounds[v] != 0 ==> db.bounds[v] in db.bounds)
    && (forall c :: c in db.constraints ==> LegalConstraints(db.constraints[c]))
  }

  ghost predicate ContextsOk(db: Policydb, s: C.Context, t: C.Context) {
    s.typ in db.bounds && t.typ in db.bounds
  }

  /** Type bounds do not go round in circles: a rank falls from each type to its bounding type. */
  ghost predicate Acyclic(db: Policydb, rank: map<nat, nat>) {
    && db.bounds.Keys <= rank.Keys
    && forall v :: v in db.bounds && db.bounds[v] != 0 && db.bounds[v] in rank ==> rank[db.bounds[v]] < rank[v]
  }

  // ---- what a decision means ----------------------------------------------------------------

  function EnvOf(db: Policydb, s: C.Context, t: C.Context): C.Env {
    C.Env(db.dominates, s, t, None)
  }

  ghost predicate Holds(db: Policydb, s: C.Context, t: C.Context, expr: seq<C.Node>) {
    C.RunStack(EnvOf(db, s, t), expr, []) == C.Value(true)
  }

  function Pairs(sources: set<nat>, targets: set<nat>): (r: set<(nat, nat)>)
    ensures forall i: nat, j: nat :: (i, j) in r <==> i in sources && j in targets
  {
    set i: nat, j: nat | i in sources && j in targets :: (i, j)
  }

  /** Some rule between one of these pairs has bit p. */
  ghost predicate Granted(t: Table, pairs: set<(nat, nat)>, cls: nat, kind: Kind, p: Perm) {
    exists q :: q in pairs && p in Union(t, Key(q.0, q.1, cls, kind))
  }

  /** Every rule between these pairs has bit p. */
  ghost predicate Kept(t: Table, pairs: set<(nat, nat)>, cls: nat, kind: Kind, p: Perm) {
    forall q :: q in pairs ==> p in Meet(t, Key(q.0, q.1, cls, kind))
  }

  /** All bits that entries with this key hold. */
  ghost function Union(t: Table, key: Key): Av {
    if t == [] then {}
    else Union(t[..|t| - 1], key) + (if t[|t| - 1].key == key && t[|t| - 1].datum.Vector? then t[|t| - 1].datum.av else {})
  }

  /** All bits that every entry with this key holds. */
  ghost function Meet(t: Table, key: Key): Av {
    if t == [] then AllPerms()
    else Meet(t[..|t| - 1], key) * (if t[|t| - 1].key == key && t[|t| - 1].datum.Vector? then t[|t| - 1].datum.av else AllPerms())
  }

  /** A source type and a target type act as all their attributes. */
  ghost function AttrPairs(db: Policydb, s: C.Context, t: C.Context): set<(nat, nat)>
    requires s.typ in db.attrs && t.typ in db.attrs
  {
    Pairs(db.attrs[s.typ], db.attrs[t.typ])
  }

  ghost predicate RuleAllows(db: Policydb, s: C.Context, t: C.Context, cls: nat, p: Perm)
    requires s.typ in db.attrs && t.typ in db.attrs
  {
    var pairs := AttrPairs(db, s, t);
    Granted(db.avtab, pairs, cls, Allowed, p) || Granted(db.cond, pairs, cls, Allowed, p)
  }

  ghost predicate ConstraintForbids(db: Policydb, s: C.Context, t: C.Context, cs: seq<Constraint>, p: Perm) {
    exists k :: 0 <= k < |cs| && p in cs[k].perms && !Holds(db, s, t, cs[k].expr)
  }

  ghost predicate RoleForbids(db: Policydb, s: C.Context, t: C.Context, cls: nat, p: Perm) {
    cls == db.processClass && s.role != t.role && (s.role, t.role) !in db.roleAllow && p in db.processTrans
  }

  /** What the rules say about this pair of contexts alone, without bounds. */
  ghost predicate OwnAllows(db: Policydb, s: C.Context, t: C.Context, cls: nat, p: Perm)
    requires s.typ in db.attrs && t.typ in db.attrs
  {
    && cls in db.constraints
    && RuleAllows(db, s, t, cls, p)
    && !ConstraintForbids(db, s, t, db.constraints[cls], p)
    && !RoleForbids(db, s, t, cls, p)
  }

  ghost predicate Bounded(db: Policydb, c: C.Context)
    requires c.typ in db.bounds
  {
    db.bounds[c.typ] != 0
  }

  /** The context one step up: its bounding type, or itself if it has none. */
  ghost function Up(db: Policydb, c: C.Context): C.Context
    requires c.typ in db.bounds
  {
    if Bounded(db, c) then c.(typ := db.bounds[c.typ]) else c
  }

  /** p is allowed for a pair when the rules allow it for the pair and for every bounding pair. */
  ghost predicate Allows(db: Policydb, rank: map<nat, nat>, s: C.Context, t: C.Context, cls: nat, p: Perm)
    requires PolicyOk(db) && ContextsOk(db, s, t) && Acyclic(db, rank)
    decreases rank[s.typ]
  {
    OwnAllows(db, s, t, cls, p) && (Bounded(db, s) ==> Allows(db, rank, Up(db, s), Up(db, t), cls, p))
  }

  // ---- the evaluator --------------------------------------------------------------------------

  function AddNode(avd: Avd, node: AvNode, i: nat, j: nat, cls: nat): Avd {
    if node.key.source == i && node.key.target == j && node.key.cls == cls && node.datum.Vector? then
      match node.key.kind
      case Allowed => avd.(allowed := avd.allowed + node.datum.av)
      case AuditAllow => avd.(auditallow := avd.auditallow + node.datum.av)
      case AuditDeny => avd.(auditdeny := avd.auditdeny * node.datum.av)
      case Other(_) => avd
    else avd
  }

  ghost function AddedTable(t: Table, i: nat, j: nat, cls: nat, avd: Avd): Avd {
    Avd(avd.allowed + Union(t, Key(i, j, cls, Allowed)), avd.auditallow + Union(t, Key(i, j, cls, AuditAllow)),
        avd.auditdeny * Meet(t, Key(i, j, cls, AuditDeny)))
  }

  lemma {:induction false} UnionNext(t: Table, node: AvNode, key: Key)
    ensures Union(t + [node], key) == Union(t, key) + (if node.key == key && node.datum.Vector? then node.datum.av else {})
    ensures Meet(t + [node], key) == Meet(t, key) * (if node.key == key && node.datum.Vector? then node.datum.av else AllPerms())
  {
    assert (t + [node])[..|t|] == t;
  }

  lemma {:induction false} AddedTableNext(t: Table, node: AvNode, i: nat, j: nat, cls: nat, avd: Avd)
    ensures AddedTable(t + [node], i, j, cls, avd) == AddNode(AddedTable(t, i, j, cls, avd), node, i, j, cls)
  {
    UnionNext(t, node, Key(i, j, cls, Allowed));
    UnionNext(t, node, Key(i, j, cls, AuditAllow));
    UnionNext(t, node, Key(i, j, cls, AuditDeny));
    hide Union, Meet, AllPerms;
    assert forall av: Av :: av * AllPerms() == av;
  }

  lemma AddedTableEmpty(i: nat, j: nat, cls: nat, avd: Avd)
    ensures AddedTable([], i, j, cls, avd) == avd
  {
  }

  /** The entries of one table for one pair of values, added to a decision. */
  method AddTable(t: Table, i: nat, j: nat, cls: nat, avd0: Avd) returns (avd: Avd)
    ensures avd == AddedTable(t, i, j, cls, avd0)
  {
    hide AddedTable, AddNode;
    avd := avd0;
    var n := 0;
    AddedTableEmpty(i, j, cls, avd0);
    assert t[..0] == [];
    while n < |t|
      invariant 0 <= n <= |t| && avd == AddedTable(t[..n], i, j, cls, avd0)
    {
      AddedTableNext(t[..n], t[n], i, j, cls, avd0);
      assert t[..n + 1] == t[..n] + [t[n]];
      avd := AddNode(avd, t[n], i, j, cls);
      n := n + 1;
    }
    assert t[..n] == t;
  }

  ghost predicate DecidedBit(db: Policydb, pairs: set<(nat, nat)>, cls: nat, avd: Avd, p: Perm) {
    && (p in avd.allowed <==> Granted(db.avtab, pairs, cls, Allowed, p) || Granted(db.cond, pairs, cls, Allowed, p))
    && (p in avd.auditallow <==> Granted(db.avtab, pairs, cls, AuditAllow, p) || Granted(db.cond, pairs, cls, AuditAllow, p))
    && (p in avd.auditdeny <==> Kept(db.avtab, pairs, cls, AuditDeny, p) && Kept(db.cond, pairs, cls, AuditDeny, p))
  }

  /** The decision that the rules between these pairs make. */
  ghost predicate Decided(db: Policydb, pairs: set<(nat, nat)>, cls: nat, avd: Avd) {
    forall p: Perm :: DecidedBit(db, pairs, cls, avd, p)
  }

  lemma {:induction false} GrantedNext(t: Table, pairs: set<(nat, nat)>, q: (nat, nat), cls: nat, kind: Kind, p: Perm)
    ensures Granted(t, pairs + {q}, cls, kind, p) <==> Granted(t, pairs, cls, kind, p) || p in Union(t, Key(q.0, q.1, cls, kind))
    ensures Kept(t, pairs + {q}, cls, kind, p) <==> Kept(t, pairs, cls, kind, p) && p in Meet(t, Key(q.0, q.1, cls, kind))
  {
    hide Union, Meet;
    if Granted(t, pairs, cls, kind, p) {
      var r :| r in pairs && p in Union(t, Key(r.0, r.1, cls, kind));
      assert r in pairs + {q};
    }
    if p in Union(t, Key(q.0, q.1, cls, kind)) {
      assert q in pairs + {q};
    }
    assert q in pairs + {q};
  }

  lemma {:induction false} DecidedNext(db: Policydb, pairs: set<(nat, nat)>, q: (nat, nat), cls: nat, avd: Avd)
    requires Decided(db, pairs, cls, avd)
    ensures Decided(db, pairs + {q}, cls, AddedTable(db.cond, q.0, q.1, cls, AddedTable(db.avtab, q.0, q.1, cls, avd)))
  {
    hide Union, Meet, Granted, Kept;
    var avd' := AddedTable(db.cond, q.0, q.1, cls, AddedTable(db.avtab, q.0, q.1, cls, avd));
    forall p: Perm
      ensures DecidedBit(db, pairs + {q}, cls, avd', p)
    {
      assert DecidedBit(db, pairs, cls, avd, p);
      GrantedNext(db.avtab, pairs, q, cls, Allowed, p);
      GrantedNext(db.cond, pairs, q, cls, Allowed, p);
      GrantedNext(db.avtab, pairs, q, cls, AuditAllow, p);
      GrantedNext(db.cond, pairs, q, cls, AuditAllow, p);
      GrantedNext(db.avtab, pairs, q, cls, AuditDeny, p);
      GrantedNext(db.cond, pairs, q, cls, AuditDeny, p);
    }
  }

  lemma DecidedEmpty(db: Policydb, cls: nat)
    ensures Decided(db, {}, cls, Avd({}, {}, AllPerms()))
  {
  }

  /** The inner loop: one source value against the attribute bitmap of the target. */
  method TargetLoop(db: Policydb, i: nat, all: set<nat>, cls: nat, avd0: Avd, ghost before: set<(nat, nat)>)
    returns (avd: Avd)
    requires Decided(db, before, cls, avd0)
    ensures Decided(db, before + Pairs({i}, all), cls, avd)
  {
    hide Decided, AddedTable;
    avd := avd0;
    var targets := all;
    ghost var done := before;
    while targets != {}
      invariant targets <= all && Decided(db, done, cls, avd)
      invariant done == before + Pairs({i}, all - targets)
      decreases |targets|
    {
      var j :| j in targets;
      DecidedNext(db, done, (i, j), cls, avd);
      avd := AddTable(db.avtab, i, j, cls, avd);
      avd := AddTable(db.cond, i, j, cls, avd);
      assert all - (targets - {j}) == (all - targets) + {j};
      done := done + {(i, j)};
      targets := targets - {j};
    }
    assert all - targets == all;
  }

  /** The nested loops over the attribute bitmaps of both types. */
  method RuleVectors(db: Policydb, s: C.Context, t: C.Context, cls: nat) returns (avd: Avd)
    requires s.typ in db.attrs && t.typ in db.attrs
    ensures Decided(db, AttrPairs(db, s, t), cls, avd)
  {
    hide Decided;
    avd := Avd({}, {}, AllPerms());
    DecidedEmpty(db, cls);
    var all := db.attrs[s.typ];
    var sources := all;
    ghost var done: set<(nat, nat)> := {};
    while sources != {}
      invariant sources <= all && Decided(db, done, cls, avd)
      invariant done == Pairs(all - sources, db.attrs[t.typ])
      decreases |sources|
    {
      var i :| i in sources;
      avd := TargetLoop(db, i, db.attrs[t.typ], cls, avd, done);
      done := done + Pairs({i}, db.attrs[t.typ]);
      assert all - (sources - {i}) == (all - sources) + {i};
      sources := sources - {i};
    }
    assert all - sources == all;
  }

  lemma {:induction false} ForbidsNext(db: Policydb, s: C.Context, t: C.Context, cs: seq<Constraint>, k: nat, p: Perm)
    requires k < |cs|
    ensures ConstraintForbids(db, s, t, cs[..k + 1], p) <==>
            ConstraintForbids(db, s, t, cs[..k], p) || (p in cs[k].perms && !Holds(db, s, t, cs[k].expr))
  {
    hide Holds;
    var more, less := cs[..k + 1], cs[..k];
    assert forall i :: 0 <= i < k ==> more[i] == less[i];
    if ConstraintForbids(db, s, t, less, p) {
      var i :| 0 <= i < |less| && p in less[i].perms && !Holds(db, s, t, less[i].expr);
      assert more[i] == less[i];
    }
    assert more[k] == cs[k];
  }

  /** Legal trees are exactly those that the evaluator can run without a third context: which trees
      they are depends neither on the policy nor on the two contexts. */
  lemma {:induction false} LegalIffWellTyped(env: C.Env, t: C.Tree)
    requires env.x.None?
    ensures LegalTree(t) <==> C.WellTyped(env, t)
    decreases t
  {
    match t
    case Leaf(_) =>
    case Not(sub) => LegalIffWellTyped(env, sub);
    case And(l, r) => LegalIffWellTyped(env, l); LegalIffWellTyped(env, r);
    case Or(l, r) => LegalIffWellTyped(env, l); LegalIffWellTyped(env, r);
  }

  /** A legal constraint never hits a BUG. */
  lemma {:induction false} LegalEvaluates(db: Policydb, s: C.Context, t: C.Context, expr: seq<C.Node>)
    requires LegalExpr(expr)
    ensures C.RunStack(EnvOf(db, s, t), expr, []).Value?
  {
    var tree: C.Tree :| LegalTree(tree) && C.Postfix(tree) == expr;
    LegalIffWellTyped(EnvOf(db, s, t), tree);
    C.TreeEvaluates(EnvOf(db, s, t), tree);
  }

  /** Taking out the permissions of the constraints that fail, whatever their order. */
  method ApplyConstraints(db: Policydb, s: C.Context, t: C.Context, cs: seq<Constraint>, allowed0: Av) returns (allowed: Av)
    requires LegalConstraints(cs)
    ensures forall p: Perm :: p in allowed <==> p in allowed0 && !ConstraintForbids(db, s, t, cs, p)
  {
    allowed := allowed0;
    var k := 0;
    while k < |cs|
      invariant 0 <= k <= |cs|
      invariant forall p: Perm :: p in allowed <==> p in allowed0 && !ConstraintForbids(db, s, t, cs[..k], p)
    {
      var c := cs[k];
      ghost var before := allowed;
      LegalEvaluates(db, s, t, c.expr);
      if c.perms * allowed != {} {
        var r := C.ConstraintExprEval(EnvOf(db, s, t), c.expr);
        if r == C.Value(false) {
          allowed := allowed - c.perms;
        }
      } else {
        assert forall p: Perm :: p in before ==> p in c.perms ==> p in c.perms * before;
      }
      assert forall p: Perm :: p in allowed <==> p in before && !(p in c.perms && !Holds(db, s, t, c.expr));
      forall p: Perm
        ensures ConstraintForbids(db, s, t, cs[..k + 1], p) <==>
                ConstraintForbids(db, s, t, cs[..k], p) || (p in c.perms && !Holds(db, s, t, c.expr))
      {
        ForbidsNext(db, s, t, cs, k, p);
      }
      k := k + 1;
    }
    assert cs[..k] == cs;
  }

  /** The walk over the role-allow list. */
  method RoleListed(list: seq<(nat, nat)>, role: nat, newRole: nat) returns (found: bool)
    ensures found <==> (role, newRole) in list
  {
    var i := 0;
    while i < |list|
      invariant 0 <= i <= |list| && (role, newRole) !in list[..i]
    {
      if list[i].0 == role && list[i].1 == newRole {
        return true;
      }
      i := i + 1;
    }
    found := false;
  }

  method ApplyRoles(db: Policydb, s: C.Context, t: C.Context, cls: nat, allowed0: Av) returns (allowed: Av)
    ensures forall p: Perm :: p in allowed <==> p in allowed0 && !RoleForbids(db, s, t, cls, p)
  {
    allowed := allowed0;
    if cls == db.processClass && allowed * db.processTrans != {} && s.role != t.role {
      var found := RoleListed(db.roleAllow, s.role, t.role);
      if !found {
        allowed := allowed - db.processTrans;
      }
    } else {
      assert forall p: Perm :: p in allowed && p in db.processTrans ==> p in allowed * db.processTrans;
    }
  }

  /** The audit vectors come from the rules alone. */
  ghost predicate Audited(db: Policydb, s: C.Context, t: C.Context, cls: nat, avd: Avd)
    requires s.typ in db.attrs && t.typ in db.attrs
  {
    if cls in db.constraints then
      exists allowed: Av :: Decided(db, AttrPairs(db, s, t), cls, avd.(allowed := allowed))
    else avd.auditallow == {} && avd.auditdeny == AllPerms()
  }

  /** context_struct_compute_av, without extended permissions. */
  method ComputeAv(db: Policydb, s: C.Context, t: C.Context, cls: nat, ghost rank: map<nat, nat>) returns (avd: Avd)
    requires PolicyOk(db) && ContextsOk(db, s, t) && Acyclic(db, rank)
    ensures forall p: Perm :: p in avd.allowed <==> Allows(db, rank, s, t, cls, p)
    ensures Audited(db, s, t, cls, avd)
    decreases rank[s.typ], 1
  {
    if cls !in db.constraints {
      return Avd({}, {}, AllPerms());
    }
    avd := RuleVectors(db, s, t, cls);
    ghost var rules := avd;
    forall p: Perm
      ensures p in avd.allowed <==> RuleAllows(db, s, t, cls, p)
    {
      assert DecidedBit(db, AttrPairs(db, s, t), cls, avd, p);
    }
    hide Decided, RuleAllows, ConstraintForbids, RoleForbids;
    var allowed := ApplyConstraints(db, s, t, db.constraints[cls], avd.allowed);
    allowed := ApplyRoles(db, s, t, cls, allowed);
    assert forall p: Perm :: p in allowed <==> OwnAllows(db, s, t, cls, p);
    allowed := BoundsAv(db, s, t, cls, allowed, rank);
    avd := avd.(allowed := allowed);
    assert avd.(allowed := rules.allowed) == rules;
  }

  /** type_attribute_bounds_av */
  method BoundsAv(db: Policydb, s: C.Context, t: C.Context, cls: nat, allowed0: Av, ghost rank: map<nat, nat>)
    returns (allowed: Av)
    requires PolicyOk(db) && ContextsOk(db, s, t) && Acyclic(db, rank)
    ensures forall p: Perm :: p in allowed <==>
              p in allowed0 && (Bounded(db, s) ==> Allows(db, rank, Up(db, s), Up(db, t), cls, p))
    decreases rank[s.typ], 0
  {
    allowed := allowed0;
    if db.bounds[s.typ] == 0 {
      return;
    }
    var loS := s.(typ := db.bounds[s.typ]);
    var loT := if db.bounds[t.typ] != 0 then t.(typ := db.bounds[t.typ]) else t;
    var lo := ComputeAv(db, loS, loT, cls, rank);
    var masked := allowed - lo.allowed;
    if masked != {} {
      allowed := allowed - masked;
    } else {
      assert forall p: Perm :: p in allowed && p !in lo.allowed ==> p in masked;
    }
  }

  // ---- what roles do ----------------------------------------------------------------------

  lemma {:induction false} OwnWithoutRoles(db: Policydb, s: C.Context, t: C.Context, cls: nat, p: Perm)
    requires s.typ in db.attrs && t.typ in db.attrs
    ensures OwnAllows(db, s, t, cls, p) <==>
            && OwnAllows(db.(processTrans := {}), s, t, cls, p)
            && !(cls == db.processClass && p in db.processTrans && s.role != t.role && (s.role, t.role) !in db.roleAllow)
  {
    hide Granted;
    var free := db.(processTrans := {});
    assert EnvOf(free, s, t) == EnvOf(db, s, t);
    if cls in db.constraints {
      var cs := db.constraints[cls];
      assert forall k :: 0 <= k < |cs| ==> Holds(free, s, t, cs[k].expr) == Holds(db, s, t, cs[k].expr);
      hide Holds;
    }
  }

  /** Roles only matter to the transition permissions of the process class, and these need a rule
      that lets the source's role become the target's, in that direction. */
  lemma {:induction false} RoleChangeNeedsRule(db: Policydb, rank: map<nat, nat>, s: C.Context, t: C.Context, cls: nat, p: Perm)
    requires PolicyOk(db) && ContextsOk(db, s, t) && Acyclic(db, rank)
    ensures PolicyOk(db.(processTrans := {})) && Acyclic(db.(processTrans := {}), rank)
    ensures Allows(db, rank, s, t, cls, p) <==>
            && Allows(db.(processTrans := {}), rank, s, t, cls, p)
            && !(cls == db.processClass && p in db.processTrans && s.role != t.role && (s.role, t.role) !in db.roleAllow)
    decreases rank[s.typ]
  {
    hide OwnAllows;
    OwnWithoutRoles(db, s, t, cls, p);
    if Bounded(db, s) {
      RoleChangeNeedsRule(db, rank, Up(db, s), Up(db, t), cls, p);
    }
  }

  // ---- what bounds guarantee --------------------------------------------------------------

  /** How many bounding types there are above a type. */
  ghost function Height(db: Policydb, rank: map<nat, nat>, typ: nat): nat
    requires PolicyOk(db) && Acyclic(db, rank) && typ in db.bounds
    decreases rank[typ]
  {
    if db.bounds[typ] == 0 then 0 else 1 + Height(db, rank, db.bounds[typ])
  }

  ghost function Ancestor(db: Policydb, c: C.Context, k: nat): (a: C.Context)
    requires PolicyOk(db) && c.typ in db.bounds
    ensures a.typ in db.bounds
    decreases k
  {
    if k == 0 then c else Ancestor(db, Up(db, c), k - 1)
  }

  /** The pair k steps up allows p by itself. */
  ghost predicate PairAllows(db: Policydb, s: C.Context, t: C.Context, cls: nat, p: Perm, k: nat)
    requires PolicyOk(db) && ContextsOk(db, s, t)
  {
    OwnAllows(db, Ancestor(db, s, k), Ancestor(db, t, k), cls, p)
  }

  /** A permission is allowed exactly when the rules, constraints and roles of the pair and of
      every bounding pair above it allow it. */
  lemma {:induction false} AllowsIffEveryAncestorPair(db: Policydb, rank: map<nat, nat>, s: C.Context, t: C.Context, cls: nat, p: Perm)
    requires PolicyOk(db) && ContextsOk(db, s, t) && Acyclic(db, rank)
    ensures Allows(db, rank, s, t, cls, p) <==>
            forall k: nat :: k <= Height(db, rank, s.typ) ==> PairAllows(db, s, t, cls, p, k)
    decreases rank[s.typ]
  {
    assert PairAllows(db, s, t, cls, p, 0) <==> OwnAllows(db, s, t, cls, p);
    if Bounded(db, s) {
      var s1, t1 := Up(db, s), Up(db, t);
      AllowsIffEveryAncestorPair(db, rank, s1, t1, cls, p);
      hide OwnAllows;
      forall k: nat
        ensures PairAllows(db, s, t, cls, p, k + 1) <==> PairAllows(db, s1, t1, cls, p, k)
      {
      }
      hide PairAllows, PolicyOk, Acyclic;
      if forall k: nat :: k <= Height(db, rank, s1.typ) ==> PairAllows(db, s1, t1, cls, p, k) {
        forall k: nat | k <= Height(db, rank, s.typ) && PairAllows(db, s, t, cls, p, 0)
          ensures PairAllows(db, s, t, cls, p, k)
        {
          if k > 0 {
            assert PairAllows(db, s1, t1, cls, p, k - 1);
          }
        }
      } else {
        var k: nat :| k <= Height(db, rank, s1.typ) && !PairAllows(db, s1, t1, cls, p, k);
        assert !PairAllows(db, s, t, cls, p, k + 1);
      }
    }
  }

  /** So a bounded type never has a permission that one of its ancestor pairs lacks. */
  lemma {:induction false} BoundedNeverExceeds(db: Policydb, rank: map<nat, nat>, s: C.Context, t: C.Context, cls: nat, p: Perm, k: nat)
    requires PolicyOk(db) && ContextsOk(db, s, t) && Acyclic(db, rank)
    requires Allows(db, rank, s, t, cls, p) && k <= Height(db, rank, s.typ)
    ensures Allows(db, rank, Ancestor(db, s, k), Ancestor(db, t, k), cls, p)
    decreases k
  {
    if k > 0 {
      BoundedNeverExceeds(db, rank, Up(db, s), Up(db, t), cls, p, k - 1);
    }
  }
}
