/** Constraint expressions: the postfix stack machine constraint_expr_eval of
    kernel/feature/selinux_hide.c, and the expression trees whose postfix form it runs. */
module ConstraintExpr {
  import opened Bytes

  // security/selinux/ss/constraint.h in the kernel tree
  const CEXPR_MAXDEPTH: nat := 5

  datatype Level = Level(sens: nat, cats: set<nat>)

  datatype Context = Context(user: nat, role: nat, typ: nat, low: Level, high: Level)

  datatype Attr = User | Role | Type | L1L2 | L1H2 | H1L2 | H1H2 | L1H1 | L2H2 | OtherAttr

  datatype Op = Eq | Neq | Dom | Domby | Incomp | OtherOp

  /** The bits of `attr` that a CEXPR_NAMES node tests. */
  datatype NameFlags = NameFlags(target: bool, xtarget: bool, user: bool, role: bool, typ: bool)

  /** One element of the expression list. `names` holds values, not bit numbers. */
  datatype Node =
    | NotOp
    | AndOp
    | OrOp
    | AttrTest(attr: Attr, op: Op)
    | NamesTest(flags: NameFlags, nop: Op, names: set<nat>)
    | UnknownOp

  /** What an expression is evaluated against: the roles each role dominates, and the contexts. */
  datatype Env = Env(dominates: map<nat, set<nat>>, s: Context, t: Context, x: Option<Context>)

  /** BUG() and BUG_ON stop the kernel. */
  datatype Outcome = Value(b: bool) | Bug

  predicate LevelDom(l1: Level, l2: Level) {
    l1.sens >= l2.sens && l2.cats <= l1.cats
  }

  function LevelTest(op: Op, l1: Level, l2: Level): Outcome {
    match op
    case Eq => Value(l1 == l2)
    case Neq => Value(l1 != l2)
    case Dom => Value(LevelDom(l1, l2))
    case Domby => Value(LevelDom(l2, l1))
    case Incomp => Value(!LevelDom(l2, l1) && !LevelDom(l1, l2))
    case OtherOp => Bug
  }

  function ValueTest(op: Op, v1: nat, v2: nat): Outcome {
    match op
    case Eq => Value(v1 == v2)
    case Neq => Value(v1 != v2)
    case _ => Bug
  }

  predicate Dominates(env: Env, r1: nat, r2: nat) {
    r1 in env.dominates && r2 in env.dominates[r1]
  }

  function RoleTest(env: Env, op: Op): Outcome {
    var r1, r2 := env.s.role, env.t.role;
    match op
    case Dom => Value(Dominates(env, r1, r2))
    case Domby => Value(Dominates(env, r2, r1))
    case Incomp => Value(!Dominates(env, r1, r2) && !Dominates(env, r2, r1))
    case _ => ValueTest(op, r1, r2)
  }

  function AttrOutcome(env: Env, attr: Attr, op: Op): Outcome {
    match attr
    case User => ValueTest(op, env.s.user, env.t.user)
    case Type => ValueTest(op, env.s.typ, env.t.typ)
    case Role => RoleTest(env, op)
    case L1L2 => LevelTest(op, env.s.low, env.t.low)
    case L1H2 => LevelTest(op, env.s.low, env.t.high)
    case H1L2 => LevelTest(op, env.s.high, env.t.low)
    case H1H2 => LevelTest(op, env.s.high, env.t.high)
    case L1H1 => LevelTest(op, env.s.low, env.s.high)
    case L2H2 => LevelTest(op, env.t.low, env.t.high)
    case OtherAttr => Bug
  }

  function NamesOutcome(env: Env, flags: NameFlags, op: Op, names: set<nat>): Outcome {
    if !flags.target && flags.xtarget && env.x.None? then Bug
    else
      var c := if flags.target then env.t else if flags.xtarget then env.x.value else env.s;
      if !flags.user && !flags.role && !flags.typ then Bug
      else
        var v := if flags.user then c.user else if flags.role then c.role else c.typ;
        match op
        case Eq => Value(v in names)
        case Neq => Value(v !in names)
        case _ => Bug
  }

  function LeafOutcome(env: Env, node: Node): Outcome {
    match node
    case AttrTest(attr, op) => AttrOutcome(env, attr, op)
    case NamesTest(flags, op, names) => NamesOutcome(env, flags, op, names)
    case _ => Bug
  }

  datatype Step = Go(st: seq<bool>) | Stop(outcome: Outcome)

  /** One list element on a stack value, top of stack last. */
  function StepStack(env: Env, node: Node, st: seq<bool>): Step {
    var n := |st|;
    match node
    case NotOp => if n < 1 then Stop(Bug) else Go(st[..n - 1] + [!st[n - 1]])
    case AndOp => if n < 2 then Stop(Bug) else Go(st[..n - 2] + [st[n - 2] && st[n - 1]])
    case OrOp => if n < 2 then Stop(Bug) else Go(st[..n - 2] + [st[n - 2] || st[n - 1]])
    case UnknownOp => Stop(Bug)
    case _ =>
      if n == CEXPR_MAXDEPTH then Stop(Value(false))
      else match LeafOutcome(env, node)
           case Bug => Stop(Bug)
           case Value(b) => Go(st + [b])
  }

  function RunStack(env: Env, expr: seq<Node>, st: seq<bool>): Outcome
    decreases |expr|
  {
    if expr == [] then (if |st| == 1 then Value(st[0]) else Bug)
    else match StepStack(env, expr[0], st)
         case Stop(outcome) => outcome
         case Go(st') => RunStack(env, expr[1..], st')
  }

  lemma {:induction false} RunStackEmpty(env: Env, st: seq<bool>)
    ensures RunStack(env, [], st) == if |st| == 1 then Value(st[0]) else Bug
  {
  }

  lemma {:induction false} RunStackCons(env: Env, node: Node, rest: seq<Node>, st: seq<bool>)
    ensures RunStack(env, [node] + rest, st) ==
            match StepStack(env, node, st) case Stop(outcome) => outcome case Go(st') => RunStack(env, rest, st')
  {
    assert ([node] + rest)[1..] == rest;
  }

  /** s[sp] = b */
  method ReplaceTop(s: array<bool>, sp: int, b: bool)
    requires 0 <= sp < s.Length
    modifies s
    ensures s[..sp + 1] == old(s[..sp]) + [b]
  {
    s[sp] := b;
  }

  /** The body of the loop: one list element on the array stack s with its index sp. */
  method ExecNode(env: Env, node: Node, s: array<bool>, sp: int) returns (sp': int, stop: Option<Outcome>)
    requires s.Length == CEXPR_MAXDEPTH && -1 <= sp < CEXPR_MAXDEPTH
    modifies s
    ensures -1 <= sp' < CEXPR_MAXDEPTH
    ensures StepStack(env, node, old(s[..sp + 1])) ==
            if stop.Some? then Stop(stop.value) else Go(s[..sp' + 1])
  {
    hide LeafOutcome;
    sp', stop := sp, None;
    ghost var st := s[..sp + 1];
    assert forall k :: 0 <= k <= sp + 1 ==> s[..k] == st[..k];
    match node {
      case NotOp =>
        if sp < 0 {
          return sp, Some(Bug);
        }
        ReplaceTop(s, sp, !s[sp]);
      case AndOp =>
        if sp < 1 {
          return sp, Some(Bug);
        }
        sp' := sp - 1;
        ReplaceTop(s, sp', s[sp'] && s[sp' + 1]);
      case OrOp =>
        if sp < 1 {
          return sp, Some(Bug);
        }
        sp' := sp - 1;
        ReplaceTop(s, sp', s[sp'] || s[sp' + 1]);
      case UnknownOp =>
        return sp, Some(Bug);
      case _ =>
        if sp == CEXPR_MAXDEPTH - 1 {
          return sp, Some(Value(false));
        }
        var leaf := LeafOutcome(env, node);
        if leaf.Bug? {
          return sp, Some(Bug);
        }
        sp' := sp + 1;
        ReplaceTop(s, sp', leaf.b);
    }
  }

  /** constraint_expr_eval: an array stack and a walk over the list. */
  method ConstraintExprEval(env: Env, expr: seq<Node>) returns (r: Outcome)
    ensures r == RunStack(env, expr, [])
  {
    hide RunStack, StepStack;
    var s := new bool[CEXPR_MAXDEPTH];
    var sp, i := -1, 0;
    assert expr[0..] == expr && s[..0] == [];
    while i < |expr|
      invariant 0 <= i <= |expr| && -1 <= sp < CEXPR_MAXDEPTH
      invariant RunStack(env, expr, []) == RunStack(env, expr[i..], s[..sp + 1])
    {
      assert expr[i..] == [expr[i]] + expr[i + 1..];
      RunStackCons(env, expr[i], expr[i + 1..], s[..sp + 1]);
      var stop;
      sp, stop := ExecNode(env, expr[i], s, sp);
      if stop.Some? {
        return stop.value;
      }
      i := i + 1;
    }
    assert expr[i..] == [];
    RunStackEmpty(env, s[..sp + 1]);
    if sp != 0 {
      return Bug;
    }
    r := Value(s[0]);
  }

  // ---- what the single tests mean, on the fields of the contexts -----------------------

  /** What a list of one test evaluates to. */
  ghost function Eval1(env: Env, node: Node): Outcome {
    RunStack(env, [node], [])
  }

  lemma {:induction false} Eval1Leaf(env: Env, node: Node)
    requires IsTest(node)
    ensures Eval1(env, node) == LeafOutcome(env, node)
  {
    hide RunStack, LeafOutcome;
    RunStackCons(env, node, [], []);
    assert [node] + [] == [node];
    if LeafOutcome(env, node).Value? {
      RunStackEmpty(env, [] + [LeafOutcome(env, node).b]);
    }
  }

  /** The level tests: a is the first level the attribute names and b the second. */
  lemma {:induction false} LevelTests(env: Env, attr: Attr, op: Op, a: Level, b: Level)
    requires || (attr.L1L2? && a == env.s.low && b == env.t.low) || (attr.L1H2? && a == env.s.low && b == env.t.high)
             || (attr.H1L2? && a == env.s.high && b == env.t.low) || (attr.H1H2? && a == env.s.high && b == env.t.high)
             || (attr.L1H1? && a == env.s.low && b == env.s.high) || (attr.L2H2? && a == env.t.low && b == env.t.high)
    ensures var r := Eval1(env, AttrTest(attr, op));
            && (op.Dom? ==> r == Value(b.sens <= a.sens && b.cats <= a.cats))
            && (op.Domby? ==> r == Value(a.sens <= b.sens && a.cats <= b.cats))
            && (op.Incomp? ==> r == Value(!(b.sens <= a.sens && b.cats <= a.cats) && !(a.sens <= b.sens && a.cats <= b.cats)))
            && (op.Eq? ==> r == Value(a.sens == b.sens && a.cats == b.cats))
            && (op.Neq? ==> r == Value(a.sens != b.sens || a.cats != b.cats))
            && (op.OtherOp? ==> r == Bug)
  {
    Eval1Leaf(env, AttrTest(attr, op));
  }

  /** The tests of users, types and roles; roles also compare by the role-dominance relation. */
  lemma {:induction false} ValueTests(env: Env, op: Op)
    ensures var (u, y, r) := (Eval1(env, AttrTest(User, op)), Eval1(env, AttrTest(Type, op)), Eval1(env, AttrTest(Role, op)));
            var (s, t, d) := (env.s, env.t, env.dominates);
            && (op.Eq? ==> u == Value(s.user == t.user) && y == Value(s.typ == t.typ) && r == Value(s.role == t.role))
            && (op.Neq? ==> u == Value(s.user != t.user) && y == Value(s.typ != t.typ) && r == Value(s.role != t.role))
            && (!op.Eq? && !op.Neq? ==> u == Bug && y == Bug)
            && (op.Dom? ==> r == Value(s.role in d && t.role in d[s.role]))
            && (op.Domby? ==> r == Value(t.role in d && s.role in d[t.role]))
            && (op.Incomp? ==> r == Value(!(s.role in d && t.role in d[s.role]) && !(t.role in d && s.role in d[t.role])))
            && (op.OtherOp? ==> r == Bug)
            && Eval1(env, AttrTest(OtherAttr, op)) == Bug
  {
    Eval1Leaf(env, AttrTest(User, op));
    Eval1Leaf(env, AttrTest(Type, op));
    Eval1Leaf(env, AttrTest(Role, op));
    Eval1Leaf(env, AttrTest(OtherAttr, op));
  }

  /** The tests against a set of names: c is the context the flags pick, v the field they pick. */
  lemma {:induction false} NamesTests(env: Env, flags: NameFlags, op: Op, names: set<nat>, c: Context, v: nat)
    requires || (flags.target && c == env.t) || (!flags.target && flags.xtarget && env.x == Some(c))
             || (!flags.target && !flags.xtarget && c == env.s)
    requires || (flags.user && v == c.user) || (!flags.user && flags.role && v == c.role)
             || (!flags.user && !flags.role && flags.typ && v == c.typ)
    ensures var r := Eval1(env, NamesTest(flags, op, names));
            && (op.Eq? ==> r == Value(v in names)) && (op.Neq? ==> r == Value(v !in names))
            && (!op.Eq? && !op.Neq? ==> r == Bug)
  {
    Eval1Leaf(env, NamesTest(flags, op, names));
  }

  /** A test against names stops the kernel when the third context is missing or no field is picked. */
  lemma {:induction false} NamesBug(env: Env, flags: NameFlags, op: Op, names: set<nat>)
    requires (!flags.target && flags.xtarget && env.x.None?) || (!flags.user && !flags.role && !flags.typ)
    ensures Eval1(env, NamesTest(flags, op, names)) == Bug
  {
    Eval1Leaf(env, NamesTest(flags, op, names));
  }

  // ---- exchanging the two contexts ----------------------------------------------------

  /** The environment with source and target exchanged. */
  ghost function Exchanged(env: Env): Env {
    env.(s := env.t, t := env.s)
  }

  /** The test that asks of the exchanged contexts what `node` asks of the given ones. */
  ghost function Mirror(node: Node): Node {
    match node
    case AttrTest(L1H1, op) => AttrTest(L2H2, op)
    case AttrTest(L2H2, op) => AttrTest(L1H1, op)
    case AttrTest(attr, op) =>
      AttrTest(if attr.L1H2? then H1L2 else if attr.H1L2? then L1H2 else attr,
               if op.Dom? then Domby else if op.Domby? then Dom else op)
    case NamesTest(f, op, names) =>
      NamesTest(f.(target := !f.target && !f.xtarget, xtarget := !f.target && f.xtarget), op, names)
    case _ => node
  }

  ghost function MirrorAll(expr: seq<Node>): (r: seq<Node>)
    ensures |r| == |expr|
  {
    if expr == [] then [] else [Mirror(expr[0])] + MirrorAll(expr[1..])
  }

  lemma {:induction false} MirrorLeaf(env: Env, node: Node)
    requires IsTest(node)
    ensures IsTest(Mirror(node)) && LeafOutcome(Exchanged(env), Mirror(node)) == LeafOutcome(env, node)
  {
  }

  /** Any list of nodes, on any stack, gives the same for exchanged contexts when dominating and being
      dominated, and the sides the tests name, are exchanged too. */
  lemma {:induction false} ExchangeContexts(env: Env, expr: seq<Node>, st: seq<bool>)
    ensures RunStack(Exchanged(env), MirrorAll(expr), st) == RunStack(env, expr, st)
    decreases |expr|
  {
    hide LeafOutcome, Exchanged, Mirror;
    if expr != [] {
      var node := expr[0];
      assert StepStack(Exchanged(env), Mirror(node), st) == StepStack(env, node, st) by {
        if IsTest(node) {
          MirrorLeaf(env, node);
        } else {
          MirrorOp(node);
        }
      }
      assert MirrorAll(expr)[1..] == MirrorAll(expr[1..]);
      if StepStack(env, node, st).Go? {
        ExchangeContexts(env, expr[1..], StepStack(env, node, st).st);
      }
    }
  }

  lemma {:induction false} MirrorOp(node: Node)
    requires !IsTest(node)
    ensures Mirror(node) == node
  {
  }

  /** Levels form an order: equal is dominating both ways, incomparable is neither. Roles are
      incomparable when neither dominates. */
  lemma {:induction false} OrderLaws(env: Env, attr: Attr)
    requires !attr.User? && !attr.Type? && !attr.OtherAttr?
    ensures var r := (op: Op) => Eval1(env, AttrTest(attr, op));
            && r(Dom).Value? && r(Domby).Value? && r(Incomp) == Value(!r(Dom).b && !r(Domby).b)
            && (!attr.Role? ==> r(Eq) == Value(r(Dom).b && r(Domby).b))
            && r(Eq).Value? && r(Neq) == Value(!r(Eq).b)
  {
    hide LeafOutcome, Eval1;
    forall op: Op ensures Eval1(env, AttrTest(attr, op)) == LeafOutcome(env, AttrTest(attr, op)) {
      Eval1Leaf(env, AttrTest(attr, op));
    }
    OrderLeaf(env, attr);
  }

  lemma {:induction false} OrderLeaf(env: Env, attr: Attr)
    requires !attr.User? && !attr.Type? && !attr.OtherAttr?
    ensures var r := (op: Op) => LeafOutcome(env, AttrTest(attr, op));
            && r(Dom).Value? && r(Domby).Value? && r(Incomp) == Value(!r(Dom).b && !r(Domby).b)
            && (!attr.Role? ==> r(Eq) == Value(r(Dom).b && r(Domby).b))
            && r(Eq).Value? && r(Neq) == Value(!r(Eq).b)
  {
    if attr.Role? {
    } else {
      var (a, b) := match attr
        case L1L2 => (env.s.low, env.t.low)
        case L1H2 => (env.s.low, env.t.high)
        case H1L2 => (env.s.high, env.t.low)
        case H1H2 => (env.s.high, env.t.high)
        case L1H1 => (env.s.low, env.s.high)
        case _ => (env.t.low, env.t.high);
      assert a.cats <= b.cats && b.cats <= a.cats ==> a.cats == b.cats;
    }
  }

  // ---- expression trees ---------------------------------------------------------------

  datatype Tree = Leaf(node: Node) | Not(sub: Tree) | And(left: Tree, right: Tree) | Or(left: Tree, right: Tree)

  function Postfix(t: Tree): seq<Node> {
    match t
    case Leaf(node) => [node]
    case Not(sub) => Postfix(sub) + [NotOp]
    case And(l, r) => Postfix(l) + Postfix(r) + [AndOp]
    case Or(l, r) => Postfix(l) + Postfix(r) + [OrOp]
  }

  predicate IsTest(node: Node) {
    node.AttrTest? || node.NamesTest?
  }

  /** Every leaf is a test the evaluator knows. */
  ghost predicate WellTyped(env: Env, t: Tree) {
    match t
    case Leaf(node) => IsTest(node) && LeafOutcome(env, node).Value?
    case Not(sub) => WellTyped(env, sub)
    case And(l, r) => WellTyped(env, l) && WellTyped(env, r)
    case Or(l, r) => WellTyped(env, l) && WellTyped(env, r)
  }

  ghost predicate Meaning(env: Env, t: Tree)
    requires WellTyped(env, t)
  {
    match t
    case Leaf(node) => LeafOutcome(env, node).b
    case Not(sub) => !Meaning(env, sub)
    case And(l, r) => Meaning(env, l) && Meaning(env, r)
    case Or(l, r) => Meaning(env, l) || Meaning(env, r)
  }

  function Max(a: nat, b: nat): nat {
    if a > b then a else b
  }

  /** How many stack cells the tree needs. */
  function Need(t: Tree): (n: nat)
    ensures n >= 1
  {
    match t
    case Leaf(_) => 1
    case Not(sub) => Need(sub)
    case And(l, r) => Max(Need(l), Need(r) + 1)
    case Or(l, r) => Max(Need(l), Need(r) + 1)
  }

  ghost function Size(t: Tree): (n: nat)
    ensures n >= 1
  {
    match t
    case Leaf(_) => 1
    case Not(sub) => 1 + Size(sub)
    case And(l, r) => 1 + Size(l) + Size(r)
    case Or(l, r) => 1 + Size(l) + Size(r)
  }

  /** Running a tree's postfix form pushes its meaning, or gives up if the stack is too small. */
  lemma {:induction false} PostfixPushes(env: Env, t: Tree, rest: seq<Node>, st: seq<bool>)
    requires WellTyped(env, t) && |st| <= CEXPR_MAXDEPTH
    ensures RunStack(env, Postfix(t) + rest, st) ==
            if |st| + Need(t) <= CEXPR_MAXDEPTH then RunStack(env, rest, st + [Meaning(env, t)]) else Value(false)
    decreases Size(t)
  {
    hide RunStack, LeafOutcome;
    match t
    case Leaf(node) =>
      RunStackCons(env, node, rest, st);
    case Not(sub) =>
      var tail, b := [NotOp] + rest, Meaning(env, sub);
      assert Postfix(t) + rest == Postfix(sub) + tail;
      PostfixPushes(env, sub, tail, st);
      RunStackCons(env, NotOp, rest, st + [b]);
      assert (st + [b])[..|st|] + [!b] == st + [!b];
    case And(l, r) => BinaryPushes(env, l, r, AndOp, rest, st);
    case Or(l, r) => BinaryPushes(env, l, r, OrOp, rest, st);
  }

  lemma {:induction false} BinaryStep(env: Env, op: Node, st: seq<bool>, bl: bool, br: bool)
    requires op.AndOp? || op.OrOp?
    ensures StepStack(env, op, st + [bl] + [br]) == Go(st + [if op.AndOp? then bl && br else bl || br])
  {
    var full := st + [bl] + [br];
    assert full[..|st|] == st && full[|st|] == bl && full[|st| + 1] == br;
  }

  lemma {:induction false} BinaryPushes(env: Env, l: Tree, r: Tree, op: Node, rest: seq<Node>, st: seq<bool>)
    requires WellTyped(env, l) && WellTyped(env, r) && |st| <= CEXPR_MAXDEPTH && (op.AndOp? || op.OrOp?)
    ensures var b := if op.AndOp? then Meaning(env, l) && Meaning(env, r) else Meaning(env, l) || Meaning(env, r);
            RunStack(env, Postfix(l) + Postfix(r) + [op] + rest, st) ==
            if |st| + Max(Need(l), Need(r) + 1) <= CEXPR_MAXDEPTH then RunStack(env, rest, st + [b]) else Value(false)
    decreases Size(l) + Size(r)
  {
    hide RunStack, StepStack, Postfix, Meaning, Need, WellTyped, Size;
    var tail := [op] + rest;
    assert Postfix(l) + Postfix(r) + [op] + rest == Postfix(l) + (Postfix(r) + tail);
    PostfixPushes(env, l, Postfix(r) + tail, st);
    if |st| + Need(l) <= CEXPR_MAXDEPTH {
      var bl, br := Meaning(env, l), Meaning(env, r);
      var st1 := st + [bl];
      PostfixPushes(env, r, tail, st1);
      RunStackCons(env, op, rest, st1 + [br]);
      BinaryStep(env, op, st, bl, br);
    }
  }

  /** The evaluator on the postfix form of any well-typed tree: no BUG, and the tree's meaning,
      except that a tree needing more than five cells is false. */
  lemma {:induction false} TreeEvaluates(env: Env, t: Tree)
    requires WellTyped(env, t)
    ensures RunStack(env, Postfix(t), []) == Value(Need(t) <= 5 && Meaning(env, t))
  {
    PostfixPushes(env, t, [], []);
    assert Postfix(t) + [] == Postfix(t);
  }

  // ---- and nothing else evaluates to true ----------------------------------------------

  ghost function PostfixAll(ts: seq<Tree>): seq<Node> {
    if ts == [] then [] else PostfixAll(ts[..|ts| - 1]) + Postfix(ts[|ts| - 1])
  }

  ghost predicate AllWellTyped(env: Env, ts: seq<Tree>) {
    forall i :: 0 <= i < |ts| ==> WellTyped(env, ts[i])
  }

  ghost function Meanings(env: Env, ts: seq<Tree>): (r: seq<bool>)
    requires AllWellTyped(env, ts)
    ensures |r| == |ts| && forall i :: 0 <= i < |r| ==> r[i] == Meaning(env, ts[i])
  {
    seq(|ts|, i requires 0 <= i < |ts| => Meaning(env, ts[i]))
  }

  lemma PostfixAllEmpty()
    ensures PostfixAll([]) == []
  {
  }

  lemma {:induction false} PostfixAllAppend(ts: seq<Tree>, t: Tree)
    ensures PostfixAll(ts + [t]) == PostfixAll(ts) + Postfix(t)
  {
    assert (ts + [t])[..|ts|] == ts;
  }

  lemma {:induction false} PostfixAllLast2(ts: seq<Tree>)
    requires |ts| >= 2
    ensures PostfixAll(ts) ==
            PostfixAll(ts[..|ts| - 2]) + Postfix(ts[|ts| - 2]) + Postfix(ts[|ts| - 1])
  {
    var us := ts[..|ts| - 1];
    assert us[..|us| - 1] == ts[..|ts| - 2];
  }

  /** A machine step seen on trees: the stack of trees after reading one node. */
  ghost function StepTrees(ts: seq<Tree>, node: Node): seq<Tree>
    requires node.NotOp? ==> |ts| >= 1
    requires node.AndOp? || node.OrOp? ==> |ts| >= 2
  {
    var n := |ts|;
    match node
    case NotOp => ts[..n - 1] + [Not(ts[n - 1])]
    case AndOp => ts[..n - 2] + [And(ts[n - 2], ts[n - 1])]
    case OrOp => ts[..n - 2] + [Or(ts[n - 2], ts[n - 1])]
    case _ => ts + [Leaf(node)]
  }

  lemma {:induction false} StepTreesSound(env: Env, ts: seq<Tree>, node: Node)
    requires AllWellTyped(env, ts) && StepStack(env, node, Meanings(env, ts)).Go?
    ensures AllWellTyped(env, StepTrees(ts, node))
    ensures StepStack(env, node, Meanings(env, ts)) == Go(Meanings(env, StepTrees(ts, node)))
  {
  }

  lemma {:induction false} StepTreesPostfix(ts: seq<Tree>, node: Node)
    requires node.NotOp? ==> |ts| >= 1
    requires node.AndOp? || node.OrOp? ==> |ts| >= 2
    ensures PostfixAll(StepTrees(ts, node)) == PostfixAll(ts) + [node]
  {
    var n := |ts|;
    match node
    case NotOp => PostfixAllAppend(ts[..n - 1], Not(ts[n - 1]));
    case AndOp => PostfixAllLast2(ts); PostfixAllAppend(ts[..n - 2], And(ts[n - 2], ts[n - 1]));
    case OrOp => PostfixAllLast2(ts); PostfixAllAppend(ts[..n - 2], Or(ts[n - 2], ts[n - 1]));
    case _ => PostfixAllAppend(ts, Leaf(node));
  }

  /** No step stops with a true value, and a step that goes on found its operands. */
  lemma {:induction false} GoWhenTrue(env: Env, node: Node, st: seq<bool>)
    ensures var step := StepStack(env, node, st);
            if step.Stop? then step.outcome != Value(true)
            else (node.NotOp? ==> |st| >= 1) && (node.AndOp? || node.OrOp? ==> |st| >= 2)
  {
  }

  /** If the machine, with the meanings of `ts` on its stack, ends in a true value, then what it
      has read and what it still reads is one tree. */
  lemma {:induction false} TrueIsATree(env: Env, ts: seq<Tree>, expr: seq<Node>) returns (t: Tree)
    requires AllWellTyped(env, ts) && RunStack(env, expr, Meanings(env, ts)) == Value(true)
    ensures WellTyped(env, t) && Postfix(t) == PostfixAll(ts) + expr
    decreases |expr|
  {
    hide Postfix, PostfixAll, StepTrees, StepStack, LeafOutcome;
    if expr == [] {
      t := ts[0];
      PostfixAllAppend([], t);
      PostfixAllEmpty();
      assert ts == [] + [t] && PostfixAll(ts) + expr == Postfix(t);
    } else {
      GoWhenTrue(env, expr[0], Meanings(env, ts));
      StepTreesSound(env, ts, expr[0]);
      StepTreesPostfix(ts, expr[0]);
      t := TrueIsATree(env, StepTrees(ts, expr[0]), expr[1..]);
      assert expr == [expr[0]] + expr[1..];
      assert PostfixAll(ts) + [expr[0]] + expr[1..] == PostfixAll(ts) + expr;
    }
  }

  ghost predicate TreeHolds(env: Env, expr: seq<Node>, t: Tree) {
    WellTyped(env, t) && Postfix(t) == expr && Need(t) <= 5 && Meaning(env, t)
  }

  /** A list of nodes evaluates to true exactly when it is the postfix form of a well-typed tree
      that fits the stack and means true. */
  lemma {:induction false} TrueIffTreeHolds(env: Env, expr: seq<Node>)
    ensures RunStack(env, expr, []) == Value(true) <==> exists t: Tree :: TreeHolds(env, expr, t)
  {
    if RunStack(env, expr, []) == Value(true) {
      assert Meanings(env, []) == [];
      var t := TrueIsATree(env, [], expr);
      assert PostfixAll([]) + expr == expr;
      TreeEvaluates(env, t);
      assert TreeHolds(env, expr, t);
    }
    if t: Tree :| TreeHolds(env, expr, t) {
      TreeEvaluates(env, t);
    }
  }
}
