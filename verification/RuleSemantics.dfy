/** What an edit of the rule table (kernel/selinux/sepolicy.c) does to the decisions that the
    evaluator (kernel/feature/selinux_hide.c) makes from it. */
module RuleSemantics {
  import opened Bytes
  import opened Policy
  import opened PolicyEditor
  import opened AccessVector
  import C = ConstraintExpr

  lemma {:induction false} CollectedNothing(key: Key)
    requires IsAv(key.kind)
    ensures Union([], key) == {} && Meet([], key) == AllPerms() && Effective([], key) == Default(key.kind)
  {
  }

  lemma {:induction false} LessOk(t: Table)
    requires TableOk(t) && t != []
    ensures TableOk(t[..|t| - 1]) && (IsAv(t[|t| - 1].key.kind) ==> !HasKey(t[..|t| - 1], t[|t| - 1].key))
  {
  }

  lemma {:induction false} SameWithoutLast(t: Table, key: Key)
    requires TableOk(t) && IsAv(key.kind) && t != [] && t[|t| - 1].key != key && TableOk(t[..|t| - 1])
    ensures Effective(t[..|t| - 1], key) == Effective(t, key)
  {
    var less := t[..|t| - 1];
    if k :| 0 <= k < |less| && less[k].key == key {
      assert t[k] == less[k];
      EffectiveAt(t, k);
      EffectiveAt(less, k);
    } else {
      EffectiveDefault(less, key);
      assert forall k :: 0 <= k < |less| ==> t[k] == less[k];
      EffectiveDefault(t, key);
    }
  }

  /** With one entry per key, what the evaluator collects for a key is its effective vector. */
  lemma {:induction false} CollectedIsEffective(t: Table, key: Key)
    requires TableOk(t) && IsAv(key.kind)
    ensures !key.kind.AuditDeny? ==> Union(t, key) == Effective(t, key)
    ensures key.kind.AuditDeny? ==> Meet(t, key) == Effective(t, key)
  {
    hide Effective, Union, Meet;
    CollectedNothing(key);
    if t != [] {
      var n := |t| - 1;
      var less, node := t[..n], t[n];
      assert t == less + [node];
      LessOk(t);
      CollectedIsEffective(less, key);
      UnionNext(less, node, key);
      if node.key == key {
        EffectiveAt(t, n);
        EffectiveDefault(less, key);
      } else {
        SameWithoutLast(t, key);
      }
    }
  }

  /** What the evaluator collects for a key: the bits of any of its entries, or of all of them for
      a rule that takes auditing away. */
  ghost function Collected(t: Table, key: Key): Av {
    if key.kind.AuditDeny? then Meet(t, key) else Union(t, key)
  }

  /** A bit of one key after an edit that met no failed allocation. */
  lemma {:induction false} BitAfterEdit(before: Table, after: Table, keys: iset<Key>, e: Edit, key: Key, p: Perm)
    requires Edited(before, after, keys, e, true) && IsAv(key.kind)
    ensures p in Collected(after, key) <==>
            if key in keys && (e.perm.None? || e.perm == Some(p)) then !e.invert else p in Collected(before, key)
  {
    assert KeyEdited(before, after, key in keys, e, true, key);
    CollectedIsEffective(before, key);
    CollectedIsEffective(after, key);
  }

  lemma {:induction false} BitAfter(before: Table, after: Table, keys: iset<Key>, e: Edit, key: Key, p: Perm)
    requires Edited(before, after, keys, e, true) && key.kind.Allowed?
    ensures p in Union(after, key) <==>
            if key in keys && (e.perm.None? || e.perm == Some(p)) then !e.invert else p in Union(before, key)
  {
    hide Edited, Union;
    BitAfterEdit(before, after, keys, e, key, p);
  }

  ghost predicate IsDeclared(types: seq<TypeDatum>, v: nat) {
    exists i :: 0 <= i < |types| && types[i].value == v
  }

  ghost predicate IsAttribute(types: seq<TypeDatum>, v: nat) {
    exists i :: 0 <= i < |types| && types[i].value == v && types[i].attribute
  }

  /** The keys that a rule of class cls between all types and all types is written for: attributes
      only, unless it removes allow or auditallow bits or adds auditdeny bits. */
  lemma {:induction false} WildcardKeys(types: seq<TypeDatum>, classes: seq<ClassDatum>, cls: ClassDatum, e: Edit, key: Key)
    requires ValidEdit(e)
    ensures var named := key in Expansion(types, types, classes, None, None, Some(cls), e);
            && (e.kind.Allowed? && !e.invert ==>
                 (named <==> key.kind == Allowed && key.cls == cls.value && IsAttribute(types, key.source) && IsAttribute(types, key.target)))
            && (e.kind.Allowed? && e.invert ==>
                 (named <==> key.kind == Allowed && key.cls == cls.value && IsDeclared(types, key.source) && IsDeclared(types, key.target)))
            && (e.kind.AuditAllow? && !e.invert ==>
                 (named <==> key.kind == AuditAllow && key.cls == cls.value && IsAttribute(types, key.source) && IsAttribute(types, key.target)))
            && (e.kind.AuditAllow? && e.invert ==>
                 (named <==> key.kind == AuditAllow && key.cls == cls.value && IsDeclared(types, key.source) && IsDeclared(types, key.target)))
            && (e.kind.AuditDeny? && !e.invert ==>
                 (named <==> key.kind == AuditDeny && key.cls == cls.value && IsDeclared(types, key.source) && IsDeclared(types, key.target)))
            && (e.kind.AuditDeny? && e.invert ==>
                 (named <==> key.kind == AuditDeny && key.cls == cls.value && IsAttribute(types, key.source) && IsAttribute(types, key.target)))
  {
    hide IsDeclared, IsAttribute, SelectsType;
    SelectsAll(types, Strips(e), key.source);
    SelectsAll(types, Strips(e), key.target);
  }

  lemma SelectsAll(types: seq<TypeDatum>, strip: bool, v: nat)
    ensures SelectsType(types, None, strip, v) <==> if strip then IsDeclared(types, v) else IsAttribute(types, v)
  {
  }

  // ---- the audit rules ------------------------------------------------------------------

  ghost predicate AttributePair(types: seq<TypeDatum>, pairs: set<(nat, nat)>) {
    exists q :: q in pairs && IsAttribute(types, q.0) && IsAttribute(types, q.1)
  }

  /** dontaudit(ALL, ALL, cls, p): afterwards denials of p in cls go unlogged for a pair exactly where
      they did before or where both sides carry an attribute; every other bit is as before. */
  lemma {:induction false} DontauditReachesAttributes(before: Table, after: Table, types: seq<TypeDatum>, classes: seq<ClassDatum>,
                                                      cls: ClassDatum, p: Perm, pairs: set<(nat, nat)>, c: nat, p': Perm)
    requires var e := Edit(AuditDeny, true, Some(p));
             Edited(before, after, Expansion(types, types, classes, None, None, Some(cls), e), e, true)
    ensures Kept(after, pairs, c, AuditDeny, p') <==>
            Kept(before, pairs, c, AuditDeny, p') && !(c == cls.value && p' == p && AttributePair(types, pairs))
  {
    hide Edited, Meet, IsAttribute;
    var e := Edit(AuditDeny, true, Some(p));
    var keys := Expansion(types, types, classes, None, None, Some(cls), e);
    forall q | q in pairs
      ensures p' in Meet(after, Key(q.0, q.1, c, AuditDeny)) <==>
              && p' in Meet(before, Key(q.0, q.1, c, AuditDeny))
              && !(c == cls.value && p' == p && IsAttribute(types, q.0) && IsAttribute(types, q.1))
    {
      WildcardKeys(types, classes, cls, e, Key(q.0, q.1, c, AuditDeny));
      hide Expansion;
      BitAfterEdit(before, after, keys, e, Key(q.0, q.1, c, AuditDeny), p');
    }
  }

  /** auditallow(ALL, ALL, cls, p), likewise for what is logged when granted. */
  lemma {:induction false} AuditallowReachesAttributes(before: Table, after: Table, types: seq<TypeDatum>, classes: seq<ClassDatum>,
                                                       cls: ClassDatum, p: Perm, pairs: set<(nat, nat)>, c: nat, p': Perm)
    requires var e := Edit(AuditAllow, false, Some(p));
             Edited(before, after, Expansion(types, types, classes, None, None, Some(cls), e), e, true)
    ensures Granted(after, pairs, c, AuditAllow, p') <==>
            Granted(before, pairs, c, AuditAllow, p') || (c == cls.value && p' == p && AttributePair(types, pairs))
  {
    hide Edited, Union, IsAttribute;
    var e := Edit(AuditAllow, false, Some(p));
    var keys := Expansion(types, types, classes, None, None, Some(cls), e);
    forall q | q in pairs
      ensures p' in Union(after, Key(q.0, q.1, c, AuditAllow)) <==>
              || p' in Union(before, Key(q.0, q.1, c, AuditAllow))
              || (c == cls.value && p' == p && IsAttribute(types, q.0) && IsAttribute(types, q.1))
    {
      WildcardKeys(types, classes, cls, e, Key(q.0, q.1, c, AuditAllow));
      hide Expansion;
      BitAfterEdit(before, after, keys, e, Key(q.0, q.1, c, AuditAllow), p');
    }
  }

  /** The audit bits of a decision, from the two tables. */
  lemma {:induction false} AuditBits(db: Policydb, s: C.Context, t: C.Context, cls: nat, avd: Avd, p: Perm)
    requires s.typ in db.attrs && t.typ in db.attrs && cls in db.constraints && Audited(db, s, t, cls, avd)
    ensures var pairs := AttrPairs(db, s, t);
            && (p in avd.auditdeny <==> Kept(db.avtab, pairs, cls, AuditDeny, p) && Kept(db.cond, pairs, cls, AuditDeny, p))
            && (p in avd.auditallow <==> Granted(db.avtab, pairs, cls, AuditAllow, p) || Granted(db.cond, pairs, cls, AuditAllow, p))
  {
    hide Granted, Kept;
    var pairs := AttrPairs(db, s, t);
    var allowed: Av :| Decided(db, pairs, cls, avd.(allowed := allowed));
    assert DecidedBit(db, pairs, cls, avd.(allowed := allowed), p);
  }

  /** What the wildcarded dontaudit does to the decision of any two contexts. */
  lemma {:induction false} DontauditReachesDecision(db: Policydb, after: Table, types: seq<TypeDatum>, classes: seq<ClassDatum>,
                                                    cls: ClassDatum, p: Perm, s: C.Context, t: C.Context, c: nat,
                                                    avd: Avd, avd': Avd, p': Perm)
    requires var e := Edit(AuditDeny, true, Some(p));
             Edited(db.avtab, after, Expansion(types, types, classes, None, None, Some(cls), e), e, true)
    requires s.typ in db.attrs && t.typ in db.attrs && c in db.constraints
    requires Audited(db, s, t, c, avd) && Audited(db.(avtab := after), s, t, c, avd')
    ensures p' in avd'.auditdeny <==>
            && p' in avd.auditdeny
            && !(c == cls.value && p' == p && AttributePair(types, Pairs(db.attrs[s.typ], db.attrs[t.typ])))
  {
    hide Edited, Audited, Kept, Granted, AttributePair;
    AuditBits(db, s, t, c, avd, p');
    AuditBits(db.(avtab := after), s, t, c, avd', p');
    DontauditReachesAttributes(db.avtab, after, types, classes, cls, p, AttrPairs(db, s, t), c, p');
  }

  // ---- allow and deny -------------------------------------------------------------------

  ghost predicate DeclaredPairs(types: seq<TypeDatum>, pairs: set<(nat, nat)>) {
    forall q :: q in pairs ==> IsDeclared(types, q.0) && IsDeclared(types, q.1)
  }

  /** A fully wildcarded deny of a class permission, whether it reports success (`ok`) or not:
      afterwards no pair of declared types gets that bit from the rule table, and every other bit of
      every class is as before. */
  lemma {:induction false} DenyRemovesEverywhere(before: Table, after: Table, types: seq<TypeDatum>, classes: seq<ClassDatum>,
                                                 cls: ClassDatum, p: Perm, ok: bool, pairs: set<(nat, nat)>, c: nat, p': Perm)
    requires var e := Edit(Allowed, true, Some(p));
             Edited(before, after, Expansion(types, types, classes, None, None, Some(cls), e), e, Complete(e, ok))
    requires DeclaredPairs(types, pairs)
    ensures Granted(after, pairs, c, Allowed, p') <==> !(c == cls.value && p' == p) && Granted(before, pairs, c, Allowed, p')
  {
    hide Edited, Union;
    var e := Edit(Allowed, true, Some(p));
    var keys := Expansion(types, types, classes, None, None, Some(cls), e);
    forall q | q in pairs
      ensures p' in Union(after, Key(q.0, q.1, c, Allowed)) <==>
              !(c == cls.value && p' == p) && p' in Union(before, Key(q.0, q.1, c, Allowed))
    {
      BitAfter(before, after, keys, e, Key(q.0, q.1, c, Allowed), p');
    }
  }

  ghost predicate IsClass(classes: seq<ClassDatum>, c: nat) {
    exists i :: 0 <= i < |classes| && classes[i].value == c
  }

  ghost predicate HasAttribute(types: seq<TypeDatum>, values: set<nat>) {
    exists a :: a in values && IsAttribute(types, a)
  }

  /** allow(src, ALL, ALL, ALL): afterwards a source that acts as src gets every bit of every
      declared class on exactly those targets that carry an attribute, and nothing else changes.
      The rules are written for attributes only, the deny above for all types. */
  lemma {:induction false} AllowReachesAttributes(before: Table, after: Table, types: seq<TypeDatum>, classes: seq<ClassDatum>,
                                                  src: TypeDatum, sources: set<nat>, targets: set<nat>, c: nat, p: Perm)
    requires var e := Edit(Allowed, false, None);
             Edited(before, after, Expansion(types, types, classes, Some(src), None, None, e), e, true)
    ensures Granted(after, Pairs(sources, targets), c, Allowed, p) <==>
            || (src.value in sources && HasAttribute(types, targets) && IsClass(classes, c))
            || Granted(before, Pairs(sources, targets), c, Allowed, p)
  {
    hide Edited, Union, SelectsType, SelectsClass, IsAttribute, IsClass;
    var e, pairs := Edit(Allowed, false, None), Pairs(sources, targets);
    var keys := Expansion(types, types, classes, Some(src), None, None, e);
    SelectsSome(types, classes, src, src.value, c);
    forall q | q in pairs
      ensures p in Union(after, Key(q.0, q.1, c, Allowed)) <==>
              || (q.0 == src.value && IsAttribute(types, q.1) && IsClass(classes, c))
              || p in Union(before, Key(q.0, q.1, c, Allowed))
    {
      BitAfter(before, after, keys, e, Key(q.0, q.1, c, Allowed), p);
      SelectsSome(types, classes, src, q.0, c);
      SelectsAll(types, false, q.1);
    }
    if src.value in sources && HasAttribute(types, targets) && IsClass(classes, c) {
      var a :| a in targets && IsAttribute(types, a);
      assert (src.value, a) in pairs;
      assert p in Union(after, Key((src.value, a).0, (src.value, a).1, c, Allowed));
    }
  }

  lemma SelectsSome(types: seq<TypeDatum>, classes: seq<ClassDatum>, src: TypeDatum, v: nat, c: nat)
    ensures SelectsType(types, Some(src), false, v) <==> v == src.value
    ensures SelectsClass(classes, None, c) <==> IsClass(classes, c)
  {
  }

  // ---- from the editor to the decision ----------------------------------------------------

  /** What a bit of the rule table is after an edit. */
  ghost predicate BitNow(before: Table, keys: iset<Key>, e: Edit, key: Key, p: Perm) {
    if key in keys && (e.perm.None? || e.perm == Some(p)) then !e.invert else p in Union(before, key)
  }

  /** After an edit some rule between the two contexts has bit p. */
  ghost predicate RuleNow(db: Policydb, keys: iset<Key>, e: Edit, s: C.Context, t: C.Context, cls: nat, p: Perm)
    requires s.typ in db.attrs && t.typ in db.attrs
  {
    || (exists q :: q in AttrPairs(db, s, t) && BitNow(db.avtab, keys, e, Key(q.0, q.1, cls, Allowed), p))
    || Granted(db.cond, AttrPairs(db, s, t), cls, Allowed, p)
  }

  /** What constraints and roles leave of the rules' answer. */
  ghost predicate Passes(db: Policydb, s: C.Context, t: C.Context, cls: nat, p: Perm) {
    cls in db.constraints && !ConstraintForbids(db, s, t, db.constraints[cls], p) && !RoleForbids(db, s, t, cls, p)
  }

  ghost predicate PairNow(db: Policydb, keys: iset<Key>, e: Edit, s: C.Context, t: C.Context, cls: nat, p: Perm, k: nat)
    requires PolicyOk(db) && ContextsOk(db, s, t)
  {
    var s1, t1 := Ancestor(db, s, k), Ancestor(db, t, k);
    RuleNow(db, keys, e, s1, t1, cls, p) && Passes(db, s1, t1, cls, p)
  }

  lemma {:induction false} SameAncestor(db: Policydb, after: Table, c: C.Context, k: nat)
    requires PolicyOk(db) && PolicyOk(db.(avtab := after)) && c.typ in db.bounds
    ensures Ancestor(db.(avtab := after), c, k) == Ancestor(db, c, k)
    decreases k
  {
    if k > 0 {
      SameAncestor(db, after, Up(db, c), k - 1);
    }
  }

  lemma {:induction false} SameHeight(db: Policydb, after: Table, rank: map<nat, nat>, typ: nat)
    requires PolicyOk(db) && PolicyOk(db.(avtab := after)) && Acyclic(db, rank) && Acyclic(db.(avtab := after), rank)
    requires typ in db.bounds
    ensures Height(db.(avtab := after), rank, typ) == Height(db, rank, typ)
    decreases rank[typ]
  {
    if db.bounds[typ] != 0 {
      SameHeight(db, after, rank, db.bounds[typ]);
    }
  }

  lemma {:induction false} SamePolicy(db: Policydb, after: Table, rank: map<nat, nat>)
    requires PolicyOk(db) && Acyclic(db, rank)
    ensures PolicyOk(db.(avtab := after)) && Acyclic(db.(avtab := after), rank)
  {
  }

  lemma {:induction false} OwnAfter(db: Policydb, after: Table, keys: iset<Key>, e: Edit, s: C.Context, t: C.Context, cls: nat, p: Perm)
    requires Edited(db.avtab, after, keys, e, true) && s.typ in db.attrs && t.typ in db.attrs
    ensures OwnAllows(db.(avtab := after), s, t, cls, p) <==> RuleNow(db, keys, e, s, t, cls, p) && Passes(db, s, t, cls, p)
  {
    var db', pairs := db.(avtab := after), AttrPairs(db, s, t);
    forall q | q in pairs
      ensures p in Union(after, Key(q.0, q.1, cls, Allowed)) <==> BitNow(db.avtab, keys, e, Key(q.0, q.1, cls, Allowed), p)
    {
      BitAfter(db.avtab, after, keys, e, Key(q.0, q.1, cls, Allowed), p);
    }
    hide Edited, Union, BitNow;
    assert EnvOf(db', s, t) == EnvOf(db, s, t);
    assert Granted(after, pairs, cls, Allowed, p) <==>
           exists q :: q in pairs && BitNow(db.avtab, keys, e, Key(q.0, q.1, cls, Allowed), p);
    if cls in db.constraints {
      SameConstraints(db, after, s, t, db.constraints[cls], p);
    }
  }

  lemma {:induction false} SameConstraints(db: Policydb, after: Table, s: C.Context, t: C.Context, cs: seq<Constraint>, p: Perm)
    ensures ConstraintForbids(db.(avtab := after), s, t, cs, p) <==> ConstraintForbids(db, s, t, cs, p)
  {
    var db' := db.(avtab := after);
    assert EnvOf(db', s, t) == EnvOf(db, s, t);
    assert forall k :: 0 <= k < |cs| ==> Holds(db', s, t, cs[k].expr) == Holds(db, s, t, cs[k].expr);
  }

  /** For any edit: what the evaluator allows afterwards, from the policy before it. */
  lemma {:induction false} EditReachesDecision(db: Policydb, after: Table, keys: iset<Key>, e: Edit, rank: map<nat, nat>,
                                               s: C.Context, t: C.Context, cls: nat, p: Perm)
    requires Edited(db.avtab, after, keys, e, true)
    requires PolicyOk(db) && ContextsOk(db, s, t) && Acyclic(db, rank)
    ensures PolicyOk(db.(avtab := after)) && Acyclic(db.(avtab := after), rank)
    ensures Allows(db.(avtab := after), rank, s, t, cls, p) <==>
            forall k: nat :: k <= Height(db, rank, s.typ) ==> PairNow(db, keys, e, s, t, cls, p, k)
  {
    var db' := db.(avtab := after);
    SamePolicy(db, after, rank);
    AllowsIffEveryAncestorPair(db', rank, s, t, cls, p);
    SameHeight(db, after, rank, s.typ);
    hide Edited, Allows, OwnAllows, RuleNow, Passes;
    forall k: nat
      ensures PairAllows(db', s, t, cls, p, k) <==> PairNow(db, keys, e, s, t, cls, p, k)
    {
      SameAncestor(db, after, s, k);
      SameAncestor(db, after, t, k);
      OwnAfter(db, after, keys, e, Ancestor(db, s, k), Ancestor(db, t, k), cls, p);
    }
    hide PairAllows, PairNow, PolicyOk, Acyclic;
  }

  /** The rules of a pair after the wildcarded deny of p' in class c. */
  lemma {:induction false} RuleAfterDeny(db: Policydb, after: Table, types: seq<TypeDatum>, classes: seq<ClassDatum>,
                                         c: ClassDatum, p': Perm, ok: bool, s: C.Context, t: C.Context, cls: nat, p: Perm)
    requires s.typ in db.attrs && t.typ in db.attrs && DeclaredPairs(types, AttrPairs(db, s, t))
    requires var e := Edit(Allowed, true, Some(p'));
             Edited(db.avtab, after, Expansion(types, types, classes, None, None, Some(c), e), e, Complete(e, ok))
    ensures var e := Edit(Allowed, true, Some(p'));
            RuleNow(db, Expansion(types, types, classes, None, None, Some(c), e), e, s, t, cls, p) <==>
            || (!(cls == c.value && p == p') && Granted(db.avtab, AttrPairs(db, s, t), cls, Allowed, p))
            || Granted(db.cond, AttrPairs(db, s, t), cls, Allowed, p)
  {
    hide Edited, DeclaredPairs;
    var e, pairs := Edit(Allowed, true, Some(p')), AttrPairs(db, s, t);
    var keys := Expansion(types, types, classes, None, None, Some(c), e);
    DenyRemovesEverywhere(db.avtab, after, types, classes, c, p', ok, pairs, cls, p);
    GrantedNow(db.avtab, after, keys, e, pairs, cls, p);
  }

  lemma {:induction false} GrantedNow(before: Table, after: Table, keys: iset<Key>, e: Edit, pairs: set<(nat, nat)>, cls: nat, p: Perm)
    requires Edited(before, after, keys, e, true)
    ensures Granted(after, pairs, cls, Allowed, p) <==>
            exists q :: q in pairs && BitNow(before, keys, e, Key(q.0, q.1, cls, Allowed), p)
  {
    forall q | q in pairs
      ensures p in Union(after, Key(q.0, q.1, cls, Allowed)) <==> BitNow(before, keys, e, Key(q.0, q.1, cls, Allowed), p)
    {
      BitAfter(before, after, keys, e, Key(q.0, q.1, cls, Allowed), p);
    }
    hide Edited, Union, BitNow;
  }

  /** The types of both chains of bounds are declared. */
  ghost predicate DeclaredChains(db: Policydb, types: seq<TypeDatum>, s: C.Context, t: C.Context)
    requires PolicyOk(db) && ContextsOk(db, s, t)
  {
    forall k: nat :: DeclaredPairs(types, AttrPairs(db, Ancestor(db, s, k), Ancestor(db, t, k)))
  }

  /** The pair k steps up after the deny: as before, but without the denied bit of the rule table. */
  ghost predicate PairAfterDeny(db: Policydb, c: nat, p': Perm, s: C.Context, t: C.Context, cls: nat, p: Perm, k: nat)
    requires PolicyOk(db) && ContextsOk(db, s, t)
  {
    var s1, t1 := Ancestor(db, s, k), Ancestor(db, t, k);
    && Passes(db, s1, t1, cls, p)
    && (|| (!(cls == c && p == p') && Granted(db.avtab, AttrPairs(db, s1, t1), cls, Allowed, p))
        || Granted(db.cond, AttrPairs(db, s1, t1), cls, Allowed, p))
  }

  /** Exactly what is allowed after the wildcarded deny, whatever it reports: the denied permission only where the
      conditional table grants it all the way up, everything else as before. */
  lemma {:induction false} DenyReachesDecision(db: Policydb, after: Table, types: seq<TypeDatum>, classes: seq<ClassDatum>,
                                               c: ClassDatum, p': Perm, ok: bool, rank: map<nat, nat>,
                                               s: C.Context, t: C.Context, cls: nat, p: Perm)
    requires var e := Edit(Allowed, true, Some(p'));
             Edited(db.avtab, after, Expansion(types, types, classes, None, None, Some(c), e), e, Complete(e, ok))
    requires PolicyOk(db) && ContextsOk(db, s, t) && Acyclic(db, rank) && DeclaredChains(db, types, s, t)
    ensures PolicyOk(db.(avtab := after)) && Acyclic(db.(avtab := after), rank)
    ensures Allows(db.(avtab := after), rank, s, t, cls, p) <==>
            forall k: nat :: k <= Height(db, rank, s.typ) ==> PairAfterDeny(db, c.value, p', s, t, cls, p, k)
  {
    hide Edited, DeclaredPairs, Granted, Passes;
    var e := Edit(Allowed, true, Some(p'));
    var keys := Expansion(types, types, classes, None, None, Some(c), e);
    EditReachesDecision(db, after, keys, e, rank, s, t, cls, p);
    forall k: nat
      ensures PairNow(db, keys, e, s, t, cls, p, k) <==> PairAfterDeny(db, c.value, p', s, t, cls, p, k)
    {
      RuleAfterDeny(db, after, types, classes, c, p', ok, Ancestor(db, s, k), Ancestor(db, t, k), cls, p);
    }
    hide PairNow, PairAfterDeny, PolicyOk, Acyclic, Allows;
  }

  /** The pair k steps up after the allow: as before, and everything from src to a target that
      carries an attribute. */
  ghost predicate PairAfterAllow(db: Policydb, types: seq<TypeDatum>, classes: seq<ClassDatum>, src: nat,
                                 s: C.Context, t: C.Context, cls: nat, p: Perm, k: nat)
    requires PolicyOk(db) && ContextsOk(db, s, t)
  {
    var s1, t1 := Ancestor(db, s, k), Ancestor(db, t, k);
    && Passes(db, s1, t1, cls, p)
    && (|| RuleAllows(db, s1, t1, cls, p)
        || (src in db.attrs[s1.typ] && HasAttribute(types, db.attrs[t1.typ]) && IsClass(classes, cls)))
  }

  /** Exactly what is allowed after allow(src, ALL, ALL, ALL). */
  lemma {:induction false} AllowReachesDecision(db: Policydb, after: Table, types: seq<TypeDatum>, classes: seq<ClassDatum>,
                                                src: TypeDatum, rank: map<nat, nat>,
                                                s: C.Context, t: C.Context, cls: nat, p: Perm)
    requires var e := Edit(Allowed, false, None);
             Edited(db.avtab, after, Expansion(types, types, classes, Some(src), None, None, e), e, true)
    requires PolicyOk(db) && ContextsOk(db, s, t) && Acyclic(db, rank)
    ensures PolicyOk(db.(avtab := after)) && Acyclic(db.(avtab := after), rank)
    ensures Allows(db.(avtab := after), rank, s, t, cls, p) <==>
            forall k: nat :: k <= Height(db, rank, s.typ) ==> PairAfterAllow(db, types, classes, src.value, s, t, cls, p, k)
  {
    hide Edited, Granted, Passes, IsClass, HasAttribute;
    var e := Edit(Allowed, false, None);
    var keys := Expansion(types, types, classes, Some(src), None, None, e);
    EditReachesDecision(db, after, keys, e, rank, s, t, cls, p);
    forall k: nat
      ensures PairNow(db, keys, e, s, t, cls, p, k) <==> PairAfterAllow(db, types, classes, src.value, s, t, cls, p, k)
    {
      var s1, t1 := Ancestor(db, s, k), Ancestor(db, t, k);
      AllowReachesAttributes(db.avtab, after, types, classes, src, db.attrs[s1.typ], db.attrs[t1.typ], cls, p);
      GrantedNow(db.avtab, after, keys, e, AttrPairs(db, s1, t1), cls, p);
    }
    hide PairNow, PairAfterAllow, PolicyOk, Acyclic, Allows;
  }
}
