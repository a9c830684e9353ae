/** The rule commands of a batch: from the bytes that user space sends, through the table edits they
    ask for, to the decisions made afterwards (kernel/selinux/rules.c, kernel/selinux/sepolicy.c). */
module RuleCommands {
  import opened Bytes
  import opened Policy
  import opened PolicyEditor
  import opened AccessVector
  import opened RuleSemantics
  import B = SepolicyBatch
  import C = ConstraintExpr

  const NORMAL_PERM: nat := 1
  const ALLOW: nat := 1
  const DENY: nat := 2
  const AUDIT_ALLOW: nat := 3
  const DONT_AUDIT: nat := 4

  function Text(b: ByteSeq): string {
    seq(|b|, i requires 0 <= i < |b| => b[i] as char)
  }

  function ArgText(a: B.Arg): Option<string> {
    match a case All => None case Name(s) => Some(Text(s))
  }

  /** The table column and the direction of a rule subcommand. */
  function RuleKind(subcmd: nat): Option<(Kind, bool)> {
    match subcmd
    case 1 => Some((Allowed, false))
    case 2 => Some((Allowed, true))
    case 3 => Some((AuditAllow, false))
    case 4 => Some((AuditDeny, true))
    case _ => None
  }

  ghost predicate IsRule(c: B.Command) {
    c.cmd == NORMAL_PERM && |c.args| == 4
  }

  function Asked(types: seq<TypeDatum>, classes: seq<ClassDatum>, c: B.Command): Option<Request>
    requires |c.args| == 4
  {
    Resolve(types, classes, ArgText(c.args[0]), ArgText(c.args[1]), ArgText(c.args[2]), ArgText(c.args[3]))
  }

  /** A rule command did what it asks for; with an unknown name or subcommand, nothing. */
  ghost predicate Ruled(types: seq<TypeDatum>, classes: seq<ClassDatum>, before: Table, c: B.Command, after: Table, ok: bool)
    requires IsRule(c)
  {
    match RuleKind(c.subcmd)
    case None => !ok && after == before
    case Some((kind, invert)) =>
      match Asked(types, classes, c)
      case None => !ok && after == before
      case Some(q) =>
        var e := Edit(kind, invert, q.perm);
        Edited(before, after, Expansion(types, types, classes, q.src, q.tgt, q.cls, e), e, Complete(e, ok))
  }

  /** The rule part of apply_one_sepolicy_cmd. */
  method ApplyRule(ed: Editor, c: B.Command) returns (ok: bool)
    requires TableOk(ed.avtab) && IsRule(c)
    modifies ed`avtab, ed`failures
    ensures TableOk(ed.avtab) && Ruled(ed.types, ed.classes, old(ed.avtab), c, ed.avtab, ok)
    ensures !ok && RuleKind(c.subcmd).Some? && Asked(ed.types, ed.classes, c).Some? ==> ed.failures > old(ed.failures)
    ensures ed.failures >= old(ed.failures)
  {
    hide Resolve, Expansion;
    var src, tgt, cls, perm := ArgText(c.args[0]), ArgText(c.args[1]), ArgText(c.args[2]), ArgText(c.args[3]);
    if c.subcmd == ALLOW {
      ok := ed.AddRule(src, tgt, cls, perm, Allowed, false);
    } else if c.subcmd == DENY {
      ok := ed.AddRule(src, tgt, cls, perm, Allowed, true);
    } else if c.subcmd == AUDIT_ALLOW {
      ok := ed.AddRule(src, tgt, cls, perm, AuditAllow, false);
    } else if c.subcmd == DONT_AUDIT {
      ok := ed.AddRule(src, tgt, cls, perm, AuditDeny, true);
    } else {
      ok := false;
    }
  }

  // ---- whole payloads -----------------------------------------------------------------------

  /** The part of the policy that the commands of a payload look up and edit. */
  datatype Rules = Rules(types: seq<TypeDatum>, classes: seq<ClassDatum>, avtab: Table)

  /** A command of another kind may declare types and write entries of other kinds; it writes no access
      vector. */
  ghost predicate KeepsVectors(before: Rules, after: Rules) {
    && TableOk(before.avtab) && TableOk(after.avtab)
    && forall key: Key :: IsAv(key.kind) ==> Effective(after.avtab, key) == Effective(before.avtab, key)
  }

  ghost predicate Did(before: Rules, c: B.Command, after: Rules, ok: bool) {
    if IsRule(c) then
      && after.types == before.types && after.classes == before.classes
      && Ruled(before.types, before.classes, before.avtab, c, after.avtab, ok)
    else KeepsVectors(before, after)
  }

  ghost predicate DidAt(rs: seq<Rules>, cs: seq<B.Command>, oks: seq<bool>, i: nat)
    requires i < |cs| == |oks| < |rs|
  {
    Did(rs[i], cs[i], rs[i + 1], oks[i])
  }

  /** The policy before and after each of the commands in turn. */
  ghost predicate Ran(rs: seq<Rules>, cs: seq<B.Command>, oks: seq<bool>) {
    && |oks| == |cs| && |rs| == |cs| + 1
    && forall i: nat :: i < |cs| ==> DidAt(rs, cs, oks, i)
  }

  ghost function Successes(oks: seq<bool>): nat {
    if oks == [] then 0 else Successes(oks[..|oks| - 1]) + if oks[|oks| - 1] then 1 else 0
  }

  lemma {:induction false} RanNext(rs: seq<Rules>, cs: seq<B.Command>, oks: seq<bool>, c: B.Command, after: Rules, ok: bool)
    requires Ran(rs, cs, oks) && Did(rs[|cs|], c, after, ok)
    ensures Ran(rs + [after], cs + [c], oks + [ok])
    ensures Successes(oks + [ok]) == Successes(oks) + if ok then 1 else 0
  {
    hide Did;
    var rs', cs', oks' := rs + [after], cs + [c], oks + [ok];
    assert oks'[..|oks|] == oks;
    forall i: nat | i < |cs'|
      ensures DidAt(rs', cs', oks', i)
    {
      if i < |cs| {
        assert DidAt(rs, cs, oks, i);
      }
    }
  }

  lemma {:induction false} RanBefore(rs: seq<Rules>, cs: seq<B.Command>, oks: seq<bool>)
    requires Ran(rs, cs, oks) && cs != []
    ensures Ran(rs[..|cs|], cs[..|cs| - 1], oks[..|cs| - 1])
  {
    hide Did;
    var n := |cs| - 1;
    forall i: nat | i < n
      ensures DidAt(rs[..|cs|], cs[..n], oks[..n], i)
    {
      assert DidAt(rs, cs, oks, i);
    }
  }

  ghost predicate WritesNoVector(other: (Rules, B.Command) -> (Rules, bool)) {
    forall r: Rules, c: B.Command :: TableOk(r.avtab) ==> KeepsVectors(r, other(r, c).0)
  }

  /** apply_one_sepolicy_cmd. What a command of another kind does is a parameter. */
  method ApplyOne(ed: Editor, c: B.Command, other: (Rules, B.Command) -> (Rules, bool)) returns (ok: bool)
    requires TableOk(ed.avtab) && WritesNoVector(other)
    modifies ed
    ensures TableOk(ed.avtab)
    ensures Did(old(Rules(ed.types, ed.classes, ed.avtab)), c, Rules(ed.types, ed.classes, ed.avtab), ok)
  {
    hide Ruled;
    if c.cmd == NORMAL_PERM && |c.args| == 4 {
      ok := ApplyRule(ed, c);
    } else {
      var before := Rules(ed.types, ed.classes, ed.avtab);
      assert KeepsVectors(before, other(before, c).0);
      var (after, done) := other(before, c);
      ed.types, ed.classes, ed.avtab := after.types, after.classes, after.avtab;
      ok := done;
    }
  }

  /** The loop of handle_sepolicy. The policy is edited in turn by the decoded commands, and the result
      counts those that succeed; a payload that does not decode is refused. */
  method ApplyPayload(ed: Editor, payload: ByteSeq, other: (Rules, B.Command) -> (Rules, bool))
    returns (r: Option<nat>, ghost rs: seq<Rules>, ghost oks: seq<bool>)
    requires TableOk(ed.avtab) && WritesNoVector(other)
    modifies ed
    ensures TableOk(ed.avtab) && (r.None? <==> B.DecodeAll(payload).None?)
    ensures r.Some? ==> var cs := B.DecodeAll(payload).value;
                        && Ran(rs, cs, oks) && r.value == Successes(oks)
                        && rs[0] == old(Rules(ed.types, ed.classes, ed.avtab))
                        && rs[|cs|] == Rules(ed.types, ed.classes, ed.avtab)
  {
    hide B.DecodeAll, B.ReadCommand, Did, KeepsVectors;
    var cursor := new B.Cursor(payload);
    var count := 0;
    ghost var done: seq<B.Command> := [];
    rs, oks := [Rules(ed.types, ed.classes, ed.avtab)], [];
    B.NothingDone(payload);
    while cursor.pos < |payload|
      invariant cursor.Valid() && fresh(cursor) && cursor.payload == payload && TableOk(ed.avtab)
      invariant B.DecodeAll(payload) == B.Continue(done, B.DecodeAll(cursor.Rest()))
      invariant Ran(rs, done, oks) && count == Successes(oks)
      invariant rs[0] == old(Rules(ed.types, ed.classes, ed.avtab)) && rs[|done|] == Rules(ed.types, ed.classes, ed.avtab)
      decreases |cursor.Rest()|
    {
      B.DecodeStep(done, cursor.Rest());
      var c := cursor.ReadOne();
      if c.None? {
        return None, rs, oks;
      }
      var ok := ApplyOne(ed, c.value, other);
      RanNext(rs, done, oks, c.value, Rules(ed.types, ed.classes, ed.avtab), ok);
      rs, oks, done := rs + [Rules(ed.types, ed.classes, ed.avtab)], oks + [ok], done + [c.value];
      count := if ok then count + 1 else count;
    }
    B.EverythingDone(done);
    r := Some(count);
  }

  // ---- what a bit is after a payload --------------------------------------------------------

  ghost function EditOf(r: Rules, c: B.Command): Option<(Edit, iset<Key>)>
  {
    if !IsRule(c) then None
    else match RuleKind(c.subcmd)
         case None => None
         case Some((kind, invert)) =>
           match Asked(r.types, r.classes, c)
           case None => None
           case Some(q) =>
             var e := Edit(kind, invert, q.perm);
             Some((e, Expansion(r.types, r.types, r.classes, q.src, q.tgt, q.cls, e)))
  }

  /** The command names this bit of this key. */
  ghost predicate Names(r: Rules, c: B.Command, key: Key, p: Perm) {
    && EditOf(r, c).Some?
    && var (e, keys) := EditOf(r, c).value;
       key in keys && (e.perm.None? || e.perm == Some(p))
  }

  /** The bit as the last command that names it says, and as before if none does. */
  ghost predicate LastWord(rs: seq<Rules>, cs: seq<B.Command>, key: Key, p: Perm)
    requires |rs| == |cs| + 1
  {
    if cs == [] then p in Collected(rs[0].avtab, key)
    else
      var n := |cs| - 1;
      if Names(rs[n], cs[n], key, p) then !EditOf(rs[n], cs[n]).value.0.invert
      else LastWord(rs[..|cs|], cs[..n], key, p)
  }

  /** Every command that names the bit took effect on it: a deny always does, any other if it reports
      success. */
  ghost predicate Settled(rs: seq<Rules>, cs: seq<B.Command>, oks: seq<bool>, key: Key, p: Perm)
    requires |oks| == |cs| && |rs| == |cs| + 1
  {
    forall i :: 0 <= i < |cs| && Names(rs[i], cs[i], key, p) ==> Complete(EditOf(rs[i], cs[i]).value.0, oks[i])
  }

  lemma {:induction false} BitAfterOne(r: Rules, c: B.Command, r': Rules, ok: bool, key: Key, p: Perm)
    requires Did(r, c, r', ok) && IsAv(key.kind)
    requires Names(r, c, key, p) ==> Complete(EditOf(r, c).value.0, ok)
    ensures p in Collected(r'.avtab, key) <==>
            if Names(r, c, key, p) then !EditOf(r, c).value.0.invert else p in Collected(r.avtab, key)
  {
    hide Union, Meet, Expansion, Resolve;
    if EditOf(r, c).Some? {
      var (e, keys) := EditOf(r, c).value;
      BitAfterOk(r.avtab, r'.avtab, keys, e, Complete(e, ok), key, p);
    } else if !IsRule(c) {
      CollectedIsEffective(r.avtab, key);
      CollectedIsEffective(r'.avtab, key);
    }
  }

  /** BitAfterEdit for an edit that may be incomplete, on a bit that it does not name or did edit. */
  lemma {:induction false} BitAfterOk(before: Table, after: Table, keys: iset<Key>, e: Edit, complete: bool, key: Key, p: Perm)
    requires Edited(before, after, keys, e, complete) && IsAv(key.kind)
    requires key in keys && (e.perm.None? || e.perm == Some(p)) ==> complete
    ensures p in Collected(after, key) <==>
            if key in keys && (e.perm.None? || e.perm == Some(p)) then !e.invert else p in Collected(before, key)
  {
    assert KeyEdited(before, after, key in keys, e, complete, key);
    CollectedIsEffective(before, key);
    CollectedIsEffective(after, key);
  }

  /** After any payload each bit of each vector is what the last command naming it says, else as before. */
  lemma {:induction false} BitAfterPayload(rs: seq<Rules>, cs: seq<B.Command>, oks: seq<bool>, key: Key, p: Perm)
    requires Ran(rs, cs, oks) && IsAv(key.kind) && Settled(rs, cs, oks, key, p)
    ensures p in Collected(rs[|cs|].avtab, key) <==> LastWord(rs, cs, key, p)
    decreases |cs|
  {
    hide Collected, Did, EditOf, Names;
    if cs != [] {
      var n := |cs| - 1;
      RanBefore(rs, cs, oks);
      SettledBefore(rs, cs, oks, key, p);
      BitAfterPayload(rs[..|cs|], cs[..n], oks[..n], key, p);
      assert DidAt(rs, cs, oks, n);
      BitAfterOne(rs[n], cs[n], rs[n + 1], oks[n], key, p);
    }
  }

  lemma {:induction false} SettledBefore(rs: seq<Rules>, cs: seq<B.Command>, oks: seq<bool>, key: Key, p: Perm)
    requires Ran(rs, cs, oks) && cs != [] && Settled(rs, cs, oks, key, p)
    ensures Settled(rs[..|cs|], cs[..|cs| - 1], oks[..|cs| - 1], key, p)
  {
    hide Did, EditOf, Names;
  }

  // ---- from payload to decision -------------------------------------------------------------

  /** The pair k steps up, with its rules as the payload leaves them. */
  ghost predicate PairAfterPayload(db: Policydb, rs: seq<Rules>, cs: seq<B.Command>, s: C.Context, t: C.Context, cls: nat, p: Perm, k: nat)
    requires PolicyOk(db) && ContextsOk(db, s, t) && |rs| == |cs| + 1
  {
    var s1, t1 := Ancestor(db, s, k), Ancestor(db, t, k);
    && Passes(db, s1, t1, cls, p)
    && (|| (exists q :: q in AttrPairs(db, s1, t1) && LastWord(rs, cs, Key(q.0, q.1, cls, Allowed), p))
        || Granted(db.cond, AttrPairs(db, s1, t1), cls, Allowed, p))
  }

  ghost predicate AllSettled(rs: seq<Rules>, cs: seq<B.Command>, oks: seq<bool>, cls: nat, p: Perm)
    requires |oks| == |cs| && |rs| == |cs| + 1
  {
    forall i: nat, j: nat :: Settled(rs, cs, oks, Key(i, j, cls, Allowed), p)
  }

  /** What the policy that a payload leaves allows, in terms of the commands and of the rules before. */
  lemma {:induction false} PayloadDecides(db: Policydb, rs: seq<Rules>, cs: seq<B.Command>, oks: seq<bool>, rank: map<nat, nat>,
                                          s: C.Context, t: C.Context, cls: nat, p: Perm)
    requires Ran(rs, cs, oks) && AllSettled(rs, cs, oks, cls, p) && db.avtab == rs[|cs|].avtab
    requires PolicyOk(db) && ContextsOk(db, s, t) && Acyclic(db, rank)
    ensures Allows(db, rank, s, t, cls, p) <==>
            forall k: nat :: k <= Height(db, rank, s.typ) ==> PairAfterPayload(db, rs, cs, s, t, cls, p, k)
  {
    AllowsIffEveryAncestorPair(db, rank, s, t, cls, p);
    hide Allows, Ran, LastWord, Settled, Union;
    forall k: nat
      ensures PairAllows(db, s, t, cls, p, k) <==> PairAfterPayload(db, rs, cs, s, t, cls, p, k)
    {
      var pairs := AttrPairs(db, Ancestor(db, s, k), Ancestor(db, t, k));
      GrantedAfterPayload(rs, cs, oks, pairs, cls, p);
    }
    hide PairAllows, PairAfterPayload, PolicyOk, Acyclic;
  }

  lemma {:induction false} GrantedAfterPayload(rs: seq<Rules>, cs: seq<B.Command>, oks: seq<bool>, pairs: set<(nat, nat)>, cls: nat, p: Perm)
    requires Ran(rs, cs, oks) && AllSettled(rs, cs, oks, cls, p)
    ensures Granted(rs[|cs|].avtab, pairs, cls, Allowed, p) <==>
            exists q :: q in pairs && LastWord(rs, cs, Key(q.0, q.1, cls, Allowed), p)
  {
    hide Did, LastWord, Settled, Union;
    forall q | q in pairs
      ensures p in Union(rs[|cs|].avtab, Key(q.0, q.1, cls, Allowed)) <==> LastWord(rs, cs, Key(q.0, q.1, cls, Allowed), p)
    {
      BitAfterPayload(rs, cs, oks, Key(q.0, q.1, cls, Allowed), p);
    }
  }

  function DenyCommand(cls: ByteSeq, perm: ByteSeq): B.Command {
    B.Command(1, 2, [B.All, B.All, B.Name(cls), B.Name(perm)])
  }

  function AllowCommand(src: ByteSeq): B.Command {
    B.Command(1, 1, [B.Name(src), B.All, B.All, B.All])
  }

  /** A payload whose last command is deny(ALL, ALL, cls, perm), with names that are known: whatever the
      commands before it did, and whatever any of them reports, later accesses are decided as
      DenyReachesDecision says of the table before the deny. */
  lemma {:induction false} DenyPayloadDecides(rs: seq<Rules>, cs: seq<B.Command>, oks: seq<bool>, cls: ByteSeq, perm: ByteSeq,
                                              db: Policydb, rank: map<nat, nat>, s: C.Context, t: C.Context, c: nat, p: Perm)
    requires Ran(rs, cs + [DenyCommand(cls, perm)], oks) && db.avtab == rs[|cs|].avtab
    requires var d := ClassNamed(rs[|cs|].classes, Text(cls)); d.Some? && PermNamed(d.value, Text(perm)).Some?
    requires PolicyOk(db) && ContextsOk(db, s, t) && Acyclic(db, rank) && DeclaredChains(db, rs[|cs|].types, s, t)
    ensures var after := db.(avtab := rs[|cs| + 1].avtab); PolicyOk(after) && Acyclic(after, rank)
    ensures var d := ClassNamed(rs[|cs|].classes, Text(cls)).value;
            Allows(db.(avtab := rs[|cs| + 1].avtab), rank, s, t, c, p) <==>
            forall k: nat :: k <= Height(db, rank, s.typ) ==>
              PairAfterDeny(db, d.value, PermNamed(d, Text(perm)).value, s, t, c, p, k)
  {
    hide Edited, Expansion, PolicyOk, Acyclic, Allows, PairAfterDeny, DeclaredChains, Text, ClassNamed, PermNamed;
    var n := |cs|;
    assert DidAt(rs, cs + [DenyCommand(cls, perm)], oks, n);
    var d := ClassNamed(rs[n].classes, Text(cls)).value;
    DenyReachesDecision(db, rs[n + 1].avtab, rs[n].types, rs[n].classes, d, PermNamed(d, Text(perm)).value, oks[n], rank, s, t, c, p);
  }

  /** The same for a payload whose last command is allow(src, ALL, ALL, ALL) and succeeds. */
  lemma {:induction false} AllowPayloadDecides(rs: seq<Rules>, cs: seq<B.Command>, oks: seq<bool>, src: ByteSeq,
                                               db: Policydb, rank: map<nat, nat>, s: C.Context, t: C.Context, c: nat, p: Perm)
    requires Ran(rs, cs + [AllowCommand(src)], oks) && oks[|cs|] && db.avtab == rs[|cs|].avtab
    requires PolicyOk(db) && ContextsOk(db, s, t) && Acyclic(db, rank)
    ensures TypeNamed(rs[|cs|].types, Text(src)).Some?
    ensures var after := db.(avtab := rs[|cs| + 1].avtab); PolicyOk(after) && Acyclic(after, rank)
    ensures Allows(db.(avtab := rs[|cs| + 1].avtab), rank, s, t, c, p) <==>
            forall k: nat :: k <= Height(db, rank, s.typ) ==>
              PairAfterAllow(db, rs[|cs|].types, rs[|cs|].classes, TypeNamed(rs[|cs|].types, Text(src)).value.value, s, t, c, p, k)
  {
    hide Edited, Expansion, PolicyOk, Acyclic, Allows, PairAfterAllow, Text, TypeNamed;
    var n := |cs|;
    assert DidAt(rs, cs + [AllowCommand(src)], oks, n);
    AllowReachesDecision(db, rs[n + 1].avtab, rs[n].types, rs[n].classes, TypeNamed(rs[n].types, Text(src)).value, rank, s, t, c, p);
  }

  function DontauditCommand(cls: ByteSeq, perm: ByteSeq): B.Command {
    B.Command(1, 4, [B.All, B.All, B.Name(cls), B.Name(perm)])
  }

  /** A payload whose last command is dontaudit(ALL, ALL, cls, perm) and succeeds: afterwards denials of
      the permission go unlogged between contexts that both carry an attribute, and nothing else changes. */
  lemma {:induction false} DontauditPayloadDecides(rs: seq<Rules>, cs: seq<B.Command>, oks: seq<bool>, cls: ByteSeq, perm: ByteSeq,
                                                   db: Policydb, s: C.Context, t: C.Context, c: nat, avd: Avd, avd': Avd, p: Perm)
    requires Ran(rs, cs + [DontauditCommand(cls, perm)], oks) && oks[|cs|] && db.avtab == rs[|cs|].avtab
    requires s.typ in db.attrs && t.typ in db.attrs && c in db.constraints
    requires Audited(db, s, t, c, avd) && Audited(db.(avtab := rs[|cs| + 1].avtab), s, t, c, avd')
    ensures ClassNamed(rs[|cs|].classes, Text(cls)).Some?
    ensures var d := ClassNamed(rs[|cs|].classes, Text(cls)).value;
            && PermNamed(d, Text(perm)).Some?
            && (p in avd'.auditdeny <==>
                && p in avd.auditdeny
                && !(c == d.value && p == PermNamed(d, Text(perm)).value
                     && AttributePair(rs[|cs|].types, Pairs(db.attrs[s.typ], db.attrs[t.typ]))))
  {
    hide Edited, Expansion, Audited, AttributePair, Text, ClassNamed, PermNamed;
    var n := |cs|;
    assert DidAt(rs, cs + [DontauditCommand(cls, perm)], oks, n);
    var d := ClassNamed(rs[n].classes, Text(cls)).value;
    DontauditReachesDecision(db, rs[n + 1].avtab, rs[n].types, rs[n].classes, d, PermNamed(d, Text(perm)).value, s, t, c, avd, avd', p);
  }

  /** The four subcommands of a rule: 1 allows, 2 denies, 3 has grants logged, 4 keeps denials out of
      the log; any other changes nothing and fails. */
  lemma {:induction false} RuleNumbers(types: seq<TypeDatum>, classes: seq<ClassDatum>, before: Table, c: B.Command, after: Table, ok: bool, q: Request)
    requires IsRule(c) && Asked(types, classes, c) == Some(q) && Ruled(types, classes, before, c, after, ok)
    ensures c.subcmd == 1 ==> EditedBy(types, classes, before, after, q, Edit(Allowed, false, q.perm), ok)
    ensures c.subcmd == 2 ==> EditedBy(types, classes, before, after, q, Edit(Allowed, true, q.perm), true)
    ensures c.subcmd == 3 ==> EditedBy(types, classes, before, after, q, Edit(AuditAllow, false, q.perm), ok)
    ensures c.subcmd == 4 ==> EditedBy(types, classes, before, after, q, Edit(AuditDeny, true, q.perm), ok)
    ensures c.subcmd !in {1, 2, 3, 4} ==> !ok && after == before
  {
    hide Edited, Expansion, Asked;
  }

  ghost predicate EditedBy(types: seq<TypeDatum>, classes: seq<ClassDatum>, before: Table, after: Table, q: Request, e: Edit, ok: bool) {
    Edited(before, after, Expansion(types, types, classes, q.src, q.tgt, q.cls, e), e, ok)
  }
}
