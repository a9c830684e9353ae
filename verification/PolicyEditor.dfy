/** The access-vector rule editor of kernel/selinux/sepolicy.c: add_rule, add_rule_raw with its
    wildcard expansion, get_avtab_node, and the pruning of redundant nodes. */
module PolicyEditor {
  import opened Bytes
  import opened Policy

  /** One rule request: which table column, add or remove, one permission or all. */
  datatype Edit = Edit(kind: Kind, invert: bool, perm: Option<Perm>)

  ghost predicate ValidEdit(e: Edit) {
    IsAv(e.kind)
  }

  /** strip_av */
  predicate Strips(e: Edit) {
    e.kind.AuditDeny? == !e.invert
  }

  /** The requested bit operation. */
  function Apply(e: Edit, v: Av): (r: Av)
    ensures forall p: Perm :: p in r <==> if e.perm == None || e.perm == Some(p) then !e.invert else p in v
  {
    match e.perm
    case Some(p) => if e.invert then v - {p} else v + {p}
    case None => if e.invert then {} else AllPerms()
  }

  /** is_redundant_avtab_node */
  predicate Redundant(node: AvNode) {
    match node.datum
    case Opaque(_) => false
    case Vector(av) => av == if node.key.kind.AuditDeny? then AllPerms() else {}
  }

  /** No entry says what its absence would; entry i may be an exception. */
  ghost predicate LeanBut(t: Table, i: nat) {
    forall j :: 0 <= j < |t| && j != i ==> !Redundant(t[j])
  }

  ghost predicate Lean(t: Table) {
    forall j :: 0 <= j < |t| ==> !Redundant(t[j])
  }

  lemma {:induction false} LeanInserted(t: Table, pos: nat, node: AvNode)
    requires Lean(t) && pos <= |t|
    ensures LeanBut(t[..pos] + [node] + t[pos..], pos)
  {
    hide Redundant;
    var t' := t[..pos] + [node] + t[pos..];
    forall j | 0 <= j < |t'| && j != pos
      ensures !Redundant(t'[j])
    {
      assert t'[j] == t[if j < pos then j else j - 1];
    }
  }

  lemma {:induction false} LeanRemoved(t: Table, i: nat)
    requires LeanBut(t, i) && i < |t|
    ensures Lean(t[..i] + t[i + 1..])
  {
    hide Redundant;
    var t' := t[..i] + t[i + 1..];
    forall j | 0 <= j < |t'|
      ensures !Redundant(t'[j])
    {
      assert t'[j] == t[if j < i then j else j + 1];
    }
  }

  // ---- which keys a request names --------------------------------------------------------

  /** A type selector: one type, or all types if stripping, else all attributes. */
  ghost predicate SelectsType(types: seq<TypeDatum>, sel: Option<TypeDatum>, strip: bool, value: nat) {
    match sel
    case Some(d) => value == d.value
    case None => exists i :: 0 <= i < |types| && types[i].value == value && (strip || types[i].attribute)
  }

  ghost predicate SelectsClass(classes: seq<ClassDatum>, sel: Option<ClassDatum>, value: nat) {
    match sel
    case Some(d) => value == d.value
    case None => exists i :: 0 <= i < |classes| && classes[i].value == value
  }

  ghost function Expansion(sources: seq<TypeDatum>, targets: seq<TypeDatum>, classes: seq<ClassDatum>,
                           src: Option<TypeDatum>, tgt: Option<TypeDatum>, cls: Option<ClassDatum>, e: Edit): iset<Key> {
    iset k: Key |
      && k.kind == e.kind
      && SelectsType(sources, src, Strips(e), k.source)
      && SelectsType(targets, tgt, Strips(e), k.target)
      && SelectsClass(classes, cls, k.cls)
  }

  /** What an edit did to the effective vector of one key. */
  ghost predicate KeyEdited(before: Table, after: Table, named: bool, e: Edit, ok: bool, key: Key)
    requires TableOk(before) && TableOk(after) && IsAv(key.kind)
  {
    var v, v' := Effective(before, key), Effective(after, key);
    if named then v' == Apply(e, v) || (!ok && v' == v) else v' == v
  }

  /** Whether an edit took effect on every key it names. One that only takes bits away looks for entries
      and never makes one, so it does even when it reports that pruning found no memory. */
  predicate Complete(e: Edit, ok: bool) {
    ok || (e.invert && !e.kind.AuditDeny?)
  }

  lemma CompleteAll(e: Edit)
    ensures Complete(e, true)
  {
  }

  lemma CompleteBoth(e: Edit, ok1: bool, ok2: bool)
    ensures Complete(e, ok1 && ok2) <==> Complete(e, ok1) && Complete(e, ok2)
  {
  }

  function Wildcards(tgt: Option<TypeDatum>, cls: Option<ClassDatum>): nat {
    (if tgt.None? then 1 else 0) + (if cls.None? then 1 else 0)
  }

  /** The named keys changed by exactly the requested operation, the others and everything else
      in the table not at all; a failed allocation can leave named keys as they were. */
  ghost predicate Edited(before: Table, after: Table, keys: iset<Key>, e: Edit, ok: bool) {
    && TableOk(before) && TableOk(after) && Others(after) == Others(before)
    && forall key: Key :: IsAv(key.kind) ==> KeyEdited(before, after, key in keys, e, ok, key)
  }

  lemma EditedRefl(t: Table, e: Edit)
    requires TableOk(t)
    ensures Edited(t, t, iset{}, e, true)
  {
  }

  /** Edits compose; naming a key twice is the same as naming it once. */
  lemma {:induction false} EditedCompose(a: Table, b: Table, c: Table, k1: iset<Key>, k2: iset<Key>, e: Edit, ok1: bool, ok2: bool)
    requires Edited(a, b, k1, e, ok1) && Edited(b, c, k2, e, ok2)
    ensures Edited(a, c, k1 + k2, e, ok1 && ok2)
  {
    hide TableOk, Effective, Others;
    forall key: Key | IsAv(key.kind)
      ensures KeyEdited(a, c, key in k1 + k2, e, ok1 && ok2, key)
    {
      assert KeyEdited(a, b, key in k1, e, ok1, key) && KeyEdited(b, c, key in k2, e, ok2, key);
      ApplyTwice(e, Effective(a, key));
    }
  }

  lemma ApplyTwice(e: Edit, v: Av)
    ensures Apply(e, Apply(e, v)) == Apply(e, v)
  {
  }

  lemma EditedTables(a: Table, b: Table, keys: iset<Key>, e: Edit, ok: bool)
    requires Edited(a, b, keys, e, ok)
    ensures TableOk(a) && TableOk(b)
  {
  }

  lemma ExpansionEmpty(sources: seq<TypeDatum>, targets: seq<TypeDatum>, classes: seq<ClassDatum>,
                       src: Option<TypeDatum>, tgt: Option<TypeDatum>, cls: Option<ClassDatum>, e: Edit)
    ensures src.None? ==> Expansion([], targets, classes, src, tgt, cls, e) == iset{}
    ensures tgt.None? ==> Expansion(sources, [], classes, src, tgt, cls, e) == iset{}
    ensures cls.None? ==> Expansion(sources, targets, [], src, tgt, cls, e) == iset{}
  {
  }

  /** Going through one more type adds the keys of that type, if it is eligible. */
  lemma {:induction false} SelectsOneMore(types: seq<TypeDatum>, i: nat, strip: bool, value: nat)
    requires i < |types|
    ensures SelectsType(types[..i + 1], None, strip, value) <==>
            SelectsType(types[..i], None, strip, value) || ((strip || types[i].attribute) && value == types[i].value)
  {
    var more, less := types[..i + 1], types[..i];
    assert forall k :: 0 <= k < i ==> more[k] == less[k];
    assert more[i] == types[i];
    if SelectsType(less, None, strip, value) {
      var k :| 0 <= k < |less| && less[k].value == value && (strip || less[k].attribute);
      assert more[k].value == value;
    }
  }

  lemma {:induction false} ExpansionSource(types: seq<TypeDatum>, classes: seq<ClassDatum>, i: nat,
                                           tgt: Option<TypeDatum>, cls: Option<ClassDatum>, e: Edit)
    requires i < |types|
    ensures Expansion(types[..i + 1], types, classes, None, tgt, cls, e) ==
            Expansion(types[..i], types, classes, None, tgt, cls, e) +
            (if Strips(e) || types[i].attribute then Expansion(types, types, classes, Some(types[i]), tgt, cls, e) else iset{})
  {
    forall k: Key
      ensures SelectsType(types[..i + 1], None, Strips(e), k.source) <==>
              SelectsType(types[..i], None, Strips(e), k.source) || ((Strips(e) || types[i].attribute) && k.source == types[i].value)
    {
      SelectsOneMore(types, i, Strips(e), k.source);
    }
  }

  lemma {:induction false} ExpansionTarget(types: seq<TypeDatum>, classes: seq<ClassDatum>, i: nat,
                                           src: Option<TypeDatum>, cls: Option<ClassDatum>, e: Edit)
    requires i < |types|
    ensures Expansion(types, types[..i + 1], classes, src, None, cls, e) ==
            Expansion(types, types[..i], classes, src, None, cls, e) +
            (if Strips(e) || types[i].attribute then Expansion(types, types, classes, src, Some(types[i]), cls, e) else iset{})
  {
    forall k: Key
      ensures SelectsType(types[..i + 1], None, Strips(e), k.target) <==>
              SelectsType(types[..i], None, Strips(e), k.target) || ((Strips(e) || types[i].attribute) && k.target == types[i].value)
    {
      SelectsOneMore(types, i, Strips(e), k.target);
    }
  }

  lemma {:induction false} ExpansionClass(types: seq<TypeDatum>, classes: seq<ClassDatum>, i: nat,
                                          src: Option<TypeDatum>, tgt: Option<TypeDatum>, e: Edit)
    requires i < |classes|
    ensures Expansion(types, types, classes[..i + 1], src, tgt, None, e) ==
            Expansion(types, types, classes[..i], src, tgt, None, e) +
            Expansion(types, types, classes, src, tgt, Some(classes[i]), e)
  {
    var more, less := classes[..i + 1], classes[..i];
    assert forall k :: 0 <= k < i ==> more[k] == less[k];
    assert more[i] == classes[i];
    forall v: nat
      ensures SelectsClass(more, None, v) <==> SelectsClass(less, None, v) || v == classes[i].value
    {
      if SelectsClass(less, None, v) {
        var k :| 0 <= k < |less| && less[k].value == v;
        assert more[k].value == v;
      }
    }
  }

  // ---- names --------------------------------------------------------------------------------

  function TypeNamed(types: seq<TypeDatum>, name: string): Option<TypeDatum> {
    if types == [] then None
    else if types[0].name == name then Some(types[0])
    else TypeNamed(types[1..], name)
  }

  function ClassNamed(classes: seq<ClassDatum>, name: string): Option<ClassDatum> {
    if classes == [] then None
    else if classes[0].name == name then Some(classes[0])
    else ClassNamed(classes[1..], name)
  }

  /** A class's own permissions come before those it inherits. */
  function PermNamed(cls: ClassDatum, name: string): Option<Perm> {
    if name in cls.perms then Some(cls.perms[name])
    else if name in cls.common then Some(cls.common[name])
    else None
  }

  datatype Request = Request(src: Option<TypeDatum>, tgt: Option<TypeDatum>, cls: Option<ClassDatum>, perm: Option<Perm>)

  /** What the names of a rule stand for; None if one of them is unknown, or if a permission is
      given without its class. */
  function Resolve(types: seq<TypeDatum>, classes: seq<ClassDatum>, s: Option<string>, t: Option<string>,
                   c: Option<string>, p: Option<string>): Option<Request> {
    var src := if s.Some? then TypeNamed(types, s.value) else None;
    var tgt := if t.Some? then TypeNamed(types, t.value) else None;
    var cls := if c.Some? then ClassNamed(classes, c.value) else None;
    var perm := if p.Some? && cls.Some? then PermNamed(cls.value, p.value) else None;
    if (s.Some? && src.None?) || (t.Some? && tgt.None?) || (c.Some? && cls.None?) || (p.Some? && perm.None?) then None
    else Some(Request(src, tgt, cls, perm))
  }

  lemma {:induction false} TypeNamedIff(types: seq<TypeDatum>, name: string)
    ensures match TypeNamed(types, name)
            case None => forall i :: 0 <= i < |types| ==> types[i].name != name
            case Some(d) => d in types && d.name == name
    decreases |types|
  {
    if types != [] {
      TypeNamedIff(types[1..], name);
      assert types == [types[0]] + types[1..];
    }
  }

  lemma {:induction false} ClassNamedIff(classes: seq<ClassDatum>, name: string)
    ensures match ClassNamed(classes, name)
            case None => forall i :: 0 <= i < |classes| ==> classes[i].name != name
            case Some(d) => d in classes && d.name == name
    decreases |classes|
  {
    if classes != [] {
      ClassNamedIff(classes[1..], name);
      assert classes == [classes[0]] + classes[1..];
    }
  }

  /** The side of a rule that `name` gives is the type of that name, or all types when no name is given. */
  ghost predicate NamesType(types: seq<TypeDatum>, name: Option<string>, d: Option<TypeDatum>) {
    if name.None? then d.None? else d.Some? && d.value in types && d.value.name == name.value
  }

  ghost predicate UnknownType(types: seq<TypeDatum>, name: Option<string>) {
    name.Some? && forall i :: 0 <= i < |types| ==> types[i].name != name.value
  }

  ghost predicate NamesPerm(cls: ClassDatum, name: string, p: Perm) {
    (name, p) in cls.perms.Items || (name !in cls.perms && (name, p) in cls.common.Items)
  }

  /** Names resolve to the types, class and permission that carry them, each on its own side; nothing
      resolves when a name is unknown or a permission comes without a class. */
  lemma {:induction false} ResolveMeaning(types: seq<TypeDatum>, classes: seq<ClassDatum>, s: Option<string>, t: Option<string>,
                                          c: Option<string>, p: Option<string>)
    ensures match Resolve(types, classes, s, t, c, p)
            case Some(q) =>
              && NamesType(types, s, q.src) && NamesType(types, t, q.tgt)
              && (if c.None? then q.cls.None? else q.cls.Some? && q.cls.value in classes && q.cls.value.name == c.value)
              && (if p.None? then q.perm.None? else q.cls.Some? && q.perm.Some? && NamesPerm(q.cls.value, p.value, q.perm.value))
            case None =>
              || UnknownType(types, s) || UnknownType(types, t)
              || (c.Some? && forall i :: 0 <= i < |classes| ==> classes[i].name != c.value)
              || (p.Some? && (c.None? || exists d :: d in classes && d.name == c.value && p.value !in d.perms && p.value !in d.common))
  {
    hide TypeNamed, ClassNamed;
    if s.Some? {
      TypeNamedIff(types, s.value);
    }
    if t.Some? {
      TypeNamedIff(types, t.value);
    }
    if c.Some? {
      ClassNamedIff(classes, c.value);
    }
  }

  /** A table without redundant entries is one where every access-vector entry matters: the table
      without it would say something else. */
  lemma {:induction false} LeanIffEveryEntryMatters(t: Table)
    requires TableOk(t)
    ensures Lean(t) <==> forall i :: 0 <= i < |t| && IsAv(t[i].key.kind) ==> Matters(t, i)
  {
    hide Effective, Redundant;
    forall i | 0 <= i < |t|
      ensures IsAv(t[i].key.kind) ==> (Matters(t, i) <==> !Redundant(t[i]))
      ensures !IsAv(t[i].key.kind) ==> !Redundant(t[i])
    {
      if IsAv(t[i].key.kind) {
        MattersIff(t, i);
      } else {
        OpaqueIsKept(t, i);
      }
    }
  }

  /** Taking entry i out of the table would change what the table says. */
  ghost predicate Matters(t: Table, i: nat)
    requires TableOk(t) && i < |t| && IsAv(t[i].key.kind)
  {
    TableOk(t[..i] + t[i + 1..]) && exists key: Key :: IsAv(key.kind) && Effective(t[..i] + t[i + 1..], key) != Effective(t, key)
  }

  lemma {:induction false} MattersIff(t: Table, i: nat)
    requires TableOk(t) && i < |t| && IsAv(t[i].key.kind)
    ensures Matters(t, i) <==> !Redundant(t[i])
  {
    RemoveNode(t, i);
    EffectiveAt(t, i);
    hide Effective;
    var less := t[..i] + t[i + 1..];
    RemovedEffective(t, i, t[i].key);
    assert !Redundant(t[i]) ==> Effective(less, t[i].key) != Effective(t, t[i].key);
    forall key: Key | IsAv(key.kind) && Redundant(t[i])
      ensures Effective(less, key) == Effective(t, key)
    {
      RemovedEffective(t, i, key);
    }
  }

  lemma OpaqueIsKept(t: Table, i: nat)
    requires TableOk(t) && i < |t| && !IsAv(t[i].key.kind)
    ensures !Redundant(t[i])
  {
  }

  class Editor {
    var types: seq<TypeDatum>
    var classes: seq<ClassDatum>
    var avtab: Table
    ghost var failures: nat  // allocations that failed so far

    constructor (types: seq<TypeDatum>, classes: seq<ClassDatum>, avtab: Table)
      ensures this.types == types && this.classes == classes && this.avtab == avtab && failures == 0
    {
      this.types, this.classes, this.avtab, failures := types, classes, avtab, 0;
    }

    /** Any allocation may fail. */
    method Allocate() returns (ok: bool)
      modifies this`failures
      ensures failures == old(failures) + if ok then 0 else 1
    {
      ok := *;
      failures := failures + if ok then 0 else 1;
    }

    /** avtab_search_node */
    method SearchNode(key: Key) returns (i: nat)
      ensures i <= |avtab|
      ensures i < |avtab| ==> avtab[i].key == key
      ensures i == |avtab| ==> !HasKey(avtab, key)
    {
      i := 0;
      while i < |avtab|
        invariant i <= |avtab| && forall k :: 0 <= k < i ==> avtab[k].key != key
      {
        if avtab[i].key == key {
          return;
        }
        i := i + 1;
      }
    }

    /** get_avtab_node: the entry of a key, made with the default value if there is none. */
    method GetNode(key: Key) returns (i: nat, ok: bool)
      requires TableOk(avtab) && IsAv(key.kind)
      modifies this`avtab, this`failures
      ensures TableOk(avtab) && Others(avtab) == old(Others(avtab))
      ensures forall k: Key :: IsAv(k.kind) ==> Effective(avtab, k) == old(Effective(avtab, k))
      ensures ok <==> failures == old(failures)
      ensures failures >= old(failures)
      ensures ok ==> i < |avtab| && avtab[i].key == key
      ensures ok && Lean(old(avtab)) ==> LeanBut(avtab, i)
      ensures !ok ==> avtab == old(avtab)
    {
      hide Redundant;
      i := SearchNode(key);
      ok := true;
      if i == |avtab| {
        ok := Allocate();
        if ok {
          var pos: nat :| pos <= |avtab|;
          i := pos;
          var node := AvNode(key, Vector(if key.kind.AuditDeny? then AllPerms() else {}));
          ghost var before := avtab;
          InsertNode(avtab, pos, node);
          if Lean(avtab) {
            LeanInserted(avtab, pos, node);
          }
          avtab := avtab[..pos] + [node] + avtab[pos..];
          forall k: Key | IsAv(k.kind)
            ensures Effective(avtab, k) == Effective(before, k)
          {
            InsertedEffective(before, pos, node, k);
            EffectiveDefault(before, key);
          }
        }
      }
    }

    /** remove_avtab_node: the scratch table it needs may not be available. */
    method RemoveAvtabNode(i: nat) returns (ok: bool)
      requires TableOk(avtab) && i < |avtab| && IsAv(avtab[i].key.kind)
      modifies this`avtab, this`failures
      ensures TableOk(avtab) && Others(avtab) == old(Others(avtab))
      ensures failures == old(failures) + if ok then 0 else 1
      ensures ok ==> avtab == old(avtab)[..i] + old(avtab)[i + 1..]
      ensures !ok ==> avtab == old(avtab)
    {
      ok := Allocate();
      if ok {
        RemoveNode(avtab, i);
        avtab := avtab[..i] + avtab[i + 1..];
      }
    }

    /** Pruning a redundant node, or failing to, changes no effective vector; it fails only for want
        of memory, and otherwise leaves no redundant node at i. */
    method Prune(i: nat) returns (ok: bool)
      requires TableOk(avtab) && i < |avtab| && IsAv(avtab[i].key.kind)
      modifies this`avtab, this`failures
      ensures TableOk(avtab) && Others(avtab) == old(Others(avtab))
      ensures forall k: Key :: IsAv(k.kind) ==> Effective(avtab, k) == old(Effective(avtab, k))
      ensures failures == old(failures) + if ok then 0 else 1
      ensures ok && LeanBut(old(avtab), i) ==> Lean(avtab)
    {
      ghost var before := avtab;
      ok := true;
      if Redundant(avtab[i]) {
        ok := RemoveAvtabNode(i);
        if ok {
          if LeanBut(before, i) {
            LeanRemoved(before, i);
          }
          forall k: Key | IsAv(k.kind)
            ensures Effective(avtab, k) == Effective(before, k)
          {
            RemovedEffective(before, i, k);
            EffectiveAt(before, i);
          }
        }
      }
    }

    /** The innermost case of add_rule_raw: one source, one target, one class. */
    method EditKey(key: Key, e: Edit) returns (ok: bool)
      requires TableOk(avtab) && ValidEdit(e) && key.kind == e.kind
      modifies this`avtab, this`failures
      ensures Edited(old(avtab), avtab, iset{key}, e, Complete(e, ok))
      ensures ok && Lean(old(avtab)) ==> Lean(avtab)
      ensures ok <==> failures == old(failures)
      ensures failures >= old(failures)
    {
      hide Effective, Others, Redundant, Apply;
      ghost var before := avtab;
      var i: nat;
      if e.invert && !e.kind.AuditDeny? {
        i := SearchNode(key);
        if i == |avtab| {
          EffectiveDefault(avtab, key);
          return true;
        }
      } else {
        i, ok := GetNode(key);
        if !ok {
          return;
        }
      }
      ghost var mid := avtab;
      EffectiveAt(mid, i);
      var av := Apply(e, avtab[i].datum.av);
      avtab := avtab[i := avtab[i].(datum := Vector(av))];
      ghost var set' := avtab;
      forall k: Key | IsAv(k.kind)
        ensures TableOk(set') && Others(set') == Others(mid)
        ensures Effective(set', k) == if k == key then Apply(e, Effective(before, k)) else Effective(before, k)
      {
        UpdateNode(mid, i, av, k);
      }
      assert IsAv(key.kind);
      ok := Prune(i);
    }

    /** add_rule_raw with ALL sources. */
    method OverSources(tgt: Option<TypeDatum>, cls: Option<ClassDatum>, e: Edit) returns (ok: bool)
      requires TableOk(avtab) && ValidEdit(e)
      modifies this`avtab, this`failures
      ensures Edited(old(avtab), avtab, Expansion(types, types, classes, None, tgt, cls, e), e, Complete(e, ok))
      ensures ok && Lean(old(avtab)) ==> Lean(avtab)
      ensures ok <==> failures == old(failures)
      ensures failures >= old(failures)
      decreases 1 + Wildcards(tgt, cls), 0
    {
      hide Edited, Lean, Expansion, Complete;
      ok := true;
      EditedRefl(avtab, e);
      CompleteAll(e);
      ghost var done: iset<Key> := iset{};
      ExpansionEmpty(types, types, classes, None, tgt, cls, e);
      for i := 0 to |types|
        invariant done == Expansion(types[..i], types, classes, None, tgt, cls, e)
        invariant Edited(old(avtab), avtab, done, e, Complete(e, ok)) && (ok && Lean(old(avtab)) ==> Lean(avtab))
        invariant failures >= old(failures) && (ok <==> failures == old(failures))
      {
        ExpansionSource(types, classes, i, tgt, cls, e);
        if !Strips(e) && !types[i].attribute {
          continue;
        }
        ghost var mid, okBefore := avtab, ok;
        EditedTables(old(avtab), avtab, done, e, Complete(e, ok));
        var ok' := AddRuleRaw(Some(types[i]), tgt, cls, e);
        ghost var more := Expansion(types, types, classes, Some(types[i]), tgt, cls, e);
        EditedCompose(old(avtab), mid, avtab, done, more, e, Complete(e, okBefore), Complete(e, ok'));
        CompleteBoth(e, okBefore, ok');
        done := done + more;
        ok := ok && ok';
      }
      assert types[..|types|] == types;
    }

    /** add_rule_raw with one source and ALL targets. */
    method OverTargets(src: TypeDatum, cls: Option<ClassDatum>, e: Edit) returns (ok: bool)
      requires TableOk(avtab) && ValidEdit(e)
      modifies this`avtab, this`failures
      ensures Edited(old(avtab), avtab, Expansion(types, types, classes, Some(src), None, cls, e), e, Complete(e, ok))
      ensures ok && Lean(old(avtab)) ==> Lean(avtab)
      ensures ok <==> failures == old(failures)
      ensures failures >= old(failures)
      decreases 1 + Wildcards(Some(src), cls), 0
    {
      hide Edited, Lean, Expansion, Complete;
      ok := true;
      EditedRefl(avtab, e);
      CompleteAll(e);
      ghost var done: iset<Key> := iset{};
      ExpansionEmpty(types, types, classes, Some(src), None, cls, e);
      for i := 0 to |types|
        invariant done == Expansion(types, types[..i], classes, Some(src), None, cls, e)
        invariant Edited(old(avtab), avtab, done, e, Complete(e, ok)) && (ok && Lean(old(avtab)) ==> Lean(avtab))
        invariant failures >= old(failures) && (ok <==> failures == old(failures))
      {
        ExpansionTarget(types, classes, i, Some(src), cls, e);
        if !Strips(e) && !types[i].attribute {
          continue;
        }
        ghost var mid, okBefore := avtab, ok;
        EditedTables(old(avtab), avtab, done, e, Complete(e, ok));
        var ok' := AddRuleRaw(Some(src), Some(types[i]), cls, e);
        ghost var more := Expansion(types, types, classes, Some(src), Some(types[i]), cls, e);
        EditedCompose(old(avtab), mid, avtab, done, more, e, Complete(e, okBefore), Complete(e, ok'));
        CompleteBoth(e, okBefore, ok');
        done := done + more;
        ok := ok && ok';
      }
      assert types[..|types|] == types;
    }

    /** add_rule_raw with one source, one target and ALL classes. */
    method OverClasses(src: TypeDatum, tgt: TypeDatum, e: Edit) returns (ok: bool)
      requires TableOk(avtab) && ValidEdit(e)
      modifies this`avtab, this`failures
      ensures Edited(old(avtab), avtab, Expansion(types, types, classes, Some(src), Some(tgt), None, e), e, Complete(e, ok))
      ensures ok && Lean(old(avtab)) ==> Lean(avtab)
      ensures ok <==> failures == old(failures)
      ensures failures >= old(failures)
      decreases 1, 0
    {
      hide Edited, Lean, Expansion, Complete;
      ok := true;
      EditedRefl(avtab, e);
      CompleteAll(e);
      ghost var done: iset<Key> := iset{};
      ExpansionEmpty(types, types, classes, Some(src), Some(tgt), None, e);
      for i := 0 to |classes|
        invariant done == Expansion(types, types, classes[..i], Some(src), Some(tgt), None, e)
        invariant Edited(old(avtab), avtab, done, e, Complete(e, ok)) && (ok && Lean(old(avtab)) ==> Lean(avtab))
        invariant failures >= old(failures) && (ok <==> failures == old(failures))
      {
        ExpansionClass(types, classes, i, Some(src), Some(tgt), e);
        ghost var mid, okBefore := avtab, ok;
        EditedTables(old(avtab), avtab, done, e, Complete(e, ok));
        var ok' := AddRuleRaw(Some(src), Some(tgt), Some(classes[i]), e);
        ghost var more := Expansion(types, types, classes, Some(src), Some(tgt), Some(classes[i]), e);
        EditedCompose(old(avtab), mid, avtab, done, more, e, Complete(e, okBefore), Complete(e, ok'));
        CompleteBoth(e, okBefore, ok');
        done := done + more;
        ok := ok && ok';
      }
      assert classes[..|classes|] == classes;
    }

    /** add_rule_raw: None is the wildcard. */
    method AddRuleRaw(src: Option<TypeDatum>, tgt: Option<TypeDatum>, cls: Option<ClassDatum>, e: Edit)
      returns (ok: bool)
      requires TableOk(avtab) && ValidEdit(e)
      modifies this`avtab, this`failures
      ensures Edited(old(avtab), avtab, Expansion(types, types, classes, src, tgt, cls, e), e, Complete(e, ok))
      ensures ok && Lean(old(avtab)) ==> Lean(avtab)
      ensures ok <==> failures == old(failures)
      ensures failures >= old(failures)
      decreases (if src.None? then 1 else 0) + Wildcards(tgt, cls), 1
    {
      hide Edited, Lean, Complete;
      if src.None? {
        ok := OverSources(tgt, cls, e);
      } else if tgt.None? {
        ok := OverTargets(src.value, cls, e);
      } else if cls.None? {
        ok := OverClasses(src.value, tgt.value, e);
      } else {
        var key := Key(src.value.value, tgt.value.value, cls.value.value, e.kind);
        ok := EditKey(key, e);
        assert iset{key} == Expansion(types, types, classes, src, tgt, cls, e);
      }
    }

    /** symtab_search on p_types */
    method SearchType(name: string) returns (d: Option<TypeDatum>)
      ensures d == TypeNamed(types, name)
    {
      var i := 0;
      assert types[0..] == types;
      while i < |types|
        invariant 0 <= i <= |types| && TypeNamed(types, name) == TypeNamed(types[i..], name)
      {
        if types[i].name == name {
          return Some(types[i]);
        }
        assert types[i..][1..] == types[i + 1..];
        i := i + 1;
      }
      d := None;
    }

    method SearchClass(name: string) returns (d: Option<ClassDatum>)
      ensures d == ClassNamed(classes, name)
    {
      var i := 0;
      assert classes[0..] == classes;
      while i < |classes|
        invariant 0 <= i <= |classes| && ClassNamed(classes, name) == ClassNamed(classes[i..], name)
      {
        if classes[i].name == name {
          return Some(classes[i]);
        }
        assert classes[i..][1..] == classes[i + 1..];
        i := i + 1;
      }
      d := None;
    }

    /** add_rule: names are looked up first, and an unknown one changes nothing. */
    method AddRule(s: Option<string>, t: Option<string>, c: Option<string>, p: Option<string>, kind: Kind, invert: bool)
      returns (ok: bool)
      requires TableOk(avtab) && IsAv(kind)
      modifies this`avtab, this`failures
      ensures match Resolve(types, classes, s, t, c, p)
              case None => !ok && avtab == old(avtab)
              case Some(q) =>
                var e := Edit(kind, invert, q.perm);
                && Edited(old(avtab), avtab, Expansion(types, types, classes, q.src, q.tgt, q.cls, e), e, Complete(e, ok))
                && (ok <==> failures == old(failures))
      ensures failures >= old(failures)
      ensures ok && Lean(old(avtab)) ==> Lean(avtab)
    {
      hide Edited, Expansion, Lean;
      var src: Option<TypeDatum>, tgt: Option<TypeDatum>, cls: Option<ClassDatum>, perm: Option<Perm> := None, None, None, None;
      if s.Some? {
        src := SearchType(s.value);
        if src.None? {
          return false;
        }
      }
      if t.Some? {
        tgt := SearchType(t.value);
        if tgt.None? {
          return false;
        }
      }
      if c.Some? {
        cls := SearchClass(c.value);
        if cls.None? {
          return false;
        }
      }
      if p.Some? {
        if c.None? {
          return false;
        }
        perm := PermNamed(cls.value, p.value);
        if perm.None? {
          return false;
        }
      }
      ok := AddRuleRaw(src, tgt, cls, Edit(kind, invert, perm));
    }
  }
}
