/** The part of the kernel's policydb that the rule editor (kernel/selinux/sepolicy.c) writes and
    the access-vector evaluator (kernel/feature/selinux_hide.c) reads.

    A 32-bit access vector is the set of the bit numbers that are on. The hash chains of the
    access-vector table are one list of nodes; the kernel's hash is not part of this model. */
module Policy {
  import opened Bytes
  import C = ConstraintExpr

  type Perm = p: int | 0 <= p < 32

  type Av = set<Perm>

  function PermsBelow(n: nat): (r: Av)
    requires n <= 32
    ensures forall p: Perm :: p in r <==> p < n
  {
    if n == 0 then {} else PermsBelow(n - 1) + {n - 1}
  }

  /** ~0U */
  function AllPerms(): (r: Av)
    ensures forall p: Perm :: p in r
  {
    PermsBelow(32)
  }

  /** The `specified` field of a key; Other stands for the type and ioctl rules in the same table. */
  datatype Kind = Allowed | AuditAllow | AuditDeny | Other(code: nat)

  datatype Key = Key(source: nat, target: nat, cls: nat, kind: Kind)

  datatype Datum = Vector(av: Av) | Opaque(raw: nat)

  datatype AvNode = AvNode(key: Key, datum: Datum)

  type Table = seq<AvNode>

  datatype TypeDatum = TypeDatum(name: string, value: nat, attribute: bool)

  datatype ClassDatum = ClassDatum(name: string, value: nat, perms: map<string, Perm>, common: map<string, Perm>)

  datatype Constraint = Constraint(perms: Av, expr: seq<C.Node>)

  /** What the evaluator reads. `attrs` is type_attr_map_array: for each type value the values of
      its attributes and itself. `bounds` gives the bounding type of each type, 0 for none.
      `constraints` is indexed by class value; `cond` lists the enabled entries of the
      conditional table. */
  datatype Policydb = Policydb(
    avtab: Table, cond: Table, attrs: map<nat, set<nat>>, bounds: map<nat, nat>,
    constraints: map<nat, seq<Constraint>>, dominates: map<nat, set<nat>>,
    roleAllow: seq<(nat, nat)>, processClass: nat, processTrans: Av)

  predicate IsAv(kind: Kind) {
    !kind.Other?
  }

  /** What a missing entry stands for: nothing allowed, nothing audited, every denial audited. */
  function Default(kind: Kind): Av {
    if kind.AuditDeny? then AllPerms() else {}
  }

  /** Access-vector entries hold vectors, and there is at most one per key. */
  ghost predicate TableOk(t: Table) {
    && (forall i :: 0 <= i < |t| ==> (IsAv(t[i].key.kind) <==> t[i].datum.Vector?))
    && (forall i, j :: 0 <= i < j < |t| && IsAv(t[i].key.kind) ==> t[i].key != t[j].key)
  }

  predicate HasKey(t: Table, key: Key) {
    exists i :: 0 <= i < |t| && t[i].key == key
  }

  /** The effective vector of a key: its entry, or the default where there is none. */
  ghost function Effective(t: Table, key: Key): Av
    requires TableOk(t) && IsAv(key.kind)
  {
    if i :| 0 <= i < |t| && t[i].key == key then t[i].datum.av else Default(key.kind)
  }

  lemma EffectiveAt(t: Table, i: nat)
    requires TableOk(t) && i < |t| && IsAv(t[i].key.kind)
    ensures t[i].datum.Vector? && Effective(t, t[i].key) == t[i].datum.av
  {
  }

  lemma EffectiveDefault(t: Table, key: Key)
    requires TableOk(t) && IsAv(key.kind) && !HasKey(t, key)
    ensures Effective(t, key) == Default(key.kind)
  {
  }

  /** The entries that are not access vectors, in table order. */
  ghost function Others(t: Table): Table {
    if t == [] then [] else (if IsAv(t[0].key.kind) then [] else [t[0]]) + Others(t[1..])
  }

  lemma {:induction false} OthersConcat(a: Table, b: Table)
    ensures Others(a + b) == Others(a) + Others(b)
    decreases |a|
  {
    if a == [] {
      assert a + b == b;
    } else {
      OthersConcat(a[1..], b);
      assert (a + b)[1..] == a[1..] + b;
    }
  }

  // ---- what the three table edits do to effective vectors --------------------------------

  lemma {:induction false} UpdateNode(t: Table, i: nat, av: Av, key: Key)
    requires TableOk(t) && i < |t| && IsAv(t[i].key.kind) && IsAv(key.kind)
    ensures var t' := t[i := t[i].(datum := Vector(av))];
            && TableOk(t') && Others(t') == Others(t)
            && Effective(t', key) == if key == t[i].key then av else Effective(t, key)
  {
    var node := t[i].(datum := Vector(av));
    var t' := t[i := node];
    assert TableOk(t') by {
      assert forall k :: 0 <= k < |t| ==> t'[k].key == t[k].key;
    }
    assert t == t[..i] + [t[i]] + t[i + 1..] && t' == t[..i] + [node] + t[i + 1..];
    OthersMiddle(t[..i], t[i], t[i + 1..]);
    OthersMiddle(t[..i], node, t[i + 1..]);
    if k :| 0 <= k < |t| && t[k].key == key {
      assert t'[k].key == key;
      EffectiveAt(t, k);
      EffectiveAt(t', k);
    } else {
      assert forall k :: 0 <= k < |t| ==> t'[k].key == t[k].key;
      EffectiveDefault(t', key);
    }
  }

  lemma {:induction false} OthersMiddle(a: Table, node: AvNode, b: Table)
    ensures IsAv(node.key.kind) ==> Others(a + [node] + b) == Others(a) + Others(b)
  {
    OthersConcat(a + [node], b);
    OthersConcat(a, [node]);
  }

  lemma {:induction false} InsertNode(t: Table, pos: nat, node: AvNode)
    requires TableOk(t) && pos <= |t| && IsAv(node.key.kind) && node.datum.Vector? && !HasKey(t, node.key)
    ensures var t' := t[..pos] + [node] + t[pos..];
            TableOk(t') && Others(t') == Others(t) && t'[pos] == node
  {
    InsertNodeOk(t, pos, node);
    hide TableOk, HasKey;
    OthersMiddle(t[..pos], node, t[pos..]);
    OthersConcat(t[..pos], t[pos..]);
    assert t == t[..pos] + t[pos..];
  }

  lemma {:induction false} InsertNodeOk(t: Table, pos: nat, node: AvNode)
    requires TableOk(t) && pos <= |t| && IsAv(node.key.kind) && node.datum.Vector? && !HasKey(t, node.key)
    ensures TableOk(t[..pos] + [node] + t[pos..])
  {
    var t' := t[..pos] + [node] + t[pos..];
    assert forall k :: 0 <= k < |t'| ==> t'[k] == if k < pos then t[k] else if k == pos then node else t[k - 1];
  }

  lemma {:induction false} InsertedEffective(t: Table, pos: nat, node: AvNode, key: Key)
    requires TableOk(t) && pos <= |t| && IsAv(node.key.kind) && node.datum.Vector? && !HasKey(t, node.key)
    requires IsAv(key.kind) && TableOk(t[..pos] + [node] + t[pos..])
    ensures Effective(t[..pos] + [node] + t[pos..], key) ==
            if key == node.key then node.datum.av else Effective(t, key)
  {
    var t' := t[..pos] + [node] + t[pos..];
    assert t'[pos] == node;
    if key == node.key {
      EffectiveAt(t', pos);
    } else if k :| 0 <= k < |t| && t[k].key == key {
      var k' := if k < pos then k else k + 1;
      assert t'[k'] == t[k];
      EffectiveAt(t, k);
      EffectiveAt(t', k');
    } else {
      assert forall k :: 0 <= k < |t'| ==> t'[k] == if k < pos then t[k] else if k == pos then node else t[k - 1];
      EffectiveDefault(t', key);
    }
  }

  lemma {:induction false} RemoveNode(t: Table, i: nat)
    requires TableOk(t) && i < |t| && IsAv(t[i].key.kind)
    ensures var t' := t[..i] + t[i + 1..];
            TableOk(t') && Others(t') == Others(t) && !HasKey(t', t[i].key)
  {
    var t' := t[..i] + t[i + 1..];
    assert forall k :: 0 <= k < |t'| ==> t'[k] == if k < i then t[k] else t[k + 1];
    assert t == t[..i] + [t[i]] + t[i + 1..];
    OthersMiddle(t[..i], t[i], t[i + 1..]);
    OthersConcat(t[..i], t[i + 1..]);
  }

  lemma {:induction false} RemovedEffective(t: Table, i: nat, key: Key)
    requires TableOk(t) && i < |t| && IsAv(t[i].key.kind) && IsAv(key.kind)
    requires TableOk(t[..i] + t[i + 1..])
    ensures Effective(t[..i] + t[i + 1..], key) ==
            if key == t[i].key then Default(key.kind) else Effective(t, key)
  {
    var t' := t[..i] + t[i + 1..];
    assert forall k :: 0 <= k < |t'| ==> t'[k] == if k < i then t[k] else t[k + 1];
    if key == t[i].key {
      RemoveNode(t, i);
      EffectiveDefault(t', key);
    } else if k :| 0 <= k < |t| && t[k].key == key {
      var k' := if k < i then k else k - 1;
      assert t'[k'] == t[k];
      EffectiveAt(t, k);
      EffectiveAt(t', k');
    } else {
      EffectiveDefault(t', key);
    }
  }
}
