/** Extended (ioctl) permissions: add_xperm_rule_raw of kernel/selinux/sepolicy.c, on its arrays of
    eight 32-bit words and over its wildcards. */
module Xperms {
  import opened Bytes
  import opened Policy
  import opened PolicyEditor

  /** A 32-bit word is the set of the bit numbers that are on. */
  type Bit = b: int | 0 <= b < 32

  type Word = set<Bit>

  predicate Eight(p: seq<Word>) {
    |p| == 8
  }

  /** xperm_test */
  predicate Test(p: seq<Word>, x: nat)
    requires Eight(p) && x < 256
  {
    x % 32 in p[x / 32]
  }

  /** xperm_set */
  function SetAt(p: seq<Word>, x: nat): (r: seq<Word>)
    requires Eight(p) && x < 256
    ensures Eight(r)
  {
    p[x / 32 := p[x / 32] + {x % 32}]
  }

  lemma {:induction false} SetAtTest(p: seq<Word>, x: nat, y: nat)
    requires Eight(p) && x < 256 && y < 256
    ensures Test(SetAt(p, x), y) <==> Test(p, y) || x == y
  {
    assert x == 32 * (x / 32) + x % 32 && y == 32 * (y / 32) + y % 32;
  }

  /** xperm_clear */
  function ClearAt(p: seq<Word>, x: nat): (r: seq<Word>)
    requires Eight(p) && x < 256
    ensures Eight(r)
  {
    p[x / 32 := p[x / 32] - {x % 32}]
  }

  lemma {:induction false} ClearAtTest(p: seq<Word>, x: nat, y: nat)
    requires Eight(p) && x < 256 && y < 256
    ensures Test(ClearAt(p, x), y) <==> Test(p, y) && x != y
  {
    assert x == 32 * (x / 32) + x % 32 && y == 32 * (y / 32) + y % 32;
  }

  const ZEROS: seq<Word> := [{}, {}, {}, {}, {}, {}, {}, {}]

  /** The loops that fill the local array, which starts out empty: every bit from lo to hi, none if hi
      is below lo, and none if the request is inverted. */
  method FillRange(lo: nat, hi: nat, invert: bool) returns (p: seq<Word>)
    requires lo < 256 && hi < 256
    ensures Eight(p) && forall y: nat :: y < 256 ==> (Test(p, y) <==> !invert && lo <= y <= hi)
  {
    p := ZEROS;
    var i := lo;
    while i <= hi
      invariant lo <= i && (i <= hi + 1 || i == lo) && Eight(p)
      invariant forall y: nat :: y < 256 ==> (Test(p, y) <==> !invert && lo <= y < i)
      decreases hi + 1 - i
    {
      ghost var before := p;
      p := if invert then ClearAt(p, i) else SetAt(p, i);
      forall y: nat | y < 256
        ensures Test(p, y) <==> !invert && lo <= y < i + 1
      {
        SetAtTest(before, i, y);
        ClearAtTest(before, i, y);
      }
      i := i + 1;
    }
  }

  /** The final loop: or the new words into the node's. */
  method MergeWords(old': seq<Word>, add: seq<Word>) returns (p: seq<Word>)
    requires Eight(old') && Eight(add)
    ensures Eight(p) && forall y: nat :: y < 256 ==> (Test(p, y) <==> Test(old', y) || Test(add, y))
  {
    p := old';
    var i := 0;
    while i < 8
      invariant 0 <= i <= 8 && Eight(p)
      invariant forall k :: 0 <= k < 8 ==> p[k] == if k < i then old'[k] + add[k] else old'[k]
    {
      p := p[i := p[i] + add[i]];
      i := i + 1;
    }
  }

  // ---- the nodes of the table ----------------------------------------------------------

  /** IOCTLDRIVER nodes list drivers; IOCTLFUNCTION nodes list the functions of one driver. */
  datatype XNode = XNode(key: Key, drivers: bool, driver: nat, perms: seq<Word>)

  ghost predicate NodesOk(t: seq<XNode>) {
    forall i :: 0 <= i < |t| ==> Eight(t[i].perms)
  }

  type Command = c: int | 0 <= c < 0x1_0000

  function Driver(c: Command): nat { c / 256 }

  function Func(c: Command): nat { c % 256 }

  predicate NodeCovers(n: XNode, key: Key, c: Command)
    requires Eight(n.perms)
  {
    n.key == key && if n.drivers then Test(n.perms, Driver(c)) else n.driver == Driver(c) && Test(n.perms, Func(c))
  }

  ghost predicate Covers(t: seq<XNode>, key: Key, c: Command)
    requires NodesOk(t)
  {
    exists i :: 0 <= i < |t| && NodeCovers(t[i], key, c)
  }

  /** What one range request adds: the range itself inside one driver, else whole drivers. */
  predicate Adds(low: Command, high: Command, c: Command) {
    if Driver(low) == Driver(high) then low <= c <= high else Driver(low) <= Driver(c) <= Driver(high)
  }

  /** An inverted request adds nothing, and takes nothing away either. */
  predicate Added(low: Command, high: Command, invert: bool, c: Command) {
    !invert && Adds(low, high, c)
  }

  /** A request always covers at least the commands it names. */
  lemma AddsRange(low: Command, high: Command, c: Command)
    requires low <= c <= high
    ensures Adds(low, high, c)
  {
    if Driver(low) == Driver(high) {
    } else {
      assert Driver(low) <= Driver(c) <= Driver(high);
    }
  }

  /** The filled node covers exactly what the request adds. */
  lemma {:induction false} FillIsRequest(n: XNode, low: Command, high: Command, invert: bool)
    requires Eight(n.perms) && n.drivers == (Driver(low) != Driver(high))
    requires n.drivers ==> forall y: nat :: y < 256 ==> (Test(n.perms, y) <==> !invert && Driver(low) <= y <= Driver(high))
    requires !n.drivers ==> n.driver == Driver(low)
    requires !n.drivers ==> forall y: nat :: y < 256 ==> (Test(n.perms, y) <==> !invert && Func(low) <= y <= Func(high))
    ensures forall c: Command :: NodeCovers(n, n.key, c) <==> Added(low, high, invert, c)
  {
    hide Test;
    forall c: Command
      ensures NodeCovers(n, n.key, c) <==> Added(low, high, invert, c)
    {
      if n.drivers {
        assert Driver(c) < 256;
      } else {
        assert Func(c) < 256;
      }
    }
  }

  lemma {:induction false} CoversAppend(t: seq<XNode>, n: XNode)
    requires NodesOk(t) && Eight(n.perms)
    ensures NodesOk(t + [n])
    ensures forall k: Key, c: Command :: Covers(t + [n], k, c) <==> Covers(t, k, c) || NodeCovers(n, k, c)
  {
    hide NodeCovers;
    var t' := t + [n];
    forall k: Key, c: Command
      ensures Covers(t', k, c) <==> Covers(t, k, c) || NodeCovers(n, k, c)
    {
      if i :| 0 <= i < |t| && NodeCovers(t[i], k, c) {
        assert t'[i] == t[i];
      }
      assert t'[|t|] == n;
    }
  }

  lemma {:induction false} CoversMerge(t: seq<XNode>, i: nat, n: XNode, merged: seq<Word>)
    requires NodesOk(t) && i < |t| && Eight(n.perms) && Eight(merged)
    requires t[i].key == n.key && t[i].drivers == n.drivers && t[i].driver == n.driver
    requires forall y: nat :: y < 256 ==> (Test(merged, y) <==> Test(t[i].perms, y) || Test(n.perms, y))
    ensures var t' := t[i := t[i].(perms := merged)];
            && NodesOk(t')
            && forall k: Key, c: Command :: Covers(t', k, c) <==> Covers(t, k, c) || NodeCovers(n, k, c)
  {
    hide Test;
    var t' := t[i := t[i].(perms := merged)];
    forall k: Key, c: Command
      ensures Covers(t', k, c) <==> Covers(t, k, c) || NodeCovers(n, k, c)
    {
      assert Driver(c) < 256 && Func(c) < 256;
      assert NodeCovers(t'[i], k, c) <==> NodeCovers(t[i], k, c) || NodeCovers(n, k, c);
      if j :| 0 <= j < |t| && NodeCovers(t[j], k, c) {
        assert NodeCovers(t'[j], k, c);
      }
      if j :| 0 <= j < |t'| && NodeCovers(t'[j], k, c) {
        assert j != i ==> t'[j] == t[j];
      }
    }
  }

  predicate IsNode(n: XNode, key: Key, drivers: bool, driver: nat) {
    n.key == key && n.drivers == drivers && n.driver == driver
  }

  ghost predicate HasNode(t: seq<XNode>, key: Key, drivers: bool, driver: nat) {
    exists i :: 0 <= i < |t| && IsNode(t[i], key, drivers, driver)
  }

  /** The table has a node that the request can be merged into. */
  ghost predicate CanMerge(t: seq<XNode>, key: Key, low: Command, high: Command) {
    if Driver(low) == Driver(high) then HasNode(t, key, false, Driver(low)) else HasNode(t, key, true, 0)
  }

  /** The keys a request names: attributes where a type is ALL. */
  ghost function Wild(types: seq<TypeDatum>, classes: seq<ClassDatum>, src: Option<TypeDatum>, tgt: Option<TypeDatum>,
                      cls: Option<ClassDatum>, effect: nat): iset<Key> {
    Expansion(types, types, classes, src, tgt, cls, Edit(Other(effect), false, None))
  }

  /** The keys gained what the request adds, all of them if nothing failed, and nothing else changed. */
  ghost predicate WidenedAt(before: seq<XNode>, after: seq<XNode>, named: bool, low: Command, high: Command, invert: bool,
                            ok: bool, k: Key, c: Command)
    requires NodesOk(before) && NodesOk(after)
  {
    && (Covers(before, k, c) ==> Covers(after, k, c))
    && (Covers(after, k, c) ==> Covers(before, k, c) || (named && Added(low, high, invert, c)))
    && (ok && named && Added(low, high, invert, c) ==> Covers(after, k, c))
  }

  ghost predicate Widened(before: seq<XNode>, after: seq<XNode>, keys: iset<Key>, low: Command, high: Command, invert: bool, ok: bool) {
    && NodesOk(before) && NodesOk(after)
    && forall k: Key, c: Command :: WidenedAt(before, after, k in keys, low, high, invert, ok, k, c)
  }

  lemma {:induction false} WidenedRefl(t: seq<XNode>, low: Command, high: Command, invert: bool)
    requires NodesOk(t)
    ensures Widened(t, t, iset{}, low, high, invert, true)
  {
  }

  lemma {:induction false} WidenedNodes(a: seq<XNode>, b: seq<XNode>, keys: iset<Key>, low: Command, high: Command, invert: bool, ok: bool)
    requires Widened(a, b, keys, low, high, invert, ok)
    ensures NodesOk(b)
  {
  }

  lemma {:induction false} OneWidened(a: seq<XNode>, b: seq<XNode>, key: Key, low: Command, high: Command, invert: bool, ok: bool)
    requires NodesOk(a) && NodesOk(b) && (!ok ==> b == a)
    requires ok ==> forall c: Command :: Covers(b, key, c) <==> Covers(a, key, c) || Added(low, high, invert, c)
    requires forall k: Key, c: Command :: k != key ==> (Covers(b, k, c) <==> Covers(a, k, c))
    ensures Widened(a, b, iset{key}, low, high, invert, ok)
  {
    hide Covers, Added;
  }

  lemma {:induction false} WidenedCompose(a: seq<XNode>, b: seq<XNode>, c: seq<XNode>, k1: iset<Key>, k2: iset<Key>,
                                          low: Command, high: Command, invert: bool, ok1: bool, ok2: bool)
    requires Widened(a, b, k1, low, high, invert, ok1) && Widened(b, c, k2, low, high, invert, ok2)
    ensures Widened(a, c, k1 + k2, low, high, invert, ok1 && ok2)
  {
    hide Covers, Added;
    var keys := k1 + k2;
    var both := ok1 && ok2;
    forall k: Key, x: Command
      ensures WidenedAt(a, c, k in keys, low, high, invert, both, k, x)
    {
      assert WidenedAt(a, b, k in k1, low, high, invert, ok1, k, x) && WidenedAt(b, c, k in k2, low, high, invert, ok2, k, x);
    }
  }

  // ---- on numbers and raw words ---------------------------------------------------------

  /** A range inside one driver is added as it is, any other is widened to whole drivers of 256. */
  lemma {:induction false} AddedRange(low: Command, high: Command, invert: bool, c: Command)
    ensures Added(low, high, invert, c) <==>
            && !invert
            && if low / 256 == high / 256 then low <= c <= high else low - low % 256 <= c < high - high % 256 + 256
  {
    assert low == 256 * (low / 256) + low % 256 && high == 256 * (high / 256) + high % 256;
    assert c == 256 * (c / 256) + c % 256;
  }

  /** The bit for a command: its high byte in a driver node, its low byte in a function node, five bits
      of either as the bit and three as the word. */
  lemma {:induction false} CoversBits(t: seq<XNode>, key: Key, c: Command)
    requires NodesOk(t)
    ensures Covers(t, key, c) <==> exists i :: 0 <= i < |t| && t[i].key == key && HasBit(t[i], c)
  {
    forall i | 0 <= i < |t|
      ensures NodeCovers(t[i], key, c) <==> t[i].key == key && HasBit(t[i], c)
    {
      assert (c / 256) / 32 == c / 8192;
      assert (c / 256) % 32 == c % 8192 / 256;
      assert (c % 256) / 32 == c % 256 / 32 && (c % 256) % 32 == c % 32;
    }
    hide NodeCovers, HasBit;
  }

  ghost predicate HasBit(n: XNode, c: Command)
    requires Eight(n.perms)
  {
    if n.drivers then c % 8192 / 256 in n.perms[c / 8192]
    else n.driver == c / 256 && c % 32 in n.perms[c % 256 / 32]
  }

  /** A rule for all types and all classes is written for every pair of attributes and every class. */
  lemma {:induction false} WildKeys(types: seq<TypeDatum>, classes: seq<ClassDatum>, effect: nat, key: Key)
    ensures key in Wild(types, classes, None, None, None, effect) <==>
            && key.kind == Other(effect)
            && (exists i :: 0 <= i < |types| && types[i].value == key.source && types[i].attribute)
            && (exists i :: 0 <= i < |types| && types[i].value == key.target && types[i].attribute)
            && (exists i :: 0 <= i < |classes| && classes[i].value == key.cls)
  {
    var e := Edit(Other(effect), false, None);
    assert key in Wild(types, classes, None, None, None, effect) <==>
           key.kind == e.kind && SelectsType(types, None, false, key.source) && SelectsType(types, None, false, key.target)
           && SelectsClass(classes, None, key.cls);
  }

  class XpermTable {
    var types: seq<TypeDatum>
    var classes: seq<ClassDatum>
    var nodes: seq<XNode>
    ghost var failures: nat  // allocations that failed so far

    /** get_avtab_node for extended permissions: entries with one key differ in mode and driver. */
    method FindNode(key: Key, drivers: bool, driver: nat) returns (i: nat)
      ensures i <= |nodes|
      ensures i < |nodes| <==> HasNode(nodes, key, drivers, driver)
      ensures i < |nodes| ==> IsNode(nodes[i], key, drivers, driver)
    {
      i := 0;
      while i < |nodes| && !IsNode(nodes[i], key, drivers, driver)
        invariant i <= |nodes| && forall j :: 0 <= j < i ==> !IsNode(nodes[j], key, drivers, driver)
      {
        i := i + 1;
      }
    }

    /** The innermost case of add_xperm_rule_raw. `memory` says whether a new node can be allocated;
        only a request that needs one and cannot get it fails. */
    method AddRange(key: Key, low: Command, high: Command, invert: bool, memory: bool) returns (ok: bool)
      requires NodesOk(nodes)
      modifies this`nodes
      ensures NodesOk(nodes)
      ensures ok ==> forall c: Command :: Covers(nodes, key, c) <==> old(Covers(nodes, key, c)) || Added(low, high, invert, c)
      ensures forall k: Key, c: Command :: k != key ==> (Covers(nodes, k, c) <==> old(Covers(nodes, k, c)))
      ensures ok <==> memory || old(CanMerge(nodes, key, low, high))
      ensures !ok ==> nodes == old(nodes)
      ensures ok ==> |nodes| == |old(nodes)| + if old(CanMerge(nodes, key, low, high)) then 0 else 1
    {
      ghost var before := nodes;
      var drivers := Driver(low) != Driver(high);
      var driver := if drivers then 0 else Driver(low);
      var perms;
      if drivers {
        perms := FillRange(Driver(low), Driver(high), invert);
      } else {
        perms := FillRange(Func(low), Func(high), invert);
      }
      var fresh' := XNode(key, drivers, driver, perms);
      FillIsRequest(fresh', low, high, invert);
      var i := FindNode(key, drivers, driver);
      ok := true;
      if i == |nodes| {
        if !memory {
          return false;
        }
        nodes := nodes + [fresh'];
        CoversAppend(before, fresh');
      } else {
        var merged := MergeWords(nodes[i].perms, perms);
        nodes := nodes[i := nodes[i].(perms := merged)];
        CoversMerge(before, i, fresh', merged);
      }
    }

    /** add_xperm_rule_raw with ALL sources. */
    method OverSources(tgt: Option<TypeDatum>, cls: Option<ClassDatum>, low: Command, high: Command, effect: nat, invert: bool) returns (ok: bool)
      requires NodesOk(nodes)
      modifies this`nodes, this`failures
      ensures Widened(old(nodes), nodes, Wild(types, classes, None, tgt, cls, effect), low, high, invert, ok)
      ensures failures >= old(failures) && (failures == old(failures) ==> ok)
      decreases 1 + Wildcards(tgt, cls), 0
    {
      hide Widened, Expansion;
      var e := Edit(Other(effect), false, None);
      ok := true;
      WidenedRefl(nodes, low, high, invert);
      ghost var done: iset<Key> := iset{};
      ExpansionEmpty(types, types, classes, None, tgt, cls, e);
      for i := 0 to |types|
        invariant done == Expansion(types[..i], types, classes, None, tgt, cls, e)
        invariant Widened(old(nodes), nodes, done, low, high, invert, ok)
        invariant failures >= old(failures) && (failures == old(failures) ==> ok)
      {
        ExpansionSource(types, classes, i, tgt, cls, e);
        if !types[i].attribute {
          continue;
        }
        ghost var mid, okBefore := nodes, ok;
        WidenedNodes(old(nodes), nodes, done, low, high, invert, ok);
        var ok' := AddXpermRule(Some(types[i]), tgt, cls, low, high, effect, invert);
        ghost var more := Wild(types, classes, Some(types[i]), tgt, cls, effect);
        WidenedCompose(old(nodes), mid, nodes, done, more, low, high, invert, okBefore, ok');
        done := done + more;
        ok := ok && ok';
      }
      assert types[..|types|] == types;
    }

    /** add_xperm_rule_raw with one source and ALL targets. */
    method OverTargets(src: TypeDatum, cls: Option<ClassDatum>, low: Command, high: Command, effect: nat, invert: bool) returns (ok: bool)
      requires NodesOk(nodes)
      modifies this`nodes, this`failures
      ensures Widened(old(nodes), nodes, Wild(types, classes, Some(src), None, cls, effect), low, high, invert, ok)
      ensures failures >= old(failures) && (failures == old(failures) ==> ok)
      decreases 1 + Wildcards(Some(src), cls), 0
    {
      hide Widened, Expansion;
      var e := Edit(Other(effect), false, None);
      ok := true;
      WidenedRefl(nodes, low, high, invert);
      ghost var done: iset<Key> := iset{};
      ExpansionEmpty(types, types, classes, Some(src), None, cls, e);
      for i := 0 to |types|
        invariant done == Expansion(types, types[..i], classes, Some(src), None, cls, e)
        invariant Widened(old(nodes), nodes, done, low, high, invert, ok)
        invariant failures >= old(failures) && (failures == old(failures) ==> ok)
      {
        ExpansionTarget(types, classes, i, Some(src), cls, e);
        if !types[i].attribute {
          continue;
        }
        ghost var mid, okBefore := nodes, ok;
        WidenedNodes(old(nodes), nodes, done, low, high, invert, ok);
        var ok' := AddXpermRule(Some(src), Some(types[i]), cls, low, high, effect, invert);
        ghost var more := Wild(types, classes, Some(src), Some(types[i]), cls, effect);
        WidenedCompose(old(nodes), mid, nodes, done, more, low, high, invert, okBefore, ok');
        done := done + more;
        ok := ok && ok';
      }
      assert types[..|types|] == types;
    }

    /** add_xperm_rule_raw with one source, one target and ALL classes. */
    method OverClasses(src: TypeDatum, tgt: TypeDatum, low: Command, high: Command, effect: nat, invert: bool) returns (ok: bool)
      requires NodesOk(nodes)
      modifies this`nodes, this`failures
      ensures Widened(old(nodes), nodes, Wild(types, classes, Some(src), Some(tgt), None, effect), low, high, invert, ok)
      ensures failures >= old(failures) && (failures == old(failures) ==> ok)
      decreases 1, 0
    {
      hide Widened, Expansion;
      var e := Edit(Other(effect), false, None);
      ok := true;
      WidenedRefl(nodes, low, high, invert);
      ghost var done: iset<Key> := iset{};
      ExpansionEmpty(types, types, classes, Some(src), Some(tgt), None, e);
      for i := 0 to |classes|
        invariant done == Expansion(types, types, classes[..i], Some(src), Some(tgt), None, e)
        invariant Widened(old(nodes), nodes, done, low, high, invert, ok)
        invariant failures >= old(failures) && (failures == old(failures) ==> ok)
      {
        ExpansionClass(types, classes, i, Some(src), Some(tgt), e);
        ghost var mid, okBefore := nodes, ok;
        WidenedNodes(old(nodes), nodes, done, low, high, invert, ok);
        var ok' := AddXpermRule(Some(src), Some(tgt), Some(classes[i]), low, high, effect, invert);
        ghost var more := Wild(types, classes, Some(src), Some(tgt), Some(classes[i]), effect);
        WidenedCompose(old(nodes), mid, nodes, done, more, low, high, invert, okBefore, ok');
        done := done + more;
        ok := ok && ok';
      }
      assert classes[..|classes|] == classes;
    }

    /** add_xperm_rule_raw: None is the wildcard. Exactly the keys of the expansion, over attributes
        only, gain exactly what the request adds; without memory a key may go without. */
    method AddXpermRule(src: Option<TypeDatum>, tgt: Option<TypeDatum>, cls: Option<ClassDatum>,
                        low: Command, high: Command, effect: nat, invert: bool) returns (ok: bool)
      requires NodesOk(nodes)
      modifies this`nodes, this`failures
      ensures Widened(old(nodes), nodes, Wild(types, classes, src, tgt, cls, effect), low, high, invert, ok)
      ensures failures >= old(failures) && (failures == old(failures) ==> ok)
      decreases (if src.None? then 1 else 0) + Wildcards(tgt, cls), 1
    {
      hide Widened, Covers, Added;
      if src.None? {
        ok := OverSources(tgt, cls, low, high, effect, invert);
      } else if tgt.None? {
        ok := OverTargets(src.value, cls, low, high, effect, invert);
      } else if cls.None? {
        ok := OverClasses(src.value, tgt.value, low, high, effect, invert);
      } else {
        var key := Key(src.value.value, tgt.value.value, cls.value.value, Other(effect));
        var memory: bool := *;
        failures := failures + if memory then 0 else 1;
        ok := AddRange(key, low, high, invert, memory);
        OneWidened(old(nodes), nodes, key, low, high, invert, ok);
        assert iset{key} == Wild(types, classes, src, tgt, cls, effect);
      }
    }
  }
}
