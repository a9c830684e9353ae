/** Batch lookup of kernel symbols: kernel/infra/symbol_resolver.c. Names are byte strings without
    a terminating NUL. */
module SymbolNames {
  import opened Bytes

  type Name = ByteSeq

  // sizeof(ctx->key); KSYM_NAME_LEN in the kernel tree
  const KSYM_NAME_LEN: nat := 512

  const DOLLAR: Byte := 36
  const LLVM: Name := [46, 108, 108, 118, 109, 46]  // ".llvm."

  // ---- strcmp ---------------------------------------------------------------------------

  function Cmp(a: Name, b: Name): int {
    if a == [] then (if b == [] then 0 else -1)
    else if b == [] then 1
    else if a[0] < b[0] then -1
    else if a[0] > b[0] then 1
    else Cmp(a[1..], b[1..])
  }

  lemma {:induction false} CmpZero(a: Name, b: Name)
    ensures Cmp(a, b) == 0 <==> a == b
  {
    if a != [] && b != [] && a[0] == b[0] {
      CmpZero(a[1..], b[1..]);
      assert a == [a[0]] + a[1..] && b == [b[0]] + b[1..];
    }
  }

  lemma {:induction false} CmpFlip(a: Name, b: Name)
    ensures Cmp(a, b) == -Cmp(b, a)
  {
    if a != [] && b != [] && a[0] == b[0] {
      CmpFlip(a[1..], b[1..]);
    }
  }

  lemma {:induction false} CmpTrans(a: Name, b: Name, c: Name)
    requires Cmp(a, b) <= 0 && Cmp(b, c) <= 0
    ensures Cmp(a, c) <= 0
  {
    if a != [] && b != [] && c != [] && a[0] == b[0] == c[0] {
      CmpTrans(a[1..], b[1..], c[1..]);
    }
  }

  // ---- how a kernel name is cut -----------------------------------------------------------

  predicate StartsAt(s: Name, sub: Name, i: nat) {
    i + |sub| <= |s| && s[i..i + |sub|] == sub
  }

  /** strchr and strstr: where `sub` first occurs, or |s| if it does not. */
  function FindFrom(s: Name, sub: Name, i: nat): (r: nat)
    requires i <= |s|
    ensures i <= r <= |s|
    ensures r < |s| ==> StartsAt(s, sub, r)
    ensures forall k :: i <= k < r ==> !StartsAt(s, sub, k)
    decreases |s| - i
  {
    if i == |s| || StartsAt(s, sub, i) then i else FindFrom(s, sub, i + 1)
  }

  /** The name a kernel symbol answers to: cut at the first '$', else at ".llvm."; None where the
      code skips the symbol. */
  function CutName(name: Name): Option<Name> {
    var d := FindFrom(name, [DOLLAR], 0);
    var cut := if d < |name| then d else FindFrom(name, LLVM, 0);
    if cut == |name| then Some(name)
    else if cut == 0 || cut >= KSYM_NAME_LEN then None
    else Some(name[..cut])
  }

  datatype Symbol = Symbol(name: Name, addr: nat, inModule: bool)

  predicate Matches(s: Symbol, want: Name) {
    s.addr != 0 && CutName(s.name) == Some(want)
  }

  /** ".llvm." stands at position k. */
  ghost predicate LlvmAt(name: Name, k: nat) {
    k + 6 <= |name| && name[k..k + 6] == [46, 108, 108, 118, 109, 46]
  }

  ghost predicate NoLlvmBefore(name: Name, n: nat) {
    forall k: nat :: k < n ==> !LlvmAt(name, k)
  }

  /** The name as it stands: no '$' and no ".llvm." in it. */
  ghost predicate Whole(name: Name, want: Name) {
    name == want && 36 !in name && NoLlvmBefore(name, |name|)
  }

  /** What comes before the first '$'. */
  ghost predicate BeforeDollar(name: Name, want: Name) {
    want + [36] <= name && 36 !in want && 0 < |want| < 512
  }

  /** What comes before the first ".llvm.", in a name without '$'. */
  ghost predicate BeforeLlvm(name: Name, want: Name) {
    && want + [46, 108, 108, 118, 109, 46] <= name && 36 !in name
    && NoLlvmBefore(name, |want|) && 0 < |want| < 512
  }

  lemma {:induction false} FirstDollar(name: Name)
    ensures var d := FindFrom(name, [36], 0);
            36 !in name[..d] && (if d < |name| then name[d] == 36 else 36 !in name)
  {
    var d := FindFrom(name, [36], 0);
    forall k | 0 <= k < d
      ensures name[k] != 36
    {
      assert !StartsAt(name, [36], k);
      assert name[k..k + 1] == [name[k]];
    }
    if d < |name| {
      assert name[d..d + 1] == [name[d]];
    } else {
      assert name[..d] == name;
    }
  }

  lemma {:induction false} FirstLlvm(name: Name)
    ensures var d := FindFrom(name, [46, 108, 108, 118, 109, 46], 0);
            NoLlvmBefore(name, d) && (d < |name| ==> LlvmAt(name, d))
  {
    var sub: Name := [46, 108, 108, 118, 109, 46];
    assert forall k: nat :: StartsAt(name, sub, k) <==> LlvmAt(name, k);
  }

  /** On bytes: a symbol with an address answers to a wanted name in exactly three ways. */
  lemma {:induction false} MatchesIff(s: Symbol, want: Name)
    ensures Matches(s, want) <==>
            s.addr != 0 && (Whole(s.name, want) || BeforeDollar(s.name, want) || BeforeLlvm(s.name, want))
  {
    hide FindFrom, NoLlvmBefore, LlvmAt;
    var name := s.name;
    FirstDollar(name);
    FirstLlvm(name);
    var d, l := FindFrom(name, [36], 0), FindFrom(name, [46, 108, 108, 118, 109, 46], 0);
    if d < |name| {
      CutDollar(name, d, want);
    } else if l < |name| {
      CutLlvm(name, l, want);
    } else {
      NoCut(name, want);
    }
  }

  lemma {:induction false} CutDollar(name: Name, d: nat, want: Name)
    requires d < |name| && name[d] == 36 && 36 !in name[..d]
    ensures !Whole(name, want) && !BeforeLlvm(name, want)
    ensures BeforeDollar(name, want) <==> want == name[..d] && 0 < d < 512
  {
    PrefixOf(name, want, [36]);
    assert forall k :: 0 <= k < d ==> name[k] == name[..d][k];
    if want == name[..d] {
      assert want + [36] == name[..d + 1];
    }
  }

  lemma {:induction false} CutLlvm(name: Name, l: nat, want: Name)
    requires 36 !in name && l < |name| && LlvmAt(name, l) && NoLlvmBefore(name, l)
    ensures !Whole(name, want) && !BeforeDollar(name, want)
    ensures BeforeLlvm(name, want) <==> want == name[..l] && 0 < l < 512
  {
    var sub: Name := [46, 108, 108, 118, 109, 46];
    PrefixOf(name, want, [36]);
    PrefixOf(name, want, sub);
    assert LlvmAt(name, |want|) || !(want + sub <= name);
    if want == name[..l] {
      assert want + sub == name[..l + 6];
    }
  }

  lemma {:induction false} NoCut(name: Name, want: Name)
    requires 36 !in name && NoLlvmBefore(name, |name|)
    ensures !BeforeDollar(name, want) && !BeforeLlvm(name, want)
    ensures Whole(name, want) <==> want == name
  {
    var sub: Name := [46, 108, 108, 118, 109, 46];
    PrefixOf(name, want, [36]);
    PrefixOf(name, want, sub);
    assert LlvmAt(name, |want|) || !(want + sub <= name);
  }

  lemma {:induction false} PrefixOf(name: Name, want: Name, sub: Name)
    requires sub != []
    ensures want + sub <= name ==>
              && |want| + |sub| <= |name| && want == name[..|want|] && name[|want|..|want| + |sub|] == sub
              && name[|want|] == sub[0] && forall k :: 0 <= k < |want| ==> name[k] == want[k]
  {
    if want + sub <= name {
      assert forall k :: 0 <= k < |sub| ==> name[|want| + k] == (want + sub)[|want| + k] == sub[k];
    }
  }

  /** The address of the first symbol in table order that answers to the name; 0 if none. */
  function FirstMatch(table: seq<Symbol>, want: Name): nat {
    if table == [] then 0
    else
      var n := |table| - 1;
      var earlier := FirstMatch(table[..n], want);
      if earlier != 0 then earlier else if Matches(table[n], want) then table[n].addr else 0
  }

  /** FirstMatch means what it says. */
  lemma {:induction false} FirstMatchMeaning(table: seq<Symbol>, want: Name)
    ensures FirstMatch(table, want) == 0 <==> forall i :: 0 <= i < |table| ==> !Matches(table[i], want)
    ensures FirstMatch(table, want) != 0 ==>
              exists i :: 0 <= i < |table| && Matches(table[i], want) && table[i].addr == FirstMatch(table, want)
                          && forall k :: 0 <= k < i ==> !Matches(table[k], want)
  {
    if table != [] {
      var n := |table| - 1;
      var less := table[..n];
      FirstMatchMeaning(less, want);
      assert forall i :: 0 <= i < n ==> less[i] == table[i];
      if FirstMatch(less, want) != 0 {
        var i :| 0 <= i < n && Matches(less[i], want) && less[i].addr == FirstMatch(less, want)
                 && forall k :: 0 <= k < i ==> !Matches(less[k], want);
        assert Matches(table[i], want) && table[i].addr == FirstMatch(table, want);
      } else if Matches(table[n], want) {
        assert table[n].addr == FirstMatch(table, want);
      }
    }
  }

  /** Once there is a match, reading on changes nothing. */
  lemma {:induction false} FirstMatchStable(table: seq<Symbol>, k: nat, want: Name)
    requires k <= |table| && FirstMatch(table[..k], want) != 0
    ensures FirstMatch(table, want) == FirstMatch(table[..k], want)
    decreases |table|
  {
    if k == |table| {
      assert table[..k] == table;
    } else {
      var less := table[..|table| - 1];
      assert less[..k] == table[..k];
      FirstMatchStable(less, k, want);
    }
  }

  /** Module symbols come last and are never looked at. */
  function ImageSymbols(table: seq<Symbol>): (r: seq<Symbol>)
    ensures r <= table && forall i :: 0 <= i < |r| ==> !r[i].inModule
    ensures |r| < |table| ==> table[|r|].inModule
  {
    if table == [] || table[0].inModule then [] else [table[0]] + ImageSymbols(table[1..])
  }
}

module SymbolResolver {
  import opened Bytes
  import opened SymbolNames

  const EINTR: int := -4
  const ENOMEM: int := -12

  datatype Entry = Entry(name: Name, addr: nat, idx: nat)

  // ---- sorting ----------------------------------------------------------------------------

  ghost predicate Sorted(s: seq<Entry>) {
    forall i, j :: 0 <= i < j < |s| ==> Cmp(s[i].name, s[j].name) <= 0
  }

  function Insert(e: Entry, s: seq<Entry>): (r: seq<Entry>)
    requires Sorted(s)
    ensures Sorted(r) && multiset(r) == multiset{e} + multiset(s)
  {
    if s == [] then [e]
    else if Cmp(e.name, s[0].name) <= 0 then
      InsertFirst(e, s);
      [e] + s
    else
      var t := Insert(e, s[1..]);
      InsertLater(e, s, t);
      [s[0]] + t
  }

  lemma {:induction false} InsertFirst(e: Entry, s: seq<Entry>)
    requires Sorted(s) && s != [] && Cmp(e.name, s[0].name) <= 0
    ensures Sorted([e] + s)
  {
    var r := [e] + s;
    forall i, j | 0 <= i < j < |r|
      ensures Cmp(r[i].name, r[j].name) <= 0
    {
      if i == 0 && j > 1 {
        CmpTrans(e.name, s[0].name, s[j - 1].name);
      }
    }
  }

  lemma {:induction false} InsertLater(e: Entry, s: seq<Entry>, t: seq<Entry>)
    requires Sorted(s) && s != [] && Cmp(e.name, s[0].name) > 0
    requires Sorted(t) && multiset(t) == multiset{e} + multiset(s[1..])
    ensures Sorted([s[0]] + t) && multiset([s[0]] + t) == multiset{e} + multiset(s)
  {
    CmpFlip(e.name, s[0].name);
    assert s == [s[0]] + s[1..];
    forall x | x in t
      ensures Cmp(s[0].name, x.name) <= 0
    {
      assert x in multiset(t);
      if x != e {
        assert x in multiset(s[1..]);
        var k :| 0 <= k < |s[1..]| && s[1..][k] == x;
        assert s[k + 1] == x;
      }
    }
  }

  /** The kernel's sort() with ksu_batch_entry_cmp. */
  function SortEntries(s: seq<Entry>): (r: seq<Entry>)
    ensures Sorted(r) && multiset(r) == multiset(s)
  {
    if s == [] then [] else
      var t := SortEntries(s[1..]);
      assert s == [s[0]] + s[1..];
      Insert(s[0], t)
  }

  // ---- what filling in does ---------------------------------------------------------------

  function FillEntry(e: Entry, key: Name, addr: nat): Entry {
    if e.name == key && e.addr == 0 then e.(addr := addr) else e
  }

  ghost predicate Filled(before: seq<Entry>, after: seq<Entry>, key: Name, addr: nat) {
    |after| == |before| && forall k :: 0 <= k < |after| ==> after[k] == FillEntry(before[k], key, addr)
  }

  /** How many entries are unresolved. */
  ghost function Unresolved(s: seq<Entry>): nat {
    if s == [] then 0 else Unresolved(s[..|s| - 1]) + if s[|s| - 1].addr == 0 then 1 else 0
  }

  lemma {:induction false} UnresolvedUpdate(s: seq<Entry>, k: nat, e: Entry)
    requires k < |s|
    ensures Unresolved(s[k := e]) ==
            Unresolved(s) - (if s[k].addr == 0 then 1 else 0) + (if e.addr == 0 then 1 else 0)
    decreases |s|
  {
    var n := |s| - 1;
    if k == n {
      assert s[k := e][..n] == s[..n];
    } else {
      UnresolvedUpdate(s[..n], k, e);
      assert s[k := e][..n] == s[..n][k := e];
    }
  }

  lemma {:induction false} UnresolvedSome(s: seq<Entry>, k: nat)
    requires k < |s| && s[k].addr == 0
    ensures Unresolved(s) > 0
    decreases |s|
  {
    if k < |s| - 1 {
      UnresolvedSome(s[..|s| - 1], k);
    }
  }

  ghost predicate SameRequests(a: seq<Entry>, b: seq<Entry>) {
    |a| == |b| && forall k :: 0 <= k < |a| ==> a[k].name == b[k].name && a[k].idx == b[k].idx
  }

  /** What the second phase asks: the symbol table, walked once, or, where the kernel exports no walker,
      one exact lookup per name. */
  datatype Source = Table(symbols: seq<Symbol>) | Exact(lookup: Name -> nat)

  function SourceAnswer(source: Source, want: Name): nat {
    match source
    case Table(symbols) => FirstMatch(ImageSymbols(symbols), want)
    case Exact(lookup) => lookup(want)
  }

  lemma SortedNames(a: seq<Entry>, b: seq<Entry>)
    requires Sorted(a) && |a| == |b| && forall k :: 0 <= k < |a| ==> a[k].name == b[k].name
    ensures Sorted(b)
  {
  }

  /** What was resolved before stays; the rest has the first match of the table. */
  ghost predicate Completed(before: seq<Entry>, after: seq<Entry>, table: seq<Symbol>) {
    |after| == |before| &&
    forall k :: 0 <= k < |after| ==> CompletedEntry(before[k], after[k], table)
  }

  ghost predicate CompletedEntry(before: Entry, after: Entry, table: seq<Symbol>) {
    after.addr == if before.addr != 0 then before.addr else FirstMatch(table, before.name)
  }

  lemma CompletedNothing(s: seq<Entry>)
    ensures Completed(s, s, [])
  {
  }

  lemma {:induction false} CompletedNext(before: seq<Entry>, mid: seq<Entry>, after: seq<Entry>, table: seq<Symbol>, n: nat)
    requires n < |table| && Completed(before, mid, table[..n]) && SameRequests(before, mid)
    requires var sym := table[n];
             if sym.addr != 0 && CutName(sym.name).Some? then Filled(mid, after, CutName(sym.name).value, sym.addr)
             else after == mid
    ensures Completed(before, after, table[..n + 1]) && SameRequests(before, after)
  {
    var sym := table[n];
    assert table[..n + 1][..n] == table[..n];
    forall k | 0 <= k < |after|
      ensures CompletedEntry(before[k], after[k], table[..n + 1])
    {
      assert CompletedEntry(before[k], mid[k], table[..n]);
    }
  }

  /** With every entry resolved the rest of the table does not matter. */
  lemma {:induction false} CompletedAll(before: seq<Entry>, after: seq<Entry>, table: seq<Symbol>, n: nat)
    requires n <= |table| && Completed(before, after, table[..n]) && Unresolved(after) == 0
    ensures Completed(before, after, table)
  {
    forall k | 0 <= k < |after|
      ensures CompletedEntry(before[k], after[k], table)
    {
      assert CompletedEntry(before[k], after[k], table[..n]);
      if after[k].addr == 0 {
        UnresolvedSome(after, k);
      }
      if before[k].addr == 0 {
        FirstMatchStable(table, n, before[k].name);
      }
    }
  }

  lemma {:induction false} BesideMid(s: seq<Entry>, mid: nat, key: Name)
    requires Sorted(s) && mid < |s| && Cmp(key, s[mid].name) != 0
    ensures Cmp(key, s[mid].name) < 0 ==> forall k :: mid <= k < |s| ==> s[k].name != key
    ensures Cmp(key, s[mid].name) > 0 ==> forall k :: 0 <= k <= mid ==> s[k].name != key
  {
    CmpZero(key, s[mid].name);
    CmpFlip(key, s[mid].name);
    forall k | mid < k < |s| && Cmp(key, s[mid].name) < 0
      ensures s[k].name != key
    {
      assert Cmp(s[mid].name, s[k].name) <= 0;
    }
  }

  lemma {:induction false} BeforeRun(s: seq<Entry>, k: nat, first: nat, key: Name)
    requires Sorted(s) && k < first < |s| && s[first].name == key && s[first - 1].name != key
    ensures s[k].name != key
  {
    if s[k].name == key && k < first - 1 {
      assert Cmp(key, s[first - 1].name) <= 0 && Cmp(s[first - 1].name, key) <= 0;
      CmpFlip(key, s[first - 1].name);
      CmpZero(key, s[first - 1].name);
    }
  }

  lemma {:induction false} AfterRun(s: seq<Entry>, start: nat, e: nat, k: nat, key: Name)
    requires Sorted(s) && start < e <= k < |s| && s[start].name == key && s[e].name != key
    ensures s[k].name != key
  {
    if s[k].name == key && k > e {
      assert Cmp(key, s[e].name) <= 0 && Cmp(s[e].name, key) <= 0;
      CmpFlip(key, s[e].name);
      CmpZero(key, s[e].name);
    }
  }

  class BatchCtx {
    const entries: array<Entry>
    var remaining: nat
    const fatalAt: Option<nat>  // the poll at which a fatal signal shows up, if ever
    var polls: nat

    ghost predicate Valid()
      reads this, entries
    {
      Sorted(entries[..]) && remaining == Unresolved(entries[..])
    }

    constructor (entries: array<Entry>, remaining: nat, fatalAt: Option<nat>)
      ensures this.entries == entries && this.remaining == remaining && this.fatalAt == fatalAt && polls == 0
    {
      this.entries, this.remaining, this.fatalAt, polls := entries, remaining, fatalAt, 0;
    }

    method FatalSignalPending() returns (b: bool)
      modifies this`polls
      ensures b ==> fatalAt.Some?
    {
      b := fatalAt.Some? && polls >= fatalAt.value;
      polls := polls + 1;
    }

    /** bsearch with ksu_batch_key_cmp: some entry with the name, or the length. */
    method BSearch(key: Name) returns (i: nat)
      requires Sorted(entries[..])
      ensures i <= entries.Length
      ensures i < entries.Length ==> entries[i].name == key
      ensures i == entries.Length ==> forall k :: 0 <= k < entries.Length ==> entries[k].name != key
    {
      var lo, hi := 0, entries.Length;
      ghost var s := entries[..];
      while lo < hi
        invariant 0 <= lo <= hi <= entries.Length
        invariant forall k :: 0 <= k < lo ==> s[k].name != key
        invariant forall k :: hi <= k < entries.Length ==> s[k].name != key
      {
        var mid := (lo + hi) / 2;
        var c := Cmp(key, entries[mid].name);
        if c == 0 {
          CmpZero(key, entries[mid].name);
          return mid;
        }
        BesideMid(s, mid, key);
        if c < 0 {
          hi := mid;
        } else {
          lo := mid + 1;
        }
      }
      assert forall k :: 0 <= k < entries.Length ==> s[k] == entries[k];
      i := entries.Length;
    }

    /** The start of the run of equal names around `start`. */
    method RunStart(start: nat, key: Name) returns (first: nat)
      requires start < entries.Length && entries[start].name == key && Sorted(entries[..])
      ensures first <= start && entries[first].name == key
      ensures forall k :: 0 <= k < first ==> entries[k].name != key
    {
      first := start;
      while first > 0 && entries[first - 1].name == key
        invariant 0 <= first <= start && entries[first].name == key
      {
        first := first - 1;
      }
      ghost var s := entries[..];
      forall k | 0 <= k < first
        ensures entries[k].name != key
      {
        BeforeRun(s, k, first, key);
      }
    }

    /** The duplicate run: back to its first entry, then forward, filling what is unresolved. */
    method FillRun(start: nat, key: Name, addr: nat)
      requires Valid() && start < entries.Length && entries[start].name == key && addr != 0
      modifies this`remaining, entries
      ensures Valid() && Filled(old(entries[..]), entries[..], key, addr)
    {
      hide Sorted, Unresolved;
      ghost var before := entries[..];
      var first := RunStart(start, key);
      var e := first;
      while e < entries.Length && entries[e].name == key
        invariant first <= e <= entries.Length && Valid()
        invariant forall k :: 0 <= k < entries.Length ==>
                    entries[k] == if first <= k < e then FillEntry(before[k], key, addr) else before[k]
      {
        if entries[e].addr == 0 {
          SetAddr(e, addr);
        }
        e := e + 1;
      }
      forall k | e <= k < |before|
        ensures before[k].name != key
      {
        AfterRun(before, first, e, k, key);
      }
    }

    /** ksu_batch_match */
    method Match(sym: Symbol) returns (ret: int)
      requires Valid() && remaining > 0
      modifies this, entries
      ensures Valid() && ret in {0, 1, EINTR}
      ensures ret == EINTR ==> fatalAt.Some? && entries[..] == old(entries[..])
      ensures ret >= 0 ==>
                && (ret == 1 <==> remaining == 0)
                && (sym.addr != 0 && CutName(sym.name).Some? ==>
                      Filled(old(entries[..]), entries[..], CutName(sym.name).value, sym.addr))
                && (sym.addr == 0 || CutName(sym.name).None? ==> entries[..] == old(entries[..]))
    {
      var pending := FatalSignalPending();
      if pending {
        return EINTR;
      }
      if sym.addr == 0 {
        return 0;
      }
      var key := CutName(sym.name);
      if key.None? {
        return 0;
      }
      var e := BSearch(key.value);
      if e == entries.Length {
        return 0;
      }
      FillRun(e, key.value, sym.addr);
      ret := if remaining > 0 then 0 else 1;
    }

    /** kallsyms_on_each_symbol with ksu_batch_cb: stop at a module symbol, once everything is
        resolved, or on a signal. */
    method Walk(table: seq<Symbol>) returns (ret: int)
      requires Valid() && remaining > 0
      modifies this, entries
      ensures Valid() && SameRequests(old(entries[..]), entries[..])
      ensures ret < 0 ==> ret == EINTR && fatalAt.Some?
      ensures ret >= 0 ==> Completed(old(entries[..]), entries[..], ImageSymbols(table))
    {
      hide Sorted, FirstMatch, Filled, Matches;
      ghost var before, image := entries[..], ImageSymbols(table);
      CompletedNothing(before);
      assert image[..0] == [];
      var n := 0;
      while n < |table|
        invariant 0 <= n <= |image| && Valid() && remaining > 0
        invariant SameRequests(before, entries[..]) && Completed(before, entries[..], image[..n])
      {
        if table[n].inModule {
          break;
        }
        ghost var mid := entries[..];
        ret := Match(table[n]);
        if ret < 0 {
          return;
        }
        CompletedNext(before, mid, entries[..], image, n);
        if ret > 0 {
          CompletedAll(before, entries[..], image, n + 1);
          return;
        }
        n := n + 1;
      }
      assert image[..n] == image;
      ret := 0;
    }

    /** ksu_batch_lookup_indexed: one indexed lookup per distinct name. */
    method LookupIndexed(index: Name -> nat) returns (ret: int)
      requires Valid() && forall k :: 0 <= k < entries.Length ==> entries[k].addr == 0
      modifies this, entries
      ensures Valid() && SameRequests(old(entries[..]), entries[..])
      ensures ret == 0 || (ret == EINTR && fatalAt.Some?)
      ensures ret == 0 ==> forall k :: 0 <= k < entries.Length ==> entries[k].addr == index(entries[k].name)
    {
      hide Sorted, Unresolved;
      ghost var before := entries[..];
      var i := 0;
      while i < entries.Length && remaining > 0
        invariant 0 <= i <= entries.Length && Valid() && SameRequests(before, entries[..])
        invariant forall k :: 0 <= k < i ==> entries[k].addr == index(entries[k].name)
        invariant forall k :: i <= k < entries.Length ==> entries[k].addr == 0
      {
        var addr := index(entries[i].name);
        if addr != 0 {
          var name := entries[i].name;
          SetAddr(i, addr);
          while i + 1 < entries.Length && entries[i + 1].name == name
            invariant 0 <= i < entries.Length && entries[i].name == name
            invariant Valid() && SameRequests(before, entries[..])
            invariant forall k :: 0 <= k <= i ==> entries[k].addr == index(entries[k].name)
            invariant forall k :: i < k < entries.Length ==> entries[k].addr == 0
          {
            i := i + 1;
            SetAddr(i, addr);
          }
          var pending := FatalSignalPending();
          if pending {
            return EINTR;
          }
        }
        i := i + 1;
      }
      if i < entries.Length {
        UnresolvedSome(entries[..], i);
      }
      ret := 0;
    }

    /** The fallback without a walker: an exact lookup for each name that is still missing. */
    method LookupExact(lookup: Name -> nat) returns (ret: int)
      requires Valid()
      modifies this`polls, entries
      ensures SameRequests(old(entries[..]), entries[..])
      ensures ret == 0 || (ret == EINTR && fatalAt.Some?)
      ensures ret == 0 ==> forall k :: 0 <= k < entries.Length ==>
                entries[k].addr == if old(entries[k].addr) != 0 then old(entries[k].addr) else lookup(entries[k].name)
    {
      hide Sorted, Unresolved;
      ghost var before := entries[..];
      for i := 0 to entries.Length
        invariant SameRequests(before, entries[..])
        invariant forall k :: i <= k < entries.Length ==> entries[k] == before[k]
        invariant forall k :: 0 <= k < i ==>
                    entries[k].addr == if before[k].addr != 0 then before[k].addr else lookup(entries[k].name)
      {
        if entries[i].addr == 0 {
          entries[i] := entries[i].(addr := lookup(entries[i].name));
          var pending := FatalSignalPending();
          if pending {
            return EINTR;
          }
        }
      }
      ret := 0;
    }

    /** Resolve one unresolved entry. */
    method SetAddr(i: nat, addr: nat)
      requires Valid() && i < entries.Length && entries[i].addr == 0 && addr != 0
      modifies this`remaining, entries
      ensures Valid() && entries[i] == old(entries[i]).(addr := addr)
      ensures forall k :: 0 <= k < entries.Length && k != i ==> entries[k] == old(entries[k])
    {
      ghost var s := entries[..];
      UnresolvedSome(s, i);
      UnresolvedUpdate(s, i, s[i].(addr := addr));
      entries[i] := entries[i].(addr := addr);
      assert entries[..] == s[i := s[i].(addr := addr)];
      remaining := remaining - 1;
      SortedNames(s, entries[..]);
    }
  }

  // ---- the whole lookup ---------------------------------------------------------------------

  /** What a requested name resolves to: the indexed hit if there is one, else the first match. */
  function Answer(index: Option<Name -> nat>, source: Source, want: Name): nat {
    if index.Some? && index.value(want) != 0 then index.value(want) else SourceAnswer(source, want)
  }

  function Wanted(index: Option<Name -> nat>, source: Source, name: Option<Name>): nat {
    match name case None => 0 case Some(w) => Answer(index, source, w)
  }

  /** One entry per requested name that is not NULL, in request order. */
  function Requests(names: seq<Option<Name>>): seq<Entry> {
    if names == [] then []
    else
      var n := |names| - 1;
      Requests(names[..n]) + (match names[n] case None => [] case Some(w) => [Entry(w, 0, n)])
  }

  ghost predicate FromNames(s: seq<Entry>, names: seq<Option<Name>>) {
    && (forall k :: 0 <= k < |s| ==> s[k].idx < |names| && names[s[k].idx] == Some(s[k].name))
    && (forall i :: 0 <= i < |names| && names[i].Some? ==> HasIdx(s, i))
  }

  ghost predicate HasIdx(s: seq<Entry>, i: nat) {
    exists k :: 0 <= k < |s| && s[k].idx == i
  }

  lemma {:induction false} RequestsAreNamed(names: seq<Option<Name>>, k: nat)
    requires k < |Requests(names)|
    ensures var e := Requests(names)[k]; e.idx < |names| && names[e.idx] == Some(e.name) && e.addr == 0
    decreases |names|
  {
    var n := |names| - 1;
    if k < |Requests(names[..n])| {
      RequestsAreNamed(names[..n], k);
    }
  }

  lemma {:induction false} RequestsHave(names: seq<Option<Name>>, i: nat)
    requires i < |names| && names[i].Some?
    ensures HasIdx(Requests(names), i)
    decreases |names|
  {
    var n := |names| - 1;
    var less, more := Requests(names[..n]), Requests(names);
    if i < n {
      RequestsHave(names[..n], i);
      var k :| 0 <= k < |less| && less[k].idx == i;
      assert more[k] == less[k];
    } else {
      assert more[|less|].idx == n;
    }
  }

  lemma {:induction false} RequestsFromNames(names: seq<Option<Name>>)
    ensures FromNames(Requests(names), names)
    ensures forall k :: 0 <= k < |Requests(names)| ==> Requests(names)[k].addr == 0
  {
    hide Requests;
    var list := Requests(names);
    forall k | 0 <= k < |list|
      ensures list[k].idx < |names| && names[list[k].idx] == Some(list[k].name) && list[k].addr == 0
    {
      RequestsAreNamed(names, k);
    }
    forall i | 0 <= i < |names| && names[i].Some?
      ensures HasIdx(list, i)
    {
      RequestsHave(names, i);
    }
  }

  lemma {:induction false} FromNamesPermuted(s: seq<Entry>, t: seq<Entry>, names: seq<Option<Name>>)
    requires FromNames(s, names) && multiset(s) == multiset(t)
    requires forall k :: 0 <= k < |s| ==> s[k].addr == 0
    ensures FromNames(t, names) && forall k :: 0 <= k < |t| ==> t[k].addr == 0
  {
    forall k | 0 <= k < |t|
      ensures t[k] in s
    {
      assert t[k] in multiset(t);
    }
    forall i | 0 <= i < |names| && names[i].Some?
      ensures HasIdx(t, i)
    {
      assert HasIdx(s, i);
      var k :| 0 <= k < |s| && s[k].idx == i;
      assert s[k] in multiset(s);
      assert s[k] in t;
    }
  }

  ghost function Hits(s: seq<Entry>, f: Name -> nat): nat {
    if s == [] then 0 else Hits(s[1..], f) + if f(s[0].name) != 0 then 1 else 0
  }

  lemma {:induction false} HitsConcat(a: seq<Entry>, b: seq<Entry>, f: Name -> nat)
    ensures Hits(a + b, f) == Hits(a, f) + Hits(b, f)
    decreases |a|
  {
    if a == [] {
      assert a + b == b;
    } else {
      HitsConcat(a[1..], b, f);
      assert (a + b)[1..] == a[1..] + b;
    }
  }

  lemma {:induction false} HitsInsert(e: Entry, s: seq<Entry>, f: Name -> nat)
    requires Sorted(s)
    ensures Hits(Insert(e, s), f) == Hits(s, f) + if f(e.name) != 0 then 1 else 0
    decreases |s|
  {
    hide Sorted;
    if s != [] && Cmp(e.name, s[0].name) > 0 {
      assert Sorted(s[1..]) by { SortedTail(s); }
      HitsInsert(e, s[1..], f);
      assert ([s[0]] + Insert(e, s[1..]))[1..] == Insert(e, s[1..]);
    } else {
      assert ([e] + s)[1..] == s;
    }
  }

  lemma SortedTail(s: seq<Entry>)
    requires Sorted(s) && s != []
    ensures Sorted(s[1..])
  {
  }

  /** Sorting does not change how many requests hit. */
  lemma {:induction false} HitsSorted(s: seq<Entry>, f: Name -> nat)
    ensures Hits(SortEntries(s), f) == Hits(s, f)
    decreases |s|
  {
    hide Sorted, Insert;
    if s != [] {
      HitsSorted(s[1..], f);
      HitsInsert(s[0], SortEntries(s[1..]), f);
    }
  }

  ghost function NonZero(s: seq<nat>): nat {
    if s == [] then 0 else NonZero(s[..|s| - 1]) + if s[|s| - 1] != 0 then 1 else 0
  }

  /** As many requests hit as there are non-zero answers. */
  lemma {:induction false} HitsAreAnswers(names: seq<Option<Name>>, addrs: seq<nat>, f: Name -> nat)
    requires |addrs| == |names|
    requires forall i :: 0 <= i < |names| ==> addrs[i] == match names[i] case None => 0 case Some(w) => f(w)
    ensures Hits(Requests(names), f) == NonZero(addrs)
    decreases |names|
  {
    if names != [] {
      var n := |names| - 1;
      HitsAreAnswers(names[..n], addrs[..n], f);
      match names[n]
      case None =>
        assert Requests(names) == Requests(names[..n]);
      case Some(w) =>
        HitsConcat(Requests(names[..n]), [Entry(w, 0, n)], f);
        assert Hits([Entry(w, 0, n)], f) == if f(w) != 0 then 1 else 0;
    }
  }

  lemma {:induction false} HitsNext(s: seq<Entry>, e: Entry, f: Name -> nat)
    ensures Hits([], f) == 0
    ensures Hits(s + [e], f) == Hits(s, f) + if f(e.name) != 0 then 1 else 0
  {
    HitsConcat(s, [e], f);
  }

  /** The first loop: clear the outputs and collect the requests. */
  method Collect(names: seq<Option<Name>>, addrs: array<nat>) returns (list: seq<Entry>)
    requires addrs.Length == |names|
    modifies addrs
    ensures list == Requests(names) && forall i :: 0 <= i < addrs.Length ==> addrs[i] == 0
  {
    list := [];
    var i := 0;
    while i < |names|
      invariant 0 <= i <= |names| && list == Requests(names[..i])
      invariant forall k :: 0 <= k < i ==> addrs[k] == 0
    {
      addrs[i] := 0;
      assert names[..i + 1][..i] == names[..i];
      if names[i].Some? {
        list := list + [Entry(names[i].value, 0, i)];
      }
      i := i + 1;
    }
    assert names[..i] == names;
  }

  /** The last loop: results go back to the positions their names came from. */
  method Scatter(entries: array<Entry>, names: seq<Option<Name>>, addrs: array<nat>, ghost f: Name -> nat) returns (ret: nat)
    requires addrs.Length == |names| && FromNames(entries[..], names)
    requires forall i :: 0 <= i < addrs.Length ==> addrs[i] == 0
    requires forall k :: 0 <= k < entries.Length ==> entries[k].addr == f(entries[k].name)
    modifies addrs
    ensures forall i :: 0 <= i < addrs.Length ==> addrs[i] == match names[i] case None => 0 case Some(w) => f(w)
    ensures ret == Hits(entries[..], f)
  {
    hide Hits;
    ret := 0;
    ghost var s := entries[..];
    var k := 0;
    assert s[..0] == [];
    HitsNext([], Entry([], 0, 0), f);
    while k < entries.Length
      invariant 0 <= k <= entries.Length && entries[..] == s && ret == Hits(s[..k], f)
      invariant forall j :: 0 <= j < k ==> addrs[s[j].idx] == f(s[j].name)
      invariant forall i :: 0 <= i < addrs.Length && !HasIdx(s[..k], i) ==> addrs[i] == 0
    {
      assert s[k] == entries[k];
      addrs[entries[k].idx] := entries[k].addr;
      assert s[..k + 1] == s[..k] + [s[k]];
      HitsNext(s[..k], s[k], f);
      if entries[k].addr != 0 {
        ret := ret + 1;
      }
      forall i | 0 <= i < addrs.Length && !HasIdx(s[..k + 1], i)
        ensures addrs[i] == 0
      {
        NotYet(s, k, i);
      }
      k := k + 1;
    }
    assert s[..k] == s;
    forall i | 0 <= i < addrs.Length
      ensures addrs[i] == match names[i] case None => 0 case Some(w) => f(w)
    {
      if names[i].Some? {
        assert HasIdx(s, i);
        var j :| 0 <= j < |s| && s[j].idx == i;
      }
    }
  }

  lemma NotYet(s: seq<Entry>, k: nat, i: nat)
    requires k < |s| && !HasIdx(s[..k + 1], i)
    ensures !HasIdx(s[..k], i) && s[k].idx != i
  {
    var more := s[..k + 1];
    assert forall j :: 0 <= j < k ==> more[j] == s[..k][j];
    assert more[k] == s[k];
  }

  ghost predicate AllZero(s: seq<nat>) {
    forall i :: 0 <= i < |s| ==> s[i] == 0
  }

  /** ksu_lookup_kernel_symbols. `index` is None where the kernel has no index by name; `memory`
      says whether the scratch memory can be allocated. */
  method LookupKernelSymbols(names: seq<Option<Name>>, addrs: array<nat>, index: Option<Name -> nat>, source: Source,
                             fatalAt: Option<nat>, memory: bool) returns (ret: int)
    requires addrs.Length == |names|
    modifies addrs
    ensures ret == ENOMEM <==> !memory
    ensures !memory ==> addrs[..] == old(addrs[..])
    ensures ret < 0 ==> (AllZero(addrs[..]) <==> memory || AllZero(old(addrs[..])))
    ensures memory && ret < 0 ==> ret == EINTR && fatalAt.Some? && forall i :: 0 <= i < addrs.Length ==> addrs[i] == 0
    ensures ret >= 0 ==> && ret == NonZero(addrs[..])
                         && forall i :: 0 <= i < addrs.Length ==> addrs[i] == Wanted(index, source, names[i])
  {
    hide Hits, Requests, NonZero, FromNames, Sorted, Answer;
    if !memory {
      return ENOMEM;
    }
    var list := Collect(names, addrs);
    var sorted := SortEntries(list);
    RequestsFromNames(names);
    FromNamesPermuted(list, sorted, names);
    ghost var f := (w: Name) => Answer(index, source, w);
    HitsSorted(list, f);
    var entries, status := Resolve(sorted, index, source, fatalAt);
    if status < 0 {
      return EINTR;
    }
    HitsSameNames(sorted, entries[..], f);
    FromNamesSame(sorted, entries[..], names);
    ret := Scatter(entries, names, addrs, f);
    HitsAreAnswers(names, addrs[..], f);
  }

  lemma {:induction false} FromNamesSame(a: seq<Entry>, b: seq<Entry>, names: seq<Option<Name>>)
    requires FromNames(a, names) && SameRequests(a, b)
    ensures FromNames(b, names)
  {
    forall i | 0 <= i < |names| && names[i].Some?
      ensures HasIdx(b, i)
    {
      assert HasIdx(a, i);
      var k :| 0 <= k < |a| && a[k].idx == i;
      assert b[k].idx == i;
    }
  }

  lemma {:induction false} HitsSameNames(a: seq<Entry>, b: seq<Entry>, f: Name -> nat)
    requires |a| == |b| && forall k :: 0 <= k < |a| ==> a[k].name == b[k].name
    ensures Hits(a, f) == Hits(b, f)
    decreases |a|
  {
    if a != [] {
      HitsSameNames(a[1..], b[1..], f);
    }
  }

  lemma {:induction false} AllUnresolved(s: seq<Entry>)
    requires forall k :: 0 <= k < |s| ==> s[k].addr == 0
    ensures Unresolved(s) == |s|
  {
    if s != [] {
      AllUnresolved(s[..|s| - 1]);
    }
  }

  /** The two lookup phases on the sorted requests. */
  method Resolve(sorted: seq<Entry>, index: Option<Name -> nat>, source: Source, fatalAt: Option<nat>)
    returns (entries: array<Entry>, status: int)
    requires Sorted(sorted) && forall k :: 0 <= k < |sorted| ==> sorted[k].addr == 0
    ensures fresh(entries) && SameRequests(sorted, entries[..])
    ensures status < 0 ==> fatalAt.Some?
    ensures status >= 0 ==> forall k :: 0 <= k < entries.Length ==> entries[k].addr == Answer(index, source, entries[k].name)
  {
    hide Sorted, FirstMatch, Unresolved;
    entries := new Entry[|sorted|](k requires 0 <= k < |sorted| => sorted[k]);
    assert entries[..] == sorted;
    AllUnresolved(sorted);
    var ctx := new BatchCtx(entries, |sorted|, fatalAt);
    status := 0;
    if |sorted| > 0 && index.Some? {
      status := ctx.LookupIndexed(index.value);
      if status < 0 {
        return;
      }
    }

    ghost var mid := entries[..];
    if ctx.remaining > 0 {
      match source {
        case Table(symbols) =>
          status := ctx.Walk(symbols);
          if status >= 0 {
            forall k | 0 <= k < entries.Length
              ensures entries[k].addr == Answer(index, source, entries[k].name)
            {
              assert CompletedEntry(mid[k], entries[..][k], ImageSymbols(symbols));
            }
          }
        case Exact(lookup) =>
          status := ctx.LookupExact(lookup);
          assert forall k :: 0 <= k < entries.Length ==> mid[k].name == entries[k].name;
      }
    } else {
      forall k | 0 <= k < entries.Length
        ensures entries[k].addr != 0
      {
        if entries[k].addr == 0 {
          UnresolvedSome(entries[..], k);
        }
      }
    }
  }

  /** Without memory the outputs keep what they held: an error does not mean that they are 0. */
  method StaleOutputExample() returns (ret: int, addrs: array<nat>)
    ensures fresh(addrs) && ret == ENOMEM && addrs[..] == [7]
  {
    addrs := new nat[1](_ => 7);
    ret := LookupKernelSymbols([None], addrs, None, Table([]), None, false);
    assert addrs[..] == [7];
  }
}
