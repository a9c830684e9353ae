/** Giving our mounts ids from a high range (kernel/susfs/sus_mount.c): a batch taken from the kernel's
    allocator, swapped into the mounts of one namespace, and the rest handed back. */
module MountIdModel {
  import opened Bytes

  const BATCH: nat := 8
  const ID_MIN: nat := 2000000000
  const ID_MAX: nat := 0x7ffffffe
  const MAX_SCAN: nat := 65536

  /** An entry of the list of namespace `list`; `key` tells it from all others. An entry that is not in the namespace (a cursor) owns
      no id; `devnameOurs` and `pathOurs` are what matching its source and its path says, if the
      path can be rendered. */
  datatype Mount = Mount(key: nat, list: nat, inNs: bool, mntId: nat, devnameOurs: bool, rendered: bool, pathOurs: bool)

  predicate Ours(m: Mount) {
    m.devnameOurs || (m.rendered && m.pathOurs)
  }

  // ---- where ids are --------------------------------------------------------------------

  ghost function OwnedIds(ms: seq<Mount>): set<nat> {
    set i | 0 <= i < |ms| && ms[i].inNs :: ms[i].mntId
  }

  ghost predicate OneOwner(ms: seq<Mount>) {
    forall i, j :: 0 <= i < j < |ms| && ms[i].inNs && ms[j].inNs ==> ms[i].mntId != ms[j].mntId
  }

  /** The allocator's live ids are those of the mounts, those held elsewhere and those in hand, and no
      id is in two places. */
  ghost predicate Accounted(ms: seq<Mount>, live: set<nat>, elsewhere: set<nat>, hand: seq<nat>) {
    && OneOwner(ms) && Distinct(hand)
    && OwnedIds(ms) !! elsewhere && OwnedIds(ms) !! Elements(hand) && elsewhere !! Elements(hand)
    && live == OwnedIds(ms) + elsewhere + Elements(hand)
  }

  lemma {:induction false} TakenOk(ms: seq<Mount>, live: set<nat>, elsewhere: set<nat>, hand: seq<nat>, id: nat)
    requires Accounted(ms, live, elsewhere, hand) && id !in live
    ensures Accounted(ms, live + {id}, elsewhere, hand + [id])
  {
    hide OwnedIds;
    ElementsSplit(hand, id, []);
    assert hand + [id] + [] == hand + [id] && hand + [] == hand;
  }

  lemma {:induction false} ReleasedOk(ms: seq<Mount>, live: set<nat>, elsewhere: set<nat>, hand: seq<nat>, id: nat)
    requires Accounted(ms, live, elsewhere, [id] + hand)
    ensures id in live && Accounted(ms, live - {id}, elsewhere, hand)
  {
    hide OwnedIds, Elements, Distinct;
    HandTail(id, hand);
  }

  lemma {:induction false} HandTail(id: nat, hand: seq<nat>)
    requires Distinct([id] + hand)
    ensures Distinct(hand) && id !in Elements(hand) && Elements([id] + hand) == Elements(hand) + {id}
  {
    var all := [id] + hand;
    assert forall i :: 0 <= i < |hand| ==> all[i + 1] == hand[i] && all[0] != all[i + 1];
    ElementsSplit([], id, hand);
    assert [] + [id] + hand == all && [] + hand == hand;
  }

  lemma {:induction false} ElementsSplit(a: seq<nat>, id: nat, b: seq<nat>)
    ensures Elements(a + [id] + b) == Elements(a + b) + {id}
  {
    var s := a + [id] + b;
    forall x
      ensures x in Elements(s) <==> x in Elements(a + b) + {id}
    {
      if i :| 0 <= i < |a + b| && (a + b)[i] == x {
        assert s[if i < |a| then i else i + 1] == x;
      }
      if i :| 0 <= i < |s| && s[i] == x && i != |a| {
        assert (a + b)[if i < |a| then i else i - 1] == x;
      }
      assert s[|a|] == id;
    }
  }

  function Renumber(ms: seq<Mount>, j: nat, id: nat): seq<Mount>
    requires j < |ms|
  {
    ms[j := ms[j].(mntId := id)]
  }

  lemma {:induction false} OwnedAfter(ms: seq<Mount>, j: nat, id: nat)
    requires j < |ms| && ms[j].inNs && OneOwner(ms) && id !in OwnedIds(ms)
    ensures OwnedIds(Renumber(ms, j, id)) == OwnedIds(ms) - {ms[j].mntId} + {id}
    ensures OneOwner(Renumber(ms, j, id)) && ms[j].mntId in OwnedIds(ms)
  {
    var ms' := Renumber(ms, j, id);
    forall x
      ensures x in OwnedIds(ms') <==> x in OwnedIds(ms) - {ms[j].mntId} + {id}
    {
      if i :| 0 <= i < |ms'| && ms'[i].inNs && ms'[i].mntId == x && i != j {
        assert ms[i].mntId == x && ms[i].mntId != ms[j].mntId;
      }
      if i :| 0 <= i < |ms| && ms[i].inNs && ms[i].mntId == x && i != j {
        assert ms'[i].mntId == x;
      }
      assert ms'[j].mntId == id;
    }
  }

  /** A mount gives its id to the hand and takes one from it. */
  lemma {:induction false} SwappedOk(ms: seq<Mount>, live: set<nat>, elsewhere: set<nat>, id: nat, rest: seq<nat>, done: seq<nat>, j: nat)
    requires j < |ms| && ms[j].inNs && Accounted(ms, live, elsewhere, [id] + rest + done)
    ensures Accounted(Renumber(ms, j, id), live, elsewhere, rest + (done + [ms[j].mntId]))
  {
    hide OwnedIds, Elements;
    var o := ms[j].mntId;
    var kept := rest + done;
    assert [id] + rest + done == [id] + kept;
    ReleasedOk(ms, live, elsewhere, kept, id);
    OwnedAfter(ms, j, id);
    assert Accounted(Renumber(ms, j, id), live - {o}, elsewhere, kept);
    TakenOk(Renumber(ms, j, id), live - {o}, elsewhere, kept, o);
    assert kept + [o] == rest + (done + [o]);
    assert live - {o} + {o} == live;
  }

  // ---- which mounts a scan marks --------------------------------------------------------

  predicate Eligible(m: Mount) {
    m.inNs && m.mntId < ID_MIN && Ours(m)
  }

  /** How many of the first k entries are in the list of ns. */
  function Seen(ms: seq<Mount>, ns: nat, k: nat): nat
    requires k <= |ms|
  {
    if k == 0 then 0 else Seen(ms, ns, k - 1) + if ms[k - 1].list == ns then 1 else 0
  }

  predicate IsCandidate(ms: seq<Mount>, ns: nat, i: nat)
    requires i < |ms|
  {
    ms[i].list == ns && Seen(ms, ns, i) < MAX_SCAN && Eligible(ms[i])
  }

  /** The positions, among the first k entries, of the mounts of ns to be marked. */
  function Candidates(ms: seq<Mount>, ns: nat, k: nat): (c: seq<nat>)
    requires k <= |ms|
    ensures forall i :: 0 <= i < |c| ==> c[i] < k && IsCandidate(ms, ns, c[i])
    ensures forall i, j :: 0 <= i < j < |c| ==> c[i] < c[j]
  {
    if k == 0 then []
    else Candidates(ms, ns, k - 1) + if IsCandidate(ms, ns, k - 1) then [k - 1] else []
  }

  lemma {:induction false} CandidatesMeaning(ms: seq<Mount>, ns: nat, k: nat, i: nat)
    requires i < k <= |ms|
    ensures i in Candidates(ms, ns, k) <==> IsCandidate(ms, ns, i)
    decreases k
  {
    hide Eligible, Seen;
    if i < k - 1 {
      CandidatesMeaning(ms, ns, k - 1, i);
    } else if IsCandidate(ms, ns, i) {
      var c := Candidates(ms, ns, k);
      assert c[|c| - 1] == i;
    }
  }

  /** Which of the first k entries are in the list of ns. */
  ghost function Listed(ms: seq<Mount>, ns: nat, k: nat): (r: set<nat>)
    requires k <= |ms|
    ensures forall j: nat :: j in r <==> j < k && ms[j].list == ns
  {
    set j: nat | j < k && ms[j].list == ns
  }

  lemma {:induction false} SeenCounts(ms: seq<Mount>, ns: nat, k: nat)
    requires k <= |ms|
    ensures Seen(ms, ns, k) == |Listed(ms, ns, k)|
    decreases k
  {
    hide Listed;
    if k == 0 {
      assert Listed(ms, ns, 0) == {};
    } else {
      SeenCounts(ms, ns, k - 1);
      assert Listed(ms, ns, k) == Listed(ms, ns, k - 1) + if ms[k - 1].list == ns then {k - 1} else {};
    }
  }

  /** What a scan marks: a mount of the namespace among the first 65536 of its list, with an id below the
      range, whose source is ours, or whose path is and can be rendered. */
  lemma {:induction false} CandidateIff(ms: seq<Mount>, ns: nat, i: nat)
    requires i < |ms|
    ensures i in Candidates(ms, ns, |ms|) <==>
            && ms[i].list == ns && ms[i].inNs && ms[i].mntId < 2_000_000_000
            && (ms[i].devnameOurs || (ms[i].pathOurs && ms[i].rendered))
            && |Listed(ms, ns, i)| < 65536
  {
    CandidatesMeaning(ms, ns, |ms|, i);
    SeenCounts(ms, ns, i);
    hide Seen, Candidates;
  }

  lemma {:induction false} CandidatesGrow(ms: seq<Mount>, ns: nat, j: nat, k: nat)
    requires j <= k <= |ms|
    ensures Candidates(ms, ns, j) <= Candidates(ms, ns, k)
    decreases k - j
  {
    hide IsCandidate;
    if j < k {
      CandidatesGrow(ms, ns, j, k - 1);
    }
  }

  lemma {:induction false} SeenGrows(ms: seq<Mount>, ns: nat, j: nat, k: nat)
    requires j <= k <= |ms|
    ensures Seen(ms, ns, j) <= Seen(ms, ns, k)
    decreases k - j
  {
    if j < k {
      SeenGrows(ms, ns, j, k - 1);
    }
  }

  lemma {:induction false} CandidatesCapped(ms: seq<Mount>, ns: nat, j: nat, k: nat)
    requires j <= k <= |ms| && Seen(ms, ns, j) >= MAX_SCAN
    ensures Candidates(ms, ns, k) == Candidates(ms, ns, j)
    decreases k - j
  {
    if j < k {
      CandidatesCapped(ms, ns, j, k - 1);
      SeenGrows(ms, ns, j, k - 1);
    }
  }

  /** What a scan does to the mounts: those at the positions `done` get an id of the high range. */
  ghost predicate Marked(ms: seq<Mount>, ms': seq<Mount>, done: seq<nat>) {
    && |ms'| == |ms|
    && (forall i :: 0 <= i < |ms| && i !in done ==> ms'[i] == ms[i])
    && (forall c :: 0 <= c < |done| ==> done[c] < |ms| && RenumberedAt(ms, ms', done[c]))
  }

  ghost predicate RenumberedAt(ms: seq<Mount>, ms': seq<Mount>, i: nat) {
    i < |ms| && i < |ms'| && 2_000_000_000 <= ms'[i].mntId <= 0x7fff_fffe && ms'[i] == ms[i].(mntId := ms'[i].mntId)
  }

  lemma {:induction false} SameLists(ms: seq<Mount>, ms': seq<Mount>, done: seq<nat>, i: nat)
    requires Marked(ms, ms', done) && i < |ms|
    ensures ms'[i].list == ms[i].list && (i !in done ==> ms'[i] == ms[i])
    ensures i in done ==> ms'[i].mntId >= ID_MIN
  {
    if i in done {
      var c :| 0 <= c < |done| && done[c] == i;
      assert RenumberedAt(ms, ms', done[c]);
    }
  }

  lemma {:induction false} SameSeen(ms: seq<Mount>, ms': seq<Mount>, done: seq<nat>, ns: nat, k: nat)
    requires Marked(ms, ms', done) && k <= |ms|
    ensures Seen(ms', ns, k) == Seen(ms, ns, k)
    decreases k
  {
    hide Marked;
    MarkedLength(ms, ms', done);
    if k > 0 {
      SameSeen(ms, ms', done, ns, k - 1);
      SameLists(ms, ms', done, k - 1);
    }
  }

  lemma {:induction false} MarkedLength(ms: seq<Mount>, ms': seq<Mount>, done: seq<nat>)
    requires Marked(ms, ms', done)
    ensures |ms'| == |ms|
  {
  }

  lemma {:induction false} StillCandidate(ms: seq<Mount>, ms': seq<Mount>, done: seq<nat>, ns: nat, i: nat)
    requires Marked(ms, ms', done) && i < |ms|
    ensures |ms'| == |ms| && (IsCandidate(ms', ns, i) <==> IsCandidate(ms, ns, i) && i !in done)
  {
    hide Seen, Marked;
    MarkedLength(ms, ms', done);
    SameLists(ms, ms', done, i);
    SameSeen(ms, ms', done, ns, i);
  }

  lemma {:induction false} DoneIffEarly(ms: seq<Mount>, ns: nat, done: seq<nat>, k: nat)
    requires 0 < k <= |ms| && done <= Candidates(ms, ns, |ms|) && IsCandidate(ms, ns, k - 1)
    ensures k - 1 in done <==> |Candidates(ms, ns, k - 1)| < |done|
  {
    hide IsCandidate;
    var all, n := Candidates(ms, ns, |ms|), |Candidates(ms, ns, k - 1)|;
    CandidatesGrow(ms, ns, k, |ms|);
    assert Candidates(ms, ns, k)[n] == k - 1 && all[n] == k - 1;
    if n < |done| {
      assert done[n] == all[n];
    } else {
      assert forall c :: 0 <= c < |done| ==> done[c] == all[c] < all[n];
    }
  }

  /** After a scan, what is left to mark is what that scan did not get to. */
  lemma {:induction false} RescanContinues(ms: seq<Mount>, ms': seq<Mount>, done: seq<nat>, ns: nat, k: nat)
    requires Marked(ms, ms', done) && done <= Candidates(ms, ns, |ms|) && k <= |ms|
    ensures var c := Candidates(ms, ns, k);
            |ms'| == |ms| && Candidates(ms', ns, k) == c[if |done| < |c| then |done| else |c|..]
    decreases k
  {
    hide Marked, IsCandidate;
    MarkedLength(ms, ms', done);
    if k > 0 {
      RescanContinues(ms, ms', done, ns, k - 1);
      StillCandidate(ms, ms', done, ns, k - 1);
      if IsCandidate(ms, ns, k - 1) {
        DoneIffEarly(ms, ns, done, k);
      }
    }
  }

  // ---- steps of a scan ------------------------------------------------------------------

  lemma {:induction false} LastFirst(ms: seq<Mount>, live: set<nat>, elsewhere: set<nat>, hand: seq<nat>, id: nat)
    requires Accounted(ms, live, elsewhere, hand + [id])
    ensures Accounted(ms, live, elsewhere, [id] + hand)
  {
    var a, b := hand + [id], [id] + hand;
    forall i, j | 0 <= i < j < |b|
      ensures b[i] != b[j]
    {
      assert b[j] == a[j - 1] && b[i] == if i == 0 then a[|hand|] else a[i - 1];
    }
    ElementsSplit(hand, id, []);
    ElementsSplit([], id, hand);
    assert hand + [id] + [] == a && [] + [id] + hand == b && hand + [] == hand == [] + hand;
  }

  lemma {:induction false} HeadFirst(s: seq<nat>, rest: seq<nat>)
    requires s != []
    ensures s + rest == [s[0]] + (s[1..] + rest)
  {
  }

  lemma {:induction false} WalkStart(ms: seq<Mount>, ns: nat)
    ensures Seen(ms, ns, 0) == 0 && Candidates(ms, ns, 0) == [] && Marked(ms, ms, [])
  {
  }

  lemma {:induction false} WalkStep(ms: seq<Mount>, ns: nat, j: nat)
    requires j < |ms|
    ensures Seen(ms, ns, j + 1) == Seen(ms, ns, j) + if ms[j].list == ns then 1 else 0
    ensures if ms[j].list == ns && Seen(ms, ns, j) < MAX_SCAN && Eligible(ms[j])
            then Candidates(ms, ns, j + 1) == Candidates(ms, ns, j) + [j]
            else Candidates(ms, ns, j + 1) == Candidates(ms, ns, j)
  {
  }

  lemma {:induction false} SwapInHand(ms: seq<Mount>, live: set<nat>, elsewhere: set<nat>, batch: seq<nat>, replaced: seq<nat>, j: nat)
    requires j < |ms| && ms[j].inNs && batch != [] && Accounted(ms, live, elsewhere, batch + replaced)
    ensures Accounted(Renumber(ms, j, batch[0]), live, elsewhere, batch[1..] + (replaced + [ms[j].mntId]))
  {
    hide Accounted;
    assert batch + replaced == [batch[0]] + batch[1..] + replaced;
    SwappedOk(ms, live, elsewhere, batch[0], batch[1..], replaced, j);
  }

  lemma {:induction false} MarkedMore(ms: seq<Mount>, ms': seq<Mount>, done: seq<nat>, j: nat, id: nat)
    requires Marked(ms, ms', done) && j < |ms'| && j < |ms| && j !in done && ID_MIN <= id <= ID_MAX
    ensures Marked(ms, Renumber(ms', j, id), done + [j])
  {
    var ms2, done2 := Renumber(ms', j, id), done + [j];
    forall i | 0 <= i < |ms| && i !in done2
      ensures ms2[i] == ms[i]
    {
      assert j == done2[|done|];
      assert forall c :: 0 <= c < |done| ==> done2[c] == done[c];
    }
    forall c | 0 <= c < |done2|
      ensures done2[c] < |ms| && RenumberedAt(ms, ms2, done2[c])
    {
      assert c < |done| ==> RenumberedAt(ms, ms', done[c]);
    }
  }

  lemma {:induction false} ScanOnce(ms: seq<Mount>, ms': seq<Mount>, ns: nat, done: seq<nat>, i: nat)
    requires Marked(ms, ms', done) && done <= Candidates(ms, ns, |ms|) && i < |ms|
    ensures |ms'| == |ms| && (ms'[i] == ms[i] || (ms[i].mntId < 2_000_000_000 && RenumberedAt(ms, ms', i)))
  {
    if i in done {
      var c :| 0 <= c < |done| && done[c] == i;
      assert IsCandidate(ms, ns, Candidates(ms, ns, |ms|)[c]) && RenumberedAt(ms, ms', done[c]);
    }
  }

  // ---- what others do -------------------------------------------------------------------

  /** Other code takes an id from the same allocator, or gives one of its own back. */
  datatype Act = Take | Give(id: nat)

  datatype Change = Took(id: nat) | Gave(id: nat) | Nothing

  predicate Answers(a: Act, c: Change) {
    match a
    case Take => c.Took? || c.Nothing?
    case Give(id) => c == Gave(id) || c.Nothing?
  }

  ghost function Replay(elsewhere: set<nat>, log: seq<Change>): set<nat> {
    if log == [] then elsewhere
    else
      var before := Replay(elsewhere, log[..|log| - 1]);
      match log[|log| - 1]
      case Took(id) => before + {id}
      case Gave(id) => before - {id}
      case Nothing => before
  }

  /** What others hold changed only by their own acts, done in turn. */
  ghost predicate Played(acts: seq<Act>, els: set<nat>, acts': seq<Act>, els': set<nat>, log: seq<Change>) {
    && |log| <= |acts| && acts' == acts[|log|..]
    && (forall i :: 0 <= i < |log| ==> Answers(acts[i], log[i]))
    && els' == Replay(els, log)
  }

  lemma {:induction false} ReplayBoth(els: set<nat>, a: seq<Change>, b: seq<Change>)
    ensures Replay(els, a + b) == Replay(Replay(els, a), b)
    decreases |b|
  {
    if b == [] {
      assert a + b == a;
    } else {
      ReplayBoth(els, a, b[..|b| - 1]);
      assert (a + b)[..|a + b| - 1] == a + b[..|b| - 1];
    }
  }

  lemma {:induction false} PlayedBoth(x: seq<Act>, e: set<nat>, y: seq<Act>, f: set<nat>, z: seq<Act>, g: set<nat>,
                                      a: seq<Change>, b: seq<Change>)
    requires Played(x, e, y, f, a) && Played(y, f, z, g, b)
    ensures Played(x, e, z, g, a + b)
  {
    ReplayBoth(e, a, b);
    forall i | 0 <= i < |a + b|
      ensures Answers(x[i], (a + b)[i])
    {
      if i >= |a| {
        assert y[i - |a|] == x[i] && (a + b)[i] == b[i - |a|];
      }
    }
    assert x[|a|..][|b|..] == x[|a + b|..];
  }

  lemma {:induction false} PlayedOne(acts: seq<Act>, els: set<nat>, c: Change)
    requires acts != [] && Answers(acts[0], c)
    ensures Played(acts, els, acts[1..], match c case Took(id) => els + {id} case Gave(id) => els - {id} case Nothing => els, [c])
  {
    assert [c][..0] == [];
  }

  lemma {:induction false} PlayedNone(acts: seq<Act>, els: set<nat>)
    ensures Played(acts, els, acts, els, [])
  {
  }

  lemma {:induction false} OthersTake(ms: seq<Mount>, live: set<nat>, elsewhere: set<nat>, hand: seq<nat>, id: nat)
    requires Accounted(ms, live, elsewhere, hand) && id !in live
    ensures Accounted(ms, live + {id}, elsewhere + {id}, hand)
  {
    hide OwnedIds, Elements, Distinct;
  }

  lemma {:induction false} OthersGive(ms: seq<Mount>, live: set<nat>, elsewhere: set<nat>, hand: seq<nat>, id: nat)
    requires Accounted(ms, live, elsewhere, hand) && id in elsewhere
    ensures Accounted(ms, live - {id}, elsewhere - {id}, hand)
  {
    hide OwnedIds, Elements, Distinct;
  }

  // ---- mounts that come and go ----------------------------------------------------------

  ghost predicate Keyed(ms: seq<Mount>, nextKey: nat) {
    && (forall i :: 0 <= i < |ms| ==> ms[i].key < nextKey)
    && (forall i, j :: 0 <= i < j < |ms| ==> ms[i].key != ms[j].key)
  }

  function Inserted(ms: seq<Mount>, pos: nat, m: Mount): seq<Mount>
    requires pos <= |ms|
  {
    ms[..pos] + [m] + ms[pos..]
  }

  function Removed(ms: seq<Mount>, pos: nat): seq<Mount>
    requires pos < |ms|
  {
    ms[..pos] + ms[pos + 1..]
  }

  lemma {:induction false} RemovedOwned(ms: seq<Mount>, pos: nat)
    requires pos < |ms| && OneOwner(ms)
    ensures OneOwner(Removed(ms, pos))
    ensures OwnedIds(Removed(ms, pos)) == if ms[pos].inNs then OwnedIds(ms) - {ms[pos].mntId} else OwnedIds(ms)
    ensures ms[pos].inNs ==> ms[pos].mntId in OwnedIds(ms)
  {
    var cut := Removed(ms, pos);
    assert forall i :: 0 <= i < |cut| ==> cut[i] == ms[if i < pos then i else i + 1];
    forall x
      ensures x in OwnedIds(cut) <==> x in OwnedIds(ms) && !(ms[pos].inNs && x == ms[pos].mntId)
    {
      if i :| 0 <= i < |cut| && cut[i].inNs && cut[i].mntId == x {
        assert ms[if i < pos then i else i + 1].mntId == x;
      }
      if i :| 0 <= i < |ms| && ms[i].inNs && ms[i].mntId == x && i != pos {
        assert cut[if i < pos then i else i - 1].mntId == x;
      }
    }
  }

  /** An unmount frees the id that the mount holds then. */
  lemma {:induction false} UnmountedOk(ms: seq<Mount>, live: set<nat>, elsewhere: set<nat>, pos: nat)
    requires pos < |ms| && Accounted(ms, live, elsewhere, [])
    ensures Accounted(Removed(ms, pos), if ms[pos].inNs then live - {ms[pos].mntId} else live, elsewhere, [])
  {
    hide OwnedIds, OneOwner;
    RemovedOwned(ms, pos);
  }

  lemma {:induction false} InsertedOwned(ms: seq<Mount>, pos: nat, m: Mount)
    requires pos <= |ms| && OneOwner(ms) && (m.inNs ==> m.mntId !in OwnedIds(ms))
    ensures OneOwner(Inserted(ms, pos, m))
    ensures OwnedIds(Inserted(ms, pos, m)) == if m.inNs then OwnedIds(ms) + {m.mntId} else OwnedIds(ms)
  {
    var more := Inserted(ms, pos, m);
    assert forall i :: 0 <= i < |more| ==> more[i] == if i < pos then ms[i] else if i == pos then m else ms[i - 1];
    forall x
      ensures x in OwnedIds(more) <==> x in OwnedIds(ms) || (m.inNs && x == m.mntId)
    {
      if i :| 0 <= i < |ms| && ms[i].inNs && ms[i].mntId == x {
        assert more[if i < pos then i else i + 1].mntId == x;
      }
      if i :| 0 <= i < |more| && more[i].inNs && more[i].mntId == x && i != pos {
        assert ms[if i < pos then i else i - 1].mntId == x;
      }
      assert more[pos] == m;
    }
  }

  lemma {:induction false} MountedOk(ms: seq<Mount>, live: set<nat>, elsewhere: set<nat>, pos: nat, m: Mount)
    requires pos <= |ms| && Accounted(ms, live, elsewhere, []) && (m.inNs ==> m.mntId !in live)
    ensures Accounted(Inserted(ms, pos, m), if m.inNs then live + {m.mntId} else live, elsewhere, [])
  {
    hide OwnedIds, OneOwner;
    InsertedOwned(ms, pos, m);
  }

  /** Unchanged, or renumbered from below the high range into it. */
  ghost predicate AtMostOnce(m: Mount, m': Mount) {
    m' == m || (m.mntId < 2_000_000_000 <= m'.mntId && m' == m.(mntId := m'.mntId))
  }

  /** Every mount that is still there was renumbered at most once. */
  ghost predicate Tracks(ms: seq<Mount>, ms': seq<Mount>) {
    forall i, j :: 0 <= i < |ms| && 0 <= j < |ms'| && ms[i].key == ms'[j].key ==> AtMostOnce(ms[i], ms'[j])
  }

  lemma {:induction false} TracksScan(ms0: seq<Mount>, ms: seq<Mount>, ms': seq<Mount>, ns: nat, done: seq<nat>)
    requires Tracks(ms0, ms) && Marked(ms, ms', done) && done <= Candidates(ms, ns, |ms|)
    ensures Tracks(ms0, ms')
  {
    hide Marked, Candidates;
    MarkedLength(ms, ms', done);
    forall i, j | 0 <= i < |ms0| && 0 <= j < |ms'| && ms0[i].key == ms'[j].key
      ensures AtMostOnce(ms0[i], ms'[j])
    {
      ScanOnce(ms, ms', ns, done, j);
      assert ms'[j].key == ms[j].key;
    }
  }

  lemma {:induction false} KeyedScan(ms: seq<Mount>, ms': seq<Mount>, ns: nat, done: seq<nat>, nextKey: nat)
    requires Keyed(ms, nextKey) && Marked(ms, ms', done) && done <= Candidates(ms, ns, |ms|)
    ensures Keyed(ms', nextKey)
  {
    hide Marked, Candidates;
    MarkedLength(ms, ms', done);
    forall j | 0 <= j < |ms'|
      ensures ms'[j].key == ms[j].key
    {
      ScanOnce(ms, ms', ns, done, j);
    }
  }

  lemma {:induction false} InsertedTracks(ms0: seq<Mount>, ms: seq<Mount>, pos: nat, m: Mount, key0: nat, nextKey: nat)
    requires pos <= |ms| && Tracks(ms0, ms) && Keyed(ms0, key0) && Keyed(ms, nextKey) && key0 <= nextKey == m.key
    ensures Tracks(ms0, Inserted(ms, pos, m)) && Keyed(Inserted(ms, pos, m), nextKey + 1)
  {
    var more := Inserted(ms, pos, m);
    assert forall i :: 0 <= i < |more| ==> more[i] == if i < pos then ms[i] else if i == pos then m else ms[i - 1];
  }

  lemma {:induction false} RemovedTracks(ms0: seq<Mount>, ms: seq<Mount>, pos: nat, nextKey: nat)
    requires pos < |ms| && Tracks(ms0, ms) && Keyed(ms, nextKey)
    ensures Tracks(ms0, Removed(ms, pos)) && Keyed(Removed(ms, pos), nextKey)
  {
    var cut := Removed(ms, pos);
    assert forall i :: 0 <= i < |cut| ==> cut[i] == ms[if i < pos then i else i + 1];
  }

  lemma {:induction false} TracksSelf(ms: seq<Mount>, nextKey: nat)
    requires Keyed(ms, nextKey)
    ensures Tracks(ms, ms)
  {
  }

  lemma {:induction false} FewerActs(x: seq<Act>, e: set<nat>, y: seq<Act>, f: set<nat>, log: seq<Change>)
    requires Played(x, e, y, f, log) && log != []
    ensures |y| < |x|
  {
  }

  /** Some id is not in use. */
  lemma {:induction false} Unused(live: set<nat>)
    ensures exists id: nat :: id !in live
  {
    var top := Above(live);
    assert top !in live;
  }

  lemma {:induction false} Above(live: set<nat>) returns (top: nat)
    ensures forall x :: x in live ==> x < top
    decreases |live|
  {
    if live == {} {
      top := 0;
    } else {
      var x :| x in live;
      var rest := Above(live - {x});
      top := if x < rest then rest else x + 1;
      assert forall y :: y in live ==> y == x || y in live - {x};
    }
  }
}

/** sus_mount_scan_ns and its allocator. */
module MountIds {
  import opened Bytes
  import opened MountIdModel

  const ENOSYS: int := -38
  const ENOMEM: int := -12

  class MountTable {
    var mounts: seq<Mount>
    /** The ids the kernel's allocator has given out. */
    var live: set<nat>
    /** Those that belong to neither a listed mount nor a scan, and what other code will do with them. */
    var elsewhere: set<nat>
    var others: seq<Act>
    var nextKey: nat
    ghost var failures: nat  // allocations of a scan that gave nothing usable

    ghost predicate Holding(hand: seq<nat>)
      reads this
    {
      Accounted(mounts, live, elsewhere, hand)
    }

    ghost predicate Valid()
      reads this
    {
      Holding([]) && Keyed(mounts, nextKey)
    }

    /** One act of other code. */
    method OneAct(ghost hand: seq<nat>) returns (ghost c: Change)
      requires Holding(hand) && others != []
      modifies this`live, this`elsewhere, this`others
      ensures Holding(hand) && Played(old(others), old(elsewhere), others, elsewhere, [c])
    {
      hide Accounted, Played;
      c := Nothing;
      match others[0] {
        case Take =>
          var id: nat :| true;
          if id !in live {
            OthersTake(mounts, live, elsewhere, hand, id);
            c := Took(id);
            live, elsewhere := live + {id}, elsewhere + {id};
          }
        case Give(id) =>
          if id in elsewhere {
            OthersGive(mounts, live, elsewhere, hand, id);
            c := Gave(id);
            live, elsewhere := live - {id}, elsewhere - {id};
          }
      }
      PlayedOne(others, old(elsewhere), c);
      others := others[1..];
    }

    /** Between two steps of a scan other code may do any number of its acts. */
    method Interfere(ghost hand: seq<nat>) returns (ghost log: seq<Change>)
      requires Holding(hand)
      modifies this`live, this`elsewhere, this`others
      ensures Holding(hand) && Played(old(others), old(elsewhere), others, elsewhere, log)
    {
      hide Accounted, Played;
      log := [];
      PlayedNone(others, elsewhere);
      var more: bool := *;
      while more && others != []
        invariant Holding(hand) && Played(old(others), old(elsewhere), others, elsewhere, log)
        decreases |others|
      {
        ghost var y, f := others, elsewhere;
        var c := OneAct(hand);
        FewerActs(y, f, others, elsewhere, [c]);
        PlayedBoth(old(others), old(elsewhere), y, f, others, elsewhere, log, [c]);
        log := log + [c];
        more := *;
      }
    }

    /** An id that is not in use, or an error. */
    method IdaAlloc(ghost hand: seq<nat>) returns (id: int)
      requires Holding(hand)
      modifies this`live
      ensures id < 0 ==> live == old(live)
      ensures id >= 0 ==> id <= ID_MAX && id !in old(live) && Holding(hand + [id])
    {
      id := *;
      if id < 0 || id > ID_MAX || id in live {
        return ENOMEM;
      }
      TakenOk(mounts, live, elsewhere, hand, id);
      live := live + {id};
    }

    /** Only an id in use is ever released. */
    method IdaRelease(id: nat, ghost rest: seq<nat>)
      requires Holding([id] + rest)
      modifies this`live
      ensures id in old(live) && Holding(rest)
    {
      ReleasedOk(mounts, live, elsewhere, rest, id);
      live := live - {id};
    }

    /** Up to BATCH ids of the high range. */
    method FillBatch(batch: array<nat>) returns (n: nat, ghost log: seq<Change>)
      requires Holding([]) && batch.Length == BATCH
      modifies this`live, this`elsewhere, this`others, this`failures, batch
      ensures Played(old(others), old(elsewhere), others, elsewhere, log)
      ensures n <= BATCH && Holding(batch[..n]) && (forall i :: 0 <= i < n ==> ID_MIN <= batch[i] <= ID_MAX)
      ensures failures >= old(failures) && (failures == old(failures) ==> n == BATCH)
    {
      hide Accounted, Played;
      n, log := 0, [];
      PlayedNone(others, elsewhere);
      assert batch[..0] == [];
      while n < BATCH
        invariant Played(old(others), old(elsewhere), others, elsewhere, log)
        invariant n <= BATCH && Holding(batch[..n]) && (forall i :: 0 <= i < n ==> ID_MIN <= batch[i] <= ID_MAX)
        invariant failures == old(failures)
      {
        ghost var hand := batch[..n];
        ghost var y, f := others, elsewhere;
        var some := Interfere(hand);
        PlayedBoth(old(others), old(elsewhere), y, f, others, elsewhere, log, some);
        log := log + some;
        var id := IdaAlloc(hand);
        if id < 0 {
          failures := failures + 1;
          return;
        }
        if id < ID_MIN {
          LastFirst(mounts, live, elsewhere, hand, id);
          IdaRelease(id, hand);
          failures := failures + 1;
          return;
        }
        batch[n] := id;
        n := n + 1;
        assert batch[..n] == hand + [id];
      }
    }

    /** The walk: each mount to be marked takes the next id of the batch and leaves its own. */
    method Walk(ns: nat, batch: array<nat>, n: nat, replaced: array<nat>) returns (used: nat)
      requires batch.Length == BATCH == replaced.Length && batch != replaced && n <= BATCH && Holding(batch[..n])
      requires forall i :: 0 <= i < n ==> ID_MIN <= batch[i] <= ID_MAX
      modifies this`mounts, replaced
      ensures var all := Candidates(old(mounts), ns, |old(mounts)|);
              used == (if n < |all| then n else |all|) && Marked(old(mounts), mounts, all[..used])
      ensures Holding(batch[used..n] + replaced[..used])
    {
      hide Candidates, Seen, Accounted, Marked;
      ghost var ms := mounts;
      var j, seen := 0, 0;
      used := 0;
      WalkStart(ms, ns);
      assert batch[0..n] + replaced[..0] == batch[..n];
      while j < |mounts|
        invariant j <= |mounts| == |ms| && seen == Seen(ms, ns, j)
        invariant used == |Candidates(ms, ns, j)| <= n
        invariant Marked(ms, mounts, Candidates(ms, ns, j))
        invariant forall i :: j <= i < |ms| ==> mounts[i] == ms[i]
        invariant Holding(batch[used..n] + replaced[..used])
      {
        WalkStep(ms, ns, j);
        if mounts[j].list != ns {
          j := j + 1;
          continue;
        }
        if seen >= MAX_SCAN {
          CandidatesCapped(ms, ns, j, |ms|);
          break;
        }
        seen := seen + 1;
        if !mounts[j].inNs || mounts[j].mntId >= ID_MIN || !Ours(mounts[j]) {
          j := j + 1;
          continue;
        }
        if used >= n {
          CandidatesGrow(ms, ns, j, |ms|);
          CandidatesGrow(ms, ns, j + 1, |ms|);
          break;
        }
        var newId := batch[used];
        SwapInHand(mounts, live, elsewhere, batch[used..n], replaced[..used], j);
        MarkedMore(ms, mounts, Candidates(ms, ns, j), j, newId);
        replaced[used] := mounts[j].mntId;
        assert replaced[..used + 1] == replaced[..used] + [mounts[j].mntId];
        mounts := Renumber(mounts, j, newId);
        used := used + 1;
        j := j + 1;
      }
      assert Candidates(ms, ns, |ms|)[..used] == Candidates(ms, ns, j);
    }

    /** Every id of a stretch is released, once. */
    method HandBack(ids: array<nat>, from: nat, to: nat, ghost rest: seq<nat>) returns (ghost log: seq<Change>)
      requires from <= to <= ids.Length && Holding(ids[from..to] + rest)
      modifies this`live, this`elsewhere, this`others
      ensures Holding(rest) && Played(old(others), old(elsewhere), others, elsewhere, log)
    {
      hide Accounted, Played;
      log := [];
      PlayedNone(others, elsewhere);
      ghost var left := ids[from..to];
      var i := from;
      while i < to
        invariant from <= i <= to && left == ids[i..to] && Holding(left + rest)
        invariant Played(old(others), old(elsewhere), others, elsewhere, log)
      {
        ghost var y, f := others, elsewhere;
        var some := Interfere(left + rest);
        PlayedBoth(old(others), old(elsewhere), y, f, others, elsewhere, log, some);
        log := log + some;
        HeadFirst(left, rest);
        IdaRelease(ids[i], left[1..] + rest);
        left := left[1..];
        i := i + 1;
      }
      assert left + rest == rest;
    }

    /** sus_mount_scan_ns. `log` is what other code did meanwhile. */
    method ScanNs(ns: nat, canWalk: bool) returns (ret: int, ghost done: seq<nat>, ghost log: seq<Change>)
      requires Valid()
      modifies this
      ensures Valid() && nextKey == old(nextKey) && Played(old(others), old(elsewhere), others, elsewhere, log)
      ensures failures >= old(failures)
      ensures done <= Candidates(old(mounts), ns, |old(mounts)|) && Marked(old(mounts), mounts, done)
      ensures ret == if canWalk then |done| else -38
      ensures !canWalk ==> done == []
      ensures canWalk && failures == old(failures)
              ==> |done| == 8 || done == Candidates(old(mounts), ns, |old(mounts)|)
    {
      hide Candidates, Accounted, Keyed, Played, Marked;
      done, log := [], [];
      WalkStart(mounts, ns);
      PlayedNone(others, elsewhere);
      if !canWalk {
        return ENOSYS, [], [];
      }
      var batch := new nat[BATCH];
      var replaced := new nat[BATCH];
      var n;
      n, log := FillBatch(batch);
      if n == 0 {
        assert batch[..0] == [];
        return 0, [], log;
      }
      var used := Walk(ns, batch, n, replaced);
      done := Candidates(old(mounts), ns, |old(mounts)|)[..used];
      KeyedScan(old(mounts), mounts, ns, done, nextKey);
      ghost var y, f := others, elsewhere;
      var some := HandBack(batch, used, n, replaced[..used]);
      PlayedBoth(old(others), old(elsewhere), y, f, others, elsewhere, log, some);
      log := log + some;
      assert replaced[0..used] + [] == replaced[..used];
      y, f := others, elsewhere;
      some := HandBack(replaced, 0, used, []);
      PlayedBoth(old(others), old(elsewhere), y, f, others, elsewhere, log, some);
      log := log + some;
      ret := used;
    }

    /** A mount is made, with an id that is not in use, or a cursor is put into a list. */
    method AddMount(pos: nat, m: Mount)
      requires Valid() && pos <= |mounts|
      modifies this`mounts, this`live, this`nextKey
      ensures Valid() && nextKey == old(nextKey) + 1
      ensures exists id: nat :: mounts == Inserted(old(mounts), pos, m.(key := old(nextKey), mntId := id))
    {
      var id: nat :| id !in live by {
        Unused(live);
      }
      var entry := m.(key := nextKey, mntId := id);
      MountedOk(mounts, live, elsewhere, pos, entry);
      InsertedTracks(mounts, mounts, pos, entry, nextKey, nextKey);
      mounts := Inserted(mounts, pos, entry);
      if m.inNs {
        live := live + {id};
      }
      nextKey := nextKey + 1;
    }

    /** An unmount frees the id that the mount holds then. */
    method RemoveMount(pos: nat)
      requires Valid() && pos < |mounts|
      modifies this`mounts, this`live
      ensures Valid() && mounts == Removed(old(mounts), pos)
    {
      UnmountedOk(mounts, live, elsewhere, pos);
      RemovedTracks(mounts, mounts, pos, nextKey);
      if mounts[pos].inNs {
        live := live - {mounts[pos].mntId};
      }
      mounts := Removed(mounts, pos);
    }

    /** Any sequence of scans, mounts and unmounts, with other code at work: ids are conserved, and the
        id of a mount that stays changes at most once, from below the range into it. */
    method Run(events: seq<Event>)
      requires Valid()
      modifies this
      ensures Valid() && Tracks(old(mounts), mounts)
    {
      hide Candidates, Accounted, Marked, Keyed, Tracks, Played;
      TracksSelf(mounts, nextKey);
      for i := 0 to |events|
        invariant Valid() && Tracks(old(mounts), mounts) && old(nextKey) <= nextKey
      {
        ghost var ms, key := mounts, nextKey;
        match events[i] {
          case Scan(ns, canWalk) =>
            var _, done, _ := ScanNs(ns, canWalk);
            TracksScan(old(mounts), ms, mounts, ns, done);
          case Mounted(pos, m) =>
            if pos <= |mounts| {
              AddMount(pos, m);
              ghost var id: nat :| mounts == Inserted(ms, pos, m.(key := key, mntId := id));
              InsertedTracks(old(mounts), ms, pos, m.(key := key, mntId := id), old(nextKey), key);
            }
          case Unmounted(pos) =>
            if pos < |mounts| {
              RemoveMount(pos);
              RemovedTracks(old(mounts), ms, pos, key);
            }
        }
      }
    }
  }

  datatype Event = Scan(ns: nat, canWalk: bool) | Mounted(pos: nat, m: Mount) | Unmounted(pos: nat)
}
