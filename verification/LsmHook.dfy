/** The hook-list surgery of kernel/susfs/lsm_hook.c (kernels before 6.12): nodes of ours are
    put at the head of a list of registered LSM entries, and taken out again, one patched word
    at a time, while walkers that take no lock are inside the list.

    A state is the list words between two writes. A write through ksu_patch_text can fail; the
    two writes that undo a failed operation are taken to succeed. */
module LsmHookModel {
  import opened Bytes

  type Id = nat

  /** A word that holds a forward pointer: head->first, or a node's next. */
  datatype Slot = HeadFirst | NextOf(id: Id)

  datatype Words = Words(first: Option<Id>, next: map<Id, Option<Id>>, pprev: map<Id, Option<Slot>>)

  ghost function ReadSlot(w: Words, slot: Slot): Option<Id> {
    match slot
    case HeadFirst => w.first
    case NextOf(id) => if id in w.next then w.next[id] else None
  }

  ghost function WriteSlot(w: Words, slot: Slot, value: Option<Id>): Words {
    match slot
    case HeadFirst => w.(first := value)
    case NextOf(id) => w.(next := w.next[id := value])
  }

  /** Where the one writer (ksu_lsm_hook_lock is held) is between two writes. */
  datatype Pc =
    | Idle
    | Zeroed(h: Id)
    | Filled(h: Id, first: Id)
    | Published(h: Id, first: Id)
    | Backing(h: Id, first: Id)
    | Unlinked(h: Id, slot: Slot, succ: Id)
    | Relinking(h: Id, slot: Slot, succ: Id)

  /** The words, the entries the kernel registered, our nodes in the list (newest first), our
      nodes that are out of the list but may still have a walker inside, the drains that are
      waiting, each with the nodes no walker will be inside when it ends, and the writer. */
  datatype State = State(words: Words, orig: seq<Id>, linked: seq<Id>, stale: set<Id>, drains: map<nat, set<Id>>, pc: Pc)

  // ---- walkers ----------------------------------------------------------------------

  /** Following next pointers from `from` visits exactly `path` and then ends. */
  ghost predicate Visits(w: Words, from: Option<Id>, path: seq<Id>)
    decreases |path|
  {
    if path == [] then from.None?
    else from == Some(path[0]) && path[0] in w.next && Visits(w, w.next[path[0]], path[1..])
  }

  /** A walk from `from` meets some of our nodes and then every registered entry, once, in order. */
  ghost predicate SafeFrom(w: Words, from: Option<Id>, orig: seq<Id>) {
    exists ours: seq<Id> :: VisitsOursThen(w, from, ours, orig)
  }

  ghost predicate VisitsOursThen(w: Words, from: Option<Id>, ours: seq<Id>, orig: seq<Id>) {
    Visits(w, from, ours + orig) && forall x :: x in ours ==> x !in orig
  }

  /** The node that head->first names although it is not in the list yet, or never gets there. */
  ghost function PublishedNode(pc: Pc): set<Id> {
    match pc case Published(h, _) => {h} case Backing(h, _) => {h} case _ => {}
  }

  /** The node that the list no longer names although its removal can still be undone. */
  ghost function CutNode(pc: Pc): set<Id> {
    match pc case Unlinked(h, _, _) => {h} case Relinking(h, _, _) => {h} case _ => {}
  }

  /** Our nodes that a new walker can reach. */
  ghost function Reachable(s: State): set<Id> {
    (Elements(s.linked) - CutNode(s.pc)) + PublishedNode(s.pc)
  }

  /** Our nodes that a walker may be standing on. */
  ghost function Occupied(s: State): set<Id> {
    Reachable(s) + s.stale
  }

  /** No walker misses an entry: not one that starts at the head, not one that stands on a node
      of ours, not one that stands on a registered entry. */
  ghost predicate WalkersSafe(s: State) {
    && SafeFrom(s.words, s.words.first, s.orig)
    && (forall u :: u in Occupied(s) ==> SafeFrom(s.words, Some(u), s.orig))
    && (forall i :: 0 <= i < |s.orig| ==> Visits(s.words, Some(s.orig[i]), s.orig[i..]))
  }

  // ---- the writes -------------------------------------------------------------------

  datatype Step =
    | Zero(h: Id)            // memset of our own node
    | Fill                   // next and pprev of our own node
    | Publish(ok: bool)      // head->first
    | FixBack(ok: bool)      // back pointer of the displaced first node
    | RollBack               // head->first again, and our pprev
    | Unlink(h: Id, ok: bool) // the word that points at our node
    | FixSucc(ok: bool)      // back pointer of the successor
    | Relink                 // the word that pointed at our node, again
    | BeginDrain(d: nat)     // some thread, without the lock, starts to wait
    | EndDrain(d: nat)       // every walker that was inside when it started has left

  function Without(s: seq<Id>, x: Id): seq<Id> {
    if s == [] then [] else (if s[0] == x then [] else [s[0]]) + Without(s[1..], x)
  }

  /** A node that can be entered again is no longer waited for. */
  ghost function Forget(drains: map<nat, set<Id>>, gone: set<Id>): map<nat, set<Id>> {
    map d | d in drains :: drains[d] - gone
  }

  ghost function Next(s: State, step: Step): Option<State> {
    var w := s.words;
    match step
    case Zero(h) =>
      if s.pc.Idle? && h !in s.orig && h !in s.linked && w.first.Some?
      then Some(s.(words := w.(next := w.next[h := None], pprev := w.pprev[h := None]), pc := Zeroed(h)))
      else None
    case Fill =>
      if s.pc.Zeroed? && w.first.Some? then
        var h := s.pc.h;
        Some(s.(words := w.(next := w.next[h := w.first], pprev := w.pprev[h := Some(HeadFirst)]),
                pc := Filled(h, w.first.value)))
      else None
    case Publish(ok) =>
      if !s.pc.Filled? then None
      else if ok then
        Some(s.(words := w.(first := Some(s.pc.h)), drains := Forget(s.drains, {s.pc.h}), pc := Published(s.pc.h, s.pc.first)))
      else Some(s.(pc := Idle))
    case FixBack(ok) =>
      if !s.pc.Published? then None
      else if ok then
        Some(s.(words := w.(pprev := w.pprev[s.pc.first := Some(NextOf(s.pc.h))]),
                linked := [s.pc.h] + s.linked, stale := s.stale - {s.pc.h}, pc := Idle))
      else Some(s.(pc := Backing(s.pc.h, s.pc.first)))
    case RollBack =>
      if !s.pc.Backing? then None
      else Some(s.(words := w.(first := Some(s.pc.first), pprev := w.pprev[s.pc.h := None]),
                   stale := s.stale + {s.pc.h}, pc := Idle))
    case Unlink(h, ok) =>
      if !s.pc.Idle? || h !in s.linked || h !in w.next || h !in w.pprev then None
      else if w.pprev[h].None? || ReadSlot(w, w.pprev[h].value) != Some(h) || w.next[h].None? then None
      else if ok then
        Some(s.(words := WriteSlot(w, w.pprev[h].value, w.next[h]),
                stale := s.stale + {h}, pc := Unlinked(h, w.pprev[h].value, w.next[h].value)))
      else Some(s)
    case FixSucc(ok) =>
      if !s.pc.Unlinked? then None
      else if ok then
        Some(s.(words := w.(pprev := w.pprev[s.pc.succ := Some(s.pc.slot)][s.pc.h := None]),
                linked := Without(s.linked, s.pc.h), pc := Idle))
      else Some(s.(pc := Relinking(s.pc.h, s.pc.slot, s.pc.succ)))
    case Relink =>
      if !s.pc.Relinking? then None
      else Some(s.(words := WriteSlot(w, s.pc.slot, Some(s.pc.h)),
                   stale := s.stale - {s.pc.h}, drains := Forget(s.drains, {s.pc.h}), pc := Idle))
    case BeginDrain(d) =>
      if d in s.drains then None else Some(s.(drains := s.drains[d := s.stale - PublishedNode(s.pc)]))
    case EndDrain(d) =>
      if d !in s.drains then None
      else Some(s.(stale := s.stale - s.drains[d], drains := Forget(s.drains - {d}, s.drains[d])))
  }

  // ---- the layout the code maintains --------------------------------------------------

  ghost predicate NodeLaid(w: Words, all: seq<Id>, i: nat)
    requires i < |all|
  {
    && all[i] in w.next && w.next[all[i]] == (if i + 1 < |all| then Some(all[i + 1]) else None)
    && all[i] in w.pprev && w.pprev[all[i]] == Some(if i == 0 then HeadFirst else NextOf(all[i - 1]))
  }

  /** The words of a proper list with the entries `all`, back pointers included. */
  ghost predicate Laid(w: Words, all: seq<Id>) {
    && w.first == (if all == [] then None else Some(all[0]))
    && forall i: nat {:trigger NodeLaid(w, all, i)} :: i < |all| ==> NodeLaid(w, all, i)
  }

  ghost predicate Initial(s: State) {
    && s.orig != [] && Distinct(s.orig) && Laid(s.words, s.orig)
    && s.linked == [] && s.stale == {} && s.drains == map[] && s.pc == Idle
  }

  /** The words as they were when the current operation started to write to the list. */
  ghost function Settled(s: State): Words {
    match s.pc
    case Published(h, first) => s.words.(first := Some(first))
    case Backing(h, first) => s.words.(first := Some(first))
    case Unlinked(h, slot, succ) => WriteSlot(s.words, slot, Some(h))
    case Relinking(h, slot, succ) => WriteSlot(s.words, slot, Some(h))
    case _ => s.words
  }

  /** Our node h is outside the list. */
  ghost predicate Outside(s: State, h: Id) {
    h !in s.orig && h !in s.linked
  }

  ghost predicate Cut(s: State, h: Id, slot: Slot, succ: Id) {
    && h in s.linked && h in s.words.next && s.words.next[h] == Some(succ)
    && h in s.words.pprev && s.words.pprev[h] == Some(slot)
    && ReadSlot(s.words, slot) == Some(succ) && slot != NextOf(h)
  }

  ghost predicate PcInv(s: State) {
    var w := s.words;
    match s.pc
    case Idle => true
    case Zeroed(h) => Outside(s, h) && h in w.next && w.next[h].None?
    case Filled(h, first) => Outside(s, h) && w.first == Some(first) && h in w.next && w.next[h] == Some(first)
                             && h in w.pprev && w.pprev[h] == Some(HeadFirst)
    case Published(h, first) => Outside(s, h) && w.first == Some(h) && h in w.next && w.next[h] == Some(first)
                                && h in w.pprev && w.pprev[h] == Some(HeadFirst)
    case Backing(h, first) => Outside(s, h) && w.first == Some(h) && h in w.next && w.next[h] == Some(first)
    case Unlinked(h, slot, succ) => Cut(s, h, slot, succ)
    case Relinking(h, slot, succ) => Cut(s, h, slot, succ)
  }

  /** The next pointers, with that of a node which is just being set up already filled in. */
  ghost function Live(s: State): map<Id, Option<Id>> {
    if s.pc.Zeroed? then s.words.next[s.pc.h := s.words.first] else s.words.next
  }

  ghost predicate Leads(s: State, rank: map<Id, nat>, u: Id)
    requires s.orig != []
  {
    && u in rank && u in Live(s) && Live(s)[u].Some? && u !in s.orig
    && var v := Live(s)[u].value;
       v == s.orig[0] || (v in Occupied(s) && Above(rank, u, v))
  }

  ghost predicate Above(rank: map<Id, nat>, u: Id, v: Id) {
    u in rank && v in rank && rank[v] < rank[u]
  }

  ghost predicate Falls(linked: seq<Id>, rank: map<Id, nat>) {
    && (forall i :: 0 <= i < |linked| ==> linked[i] in rank)
    && (forall i, j :: 0 <= i < j < |linked| ==> Above(rank, linked[i], linked[j]))
  }

  /** A measure that falls along every pointer out of an occupied node and along the list. */
  ghost predicate Ranked(s: State, rank: map<Id, nat>)
    requires s.orig != []
  {
    (forall u :: u in Occupied(s) ==> Leads(s, rank, u)) && Falls(s.linked, rank)
  }

  ghost predicate Shape(s: State) {
    && s.orig != [] && Distinct(s.linked + s.orig)
    && Laid(Settled(s), s.linked + s.orig)
    && PcInv(s)
    && (forall x :: x in s.stale ==> x !in s.orig && (x !in s.linked || x in CutNode(s.pc)))
  }

  ghost predicate LeadsInto(s: State, u: Id, gone: set<Id>) {
    u in Live(s) && Live(s)[u].Some? && Live(s)[u].value in gone
  }

  /** No walker gets into the nodes of a drain that was not inside them when it began. */
  ghost predicate DrainOk(s: State, gone: set<Id>) {
    && gone <= s.stale && gone !! PublishedNode(s.pc)
    && forall u :: u in Occupied(s) && u !in gone ==> !LeadsInto(s, u, gone)
  }

  ghost predicate DrainsOk(s: State) {
    forall d :: d in s.drains ==> DrainOk(s, s.drains[d])
  }

  ghost predicate Chained(s: State) {
    s.orig != [] && exists rank: map<Id, nat> :: Ranked(s, rank)
  }

  ghost predicate Inv(s: State) {
    Shape(s) && Chained(s) && DrainsOk(s)
  }

  ghost predicate IsStep(s: State, step: Step, s': State) {
    Next(s, step) == Some(s')
  }

  ghost predicate IsRun(states: seq<State>, steps: seq<Step>) {
    && |states| == |steps| + 1 && Initial(states[0])
    && forall i {:trigger steps[i]} :: 0 <= i < |steps| ==> IsStep(states[i], steps[i], states[i + 1])
  }

  /** A node is being cleared for reuse while a walker may still be inside it. */
  ghost predicate ClearsOccupied(s: State) {
    s.pc.Zeroed? && s.pc.h in s.stale
  }

  // ---- walks --------------------------------------------------------------------------

  /** The word that points at a node of ours is head->first or belongs to another of our nodes. */
  lemma {:induction false} SlotIsOurs(s: State, h: Id, slot: Slot)
    requires Shape(s) && h in s.linked && h in Settled(s).pprev && Settled(s).pprev[h] == Some(slot)
    ensures slot.NextOf? ==> slot.id in s.linked && slot.id !in s.orig && slot.id != h
  {
    var all := s.linked + s.orig;
    var j :| 0 <= j < |s.linked| && s.linked[j] == h;
    assert all[j] == h && NodeLaid(Settled(s), all, j);
    if j > 0 {
      assert all[j - 1] == s.linked[j - 1];
      assert forall i :: 0 <= i < |s.orig| ==> all[|s.linked| + i] == s.orig[i];
    }
  }

  lemma {:induction false} OrigNextUntouched(s: State, i: nat)
    requires Shape(s) && i < |s.orig|
    ensures s.orig[i] in s.words.next
    ensures s.words.next[s.orig[i]] == if i + 1 < |s.orig| then Some(s.orig[i + 1]) else None
  {
    var all, k := s.linked + s.orig, |s.linked| + i;
    assert all[k] == s.orig[i] && NodeLaid(Settled(s), all, k);
    assert i + 1 < |s.orig| ==> all[k + 1] == s.orig[i + 1];
    if s.pc.Unlinked? || s.pc.Relinking? {
      SlotIsOurs(s, s.pc.h, s.pc.slot);
    }
  }

  lemma {:induction false} VisitsOrig(s: State, i: nat)
    requires Shape(s) && i < |s.orig|
    ensures Visits(s.words, Some(s.orig[i]), s.orig[i..])
    decreases |s.orig| - i
  {
    OrigNextUntouched(s, i);
    if i + 1 < |s.orig| {
      VisitsOrig(s, i + 1);
      assert s.orig[i..][1..] == s.orig[i + 1..];
    } else {
      assert s.orig[i..] == [s.orig[i]];
    }
  }

  /** From an occupied node the pointers run through occupied nodes into the registered list. */
  lemma {:induction false} VisitsFromOccupied(s: State, rank: map<Id, nat>, u: Id) returns (ours: seq<Id>)
    requires Shape(s) && Ranked(s, rank) && !ClearsOccupied(s) && u in Occupied(s) && u in rank
    ensures VisitsOursThen(s.words, Some(u), ours, s.orig)
    decreases rank[u]
  {
    assert Leads(s, rank, u);
    var v := s.words.next[u].value;
    if v == s.orig[0] {
      VisitsOrig(s, 0);
      assert s.orig[0..] == s.orig;
      ours := [u];
      assert (ours + s.orig)[1..] == s.orig;
    } else {
      var rest := VisitsFromOccupied(s, rank, v);
      ours := [u] + rest;
      assert (ours + s.orig)[1..] == rest + s.orig;
    }
  }

  lemma {:induction false} FirstLeadsOn(s: State)
    requires Shape(s)
    ensures s.words.first == Some(s.orig[0]) || (s.words.first.Some? && s.words.first.value in Occupied(s))
  {
    var all := s.linked + s.orig;
    assert NodeLaid(Settled(s), all, 0);
    match s.pc
    case Unlinked(h, slot, succ) => SuccessorInList(s, h, succ);
    case Relinking(h, slot, succ) => SuccessorInList(s, h, succ);
    case _ =>
  }

  lemma {:induction false} LinkedNotOrig(s: State, h: Id)
    requires Shape(s) && h in s.linked
    ensures h !in s.orig
  {
    var all := s.linked + s.orig;
    var i :| 0 <= i < |s.linked| && s.linked[i] == h;
    assert forall k :: 0 <= k < |s.orig| ==> all[|s.linked| + k] == s.orig[k];
    assert all[i] == h;
  }

  lemma {:induction false} SuccessorInList(s: State, h: Id, succ: Id)
    requires Shape(s) && h in s.linked && h in Settled(s).next && Settled(s).next[h] == Some(succ)
    ensures (succ == s.orig[0] || succ in s.linked) && succ != h
  {
    var all := s.linked + s.orig;
    var i :| 0 <= i < |s.linked| && s.linked[i] == h;
    assert all[i] == h && NodeLaid(Settled(s), all, i);
    assert all[i + 1] == succ;
  }

  /** The invariant is all that walkers need. */
  lemma {:induction false} InvSafe(s: State)
    requires Inv(s) && !ClearsOccupied(s)
    ensures WalkersSafe(s)
  {
    hide Laid, Settled, PcInv, Occupied, Leads, ClearsOccupied;
    var rank: map<Id, nat> :| Ranked(s, rank);
    forall u | u in Occupied(s)
      ensures SafeFrom(s.words, Some(u), s.orig)
    {
      assert u in rank by { OccupiedRanked(s, rank, u); }
      var ours := VisitsFromOccupied(s, rank, u);
    }
    forall i | 0 <= i < |s.orig|
      ensures Visits(s.words, Some(s.orig[i]), s.orig[i..])
    {
      VisitsOrig(s, i);
    }
    FirstLeadsOn(s);
    if s.words.first == Some(s.orig[0]) {
      assert [] + s.orig == s.orig[0..];
      assert VisitsOursThen(s.words, s.words.first, [], s.orig);
    }
  }

  lemma {:induction false} OccupiedRanked(s: State, rank: map<Id, nat>, u: Id)
    requires s.orig != [] && Ranked(s, rank) && u in Occupied(s)
    ensures u in rank
  {
    assert Leads(s, rank, u);
  }

  // ---- every write keeps the invariant ------------------------------------------------

  lemma {:induction false} InitialInv(s: State)
    requires Initial(s)
    ensures Inv(s)
  {
    assert s.linked + s.orig == s.orig;
    assert Ranked(s, map[]);
  }

  /** A layout depends only on the words of the nodes it lists. */
  lemma {:induction false} LaidFrame(w: Words, w': Words, all: seq<Id>)
    requires Laid(w, all) && w'.first == w.first
    requires forall x :: x in all && x in w.next && x in w.pprev ==>
               x in w'.next && x in w'.pprev && w'.next[x] == w.next[x] && w'.pprev[x] == w.pprev[x]
    ensures Laid(w', all)
  {
    forall i: nat | i < |all|
      ensures NodeLaid(w', all, i)
    {
      assert NodeLaid(w, all, i) && all[i] in all;
    }
  }

  /** Writes that leave the list and every occupied node alone. */
  lemma {:induction false} QuietWriteKeepsInv(s: State, step: Step, s': State)
    requires Shape(s) && Chained(s) && IsStep(s, step, s')
    requires step.Fill? || (step.Publish? && !step.ok) || (step.FixBack? && !step.ok)
             || (step.Unlink? && !step.ok) || (step.FixSucc? && !step.ok)
    ensures Shape(s') && Chained(s')
  {
    var all := s.linked + s.orig;
    LaidFrame(Settled(s), Settled(s'), all);
    var rank: map<Id, nat> :| Ranked(s, rank);
    assert Occupied(s') == Occupied(s);
    forall u | u in Occupied(s')
      ensures Leads(s', rank, u)
    {
      assert Leads(s, rank, u);
    }
    assert Ranked(s', rank);
  }

  /** Ranks after node h is set up again to lead to the current first node: every other node
      that is out of the list, and so may lead to h, moves above it. */
  ghost function Reranked(s: State, rank: map<Id, nat>, h: Id): map<Id, nat>
    requires s.words.first.Some?
  {
    var r := if s.words.first.value in rank then rank[s.words.first.value] + 1 else 0;
    map u | u in rank.Keys + {h} ::
      if u == h then r else if u in s.linked then rank[u] else rank[u] + r + 1
  }

  lemma {:induction false} ZeroKeepsShape(s: State, h: Id, s': State)
    requires Shape(s) && IsStep(s, Zero(h), s')
    ensures Shape(s')
  {
    LaidFrame(s.words, s'.words, s.linked + s.orig);
  }

  lemma {:induction false} ZeroKeepsInv(s: State, h: Id, s': State)
    requires Shape(s) && Chained(s) && IsStep(s, Zero(h), s')
    ensures Shape(s') && Chained(s')
  {
    ZeroKeepsShape(s, h, s');
    FirstLeadsOn(s);
    FirstIsListed(s);
    var rank: map<Id, nat> :| Ranked(s, rank);
    var rank' := Reranked(s, rank, h);
    forall u | u in Occupied(s')
      ensures Leads(s', rank', u)
    {
      if u != h {
        assert Leads(s, rank, u);
        if u in s.linked {
          SuccessorInList(s, u, s.words.next[u].value);
        }
      } else {
        if s.words.first.value != s.orig[0] {
          assert Leads(s, rank, s.words.first.value);
        }
      }
    }
    FallsReranked(s, rank, h);
    assert Ranked(s', rank');
  }

  lemma {:induction false} FirstIsListed(s: State)
    requires Shape(s) && s.pc.Idle?
    ensures s.words.first == Some(s.orig[0]) || (s.words.first.Some? && s.words.first.value in s.linked)
  {
    var all := s.linked + s.orig;
  }

  lemma {:induction false} FallsReranked(s: State, rank: map<Id, nat>, h: Id)
    requires s.words.first.Some? && Falls(s.linked, rank) && h !in s.linked
    ensures Falls(s.linked, Reranked(s, rank, h))
  {
    var rank' := Reranked(s, rank, h);
    forall i, j | 0 <= i < j < |s.linked|
      ensures Above(rank', s.linked[i], s.linked[j])
    {
      assert Above(rank, s.linked[i], s.linked[j]);
    }
  }

  lemma {:induction false} PublishKeepsInv(s: State, s': State)
    requires Shape(s) && Chained(s) && IsStep(s, Publish(true), s')
    ensures Shape(s') && Chained(s')
  {
    FirstLeadsOn(s);
    var rank: map<Id, nat> :| Ranked(s, rank);
    var h, first := s.pc.h, s.pc.first;
    if first != s.orig[0] {
      OccupiedRanked(s, rank, first);
    }
    var rank' := if h in s.stale then rank else rank[h := if first == s.orig[0] then 0 else rank[first] + 1];
    assert Occupied(s') == Occupied(s) + {h};
    forall u | u in Occupied(s')
      ensures Leads(s', rank', u)
    {
      if u != h {
        assert Leads(s, rank, u);
      } else if h in s.stale {
        assert Leads(s, rank, h);
      }
    }
    assert Ranked(s', rank');
  }

  /** Both writes of an insertion turn the layout of `all` into that of h followed by `all`. */
  lemma {:induction false} LaidPush(w: Words, h: Id, all: seq<Id>)
    requires Laid(w, all) && all != [] && Distinct(all) && h !in all
    requires h in w.next && w.next[h] == Some(all[0]) && h in w.pprev && w.pprev[h] == Some(HeadFirst)
    ensures Laid(w.(first := Some(h), pprev := w.pprev[all[0] := Some(NextOf(h))]), [h] + all)
  {
    var w', all' := w.(first := Some(h), pprev := w.pprev[all[0] := Some(NextOf(h))]), [h] + all;
    forall i: nat | i < |all'|
      ensures NodeLaid(w', all', i)
    {
      if i > 0 {
        assert NodeLaid(w, all, i - 1) && all'[i] == all[i - 1];
      }
    }
  }

  lemma {:induction false} FallsPush(linked: seq<Id>, h: Id, rank: map<Id, nat>)
    requires Falls(linked, rank) && h in rank
    requires linked != [] ==> Above(rank, h, linked[0])
    ensures Falls([h] + linked, rank)
  {
    var linked' := [h] + linked;
    assert forall j :: 0 < j < |linked'| ==> linked'[j] == linked[j - 1];
  }

  lemma {:induction false} FixBackKeepsShape(s: State, s': State)
    requires Shape(s) && IsStep(s, FixBack(true), s')
    ensures Shape(s')
  {
    var all := s.linked + s.orig;
    assert s'.linked + s'.orig == [s.pc.h] + all;
    LaidPush(Settled(s), s.pc.h, all);
  }

  lemma {:induction false} FixBackKeepsInv(s: State, s': State)
    requires Shape(s) && Chained(s) && IsStep(s, FixBack(true), s')
    ensures Shape(s') && Chained(s')
  {
    FixBackKeepsShape(s, s');
    var rank: map<Id, nat> :| Ranked(s, rank);
    var h := s.pc.h;
    assert Leads(s, rank, h);
    if s.linked != [] {
      var all := s.linked + s.orig;
      assert s.pc.first == all[0] == s.linked[0] && all[|s.linked|] == s.orig[0];
    }
    FallsPush(s.linked, h, rank);
    hide Shape;
    assert Occupied(s') == Occupied(s);
    forall u | u in Occupied(s')
      ensures Leads(s', rank, u)
    {
      assert Leads(s, rank, u);
    }
    assert Ranked(s', rank);
  }

  lemma {:induction false} RollBackKeepsInv(s: State, s': State)
    requires Shape(s) && Chained(s) && IsStep(s, RollBack, s')
    ensures Shape(s') && Chained(s')
  {
    LaidFrame(Settled(s), s'.words, s.linked + s.orig);
    var rank: map<Id, nat> :| Ranked(s, rank);
    assert Occupied(s') == Occupied(s);
    forall u | u in Occupied(s')
      ensures Leads(s', rank, u)
    {
      assert Leads(s, rank, u);
    }
    assert Ranked(s', rank);
  }

  lemma {:induction false} BeginDrainKeepsInv(s: State, d: nat, s': State)
    requires Shape(s) && Chained(s) && IsStep(s, BeginDrain(d), s')
    ensures Shape(s') && Chained(s')
  {
    var rank: map<Id, nat> :| Ranked(s, rank);
    forall u | u in Occupied(s')
      ensures Leads(s', rank, u)
    {
      assert Leads(s, rank, u);
    }
    assert Ranked(s', rank);
  }

  lemma {:induction false} EndDrainKeepsInv(s: State, d: nat, s': State)
    requires Inv(s) && IsStep(s, EndDrain(d), s')
    ensures Shape(s') && Chained(s')
  {
    hide Laid, Distinct, Falls;
    var rank: map<Id, nat> :| Ranked(s, rank);
    var gone := s.drains[d];
    assert DrainOk(s, gone);
    assert Settled(s') == Settled(s) && Live(s') == Live(s);
    forall u | u in Occupied(s')
      ensures Leads(s', rank, u)
    {
      assert Leads(s, rank, u);
      assert u !in gone;
      assert !LeadsInto(s, u, gone);
    }
    assert Ranked(s', rank);
  }

  lemma {:induction false} UnlinkKeepsInv(s: State, h: Id, s': State)
    requires Shape(s) && Chained(s) && IsStep(s, Unlink(h, true), s')
    ensures Shape(s') && Chained(s')
  {
    var rank: map<Id, nat> :| Ranked(s, rank);
    var slot := s.words.pprev[h].value;
    SlotIsOurs(s, h, slot);
    assert Settled(s') == s.words;
    assert Occupied(s') == Occupied(s);
    assert Leads(s, rank, h);
    forall u | u in Occupied(s')
      ensures Leads(s', rank, u)
    {
      assert Leads(s, rank, u);
    }
    assert Ranked(s', rank);
  }

  lemma {:induction false} RelinkKeepsInv(s: State, s': State)
    requires Shape(s) && Chained(s) && IsStep(s, Relink, s')
    ensures Shape(s') && Chained(s')
  {
    var rank: map<Id, nat> :| Ranked(s, rank);
    var h, slot := s.pc.h, s.pc.slot;
    SlotIsOurs(s, h, slot);
    SuccessorInList(s, h, s.pc.succ);
    assert Settled(s') == Settled(s);
    assert Occupied(s') == Occupied(s) + {h};
    forall u | u in Occupied(s')
      ensures Leads(s', rank, u)
    {
      if u == h {
        SuccessorRank(s, rank);
        LinkedNotOrig(s, h);
      } else {
        assert Leads(s, rank, u);
        if slot == NextOf(u) {
          PredecessorRank(s, rank, u);
        }
      }
    }
    assert Ranked(s', rank);
  }

  /** While a node is cut out, it still ranks above the node after it. */
  lemma {:induction false} SuccessorRank(s: State, rank: map<Id, nat>)
    requires Shape(s) && Ranked(s, rank) && s.pc.Relinking?
    ensures s.pc.h in rank && (s.pc.succ == s.orig[0] || Above(rank, s.pc.h, s.pc.succ))
  {
    var all := s.linked + s.orig;
    var j :| 0 <= j < |s.linked| && s.linked[j] == s.pc.h;
    assert all[j] == s.pc.h && NodeLaid(Settled(s), all, j) && all[j + 1] == s.pc.succ;
    if j + 1 < |s.linked| {
      assert s.linked[j + 1] == s.pc.succ;
    }
  }

  /** While a node is cut out, the node before it still ranks above it. */
  lemma {:induction false} PredecessorRank(s: State, rank: map<Id, nat>, u: Id)
    requires Shape(s) && Ranked(s, rank) && s.pc.Relinking? && s.pc.slot == NextOf(u)
    ensures Above(rank, u, s.pc.h)
  {
    var all := s.linked + s.orig;
    var j :| 0 <= j < |s.linked| && s.linked[j] == s.pc.h;
    assert all[j] == s.pc.h && NodeLaid(Settled(s), all, j);
    assert j > 0 && all[j - 1] == u;
    assert s.linked[j - 1] == u;
  }

  lemma {:induction false} WithoutIsCut(s: seq<Id>, i: nat)
    requires i < |s| && Distinct(s)
    ensures Without(s, s[i]) == s[..i] + s[i + 1..]
  {
    if i > 0 {
      WithoutIsCut(s[1..], i - 1);
      assert s[..i] + s[i + 1..] == [s[0]] + (s[1..][..i - 1] + s[1..][i..]);
    } else {
      WithoutAbsent(s[1..], s[0]);
      assert s[1..] == s[..0] + s[1..];
    }
  }

  lemma {:induction false} WithoutAbsent(s: seq<Id>, x: Id)
    requires x !in s
    ensures Without(s, x) == s
  {
    if s != [] {
      WithoutAbsent(s[1..], x);
      assert s == [s[0]] + s[1..];
    }
  }

  lemma {:induction false} DistinctCut(s: seq<Id>, i: nat)
    requires Distinct(s) && i < |s|
    ensures Distinct(s[..i] + s[i + 1..]) && s[i] !in s[..i] + s[i + 1..]
  {
    var cut := s[..i] + s[i + 1..];
    assert forall k :: 0 <= k < |cut| ==> cut[k] == s[if k < i then k else k + 1];
  }

  lemma {:induction false} FallsCut(linked: seq<Id>, i: nat, rank: map<Id, nat>)
    requires Falls(linked, rank) && i < |linked|
    ensures Falls(linked[..i] + linked[i + 1..], rank)
  {
    var cut := linked[..i] + linked[i + 1..];
    forall a, b | 0 <= a < b < |cut|
      ensures Above(rank, cut[a], cut[b])
    {
      var a0, b0 := if a < i then a else a + 1, if b < i then b else b + 1;
      assert cut[a] == linked[a0] && cut[b] == linked[b0];
    }
  }

  lemma {:induction false} ElementsCut(s: seq<Id>, i: nat)
    requires i < |s|
    ensures Elements(s) == Elements(s[..i] + s[i + 1..]) + {s[i]}
  {
    assert s == s[..i] + [s[i]] + s[i + 1..];
  }

  /** Both writes of a removal turn the layout of `all` into that of `all` without entry i. */
  lemma {:induction false} LaidCut(w: Words, all: seq<Id>, i: nat, slot: Slot)
    requires Laid(w, all) && Distinct(all) && i + 1 < |all|
    requires slot == if i == 0 then HeadFirst else NextOf(all[i - 1])
    ensures var w1 := WriteSlot(w, slot, Some(all[i + 1]));
            Laid(w1.(pprev := w1.pprev[all[i + 1] := Some(slot)][all[i] := None]), all[..i] + all[i + 1..])
  {
    var w1 := WriteSlot(w, slot, Some(all[i + 1]));
    var w' := w1.(pprev := w1.pprev[all[i + 1] := Some(slot)][all[i] := None]);
    var cut := all[..i] + all[i + 1..];
    forall k: nat | k < |cut|
      ensures NodeLaid(w', cut, k)
    {
      if k < i {
        assert NodeLaid(w, all, k) && cut[k] == all[k];
      } else {
        assert NodeLaid(w, all, k + 1) && cut[k] == all[k + 1];
      }
    }
  }

  lemma {:induction false} FixSuccKeepsShape(s: State, s': State, i: nat)
    requires Shape(s) && s.pc.Unlinked? && i < |s.linked| && s.linked[i] == s.pc.h
    requires Distinct(s.linked) && s'.linked == s.linked[..i] + s.linked[i + 1..]
    requires s' == s.(words := s.words.(pprev := s.words.pprev[s.pc.succ := Some(s.pc.slot)][s.pc.h := None]),
                      linked := s'.linked, pc := Idle)
    ensures Shape(s')
  {
    var all := s.linked + s.orig;
    assert all[i] == s.pc.h && NodeLaid(Settled(s), all, i);
    assert s'.linked + s'.orig == all[..i] + all[i + 1..];
    assert s.words == WriteSlot(Settled(s), s.pc.slot, Some(all[i + 1]));
    LaidCut(Settled(s), all, i, s.pc.slot);
    DistinctCut(all, i);
    DistinctCut(s.linked, i);
    hide Laid, Distinct;
    assert s.pc.h !in s.orig by {
      assert s.orig <= all[i + 1..][|s.linked| - i - 1..];
    }
  }

  lemma {:induction false} FixSuccKeepsInv(s: State, s': State)
    requires Shape(s) && Chained(s) && IsStep(s, FixSucc(true), s')
    ensures Shape(s') && Chained(s')
  {
    var rank: map<Id, nat> :| Ranked(s, rank);
    var i :| 0 <= i < |s.linked| && s.linked[i] == s.pc.h;
    assert Distinct(s.linked) by {
      assert forall k :: 0 <= k < |s.linked| ==> (s.linked + s.orig)[k] == s.linked[k];
    }
    hide Laid, Distinct, Falls;
    WithoutIsCut(s.linked, i);
    FixSuccKeepsShape(s, s', i);
    FallsCut(s.linked, i, rank);
    hide Shape;
    ElementsCut(s.linked, i);
    DistinctCut(s.linked, i);
    assert Occupied(s') == Occupied(s);
    forall u | u in Occupied(s')
      ensures Leads(s', rank, u)
    {
      assert Leads(s, rank, u);
    }
    assert Ranked(s', rank);
  }

  // ---- drains -------------------------------------------------------------------------

  /** A node that a new walker can reach does not lead to one that is out of the list. */
  lemma {:induction false} ReachableLeads(s: State, u: Id)
    requires Shape(s) && u in Reachable(s)
    ensures u in s.words.next && s.words.next[u].Some? && s.words.next[u].value !in s.stale
  {
    var all := s.linked + s.orig;
    if u in PublishedNode(s.pc) {
      FirstNotStale(s, Settled(s), s.pc.first);
    } else {
      var i :| 0 <= i < |s.linked| && s.linked[i] == u;
      assert all[i] == u && NodeLaid(Settled(s), all, i);
      ListNotStale(s, i + 1);
      if s.pc.Unlinked? || s.pc.Relinking? {
        var k :| 0 <= k < |s.linked| && s.linked[k] == s.pc.h;
        assert all[k] == s.pc.h && NodeLaid(Settled(s), all, k);
        ListNotStale(s, k + 1);
        assert all[k + 1] == s.pc.succ;
      }
    }
  }

  lemma {:induction false} ListNotStale(s: State, i: nat)
    requires Shape(s) && i < |s.linked + s.orig|
    ensures (s.linked + s.orig)[i] !in s.stale || (s.linked + s.orig)[i] in CutNode(s.pc)
  {
    hide Laid, PcInv;
    if i >= |s.linked| {
      assert (s.linked + s.orig)[i] in s.orig;
    }
  }

  lemma {:induction false} FirstNotStale(s: State, w: Words, first: Id)
    requires Shape(s) && w == Settled(s) && w.first == Some(first) && CutNode(s.pc) == {}
    ensures first !in s.stale
  {
    ListNotStale(s, 0);
  }

  /** Steps that move no pointer of an occupied node and let no one into a drained one. */
  lemma {:induction false} QuietKeepsDrains(s: State, s': State)
    requires DrainsOk(s) && s'.drains == s.drains && Live(s') == Live(s)
    requires Occupied(s') <= Occupied(s) && PublishedNode(s'.pc) <= PublishedNode(s.pc)
    requires s.stale - PublishedNode(s.pc) <= s'.stale
    ensures DrainsOk(s')
  {
    hide Occupied, Live;
    forall d | d in s'.drains
      ensures DrainOk(s', s'.drains[d])
    {
      assert DrainOk(s, s.drains[d]);
      forall u | u in Occupied(s') && u !in s'.drains[d]
        ensures !LeadsInto(s', u, s'.drains[d])
      {
        assert !LeadsInto(s, u, s.drains[d]);
      }
    }
  }

  /** A step that changes where one node leads, and may make nodes enterable that it forgets. */
  lemma {:induction false} MoveKeepsDrains(s: State, s': State, p: Id, gone: set<Id>)
    requires DrainsOk(s) && s'.drains == Forget(s.drains, gone)
    requires s.stale - gone <= s'.stale && PublishedNode(s'.pc) <= PublishedNode(s.pc) + gone
    requires Occupied(s') <= Occupied(s) + gone
    requires forall u :: u != p && u !in gone && u in Live(s') ==> u in Live(s) && Live(s')[u] == Live(s)[u]
    requires forall u :: (u == p || u in gone) && u in Live(s') && Live(s')[u].Some? ==>
               Live(s')[u].value !in s.stale || Live(s')[u].value in gone
    ensures DrainsOk(s')
  {
    hide Occupied, Live;
    forall d | d in s'.drains
      ensures DrainOk(s', s'.drains[d])
    {
      assert DrainOk(s, s.drains[d]);
      forall u | u in Occupied(s') && u !in s'.drains[d]
        ensures !LeadsInto(s', u, s'.drains[d])
      {
        if u != p && u !in gone {
          assert !LeadsInto(s, u, s.drains[d]);
        }
      }
    }
  }

  lemma {:induction false} ForgetNothing(drains: map<nat, set<Id>>)
    ensures Forget(drains, {}) == drains
  {
    assert forall d :: d in drains ==> drains[d] - {} == drains[d];
  }

  lemma {:induction false} ZeroKeepsDrains(s: State, h: Id, s': State)
    requires Shape(s) && DrainsOk(s) && IsStep(s, Zero(h), s')
    ensures DrainsOk(s')
  {
    FirstNotStale(s, s.words, s.words.first.value);
    ForgetNothing(s.drains);
    MoveKeepsDrains(s, s', h, {});
  }

  lemma {:induction false} PublishKeepsDrains(s: State, s': State)
    requires Shape(s) && DrainsOk(s) && IsStep(s, Publish(true), s')
    ensures DrainsOk(s')
  {
    FirstNotStale(s, s.words, s.pc.first);
    MoveKeepsDrains(s, s', s.pc.h, {s.pc.h});
  }

  lemma {:induction false} UnlinkKeepsDrains(s: State, h: Id, s': State)
    requires Shape(s) && Shape(s') && DrainsOk(s) && IsStep(s, Unlink(h, true), s')
    ensures DrainsOk(s')
  {
    var slot := s.words.pprev[h].value;
    SlotIsOurs(s, h, slot);
    ForgetNothing(s.drains);
    var p := if slot.NextOf? then slot.id else h;
    ReachableLeads(s, h);
    MoveKeepsDrains(s, s', p, {});
  }

  lemma {:induction false} RelinkKeepsDrains(s: State, s': State)
    requires Shape(s) && Shape(s') && DrainsOk(s) && IsStep(s, Relink, s')
    ensures DrainsOk(s')
  {
    var h, slot := s.pc.h, s.pc.slot;
    SlotIsOurs(s, h, slot);
    ReachableLeads(s', h);
    var p := if slot.NextOf? then slot.id else h;
    MoveKeepsDrains(s, s', p, {h});
  }

  lemma {:induction false} BeginKeepsDrains(s: State, d: nat, s': State)
    requires Shape(s) && DrainsOk(s) && IsStep(s, BeginDrain(d), s')
    ensures DrainsOk(s')
  {
    var gone := s.stale - PublishedNode(s.pc);
    forall u | u in Occupied(s') && u !in gone
      ensures !LeadsInto(s', u, gone)
    {
      ReachableLeads(s, u);
      assert s.pc.Zeroed? ==> u != s.pc.h;
    }
    hide Occupied, Live;
    forall e | e in s'.drains
      ensures DrainOk(s', s'.drains[e])
    {
      if e != d {
        assert DrainOk(s, s.drains[e]);
        assert forall u :: LeadsInto(s', u, s.drains[e]) ==> LeadsInto(s, u, s.drains[e]);
      }
    }
  }

  lemma {:induction false} EndKeepsDrains(s: State, d: nat, s': State)
    requires Shape(s) && DrainsOk(s) && IsStep(s, EndDrain(d), s')
    ensures DrainsOk(s')
  {
    var gone := s.drains[d];
    assert DrainOk(s, gone) && Live(s') == Live(s);
    EndedLeave(s, d, s');
    hide Occupied, Live, Shape;
    forall e | e in s'.drains
      ensures DrainOk(s', s'.drains[e])
    {
      assert DrainOk(s, s.drains[e]);
      forall u | u in Occupied(s') && u !in s'.drains[e]
        ensures !LeadsInto(s', u, s'.drains[e])
      {
        assert !LeadsInto(s, u, s.drains[e]);
      }
    }
  }

  /** What a drain waited for is no longer occupied when it ends; everything else still is. */
  lemma {:induction false} EndedLeave(s: State, d: nat, s': State)
    requires Shape(s) && DrainsOk(s) && IsStep(s, EndDrain(d), s')
    ensures d in s.drains && Occupied(s') == Occupied(s) - s.drains[d]
  {
    assert DrainOk(s, s.drains[d]);
  }

  lemma {:induction false} StepKeepsDrains(s: State, step: Step, s': State)
    requires Shape(s) && Shape(s') && DrainsOk(s) && IsStep(s, step, s')
    ensures DrainsOk(s')
  {
    match step
    case Zero(h) => ZeroKeepsDrains(s, h, s');
    case Publish(ok) => if ok { PublishKeepsDrains(s, s'); } else { QuietKeepsDrains(s, s'); }
    case Unlink(h, ok) => if ok { UnlinkKeepsDrains(s, h, s'); } else { QuietKeepsDrains(s, s'); }
    case Relink => RelinkKeepsDrains(s, s');
    case BeginDrain(d) => BeginKeepsDrains(s, d, s');
    case EndDrain(d) => EndKeepsDrains(s, d, s');
    case FixSucc(ok) => FixSuccOccupied(s, ok, s'); QuietKeepsDrains(s, s');
    case _ => QuietKeepsDrains(s, s');
  }

  lemma {:induction false} FixSuccOccupied(s: State, ok: bool, s': State)
    requires Shape(s) && IsStep(s, FixSucc(ok), s')
    ensures Occupied(s') == Occupied(s)
  {
    if ok {
      var i :| 0 <= i < |s.linked| && s.linked[i] == s.pc.h;
      LinkedDistinct(s);
      WithoutIsCut(s.linked, i);
      ElementsCut(s.linked, i);
      DistinctCut(s.linked, i);
    }
  }

  lemma {:induction false} LinkedDistinct(s: State)
    requires Shape(s)
    ensures Distinct(s.linked)
  {
    assert forall k :: 0 <= k < |s.linked| ==> (s.linked + s.orig)[k] == s.linked[k];
  }

  /** No write and no drain, of any thread, breaks the invariant. */
  lemma {:induction false} StepKeepsInv(s: State, step: Step, s': State)
    requires Inv(s) && IsStep(s, step, s')
    ensures Inv(s')
  {
    hide Shape, Chained, DrainsOk, IsStep;
    match step {
      case Zero(h) => ZeroKeepsInv(s, h, s');
      case Publish(ok) => if ok { PublishKeepsInv(s, s'); } else { QuietWriteKeepsInv(s, step, s'); }
      case FixBack(ok) => if ok { FixBackKeepsInv(s, s'); } else { QuietWriteKeepsInv(s, step, s'); }
      case Unlink(h, ok) => if ok { UnlinkKeepsInv(s, h, s'); } else { QuietWriteKeepsInv(s, step, s'); }
      case FixSucc(ok) => if ok { FixSuccKeepsInv(s, s'); } else { QuietWriteKeepsInv(s, step, s'); }
      case RollBack => RollBackKeepsInv(s, s');
      case Relink => RelinkKeepsInv(s, s');
      case BeginDrain(d) => BeginDrainKeepsInv(s, d, s');
      case EndDrain(d) => EndDrainKeepsInv(s, d, s');
      case _ => QuietWriteKeepsInv(s, step, s');
    }
    StepKeepsDrains(s, step, s');
  }

  // ---- whole runs -----------------------------------------------------------------------

  lemma {:induction false} RunKeepsInv(states: seq<State>, steps: seq<Step>, i: nat)
    requires IsRun(states, steps) && i < |states|
    ensures Inv(states[i]) && states[i].orig == states[0].orig
  {
    if i == 0 {
      InitialInv(states[0]);
    } else {
      RunKeepsInv(states, steps, i - 1);
      StepKeepsInv(states[i - 1], steps[i - 1], states[i]);
      OrigFixed(states[i - 1], steps[i - 1], states[i]);
    }
  }

  lemma {:induction false} ExtendRun(states: seq<State>, steps: seq<Step>, step: Step, s: State)
    requires IsRun(states, steps) && IsStep(states[|steps|], step, s)
    ensures IsRun(states + [s], steps + [step])
  {
    hide Initial, IsStep;
    var states', steps' := states + [s], steps + [step];
    forall i {:trigger steps'[i]} | 0 <= i < |steps'|
      ensures IsStep(states'[i], steps'[i], states'[i + 1])
    {
      assert i < |steps| ==> steps'[i] == steps[i];
    }
  }

  lemma {:induction false} OrigFixed(s: State, step: Step, s': State)
    requires IsStep(s, step, s')
    ensures s'.orig == s.orig
  {
  }

  /** A walker inside a cleared node ends its walk there. */
  lemma {:induction false} ClearedNodeLosesWalkers(w: Words, h: Id, orig: seq<Id>)
    requires h in w.next && w.next[h].None? && orig != [] && h !in orig
    ensures !SafeFrom(w, Some(h), orig)
  {
    forall ours: seq<Id>
      ensures !VisitsOursThen(w, Some(h), ours, orig)
    {
      var path := ours + orig;
      assert path[|path| - 1] == orig[|orig| - 1] != h;
      assert |path| > 1 ==> !Visits(w, None, path[1..]);
    }
  }

  /** After every single write of every run of insertions and removals, failed and rolled-back
      ones included, no walker misses a registered entry, except exactly while a node is being
      cleared for reuse that was unlinked and not yet drained. */
  lemma {:induction false} WalkersSafeIff(states: seq<State>, steps: seq<Step>, i: nat)
    requires IsRun(states, steps) && i < |states|
    ensures WalkersSafe(states[i]) <==> !ClearsOccupied(states[i])
  {
    RunKeepsInv(states, steps, i);
    var s := states[i];
    if ClearsOccupied(s) {
      ClearedNodeLosesWalkers(s.words, s.pc.h, s.orig);
      assert s.pc.h in Occupied(s);
    } else {
      InvSafe(s);
    }
  }

  /** Between operations the list is properly laid out, back pointers included; so once all our
      nodes are out, in whatever order, every word of the registered list is as it was. */
  lemma {:induction false} ListRestored(states: seq<State>, steps: seq<Step>, i: nat)
    requires IsRun(states, steps) && i < |states| && states[i].pc.Idle?
    ensures Laid(states[i].words, states[i].linked + states[0].orig)
    ensures states[i].linked == [] ==>
              && states[i].words.first == states[0].words.first
              && forall x :: x in states[0].orig ==>
                   && x in states[i].words.next && x in states[0].words.next
                   && x in states[i].words.pprev && x in states[0].words.pprev
                   && states[i].words.next[x] == states[0].words.next[x]
                   && states[i].words.pprev[x] == states[0].words.pprev[x]
  {
    RunKeepsInv(states, steps, i);
    var w, w0, orig := states[i].words, states[0].words, states[0].orig;
    if states[i].linked == [] {
      assert states[i].linked + orig == orig;
      forall x | x in orig
        ensures x in w.next && x in w0.next && x in w.pprev && x in w0.pprev
                && w.next[x] == w0.next[x] && w.pprev[x] == w0.pprev[x]
      {
        var k :| 0 <= k < |orig| && orig[k] == x;
        assert NodeLaid(w, orig, k) && NodeLaid(w0, orig, k);
      }
    }
  }

  /** Any of our linked nodes can be taken out at any time between operations: the check that
      its back pointer points at it does not refuse. */
  lemma {:induction false} RemovalNotRefused(states: seq<State>, steps: seq<Step>, i: nat, h: Id, ok: bool)
    requires IsRun(states, steps) && i < |states| && states[i].pc.Idle? && h in states[i].linked
    ensures Next(states[i], Unlink(h, ok)).Some?
  {
    RunKeepsInv(states, steps, i);
    var s := states[i];
    var all := s.linked + s.orig;
    var k :| 0 <= k < |s.linked| && s.linked[k] == h;
    assert all[k] == h && NodeLaid(s.words, all, k);
    if k > 0 {
      assert NodeLaid(s.words, all, k - 1);
    }
  }

  /** The exception happens, on every list and for every node of ours: an insertion whose second
      write failed and was rolled back, tried again before a drain. */
  lemma {:induction false} RetryWithoutDrainIsUnsafe(s0: State, h: Id) returns (states: seq<State>, steps: seq<Step>)
    requires Initial(s0) && h !in s0.orig
    ensures IsRun(states, steps) && states[0] == s0
    ensures steps == [Zero(h), Fill, Publish(true), FixBack(false), RollBack, Zero(h)]
    ensures !WalkersSafe(states[6])
  {
    var s1 := Next(s0, Zero(h)).value;
    var s2 := Next(s1, Fill).value;
    var s3 := Next(s2, Publish(true)).value;
    var s4 := Next(s3, FixBack(false)).value;
    var s5 := Next(s4, RollBack).value;
    var s6 := Next(s5, Zero(h)).value;
    states := [s0, s1, s2, s3, s4, s5, s6];
    steps := [Zero(h), Fill, Publish(true), FixBack(false), RollBack, Zero(h)];
    assert IsRun(states, steps);
    assert ClearsOccupied(s6);
    WalkersSafeIff(states, steps, 6);
  }

  /** From state n on no node is being cleared. */
  ghost predicate Quiet(states: seq<State>, n: nat) {
    forall i :: n <= i < |states| ==> !states[i].pc.Zeroed?
  }

  ghost predicate AllSafe(states: seq<State>, n: nat) {
    forall i :: n <= i < |states| ==> WalkersSafe(states[i])
  }

  lemma {:induction false} QuietIsSafe(states: seq<State>, steps: seq<Step>, n: nat)
    requires IsRun(states, steps) && Quiet(states, n)
    ensures AllSafe(states, n)
  {
    hide WalkersSafe;
    forall i | n <= i < |states|
      ensures WalkersSafe(states[i])
    {
      WalkersSafeIff(states, steps, i);
    }
  }

  /** A stretch of a run that begins with the clearing of h is safe exactly if h was not stale. */
  lemma {:induction false} ClearingIsSafeIff(states: seq<State>, steps: seq<Step>, n: nat, h: Id)
    requires IsRun(states, steps) && n < |states| && states[n].pc == Zeroed(h) && Quiet(states, n + 1)
    ensures AllSafe(states, n) <==> h !in states[n].stale
  {
    hide WalkersSafe;
    WalkersSafeIff(states, steps, n);
    QuietIsSafe(states, steps, n + 1);
  }

  lemma {:induction false} LinkedNotDrained(s: State, h: Id)
    requires Inv(s) && s.pc.Idle? && h in s.linked
    ensures h !in s.stale && Forget(s.drains, {h}) == s.drains && s.stale + {h} - {h} == s.stale
  {
    forall d | d in s.drains
      ensures s.drains[d] - {h} == s.drains[d]
    {
      assert DrainOk(s, s.drains[d]);
    }
  }
}

/** The two list operations on the words themselves. Every store is logged as a step of the
    model, so that whatever holds after every step of every run holds between any two stores. */
module LsmHook {
  import opened Bytes
  import opened LsmHookModel

  const EAGAIN: int := -11
  const EINVAL: int := -22
  const EFAULT: int := -14

  class HookList {
    var first: Option<Id>
    var next: map<Id, Option<Id>>
    var pprev: map<Id, Option<Slot>>
    ghost var orig: seq<Id>
    ghost var linked: seq<Id>
    ghost var stale: set<Id>
    ghost var drains: map<nat, set<Id>>
    ghost var pc: Pc
    ghost var states: seq<State>
    ghost var steps: seq<Step>

    ghost function View(): State
      reads this
    {
      State(Words(first, next, pprev), orig, linked, stale, drains, pc)
    }

    ghost predicate Valid()
      reads this
    {
      IsRun(states, steps) && states[|steps|] == View()
    }

    constructor (first: Option<Id>, next: map<Id, Option<Id>>, pprev: map<Id, Option<Slot>>, ghost orig: seq<Id>)
      requires Initial(State(Words(first, next, pprev), orig, [], {}, map[], Idle))
      ensures Valid() && pc.Idle? && linked == [] && stale == {} && this.orig == orig
    {
      this.first, this.next, this.pprev := first, next, pprev;
      this.orig, linked, stale, drains, pc := orig, [], {}, map[], Idle;
      states, steps := [State(Words(first, next, pprev), orig, [], {}, map[], Idle)], [];
    }

    /** Record that the fields have just changed as `step` says. */
    ghost method Log(step: Step, before: State)
      requires IsRun(states, steps) && states[|steps|] == before && IsStep(before, step, View())
      modifies this`states, this`steps
      ensures Valid() && states == old(states) + [View()] && steps == old(steps) + [step]
    {
      ExtendRun(states, steps, step, View());
      states, steps := states + [View()], steps + [step];
    }

    /** What no operation on the list changes, and the log only grows. */
    twostate predicate Continues()
      reads this
    {
      Valid() && orig == old(orig) && old(states) <= states
    }

    /** One more write is logged. */
    twostate predicate OneMore()
      reads this
    {
      Continues() && states == old(states) + [View()]
    }

    /** From the call until now no walker could miss an entry, whichever word it read when. */
    twostate predicate SafeThroughout()
      reads this
    {
      AllSafe(states, |old(states)|)
    }

    /** Prepare our own node, which is not in the list. */
    method SetUp(h: Id, was: Id)
      requires Valid() && pc.Idle? && h !in orig && h !in linked && first == Some(was)
      modifies this
      ensures Continues() && pc == Filled(h, was) && linked == old(linked) && stale == old(stale)
      ensures states[..|old(states)|] == old(states) && |states| == |old(states)| + 2 && states[|old(states)| + 1] == View()
      ensures states[|old(states)|].pc == Zeroed(h) && states[|old(states)|].stale == old(stale)
    {
      hide IsRun;
      ghost var s := View();
      next, pprev := next[h := None], pprev[h := None];
      pc := Zeroed(h);
      Log(Zero(h), s);
      s := View();
      next, pprev := next[h := Some(was)], pprev[h := Some(HeadFirst)];
      pc := Filled(h, was);
      Log(Fill, s);
    }

    method TryPublish(h: Id, was: Id, patched: bool)
      requires Valid() && pc == Filled(h, was)
      modifies this
      ensures OneMore() && linked == old(linked) && stale == old(stale)
      ensures pc == if patched then Published(h, was) else Idle
    {
      hide IsRun;
      ghost var s := View();
      if patched {
        first := Some(h);
        drains := Forget(drains, {h});
      }
      pc := if patched then Published(h, was) else Idle;
      Log(Publish(patched), s);
    }

    method TryFixBack(h: Id, was: Id, patched: bool)
      requires Valid() && pc == Published(h, was)
      modifies this
      ensures OneMore()
      ensures patched ==> pc.Idle? && linked == [h] + old(linked) && stale == old(stale) - {h}
      ensures !patched ==> pc == Backing(h, was) && linked == old(linked) && stale == old(stale)
    {
      hide IsRun;
      ghost var s := View();
      if patched {
        pprev := pprev[was := Some(NextOf(h))];
        linked, stale, pc := [h] + linked, stale - {h}, Idle;
      } else {
        pc := Backing(h, was);
      }
      Log(FixBack(patched), s);
    }

    method UndoPublish(h: Id, was: Id)
      requires Valid() && pc == Backing(h, was)
      modifies this
      ensures OneMore() && pc.Idle? && linked == old(linked) && stale == old(stale) + {h}
    {
      hide IsRun;
      ghost var s := View();
      first, pprev := Some(was), pprev[h := None];
      stale, pc := stale + {h}, Idle;
      Log(RollBack, s);
    }

    /** The writes of an insertion, the clearing of the node first. */
    method InsertWrites(h: Id, was: Id, published: bool, fixed: bool)
      requires Valid() && pc.Idle? && h !in orig && h !in linked && first == Some(was)
      modifies this
      ensures Continues() && pc.Idle?
      ensures published && fixed ==> linked == [h] + old(linked) && stale == old(stale) - {h}
      ensures !(published && fixed) ==> linked == old(linked) && stale == if published then old(stale) + {h} else old(stale)
      ensures |old(states)| < |states| && states[|old(states)|].pc == Zeroed(h) && states[|old(states)|].stale == old(stale)
      ensures Quiet(states, |old(states)| + 1)
    {
      hide IsRun;
      SetUp(h, was);
      TryPublish(h, was, published);
      if published {
        TryFixBack(h, was, fixed);
        if !fixed {
          UndoPublish(h, was);
        }
      }
    }

    /** ksu_lsm_hook_insert_head. `published` and `fixed` say whether the two patched writes
        succeed; the node is in the list exactly when both do. No walker can miss an entry at any
        moment of the call exactly if the node is not stale when it begins. */
    method InsertHead(h: Id, published: bool, fixed: bool) returns (ret: int)
      requires Valid() && pc.Idle? && h !in orig && h !in linked
      modifies this
      ensures Continues() && pc.Idle?
      ensures ret == 0 <==> published && fixed
      ensures ret == 0 ==> linked == [h] + old(linked) && stale == old(stale) - {h}
      ensures ret != 0 ==> linked == old(linked) && stale == if published then old(stale) + {h} else old(stale)
      ensures SafeThroughout() <==> h !in old(stale)
    {
      RunKeepsInv(states, steps, |steps|);
      FirstLeadsOn(View());
      hide IsRun, AllSafe, Quiet, Inv;
      if first.None? {
        return EAGAIN;
      }
      InsertWrites(h, first.value, published, fixed);
      ClearingIsSafeIff(states, steps, |old(states)|, h);
      ret := if published && fixed then 0 else EFAULT;
    }

    /** The word a back pointer names. */
    method Load(slot: Slot) returns (value: Option<Id>)
      ensures value == ReadSlot(View().words, slot)
    {
      match slot
      case HeadFirst => value := first;
      case NextOf(id) => value := if id in next then next[id] else None;
    }

    method Store(slot: Slot, value: Option<Id>)
      modifies this`first, this`next
      ensures View() == old(View()).(words := WriteSlot(old(View()).words, slot, value))
    {
      match slot
      case HeadFirst => first := value;
      case NextOf(id) => next := next[id := value];
    }

    method TryUnlink(h: Id, slot: Slot, succ: Id, patched: bool)
      requires Valid() && pc.Idle? && h in linked && Next(View(), Unlink(h, true)).Some?
      requires pprev[h] == Some(slot) && next[h] == Some(succ)
      modifies this
      ensures OneMore() && linked == old(linked) && drains == old(drains) && pprev == old(pprev)
      ensures stale == if patched then old(stale) + {h} else old(stale)
      ensures pc == if patched then Unlinked(h, slot, succ) else Idle
      ensures View().words == if patched then WriteSlot(old(View()).words, slot, Some(succ)) else old(View()).words
    {
      hide IsRun;
      ghost var s := View();
      if patched {
        Store(slot, Some(succ));
        stale, pc := stale + {h}, Unlinked(h, slot, succ);
      }
      Log(Unlink(h, patched), s);
    }

    method TryFixSucc(h: Id, slot: Slot, succ: Id, patched: bool)
      requires Valid() && pc == Unlinked(h, slot, succ)
      modifies this
      ensures OneMore()
      ensures patched ==> pc.Idle? && linked == Without(old(linked), h) && stale == old(stale) && drains == old(drains)
      ensures !patched ==> View() == old(View()).(pc := Relinking(h, slot, succ))
    {
      hide IsRun;
      ghost var s := View();
      if patched {
        pprev := pprev[succ := Some(slot)][h := None];
        linked, pc := Without(linked, h), Idle;
      } else {
        pc := Relinking(h, slot, succ);
      }
      Log(FixSucc(patched), s);
    }

    method UndoUnlink(h: Id, slot: Slot, succ: Id)
      requires Valid() && pc == Relinking(h, slot, succ)
      modifies this
      ensures OneMore()
      ensures View() == old(View()).(pc := Idle, words := WriteSlot(old(View()).words, slot, Some(h)),
                                     stale := old(stale) - {h}, drains := Forget(old(drains), {h}))
    {
      hide IsRun;
      ghost var s := View();
      Store(slot, Some(h));
      stale, drains, pc := stale - {h}, Forget(drains, {h}), Idle;
      Log(Relink, s);
    }

    /** The writes of a removal; undone, they leave everything as it was. */
    method RemoveWrites(h: Id, slot: Slot, succ: Id, cut: bool, fixed: bool)
      requires Valid() && pc.Idle? && h in linked && Next(View(), Unlink(h, true)).Some?
      requires pprev[h] == Some(slot) && next[h] == Some(succ) && ReadSlot(View().words, slot) == Some(h)
      requires h !in stale && Forget(drains, {h}) == drains
      modifies this
      ensures Continues() && pc.Idle? && Quiet(states, |old(states)|)
      ensures cut && fixed ==> linked == Without(old(linked), h) && stale == old(stale) + {h} && drains == old(drains)
      ensures !(cut && fixed) ==> View() == old(View())
    {
      hide IsRun, IsStep, Next;
      ghost var w := View().words;
      TryUnlink(h, slot, succ, cut);
      if cut {
        TryFixSucc(h, slot, succ, fixed);
        if !fixed {
          UndoUnlink(h, slot, succ);
          assert slot.NextOf? ==> w.next == w.next[slot.id := Some(succ)][slot.id := Some(h)];
        }
      }
    }

    /** ksu_lsm_hook_remove_head. `cut` and `fixed` say whether the two patched writes succeed. No
        walker can miss an entry at any moment of the call. */
    method RemoveHead(h: Id, cut: bool, fixed: bool) returns (ret: int)
      requires Valid() && pc.Idle? && h in linked
      modifies this
      ensures Continues() && pc.Idle? && SafeThroughout()
      ensures ret == 0 <==> cut && fixed
      ensures ret == 0 ==> linked == Without(old(linked), h) && stale == old(stale) + {h} && drains == old(drains)
      ensures ret != 0 ==> View() == old(View())
    {
      RemovalNotRefused(states, steps, |steps|, h, true);
      RunKeepsInv(states, steps, |steps|);
      LinkedNotDrained(View(), h);
      hide Inv, IsRun, AllSafe, Quiet;
      if h !in pprev || pprev[h].None? {
        return EINVAL;
      }
      var target := Load(pprev[h].value);
      if target != Some(h) {
        return EINVAL;
      }
      RemoveWrites(h, pprev[h].value, next[h].value, cut, fixed);
      QuietIsSafe(states, steps, |old(states)|);
      ret := if cut && fixed then 0 else EFAULT;
    }

    /** Some thread begins to wait, with or without the lock held by another. */
    ghost method DrainBegins(d: nat)
      requires Valid() && d !in drains
      modifies this
      ensures OneMore() && View() == old(View()).(drains := old(drains)[d := stale - PublishedNode(pc)])
    {
      hide IsRun;
      ghost var s := View();
      drains := drains[d := stale - PublishedNode(pc)];
      Log(BeginDrain(d), s);
    }

    /** A drain ends: the nodes it counts can be taken again; those that left the list since cannot. */
    ghost method DrainEnds(d: nat)
      requires Valid() && d in drains
      modifies this
      ensures OneMore() && pc == old(pc) && linked == old(linked) && stale == old(stale) - old(drains)[d]
    {
      hide IsRun;
      ghost var s := View();
      stale, drains := stale - drains[d], Forget(drains - {d}, drains[d]);
      Log(EndDrain(d), s);
    }

    /** ksu_lsm_unhook of a node: once it is out, a drain begins that counts it and every other node
        that is out by then, and the call returns when that drain has ended: no node that was out when
        it began is stale any more. Here nothing else runs while it waits. */
    method Unhook(h: Id, cut: bool, fixed: bool, ghost d: nat)
      requires Valid() && pc.Idle? && h in linked && d !in drains
      modifies this
      ensures Continues() && pc.Idle?
      ensures cut && fixed ==> linked == Without(old(linked), h) && stale == {}
      ensures !(cut && fixed) ==> View() == old(View())
    {
      hide IsRun, AllSafe;
      var ret := RemoveHead(h, cut, fixed);
      if ret != 0 {
        return;
      }
      DrainBegins(d);
      DrainEnds(d);
    }
  }
}
