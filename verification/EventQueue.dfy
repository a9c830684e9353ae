/** The bounded event queue of kernel/infra/event_queue.c as a state machine whose
    steps are the spin-locked regions.

    A producer step is one locked region of push, drop or close. The single reader
    (read_lock is held for a whole read) gives the spin lock up while it copies to user
    space, so its work is cut into the locked regions before and after each copy, and
    producer steps may run between them. */
module EventQueueModel {
  import opened Bytes

  const EFAULT: int := -14
  const ENOMEM: int := -12
  const EINVAL: int := -22
  const ENOSPC: int := -28
  const EPIPE: int := -32
  const EMSGSIZE: int := -90

  // sizeof(struct ksu_event_record_hdr) and sizeof(struct ksu_event_queue_dropped_info)
  const HDR_SIZE: nat := 24
  const DROP_INFO_SIZE: nat := 24

  datatype Node = Node(seqno: nat, kind: nat, flags: nat, payload: ByteSeq, ts: nat)

  datatype Report = Report(count: nat, first: nat, last: nat)

  /** What a read hands to user space. */
  datatype Record = Data(node: Node) | Dropped(report: Report)

  function RecordSize(r: Record): (size: nat)
    ensures size >= HDR_SIZE
  {
    match r
    case Data(node) => HDR_SIZE + |node.payload|
    case Dropped(_) => HDR_SIZE + DROP_INFO_SIZE
  }

  /** What became of a sequence number when it was issued; entry i is number i + 1. */
  datatype Fate = Queued(node: Node) | Lost

  /** Where the reader is between two of its locked regions. */
  datatype Phase = Idle | CopyingReport | CopyingNode(node: Node)

  /** The fields of struct ksu_event_queue, then the reader's position and two histories:
      every number issued so far, and every record handed out so far. */
  datatype State = State(
    pending: seq<Node>, queued: nat, maxQueued: nat, maxPayload: nat, nextSeq: nat,
    droppedTotal: nat, droppedPending: nat, droppedFirst: nat, droppedLast: nat,
    inflight: nat, inflightFirst: nat, inflightLast: nat, closed: bool,
    phase: Phase, issued: seq<Fate>, records: seq<Record>)

  function Init(maxQueued: nat, maxPayload: nat): State {
    State([], 0, maxQueued, maxPayload, 1, 0, 0, 0, 0, 0, 0, 0, false, Idle, [], [])
  }

  // ---- the locked regions -----------------------------------------------------------

  function NoteDrop(s: State): State {
    s.(nextSeq := s.nextSeq + 1,
       droppedTotal := s.droppedTotal + 1,
       droppedFirst := if s.droppedPending == 0 then s.nextSeq else s.droppedFirst,
       droppedPending := s.droppedPending + 1,
       droppedLast := s.nextSeq,
       issued := s.issued + [Lost])
  }

  function Enqueue(s: State, kind: nat, flags: nat, payload: ByteSeq, ts: nat): State {
    var node := Node(s.nextSeq, kind, flags, payload, ts);
    s.(nextSeq := s.nextSeq + 1, pending := s.pending + [node], queued := s.queued + 1,
       issued := s.issued + [Queued(node)])
  }

  /** push; `payload` is None for a null pointer, `gotNode` says whether kmalloc gave a node. */
  function Push(s: State, kind: nat, flags: nat, payload: Option<ByteSeq>, len: nat,
                gotNode: bool, ts: nat): (State, int)
    requires payload.Some? ==> |payload.value| == len
  {
    if len > s.maxPayload then (s, EMSGSIZE)
    else if len > 0 && payload.None? then (s, EINVAL)
    else if s.closed then (s, EPIPE)
    else if !gotNode then (NoteDrop(s), ENOMEM)
    else if s.maxQueued > 0 && s.queued >= s.maxQueued then (NoteDrop(s), ENOSPC)
    else (Enqueue(s, kind, flags, if payload.Some? then payload.value else [], ts), 0)
  }

  function Drop(s: State): State {
    if s.closed then s else NoteDrop(s)
  }

  function SnapshotReport(s: State): State {
    s.(inflight := s.droppedPending, inflightFirst := s.droppedFirst, inflightLast := s.droppedLast,
       droppedPending := 0, droppedFirst := 0, droppedLast := 0, phase := CopyingReport)
  }

  function CommitReport(s: State): State {
    s.(inflight := 0, inflightFirst := 0, inflightLast := 0, phase := Idle,
       records := s.records + [Dropped(Report(s.inflight, s.inflightFirst, s.inflightLast))])
  }

  function RestoreReport(s: State): State {
    s.(droppedPending := s.droppedPending + s.inflight,
       droppedFirst := s.inflightFirst,
       droppedLast := if s.droppedPending == 0 then s.inflightLast else s.droppedLast,
       inflight := 0, inflightFirst := 0, inflightLast := 0, phase := Idle)
  }

  function CommitNode(s: State): State
    requires s.phase.CopyingNode? && s.pending != [] && s.queued > 0
  {
    s.(pending := s.pending[1..], queued := s.queued - 1, phase := Idle,
       records := s.records + [Data(s.phase.node)])
  }

  /** One locked region of any thread. */
  datatype Step =
    | DoPush(kind: nat, flags: nat, payload: Option<ByteSeq>, len: nat, gotNode: bool, ts: nat)
    | DoDrop
    | DoClose
    | DoSnapshot(count: nat)
    | DoCommitReport
    | DoRestoreReport
    | DoPeek(count: nat)
    | DoCommitNode
    | DoFaultNode

  predicate ProducerStep(step: Step) {
    step.DoPush? || step.DoDrop? || step.DoClose?
  }

  /** The state after a step, or None where the code cannot take that step. */
  function Next(s: State, step: Step): Option<State> {
    match step
    case DoPush(kind, flags, payload, len, gotNode, ts) =>
      if payload.Some? && |payload.value| != len then None
      else Some(Push(s, kind, flags, payload, len, gotNode, ts).0)
    case DoDrop => Some(Drop(s))
    case DoClose => Some(s.(closed := true))
    case DoSnapshot(count) =>
      if !s.phase.Idle? || s.droppedPending == 0 || count < HDR_SIZE + DROP_INFO_SIZE then None
      else Some(SnapshotReport(s))
    case DoCommitReport => if s.phase.CopyingReport? then Some(CommitReport(s)) else None
    case DoRestoreReport => if s.phase.CopyingReport? then Some(RestoreReport(s)) else None
    case DoPeek(count) =>
      if !s.phase.Idle? || s.pending == [] || count < RecordSize(Data(s.pending[0])) then None
      else Some(s.(phase := CopyingNode(s.pending[0])))
    case DoCommitNode =>
      // list_del and queued-- are applied to whatever the list holds: their safety is part of Inv
      if s.phase.CopyingNode? && s.pending != [] && s.queued > 0 then Some(CommitNode(s)) else None
    case DoFaultNode => if s.phase.CopyingNode? then Some(s.(phase := Idle)) else None
  }

  ghost predicate IsStep(s: State, step: Step, s': State) {
    Next(s, step) == Some(s')
  }

  /** A run: the states a queue goes through under some interleaving of locked regions. */
  ghost predicate IsRun(states: seq<State>, steps: seq<Step>) {
    && |states| == |steps| + 1
    && forall i {:trigger steps[i]} :: 0 <= i < |steps| ==> IsStep(states[i], steps[i], states[i + 1])
  }

  ghost predicate Initial(s: State) {
    s == Init(s.maxQueued, s.maxPayload)
  }

  ghost predicate RunEndsIn(states: seq<State>, steps: seq<Step>, s: State) {
    IsRun(states, steps) && Initial(states[0]) && s == states[|steps|]
  }

  ghost predicate Reachable(s: State) {
    exists states: seq<State>, steps: seq<Step> :: RunEndsIn(states, steps, s)
  }

  // ---- what the histories say -------------------------------------------------------

  ghost function QueuedOf(f: seq<Fate>): seq<Node> {
    if f == [] then []
    else QueuedOf(f[..|f| - 1]) + (match f[|f| - 1] case Queued(n) => [n] case Lost => [])
  }

  ghost function LostOf(f: seq<Fate>): seq<nat> {
    if f == [] then []
    else LostOf(f[..|f| - 1]) + (if f[|f| - 1].Lost? then [|f|] else [])
  }

  ghost function DataOf(r: seq<Record>): seq<Node> {
    if r == [] then []
    else DataOf(r[..|r| - 1]) + (match r[|r| - 1] case Data(n) => [n] case Dropped(_) => [])
  }

  ghost function ReportsOf(r: seq<Record>): seq<Report> {
    if r == [] then []
    else ReportsOf(r[..|r| - 1]) + (match r[|r| - 1] case Data(_) => [] case Dropped(d) => [d])
  }

  ghost function CountSum(reports: seq<Report>): nat {
    if reports == [] then 0 else CountSum(reports[..|reports| - 1]) + reports[|reports| - 1].count
  }

  /** A (count, first, last) triple describes exactly the numbers in `lost`. */
  ghost predicate Describes(count: nat, first: nat, last: nat, lost: seq<nat>) {
    && count == |lost|
    && (lost != [] ==> first == lost[0] && last == lost[|lost| - 1])
    && (lost == [] ==> first == 0 && last == 0)
  }

  /** The reports, in order, cut `lost` into consecutive non-empty pieces. */
  ghost predicate ReportsCut(reports: seq<Report>, lost: seq<nat>) {
    if reports == [] then lost == []
    else
      var r := reports[|reports| - 1];
      && 0 < r.count <= |lost|
      && Describes(r.count, r.first, r.last, lost[|lost| - r.count..])
      && ReportsCut(reports[..|reports| - 1], lost[..|lost| - r.count])
  }

  ghost predicate Numbered(f: seq<Fate>) {
    forall i :: 0 <= i < |f| && f[i].Queued? ==> f[i].node.seqno == i + 1
  }

  ghost predicate DropsAccounted(s: State) {
    var lost := LostOf(s.issued);
    var reported := CountSum(ReportsOf(s.records));
    && s.droppedTotal == |lost| == reported + s.inflight + s.droppedPending
    && ReportsCut(ReportsOf(s.records), lost[..reported])
    && Describes(s.inflight, s.inflightFirst, s.inflightLast, lost[reported..reported + s.inflight])
    && Describes(s.droppedPending, s.droppedFirst, s.droppedLast, lost[reported + s.inflight..])
  }

  ghost predicate Inv(s: State) {
    && s.nextSeq == |s.issued| + 1
    && Numbered(s.issued)
    && DataOf(s.records) + s.pending == QueuedOf(s.issued)
    && s.queued == |s.pending|
    && (s.maxQueued > 0 ==> s.queued <= s.maxQueued)
    && DropsAccounted(s)
    && (s.phase.CopyingReport? <==> s.inflight > 0)
    && (s.phase.CopyingNode? ==> s.pending != [] && s.pending[0] == s.phase.node)
  }

  // ---- every step keeps the invariant -----------------------------------------------

  lemma {:induction false} HistoryAppend(f: seq<Fate>, x: Fate)
    ensures x.Queued? ==> QueuedOf(f + [x]) == QueuedOf(f) + [x.node] && LostOf(f + [x]) == LostOf(f)
    ensures x.Lost? ==> QueuedOf(f + [x]) == QueuedOf(f) && LostOf(f + [x]) == LostOf(f) + [|f| + 1]
  {
    assert (f + [x])[..|f|] == f;
  }

  lemma {:induction false} RecordsAppend(r: seq<Record>, x: Record)
    ensures x.Data? ==> DataOf(r + [x]) == DataOf(r) + [x.node] && ReportsOf(r + [x]) == ReportsOf(r)
    ensures x.Dropped? ==> DataOf(r + [x]) == DataOf(r) && ReportsOf(r + [x]) == ReportsOf(r) + [x.report]
  {
    assert (r + [x])[..|r|] == r;
  }

  lemma {:induction false} NoteDropKeepsInv(s: State)
    requires Inv(s)
    ensures Inv(NoteDrop(s))
  {
    hide LostOf, QueuedOf, DataOf, ReportsOf, CountSum, ReportsCut;
    HistoryAppend(s.issued, Lost);
    var lost, lost' := LostOf(s.issued), LostOf(NoteDrop(s).issued);
    var a := CountSum(ReportsOf(s.records));
    var b := a + s.inflight;
    assert lost'[..a] == lost[..a] && lost'[a..b] == lost[a..b] && lost'[b..] == lost[b..] + [s.nextSeq];
  }

  lemma {:induction false} EnqueueKeepsInv(s: State, kind: nat, flags: nat, payload: ByteSeq, ts: nat)
    requires Inv(s) && (s.maxQueued > 0 ==> s.queued < s.maxQueued)
    ensures Inv(Enqueue(s, kind, flags, payload, ts))
  {
    hide LostOf, QueuedOf, DataOf, ReportsOf, CountSum, ReportsCut;
    var node := Node(s.nextSeq, kind, flags, payload, ts);
    HistoryAppend(s.issued, Queued(node));
    assert DataOf(s.records) + (s.pending + [node]) == (DataOf(s.records) + s.pending) + [node];
  }

  lemma {:induction false} SnapshotKeepsInv(s: State)
    requires Inv(s) && s.phase.Idle? && s.droppedPending > 0
    ensures Inv(SnapshotReport(s))
  {
    hide LostOf, QueuedOf, DataOf, ReportsOf, CountSum, ReportsCut;
    var lost := LostOf(s.issued);
    var a := CountSum(ReportsOf(s.records));
    assert lost[a..a + s.droppedPending] == lost[a..];
    assert lost[a + s.droppedPending..] == [];
  }

  lemma {:induction false} ReportsCutAppend(reports: seq<Report>, d: Report, lost: seq<nat>, a: nat)
    requires a + d.count <= |lost| && d.count > 0 && ReportsCut(reports, lost[..a])
    requires Describes(d.count, d.first, d.last, lost[a..a + d.count])
    ensures ReportsCut(reports + [d], lost[..a + d.count])
    ensures CountSum(reports + [d]) == CountSum(reports) + d.count
  {
    var piece := lost[..a + d.count];
    assert (reports + [d])[..|reports|] == reports;
    assert piece[..a] == lost[..a] && piece[a..] == lost[a..a + d.count];
  }

  lemma {:induction false} CommitReportKeepsInv(s: State)
    requires Inv(s) && s.phase.CopyingReport?
    ensures Inv(CommitReport(s))
  {
    hide LostOf, QueuedOf, DataOf, ReportsOf, CountSum, ReportsCut;
    var d := Report(s.inflight, s.inflightFirst, s.inflightLast);
    RecordsAppend(s.records, Dropped(d));
    ReportsCutAppend(ReportsOf(s.records), d, LostOf(s.issued), CountSum(ReportsOf(s.records)));
  }

  lemma {:induction false} RestoreReportKeepsInv(s: State)
    requires Inv(s) && s.phase.CopyingReport?
    ensures Inv(RestoreReport(s))
  {
    hide LostOf, QueuedOf, DataOf, ReportsOf, CountSum, ReportsCut;
    var lost := LostOf(s.issued);
    var a := CountSum(ReportsOf(s.records));
    assert lost[a..] == lost[a..a + s.inflight] + lost[a + s.inflight..];
    assert lost[a..a] == [];
  }

  lemma {:induction false} CommitNodeKeepsInv(s: State)
    requires Inv(s) && s.phase.CopyingNode?
    ensures s.pending != [] && s.queued > 0 && Inv(CommitNode(s))
  {
    hide LostOf, QueuedOf, DataOf, ReportsOf, CountSum, ReportsCut;
    RecordsAppend(s.records, Data(s.phase.node));
    assert (DataOf(s.records) + [s.pending[0]]) + s.pending[1..] == DataOf(s.records) + s.pending;
  }

  lemma {:induction false} PushKeepsInv(s: State, kind: nat, flags: nat, payload: Option<ByteSeq>, len: nat,
                     gotNode: bool, ts: nat)
    requires payload.Some? ==> |payload.value| == len
    requires Inv(s)
    ensures Inv(Push(s, kind, flags, payload, len, gotNode, ts).0)
  {
    if len <= s.maxPayload && !(len > 0 && payload.None?) && !s.closed {
      if gotNode && !(s.maxQueued > 0 && s.queued >= s.maxQueued) {
        EnqueueKeepsInv(s, kind, flags, if payload.Some? then payload.value else [], ts);
      } else {
        NoteDropKeepsInv(s);
      }
    }
  }

  /** Steps that touch neither the counters nor the histories. */
  lemma {:induction false} QuietStepKeepsInv(s: State, step: Step)
    requires Inv(s) && Next(s, step).Some?
    requires step.DoClose? || step.DoPeek? || step.DoFaultNode?
    ensures Inv(Next(s, step).value)
  {
    hide LostOf, QueuedOf, DataOf, ReportsOf, CountSum, ReportsCut;
    var s' := Next(s, step).value;
    assert DropsAccounted(s');
  }

  /** No locked region of any thread breaks the invariant. */
  lemma {:induction false} NextKeepsInv(s: State, step: Step)
    requires Inv(s) && Next(s, step).Some?
    ensures Inv(Next(s, step).value)
  {
    match step
    case DoPush(kind, flags, payload, len, gotNode, ts) =>
      PushKeepsInv(s, kind, flags, payload, len, gotNode, ts);
    case DoDrop => NoteDropKeepsInv(s);
    case DoSnapshot(_) => SnapshotKeepsInv(s);
    case DoCommitReport => CommitReportKeepsInv(s);
    case DoRestoreReport => RestoreReportKeepsInv(s);
    case DoCommitNode => CommitNodeKeepsInv(s);
    case _ => QuietStepKeepsInv(s, step);
  }

  lemma {:induction false} StepKeepsInv(s: State, step: Step, s': State)
    requires Inv(s) && IsStep(s, step, s')
    ensures Inv(s')
  {
    NextKeepsInv(s, step);
  }

  /** Every state of every run that starts well is well. */
  lemma {:induction false} RunKeepsInv(states: seq<State>, steps: seq<Step>, i: nat)
    requires IsRun(states, steps) && Inv(states[0]) && i < |states|
    ensures Inv(states[i])
  {
    if i > 0 {
      RunKeepsInv(states, steps, i - 1);
      StepKeepsInv(states[i - 1], steps[i - 1], states[i]);
    }
  }

  lemma {:induction false} InitialInv(s: State)
    requires Initial(s)
    ensures Inv(s)
  {
  }

  lemma {:induction false} RunInv(states: seq<State>, steps: seq<Step>, i: nat)
    requires IsRun(states, steps) && Initial(states[0]) && i < |states|
    ensures Inv(states[i])
  {
    InitialInv(states[0]);
    RunKeepsInv(states, steps, i);
  }

  // ---- what a reader of the records may conclude --------------------------------------

  ghost predicate Increasing(s: seq<nat>) {
    forall i, j :: 0 <= i < j < |s| ==> s[i] < s[j]
  }

  ghost predicate LostAt(f: seq<Fate>, n: nat) {
    1 <= n <= |f| && f[n - 1].Lost?
  }

  ghost predicate QueuedAt(f: seq<Fate>, n: nat) {
    1 <= n <= |f| && f[n - 1].Queued?
  }

  lemma {:induction false} LostOfMember(f: seq<Fate>, n: nat)
    ensures n in LostOf(f) <==> LostAt(f, n)
  {
    if f != [] {
      LostOfMember(f[..|f| - 1], n);
    }
  }

  lemma {:induction false} LostOfIncreasing(f: seq<Fate>)
    ensures Increasing(LostOf(f))
    ensures forall i :: 0 <= i < |LostOf(f)| ==> LostOf(f)[i] <= |f|
  {
    if f != [] {
      LostOfIncreasing(f[..|f| - 1]);
    }
  }

  ghost function Seqnos(nodes: seq<Node>): (r: seq<nat>)
    ensures |r| == |nodes| && forall i :: 0 <= i < |r| ==> r[i] == nodes[i].seqno
  {
    seq(|nodes|, i requires 0 <= i < |nodes| => nodes[i].seqno)
  }

  lemma {:induction false} QueuedOfMember(f: seq<Fate>, n: nat)
    requires Numbered(f)
    ensures n in Seqnos(QueuedOf(f)) <==> QueuedAt(f, n)
  {
    if f != [] {
      QueuedOfMember(f[..|f| - 1], n);
      QueuedOfLast(f);
    }
  }

  lemma {:induction false} QueuedOfLast(f: seq<Fate>)
    requires Numbered(f) && f != []
    ensures Seqnos(QueuedOf(f)) ==
            Seqnos(QueuedOf(f[..|f| - 1])) + (if f[|f| - 1].Queued? then [|f|] else [])
  {
  }

  lemma {:induction false} QueuedOfIncreasing(f: seq<Fate>)
    requires Numbered(f)
    ensures Increasing(Seqnos(QueuedOf(f)))
    ensures forall i :: 0 <= i < |QueuedOf(f)| ==> Seqnos(QueuedOf(f))[i] <= |f|
  {
    if f != [] {
      QueuedOfIncreasing(f[..|f| - 1]);
      QueuedOfLast(f);
    }
  }

  /** In an increasing sequence the members of a slice are those between its ends. */
  lemma {:induction false} SliceIsInterval(s: seq<nat>, a: nat, b: nat, n: nat)
    requires Increasing(s) && a < b <= |s| && n in s
    ensures n in s[a..b] <==> s[a] <= n <= s[b - 1]
  {
    var i :| 0 <= i < |s| && s[i] == n;
    if a <= i < b {
      assert s[a..b][i - a] == n;
    }
  }

  ghost predicate InReport(r: Report, n: nat) {
    r.first <= n <= r.last
  }

  ghost predicate InSomeReport(reports: seq<Report>, n: nat) {
    exists i :: 0 <= i < |reports| && InReport(reports[i], n)
  }

  lemma {:induction false} LastCut(reports: seq<Report>, lost: seq<nat>)
    requires ReportsCut(reports, lost) && reports != []
    ensures var k := |reports| - 1;
            var cut := |lost| - reports[k].count;
            && 0 <= cut < |lost| && reports[k].first == lost[cut] && reports[k].last == lost[|lost| - 1]
            && ReportsCut(reports[..k], lost[..cut])
  {
  }

  /** Reports that cut an increasing sequence are in order and do not overlap. */
  lemma {:induction false} ReportsInOrder(reports: seq<Report>, lost: seq<nat>)
    requires ReportsCut(reports, lost) && Increasing(lost)
    ensures forall i, j :: 0 <= i < j < |reports| ==> reports[i].last < reports[j].first
    ensures forall i :: 0 <= i < |reports| ==> reports[i].first <= reports[i].last
    ensures forall i :: 0 <= i < |reports| ==> lost != [] && reports[i].last <= lost[|lost| - 1]
    decreases |reports|
  {
    hide ReportsCut;
    if reports != [] {
      LastCut(reports, lost);
      var k := |reports| - 1;
      var cut := |lost| - reports[k].count;
      var before, earlier := reports[..k], lost[..cut];
      ReportsInOrder(before, earlier);
      forall i | 0 <= i < k
        ensures reports[i].first <= reports[i].last < reports[k].first
      {
        assert before[i] == reports[i] && earlier[cut - 1] == lost[cut - 1];
      }
      assert forall i, j :: 0 <= i < j < k ==> before[i].last < before[j].first;
    }
  }

  /** ... and between them cover it. */
  lemma {:induction false} ReportsCover(reports: seq<Report>, lost: seq<nat>, k: nat)
    requires ReportsCut(reports, lost) && Increasing(lost) && k < |lost|
    ensures InSomeReport(reports, lost[k])
    decreases |reports|
  {
    var last := |reports| - 1;
    var cut := |lost| - reports[last].count;
    if k < cut {
      ReportsCover(reports[..last], lost[..cut], k);
      var i :| 0 <= i < last && InReport(reports[..last][i], lost[k]);
      assert InReport(reports[i], lost[k]);
    } else {
      assert reports[last].first == lost[cut] && reports[last].last == lost[|lost| - 1];
      assert InReport(reports[last], lost[k]);
    }
  }

  ghost predicate IsLost(s: State, n: nat) {
    LostAt(s.issued, n)
  }

  // The five places a sequence number can be, said in terms of what the fields hold.

  ghost predicate Delivered(s: State, n: nat) {
    n in Seqnos(DataOf(s.records))
  }

  ghost predicate Pending(s: State, n: nat) {
    n in Seqnos(s.pending)
  }

  ghost predicate Reported(s: State, n: nat) {
    IsLost(s, n) && InSomeReport(ReportsOf(s.records), n)
  }

  ghost predicate InFlight(s: State, n: nat) {
    IsLost(s, n) && s.inflight > 0 && s.inflightFirst <= n <= s.inflightLast
  }

  ghost predicate DropPending(s: State, n: nat) {
    IsLost(s, n) && s.droppedPending > 0 && s.droppedFirst <= n <= s.droppedLast
  }

  ghost function Places(s: State, n: nat): nat {
    (if Delivered(s, n) then 1 else 0) + (if Pending(s, n) then 1 else 0) +
    (if Reported(s, n) then 1 else 0) + (if InFlight(s, n) then 1 else 0) +
    (if DropPending(s, n) then 1 else 0)
  }

  /** A number that was queued is delivered or pending, never both, and is no lost number. */
  lemma {:induction false} QueuedInOnePlace(s: State, n: nat)
    requires Inv(s) && 1 <= n < s.nextSeq
    ensures !IsLost(s, n) ==> (Delivered(s, n) <==> !Pending(s, n))
    ensures IsLost(s, n) ==> !Delivered(s, n) && !Pending(s, n)
  {
    hide LostOf, QueuedOf, DataOf, ReportsOf, CountSum, ReportsCut;
    QueuedOfMember(s.issued, n);
    QueuedOfIncreasing(s.issued);
    var all, done, todo := Seqnos(QueuedOf(s.issued)), Seqnos(DataOf(s.records)), Seqnos(s.pending);
    assert all == done + todo;
    assert n in all <==> n in done || n in todo;
    forall i, j | 0 <= i < |done| && 0 <= j < |todo|
      ensures done[i] < todo[j]
    {
      assert all[i] == done[i] && all[|done| + j] == todo[j];
    }
  }

  /** A triple that describes a piece of an increasing sequence spans exactly that piece. */
  lemma {:induction false} PieceSpans(lost: seq<nat>, a: nat, b: nat, count: nat, first: nat, last: nat, k: nat)
    requires Increasing(lost) && a <= b <= |lost| && k < |lost|
    requires Describes(count, first, last, lost[a..b])
    ensures count > 0 && first <= lost[k] <= last <==> a <= k < b
  {
  }

  lemma {:induction false} ReportsSpan(reports: seq<Report>, lost: seq<nat>, a: nat, k: nat)
    requires Increasing(lost) && a <= |lost| && k < |lost| && ReportsCut(reports, lost[..a])
    ensures InSomeReport(reports, lost[k]) <==> k < a
  {
    ReportsInOrder(reports, lost[..a]);
    if k < a {
      assert lost[..a][k] == lost[k];
      ReportsCover(reports, lost[..a], k);
    }
  }

  /** Where the k-th lost number is, by its position among all lost numbers. */
  lemma {:induction false} LostPlace(s: State, lost: seq<nat>, reported: nat, k: nat)
    requires lost == LostOf(s.issued) && Increasing(lost) && k < |lost|
    requires reported == CountSum(ReportsOf(s.records)) && DropsAccounted(s)
    ensures InSomeReport(ReportsOf(s.records), lost[k]) <==> k < reported
    ensures s.inflight > 0 && s.inflightFirst <= lost[k] <= s.inflightLast <==>
            reported <= k < reported + s.inflight
    ensures s.droppedPending > 0 && s.droppedFirst <= lost[k] <= s.droppedLast <==>
            reported + s.inflight <= k
  {
    hide LostOf, QueuedOf, DataOf, ReportsOf, CountSum, ReportsCut;
    var b := reported + s.inflight;
    ReportsSpan(ReportsOf(s.records), lost, reported, k);
    PieceSpans(lost, reported, b, s.inflight, s.inflightFirst, s.inflightLast, k);
    assert lost[b..] == lost[b..|lost|];
    PieceSpans(lost, b, |lost|, s.droppedPending, s.droppedFirst, s.droppedLast, k);
  }

  /** A lost number is in exactly one of: a delivered report, the report being copied, the
      report still to be made. */
  lemma {:induction false} LostInOnePlace(s: State, n: nat)
    requires DropsAccounted(s) && IsLost(s, n)
    ensures (if Reported(s, n) then 1 else 0) + (if InFlight(s, n) then 1 else 0) +
            (if DropPending(s, n) then 1 else 0) == 1
  {
    hide LostOf, QueuedOf, DataOf, ReportsOf, CountSum, ReportsCut;
    LostOfIncreasing(s.issued);
    LostOfMember(s.issued, n);
    var lost := LostOf(s.issued);
    var k :| 0 <= k < |lost| && lost[k] == n;
    LostPlace(s, lost, CountSum(ReportsOf(s.records)), k);
  }

  /** Conservation: in every reachable state each number issued so far is in exactly one of
      the five places. */
  lemma {:induction false} EveryNumberInOnePlace(s: State, n: nat)
    requires Reachable(s) && 1 <= n < s.nextSeq
    ensures Places(s, n) == 1
  {
    assert Inv(s) by {
      var states: seq<State>, steps: seq<Step> :| RunEndsIn(states, steps, s);
      RunInv(states, steps, |steps|);
    }
    QueuedInOnePlace(s, n);
    if IsLost(s, n) {
      LostInOnePlace(s, n);
    }
  }

  ghost function LostBetween(s: State, lo: nat, hi: nat): (r: set<nat>)
    ensures forall n :: n in r <==> lo < n <= hi && IsLost(s, n)
  {
    set n | lo < n <= hi && IsLost(s, n)
  }

  lemma {:induction false} IncreasingSetSize(s: seq<nat>)
    requires Increasing(s)
    ensures |Elements(s)| == |s|
  {
    if s != [] {
      var t := s[..|s| - 1];
      IncreasingSetSize(t);
      assert s == t + [s[|s| - 1]];
      assert s[|s| - 1] !in t;
      assert Elements(s) == Elements(t) + {s[|s| - 1]};
    }
  }

  /** The last of the pieces that the reports cut `lost` into. */
  lemma {:induction false} LastPiece(reports: seq<Report>, lost: seq<nat>) returns (cut: nat)
    requires ReportsCut(reports, lost) && reports != []
    ensures var last := reports[|reports| - 1];
            && cut < |lost| && cut == |lost| - last.count && last.first == lost[cut] && last.last == lost[|lost| - 1]
            && ReportsCut(reports[..|reports| - 1], lost[..cut])
    ensures |reports| == 1 <==> cut == 0
  {
    var n := |reports| - 1;
    cut := |lost| - reports[n].count;
    var less := reports[..n];
    assert lost[cut..][0] == lost[cut];
    assert less == [] ==> ReportsCut([], lost[..cut]);
  }

  /** The piece of `lost` that report k describes. */
  lemma {:induction false} ReportPiece(reports: seq<Report>, lost: seq<nat>, k: nat) returns (a: nat, b: nat)
    requires ReportsCut(reports, lost) && k < |reports|
    ensures a < b <= |lost| && reports[k].count == b - a
    ensures reports[k].first == lost[a] && reports[k].last == lost[b - 1]
    ensures k == 0 ==> a == 0
    ensures k > 0 ==> a > 0 && reports[k - 1].last == lost[a - 1]
    decreases |reports|
  {
    hide ReportsCut;
    var n := |reports| - 1;
    var cut := LastPiece(reports, lost);
    var less, rest := reports[..n], lost[..cut];
    if k == n {
      a, b := cut, |lost|;
      if k > 0 {
        var _ := LastPiece(less, rest);
        assert less[n - 1] == reports[k - 1] && rest[cut - 1] == lost[cut - 1];
      }
    } else {
      a, b := ReportPiece(less, rest, k);
      assert less[k] == reports[k];
      assert forall i :: 0 <= i < cut ==> rest[i] == lost[i];
    }
  }

  /** The lost numbers after entry a - 1 up to entry b - 1 are the piece lost[a..b]. */
  lemma {:induction false} LostBetweenIsPiece(s: State, a: nat, b: nat)
    requires a < b <= |LostOf(s.issued)|
    ensures var lost := LostOf(s.issued);
            LostBetween(s, if a == 0 then 0 else lost[a - 1], lost[b - 1]) == Elements(lost[a..b])
  {
    hide LostOf, QueuedOf, DataOf, ReportsOf, CountSum, ReportsCut;
    LostOfIncreasing(s.issued);
    var lost := LostOf(s.issued);
    var lo := if a == 0 then 0 else lost[a - 1];
    forall n
      ensures n in LostBetween(s, lo, lost[b - 1]) <==> n in lost[a..b]
    {
      LostOfMember(s.issued, n);
      assert n in lost[a..b] ==> n in lost;
      if IsLost(s, n) {
        SliceIsInterval(lost, a, b, n);
        var k :| 0 <= k < |lost| && lost[k] == n;
      }
    }
  }

  /** The lost numbers that report k covers: those from entry a up to entry b - 1. */
  lemma {:induction false} ReportCovers(s: State, k: nat) returns (a: nat, b: nat)
    requires DropsAccounted(s) && k < |ReportsOf(s.records)|
    ensures var lost, reports := LostOf(s.issued), ReportsOf(s.records);
            && a < b <= |lost| && reports[k].count == b - a
            && reports[k].first == lost[a] && reports[k].last == lost[b - 1]
            && (if k == 0 then a == 0 else a > 0 && reports[k - 1].last == lost[a - 1])
  {
    hide LostOf, QueuedOf, DataOf, ReportsOf, CountSum, ReportsCut;
    LostOfIncreasing(s.issued);
    var lost, reports := LostOf(s.issued), ReportsOf(s.records);
    var reported := lost[..CountSum(reports)];
    a, b := ReportPiece(reports, reported, k);
    assert forall i :: 0 <= i < |reported| ==> reported[i] == lost[i];
  }

  /** Drop reports are exact: the reports handed to user space cover disjoint, increasing
      intervals, and the count of each is the number of sequence numbers lost since the end
      of the previous one, whatever copies failed in between. */
  lemma {:induction false} ReportsAreExact(s: State, k: nat)
    requires Reachable(s) && k < |ReportsOf(s.records)|
    ensures var reports := ReportsOf(s.records);
            var prev := if k == 0 then 0 else reports[k - 1].last;
            && prev < reports[k].first <= reports[k].last < s.nextSeq
            && IsLost(s, reports[k].first) && IsLost(s, reports[k].last)
            && reports[k].count == |LostBetween(s, prev, reports[k].last)|
  {
    hide LostOf, QueuedOf, DataOf, ReportsOf, CountSum, ReportsCut;
    assert Inv(s) by {
      var states: seq<State>, steps: seq<Step> :| RunEndsIn(states, steps, s);
      RunInv(states, steps, |steps|);
    }
    var a, b := ReportCovers(s, k);
    var lost := LostOf(s.issued);
    LostOfIncreasing(s.issued);
    LostOfMember(s.issued, lost[a]);
    LostOfMember(s.issued, lost[b - 1]);
    LostBetweenIsPiece(s, a, b);
    IncreasingSetSize(lost[a..b]);
  }

  /** Data comes out in push order, each node once: what was delivered is a prefix of what was
      queued, and no two delivered nodes share a number. */
  lemma {:induction false} DataInPushOrder(s: State)
    requires Reachable(s)
    ensures DataOf(s.records) <= QueuedOf(s.issued)
    ensures Increasing(Seqnos(DataOf(s.records)))
  {
    hide LostOf, QueuedOf, DataOf, ReportsOf, CountSum, ReportsCut;
    assert Inv(s) by {
      var states: seq<State>, steps: seq<Step> :| RunEndsIn(states, steps, s);
      RunInv(states, steps, |steps|);
    }
    QueuedOfIncreasing(s.issued);
    var all, done := Seqnos(QueuedOf(s.issued)), Seqnos(DataOf(s.records));
    assert all == done + Seqnos(s.pending);
    assert forall i :: 0 <= i < |done| ==> all[i] == done[i];
  }

  /** The counters: queued is the list length and within its bound, and every drop is counted
      once in dropped_total. */
  lemma {:induction false} CountersAgree(s: State)
    requires Reachable(s)
    ensures s.queued == |s.pending| && (s.maxQueued > 0 ==> s.queued <= s.maxQueued)
    ensures s.droppedTotal == |LostBetween(s, 0, |s.issued|)|
    ensures s.droppedTotal == CountSum(ReportsOf(s.records)) + s.inflight + s.droppedPending
  {
    hide LostOf, QueuedOf, DataOf, ReportsOf, CountSum, ReportsCut;
    assert Inv(s) by {
      var states: seq<State>, steps: seq<Step> :| RunEndsIn(states, steps, s);
      RunInv(states, steps, |steps|);
    }
    LostOfIncreasing(s.issued);
    IncreasingSetSize(LostOf(s.issued));
    forall n
      ensures n in LostBetween(s, 0, |s.issued|) <==> n in LostOf(s.issued)
    {
      LostOfMember(s.issued, n);
    }
    assert LostBetween(s, 0, |s.issued|) == Elements(LostOf(s.issued));
  }

  /** The node peeked outside the lock is still the head when the reader takes the lock again,
      whatever producers did meanwhile. */
  lemma {:induction false} PeekedNodeStaysHead(states: seq<State>, steps: seq<Step>, i: nat)
    requires IsRun(states, steps) && i < |states|
    requires Inv(states[0]) && states[0].phase.CopyingNode?
    requires forall k :: 0 <= k < |steps| ==> ProducerStep(steps[k])
    ensures states[i].phase == states[0].phase && states[i].records == states[0].records
    ensures states[i].pending != [] && states[i].pending[0] == states[0].phase.node
  {
    if i > 0 {
      PeekedNodeStaysHead(states, steps, i - 1);
      ProducerLeavesReader(states[i - 1], steps[i - 1], states[i]);
      RunKeepsInv(states, steps, i);
    }
  }

  lemma {:induction false} ProducerLeavesReader(s: State, step: Step, s': State)
    requires IsStep(s, step, s') && ProducerStep(step)
    ensures s'.phase == s.phase && s'.records == s.records
    ensures s.pending <= s'.pending && s.issued <= s'.issued
  {
  }

  // ---- what pushes and drops come to, told from the steps ---------------------------------

  /** The arguments of a push that the queue takes a number for: not too long, and not a null pointer
      with a length. */
  ghost predicate ValidPush(s: State, step: Step) {
    step.DoPush? && step.len <= s.maxPayload && (step.payload.None? ==> step.len == 0)
  }

  /** A push that puts an event into the queue: open, with a node, below the bound. */
  ghost predicate Accepts(s: State, step: Step) {
    && ValidPush(s, step) && !s.closed && step.gotNode
    && (s.maxQueued == 0 || |s.pending| < s.maxQueued)
  }

  /** A step that loses an event: an explicit drop, or a push that is not accepted, on an open queue. */
  ghost predicate Loses(s: State, step: Step) {
    !s.closed && (step.DoDrop? || (ValidPush(s, step) && !Accepts(s, step)))
  }

  /** The event that an accepted push puts into the queue. */
  ghost function Pushed(s: State, step: Step): Node
    requires step.DoPush?
  {
    Node(s.nextSeq, step.kind, step.flags, if step.payload.Some? then step.payload.value else [], step.ts)
  }

  /** Every event that was queued and not lost: handed out, then still waiting. */
  ghost function AllNodes(s: State): seq<Node> {
    DataOf(s.records) + s.pending
  }

  /** What a step does to the list and to what was handed out. */
  lemma {:induction false} ListStep(s: State, step: Step, s': State)
    requires IsStep(s, step, s') && s.queued == |s.pending|
    ensures Accepts(s, step) ==> s'.pending == s.pending + [Pushed(s, step)] && s'.records == s.records
    ensures step.DoCommitNode? ==>
              s.phase.CopyingNode? && s.pending != [] && s'.pending == s.pending[1..] && s'.records == s.records + [Data(s.phase.node)]
    ensures step.DoCommitReport? ==>
              s'.pending == s.pending && s'.records == s.records + [Dropped(Report(s.inflight, s.inflightFirst, s.inflightLast))]
    ensures !Accepts(s, step) && !step.DoCommitNode? && !step.DoCommitReport? ==> s'.pending == s.pending && s'.records == s.records
  {
  }

  ghost predicate ListOk(s: State) {
    s.queued == |s.pending| && (s.phase.CopyingNode? ==> s.pending != [] && s.pending[0] == s.phase.node)
  }

  lemma InvList(s: State)
    requires Inv(s)
    ensures ListOk(s)
  {
    hide DropsAccounted, Numbered, DataOf, QueuedOf;
  }

  lemma {:induction false} NodesStep(s: State, step: Step, s': State)
    requires ListOk(s) && IsStep(s, step, s')
    ensures AllNodes(s') == if Accepts(s, step) then AllNodes(s) + [Pushed(s, step)] else AllNodes(s)
  {
    hide IsStep, DataOf, ReportsOf, Pushed;
    ListStep(s, step, s');
    if step.DoCommitNode? {
      RecordsAppend(s.records, Data(s.phase.node));
      assert s.pending == [s.phase.node] + s.pending[1..];
    } else if step.DoCommitReport? {
      RecordsAppend(s.records, Dropped(Report(s.inflight, s.inflightFirst, s.inflightLast)));
    }
  }

  /** A push step in the arguments it was made with, for every outcome. */
  lemma {:induction false} PushStep(s: State, step: Step, s': State)
    requires step.DoPush? && IsStep(s, step, s') && s.queued == |s.pending|
    ensures var ret := Push(s, step.kind, step.flags, step.payload, step.len, step.gotNode, step.ts).1;
            && (ret == -90 <==> step.len > s.maxPayload)
            && (ret == -22 <==> step.len <= s.maxPayload && !ValidPush(s, step))
            && (ret == -32 <==> ValidPush(s, step) && s.closed)
            && (ret == -12 <==> ValidPush(s, step) && !s.closed && !step.gotNode)
            && (ret == -28 <==> Loses(s, step) && step.gotNode)
            && (ret == 0 <==> Accepts(s, step))
            && (ret == 0 ==> s'.pending == s.pending + [Pushed(s, step)] && s'.queued == s.queued + 1)
            && (ret != 0 ==> s'.pending == s.pending && s'.queued == s.queued)
            && (ret in {-90, -22, -32} ==> s' == s)
  {
  }

  /** A number is used up by accepted pushes and by losses, and by nothing else. */
  lemma {:induction false} NumberStep(s: State, step: Step, s': State, n: nat)
    requires Inv(s) && IsStep(s, step, s')
    ensures s'.nextSeq == s.nextSeq + if Accepts(s, step) || Loses(s, step) then 1 else 0
    ensures IsLost(s', n) <==> IsLost(s, n) || (Loses(s, step) && n == s.nextSeq)
  {
    hide LostOf, QueuedOf, DataOf, ReportsOf, CountSum, ReportsCut, DropsAccounted;
  }

  /** Everything handed out or waiting was pushed: by an accepted push of the run, under the number that
      push took, with exactly the type, flags, time and payload it was given. */
  lemma {:induction false} NodesWerePushed(states: seq<State>, steps: seq<Step>, i: nat, node: Node)
    requires IsRun(states, steps) && Initial(states[0]) && i < |states|
    requires node in DataOf(states[i].records) || node in states[i].pending
    ensures exists j :: 0 <= j < i && Accepts(states[j], steps[j]) && node == Pushed(states[j], steps[j])
  {
    hide Inv, IsStep, DataOf;
    StartsEmpty(states[0]);
    assert node in AllNodes(states[i]);
    if i > 0 {
      RunInv(states, steps, i - 1);
      assert IsStep(states[i - 1], steps[i - 1], states[i]);
      InvList(states[i - 1]);
      NodesStep(states[i - 1], steps[i - 1], states[i]);
      if node in AllNodes(states[i - 1]) {
        NodesWerePushed(states, steps, i - 1, node);
      }
    }
  }

  lemma {:induction false} StartsEmpty(s: State)
    requires Initial(s)
    ensures AllNodes(s) == [] && forall n :: !IsLost(s, n)
  {
  }

  lemma {:induction false} NodesStay(s: State, step: Step, s': State, node: Node)
    requires Inv(s) && IsStep(s, step, s')
    requires node in AllNodes(s) || (Accepts(s, step) && node == Pushed(s, step))
    ensures node in AllNodes(s')
  {
    hide Inv, IsStep, AllNodes;
    InvList(s);
    NodesStep(s, step, s');
  }

  /** And every accepted push is handed out or waiting from then on, as it was pushed. */
  lemma {:induction false} PushesAreKept(states: seq<State>, steps: seq<Step>, j: nat, i: nat)
    requires IsRun(states, steps) && Initial(states[0]) && j < i < |states| && Accepts(states[j], steps[j])
    ensures Pushed(states[j], steps[j]) in DataOf(states[i].records) + states[i].pending
    decreases i
  {
    hide Inv, IsStep, DataOf, Pushed, Initial;
    RunInv(states, steps, i - 1);
    assert IsStep(states[i - 1], steps[i - 1], states[i]);
    if j < i - 1 {
      PushesAreKept(states, steps, j, i - 1);
    }
    NodesStay(states[i - 1], steps[i - 1], states[i], Pushed(states[j], steps[j]));
  }

  /** The lost numbers are those that a losing step of the run took. */
  lemma {:induction false} LostIffLosingStep(states: seq<State>, steps: seq<Step>, i: nat, n: nat)
    requires IsRun(states, steps) && Initial(states[0]) && i < |states|
    ensures IsLost(states[i], n) <==> exists j :: 0 <= j < i && Loses(states[j], steps[j]) && states[j].nextSeq == n
  {
    hide Inv, IsStep, Loses, IsLost;
    if i == 0 {
      StartsEmpty(states[0]);
    } else {
      LostIffLosingStep(states, steps, i - 1, n);
      RunInv(states, steps, i - 1);
      assert IsStep(states[i - 1], steps[i - 1], states[i]);
      NumberStep(states[i - 1], steps[i - 1], states[i], n);
    }
  }

  /** A queue is closed once a step closed it, and its bounds never change. */
  lemma {:induction false} ClosedIffClosingStep(states: seq<State>, steps: seq<Step>, i: nat)
    requires IsRun(states, steps) && Initial(states[0]) && i < |states|
    ensures states[i].closed <==> exists j :: 0 <= j < i && steps[j].DoClose?
    ensures states[i].maxQueued == states[0].maxQueued && states[i].maxPayload == states[0].maxPayload
  {
    hide IsStep;
    if i > 0 {
      ClosedIffClosingStep(states, steps, i - 1);
      assert IsStep(states[i - 1], steps[i - 1], states[i]);
      ClosedStep(states[i - 1], steps[i - 1], states[i]);
    }
  }

  lemma {:induction false} ClosedStep(s: State, step: Step, s': State)
    requires IsStep(s, step, s')
    ensures s'.closed <==> s.closed || step.DoClose?
    ensures s'.maxQueued == s.maxQueued && s'.maxPayload == s.maxPayload
  {
  }

  /** What a record takes up in the reader's buffer. */
  lemma {:induction false} RecordSizes(node: Node, report: Report)
    ensures RecordSize(Data(node)) == 24 + |node.payload| && RecordSize(Dropped(report)) == 48
  {
  }
}

/** struct ksu_event_queue and its operations, each locked region tied to its step of the
    state machine, and the read loop with producers running wherever the lock is open. */
module EventQueue {
  import opened Bytes
  import opened EventQueueModel

  /** Bytes taken up by a list of records. */
  ghost function TotalSize(records: seq<Record>): nat {
    if records == [] then 0 else TotalSize(records[..|records| - 1]) + RecordSize(records[|records| - 1])
  }

  lemma TotalSizeAppend(records: seq<Record>, r: Record)
    ensures TotalSize(records + [r]) == TotalSize(records) + RecordSize(r)
  {
    assert (records + [r])[..|records|] == records;
  }

  class Queue {
    const maxQueued: nat
    const maxPayload: nat
    var pending: seq<Node>
    var queued: nat
    var nextSeq: nat
    var droppedTotal: nat
    var droppedPending: nat
    var droppedFirst: nat
    var droppedLast: nat
    var inflight: nat
    var inflightFirst: nat
    var inflightLast: nat
    var closed: bool
    ghost var phase: Phase
    ghost var issued: seq<Fate>
    ghost var records: seq<Record>
    ghost var faults: nat  // copies to user space that failed so far

    ghost function View(): State
      reads this
    {
      State(pending, queued, maxQueued, maxPayload, nextSeq, droppedTotal, droppedPending,
            droppedFirst, droppedLast, inflight, inflightFirst, inflightLast, closed,
            phase, issued, records)
    }

    ghost predicate Valid()
      reads this
    {
      Inv(View())
    }

    constructor (maxQueued: nat, maxPayload: nat)
      ensures View() == Init(maxQueued, maxPayload) && Valid()
    {
      this.maxQueued, this.maxPayload := maxQueued, maxPayload;
      pending, queued, nextSeq := [], 0, 1;
      droppedTotal, droppedPending, droppedFirst, droppedLast := 0, 0, 0, 0;
      inflight, inflightFirst, inflightLast := 0, 0, 0;
      closed := false;
      phase, issued, records, faults := Idle, [], [], 0;
      new;
      InitialInv(View());
    }

    /** Called with the lock held, on the number just taken from nextSeq. */
    method NoteDropLocked(seqno: nat)
      requires nextSeq == seqno + 1
      modifies this
      ensures faults == old(faults)
      ensures View() == NoteDrop(old(View()).(nextSeq := seqno))
    {
      droppedTotal := droppedTotal + 1;
      if droppedPending == 0 {
        droppedFirst := seqno;
      }
      droppedPending := droppedPending + 1;
      droppedLast := seqno;
      issued := issued + [Lost];
    }

    /** `gotNode` and `ts` stand for what kmalloc and the clock return. */
    method PushEvent(kind: nat, flags: nat, payload: Option<ByteSeq>, len: nat, gotNode: bool, ts: nat)
      returns (ret: int)
      requires payload.Some? ==> |payload.value| == len
      requires Valid()
      modifies this
      ensures faults == old(faults)
      ensures (View(), ret) == Push(old(View()), kind, flags, payload, len, gotNode, ts)
      ensures ret == 0 <==> && !old(closed) && gotNode && len <= maxPayload && (payload.Some? || len == 0)
                            && (maxQueued == 0 || |old(pending)| < maxQueued)
      ensures ret == 0 ==>
                pending == old(pending) + [Node(old(nextSeq), kind, flags, if payload.Some? then payload.value else [], ts)]
      ensures ret != 0 ==> pending == old(pending)
      ensures Valid()
    {
      hide Inv;
      PushKeepsInv(View(), kind, flags, payload, len, gotNode, ts);
      if len > maxPayload {
        return EMSGSIZE;
      }
      if len > 0 && payload.None? {
        return EINVAL;
      }
      if closed {
        return EPIPE;
      }
      var seqno := nextSeq;
      nextSeq := nextSeq + 1;
      if !gotNode || (maxQueued > 0 && queued >= maxQueued) {
        NoteDropLocked(seqno);
        ret := if gotNode then ENOSPC else ENOMEM;
        return;
      }
      var node := Node(seqno, kind, flags, if payload.Some? then payload.value else [], ts);
      pending := pending + [node];
      queued := queued + 1;
      issued := issued + [Queued(node)];
      ret := 0;
    }

    method DropEvent()
      requires Valid()
      modifies this
      ensures faults == old(faults)
      ensures View() == Drop(old(View())) && Valid()
    {
      hide Inv;
      NoteDropKeepsInv(View());
      if !closed {
        var seqno := nextSeq;
        nextSeq := nextSeq + 1;
        NoteDropLocked(seqno);
      }
    }

    method Close()
      requires Valid()
      modifies this
      ensures faults == old(faults)
      ensures View() == old(View()).(closed := true) && Valid()
    {
      hide Inv;
      QuietStepKeepsInv(View(), DoClose);
      closed := true;
    }

    /** What a producer call may change, as the reader sees it. */
    twostate predicate ReaderUndisturbed()
      reads this
    {
      && phase == old(phase) && records == old(records) && faults == old(faults)
      && old(pending) <= pending && old(issued) <= issued
    }

    /** Some producer call by another thread. */
    method ProducerCall()
      requires Valid()
      modifies this
      ensures Valid() && ReaderUndisturbed()
    {
      hide Inv;
      if {
        case true =>
          var payload: ByteSeq, kind: nat, flags: nat, gotNode: bool, ts: nat :| true;
          var _ := PushEvent(kind, flags, Some(payload), |payload|, gotNode, ts);
        case true => DropEvent();
        case true => Close();
      }
    }

    /** Any number of producer calls, made while the reader has the lock open. */
    method Interfere()
      requires Valid()
      modifies this
      ensures Valid() && ReaderUndisturbed()
    {
      hide Inv;
      var calls: nat :| true;
      for i := 0 to calls
        invariant Valid() && ReaderUndisturbed()
      {
        ProducerCall();
      }
    }

    /** First locked region of read_drop: move the pending drops out of the producers' way. */
    method SnapshotLocked()
      requires Valid() && phase.Idle? && droppedPending > 0
      modifies this
      ensures faults == old(faults)
      ensures View() == SnapshotReport(old(View())) && Valid()
    {
      hide Inv;
      SnapshotKeepsInv(View());
      inflight, inflightFirst, inflightLast := droppedPending, droppedFirst, droppedLast;
      droppedPending, droppedFirst, droppedLast := 0, 0, 0;
      phase := CopyingReport;
    }

    /** Last locked region of read_drop when both copies succeeded. */
    method CommitReportLocked()
      requires Valid() && phase.CopyingReport?
      modifies this
      ensures faults == old(faults)
      ensures View() == CommitReport(old(View())) && Valid()
    {
      hide Inv;
      CommitReportKeepsInv(View());
      records := records + [Dropped(Report(inflight, inflightFirst, inflightLast))];
      inflight, inflightFirst, inflightLast := 0, 0, 0;
      phase := Idle;
    }

    /** Last locked region of read_drop after a fault: merge with what was dropped meanwhile. */
    method RestoreReportLocked()
      requires Valid() && phase.CopyingReport?
      modifies this
      ensures faults == old(faults)
      ensures View() == RestoreReport(old(View())) && Valid()
    {
      hide Inv;
      RestoreReportKeepsInv(View());
      if droppedPending == 0 {
        droppedPending, droppedFirst, droppedLast := inflight, inflightFirst, inflightLast;
      } else {
        droppedPending, droppedFirst := droppedPending + inflight, inflightFirst;
      }
      inflight, inflightFirst, inflightLast := 0, 0, 0;
      phase := Idle;
    }

    /** read_drop: hand out one report of everything dropped since the last one. */
    method ReadDrop(count: nat) returns (ret: int)
      requires Valid() && phase.Idle?
      modifies this
      ensures Valid() && phase.Idle? && old(issued) <= issued
      ensures ret <= 0 ==> records == old(records)
      ensures ret == 0 <==> old(droppedPending) == 0
      ensures ret < 0 ==> ret == -14 || ret == -90
      ensures ret == -90 <==> old(droppedPending) > 0 && count < 48
      ensures ret == -90 ==> droppedPending > 0
      ensures faults == old(faults) + if ret == -14 then 1 else 0
      ensures ret > 0 ==> |records| > 0 && records == old(records) + [records[|records| - 1]]
                          && records[|records| - 1].Dropped?
                          && ret == RecordSize(records[|records| - 1]) <= count
    {
      hide Inv;
      if droppedPending == 0 {
        return 0;
      }
      if count < HDR_SIZE + DROP_INFO_SIZE {
        return EMSGSIZE;
      }
      SnapshotLocked();
      Interfere();
      var headerFault: bool, infoFault: bool := *, *;
      if headerFault || infoFault {
        faults := faults + 1;
        RestoreReportLocked();
        return EFAULT;
      }
      CommitReportLocked();
      ret := HDR_SIZE + DROP_INFO_SIZE;
    }

    /** Last locked region of read_node: unlink the node that was copied. */
    method CommitNodeLocked()
      requires Valid() && phase.CopyingNode?
      modifies this
      ensures faults == old(faults)
      ensures old(pending) != [] && old(queued) > 0
      ensures View() == CommitNode(old(View())) && Valid()
    {
      hide Inv;
      CommitNodeKeepsInv(View());
      records := records + [Data(phase.node)];
      pending := pending[1..];
      queued := queued - 1;
      phase := Idle;
    }

    /** read_node: hand out the oldest queued event. */
    method ReadNode(count: nat) returns (ret: int)
      requires Valid() && phase.Idle?
      modifies this
      ensures Valid() && phase.Idle? && old(issued) <= issued
      ensures ret <= 0 ==> records == old(records)
      ensures ret == 0 <==> old(pending) == []
      ensures ret == 0 ==> pending == []
      ensures ret < 0 ==> ret == -14 || ret == -90
      ensures ret == -90 <==> old(pending) != [] && count < RecordSize(Data(old(pending)[0]))
      ensures ret == -90 ==> pending != [] && pending[0] == old(pending)[0]
      ensures faults == old(faults) + if ret == -14 then 1 else 0
      ensures ret > 0 ==> old(pending) != [] && records == old(records) + [Data(old(pending)[0])]
                          && ret == RecordSize(Data(old(pending)[0])) <= count
    {
      if pending == [] {
        return 0;
      }
      var node := pending[0];
      var recordSize := HDR_SIZE + |node.payload|;
      if count < recordSize {
        return EMSGSIZE;
      }
      SetPhase(CopyingNode(node));
      Interfere();
      var headerFault: bool, payloadFault: bool := *, *;
      if headerFault || (|node.payload| > 0 && payloadFault) {
        faults := faults + 1;
        SetPhase(Idle);
        return EFAULT;
      }
      CommitNodeLocked();
      ret := recordSize;
    }

    /** The reader starts on the head node, or gives up on it; no field changes. */
    ghost method SetPhase(p: Phase)
      requires Valid() && !phase.CopyingReport?
      requires p.Idle? || (p.CopyingNode? && pending != [] && p.node == pending[0])
      modifies this`phase
      ensures phase == p && Valid()
    {
      phase := p;
      assert DropsAccounted(View());
    }

    /** A read with `left` bytes to fill has nothing more to give: nothing is queued, or what comes
        next does not fit. */
    ghost predicate Exhausted(left: int)
      reads this
    {
      || pending == [] || left == 0
      || (droppedPending > 0 && left < HDR_SIZE + DROP_INFO_SIZE)
      || left < RecordSize(Data(pending[0]))
    }

    /** One round of the read loop: a report if there is one, else a node. */
    method ReadRecord(count: nat) returns (ret: int, ghost r: Record)
      requires Valid() && phase.Idle?
      modifies this
      ensures Valid() && phase.Idle? && old(issued) <= issued
      ensures ret > 0 ==> records == old(records) + [r] && ret == RecordSize(r) <= count
      ensures ret <= 0 ==> records == old(records)
      ensures ret == 0 ==> pending == []
      ensures ret < 0 ==> ret == -90 || ret == -14
      ensures ret == -90 ==> Exhausted(count)
      ensures faults == old(faults) + if ret == -14 then 1 else 0
    {
      hide Inv;
      r := Dropped(Report(0, 0, 0));
      Interfere();
      ret := ReadDrop(count);
      if ret == 0 {
        Interfere();
        ghost var head := pending;
        ret := ReadNode(count);
        r := if ret > 0 then Data(head[0]) else r;
      } else if ret > 0 {
        r := records[|records| - 1];
      }
    }

    /** read, with read_lock held. `waitRet` is what waiting for data returned: 0, or the error
        of an empty non-blocking or an interrupted wait. A positive result counts exactly the
        bytes of whole records; any other result means nothing was handed out. */
    method Read(count: nat, waitRet: int) returns (copied: int)
      requires Valid() && phase.Idle? && waitRet <= 0
      modifies this
      ensures Valid() && phase.Idle? && old(issued) <= issued
      ensures old(records) <= records && copied <= count
      ensures copied > 0 ==> copied == TotalSize(records[|old(records)|..])
      ensures copied <= 0 ==> records == old(records)
      ensures copied < 0 ==> copied == waitRet || copied == -90 || copied == -14
      ensures copied == -14 && waitRet == 0 ==> faults > old(faults)
      ensures count > 0 && waitRet == 0 && faults == old(faults) ==> Exhausted(if copied > 0 then count - copied else count)
      ensures copied == 0 && count > 0 && waitRet == 0 ==> pending == []
    {
      hide Inv;
      if count == 0 {
        return 0;
      }
      Interfere();
      if waitRet != 0 {
        return waitRet;
      }
      var left := count;
      copied := 0;
      ghost var handed: seq<Record> := [];
      while left > 0
        invariant Valid() && phase.Idle? && old(issued) <= issued
        invariant records == old(records) + handed && copied == TotalSize(handed)
        invariant 0 <= left <= count && copied + left == count && faults == old(faults)
        decreases left
      {
        var ret, r := ReadRecord(left);
        if ret <= 0 {
          if copied == 0 {
            copied := ret;
          }
          break;
        }
        TotalSizeAppend(handed, r);
        handed := handed + [r];
        copied := copied + ret;
        left := left - ret;
      }
    }
  }
}
