/** Walkers that move while the list words change. A hook call walks the list without a lock: it
    reads head->first, and then each node's next pointer after the callee has returned. */
module LsmWalkModel {
  import opened Bytes
  import opened LsmHookModel

  /** One walker: the node it stands on, the registered entries it has called, and the drains that
      wait for it because they began after it did. */
  datatype Walk =
    | NotStarted
    | On(id: Id, seen: seq<Id>, waits: set<nat>)
    | Ended(seen: seq<Id>)

  datatype Joint = Joint(s: State, k: Walk)

  datatype Event = Write(step: Step) | Enter | Move

  ghost function Visit(orig: seq<Id>, seen: seq<Id>, id: Id): seq<Id> {
    seen + if id in orig then [id] else []
  }

  /** A drain that begins while the walker is inside waits for it. */
  ghost function WalkAfter(k: Walk, step: Step): Walk {
    if step.BeginDrain? && k.On? then k.(waits := k.waits + {step.d}) else k
  }

  /** The word that the walker reads next. */
  ghost function Ahead(s: State, k: Walk): Option<Id>
    requires !k.Ended?
  {
    if k.NotStarted? then s.words.first
    else if k.id in s.words.next then s.words.next[k.id] else None
  }

  ghost function Moved(s: State, k: Walk): Walk
    requires !k.Ended?
  {
    var seen := if k.On? then k.seen else [];
    match Ahead(s, k)
    case None => Ended(seen)
    case Some(v) => On(v, Visit(s.orig, seen, v), if k.On? then k.waits else {})
  }

  ghost predicate Happens(a: Joint, e: Event, b: Joint) {
    match e
    case Write(step) =>
      && IsStep(a.s, step, b.s) && b.k == WalkAfter(a.k, step)
      && (step.EndDrain? && a.k.On? ==> step.d !in a.k.waits)
    case Enter => a.k.NotStarted? && b == Joint(a.s, Moved(a.s, a.k))
    case Move => a.k.On? && b == Joint(a.s, Moved(a.s, a.k))
  }

  /** Any interleaving of writers, drains and one walker. */
  ghost predicate IsWalk(js: seq<Joint>, es: seq<Event>) {
    && |js| == |es| + 1 && Initial(js[0].s) && js[0].k.NotStarted?
    && forall i {:trigger es[i]} :: 0 <= i < |es| ==> Happens(js[i], es[i], js[i + 1])
  }

  ghost function Writes(es: seq<Event>): seq<Step> {
    if es == [] then []
    else Writes(es[..|es| - 1]) + if es[|es| - 1].Write? then [es[|es| - 1].step] else []
  }

  /** What a hook call owes its caller: the registered entries called so far are the first ones, in
      order, and all of them once it ends. */
  ghost predicate WalkComplete(j: Joint) {
    match j.k
    case NotStarted => true
    case On(_, seen, _) => seen <= j.s.orig
    case Ended(seen) => seen == j.s.orig
  }

  // ---- walkers lose nothing ---------------------------------------------------------------

  /** A walker on a node of ours; no drain that does not wait for it counts that node. */
  ghost predicate OnOurs(s: State, id: Id, seen: seq<Id>, waits: set<nat>) {
    && id in Occupied(s) && seen == []
    && forall d :: d in s.drains && d !in waits ==> id !in s.drains[d]
  }

  ghost predicate OnOrig(s: State, id: Id, seen: seq<Id>) {
    exists i :: 0 <= i < |s.orig| && s.orig[i] == id && seen == s.orig[..i + 1]
  }

  ghost predicate Good(j: Joint) {
    match j.k
    case NotStarted => true
    case On(id, seen, waits) => OnOurs(j.s, id, seen, waits) || OnOrig(j.s, id, seen)
    case Ended(seen) => seen == j.s.orig
  }

  /** Only the end of a drain that counts it makes a node unoccupied. */
  lemma {:induction false} StaysOccupied(s: State, step: Step, s': State, u: Id)
    requires Inv(s) && IsStep(s, step, s') && u in Occupied(s)
    requires step.EndDrain? && step.d in s.drains ==> u !in s.drains[step.d]
    ensures u in Occupied(s')
  {
    if step.EndDrain? {
      EndedLeave(s, step.d, s');
    } else if step.FixSucc? {
      FixSuccOccupied(s, step.ok, s');
    }
  }

  /** A drain counts fewer nodes as time goes by. */
  lemma {:induction false} DrainsShrink(s: State, step: Step, s': State, d: nat)
    requires IsStep(s, step, s') && d in s'.drains && step != BeginDrain(d)
    ensures d in s.drains && s'.drains[d] <= s.drains[d]
  {
  }

  lemma {:induction false} WriteKeepsGood(a: Joint, step: Step, b: Joint)
    requires Inv(a.s) && Good(a) && Happens(a, Write(step), b)
    ensures Good(b)
  {
    OrigFixed(a.s, step, b.s);
    hide Inv, IsStep, Occupied;
    if a.k.On? && OnOurs(a.s, a.k.id, a.k.seen, a.k.waits) {
      StaysOccupied(a.s, step, b.s, a.k.id);
      forall d | d in b.s.drains && d !in b.k.waits
        ensures a.k.id !in b.s.drains[d]
      {
        DrainsShrink(a.s, step, b.s, d);
      }
    }
  }

  /** The first node is a registered entry, or one of ours that no drain counts. */
  lemma {:induction false} EnterKeepsGood(a: Joint, b: Joint)
    requires Inv(a.s) && Happens(a, Enter, b)
    ensures Good(b)
  {
    var s := a.s;
    FirstLeadsOn(s);
    var first := s.words.first.value;
    if first == s.orig[0] {
      assert s.orig[..1] == [first];
    } else {
      FirstIsReachable(s);
      NotOrig(s, first);
      forall d | d in s.drains
        ensures first !in s.drains[d]
      {
        assert DrainOk(s, s.drains[d]);
        ReachableNotCounted(s, s.drains[d], first);
      }
    }
  }

  lemma {:induction false} FirstIsReachable(s: State)
    requires Shape(s)
    ensures s.words.first == Some(s.orig[0]) || (s.words.first.Some? && s.words.first.value in Reachable(s))
  {
    var all := s.linked + s.orig;
    assert NodeLaid(Settled(s), all, 0);
    match s.pc
    case Unlinked(h, slot, succ) => SuccessorInList(s, h, succ);
    case Relinking(h, slot, succ) => SuccessorInList(s, h, succ);
    case _ =>
  }

  lemma {:induction false} ReachableNotCounted(s: State, gone: set<Id>, u: Id)
    requires Shape(s) && DrainOk(s, gone) && u in Reachable(s)
    ensures u !in gone
  {
  }

  lemma {:induction false} NotOrig(s: State, u: Id)
    requires Shape(s) && u in Occupied(s)
    ensures u !in s.orig
  {
    if u in s.linked {
      LinkedNotOrig(s, u);
    }
  }

  lemma {:induction false} MoveKeepsGood(a: Joint, b: Joint)
    requires Inv(a.s) && !ClearsOccupied(a.s) && Good(a) && Happens(a, Move, b)
    ensures Good(b)
  {
    if OnOrig(a.s, a.k.id, a.k.seen) {
      MoveOnOrig(a, b);
    } else {
      MoveOnOurs(a, b);
    }
  }

  lemma {:induction false} MoveOnOrig(a: Joint, b: Joint)
    requires Shape(a.s) && a.k.On? && OnOrig(a.s, a.k.id, a.k.seen) && Happens(a, Move, b)
    ensures Good(b)
  {
    var s := a.s;
    var i :| 0 <= i < |s.orig| && s.orig[i] == a.k.id && a.k.seen == s.orig[..i + 1];
    OrigNextUntouched(s, i);
    hide Shape;
    if i + 1 < |s.orig| {
      assert s.orig[..i + 2] == s.orig[..i + 1] + [s.orig[i + 1]];
    } else {
      assert s.orig[..i + 1] == s.orig;
    }
  }

  lemma {:induction false} MoveOnOurs(a: Joint, b: Joint)
    requires Inv(a.s) && !ClearsOccupied(a.s) && a.k.On? && OnOurs(a.s, a.k.id, a.k.seen, a.k.waits)
    requires Happens(a, Move, b)
    ensures Good(b)
  {
    var s, u := a.s, a.k.id;
    var rank: map<Id, nat> :| Ranked(s, rank);
    assert Leads(s, rank, u);
    var v := s.words.next[u].value;
    assert Live(s)[u] == Some(v);
    if v == s.orig[0] {
      assert s.orig[..1] == [v];
    } else {
      NotOrig(s, v);
      forall d | d in s.drains && d !in a.k.waits
        ensures v !in s.drains[d]
      {
        assert DrainOk(s, s.drains[d]);
        assert !LeadsInto(s, u, s.drains[d]);
      }
    }
  }

  /** In every interleaving that clears no occupied node the walk goes well at every moment. */
  lemma {:induction false} WalkKeepsGood(js: seq<Joint>, es: seq<Event>, i: nat)
    requires IsWalk(js, es) && i < |js|
    requires forall k :: 0 <= k < i ==> !ClearsOccupied(js[k].s)
    ensures Inv(js[i].s) && Good(js[i])
  {
    hide Inv, OnOurs, OnOrig, ClearsOccupied;
    if i == 0 {
      InitialInv(js[0].s);
    } else {
      WalkKeepsGood(js, es, i - 1);
      var a, e, b := js[i - 1], es[i - 1], js[i];
      assert Happens(a, e, b);
      match e
      case Write(step) =>
        StepKeepsInv(a.s, step, b.s);
        WriteKeepsGood(a, step, b);
      case Enter => EnterKeepsGood(a, b);
      case Move => MoveKeepsGood(a, b);
    }
  }

  lemma {:induction false} GoodIsComplete(j: Joint)
    requires Good(j)
    ensures WalkComplete(j)
  {
  }

  // ---- every occupied node can have a walker ----------------------------------------------

  lemma {:induction false} Extend(js: seq<Joint>, es: seq<Event>, e: Event, b: Joint)
    requires IsWalk(js, es) && Happens(js[|es|], e, b)
    ensures IsWalk(js + [b], es + [e])
    ensures Writes(es + [e]) == Writes(es) + if e.Write? then [e.step] else []
  {
    hide Initial, Happens;
    assert (es + [e])[..|es|] == es;
    forall i {:trigger (es + [e])[i]} | 0 <= i < |es + [e]|
      ensures Happens((js + [b])[i], (es + [e])[i], (js + [b])[i + 1])
    {
      assert i < |es| ==> (es + [e])[i] == es[i];
    }
  }

  /** A run is an interleaving in which no walker comes. */
  lemma {:induction false} RunIsWalk(states: seq<State>, steps: seq<Step>, i: nat) returns (js: seq<Joint>, es: seq<Event>)
    requires IsRun(states, steps) && i < |states|
    ensures IsWalk(js, es) && js[0].s == states[0] && Writes(es) == steps[..i]
    ensures js[|es|] == Joint(states[i], NotStarted)
  {
    hide Initial, IsStep;
    if i == 0 {
      js, es := [Joint(states[0], NotStarted)], [];
    } else {
      js, es := RunIsWalk(states, steps, i - 1);
      var b := Joint(states[i], NotStarted);
      assert IsStep(states[i - 1], steps[i - 1], states[i]);
      Extend(js, es, Write(steps[i - 1]), b);
      js, es := js + [b], es + [Write(steps[i - 1])];
      assert steps[..i] == steps[..i - 1] + [steps[i - 1]];
    }
  }

  /** From where a new walker comes to node i of ours: from the head, or from a node before it. */
  lemma {:induction false} Before(s: State, i: nat) returns (k: int)
    requires Shape(s) && i < |s.linked| && s.linked[i] !in CutNode(s.pc)
    ensures -2 <= k < i
    ensures k == -2 ==> s.words.first == Some(s.linked[i])
    ensures k == -1 ==> s.words.first.Some? && s.words.first.value in PublishedNode(s.pc)
                        && s.words.first.value in s.words.next && s.words.next[s.words.first.value] == Some(s.linked[i])
    ensures k >= 0 ==> s.linked[k] !in CutNode(s.pc)
                       && s.linked[k] in s.words.next && s.words.next[s.linked[k]] == Some(s.linked[i])
  {
    var all, w := s.linked + s.orig, Settled(s);
    assert all[i] == s.linked[i] && NodeLaid(w, all, i);
    if i == 0 {
      k := if PublishedNode(s.pc) == {} then -2 else -1;
    } else {
      assert all[i - 1] == s.linked[i - 1] && NodeLaid(w, all, i - 1);
      if s.linked[i - 1] !in CutNode(s.pc) {
        k := i - 1;
      } else if i == 1 {
        k := -2;
      } else {
        k := i - 2;
        assert all[i - 2] == s.linked[i - 2] && NodeLaid(w, all, i - 2);
      }
    }
  }

  lemma {:induction false} StepOn(js: seq<Joint>, es: seq<Event>, v: Id) returns (js': seq<Joint>, es': seq<Event>)
    requires IsWalk(js, es) && !js[|es|].k.Ended? && Ahead(js[|es|].s, js[|es|].k) == Some(v) && v !in js[|es|].s.orig
    requires js[|es|].k.On? ==> js[|es|].k.seen == [] && js[|es|].k.waits == {}
    ensures IsWalk(js', es') && js'[0] == js[0] && Writes(es') == Writes(es)
    ensures js'[|es'|] == Joint(js[|es|].s, On(v, [], {}))
  {
    hide Initial;
    var a := js[|es|];
    var e := if a.k.On? then Move else Enter;
    var b := Joint(a.s, On(v, [], {}));
    assert Visit(a.s.orig, [], v) == [];
    Extend(js, es, e, b);
    js', es' := js + [b], es + [e];
  }

  /** A new walker reaches every node of ours that is in the list, without a write in between. */
  lemma {:induction false} WalkTo(js: seq<Joint>, es: seq<Event>, i: nat) returns (js': seq<Joint>, es': seq<Event>)
    requires IsWalk(js, es) && js[|es|].k.NotStarted?
    requires var s := js[|es|].s; Shape(s) && i < |s.linked| && s.linked[i] !in CutNode(s.pc)
    ensures IsWalk(js', es') && js'[0] == js[0] && Writes(es') == Writes(es)
    ensures js'[|es'|] == Joint(js[|es|].s, On(js[|es|].s.linked[i], [], {}))
    decreases i
  {
    var s := js[|es|].s;
    var k := Before(s, i);
    LinkedNotOrig(s, s.linked[i]);
    js', es' := js, es;
    if k >= 0 {
      js', es' := WalkTo(js, es, k);
    } else if k == -1 {
      NotOrig(s, s.words.first.value);
      js', es' := StepOn(js, es, s.words.first.value);
    }
    hide Initial, Happens, Shape, CutNode, PublishedNode;
    js', es' := StepOn(js', es', s.linked[i]);
  }

  lemma {:induction false} NewWalker(states: seq<State>, steps: seq<Step>, i: nat, u: Id) returns (js: seq<Joint>, es: seq<Event>)
    requires IsRun(states, steps) && i < |states| && u in Reachable(states[i])
    ensures IsWalk(js, es) && js[0].s == states[0] && Writes(es) == steps[..i]
    ensures js[|es|] == Joint(states[i], On(u, [], {}))
  {
    RunKeepsInv(states, steps, i);
    var s := states[i];
    js, es := RunIsWalk(states, steps, i);
    if u in PublishedNode(s.pc) {
      NotOrig(s, u);
      js, es := StepOn(js, es, u);
    } else {
      var k :| 0 <= k < |s.linked| && s.linked[k] == u;
      js, es := WalkTo(js, es, k);
    }
  }

  /** Where an occupied node was before a step, if no new walker can reach it now. */
  lemma {:induction false} WasOccupied(s: State, step: Step, s': State, u: Id)
    requires Inv(s) && IsStep(s, step, s') && u in s'.stale && u !in Reachable(s')
    ensures u in Occupied(s)
    ensures forall d :: d in s.drains && u in s.drains[d] ==> step != EndDrain(d) && d in s'.drains && u in s'.drains[d]
    ensures step.BeginDrain? ==> step.d in s'.drains && u in s'.drains[step.d]
  {
    forall d | d in s.drains && u in s.drains[d]
      ensures step != EndDrain(d) && d in s'.drains && u in s'.drains[d]
    {
      assert DrainOk(s, s.drains[d]);
    }
  }

  lemma {:induction false} StartsClean(states: seq<State>, steps: seq<Step>)
    requires IsRun(states, steps)
    ensures Occupied(states[0]) == {}
  {
  }

  /** For every node that counts as occupied there is an interleaving that puts a walker on it. */
  lemma {:induction false} CanStandOn(states: seq<State>, steps: seq<Step>, i: nat, u: Id) returns (js: seq<Joint>, es: seq<Event>)
    requires IsRun(states, steps) && i < |states| && u in Occupied(states[i])
    ensures IsWalk(js, es) && js[0].s == states[0] && Writes(es) == steps[..i]
    ensures js[|es|].s == states[i] && js[|es|].k.On? && js[|es|].k.id == u && js[|es|].k.seen == []
    ensures forall d :: d in js[|es|].k.waits ==> d in states[i].drains && u in states[i].drains[d]
  {
    hide Inv, IsStep, Initial;
    if u in Reachable(states[i]) {
      js, es := NewWalker(states, steps, i, u);
    } else {
      StartsClean(states, steps);
      var s, step, s' := states[i - 1], steps[i - 1], states[i];
      assert IsStep(s, step, s');
      RunKeepsInv(states, steps, i - 1);
      WasOccupied(s, step, s', u);
      js, es := CanStandOn(states, steps, i - 1, u);
      var b := Joint(s', WalkAfter(js[|es|].k, step));
      Extend(js, es, Write(step), b);
      js, es := js + [b], es + [Write(step)];
      assert steps[..i] == steps[..i - 1] + [step];
    }
  }

  /** If an occupied node is cleared, some walker ends there without having called a single
      registered entry. */
  lemma {:induction false} ClearingLosesAWalk(states: seq<State>, steps: seq<Step>, i: nat) returns (js: seq<Joint>, es: seq<Event>)
    requires IsRun(states, steps) && i < |states| && ClearsOccupied(states[i])
    ensures IsWalk(js, es) && js[0].s == states[0] && Writes(es) == steps[..i]
    ensures js[|es|] == Joint(states[i], Ended([])) && states[i].orig != []
  {
    RunKeepsInv(states, steps, i);
    js, es := CanStandOn(states, steps, i, states[i].pc.h);
    hide Initial, Inv;
    var b := Joint(states[i], Ended([]));
    Extend(js, es, Move, b);
    js, es := js + [b], es + [Move];
  }

  // ---- the condition ----------------------------------------------------------------------

  /** Step i begins an insertion of a node that left the list, or was rolled back, and that no drain
      begun since has covered. */
  ghost predicate Reuses(states: seq<State>, steps: seq<Step>, i: nat)
    requires i < |steps| < |states|
  {
    steps[i].Zero? && steps[i].h in states[i].stale
  }

  ghost predicate WalkAlong(js: seq<Joint>, es: seq<Event>, s0: State, steps: seq<Step>) {
    IsWalk(js, es) && js[0].s == s0 && Writes(es) <= steps
  }

  /** The words along an interleaving are those of the run it follows. */
  lemma {:induction false} AlongRun(js: seq<Joint>, es: seq<Event>, states: seq<State>, steps: seq<Step>, k: nat)
    requires IsRun(states, steps) && IsWalk(js, es) && js[0].s == states[0] && k <= |es| && Writes(es[..k]) <= steps
    ensures js[k].s == states[|Writes(es[..k])|]
  {
    hide Initial, Next, WalkAfter, Moved;
    if k > 0 {
      assert es[..k][..k - 1] == es[..k - 1];
      AlongRun(js, es, states, steps, k - 1);
      assert Happens(js[k - 1], es[k - 1], js[k]);
      if es[k - 1].Write? {
        var n := |Writes(es[..k - 1])|;
        assert steps[n] == es[k - 1].step;
      }
    }
  }

  lemma {:induction false} WritesGrow(es: seq<Event>, k: nat)
    requires k <= |es|
    ensures Writes(es[..k]) <= Writes(es)
    decreases |es| - k
  {
    if k < |es| {
      WritesGrow(es, k + 1);
      assert es[..k + 1][..k] == es[..k];
    } else {
      assert es[..k] == es;
    }
  }

  /** While a node is being set up it was already stale when its insertion began. */
  lemma {:induction false} ClearsFromReuse(states: seq<State>, steps: seq<Step>, i: nat) returns (k: nat)
    requires IsRun(states, steps) && i < |states| && ClearsOccupied(states[i])
    ensures k < |steps| && Reuses(states, steps, k)
  {
    assert i > 0;
    assert IsStep(states[i - 1], steps[i - 1], states[i]);
    if steps[i - 1].Zero? {
      k := i - 1;
    } else {
      k := ClearsFromReuse(states, steps, i - 1);
    }
  }

  lemma {:induction false} ReuseClears(states: seq<State>, steps: seq<Step>, i: nat)
    requires IsRun(states, steps) && i < |steps| && Reuses(states, steps, i)
    ensures ClearsOccupied(states[i + 1])
  {
    assert IsStep(states[i], steps[i], states[i + 1]);
  }

  lemma {:induction false} NoReuseNoLoss(states: seq<State>, steps: seq<Step>, js: seq<Joint>, es: seq<Event>)
    requires IsRun(states, steps) && WalkAlong(js, es, states[0], steps)
    requires forall i :: 0 <= i < |steps| ==> !Reuses(states, steps, i)
    ensures WalkComplete(js[|es|])
  {
    hide Initial, IsStep, Happens, ClearsOccupied, Reuses;
    forall k | 0 <= k < |es|
      ensures !ClearsOccupied(js[k].s)
    {
      WritesGrow(es, k);
      AlongRun(js, es, states, steps, k);
      if ClearsOccupied(js[k].s) {
        var i := ClearsFromReuse(states, steps, |Writes(es[..k])|);
      }
    }
    WalkKeepsGood(js, es, |es|);
    GoodIsComplete(js[|es|]);
  }

  /** For every run of insertions, removals, roll-backs and overlapping drains: every walker, whenever
      it comes and however its reads fall between the writes, calls all registered entries in order,
      if and only if no insertion of the run takes a node that is still stale. */
  lemma {:induction false} WalksCompleteIff(states: seq<State>, steps: seq<Step>)
    requires IsRun(states, steps)
    ensures (forall js: seq<Joint>, es: seq<Event> :: WalkAlong(js, es, states[0], steps) ==> WalkComplete(js[|es|]))
            <==> (forall i :: 0 <= i < |steps| ==> !Reuses(states, steps, i))
  {
    hide Initial, IsStep, Happens, ClearsOccupied, Reuses, WalkComplete;
    if forall i :: 0 <= i < |steps| ==> !Reuses(states, steps, i) {
      forall js: seq<Joint>, es: seq<Event> | WalkAlong(js, es, states[0], steps)
        ensures WalkComplete(js[|es|])
      {
        NoReuseNoLoss(states, steps, js, es);
      }
    } else {
      var js, es := ReuseLosesAWalk(states, steps);
      assert WalkAlong(js, es, states[0], steps);
    }
  }

  lemma {:induction false} ReuseLosesAWalk(states: seq<State>, steps: seq<Step>) returns (js: seq<Joint>, es: seq<Event>)
    requires IsRun(states, steps) && exists i :: 0 <= i < |steps| && Reuses(states, steps, i)
    ensures WalkAlong(js, es, states[0], steps) && !WalkComplete(js[|es|])
  {
    var i :| 0 <= i < |steps| && Reuses(states, steps, i);
    ReuseClears(states, steps, i);
    js, es := ClearingLosesAWalk(states, steps, i + 1);
  }

  // ---- stale nodes, told from the steps -----------------------------------------------------

  /** Step k takes h out of the list: it is unlinked, or its insertion is rolled back. */
  ghost predicate Leaves(states: seq<State>, steps: seq<Step>, k: nat, h: Id)
    requires k < |steps| < |states|
  {
    steps[k] == Unlink(h, true) || (steps[k].RollBack? && states[k].pc.Backing? && states[k].pc.h == h)
  }

  /** Step k lets walkers into h: it is published, or its removal is undone. */
  ghost predicate Enters(states: seq<State>, steps: seq<Step>, k: nat, h: Id)
    requires k < |steps| < |states|
  {
    || (steps[k] == Publish(true) && states[k].pc.Filled? && states[k].pc.h == h)
    || (steps[k].Relink? && states[k].pc.Relinking? && states[k].pc.h == h)
  }

  /** The step before i at which h last left, if walkers have not been let in since. */
  ghost function LeftAt(states: seq<State>, steps: seq<Step>, i: nat, h: Id): (j: Option<nat>)
    requires i <= |steps| < |states|
    ensures j.Some? ==> j.value < i && Leaves(states, steps, j.value, h)
    ensures j.Some? ==> forall k :: j.value < k < i ==> !Enters(states, steps, k, h)
  {
    if i == 0 then None
    else if Leaves(states, steps, i - 1, h) then Some(i - 1)
    else if Enters(states, steps, i - 1, h) then None
    else LeftAt(states, steps, i - 1, h)
  }

  /** The step before i at which drain d last began. */
  ghost function BeganAt(steps: seq<Step>, i: nat, d: nat): (b: Option<nat>)
    requires i <= |steps|
    ensures b.Some? ==> b.value < i && steps[b.value] == BeginDrain(d)
    ensures forall k :: 0 <= k < i && steps[k] == BeginDrain(d) ==> b.Some? && k <= b.value
  {
    if i == 0 then None else if steps[i - 1] == BeginDrain(d) then Some(i - 1) else BeganAt(steps, i - 1, d)
  }

  ghost predicate DrainWithin(steps: seq<Step>, j: nat, b: nat, e: nat, i: nat) {
    j < b < e < i <= |steps| && steps[b].BeginDrain? && steps[e] == EndDrain(steps[b].d)
  }

  /** Some drain that began after step j has ended before step i. */
  ghost predicate Covered(steps: seq<Step>, j: nat, i: nat) {
    exists b: nat, e: nat :: DrainWithin(steps, j, b, e, i)
  }

  ghost predicate Out(s: State, h: Id) {
    h in s.stale && h !in PublishedNode(s.pc)
  }

  /** `stale` and `drains` hold what the steps say. */
  ghost predicate StaleTold(states: seq<State>, steps: seq<Step>, i: nat, h: Id)
    requires i <= |steps| < |states|
  {
    var j := LeftAt(states, steps, i, h);
    && (Out(states[i], h) <==> j.Some? && !Covered(steps, j.value, i))
    && (h in PublishedNode(states[i].pc) ==> j.None?)
  }

  ghost predicate DrainTold(states: seq<State>, steps: seq<Step>, i: nat, h: Id, d: nat)
    requires i <= |steps| < |states| && d in states[i].drains
  {
    var b, j := BeganAt(steps, i, d), LeftAt(states, steps, i, h);
    b.Some? && (h in states[i].drains[d] <==> Out(states[i], h) && j.Some? && j.value < b.value)
  }

  /** A step other than the end of a drain covers nothing. */
  lemma {:induction false} CoveredNext(steps: seq<Step>, j: nat, i: nat)
    requires 0 < i <= |steps|
    ensures Covered(steps, j, i) <==>
            || Covered(steps, j, i - 1)
            || (steps[i - 1].EndDrain? && exists b: nat :: j < b < i - 1 && steps[b] == BeginDrain(steps[i - 1].d))
  {
    var last := i - 1;
    if b: nat, e: nat :| DrainWithin(steps, j, b, e, i) {
      if e < last {
        assert DrainWithin(steps, j, b, e, last);
      }
    }
    if b: nat, e: nat :| DrainWithin(steps, j, b, e, last) {
      assert DrainWithin(steps, j, b, e, i);
    }
    if steps[i - 1].EndDrain? {
      if b: nat :| j < b < i - 1 && steps[b] == BeginDrain(steps[i - 1].d) {
        assert DrainWithin(steps, j, b, i - 1, i);
      }
    }
  }

  /** One step, as far as node h is concerned. */
  lemma {:induction false} StaleStep(s: State, step: Step, s': State, h: Id, leaves: bool, enters: bool)
    requires Inv(s) && IsStep(s, step, s')
    requires leaves <==> step == Unlink(h, true) || (step.RollBack? && s.pc.Backing? && s.pc.h == h)
    requires enters <==> (step == Publish(true) && s.pc.Filled? && s.pc.h == h) || (step.Relink? && s.pc.Relinking? && s.pc.h == h)
    ensures leaves ==> Out(s', h) && !Out(s, h)
    ensures enters ==> !Out(s', h)
    ensures step.EndDrain? ==> step.d in s.drains
    ensures !leaves && !enters ==>
              (Out(s', h) <==> Out(s, h) && !(step.EndDrain? && h in s.drains[step.d]))
    ensures h in PublishedNode(s'.pc) ==> !leaves && (enters || h in PublishedNode(s.pc))
  {
    if step.EndDrain? {
      assert DrainOk(s, s.drains[step.d]);
    } else if step.Unlink? && step.ok {
      assert h == step.h ==> h !in PublishedNode(s'.pc);
    }
  }

  lemma {:induction false} DrainStep(s: State, step: Step, s': State, h: Id, d: nat)
    requires Inv(s) && IsStep(s, step, s') && d in s'.drains
    ensures step == BeginDrain(d) ==> (h in s'.drains[d] <==> Out(s', h))
    ensures step != BeginDrain(d) ==> d in s.drains && (h in s'.drains[d] <==> h in s.drains[d] && Out(s', h))
  {
    if d in s.drains {
      assert DrainOk(s, s.drains[d]);
    }
    if step.EndDrain? {
      assert DrainOk(s, s.drains[step.d]);
    }
  }

  lemma {:induction false} StaleIsTold(states: seq<State>, steps: seq<Step>, i: nat, h: Id)
    requires IsRun(states, steps) && i <= |steps|
    ensures StaleTold(states, steps, i, h)
    ensures forall d :: d in states[i].drains ==> DrainTold(states, steps, i, h, d)
  {
    hide Inv, Next;
    if i > 0 {
      StaleIsTold(states, steps, i - 1, h);
      RunKeepsInv(states, steps, i - 1);
      var s, step, s' := states[i - 1], steps[i - 1], states[i];
      assert IsStep(s, step, s');
      StaleStep(s, step, s', h, Leaves(states, steps, i - 1, h), Enters(states, steps, i - 1, h));
      hide IsStep, Initial, Out, PublishedNode;
      StaleToldNext(states, steps, i - 1, h);
      forall d | d in s'.drains
        ensures DrainTold(states, steps, i, h, d)
      {
        DrainStep(s, step, s', h, d);
        DrainToldNext(states, steps, i, h, d);
      }
    }
  }

  lemma {:induction false} StaleToldNext(states: seq<State>, steps: seq<Step>, k: nat, h: Id)
    requires k < |steps| < |states| && StaleTold(states, steps, k, h)
    requires forall d :: d in states[k].drains ==> DrainTold(states, steps, k, h, d)
    requires var leaves, enters := Leaves(states, steps, k, h), Enters(states, steps, k, h);
             && (leaves ==> Out(states[k + 1], h)) && (enters ==> !Out(states[k + 1], h))
             && (steps[k].EndDrain? ==> steps[k].d in states[k].drains)
             && (!leaves && !enters ==>
                   (Out(states[k + 1], h) <==> Out(states[k], h) && !(steps[k].EndDrain? && h in states[k].drains[steps[k].d])))
             && (h in PublishedNode(states[k + 1].pc) ==> !leaves && (enters || h in PublishedNode(states[k].pc)))
    ensures StaleTold(states, steps, k + 1, h)
  {
    hide Leaves, Enters, Out, PublishedNode, Covered;
    var j := LeftAt(states, steps, k + 1, h);
    if j.Some? {
      CoveredNext(steps, j.value, k + 1);
      NotYetCovered(steps, j.value, k + 1);
      if steps[k].EndDrain? {
        assert DrainTold(states, steps, k, h, steps[k].d);
      }
    }
  }

  lemma {:induction false} NotYetCovered(steps: seq<Step>, j: nat, i: nat)
    requires i <= |steps|
    ensures j + 1 >= i ==> !Covered(steps, j, i)
  {
  }

  lemma {:induction false} DrainToldNext(states: seq<State>, steps: seq<Step>, i: nat, h: Id, d: nat)
    requires 0 < i <= |steps| < |states| && d in states[i].drains
    requires StaleTold(states, steps, i, h)
    requires steps[i - 1] == BeginDrain(d) ==> (h in states[i].drains[d] <==> Out(states[i], h))
    requires steps[i - 1] != BeginDrain(d) ==>
               && d in states[i - 1].drains && DrainTold(states, steps, i - 1, h, d)
               && (h in states[i].drains[d] <==> h in states[i - 1].drains[d] && Out(states[i], h))
    requires Leaves(states, steps, i - 1, h) ==> !Out(states[i - 1], h)
    requires Out(states[i], h) && !Leaves(states, steps, i - 1, h) ==> Out(states[i - 1], h)
    ensures DrainTold(states, steps, i, h, d)
  {
    hide Enters, Out, PublishedNode, Covered;
  }

  /** Which insertions reuse a node, told from the steps: h has left the list or been rolled back, no
      walker has been let into it since, and no drain that began after that has ended. */
  lemma {:induction false} ReusesIff(states: seq<State>, steps: seq<Step>, i: nat)
    requires IsRun(states, steps) && i < |steps| && steps[i].Zero?
    ensures var j := LeftAt(states, steps, i, steps[i].h);
            Reuses(states, steps, i) <==> j.Some? && !Covered(steps, j.value, i)
  {
    StaleIsTold(states, steps, i, steps[i].h);
    assert IsStep(states[i], steps[i], states[i + 1]);
    hide Covered, LeftAt;
  }

  /** So a node whose unhook has returned, its own drain having ended, can be taken again, whatever
      else went on while that drain waited. */
  lemma {:induction false} ReturnedUnhookIsDrained(states: seq<State>, steps: seq<Step>, h: Id, j: nat, b: nat, e: nat, i: nat)
    requires IsRun(states, steps) && j < b < e < i <= |steps| && Leaves(states, steps, j, h)
    requires steps[b].BeginDrain? && steps[e] == EndDrain(steps[b].d)
    requires forall k :: j < k < i ==> !Enters(states, steps, k, h) && !Leaves(states, steps, k, h)
    ensures h !in states[i].stale
  {
    LeftStays(states, steps, j, i, h);
    StaleIsTold(states, steps, i, h);
    assert DrainWithin(steps, j, b, e, i);
  }

  lemma {:induction false} LeftStays(states: seq<State>, steps: seq<Step>, j: nat, i: nat, h: Id)
    requires j < i <= |steps| < |states| && Leaves(states, steps, j, h)
    requires forall k :: j < k < i ==> !Enters(states, steps, k, h) && !Leaves(states, steps, k, h)
    ensures LeftAt(states, steps, i, h) == Some(j)
    decreases i
  {
    hide Leaves, Enters;
    if j + 1 < i {
      LeftStays(states, steps, j, i - 1, h);
    }
  }

  /** A drain that was already waiting when a node left the list does not cover it: the node taken
      again after that drain loses a walk. */
  lemma {:induction false} EarlierDrainDoesNotCover(states: seq<State>, steps: seq<Step>, b: Id, d: nat)
    returns (states': seq<State>, steps': seq<Step>)
    requires IsRun(states, steps)
    requires var s := states[|steps|]; s.pc.Idle? && b in s.linked && d in s.drains
    ensures IsRun(states', steps') && steps' == steps + [Unlink(b, true), FixSucc(true), EndDrain(d), Zero(b)]
    ensures Reuses(states', steps', |steps| + 3)
  {
    var s := states[|steps|];
    RunKeepsInv(states, steps, |steps|);
    RemovalNotRefused(states, steps, |steps|, b, true);
    var s1 := Next(s, Unlink(b, true)).value;
    ExtendRun(states, steps, Unlink(b, true), s1);
    var s2 := Next(s1, FixSucc(true)).value;
    ExtendRun(states + [s1], steps + [Unlink(b, true)], FixSucc(true), s2);
    StepKeepsInv(s, Unlink(b, true), s1);
    StillOut(s, s1, s2, b, d);
    var s3 := Next(s2, EndDrain(d)).value;
    ExtendRun(states + [s1] + [s2], steps + [Unlink(b, true)] + [FixSucc(true)], EndDrain(d), s3);
    var s4 := Next(s3, Zero(b)).value;
    states', steps' := states + [s1] + [s2] + [s3] + [s4], steps + [Unlink(b, true), FixSucc(true), EndDrain(d), Zero(b)];
    ExtendRun(states + [s1] + [s2] + [s3], steps + [Unlink(b, true)] + [FixSucc(true)] + [EndDrain(d)], Zero(b), s4);
    assert steps' == steps + [Unlink(b, true)] + [FixSucc(true)] + [EndDrain(d)] + [Zero(b)];
  }

  lemma {:induction false} StillOut(s: State, s1: State, s2: State, b: Id, d: nat)
    requires Inv(s) && Shape(s1) && d in s.drains && IsStep(s, Unlink(b, true), s1) && IsStep(s1, FixSucc(true), s2)
    ensures d in s2.drains && b in s2.stale && b !in s2.drains[d] && b !in s2.linked && b !in s2.orig
    ensures s2.pc.Idle? && s2.words.first.Some?
  {
    hide Laid, Live, Chained;
    assert DrainOk(s, s.drains[d]);
    LinkedNotOrig(s, b);
    LinkedDistinct(s);
    var i :| 0 <= i < |s.linked| && s.linked[i] == b;
    WithoutIsCut(s.linked, i);
    DistinctCut(s.linked, i);
    FirstIsReachable(s1);
  }
}
