/** The pipeline never gets stuck: the main thread's wait on a full ring ends, and from every reachable
    state everything received can be delivered. */
module PipelineProgress {
  import opened PacketTypes
  import opened Words
  import opened Pipeline
  import opened PipelineSafety

  /** No lane ever holds more than a full ring, a burst and a batch. */
  lemma LaneBound(s: State, i: nat)
    requires Inv(s) && i < |s.lanes|
    ensures Load(s.lanes[i]) + (if i == s.main.inIndex then Unpushed(s.main) else 0)
         <= CAPACITY + DEFAULT_BATCH_SIZE + DEFAULT_ETH_BATCH_SIZE
  {
  }

  /** The main thread still has to put packets into an input ring. */
  predicate Spinning(s: State) {
    s.main.pc == Enqueue && s.main.enqueued < s.main.batchEnq
  }

  /** How many turns the worker of the lane needs before the rest of the batch fits. */
  function Stall(s: State): nat
    requires WellFormed(s)
  {
    var lane := s.lanes[s.main.inIndex];
    if Unpushed(s.main) <= CAPACITY - |lane.ringIn| then 0 else if lane.hand == [] then 1 else 2
  }

  /** While the main thread spins, the worker's output ring has room for all it has in hand. */
  lemma WorkerCanPush(s: State)
    requires Inv(s) && Spinning(s) && Stall(s) > 0
    ensures var lane := s.lanes[s.main.inIndex];
      |lane.ringOut| + |lane.hand| <= CAPACITY
  {
    LaneBound(s, s.main.inIndex);
  }

  /** A turn of the lane's worker brings the end of the wait nearer. */
  lemma WorkerHelps(s: State)
    requires Inv(s) && Spinning(s)
    ensures var s' := Step(s, WorkerTick(s.main.inIndex));
      && WellFormed(s') && s'.main == s.main && s'.owner == s.owner
      && Stall(s') <= if Stall(s) == 0 then 0 else Stall(s) - 1
  {
    WorkerKeepsInv(s, s.main.inIndex);
    if Stall(s) > 0 { WorkerCanPush(s); }
  }

  lemma OthersDoNotHurt(s: State, i: nat)
    requires Inv(s) && Spinning(s) && i < |s.lanes| && i != s.main.inIndex
    ensures var s' := Step(s, WorkerTick(i));
      WellFormed(s') && s'.main == s.main && s'.owner == s.owner && Stall(s') == Stall(s)
  {
    WorkerKeepsInv(s, i);
  }

  /** A turn of the main thread either ends the wait or leaves it no longer than it was. */
  lemma MainSpins(s: State, received: nat)
    requires Inv(s) && Spinning(s) && received <= DEFAULT_ETH_BATCH_SIZE
    ensures var s' := Step(s, MainTick(received));
      && |s'.owner| - |s.owner| + Unpushed(s'.main) == Unpushed(s.main)
      && s'.main.inIndex == s.main.inIndex && s'.main.pc == Enqueue && |s'.owner| >= |s.owner|
      && (Stall(s) == 0 ==> !Spinning(s'))
      && WellFormed(s') && (Spinning(s') ==> Stall(s') <= Stall(s))
  {
    EnqueueCounts(s);
  }

  function Turns(es: seq<Event>, lane: nat): nat {
    if es == [] then 0 else (if es[0] == WorkerTick(lane) then 1 else 0) + Turns(es[1..], lane)
  }

  lemma StepDeals(s: State, e: Event)
    requires Inv(s) && Possible(s, e)
    ensures |Step(s, e).owner| >= |s.owner|
  {
  }

  lemma {:induction false} RunDeals(s: State, es: seq<Event>)
    requires Inv(s) && PossibleRun(s, es)
    ensures |Reach(s, es).owner| >= |s.owner|
    decreases |es|
  {
    hide Step, Possible;
    if es != [] {
      StepKeepsInv(s, es[0]);
      StepDeals(s, es[0]);
      RunDeals(Step(s, es[0]), es[1..]);
    }
  }

  /** The wait on a full input ring ends: in any interleaving, once the worker of that lane has had as
      many turns as `Stall` says, which is at most two, the main thread's next turn deals the rest of
      its batch.  Until then nothing else has to happen and nothing can undo the progress. */
  lemma {:induction false} WaitEnds(s: State, es: seq<Event>, received: nat)
    requires Inv(s) && Spinning(s) && PossibleRun(s, es) && received <= DEFAULT_ETH_BATCH_SIZE
    requires Turns(es, s.main.inIndex) >= Stall(s)
    ensures Stall(s) <= 2
    ensures |Step(Reach(s, es), MainTick(received)).owner| >= |s.owner| + Unpushed(s.main)
    decreases |es|
  {
    if es == [] {
      MainSpins(s, received);
    } else {
      var s' := Step(s, es[0]);
      StepKeepsInv(s, es[0]);
      match es[0] {
        case WorkerTick(i) =>
          if i == s.main.inIndex { WorkerHelps(s); } else { OthersDoNotHurt(s, i); }
          WaitEnds(s', es[1..], received);
        case MainTick(r) =>
          MainSpins(s, r);
          if Spinning(s') {
            WaitEnds(s', es[1..], received);
          } else {
            RunDeals(s', es[1..]);
            StepDeals(Reach(s, es), MainTick(received));
          }
      }
    }
  }

  // ----- everything received can be delivered ---------------------------------------------------

  /** Each packet weighs the number of moves that still lie before it in its lane. */
  function Weight(lane: Lane): nat {
    3 * |lane.ringIn| + 2 * |lane.hand| + |lane.ringOut|
  }

  function TotalWeight(lanes: seq<Lane>): nat {
    if lanes == [] then 0 else Weight(lanes[0]) + TotalWeight(lanes[1..])
  }

  /** The moves left before everything received so far is delivered. */
  function MovesLeft(s: State): int {
    4 * Pending(s.main) + TotalWeight(s.lanes)
  }

  lemma {:induction false} Reweigh(lanes: seq<Lane>, i: nat, lane: Lane)
    requires i < |lanes|
    ensures TotalWeight(lanes[i := lane]) == TotalWeight(lanes) - Weight(lanes[i]) + Weight(lane)
  {
    if i > 0 {
      assert lanes[i := lane][1..] == lanes[1..][i - 1 := lane];
      Reweigh(lanes[1..], i - 1, lane);
    } else {
      assert lanes[i := lane][1..] == lanes[1..];
    }
  }

  lemma {:induction false} HeavyLane(lanes: seq<Lane>) returns (i: nat)
    requires TotalWeight(lanes) > 0
    ensures i < |lanes| && Load(lanes[i]) > 0
  {
    if Load(lanes[0]) > 0 {
      i := 0;
    } else {
      i := HeavyLane(lanes[1..]);
      i := i + 1;
    }
  }

  predicate CanMove(lane: Lane) {
    if lane.hand == [] then lane.ringIn != [] else |lane.ringOut| < CAPACITY
  }

  lemma MoveWorker(s: State, i: nat)
    requires Inv(s) && i < |s.lanes| && CanMove(s.lanes[i])
    ensures MovesLeft(Step(s, WorkerTick(i))) < MovesLeft(s)
  {
    var lane := s.lanes[i];
    assert Fits(lane);
    assert Weight(WorkerStep(lane)) < Weight(lane);
    Reweigh(s.lanes, i, WorkerStep(lane));
  }

  lemma MoveEnqueue(s: State)
    requires Inv(s) && Spinning(s) && !CanMove(s.lanes[s.main.inIndex])
    ensures MovesLeft(Step(s, MainTick(0))) < MovesLeft(s)
  {
    var r := s.main.inIndex;
    LaneBound(s, r);
    assert |s.lanes[r].ringIn| < CAPACITY;
    Reweigh(s.lanes, r, Step(s, MainTick(0)).lanes[r]);
  }

  lemma MoveAggregate(s: State)
    requires Inv(s) && s.main.pc == Aggregate
    ensures MovesLeft(Step(s, MainTick(0))) == MovesLeft(s) - |s.lanes[s.main.outIndex].ringOut|
  {
    var v := s.main.outIndex;
    Collected(s);
    Reweigh(s.lanes, v, Step(s, MainTick(0)).lanes[v]);
  }

  /** One more step in front of a run. */
  lemma Prepend(s: State, e: Event, es: seq<Event>)
    requires Inv(s) && Possible(s, e) && Inv(Step(s, e)) && PossibleRun(Step(s, e), es)
    ensures PossibleRun(s, [e] + es) && Reach(s, [e] + es) == Reach(Step(s, e), es)
  {
    hide Inv;
    assert ([e] + es)[1..] == es;
  }

  predicate Silent(es: seq<Event>) {
    forall e :: e in es ==> e.MainTick? ==> e.received == 0
  }

  lemma {:induction false} DealPending(s: State) returns (es: seq<Event>)
    requires Inv(s) && Pending(s.main) > 0 && !Spinning(s)
    ensures PossibleRun(s, es) && Silent(es)
    ensures var t := Reach(s, es);
      MovesLeft(t) < MovesLeft(s) || (Spinning(t) && MovesLeft(t) == MovesLeft(s))
    decreases match s.main.pc case Enqueue => 3 case Aggregate => 2 case _ => 1
  {
    hide TotalWeight;
    var s' := Step(s, MainTick(0));
    StepKeepsInv(s, MainTick(0));
    if s.main.pc == Aggregate { MoveAggregate(s); }
    assert s.main.pc != Aggregate ==> s'.lanes == s.lanes;
    if Spinning(s') {
      es := [];
    } else {
      es := DealPending(s');
    }
    Prepend(s, MainTick(0), es);
    es := [MainTick(0)] + es;
  }

  lemma {:induction false} PollLane(s: State, v: nat) returns (es: seq<Event>)
    requires Inv(s) && Pending(s.main) == 0 && v < |s.lanes| && s.lanes[v].ringOut != []
    ensures PossibleRun(s, es) && Silent(es) && MovesLeft(Reach(s, es)) < MovesLeft(s)
    decreases Ahead(v, s.main.outIndex, |s.lanes|),
              match s.main.pc case Enqueue => 3 case InnerHead => 2 case Receive => 1 case Aggregate => 0
  {
    hide TotalWeight;
    var s' := Step(s, MainTick(0));
    StepKeepsInv(s, MainTick(0));
    if s.main.pc == Aggregate {
      MoveAggregate(s);
      Collected(s);
      Rotate(s.main.outIndex, |s.lanes|);
    }
    if s.main.pc == Receive {
      InFlight(s);
      LaneLoad(s.lanes, v);
    }
    assert s.main.pc != Aggregate ==> s'.lanes == s.lanes;
    if s.main.pc == Aggregate && s.main.outIndex == v {
      es := [];
    } else {
      es := PollLane(s', v);
    }
    Prepend(s, MainTick(0), es);
    es := [MainTick(0)] + es;
  }

  lemma {:induction false} Append(s: State, es: seq<Event>, fs: seq<Event>)
    requires Inv(s) && PossibleRun(s, es) && PossibleRun(Reach(s, es), fs)
    ensures PossibleRun(s, es + fs) && Reach(s, es + fs) == Reach(Reach(s, es), fs)
    decreases |es|
  {
    if es == [] {
      assert es + fs == fs;
    } else {
      assert (es + fs)[0] == es[0] && (es + fs)[1..] == es[1..] + fs;
      StepKeepsInv(s, es[0]);
      hide Inv, Step;
      Append(Step(s, es[0]), es[1..], fs);
    }
  }

  lemma Single(s: State, e: Event)
    requires Inv(s) && Possible(s, e)
    ensures PossibleRun(s, [e]) && Inv(Step(s, e)) && Reach(s, [e]) == Step(s, e)
  {
    StepKeepsInv(s, e);
    hide Inv, Step, WellFormed;
    assert [e][1..] == [];
  }

  /** As long as moves are left, some move can be made without anything new arriving. */
  lemma Improve(s: State) returns (es: seq<Event>)
    requires Inv(s) && MovesLeft(s) > 0
    ensures PossibleRun(s, es) && Silent(es) && MovesLeft(Reach(s, es)) < MovesLeft(s)
  {
    hide TotalWeight, Step;
    if i :| 0 <= i < |s.lanes| && CanMove(s.lanes[i]) {
      es := [WorkerTick(i)];
      Single(s, WorkerTick(i));
      MoveWorker(s, i);
    } else if Spinning(s) {
      es := [MainTick(0)];
      Single(s, MainTick(0));
      MoveEnqueue(s);
    } else if Pending(s.main) > 0 {
      es := DealPending(s);
      var t := Reach(s, es);
      if Spinning(t) && MovesLeft(t) == MovesLeft(s) {
        var fs := ImproveSpinning(t);
        Append(s, es, fs);
        es := es + fs;
      }
    } else {
      PendingNonNegative(s);
      var v := HeavyLane(s.lanes);
      assert !CanMove(s.lanes[v]) && s.lanes[v].ringOut != [];
      es := PollLane(s, v);
    }
  }

  lemma PendingNonNegative(s: State)
    requires WellFormed(s)
    ensures Pending(s.main) >= 0
  {
  }

  lemma ImproveSpinning(s: State) returns (es: seq<Event>)
    requires Inv(s) && Spinning(s)
    ensures PossibleRun(s, es) && Silent(es) && MovesLeft(Reach(s, es)) < MovesLeft(s)
  {
    hide TotalWeight, Step;
    var r := s.main.inIndex;
    if CanMove(s.lanes[r]) {
      es := [WorkerTick(r)];
      Single(s, WorkerTick(r));
      MoveWorker(s, r);
    } else {
      es := [MainTick(0)];
      Single(s, MainTick(0));
      MoveEnqueue(s);
    }
  }

  lemma {:induction false} EmptyLanes(lanes: seq<Lane>)
    requires TotalWeight(lanes) == 0
    ensures forall i :: 0 <= i < |lanes| ==> Load(lanes[i]) == 0
  {
    if lanes != [] {
      EmptyLanes(lanes[1..]);
      forall i | 0 <= i < |lanes|
        ensures Load(lanes[i]) == 0
      {
        if i > 0 { assert lanes[i] == lanes[1..][i - 1]; }
      }
    }
  }

  /** With no moves left the main thread comes back to the head of its receive loop. */
  lemma {:induction false} ComeHome(s: State) returns (es: seq<Event>)
    requires Inv(s) && MovesLeft(s) == 0
    ensures PossibleRun(s, es) && Silent(es)
    ensures var t := Reach(s, es);
      t.main.pc == Receive && MovesLeft(t) == 0 && t.main.rx == s.main.rx
    decreases match s.main.pc case Enqueue => 3 case Aggregate => 2 case InnerHead => 1 case Receive => 0
  {
    hide TotalWeight;
    PendingNonNegative(s);
    if s.main.pc == Receive {
      es := [];
    } else {
      var s' := Step(s, MainTick(0));
      StepKeepsInv(s, MainTick(0));
      if s.main.pc == Aggregate {
        MoveAggregate(s);
        EmptyLanes(s.lanes);
      }
      assert s.main.pc != Aggregate ==> s'.lanes == s.lanes;
      es := ComeHome(s');
      Prepend(s, MainTick(0), es);
      es := [MainTick(0)] + es;
    }
  }

  lemma {:induction false} SilentRun(s: State, es: seq<Event>)
    requires Inv(s) && PossibleRun(s, es) && Silent(es)
    ensures Reach(s, es).main.rx == s.main.rx
    decreases |es|
  {
    if es != [] {
      StepKeepsInv(s, es[0]);
      assert es[0] in es;
      SilentRun(Step(s, es[0]), es[1..]);
    }
  }

  lemma {:induction false} RunOut(s: State) returns (es: seq<Event>)
    requires Inv(s)
    ensures PossibleRun(s, es) && Silent(es) && MovesLeft(Reach(s, es)) == 0
    decreases MovesLeft(s)
  {
    hide Step, MovesLeft;
    MovesNonNegative(s);
    if MovesLeft(s) == 0 {
      es := [];
    } else {
      var fs := Improve(s);
      MovesNonNegative(Reach(s, fs));
      var gs := RunOut(Reach(s, fs));
      Append(s, fs, gs);
      es := fs + gs;
    }
  }

  lemma MovesNonNegative(s: State)
    requires WellFormed(s)
    ensures MovesLeft(s) >= 0
  {
  }

  /** No reachable state is a dead end: from every one of them, without anything new arriving, a run
      leads to the head of the receive loop with every packet received so far delivered, stamped with
      its place in the order of arrival. */
  lemma CanDrain(s: State) returns (es: seq<Event>)
    requires Inv(s)
    ensures PossibleRun(s, es) && Silent(es)
    ensures var t := Reach(s, es);
      && t.main.pc == Receive && t.main.rx == s.main.rx && |t.delivered| == s.main.rx
      && (forall k: nat :: k < s.main.rx ==> StampedPacket(k) in t.delivered)
  {
    hide Step;
    var fs := RunOut(s);
    var u := Reach(s, fs);
    SilentRun(s, fs);
    var gs := ComeHome(u);
    Append(s, fs, gs);
    es := fs + gs;
    var t := Reach(u, gs);
    PendingNonNegative(t);
    EmptyLanes(t.lanes);
    InFlight(t);
    EmptyLoad(t.lanes);
    DeliveredAll(t);
  }

  lemma {:induction false} EmptyLoad(lanes: seq<Lane>)
    requires forall i :: 0 <= i < |lanes| ==> Load(lanes[i]) == 0
    ensures TotalLoad(lanes) == 0
  {
    if lanes != [] { EmptyLoad(lanes[..|lanes| - 1]); }
  }
}
