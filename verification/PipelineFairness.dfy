/** Every fair interleaving drains the pipeline: if no packets arrive and each thread gets its turns, all that was
    received is delivered, after a number of rounds that is known beforehand. */
module PipelineFairness {
  import opened PacketTypes
  import opened Words
  import opened Pipeline
  import opened PipelineSafety
  import opened PipelineProgress

  function MainTurns(es: seq<Event>): nat {
    if es == [] then 0 else (if es[0].MainTick? then 1 else 0) + MainTurns(es[1..])
  }

  /** Every worker has had a turn, and the main thread enough to visit every lane. */
  predicate Fair(es: seq<Event>, n: nat) {
    MainTurns(es) > 3 * n && forall i :: 0 <= i < n ==> Turns(es, i) > 0
  }

  // ----- no turn makes it worse ------------------------------------------------------------------------

  lemma WorkerLowers(s: State, i: nat)
    requires Inv(s) && i < |s.lanes|
    ensures var s' := Step(s, WorkerTick(i));
      && MovesLeft(s') <= MovesLeft(s) && (CanMove(s.lanes[i]) ==> MovesLeft(s') < MovesLeft(s))
      && (!CanMove(s.lanes[i]) ==> s' == s)
  {
    hide MovesLeft;
    if CanMove(s.lanes[i]) {
      MoveWorker(s, i);
    } else {
      StuckLane(s, i);
    }
  }

  lemma StuckLane(s: State, i: nat)
    requires WellFormed(s) && i < |s.lanes| && !CanMove(s.lanes[i])
    ensures Step(s, WorkerTick(i)) == s
  {
    assert Fits(s.lanes[i]);
    hide WellFormed, Fits, CanMove, WorkerStep, MainStep;
    StuckWorker(s.lanes[i]);
    SameLane(s.lanes, i);
  }

  lemma SameLane(lanes: seq<Lane>, i: nat)
    requires i < |lanes|
    ensures lanes[i := lanes[i]] == lanes
  {
  }

  lemma StuckWorker(lane: Lane)
    requires Fits(lane) && !CanMove(lane)
    ensures WorkerStep(lane) == lane
  {
    assert lane.hand[..0] == [] && lane.hand[0..] == lane.hand && lane.ringOut + [] == lane.ringOut;
    assert lane.hand == [] ==> lane.ringIn[..0] == [] && lane.ringIn[0..] == lane.ringIn;
  }

  lemma MainLowers(s: State)
    requires Inv(s)
    ensures var s' := Step(s, MainTick(0));
      MovesLeft(s') <= MovesLeft(s) && (MovesLeft(s') == MovesLeft(s) ==> s'.lanes == s.lanes)
  {
    hide TotalWeight;
    match s.main.pc
    case Enqueue =>
      if Spinning(s) { PushLowers(s); }
    case Aggregate =>
      MoveAggregate(s);
      Collected(s);
      if s.lanes[s.main.outIndex].ringOut == [] {
        assert s.lanes[s.main.outIndex].(ringOut := []) == s.lanes[s.main.outIndex];
      }
    case _ =>
  }

  lemma PushLowers(s: State)
    requires Inv(s) && Spinning(s)
    ensures var s', r := Step(s, MainTick(0)), s.main.inIndex;
      && MovesLeft(s') == MovesLeft(s) - (|s'.lanes[r].ringIn| - |s.lanes[r].ringIn|)
      && (MovesLeft(s') == MovesLeft(s) ==> s'.lanes == s.lanes) && MovesLeft(s') <= MovesLeft(s)
  {
    var r, s' := s.main.inIndex, Step(s, MainTick(0));
    assert Fits(s.lanes[r]);
    Reweigh(s.lanes, r, s'.lanes[r]);
    if |s'.lanes[r].ringIn| == |s.lanes[r].ringIn| {
      assert s'.lanes[r] == s.lanes[r];
    }
  }

  lemma SilentStep(s: State, e: Event)
    requires Inv(s) && Possible(s, e) && (e.MainTick? ==> e.received == 0)
    ensures MovesLeft(Step(s, e)) <= MovesLeft(s)
    ensures MovesLeft(Step(s, e)) == MovesLeft(s) ==> Step(s, e).lanes == s.lanes
  {
    match e
    case WorkerTick(i) => WorkerLowers(s, i);
    case MainTick(_) => MainLowers(s);
  }

  /** Over a silent run the number of moves left does not grow; if it stays the same, nothing has moved, and no worker
      that had a turn could move anything. */
  lemma {:induction false} SilentRunLowers(s: State, es: seq<Event>)
    requires Inv(s) && PossibleRun(s, es) && Silent(es)
    ensures MovesLeft(Reach(s, es)) <= MovesLeft(s)
    ensures MovesLeft(Reach(s, es)) == MovesLeft(s) ==>
              && Reach(s, es).lanes == s.lanes
              && forall i :: 0 <= i < |s.lanes| && Turns(es, i) > 0 ==> !CanMove(s.lanes[i])
    decreases |es|
  {
    if es != [] {
      assert es[0] in es;
      StepKeepsInv(s, es[0]);
      SilentStep(s, es[0]);
      if es[0].WorkerTick? { WorkerLowers(s, es[0].lane); }
      hide Inv, Step, MovesLeft, CanMove;
      SilentRunLowers(Step(s, es[0]), es[1..]);
    }
  }

  // ----- a fair round makes it better -------------------------------------------------------------------

  /** How many turns of the main thread it takes until it pushes something, or collects from lane `v`, if no worker
      moves. */
  function Patience(s: State, v: nat): int
    requires WellFormed(s) && v < |s.lanes|
  {
    if Pending(s.main) > 0 then
      match s.main.pc
      case Enqueue => if s.main.enqueued < s.main.batchEnq then 0 else 3
      case Aggregate => 2
      case _ => 1
    else
      3 * Ahead(v, s.main.outIndex, |s.lanes|) +
      match s.main.pc
      case Aggregate => 0
      case InnerHead => 2
      case _ => 1
  }

  ghost predicate Stuck(s: State) {
    forall i :: 0 <= i < |s.lanes| ==> !CanMove(s.lanes[i])
  }

  /** There is something for the main thread to do. */
  predicate Waiting(s: State, v: nat)
    requires v < |s.lanes|
  {
    Pending(s.main) > 0 || s.lanes[v].ringOut != []
  }

  /** When no worker can move anything, a turn of the main thread does, or brings it nearer. */
  lemma MainImproves(s: State, v: nat)
    requires Inv(s) && Stuck(s) && v < |s.lanes| && Waiting(s, v)
    ensures var s' := Step(s, MainTick(0));
      MovesLeft(s') < MovesLeft(s) ||
      (WellFormed(s') && s'.lanes == s.lanes && Waiting(s', v) && Patience(s', v) < Patience(s, v))
  {
    hide TotalWeight;
    StepKeepsInv(s, MainTick(0));
    match s.main.pc
    case Enqueue =>
      if Spinning(s) { MoveEnqueue(s); }
    case Aggregate =>
      MoveAggregate(s);
      Collected(s);
      Rotate(s.main.outIndex, |s.lanes|);
      if s.lanes[s.main.outIndex].ringOut == [] {
        assert s.lanes[s.main.outIndex].(ringOut := []) == s.lanes[s.main.outIndex];
      }
    case Receive =>
      InFlight(s);
      LaneLoad(s.lanes, v);
    case InnerHead =>
  }

  lemma PatienceBound(s: State, v: nat)
    requires WellFormed(s) && v < |s.lanes|
    ensures 0 <= Patience(s, v) <= 3 * |s.lanes|
  {
  }

  lemma {:induction false} StuckImproves(s: State, es: seq<Event>, v: nat)
    requires Inv(s) && PossibleRun(s, es) && Silent(es) && Stuck(s) && v < |s.lanes| && Waiting(s, v)
    requires MainTurns(es) > Patience(s, v)
    ensures MovesLeft(Reach(s, es)) < MovesLeft(s)
    decreases |es|
  {
    PatienceBound(s, v);
    assert es[0] in es;
    var s' := Step(s, es[0]);
    StepKeepsInv(s, es[0]);
    SilentRunLowers(s', es[1..]);
    if es[0].MainTick? {
      MainImproves(s, v);
      if MovesLeft(s') >= MovesLeft(s) {
        StuckImproves(s', es[1..], v);
        MainLowers(s);
      }
    } else {
      WorkerLowers(s, es[0].lane);
      StuckImproves(s', es[1..], v);
    }
  }

  /** A fair round lowers the number of moves left, as long as there are any. */
  lemma RoundLowers(s: State, es: seq<Event>)
    requires Inv(s) && PossibleRun(s, es) && Silent(es) && Fair(es, |s.lanes|) && MovesLeft(s) > 0
    ensures MovesLeft(Reach(s, es)) < MovesLeft(s)
  {
    SilentRunLowers(s, es);
    if MovesLeft(Reach(s, es)) == MovesLeft(s) {
      var v := SomethingWaits(s);
      PatienceBound(s, v);
      StuckImproves(s, es, v);
    }
  }

  lemma SomethingWaits(s: State) returns (v: nat)
    requires Inv(s) && Stuck(s) && MovesLeft(s) > 0
    ensures v < |s.lanes| && Waiting(s, v)
  {
    if Pending(s.main) > 0 {
      v := 0;
    } else {
      PendingNonNegative(s);
      v := HeavyLane(s.lanes);
      assert !CanMove(s.lanes[v]);
    }
  }

  // ----- all interleavings ------------------------------------------------------------------------------

  function Joined(rounds: seq<seq<Event>>): seq<Event> {
    if rounds == [] then [] else rounds[0] + Joined(rounds[1..])
  }

  lemma {:induction false} RunSplits(s: State, xs: seq<Event>, ys: seq<Event>)
    requires Inv(s) && PossibleRun(s, xs + ys)
    ensures PossibleRun(s, xs) && PossibleRun(Reach(s, xs), ys) && Reach(s, xs + ys) == Reach(Reach(s, xs), ys)
    decreases |xs|
  {
    if xs == [] {
      assert xs + ys == ys;
    } else {
      assert (xs + ys)[0] == xs[0] && (xs + ys)[1..] == xs[1..] + ys;
      StepKeepsInv(s, xs[0]);
      hide Inv, Step;
      RunSplits(Step(s, xs[0]), xs[1..], ys);
    }
  }

  lemma {:induction false} RoundsLower(s: State, rounds: seq<seq<Event>>)
    requires Inv(s) && PossibleRun(s, Joined(rounds)) && Silent(Joined(rounds))
    requires forall i :: 0 <= i < |rounds| ==> Fair(rounds[i], |s.lanes|)
    requires |rounds| >= MovesLeft(s)
    ensures MovesLeft(Reach(s, Joined(rounds))) == 0
    decreases |rounds|
  {
    hide Inv, MovesLeft, Fair, Silent, Step, PossibleRun;
    NonNegative(s);
    if rounds == [] {
    } else {
      var first, rest := rounds[0], Joined(rounds[1..]);
      RunSplits(s, first, rest);
      SilentParts(first, rest);
      var t := Reach(s, first);
      if MovesLeft(s) > 0 { RoundLowers(s, first); } else { SilentRunLowers(s, first); }
      NonNegative(t);
      RoundsLower(t, rounds[1..]);
    }
  }

  lemma NonNegative(s: State)
    requires Inv(s)
    ensures MovesLeft(s) >= 0
  {
    MovesNonNegative(s);
  }

  lemma SilentParts(xs: seq<Event>, ys: seq<Event>)
    requires Silent(xs + ys)
    ensures Silent(xs) && Silent(ys)
  {
    forall e | e in xs || e in ys
      ensures e.MainTick? ==> e.received == 0
    {
      assert e in xs + ys;
    }
  }

  /** What was dealt has been delivered or is in a lane. */
  lemma Conserved(s: State)
    requires Inv(s)
    ensures |s.owner| == |s.delivered| + TotalLoad(s.lanes)
  {
    DealtTotal(s.owner, |s.lanes|);
    OfLaneTotal(s.delivered, s.owner, |s.lanes|);
    LoadTotal(s, |s.lanes|);
    assert s.lanes[..|s.lanes|] == s.lanes;
  }

  /** With no moves left everything has been delivered. */
  lemma NothingLeft(s: State)
    requires Inv(s) && MovesLeft(s) == 0
    ensures |s.delivered| == s.main.rx && forall k: nat :: k < s.main.rx ==> StampedPacket(k) in s.delivered
  {
    PendingNonNegative(s);
    EmptyLanes(s.lanes);
    EmptyLoad(s.lanes);
    Conserved(s);
    hide TotalWeight, TotalLoad;
    forall k: nat | k < s.main.rx
      ensures StampedPacket(k) in s.delivered
    {
      ExactlyOnce(s, k);
      assert Load(s.lanes[s.owner[k]]) == 0;
      assert s.delivered + Contents(s.lanes[s.owner[k]]) == s.delivered;
    }
  }

  lemma {:induction false} WeightLast(lanes: seq<Lane>)
    requires lanes != []
    ensures TotalWeight(lanes) == TotalWeight(lanes[..|lanes| - 1]) + Weight(lanes[|lanes| - 1])
  {
    if |lanes| > 1 {
      assert lanes[..|lanes| - 1][1..] == lanes[1..][..|lanes| - 2];
      WeightLast(lanes[1..]);
    }
  }

  lemma {:induction false} WeightBound(lanes: seq<Lane>)
    ensures TotalWeight(lanes) <= 3 * TotalLoad(lanes)
  {
    if lanes != [] {
      WeightLast(lanes);
      WeightBound(lanes[..|lanes| - 1]);
    }
  }

  /** Each packet received and not delivered takes at most four moves. */
  lemma MovesBound(s: State)
    requires Inv(s)
    ensures MovesLeft(s) <= 4 * (s.main.rx - |s.delivered|)
  {
    Conserved(s);
    WeightBound(s.lanes);
  }

  /** For every interleaving: if nothing arrives and the run goes through four fair rounds for each packet under way,
      all that was received is delivered. */
  lemma FairDrains(s: State, rounds: seq<seq<Event>>)
    requires Inv(s) && PossibleRun(s, Joined(rounds)) && Silent(Joined(rounds))
    requires forall i :: 0 <= i < |rounds| ==> Fair(rounds[i], |s.lanes|)
    requires |rounds| >= 4 * (s.main.rx - |s.delivered|)
    ensures var t := Reach(s, Joined(rounds));
      |t.delivered| == t.main.rx == s.main.rx && forall k: nat :: k < s.main.rx ==> StampedPacket(k) in t.delivered
  {
    MovesBound(s);
    hide MovesLeft, Fair, Silent, Inv;
    RoundsLower(s, rounds);
    SilentRun(s, Joined(rounds));
    NothingLeft(Reach(s, Joined(rounds)));
  }
}
