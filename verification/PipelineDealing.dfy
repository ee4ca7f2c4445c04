/** Which packet goes to which lane: the lanes are dealt to in turn, a batch at a time, and each burst goes on with the
    lane behind the last one. */
module PipelineDealing {
  import opened PacketTypes
  import opened Words
  import opened Pipeline
  import opened PipelineSafety

  // ----- the deal as it should be --------------------------------------------------------------------

  /** The lanes of a burst of `count` packets that starts with lane `first` of `n`, in batches of `b`. */
  function BurstLanes(first: nat, count: nat, b: nat, n: nat): (lanes: seq<nat>)
    requires b > 0 && n > 0
    ensures |lanes| == count && forall i :: 0 <= i < count ==> lanes[i] == (first + i / b) % n
  {
    seq(count, (i: nat) => (first + i / b) % n)
  }

  /** The lane behind the last one that a burst uses. */
  function NextLane(first: nat, count: nat, b: nat, n: nat): nat
    requires b > 0 && n > 0
  {
    (first + (count + b - 1) / b) % n
  }

  /** The lanes of some bursts, one after the other, and the lane to go on with. */
  datatype Deal = Deal(lanes: seq<nat>, next: nat)

  function Deals(bursts: seq<nat>, b: nat, n: nat): Deal
    requires b > 0 && n > 0
  {
    if bursts == [] then Deal([], 0)
    else
      var k := |bursts| - 1;
      var before := Deals(bursts[..k], b, n);
      Deal(before.lanes + BurstLanes(before.next, bursts[k], b, n), NextLane(before.next, bursts[k], b, n))
  }

  /** The bursts that a run receives. */
  ghost function Received(s: State, es: seq<Event>): seq<nat>
    requires Inv(s) && PossibleRun(s, es)
    decreases |es|
  {
    if es == [] then []
    else
      StepKeepsInv(s, es[0]);
      ReceivedAt(s, es[0]) + Received(Step(s, es[0]), es[1..])
  }

  function ReceivedAt(s: State, e: Event): seq<nat> {
    if e.MainTick? && s.main.pc == Receive && e.received > 0 then [e.received] else []
  }

  // ----- what the main thread has dealt ----------------------------------------------------------------

  /** The owners so far are a beginning of that deal, whose last burst is the batch at hand, and the lane whose turn it
      is follows from how much of the batch has been dealt. */
  ghost predicate Dealing(s: State, before: Deal)
    requires WellFormed(s)
  {
    var m, n, b, c := s.main, |s.lanes|, s.batchSizeIn, |s.main.batch|;
    && |before.lanes| + c == m.rx
    && s.owner <= before.lanes + BurstLanes(before.next, c, b, n)
    && Position(m, before.next, b, n)
  }

  predicate Position(m: Main, first: nat, b: nat, n: nat)
    requires b > 0 && n > 0
  {
    var c := |m.batch|;
    match m.pc
    case Receive => m.inIndex == NextLane(first, c, b, n)
    case InnerHead =>
      if m.waitOnEnq > 0 then m.totEnq % b == 0 && m.inIndex == (first + m.totEnq / b) % n
      else m.inIndex == NextLane(first, c, b, n)
    case Enqueue =>
      && m.totEnq % b == 0 && m.inIndex == (first + m.totEnq / b) % n
      && m.waitOnEnq > 0 && m.batchEnq == Least(b, m.waitOnEnq)
    case Aggregate =>
      if m.waitOnEnq > 0 then
        && m.totEnq % b == 0 && m.inIndex == (first + m.totEnq / b + 1) % n
        && m.batchEnq == Least(b, m.waitOnEnq)
      else m.inIndex == NextLane(first, c, b, n)
  }

  // ----- arithmetic of turns ---------------------------------------------------------------------------

  lemma Quotient(x: int, b: nat, q: int, r: nat)
    requires r < b && x == b * q + r
    ensures x / b == q && x % b == r
  {
    RemainderUnique(x, b, q, r);
    assert x == b * (x / b) + x % b;
    assert b * (x / b - q) == 0;
  }

  /** Inside the batch that starts at `tot`, the quotient does not change. */
  lemma SameBatch(tot: nat, i: nat, b: nat)
    requires b > 0 && tot % b == 0 && tot <= i < tot + b
    ensures i / b == tot / b
  {
    assert tot == b * (tot / b);
    Quotient(i, b, tot / b, i - tot);
  }

  lemma FullBatch(tot: nat, b: nat)
    requires b > 0 && tot % b == 0
    ensures (tot + b) % b == 0 && (tot + b) / b == tot / b + 1
  {
    assert tot == b * (tot / b);
    Quotient(tot + b, b, tot / b + 1, 0);
  }

  /** Where a burst of `count` ends. */
  lemma LastBatch(tot: nat, count: nat, b: nat)
    requires b > 0 && tot % b == 0 && tot < count <= tot + b
    ensures (count + b - 1) / b == tot / b + 1
  {
    assert tot == b * (tot / b);
    Quotient(count + b - 1, b, tot / b + 1, count - 1 - tot);
  }

  lemma NoBatch(b: nat)
    requires b > 0
    ensures (b - 1) / b == 0 && 0 / b == 0
  {
    Quotient(b - 1, b, 0, b - 1);
  }

  lemma NextInTurn(x: nat, n: nat)
    requires n > 0
    ensures (x % n + 1) % n == (x + 1) % n
  {
    var q, r := x / n, x % n;
    assert x == n * q + r;
    if r + 1 == n {
      assert n * (q + 1) == n * q + n;
      Quotient(x + 1, n, q + 1, 0);
    } else {
      Quotient(x + 1, n, q, r + 1);
      Quotient(r + 1, n, 0, r + 1);
    }
  }

  // ----- every step keeps to it -------------------------------------------------------------------------

  lemma StartDealing(n: nat, batchSizeIn: nat)
    requires n > 0 && batchSizeIn > 0
    ensures Dealing(Start(n, batchSizeIn), Deal([], 0))
  {
    NoBatch(batchSizeIn);
  }

  /** The deal including the batch at hand. */
  function Next(s: State, before: Deal): Deal
    requires WellFormed(s)
  {
    var c, b, n := |s.main.batch|, s.batchSizeIn, |s.lanes|;
    Deal(before.lanes + BurstLanes(before.next, c, b, n), NextLane(before.next, c, b, n))
  }

  lemma FirstPosition(first: nat, b: nat, n: nat)
    requires b > 0 && n > 0 && first < n
    ensures 0 % b == 0 && (first + 0 / b) % n == first
  {
    NoBatch(b);
    Quotient(first, n, 0, first);
  }

  lemma NextLaneBelow(first: nat, count: nat, b: nat, n: nat)
    requires b > 0 && n > 0
    ensures NextLane(first, count, b, n) < n
  {
  }

  /** A new burst: what the previous ones were dealt is complete. */
  lemma BurstDealing(s: State, received: nat, before: Deal)
    requires Inv(s) && s.main.pc == Receive && 0 < received <= DEFAULT_ETH_BATCH_SIZE && Dealing(s, before)
    ensures WellFormed(Step(s, MainTick(received))) && Dealing(Step(s, MainTick(received)), Next(s, before))
    ensures |Step(s, MainTick(received)).main.batch| == received
  {
    StepKeepsInv(s, MainTick(received));
    var t, after := Step(s, MainTick(received)), Next(s, before);
    assert s.owner == after.lanes && t.owner == s.owner && |after.lanes| == s.main.rx;
    NextLaneBelow(before.next, |s.main.batch|, s.batchSizeIn, |s.lanes|);
    FirstPosition(after.next, s.batchSizeIn, |s.lanes|);
    hide Inv, BurstLanes, NextLane, Next;
    assert Position(t.main, after.next, t.batchSizeIn, |t.lanes|);
  }

  lemma PushDealing(s: State, before: Deal)
    requires Inv(s) && s.main.pc == Enqueue && s.main.enqueued < s.main.batchEnq && Dealing(s, before)
    ensures WellFormed(MainStep(s, 0)) && Dealing(MainStep(s, 0), before)
  {
    EnqueueCounts(s);
    var m, s' := s.main, MainStep(s, 0);
    var all := before.lanes + BurstLanes(before.next, |m.batch|, s.batchSizeIn, |s.lanes|);
    forall x | |s.owner| <= x < |s'.owner|
      ensures x < |all| && s'.owner[x] == all[x]
    {
      SameBatch(m.totEnq, x - |before.lanes|, s.batchSizeIn);
    }
    assert s.owner <= s'.owner;
  }

  lemma TurnDealing(s: State, before: Deal)
    requires Inv(s) && s.main.pc == Enqueue && s.main.enqueued == s.main.batchEnq && Dealing(s, before)
    ensures WellFormed(MainStep(s, 0)) && Dealing(MainStep(s, 0), before)
  {
    EnqueueCounts(s);
    NextInTurn(before.next + s.main.totEnq / s.batchSizeIn, |s.lanes|);
  }

  lemma VisitPosition(tot: nat, batchEnq: nat, wait: nat, first: nat, b: nat, n: nat)
    requires b > 0 && n > 0 && tot % b == 0 && wait > 0 && batchEnq == Least(b, wait)
    ensures wait > batchEnq ==> (tot + batchEnq) % b == 0 && (tot + batchEnq) / b == tot / b + 1
    ensures wait == batchEnq ==> (first + tot / b + 1) % n == NextLane(first, tot + wait, b, n)
  {
    if wait > batchEnq {
      FullBatch(tot, b);
    } else if wait == batchEnq {
      LastBatch(tot, tot + wait, b);
    }
  }

  lemma VisitDealing(s: State, before: Deal)
    requires Inv(s) && s.main.pc == Aggregate && Dealing(s, before)
    ensures WellFormed(MainStep(s, 0)) && Dealing(MainStep(s, 0), before)
  {
    AggregateCounts(s);
    var m := s.main;
    if m.waitOnEnq > 0 {
      VisitPosition(m.totEnq, m.batchEnq, m.waitOnEnq, before.next, s.batchSizeIn, |s.lanes|);
    }
    hide Inv, NextLane, BurstLanes;
  }

  lemma StepDealing(s: State, e: Event, before: Deal)
    requires Inv(s) && Possible(s, e) && Dealing(s, before)
    ensures WellFormed(Step(s, e))
    ensures ReceivedAt(s, e) == [] ==> Dealing(Step(s, e), before) && |Step(s, e).main.batch| == |s.main.batch|
    ensures ReceivedAt(s, e) != [] ==>
              Dealing(Step(s, e), Next(s, before)) && ReceivedAt(s, e) == [|Step(s, e).main.batch|]
  {
    StepKeepsInv(s, e);
    if e.MainTick? {
      match s.main.pc
      case Receive => if e.received > 0 { BurstDealing(s, e.received, before); }
      case InnerHead =>
      case Enqueue =>
        if s.main.enqueued < s.main.batchEnq { PushDealing(s, before); } else { TurnDealing(s, before); }
      case Aggregate => VisitDealing(s, before);
    }
  }

  // ----- whole runs ------------------------------------------------------------------------------------

  /** The batch at hand is the last of the bursts, and everything is dealt as they say. */
  ghost predicate AsDealt(s: State, bursts: seq<nat>)
    requires WellFormed(s)
  {
    && |s.main.batch| == (if bursts == [] then 0 else bursts[|bursts| - 1])
    && Dealing(s, Deals(if bursts == [] then [] else bursts[..|bursts| - 1], s.batchSizeIn, |s.lanes|))
  }

  /** The deal with the batch at hand. */
  lemma Complete(s: State, bursts: seq<nat>)
    requires WellFormed(s) && AsDealt(s, bursts)
    ensures Deals(bursts, s.batchSizeIn, |s.lanes|)
         == Next(s, Deals(if bursts == [] then [] else bursts[..|bursts| - 1], s.batchSizeIn, |s.lanes|))
  {
    NoBatch(s.batchSizeIn);
  }

  lemma {:induction false} RunDealing(s: State, es: seq<Event>, bursts: seq<nat>)
    requires Inv(s) && WellFormed(s) && PossibleRun(s, es) && AsDealt(s, bursts)
    ensures WellFormed(Reach(s, es)) && AsDealt(Reach(s, es), bursts + Received(s, es))
    ensures Reach(s, es).batchSizeIn == s.batchSizeIn
    decreases |es|
  {
    if es == [] {
      assert bursts + [] == bursts;
    } else {
      var t, more := Step(s, es[0]), ReceivedAt(s, es[0]);
      StepKeepsInv(s, es[0]);
      StepAsDealt(s, es[0], bursts);
      assert Received(s, es) == more + Received(t, es[1..]);
      assert Reach(s, es) == Reach(t, es[1..]);
      var later := Received(t, es[1..]);
      hide *;
      RunDealing(t, es[1..], bursts + more);
      Regroup(bursts, more, later);
    }
  }

  lemma Regroup(xs: seq<nat>, ys: seq<nat>, zs: seq<nat>)
    ensures xs + (ys + zs) == (xs + ys) + zs
  {
  }

  lemma StepAsDealt(s: State, e: Event, bursts: seq<nat>)
    requires Inv(s) && WellFormed(s) && Possible(s, e) && AsDealt(s, bursts)
    ensures WellFormed(Step(s, e)) && AsDealt(Step(s, e), bursts + ReceivedAt(s, e))
    ensures Step(s, e).batchSizeIn == s.batchSizeIn && |Step(s, e).lanes| == |s.lanes|
  {
    StepKeepsInv(s, e);
    StepDealing(s, e, Deals(if bursts == [] then [] else bursts[..|bursts| - 1], s.batchSizeIn, |s.lanes|));
    Complete(s, bursts);
    SameShape(s, e);
    hide Inv, Step, Dealing, Deals, WellFormed, Next;
    NextBursts(s, Step(s, e), bursts, ReceivedAt(s, e));
  }

  lemma SameShape(s: State, e: Event)
    requires WellFormed(s) && Possible(s, e)
    ensures Step(s, e).batchSizeIn == s.batchSizeIn && |Step(s, e).lanes| == |s.lanes|
    ensures |ReceivedAt(s, e)| <= 1
  {
  }

  lemma NextBursts(s: State, t: State, bursts: seq<nat>, more: seq<nat>)
    requires WellFormed(s) && WellFormed(t) && AsDealt(s, bursts)
    requires t.batchSizeIn == s.batchSizeIn && |t.lanes| == |s.lanes| && |more| <= 1
    requires var d := Deals(if bursts == [] then [] else bursts[..|bursts| - 1], s.batchSizeIn, |s.lanes|);
      && Deals(bursts, s.batchSizeIn, |s.lanes|) == Next(s, d)
      && if more == [] then Dealing(t, d) && |t.main.batch| == |s.main.batch|
         else Dealing(t, Next(s, d)) && more == [|t.main.batch|]
    ensures AsDealt(t, bursts + more)
  {
    hide Dealing, Deals, WellFormed, Next;
    if more == [] {
      assert bursts + more == bursts;
    } else {
      assert (bursts + more)[..|bursts|] == bursts;
    }
  }

  /** The dealing law, for every interleaving: the lanes dealt to are those of the bursts received, and at the head of
      the receive loop all of them; the lane to go on with is the next in turn. */
  lemma DealingLaw(n: nat, batchSizeIn: nat, es: seq<Event>)
    requires n > 0 && batchSizeIn > 0 && Inv(Start(n, batchSizeIn)) && PossibleRun(Start(n, batchSizeIn), es)
    ensures var s, deal := Reach(Start(n, batchSizeIn), es), Deals(Received(Start(n, batchSizeIn), es), batchSizeIn, n);
      && s.owner <= deal.lanes && |deal.lanes| == s.main.rx
      && (s.main.pc == Receive ==> s.owner == deal.lanes && s.main.inIndex == deal.next)
  {
    var start := Start(n, batchSizeIn);
    var s, bursts := Reach(start, es), Received(start, es);
    StartDealing(n, batchSizeIn);
    RunDealing(start, es, []);
    assert [] + bursts == bursts;
    Complete(s, bursts);
  }

  lemma {:induction false} ReceivedJoin(s: State, es: seq<Event>, fs: seq<Event>)
    requires Inv(s) && PossibleRun(s, es) && PossibleRun(Reach(s, es), fs)
    ensures PossibleRun(s, es + fs) && Reach(s, es + fs) == Reach(Reach(s, es), fs)
    ensures Received(s, es + fs) == Received(s, es) + Received(Reach(s, es), fs)
    decreases |es|
  {
    hide Step, ReceivedAt, WellFormed;
    if es == [] {
      assert es + fs == fs;
    } else {
      assert (es + fs)[0] == es[0] && (es + fs)[1..] == es[1..] + fs;
      StepKeepsInv(s, es[0]);
      ReceivedJoin(Step(s, es[0]), es[1..], fs);
      Regroup(ReceivedAt(s, es[0]), Received(Step(s, es[0]), es[1..]), Received(Reach(s, es), fs));
    }
  }

  lemma {:induction false} DealsExtend(bursts: seq<nat>, more: seq<nat>, b: nat, n: nat)
    requires b > 0 && n > 0
    ensures Deals(bursts, b, n).lanes <= Deals(bursts + more, b, n).lanes
    decreases |more|
  {
    if more == [] {
      assert bursts + more == bursts;
    } else {
      var k := |more| - 1;
      assert (bursts + more)[..|bursts| + k] == bursts + more[..k];
      DealsExtend(bursts, more[..k], b, n);
    }
  }

  /** What the bursts of a whole run say about one of them. */
  lemma OneBurst(bursts: seq<nat>, count: nat, more: seq<nat>, b: nat, n: nat, i: nat)
    requires b > 0 && n > 0 && i < count
    ensures var before, all := Deals(bursts, b, n), Deals(bursts + ([count] + more), b, n);
      && |before.lanes| + i < |all.lanes| && all.lanes[|before.lanes| + i] == (before.next + i / b) % n
  {
    assert bursts + ([count] + more) == (bursts + [count]) + more;
    assert (bursts + [count])[..|bursts|] == bursts;
    DealsExtend(bursts + [count], more, b, n);
  }

  /** So packet `i` of a burst goes to the lane `i / batchSizeIn` places behind the one whose turn it was, whatever
      happens in between. */
  lemma BurstLaw(n: nat, batchSizeIn: nat, es: seq<Event>, count: nat, fs: seq<Event>, i: nat)
    requires n > 0 && batchSizeIn > 0 && Inv(Start(n, batchSizeIn)) && PossibleRun(Start(n, batchSizeIn), es)
    requires var s := Reach(Start(n, batchSizeIn), es);
      s.main.pc == Receive && i < count && PossibleRun(s, [MainTick(count)] + fs)
    ensures var s := Reach(Start(n, batchSizeIn), es);
      var t := Reach(s, [MainTick(count)] + fs);
      s.main.rx + i < |t.owner| ==> t.owner[s.main.rx + i] == (s.main.inIndex + i / batchSizeIn) % n
  {
    hide *;
    var start, gs := Start(n, batchSizeIn), [MainTick(count)] + fs;
    var s := Reach(start, es);
    var more := BurstFirst(s, count, fs);
    ReceivedJoin(start, es, gs);
    DealingLaw(n, batchSizeIn, es);
    DealingLaw(n, batchSizeIn, es + gs);
    OneBurst(Received(start, es), count, more, batchSizeIn, n, i);
  }

  lemma BurstFirst(s: State, count: nat, fs: seq<Event>) returns (more: seq<nat>)
    requires Inv(s) && s.main.pc == Receive && count > 0 && PossibleRun(s, [MainTick(count)] + fs)
    ensures Received(s, [MainTick(count)] + fs) == [count] + more
  {
    var gs := [MainTick(count)] + fs;
    StepKeepsInv(s, gs[0]);
    hide Inv, Step;
    more := Received(Step(s, gs[0]), gs[1..]);
  }
}
