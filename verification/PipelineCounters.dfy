/** How far the main thread's `int` counters go: each idle turn through the goto moves two of them by the stale
    size of the last batch. */
module PipelineCounters {
  import opened PacketTypes
  import opened Words
  import opened Pipeline
  import opened PipelineSafety
  import opened PipelineProgress

  const INT_MAX: int := 0x7FFF_FFFF

  /** Consecutive turns of the receive loop that went to the output rings without a new packet. */
  function IdleTurns(s: State, e: Event, g: nat): nat {
    if !e.MainTick? || s.main.pc != Receive then g
    else if e.received > 0 then 0
    else if s.main.waitOnDeq > 0 then g + 1
    else g
  }

  ghost function IdleOver(s: State, es: seq<Event>, g: nat): nat
    requires Inv(s) && PossibleRun(s, es)
    decreases |es|
  {
    if es == [] then g
    else
      StepKeepsInv(s, es[0]);
      IdleOver(Step(s, es[0]), es[1..], IdleTurns(s, es[0], g))
  }

  /** What the counter of packets still to be put into rings is worth after `g` idle turns. */
  predicate Idle(s: State, g: nat) {
    var m := s.main;
    && m.batchEnq <= DEFAULT_ETH_BATCH_SIZE
    && match m.pc
       case Receive => m.waitOnEnq == -(m.batchEnq * g)
       case InnerHead => (m.waitOnEnq > 0 && g == 0) || m.waitOnEnq == -(m.batchEnq * g)
       case Enqueue => g == 0
       case Aggregate =>
         (g == 0 && m.waitOnEnq >= m.batchEnq) || (g > 0 && m.waitOnEnq == -(m.batchEnq * (g - 1)))
  }

  lemma IdleStep(s: State, e: Event, g: nat)
    requires WellFormed(s) && Possible(s, e) && Idle(s, g)
    ensures Idle(Step(s, e), IdleTurns(s, e, g))
  {
    hide Fits, Stamp, Arrivals;
    if e.MainTick? && s.main.pc == Aggregate && g > 0 {
      OneMore(s.main.batchEnq, g - 1);
    }
  }

  lemma OneMore(b: nat, g: nat)
    ensures b * (g + 1) == b * g + b
  {
  }

  lemma {:induction false} IdleRun(s: State, es: seq<Event>, g: nat)
    requires Inv(s) && PossibleRun(s, es) && Idle(s, g)
    ensures Idle(Reach(s, es), IdleOver(s, es, g))
    decreases |es|
  {
    if es != [] {
      assert WellFormed(s);
      hide Inv, Idle, Step;
      StepKeepsInv(s, es[0]);
      IdleStep(s, es[0], g);
      IdleRun(Step(s, es[0]), es[1..], IdleTurns(s, es[0], g));
    }
  }

  /** Both counters fit an `int`. */
  predicate FitsInt(m: Main) {
    -INT_MAX - 1 <= m.waitOnEnq <= INT_MAX && 0 <= m.totEnq <= INT_MAX
  }

  /** Over every run from the start, at the head of the receive loop the counters are exactly this far off, and they
      have not overflowed exactly if the last burst and the idle turns since, times the last batch, fit an `int`. */
  lemma CountersExact(n: nat, batchSizeIn: nat, es: seq<Event>)
    requires n > 0 && batchSizeIn > 0 && Inv(Start(n, batchSizeIn)) && PossibleRun(Start(n, batchSizeIn), es)
    ensures var m, g := Reach(Start(n, batchSizeIn), es).main, IdleOver(Start(n, batchSizeIn), es, 0);
      m.pc == Receive ==>
        && m.waitOnEnq == -(m.batchEnq * g) && m.totEnq == |m.batch| + m.batchEnq * g
        && (FitsInt(m) <==> |m.batch| + m.batchEnq * g <= INT_MAX)
  {
    IdleRun(Start(n, batchSizeIn), es, 0);
    var t, g := Reach(Start(n, batchSizeIn), es), IdleOver(Start(n, batchSizeIn), es, 0);
    assert t.main.batchEnq * g >= 0;
    assert WellFormed(t);
  }

  /** Wherever the main thread is, the counters fit as long as the idle turns do. */
  lemma CountersFit(n: nat, batchSizeIn: nat, es: seq<Event>)
    requires n > 0 && batchSizeIn > 0 && Inv(Start(n, batchSizeIn)) && PossibleRun(Start(n, batchSizeIn), es)
    requires DEFAULT_ETH_BATCH_SIZE * (IdleOver(Start(n, batchSizeIn), es, 0) + 1) <= INT_MAX
    ensures FitsInt(Reach(Start(n, batchSizeIn), es).main)
  {
    IdleRun(Start(n, batchSizeIn), es, 0);
    var t, g := Reach(Start(n, batchSizeIn), es), IdleOver(Start(n, batchSizeIn), es, 0);
    AtMost(t.main.batchEnq, g);
    if g > 0 { AtMost(t.main.batchEnq, g - 1); }
    assert WellFormed(t);
  }

  lemma AtMost(b: nat, g: nat)
    requires b <= DEFAULT_ETH_BATCH_SIZE
    ensures 0 <= b * g <= DEFAULT_ETH_BATCH_SIZE * g
  {
    assert (DEFAULT_ETH_BATCH_SIZE - b) * g >= 0;
  }

  // ----- the counters do overflow if a worker stands still long enough -----------------------------

  /** Packets are in the pipeline, but none of them has reached an output ring. */
  predicate Stalled(s: State) {
    s.main.pc == Receive && s.main.waitOnDeq > 0 && forall i :: 0 <= i < |s.lanes| ==> s.lanes[i].ringOut == []
  }

  function Ticks(k: nat): (es: seq<Event>)
    ensures |es| == k && forall i :: 0 <= i < k ==> es[i] == MainTick(0)
  {
    seq(k, _ => MainTick(0))
  }

  /** A turn through the goto leaves everything as it was but the counters. */
  lemma IdleTurn(s: State)
    requires Inv(s) && Stalled(s)
    ensures var a := Step(s, MainTick(0));
      && Inv(a) && a.main.pc == Aggregate
      && var b := Step(a, MainTick(0));
      && Inv(b) && b.main.pc == InnerHead
      && var t := Step(b, MainTick(0));
      && Inv(t) && Stalled(t) && t.main.batchEnq == s.main.batchEnq && t.main.batch == s.main.batch
  {
    StepKeepsInv(s, MainTick(0));
    var a := Step(s, MainTick(0));
    StepKeepsInv(a, MainTick(0));
    Collected(a);
    StepKeepsInv(Step(a, MainTick(0)), MainTick(0));
  }

  lemma {:induction false} IdleTurnsAdd(s: State, g: nat, k: nat)
    requires Inv(s) && Stalled(s)
    ensures PossibleRun(s, Ticks(3 * k)) && IdleOver(s, Ticks(3 * k), g) == g + k
    ensures var t := Reach(s, Ticks(3 * k));
      Stalled(t) && t.main.batchEnq == s.main.batchEnq && t.main.batch == s.main.batch
    decreases k
  {
    if k > 0 {
      IdleTurn(s);
      var a := Step(s, MainTick(0));
      var b := Step(a, MainTick(0));
      var t := Step(b, MainTick(0));
      IdleTurnsAdd(t, g + 1, k - 1);
      var r := 3 * (k - 1);
      hide Inv, Step, Stalled;
      AddTick(b, r, g + 1);
      AddTick(a, r + 1, g + 1);
      AddTick(s, r + 2, g);
    }
  }

  /** One more turn in front of a row of turns. */
  lemma AddTick(s: State, r: nat, g: nat)
    requires Inv(s) && Inv(Step(s, MainTick(0))) && PossibleRun(Step(s, MainTick(0)), Ticks(r))
    ensures PossibleRun(s, Ticks(r + 1))
    ensures Reach(s, Ticks(r + 1)) == Reach(Step(s, MainTick(0)), Ticks(r))
    ensures IdleOver(s, Ticks(r + 1), g)
         == IdleOver(Step(s, MainTick(0)), Ticks(r), IdleTurns(s, MainTick(0), g))
  {
    hide Inv, Step;
    assert Ticks(r + 1)[1..] == Ticks(r);
  }

  /** A single packet is dealt to a worker, and the main thread comes back to the head of its loop. */
  lemma FirstPacket(n: nat, batchSizeIn: nat) returns (es: seq<Event>)
    requires n > 0 && batchSizeIn > 0 && Inv(Start(n, batchSizeIn))
    ensures PossibleRun(Start(n, batchSizeIn), es)
    ensures var t := Reach(Start(n, batchSizeIn), es);
      Stalled(t) && Idle(t, 0) && t.main.batchEnq == 1 && |t.main.batch| == 1
  {
    var s, tick := Start(n, batchSizeIn), MainTick(0);
    var a := Step(s, MainTick(1));
    StepKeepsInv(s, MainTick(1));
    var b := Step(a, tick);
    StepKeepsInv(a, tick);
    var c := Step(b, tick);
    StepKeepsInv(b, tick);
    var d := Step(c, tick);
    StepKeepsInv(c, tick);
    var e := Step(d, tick);
    StepKeepsInv(d, tick);
    Collected(d);
    var t := Step(e, tick);
    StepKeepsInv(e, tick);
    assert Stalled(t) && Idle(t, 0) && t.main.batchEnq == 1 && |t.main.batch| == 1;
    hide Inv, Step, Stalled, Idle, Start;
    Single(e, tick);
    Prepend(d, tick, [tick]);
    Prepend(c, tick, [tick] + [tick]);
    Prepend(b, tick, [tick] + ([tick] + [tick]));
    es := [tick] + ([tick] + ([tick] + [tick]));
    Prepend(a, tick, es);
    Prepend(s, MainTick(1), [tick] + es);
    es := [MainTick(1)] + ([tick] + es);
  }

  /** In every configuration some run overflows the counters: one packet arrives, and its worker stands still while
      the main thread polls. */
  lemma CountersOverflow(n: nat, batchSizeIn: nat) returns (es: seq<Event>)
    requires n > 0 && batchSizeIn > 0 && Inv(Start(n, batchSizeIn))
    ensures PossibleRun(Start(n, batchSizeIn), es) && !FitsInt(Reach(Start(n, batchSizeIn), es).main)
  {
    var s := Start(n, batchSizeIn);
    var fs := FirstPacket(n, batchSizeIn);
    var t, gs := Reach(s, fs), Ticks(3 * INT_MAX);
    IdleTurnsAdd(t, 0, INT_MAX);
    IdleRun(t, gs, 0);
    Append(s, fs, gs);
    es := fs + gs;
    assert WellFormed(Reach(t, gs));
  }
}
