/** What one turn of a thread moves: always as much as there is and as the place it goes to has room for. */
module PipelineTurns {
  import opened PacketTypes
  import opened Words
  import opened Pipeline
  import opened PipelineSafety

  /** A worker with nothing in hand takes the oldest packets of its input ring, all of them or 64; otherwise it appends
      what it has in hand to its output ring, all of it or as much as makes the ring full with 8191 packets. */
  lemma WorkerTurn(s: State, i: nat)
    requires WellFormed(s) && i < |s.lanes|
    ensures var t := Step(s, WorkerTick(i));
      var a, b := s.lanes[i], t.lanes[i];
      && t == s.(lanes := t.lanes) && t.lanes == s.lanes[i := b]
      && if a.hand == [] then
           && b.hand + b.ringIn == a.ringIn && b.ringOut == a.ringOut
           && (|b.hand| == 64 || (|b.hand| < 64 && b.ringIn == []))
         else
           && b.ringOut + b.hand == a.ringOut + a.hand && b.ringIn == a.ringIn
           && (|b.ringOut| == 8191 || (|b.ringOut| < 8191 && b.hand == []))
  {
  }

  /** The main thread puts packets into the input ring until the batch or the ring is full, as the packets stand in the
      batch. */
  lemma PushTurn(s: State)
    requires WellFormed(s) && s.main.pc == Enqueue && s.main.enqueued < s.main.batchEnq
    ensures var t, m, i := Step(s, MainTick(0)), s.main, s.main.inIndex;
      var k := t.main.enqueued - m.enqueued;
      && t.main == m.(enqueued := m.enqueued + k) && 0 <= k <= m.batchEnq - m.enqueued
      && t.lanes == s.lanes[i := s.lanes[i].(ringIn := t.lanes[i].ringIn)]
      && t.lanes[i].ringIn == s.lanes[i].ringIn + m.batch[m.totEnq + m.enqueued..m.totEnq + m.enqueued + k]
      && (t.main.enqueued == m.batchEnq || |t.lanes[i].ringIn| == 8191)
      && |t.owner| == |s.owner| + k && s.owner <= t.owner && forall x :: |s.owner| <= x < |t.owner| ==> t.owner[x] == i
  {
  }

  /** It collects all that an output ring holds, and goes on with the next ring. */
  lemma CollectTurn(s: State)
    requires WellFormed(s) && s.main.pc == Aggregate
    ensures var t, i := Step(s, MainTick(0)), s.main.outIndex;
      && t.delivered == s.delivered + s.lanes[i].ringOut && t.lanes == s.lanes[i := s.lanes[i].(ringOut := [])]
      && t.main.pc == InnerHead && t.main.outIndex == (if i + 1 == |s.lanes| then 0 else i + 1)
      && t.main.inIndex == s.main.inIndex && t.owner == s.owner && t.main.tx == s.main.tx + |s.lanes[i].ringOut|
  {
    var lane := s.lanes[s.main.outIndex];
    assert lane.ringOut[..|lane.ringOut|] == lane.ringOut && lane.ringOut[|lane.ringOut|..] == [];
    if s.main.outIndex + 1 < |s.lanes| { SmallRemainder(s.main.outIndex + 1, |s.lanes|); }
  }

  lemma SmallRemainder(x: nat, n: nat)
    requires x < n
    ensures x % n == x
  {
    RemainderUnique(x, n, 0, x);
  }
}
