/** Every step of the pipeline keeps the invariant; what the invariant says of every reachable state. */
module PipelineSafety {
  import opened PacketTypes
  import opened Words
  import opened Pipeline

  // ----- streams -------------------------------------------------------------------------------

  function Repeat(lane: nat, count: nat): (s: seq<nat>)
    ensures |s| == count && forall i :: 0 <= i < count ==> s[i] == lane
  {
    seq(count, _ => lane)
  }

  function StampedRange(first: nat, count: nat): (s: seq<Packet>)
    ensures |s| == count && forall i :: 0 <= i < count ==> s[i] == StampedPacket(first + i)
  {
    seq(count, (i: nat) => StampedPacket(first + i))
  }

  lemma {:induction false} DealMore(owner: seq<nat>, lane: nat, count: nat, i: nat)
    ensures Dealt(owner + Repeat(lane, count), i)
         == Dealt(owner, i) + if i == lane then StampedRange(|owner|, count) else []
  {
    var more := owner + Repeat(lane, count);
    if count == 0 {
      assert more == owner;
    } else {
      assert more[..|more| - 1] == owner + Repeat(lane, count - 1);
      DealMore(owner, lane, count - 1, i);
      assert StampedRange(|owner|, count) == StampedRange(|owner|, count - 1) + [StampedPacket(|owner| + count - 1)];
    }
  }

  /** A lane is dealt exactly the packets it owns, stamped, in order of arrival. */
  lemma {:induction false} DealtOwned(owner: seq<nat>, i: nat)
    ensures forall p :: p in Dealt(owner, i) <==> p.id < |owner| && owner[p.id] == i && p == StampedPacket(p.id)
    ensures Ascending(Dealt(owner, i))
  {
    if owner != [] {
      DealtOwned(owner[..|owner| - 1], i);
    }
  }

  ghost predicate Ascending(s: seq<Packet>) {
    forall j, k :: 0 <= j < k < |s| ==> s[j].id < s[k].id
  }

  lemma {:induction false} OwnMore(stream: seq<Packet>, owner: seq<nat>, more: seq<nat>, i: nat)
    requires forall p :: p in stream ==> p.id < |owner|
    ensures OfLane(stream, owner + more, i) == OfLane(stream, owner, i)
  {
    if stream != [] {
      OwnMore(stream[..|stream| - 1], owner, more, i);
    }
  }

  lemma {:induction false} DeliverMore(stream: seq<Packet>, got: seq<Packet>, owner: seq<nat>, lane: nat, i: nat)
    requires forall p :: p in got ==> p.id < |owner| && owner[p.id] == lane
    ensures OfLane(stream + got, owner, i) == OfLane(stream, owner, i) + if i == lane then got else []
    decreases |got|
  {
    if got == [] {
      assert stream + got == stream;
    } else {
      var k := |got| - 1;
      assert (stream + got)[..|stream| + k] == stream + got[..k];
      assert got[k] in got && (stream + got)[|stream| + k] == got[k];
      DeliverMore(stream, got[..k], owner, lane, i);
      assert got == got[..k] + [got[k]];
    }
  }

  // ----- workers -------------------------------------------------------------------------------

  lemma WorkerKeeps(lane: Lane)
    requires Fits(lane)
    ensures Fits(WorkerStep(lane)) && Load(WorkerStep(lane)) == Load(lane)
    ensures Contents(WorkerStep(lane)) == Contents(lane)
  {
  }

  lemma WorkerKeepsInv(s: State, i: nat)
    requires Inv(s) && i < |s.lanes|
    ensures Inv(Step(s, WorkerTick(i)))
  {
    hide Dealt, OfLane, Contents, WorkerStep, Load;
    var s' := Step(s, WorkerTick(i));
    WorkerKeeps(s.lanes[i]);
    forall j | 0 <= j < |s'.lanes|
      ensures LaneInOrder(s', j)
    {
      assert LaneInOrder(s, j);
    }
  }

  // ----- the main thread -----------------------------------------------------------------------

  lemma ReceiveKeepsInv(s: State, received: nat)
    requires Inv(s) && s.main.pc == Receive && received <= DEFAULT_ETH_BATCH_SIZE
    ensures Inv(Step(s, MainTick(received)))
  {
    hide Dealt, OfLane, Contents, Load, Fits;
    var s' := Step(s, MainTick(received));
    forall i | 0 <= i < |s'.lanes|
      ensures LaneInOrder(s', i)
    {
      assert LaneInOrder(s, i);
    }
  }

  /** Stamping continues the numbering of the packets dealt so far. */
  lemma StampContinues(batch: seq<Packet>, from: nat, count: nat, dealt: nat, seqn: Word)
    requires from + count <= |batch| && seqn == dealt % MOD
    requires forall i :: 0 <= i < |batch| ==> batch[i].id == dealt + i - from
    ensures var t := Stamp(batch, from, count, seqn);
      && (forall i :: 0 <= i < |t| ==> t[i].id == batch[i].id)
      && (forall i :: from <= i < from + count ==> t[i] == StampedPacket(t[i].id))
    ensures (seqn + count) % MOD == (dealt + count) % MOD
  {
    AddWrapped(dealt, count);
    var t := Stamp(batch, from, count, seqn);
    forall i | from <= i < from + count
      ensures t[i] == StampedPacket(t[i].id)
    {
      AddWrapped(dealt, i - from);
    }
  }

  lemma InnerHeadKeepsInv(s: State, received: nat)
    requires Inv(s) && s.main.pc == InnerHead && received <= DEFAULT_ETH_BATCH_SIZE
    ensures Inv(Step(s, MainTick(received)))
  {
    hide Dealt, OfLane, Contents, Load, Fits, Stamp;
    var s', m := Step(s, MainTick(received)), s.main;
    forall i | 0 <= i < |s'.lanes|
      ensures LaneInOrder(s', i)
    {
      assert LaneInOrder(s, i);
    }
    if m.waitOnEnq > 0 {
      assert m.inIndex !in s.dirty;
      StampContinues(m.batch, m.totEnq, Least(s.batchSizeIn, m.waitOnEnq), |s.owner|, m.seqn);
    }
  }

  // putting packets into an input ring

  /** A push moves the next `k` packets of the batch, which are stamped, into the input ring. */
  lemma Pushed(s: State) returns (k: nat)
    requires WellFormed(s) && Counted(s) && BatchInOrder(s)
    requires s.main.pc == Enqueue && s.main.enqueued < s.main.batchEnq
    ensures var r, s' := s.main.inIndex, MainStep(s, 0);
      && s'.lanes == s.lanes[r := s.lanes[r].(ringIn := s.lanes[r].ringIn + StampedRange(|s.owner|, k))]
      && s'.owner == s.owner + Repeat(r, k)
      && s'.delivered == s.delivered
  {
    var m, lane := s.main, s.lanes[s.main.inIndex];
    assert Fits(lane);
    k := Least(m.batchEnq - m.enqueued, CAPACITY - |lane.ringIn|);
    var from := m.totEnq + m.enqueued;
    assert m.batch[from..from + k] == StampedRange(|s.owner|, k);
    assert MainStep(s, 0).owner == s.owner + Repeat(m.inIndex, k);
  }

  lemma EnqueueLane(s: State, i: nat)
    requires Inv(s) && s.main.pc == Enqueue && s.main.enqueued < s.main.batchEnq && i < |s.lanes|
    ensures LaneInOrder(MainStep(s, 0), i)
  {
    var k := Pushed(s);
    assert LaneInOrder(s, i);
    hide Dealt, OfLane, MainStep, Counted, BatchInOrder, Paced, WellFormed, Contents;
    LaneExtended(s.owner, s.delivered, s.lanes[i], s.main.inIndex, k, i);
  }

  lemma LaneExtended(owner: seq<nat>, delivered: seq<Packet>, lane: Lane, r: nat, k: nat, i: nat)
    requires forall p :: p in delivered ==> p.id < |owner|
    requires Dealt(owner, i) == OfLane(delivered, owner, i) + Contents(lane)
    ensures var more := if i == r then lane.(ringIn := lane.ringIn + StampedRange(|owner|, k)) else lane;
      Dealt(owner + Repeat(r, k), i) == OfLane(delivered, owner + Repeat(r, k), i) + Contents(more)
  {
    hide Dealt, OfLane, Contents;
    DealMore(owner, r, k, i);
    OwnMore(delivered, owner, Repeat(r, k), i);
    PushedContents(lane, StampedRange(|owner|, k));
  }

  lemma PushedContents(lane: Lane, more: seq<Packet>)
    ensures Contents(lane.(ringIn := lane.ringIn + more)) == Contents(lane) + more
  {
  }

  lemma Rotate(i: nat, n: nat)
    requires i < n
    ensures (i + 1) % n == if i + 1 == n then 0 else i + 1
  {
  }

  lemma EnqueueCounts(s: State)
    requires WellFormed(s) && Counted(s) && BatchInOrder(s) && s.main.pc == Enqueue
    ensures var s' := MainStep(s, 0);
      WellFormed(s') && Counted(s') && BatchInOrder(s')
  {
    Rotate(s.main.inIndex, |s.lanes|);
  }

  lemma EnqueueInOrder(s: State)
    requires Inv(s) && s.main.pc == Enqueue
    ensures InOrder(MainStep(s, 0))
  {
    hide Dealt, OfLane, Contents, Fits, Counted, BatchInOrder, Paced;
    var m, s' := s.main, MainStep(s, 0);
    forall i | 0 <= i < |s'.lanes|
      ensures LaneInOrder(s', i)
    {
      if m.enqueued < m.batchEnq {
        EnqueueLane(s, i);
      } else {
        assert LaneInOrder(s, i);
      }
    }
  }

  lemma EnqueuePaced(s: State)
    requires WellFormed(s) && Paced(s) && s.main.pc == Enqueue && s.main.enqueued < s.main.batchEnq
    requires WellFormed(MainStep(s, 0))
    ensures Paced(MainStep(s, 0))
  {
  }

  lemma TurnPaced(s: State)
    requires WellFormed(s) && Paced(s) && s.main.pc == Enqueue && s.main.enqueued == s.main.batchEnq
    requires WellFormed(MainStep(s, 0))
    ensures Paced(MainStep(s, 0))
  {
    hide Load, Fits;
    Rotate(s.main.inIndex, |s.lanes|);
  }

  lemma EnqueueKeepsInv(s: State, received: nat)
    requires Inv(s) && s.main.pc == Enqueue && received <= DEFAULT_ETH_BATCH_SIZE
    ensures Inv(Step(s, MainTick(received)))
  {
    assert Step(s, MainTick(received)) == MainStep(s, 0);
    EnqueueCounts(s);
    EnqueueInOrder(s);
    hide InOrder, MainStep, Counted, BatchInOrder;
    if s.main.enqueued < s.main.batchEnq {
      EnqueuePaced(s);
    } else {
      TurnPaced(s);
    }
  }

  // collecting from an output ring

  /** A visit empties the output ring it visits. */
  lemma Collected(s: State)
    requires WellFormed(s) && s.main.pc == Aggregate
    ensures var v, s' := s.main.outIndex, MainStep(s, 0);
      && s'.lanes == s.lanes[v := s.lanes[v].(ringOut := [])]
      && s'.delivered == s.delivered + s.lanes[v].ringOut
      && s'.owner == s.owner && s'.dirty == s.dirty - {v}
      && s'.main.pc == InnerHead && s'.main.outIndex == (v + 1) % |s.lanes| && s'.main.inIndex == s.main.inIndex
  {
    var out := s.lanes[s.main.outIndex].ringOut;
    assert Fits(s.lanes[s.main.outIndex]);
    assert out[..|out|] == out && out[|out|..] == [];
  }

  /** What a lane holds is what it was dealt. */
  lemma FromLane(s: State, v: nat)
    requires InOrder(s) && v < |s.lanes|
    ensures forall p :: p in Contents(s.lanes[v]) ==>
              p.id < |s.owner| && s.owner[p.id] == v && p == StampedPacket(p.id)
  {
    hide Dealt, OfLane, Contents;
    assert LaneInOrder(s, v);
    DealtOwned(s.owner, v);
  }

  lemma AggregateLane(s: State, i: nat)
    requires WellFormed(s) && InOrder(s) && s.main.pc == Aggregate && i < |s.lanes|
    ensures LaneInOrder(MainStep(s, 0), i)
  {
    hide Dealt, OfLane, MainStep, Fits;
    var v, s' := s.main.outIndex, MainStep(s, 0);
    var got := s.lanes[v].ringOut;
    Collected(s);
    FromLane(s, v);
    assert LaneInOrder(s, i);
    DeliverMore(s.delivered, got, s.owner, v, i);
    if i == v {
      assert Contents(s.lanes[i]) == got + Contents(s'.lanes[i]);
    }
  }

  lemma AggregateInOrder(s: State)
    requires Inv(s) && s.main.pc == Aggregate
    ensures InOrder(MainStep(s, 0))
  {
    hide Dealt, OfLane, Fits, Counted, BatchInOrder, Paced, MainStep;
    var s' := MainStep(s, 0);
    Collected(s);
    forall i | 0 <= i < |s'.lanes|
      ensures LaneInOrder(s', i)
    {
      AggregateLane(s, i);
    }
    FromLane(s, s.main.outIndex);
  }

  lemma AggregatePaced(s: State)
    requires WellFormed(s) && Paced(s) && s.main.pc == Aggregate && WellFormed(MainStep(s, 0))
    ensures Paced(MainStep(s, 0))
  {
    hide MainStep;
    Collected(s);
    Rotate(s.main.outIndex, |s.lanes|);
  }

  lemma AggregateCounts(s: State)
    requires WellFormed(s) && Counted(s) && BatchInOrder(s) && s.main.pc == Aggregate
    ensures var s' := MainStep(s, 0);
      WellFormed(s') && Counted(s') && BatchInOrder(s')
  {
    Rotate(s.main.outIndex, |s.lanes|);
  }

  lemma AggregateKeepsInv(s: State, received: nat)
    requires Inv(s) && s.main.pc == Aggregate && received <= DEFAULT_ETH_BATCH_SIZE
    ensures Inv(Step(s, MainTick(received)))
  {
    assert Step(s, MainTick(received)) == MainStep(s, 0);
    AggregateCounts(s);
    AggregateInOrder(s);
    hide InOrder, MainStep, Counted, BatchInOrder;
    AggregatePaced(s);
  }

  // ----- every reachable state -----------------------------------------------------------------

  lemma StartInv(n: nat, batchSizeIn: nat)
    requires n > 0 && batchSizeIn > 0
    ensures Inv(Start(n, batchSizeIn))
  {
  }

  /** Every step of every thread keeps the invariant. */
  lemma StepKeepsInv(s: State, e: Event)
    requires Inv(s) && Possible(s, e)
    ensures Inv(Step(s, e))
  {
    hide Inv;
    match e
    case WorkerTick(i) => WorkerKeepsInv(s, i);
    case MainTick(received) =>
      match s.main.pc
      case Receive => ReceiveKeepsInv(s, received);
      case InnerHead => InnerHeadKeepsInv(s, received);
      case Enqueue => EnqueueKeepsInv(s, received);
      case Aggregate => AggregateKeepsInv(s, received);
  }

  ghost predicate PossibleRun(s: State, es: seq<Event>)
    requires Inv(s)
    decreases |es|
  {
    es == [] || (Possible(s, es[0]) && (StepKeepsInv(s, es[0]); PossibleRun(Step(s, es[0]), es[1..])))
  }

  ghost function Reach(s: State, es: seq<Event>): (t: State)
    requires Inv(s) && PossibleRun(s, es)
    ensures Inv(t) && |t.lanes| == |s.lanes|
    decreases |es|
  {
    if es == [] then s
    else
      StepKeepsInv(s, es[0]);
      Reach(Step(s, es[0]), es[1..])
  }

  // ----- what the invariant says ---------------------------------------------------------------

  /** The packets the pipeline holds. */
  function TotalLoad(lanes: seq<Lane>): nat {
    if lanes == [] then 0 else TotalLoad(lanes[..|lanes| - 1]) + Load(lanes[|lanes| - 1])
  }

  function SumDealt(owner: seq<nat>, n: nat): nat {
    if n == 0 then 0 else SumDealt(owner, n - 1) + |Dealt(owner, n - 1)|
  }

  function SumOfLane(stream: seq<Packet>, owner: seq<nat>, n: nat): nat {
    if n == 0 then 0 else SumOfLane(stream, owner, n - 1) + |OfLane(stream, owner, n - 1)|
  }

  lemma {:induction false} DealtTotal(owner: seq<nat>, n: nat)
    requires forall k :: k in owner ==> k < n
    ensures SumDealt(owner, n) == |owner|
    decreases |owner|
  {
    if owner == [] {
      NoneDealt(n);
    } else {
      var k := |owner| - 1;
      assert owner[k] in owner;
      assert forall x :: x in owner[..k] ==> x in owner;
      DealtTotal(owner[..k], n);
      DealtOneMore(owner, n);
    }
  }

  lemma {:induction false} NoneDealt(n: nat)
    ensures SumDealt([], n) == 0
  {
    if n > 0 { NoneDealt(n - 1); }
  }

  lemma {:induction false} DealtOneMore(owner: seq<nat>, n: nat)
    requires owner != []
    ensures SumDealt(owner, n) == SumDealt(owner[..|owner| - 1], n) + if owner[|owner| - 1] < n then 1 else 0
  {
    if n > 0 { DealtOneMore(owner, n - 1); }
  }

  lemma {:induction false} OfLaneTotal(stream: seq<Packet>, owner: seq<nat>, n: nat)
    requires forall k :: k in owner ==> k < n
    requires forall p :: p in stream ==> p.id < |owner|
    ensures SumOfLane(stream, owner, n) == |stream|
    decreases |stream|
  {
    if stream == [] {
      NoneOfLane(owner, n);
    } else {
      var k := |stream| - 1;
      assert stream[k] in stream && owner[stream[k].id] in owner;
      OfLaneTotal(stream[..k], owner, n);
      OfLaneOneMore(stream, owner, n);
    }
  }

  lemma {:induction false} NoneOfLane(owner: seq<nat>, n: nat)
    ensures SumOfLane([], owner, n) == 0
  {
    if n > 0 { NoneOfLane(owner, n - 1); }
  }

  lemma {:induction false} OfLaneOneMore(stream: seq<Packet>, owner: seq<nat>, n: nat)
    requires stream != []
    ensures var p := stream[|stream| - 1];
      SumOfLane(stream, owner, n)
        == SumOfLane(stream[..|stream| - 1], owner, n) + if p.id < |owner| && owner[p.id] < n then 1 else 0
  {
    if n > 0 { OfLaneOneMore(stream, owner, n - 1); }
  }

  lemma {:induction false} LoadTotal(s: State, n: nat)
    requires n <= |s.lanes| && forall i :: 0 <= i < n ==> LaneInOrder(s, i)
    ensures SumDealt(s.owner, n) == SumOfLane(s.delivered, s.owner, n) + TotalLoad(s.lanes[..n])
  {
    if n > 0 {
      hide Dealt, OfLane;
      assert s.lanes[..n][..n - 1] == s.lanes[..n - 1];
      LoadTotal(s, n - 1);
      assert LaneInOrder(s, n - 1);
    }
  }

  /** Conservation of packets, counted: at the head of the receive loop, what was received and not
      delivered is what the waiting counter says, and exactly what the rings and workers hold. */
  lemma InFlight(s: State)
    requires Inv(s) && s.main.pc == Receive
    ensures s.main.rx - s.main.tx == s.main.waitOnDeq == TotalLoad(s.lanes)
    ensures s.main.rx == |s.owner| && s.main.tx == |s.delivered|
  {
    DealtTotal(s.owner, |s.lanes|);
    OfLaneTotal(s.delivered, s.owner, |s.lanes|);
    LoadTotal(s, |s.lanes|);
    assert s.lanes[..|s.lanes|] == s.lanes;
  }

  /** Every packet dealt is in exactly one place: delivered once, or once in the lane it was dealt to. */
  lemma ExactlyOnce(s: State, k: nat)
    requires Inv(s) && k < |s.owner|
    ensures s.owner[k] < |s.lanes|
    ensures multiset(s.delivered + Contents(s.lanes[s.owner[k]]))[StampedPacket(k)] == 1
    ensures forall j :: 0 <= j < |s.lanes| && j != s.owner[k] ==> StampedPacket(k) !in Contents(s.lanes[j])
  {
    hide Dealt, OfLane, Contents;
    var p, i := StampedPacket(k), s.owner[k];
    assert s.owner[k] in s.owner;
    assert LaneInOrder(s, i);
    DealtOwned(s.owner, i);
    AscendingOnce(Dealt(s.owner, i), p);
    OfLaneCount(s.delivered, s.owner, i, p);
    forall j | 0 <= j < |s.lanes| && j != i
      ensures p !in Contents(s.lanes[j])
    {
      FromLane(s, j);
    }
  }

  lemma {:induction false} OfLaneCount(stream: seq<Packet>, owner: seq<nat>, i: nat, p: Packet)
    requires p.id < |owner| && owner[p.id] == i
    ensures multiset(OfLane(stream, owner, i))[p] == multiset(stream)[p]
  {
    if stream != [] {
      var k := |stream| - 1;
      assert stream == stream[..k] + [stream[k]];
      OfLaneCount(stream[..k], owner, i, p);
    }
  }

  lemma {:induction false} AscendingOnce(s: seq<Packet>, p: Packet)
    requires Ascending(s) && p in s
    ensures multiset(s)[p] == 1
  {
    var j :| 0 <= j < |s| && s[j] == p;
    assert s == s[..j] + [p] + s[j + 1..];
    assert p !in s[..j] && p !in s[j + 1..];
  }

  /** Order: the stream the main thread collects is an interleaving of the lanes' streams, each of
      which is a prefix of what was dealt to the lane, in strictly increasing order of arrival. */
  lemma LanesInOrder(s: State, i: nat)
    requires Inv(s) && i < |s.lanes|
    ensures OfLane(s.delivered, s.owner, i) <= Dealt(s.owner, i)
    ensures Ascending(OfLane(s.delivered, s.owner, i))
    ensures forall p :: p in OfLane(s.delivered, s.owner, i) ==> p.seqn == p.id % MOD
  {
    hide Dealt, OfLane, Contents;
    assert LaneInOrder(s, i);
    DealtOwned(s.owner, i);
    var got := OfLane(s.delivered, s.owner, i);
    forall p | p in got
      ensures p.seqn == p.id % MOD
    {
      assert p in Dealt(s.owner, i);
    }
  }

  /** Nothing is delivered twice or made up: a drained pipeline has delivered the arrivals, reordered. */
  lemma DeliveredAll(s: State)
    requires Inv(s) && s.main.pc == Receive && s.main.waitOnDeq == 0
    ensures |s.delivered| == s.main.rx
    ensures forall k: nat :: k < s.main.rx ==> StampedPacket(k) in s.delivered
  {
    InFlight(s);
    forall k: nat | k < s.main.rx
      ensures StampedPacket(k) in s.delivered
    {
      hide Dealt, OfLane, Contents;
      var p, i := StampedPacket(k), s.owner[k];
      assert s.owner[k] in s.owner && LaneInOrder(s, i);
      DealtOwned(s.owner, i);
      LaneLoad(s.lanes, i);
      assert p in OfLane(s.delivered, s.owner, i);
      OfLaneSubset(s.delivered, s.owner, i, p);
    }
  }

  lemma {:induction false} LaneLoad(lanes: seq<Lane>, i: nat)
    requires i < |lanes|
    ensures Load(lanes[i]) <= TotalLoad(lanes)
    ensures TotalLoad(lanes) == 0 ==> Contents(lanes[i]) == []
  {
    if i < |lanes| - 1 { LaneLoad(lanes[..|lanes| - 1], i); }
  }

  lemma {:induction false} OfLaneSubset(stream: seq<Packet>, owner: seq<nat>, i: nat, p: Packet)
    requires p in OfLane(stream, owner, i)
    ensures p in stream
  {
    if p in OfLane(stream[..|stream| - 1], owner, i) {
      OfLaneSubset(stream[..|stream| - 1], owner, i, p);
    }
  }
}
