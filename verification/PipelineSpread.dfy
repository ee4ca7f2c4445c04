/** How far the pipeline can deliver a packet ahead of an earlier one that is still under way. */
module PipelineSpread {
  import opened PacketStreams
  import opened PacketTypes
  import opened Words
  import opened Pipeline
  import opened PipelineSafety
  import opened PipelineProgress

  // ----- the lanes are dealt to in turn ------------------------------------------------------------

  /** The most packets the main thread deals to a lane in one turn. */
  function Share(s: State): nat {
    Least(s.batchSizeIn, DEFAULT_ETH_BATCH_SIZE)
  }

  predicate Without(owner: seq<nat>, i: nat, k: nat, j: nat)
    requires k <= j <= |owner|
  {
    forall x :: k <= x < j ==> owner[x] != i
  }

  /** How many lanes had their turn since lane `i` had its last one, if it is lane `r`'s turn now. */
  function Since(i: nat, r: nat, n: nat): nat
    requires i < n && r < n
  {
    if i < r then r - i - 1 else r + n - i - 1
  }

  /** How many packets at most were dealt since lane `i` got one, if lane `r` has got `e` in its turn so far. */
  function Recent(i: nat, r: nat, n: nat, b: nat, e: nat): nat
    requires i < n && r < n
  {
    if i == r && e > 0 then 0 else b * Since(i, r, n) + e
  }

  /** At most `gap` packets in a row pass a lane by. */
  ghost predicate Segments(owner: seq<nat>, n: nat, gap: nat) {
    forall i, k, j :: 0 <= i < n && 0 <= k <= j <= |owner| && Without(owner, i, k, j) ==> j - k <= gap
  }

  ghost predicate Tails(owner: seq<nat>, n: nat, r: nat, b: nat, e: nat)
    requires r < n
  {
    forall i, k :: 0 <= i < n && 0 <= k <= |owner| && Without(owner, i, k, |owner|) ==>
      |owner| - k <= Recent(i, r, n, b, e)
  }

  /** Every lane gets its share in its turn. */
  ghost predicate InTurn(s: State)
    requires WellFormed(s)
  {
    var m, n, b := s.main, |s.lanes|, Share(s);
    && (m.pc == Enqueue ==> m.batchEnq <= b)
    && Segments(s.owner, n, b * (n - 1))
    && Tails(s.owner, n, m.inIndex, b, if m.pc == Enqueue then m.enqueued else 0)
  }

  lemma Most(b: nat, x: nat, y: nat)
    requires x <= y
    ensures b * x <= b * y && b * (x + 1) == b * x + b
  {
    assert b * (y - x) >= 0;
  }

  lemma PushInTurn(owner: seq<nat>, n: nat, r: nat, b: nat, e: nat, c: nat)
    requires r < n && e + c <= b && Segments(owner, n, b * (n - 1)) && Tails(owner, n, r, b, e)
    ensures Segments(owner + Repeat(r, c), n, b * (n - 1)) && Tails(owner + Repeat(r, c), n, r, b, e + c)
  {
    var more := owner + Repeat(r, c);
    forall i, k, j | 0 <= i < n && 0 <= k <= j <= |more| && Without(more, i, k, j)
      ensures j - k <= b * (n - 1)
      ensures j == |more| ==> j - k <= Recent(i, r, n, b, e + c)
    {
      PushSegment(owner, n, b * (n - 1), r, b, e, c, i, k, j);
    }
  }

  lemma WithoutBefore(owner: seq<nat>, more: seq<nat>, i: nat, k: nat, j: nat)
    requires k <= j <= |owner + more| && k <= |owner| && Without(owner + more, i, k, j)
    ensures Without(owner, i, k, Least(j, |owner|))
  {
    forall x | k <= x < Least(j, |owner|)
      ensures owner[x] != i
    {
      assert (owner + more)[x] == owner[x];
    }
  }

  lemma RecentGrows(i: nat, r: nat, n: nat, b: nat, e: nat, c: nat)
    requires i < n && r < n && e + c <= b
    ensures i != r ==> Recent(i, r, n, b, e) + c == Recent(i, r, n, b, e + c) <= b * (n - 1)
    ensures c > 0 ==> Recent(r, r, n, b, e + c) == 0
  {
    if i != r { Most(b, Since(i, r, n) + 1, n - 1); }
  }

  lemma PushSegment(owner: seq<nat>, n: nat, gap: nat, r: nat, b: nat, e: nat, c: nat, i: nat, k: nat, j: nat)
    requires r < n && e + c <= b && gap == b * (n - 1) && Segments(owner, n, gap) && Tails(owner, n, r, b, e)
    requires i < n && k <= j <= |owner| + c && Without(owner + Repeat(r, c), i, k, j)
    ensures j - k <= gap
    ensures j == |owner| + c ==> j - k <= Recent(i, r, n, b, e + c)
  {
    var more := owner + Repeat(r, c);
    RecentGrows(i, r, n, b, e, c);
    hide Recent, Without;
    if k <= |owner| { WithoutBefore(owner, Repeat(r, c), i, k, j); }
    if j > |owner| && i == r {
      assert k == j by { Passed(more, r, k, j); }
    }
  }

  lemma Passed(owner: seq<nat>, r: nat, k: nat, j: nat)
    requires k <= j <= |owner| && Without(owner, r, k, j) && j > 0 && owner[j - 1] == r
    ensures k == j
  {
  }

  lemma TurnOver(owner: seq<nat>, n: nat, r: nat, b: nat, e: nat)
    requires r < n && 0 < e <= b && Tails(owner, n, r, b, e)
    ensures Tails(owner, n, (r + 1) % n, b, 0)
  {
    Rotate(r, n);
    forall i, k | 0 <= i < n && 0 <= k <= |owner| && Without(owner, i, k, |owner|)
      ensures |owner| - k <= Recent(i, (r + 1) % n, n, b, 0)
    {
      hide Without;
      if i != r { Most(b, Since(i, r, n), n); }
    }
  }

  lemma StartInTurn(n: nat, batchSizeIn: nat)
    requires n > 0 && batchSizeIn > 0
    ensures InTurn(Start(n, batchSizeIn))
  {
    hide Recent;
    Most(Share(Start(n, batchSizeIn)), 0, n - 1);
  }

  lemma StepInTurn(s: State, e: Event)
    requires Inv(s) && Possible(s, e) && WellFormed(Step(s, e)) && InTurn(s)
    ensures InTurn(Step(s, e))
  {
    hide Segments, Tails, Counted, BatchInOrder, InOrder, Paced;
    var m, n, b := s.main, |s.lanes|, Share(s);
    if e.MainTick? && m.pc == Enqueue {
      if m.enqueued < m.batchEnq {
        assert Fits(s.lanes[m.inIndex]);
        var k := Least(m.batchEnq - m.enqueued, CAPACITY - |s.lanes[m.inIndex].ringIn|);
        PushInTurn(s.owner, n, m.inIndex, b, m.enqueued, k);
        assert Step(s, e).owner == s.owner + Repeat(m.inIndex, k);
      } else {
        TurnOver(s.owner, n, m.inIndex, b, m.enqueued);
      }
    }
  }

  // ----- what is behind a packet under way -------------------------------------------------------

  lemma {:induction false} DealtNone(owner: seq<nat>, i: nat, k: nat, j: nat)
    requires k <= j <= |owner| && Without(owner, i, k, j)
    ensures Dealt(owner[..j], i) == Dealt(owner[..k], i)
    decreases j
  {
    if k < j {
      DealtNone(owner, i, k, j - 1);
      assert owner[..j][..j - 1] == owner[..j - 1];
    }
  }

  lemma DealtNext(owner: seq<nat>, k: nat)
    requires k < |owner|
    ensures Dealt(owner[..k + 1], owner[k]) == Dealt(owner[..k], owner[k]) + [StampedPacket(k)]
  {
    assert owner[..k + 1][..k] == owner[..k];
  }

  lemma {:induction false} DealtPrefix(owner: seq<nat>, i: nat, k: nat)
    requires k <= |owner|
    ensures Dealt(owner[..k], i) <= Dealt(owner, i)
    decreases |owner|
  {
    if k == |owner| {
      assert owner[..k] == owner;
    } else {
      assert owner[..|owner| - 1][..k] == owner[..k];
      DealtPrefix(owner[..|owner| - 1], i, k);
    }
  }

  /** The next packet of lane `i` from place `k` on, or the end. */
  function NextOf(owner: seq<nat>, i: nat, k: nat): (j: nat)
    requires k <= |owner|
    ensures k <= j <= |owner| && Without(owner, i, k, j) && (j < |owner| ==> owner[j] == i)
    decreases |owner| - k
  {
    if k == |owner| || owner[k] == i then k else NextOf(owner, i, k + 1)
  }

  /** A lane's packets from one of them on account for all packets from there on. */
  lemma {:induction false} Behind(owner: seq<nat>, n: nat, gap: nat, i: nat, k: nat)
    requires Segments(owner, n, gap) && i < n && k < |owner| && owner[k] == i
    ensures |owner| - k <= (|Dealt(owner, i)| - |Dealt(owner[..k], i)|) * (gap + 1)
    decreases |owner| - k
  {
    var j := NextOf(owner, i, k + 1);
    DealtNext(owner, k);
    DealtNone(owner, i, k + 1, j);
    hide Dealt;
    if j < |owner| {
      Behind(owner, n, gap, i, j);
    } else {
      assert owner[..j] == owner;
    }
    OneRound(|owner| - j, |Dealt(owner, i)| - |Dealt(owner[..j], i)|, gap, j - k);
  }

  lemma OneRound(left: int, c: int, gap: nat, more: nat)
    requires left <= c * (gap + 1) && more <= gap + 1
    ensures more + left <= (c + 1) * (gap + 1)
  {
  }

  lemma Rounds(left: int, c: int, bound: nat, gap: nat)
    requires left <= c * (gap + 1) && c <= bound
    ensures left <= bound * (gap + 1)
  {
    assert (bound - c) * (gap + 1) >= 0;
  }

  lemma {:induction false} OfLaneSubset(stream: seq<Packet>, owner: seq<nat>, i: nat)
    ensures forall p :: p in OfLane(stream, owner, i) ==> p in stream
  {
    if stream != [] { OfLaneSubset(stream[..|stream| - 1], owner, i); }
  }

  const LANE_BOUND: nat := CAPACITY + DEFAULT_BATCH_SIZE + DEFAULT_ETH_BATCH_SIZE

  /** How many packets at most have been dealt since a packet that is under way. */
  function Distance(s: State): nat
    requires |s.lanes| > 0
  {
    LANE_BOUND * (Share(s) * (|s.lanes| - 1) + 1)
  }

  /** The packets of a lane from an undelivered one on are all in the lane. */
  lemma StillHeld(s: State, k: nat)
    requires Inv(s) && k < |s.owner| && Missing(s.delivered, k, |s.delivered|)
    ensures var i := s.owner[k];
      && i < |s.lanes|
      && |Dealt(s.owner, i)| - |Dealt(s.owner[..k], i)| <= Load(s.lanes[i])
  {
    hide Dealt, OfLane, Load;
    var i := s.owner[k];
    assert s.owner[k] in s.owner && LaneInOrder(s, i);
    var before, out := Dealt(s.owner[..k], i), OfLane(s.delivered, s.owner, i);
    DealtNext(s.owner, k);
    DealtPrefix(s.owner, i, k + 1);
    OfLaneSubset(s.delivered, s.owner, i);
    assert Dealt(s.owner, i)[|before|] == StampedPacket(k);
    forall j | 0 <= j < |out|
      ensures Dealt(s.owner, i)[j] != StampedPacket(k)
    {
      assert out[j] in s.delivered;
    }
    Held(s.lanes[i]);
  }

  lemma Held(lane: Lane)
    ensures |Contents(lane)| == Load(lane)
  {
  }

  /** While a packet is under way, the number of packets dealt since is bounded. */
  lemma Outstanding(s: State, k: nat)
    requires Inv(s) && InTurn(s) && k < |s.owner| && Missing(s.delivered, k, |s.delivered|)
    ensures |s.owner| - k <= Distance(s)
  {
    var i, gap := s.owner[k], Share(s) * (|s.lanes| - 1);
    StillHeld(s, k);
    LaneBound(s, i);
    Most(Share(s), 0, |s.lanes| - 1);
    Behind(s.owner, |s.lanes|, gap, i, k);
    hide Dealt, Inv, WellFormed;
    Rounds(|s.owner| - k, |Dealt(s.owner, i)| - |Dealt(s.owner[..k], i)|, LANE_BOUND, gap);
  }

  lemma StepClose(s: State, e: Event)
    requires Inv(s) && Possible(s, e) && InTurn(s) && Close(s.delivered, Distance(s))
    ensures |Step(s, e).lanes| == |s.lanes| && Close(Step(s, e).delivered, Distance(s))
  {
    if e.MainTick? && s.main.pc == Aggregate {
      Collected(s);
      FromLane(s, s.main.outIndex);
      var got := s.lanes[s.main.outIndex].ringOut;
      forall p | p in got
        ensures p.id < |s.owner|
      {
        assert p in Contents(s.lanes[s.main.outIndex]);
      }
      forall k: nat | Missing(s.delivered, k, |s.delivered|)
        ensures |s.owner| <= k + Distance(s)
      {
        if k < |s.owner| { Outstanding(s, k); }
      }
      CloseMore(s.delivered, got, |s.owner|, Distance(s));
    }
  }

  lemma CloseMore(ps: seq<Packet>, got: seq<Packet>, m: nat, d: nat)
    requires Close(ps, d) && (forall p :: p in got ==> p.id < m)
    requires forall k: nat :: Missing(ps, k, |ps|) ==> m <= k + d
    ensures Close(ps + got, d)
  {
    forall t, k: nat | 0 <= t < |ps + got| && Missing(ps + got, k, t)
      ensures (ps + got)[t].id < k + d
    {
      MissingBefore(ps, got, k, t);
      if t >= |ps| { assert got[t - |ps|] in got; }
    }
  }

  lemma MissingBefore(ps: seq<Packet>, got: seq<Packet>, k: nat, t: nat)
    requires t <= |ps + got| && Missing(ps + got, k, t)
    ensures Missing(ps, k, Least(t, |ps|))
  {
    forall u | 0 <= u < Least(t, |ps|)
      ensures ps[u].id != k
    {
      assert (ps + got)[u] == ps[u];
    }
  }

  /** In every run, no packet is delivered further than the bound ahead of one still under way. */
  lemma {:induction false} RunClose(s: State, es: seq<Event>)
    requires Inv(s) && InTurn(s) && PossibleRun(s, es) && Close(s.delivered, Distance(s))
    ensures Close(Reach(s, es).delivered, Distance(s))
    decreases |es|
  {
    if es != [] {
      StepKeepsInv(s, es[0]);
      StepInTurn(s, es[0]);
      StepClose(s, es[0]);
      assert Distance(Step(s, es[0])) == Distance(s);
      hide Inv, InTurn, Distance, Step, Close;
      RunClose(Step(s, es[0]), es[1..]);
    }
  }

  lemma StartClose(n: nat, batchSizeIn: nat, es: seq<Event>)
    requires n > 0 && batchSizeIn > 0 && Inv(Start(n, batchSizeIn)) && PossibleRun(Start(n, batchSizeIn), es)
    ensures var s := Start(n, batchSizeIn);
      Close(Reach(s, es).delivered, Distance(s))
  {
    StartInTurn(n, batchSizeIn);
    RunClose(Start(n, batchSizeIn), es);
  }
}
