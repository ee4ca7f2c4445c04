/** Runs that deliver packets far ahead of the first one, because one worker stands still. */
module PipelineSkew {
  import opened PacketStreams
  import opened PacketTypes
  import opened Words
  import opened Pipeline
  import opened PipelineSafety
  import opened PipelineProgress
  import opened PipelineSpread

  /** One batch is received and dealt to the lane whose turn it is. */
  lemma Deal(s: State, count: nat) returns (es: seq<Event>)
    requires Inv(s) && s.main.pc == Receive && 0 < count <= Share(s)
    requires |s.lanes[s.main.inIndex].ringIn| + count <= CAPACITY
    ensures PossibleRun(s, es)
    ensures var t, r := Reach(s, es), s.main.inIndex;
      && t.main.pc == Aggregate && t.main.waitOnEnq == t.main.batchEnq && t.batchSizeIn == s.batchSizeIn
      && t.owner == s.owner + Repeat(r, count) && t.delivered == s.delivered
      && t.main.inIndex == (r + 1) % |s.lanes| && t.main.outIndex == s.main.outIndex
      && (forall i :: 0 <= i < |s.lanes| && i != r ==> t.lanes[i] == s.lanes[i])
      && t.lanes[r].hand == s.lanes[r].hand && t.lanes[r].ringOut == s.lanes[r].ringOut
      && |t.lanes[r].ringIn| == |s.lanes[r].ringIn| + count
  {
    var tick := MainTick(0);
    var a := Step(s, MainTick(count));
    StepKeepsInv(s, MainTick(count));
    var b := Step(a, tick);
    StepKeepsInv(a, tick);
    var c := Step(b, tick);
    StepKeepsInv(b, tick);
    Single(c, tick);
    Prepend(b, tick, [tick]);
    Prepend(a, tick, [tick] + [tick]);
    Prepend(s, MainTick(count), [tick] + ([tick] + [tick]));
    es := [MainTick(count)] + ([tick] + ([tick] + [tick]));
    assert c.owner == s.owner + Repeat(s.main.inIndex, count);
  }

  /** The visit to an output ring, back to the head of the receive loop. */
  lemma Visit(s: State) returns (es: seq<Event>)
    requires Inv(s) && s.main.pc == Aggregate && s.main.waitOnEnq == s.main.batchEnq
    ensures PossibleRun(s, es)
    ensures var t, v := Reach(s, es), s.main.outIndex;
      && t.main.pc == Receive && t.batchSizeIn == s.batchSizeIn && t.owner == s.owner
      && t.lanes == s.lanes[v := s.lanes[v].(ringOut := [])]
      && t.delivered == s.delivered + s.lanes[v].ringOut
      && t.main.inIndex == s.main.inIndex && t.main.outIndex == (v + 1) % |s.lanes|
  {
    var tick := MainTick(0);
    Collected(s);
    var a := Step(s, tick);
    StepKeepsInv(s, tick);
    Single(a, tick);
    Prepend(s, tick, [tick]);
    es := [tick] + [tick];
  }

  /** A worker takes what is in its input ring and puts it into its output ring. */
  lemma Forward(s: State, i: nat) returns (es: seq<Event>)
    requires Inv(s) && i < |s.lanes| && s.lanes[i].hand == [] == s.lanes[i].ringOut
    requires |s.lanes[i].ringIn| <= DEFAULT_BATCH_SIZE
    ensures PossibleRun(s, es)
    ensures Reach(s, es) == s.(lanes := s.lanes[i := Lane([], [], s.lanes[i].ringIn)])
  {
    var tick := WorkerTick(i);
    StepKeepsInv(s, tick);
    var a := Step(s, tick);
    Single(a, tick);
    Prepend(s, tick, [tick]);
    es := [tick] + [tick];
    TwoTurns(s.lanes[i]);
    assert Step(a, tick).lanes == s.lanes[i := Lane([], [], s.lanes[i].ringIn)];
  }

  lemma TwoTurns(lane: Lane)
    requires lane.hand == [] == lane.ringOut && |lane.ringIn| <= DEFAULT_BATCH_SIZE
    ensures WorkerStep(WorkerStep(lane)) == Lane([], [], lane.ringIn)
  {
    assert WorkerStep(lane) == Lane([], lane.ringIn, []);
  }

  /** After `c` rounds and `j` lanes of the next one: the first lane holds all it was dealt, a packet in each round; the
      others have forwarded full batches. */
  ghost predicate Skewed(s: State, c: nat, j: nat) {
    var n, b := |s.lanes|, Share(s);
    && j < n && s.main.pc == Receive && s.main.inIndex == s.main.outIndex == j
    && |s.lanes[0].ringIn| == c + (if j > 0 then 1 else 0) && s.lanes[0].hand == [] == s.lanes[0].ringOut
    && (forall i :: 1 <= i < n ==> s.lanes[i] == Lane([], [], []))
    && |s.delivered| == b * ((n - 1) * c + if j > 0 then j - 1 else 0)
    && |s.owner| == |s.delivered| + |s.lanes[0].ringIn|
    && Missing(s.delivered, 0, |s.delivered|)
    && (if c == 0 && j == 0 then s.owner == [] else s.owner != [] && s.owner[0] == 0)
  }

  /** The first lane is dealt a single packet. */
  lemma FirstLane(s: State, c: nat) returns (es: seq<Event>)
    requires Inv(s) && Skewed(s, c, 0) && c < CAPACITY && |s.lanes| > 1
    ensures PossibleRun(s, es) && Skewed(Reach(s, es), c, 1) && Share(Reach(s, es)) == Share(s)
  {
    var fs := Deal(s, 1);
    var t := Reach(s, fs);
    var gs := Visit(t);
    Rotate(0, |s.lanes|);
    hide Inv, Step, Missing;
    Append(s, fs, gs);
    es := fs + gs;
  }

  /** An empty lane is dealt a batch, which its worker forwards at once. */
  lemma DealForward(s: State, count: nat) returns (es: seq<Event>)
    requires Inv(s) && s.main.pc == Receive && 0 < count <= Share(s)
    requires s.lanes[s.main.inIndex] == Lane([], [], [])
    ensures PossibleRun(s, es)
    ensures var t, r := Reach(s, es), s.main.inIndex;
      && t.main.pc == Aggregate && t.main.waitOnEnq == t.main.batchEnq && t.batchSizeIn == s.batchSizeIn
      && t.owner == s.owner + Repeat(r, count) && t.delivered == s.delivered
      && t.main.inIndex == (r + 1) % |s.lanes| && t.main.outIndex == s.main.outIndex
      && |t.lanes[r].ringOut| == count && t.lanes == s.lanes[r := Lane([], [], t.lanes[r].ringOut)]
  {
    var r := s.main.inIndex;
    var fs := Deal(s, count);
    var t := Reach(s, fs);
    var gs := Forward(t, r);
    hide Inv, Step;
    Append(s, fs, gs);
    es := fs + gs;
    assert Reach(t, gs).lanes == s.lanes[r := Lane([], [], t.lanes[r].ringIn)];
  }

  /** Another lane is dealt a full batch, which goes through it. */
  lemma OtherLane(s: State, c: nat, j: nat) returns (es: seq<Event>)
    requires Inv(s) && Skewed(s, c, j) && j > 0
    ensures PossibleRun(s, es) && Share(Reach(s, es)) == Share(s)
    ensures if j + 1 < |s.lanes| then Skewed(Reach(s, es), c, j + 1) else Skewed(Reach(s, es), c + 1, 0)
  {
    var fs := DealForward(s, Share(s));
    var t := Reach(s, fs);
    var gs := Visit(t);
    OtherMissing(t, j, |s.delivered|);
    Append(s, fs, gs);
    es := fs + gs;
    var u := Reach(t, gs);
    assert u.lanes == s.lanes;
    hide Inv, Step, Missing, PossibleRun, Reach;
    NextLane(s, u, c, j);
  }

  lemma NextLane(s: State, t: State, c: nat, j: nat)
    requires Skewed(s, c, j) && j > 0
    requires t.lanes == s.lanes && t.main.pc == Receive && t.batchSizeIn == s.batchSizeIn
    requires t.main.inIndex == t.main.outIndex == (j + 1) % |s.lanes|
    requires t.owner == s.owner + Repeat(j, Share(s))
    requires |t.delivered| == |s.delivered| + Share(s) && Missing(t.delivered, 0, |t.delivered|)
    ensures if j + 1 < |s.lanes| then Skewed(t, c, j + 1) else Skewed(t, c + 1, 0)
  {
    Rotate(j, |s.lanes|);
    OneShare(Share(s), |s.lanes|, c, j);
    hide Missing;
  }

  lemma OneShare(b: nat, n: nat, c: nat, j: nat)
    requires 0 < j < n
    ensures b * ((n - 1) * c + j - 1) + b == b * ((n - 1) * c + j)
    ensures j + 1 == n ==> (n - 1) * c + j == (n - 1) * (c + 1)
  {
    Most(b, (n - 1) * c + j - 1, (n - 1) * c + j);
    Most(n - 1, c, c + 1);
  }

  /** What another lane delivers is not the packet that the first was dealt first. */
  lemma OtherMissing(s: State, j: nat, m: nat)
    requires Inv(s) && 0 < j < |s.lanes| && m == |s.delivered| && Missing(s.delivered, 0, m)
    requires s.owner != [] && s.owner[0] == 0
    ensures var ps := s.delivered + s.lanes[j].ringOut;
      Missing(ps, 0, |ps|)
  {
    FromLane(s, j);
    var ps := s.delivered + s.lanes[j].ringOut;
    forall u | 0 <= u < |ps|
      ensures ps[u].id != 0
    {
      if u >= m { assert ps[u] in Contents(s.lanes[j]); }
    }
  }

  /** One round over the lanes from `j` on. */
  lemma {:induction false} Round(s: State, c: nat, j: nat) returns (es: seq<Event>)
    requires Inv(s) && Skewed(s, c, j) && c < CAPACITY && |s.lanes| > 1
    ensures PossibleRun(s, es) && Skewed(Reach(s, es), c + 1, 0) && Share(Reach(s, es)) == Share(s)
    decreases |s.lanes| - j
  {
    var fs := [];
    if j == 0 {
      fs := FirstLane(s, c);
    } else {
      fs := OtherLane(s, c, j);
    }
    var t := Reach(s, fs);
    if j + 1 < |s.lanes| {
      var gs := Round(t, c, j + 1);
      hide Inv, Step, Skewed, Share;
      Append(s, fs, gs);
      es := fs + gs;
    } else {
      es := fs;
    }
  }

  lemma {:induction false} Rounds(s: State, c: nat, k: nat) returns (es: seq<Event>)
    requires Inv(s) && Skewed(s, c, 0) && c + k <= CAPACITY && |s.lanes| > 1
    ensures PossibleRun(s, es) && Skewed(Reach(s, es), c + k, 0) && Share(Reach(s, es)) == Share(s)
    decreases k
  {
    if k == 0 {
      es := [];
    } else {
      var fs := Round(s, c, 0);
      var gs := Rounds(Reach(s, fs), c + 1, k - 1);
      hide Inv, Step, Skewed, Share;
      Append(s, fs, gs);
      es := fs + gs;
    }
  }

  lemma StartSkewed(n: nat, batchSizeIn: nat)
    requires n > 1 && batchSizeIn > 0
    ensures Inv(Start(n, batchSizeIn)) && Skewed(Start(n, batchSizeIn), 0, 0)
  {
    StartInv(n, batchSizeIn);
  }

  // ----- everything arrives in the end ---------------------------------------------------------------

  lemma StepDelivers(s: State, e: Event)
    requires WellFormed(s) && Possible(s, e)
    ensures s.delivered <= Step(s, e).delivered
  {
  }

  /** What has been delivered stays the beginning of what is. */
  lemma {:induction false} RunDelivers(s: State, es: seq<Event>)
    requires Inv(s) && PossibleRun(s, es)
    ensures s.delivered <= Reach(s, es).delivered
    decreases |es|
  {
    if es != [] {
      StepKeepsInv(s, es[0]);
      StepDelivers(s, es[0]);
      hide Inv, Step;
      RunDelivers(Step(s, es[0]), es[1..]);
    }
  }
}
