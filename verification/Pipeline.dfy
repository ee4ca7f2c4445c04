/** The multi-lane pipeline as a step system: the main thread deals stamped packets to the input
    rings of N workers and collects from their output rings; each worker moves bursts from its input
    ring to its output ring.  One step is one ring operation of one thread, or one turn of the main
    thread's control flow, so a sequence of steps is any interleaving of the threads.

    A packet's identity is its place in the order of arrival.  Two fields of the state only record
    history: `owner[k]` is the lane packet `k` was dealt to, and `delivered` is what the main thread
    has collected, in order.  `dirty` records the lanes dealt to since their output ring was last
    visited. */
module Pipeline {
  import opened PacketTypes
  import opened Words

  const RING_SIZE: nat := 8192
  const CAPACITY: nat := RING_SIZE - 1
  const MAX_PKTS_BURST: nat := 8192
  const DEFAULT_BATCH_SIZE: nat := 64
  const DEFAULT_ETH_BATCH_SIZE: nat := 64

  /** A worker's two rings and the packets it has in hand between them. */
  datatype Lane = Lane(ringIn: seq<Packet>, hand: seq<Packet>, ringOut: seq<Packet>)

  /** Where the main thread is: at the head of the receive loop, at the head of the inner loop,
      spinning on an input ring, or about to collect from an output ring. */
  datatype Pc = Receive | InnerHead | Enqueue | Aggregate

  datatype Main = Main(
    pc: Pc, batch: seq<Packet>, waitOnEnq: int, totEnq: int, batchEnq: nat, enqueued: nat,
    waitOnDeq: int, inIndex: nat, outIndex: nat, seqn: Word, rx: nat, tx: nat)

  datatype State = State(
    batchSizeIn: nat, lanes: seq<Lane>, main: Main,
    owner: seq<nat>, delivered: seq<Packet>, dirty: set<nat>)

  datatype Event = MainTick(received: nat) | WorkerTick(lane: nat)

  function Start(n: nat, batchSizeIn: nat): State {
    State(batchSizeIn, seq(n, _ => Lane([], [], [])),
          Main(Receive, [], 0, 0, 0, 0, 0, 0, 0, 0, 0, 0), [], [], {})
  }

  // ----- the steps -----------------------------------------------------------------------------

  function StampedPacket(k: nat): Packet {
    Packet(k, k % MOD)
  }

  /** Packets as they arrive, numbered from `first`; their stamp is not set yet. */
  function Arrivals(first: nat, count: nat): (s: seq<Packet>)
    ensures |s| == count && forall i :: 0 <= i < count ==> s[i].id == first + i
  {
    seq(count, (i: nat) => Packet(first + i, 0))
  }

  /** The stamping loop over one batch. */
  function Stamp(s: seq<Packet>, from: nat, count: nat, seqn: Word): (t: seq<Packet>)
    requires from + count <= |s|
    ensures |t| == |s|
  {
    seq(|s|, i requires 0 <= i < |s| =>
          if from <= i < from + count then s[i].(seqn := (seqn + i - from) % MOD) else s[i])
  }

  function MainStep(s: State, received: nat): State
    requires WellFormed(s)
  {
    var m := s.main;
    match m.pc
    case Receive =>
      if received == 0 then
        if m.waitOnDeq > 0 then s.(main := m.(pc := Aggregate)) else s
      else
        s.(main := m.(pc := InnerHead, batch := Arrivals(m.rx, received), rx := m.rx + received,
                      waitOnEnq := received, totEnq := 0))
    case InnerHead =>
      if m.waitOnEnq > 0 then
        var count := Least(s.batchSizeIn, m.waitOnEnq);
        s.(main := m.(pc := Enqueue, batchEnq := count, waitOnDeq := m.waitOnDeq + count, enqueued := 0,
                      batch := Stamp(m.batch, m.totEnq, count, m.seqn), seqn := (m.seqn + count) % MOD),
           dirty := s.dirty + {m.inIndex})
      else
        s.(main := m.(pc := Receive))
    case Enqueue =>
      if m.enqueued < m.batchEnq then
        var lane := s.lanes[m.inIndex];
        var k := Least(m.batchEnq - m.enqueued, CAPACITY - |lane.ringIn|);
        var from := m.totEnq + m.enqueued;
        s.(lanes := s.lanes[m.inIndex := lane.(ringIn := lane.ringIn + m.batch[from..from + k])],
           main := m.(enqueued := m.enqueued + k),
           owner := s.owner + seq(k, _ => m.inIndex))
      else
        s.(main := m.(pc := Aggregate, inIndex := (m.inIndex + 1) % |s.lanes|))
    case Aggregate =>
      var lane := s.lanes[m.outIndex];
      var k := Least(MAX_PKTS_BURST, |lane.ringOut|);
      s.(lanes := s.lanes[m.outIndex := lane.(ringOut := lane.ringOut[k..])],
         main := m.(pc := InnerHead, outIndex := (m.outIndex + 1) % |s.lanes|, tx := m.tx + k,
                    waitOnDeq := m.waitOnDeq - k, waitOnEnq := m.waitOnEnq - m.batchEnq,
                    totEnq := m.totEnq + m.batchEnq),
         delivered := s.delivered + lane.ringOut[..k],
         dirty := s.dirty - {m.outIndex})
  }

  /** A worker with nothing in hand takes a burst; otherwise it pushes what it can. */
  function WorkerStep(lane: Lane): Lane
    requires |lane.ringOut| <= CAPACITY
  {
    if lane.hand == [] then
      var k := Least(DEFAULT_BATCH_SIZE, |lane.ringIn|);
      lane.(hand := lane.ringIn[..k], ringIn := lane.ringIn[k..])
    else
      var k := Least(Least(|lane.hand|, DEFAULT_BATCH_SIZE), CAPACITY - |lane.ringOut|);
      lane.(ringOut := lane.ringOut + lane.hand[..k], hand := lane.hand[k..])
  }

  predicate Possible(s: State, e: Event) {
    match e
    case MainTick(received) => received <= DEFAULT_ETH_BATCH_SIZE
    case WorkerTick(i) => i < |s.lanes|
  }

  function Step(s: State, e: Event): State
    requires WellFormed(s) && Possible(s, e)
  {
    match e
    case MainTick(received) => MainStep(s, received)
    case WorkerTick(i) => s.(lanes := s.lanes[i := WorkerStep(s.lanes[i])])
  }

  // ----- the invariant -------------------------------------------------------------------------

  /** Indices and counters in range: what the code needs to run. */
  predicate WellFormed(s: State) {
    var m := s.main;
    && |s.lanes| > 0 && s.batchSizeIn > 0
    && m.inIndex < |s.lanes| && m.outIndex < |s.lanes|
    && (forall i :: 0 <= i < |s.lanes| ==> Fits(s.lanes[i]))
    && m.waitOnEnq + m.totEnq == |m.batch| <= DEFAULT_ETH_BATCH_SIZE
    && (m.pc == Receive ==> m.waitOnEnq <= 0)
    && m.totEnq >= 0
    && (m.pc == Enqueue ==> 0 < m.batchEnq <= m.waitOnEnq && m.enqueued <= m.batchEnq)
    && (m.pc == Aggregate ==> m.waitOnEnq <= 0 || m.waitOnEnq >= m.batchEnq)
  }

  predicate Fits(lane: Lane) {
    |lane.ringIn| <= CAPACITY && |lane.hand| <= DEFAULT_BATCH_SIZE && |lane.ringOut| <= CAPACITY
  }

  /** Packets received but not yet put into an input ring. */
  function Pending(m: Main): int {
    match m.pc
    case Receive => 0
    case InnerHead => if m.waitOnEnq > 0 then m.waitOnEnq else 0
    case Enqueue => m.waitOnEnq - m.enqueued
    case Aggregate => if m.waitOnEnq > 0 then m.waitOnEnq - m.batchEnq else 0
  }

  /** Packets counted as in the pipeline that the main thread still has to put into a ring. */
  function Unpushed(m: Main): int {
    if m.pc == Enqueue then m.batchEnq - m.enqueued else 0
  }

  /** The counters agree with the history. */
  predicate Counted(s: State) {
    var m := s.main;
    && m.rx == |s.owner| + Pending(m)
    && m.tx == |s.delivered|
    && m.waitOnDeq == |s.owner| - |s.delivered| + Unpushed(m)
    && m.seqn == (|s.owner| + Unpushed(m)) % MOD
  }

  /** The packets still to be dealt stand in the batch in order of arrival, and are stamped as soon
      as they are on their way. */
  predicate BatchInOrder(s: State)
    requires WellFormed(s)
  {
    var m := s.main;
    && (forall i :: 0 <= i < |m.batch| ==> m.batch[i].id == m.rx - |m.batch| + i)
    && (m.pc == Enqueue ==>
          forall i :: m.totEnq + m.enqueued <= i < m.totEnq + m.batchEnq ==>
            m.batch[i] == StampedPacket(m.batch[i].id))
  }

  /** The packets dealt to lane `i`, in order of arrival. */
  function Dealt(owner: seq<nat>, i: nat): seq<Packet> {
    if owner == [] then []
    else
      var k := |owner| - 1;
      Dealt(owner[..k], i) + if owner[k] == i then [StampedPacket(k)] else []
  }

  /** The part of a stream that belongs to lane `i`. */
  function OfLane(stream: seq<Packet>, owner: seq<nat>, i: nat): seq<Packet> {
    if stream == [] then []
    else
      var k := |stream| - 1;
      OfLane(stream[..k], owner, i) +
      if stream[k].id < |owner| && owner[stream[k].id] == i then [stream[k]] else []
  }

  /** Everything lane `i` still holds, oldest first. */
  function Contents(lane: Lane): seq<Packet> {
    lane.ringOut + lane.hand + lane.ringIn
  }

  /** What was dealt to a lane is what was delivered from it followed by what it holds. */
  ghost predicate LaneInOrder(s: State, i: nat)
    requires i < |s.lanes|
  {
    Dealt(s.owner, i) == OfLane(s.delivered, s.owner, i) + Contents(s.lanes[i])
  }

  /** How many places lane `i` is ahead of the index `from`, going round. */
  function Ahead(i: nat, from: nat, n: nat): (d: int)
    requires i < n && from < n
    ensures 0 <= d < n
  {
    if from <= i then i - from else i + n - from
  }

  /** A lane dealt to since its last visit is visited again before it is dealt to again. */
  predicate Phased(s: State)
    requires s.main.inIndex < |s.lanes| && s.main.outIndex < |s.lanes|
  {
    var m, n := s.main, |s.lanes|;
    forall i :: i in s.dirty ==> (
      && i < n
      && match m.pc
         case Enqueue => i == m.inIndex || Ahead(i, m.outIndex, n) < Ahead(i, m.inIndex, n)
         case Aggregate => Ahead(i, m.outIndex, n) <= Ahead(i, m.inIndex, n)
         case _ => Ahead(i, m.outIndex, n) < Ahead(i, m.inIndex, n))
  }

  function Load(lane: Lane): nat {
    |lane.ringIn| + |lane.hand| + |lane.ringOut|
  }

  /** A lane never holds more than a full input ring, one worker burst and one batch. */
  predicate Bounded(s: State) {
    var m := s.main;
    forall i :: 0 <= i < |s.lanes| ==>
      Load(s.lanes[i]) + (if i == m.inIndex then Unpushed(m) else 0)
        <= CAPACITY + DEFAULT_BATCH_SIZE + if i in s.dirty then DEFAULT_ETH_BATCH_SIZE else 0
  }

  /** Every lane is in order, and only packets that were dealt are delivered. */
  ghost predicate InOrder(s: State) {
    && (forall k :: k in s.owner ==> k < |s.lanes|)
    && (forall i :: 0 <= i < |s.lanes| ==> LaneInOrder(s, i))
    && (forall p :: p in s.delivered ==> p.id < |s.owner|)
  }

  /** The two ring indices go round in step, so no lane fills up beyond its bound. */
  predicate Paced(s: State)
    requires WellFormed(s)
  {
    Phased(s) && Bounded(s) && (s.main.pc == Enqueue ==> s.main.inIndex in s.dirty)
  }

  ghost predicate Inv(s: State) {
    WellFormed(s) && Counted(s) && BatchInOrder(s) && InOrder(s) && Paced(s)
  }
}
