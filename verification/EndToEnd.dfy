/** The pipeline followed by the reordering stage: the stream that arrived leaves in order, and how large a window that
    takes. */
module EndToEnd {
  import opened PacketStreams
  import opened PacketTypes
  import opened Words
  import P = Pipeline
  import S = PipelineSafety
  import D = PipelineSpread
  import K = PipelineSkew
  import G = PipelineProgress
  import M = ReorderModel
  import R = ReorderRuns
  import O = PacketOrdering
  import T = Restoration
  import L = RestorationLimits
  import C = StageRuns

  // ----- what the pipeline delivers ------------------------------------------------------------------

  /** What the pipeline delivers is stamped with its place of arrival, and nothing twice. */
  lemma DeliveredDistinct(s: P.State)
    requires P.Inv(s)
    ensures Stream(s.delivered)
    ensures forall p :: p in s.delivered ==> p.id < |s.owner| && p == P.StampedPacket(p.id)
  {
    forall p | p in s.delivered
      ensures p == P.StampedPacket(p.id)
    {
      var i := s.owner[p.id];
      assert s.owner[p.id] in s.owner && P.LaneInOrder(s, i);
      S.OfLaneCount(s.delivered, s.owner, i, p);
      assert p in P.OfLane(s.delivered, s.owner, i);
      S.DealtOwned(s.owner, i);
      assert p in P.Dealt(s.owner, i);
    }
    forall i, j | 0 <= i < j < |s.delivered|
      ensures s.delivered[i].id != s.delivered[j].id
    {
      if s.delivered[i].id == s.delivered[j].id {
        var p := s.delivered[i];
        assert p in s.delivered && s.delivered[j] in s.delivered && s.delivered[j] == p;
        S.ExactlyOnce(s, p.id);
        Twice(s.delivered, i, j);
      }
    }
  }

  lemma Twice(ps: seq<Packet>, i: nat, j: nat)
    requires i < j < |ps| && ps[i] == ps[j]
    ensures multiset(ps)[ps[i]] >= 2
  {
    assert ps == ps[..j] + [ps[j]] + ps[j + 1..];
    assert ps[i] in ps[..j];
  }

  /** Nothing is received and not delivered. */
  predicate Drained(s: P.State) {
    s.main.pc == P.Receive && s.main.waitOnDeq == 0
  }

  /** A drained pipeline has delivered everything it received, each packet once. */
  lemma DeliveredComplete(s: P.State)
    requires P.Inv(s) && Drained(s)
    ensures Complete(s.delivered) && |s.delivered| == s.main.rx == |s.owner|
  {
    DeliveredDistinct(s);
    S.DeliveredAll(s);
    S.InFlight(s);
    forall k: nat
      ensures k in Ids(s.delivered) <==> k < |s.delivered|
    {
      if k < s.main.rx { assert P.StampedPacket(k) in s.delivered; }
    }
  }

  // ----- any schedule of insertions and drains ---------------------------------------------------------

  /** The packets of any reachable pipeline, fed to a fresh buffer in the order of delivery so that each fits, come out
      as the stream that arrived, from its start and without a gap. */
  lemma StreamOut(s: P.State, size: nat, ops: seq<R.Op>)
    requires P.Inv(s) && 0 < size < MOD && T.Inserted(ops) == s.delivered && T.Fitting(T.Fresh(size), ops)
    ensures R.LegalRun(T.Fresh(size), ops)
    ensures var e := R.Perform(T.Fresh(size), ops);
      && T.InSuccession(e.out, 0, |e.out|) && e.lost == [] && T.Restoring(e.buf, Ids(s.delivered))
      && |e.out| == T.Front(e.buf)
  {
    var all := s.delivered;
    DeliveredDistinct(s);
    assert all[..0] == [] && all[0..] == all && Ids(all[..0]) == {};
    T.StreamRestored(T.Fresh(size), all, 0, ops);
  }

  /** Once the pipeline is drained, enough further calls of the reordering stage, each draining one batch, complete
      the stream: every packet received has left, in order of arrival. */
  lemma StreamComplete(s: P.State, size: nat, ops: seq<R.Op>, k: nat)
    requires P.Inv(s) && Drained(s) && 0 < size < MOD
    requires T.Inserted(ops) == s.delivered && T.Fitting(T.Fresh(size), ops) && R.LegalRun(T.Fresh(size), ops)
    requires s.main.rx <= |R.Perform(T.Fresh(size), ops).out| + C.BATCH * k
    ensures R.LegalRun(T.Fresh(size), ops + C.IdleCalls(k))
    ensures T.InSuccession(R.Perform(T.Fresh(size), ops + C.IdleCalls(k)).out, 0, s.main.rx)
  {
    StreamOut(s, size, ops);
    DeliveredComplete(s);
    var e := R.Perform(T.Fresh(size), ops);
    C.CallsComplete(e.buf, s.delivered, k);
    O.RunSplit(T.Fresh(size), ops, C.IdleCalls(k));
    T.SuccessionJoin(e.out, R.Perform(e.buf, C.IdleCalls(k)).out, 0, T.Front(e.buf), s.main.rx);
  }

  // ----- the reordering stage keeps up ---------------------------------------------------------------

  /** The window has room for all that can come before a packet still under way. */
  predicate Roomy(n: nat, batchSizeIn: nat, size: nat)
    requires n > 0
  {
    C.Roomy(size, D.Distance(P.Start(n, batchSizeIn)))
  }

  /** What a run of the pipeline delivers, split into batches. */
  ghost predicate Behind(n: nat, batchSizeIn: nat, es: seq<P.Event>, batches: seq<seq<Packet>>) {
    && n > 0 && batchSizeIn > 0 && C.Batches(batches)
    && (S.StartInv(n, batchSizeIn); S.PossibleRun(P.Start(n, batchSizeIn), es))
    && C.Flat(batches) == S.Reach(P.Start(n, batchSizeIn), es).delivered
  }

  lemma StageKeepsUp(n: nat, batchSizeIn: nat, es: seq<P.Event>, size: nat, batches: seq<seq<Packet>>)
    requires Behind(n, batchSizeIn, es, batches) && Roomy(n, batchSizeIn, size)
    ensures T.Fitting(T.Fresh(size), C.Calls(batches)) && R.LegalRun(T.Fresh(size), C.Calls(batches))
    ensures |C.Flat(batches)|
         <= |R.Perform(T.Fresh(size), C.Calls(batches)).out| + D.Distance(P.Start(n, batchSizeIn))
  {
    S.StartInv(n, batchSizeIn);
    D.StartClose(n, batchSizeIn, es);
    DeliveredDistinct(S.Reach(P.Start(n, batchSizeIn), es));
    hide P.Inv, P.Start, D.Distance, S.PossibleRun, S.Reach, Close, Stream;
    C.CallsRestore(size, batches, D.Distance(P.Start(n, batchSizeIn)));
  }

  /** The reordering stage restores the stream behind every run of the pipeline, whatever its interleaving and
      however what is delivered is split into batches, if its window has room for the distance. */
  lemma StageRestores(n: nat, batchSizeIn: nat, es: seq<P.Event>, size: nat, batches: seq<seq<Packet>>)
    requires Behind(n, batchSizeIn, es, batches) && Roomy(n, batchSizeIn, size)
    ensures R.LegalRun(T.Fresh(size), C.Calls(batches))
    ensures var e := R.Perform(T.Fresh(size), C.Calls(batches));
      T.InSuccession(e.out, 0, |e.out|) && e.lost == [] && |e.accepted| == |C.Flat(batches)|
  {
    S.StartInv(n, batchSizeIn);
    D.StartClose(n, batchSizeIn, es);
    DeliveredDistinct(S.Reach(P.Start(n, batchSizeIn), es));
    hide P.Inv, P.Start, D.Distance, S.PossibleRun, S.Reach, Close, Stream;
    C.CallsRestore(size, batches, D.Distance(P.Start(n, batchSizeIn)));
  }

  /** Behind a pipeline that has drained, a number of calls that depends on the configuration alone completes the
      stream. */
  lemma StageCompletes(n: nat, batchSizeIn: nat, es: seq<P.Event>, size: nat, batches: seq<seq<Packet>>, k: nat)
    requires Behind(n, batchSizeIn, es, batches) && Roomy(n, batchSizeIn, size)
    requires Drained(S.Reach(P.Start(n, batchSizeIn), es))
    requires D.Distance(P.Start(n, batchSizeIn)) <= C.BATCH * k
    ensures R.LegalRun(T.Fresh(size), C.Calls(batches) + C.IdleCalls(k))
    ensures T.InSuccession(
              R.Perform(T.Fresh(size), C.Calls(batches) + C.IdleCalls(k)).out, 0,
              S.Reach(P.Start(n, batchSizeIn), es).main.rx)
  {
    var s := S.Reach(P.Start(n, batchSizeIn), es);
    StageKeepsUp(n, batchSizeIn, es, size, batches);
    C.InsertedCalls(batches);
    DeliveredComplete(s);
    hide *;
    StreamComplete(s, size, C.Calls(batches), k);
  }

  /** With the verification switched on, no call of the stage reports an error. */
  lemma StageVerifies(n: nat, batchSizeIn: nat, es: seq<P.Event>, size: nat, batches: seq<seq<Packet>>, last: Word)
    requires Behind(n, batchSizeIn, es, batches) && Roomy(n, batchSizeIn, size)
    requires (last + 1) % MOD == O.SEQ_NUM_START
    ensures C.Verified(T.Fresh(size), last, batches)
  {
    var all := C.Flat(batches);
    StageKeepsUp(n, batchSizeIn, es, size, batches);
    DeliveredDistinct(S.Reach(P.Start(n, batchSizeIn), es));
    assert all[..0] == [] && all[0..] == all && Ids(all[..0]) == {};
    hide P.Inv, P.Start, D.Distance, S.PossibleRun, S.Reach, Stream, T.Fitting, C.Verified, C.Calls;
    C.CallsVerify(T.Fresh(size), all, 0, batches, last);
  }

  /** The shipped window has that room for one worker dealt full batches, and for up to seven dealt single packets. */
  lemma ShippedWindow(n: nat, batchSizeIn: nat)
    requires n > 0
    ensures batchSizeIn >= P.DEFAULT_ETH_BATCH_SIZE ==> (Roomy(n, batchSizeIn, O.REORDER_BUFFER_SIZE) <==> n == 1)
    ensures batchSizeIn == 1 ==> (Roomy(n, batchSizeIn, O.REORDER_BUFFER_SIZE) <==> n <= 7)
  {
  }

  // ----- how much room is needed -----------------------------------------------------------------------

  /** How many packets the other lanes are dealt while one lane gets a single packet in each turn, until that lane is
      full. */
  function Reachable(n: nat, batchSizeIn: nat): nat
    requires n > 0
  {
    D.Share(P.Start(n, batchSizeIn)) * (n - 1) * P.CAPACITY
  }

  /** With a window that small, some run of the pipeline, after which everything has been delivered, is restored by no
      schedule of insertions and drains; and as long as its numbers do not wrap around, every schedule has a packet
      refused. */
  lemma TooFar(n: nat, batchSizeIn: nat, size: nat) returns (es: seq<P.Event>)
    requires n > 1 && batchSizeIn > 0 && 0 < size < MOD && size < Reachable(n, batchSizeIn)
    ensures P.Inv(P.Start(n, batchSizeIn)) && S.PossibleRun(P.Start(n, batchSizeIn), es)
    ensures var s := S.Reach(P.Start(n, batchSizeIn), es);
      && Drained(s) && Complete(s.delivered) && !Close(s.delivered, size)
      && (forall ops :: L.Schedules(ops, s.delivered) ==> !L.Restored(size, ops))
      && (4 * size + D.Share(P.Start(n, batchSizeIn)) * (n - 1) < MOD ==>
            forall ops :: L.Schedules(ops, s.delivered) ==> !L.AllStored(T.Fresh(size), ops))
  {
    var start := P.Start(n, batchSizeIn);
    K.StartSkewed(n, batchSizeIn);
    var g := D.Share(start) * (n - 1);
    var c := Turns(size, g, P.CAPACITY);
    var fs := K.Rounds(start, 0, c);
    var s := S.Reach(start, fs);
    var gs := G.CanDrain(s);
    var t := S.Reach(s, gs);
    SkewedFar(s, n, c, size, g);
    K.RunDelivers(s, gs);
    G.Append(start, fs, gs);
    es := fs + gs;
    DrainedAgain(t);
    DeliveredComplete(t);
    DeliveredDistinct(s);
    NotClose(s.delivered, t.delivered, size);
    hide *;
    NoSchedule(t.delivered, size);
  }

  /** How many rounds it takes. */
  lemma Turns(size: nat, g: nat, capacity: nat) returns (c: nat)
    requires size < g * capacity
    ensures 0 < c <= capacity && size < g * c <= size + g && c <= size + 1
  {
    assert g > 0;
    var q := Quotient(size, g);
    c := q + 1;
    assert g * (q + 1) == g * q + g;
    if capacity <= q { D.Most(g, capacity, q); }
  }

  lemma Quotient(size: nat, g: nat) returns (q: nat)
    requires g > 0
    ensures g * q <= size < g * q + g && q <= size
  {
    q := size / g;
    D.Most(q, 1, g);
  }

  lemma SkewedFar(s: P.State, n: nat, c: nat, size: nat, g: nat)
    requires P.Inv(s) && K.Skewed(s, c, 0) && |s.lanes| == n && g == D.Share(s) * (n - 1)
    requires size < g * c <= size + g && c <= size + 1
    ensures |s.delivered| > size && Missing(s.delivered, 0, |s.delivered|) && s.main.rx <= 2 * size + g + 1
  {
    Regroup(D.Share(s), n - 1, c);
  }

  lemma Regroup(a: nat, b: nat, c: nat)
    ensures a * (b * c) == a * b * c
  {
  }

  lemma DrainedAgain(s: P.State)
    requires P.Inv(s) && s.main.pc == P.Receive && |s.delivered| == s.main.rx
    ensures Drained(s)
  {
    S.InFlight(s);
  }

  lemma FarOne(ps: seq<Packet>, size: nat) returns (u: nat)
    requires Distinct(ps) && |ps| > size && Missing(ps, 0, |ps|)
    ensures u < |ps| && ps[u].id >= size && Missing(ps, 0, u)
  {
    if p :| p in ps && p.id >= size {
      u :| u < |ps| && ps[u] == p;
    } else {
      IdsCount(ps);
      Pigeonhole(Ids(ps), size);
      assert false;
    }
  }

  lemma NotClose(ps: seq<Packet>, all: seq<Packet>, size: nat)
    requires ps <= all && Distinct(ps) && |ps| > size && Missing(ps, 0, |ps|)
    ensures !Close(all, size)
  {
    var u := FarOne(ps, size);
    assert Missing(all, 0, u) && all[u] == ps[u];
  }

  lemma NoSchedule(all: seq<Packet>, size: nat)
    requires 0 < size < MOD && Complete(all) && !Close(all, size)
    ensures forall ops :: L.Schedules(ops, all) ==> !L.Restored(size, ops)
    ensures 3 * size <= MOD && |all| <= MOD - 2 * size ==>
              forall ops :: L.Schedules(ops, all) ==> !L.AllStored(T.Fresh(size), ops)
  {
    hide L.Restored, L.AllStored, T.Fresh, Close, Complete, T.Scheduled;
    forall ops | L.Schedules(ops, all)
      ensures !L.Restored(size, ops)
      ensures 3 * size <= MOD && |all| <= MOD - 2 * size ==> !L.AllStored(T.Fresh(size), ops)
    {
      if L.Restored(size, ops) { L.RestoredClose(size, ops); }
      if 3 * size <= MOD && |all| <= MOD - 2 * size { L.FarRefused(size, ops); }
    }
  }
}
