/** Whole runs of the reordering stage: calls that insert a batch and drain a batch. */
module StageRuns {
  import opened PacketStreams
  import opened PacketTypes
  import opened ReorderModel
  import opened ReorderRuns
  import opened Restoration
  import opened Words

  import O = PacketOrdering
  import RB = ReorderBuffer

  const BATCH: nat := O.REORDER_DEFAULT_BATCH_SIZE

  /** Calls of the reordering stage, each with one batch of packets. */
  function Calls(batches: seq<seq<Packet>>): seq<Op> {
    if batches == [] then [] else O.ExecOps(batches[0], BATCH) + Calls(batches[1..])
  }

  function Flat(batches: seq<seq<Packet>>): seq<Packet> {
    if batches == [] then [] else batches[0] + Flat(batches[1..])
  }

  /** No call inserts more than it drains. */
  predicate Batches(batches: seq<seq<Packet>>) {
    forall i :: 0 <= i < |batches| ==> |batches[i]| <= BATCH
  }

  lemma {:induction false} InsertedJoin(xs: seq<Op>, ys: seq<Op>)
    ensures Inserted(xs + ys) == Inserted(xs) + Inserted(ys)
  {
    if xs == [] {
      assert xs + ys == ys;
    } else {
      assert (xs + ys)[0] == xs[0] && (xs + ys)[1..] == xs[1..] + ys;
      InsertedJoin(xs[1..], ys);
    }
  }

  lemma {:induction false} InsertedInserts(ps: seq<Packet>)
    ensures Inserted(O.Inserts(ps)) == ps
  {
    if ps != [] {
      assert O.Inserts(ps)[1..] == O.Inserts(ps[1..]);
      InsertedInserts(ps[1..]);
    }
  }

  lemma InsertedExec(ps: seq<Packet>, max: nat)
    ensures Inserted(O.ExecOps(ps, max)) == ps
  {
    InsertedInserts(ps);
    assert Inserted([OpDrain(max)]) == [];
    InsertedJoin(O.Inserts(ps), [OpDrain(max)]);
  }

  lemma {:induction false} InsertedCalls(batches: seq<seq<Packet>>)
    ensures Inserted(Calls(batches)) == Flat(batches)
  {
    if batches != [] {
      InsertedExec(batches[0], BATCH);
      InsertedCalls(batches[1..]);
      InsertedJoin(O.ExecOps(batches[0], BATCH), Calls(batches[1..]));
    }
  }

  // ----- the window stays close enough behind the packets inserted ----------------------------------

  /** After a drain of one batch at most `d` packets that have been inserted are left. */
  lemma CatchUp(b: Buffer, all: seq<Packet>, t: nat, d: nat, max: nat)
    requires t <= |all| && Distinct(all) && Close(all, d)
    requires Restoring(b, Ids(all[..t])) && t <= Front(b) + d + max
    ensures var b' := ReorderModel.Drain(b, max).buf;
      Restoring(b', Ids(all[..t])) && b'.size == b.size && t <= Front(b') + d
  {
    var seen := Ids(all[..t]);
    DrainNext(b, max, seen);
    FirstMissing(b, seen);
    MissingMeans(all, b.base + Run(b.win), t);
    hide ReorderModel.Drain, Ids, Missing, Close, Distinct, Run;
    if |b.ready| + Run(b.win) < max { BelowMissing(all, b.base + Run(b.win), t, d); }
  }

  /** The window has room for a stream of that closeness, if no more than one batch is left over by each drain.  Only a
      window of less than 2^31 slots has an overflow that can help. */
  predicate Roomy(size: nat, d: nat) {
    d + BATCH <= size < MOD && (2 * size < MOD || 2 * d + BATCH <= size)
  }

  /** The next packet fits. */
  lemma NextFits(b: Buffer, all: seq<Packet>, t: nat, d: nat)
    requires t < |all| && Distinct(all) && Close(all, d) && Roomy(b.size, d)
    requires Restoring(b, Ids(all[..t])) && t < Front(b) + d + BATCH
    ensures Fits(b, all[t])
  {
    var f := b.base + Run(b.win);
    FirstMissing(b, Ids(all[..t]));
    MissingMeans(all, f, t);
    FrontCount(all, t, f);
  }

  lemma FeedNext(b: Buffer, all: seq<Packet>, t: nat, d: nat)
    requires t < |all| && Stream(all) && Close(all, d) && Roomy(b.size, d)
    requires Restoring(b, Ids(all[..t])) && t < Front(b) + d + BATCH
    ensures var b' := Insert(b, all[t]).buf;
      Fits(b, all[t]) && Restoring(b', Ids(all[..t + 1])) && b'.size == b.size && Front(b') == Front(b)
  {
    NextFits(b, all, t, d);
    DistinctFront(all, t);
    assert all[t] in all;
    FeedOne(b, all[t], Ids(all[..t]));
  }

  /** Calls of one batch each, at any time after the insertions `ps` of the current one. */
  lemma {:induction false} CallsFit(
    b: Buffer, all: seq<Packet>, t: nat, ps: seq<Packet>, batches: seq<seq<Packet>>, d: nat)
    requires t <= |all| && all[t..] == ps + Flat(batches) && Stream(all) && Close(all, d) && Roomy(b.size, d)
    requires |ps| <= BATCH && Batches(batches)
    requires Restoring(b, Ids(all[..t])) && t + |ps| <= Front(b) + d + BATCH
    ensures var ops := O.ExecOps(ps, BATCH) + Calls(batches);
      Fitting(b, ops) && LegalRun(b, ops) && |all| <= Front(Perform(b, ops).buf) + d
    decreases |batches|, |ps|
  {
    RestoringInv(b, Ids(all[..t]));
    if ps != [] {
      assert ps + Flat(batches) == [ps[0]] + (ps[1..] + Flat(batches));
      NextPacket(all, t, ps[0], ps[1..] + Flat(batches));
      FeedNext(b, all, t, d);
      NextOp(ps, BATCH, Calls(batches));
      RestoringInv(Insert(b, ps[0]).buf, Ids(all[..t + 1]));
      hide *;
      CallsFit(Insert(b, ps[0]).buf, all, t + 1, ps[1..], batches, d);
      FittingInsert(b, ps[0], O.ExecOps(ps[1..], BATCH) + Calls(batches));
    } else {
      CatchUp(b, all, t, d, BATCH);
      RestoringInv(ReorderModel.Drain(b, BATCH).buf, Ids(all[..t]));
      LastOp(BATCH, Calls(batches));
      NoMore(batches, all, t);
      if batches != [] {
        NextBatch(batches, all[t..]);
        hide *;
        CallsFit(ReorderModel.Drain(b, BATCH).buf, all, t, batches[0], batches[1..], d);
      }
      FittingDrain(b, BATCH, Calls(batches));
    }
  }

  lemma NoMore(batches: seq<seq<Packet>>, all: seq<Packet>, t: nat)
    requires t <= |all| && all[t..] == [] + Flat(batches)
    ensures batches == [] ==> t == |all| && Calls(batches) == []
  {
  }

  lemma NextBatch(batches: seq<seq<Packet>>, left: seq<Packet>)
    requires batches != [] && Batches(batches) && left == [] + Flat(batches)
    ensures |batches[0]| <= BATCH && Batches(batches[1..])
    ensures left == batches[0] + Flat(batches[1..])
    ensures Calls(batches) == O.ExecOps(batches[0], BATCH) + Calls(batches[1..])
  {
  }

  lemma NextOp(ps: seq<Packet>, max: nat, rest: seq<Op>)
    requires ps != []
    ensures O.ExecOps(ps, max) + rest == [OpInsert(ps[0])] + (O.ExecOps(ps[1..], max) + rest)
  {
  }

  lemma LastOp(max: nat, rest: seq<Op>)
    ensures O.ExecOps([], max) + rest == [OpDrain(max)] + rest
  {
  }

  lemma FittingInsert(b: Buffer, p: Packet, rest: seq<Op>)
    requires Inv(b) && Fits(b, p) && Inv(Insert(b, p).buf) && Fitting(Insert(b, p).buf, rest)
    requires LegalRun(Insert(b, p).buf, rest)
    ensures var ops := [OpInsert(p)] + rest;
      Fitting(b, ops) && LegalRun(b, ops) && Perform(b, ops).buf == Perform(Insert(b, p).buf, rest).buf
  {
    hide Inv, Insert, Fits;
    assert ([OpInsert(p)] + rest)[1..] == rest;
  }

  lemma FittingDrain(b: Buffer, max: nat, rest: seq<Op>)
    requires Inv(b) && Inv(ReorderModel.Drain(b, max).buf) && Fitting(ReorderModel.Drain(b, max).buf, rest)
    requires LegalRun(ReorderModel.Drain(b, max).buf, rest)
    ensures var ops := [OpDrain(max)] + rest;
      Fitting(b, ops) && LegalRun(b, ops) && Perform(b, ops).buf == Perform(ReorderModel.Drain(b, max).buf, rest).buf
  {
    hide Inv, ReorderModel.Drain;
    assert ([OpDrain(max)] + rest)[1..] == rest;
  }

  /** However a close stream is split into batches, the calls of the stage restore it, and at most `d` packets are left
      in a buffer that has room for them. */
  lemma CallsRestore(size: nat, batches: seq<seq<Packet>>, d: nat)
    requires Roomy(size, d) && Batches(batches) && Stream(Flat(batches)) && Close(Flat(batches), d)
    ensures Fitting(Fresh(size), Calls(batches)) && LegalRun(Fresh(size), Calls(batches))
    ensures var e := Perform(Fresh(size), Calls(batches));
      && InSuccession(e.out, 0, |e.out|) && e.lost == [] && |e.accepted| == |Flat(batches)|
      && |Flat(batches)| <= |e.out| + d
  {
    var b, all := Fresh(size), Flat(batches);
    assert all[..0] == [] && all[0..] == all && Ids(all[..0]) == {};
    if batches != [] { CallsFit(b, all, 0, batches[0], batches[1..], d); }
    InsertedCalls(batches);
    hide Inv, Fresh, Windowed, Stream, Close;
    StreamRestored(b, all, 0, Calls(batches));
  }

  // ----- the end of the stream -------------------------------------------------------------------------

  /** `k` calls of the stage without new packets. */
  function IdleCalls(k: nat): (ops: seq<Op>)
    ensures Scheduled(ops) && |ops| == k
  {
    if k == 0 then [] else O.ExecOps([], BATCH) + IdleCalls(k - 1)
  }

  /** Once a complete stream has been fed, enough calls of the stage, each draining one batch, deliver the rest of
      it. */
  lemma {:induction false} CallsComplete(b: Buffer, all: seq<Packet>, k: nat)
    requires Restoring(b, Ids(all)) && Complete(all) && |all| <= Front(b) + BATCH * k
    ensures Inv(b) && LegalRun(b, IdleCalls(k)) && InSuccession(Perform(b, IdleCalls(k)).out, Front(b), |all|)
    decreases k
  {
    RestoringInv(b, Ids(all));
    AllOut(b, all);
    if k == 0 {
      NothingYet(|all|);
    } else {
      DrainNext(b, BATCH, Ids(all));
      var d := ReorderModel.Drain(b, BATCH);
      RestoringInv(d.buf, Ids(all));
      hide Restoring, Complete, Inv, ReorderModel.Drain, InSuccession, Ids, Run, Front;
      CallsComplete(d.buf, all, k - 1);
      LastOp(BATCH, IdleCalls(k - 1));
      SuccessionJoin(d.out, Perform(d.buf, IdleCalls(k - 1)).out, Front(b), Front(d.buf), |all|);
      PerformDrain(b, BATCH, IdleCalls(k - 1));
    }
  }

  lemma PerformDrain(b: Buffer, max: nat, rest: seq<Op>)
    requires Inv(b) && Inv(ReorderModel.Drain(b, max).buf) && LegalRun(ReorderModel.Drain(b, max).buf, rest)
    ensures var ops, d := [OpDrain(max)] + rest, ReorderModel.Drain(b, max);
      LegalRun(b, ops) && Perform(b, ops).out == d.out + Perform(d.buf, rest).out
  {
    hide Inv, ReorderModel.Drain;
    assert ([OpDrain(max)] + rest)[1..] == rest;
  }

  // ----- verification switched on ----------------------------------------------------------------------

  /** Every call drains packets whose numbers go on where those of the calls before stopped. */
  ghost predicate Verified(b: Buffer, last: Word, batches: seq<seq<Packet>>)
    requires Inv(b)
    decreases |batches|
  {
    batches == [] ||
    var ops := O.ExecOps(batches[0], BATCH);
    (ScheduleLegal(b, ops);
     RunInOrder(b, ops);
     var e := Perform(b, ops);
     var drained := RB.Packets(e.out);
     O.Consecutive(last, drained) && Verified(e.buf, O.LastSeqn(last, drained), batches[1..]))
  }

  /** Packets of consecutive places pass the test for consecutive 32-bit numbers. */
  lemma RestoredVerifies(out: seq<Numbered>, from: nat, to: nat, last: Word)
    requires InSuccession(out, from, to) && (last + 1) % MOD == from % MOD
    ensures O.Consecutive(last, RB.Packets(out))
    ensures (O.LastSeqn(last, RB.Packets(out)) + 1) % MOD == to % MOD
  {
    forall i | 1 <= i < |out|
      ensures RB.Packets(out)[i].seqn == (RB.Packets(out)[i - 1].seqn + 1) % MOD
    {
      AddWrapped(from + i - 1, 1);
    }
    if out != [] { AddWrapped(to - 1, 1); }
  }

  lemma {:induction false} FittingSplit(b: Buffer, xs: seq<Op>, ys: seq<Op>)
    requires Inv(b) && Fitting(b, xs + ys)
    ensures Fitting(b, xs) && LegalRun(b, xs) && Inv(Perform(b, xs).buf) && Fitting(Perform(b, xs).buf, ys)
    decreases |xs|
  {
    hide Inv, Apply, Fits;
    if xs == [] {
      assert xs + ys == ys;
    } else {
      assert (xs + ys)[0] == xs[0] && (xs + ys)[1..] == xs[1..] + ys;
      ApplyKeepsInv(b, xs[0]);
      FittingSplit(Apply(b, xs[0]).buf, xs[1..], ys);
    }
  }

  lemma StreamFront(all: seq<Packet>, t: nat)
    requires t <= |all| && Stream(all)
    ensures Stream(all[..t])
  {
    DistinctFront(all, t);
  }

  /** One call of a fitting run. */
  lemma CallRestores(b: Buffer, all: seq<Packet>, t: nat, u: nat, ps: seq<Packet>, left: seq<Packet>, rest: seq<Op>)
    requires t <= |all| && Stream(all) && all[t..] == ps + left && u == t + |ps|
    requires Restoring(b, Ids(all[..t])) && Fitting(b, O.ExecOps(ps, BATCH) + rest)
    ensures u <= |all| && all[u..] == left && LegalRun(b, O.ExecOps(ps, BATCH))
    ensures var e := Perform(b, O.ExecOps(ps, BATCH));
      && Restoring(e.buf, Ids(all[..u])) && Inv(e.buf) && Fitting(e.buf, rest)
      && InSuccession(e.out, Front(b), Front(e.buf))
  {
    assert |all| - t == |ps| + |left|;
    var front := all[..u];
    assert all[u..] == all[t..][|ps|..] == left;
    assert front[..t] == all[..t] && front[t..] == all[t..][..|ps|] == ps;
    RestoringInv(b, Ids(all[..t]));
    FittingSplit(b, O.ExecOps(ps, BATCH), rest);
    InsertedExec(ps, BATCH);
    StreamFront(all, u);
    hide *;
    StreamRestored(b, front, t, O.ExecOps(ps, BATCH));
  }

  /** Over a fitting run of the stage no call reports an error. */
  lemma {:induction false} CallsVerify(b: Buffer, all: seq<Packet>, t: nat, batches: seq<seq<Packet>>, last: Word)
    requires t <= |all| && Stream(all) && all[t..] == Flat(batches)
    requires Restoring(b, Ids(all[..t])) && Fitting(b, Calls(batches)) && (last + 1) % MOD == Front(b) % MOD
    ensures Inv(b) && Verified(b, last, batches)
    decreases |batches|, 1
  {
    RestoringInv(b, Ids(all[..t]));
    if batches != [] {
      hide *;
      FirstCall(batches);
      var ps, u := batches[0], t + |batches[0]|;
      CallRestores(b, all, t, u, ps, Flat(batches[1..]), Calls(batches[1..]));
      VerifyRest(b, all, u, batches, last);
    }
  }

  lemma FirstCall(batches: seq<seq<Packet>>)
    requires batches != []
    ensures Flat(batches) == batches[0] + Flat(batches[1..])
    ensures Calls(batches) == O.ExecOps(batches[0], BATCH) + Calls(batches[1..])
  {
  }

  lemma {:induction false} VerifyRest(b: Buffer, all: seq<Packet>, u: nat, batches: seq<seq<Packet>>, last: Word)
    requires Inv(b) && batches != [] && LegalRun(b, O.ExecOps(batches[0], BATCH))
    requires u <= |all| && Stream(all) && all[u..] == Flat(batches[1..])
    requires var e := Perform(b, O.ExecOps(batches[0], BATCH));
      && Restoring(e.buf, Ids(all[..u])) && Inv(e.buf) && Fitting(e.buf, Calls(batches[1..]))
      && InSuccession(e.out, Front(b), Front(e.buf)) && (last + 1) % MOD == Front(b) % MOD
    ensures Verified(b, last, batches)
    decreases |batches|, 0
  {
    hide *;
    var e := Perform(b, O.ExecOps(batches[0], BATCH));
    RestoredVerifies(e.out, Front(b), Front(e.buf), last);
    CallsVerify(e.buf, all, u, batches[1..], O.LastSeqn(last, RB.Packets(e.out)));
    VerifiedStep(b, last, batches);
  }

  lemma VerifiedStep(b: Buffer, last: Word, batches: seq<seq<Packet>>)
    requires Inv(b) && batches != [] && LegalRun(b, O.ExecOps(batches[0], BATCH))
    requires var e := Perform(b, O.ExecOps(batches[0], BATCH));
      && Inv(e.buf) && O.Consecutive(last, RB.Packets(e.out))
      && Verified(e.buf, O.LastSeqn(last, RB.Packets(e.out)), batches[1..])
    ensures Verified(b, last, batches)
  {
  }
}
