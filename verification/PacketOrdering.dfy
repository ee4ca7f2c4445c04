/** The sequencing and reordering stages. */
module PacketOrdering {
  import opened Options
  import opened PacketTypes
  import opened ReorderModel
  import opened ReorderRuns
  import opened Words

  import RB = ReorderBuffer

  const SEQ_NUM_START: Word := 0
  const REORDER_BUFFER_SIZE: nat := 0x1_0000
  const REORDER_DEFAULT_BATCH_SIZE: nat := 64

  // ----- splitting runs ------------------------------------------------------------------------

  lemma {:induction false} RunSplit(b: Buffer, xs: seq<Op>, ys: seq<Op>)
    requires Inv(b) && LegalRun(b, xs) && Inv(Perform(b, xs).buf) && LegalRun(Perform(b, xs).buf, ys)
    ensures LegalRun(b, xs + ys)
    ensures var e, f := Perform(b, xs), Perform(Perform(b, xs).buf, ys);
      Perform(b, xs + ys) == Effect(f.buf, e.out + f.out, e.accepted + f.accepted, e.lost + f.lost)
    decreases |xs|
  {
    hide Apply, Inv, Legal;
    if xs == [] {
      assert xs + ys == ys;
    } else {
      assert (xs + ys)[0] == xs[0] && (xs + ys)[1..] == xs[1..] + ys;
      ApplyKeepsInv(b, xs[0]);
      var e := Apply(b, xs[0]);
      RunSplit(e.buf, xs[1..], ys);
      var r, f := Perform(e.buf, xs[1..]), Perform(Perform(b, xs).buf, ys);
      Reassociate(e.out, r.out, f.out);
      Reassociate(e.accepted, r.accepted, f.accepted);
      Reassociate(e.lost, r.lost, f.lost);
    }
  }

  lemma Reassociate(x: seq<Numbered>, y: seq<Numbered>, z: seq<Numbered>)
    ensures x + (y + z) == (x + y) + z
  {
  }

  function Inserts(ps: seq<Packet>): (ops: seq<Op>)
    ensures |ops| == |ps| && forall i :: 0 <= i < |ps| ==> ops[i] == OpInsert(ps[i])
  {
    seq(|ps|, i requires 0 <= i < |ps| => OpInsert(ps[i]))
  }

  /** One call of the reordering stage: insert the batch, then drain. */
  function ExecOps(ps: seq<Packet>, max: nat): seq<Op> {
    Inserts(ps) + [OpDrain(max)]
  }

  lemma InsertSnoc(b: Buffer, ps: seq<Packet>, p: Packet)
    requires Inv(b) && LegalRun(b, Inserts(ps))
    ensures Inv(Perform(b, Inserts(ps)).buf) && LegalRun(b, Inserts(ps + [p]))
    ensures Perform(b, Inserts(ps + [p])).buf == ReorderModel.Insert(Perform(b, Inserts(ps)).buf, p).buf
    ensures Perform(b, Inserts(ps)).out == [] ==> Perform(b, Inserts(ps + [p])).out == []
  {
    hide Inv, ReorderModel.Insert;
    RunInOrder(b, Inserts(ps));
    var b' := Perform(b, Inserts(ps)).buf;
    SingleRun(b', OpInsert(p));
    assert Inserts(ps + [p]) == Inserts(ps) + [OpInsert(p)];
    RunSplit(b, Inserts(ps), [OpInsert(p)]);
  }

  lemma ExecEffect(b: Buffer, ps: seq<Packet>, max: nat)
    requires Inv(b) && LegalRun(b, Inserts(ps)) && Inv(Perform(b, Inserts(ps)).buf) && Perform(b, Inserts(ps)).out == []
    ensures LegalRun(b, ExecOps(ps, max))
    ensures var d, e := ReorderModel.Drain(Perform(b, Inserts(ps)).buf, max), Perform(b, ExecOps(ps, max));
      e.buf == d.buf && e.out == d.out
  {
    hide Inv, ReorderModel.Drain;
    SingleRun(Perform(b, Inserts(ps)).buf, OpDrain(max));
    RunSplit(b, Inserts(ps), [OpDrain(max)]);
  }

  lemma SingleRun(b: Buffer, op: Op)
    requires Inv(b) && Legal(b, op)
    ensures LegalRun(b, [op]) && Perform(b, [op]) == Apply(b, op)
  {
    hide Apply, Inv;
    ApplyKeepsInv(b, op);
    assert [op][1..] == [];
    var e := Apply(b, op);
    assert e == Effect(e.buf, e.out + [], e.accepted + [], e.lost + []);
  }

  // ----- the stages ----------------------------------------------------------------------------

  /** Stamps packets with consecutive 32-bit numbers; `stamped` counts them without wrapping. */
  class Sequencer {
    var seqn: Word
    ghost var stamped: nat

    ghost predicate Valid()
      reads this
    {
      seqn == (SEQ_NUM_START + stamped) % MOD
    }

    constructor ()
      ensures Valid() && stamped == 0
    {
      seqn, stamped := SEQ_NUM_START, 0;
    }

    method Exec(mbuf: array<Packet>, from: nat, count: nat)
      requires Valid() && from + count <= mbuf.Length
      modifies this, mbuf
      ensures Valid() && stamped == old(stamped) + count
      ensures forall i :: from <= i < from + count ==>
                mbuf[i] == old(mbuf[i]).(seqn := (SEQ_NUM_START + old(stamped) + i - from) % MOD)
      ensures forall i :: 0 <= i < mbuf.Length && !(from <= i < from + count) ==> mbuf[i] == old(mbuf[i])
    {
      var i := 0;
      while i < count
        invariant i <= count && Valid() && stamped == old(stamped) + i
        invariant forall j :: from <= j < from + i ==>
                    mbuf[j] == old(mbuf[j]).(seqn := (SEQ_NUM_START + old(stamped) + j - from) % MOD)
        invariant forall j :: 0 <= j < mbuf.Length && !(from <= j < from + i) ==> mbuf[j] == old(mbuf[j])
      {
        mbuf[from + i] := mbuf[from + i].(seqn := seqn);
        AddWrapped(SEQ_NUM_START + stamped, 1);
        seqn := (seqn + 1) % MOD;
        stamped := stamped + 1;
        i := i + 1;
      }
    }
  }

  class Reorderer {
    const buffer: RB.ReorderBuffer
    const batchSize: nat
    var lastSeqn: Word

    ghost predicate Valid()
      reads this, buffer, buffer.readyEntries, buffer.orderEntries
    {
      buffer.Valid() && batchSize == REORDER_DEFAULT_BATCH_SIZE
    }

    constructor ()
      ensures Valid() && fresh(buffer) && fresh(buffer.readyEntries) && fresh(buffer.orderEntries)
      ensures buffer.model == Buffer(REORDER_BUFFER_SIZE, SEQ_NUM_START, Empty(REORDER_BUFFER_SIZE), [], true)
      ensures (lastSeqn + 1) % MOD == SEQ_NUM_START
    {
      BufferSizePower();
      var b := new RB.ReorderBuffer(REORDER_BUFFER_SIZE);
      var done := b.SetMinSeqn(SEQ_NUM_START);
      buffer := b;
      batchSize := REORDER_DEFAULT_BATCH_SIZE;
      lastSeqn := (SEQ_NUM_START - 1) % MOD;
    }

    /** Insert the packets, whatever comes of each, then drain one batch. */
    method Exec(mbuf: array<Packet>, count: nat, drained: array<Packet>) returns (nbDrained: nat)
      requires Valid() && count <= mbuf.Length && drained != mbuf && batchSize <= drained.Length
      modifies buffer, buffer.readyEntries, buffer.orderEntries, drained
      ensures Valid()
      ensures var ops := ExecOps(old(mbuf[..count]), batchSize);
        && LegalRun(old(buffer.model), ops)
        && buffer.model == Perform(old(buffer.model), ops).buf
        && nbDrained == |Perform(old(buffer.model), ops).out| <= drained.Length
        && drained[..nbDrained] == RB.Packets(Perform(old(buffer.model), ops).out)
    {
      hide Inv, ReorderModel.Insert, ReorderModel.Drain;
      ghost var b := buffer.model;
      var i := 0;
      while i < count
        invariant i <= count && Valid()
        invariant LegalRun(b, Inserts(mbuf[..i]))
        invariant buffer.model == Perform(b, Inserts(mbuf[..i])).buf
        invariant Perform(b, Inserts(mbuf[..i])).out == []
      {
        var status := buffer.Insert(mbuf[i]);
        InsertSnoc(b, mbuf[..i], mbuf[i]);
        assert mbuf[..i + 1] == mbuf[..i] + [mbuf[i]];
        i := i + 1;
      }
      ExecEffect(b, mbuf[..count], batchSize);
      nbDrained := buffer.Drain(drained, batchSize);
    }

    /** Count the places where the numbers are not consecutive, and remember the last one. */
    method Verify(mbuf: array<Packet>, count: nat) returns (errors: nat)
      requires count <= mbuf.Length
      modifies this
      ensures count == 0 ==> errors == 0 && lastSeqn == old(lastSeqn)
      ensures count > 0 ==> lastSeqn == mbuf[count - 1].seqn
      ensures errors == 0 <==> Consecutive(old(lastSeqn), mbuf[..count])
    {
      errors := 0;
      if count == 0 {
        return;
      }
      if mbuf[0].seqn != (lastSeqn + 1) % MOD {
        errors := errors + 1;
      }
      var i := 1;
      while i < count
        invariant 1 <= i <= count
        invariant errors == 0 <==> Consecutive(lastSeqn, mbuf[..i])
      {
        if (mbuf[i - 1].seqn + 1) % MOD != mbuf[i].seqn {
          errors := errors + 1;
        }
        i := i + 1;
      }
      lastSeqn := mbuf[count - 1].seqn;
    }

    /** A call with the verification switched on. */
    method ExecVerified(mbuf: array<Packet>, count: nat, drained: array<Packet>) returns (nbDrained: nat, errors: nat)
      requires Valid() && count <= mbuf.Length && drained != mbuf && batchSize <= drained.Length
      modifies this, buffer, buffer.readyEntries, buffer.orderEntries, drained
      ensures Valid()
      ensures var ops := ExecOps(old(mbuf[..count]), batchSize);
        && LegalRun(old(buffer.model), ops)
        && buffer.model == Perform(old(buffer.model), ops).buf
        && nbDrained == |Perform(old(buffer.model), ops).out| <= drained.Length
        && drained[..nbDrained] == RB.Packets(Perform(old(buffer.model), ops).out)
      ensures errors == 0 <==> Consecutive(old(lastSeqn), drained[..nbDrained])
      ensures lastSeqn == LastSeqn(old(lastSeqn), drained[..nbDrained])
    {
      hide Inv, LegalRun, Perform, RB.Packets;
      nbDrained := Exec(mbuf, count, drained);
      errors := Verify(drained, nbDrained);
    }
  }

  lemma BufferSizePower()
    ensures PowerOfTwo(REORDER_BUFFER_SIZE)
  {
    assert PowerOfTwo(1) && PowerOfTwo(0x10) && PowerOfTwo(0x100) && PowerOfTwo(0x1000);
  }

  /** The number of the last packet of a batch, or the one before if there is none. */
  function LastSeqn(last: Word, ps: seq<Packet>): Word {
    if ps == [] then last else ps[|ps| - 1].seqn
  }

  /** Each number is the successor of the one before it, in 32-bit arithmetic. */
  predicate Consecutive(last: Word, ps: seq<Packet>) {
    && (|ps| > 0 ==> ps[0].seqn == (last + 1) % MOD)
    && (forall i :: 1 <= i < |ps| ==> ps[i].seqn == (ps[i - 1].seqn + 1) % MOD)
  }
}
