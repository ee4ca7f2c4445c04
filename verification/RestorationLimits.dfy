/** Exactly when a stream can be restored, and what goes wrong when it cannot. */
module RestorationLimits {
  import opened Options
  import opened PacketStreams
  import opened PacketTypes
  import opened ReorderModel
  import opened ReorderRuns
  import opened Restoration
  import opened Words

  import O = PacketOrdering

  // ----- schedules that put every packet in its place ------------------------------------------------

  /** Every packet inserted is stored under its own number. */
  ghost predicate Placed(b: Buffer, ops: seq<Op>)
    requires Inv(b)
    decreases |ops|
  {
    ops == [] || (
      && (ops[0].OpDrain? || (ops[0].OpInsert? && Insert(b, ops[0].p).outcome == Stored(ops[0].p.id)))
      && (ApplyKeepsInv(b, ops[0]); Placed(Apply(b, ops[0]).buf, ops[1..])))
  }

  /** The window never moves back. */
  lemma BaseGrows(b: Buffer, op: Op)
    requires Inv(b) && b.init && (op.OpInsert? || op.OpDrain?)
    ensures Apply(b, op).buf.base >= b.base && Apply(b, op).buf.init && Apply(b, op).buf.size == b.size
  {
    hide FillStop, Moved, Occupied, Run;
  }

  /** So what is put in its place later belongs behind it. */
  lemma {:induction false} PlacedAhead(b: Buffer, ops: seq<Op>)
    requires Inv(b) && b.init && Placed(b, ops)
    ensures forall p :: p in Inserted(ops) ==> b.base <= p.id
    decreases |ops|
  {
    if ops != [] {
      hide Inv, Apply;
      ApplyKeepsInv(b, ops[0]);
      BaseGrows(b, ops[0]);
      PlacedAhead(Apply(b, ops[0]).buf, ops[1..]);
      if ops[0].OpInsert? { StoredAhead(b, ops[0].p); }
    }
  }

  lemma StoredAhead(b: Buffer, p: Packet)
    requires Inv(b)
    ensures Insert(b, p).outcome.Stored? ==> Apply(b, OpInsert(p)).buf.base <= Insert(b, p).outcome.num
  {
    StoredInPlace(b, p);
  }

  /** If every packet of a complete stream is put in its place, none is passed over before. */
  lemma NonePassed(b: Buffer, all: seq<Packet>, t: nat, ops: seq<Op>)
    requires t < |all| && Windowed(b, Ids(all[..t])) && Placed(b, ops) && ops != [] && ops[0].OpInsert?
    requires Complete(all) && all[t] == ops[0].p && all[t + 1..] == Inserted(ops[1..])
    ensures forall q: nat :: q < Insert(b, all[t]).buf.base ==> q in Ids(all[..t])
  {
    var p, b' := all[t], Insert(b, all[t]).buf;
    ApplyKeepsInv(b, ops[0]);
    BaseGrows(b, ops[0]);
    StoredAhead(b, p);
    hide Inv, Insert;
    PlacedAhead(b', ops[1..]);
    assert p in all && p.id in Ids(all);
    forall q: nat | q < b'.base
      ensures q in Ids(all[..t])
    {
      if q !in Ids(all[..t]) { var later := ComesLater(all, t, q); }
    }
  }

  lemma DrainWindowed(b: Buffer, max: nat, seen: set<nat>)
    requires Windowed(b, seen)
    ensures Windowed(ReorderModel.Drain(b, max).buf, seen) && ReorderModel.Drain(b, max).buf.size == b.size
  {
    DrainKeepsInv(b, max);
    FirstMissing(b, seen);
    hide Inv, Windowed, Occupied, Run, Shift;
    ShiftWindowed(b, seen, Least(max - Least(max, |b.ready|), Run(b.win)), ReorderModel.Drain(b, max).buf);
  }

  /** Then no packet comes a window ahead of one that has not come yet. */
  lemma {:induction false} PlacedClose(b: Buffer, all: seq<Packet>, t: nat, ops: seq<Op>)
    requires t <= |all| && Complete(all) && Inserted(ops) == all[t..]
    requires Windowed(b, Ids(all[..t])) && Placed(b, ops)
    ensures CloseFrom(all, t, b.size)
    decreases |ops|
  {
    hide Windowed, Inv, Insert, ReorderModel.Drain, Complete, CloseFrom;
    if ops == [] {
      NoneLeft(all, t, b.size);
    } else {
      WindowedInv(b, Ids(all[..t]));
      ApplyKeepsInv(b, ops[0]);
      match ops[0]
      case OpInsert(p) =>
        NextPacket(all, t, p, Inserted(ops[1..]));
        PlacedCloseOne(b, all, t, ops);
        PlacedClose(Apply(b, ops[0]).buf, all, t + 1, ops[1..]);
        CloseStep(all, t, Apply(b, ops[0]).buf.base, b.size);
      case OpDrain(max) =>
        DrainWindowed(b, max, Ids(all[..t]));
        PlacedClose(Apply(b, ops[0]).buf, all, t, ops[1..]);
    }
  }

  lemma WindowedInv(b: Buffer, seen: set<nat>)
    requires Windowed(b, seen)
    ensures Inv(b) && b.init
  {
  }

  lemma NoneLeft(all: seq<Packet>, t: nat, d: nat)
    requires t <= |all| && [] == all[t..]
    ensures CloseFrom(all, t, d)
  {
  }

  lemma PlacedCloseOne(b: Buffer, all: seq<Packet>, t: nat, ops: seq<Op>)
    requires t < |all| && Windowed(b, Ids(all[..t])) && Placed(b, ops) && ops != [] && ops[0].OpInsert?
    requires Complete(all) && all[t] == ops[0].p && all[t + 1..] == Inserted(ops[1..])
    ensures var b' := Apply(b, ops[0]).buf;
      && Windowed(b', Ids(all[..t + 1])) && b'.size == b.size && Placed(b', ops[1..])
      && all[t].id < b'.base + b.size && forall q: nat :: q < b'.base ==> q in Ids(all[..t])
  {
    NonePassed(b, all, t, ops);
    DistinctFront(all, t);
    assert all[t] in all;
    hide Windowed, Inv, Insert, Ids;
    WindowedInsert(b, Ids(all[..t]), all[t]);
  }

  lemma CloseStep(all: seq<Packet>, t: nat, base: nat, d: nat)
    requires t < |all| && CloseFrom(all, t + 1, d) && all[t].id < base + d
    requires forall q: nat :: q < base ==> q in Ids(all[..t])
    ensures CloseFrom(all, t, d)
  {
    forall k: nat | Missing(all, k, t)
      ensures all[t].id < k + d
    {
      MissingMeans(all, k, t);
    }
  }

  /** If moreover nothing is lost, every packet fits when it is inserted. */
  lemma {:induction false} PlacedFits(b: Buffer, all: seq<Packet>, t: nat, ops: seq<Op>)
    requires t <= |all| && Complete(all) && Inserted(ops) == all[t..]
    requires Restoring(b, Ids(all[..t])) && Placed(b, ops) && LegalRun(b, ops) && Perform(b, ops).lost == []
    ensures Fitting(b, ops)
    decreases |ops|
  {
    hide Windowed, Inv, Insert, ReorderModel.Drain, Complete, Fits, InSuccession, Front;
    if ops != [] {
      RestoringInv(b, Ids(all[..t]));
      var e := Apply(b, ops[0]);
      ApplyKeepsInv(b, ops[0]);
      assert Perform(b, ops).lost == e.lost + Perform(e.buf, ops[1..]).lost;
      match ops[0]
      case OpInsert(p) =>
        NextPacket(all, t, p, Inserted(ops[1..]));
        PlacedFitsOne(b, all, t, ops);
        PlacedFits(e.buf, all, t + 1, ops[1..]);
      case OpDrain(max) =>
        DrainNext(b, max, Ids(all[..t]));
        PlacedFits(e.buf, all, t, ops[1..]);
    }
  }

  lemma PlacedFitsOne(b: Buffer, all: seq<Packet>, t: nat, ops: seq<Op>)
    requires t < |all| && Restoring(b, Ids(all[..t])) && Placed(b, ops) && ops != [] && ops[0].OpInsert?
    requires Complete(all) && all[t] == ops[0].p && all[t + 1..] == Inserted(ops[1..])
    requires Insert(b, all[t]).lost == []
    ensures Fits(b, all[t]) && Restoring(Insert(b, all[t]).buf, Ids(all[..t + 1]))
  {
    NonePassed(b, all, t, ops);
    DistinctFront(all, t);
    assert all[t] in all;
    hide Inv, Insert, Ids, Fits;
    OneFits(b, all[t], Ids(all[..t]));
    FeedOne(b, all[t], Ids(all[..t]));
  }

  // ----- a stream is restored exactly if every packet fits --------------------------------------------

  /** With what the schedule leaves in the buffer drained behind it, the whole stream has come out in order. */
  ghost predicate Restored(size: nat, ops: seq<Op>)
    requires 0 < size < MOD && Scheduled(ops)
  {
    ScheduleLegal(Fresh(size), ops + [OpDrain(2 * size)]);
    InSuccession(Perform(Fresh(size), ops + [OpDrain(2 * size)]).out, 0, |Inserted(ops)|)
  }

  lemma {:induction false} AcceptedCount(b: Buffer, ops: seq<Op>)
    requires Inv(b) && LegalRun(b, ops)
    ensures |Perform(b, ops).accepted| <= |Inserted(ops)|
    decreases |ops|
  {
    if ops != [] {
      hide Inv, Insert, ReorderModel.Drain, SetMin, DrainUpTo;
      ApplyKeepsInv(b, ops[0]);
      AcceptedCount(Apply(b, ops[0]).buf, ops[1..]);
    }
  }

  /** If as many packets are accepted as inserted, each under its own number, each was put in its place. */
  lemma {:induction false} AcceptedPlaced(b: Buffer, ops: seq<Op>)
    requires Inv(b) && Scheduled(ops) && LegalRun(b, ops) && |Perform(b, ops).accepted| == |Inserted(ops)|
    requires forall x :: x in Perform(b, ops).accepted ==> x.num == x.pkt.id
    ensures Placed(b, ops)
    decreases |ops|
  {
    if ops != [] {
      hide Inv, Insert, ReorderModel.Drain;
      assert ops[0] in ops;
      ApplyKeepsInv(b, ops[0]);
      var e := Apply(b, ops[0]);
      AcceptedCount(e.buf, ops[1..]);
      var r := Perform(e.buf, ops[1..]);
      assert Perform(b, ops).accepted == e.accepted + r.accepted;
      assert forall x :: x in r.accepted ==> x in Perform(b, ops).accepted;
      AcceptedPlaced(e.buf, ops[1..]);
      if ops[0].OpInsert? { assert e.accepted[0] in Perform(b, ops).accepted; }
    }
  }

  /** If as much comes out as was inserted, everything was accepted and nothing was lost. */
  lemma OutIsAll(accepted: seq<Numbered>, held: seq<Numbered>, out: seq<Numbered>, lost: seq<Numbered>, m: nat)
    requires multiset(accepted) == multiset(held) + multiset(out) + multiset(lost)
    requires |accepted| <= m && |out| == m
    ensures |accepted| == m && lost == [] && forall x :: x in accepted ==> x in out
  {
    assert |multiset(accepted)| == |accepted| && |multiset(out)| == |out|;
    assert |multiset(held)| == |held| && |multiset(lost)| == |lost|;
    assert |held| == 0 && |lost| == 0;
    forall x | x in accepted
      ensures x in out
    {
      assert x in multiset(accepted) && x !in multiset(lost) && x !in multiset(held);
    }
  }

  lemma FreshConserves(size: nat, ops: seq<Op>)
    requires 0 < size < MOD && LegalRun(Fresh(size), ops)
    ensures var e := Perform(Fresh(size), ops);
      multiset(e.accepted) == multiset(Held(e.buf)) + multiset(e.out) + multiset(e.lost)
  {
    var b := Fresh(size);
    NoneOccupied(b.win, 0);
    assert Held(b) == [];
    hide Held, Inv, Fresh;
    RunConserves(b, ops);
  }

  /** A drain behind a schedule. */
  lemma DrainBehind(b: Buffer, ops: seq<Op>, max: nat)
    requires Inv(b) && Scheduled(ops)
    ensures Scheduled(ops + [OpDrain(max)]) && LegalRun(b, ops) && LegalRun(b, ops + [OpDrain(max)])
    ensures Inv(Perform(b, ops).buf)
    ensures var e, full := Perform(b, ops), Perform(b, ops + [OpDrain(max)]);
      && full.accepted == e.accepted && full.lost == e.lost
      && full.out == e.out + ReorderModel.Drain(e.buf, max).out
  {
    hide Inv, ReorderModel.Drain, Insert;
    ScheduleLegal(b, ops);
    ScheduleLegal(b, ops + [OpDrain(max)]);
    RunInOrder(b, ops);
    O.SingleRun(Perform(b, ops).buf, OpDrain(max));
    O.RunSplit(b, ops, [OpDrain(max)]);
  }

  lemma RestoredPlaced(size: nat, ops: seq<Op>)
    requires 0 < size < MOD && Scheduled(ops) && Restored(size, ops)
    ensures LegalRun(Fresh(size), ops) && Placed(Fresh(size), ops) && Perform(Fresh(size), ops).lost == []
  {
    var b := Fresh(size);
    DrainBehind(b, ops, 2 * size);
    FreshConserves(size, ops + [OpDrain(2 * size)]);
    AcceptedCount(b, ops);
    var e, full := Perform(b, ops), Perform(b, ops + [OpDrain(2 * size)]);
    OutIsAll(e.accepted, Held(full.buf), full.out, e.lost, |Inserted(ops)|);
    OwnNumbers(full.out, |Inserted(ops)|);
    hide *;
    AcceptedPlaced(b, ops);
  }

  lemma OwnNumbers(out: seq<Numbered>, m: nat)
    requires InSuccession(out, 0, m)
    ensures forall x :: x in out ==> x.num == x.pkt.id
  {
  }

  /** For every schedule of a complete stream: the buffer restores the stream if and only if every packet fits when it
      is inserted. */
  lemma RestoredExactly(size: nat, ops: seq<Op>)
    requires 0 < size < MOD && Scheduled(ops) && Complete(Inserted(ops))
    ensures Restored(size, ops) <==> Fitting(Fresh(size), ops)
  {
    var b, all := Fresh(size), Inserted(ops);
    assert all[..0] == [] && all[0..] == all && Ids(all[..0]) == {};
    hide Inv, Fresh, Windowed, Complete;
    if Restored(size, ops) {
      RestoredPlaced(size, ops);
      PlacedFits(b, all, 0, ops);
    }
    if Fitting(b, ops) { FittingRestored(size, ops); }
  }

  lemma FittingRestored(size: nat, ops: seq<Op>)
    requires 0 < size < MOD && Scheduled(ops) && Complete(Inserted(ops)) && Fitting(Fresh(size), ops)
    ensures Restored(size, ops)
  {
    var b, all := Fresh(size), Inserted(ops);
    assert all[..0] == [] && all[0..] == all && Ids(all[..0]) == {};
    StreamRestored(b, all, 0, ops);
    var e := Perform(b, ops);
    DrainBehind(b, ops, 2 * size);
    AllOut(e.buf, all);
    StreamCompleted(e.buf, all, 2 * size);
    hide Inv, Fresh, ReorderModel.Drain, Windowed, Complete, InSuccession;
    SuccessionJoin(e.out, ReorderModel.Drain(e.buf, 2 * size).out, 0, Front(e.buf), |all|);
  }

  // ----- the orders of arrival that can be restored ---------------------------------------------------

  lemma RestoredClose(size: nat, ops: seq<Op>)
    requires 0 < size < MOD && Scheduled(ops) && Complete(Inserted(ops)) && Restored(size, ops)
    ensures Close(Inserted(ops), size)
  {
    var all := Inserted(ops);
    assert all[..0] == [] && all[0..] == all && Ids(all[..0]) == {};
    RestoredPlaced(size, ops);
    hide Inv, Fresh, Windowed, Complete, CloseFrom;
    PlacedClose(Fresh(size), all, 0, ops);
  }

  /** The schedule that drains behind every insertion. */
  function Prompt(ps: seq<Packet>, max: nat): (ops: seq<Op>)
    ensures Scheduled(ops) && Inserted(ops) == ps
  {
    if ps == [] then [] else [OpInsert(ps[0]), OpDrain(max)] + Prompt(ps[1..], max)
  }

  /** Everything that can be drained has been. */
  predicate Idle(b: Buffer) {
    b.ready == [] && Run(b.win) == 0
  }

  lemma DrainedIdle(b: Buffer, max: nat, seen: set<nat>)
    requires Restoring(b, seen) && |b.ready| + Run(b.win) < max
    ensures Idle(ReorderModel.Drain(b, max).buf)
  {
    DrainNext(b, max, seen);
    DrainStops(b, max);
  }

  /** A packet that is close enough fits into an idle buffer. */
  lemma IdleFits(b: Buffer, all: seq<Packet>, t: nat)
    requires t < |all| && Restoring(b, Ids(all[..t])) && Idle(b) && CloseFrom(all, t, b.size)
    ensures Fits(b, all[t])
  {
    FirstMissing(b, Ids(all[..t]));
    MissingMeans(all, b.base, t);
  }

  lemma {:induction false} PromptFits(b: Buffer, all: seq<Packet>, t: nat)
    requires t <= |all| && Stream(all) && CloseFrom(all, t, b.size)
    requires Restoring(b, Ids(all[..t])) && Idle(b)
    ensures Fitting(b, Prompt(all[t..], 2 * b.size))
    decreases |all| - t
  {
    hide Restoring, Idle, Inv, Insert, ReorderModel.Drain, Fits, CloseFrom;
    RestoringInv(b, Ids(all[..t]));
    if t < |all| {
      var max, rest := 2 * b.size, Prompt(all[t + 1..], 2 * b.size);
      IdleFits(b, all, t);
      DistinctFront(all, t);
      assert all[t] in all;
      FeedOne(b, all[t], Ids(all[..t]));
      var b1 := Insert(b, all[t]).buf;
      RestoringInv(b1, Ids(all[..t + 1]));
      DrainNext(b1, max, Ids(all[..t + 1]));
      var b2 := ReorderModel.Drain(b1, max).buf;
      RestoringInv(b2, Ids(all[..t + 1]));
      SmallBuffer(b1);
      DrainedIdle(b1, max, Ids(all[..t + 1]));
      CloseLater(all, t, b.size);
      hide Stream, Ids;
      PromptFits(b2, all, t + 1);
      assert all[t..][0] == all[t] && all[t..][1..] == all[t + 1..];
      PromptStep(b, all[t], max, rest);
    }
  }

  lemma SmallBuffer(b: Buffer)
    requires Inv(b)
    ensures |b.ready| + Run(b.win) < 2 * b.size
  {
  }

  lemma CloseLater(all: seq<Packet>, t: nat, d: nat)
    requires t < |all| && CloseFrom(all, t, d)
    ensures CloseFrom(all, t + 1, d)
  {
  }

  lemma PromptStep(b: Buffer, p: Packet, max: nat, rest: seq<Op>)
    requires Inv(b) && Fits(b, p) && Inv(Insert(b, p).buf)
    requires var b' := ReorderModel.Drain(Insert(b, p).buf, max).buf;
      Inv(b') && Fitting(b', rest)
    ensures Fitting(b, [OpInsert(p), OpDrain(max)] + rest)
  {
    hide Inv, Insert, ReorderModel.Drain, Fits;
    var ops := [OpInsert(p), OpDrain(max)] + rest;
    assert ops[1..] == [OpDrain(max)] + rest && ops[1..][1..] == rest;
  }

  /** Drained behind every insertion, a complete stream is restored if and only if it is as close as the window is
      large. */
  lemma PromptExactly(size: nat, all: seq<Packet>)
    requires 0 < size < MOD && Complete(all)
    ensures Restored(size, Prompt(all, 2 * size)) <==> Close(all, size)
  {
    var ops := Prompt(all, 2 * size);
    assert all[..0] == [] && all[0..] == all && Ids(all[..0]) == {};
    if Close(all, size) {
      PromptFits(Fresh(size), all, 0);
      hide Inv, Fresh, Complete, Fitting, Restored, CloseFrom;
      RestoredExactly(size, ops);
    }
    if Restored(size, ops) { RestoredClose(size, ops); }
  }

  /** The schedules of an order of arrival. */
  predicate Schedules(ops: seq<Op>, all: seq<Packet>) {
    Scheduled(ops) && Inserted(ops) == all
  }

  /** No schedule does better: some schedule restores the stream if and only if it is as close as the window is
      large. */
  lemma RestorableExactly(size: nat, all: seq<Packet>)
    requires 0 < size < MOD && Complete(all)
    ensures (exists ops :: Schedules(ops, all) && Restored(size, ops)) <==> Close(all, size)
  {
    hide Restored, Close, Prompt;
    if ops :| Schedules(ops, all) && Restored(size, ops) { RestoredClose(size, ops); }
    PromptExactly(size, all);
    if Close(all, size) { assert Schedules(Prompt(all, 2 * size), all); }
  }

  // ----- what becomes of the others -------------------------------------------------------------------

  ghost predicate AllStored(b: Buffer, ops: seq<Op>)
    requires Inv(b)
    decreases |ops|
  {
    ops == [] || (
      && (ops[0].OpDrain? || (ops[0].OpInsert? && Insert(b, ops[0].p).outcome.Stored?))
      && (ApplyKeepsInv(b, ops[0]); AllStored(Apply(b, ops[0]).buf, ops[1..])))
  }

  /** The window holds packets of the first `m` places only, each in its slot, and is not beyond them. */
  ghost predicate Among(b: Buffer, m: nat) {
    && Inv(b) && b.init && b.base <= m
    && forall i :: 0 <= i < |b.win| && b.win[i].Some? ==> b.win[i].value.id == b.base + i < m
  }

  /** A packet whose place has been passed is refused. */
  lemma PassedRefused(b: Buffer, p: Packet)
    requires Inv(b) && b.init && Stamped(p) && 2 * b.size < MOD && p.id < b.base <= p.id + MOD - 2 * b.size
    ensures Insert(b, p).outcome == OutOfRange
  {
    assert b.size > 0;
    hide Inv, Insert;
    RemainderUnique(b.base - p.seqn, MOD, p.id / MOD, b.base - p.id);
    LateRefused(b, p);
  }

  lemma AmongInsert(b: Buffer, p: Packet, m: nat)
    requires Among(b, m) && Stamped(p) && p.id < m <= MOD - 2 * b.size && 3 * b.size <= MOD
    requires Insert(b, p).outcome.Stored?
    ensures Insert(b, p).outcome == Stored(p.id) && Among(Insert(b, p).buf, m) && Insert(b, p).buf.size == b.size
  {
    if p.id < b.base { PassedRefused(b, p); }
    StampOffset(b, p);
    InsertKeepsInv(b, p);
    if Offset(b, p.seqn) < b.size {
      InsertNear(b, p);
    } else {
      EarlyRange(b, p);
      InsertEarly(b, p, Offset(b, p.seqn) + 1 - b.size);
      AmongEarly(b, p, m);
    }
  }

  lemma AmongEarly(b: Buffer, p: Packet, m: nat)
    requires Among(b, m) && Inv(b) && b.init && Inv(Insert(b, p).buf) && p.id < m
    requires b.size <= Offset(b, p.seqn) && Insert(b, p).outcome == Stored(p.id)
    ensures Among(Insert(b, p).buf, m) && Insert(b, p).buf.size == b.size
  {
    var b' := Insert(b, p).buf;
    hide *;
    var f, k := EarlySteps(b, p);
    AmongShift(b, k, f, m);
    AmongPlace(f, p, b', m);
  }

  lemma AmongShift(b: Buffer, k: nat, b': Buffer, m: nat)
    requires Among(b, m) && k <= b.size && Inv(b') && b'.init && b'.base == b.base + k <= m
    requires b'.size == b.size && b'.win == Shift(b.win, k)
    ensures Among(b', m)
  {
    hide Inv;
    forall i | 0 <= i < |b'.win| && b'.win[i].Some?
      ensures b'.win[i].value.id == b'.base + i < m
    {
      assert b'.win[i] == b.win[i + k];
    }
  }

  lemma AmongPlace(b: Buffer, p: Packet, b': Buffer, m: nat)
    requires Among(b, m) && Inv(b') && b.base <= p.id < m && p.id < b.base + |b.win|
    requires b' == b.(win := b.win[p.id - b.base := Some(p)])
    ensures Among(b', m)
  {
    hide Inv;
  }

  lemma AmongDrain(b: Buffer, max: nat, m: nat)
    requires Among(b, m)
    ensures Among(ReorderModel.Drain(b, max).buf, m) && ReorderModel.Drain(b, max).buf.size == b.size
  {
    DrainKeepsInv(b, max);
    var k := ReorderModel.Drain(b, max).buf.base - b.base;
    assert k > 0 ==> b.win[k - 1].Some?;
    hide Inv, Occupied;
  }

  lemma {:induction false} StoredPlaced(b: Buffer, ops: seq<Op>, m: nat)
    requires Among(b, m) && AllStored(b, ops) && m <= MOD - 2 * b.size && 3 * b.size <= MOD
    requires forall p :: p in Inserted(ops) ==> Stamped(p) && p.id < m
    ensures Placed(b, ops)
    decreases |ops|
  {
    if ops != [] {
      ApplyKeepsInv(b, ops[0]);
      hide Inv, Insert, ReorderModel.Drain, Among;
      match ops[0]
      case OpInsert(p) =>
        assert p in Inserted(ops);
        AmongInsert(b, p, m);
        StoredPlaced(Insert(b, p).buf, ops[1..], m);
      case OpDrain(max) =>
        AmongDrain(b, max, m);
        StoredPlaced(ReorderModel.Drain(b, max).buf, ops[1..], m);
    }
  }

  /** As long as the numbers do not wrap around, a packet that comes a window ahead of a missing one costs a packet:
      whatever the schedule, some insertion is refused. */
  lemma FarRefused(size: nat, ops: seq<Op>)
    requires 0 < size && 3 * size <= MOD && Scheduled(ops) && Complete(Inserted(ops))
    requires |Inserted(ops)| <= MOD - 2 * size && !Close(Inserted(ops), size)
    ensures !AllStored(Fresh(size), ops)
  {
    var b, all := Fresh(size), Inserted(ops);
    assert all[..0] == [] && all[0..] == all && Ids(all[..0]) == {};
    if AllStored(b, ops) {
      forall p | p in all
        ensures p.id < |all|
      {
        assert p.id in Ids(all);
      }
      StoredPlaced(b, ops, |all|);
      PlacedClose(b, all, 0, ops);
    }
  }
}
