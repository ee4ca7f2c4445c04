/** When the reorder buffer restores a stream: packets stamped on the way in, inserted in some order with drains in
    between, leave it in the order of their places. */
module Restoration {
  import opened Options
  import opened PacketStreams
  import opened PacketTypes
  import opened ReorderModel
  import opened ReorderRuns
  import opened Words

  import O = PacketOrdering
  import RB = ReorderBuffer

  // ----- successions -------------------------------------------------------------------------------

  /** The packets of places `from` to `to`, each under its own number. */
  ghost predicate InSuccession(out: seq<Numbered>, from: nat, to: nat) {
    && from <= to && |out| == to - from
    && forall i :: 0 <= i < |out| ==> out[i].num == from + i && out[i].pkt.id == from + i && Stamped(out[i].pkt)
  }

  lemma SuccessionJoin(s: seq<Numbered>, t: seq<Numbered>, a: nat, b: nat, c: nat)
    requires InSuccession(s, a, b) && InSuccession(t, b, c)
    ensures InSuccession(s + t, a, c)
  {
  }

  lemma SuccessionCut(s: seq<Numbered>, a: nat, c: nat, k: nat)
    requires InSuccession(s, a, c) && k <= |s|
    ensures InSuccession(s[..k], a, a + k) && InSuccession(s[k..], a + k, c)
  {
  }

  lemma NothingYet(n: nat)
    ensures InSuccession([], n, n)
  {
  }

  // ----- what the buffer holds ---------------------------------------------------------------------

  /** Every packet before the window has been seen; a slot is taken exactly by the seen packet of its place. */
  ghost predicate Windowed(b: Buffer, seen: set<nat>) {
    && Inv(b) && b.init
    && (forall i :: 0 <= i < |b.win| && b.win[i].Some? ==> b.win[i].value.id == b.base + i)
    && (forall k: nat :: k in seen <==> k < b.base || (k < b.base + b.size && b.win[k - b.base].Some?))
  }

  /** The first place that has not been drained, if the ready packets are those up to the window. */
  function Front(b: Buffer): nat {
    if |b.ready| <= b.base then b.base - |b.ready| else 0
  }

  /** Moreover the ready packets are those of the places up to the window. */
  ghost predicate Restoring(b: Buffer, seen: set<nat>) {
    Windowed(b, seen) && |b.ready| <= b.base && InSuccession(b.ready, Front(b), b.base)
  }

  lemma StampOffset(b: Buffer, p: Packet)
    requires Stamped(p) && b.base <= p.id < b.base + MOD
    ensures Offset(b, p.seqn) == p.id - b.base
  {
    var q := p.id / MOD;
    assert p.id == MOD * q + p.seqn;
    RemainderUnique(p.seqn - b.base, MOD, -q, p.id - b.base);
  }

  /** The first number missing is the one behind the run at the head of the window. */
  lemma FirstMissing(b: Buffer, seen: set<nat>)
    requires Windowed(b, seen)
    ensures b.base + Run(b.win) !in seen
    ensures forall k: nat :: k < b.base + Run(b.win) ==> k in seen
  {
    var f := b.base + Run(b.win);
    forall k: nat | k < f
      ensures k in seen
    {
      if k >= b.base { assert b.win[k - b.base].Some?; }
    }
  }

  lemma {:induction false} RunSuccession(b: Buffer, seen: set<nat>, k: nat)
    requires Windowed(b, seen) && k <= Run(b.win)
    ensures InSuccession(Occupied(b.win[..k], b.base), b.base, b.base + k)
  {
    if k > 0 {
      RunSuccession(b, seen, k - 1);
      OccupiedTake(b.win, b.base, k - 1);
      assert b.win[k - 1].Some? && b.win[k - 1].value.id == b.base + k - 1 && Stamped(b.win[k - 1].value);
      hide Windowed, Run, Occupied;
    }
  }

  lemma ShiftSeen(b: Buffer, seen: set<nat>, k: nat)
    requires Windowed(b, seen) && k <= b.size && forall j: nat :: j < b.base + k ==> j in seen
    ensures var w := Shift(b.win, k);
      && (forall i :: 0 <= i < |w| && w[i].Some? ==> w[i].value.id == b.base + k + i)
      && (forall j: nat :: j in seen <==> j < b.base + k || (j < b.base + k + b.size && w[j - b.base - k].Some?))
  {
    var w := Shift(b.win, k);
    forall j: nat
      ensures j in seen <==> j < b.base + k || (j < b.base + k + b.size && w[j - b.base - k].Some?)
    {
      assert j in seen <==> j < b.base || (j < b.base + b.size && b.win[j - b.base].Some?);
    }
  }

  /** Moving the window over packets that have all been seen. */
  lemma ShiftWindowed(b: Buffer, seen: set<nat>, k: nat, b': Buffer)
    requires Windowed(b, seen) && k <= b.size && forall j: nat :: j < b.base + k ==> j in seen
    requires Inv(b') && b'.init && b'.base == b.base + k && b'.size == b.size && b'.win == Shift(b.win, k)
    ensures Windowed(b', seen)
  {
    ShiftSeen(b, seen, k);
  }

  /** Storing a packet in the slot of its place. */
  lemma PlaceWindowed(b: Buffer, seen: set<nat>, p: Packet, b': Buffer)
    requires Windowed(b, seen) && b.base <= p.id < b.base + b.size
    requires Inv(b') && b' == b.(win := b.win[p.id - b.base := Some(p)])
    ensures Windowed(b', seen + {p.id})
  {
    forall k: nat
      ensures k in seen + {p.id} <==> k < b'.base || (k < b'.base + b'.size && b'.win[k - b'.base].Some?)
    {
      assert k in seen <==> k < b.base || (k < b.base + b.size && b.win[k - b.base].Some?);
    }
  }

  // ----- what an insertion does to it ----------------------------------------------------------------

  lemma EarlyRange(b: Buffer, p: Packet)
    requires Inv(b) && b.init && b.size <= Offset(b, p.seqn) && Insert(b, p).outcome.Stored?
    ensures Offset(b, p.seqn) < 2 * b.size < MOD
  {
    hide FillStop, Filled, Stranded;
  }

  /** What an overflow that stores its packet does. */
  lemma InsertEarly(b: Buffer, p: Packet, n: nat)
    requires Inv(b) && b.init && b.size <= Offset(b, p.seqn) < 2 * b.size < MOD && Insert(b, p).outcome.Stored?
    requires n == Offset(b, p.seqn) + 1 - b.size
    ensures FillStop(b.win, Room(b), n) >= n && Insert(b, p).lost == Stranded(b, n)
    ensures Insert(b, p).outcome == Stored(b.base + Offset(b, p.seqn))
    ensures var i, f, at := Insert(b, p), Filled(b, n), b.base + Offset(b, p.seqn);
      && Inv(f) && f.init && f.size == b.size && f.base == b.base + FillStop(b.win, Room(b), n)
      && f.win == Shift(b.win, FillStop(b.win, Room(b), n))
      && f.base <= at < f.base + |f.win| && i.buf == f.(win := f.win[at - f.base := Some(p)])
  {
    FilledKeepsInv(b, n);
    hide Inv, FillStop, Stranded, Moved, Shift;
  }

  lemma InsertNear(b: Buffer, p: Packet)
    requires Inv(b) && b.init && Offset(b, p.seqn) < b.size
    ensures Insert(b, p).outcome == Stored(b.base + Offset(b, p.seqn))
    ensures Insert(b, p).buf == b.(win := b.win[Offset(b, p.seqn) := Some(p)])
    ensures Insert(b, p).lost == Displaced(b.win, b.base, Offset(b, p.seqn))
  {
  }

  /** An insertion that stores a packet under its own number and passes no missing one over. */
  lemma WindowedInsert(b: Buffer, seen: set<nat>, p: Packet)
    requires Windowed(b, seen) && Stamped(p)
    requires var i := Insert(b, p);
      i.outcome == Stored(p.id) && forall q: nat :: b.base <= q < i.buf.base ==> q in seen
    ensures Windowed(Insert(b, p).buf, seen + {p.id}) && Insert(b, p).buf.size == b.size
    ensures b.base <= Insert(b, p).buf.base <= p.id < Insert(b, p).buf.base + b.size
  {
    InsertKeepsInv(b, p);
    if Offset(b, p.seqn) < b.size {
      InsertNear(b, p);
      hide Insert;
      PlaceWindowed(b, seen, p, Insert(b, p).buf);
    } else {
      WindowedEarly(b, seen, p);
    }
  }

  lemma SeenUpTo(b: Buffer, seen: set<nat>, m: nat)
    requires Windowed(b, seen) && forall q: nat :: b.base <= q < m ==> q in seen
    ensures forall j: nat :: j < m ==> j in seen
  {
  }

  /** The same, with the buffer between the overflow by `k` slots and the storing. */
  lemma EarlySteps(b: Buffer, p: Packet) returns (f: Buffer, k: nat)
    requires Inv(b) && b.init && b.size <= Offset(b, p.seqn) && Insert(b, p).outcome.Stored?
    ensures Inv(f) && f.init && f.size == b.size && f.base == b.base + k && k <= b.size && f.win == Shift(b.win, k)
    ensures var i := Insert(b, p);
      && f.base <= i.outcome.num < f.base + |f.win| && |f.win| == f.size
      && i.buf == f.(win := f.win[i.outcome.num - f.base := Some(p)])
  {
    EarlyRange(b, p);
    var n := Offset(b, p.seqn) + 1 - b.size;
    InsertEarly(b, p, n);
    f, k := Filled(b, n), FillStop(b.win, Room(b), n);
    hide Insert, Filled, FillStop, Shift, Offset;
  }

  lemma WindowedEarly(b: Buffer, seen: set<nat>, p: Packet)
    requires Windowed(b, seen) && Inv(b) && b.init && b.size <= Offset(b, p.seqn) && Inv(Insert(b, p).buf)
    requires var i := Insert(b, p);
      i.outcome == Stored(p.id) && forall q: nat :: b.base <= q < i.buf.base ==> q in seen
    ensures Windowed(Insert(b, p).buf, seen + {p.id}) && Insert(b, p).buf.size == b.size
    ensures b.base <= Insert(b, p).buf.base <= p.id < Insert(b, p).buf.base + b.size
  {
    var b' := Insert(b, p).buf;
    hide *;
    var f, k := EarlySteps(b, p);
    SeenUpTo(b, seen, f.base);
    ShiftPlace(b, seen, k, f, p, b');
  }

  lemma ShiftPlace(b: Buffer, seen: set<nat>, k: nat, f: Buffer, p: Packet, b': Buffer)
    requires Windowed(b, seen) && k <= b.size && forall j: nat :: j < b.base + k ==> j in seen
    requires Inv(f) && f.init && f.base == b.base + k && f.size == b.size && f.win == Shift(b.win, k)
    requires f.base <= p.id < f.base + |f.win| && Inv(b') && b' == f.(win := f.win[p.id - f.base := Some(p)])
    ensures Windowed(b', seen + {p.id}) && b'.base == f.base && p.id < f.base + f.size
  {
    assert |b.win| == b.size;
    hide Inv, Shift;
    ShiftWindowed(b, seen, k, f);
    PlaceWindowed(f, seen, p, b');
  }

  // ----- insertions that keep the stream whole -------------------------------------------------------

  /** The packet falls into the window; or into a window's length behind the run at the head of it, and there is room
      for that run in the ready ring. */
  predicate Fits(b: Buffer, p: Packet)
    requires Shape(b)
  {
    || p.id < b.base + b.size
    || (2 * b.size < MOD && p.id < b.base + b.size + Run(b.win) && Run(b.win) <= Room(b))
  }

  /** An overflow within the run at the head of the window moves exactly that run. */
  lemma StopsAtRun(win: Window, room: nat, n: nat)
    requires 0 < n <= Run(win) <= room
    ensures FillStop(win, room, n) == Run(win) == Count(win[..Run(win)])
  {
    var g := Run(win);
    assert Gap(win, n) == g;
    CountFull(win, g);
    if g == room {
      CountMonotone(win, g, |win|);
      assert win[..|win|] == win;
      PastUnique(win, g, room);
    }
  }

  /** An overflow that moves no more than that run, and strands nobody, is of this kind. */
  lemma RunStops(b: Buffer, n: nat)
    requires Shape(b) && 0 < n <= b.size && !Strands(b, n)
    requires n <= FillStop(b.win, Room(b), n) <= Run(b.win)
    ensures n <= Run(b.win) <= Room(b)
  {
    var g, k := Run(b.win), FillStop(b.win, Room(b), n);
    assert Gap(b.win, n) == g;
    CountFull(b.win, g);
    CountFull(b.win, k);
    CountMonotone(b.win, g, |b.win|);
    assert b.win[..|b.win|] == b.win;
  }

  /** The run that an overflow moves goes to the end of the ready ring. */
  lemma RunMoved(b: Buffer, n: nat)
    requires Shape(b) && 0 < n <= Run(b.win) <= Room(b)
    ensures var f, g := Filled(b, n), Run(b.win);
      && f.ready == b.ready + Occupied(b.win[..g], b.base) && f.base == b.base + g
      && |f.ready| == |b.ready| + g && Stranded(b, n) == []
  {
    StopsAtRun(b.win, Room(b), n);
    hide FillStop, Count;
  }

  /** A packet that fits is stored in its place, nothing is lost, and nothing is passed over. */
  lemma FeedOne(b: Buffer, p: Packet, seen: set<nat>)
    requires Restoring(b, seen) && Stamped(p) && p.id !in seen && Fits(b, p)
    ensures var i := Insert(b, p);
      && Restoring(i.buf, seen + {p.id}) && Front(i.buf) == Front(b) && i.buf.size == b.size
      && i.lost == [] && i.outcome == Stored(p.id)
  {
    assert p.id >= b.base;
    StampOffset(b, p);
    if p.id < b.base + b.size {
      assert b.win[p.id - b.base] == None;
      WindowedInsert(b, seen, p);
    } else {
      FeedEarly(b, p, seen);
    }
  }

  lemma FeedEarly(b: Buffer, p: Packet, seen: set<nat>)
    requires Restoring(b, seen) && Stamped(p) && p.id !in seen && Fits(b, p)
    requires b.base + b.size <= p.id && Offset(b, p.seqn) == p.id - b.base
    ensures var i := Insert(b, p);
      && Restoring(i.buf, seen + {p.id}) && Front(i.buf) == Front(b) && i.buf.size == b.size
      && i.lost == [] && i.outcome == Stored(p.id)
  {
    var n, g := p.id - b.base + 1 - b.size, Run(b.win);
    StopsAtRun(b.win, Room(b), n);
    FirstMissing(b, seen);
    RunMoved(b, n);
    RunSuccession(b, seen, g);
    SuccessionJoin(b.ready, Occupied(b.win[..g], b.base), Front(b), b.base, b.base + g);
    hide Occupied, Count, FillStop, Run, InSuccession, Filled, Stranded, Windowed;
    EarlyOutcome(b, p, n);
    WindowedInsert(b, seen, p);
  }

  lemma EarlyOutcome(b: Buffer, p: Packet, n: nat)
    requires Inv(b) && b.init && 2 * b.size < MOD && b.size <= Offset(b, p.seqn) < 2 * b.size
    requires n == Offset(b, p.seqn) + 1 - b.size && n <= FillStop(b.win, Room(b), n)
    ensures Insert(b, p).outcome == Stored(b.base + Offset(b, p.seqn))
    ensures Insert(b, p).buf.ready == Filled(b, n).ready && Insert(b, p).buf.base == Filled(b, n).base
    ensures Insert(b, p).lost == Stranded(b, n)
  {
    hide FillStop, Stranded, Moved, Shift;
  }

  /** An insertion that stores a packet in its place, loses none and passes no missing one over is of one that fits. */
  lemma OneFits(b: Buffer, p: Packet, seen: set<nat>)
    requires Windowed(b, seen) && Stamped(p)
    requires var i := Insert(b, p);
      && i.outcome == Stored(p.id) && i.lost == []
      && forall q: nat :: b.base <= q < i.buf.base ==> q in seen
    ensures Fits(b, p)
  {
    var offset := Offset(b, p.seqn);
    if offset >= b.size {
      var n := offset + 1 - b.size;
      EarlyRange(b, p);
      InsertEarly(b, p, n);
      FirstMissing(b, seen);
      StrandedExactly(b, n);
      hide Insert, Filled, FillStop, Run, Stranded, Strands, Windowed, Inv;
      RunStops(b, n);
    }
  }

  /** Taking ready packets and, only once those are used up, packets of the run. */
  lemma TakenSuccession(b: Buffer, seen: set<nat>, r: nat, k: nat)
    requires Restoring(b, seen) && r <= |b.ready| && k <= Run(b.win) && (k > 0 ==> r == |b.ready|)
    ensures InSuccession(b.ready[..r] + Occupied(b.win[..k], b.base), Front(b), Front(b) + r + k)
    ensures InSuccession(b.ready[r..], Front(b) + r + k, b.base + k)
  {
    RunSuccession(b, seen, k);
    SuccessionCut(b.ready, Front(b), b.base, r);
    hide Windowed, Occupied, Run, InSuccession;
    if k > 0 {
      SuccessionJoin(b.ready[..r], Occupied(b.win[..k], b.base), Front(b), b.base, b.base + k);
      NothingYet(b.base + k);
    } else {
      EmptyTake(b.win, b.base);
      assert b.ready[..r] + [] == b.ready[..r];
    }
  }

  /** What a drain yields: the next places of the stream, one after another. */
  lemma DrainNext(b: Buffer, max: nat, seen: set<nat>)
    requires Restoring(b, seen)
    ensures var d := ReorderModel.Drain(b, max);
      && Restoring(d.buf, seen) && d.buf.size == b.size
      && Front(d.buf) == Front(b) + Least(max, |b.ready| + Run(b.win))
      && InSuccession(d.out, Front(b), Front(d.buf))
  {
    var r := Least(max, |b.ready|);
    var k := Least(max - r, Run(b.win));
    DrainKeepsInv(b, max);
    FirstMissing(b, seen);
    ShiftWindowed(b, seen, k, ReorderModel.Drain(b, max).buf);
    TakenSuccession(b, seen, r, k);
    hide Inv, Windowed, Occupied, Run, Shift, InSuccession;
  }

  // ----- schedules -----------------------------------------------------------------------------------

  /** The packets a run inserts, in order. */
  function Inserted(ops: seq<Op>): seq<Packet> {
    if ops == [] then []
    else (if ops[0].OpInsert? then [ops[0].p] else []) + Inserted(ops[1..])
  }

  /** A run of insertions and drains. */
  predicate Scheduled(ops: seq<Op>) {
    forall op :: op in ops ==> op.OpInsert? || op.OpDrain?
  }

  lemma {:induction false} ScheduleLegal(b: Buffer, ops: seq<Op>)
    requires Inv(b) && Scheduled(ops)
    ensures LegalRun(b, ops)
    decreases |ops|
  {
    if ops != [] {
      assert ops[0] in ops;
      hide Inv, Apply;
      ApplyKeepsInv(b, ops[0]);
      ScheduleLegal(Apply(b, ops[0]).buf, ops[1..]);
    }
  }

  /** A schedule in which every packet fits when it is inserted. */
  ghost predicate Fitting(b: Buffer, ops: seq<Op>)
    requires Inv(b)
    decreases |ops|
  {
    ops == [] || (
      && (ops[0].OpDrain? || (ops[0].OpInsert? && Fits(b, ops[0].p)))
      && (ApplyKeepsInv(b, ops[0]); Fitting(Apply(b, ops[0]).buf, ops[1..])))
  }

  lemma NextPacket(all: seq<Packet>, t: nat, p: Packet, rest: seq<Packet>)
    requires t <= |all| && all[t..] == [p] + rest
    ensures t < |all| && all[t] == p && all[t] in all && all[t + 1..] == rest
  {
    assert all[t..][0] == p && all[t + 1..] == all[t..][1..];
  }

  /** A fitting schedule of the rest of a stream stores every packet, loses none, and yields the stream one place after
      another. */
  lemma {:induction false} StreamRestored(b: Buffer, all: seq<Packet>, t: nat, ops: seq<Op>)
    requires t <= |all| && Stream(all) && Inserted(ops) == all[t..]
    requires Restoring(b, Ids(all[..t])) && Fitting(b, ops)
    ensures LegalRun(b, ops)
    ensures var e := Perform(b, ops);
      && Restoring(e.buf, Ids(all)) && InSuccession(e.out, Front(b), Front(e.buf)) && e.buf.size == b.size
      && e.lost == [] && |e.accepted| == |Inserted(ops)|
    decreases |ops|
  {
    hide Restoring, Inv, ReorderModel.Insert, ReorderModel.Drain, InSuccession, Fits, Front;
    RestoringInv(b, Ids(all[..t]));
    if ops == [] {
      assert all[..t] == all;
      NothingYet(Front(b));
    } else {
      ApplyKeepsInv(b, ops[0]);
      var e := Apply(b, ops[0]);
      match ops[0]
      case OpInsert(p) =>
        NextPacket(all, t, p, Inserted(ops[1..]));
        DistinctFront(all, t);
        FeedOne(b, p, Ids(all[..t]));
        hide Stream, Ids;
        StreamRestored(e.buf, all, t + 1, ops[1..]);
        assert Perform(b, ops).out == Perform(e.buf, ops[1..]).out;
      case OpDrain(max) =>
        DrainNext(b, max, Ids(all[..t]));
        hide Stream, Ids;
        StreamRestored(e.buf, all, t, ops[1..]);
        SuccessionJoin(e.out, Perform(e.buf, ops[1..]).out, Front(b), Front(e.buf), Front(Perform(b, ops).buf));
    }
  }

  lemma RestoringInv(b: Buffer, seen: set<nat>)
    requires Restoring(b, seen)
    ensures Inv(b) && b.init
  {
  }

  /** Once a complete stream has been fed, the first place not drained yet is as far from its end as what is left. */
  lemma AllOut(b: Buffer, all: seq<Packet>)
    requires Restoring(b, Ids(all)) && Complete(all)
    ensures Front(b) + |b.ready| + Run(b.win) == |all| && |b.ready| + Run(b.win) < 2 * b.size
  {
    FirstMissing(b, Ids(all));
    var f := b.base + Run(b.win);
    assert f !in Ids(all) && (f > 0 ==> f - 1 in Ids(all));
  }

  /** Then a drain that is large enough delivers the rest of it. */
  lemma StreamCompleted(b: Buffer, all: seq<Packet>, max: nat)
    requires Restoring(b, Ids(all)) && Complete(all) && |all| <= Front(b) + max
    ensures var d := ReorderModel.Drain(b, max);
      Restoring(d.buf, Ids(all)) && Front(d.buf) == |all| && InSuccession(d.out, Front(b), |all|)
  {
    AllOut(b, all);
    DrainNext(b, max, Ids(all));
  }

  /** The buffer as `reorder_init` leaves it. */
  function Fresh(size: nat): (b: Buffer)
    requires 0 < size < MOD
    ensures Restoring(b, {}) && Front(b) == 0 && b.base == 0 && b.size == size && b.ready == [] && Run(b.win) == 0
  {
    Buffer(size, 0, Empty(size), [], true)
  }
}
