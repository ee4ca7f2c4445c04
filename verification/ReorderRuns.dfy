/** What every operation of the reorder buffer keeps, and what holds over whole runs. */
module ReorderRuns {
  import opened Options
  import opened PacketTypes
  import opened ReorderModel
  import opened Words

  // ----- sequence numbers ----------------------------------------------------------------------

  /** The wrapped distance names the unbounded number that is stored as `seqn`. */
  lemma OffsetNumber(base: nat, seqn: Word)
    ensures (base + (seqn - base) % MOD) % MOD == seqn
  {
  }

  // ----- the invariant -------------------------------------------------------------------------

  /** The buffer's contents: the ready packets, then the window. */
  function Held(b: Buffer): seq<Numbered> {
    b.ready + Occupied(b.win, b.base)
  }

  lemma ShiftSlots(b: Buffer, k: nat, i: nat)
    requires Inv(b) && k <= b.size && i < b.size && Shift(b.win, k)[i].Some?
    ensures i + k < b.size && Shift(b.win, k)[i] == b.win[i + k]
  {
  }

  /** Increasing sequences concatenate when the first stays below the second. */
  lemma IncreasingJoin(s: seq<Numbered>, t: seq<Numbered>, pivot: nat)
    requires Increasing(s) && Increasing(t)
    requires forall e :: e in s ==> e.num < pivot
    requires forall e :: e in t ==> pivot <= e.num
    ensures Increasing(s + t)
  {
    forall i, j | 0 <= i < j < |s + t|
      ensures (s + t)[i].num < (s + t)[j].num
    {
      if i < |s| <= j {
        assert s[i] in s && t[j - |s|] in t;
      }
    }
  }

  lemma IncreasingPart(s: seq<Numbered>, part: seq<Numbered>, from: nat)
    requires Increasing(s) && from + |part| <= |s| && part == s[from..from + |part|]
    ensures Increasing(part) && forall e :: e in part ==> e in s
  {
  }

  /** What the first `k` slots hold is numbered inside them, and stored under that number. */
  lemma TakenNumbers(b: Buffer, k: nat)
    requires Inv(b) && k <= b.size
    ensures Increasing(Occupied(b.win[..k], b.base))
    ensures forall e :: e in Occupied(b.win[..k], b.base) ==>
              b.base <= e.num < b.base + k && e.pkt.seqn == e.num % MOD
  {
    OccupiedOrdered(b.win[..k], b.base);
    forall e | e in Occupied(b.win[..k], b.base)
      ensures b.base <= e.num < b.base + k && e.pkt.seqn == e.num % MOD
    {
      assert InSlot(b.win[..k], b.base, e);
      assert b.win[e.num - b.base] == Some(e.pkt);
    }
  }

  lemma ReadyKeepsInv(b: Buffer, k: nat, r: nat, more: seq<Numbered>)
    requires Inv(b) && k <= b.size && r <= |b.ready|
    requires more <= Occupied(b.win[..k], b.base)
    ensures Increasing(b.ready[r..] + more)
    ensures forall e :: e in b.ready[r..] + more ==> e.num < b.base + k && e.pkt.seqn == e.num % MOD
  {
    TakenNumbers(b, k);
    IncreasingPart(b.ready, b.ready[r..], r);
    IncreasingPart(Occupied(b.win[..k], b.base), more, 0);
    IncreasingJoin(b.ready[r..], more, b.base);
  }

  lemma MovedKeepsInv(b: Buffer, k: nat, r: nat, more: seq<Numbered>)
    requires Inv(b) && k <= b.size && r <= |b.ready|
    requires more <= Occupied(b.win[..k], b.base)
    requires |b.ready| - r + |more| < b.size
    requires b.init
    ensures Inv(b.(base := b.base + k, win := Shift(b.win, k), ready := b.ready[r..] + more))
  {
    var b' := b.(base := b.base + k, win := Shift(b.win, k), ready := b.ready[r..] + more);
    ReadyKeepsInv(b, k, r, more);
    forall i | 0 <= i < |b'.win| && b'.win[i].Some?
      ensures b'.win[i].value.seqn == (b'.base + i) % MOD
    {
      ShiftSlots(b, k, i);
    }
  }

  lemma FilledKeepsInv(b: Buffer, n: nat)
    requires Inv(b) && n <= b.size && b.init
    ensures Inv(Filled(b, n))
  {
    hide FillStop, Occupied, Count, Shift;
    var moved := Moved(b, n);
    var more := moved[..Least(Room(b), |moved|)];
    assert b.ready[0..] == b.ready;
    MovedKeepsInv(b, FillStop(b.win, Room(b), n), 0, more);
  }

  lemma PlaceKeepsInv(b: Buffer, i: nat, p: Packet)
    requires Inv(b) && b.init && i < b.size && p.seqn == (b.base + i) % MOD
    ensures Inv(b.(win := b.win[i := Some(p)]))
  {
  }

  lemma StartedKeepsInv(b: Buffer, seqn: Word)
    requires Inv(b)
    ensures Inv(Started(b, seqn)) && Started(b, seqn).init && Started(b, seqn).size == b.size
  {
  }

  lemma EarlyKeepsInv(b: Buffer, p: Packet)
    requires Inv(b) && b.init
    requires b.size <= Offset(b, p.seqn) < (2 * b.size) % MOD
    ensures Inv(InsertStarted(b, p).buf)
  {
    hide FillStop, Moved, Occupied, Count, Shift;
    var offset := Offset(b, p.seqn);
    var n := offset + 1 - b.size;
    var k := FillStop(b.win, Room(b), n);
    var f := Filled(b, n);
    assert Inv(f) && f.init && f.base == b.base + k && f.size == b.size by { FilledKeepsInv(b, n); }
    if k >= n {
      var i := offset - k;
      assert f.base + i == b.base + offset;
      assert p.seqn == (f.base + i) % MOD by { OffsetNumber(b.base, p.seqn); }
      PlaceKeepsInv(f, i, p);
      assert InsertStarted(b, p).buf == f.(win := f.win[i := Some(p)]);
    } else {
      assert InsertStarted(b, p).buf == f;
    }
  }

  lemma InsertKeepsInv(b: Buffer, p: Packet)
    requires Inv(b)
    ensures Inv(Insert(b, p).buf)
  {
    StartedKeepsInv(b, p.seqn);
    var b1 := Started(b, p.seqn);
    var offset := Offset(b1, p.seqn);
    if offset < b1.size {
      OffsetNumber(b1.base, p.seqn);
      PlaceKeepsInv(b1, offset, p);
    } else if offset < (2 * b1.size) % MOD {
      EarlyKeepsInv(b1, p);
    }
  }

  lemma DrainKeepsInv(b: Buffer, max: nat)
    requires Inv(b)
    ensures Inv(Drain(b, max).buf)
  {
    hide Occupied, Count;
    var r := Least(max, |b.ready|);
    var k := Least(max - r, Run(b.win));
    if b.init {
      assert b.ready[r..] + [] == b.ready[r..];
      MovedKeepsInv(b, k, r, []);
    } else {
      assert k == 0 && Shift(b.win, 0) == b.win;
    }
  }

  // ----- one step ------------------------------------------------------------------------------

  datatype Op =
    | OpInsert(p: Packet)
    | OpDrain(max: nat)
    | OpDrainUpTo(max: nat, seqn: Word)
    | OpSetMin(seqn: Word)

  datatype Effect = Effect(buf: Buffer, out: seq<Numbered>, accepted: seq<Numbered>, lost: seq<Numbered>)

  /** A drain up to a number is modelled for numbers that are not before the window. */
  predicate Legal(b: Buffer, op: Op) {
    op.OpDrainUpTo? ==> op.seqn >= b.base % MOD
  }

  function Apply(b: Buffer, op: Op): Effect
    requires Inv(b) && Legal(b, op)
  {
    match op
    case OpInsert(p) =>
      var i := Insert(b, p);
      Effect(i.buf, [], if i.outcome.Stored? then [Numbered(i.outcome.num, p)] else [], i.lost)
    case OpDrain(max) =>
      var d := Drain(b, max);
      Effect(d.buf, d.out, [], [])
    case OpDrainUpTo(max, seqn) =>
      var d := DrainUpTo(b, max, seqn);
      Effect(d.buf, d.out, [], [])
    case OpSetMin(seqn) => Effect(SetMin(b, seqn), [], [], [])
  }

  /** No packet that is still to come out can be numbered below the floor. */
  function Floor(b: Buffer): nat {
    if b.ready == [] then b.base else b.ready[0].num
  }

  lemma UpToKeepsInv(b: Buffer, max: nat, seqn: Word)
    requires Inv(b) && seqn >= b.base % MOD
    ensures Inv(DrainUpTo(b, max, seqn).buf) || !b.init
  {
    hide UpTo, Occupied, Count, Shift;
    var r := Least(max, |b.ready|);
    var k := UpTo(b.win, Least(seqn - b.base % MOD, b.size), max - r);
    if b.init {
      assert b.ready[r..] + [] == b.ready[r..];
      MovedKeepsInv(b, k, r, []);
    }
  }

  lemma ShiftedEmpty(b: Buffer, k: nat)
    requires Inv(b) && IsEmpty(b) && k <= b.size
    ensures Inv(b.(base := b.base + k, win := Shift(b.win, k)))
    ensures Occupied(b.win[..k], b.base) == []
  {
    assert Shift(b.win, k) == Empty(b.size) && b.win == Empty(b.size);
    hide Occupied;
    NoneOccupied(b.win[..k], b.base);
  }

  lemma {:induction false} NoneOccupied(win: Window, base: nat)
    requires forall i :: 0 <= i < |win| ==> win[i] == None
    ensures Occupied(win, base) == []
  {
    if win != [] { NoneOccupied(win[1..], base + 1); }
  }

  /** Every operation keeps the invariant. */
  lemma ApplyKeepsInv(b: Buffer, op: Op)
    requires Inv(b) && Legal(b, op)
    ensures Inv(Apply(b, op).buf)
  {
    match op
    case OpInsert(p) => InsertKeepsInv(b, p);
    case OpDrain(max) => DrainKeepsInv(b, max);
    case OpDrainUpTo(max, seqn) =>
      UpToKeepsInv(b, max, seqn);
      if !b.init {
        ShiftedEmpty(b, DrainUpTo(b, max, seqn).buf.base - b.base);
      }
    case OpSetMin(seqn) =>
  }

  /** Increasing packets numbered from `lo` to below `hi`, each stored under its number. */
  ghost predicate OutBetween(out: seq<Numbered>, lo: nat, hi: nat) {
    Increasing(out) && lo <= hi && forall x :: x in out ==> lo <= x.num < hi && x.pkt.seqn == x.num % MOD
  }

  /** Taking `r` ready packets and then, only once they are used up, the packets of `k` slots. */
  lemma TakenInOrder(b: Buffer, r: nat, k: nat)
    requires Inv(b) && r <= |b.ready| && k <= b.size && (k > 0 ==> r == |b.ready|)
    ensures var b' := b.(base := b.base + k, win := Shift(b.win, k), ready := b.ready[r..]);
      OutBetween(b.ready[..r] + Occupied(b.win[..k], b.base), Floor(b), Floor(b'))
  {
    TakenNumbers(b, k);
    IncreasingPart(b.ready, b.ready[..r], 0);
    IncreasingJoin(b.ready[..r], Occupied(b.win[..k], b.base), b.base);
    FrontBounds(b.ready, r);
    if r < |b.ready| { assert b.ready[r..][0] == b.ready[r] && b.ready[r] in b.ready; }
    assert b.ready != [] ==> b.ready[0] in b.ready;
    hide Occupied, Shift, Increasing, Shape;
  }

  lemma FrontBounds(s: seq<Numbered>, r: nat)
    requires Increasing(s) && r <= |s|
    ensures forall e :: e in s[..r] ==> s[0].num <= e.num && (r < |s| ==> e.num < s[r].num)
  {
    forall e | e in s[..r]
      ensures s[0].num <= e.num && (r < |s| ==> e.num < s[r].num)
    {
      var i :| 0 <= i < r && s[i] == e;
    }
  }

  /** Splitting off `taken` from the ready packets and `moved` from the window loses nothing. */
  lemma Regroup(ready: seq<Numbered>, slots: seq<Numbered>, taken: seq<Numbered>, kept: seq<Numbered>,
                moved: seq<Numbered>, rest: seq<Numbered>)
    requires ready == taken + kept && slots == moved + rest
    ensures multiset(ready + slots) == multiset(kept + rest) + multiset(taken + moved)
  {
  }

  lemma TakenConserves(b: Buffer, r: nat, k: nat)
    requires r <= |b.ready| && k <= |b.win|
    ensures var b' := b.(base := b.base + k, win := Shift(b.win, k), ready := b.ready[r..]);
      var out := b.ready[..r] + Occupied(b.win[..k], b.base);
      multiset(Held(b)) == multiset(Held(b')) + multiset(out)
  {
    hide Occupied, Shift, Count;
    OccupiedShift(b.win, b.base, k);
    Regroup(b.ready, Occupied(b.win, b.base), b.ready[..r], b.ready[r..],
            Occupied(b.win[..k], b.base), Occupied(Shift(b.win, k), b.base + k));
  }

  lemma Requeue(ready: seq<Numbered>, slots: seq<Numbered>, fit: seq<Numbered>, over: seq<Numbered>,
                rest: seq<Numbered>)
    requires slots == (fit + over) + rest
    ensures multiset(ready + slots) == multiset((ready + fit) + rest) + multiset(over)
  {
  }

  lemma FilledConserves(b: Buffer, n: nat)
    requires Shape(b) && n <= b.size
    ensures multiset(Held(b)) == multiset(Held(Filled(b, n))) + multiset(Stranded(b, n))
  {
    hide Occupied, Shift, Count, FillStop;
    var k := FillStop(b.win, Room(b), n);
    var moved := Moved(b, n);
    var fit := Least(Room(b), |moved|);
    OccupiedShift(b.win, b.base, k);
    assert moved == moved[..fit] + moved[fit..];
    Requeue(b.ready, Occupied(b.win, b.base), moved[..fit], moved[fit..],
            Occupied(Shift(b.win, k), b.base + k));
  }

  lemma FilledFloor(b: Buffer, n: nat)
    requires Inv(b) && n <= b.size
    ensures Floor(b) <= Floor(Filled(b, n))
  {
    var k := FillStop(b.win, Room(b), n);
    TakenNumbers(b, k);
    assert b.ready != [] ==> b.ready[0] in b.ready;
    var f := Filled(b, n);
    if b.ready == [] && f.ready != [] {
      assert f.ready[0] in Occupied(b.win[..k], b.base);
    }
  }

  lemma Replace(ready: seq<Numbered>, slots: seq<Numbered>, slots': seq<Numbered>,
                gone: seq<Numbered>, come: seq<Numbered>)
    requires multiset(slots') + multiset(gone) == multiset(slots) + multiset(come)
    ensures multiset(ready + slots') + multiset(gone) == multiset(ready + slots) + multiset(come)
  {
    calc {
      multiset(ready + slots') + multiset(gone);
      multiset(ready) + (multiset(slots') + multiset(gone));
      multiset(ready) + (multiset(slots) + multiset(come));
      multiset(ready + slots) + multiset(come);
    }
  }

  lemma PlaceConserves(b: Buffer, i: nat, p: Packet)
    requires i < |b.win|
    ensures multiset(Held(b.(win := b.win[i := Some(p)]))) + multiset(Displaced(b.win, b.base, i))
         == multiset(Held(b)) + multiset([Numbered(b.base + i, p)])
  {
    OccupiedUpdate(b.win, b.base, i, p);
    Replace(b.ready, Occupied(b.win, b.base), Occupied(b.win[i := Some(p)], b.base),
            Displaced(b.win, b.base, i), [Numbered(b.base + i, p)]);
  }

  lemma SetMinFloor(b: Buffer, seqn: Word)
    ensures Floor(b) <= Floor(SetMin(b, seqn))
  {
  }

  lemma InsertFloor(b: Buffer, p: Packet)
    requires Inv(b)
    ensures Floor(b) <= Floor(Insert(b, p).buf)
  {
    hide FillStop, Moved, Filled, Stranded, Occupied, Count, Shift;
    var b1 := Started(b, p.seqn);
    StartedKeepsInv(b, p.seqn);
    assert Floor(b) <= Floor(b1);
    var offset := Offset(b1, p.seqn);
    if b1.size <= offset < (2 * b1.size) % MOD {
      var n := offset + 1 - b1.size;
      FilledFloor(b1, n);
    }
  }

  lemma DrainInOrder(b: Buffer, max: nat)
    requires Inv(b)
    ensures OutBetween(Drain(b, max).out, Floor(b), Floor(Drain(b, max).buf))
  {
    assert Shape(b);
    hide *;
    var r, k := TakenByDrain(b, max);
    TakenInOrder(b, r, k);
  }

  /** A drain takes ready packets first and slots only once those are used up. */
  lemma TakenByDrain(b: Buffer, max: nat) returns (r: nat, k: nat)
    requires Shape(b)
    ensures r <= |b.ready| && k <= b.size == |b.win| && (k > 0 ==> r == |b.ready|)
    ensures Drain(b, max)
         == Drained(b.(base := b.base + k, win := Shift(b.win, k), ready := b.ready[r..]),
                    b.ready[..r] + Occupied(b.win[..k], b.base))
  {
    hide Occupied, Count, Shift, Run;
    r := Least(max, |b.ready|);
    k := Least(max - r, Run(b.win));
  }

  lemma DrainUpToInOrder(b: Buffer, max: nat, seqn: Word)
    requires Inv(b) && seqn >= b.base % MOD
    ensures OutBetween(DrainUpTo(b, max, seqn).out, Floor(b), Floor(DrainUpTo(b, max, seqn).buf))
  {
    assert Shape(b);
    hide Occupied, Shift, Inv, Floor, OutBetween, DrainUpTo;
    var r, k := TakenUpTo(b, max, seqn);
    TakenInOrder(b, r, k);
  }

  /** A drain up to a number takes ready packets first and slots only once those are used up. */
  lemma TakenUpTo(b: Buffer, max: nat, seqn: Word) returns (r: nat, k: nat)
    requires Shape(b) && seqn >= b.base % MOD
    ensures r <= |b.ready| && k <= b.size && (k > 0 ==> r == |b.ready|)
    ensures DrainUpTo(b, max, seqn)
         == Drained(b.(base := b.base + k, win := Shift(b.win, k), ready := b.ready[r..]),
                    b.ready[..r] + Occupied(b.win[..k], b.base))
  {
    hide Occupied, Count, Shift, UpTo;
    var limit := Least(seqn - b.base % MOD, b.size);
    r := Least(max, |b.ready|);
    k := UpTo(b.win, limit, max - r);
    UpToNone(b.win, limit);
  }

  /** One step: what comes out is in increasing order and lies between the floors. */
  lemma ApplyInOrder(b: Buffer, op: Op)
    requires Inv(b) && Legal(b, op)
    ensures OutBetween(Apply(b, op).out, Floor(b), Floor(Apply(b, op).buf))
  {
    hide Insert, Drain, DrainUpTo, SetMin, Floor, Inv;
    match op
    case OpInsert(p) => InsertFloor(b, p);
    case OpDrain(max) => DrainInOrder(b, max);
    case OpDrainUpTo(max, seqn) => DrainUpToInOrder(b, max, seqn);
    case OpSetMin(seqn) => SetMinFloor(b, seqn);
  }

  lemma UpToNone(win: Window, limit: nat)
    requires limit <= |win|
    ensures UpTo(win, limit, 0) == 0
  {
  }

  lemma InsertConserves(b: Buffer, p: Packet)
    requires Inv(b)
    ensures var e := Apply(b, OpInsert(p));
      multiset(Held(b)) + multiset(e.accepted) == multiset(Held(e.buf)) + multiset(e.lost)
  {
    hide FillStop, Filled, Stranded, Moved, Occupied, Count, Shift, Held, Displaced, Started;
    var b1 := Started(b, p.seqn);
    StartedHolds(b, p.seqn);
    var offset := Offset(b1, p.seqn);
    if offset < b1.size {
      PlaceConserves(b1, offset, p);
    } else if offset < (2 * b1.size) % MOD {
      EarlyConserves(b1, p);
    }
  }

  lemma StartedHolds(b: Buffer, seqn: Word)
    requires Inv(b)
    ensures Shape(Started(b, seqn)) && Started(b, seqn).size == b.size && Held(Started(b, seqn)) == Held(b)
  {
    if !b.init {
      NoneOccupied(b.win, b.base);
      NoneOccupied(b.win, Forward(b.base, seqn));
    }
  }

  /** The slot an early packet goes to has just been vacated by the head. */
  lemma EarlySlotFree(b: Buffer, offset: nat)
    requires Shape(b) && b.size <= offset < 2 * b.size
    ensures var k := FillStop(b.win, Room(b), offset + 1 - b.size);
      k >= offset + 1 - b.size ==> offset - k < b.size && Shift(b.win, k)[offset - k] == None
  {
    hide FillStop;
  }

  lemma EarlyConserves(b: Buffer, p: Packet)
    requires Shape(b) && b.size <= Offset(b, p.seqn) < (2 * b.size) % MOD
    ensures var i := InsertStarted(b, p);
      var accepted := if i.outcome.Stored? then [Numbered(i.outcome.num, p)] else [];
      multiset(Held(b)) + multiset(accepted) == multiset(Held(i.buf)) + multiset(i.lost)
  {
    hide FillStop, Moved, Stranded, Occupied, Count, Shift, Held;
    var offset := Offset(b, p.seqn);
    var n := offset + 1 - b.size;
    var k := FillStop(b.win, Room(b), n);
    var f := Filled(b, n);
    FilledConserves(b, n);
    if k >= n {
      assert f.base + (offset - k) == b.base + offset && f.win[offset - k] == None by { EarlySlotFree(b, offset); }
      PlaceFresh(f, offset - k, p);
      Chain(multiset(Held(b)), multiset(Held(f)), multiset(Stranded(b, n)),
            multiset([Numbered(b.base + offset, p)]), multiset(Held(f.(win := f.win[offset - k := Some(p)]))));
    }
  }

  lemma PlaceFresh(b: Buffer, i: nat, p: Packet)
    requires i < |b.win| && b.win[i] == None
    ensures multiset(Held(b.(win := b.win[i := Some(p)]))) == multiset(Held(b)) + multiset([Numbered(b.base + i, p)])
  {
    hide Held;
    PlaceConserves(b, i, p);
  }

  lemma Chain(b: multiset<Numbered>, f: multiset<Numbered>, over: multiset<Numbered>,
              new': multiset<Numbered>, g: multiset<Numbered>)
    requires b == f + over && g == f + new'
    ensures b + new' == g + over
  {
  }

  lemma DrainConserves(b: Buffer, max: nat)
    requires Shape(b)
    ensures multiset(Held(b)) == multiset(Held(Drain(b, max).buf)) + multiset(Drain(b, max).out)
  {
    hide Occupied, Count, Shift, Run, Held;
    var r := Least(max, |b.ready|);
    TakenConserves(b, r, Least(max - r, Run(b.win)));
  }

  lemma DrainUpToConserves(b: Buffer, max: nat, seqn: Word)
    requires Shape(b) && seqn >= b.base % MOD
    ensures multiset(Held(b))
         == multiset(Held(DrainUpTo(b, max, seqn).buf)) + multiset(DrainUpTo(b, max, seqn).out)
  {
    hide Occupied, Count, Shift, UpTo, Held;
    var r := Least(max, |b.ready|);
    TakenConserves(b, r, UpTo(b.win, Least(seqn - b.base % MOD, b.size), max - r));
  }

  lemma SetMinHolds(b: Buffer, seqn: Word)
    ensures Held(SetMin(b, seqn)) == Held(b)
  {
    if IsEmpty(b) {
      NoneOccupied(b.win, b.base);
      NoneOccupied(b.win, Forward(b.base, seqn));
    }
  }

  /** One step conserves packets: what was held or is accepted is held, comes out or is lost. */
  lemma ApplyConserves(b: Buffer, op: Op)
    requires Inv(b) && Legal(b, op)
    ensures var e := Apply(b, op);
      multiset(Held(b)) + multiset(e.accepted) == multiset(Held(e.buf)) + multiset(e.out) + multiset(e.lost)
  {
    hide Insert, Drain, DrainUpTo, SetMin, Held;
    match op
    case OpInsert(p) => InsertConserves(b, p);
    case OpDrain(max) => DrainConserves(b, max);
    case OpDrainUpTo(max, seqn) => DrainUpToConserves(b, max, seqn);
    case OpSetMin(seqn) => SetMinHolds(b, seqn);
  }

  // ----- what an insertion does ----------------------------------------------------------------

  /** An overflow by `n` slots strands a packet: there is room in the ready ring, the packets before the first free
      slot from the `n`-th on use all of it up, and the one that takes the last place has another right behind it. */
  predicate Strands(b: Buffer, n: nat)
    requires Shape(b) && n <= b.size
  {
    && 0 < Room(b) <= Count(b.win)
    && Room(b) <= Count(b.win[..Gap(b.win, n)])
    && Past(b.win, Room(b)) < b.size && b.win[Past(b.win, Room(b))].Some?
  }

  /** What an insertion into a started buffer loses: at most one packet, namely the one whose number is inserted
      again, or the one behind the packet that takes the last place of the ready ring. */
  ghost predicate Loses(b: Buffer, p: Packet, i: Insertion)
    requires Shape(b)
  {
    var offset := Offset(b, p.seqn);
    if offset < b.size then i.lost == Displaced(b.win, b.base, offset)
    else if offset < (2 * b.size) % MOD && Strands(b, offset + 1 - b.size) then
      var j := Past(b.win, Room(b));
      && i.lost == [Numbered(b.base + j, b.win[j].value)] && i.lost[0] in Held(b)
      && |i.buf.ready| == b.size - 1 && i.buf.base == b.base + j + 1
    else i.lost == []
  }

  /** Every insertion loses exactly what the state before it says. */
  lemma LostExactly(b: Buffer, p: Packet)
    requires Inv(b)
    ensures Shape(Started(b, p.seqn)) && Held(Started(b, p.seqn)) == Held(b)
    ensures Loses(Started(b, p.seqn), p, Insert(b, p))
  {
    var b1 := Started(b, p.seqn);
    assert Shape(b1) by { StartedKeepsInv(b, p.seqn); }
    assert Held(b1) == Held(b) by { StartedHolds(b, p.seqn); }
    hide Started, InsertStarted, Held, Inv, Loses;
    LostStarted(b1, p);
  }

  lemma LostStarted(b: Buffer, p: Packet)
    requires Shape(b)
    ensures Loses(b, p, InsertStarted(b, p))
  {
    hide FillStop, Filled, Stranded, Held, Strands;
    var offset := Offset(b, p.seqn);
    if b.size <= offset < (2 * b.size) % MOD {
      var n := offset + 1 - b.size;
      StrandedExactly(b, n);
      if Strands(b, n) { StrandedPlace(b, n); }
    }
  }

  lemma StrandedPlace(b: Buffer, n: nat)
    requires Shape(b) && n <= b.size && Strands(b, n)
    ensures Room(b) <= Count(b.win) && Past(b.win, Room(b)) < b.size && b.win[Past(b.win, Room(b))].Some?
  {
  }

  /** The stranded packet, and exactly when there is one. */
  lemma StrandedExactly(b: Buffer, n: nat)
    requires Shape(b) && n <= b.size
    ensures |Stranded(b, n)| <= 1
    ensures Stranded(b, n) != [] <==> Strands(b, n)
    ensures Stranded(b, n) != [] ==>
              var j := Past(b.win, Room(b));
              && Stranded(b, n) == [Numbered(b.base + j, b.win[j].value)]
              && |Filled(b, n).ready| == b.size - 1 && Filled(b, n).base == b.base + j + 1
              && Stranded(b, n)[0] in Held(b)
  {
    hide Occupied, Count, Shift, Past;
    var k := FillStop(b.win, Room(b), n);
    var moved := Moved(b, n);
    if Room(b) == 0 {
      assert moved == [] by { EmptyTake(b.win, b.base); }
    } else if Count(b.win[..Gap(b.win, n)]) >= Room(b) {
      assert Room(b) <= Count(b.win) by {
        CountMonotone(b.win, Gap(b.win, n), |b.win|);
        assert b.win[..|b.win|] == b.win;
      }
      var j := Past(b.win, Room(b));
      assert j == k || (k == j + 1 && b.win[j].Some?);
      if k == j + 1 {
        OccupiedTake(b.win, b.base, j);
        OccupiedShift(b.win, b.base, k);
        assert Stranded(b, n) == [Numbered(b.base + j, b.win[j].value)];
      }
    }
  }

  /** The number is new and the overflow, if there is one, strands nobody. */
  predicate Keeps(b: Buffer, p: Packet)
    requires Shape(b)
  {
    var offset := Offset(b, p.seqn);
    if offset < b.size then b.win[offset] == None
    else offset < (2 * b.size) % MOD ==> !Strands(b, offset + 1 - b.size)
  }

  /** An insertion conserves packets exactly under that condition on the state before it. */
  lemma KeptExactly(b: Buffer, p: Packet)
    requires Inv(b)
    ensures Shape(Started(b, p.seqn))
    ensures var e := Apply(b, OpInsert(p));
      multiset(Held(b)) + multiset(e.accepted) == multiset(Held(e.buf)) <==> Keeps(Started(b, p.seqn), p)
  {
    LostOrKept(b, p);
    InsertConserves(b, p);
    hide Insert, Held, Started, Keeps;
    var e := Apply(b, OpInsert(p));
    LostSomething(multiset(Held(b)) + multiset(e.accepted), multiset(Held(e.buf)), e.lost);
  }

  lemma LostSomething(all: multiset<Numbered>, kept: multiset<Numbered>, lost: seq<Numbered>)
    requires all == kept + multiset(lost)
    ensures all == kept <==> lost == []
  {
    if lost != [] {
      assert lost[0] in lost && all[lost[0]] == kept[lost[0]] + multiset(lost)[lost[0]];
    }
  }

  /** A packet that an overflow strands is lost for good. */
  lemma StrandedLost(b: Buffer, p: Packet)
    requires Inv(b) && b.init && b.size <= Offset(b, p.seqn) < (2 * b.size) % MOD
    requires Strands(b, Offset(b, p.seqn) + 1 - b.size)
    ensures var e, j := Apply(b, OpInsert(p)), Past(b.win, Room(b));
      && e.lost == [Numbered(b.base + j, b.win[j].value)]
      && multiset(Held(b)) + multiset(e.accepted) != multiset(Held(e.buf))
  {
    assert Started(b, p.seqn) == b;
    StrandedPlace(b, Offset(b, p.seqn) + 1 - b.size);
    StrandedOnly(b, p, Insert(b, p));
    hide Inv, Started, Insert, Held, Strands, Past, Count, Room, Offset, Loses, Keeps;
    LostExactly(b, p);
    KeptExactly(b, p);
  }

  lemma StrandedOnly(b: Buffer, p: Packet, i: Insertion)
    requires Shape(b) && b.size <= Offset(b, p.seqn) < (2 * b.size) % MOD
    requires Strands(b, Offset(b, p.seqn) + 1 - b.size)
    ensures !Keeps(b, p)
    ensures Loses(b, p, i) ==> i.lost == [Numbered(b.base + Past(b.win, Room(b)), b.win[Past(b.win, Room(b))].value)]
  {
    hide Held;
  }

  /** A stranding input: a full window of two slots, and the number behind it. */
  lemma StrandingHappens(p: Packet, q: Packet, r: Packet)
    requires p.seqn == 0 && q.seqn == 1 && r.seqn == 2
    ensures var b := Buffer(2, 0, [Some(p), Some(q)], [], true);
      var e := Apply(b, OpInsert(r));
      && Inv(b) && e.lost == [Numbered(1, q)]
      && multiset(Held(b)) + multiset(e.accepted) != multiset(Held(e.buf))
  {
    hide Insert, Held, Strands, Inv, Past, Count, Gap, Room;
    var b := Buffer(2, 0, [Some(p), Some(q)], [], true);
    FullWindow(b, p, q);
    assert Offset(b, r.seqn) == 2;
    StrandedLost(b, r);
  }

  lemma FullWindow(b: Buffer, p: Packet, q: Packet)
    requires b == Buffer(2, 0, [Some(p), Some(q)], [], true) && p.seqn == 0 && q.seqn == 1
    ensures Inv(b) && Room(b) == 1 <= Count(b.win) && Past(b.win, 1) == 1 && Strands(b, 1)
  {
    assert b.win[1..] == [Some(q)] && b.win[1..][1..] == [];
    assert b.win[..2] == b.win && Gap(b.win, 1) == 2 && Count(b.win) == 2;
    assert Count(b.win[..1]) == 1 by { assert b.win[..1] == [Some(p)] && b.win[..1][1..] == []; }
    PastUnique(b.win, 1, 1);
  }

  lemma EmptyTake(win: Window, base: nat)
    ensures Occupied(win[..0], base) == []
  {
  }

  /** A packet is refused as out of range exactly when it lies one to `MOD - 2 * size` behind the
      window; it then changes nothing. */
  lemma LateRefused(b: Buffer, p: Packet)
    requires Inv(b) && b.init && 2 * b.size < MOD
    ensures Insert(b, p).outcome == OutOfRange <==> 1 <= (b.base - p.seqn) % MOD <= MOD - 2 * b.size
    ensures Insert(b, p).outcome == OutOfRange ==> Insert(b, p) == Insertion(b, OutOfRange, [])
  {
    var ahead, behind := (p.seqn - b.base) % MOD, (b.base - p.seqn) % MOD;
    assert ahead + behind == 0 || ahead + behind == MOD;
  }

  /** A stored packet sits in the slot of its number, which is stored as its sequence number; an
      early one displaces nobody. */
  lemma StoredInPlace(b: Buffer, p: Packet)
    requires Inv(b)
    ensures var i := Insert(b, p);
      i.outcome.Stored? ==>
        && i.outcome.num % MOD == p.seqn
        && i.buf.base <= i.outcome.num < i.buf.base + b.size
        && i.buf.win[i.outcome.num - i.buf.base] == Some(p)
        && Numbered(i.outcome.num, p) in Held(i.buf)
  {
    var b1 := Started(b, p.seqn);
    assert Shape(b1) && b1.size == b.size by { StartedKeepsInv(b, p.seqn); }
    hide Started, InsertStarted, Inv, Held;
    StoredStarted(b1, p);
  }

  lemma StoredStarted(b: Buffer, p: Packet)
    requires Shape(b)
    ensures var i := InsertStarted(b, p);
      i.outcome.Stored? ==>
        && i.outcome.num % MOD == p.seqn
        && i.buf.base <= i.outcome.num < i.buf.base + b.size
        && i.buf.win[i.outcome.num - i.buf.base] == Some(p)
        && Numbered(i.outcome.num, p) in Held(i.buf)
  {
    hide FillStop, Moved, Occupied, Count, Shift;
    OffsetNumber(b.base, p.seqn);
    var i := InsertStarted(b, p);
    if i.outcome.Stored? {
      OccupiedHas(i.buf.win, i.buf.base, i.outcome.num - i.buf.base);
    }
  }

  /** An early packet is refused for lack of space exactly if the packets of the slots before the last one to be
      passed fill the ready ring, unless they do so exactly and two packets end the stretch: then the second of them
      is passed as well, and stranded.  When it is refused, the ring is full. */
  lemma NoSpaceExactly(b: Buffer, p: Packet)
    requires Inv(b) && b.init
    ensures var i, offset := Insert(b, p), Offset(b, p.seqn);
      && (i.outcome == NoSpace <==>
            && b.size <= offset < (2 * b.size) % MOD
            && var n := offset + 1 - b.size; FullBefore(b, n))
      && (i.outcome == NoSpace ==> |i.buf.ready| == b.size - 1)
  {
    hide Occupied, Shift, Past, Gap, FillStop, FullBefore;
    var offset := Offset(b, p.seqn);
    if b.size <= offset < (2 * b.size) % MOD {
      var n := offset + 1 - b.size;
      StopsEarly(b, n);
      if FillStop(b.win, Room(b), n) < n {
        MovedFills(b, n);
      }
    }
  }

  /** The packets in front of the `n`-th slot use up the free ready places, and no packet is stranded just there. */
  predicate FullBefore(b: Buffer, n: nat)
    requires Shape(b) && 0 < n <= b.size
  {
    var c := Count(b.win[..n - 1]);
    c > Room(b) || (c == Room(b) && !(n >= 2 && b.win[n - 2].Some? && b.win[n - 1].Some?))
  }

  lemma StopsEarly(b: Buffer, n: nat)
    requires Shape(b) && 0 < n <= b.size
    ensures FillStop(b.win, Room(b), n) < n <==> FullBefore(b, n)
  {
    hide Occupied, Count, Past, Gap;
    var c, g := Count(b.win[..n - 1]), Gap(b.win, n);
    CountMonotone(b.win, n - 1, g);
    CountMonotone(b.win, g, |b.win|);
    assert b.win[..|b.win|] == b.win;
    if n >= 2 { CountTake(b.win, n - 2); }
    if c >= Room(b) > 0 {
      FilledBefore(b.win, Room(b), n - 1);
    } else if Room(b) > 0 && Count(b.win[..g]) >= Room(b) {
      var j := Past(b.win, Room(b));
      if j <= n - 1 { CountMonotone(b.win, j, n - 1); }
    }
  }

  /** If the first `k` slots hold `room` packets, the place behind the last of those is `k` exactly if there are no
      more and the last slot holds one. */
  lemma FilledBefore(win: Window, room: nat, k: nat)
    requires k <= |win| && 0 < room <= Count(win[..k]) <= Count(win)
    ensures Past(win, room) <= k
    ensures Past(win, room) == k <==> k > 0 && win[k - 1].Some? && Count(win[..k]) == room
  {
    hide Count, Past;
    var j := Past(win, room);
    if j > k { CountGrows(win, k, j); }
    if k > 0 && win[k - 1].Some? && Count(win[..k]) == room { PastUnique(win, k, room); }
  }

  /** An overflow that stops early has filled the ready ring. */
  lemma MovedFills(b: Buffer, n: nat)
    requires Shape(b) && n <= b.size && FillStop(b.win, Room(b), n) < n
    ensures |Moved(b, n)| >= Room(b)
  {
    hide Occupied;
    var k := FillStop(b.win, Room(b), n);
    if Room(b) > 0 {
      CountMonotone(b.win, Gap(b.win, n), |b.win|);
      assert b.win[..|b.win|] == b.win;
      CountMonotone(b.win, Past(b.win, Room(b)), k);
    }
  }

  // ----- what a drain does ---------------------------------------------------------------------

  lemma {:induction false} CountFull(win: Window, k: nat)
    requires k <= |win| && forall i :: 0 <= i < k ==> win[i].Some?
    ensures Count(win[..k]) == k
  {
    if k > 0 {
      CountFull(win, k - 1);
      CountTake(win, k - 1);
    }
  }

  /** A drain that yields fewer packets than asked for has left none ready, and the next number is missing. */
  lemma DrainStops(b: Buffer, max: nat)
    requires Inv(b)
    ensures var d := Drain(b, max);
      |d.out| <= max && (|d.out| < max ==> d.buf.ready == [] && d.buf.win[0] == None)
  {
    hide Occupied, Count;
    var k := Least(max - Least(max, |b.ready|), Run(b.win));
    CountFull(b.win, k);
  }

  /** A drain up to a number yields nothing from that number on; if it yields fewer packets than asked for, it has
      left nothing before it. */
  lemma DrainUpToComplete(b: Buffer, max: nat, seqn: Word)
    requires Inv(b) && seqn >= b.base % MOD
    ensures var d, target := DrainUpTo(b, max, seqn), b.base + Least(seqn - b.base % MOD, b.size);
      && |d.out| <= max
      && (forall e :: e in d.out ==> e.num < target)
      && (|d.out| < max ==> d.buf.base == target && forall e :: e in Held(d.buf) ==> target <= e.num)
  {
    hide Occupied, Count, Shift;
    var limit := Least(seqn - b.base % MOD, b.size);
    var r := Least(max, |b.ready|);
    var k := UpTo(b.win, limit, max - r);
    var d := DrainUpTo(b, max, seqn);
    TakenNumbers(b, k);
    IncreasingPart(b.ready, b.ready[..r], 0);
    UpToCount(b.win, limit, max - r);
    if |d.out| < max {
      OccupiedOrdered(d.buf.win, d.buf.base);
    }
  }

  lemma UpToCount(win: Window, limit: nat, quota: nat)
    requires limit <= |win|
    ensures Count(win[..UpTo(win, limit, quota)]) <= quota
    ensures Count(win[..UpTo(win, limit, quota)]) < quota ==> UpTo(win, limit, quota) == limit
  {
    if quota <= Count(win[..limit]) {
      CountMonotone(win, limit, |win|);
      assert win[..|win|] == win;
    }
  }

  // ----- runs ----------------------------------------------------------------------------------

  ghost predicate LegalRun(b: Buffer, ops: seq<Op>)
    requires Inv(b)
    decreases |ops|
  {
    ops == [] || (Legal(b, ops[0]) && (ApplyKeepsInv(b, ops[0]); LegalRun(Apply(b, ops[0]).buf, ops[1..])))
  }

  /** The combined effect of a whole run. */
  ghost function Perform(b: Buffer, ops: seq<Op>): Effect
    requires Inv(b) && LegalRun(b, ops)
    decreases |ops|
  {
    if ops == [] then Effect(b, [], [], [])
    else
      var e := Apply(b, ops[0]);
      ApplyKeepsInv(b, ops[0]);
      var r := Perform(e.buf, ops[1..]);
      Effect(r.buf, e.out + r.out, e.accepted + r.accepted, e.lost + r.lost)
  }

  /** Over any run the drained packets are strictly increasing in unbounded number, whatever the
      32-bit numbers do, and each is drained under the number its sequence number stands for. */
  lemma {:induction false} RunInOrder(b: Buffer, ops: seq<Op>)
    requires Inv(b) && LegalRun(b, ops)
    ensures Inv(Perform(b, ops).buf)
    ensures OutBetween(Perform(b, ops).out, Floor(b), Floor(Perform(b, ops).buf))
    decreases |ops|
  {
    hide Apply, Floor, Inv;
    if ops != [] {
      var e := Apply(b, ops[0]);
      ApplyKeepsInv(b, ops[0]);
      ApplyInOrder(b, ops[0]);
      RunInOrder(e.buf, ops[1..]);
      IncreasingJoin(e.out, Perform(e.buf, ops[1..]).out, Floor(e.buf));
    }
  }

  /** Over any run every packet that was held or accepted is held, was drained or was lost. */
  lemma {:induction false} RunConserves(b: Buffer, ops: seq<Op>)
    requires Inv(b) && LegalRun(b, ops)
    ensures var e := Perform(b, ops);
      multiset(Held(b)) + multiset(e.accepted) == multiset(Held(e.buf)) + multiset(e.out) + multiset(e.lost)
    decreases |ops|
  {
    hide Apply, Inv, Held;
    if ops != [] {
      var e := Apply(b, ops[0]);
      ApplyKeepsInv(b, ops[0]);
      ApplyConserves(b, ops[0]);
      RunConserves(e.buf, ops[1..]);
      var r := Perform(e.buf, ops[1..]);
      SumUp(multiset(Held(b)), multiset(Held(e.buf)), multiset(Held(r.buf)), e, r);
    }
  }

  /** Every insertion of the run is of a new number and strands nobody. */
  ghost predicate AllKept(b: Buffer, ops: seq<Op>)
    requires Inv(b) && LegalRun(b, ops)
    decreases |ops|
  {
    ops == [] || (
      && (ops[0].OpInsert? ==> (StartedKeepsInv(b, ops[0].p.seqn); Keeps(Started(b, ops[0].p.seqn), ops[0].p)))
      && (ApplyKeepsInv(b, ops[0]); AllKept(Apply(b, ops[0]).buf, ops[1..])))
  }

  /** A run loses nothing exactly under that condition. */
  lemma {:induction false} RunKeptExactly(b: Buffer, ops: seq<Op>)
    requires Inv(b) && LegalRun(b, ops)
    ensures Perform(b, ops).lost == [] <==> AllKept(b, ops)
    decreases |ops|
  {
    hide Insert, Inv, Keeps;
    if ops != [] {
      ApplyKeepsInv(b, ops[0]);
      RunKeptExactly(Apply(b, ops[0]).buf, ops[1..]);
      if ops[0].OpInsert? {
        StartedKeepsInv(b, ops[0].p.seqn);
        LostOrKept(b, ops[0].p);
      }
    }
  }

  lemma LostOrKept(b: Buffer, p: Packet)
    requires Inv(b)
    ensures Shape(Started(b, p.seqn))
    ensures Insert(b, p).lost == [] <==> Keeps(Started(b, p.seqn), p)
  {
    LostExactly(b, p);
    hide Insert, Started, Strands, Held, Inv;
  }

  lemma SumUp(h0: multiset<Numbered>, h1: multiset<Numbered>, h2: multiset<Numbered>, e: Effect, r: Effect)
    requires h0 + multiset(e.accepted) == h1 + multiset(e.out) + multiset(e.lost)
    requires h1 + multiset(r.accepted) == h2 + multiset(r.out) + multiset(r.lost)
    ensures h0 + multiset(e.accepted + r.accepted) == h2 + multiset(e.out + r.out) + multiset(e.lost + r.lost)
  {
    AddUp(h0, h1, h2, multiset(e.accepted), multiset(r.accepted), multiset(e.out), multiset(r.out),
          multiset(e.lost), multiset(r.lost));
  }

  lemma AddUp<T>(h0: multiset<T>, h1: multiset<T>, h2: multiset<T>, a1: multiset<T>, a2: multiset<T>,
                 o1: multiset<T>, o2: multiset<T>, l1: multiset<T>, l2: multiset<T>)
    requires h0 + a1 == h1 + o1 + l1 && h1 + a2 == h2 + o2 + l2
    ensures h0 + (a1 + a2) == h2 + (o1 + o2) + (l1 + l2)
  {
    forall x
      ensures (h0 + (a1 + a2))[x] == (h2 + (o1 + o2) + (l1 + l2))[x]
    {
      assert (h0 + a1)[x] == (h1 + o1 + l1)[x] && (h1 + a2)[x] == (h2 + o2 + l2)[x];
    }
  }
}
