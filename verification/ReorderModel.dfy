/** The reorder buffer as a value: a window of slots that slides over unbounded sequence numbers.

    A packet carries a 32-bit sequence number.  `base` is the unbounded ("unwrapped") number of the
    first slot, so `base % MOD` is the stored `min_seqn`, and slot `i` of the window stands for the
    unbounded number `base + i`.  `ready` holds the packets that an overflow has already pushed out
    of the window, each with the unbounded number it was accepted under. */
module ReorderModel {
  import opened Options
  import opened PacketTypes
  import opened Words

  datatype Numbered = Numbered(num: nat, pkt: Packet)

  type Window = seq<Option<Packet>>

  datatype Buffer = Buffer(size: nat, base: nat, win: Window, ready: seq<Numbered>, init: bool)

  // ----- windows -------------------------------------------------------------------------------

  function Count(win: Window): (c: nat)
    ensures c <= |win|
  {
    if win == [] then 0 else (if win[0].Some? then 1 else 0) + Count(win[1..])
  }

  /** The occupied slots of a window whose first slot stands for `base`, in order. */
  function Occupied(win: Window, base: nat): (r: seq<Numbered>)
    ensures |r| == Count(win)
  {
    if win == [] then []
    else
      (if win[0].Some? then [Numbered(base, win[0].value)] else []) + Occupied(win[1..], base + 1)
  }

  function Empty(n: nat): (w: Window)
    ensures |w| == n && forall i :: 0 <= i < n ==> w[i] == None
  {
    seq(n, _ => None)
  }

  /** The window after its head has moved `k` slots on. */
  function Shift(win: Window, k: nat): (w: Window)
    requires k <= |win|
    ensures |w| == |win|
  {
    win[k..] + Empty(k)
  }

  /** The least position at or after `from` that is free, or the end of the window. */
  function Gap(win: Window, from: nat): (g: nat)
    requires from <= |win|
    ensures from <= g <= |win|
    ensures g < |win| ==> win[g] == None
    ensures forall i :: from <= i < g ==> win[i].Some?
    decreases |win| - from
  {
    if from == |win| || win[from] == None then from else Gap(win, from + 1)
  }

  /** The least position with `count` occupied slots before it. */
  function Past(win: Window, count: nat): (k: nat)
    requires count <= Count(win)
    ensures k <= |win|
    ensures Count(win[..k]) == count
    ensures count > 0 ==> k > 0 && win[k - 1].Some?
  {
    if count == 0 then 0
    else
      var k := 1 + Past(win[1..], if win[0].Some? then count - 1 else count);
      assert win[..k][1..] == win[1..][..k - 1];
      k
  }

  lemma {:induction false} CountTake(win: Window, k: nat)
    requires k < |win|
    ensures Count(win[..k + 1]) == Count(win[..k]) + (if win[k].Some? then 1 else 0)
  {
    if k == 0 {
      assert win[..1][1..] == [];
    } else {
      assert win[..k + 1][1..] == win[1..][..k] && win[..k][1..] == win[1..][..k - 1];
      CountTake(win[1..], k - 1);
    }
  }

  lemma {:induction false} CountMonotone(win: Window, j: nat, k: nat)
    requires j <= k <= |win|
    ensures Count(win[..j]) <= Count(win[..k])
    decreases k - j
  {
    if j < k {
      CountTake(win, j);
      CountMonotone(win, j + 1, k);
    }
  }

  lemma CountGrows(win: Window, j: nat, k: nat)
    requires j < k <= |win| && win[k - 1].Some?
    ensures Count(win[..j]) < Count(win[..k])
  {
    CountTake(win, k - 1);
    CountMonotone(win, j, k - 1);
  }

  /** `Past` is determined by its contract. */
  lemma PastUnique(win: Window, k: nat, count: nat)
    requires k <= |win| && (k > 0 ==> win[k - 1].Some?)
    requires count == Count(win[..k]) <= Count(win)
    ensures Past(win, count) == k
  {
    var k' := Past(win, count);
    if k' < k {
      CountGrows(win, k', k);
    } else if k < k' {
      CountGrows(win, k, k');
    }
  }

  lemma {:induction false} OccupiedTake(win: Window, base: nat, k: nat)
    requires k < |win|
    ensures Occupied(win[..k + 1], base)
         == Occupied(win[..k], base) + if win[k].Some? then [Numbered(base + k, win[k].value)] else []
  {
    if k == 0 {
      assert win[..1][1..] == [];
    } else {
      assert win[..k + 1][1..] == win[1..][..k] && win[..k][1..] == win[1..][..k - 1];
      OccupiedTake(win[1..], base + 1, k - 1);
    }
  }

  lemma {:induction false} OccupiedSplit(win: Window, base: nat, k: nat)
    requires k <= |win|
    ensures Occupied(win, base) == Occupied(win[..k], base) + Occupied(win[k..], base + k)
  {
    if k == 0 {
      assert win[..0] == [] && win[0..] == win;
    } else {
      OccupiedSplit(win[1..], base + 1, k - 1);
      assert win[..k][1..] == win[1..][..k - 1];
      assert win[k..] == win[1..][k - 1..];
    }
  }

  lemma {:induction false} OccupiedJoin(win: Window, more: nat, base: nat)
    ensures Occupied(win + Empty(more), base) == Occupied(win, base)
    decreases |win|, more
  {
    var w := win + Empty(more);
    if win == [] {
      if more > 0 {
        assert w == Empty(more) && w[1..] == [] + Empty(more - 1);
        OccupiedJoin([], more - 1, base + 1);
      } else {
        assert w == [];
      }
    } else {
      assert w[1..] == win[1..] + Empty(more);
      OccupiedJoin(win[1..], more, base + 1);
    }
  }

  /** Shifting a window past its first `k` slots splits off their packets and keeps the rest. */
  lemma OccupiedShift(win: Window, base: nat, k: nat)
    requires k <= |win|
    ensures Occupied(win, base) == Occupied(win[..k], base) + Occupied(Shift(win, k), base + k)
  {
    OccupiedSplit(win, base, k);
    OccupiedJoin(win[k..], k, base + k);
  }

  /** The occupied slots come out in increasing number, each as its window slot says. */
  lemma {:induction false} OccupiedOrdered(win: Window, base: nat)
    ensures Increasing(Occupied(win, base))
    ensures forall e :: e in Occupied(win, base) ==> InSlot(win, base, e)
  {
    if win != [] {
      var rest := Occupied(win[1..], base + 1);
      OccupiedOrdered(win[1..], base + 1);
      forall e | e in rest
        ensures InSlot(win, base, e) && base < e.num
      {
        assert InSlot(win[1..], base + 1, e);
      }
    }
  }

  ghost predicate InSlot(win: Window, base: nat, e: Numbered) {
    base <= e.num < base + |win| && win[e.num - base] == Some(e.pkt)
  }

  lemma {:induction false} OccupiedHas(win: Window, base: nat, i: nat)
    requires i < |win| && win[i].Some?
    ensures Numbered(base + i, win[i].value) in Occupied(win, base)
  {
    if i > 0 { OccupiedHas(win[1..], base + 1, i - 1); }
  }

  lemma OccupiedAround(win: Window, base: nat, i: nat)
    requires i < |win|
    ensures Occupied(win, base)
         == Occupied(win[..i], base) + Displaced(win, base, i) + Occupied(win[i + 1..], base + i + 1)
  {
    hide Occupied, Count;
    OccupiedSplit(win, base, i);
    OccupiedFirst(win[i..], base + i);
    assert win[i..][1..] == win[i + 1..];
  }

  lemma OccupiedFirst(win: Window, base: nat)
    requires win != []
    ensures Occupied(win, base) == Displaced(win, base, 0) + Occupied(win[1..], base + 1)
  {
  }

  /** Overwriting one slot removes its old packet, if any, and adds the new one. */
  lemma OccupiedUpdate(win: Window, base: nat, i: nat, p: Packet)
    requires i < |win|
    ensures multiset(Occupied(win[i := Some(p)], base)) + multiset(Displaced(win, base, i))
         == multiset(Occupied(win, base)) + multiset([Numbered(base + i, p)])
  {
    var w := win[i := Some(p)];
    assert w[..i] == win[..i] && w[i + 1..] == win[i + 1..];
    var before, after := Occupied(win[..i], base), Occupied(win[i + 1..], base + i + 1);
    assert Occupied(win, base) == before + Displaced(win, base, i) + after by { OccupiedAround(win, base, i); }
    assert Occupied(w, base) == before + [Numbered(base + i, p)] + after by { OccupiedAround(w, base, i); }
    Exchange(before, Displaced(win, base, i), [Numbered(base + i, p)], after);
  }

  lemma Exchange(before: seq<Numbered>, x: seq<Numbered>, y: seq<Numbered>, after: seq<Numbered>)
    ensures multiset(before + y + after) + multiset(x) == multiset(before + x + after) + multiset(y)
  {
  }

  /** The packet that sits in slot `i`, if there is one. */
  function Displaced(win: Window, base: nat, i: nat): seq<Numbered>
    requires i < |win|
  {
    if win[i].Some? then [Numbered(base + i, win[i].value)] else []
  }

  ghost predicate Increasing(s: seq<Numbered>) {
    forall j, k :: 0 <= j < k < |s| ==> s[j].num < s[k].num
  }

  // ----- overflow ------------------------------------------------------------------------------

  /** Where an overflow that has to advance the head by `n` slots stops, when the ready ring has
      `room` free places: at the first free slot from position `n` on, if the packets before it
      leave a place free; otherwise right after the packet that takes the last place, or one slot
      further when that slot is occupied too. */
  function FillStop(win: Window, room: nat, n: nat): (k: nat)
    requires n <= |win|
    ensures k <= |win|
  {
    if room == 0 then 0
    else if Count(win[..Gap(win, n)]) < room then Gap(win, n)
    else
      CountMonotone(win, Gap(win, n), |win|);
      assert win[..|win|] == win;
      var k := Past(win, room);
      if k < |win| && win[k].Some? then k + 1 else k
  }

  /** The packets an overflow takes out of the window. */
  function Moved(b: Buffer, n: nat): seq<Numbered>
    requires Shape(b) && n <= b.size
  {
    Occupied(b.win[..FillStop(b.win, Room(b), n)], b.base)
  }

  function Room(b: Buffer): nat
    requires Shape(b)
  {
    b.size - 1 - |b.ready|
  }

  /** The buffer after an overflow; the packets beyond the ready ring's room are stranded. */
  function Filled(b: Buffer, n: nat): Buffer
    requires Shape(b) && n <= b.size
  {
    var k := FillStop(b.win, Room(b), n);
    var moved := Moved(b, n);
    b.(base := b.base + k, win := Shift(b.win, k), ready := b.ready + moved[..Least(Room(b), |moved|)])
  }

  function Stranded(b: Buffer, n: nat): seq<Numbered>
    requires Shape(b) && n <= b.size
  {
    var moved := Moved(b, n);
    moved[Least(Room(b), |moved|)..]
  }

  // ----- the operations ------------------------------------------------------------------------

  predicate Shape(b: Buffer) {
    0 < b.size < MOD && |b.win| == b.size && |b.ready| < b.size
  }

  ghost predicate Inv(b: Buffer) {
    && Shape(b)
    && Increasing(b.ready)
    && (forall e :: e in b.ready ==> e.num < b.base && e.pkt.seqn == e.num % MOD)
    && (forall i :: 0 <= i < |b.win| && b.win[i].Some? ==> b.win[i].value.seqn == (b.base + i) % MOD)
    && (!b.init ==> IsEmpty(b))
  }

  predicate IsEmpty(b: Buffer) {
    b.ready == [] && forall i :: 0 <= i < |b.win| ==> b.win[i] == None
  }

  /** The distance from the head of the window, in 32-bit arithmetic. */
  function Offset(b: Buffer, seqn: Word): Word {
    (seqn - b.base) % MOD
  }

  /** The least unbounded number from `base` on that is stored as `seqn`. */
  function Forward(base: nat, seqn: Word): (u: nat)
    ensures base <= u < base + MOD
  {
    base + (seqn - base) % MOD
  }

  datatype Outcome = Stored(num: nat) | NoSpace | OutOfRange

  datatype Insertion = Insertion(buf: Buffer, outcome: Outcome, lost: seq<Numbered>)

  function Started(b: Buffer, seqn: Word): Buffer {
    if b.init then b else b.(base := Forward(b.base, seqn), init := true)
  }

  function Insert(b: Buffer, p: Packet): Insertion
    requires Shape(b)
  {
    InsertStarted(Started(b, p.seqn), p)
  }

  function InsertStarted(b: Buffer, p: Packet): Insertion
    requires Shape(b)
  {
    var offset := Offset(b, p.seqn);
    if offset < b.size then
      Insertion(b.(win := b.win[offset := Some(p)]), Stored(b.base + offset), Displaced(b.win, b.base, offset))
    else if offset < (2 * b.size) % MOD then
      var n := offset + 1 - b.size;
      var k := FillStop(b.win, Room(b), n);
      var f := Filled(b, n);
      if k < n then
        Insertion(f, NoSpace, Stranded(b, n))
      else
        Insertion(f.(win := f.win[offset - k := Some(p)]), Stored(b.base + offset), Stranded(b, n))
    else
      Insertion(b, OutOfRange, [])
  }

  /** How many packets stand at the head of the window without a gap. */
  function Run(win: Window): (k: nat)
    ensures k <= |win|
  {
    Gap(win, 0)
  }

  datatype Drained = Drained(buf: Buffer, out: seq<Numbered>)

  function Drain(b: Buffer, max: nat): Drained
    requires Shape(b)
  {
    var r := Least(max, |b.ready|);
    var k := Least(max - r, Run(b.win));
    Drained(b.(base := b.base + k, win := Shift(b.win, k), ready := b.ready[r..]),
            b.ready[..r] + Occupied(b.win[..k], b.base))
  }

  /** The window position at which a drain limited to `limit` slots and `quota` packets stops. */
  function UpTo(win: Window, limit: nat, quota: nat): (k: nat)
    requires limit <= |win|
    ensures k <= limit
  {
    if quota <= Count(win[..limit]) then
      CountMonotone(win, limit, |win|);
      assert win[..|win|] == win;
      PastWithin(win, limit, quota);
      Past(win, quota)
    else limit
  }

  lemma PastWithin(win: Window, limit: nat, quota: nat)
    requires limit <= |win| && quota <= Count(win[..limit]) <= Count(win)
    ensures Past(win, quota) <= limit
  {
    var k := Past(win, quota);
    if k > limit {
      CountTake(win, k - 1);
      CountMonotone(win, limit, k - 1);
    }
  }

  /** Drain what lies before `seqn`, skipping gaps; `seqn` is not before the window. */
  function DrainUpTo(b: Buffer, max: nat, seqn: Word): Drained
    requires Shape(b)
    requires seqn >= b.base % MOD
  {
    var r := Least(max, |b.ready|);
    var k := UpTo(b.win, Least(seqn - b.base % MOD, b.size), max - r);
    Drained(b.(base := b.base + k, win := Shift(b.win, k), ready := b.ready[r..]),
            b.ready[..r] + Occupied(b.win[..k], b.base))
  }

  function SetMin(b: Buffer, seqn: Word): Buffer {
    if IsEmpty(b) then b.(base := Forward(b.base, seqn), init := true) else b
  }
}
