/** The reorder buffer as the program keeps it: two circular arrays with head and tail indices and a
    32-bit `minSeqn`.  Every method is proved against the value model of `ReorderModel`. */
module ReorderBuffer {
  import opened Options
  import opened PacketTypes
  import opened ReorderModel
  import opened ReorderRuns
  import opened Words

  type Entries = seq<Option<Packet>>

  // ----- circular arrays -----------------------------------------------------------------------

  /** The array index `i` places after `from`. */
  function At(from: nat, i: nat, size: nat): (j: nat)
    requires from < size && i < size
    ensures j < size
  {
    if from + i < size then from + i else from + i - size
  }

  /** How many places lie between `tail` and `head`. */
  function Between(tail: nat, head: nat, size: nat): (d: nat)
    requires tail < size && head < size
    ensures d < size && At(tail, d, size) == head
  {
    if tail <= head then head - tail else head + size - tail
  }

  /** Read from `head` on, the array shows the window. */
  ghost predicate Shows(s: Entries, head: nat, win: Window) {
    head < |s| == |win| && forall i {:trigger win[i]} :: 0 <= i < |win| ==> s[At(head, i, |s|)] == win[i]
  }

  /** From `tail` up to `head` the array holds the queue. */
  ghost predicate Queues(s: Entries, tail: nat, head: nat, q: seq<Numbered>) {
    && tail < |s| && head < |s|
    && |q| == Between(tail, head, |s|)
    && forall i {:trigger q[i]} :: 0 <= i < |q| ==> s[At(tail, i, |s|)] == Some(q[i].pkt)
  }

  /** Clearing the head slot and moving the head on shifts the window by one. */
  lemma AdvanceHead(s: Entries, head: nat, win: Window)
    requires Shows(s, head, win) && PowerOfTwo(|s|)
    ensures Shows(s[head := None], Mask(head + 1, |s|), Shift(win, 1))
  {
    hide Mask, PowerOfTwo, BitAnd, At, Shift;
    var s', head', win' := s[head := None], Mask(head + 1, |s|), Shift(win, 1);
    forall i {:trigger win'[i]} | 0 <= i < |win'|
      ensures s'[At(head', i, |s'|)] == win'[i]
    {
      AtNext(head, i, |s|);
      ShiftOne(win, i);
      if i + 1 < |win| {
        assert s[At(head, i + 1, |s|)] == win[i + 1];
      }
    }
  }

  lemma ShiftOne(win: Window, i: nat)
    requires i < |win|
    ensures Shift(win, 1)[i] == if i + 1 < |win| then win[i + 1] else None
  {
  }

  /** One place on, every index names the next slot; the last one names the slot left behind. */
  lemma AtNext(head: nat, i: nat, size: nat)
    requires head < size && i < size && PowerOfTwo(size)
    ensures i + 1 < size ==> At(Mask(head + 1, size), i, size) == At(head, i + 1, size) != head
    ensures i + 1 == size ==> At(Mask(head + 1, size), i, size) == head
  {
    hide Mask, PowerOfTwo, BitAnd;
  }

  lemma FillSlot(s: Entries, head: nat, win: Window, i: nat, x: Option<Packet>)
    requires Shows(s, head, win) && i < |win|
    ensures Shows(s[At(head, i, |s|) := x], head, win[i := x])
  {
  }

  /** Moving the head past a slot just written appends its packet. */
  lemma PushBack(s: Entries, tail: nat, head: nat, q: seq<Numbered>, e: Numbered)
    requires Queues(s, tail, head, q) && PowerOfTwo(|s|) && Mask(head + 1, |s|) != tail
    requires s[head] == Some(e.pkt)
    ensures Queues(s, tail, Mask(head + 1, |s|), q + [e])
  {
    hide Mask, PowerOfTwo, BitAnd;
    assert At(tail, |q|, |s|) == head;
  }

  /** Writing at the head without moving it leaves the queue as it is. */
  lemma Strand(s: Entries, tail: nat, head: nat, q: seq<Numbered>, x: Option<Packet>)
    requires Queues(s, tail, head, q)
    ensures Queues(s[head := x], tail, head, q)
  {
    forall i {:trigger q[i]} | 0 <= i < |q|
      ensures At(tail, i, |s|) != head
    {
    }
  }

  lemma PopFront(s: Entries, tail: nat, head: nat, q: seq<Numbered>)
    requires Queues(s, tail, head, q) && PowerOfTwo(|s|) && tail != head
    ensures q != [] && s[tail] == Some(q[0].pkt)
    ensures Queues(s[tail := None], Mask(tail + 1, |s|), head, q[1..])
  {
    hide Mask, PowerOfTwo, BitAnd;
    var s', tail', q' := s[tail := None], Mask(tail + 1, |s|), q[1..];
    assert At(tail, 0, |s|) == tail;
    assert |q'| == Between(tail', head, |s|);
    forall i {:trigger q'[i]} | 0 <= i < |q'|
      ensures s'[At(tail', i, |s'|)] == Some(q'[i].pkt)
    {
      assert q'[i] == q[i + 1];
      assert At(tail', i, |s|) == At(tail, i + 1, |s|) != tail;
    }
  }

  lemma ShiftTwice(win: Window, k: nat)
    requires k < |win|
    ensures Shift(Shift(win, k), 1) == Shift(win, k + 1)
  {
  }

  // ----- the overflow walk ---------------------------------------------------------------------

  /** Walking over `k` slots, each occupied one has been queued. */
  ghost predicate Walked(b: Buffer, n: nat, k: nat, q: seq<Numbered>) {
    && Shape(b) && n <= b.size && k <= b.size
    && q == b.ready + Occupied(b.win[..k], b.base)
    && |q| < b.size
    && (forall m :: n <= m < k ==> b.win[m].Some?)
    && (Room(b) == 0 ==> k == 0)
    && (Count(b.win[..k]) == Room(b) && k > 0 ==> b.win[k - 1].Some?)
  }

  /** The walk stopped one slot after the queue had filled up. */
  ghost predicate Overran(b: Buffer, n: nat, k: nat, q: seq<Numbered>) {
    && Shape(b) && n <= b.size && 2 <= k <= b.size
    && Walked(b, n, k - 1, q)
    && Count(b.win[..k - 1]) == Room(b)
    && b.win[k - 1].Some? && b.win[k - 2].Some?
  }

  lemma WalkedIsFilled(b: Buffer, n: nat, k: nat, q: seq<Numbered>)
    requires Walked(b, n, k, q) && 0 < n
    requires k > 0 ==> k == b.size || b.win[k] == None
    requires k >= n || |q| == b.size - 1
    ensures k == FillStop(b.win, Room(b), n)
    ensures Filled(b, n) == b.(base := b.base + k, win := Shift(b.win, k), ready := q)
  {
    hide Occupied, Count, Shift;
    var g, room, c := Gap(b.win, n), Room(b), Count(b.win[..k]);
    assert |q| == |b.ready| + c;
    if room > 0 {
      assert k <= g;
      assert Count(b.win[..g]) <= Count(b.win) by {
        CountMonotone(b.win, g, |b.win|);
        assert b.win[..|b.win|] == b.win;
      }
      if c < room {
        assert k == g;
      } else {
        CountMonotone(b.win, k, g);
        PastUnique(b.win, k, c);
      }
    }
  }

  lemma OverranIsFilled(b: Buffer, n: nat, k: nat, q: seq<Numbered>)
    requires Overran(b, n, k, q) && 0 < n
    ensures k == FillStop(b.win, Room(b), n)
    ensures Filled(b, n) == b.(base := b.base + k, win := Shift(b.win, k), ready := q)
  {
    hide Occupied, Count, Shift;
    var g, room := Gap(b.win, n), Room(b);
    assert k <= g || n > k - 1;
    assert k <= g;
    assert Count(b.win[..g]) <= Count(b.win) by {
      CountMonotone(b.win, g, |b.win|);
      assert b.win[..|b.win|] == b.win;
    }
    CountMonotone(b.win, k - 1, g);
    PastUnique(b.win, k - 1, room);
    OccupiedTake(b.win, b.base, k - 1);
    var moved := Moved(b, n);
    assert moved[..room] == Occupied(b.win[..k - 1], b.base);
    assert Least(Room(b), |moved|) == room;
  }

  lemma WalkOn(b: Buffer, n: nat, k: nat, q: seq<Numbered>)
    requires Walked(b, n, k, q) && k < b.size && |q| < b.size - 1 && b.win[k].Some?
    ensures Walked(b, n, k + 1, q + [Numbered(b.base + k, b.win[k].value)])
  {
    hide Occupied, Count, Shift;
    OccupiedTake(b.win, b.base, k);
    CountTake(b.win, k);
  }

  lemma SkipOn(b: Buffer, n: nat, k: nat, q: seq<Numbered>)
    requires Walked(b, n, k, q) && k < n && |q| < b.size - 1 && b.win[k] == None
    ensures Walked(b, n, k + 1, q)
  {
    hide Occupied, Count, Shift;
    OccupiedTake(b.win, b.base, k);
    CountTake(b.win, k);
  }

  lemma HasShape(b: Buffer)
    requires Inv(b)
    ensures Shape(b)
  {
  }

  lemma StartedWraps(b: Buffer, seqn: Word)
    ensures !b.init ==> Started(b, seqn).base % MOD == seqn
  {
    OffsetNumber(b.base, seqn);
  }

  lemma OffsetMoved(base: nat, seqn: Word, k: nat)
    requires k <= (seqn - base) % MOD
    ensures (seqn - (base + k)) % MOD == (seqn - base) % MOD - k
  {
    var o := (seqn - base) % MOD;
    RemainderUnique(seqn - (base + k), MOD, (seqn - base) / MOD, o - k);
  }

  /** The offset computed from the stored 32-bit minimum is the offset in the window. */
  lemma OffsetWrapped(base: nat, seqn: Word)
    ensures (seqn - base % MOD) % MOD == (seqn - base) % MOD
  {
    var r := (seqn - base % MOD) % MOD;
    assert base == MOD * (base / MOD) + base % MOD;
    RemainderUnique(seqn - base, MOD, (seqn - base % MOD) / MOD - base / MOD, r);
  }

  ghost predicate AtGap(win: Window, k: nat) {
    k == |win| || (k < |win| && win[k] == None)
  }

  lemma WalkStarts(b: Buffer, n: nat)
    requires Shape(b) && n <= b.size
    ensures Walked(b, n, 0, b.ready) && Shift(b.win, 0) == b.win
  {
    assert b.win[..0] == [];
  }

  /** What the indices say during a walk that has come `k` slots far. */
  lemma Facts(o: Entries, orderHead: nat, b: Buffer, k: nat, r: Entries, tail: nat, head: nat, q: seq<Numbered>)
    requires k <= |b.win| && |o| == |r| == |b.win| && PowerOfTwo(|r|)
    requires Shows(o, orderHead, Shift(b.win, k)) && Queues(r, tail, head, q)
    ensures orderHead < |o| && o[orderHead] == if k < |b.win| then b.win[k] else None
    ensures k < |b.win| ==> Shift(b.win, k)[0] == b.win[k] && Shift(Shift(b.win, k), 1) == Shift(b.win, k + 1)
    ensures |q| < |r| && tail < |r| && head < |r| && (Mask(head + 1, |r|) == tail <==> |q| == |r| - 1)
  {
    hide BitAnd, PowerOfTwo, Mask;
    assert Shift(b.win, k)[0] == o[At(orderHead, 0, |o|)];
    if k < |b.win| { ShiftTwice(b.win, k); }
  }

  /** Where a walk stops is where the overflow of the value model stops. */
  lemma Settle(b: Buffer, n: nat, k: nat, q: seq<Numbered>, over: bool, minSeqn: Word)
    requires Inv(b) && b.init && 0 < n <= b.size && b.base % MOD == minSeqn
    requires over ==> Overran(b, n, k, q)
    requires !over ==> Walked(b, n, k, q) && (k > 0 ==> AtGap(b.win, k)) && (k >= n || |q| == b.size - 1)
    ensures k == FillStop(b.win, Room(b), n)
    ensures var f := Filled(b, n);
      && f.win == Shift(b.win, k) && f.ready == q && f.size == b.size && f.init
      && Inv(f) && f.base % MOD == (minSeqn + k) % MOD
  {
    assert Shape(b);
    hide FillStop, Inv, Shift, Filled, Overran;
    if over {
      OverranIsFilled(b, n, k, q);
    } else {
      WalkedIsFilled(b, n, k, q);
    }
    FilledKeepsInv(b, n);
    AddWrapped(b.base, k);
  }

  // ----- the buffer ----------------------------------------------------------------------------

  /** The return value of an insertion: 0, or -1 with one of two error numbers. */
  datatype Status = Accepted | ENOSPC | ERANGE

  function StatusOf(o: Outcome): Status {
    match o
    case Stored(_) => Accepted
    case NoSpace => ENOSPC
    case OutOfRange => ERANGE
  }

  /** The packets of a numbered sequence. */
  function Packets(s: seq<Numbered>): (ps: seq<Packet>)
    ensures |ps| == |s| && forall i :: 0 <= i < |s| ==> ps[i] == s[i].pkt
  {
    seq(|s|, i requires 0 <= i < |s| => s[i].pkt)
  }

  lemma TakeOne(b: Buffer, k: nat, p: Packet)
    requires k < |b.win| && b.win[k] == Some(p)
    ensures Packets(Occupied(b.win[..k + 1], b.base)) == Packets(Occupied(b.win[..k], b.base)) + [p]
  {
    OccupiedTake(b.win, b.base, k);
  }

  /** Without gaps every slot yields a packet. */
  lemma {:induction false} RunCount(win: Window, base: nat, k: nat)
    requires k <= Run(win)
    ensures |Occupied(win[..k], base)| == k
  {
    if k > 0 {
      RunCount(win, base, k - 1);
      OccupiedTake(win, base, k - 1);
    }
  }

  lemma DrainedParts(b: Buffer, max: nat, r: nat, k: nat)
    requires Shape(b) && r == Least(max, |b.ready|) && k == Least(max - r, Run(b.win))
    ensures var d := ReorderModel.Drain(b, max);
      && d.buf == b.(base := b.base + k, win := Shift(b.win, k), ready := b.ready[r..])
      && |d.out| == r + k
      && Packets(d.out) == Packets(b.ready[..r]) + Packets(Occupied(b.win[..k], b.base))
  {
    RunCount(b.win, b.base, k);
  }

  /** The window after its first `k` slots have been emptied in place. */
  function Cleared(win: Window, k: nat): (w: Window)
    requires k <= |win|
    ensures |w| == |win|
  {
    Empty(k) + win[k..]
  }

  lemma CollectStarts(win: Window)
    ensures Cleared(win, 0) == win && Count(win[..0]) == 0 && forall base :: Occupied(win[..0], base) == []
  {
  }

  lemma ClearSlot(o: Entries, head: nat, win: Window, i: nat)
    requires i < |win| && Shows(o, head, Cleared(win, i)) && PowerOfTwo(|o|)
    ensures var p := Mask(head + i, |o|);
      && o[p] == win[i]
      && Shows(o[p := None], head, Cleared(win, i + 1))
      && (win[i] == None ==> o[p := None] == o)
  {
    hide Cleared;
    var w, p := Cleared(win, i), At(head, i, |o|);
    MaskIsAt(head, i, |o|);
    hide Mask, PowerOfTwo, BitAnd, At;
    ClearedNext(win, i);
    assert o[p] == w[i];
    hide Shows;
    FillSlot(o, head, w, i, None);
    ClearNothing(o, p);
  }

  lemma MaskIsAt(head: nat, i: nat, size: nat)
    requires head < size && i < size && PowerOfTwo(size)
    ensures Mask(head + i, size) == At(head, i, size)
  {
  }

  lemma ClearNothing(o: Entries, p: nat)
    requires p < |o|
    ensures o[p] == None ==> o[p := None] == o
  {
  }

  lemma ClearedNext(win: Window, i: nat)
    requires i < |win|
    ensures Cleared(win, i)[i] == win[i] && Cleared(win, i + 1) == Cleared(win, i)[i := None]
  {
  }

  lemma CollectOne(b: Buffer, i: nat)
    requires i < |b.win|
    ensures Count(b.win[..i + 1]) == Count(b.win[..i]) + if b.win[i].Some? then 1 else 0
    ensures Packets(Occupied(b.win[..i + 1], b.base))
         == Packets(Occupied(b.win[..i], b.base)) + if b.win[i].Some? then [b.win[i].value] else []
  {
    hide Occupied, Count;
    CountTake(b.win, i);
    OccupiedTake(b.win, b.base, i);
  }

  lemma CollectStops(win: Window, limit: nat, quota: nat, i: nat)
    requires i <= limit <= |win| && Count(win[..i]) <= quota
    requires i == limit || Count(win[..i]) == quota
    requires Count(win[..i]) == quota && i > 0 ==> win[i - 1].Some?
    ensures i == UpTo(win, limit, quota)
  {
    hide Count;
    CountMonotone(win, i, limit);
    CountMonotone(win, limit, |win|);
    assert win[..|win|] == win;
    if Count(win[..i]) == quota {
      PastUnique(win, i, quota);
    }
  }

  /** Moving the head past slots emptied in place shifts the window. */
  lemma MoveHead(o: Entries, head: nat, win: Window, k: nat)
    requires k <= |win| && Shows(o, head, Cleared(win, k)) && PowerOfTwo(|o|)
    ensures Shows(o, Mask(head + k, |o|), Shift(win, k))
  {
    assert |o| == |Cleared(win, k)| == |win|;
    hide Mask, PowerOfTwo, BitAnd, Cleared, Shift, At, Shows;
    forall i | 0 <= i < |win|
      ensures o[At(Mask(head + k, |o|), i, |o|)] == Shift(win, k)[i]
    {
      MovedSlot(o, head, win, k, i);
    }
    ShowsAll(o, Mask(head + k, |o|), Shift(win, k));
  }

  lemma ShowsAll(o: Entries, head: nat, win: Window)
    requires head < |o| == |win| && forall i :: 0 <= i < |win| ==> o[At(head, i, |o|)] == win[i]
    ensures Shows(o, head, win)
  {
  }

  lemma MovedSlot(o: Entries, head: nat, win: Window, k: nat, i: nat)
    requires k <= |win| && Shows(o, head, Cleared(win, k)) && PowerOfTwo(|o|) && i < |win|
    ensures |o| == |win| && o[At(Mask(head + k, |o|), i, |o|)] == Shift(win, k)[i]
  {
    var w := Cleared(win, k);
    var j := AtSum(head, k, i, |win|);
    ClearedThenShifted(win, k, i);
    hide Mask, PowerOfTwo, BitAnd, Cleared, Shift, At;
    assert o[At(head, j, |o|)] == w[j];
  }

  lemma ClearedThenShifted(win: Window, k: nat, i: nat)
    requires k <= |win| && i < |win|
    ensures Shift(win, k)[i] == Cleared(win, k)[if i + k < |win| then i + k else i + k - |win|]
  {
  }

  lemma AtSum(head: nat, k: nat, i: nat, size: nat) returns (j: nat)
    requires head < size && k <= size && i < size && PowerOfTwo(size)
    ensures j == if i + k < size then i + k else i + k - size
    ensures At(Mask(head + k, size), i, size) == At(head, j, size)
  {
    hide Mask, PowerOfTwo, BitAnd;
    j := if i + k < size then i + k else i + k - size;
  }

  lemma DrainUpToKeepsInv(b: Buffer, max: nat, seqn: Word)
    requires Inv(b) && seqn >= b.base % MOD
    ensures Inv(ReorderModel.DrainUpTo(b, max, seqn).buf)
  {
    ApplyKeepsInv(b, OpDrainUpTo(max, seqn));
  }

  lemma DrainedUpToParts(b: Buffer, max: nat, seqn: Word, r: nat, k: nat)
    requires Shape(b) && seqn >= b.base % MOD && r == Least(max, |b.ready|)
    requires k == UpTo(b.win, Least(seqn - b.base % MOD, b.size), max - r)
    ensures var d := ReorderModel.DrainUpTo(b, max, seqn);
      && d.buf == b.(base := b.base + k, win := Shift(b.win, k), ready := b.ready[r..])
      && |d.out| == r + Count(b.win[..k])
      && Packets(d.out) == Packets(b.ready[..r]) + Packets(Occupied(b.win[..k], b.base))
  {
  }

  lemma WindowSlot(o: Entries, head: nat, win: Window, j: nat)
    requires Shows(o, head, win) && j < |o| && o[j] != None
    ensures exists i :: 0 <= i < |win| && win[i] != None
  {
    var i := Between(head, j, |o|);
    assert win[i] != None;
  }

  class ReorderBuffer {
    const size: nat
    const readyEntries: array<Option<Packet>>
    const orderEntries: array<Option<Packet>>
    var readyHead: nat
    var readyTail: nat
    var orderHead: nat
    var minSeqn: Word
    var isInitialized: bool

    ghost var model: Buffer

    ghost predicate Valid()
      reads this, readyEntries, orderEntries
    {
      && Rings(model.win, model.ready)
      && Inv(model)
      && model.size == size
      && model.base % MOD == minSeqn
      && model.init == isInitialized
    }

    ghost predicate Rings(win: Window, ready: seq<Numbered>)
      reads this`readyHead, this`readyTail, this`orderHead, readyEntries, orderEntries
    {
      && PowerOfTwo(size) && size < MOD
      && readyEntries != orderEntries
      && readyEntries.Length == orderEntries.Length == size
      && readyHead < size && readyTail < size && orderHead < size
      && Contents(win, ready)
    }

    ghost predicate Contents(win: Window, ready: seq<Numbered>)
      reads this`readyHead, this`readyTail, this`orderHead, readyEntries, orderEntries
    {
      && Shows(orderEntries[..], orderHead, win)
      && Queues(readyEntries[..], readyTail, readyHead, ready)
    }

    /** An empty buffer, zeroed. */
    constructor (size: nat)
      requires PowerOfTwo(size) && size < MOD
      ensures Valid() && fresh(readyEntries) && fresh(orderEntries)
      ensures model == Buffer(size, 0, Empty(size), [], false)
    {
      this.size := size;
      readyEntries := new Option<Packet>[size](_ => None);
      orderEntries := new Option<Packet>[size](_ => None);
      readyHead, readyTail, orderHead := 0, 0, 0;
      minSeqn, isInitialized := 0, false;
      model := Buffer(size, 0, Empty(size), [], false);
    }

    /** What the indices say when the head has moved `k` slots into the window of `b`. */
    lemma RingFacts(b: Buffer, k: nat, q: seq<Numbered>)
      requires k <= |b.win| && Rings(Shift(b.win, k), q)
      ensures |b.win| == size && |q| < size
      ensures orderEntries[orderHead] == if k < size then b.win[k] else None
      ensures k < size ==> Shift(b.win, k)[0] == b.win[k] && Shift(Shift(b.win, k), 1) == Shift(b.win, k + 1)
      ensures Mask(readyHead + 1, size) == readyTail <==> |q| == size - 1
    {
      assert |b.win| == size;
      hide Shift, Shows, Queues, BitAnd, PowerOfTwo, Mask;
      Facts(orderEntries[..], orderHead, b, k, readyEntries[..], readyTail, readyHead, q);
    }

    /** Move the head of the window past a gap. */
    method Skip(ghost win: Window, ghost ready: seq<Numbered>)
      requires Rings(win, ready) && win[0] == None
      modifies this`orderHead
      ensures Rings(Shift(win, 1), ready)
    {
      hide Shift;
      assert orderEntries[..][At(orderHead, 0, size)] == win[0];
      AdvanceHead(orderEntries[..], orderHead, win);
      assert orderEntries[..][orderHead := None] == orderEntries[..];
      orderHead := Mask(orderHead + 1, size);
    }

    /** Move the packet at the head of the window to the slot behind the ready packets. */
    method Transfer(ghost win: Window, ghost ready: seq<Numbered>)
      requires Rings(win, ready) && win[0].Some?
      modifies this`orderHead, readyEntries, orderEntries
      ensures Rings(Shift(win, 1), ready)
      ensures readyEntries[readyHead] == win[0]
    {
      hide Shift;
      ghost var o, r := orderEntries[..], readyEntries[..];
      assert o[At(orderHead, 0, size)] == win[0];
      AdvanceHead(o, orderHead, win);
      Strand(r, readyTail, readyHead, ready, win[0]);
      readyEntries[readyHead] := orderEntries[orderHead];
      orderEntries[orderHead] := None;
      assert orderEntries[..] == o[orderHead := None] && readyEntries[..] == r[readyHead := win[0]];
      orderHead := Mask(orderHead + 1, size);
    }

    /** Let the ready packets include the one just written behind them. */
    method Push(ghost win: Window, ghost ready: seq<Numbered>, ghost e: Numbered)
      requires Rings(win, ready)
      requires Mask(readyHead + 1, size) != readyTail && readyEntries[readyHead] == Some(e.pkt)
      modifies this`readyHead
      ensures Rings(win, ready + [e])
    {
      PushBack(readyEntries[..], readyTail, readyHead, ready, e);
      readyHead := Mask(readyHead + 1, size);
    }

    /** Move every packet up to the next gap, until the ready ring is full. */
    method MoveRun(n: nat, ghost b: Buffer, k: nat, ghost q0: seq<Numbered>)
        returns (advanced: nat, ghost q: seq<Numbered>, ghost over: bool)
      requires Shape(b) && 0 < n <= b.size == size
      requires k <= size && Rings(Shift(b.win, k), q0) && Walked(b, n, k, q0) && |q0| < size - 1
      modifies this`orderHead, this`readyHead, readyEntries, orderEntries
      ensures k <= advanced <= size && Rings(Shift(b.win, advanced), q)
      ensures k < size && b.win[k].Some? ==> k < advanced
      ensures over ==> Overran(b, n, advanced, q) && |q| == size - 1
      ensures !over ==> Walked(b, n, advanced, q) && AtGap(b.win, advanced)
    {
      hide Contents, Shift, Occupied, Count, BitAnd, PowerOfTwo, Mask;
      advanced, q, over := k, q0, false;
      RingFacts(b, advanced, q);
      while orderEntries[orderHead] != None
        invariant k <= advanced <= size && Rings(Shift(b.win, advanced), q)
        invariant Walked(b, n, advanced, q) && !over
        invariant |q| == size - 1 ==> k < advanced && b.win[advanced - 1].Some?
        invariant k == advanced ==> q == q0
        invariant orderEntries[orderHead] == if advanced < size then b.win[advanced] else None
        decreases size - advanced
      {
        RingFacts(b, advanced, q);
        ghost var e := Numbered(b.base + advanced, b.win[advanced].value);
        Transfer(Shift(b.win, advanced), q);
        advanced := advanced + 1;
        if Mask(readyHead + 1, size) == readyTail {
          over := true;
          break;
        }
        Push(Shift(b.win, advanced), q, e);
        WalkOn(b, n, advanced - 1, q);
        q := q + [e];
        RingFacts(b, advanced, q);
      }
    }

    /** Move the head until it is `n` slots on or the ready ring is full. */
    method Walk(n: nat, ghost b: Buffer) returns (advanced: nat, ghost q: seq<Numbered>, ghost over: bool)
      requires Shape(b) && 0 < n <= b.size == size && Rings(b.win, b.ready)
      modifies this`orderHead, this`readyHead, readyEntries, orderEntries
      ensures advanced <= size && Rings(Shift(b.win, advanced), q)
      ensures over ==> Overran(b, n, advanced, q)
      ensures !over ==> Walked(b, n, advanced, q) && (advanced > 0 ==> AtGap(b.win, advanced))
      ensures !over ==> advanced >= n || |q| == size - 1
    {
      hide Contents, Shift, Occupied, Count, BitAnd, PowerOfTwo, Walked, Overran, AtGap;
      advanced, q, over := 0, b.ready, false;
      WalkStarts(b, n);
      while advanced < n && Mask(readyHead + 1, size) != readyTail
        invariant advanced <= size && Rings(Shift(b.win, advanced), q)
        invariant over ==> Overran(b, n, advanced, q) && |q| == size - 1
        invariant !over ==> Walked(b, n, advanced, q) && (advanced > 0 ==> AtGap(b.win, advanced))
        decreases size - advanced
      {
        RingFacts(b, advanced, q);
        if orderEntries[orderHead] == None {
          Skip(Shift(b.win, advanced), q);
          SkipOn(b, n, advanced, q);
          advanced := advanced + 1;
        }
        advanced, q, over := MoveRun(n, b, advanced, q);
      }
      RingFacts(b, advanced, q);
    }

    /** Move at least `n` slots on, queueing the packets passed over, until the ready ring is full. */
    method FillOverflow(n: nat) returns (advanced: nat)
      requires Valid() && isInitialized && 0 < n <= size
      modifies this, readyEntries, orderEntries
      ensures Valid() && isInitialized
      ensures model == Filled(old(model), n)
      ensures advanced == FillStop(old(model).win, Room(old(model)), n)
    {
      hide Inv, Filled, FillStop, Shift, Contents, Walked, Overran, AtGap, Room, PowerOfTwo;
      HasShape(model);
      WalkStarts(model, n);
      RingFacts(model, 0, model.ready);
      ghost var q, over;
      advanced, q, over := Walk(n, model);
      Settle(model, n, advanced, q, over, minSeqn);
      minSeqn := (minSeqn + advanced) % MOD;
      model := Filled(model, n);
    }

    /** Store a packet in the slot of its number, moving the window if the number is just beyond it. */
    method Insert(p: Packet) returns (status: Status)
      requires Valid()
      modifies this, readyEntries, orderEntries
      ensures Valid()
      ensures model == ReorderModel.Insert(old(model), p).buf
      ensures status == StatusOf(ReorderModel.Insert(old(model), p).outcome)
    {
      StartedKeepsInv(model, p.seqn);
      StartedWraps(model, p.seqn);
      hide Inv;
      if !isInitialized {
        minSeqn := p.seqn;
        isInitialized := true;
        model := Started(model, p.seqn);
      }
      status := InsertInitialized(p);
    }

    method InsertInitialized(p: Packet) returns (status: Status)
      requires Valid() && isInitialized
      modifies this, readyEntries, orderEntries
      ensures Valid()
      ensures model == InsertStarted(old(model), p).buf
      ensures status == StatusOf(InsertStarted(old(model), p).outcome)
    {
      hide Inv, FillStop, Contents, Shift, Room, Moved, Stranded, PowerOfTwo;
      HasShape(model);
      ghost var b := model;
      var offset: Word := (p.seqn - minSeqn) % MOD;
      OffsetWrapped(b.base, p.seqn);
      if offset < size {
        Place(offset, p);
        status := Accepted;
      } else if offset < (2 * size) % MOD {
        var n := offset + 1 - size;
        var advanced := FillOverflow(n);
        if advanced < n {
          return ENOSPC;
        }
        OffsetMoved(b.base, p.seqn, advanced);
        OffsetWrapped(model.base, p.seqn);
        offset := (p.seqn - minSeqn) % MOD;
        Place(offset, p);
        status := Accepted;
      } else {
        status := ERANGE;
      }
    }

    method Place(offset: nat, p: Packet)
      requires Valid() && isInitialized && offset < size && offset == Offset(model, p.seqn)
      modifies this`model, orderEntries
      ensures Valid() && model == old(model).(win := old(model).win[offset := Some(p)])
    {
      HasShape(model);
      OffsetNumber(model.base, p.seqn);
      PlaceKeepsInv(model, offset, p);
      hide Inv;
      FillSlot(orderEntries[..], orderHead, model.win, offset, Some(p));
      ghost var o := orderEntries[..];
      var position := Mask(orderHead + offset, size);
      orderEntries[position] := Some(p);
      assert orderEntries[..] == o[At(orderHead, offset, size) := Some(p)];
      model := model.(win := model.win[offset := Some(p)]);
    }

    // ----- draining ----------------------------------------------------------------------------

    /** Take the first ready packet. */
    method PopReady(ghost win: Window, ghost ready: seq<Numbered>) returns (p: Packet)
      requires Rings(win, ready) && readyTail != readyHead
      modifies this`readyTail, readyEntries
      ensures ready != [] && p == ready[0].pkt && Rings(win, ready[1..])
    {
      PopFront(readyEntries[..], readyTail, readyHead, ready);
      ghost var r := readyEntries[..];
      p := readyEntries[readyTail].value;
      readyEntries[readyTail] := None;
      assert readyEntries[..] == r[readyTail := None];
      readyTail := Mask(readyTail + 1, size);
    }

    /** Take the packet at the head of the window. */
    method TakeHead(ghost win: Window, ghost ready: seq<Numbered>) returns (p: Packet)
      requires Rings(win, ready) && orderEntries[orderHead] != None
      modifies this`orderHead, orderEntries
      ensures win[0] == Some(p) && Rings(Shift(win, 1), ready)
    {
      hide Shift;
      ghost var o := orderEntries[..];
      assert o[At(orderHead, 0, size)] == win[0];
      AdvanceHead(o, orderHead, win);
      p := orderEntries[orderHead].value;
      orderEntries[orderHead] := None;
      assert orderEntries[..] == o[orderHead := None];
      orderHead := Mask(orderHead + 1, size);
    }

    lemma ReadyFacts(win: Window, ready: seq<Numbered>)
      requires Rings(win, ready)
      ensures |win| == size && (readyTail == readyHead <==> ready == [])
    {
    }

    /** Drain ready packets into `mbufs`, at most `max`. */
    method DrainReady(mbufs: array<Packet>, max: nat, ghost win: Window, ghost ready: seq<Numbered>)
        returns (count: nat)
      requires max <= mbufs.Length && Rings(win, ready)
      modifies this`readyTail, readyEntries, mbufs
      ensures count == Least(max, |ready|) && Rings(win, ready[count..])
      ensures mbufs[..count] == Packets(ready[..count])
      ensures forall i :: count <= i < mbufs.Length ==> mbufs[i] == old(mbufs[i])
    {
      hide Contents, PowerOfTwo;
      count := 0;
      assert ready[0..] == ready;
      ReadyFacts(win, ready);
      while count < max && readyTail != readyHead
        invariant count <= max && count <= |ready| && Rings(win, ready[count..])
        invariant mbufs[..count] == Packets(ready[..count])
        invariant forall i :: count <= i < mbufs.Length ==> mbufs[i] == old(mbufs[i])
        decreases max - count
      {
        var p := PopReady(win, ready[count..]);
        assert ready[count..][1..] == ready[count + 1..] && ready[..count + 1] == ready[..count] + [ready[count]];
        mbufs[count] := p;
        count := count + 1;
      }
      ReadyFacts(win, ready[count..]);
    }

    /** Drain the packets at the head of the window, up to the first gap, behind the first `from`. */
    method DrainHead(mbufs: array<Packet>, from: nat, max: nat, ghost b: Buffer, ghost ready: seq<Numbered>)
        returns (count: nat)
      requires from <= max <= mbufs.Length && Shape(b) && Rings(b.win, ready) && minSeqn == b.base % MOD
      modifies this`orderHead, this`minSeqn, orderEntries, mbufs
      ensures from <= count && count - from == Least(max - from, Run(b.win))
      ensures var k := count - from;
        && Rings(Shift(b.win, k), ready)
        && minSeqn == (b.base + k) % MOD
        && mbufs[..count] == old(mbufs[..from]) + Packets(Occupied(b.win[..k], b.base))
      ensures forall i :: count <= i < mbufs.Length ==> mbufs[i] == old(mbufs[i])
    {
      hide Contents, Shift, Occupied, Count, PowerOfTwo, Mask, Packets;
      assert Packets([]) == [];
      ghost var k := 0;
      count := from;
      WalkStarts(b, 0);
      RingFacts(b, 0, ready);
      while count < max && orderEntries[orderHead] != None
        invariant count == from + k <= max && k <= size
        invariant Rings(Shift(b.win, k), ready) && minSeqn == (b.base + k) % MOD
        invariant forall i :: 0 <= i < k ==> b.win[i].Some?
        invariant orderEntries[orderHead] == if k < size then b.win[k] else None
        invariant mbufs[..count] == old(mbufs[..from]) + Packets(Occupied(b.win[..k], b.base))
        invariant forall i :: count <= i < mbufs.Length ==> mbufs[i] == old(mbufs[i])
        decreases max - count
      {
        TakeNext(mbufs, count, b, k, ready);
        TakeOne(b, k, b.win[k].value);
        count := count + 1;
        k := k + 1;
        RingFacts(b, k, ready);
      }
    }

    /** Take the packet at the head of the window and store it at `count`. */
    method TakeNext(mbufs: array<Packet>, count: nat, ghost b: Buffer, ghost k: nat, ghost ready: seq<Numbered>)
      requires count < mbufs.Length && Shape(b) && k < size == b.size && b.win[k].Some?
      requires Rings(Shift(b.win, k), ready) && minSeqn == (b.base + k) % MOD
      modifies this`orderHead, this`minSeqn, orderEntries, mbufs
      ensures Rings(Shift(b.win, k + 1), ready) && minSeqn == (b.base + k + 1) % MOD
      ensures mbufs[..count + 1] == old(mbufs[..count]) + [b.win[k].value]
      ensures forall i :: count < i < mbufs.Length ==> mbufs[i] == old(mbufs[i])
    {
      hide Contents, Shift, Mask, PowerOfTwo;
      RingFacts(b, k, ready);
      var p := TakeHead(Shift(b.win, k), ready);
      ghost var drained := mbufs[..count];
      mbufs[count] := p;
      assert mbufs[..count + 1] == drained + [p];
      AddWrapped(b.base + k, 1);
      minSeqn := (minSeqn + 1) % MOD;
    }

    /** Drain up to `max` packets in order: the ready ones, then the head of the window. */
    method Drain(mbufs: array<Packet>, max: nat) returns (count: nat)
      requires Valid() && max <= mbufs.Length
      modifies this, readyEntries, orderEntries, mbufs
      ensures Valid() && model == ReorderModel.Drain(old(model), max).buf
      ensures count == |ReorderModel.Drain(old(model), max).out| <= max
      ensures mbufs[..count] == Packets(ReorderModel.Drain(old(model), max).out)
      ensures forall i :: count <= i < mbufs.Length ==> mbufs[i] == old(mbufs[i])
    {
      hide Inv, Contents, Shift, Occupied, Count, Run, PowerOfTwo, Mask, ReorderModel.Drain, Packets, Least;
      ghost var b := model;
      HasShape(b);
      DrainKeepsInv(b, max);
      var r := DrainReady(mbufs, max, b.win, b.ready);
      count := DrainHead(mbufs, r, max, b, b.ready[r..]);
      DrainedParts(b, max, r, count - r);
      model := ReorderModel.Drain(b, max).buf;
    }

    /** Collect the packets of the first `limit` slots, skipping gaps, behind the first `from`. */
    method CollectSlots(mbufs: array<Packet>, from: nat, max: nat, limit: nat, ghost b: Buffer,
                        ghost ready: seq<Numbered>)
        returns (i: nat, count: nat)
      requires from <= max <= mbufs.Length && Shape(b) && Rings(b.win, ready) && limit <= size == b.size
      modifies orderEntries, mbufs
      ensures i == UpTo(b.win, limit, max - from) && count == from + Count(b.win[..i]) <= max
      ensures Rings(Cleared(b.win, i), ready)
      ensures mbufs[..count] == old(mbufs[..from]) + Packets(Occupied(b.win[..i], b.base))
      ensures forall j :: count <= j < mbufs.Length ==> mbufs[j] == old(mbufs[j])
    {
      hide Occupied, Count, PowerOfTwo, Packets, Shows, Queues, Cleared, UpTo;
      i, count := 0, from;
      CollectStarts(b.win);
      while i < limit && count < max
        invariant i <= limit && count == from + Count(b.win[..i]) <= max
        invariant Rings(Cleared(b.win, i), ready)
        invariant count == max && i > 0 ==> b.win[i - 1].Some?
        invariant mbufs[..count] == old(mbufs[..from]) + Packets(Occupied(b.win[..i], b.base))
        invariant forall j :: count <= j < mbufs.Length ==> mbufs[j] == old(mbufs[j])
        decreases limit - i
      {
        var position := Mask(orderHead + i, size);
        ClearSlot(orderEntries[..], orderHead, b.win, i);
        CollectOne(b, i);
        if orderEntries[position] != None {
          ghost var drained, o := mbufs[..count], orderEntries[..];
          mbufs[count] := orderEntries[position].value;
          count := count + 1;
          assert mbufs[..count] == drained + [b.win[i].value];
          orderEntries[position] := None;
          assert orderEntries[..] == o[position := None];
        }
        i := i + 1;
      }
      CollectStops(b.win, limit, max - from, i);
    }

    /** Move the window past its first `i` slots, which have been emptied. */
    method MoveWindow(i: nat, ghost b: Buffer, ghost ready: seq<Numbered>)
      requires i <= |b.win| && Rings(Cleared(b.win, i), ready) && minSeqn == b.base % MOD
      modifies this`orderHead, this`minSeqn
      ensures Rings(Shift(b.win, i), ready) && minSeqn == (b.base + i) % MOD
    {
      hide Shift, Cleared, PowerOfTwo;
      MoveHead(orderEntries[..], orderHead, b.win, i);
      AddWrapped(b.base, i);
      minSeqn := (minSeqn + i) % MOD;
      orderHead := Mask(orderHead + i, size);
    }

    /** Drain up to `max` packets numbered before `seqn`, which is not before the window. */
    method DrainUpTo(mbufs: array<Packet>, max: nat, seqn: Word) returns (count: nat)
      requires Valid() && max <= mbufs.Length && seqn >= minSeqn
      modifies this, readyEntries, orderEntries, mbufs
      ensures Valid() && model == ReorderModel.DrainUpTo(old(model), max, seqn).buf
      ensures count == |ReorderModel.DrainUpTo(old(model), max, seqn).out| <= max
      ensures mbufs[..count] == Packets(ReorderModel.DrainUpTo(old(model), max, seqn).out)
      ensures forall i :: count <= i < mbufs.Length ==> mbufs[i] == old(mbufs[i])
    {
      hide Inv, Least, Occupied, Count, UpTo, PowerOfTwo, ReorderModel.DrainUpTo, Packets, Contents, Cleared, Shift;
      ghost var b := model;
      HasShape(b);
      DrainUpToKeepsInv(b, max, seqn);
      var r := DrainReady(mbufs, max, b.win, b.ready);
      var limit := Least(seqn - minSeqn, size);
      var i;
      i, count := CollectSlots(mbufs, r, max, limit, b, b.ready[r..]);
      MoveWindow(i, b, b.ready[r..]);
      DrainedUpToParts(b, max, seqn, r, i);
      model := ReorderModel.DrainUpTo(b, max, seqn).buf;
    }

    /** Whether neither array holds a packet; only the window may have gaps. */
    method IsEmpty() returns (empty: bool)
      requires Valid()
      ensures empty <==> ReorderModel.IsEmpty(model)
    {
      ReadyFacts(model.win, model.ready);
      if readyTail != readyHead {
        return false;
      }
      var i := 0;
      while i < size
        invariant i <= size
        invariant forall j :: 0 <= j < i ==> orderEntries[j] == None
      {
        if orderEntries[i] != None {
          WindowSlot(orderEntries[..], orderHead, model.win, i);
          return false;
        }
        i := i + 1;
      }
      return true;
    }

    /** Set the least sequence number of an empty buffer. */
    method SetMinSeqn(seqn: Word) returns (done: bool)
      requires Valid()
      modifies this
      ensures Valid() && model == SetMin(old(model), seqn)
      ensures done <==> ReorderModel.IsEmpty(old(model))
    {
      ApplyKeepsInv(model, OpSetMin(seqn));
      OffsetNumber(model.base, seqn);
      done := IsEmpty();
      hide Inv, Contents;
      if done {
        minSeqn := seqn;
        isInitialized := true;
        model := SetMin(model, seqn);
      }
    }
  }
}
