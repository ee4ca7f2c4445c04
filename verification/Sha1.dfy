/** The streaming SHA-1 of the program, proved against FIPS 180-4. */
module Sha1 {
  import opened Fips180
  import Arith = Words

  // ----- the round macros ------------------------------------------------------------------------

  // The rotation macro at the two amounts that section 4 of FIPS 180-4 does not use; at 1, 5 and 30
  // it is that section's rotation.

  function Rol8(value: Word): Word { (value << 8) | (value >> 24) }

  function Rol24(value: Word): Word { (value << 24) | (value >> 8) }

  /** How a little-endian machine loads four bytes. */
  function LoadWord(b0: Byte, b1: Byte, b2: Byte, b3: Byte): Word {
    Join(b3 as Word, b2 as Word, b1 as Word, b0 as Word)
  }

  /** The byte swap of `blk0`. */
  function Swap(l: Word): Word {
    (Rol24(l) & 0xFF00FF00) | (Rol8(l) & 0x00FF00FF)
  }

  /** Loading little-endian and swapping reads the bytes most significant first. */
  lemma SwapLoads(b0: Byte, b1: Byte, b2: Byte, b3: Byte)
    ensures Swap(LoadWord(b0, b1, b2, b3)) == BytesWord(b0, b1, b2, b3)
  {
    hide Swap, Join, Small;
    SmallByte(b0);
    SmallByte(b1);
    SmallByte(b2);
    SmallByte(b3);
    SwapReverses(b0 as Word, b1 as Word, b2 as Word, b3 as Word);
  }

  predicate Small(x: Word) {
    x <= 0xFF
  }

  lemma SmallByte(b: Byte)
    ensures Small(b as Word)
  {
  }

  lemma SwapReverses(x0: Word, x1: Word, x2: Word, x3: Word)
    requires Small(x0) && Small(x1) && Small(x2) && Small(x3)
    ensures Swap(Join(x3, x2, x1, x0)) == Join(x0, x1, x2, x3)
  {
  }

  /** The rewritten forms of the round functions. */
  function Mix(t: nat, w: Word, x: Word, y: Word): Word {
    if t < 20 then (w & (x ^ y)) ^ y
    else if t < 40 then w ^ x ^ y
    else if t < 60 then ((w | x) & y) | (w & x)
    else w ^ x ^ y
  }

  lemma MixIsF(t: nat, w: Word, x: Word, y: Word)
    ensures Mix(t, w, x, y) == F(t, w, x, y)
  {
    ChRewritten(w, x, y);
    MajRewritten(w, x, y);
  }

  lemma ChRewritten(w: Word, x: Word, y: Word)
    ensures (w & (x ^ y)) ^ y == Ch(w, x, y)
  {
  }

  lemma MajRewritten(w: Word, x: Word, y: Word)
    ensures ((w | x) & y) | (w & x) == Maj(w, x, y)
  {
  }

  /** What a round macro adds to its last argument. */
  function Accumulate(z: Word, f: Word, w: Word, k: Word, r: Word): Word { z + (f + w + k + r) }

  lemma SumReordered(z: Word, f: Word, w: Word, k: Word, r: Word)
    ensures Accumulate(z, f, w, k, r) == Sum(r, f, z, k, w)
  {
  }

  // ----- the in-place schedule -------------------------------------------------------------------

  /** After `t` rounds the sixteen words hold what later rounds need of the schedule of `m`: the words
      not used yet as they were loaded, and the last sixteen words of the schedule. */
  ghost predicate Scheduled(l: seq<Word>, m: seq<Word>, t: nat) {
    && |l| == |m| == 16
    && (forall i :: t <= i < 16 ==> Swap(l[i]) == m[i])
    && (forall i :: 0 <= i < t && t <= i + 16 ==> l[i % 16] == W(m, i))
  }

  /** Working variables rotate their roles instead of moving: one round changes two of them. */
  method R(l: array<Word>, ghost m: seq<Word>, t: nat, v: Word, w: Word, x: Word, y: Word, z: Word)
      returns (w': Word, z': Word)
    requires l.Length == 16 == |m| && Scheduled(l[..], m, t)
    modifies l
    ensures Scheduled(l[..], m, t + 1)
    ensures Round(Regs(v, w, x, y, z), t, W(m, t)) == Regs(z', v, w', x, y)
  {
    hide F, Ch, Maj, Parity, Mix, Rotl1, Rotl5, Rotl30, Swap, Sum, Accumulate, W, Scheduled;
    var k := if t < 20 then 0x5A827999 else if t < 40 then 0x6ED9EBA1 else if t < 60 then 0x8F1BBCDC else 0xCA62C1D6;
    ghost var before := l[..];
    if t < 16 {
      l[t] := Swap(l[t]);
    } else {
      l[t % 16] := Rotl1(l[(t + 13) % 16] ^ l[(t + 8) % 16] ^ l[(t + 2) % 16] ^ l[t % 16]);
    }
    Expand(before, l[..], m, t);
    z' := Accumulate(z, Mix(t, w, x, y), l[t % 16], k, Rotl5(v));
    w' := Rotl30(w);
    MixIsF(t, w, x, y);
    SumReordered(z, F(t, w, x, y), W(m, t), k, Rotl5(v));
  }

  lemma Expand(l: seq<Word>, l': seq<Word>, m: seq<Word>, t: nat)
    requires Scheduled(l, m, t)
    requires t < 16 ==> l' == l[t := Swap(l[t])]
    requires t >= 16 ==>
      l' == l[t % 16 := Rotl1(l[(t + 13) % 16] ^ l[(t + 8) % 16] ^ l[(t + 2) % 16] ^ l[t % 16])]
    ensures Scheduled(l', m, t + 1) && l'[t % 16] == W(m, t)
  {
    Schedule(m, t);
    hide W, Rotl1, Swap;
    if t < 16 {
      assert t % 16 == t;
    } else {
      Needed(l, m, t);
    }
    hide Scheduled;
    KeepRest(l, l', m, t);
  }

  /** The four words that the expansion reads are those that the schedule asks for. */
  lemma Needed(l: seq<Word>, m: seq<Word>, t: nat)
    requires Scheduled(l, m, t) && t >= 16
    ensures l[(t + 13) % 16] == W(m, t - 3) && l[(t + 8) % 16] == W(m, t - 8)
    ensures l[(t + 2) % 16] == W(m, t - 14) && l[t % 16] == W(m, t - 16)
  {
    hide W, Swap;
    Congruent(t);
    assert l[(t - 3) % 16] == W(m, t - 3) && l[(t - 8) % 16] == W(m, t - 8);
    assert l[(t - 14) % 16] == W(m, t - 14) && l[(t - 16) % 16] == W(m, t - 16);
  }

  lemma Schedule(m: seq<Word>, t: nat)
    requires |m| == 16
    ensures W(m, t) == if t < 16 then m[t] else Rotl1(W(m, t - 3) ^ W(m, t - 8) ^ W(m, t - 14) ^ W(m, t - 16))
  {
  }

  /** The places of those four words, as in FIPS 180-4, section 6.1.3. */
  lemma Congruent(t: nat)
    requires t >= 16
    ensures (t + 13) % 16 == (t - 3) % 16 && (t + 8) % 16 == (t - 8) % 16
    ensures (t + 2) % 16 == (t - 14) % 16 && t % 16 == (t - 16) % 16
  {
    SixteenOn(t - 3);
    SixteenOn(t - 8);
    SixteenOn(t - 14);
    SixteenOn(t - 16);
  }

  lemma SixteenOn(x: nat)
    ensures (x + 16) % 16 == x % 16
  {
  }

  lemma OtherPlace(i: nat, t: nat)
    requires i < t < i + 16
    ensures i % 16 != t % 16
  {
  }

  lemma KeepRest(l: seq<Word>, l': seq<Word>, m: seq<Word>, t: nat)
    requires Scheduled(l, m, t) && |l'| == 16 && l' == l[t % 16 := l'[t % 16]]
    requires l'[t % 16] == W(m, t)
    ensures Scheduled(l', m, t + 1)
  {
    hide W, Swap;
    forall i | 0 <= i < t + 1 && t + 1 <= i + 16
      ensures l'[i % 16] == W(m, i)
    {
      if i < t {
        OtherPlace(i, t);
        assert l[i % 16] == W(m, i);
      }
    }
  }

  // ----- one block -------------------------------------------------------------------------------

  function StateRegs(state: seq<Word>): Regs
    requires |state| == 5
  {
    Regs(state[0], state[1], state[2], state[3], state[4])
  }

  /** The words of a block as a little-endian machine loads them. */
  method Load(data: array<Byte>, at: nat) returns (l: array<Word>)
    requires at + 64 <= data.Length
    ensures fresh(l) && l.Length == 16 && Scheduled(l[..], Words(data[at..at + 64]), 0)
  {
    l := new Word[16];
    ghost var block := data[at..at + 64];
    var i := 0;
    while i < 16
      invariant i <= 16
      invariant forall j :: 0 <= j < i ==> Swap(l[j]) == Words(block)[j]
    {
      l[i] := LoadWord(data[at + 4 * i], data[at + 4 * i + 1], data[at + 4 * i + 2], data[at + 4 * i + 3]);
      SwapLoads(data[at + 4 * i], data[at + 4 * i + 1], data[at + 4 * i + 2], data[at + 4 * i + 3]);
      i := i + 1;
    }
  }

  /** Five rounds, after which every working variable is back in its own role. */
  method FiveRounds(l: array<Word>, ghost m: seq<Word>, ghost h: Regs, t: nat,
                    a0: Word, b0: Word, c0: Word, d0: Word, e0: Word)
      returns (a: Word, b: Word, c: Word, d: Word, e: Word)
    requires l.Length == 16 == |m| && Scheduled(l[..], m, t)
    requires Rounds(m, h, t) == Regs(a0, b0, c0, d0, e0)
    modifies l
    ensures Scheduled(l[..], m, t + 5)
    ensures Rounds(m, h, t + 5) == Regs(a, b, c, d, e)
  {
    hide Round, Scheduled, W, Rounds;
    a, b, c, d, e := a0, b0, c0, d0, e0;
    b, e := R(l, m, t, a, b, c, d, e);
    OneRound(m, h, t);
    a, d := R(l, m, t + 1, e, a, b, c, d);
    OneRound(m, h, t + 1);
    e, c := R(l, m, t + 2, d, e, a, b, c);
    OneRound(m, h, t + 2);
    d, b := R(l, m, t + 3, c, d, e, a, b);
    OneRound(m, h, t + 3);
    c, a := R(l, m, t + 4, b, c, d, e, a);
    OneRound(m, h, t + 4);
  }

  lemma OneRound(m: seq<Word>, h: Regs, t: nat)
    requires |m| == 16
    ensures Rounds(m, h, t + 1) == Round(Rounds(m, h, t), t, W(m, t))
  {
  }

  /** Hash one 64-byte block into the state.  The eighty unrolled rounds repeat the same five register
      assignments sixteen times. */
  method Transform(state: array<Word>, data: array<Byte>, at: nat)
    requires state.Length == 5 && at + 64 <= data.Length
    modifies state
    ensures StateRegs(state[..]) == Compress(Words(data[at..at + 64]), StateRegs(old(state[..])))
  {
    hide Words, Scheduled, Rounds, Add;
    ghost var m, h := Words(data[at..at + 64]), StateRegs(state[..]);
    var l := Load(data, at);
    var a, b, c, d, e := state[0], state[1], state[2], state[3], state[4];
    NoRounds(m, h);
    var g := 0;
    while g < 16
      invariant g <= 16 && Scheduled(l[..], m, 5 * g)
      invariant Rounds(m, h, 5 * g) == Regs(a, b, c, d, e)
      invariant state[..] == old(state[..])
    {
      a, b, c, d, e := FiveRounds(l, m, h, 5 * g, a, b, c, d, e);
      g := g + 1;
    }
    AddBack(state, a, b, c, d, e);
  }

  lemma NoRounds(m: seq<Word>, h: Regs)
    requires |m| == 16
    ensures Rounds(m, h, 0) == h
  {
  }

  method AddBack(state: array<Word>, a: Word, b: Word, c: Word, d: Word, e: Word)
    requires state.Length == 5
    modifies state
    ensures var h := StateRegs(old(state[..]));
      StateRegs(state[..]) == Add(h, Regs(a, b, c, d, e))
  {
    hide Plus;
    state[0] := Plus(state[0], a);
    state[1] := Plus(state[1], b);
    state[2] := Plus(state[2], c);
    state[3] := Plus(state[3], d);
    state[4] := Plus(state[4], e);
  }

  // ----- the context -----------------------------------------------------------------------------

  const TWO32: nat := 0x1_0000_0000

  lemma NextBlock(m: seq<Byte>, p: nat)
    requires p % 64 == 0 && p + 64 <= |m|
    ensures HashBlocks(m[..p + 64]) == Compress(Words(m[p..p + 64]), HashBlocks(m[..p]))
  {
    hide Compress, Words;
    var q := m[..p + 64];
    assert |q| % 64 == 0 && q[|q| - 64..] == m[p..p + 64] && q[..|q| - 64] == m[..p];
  }

  /** The two-word bit counter of a message of `length` bytes. */
  predicate Counts(count0: nat, count1: nat, length: nat) {
    count0 == (8 * length) % TWO32 && count1 == (8 * length / TWO32) % TWO32
  }

  /** Adding the bits of `len` bytes with a carry, as the code does it, counts modulo 2^64. */
  lemma CountAdds(count0: nat, count1: nat, length: nat, len: nat)
    requires Counts(count0, count1, length) && len < TWO32
    ensures var lo := (count0 + (len * 8) % TWO32) % TWO32;
      var carry := if lo < count0 then 1 else 0;
      Counts(lo, (count1 + carry + len / 0x2000_0000) % TWO32, length + len)
  {
    var bits, more := 8 * length, 8 * len;
    var lo := (count0 + more % TWO32) % TWO32;
    var carry := if lo < count0 then 1 else 0;
    assert len / 0x2000_0000 == more / TWO32;
    assert count0 + more % TWO32 == carry * TWO32 + lo;
    assert bits + more == TWO32 * (bits / TWO32 + more / TWO32 + carry) + lo;
    assert (bits + more) / TWO32 == bits / TWO32 + more / TWO32 + carry;
    var hi := bits / TWO32;
    assert ((hi % TWO32) + carry + more / TWO32) % TWO32 == (hi + more / TWO32 + carry) % TWO32;
  }

  /** The buffer position is the length modulo 64, even after the counter has wrapped. */
  lemma CountPosition(count0: nat, length: nat)
    requires count0 == (8 * length) % TWO32
    ensures (count0 / 8) % 64 == length % 64
    ensures count0 % 512 == 8 * (length % 64)
  {
    var q := (8 * length) / TWO32;
    assert count0 == 8 * (length - 0x2000_0000 * q);
    var p := length - 0x2000_0000 * q;
    assert count0 / 8 == p;
    Arith.RemainderUnique(p, 64, length / 64 - 0x80_0000 * q, length % 64);
    Arith.RemainderUnique(count0, 512, length / 64 - 0x80_0000 * q, 8 * (length % 64));
  }

  /** The bytes of a message behind its last whole block. */
  function Tail(m: seq<Byte>): (t: seq<Byte>)
    ensures |t| == |m| % 64
  {
    m[|m| - |m| % 64..]
  }

  function Whole(m: seq<Byte>): (w: seq<Byte>)
    ensures |w| % 64 == 0
  {
    WholeLength(|m|);
    m[..|m| - |m| % 64]
  }

  lemma WholeLength(n: nat)
    ensures (n - n % 64) % 64 == 0
  {
  }

  // how far the code's 32-bit indices reach

  /** A sum of 32-bit indices, as the code computes it. */
  function Low32(n: nat): nat {
    n % TWO32
  }

  /** The test for completing the block in the buffer, in 32-bit arithmetic. */
  predicate Completes(pos: nat, len: nat) {
    Low32(pos + len) > 63
  }

  /** Where in the buffer the last copy of an update starts, and how many bytes it copies. */
  function LastCopy(pos: nat, len: nat): (nat, nat) {
    if Completes(pos, len) then (0, (pos + len) % 64) else (pos, len)
  }

  /** The last copy stays inside the buffer exactly if position and length together fit 32 bits. */
  lemma CopyFits(pos: nat, len: nat)
    requires pos < 64 && len < TWO32
    ensures LastCopy(pos, len).0 + LastCopy(pos, len).1 <= 64 <==> pos + len < TWO32
  {
    if pos + len < TWO32 {
      BlockTest(pos, len);
    } else {
      Arith.RemainderUnique(pos + len, TWO32, 1, pos + len - TWO32);
    }
  }

  /** A length that overruns the buffer: one byte is in it, and as many as a length can count are added. */
  lemma CopyOverruns()
    ensures LastCopy(1, 0xFFFF_FFFF) == (1, 0xFFFF_FFFF)
    ensures LastCopy(0, 0xFFFF_FFFF) == (0, 63)
  {
  }

  lemma BlockTest(pos: nat, len: nat)
    requires pos + len < TWO32
    ensures Low32(pos + len) == pos + len
  {
  }

  lemma LeftOver(n: nat, len: nat, i: nat)
    requires 63 < n % 64 + len < TWO32 && i <= len < i + 64 && (n + i) % 64 == 0
    ensures LastCopy(n % 64, len) == (0, len - i)
  {
    BlockTest(n % 64, len);
    Arith.RemainderUnique(n % 64 + len, 64, (n + i) / 64 - n / 64, len - i);
  }

  /** As long as position and length together fit 32 bits, the loop test does not wrap at a block boundary. */
  lemma LoopTest(n: nat, len: nat, i: nat)
    requires n % 64 + len < TWO32 && i <= len && (n + i) % 64 == 0
    ensures Low32(i + 63) == i + 63
  {
    var k := (n + i) / 64 - n / 64;
    assert n % 64 + i == 64 * k;
  }

  /** The bytes that complete the first block. */
  lemma FirstPieces(m: seq<Byte>, d: seq<Byte>)
    requires |m| % 64 + |d| > 63
    ensures var n, i := |m|, 64 - |m| % 64;
      && n + i >= 64 && (n + i) % 64 == 0
      && Tail(m) + d[..i] == (m + d)[n + i - 64..n + i]
      && Whole(m) == (m + d)[..n + i - 64]
  {
    var n, i := |m|, 64 - |m| % 64;
    Arith.RemainderUnique(n + i, 64, n / 64 + 1, 0);
    var total, p := m + d, n + i - 64;
    assert p == n - n % 64;
    assert total[..p] == m[..p];
    assert total[p..n + i] == m[p..] + d[..i];
  }

  lemma Subslice<T>(s: seq<T>, a: nat, n: nat, i: nat, k: nat)
    requires i <= k <= n && a + n <= |s|
    ensures s[a..a + n][i..k] == s[a + i..a + k]
  {
    var x, y := s[a..a + n][i..k], s[a + i..a + k];
    forall j | 0 <= j < |x|
      ensures x[j] == y[j]
    {
      assert x[j] == s[a..a + n][i + j] == s[a + (i + j)];
    }
  }

  /** A block of the data is the corresponding block of the whole message. */
  lemma BlockParts(total: seq<Byte>, n: nat, data: seq<Byte>, at: nat, len: nat, i: nat)
    requires i + 64 <= len && at + len <= |data| && n + len == |total| && total[n..n + len] == data[at..at + len]
    ensures total[n + i..n + i + 64] == data[at + i..at + i + 64]
  {
    Subslice(total, n, len, i, i + 64);
    Subslice(data, at, len, i, i + 64);
  }

  lemma AddedPart(m: seq<Byte>, d: seq<Byte>)
    ensures (m + d)[|m|..|m| + |d|] == d
  {
  }

  lemma DataParts(data: array<Byte>, at: nat, len: nat, i: nat)
    requires i <= len && at + len <= data.Length
    ensures data[at..at + i] == data[at..at + len][..i] && data[at + i..at + len] == data[at..at + len][i..]
  {
  }

  /** The bytes left over when whole blocks up to `i` have been absorbed. */
  lemma LastPieces(m: seq<Byte>, d: seq<Byte>, i: nat)
    requires i <= |d| < i + 64 && (|m| + i) % 64 == 0
    ensures Tail(m + d) == d[i..] && Whole(m + d) == (m + d)[..|m| + i]
  {
    Arith.RemainderUnique(|m| + |d|, 64, (|m| + i) / 64, |d| - i);
  }

  lemma ShortPieces(m: seq<Byte>, d: seq<Byte>)
    requires |m| % 64 + |d| <= 63
    ensures Tail(m + d) == Tail(m) + d && Whole(m + d) == Whole(m)
    ensures (|m| + |d|) % 64 == |m| % 64 + |d|
  {
    Arith.RemainderUnique(|m| + |d|, 64, |m| / 64, |m| % 64 + |d|);
  }

  /** A mask without its lowest bit is half the mask of half the number. */
  lemma HalfMask(x: nat, y: nat, m: nat)
    requires y / 2 == m && y % 2 == 0
    ensures Arith.BitAnd(x, y) == 2 * Arith.BitAnd(x / 2, m)
  {
    assert (x % 2) * (y % 2) == 0;
    assert x == 0 ==> x / 2 == 0;
  }

  lemma Mask63(x: nat)
    ensures Arith.BitAnd(x, 63) == x % 64
  {
    assert Arith.PowerOfTwo(64) by { assert Arith.PowerOfTwo(8); }
    hide Arith.BitAnd;
    Arith.MaskIsRemainder(x, 64);
  }

  lemma Mask504(x: nat)
    ensures Arith.BitAnd(x, 504) == 8 * Arith.BitAnd(x / 8, 63)
  {
    hide Arith.BitAnd;
    HalfMask(x, 504, 252);
    HalfMask(x / 2, 252, 126);
    HalfMask(x / 4, 126, 63);
    assert x / 2 / 2 == x / 4 && x / 4 / 2 == x / 8;
  }

  /** The masks the code uses to read the byte position out of the bit counter. */
  lemma Masks(count: nat)
    ensures Arith.BitAnd(count / 8, 63) == (count / 8) % 64
    ensures Arith.BitAnd(count, 504) == 8 * ((count / 8) % 64)
  {
    hide Arith.BitAnd;
    Mask63(count / 8);
    Mask504(count);
  }

  // ----- the length field and the digest -----------------------------------------------------------

  function Power256(k: nat): nat
    requires k < 4
  {
    if k == 0 then 1 else if k == 1 then 0x100 else if k == 2 then 0x1_0000 else 0x100_0000
  }

  function CountByte(count: nat, k: nat): Byte
    requires k < 4
  {
    LowByte(count / Power256(3 - k))
  }

  lemma FourBytes(n: nat)
    ensures BigEndian(n, 4) == [CountByte(n, 0), CountByte(n, 1), CountByte(n, 2), CountByte(n, 3)]
  {
    hide LowByte;
    assert BigEndian(n, 4) == BigEndian(n / 256, 3) + [LowByte(n)];
    assert BigEndian(n / 256, 3) == BigEndian(n / 0x1_0000, 2) + [LowByte(n / 256)];
    assert BigEndian(n / 0x1_0000, 2) == BigEndian(n / 0x100_0000, 1) + [LowByte(n / 0x1_0000)];
    assert BigEndian(n / 0x100_0000, 1) == BigEndian(n / TWO32, 0) + [LowByte(n / 0x100_0000)];
  }

  lemma Peel(n: nat, width: nat)
    requires width > 0
    ensures BigEndian(n, width) == BigEndian(n / 256, width - 1) + [LowByte(n)]
  {
  }

  lemma HighFourBytes(n: nat)
    ensures BigEndian(n, 8) == BigEndian(n / TWO32, 4) + BigEndian(n, 4)
  {
    FourBytes(n);
    Peel(n, 8);
    Peel(n / 256, 7);
    Peel(n / 0x1_0000, 6);
    Peel(n / 0x100_0000, 5);
    hide LowByte, BigEndian;
    assert n / 256 / 256 == n / 0x1_0000 && n / 0x1_0000 / 256 == n / 0x100_0000 && n / 0x100_0000 / 256 == n / TWO32;
  }

  lemma ByteWrapped(n: nat, k: nat)
    requires k < 4
    ensures CountByte(n % TWO32, k) == CountByte(n, k)
  {
    if k == 0 {
      QuotientWrapped(n, 0x100_0000, 0x100);
    } else if k == 1 {
      QuotientWrapped(n, 0x1_0000, 0x1_0000);
    } else if k == 2 {
      QuotientWrapped(n, 0x100, 0x100_0000);
    } else {
      QuotientWrapped(n, 1, TWO32);
    }
  }

  /** Dropping a multiple of `p * c` does not change the quotient by `p` modulo a divisor of `c`. */
  lemma QuotientWrapped(n: nat, p: nat, c: nat)
    requires (p, c) in {(0x100_0000, 0x100), (0x1_0000, 0x1_0000), (0x100, 0x100_0000), (1, TWO32)}
    ensures ((n % TWO32) / p) % 256 == (n / p) % 256
  {
    var q, r := n / TWO32, n % TWO32;
    assert n / p == c * q + r / p by {
      assert n == p * (c * q) + r;
      QuotientSum(c * q, r, p);
    }
    var d := c / 256;
    assert c * q == 256 * (d * q);
    Arith.RemainderUnique(n / p, 256, d * q + (r / p) / 256, (r / p) % 256);
  }

  lemma QuotientSum(x: nat, r: nat, p: nat)
    requires p > 0
    ensures (p * x + r) / p == x + r / p
  {
    var y, z := (p * x + r) / p, (p * x + r) % p;
    Arith.RemainderUnique(p * x + r, p, x + r / p, r % p);
    assert p * (y - (x + r / p)) == 0;
  }

  /** The two counter words, most significant byte first, are the 64-bit length field. */
  lemma LengthField(count0: nat, count1: nat, length: nat, s: seq<Byte>)
    requires Counts(count0, count1, length) && |s| == 8
    requires forall i :: 0 <= i < 8 ==> s[i] == CountByte(if i >= 4 then count0 else count1, i % 4)
    ensures s == BigEndian(8 * length, 8)
  {
    hide BigEndian, CountByte;
    var bits := 8 * length;
    HighFourBytes(bits);
    FourBytes(bits);
    FourBytes(bits / TWO32);
    forall k | 0 <= k < 4
      ensures s[k] == CountByte(bits / TWO32, k) && s[k + 4] == CountByte(bits, k)
    {
      ByteWrapped(bits, k);
      ByteWrapped(bits / TWO32, k);
    }
  }

  /** The zero bytes appended one at a time stop at the number section 5.1.1 asks for. */
  lemma PaddingStops(length: nat, k: nat)
    requires k <= ZeroBytes(length)
    ensures (length + 1 + k) % 64 == 56 <==> k == ZeroBytes(length)
  {
    hide ZeroBytes;
    if (length + 1 + k) % 64 == 56 {
      SameResidue(length + 1 + k, length + 1 + ZeroBytes(length));
    }
  }

  lemma SameResidue(a: nat, b: nat)
    requires a % 64 == b % 64 && a <= b < a + 64
    ensures a == b
  {
  }

  /** A word shifted right by `(3 - k) * 8`. */
  function ShiftDown(w: Word, k: nat): Word
    requires k < 4
  {
    if k == 0 then w >> 24 else if k == 1 then w >> 16 else if k == 2 then w >> 8 else w
  }

  function DigestByte(state: seq<Word>, i: nat): Byte
    requires |state| == 5 && i < 20
  {
    Octet(ShiftDown(state[i / 4], i % 4))
  }

  lemma DigestBytes(state: seq<Word>, i: nat)
    requires |state| == 5 && i < 20
    ensures DigestByte(state, i) == Digest(StateRegs(state))[i]
  {
    hide WordBytes, ShiftDown;
    ShiftedByte(state[i / 4], i % 4);
    DigestAt(StateRegs(state), i);
  }

  lemma ShiftedByte(w: Word, k: nat)
    requires k < 4
    ensures Octet(ShiftDown(w, k)) == WordBytes(w)[k]
  {
    hide Octet;
  }

  lemma DigestAt(h: Regs, i: nat)
    requires i < 20
    ensures Digest(h)[i] == WordBytes([h.a, h.b, h.c, h.d, h.e][i / 4])[i % 4]
  {
    hide WordBytes;
  }

  class Context {
    const state: array<Word>
    const buffer: array<Byte>
    var count0: nat
    var count1: nat
    /** The message absorbed so far. */
    ghost var msg: seq<Byte>

    ghost predicate Valid()
      reads this, state, buffer
    {
      && state.Length == 5 && buffer.Length == 64
      && Counts(count0, count1, |msg|)
      && StateRegs(state[..]) == HashBlocks(Whole(msg))
      && buffer[..|msg| % 64] == Tail(msg)
    }

    constructor ()
      ensures Valid() && msg == [] && fresh(state) && fresh(buffer)
    {
      state := new Word[5] [0x67452301, 0xEFCDAB89, 0x98BADCFE, 0x10325476, 0xC3D2E1F0];
      buffer := new Byte[64];
      count0, count1 := 0, 0;
      msg := [];
    }

    method AddCount(len: nat)
      requires Counts(count0, count1, |msg|) && len < TWO32
      modifies this`count0, this`count1
      ensures Counts(count0, count1, |msg| + len)
    {
      CountAdds(count0, count1, |msg|, len);
      hide Counts;
      Arith.AddWrapped(count1 + 1, len / 0x2000_0000);
      var j := count0;
      count0 := (count0 + (len * 8) % TWO32) % TWO32;
      if count0 < j {
        count1 := (count1 + 1) % TWO32;
      }
      count1 := (count1 + len / 0x2000_0000) % TWO32;
    }

    /** How many bytes the buffer holds, as the counter says. */
    method Position() returns (j: nat)
      requires Counts(count0, count1, |msg|)
      ensures j == |msg| % 64
    {
      CountPosition(count0, |msg|);
      Masks(count0);
      hide Arith.BitAnd;
      j := Arith.BitAnd(count0 / 8, 63);
    }

    /** Absorb `len` bytes of `data`.  Beyond this bound the copy would leave the buffer (`CopyFits`). */
    method Update(data: array<Byte>, at: nat, len: nat)
      requires Valid() && at + len <= data.Length && data != buffer && |msg| % 64 + len < TWO32
      modifies this, state, buffer
      ensures Valid() && msg == old(msg) + data[at..at + len]
    {
      hide HashBlocks, Counts, Tail, Whole, StateRegs;
      var j := Position();
      AddCount(len);
      BlockTest(j, len);
      if Low32(j + len) > 63 {
        UpdateBlocks(data, at, len, j, msg);
      } else {
        UpdateBuffer(data, at, len, j, msg);
      }
      msg := msg + data[at..at + len];
    }

    /** The data does not complete the block in the buffer. */
    method UpdateBuffer(data: array<Byte>, at: nat, len: nat, j: nat, ghost m: seq<Byte>)
      requires state.Length == 5 && buffer.Length == 64 && data != buffer && at + len <= data.Length
      requires j == |m| % 64 && j + len <= 63 && buffer[..j] == Tail(m)
      requires StateRegs(state[..]) == HashBlocks(Whole(m))
      modifies buffer
      ensures var total := m + data[at..at + len];
        buffer[..|total| % 64] == Tail(total) && StateRegs(state[..]) == HashBlocks(Whole(total))
    {
      hide HashBlocks, Tail, Whole, StateRegs;
      ShortPieces(m, data[at..at + len]);
      Fill(data, at, j, len);
    }

    method UpdateBlocks(data: array<Byte>, at: nat, len: nat, j: nat, ghost m: seq<Byte>)
      requires state.Length == 5 && buffer.Length == 64 && data != buffer && at + len <= data.Length
      requires j == |m| % 64 && 63 < j + len < TWO32 && buffer[..j] == Tail(m)
      requires StateRegs(state[..]) == HashBlocks(Whole(m))
      modifies state, buffer
      ensures var total := m + data[at..at + len];
        buffer[..|total| % 64] == Tail(total) && StateRegs(state[..]) == HashBlocks(Whole(total))
    {
      hide HashBlocks, Tail, Whole, StateRegs;
      ghost var d := data[at..at + len];
      var i := CompleteBlocks(data, at, len, j, m);
      LastPieces(m, d, i);
      DataParts(data, at, len, i);
      assert buffer[..0] == [];
      Fill(data, at + i, 0, len - i);
    }

    /** Complete the first block and hash all whole blocks; `i` bytes of the data are used up. */
    method CompleteBlocks(data: array<Byte>, at: nat, len: nat, j: nat, ghost m: seq<Byte>) returns (i: nat)
      requires state.Length == 5 && buffer.Length == 64 && data != buffer && at + len <= data.Length
      requires j == |m| % 64 && 63 < j + len < TWO32 && buffer[..j] == Tail(m)
      requires StateRegs(state[..]) == HashBlocks(Whole(m))
      modifies state, buffer
      ensures i <= len < i + 64 && (|m| + i) % 64 == 0 && LastCopy(j, len) == (0, len - i)
      ensures StateRegs(state[..]) == HashBlocks((m + data[at..at + len])[..|m| + i])
    {
      hide HashBlocks, Tail, Whole, StateRegs;
      ghost var d := data[at..at + len];
      i := 64 - j;
      FirstPieces(m, d);
      AddedPart(m, d);
      DataParts(data, at, len, i);
      Fill(data, at, j, i);
      assert buffer[..] == buffer[..j + i];
      HashBuffer(m + d, |m| + i - 64);
      i := Absorb(data, at, len, i, m + d, |m|);
      LeftOver(|m|, len, i);
    }

    /** Copy `count` bytes into the buffer at position `j`. */
    method Fill(data: array<Byte>, at: nat, j: nat, count: nat)
      requires buffer.Length == 64 && data != buffer && at + count <= data.Length && j + count <= 64
      modifies buffer
      ensures buffer[..j + count] == old(buffer[..j]) + data[at..at + count]
    {
      forall k | 0 <= k < count {
        buffer[j + k] := data[at + k];
      }
    }

    /** Hash the block of the message at `p`, which stands in `data` at `at`. */
    method HashBlock(data: array<Byte>, at: nat, ghost total: seq<Byte>, ghost p: nat)
      requires state.Length == 5 && at + 64 <= data.Length && p % 64 == 0 && p + 64 <= |total|
      requires data[at..at + 64] == total[p..p + 64] && StateRegs(state[..]) == HashBlocks(total[..p])
      modifies state
      ensures StateRegs(state[..]) == HashBlocks(total[..p + 64])
    {
      hide HashBlocks, Words, Compress, StateRegs;
      NextBlock(total, p);
      Transform(state, data, at);
    }

    /** Hash the full buffer, which holds the block of the message at `p`. */
    method HashBuffer(ghost total: seq<Byte>, ghost p: nat)
      requires state.Length == 5 && buffer.Length == 64 && p % 64 == 0 && p + 64 <= |total|
      requires buffer[..] == total[p..p + 64] && StateRegs(state[..]) == HashBlocks(total[..p])
      modifies state
      ensures StateRegs(state[..]) == HashBlocks(total[..p + 64])
    {
      hide HashBlocks, StateRegs;
      assert buffer[0..64] == buffer[..];
      HashBlock(buffer, 0, total, p);
    }

    /** Hash the block of `data` at `i`. */
    method AbsorbBlock(data: array<Byte>, at: nat, len: nat, i: nat, ghost total: seq<Byte>, ghost n: nat)
      requires state.Length == 5 && at + len <= data.Length && i + 64 <= len && n + len == |total|
      requires total[n..n + len] == data[at..at + len]
      requires (n + i) % 64 == 0 && StateRegs(state[..]) == HashBlocks(total[..n + i])
      modifies state
      ensures StateRegs(state[..]) == HashBlocks(total[..n + i + 64])
    {
      hide HashBlocks, StateRegs;
      BlockParts(total, n, data[..], at, len, i);
      HashBlock(data, at + i, total, n + i);
    }

    /** Hash every whole block of `data` from `from` on; `n` bytes of the message came before the data. */
    method Absorb(data: array<Byte>, at: nat, len: nat, from: nat, ghost total: seq<Byte>, ghost n: nat)
        returns (i: nat)
      requires state.Length == 5 && at + len <= data.Length && from <= len && n + len == |total|
      requires total[n..n + len] == data[at..at + len]
      requires n % 64 + len < TWO32 && (n + from) % 64 == 0
      requires StateRegs(state[..]) == HashBlocks(total[..n + from])
      modifies state
      ensures i <= len < i + 64 && (n + i) % 64 == 0
      ensures StateRegs(state[..]) == HashBlocks(total[..n + i])
    {
      hide HashBlocks, StateRegs, Low32;
      i := from;
      LoopTest(n, len, i);
      while Low32(i + 63) < len
        invariant i <= len && (n + i) % 64 == 0 && Low32(i + 63) == i + 63
        invariant StateRegs(state[..]) == HashBlocks(total[..n + i])
        decreases len - i
      {
        AbsorbBlock(data, at, len, i, total, n);
        i := i + 64;
        LoopTest(n, len, i);
      }
    }

    /** Pad the message with its length, write out the digest, and wipe the context. */
    method Final(digest: array<Byte>)
      requires Valid() && digest.Length >= 20 && digest != buffer
      modifies this, state, buffer, digest
      ensures digest[..20] == Sha1(old(msg))
      ensures forall i :: 20 <= i < digest.Length ==> digest[i] == old(digest[i])
      ensures count0 == count1 == 0
      ensures forall i :: 0 <= i < state.Length ==> state[i] == 0
      ensures forall i :: 0 <= i < buffer.Length ==> buffer[i] == 0
    {
      ghost var m := msg;
      var finalcount := LengthBytes();
      AppendPadding();
      Update(finalcount, 0, 8);
      hide HashBlocks, Digest;
      WholePad(m);
      assert msg == Pad(m);
      WriteDigest(digest);
      Wipe();
    }

    method Wipe()
      modifies this, state, buffer
      ensures count0 == count1 == 0
      ensures forall i :: 0 <= i < state.Length ==> state[i] == 0
      ensures forall i :: 0 <= i < buffer.Length ==> buffer[i] == 0
    {
      count0, count1, msg := 0, 0, [];
      forall i | 0 <= i < state.Length { state[i] := 0; }
      forall i | 0 <= i < buffer.Length { buffer[i] := 0; }
    }

    method LengthBytes() returns (finalcount: array<Byte>)
      requires Counts(count0, count1, |msg|)
      ensures fresh(finalcount) && finalcount.Length == 8 && finalcount[..] == BigEndian(8 * |msg|, 8)
    {
      hide BigEndian, CountByte;
      finalcount := new Byte[8];
      var i := 0;
      while i < 8
        invariant i <= 8
        invariant forall j :: 0 <= j < i ==> finalcount[j] == CountByte(if j >= 4 then count0 else count1, j % 4)
      {
        finalcount[i] := CountByte(if i >= 4 then count0 else count1, i % 4);
        i := i + 1;
      }
      LengthField(count0, count1, |msg|, finalcount[..]);
    }

    /** Append the bit 1, as the byte 0x80, and zeros until only the length field is missing. */
    method AppendPadding()
      requires Valid()
      modifies this, state, buffer
      ensures Valid() && msg == old(msg) + [0x80] + Zeros(ZeroBytes(|old(msg)|))
    {
      hide HashBlocks, Tail, Whole, StateRegs, ZeroBytes;
      ghost var m, k := msg, 0;
      var c := new Byte[1];
      c[0] := 0x80;
      Update(c, 0, 1);
      assert c[0..1] == [0x80];
      assert msg == m + [0x80] + Zeros(0);
      while Arith.BitAnd(count0, 504) != 448
        invariant Valid() && k <= ZeroBytes(|m|) && msg == m + [0x80] + Zeros(k) && fresh(c) && c.Length == 1
        decreases ZeroBytes(|m|) - k
      {
        PaddingGoesOn(count0, |m|, k);
        c[0] := 0;
        Update(c, 0, 1);
        assert c[0..1] == [0];
        assert Zeros(k + 1) == Zeros(k) + [0];
        k := k + 1;
      }
      PaddingGoesOn(count0, |m|, k);
    }

    method WriteDigest(digest: array<Byte>)
      requires state.Length == 5 && digest.Length >= 20
      modifies digest
      ensures digest[..20] == Digest(StateRegs(state[..]))
      ensures forall i :: 20 <= i < digest.Length ==> digest[i] == old(digest[i])
    {
      hide Digest, StateRegs, DigestByte;
      var i := 0;
      while i < 20
        invariant i <= 20
        invariant forall j :: 0 <= j < i ==> digest[j] == Digest(StateRegs(state[..]))[j]
        invariant forall j :: 20 <= j < digest.Length ==> digest[j] == old(digest[j])
      {
        digest[i] := DigestByte(state[..], i);
        DigestBytes(state[..], i);
        i := i + 1;
      }
    }
  }

  /** The bit counter tells whether the padding is complete. */
  lemma PaddingGoesOn(count0: nat, length: nat, k: nat)
    requires count0 == (8 * (length + 1 + k)) % TWO32 && k <= ZeroBytes(length)
    ensures Arith.BitAnd(count0, 504) == 448 <==> k == ZeroBytes(length)
  {
    hide ZeroBytes;
    Masks(count0);
    CountPosition(count0, length + 1 + k);
    PaddingStops(length, k);
  }

  lemma WholePad(m: seq<Byte>)
    ensures Whole(Pad(m)) == Pad(m)
  {
  }

  /** The digest of `len` bytes of `str`, absorbed byte by byte, as a NUL-terminated string. */
  method Hash(hashOut: array<Byte>, str: array<Byte>, len: int)
    requires hashOut.Length > 20 && len <= str.Length && hashOut != str
    modifies hashOut
    ensures hashOut[..20] == Sha1(str[..if len < 0 then 0 else len])
    ensures hashOut[20] == 0
  {
    hide Sha1;
    var ctx := new Context();
    var i := 0;
    while i < len
      invariant 0 <= i && (len >= 0 ==> i <= len) && (len < 0 ==> i == 0)
      invariant ctx.Valid() && ctx.msg == str[..i] && fresh(ctx) && fresh(ctx.state) && fresh(ctx.buffer)
    {
      ctx.Update(str, i, 1);
      assert str[..i + 1] == str[..i] + str[i..i + 1];
      i := i + 1;
    }
    ctx.Final(hashOut);
    ghost var digest := hashOut[..20];
    hashOut[20] := 0;
    assert hashOut[..20] == digest;
  }
}
