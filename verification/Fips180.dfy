/** SHA-1 as FIPS 180-4 defines it: the functions and constants of section 4, the preprocessing of
    section 5 and the hash computation of section 6.1.2. */
module Fips180 {

  type Byte = bv8
  type Word = bv32

  // ----- section 4.1.1 and 4.2.1 -----------------------------------------------------------------

  function Rotl1(x: Word): Word { (x << 1) | (x >> 31) }

  function Rotl5(x: Word): Word { (x << 5) | (x >> 27) }

  function Rotl30(x: Word): Word { (x << 30) | (x >> 2) }

  function Ch(x: Word, y: Word, z: Word): Word { (x & y) ^ (!x & z) }

  function Parity(x: Word, y: Word, z: Word): Word { x ^ y ^ z }

  function Maj(x: Word, y: Word, z: Word): Word { (x & y) ^ (x & z) ^ (y & z) }

  function F(t: nat, x: Word, y: Word, z: Word): Word {
    if t < 20 then Ch(x, y, z)
    else if t < 40 then Parity(x, y, z)
    else if t < 60 then Maj(x, y, z)
    else Parity(x, y, z)
  }

  function K(t: nat): Word {
    if t < 20 then 0x5A827999
    else if t < 40 then 0x6ED9EBA1
    else if t < 60 then 0x8F1BBCDC
    else 0xCA62C1D6
  }

  // ----- section 5 -------------------------------------------------------------------------------

  /** A number in `width` bytes, most significant byte first. */
  function BigEndian(n: nat, width: nat): (s: seq<Byte>)
    ensures |s| == width
  {
    if width == 0 then [] else BigEndian(n / 256, width - 1) + [LowByte(n)]
  }

  function LowByte(n: nat): Byte { (n % 256) as Byte }

  function Zeros(k: nat): (s: seq<Byte>)
    ensures |s| == k && forall i :: 0 <= i < k ==> s[i] == 0
  {
    seq(k, _ => 0)
  }

  /** How many zero bytes the padding of section 5.1.1 needs: the least number that leaves room for
      exactly the 64-bit length at the end of a block. */
  function ZeroBytes(length: nat): (k: nat)
    ensures k < 64 && (length + 1 + k) % 64 == 56
  {
    (119 - length % 64) % 64
  }

  /** The padded message; the length field is the number of bits in 64 bits. */
  function Pad(m: seq<Byte>): (p: seq<Byte>)
    ensures |p| % 64 == 0
  {
    WholeBlocks(|m| + 1 + ZeroBytes(|m|));
    m + [0x80] + Zeros(ZeroBytes(|m|)) + BigEndian(8 * |m|, 8)
  }

  lemma WholeBlocks(n: nat)
    requires n % 64 == 56
    ensures (n + 8) % 64 == 0
  {
  }

  /** Four bytes as one word, most significant byte first. */
  function BytesWord(b0: Byte, b1: Byte, b2: Byte, b3: Byte): Word {
    Join(b0 as Word, b1 as Word, b2 as Word, b3 as Word)
  }

  function Join(x0: Word, x1: Word, x2: Word, x3: Word): Word {
    (x0 << 24) | (x1 << 16) | (x2 << 8) | x3
  }

  /** A 64-byte block as sixteen words. */
  function Words(block: seq<Byte>): (w: seq<Word>)
    requires |block| == 64
    ensures |w| == 16
  {
    seq(16, i requires 0 <= i < 16 =>
          BytesWord(block[4 * i], block[4 * i + 1], block[4 * i + 2], block[4 * i + 3]))
  }

  // ----- section 6.1.2 ---------------------------------------------------------------------------

  /** The message schedule. */
  function W(m: seq<Word>, t: nat): Word
    requires |m| == 16
  {
    if t < 16 then m[t] else Rotl1(W(m, t - 3) ^ W(m, t - 8) ^ W(m, t - 14) ^ W(m, t - 16))
  }

  /** Addition modulo 2^32. */
  function Sum(p: Word, q: Word, r: Word, s: Word, t: Word): Word { p + q + r + s + t }

  datatype Regs = Regs(a: Word, b: Word, c: Word, d: Word, e: Word)

  const IV := Regs(0x67452301, 0xEFCDAB89, 0x98BADCFE, 0x10325476, 0xC3D2E1F0)

  function Round(r: Regs, t: nat, w: Word): Regs {
    Regs(Sum(Rotl5(r.a), F(t, r.b, r.c, r.d), r.e, K(t), w), r.a, Rotl30(r.b), r.c, r.d)
  }

  function Rounds(m: seq<Word>, h: Regs, t: nat): Regs
    requires |m| == 16
  {
    if t == 0 then h else Round(Rounds(m, h, t - 1), t - 1, W(m, t - 1))
  }

  function Plus(x: Word, y: Word): Word { x + y }

  function Add(h: Regs, r: Regs): Regs {
    Regs(Plus(h.a, r.a), Plus(h.b, r.b), Plus(h.c, r.c), Plus(h.d, r.d), Plus(h.e, r.e))
  }

  function Compress(m: seq<Word>, h: Regs): Regs
    requires |m| == 16
  {
    var r := Rounds(m, h, 80);
    Add(h, r)
  }

  /** The intermediate hash value after a whole number of blocks. */
  function HashBlocks(m: seq<Byte>): Regs
    requires |m| % 64 == 0
  {
    if m == [] then IV else Compress(Words(m[|m| - 64..]), HashBlocks(m[..|m| - 64]))
  }

  function WordBytes(w: Word): (s: seq<Byte>)
    ensures |s| == 4
  {
    [Octet(w >> 24), Octet(w >> 16), Octet(w >> 8), Octet(w)]
  }

  function Octet(w: Word): Byte { (w & 0xFF) as Byte }

  function Digest(h: Regs): (s: seq<Byte>)
    ensures |s| == 20
  {
    WordBytes(h.a) + WordBytes(h.b) + WordBytes(h.c) + WordBytes(h.d) + WordBytes(h.e)
  }

  function Sha1(m: seq<Byte>): (s: seq<Byte>)
    ensures |s| == 20
  {
    Digest(HashBlocks(Pad(m)))
  }
}
