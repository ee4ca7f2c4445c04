/** Unsigned 32-bit numbers, and the power-of-two masks that index circular arrays. */
module Words {

  const MOD: nat := 0x1_0000_0000

  type Word = n: nat | n < 0x1_0000_0000

  predicate PowerOfTwo(n: nat) {
    n == 1 || (n > 0 && n % 2 == 0 && PowerOfTwo(n / 2))
  }

  /** Bitwise conjunction of two naturals. */
  function BitAnd(x: nat, y: nat): nat
    decreases x
  {
    if x == 0 then 0 else 2 * BitAnd(x / 2, y / 2) + (x % 2) * (y % 2)
  }

  /** For a power of two, `x & (size - 1)` is the remainder of `x`. */
  lemma {:induction false} MaskIsRemainder(x: nat, size: nat)
    requires PowerOfTwo(size)
    ensures BitAnd(x, size - 1) == x % size
    decreases x
  {
    if x == 0 {
    } else if size == 1 {
      MaskIsRemainder(x / 2, 1);
    } else {
      var half := size / 2;
      MaskIsRemainder(x / 2, half);
      assert (size - 1) / 2 == half - 1 && (size - 1) % 2 == 1;
      HalvedRemainder(x, half);
    }
  }

  lemma HalvedRemainder(x: nat, half: nat)
    requires half > 0
    ensures x % (2 * half) == 2 * ((x / 2) % half) + x % 2
  {
    var q, r := (x / 2) / half, (x / 2) % half;
    assert x == (2 * half) * q + (2 * r + x % 2) by {
      assert x / 2 == half * q + r;
    }
    RemainderUnique(x, 2 * half, q, 2 * r + x % 2);
  }

  lemma RemainderUnique(x: int, m: nat, q: int, r: nat)
    requires r < m && x == m * q + r
    ensures x % m == r
  {
    var q', r' := x / m, x % m;
    assert x == m * q' + r';
    assert m * (q - q') == r' - r;
    assert q - q' >= 1 ==> m * (q - q') >= m;
    assert q - q' <= -1 ==> m * (q' - q) >= m;
  }

  /** `x & (size - 1)`: an index wrapped at most once is the index itself or the index less `size`. */
  function Mask(x: nat, size: nat): (r: nat)
    requires PowerOfTwo(size)
    ensures r < size
    ensures x < size ==> r == x
    ensures size <= x < 2 * size ==> r == x - size
  {
    MaskIsRemainder(x, size);
    if x < size then
      RemainderUnique(x, size, 0, x);
      BitAnd(x, size - 1)
    else if x < 2 * size then
      RemainderUnique(x, size, 1, x - size);
      BitAnd(x, size - 1)
    else
      BitAnd(x, size - 1)
  }

  /** Wrapping a number before adding to it makes no difference to the wrapped sum. */
  lemma AddWrapped(x: nat, k: nat)
    ensures (x + k) % MOD == (x % MOD + k) % MOD
  {
    var r := (x % MOD + k) % MOD;
    RemainderUnique(x + k, MOD, x / MOD + (x % MOD + k) / MOD, r);
  }
}
