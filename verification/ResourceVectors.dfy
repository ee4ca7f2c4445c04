/** Vectors over the three kinds of SmartNIC resource: cores, regex engines and compression engines. */
module ResourceVectors {

  type Vec = v: seq<int> | |v| == 3 witness [0, 0, 0]
  /** The bandwidth that one unit of each resource handles. */
  type Rate = w: seq<real> | |w| == 3 witness [0.0, 0.0, 0.0]

  const ZERO: Vec := [0, 0, 0]

  function MaxReal(x: real, y: real): (m: real)
    ensures m >= x && m >= y && (m == x || m == y)
  {
    if x >= y then x else y
  }

  function MinReal(x: real, y: real): (m: real)
    ensures m <= x && m <= y && (m == x || m == y)
  {
    if x <= y then x else y
  }

  function Min(x: int, y: int): (m: int)
    ensures m <= x && m <= y && (m == x || m == y)
  {
    if x <= y then x else y
  }

  /** The bandwidth of `k` units of rate `w`. */
  function Load(k: int, w: real): real {
    k as real * w
  }

  function Product(r: Vec, w: Rate, i: nat): real
    requires i < 3
  {
    Load(r[i], w[i])
  }

  /** The bandwidth that resources `r` can carry: the largest element of the product, at least 0. */
  function Required(r: Vec, w: Rate): (bw: real)
    ensures bw >= 0.0
  {
    MaxReal(MaxReal(MaxReal(0.0, Product(r, w, 0)), Product(r, w, 1)), Product(r, w, 2))
  }

  method CalculateRequiredBw(r: Vec, w: Rate) returns (bw: real)
    ensures bw == Required(r, w)
    ensures bw >= 0.0 && forall i :: 0 <= i < 3 ==> Product(r, w, i) <= bw
    ensures bw == 0.0 || exists i :: 0 <= i < 3 && Product(r, w, i) == bw
  {
    bw := 0.0;
    var i := 0;
    while i < |r|
      invariant i <= 3 && bw >= 0.0
      invariant forall k :: 0 <= k < i ==> Product(r, w, k) <= bw
      invariant bw == 0.0 || exists k :: 0 <= k < i && Product(r, w, k) == bw
    {
      bw := MaxReal(bw, Product(r, w, i));
      i := i + 1;
    }
    assert Product(r, w, 0) <= bw && Product(r, w, 1) <= bw && Product(r, w, 2) <= bw;
  }

  method ResourceGeq(g: Vec, t: Vec) returns (b: bool)
    ensures b <==> forall i :: 0 <= i < 3 ==> g[i] >= t[i]
  {
    var i := 0;
    while i < |g|
      invariant i <= 3 && forall k :: 0 <= k < i ==> g[k] >= t[k]
    {
      if g[i] < t[i] {
        return false;
      }
      i := i + 1;
    }
    b := true;
  }

  method ResourceEq(g: Vec, t: Vec) returns (b: bool)
    ensures b <==> g == t
  {
    var i := 0;
    while i < |g|
      invariant i <= 3 && forall k :: 0 <= k < i ==> g[k] == t[k]
    {
      if g[i] != t[i] {
        return false;
      }
      i := i + 1;
    }
    b := true;
  }

  method ResourceMin(r1: Vec, r2: Vec) returns (r3: Vec)
    ensures forall i :: 0 <= i < 3 ==> r3[i] == Min(r1[i], r2[i])
  {
    var s: seq<int> := [];
    var i := 0;
    while i < |r1|
      invariant i <= 3 && |s| == i && forall k :: 0 <= k < i ==> s[k] == Min(r1[k], r2[k])
    {
      s := s + [Min(r1[i], r2[i])];
      i := i + 1;
    }
    r3 := s;
  }

  function Plus(r1: Vec, r2: Vec): Vec {
    [r1[0] + r2[0], r1[1] + r2[1], r1[2] + r2[2]]
  }

  function Minus(r1: Vec, r2: Vec): Vec {
    [r1[0] - r2[0], r1[1] - r2[1], r1[2] - r2[2]]
  }

  method ResourceAdd(r1: Vec, r2: Vec) returns (r: Vec)
    ensures r == Plus(r1, r2)
  {
    r := r1;
    var i := 0;
    while i < |r1|
      invariant i <= 3
      invariant forall k :: 0 <= k < 3 ==> r[k] == if k < i then r1[k] + r2[k] else r1[k]
    {
      r := r[i := r[i] + r2[i]];
      i := i + 1;
    }
  }

  method ResourceMinus(r1: Vec, r2: Vec) returns (r: Vec)
    ensures r == Minus(r1, r2)
  {
    r := r1;
    var i := 0;
    while i < |r1|
      invariant i <= 3
      invariant forall k :: 0 <= k < 3 ==> r[k] == if k < i then r1[k] - r2[k] else r1[k]
    {
      r := r[i := r[i] - r2[i]];
      i := i + 1;
    }
  }

  method ResourceMultiply(r1: Vec, w: Rate) returns (r3: Rate)
    ensures forall i :: 0 <= i < 3 ==> r3[i] == Product(r1, w, i)
  {
    var s: seq<real> := [];
    var i := 0;
    while i < |r1|
      invariant i <= 3 && |s| == i && forall k :: 0 <= k < i ==> s[k] == Product(r1, w, k)
    {
      s := s + [Product(r1, w, i)];
      i := i + 1;
    }
    r3 := s;
  }

  /** `k` is the largest number of units of rate `w` that `b` has room for. */
  predicate Largest(k: int, w: real, b: real) {
    Load(k, w) <= b < Load(k + 1, w)
  }

  /** How many whole units fit. */
  method ResourceDivide(num: real, w: Rate) returns (r2: Vec)
    requires num >= 0.0
    requires forall i :: 0 <= i < 3 ==> w[i] >= 0.0
    ensures forall i :: 0 <= i < 3 && w[i] == 0.0 ==> r2[i] == 0
    ensures forall i :: 0 <= i < 3 && w[i] > 0.0 ==> r2[i] >= 0 && Largest(r2[i], w[i], num)
  {
    var s: seq<int> := [];
    var i := 0;
    while i < |w|
      invariant i <= 3 && |s| == i
      invariant forall k :: 0 <= k < i ==> s[k] == if w[k] != 0.0 then (num / w[k]).Floor else 0
    {
      s := s + [if w[i] != 0.0 then (num / w[i]).Floor else 0];
      i := i + 1;
    }
    r2 := s;
    forall i | 0 <= i < 3 && w[i] > 0.0
      ensures r2[i] >= 0 && Largest(r2[i], w[i], num)
    {
      FloorLargest(num, w[i]);
      LargestAbove(num, w[i], r2[i], 0);
    }
  }

  lemma FloorLargest(b: real, w: real)
    requires w > 0.0
    ensures Largest((b / w).Floor, w, b)
  {
    hide Load;
    var q := b / w;
    var k := q.Floor;
    Quotient(b, w);
    Between(k as real, q, (k + 1) as real, w, b);
    LoadIs(k, w, k as real);
    LoadIs(k + 1, w, (k + 1) as real);
  }

  lemma Between(x: real, q: real, y: real, w: real, b: real)
    requires x <= q < y && w > 0.0 && q * w == b
    ensures x * w <= b < y * w
  {
    Scaled(x, q, w);
    ScaledStrictly(q, y, w);
  }

  lemma Quotient(b: real, w: real)
    requires w > 0.0
    ensures (b / w) * w == b
  {
  }

  lemma LoadIs(k: int, w: real, x: real)
    requires x == k as real
    ensures Load(k, w) == x * w
  {
  }

  /** Exactly the counts up to the largest one fit. */
  lemma LargestAbove(b: real, w: real, k: int, j: int)
    requires w > 0.0 && Largest(k, w, b)
    ensures j <= k <==> Load(j, w) <= b
  {
    if j <= k {
      Scaled(j as real, k as real, w);
    } else {
      Scaled((k + 1) as real, j as real, w);
    }
  }

  lemma ScaledStrictly(x: real, y: real, w: real)
    requires x < y && w > 0.0
    ensures x * w < y * w
  {
    assert (y - x) * w > 0.0;
  }

  lemma Scaled(x: real, y: real, w: real)
    requires x <= y && w >= 0.0
    ensures x * w <= y * w
  {
  }

  /** The first element that is not zero; `None` stands for Python's. */
  method ResourceGetOneHot(r: Rate) returns (found: bool, value: real)
    ensures found <==> exists i :: 0 <= i < 3 && r[i] != 0.0
    ensures found ==> exists i :: 0 <= i < 3 && r[i] == value != 0.0 && forall k :: 0 <= k < i ==> r[k] == 0.0
  {
    var i := 0;
    while i < |r|
      invariant i <= 3 && forall k :: 0 <= k < i ==> r[k] == 0.0
    {
      if r[i] != 0.0 {
        return true, r[i];
      }
      i := i + 1;
    }
    found, value := false, 0.0;
  }
}
