/** Ranking the NICs for a stage: keys, Python's stable sort in descending order, and which NICs qualify. */
module AllocationRanking {
  import opened ResourceVectors
  import opened AllocationModel

  /** Tuples compare element by element, the first one first. */
  datatype Key = Key(location: int, bandwidth: real, first: int, second: int, third: int)

  predicate AtLeast(a: Key, b: Key) {
    if a.location != b.location then a.location > b.location
    else if a.bandwidth != b.bandwidth then a.bandwidth > b.bandwidth
    else if a.first != b.first then a.first > b.first
    else if a.second != b.second then a.second > b.second
    else a.third >= b.third
  }

  predicate Colocated(A: seq<seq<Vec>>, n: nat, s: nat)
    requires forall t :: 0 <= t < |A| ==> n < |A[t]|
  {
    exists t :: 0 <= t < |A| && t != s && A[t][n] != ZERO
  }

  /** A NIC with other stages on it comes first, then the one with the most bandwidth for the stage, then the
      one with the most of the demanded resource. */
  function KeySnic(c: Cluster, W: seq<Rate>, n: nat, s: nat): Key
    requires InRange(c, W, s, n)
  {
    var location, bw, g, t := if Colocated(c.A, n, s) then 1 else 0, Allocable(c, W, n, s), c.G[s], c.T[n];
    if g[0] == 0 && g[1] != 0 && g[2] == 0 then Key(location, bw, t[1], t[0], t[2])
    else if g[0] == 0 && g[1] == 0 && g[2] != 0 then Key(location, bw, t[2], t[0], t[1])
    else Key(location, bw, t[0], t[1], t[2])
  }

  /** The NIC has something left, nothing on it belongs to the stage yet, and it has both what the stage
      demands and bandwidth for it. */
  predicate Eligible(c: Cluster, W: seq<Rate>, n: nat, s: nat)
    requires InRange(c, W, s, n)
  {
    && (exists i :: 0 <= i < 3 && c.T[n][i] > 0)
    && (forall i :: 0 <= i < 3 ==> c.A[s][n][i] <= 0)
    && (forall i :: 0 <= i < 3 ==> c.G[s][i] != 0 ==> c.T[n][i] != 0)
    && Allocable(c, W, n, s) != 0.0
  }

  /** For a stage that still demands its one resource, a NIC qualifies exactly if it has some of that resource, nothing
      of the stage is on it yet, and the bandwidth that the previous stage shares there and what is idle are not
      both 0.  It need not have all that the stage demands. */
  lemma EligibleMeans(c: Cluster, W: seq<Rate>, n: nat, s: nat)
    requires Sound(c, W) && InRange(c, W, s, n) && c.G[s] != ZERO
    ensures Eligible(c, W, n, s) <==>
            c.T[n][Hot(W[s])] != 0 && c.A[s][n] == ZERO && Share(c.A, W, n, s) + c.B[n] != 0.0
  {
    hide Share;
    var h := Hot(W[s]);
    assert c.G[s] == At(h, c.G[s][h]);
    assert OnlyAt(c.A[s][n], h) && Natural(c.T[n]);
    assert c.A[s][n][h] == 0 ==> c.A[s][n] == ZERO;
  }

  /** The shared bandwidth: the units of the previous stage on the NIC times the rate of the one resource it uses. */
  lemma ShareMeans(c: Cluster, W: seq<Rate>, n: nat, s: nat)
    requires Sound(c, W) && InRange(c, W, s, n)
    ensures s == 0 ==> Share(c.A, W, n, s) == 0.0
    ensures s > 0 ==> var h := Hot(W[s - 1]); Share(c.A, W, n, s) == c.A[s - 1][n][h] as real * W[s - 1][h]
  {
    hide Required;
    if s > 0 { RequiredAt(c.A[s - 1][n], W[s - 1]); }
  }

  predicate Known(c: Cluster, nics: seq<nat>) {
    forall k :: 0 <= k < |nics| ==> nics[k] < |c.T|
  }

  function Insert(c: Cluster, W: seq<Rate>, s: nat, n: nat, ranked: seq<nat>): (r: seq<nat>)
    requires InRange(c, W, s, n) && Known(c, ranked)
    ensures Known(c, r) && multiset(r) == multiset{n} + multiset(ranked)
  {
    if ranked == [] || AtLeast(KeySnic(c, W, n, s), KeySnic(c, W, ranked[0], s)) then [n] + ranked
    else
      assert ranked == [ranked[0]] + ranked[1..];
      [ranked[0]] + Insert(c, W, s, n, ranked[1..])
  }

  /** The NICs in descending order of their keys; NICs with equal keys keep their order. */
  function Sorted(c: Cluster, W: seq<Rate>, s: nat, nics: seq<nat>): (r: seq<nat>)
    requires Shape(c, W) && s < |W| && Known(c, nics)
    ensures Known(c, r) && multiset(r) == multiset(nics)
  {
    if nics == [] then []
    else
      assert nics == [nics[0]] + nics[1..];
      Insert(c, W, s, nics[0], Sorted(c, W, s, nics[1..]))
  }

  predicate Earlier(nics: seq<nat>, a: nat, b: nat) {
    exists i, j :: 0 <= i < j < |nics| && nics[i] == a && nics[j] == b
  }

  /** `a` has the larger key or, with equal keys, stands before `b`. */
  predicate Ahead(c: Cluster, W: seq<Rate>, s: nat, nics: seq<nat>, a: nat, b: nat)
    requires InRange(c, W, s, a) && InRange(c, W, s, b)
  {
    && AtLeast(KeySnic(c, W, a, s), KeySnic(c, W, b, s))
    && (KeySnic(c, W, a, s) == KeySnic(c, W, b, s) ==> Earlier(nics, a, b))
  }

  /** What being ahead means for a stage that still demands its one resource: a NIC with other stages on it comes
      first, then more bandwidth for the stage, then more of that resource. */
  lemma AheadMeans(c: Cluster, W: seq<Rate>, s: nat, nics: seq<nat>, a: nat, b: nat)
    requires Sound(c, W) && InRange(c, W, s, a) && InRange(c, W, s, b) && c.G[s] != ZERO
    requires Ahead(c, W, s, nics, a, b)
    ensures Colocated(c.A, b, s) ==> Colocated(c.A, a, s)
    ensures (Colocated(c.A, a, s) <==> Colocated(c.A, b, s)) ==> Allocable(c, W, a, s) >= Allocable(c, W, b, s)
    ensures (Colocated(c.A, a, s) <==> Colocated(c.A, b, s)) && Allocable(c, W, a, s) == Allocable(c, W, b, s) ==>
              c.T[a][Hot(W[s])] >= c.T[b][Hot(W[s])]
  {
    hide Allocable, Colocated;
    var g, h := c.G[s], Hot(W[s]);
    assert g[h] == 0 ==> g == ZERO;
  }

  /** Being ahead in full: if all that is equal, more of the other resources counts, in their order, and then the
      earlier place. */
  lemma AheadExactly(c: Cluster, W: seq<Rate>, s: nat, nics: seq<nat>, a: nat, b: nat)
    requires Sound(c, W) && InRange(c, W, s, a) && InRange(c, W, s, b) && c.G[s] != ZERO
    ensures var h := Hot(W[s]);
      var x, y, o, p := c.T[a], c.T[b], if h == 0 then 1 else 0, if h == 2 then 1 else 2;
      var others, othersToo := exists t :: 0 <= t < |c.A| && t != s && c.A[t][a] != ZERO,
                               exists t :: 0 <= t < |c.A| && t != s && c.A[t][b] != ZERO;
      Ahead(c, W, s, nics, a, b) <==>
      if others != othersToo then others
      else if Share(c.A, W, a, s) + c.B[a] != Share(c.A, W, b, s) + c.B[b] then
        Share(c.A, W, a, s) + c.B[a] > Share(c.A, W, b, s) + c.B[b]
      else if x[h] != y[h] then x[h] > y[h]
      else if x[o] != y[o] then x[o] > y[o]
      else if x[p] != y[p] then x[p] > y[p]
      else Earlier(nics, a, b)
  {
    hide Share, Earlier;
    var g, h := c.G[s], Hot(W[s]);
    assert g[h] == 0 ==> g == ZERO;
  }

  predicate Ranked(c: Cluster, W: seq<Rate>, s: nat, nics: seq<nat>, r: seq<nat>)
    requires Shape(c, W) && s < |W| && Known(c, r)
  {
    forall i, j :: 0 <= i < j < |r| ==> Ahead(c, W, s, nics, r[i], r[j])
  }

  lemma AtLeastTransitive(x: Key, y: Key, z: Key)
    requires AtLeast(x, y) && AtLeast(y, z)
    ensures AtLeast(x, z)
  {
  }

  lemma AtLeastTotal(x: Key, y: Key)
    ensures AtLeast(x, y) || (AtLeast(y, x) && x != y)
  {
  }

  lemma {:induction false} InsertRanked(c: Cluster, W: seq<Rate>, s: nat, nics: seq<nat>, n: nat, r: seq<nat>)
    requires InRange(c, W, s, n) && Known(c, r) && Ranked(c, W, s, nics, r)
    requires forall m :: m in r ==> Earlier(nics, n, m)
    ensures Ranked(c, W, s, nics, Insert(c, W, s, n, r))
  {
    hide KeySnic, AtLeast, Earlier;
    if r != [] {
      AtLeastTotal(KeySnic(c, W, n, s), KeySnic(c, W, r[0], s));
      if AtLeast(KeySnic(c, W, n, s), KeySnic(c, W, r[0], s)) {
        forall k | 0 <= k < |r|
          ensures Ahead(c, W, s, nics, n, r[k])
        {
          assert r[k] in r;
          if k > 0 {
            assert Ahead(c, W, s, nics, r[0], r[k]);
            AtLeastTransitive(KeySnic(c, W, n, s), KeySnic(c, W, r[0], s), KeySnic(c, W, r[k], s));
          }
        }
      } else {
        InsertRanked(c, W, s, nics, n, r[1..]);
        var rest := Insert(c, W, s, n, r[1..]);
        forall k | 0 <= k < |rest|
          ensures Ahead(c, W, s, nics, r[0], rest[k])
        {
          assert rest[k] in multiset(rest);
          if rest[k] != n {
            assert rest[k] in multiset(r[1..]);
            var j :| 0 <= j < |r[1..]| && r[1..][j] == rest[k];
            assert Ahead(c, W, s, nics, r[0], r[j + 1]);
          }
        }
      }
    }
  }

  lemma RankedLater(c: Cluster, W: seq<Rate>, s: nat, nics: seq<nat>, r: seq<nat>)
    requires Shape(c, W) && s < |W| && Known(c, r) && nics != [] && Ranked(c, W, s, nics[1..], r)
    ensures Ranked(c, W, s, nics, r)
  {
    hide KeySnic, AtLeast;
    forall i, j | 0 <= i < j < |r|
      ensures Ahead(c, W, s, nics, r[i], r[j])
    {
      assert Ahead(c, W, s, nics[1..], r[i], r[j]);
      if Earlier(nics[1..], r[i], r[j]) {
        var p, q :| 0 <= p < q < |nics[1..]| && nics[1..][p] == r[i] && nics[1..][q] == r[j];
        assert nics[p + 1] == r[i] && nics[q + 1] == r[j];
      }
    }
  }

  /** Sorting ranks the NICs, and stably. */
  lemma {:induction false} SortedRanked(c: Cluster, W: seq<Rate>, s: nat, nics: seq<nat>)
    requires Shape(c, W) && s < |W| && Known(c, nics)
    ensures Ranked(c, W, s, nics, Sorted(c, W, s, nics))
  {
    if nics != [] {
      var r := Sorted(c, W, s, nics[1..]);
      SortedRanked(c, W, s, nics[1..]);
      RankedLater(c, W, s, nics, r);
      forall m | m in r
        ensures Earlier(nics, nics[0], m)
      {
        assert m in multiset(r);
        var j :| 0 <= j < |nics[1..]| && nics[1..][j] == m;
        assert nics[j + 1] == m;
      }
      hide Ranked, Earlier;
      InsertRanked(c, W, s, nics, nics[0], r);
    }
  }
}
