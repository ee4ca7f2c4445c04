/** Allocating the resources of SmartNICs to the stages of a pipeline: what one step does, and what the
    books say about it. */
module AllocationModel {
  import opened ResourceVectors

  /** Demands `G` of the stages, resources `T` and idle bandwidth `B` of the NICs, and what `A` gives each
      stage on each NIC. */
  datatype Cluster = Cluster(G: seq<Vec>, T: seq<Vec>, B: seq<real>, A: seq<seq<Vec>>)

  /** The resource a stage uses. */
  function Hot(w: Rate): (h: nat)
    ensures h < 3
  {
    if w[0] != 0.0 then 0 else if w[1] != 0.0 then 1 else 2
  }

  predicate OneHot(w: Rate) {
    w[Hot(w)] > 0.0 && forall i :: 0 <= i < 3 && i != Hot(w) ==> w[i] == 0.0
  }

  predicate OnlyAt(v: Vec, h: nat) {
    h < 3 && v[h] >= 0 && forall i :: 0 <= i < 3 && i != h ==> v[i] == 0
  }

  predicate Natural(v: Vec) {
    forall i :: 0 <= i < 3 ==> v[i] >= 0
  }

  predicate Shape(c: Cluster, W: seq<Rate>) {
    |c.G| == |W| == |c.A| && |c.B| == |c.T| && forall s :: 0 <= s < |c.A| ==> |c.A[s]| == |c.T|
  }

  /** Every demand and every allocation is of the one resource that its stage uses, and nothing is
      negative. */
  predicate Sound(c: Cluster, W: seq<Rate>) {
    && Shape(c, W)
    && (forall s :: 0 <= s < |W| ==> OneHot(W[s]) && OnlyAt(c.G[s], Hot(W[s])))
    && (forall s, n :: 0 <= s < |W| && 0 <= n < |c.T| ==> OnlyAt(c.A[s][n], Hot(W[s])))
    && (forall n :: 0 <= n < |c.T| ==> Natural(c.T[n]) && c.B[n] >= 0.0)
  }

  predicate InRange(c: Cluster, W: seq<Rate>, s: nat, n: nat) {
    Shape(c, W) && s < |W| && n < |c.T|
  }

  /** The bandwidth that the previous stage's allocation on a NIC carries, and its next stage shares. */
  function Share(A: seq<seq<Vec>>, W: seq<Rate>, n: nat, s: nat): (bw: real)
    requires s < |A| <= |W| && forall t :: 0 <= t < |A| ==> n < |A[t]|
    ensures bw >= 0.0
  {
    if s == 0 then 0.0 else Required(A[s - 1][n], W[s - 1])
  }

  function Allocable(c: Cluster, W: seq<Rate>, n: nat, s: nat): real
    requires InRange(c, W, s, n)
  {
    Share(c.A, W, n, s) + c.B[n]
  }

  /** What the stage gets on the NIC: as much of its demand as the NIC has and the bandwidth allows. */
  function Units(c: Cluster, W: seq<Rate>, n: nat, s: nat): int
    requires InRange(c, W, s, n) && OneHot(W[s])
  {
    var h := Hot(W[s]);
    Min(Min(c.G[s][h], c.T[n][h]), (Allocable(c, W, n, s) / W[s][h]).Floor)
  }

  function At(h: nat, d: int): Vec
    requires h < 3
  {
    ZERO[h := d]
  }

  function Updated(A: seq<seq<Vec>>, s: nat, n: nat, v: Vec): (B: seq<seq<Vec>>)
    requires s < |A| && n < |A[s]|
    ensures |B| == |A| && forall t :: 0 <= t < |A| ==> |B[t]| == |A[t]|
    ensures forall t, m :: 0 <= t < |A| && 0 <= m < |A[t]| ==> B[t][m] == if t == s && m == n then v else A[t][m]
  {
    var row: seq<Vec> := A[s][n := v];
    A[s := row]
  }

  /** `d` units move from the NIC and from the demand to the allocation; bandwidth that is not shared is
      used up. */
  function Place(c: Cluster, W: seq<Rate>, n: nat, s: nat, d: int): (r: Cluster)
    requires InRange(c, W, s, n)
    ensures Shape(r, W)
  {
    var h := Hot(W[s]);
    Cluster(c.G[s := Minus(c.G[s], At(h, d))],
            c.T[n := Minus(c.T[n], At(h, d))],
            c.B[n := MinReal(c.B[n], Allocable(c, W, n, s) - Load(d, W[s][h]))],
            Updated(c.A, s, n, Plus(c.A[s][n], At(h, d))))
  }

  // ----- the books -----------------------------------------------------------------------------------

  /** What the first `k` stages have of resource `i` on NIC `n`. */
  function OnNic(A: seq<seq<Vec>>, n: nat, i: nat, k: nat): int
    requires i < 3 && k <= |A| && forall s :: 0 <= s < k ==> n < |A[s]|
  {
    if k == 0 then 0 else OnNic(A, n, i, k - 1) + A[k - 1][n][i]
  }

  /** What a stage has of resource `i` on the first `k` NICs. */
  function OfStage(row: seq<Vec>, i: nat, k: nat): int
    requires i < 3 && k <= |row|
  {
    if k == 0 then 0 else OfStage(row, i, k - 1) + row[k - 1][i]
  }

  /** The bandwidth a stage needs on a NIC beyond what the previous stage shares with it there. */
  function Excess(A: seq<seq<Vec>>, W: seq<Rate>, n: nat, s: nat): (bw: real)
    requires s < |A| <= |W| && forall t :: 0 <= t < |A| ==> n < |A[t]|
    ensures bw >= 0.0
  {
    MaxReal(0.0, Required(A[s][n], W[s]) - Share(A, W, n, s))
  }

  function Used(A: seq<seq<Vec>>, W: seq<Rate>, n: nat, k: nat): (bw: real)
    requires k <= |A| <= |W| && forall t :: 0 <= t < |A| ==> n < |A[t]|
    ensures bw >= 0.0
  {
    if k == 0 then 0.0 else Used(A, W, n, k - 1) + Excess(A, W, n, k - 1)
  }

  predicate ResourcesKept(c: Cluster, T0: seq<Vec>, W: seq<Rate>) {
    && Shape(c, W) && |T0| == |c.T|
    && forall n, i :: 0 <= n < |T0| && 0 <= i < 3 ==> T0[n][i] == c.T[n][i] + OnNic(c.A, n, i, |c.A|)
  }

  predicate DemandsKept(c: Cluster, G0: seq<Vec>, W: seq<Rate>) {
    && Shape(c, W) && |G0| == |c.G|
    && forall s, i :: 0 <= s < |G0| && 0 <= i < 3 ==> G0[s][i] == c.G[s][i] + OfStage(c.A[s], i, |c.T|)
  }

  predicate BandwidthKept(c: Cluster, B0: seq<real>, W: seq<Rate>) {
    && Shape(c, W) && |B0| == |c.B|
    && forall n :: 0 <= n < |B0| ==> B0[n] == c.B[n] + Used(c.A, W, n, |c.A|)
  }

  /** Nothing is lost: resources, demands and bandwidth add up to the original ones. */
  predicate Balanced(c: Cluster, c0: Cluster, W: seq<Rate>) {
    ResourcesKept(c, c0.T, W) && DemandsKept(c, c0.G, W) && BandwidthKept(c, c0.B, W)
  }

  /** Stages from `s` on have nothing yet. */
  predicate Unserved(c: Cluster, s: nat) {
    forall t, n :: s <= t < |c.A| && 0 <= n < |c.A[t]| ==> c.A[t][n] == ZERO
  }

  lemma {:induction false} OnNicUpdated(A: seq<seq<Vec>>, s: nat, n: nat, v: Vec, m: nat, i: nat, k: nat)
    requires i < 3 && k <= |A| && s < |A| && n < |A[s]|
    requires forall t :: 0 <= t < k ==> m < |A[t]|
    ensures var B := Updated(A, s, n, v);
      && (forall t :: 0 <= t < k ==> m < |B[t]|)
      && OnNic(B, m, i, k) == OnNic(A, m, i, k) + if m == n && s < k then v[i] - A[s][n][i] else 0
  {
    if k > 0 { OnNicUpdated(A, s, n, v, m, i, k - 1); }
  }

  lemma {:induction false} OfStageUpdated(row: seq<Vec>, n: nat, v: Vec, i: nat, k: nat)
    requires i < 3 && k <= |row| && n < |row|
    ensures OfStage(row[n := v], i, k) == OfStage(row, i, k) + if n < k then v[i] - row[n][i] else 0
  {
    if k > 0 { OfStageUpdated(row, n, v, i, k - 1); }
  }

  lemma RequiredNone(w: Rate)
    ensures Required(ZERO, w) == 0.0
  {
  }

  lemma UsedStep(A: seq<seq<Vec>>, W: seq<Rate>, n: nat, k: nat)
    requires 0 < k <= |A| <= |W| && forall t :: 0 <= t < |A| ==> n < |A[t]|
    ensures Used(A, W, n, k) == Used(A, W, n, k - 1) + Excess(A, W, n, k - 1)
  {
    hide Excess;
  }

  /** Only the excess of the stage itself changes, as long as the next stage has nothing on the NIC. */
  lemma {:induction false} UsedUpdated(A: seq<seq<Vec>>, W: seq<Rate>, s: nat, n: nat, v: Vec, m: nat, k: nat)
    requires k <= |A| <= |W| && s < |A| && forall t :: 0 <= t < |A| ==> m < |A[t]| && n < |A[t]|
    requires s + 1 < |A| ==> A[s + 1][n] == ZERO
    ensures var B := Updated(A, s, n, v);
      && (forall t :: 0 <= t < |B| ==> m < |B[t]|)
      && Used(B, W, m, k) == Used(A, W, m, k) + if m == n && s < k then Excess(B, W, n, s) - Excess(A, W, n, s) else 0.0
  {
    if k > 0 {
      UsedUpdated(A, W, s, n, v, m, k - 1);
      var B := Updated(A, s, n, v);
      RequiredNone(W[k - 1]);
      hide Required, MaxReal, Updated, Used;
      UsedStep(A, W, m, k);
      UsedStep(B, W, m, k);
      IdleLeft(0.0, Share(A, W, m, k - 1), 0.0);
      IdleLeft(0.0, Share(B, W, m, k - 1), 0.0);
      if k - 1 == s + 1 && m == n {
        assert Excess(B, W, n, s + 1) == 0.0 == Excess(A, W, n, s + 1);
      }
    }
  }

  // ----- one step ------------------------------------------------------------------------------------

  lemma RequiredAt(r: Vec, w: Rate)
    requires OneHot(w) && r[Hot(w)] >= 0
    ensures Required(r, w) == Load(r[Hot(w)], w[Hot(w)])
  {
    NoProduct(r, w, 0);
    NoProduct(r, w, 1);
    NoProduct(r, w, 2);
    Scaled(0.0, r[Hot(w)] as real, w[Hot(w)]);
  }

  lemma NoProduct(r: Vec, w: Rate, i: nat)
    requires OneHot(w) && i < 3
    ensures i != Hot(w) ==> Product(r, w, i) == 0.0
    ensures i == Hot(w) ==> Product(r, w, i) == Load(r[Hot(w)], w[Hot(w)])
  {
  }

  /** The units are the largest number that the demand, the NIC and its bandwidth all allow. */
  lemma UnitsLargest(c: Cluster, W: seq<Rate>, n: nat, s: nat, d: int)
    requires Sound(c, W) && InRange(c, W, s, n)
    ensures var h := Hot(W[s]);
      d <= Units(c, W, n, s)
      <==> d <= c.G[s][h] && d <= c.T[n][h] && Load(d, W[s][h]) <= Allocable(c, W, n, s)
    ensures Units(c, W, n, s) >= 0
  {
    hide Allocable;
    var h := Hot(W[s]);
    var b := Allocable(c, W, n, s);
    FloorLargest(b, W[s][h]);
    LargestAbove(b, W[s][h], (b / W[s][h]).Floor, d);
    LargestAbove(b, W[s][h], (b / W[s][h]).Floor, 0);
    assert b >= 0.0 by { AllocableNatural(c, W, n, s); }
  }

  lemma AllocableNatural(c: Cluster, W: seq<Rate>, n: nat, s: nat)
    requires Sound(c, W) && InRange(c, W, s, n)
    ensures Allocable(c, W, n, s) >= c.B[n] >= 0.0
  {
  }

  lemma PlaceSound(c: Cluster, W: seq<Rate>, n: nat, s: nat, d: int)
    requires Sound(c, W) && InRange(c, W, s, n) && 0 <= d <= Units(c, W, n, s)
    ensures Sound(Place(c, W, n, s, d), W)
  {
    UnitsLargest(c, W, n, s, d);
    hide Units, Allocable;
  }

  lemma PlaceResources(c: Cluster, T0: seq<Vec>, W: seq<Rate>, n: nat, s: nat, d: int)
    requires InRange(c, W, s, n) && ResourcesKept(c, T0, W)
    ensures ResourcesKept(Place(c, W, n, s, d), T0, W)
  {
    hide Allocable;
    var v := Plus(c.A[s][n], At(Hot(W[s]), d));
    forall m, i | 0 <= m < |T0| && 0 <= i < 3
      ensures T0[m][i] == Place(c, W, n, s, d).T[m][i] + OnNic(Place(c, W, n, s, d).A, m, i, |c.A|)
    {
      OnNicUpdated(c.A, s, n, v, m, i, |c.A|);
    }
  }

  lemma PlaceDemands(c: Cluster, G0: seq<Vec>, W: seq<Rate>, n: nat, s: nat, d: int)
    requires InRange(c, W, s, n) && DemandsKept(c, G0, W)
    ensures DemandsKept(Place(c, W, n, s, d), G0, W)
  {
    hide Allocable;
    var v := Plus(c.A[s][n], At(Hot(W[s]), d));
    forall t, i | 0 <= t < |G0| && 0 <= i < 3
      ensures G0[t][i] == Place(c, W, n, s, d).G[t][i] + OfStage(Place(c, W, n, s, d).A[t], i, |c.T|)
    {
      OfStageUpdated(c.A[s], n, v, i, |c.T|);
    }
  }

  /** On a NIC where the stage has nothing yet, it uses up exactly its excess over the shared bandwidth. */
  lemma PlaceExcess(c: Cluster, W: seq<Rate>, n: nat, s: nat, d: int)
    requires Sound(c, W) && InRange(c, W, s, n) && d >= 0 && c.A[s][n] == ZERO
    ensures var r := Place(c, W, n, s, d);
      Excess(c.A, W, n, s) == 0.0 && c.B[n] - r.B[n] == Excess(r.A, W, n, s)
  {
    var h, r := Hot(W[s]), Place(c, W, n, s, d);
    PlacedRequired(c, W, n, s, d);
    RequiredNone(W[s]);
    PlaceParts(c, W, n, s, d);
    hide Required, Place, Sound, OneHot, MinReal, MaxReal, Updated, Hot;
    var share := Share(c.A, W, n, s);
    assert Share(r.A, W, n, s) == share;
    IdleLeft(c.B[n], share, Load(d, W[s][h]));
    IdleLeft(0.0, share, 0.0);
  }

  lemma PlacedRequired(c: Cluster, W: seq<Rate>, n: nat, s: nat, d: int)
    requires Sound(c, W) && InRange(c, W, s, n) && d >= 0 && c.A[s][n] == ZERO
    ensures Required(Place(c, W, n, s, d).A[s][n], W[s]) == Load(d, W[s][Hot(W[s])])
  {
    hide Required, MinReal;
    var v := Plus(ZERO, At(Hot(W[s]), d));
    assert v[Hot(W[s])] == d && Place(c, W, n, s, d).A[s][n] == v;
    RequiredAt(v, W[s]);
  }

  /** What is left of idle bandwidth `b` when `x` is needed and `share` of it is shared. */
  lemma IdleLeft(b: real, share: real, x: real)
    requires share >= 0.0
    ensures b - MinReal(b, share + b - x) == MaxReal(0.0, x - share)
    ensures MaxReal(0.0, 0.0 - share) == 0.0
  {
  }

  lemma PlaceBandwidth(c: Cluster, B0: seq<real>, W: seq<Rate>, n: nat, s: nat, d: int)
    requires Sound(c, W) && InRange(c, W, s, n) && BandwidthKept(c, B0, W) && d >= 0
    requires c.A[s][n] == ZERO && (s + 1 < |W| ==> c.A[s + 1][n] == ZERO)
    ensures BandwidthKept(Place(c, W, n, s, d), B0, W)
  {
    var r := Place(c, W, n, s, d);
    PlaceExcess(c, W, n, s, d);
    PlaceParts(c, W, n, s, d);
    hide Excess, Used, Place, Sound;
    forall m | 0 <= m < |B0|
      ensures B0[m] == r.B[m] + Used(r.A, W, m, |r.A|)
    {
      UsedUpdated(c.A, W, s, n, r.A[s][n], m, |c.A|);
    }
  }

  lemma PlaceIs(c: Cluster, W: seq<Rate>, n: nat, s: nat, d: int, r: Cluster)
    requires InRange(c, W, s, n)
    requires var h := Hot(W[s]);
      && r.G == c.G[s := Minus(c.G[s], At(h, d))] && r.T == c.T[n := Minus(c.T[n], At(h, d))]
      && r.A == Updated(c.A, s, n, Plus(c.A[s][n], At(h, d)))
      && r.B == c.B[n := MinReal(c.B[n], Allocable(c, W, n, s) - Load(d, W[s][h]))]
    ensures r == Place(c, W, n, s, d)
  {
    hide Allocable, Load, Plus, Minus, At, Updated, MinReal;
  }

  lemma PlaceParts(c: Cluster, W: seq<Rate>, n: nat, s: nat, d: int)
    requires InRange(c, W, s, n)
    ensures var r := Place(c, W, n, s, d);
      && r.A == Updated(c.A, s, n, Plus(c.A[s][n], At(Hot(W[s]), d)))
      && r.A == Updated(c.A, s, n, r.A[s][n])
      && r.B[n] == MinReal(c.B[n], Allocable(c, W, n, s) - Load(d, W[s][Hot(W[s])]))
      && |r.B| == |c.B| && forall m :: 0 <= m < |c.B| && m != n ==> r.B[m] == c.B[m]
  {
    hide Allocable;
  }

  /** One step keeps the books balanced. */
  lemma PlaceBalanced(c: Cluster, c0: Cluster, W: seq<Rate>, n: nat, s: nat)
    requires Sound(c, W) && InRange(c, W, s, n) && Balanced(c, c0, W)
    requires c.A[s][n] == ZERO && Unserved(c, s + 1)
    ensures var r := Place(c, W, n, s, Units(c, W, n, s)); Sound(r, W) && Balanced(r, c0, W) && Unserved(r, s + 1)
  {
    var d := Units(c, W, n, s);
    UnitsLargest(c, W, n, s, d);
    PlaceSound(c, W, n, s, d);
    PlaceResources(c, c0.T, W, n, s, d);
    PlaceDemands(c, c0.G, W, n, s, d);
    PlaceBandwidth(c, c0.B, W, n, s, d);
    PlaceParts(c, W, n, s, d);
    hide Place, Units, Sound, ResourcesKept, DemandsKept, BandwidthKept;
  }

  // ----- what the books imply --------------------------------------------------------------------------

  lemma {:induction false} ShareUsed(A: seq<seq<Vec>>, W: seq<Rate>, n: nat, s: nat, k: nat)
    requires s < k <= |A| <= |W| && forall t :: 0 <= t < |A| ==> n < |A[t]|
    ensures Required(A[s][n], W[s]) <= Used(A, W, n, k)
    decreases k
  {
    hide Required;
    if k > s + 1 {
      ShareUsed(A, W, n, s, k - 1);
    } else if s > 0 {
      ShareUsed(A, W, n, s - 1, s);
    }
  }

  /** No stage has more bandwidth on a NIC than the NIC had at first. */
  lemma ShareBounded(c: Cluster, B0: seq<real>, W: seq<Rate>, n: nat, s: nat)
    requires Sound(c, W) && InRange(c, W, s, n) && BandwidthKept(c, B0, W)
    ensures Required(c.A[s][n], W[s]) <= B0[n]
  {
    ShareUsed(c.A, W, n, s, |c.A|);
    hide Required, Used;
  }
}
