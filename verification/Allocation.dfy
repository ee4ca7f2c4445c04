/** The greedy allocator: it places each stage of a pipeline on the best NIC, again and again, until the
    stage's demand is met. */
module Allocation {
  import opened AllocationModel
  import opened AllocationRanking
  import opened Options
  import opened ResourceVectors

  class Allocator {
    const nics: seq<nat>
    const W: seq<Rate>
    var G: seq<Vec>
    var T: seq<Vec>
    var B: seq<real>
    var A: seq<seq<Vec>>
    ghost const initial: Cluster

    ghost function State(): Cluster
      reads this
    {
      Cluster(G, T, B, A)
    }

    ghost predicate Valid()
      reads this
    {
      Shape(State(), W) && Sound(State(), W) && Balanced(State(), initial, W) && Known(State(), nics)
    }

    constructor (nics: seq<nat>, G: seq<Vec>, T: seq<Vec>, B: seq<real>, W: seq<Rate>)
      requires |G| == |W| && |T| == |B| && forall k :: 0 <= k < |nics| ==> nics[k] < |T|
      requires forall s :: 0 <= s < |W| ==> OneHot(W[s]) && OnlyAt(G[s], Hot(W[s]))
      requires forall n :: 0 <= n < |T| ==> Natural(T[n]) && B[n] >= 0.0
      ensures Valid() && Unserved(State(), 0) && initial == State()
      ensures this.G == G && this.T == T && this.B == B && this.W == W && this.nics == nics
    {
      this.nics, this.W, this.G, this.T, this.B := nics, W, G, T, B;
      var row: seq<Vec> := seq(|T|, _ => ZERO);
      var rows: seq<seq<Vec>> := seq(|G|, _ => row);
      A := rows;
      initial := Cluster(G, T, B, rows);
      new;
      StartBalanced(State(), W);
    }

    /** Bandwidth that the previous stage shares on the NIC. */
    method CalculateSharableBw(n: nat, s: nat) returns (bw: real)
      requires Valid() && s < |G| && n < |T|
      ensures bw == Share(A, W, n, s)
    {
      if s == 0 {
        return 0.0;
      }
      var a, w := A[s - 1][n], W[s - 1];
      SharedProducts(State(), W, n, s);
      bw := MaxReal(MaxReal(Product(a, w, 0), Product(a, w, 1)), Product(a, w, 2));
    }

    /** The best NIC that qualifies for the stage. */
    method FindNextSnic(s: nat) returns (n: Option<nat>)
      requires Valid() && s < |G|
      ensures n == None <==> forall m :: m in nics ==> !Eligible(State(), W, m, s)
      ensures n.Some? ==>
                && n.value in nics && Eligible(State(), W, n.value, s)
                && forall m :: m in nics && m != n.value && Eligible(State(), W, m, s) ==>
                     Ahead(State(), W, s, nics, n.value, m)
      ensures G[s] != ZERO ==>
                (n == None <==> forall m :: m in nics ==>
                   T[m][Hot(W[s])] == 0 || A[s][m] != ZERO || Share(A, W, m, s) + B[m] == 0.0)
      ensures G[s] != ZERO && n.Some? ==>
                && T[n.value][Hot(W[s])] > 0 && A[s][n.value] == ZERO
                && forall m | m in nics && m != n.value ::
                     T[m][Hot(W[s])] != 0 && A[s][m] == ZERO && Share(A, W, m, s) + B[m] != 0.0 ==>
                     Ahead(State(), W, s, nics, n.value, m)
    {
      hide Ahead, Eligible, Sorted, Sound, Balanced, Share;
      ghost var c := State();
      EligibleAll(c, W, s, nics);
      var sorted := Sorted(Cluster(G, T, B, A), W, s, nics);
      SortedRanked(c, W, s, nics);
      assert forall m :: m in nics <==> m in multiset(sorted);
      var i := 0;
      while i < |sorted|
        invariant i <= |sorted|
        invariant forall k :: 0 <= k < i ==> !Eligible(c, W, sorted[k], s)
      {
        var eligible := Qualifies(sorted[i], s);
        if eligible {
          assert sorted[i] in multiset(sorted);
          return Some(sorted[i]);
        }
        i := i + 1;
      }
      n := None;
    }

    /** The reasons to skip a NIC, one by one. */
    method Qualifies(n: nat, s: nat) returns (eligible: bool)
      requires Valid() && s < |G| && n < |T|
      ensures eligible == Eligible(State(), W, n, s)
    {
      var none := ResourceGeq(ZERO, T[n]);
      if none {
        return false;
      }
      var unserved := ResourceGeq(ZERO, A[s][n]);
      if !unserved {
        return false;
      }
      if G[s][0] != 0 && T[n][0] == 0 {
        return false;
      }
      if G[s][1] != 0 && T[n][1] == 0 {
        return false;
      }
      if G[s][2] != 0 && T[n][2] == 0 {
        return false;
      }
      var sharable := CalculateSharableBw(n, s);
      eligible := sharable + B[n] != 0.0;
    }

    /** Move resources from the NIC and from the demand to the allocation. */
    method Move(n: nat, s: nat, r: Vec)
      requires Shape(State(), W) && s < |G| && n < |T|
      modifies this`G, this`T, this`A
      ensures G == old(G)[s := Minus(old(G[s]), r)] && T == old(T)[n := Minus(old(T[n]), r)]
      ensures A == Updated(old(A), s, n, Plus(old(A[s][n]), r))
    {
      var a := ResourceAdd(A[s][n], r);
      A := Updated(A, s, n, a);
      var g := ResourceMinus(G[s], r);
      G := G[s := g];
      var t := ResourceMinus(T[n], r);
      T := T[n := t];
    }

    /** Allocate as much as the bandwidth allows; `found` is false where Python yields None. */
    method AllocateOnBw(allocable: real, n: nat, s: nat) returns (found: bool, bw: real)
      requires Valid() && s < |G| && n < |T| && allocable == Allocable(State(), W, n, s)
      requires allocable < Load(Min(G[s][Hot(W[s])], T[n][Hot(W[s])]), W[s][Hot(W[s])])
      modifies this`G, this`T, this`A
      ensures var d, h := Units(old(State()), W, n, s), Hot(W[s]);
        && G == old(G)[s := Minus(old(G[s]), At(h, d))] && T == old(T)[n := Minus(old(T[n]), At(h, d))]
        && A == Updated(old(A), s, n, Plus(old(A[s][n]), At(h, d)))
        && d >= 0 && (found <==> d > 0) && (found ==> bw == Load(d, W[s][h]))
    {
      hide Allocable, Balanced, Sound;
      BandwidthLimits(State(), W, n, s);
      var d := ResourceDivide(allocable, W[s]);
      ghost var h := Hot(W[s]);
      LargestIsUnits(State(), W, n, s, d[h]);
      assert d == At(h, d[h]);
      Move(n, s, d);
      var products := ResourceMultiply(d, W[s]);
      OneProduct(d, W[s]);
      found, bw := ResourceGetOneHot(products);
    }

    /** Place a stage on one NIC: every branch gives it as much as demand, resources and bandwidth allow.
        Only where bandwidth leaves no room for one unit does the step fail. */
    method AllocateOneSnic(n: nat, s: nat) returns (ok: bool)
      requires Valid() && s < |G| && n < |T|
      modifies this
      ensures Placed(n, s, ok)
    {
      var required := CalculateRequiredBw(G[s], W[s]);
      var sharable := CalculateSharableBw(n, s);
      if (s != 0 && required > sharable) || s == 0 {
        ok := AllocateLimited(n, s, required, sharable);
      } else {
        AllocateShared(n, s);
        ok := true;
      }
    }

    twostate predicate Placed(n: nat, s: nat, ok: bool)
      requires old(Valid()) && s < |old(G)| && n < |old(T)|
      reads this
    {
      var c, h := old(State()), Hot(W[s]);
      && State() == Place(c, W, n, s, Units(c, W, n, s))
      && (ok <==> Units(c, W, n, s) > 0 || c.G[s][h] == 0 || c.T[n][h] == 0)
    }

    /** The stage needs bandwidth of its own. */
    method AllocateLimited(n: nat, s: nat, required: real, sharable: real) returns (ok: bool)
      requires Valid() && s < |G| && n < |T|
      requires required == Required(G[s], W[s]) && sharable == Share(A, W, n, s)
      modifies this
      ensures Placed(n, s, ok)
    {
      hide Balanced, Sound, Required, Load, Share, Units, Place, Updated, Plus, Minus, OneHot;
      ghost var c, h := State(), Hot(W[s]);
      StepFacts(c, W, n, s);
      var idle := B[n];
      var allocable := sharable + idle;
      var bw;
      ok := true;
      var enough := ResourceGeq(T[n], G[s]);
      if !enough {
        var carried := CalculateRequiredBw(T[n], W[s]);
        if carried <= allocable {
          var r := ResourceMin(G[s], T[n]);
          bw := CalculateRequiredBw(r, W[s]);
          UnitsAre(c, W, n, s, T[n][h]);
          assert r == At(h, T[n][h]);
          Move(n, s, r);
        } else {
          ok, bw := AllocateOnBw(allocable, n, s);
        }
      } else {
        if required <= allocable {
          bw := required;
          UnitsAre(c, W, n, s, G[s][h]);
          assert G[s] == At(h, G[s][h]);
          Move(n, s, G[s]);
        } else {
          ok, bw := AllocateOnBw(allocable, n, s);
        }
      }
      ghost var d := Units(c, W, n, s);
      if ok {
        B := B[n := MinReal(idle, allocable - bw)];
      } else {
        NoUnits(idle, allocable, W[s][h]);
        assert d == 0 && B == B[n := idle];
      }
      PlaceIs(c, W, n, s, d, State());
    }

    /** The previous stage's bandwidth on the NIC is enough. */
    method AllocateShared(n: nat, s: nat)
      requires Valid() && 0 < s < |G| && n < |T| && Required(G[s], W[s]) <= Share(A, W, n, s)
      modifies this
      ensures Placed(n, s, true)
    {
      hide Balanced, Sound, Required, Load, Share, Units, Place, Updated, Plus, Minus, OneHot;
      ghost var c, h := State(), Hot(W[s]);
      ghost var d := Min(G[s][h], T[n][h]);
      StepFacts(c, W, n, s);
      LoadGrows(d, G[s][h], W[s][h]);
      UnitsAre(c, W, n, s, d);
      var enough := ResourceGeq(T[n], G[s]);
      if !enough {
        var r := ResourceMin(G[s], T[n]);
        assert r == At(h, d);
        Move(n, s, r);
      } else {
        assert G[s] == At(h, d);
        Move(n, s, G[s]);
      }
      assert B == B[n := MinReal(B[n], Allocable(c, W, n, s) - Load(d, W[s][h]))];
      PlaceIs(c, W, n, s, d, State());
    }

    /** The NICs a stage was placed on, one visit each. */
    ghost predicate Visited(s: nat, visited: seq<nat>)
      requires Shape(State(), W) && s < |G|
      reads this
    {
      && (forall i, j :: 0 <= i < j < |visited| ==> visited[i] != visited[j])
      && (forall n :: n in visited ==> n in nics)
      && (forall n :: 0 <= n < |T| ==> (n in visited <==> A[s][n] != ZERO))
    }

    /** Why a stage cannot be placed: no NIC qualifies, or the best one has no bandwidth for one unit. */
    ghost predicate Stuck(s: nat)
      requires Shape(State(), W) && s < |G| && Known(State(), nics)
      reads this
    {
      && G[s] != ZERO
      && ((forall m :: m in nics ==> T[m][Hot(W[s])] == 0 || A[s][m] != ZERO || Share(A, W, m, s) + B[m] == 0.0) ||
          exists n :: n in nics && Blocked(n, s))
    }

    ghost predicate Blocked(n: nat, s: nat)
      requires Shape(State(), W) && s < |G| && n < |T| && Known(State(), nics)
      reads this
    {
      && T[n][Hot(W[s])] > 0 && A[s][n] == ZERO && 0.0 < Share(A, W, n, s) + B[n] < W[s][Hot(W[s])]
      && forall m | m in nics && m != n ::
           T[m][Hot(W[s])] != 0 && A[s][m] == ZERO && Share(A, W, m, s) + B[m] != 0.0 ==>
           Ahead(State(), W, s, nics, n, m)
    }

    /** Place a stage until its demand is met, at most once on each NIC. */
    method AllocateStage(s: nat) returns (ok: bool, ghost visited: seq<nat>)
      requires Valid() && s < |G| && Unserved(State(), s)
      modifies this
      ensures Valid() && Unserved(State(), s + 1)
      ensures ok ==> G[s] == ZERO
      ensures !ok ==> Stuck(s)
      ensures Visited(s, visited) && |visited| <= |nics|
      ensures |G| == |old(G)| && forall t :: 0 <= t < |G| && t != s ==> G[t] == old(G[t])
    {
      hide Balanced, Sound, Eligible, Units, Ahead, Allocable, Share;
      visited := [];
      ok := true;
      var met := ResourceEq(G[s], ZERO);
      while !met
        invariant Valid() && Unserved(State(), s + 1) && Visited(s, visited)
        invariant |G| == |old(G)| && forall t :: 0 <= t < |G| && t != s ==> G[t] == old(G[t])
        invariant met <==> G[s] == ZERO
        decreases G[s][Hot(W[s])]
      {
        ghost var c := State();
        var n := FindNextSnic(s);
        if n == None {
          ok := false;
          break;
        }
        EligibleFacts(c, W, n.value, s);
        PlaceBalanced(c, initial, W, n.value, s);
        PlaceEffect(c, W, n.value, s, Units(c, W, n.value, s));
        ok := AllocateOneSnic(n.value, s);
        if !ok {
          NoRoom(c, W, n.value, s);
          AllocableIs(c, W, n.value, s);
          assert Blocked(n.value, s);
          break;
        }
        visited := visited + [n.value];
        met := ResourceEq(G[s], ZERO);
      }
      Pigeonhole(visited, nics);
    }

    /** Place all stages, in their order. */
    method ResourceAllocation() returns (ok: bool)
      requires Valid() && Unserved(State(), 0)
      modifies this
      ensures Valid() && |G| == |initial.G| && |T| == |initial.T|
      ensures !ok ==> exists s :: 0 <= s < |G| && Stuck(s)
      ensures ok ==> forall s, i :: 0 <= s < |G| && 0 <= i < 3 ==>
                       G[s][i] == 0 && OfStage(A[s], i, |T|) == initial.G[s][i]
      ensures forall s, n :: 0 <= s < |G| && 0 <= n < |T| ==> Required(A[s][n], W[s]) <= initial.B[n]
    {
      ok := true;
      var s := 0;
      while s < |G|
        invariant s <= |G| && Valid() && Unserved(State(), s)
        invariant forall t :: 0 <= t < s ==> G[t] == ZERO
        invariant ok
      {
        ghost var visited;
        ok, visited := AllocateStage(s);
        if !ok {
          break;
        }
        s := s + 1;
      }
      Served(State(), initial, W);
    }
  }

  /** The books balance at the start. */
  lemma StartBalanced(c: Cluster, W: seq<Rate>)
    requires Shape(c, W) && Unserved(c, 0)
    ensures Balanced(c, c, W)
  {
    forall n, i | 0 <= n < |c.T| && 0 <= i < 3
      ensures OnNic(c.A, n, i, |c.A|) == 0
    {
      NoneOnNic(c.A, n, i, |c.A|);
    }
    forall s, i | 0 <= s < |c.G| && 0 <= i < 3
      ensures OfStage(c.A[s], i, |c.T|) == 0
    {
      NoneOfStage(c.A[s], i, |c.T|);
    }
    forall n | 0 <= n < |c.B|
      ensures Used(c.A, W, n, |c.A|) == 0.0
    {
      NoneUsed(c.A, W, n, |c.A|);
    }
  }

  lemma {:induction false} NoneOnNic(A: seq<seq<Vec>>, n: nat, i: nat, k: nat)
    requires i < 3 && k <= |A| && forall s :: 0 <= s < k ==> n < |A[s]| && A[s][n] == ZERO
    ensures OnNic(A, n, i, k) == 0
  {
    if k > 0 { NoneOnNic(A, n, i, k - 1); }
  }

  lemma {:induction false} NoneOfStage(row: seq<Vec>, i: nat, k: nat)
    requires i < 3 && k <= |row| && forall n :: 0 <= n < k ==> row[n] == ZERO
    ensures OfStage(row, i, k) == 0
  {
    if k > 0 { NoneOfStage(row, i, k - 1); }
  }

  lemma {:induction false} NoneUsed(A: seq<seq<Vec>>, W: seq<Rate>, n: nat, k: nat)
    requires k <= |A| <= |W| && forall t :: 0 <= t < |A| ==> n < |A[t]| && A[t][n] == ZERO
    ensures Used(A, W, n, k) == 0.0
  {
    if k > 0 {
      NoneUsed(A, W, n, k - 1);
      RequiredNone(W[k - 1]);
    }
  }

  /** The largest product is the one of the resource that the previous stage uses. */
  lemma SharedProducts(c: Cluster, W: seq<Rate>, n: nat, s: nat)
    requires Sound(c, W) && InRange(c, W, s, n) && s > 0
    ensures var a, w := c.A[s - 1][n], W[s - 1];
      Required(a, w) == MaxReal(MaxReal(Product(a, w, 0), Product(a, w, 1)), Product(a, w, 2))
  {
    var a, w := c.A[s - 1][n], W[s - 1];
    RequiredAt(a, w);
    NoProduct(a, w, 0);
    NoProduct(a, w, 1);
    NoProduct(a, w, 2);
  }

  lemma NoUnits(idle: real, allocable: real, w: real)
    requires allocable >= idle
    ensures MinReal(idle, allocable - Load(0, w)) == idle
  {
  }

  lemma LoadGrows(d: int, e: int, w: real)
    requires d <= e && w >= 0.0
    ensures Load(d, w) <= Load(e, w)
  {
    Scaled(d as real, e as real, w);
  }

  /** A number of units that fits and exhausts the demand or the NIC is what the stage gets. */
  lemma UnitsAre(c: Cluster, W: seq<Rate>, n: nat, s: nat, d: int)
    requires Sound(c, W) && InRange(c, W, s, n)
    requires var h := Hot(W[s]);
      d == Min(c.G[s][h], c.T[n][h]) && Load(d, W[s][h]) <= Allocable(c, W, n, s)
    ensures OneHot(W[s]) && Units(c, W, n, s) == d
  {
    UnitsLargest(c, W, n, s, d);
  }

  lemma StepFacts(c: Cluster, W: seq<Rate>, n: nat, s: nat)
    requires Sound(c, W) && InRange(c, W, s, n)
    ensures OneHot(W[s]) && W[s][Hot(W[s])] > 0.0 && OnlyAt(c.G[s], Hot(W[s])) && Natural(c.T[n]) && c.B[n] >= 0.0
    ensures Allocable(c, W, n, s) == Share(c.A, W, n, s) + c.B[n]
    ensures forall r: Vec :: r[Hot(W[s])] >= 0 ==> Required(r, W[s]) == Load(r[Hot(W[s])], W[s][Hot(W[s])])
  {
    hide Required;
    forall r: Vec | r[Hot(W[s])] >= 0
      ensures Required(r, W[s]) == Load(r[Hot(W[s])], W[s][Hot(W[s])])
    {
      RequiredAt(r, W[s]);
    }
  }

  lemma BandwidthLimits(c: Cluster, W: seq<Rate>, n: nat, s: nat)
    requires Sound(c, W) && InRange(c, W, s, n)
    ensures Allocable(c, W, n, s) >= 0.0 && OneHot(W[s])
  {
  }

  /** Where bandwidth is short, the largest number of units that fits it is what the stage gets. */
  lemma LargestIsUnits(c: Cluster, W: seq<Rate>, n: nat, s: nat, d: int)
    requires Sound(c, W) && InRange(c, W, s, n)
    requires var h := Hot(W[s]);
      && Largest(d, W[s][h], Allocable(c, W, n, s))
      && Allocable(c, W, n, s) < Load(Min(c.G[s][h], c.T[n][h]), W[s][h])
    ensures Units(c, W, n, s) == d
  {
    UnitsLargest(c, W, n, s, d);
    hide Allocable;
    var h := Hot(W[s]);
    var b := Allocable(c, W, n, s);
    FloorLargest(b, W[s][h]);
    LargestAbove(b, W[s][h], (b / W[s][h]).Floor, d);
    LargestAbove(b, W[s][h], d, (b / W[s][h]).Floor);
    LargestAbove(b, W[s][h], d, Min(c.G[s][h], c.T[n][h]));
  }

  lemma OneProduct(d: Vec, w: Rate)
    requires OneHot(w) && OnlyAt(d, Hot(w))
    ensures forall i :: 0 <= i < 3 && i != Hot(w) ==> Product(d, w, i) == 0.0
    ensures Product(d, w, Hot(w)) == Load(d[Hot(w)], w[Hot(w)])
    ensures Product(d, w, Hot(w)) != 0.0 <==> d[Hot(w)] > 0
  {
    var h := Hot(w);
    if d[h] > 0 { ScaledStrictly(0.0, d[h] as real, w[h]); }
  }

  // ----- a stage -------------------------------------------------------------------------------------

  /** A NIC that qualifies has units of what the stage still demands, and none of the stage's. */
  lemma EligibleFacts(c: Cluster, W: seq<Rate>, n: nat, s: nat)
    requires Sound(c, W) && InRange(c, W, s, n) && Eligible(c, W, n, s) && c.G[s] != ZERO
    ensures var h := Hot(W[s]); OneHot(W[s]) && c.G[s][h] > 0 && c.T[n][h] > 0 && c.A[s][n] == ZERO
    ensures Units(c, W, n, s) >= 0 && Share(c.A, W, n, s) + c.B[n] > 0.0
  {
    EligibleMeans(c, W, n, s);
    AllocableNatural(c, W, n, s);
    hide Share;
    UnitsLargest(c, W, n, s, 0);
    assert c.G[s] == At(Hot(W[s]), c.G[s][Hot(W[s])]);
  }

  lemma AllocableIs(c: Cluster, W: seq<Rate>, n: nat, s: nat)
    requires InRange(c, W, s, n)
    ensures Allocable(c, W, n, s) == Share(c.A, W, n, s) + c.B[n]
  {
  }

  lemma EligibleAll(c: Cluster, W: seq<Rate>, s: nat, nics: seq<nat>)
    requires Sound(c, W) && s < |c.G| && Known(c, nics)
    ensures c.G[s] != ZERO ==> forall m :: m in nics ==>
              (Eligible(c, W, m, s) <==>
               c.T[m][Hot(W[s])] != 0 && c.A[s][m] == ZERO && Share(c.A, W, m, s) + c.B[m] != 0.0)
    ensures forall m :: m in nics ==> Natural(c.T[m])
  {
    hide Eligible, Share;
    if c.G[s] != ZERO {
      forall m | m in nics
        ensures Eligible(c, W, m, s) <==>
                c.T[m][Hot(W[s])] != 0 && c.A[s][m] == ZERO && Share(c.A, W, m, s) + c.B[m] != 0.0
      {
        EligibleMeans(c, W, m, s);
      }
    }
  }

  lemma PlaceEffect(c: Cluster, W: seq<Rate>, n: nat, s: nat, d: int)
    requires Shape(c, W) && InRange(c, W, s, n) && c.A[s][n] == ZERO
    ensures var r, h := Place(c, W, n, s, d), Hot(W[s]);
      && r.G[s][h] == c.G[s][h] - d && (forall t :: 0 <= t < |c.G| && t != s ==> r.G[t] == c.G[t])
      && |r.T| == |c.T| && |r.G| == |c.G|
      && (forall m :: 0 <= m < |c.T| && m != n ==> r.A[s][m] == c.A[s][m])
      && (r.A[s][n] == ZERO <==> d == 0)
  {
    hide Allocable, Load, MinReal;
    var h := Hot(W[s]);
    assert Place(c, W, n, s, d).A[s][n] == Plus(ZERO, At(h, d));
    assert Plus(ZERO, At(h, d))[h] == d;
  }

  /** Where not even one unit was placed, nothing changed, and bandwidth is what is missing. */
  lemma NoRoom(c: Cluster, W: seq<Rate>, n: nat, s: nat)
    requires Sound(c, W) && InRange(c, W, s, n) && Units(c, W, n, s) <= 0
    requires c.G[s][Hot(W[s])] > 0 && c.T[n][Hot(W[s])] > 0
    ensures Place(c, W, n, s, Units(c, W, n, s)) == c && Allocable(c, W, n, s) < W[s][Hot(W[s])]
  {
    var h := Hot(W[s]);
    UnitsLargest(c, W, n, s, 1);
    AllocableNatural(c, W, n, s);
    hide Allocable, Units, Updated;
    NoUnits(c.B[n], Allocable(c, W, n, s), W[s][h]);
    assert Plus(c.A[s][n], At(h, 0)) == c.A[s][n] && Minus(c.G[s], At(h, 0)) == c.G[s];
    assert Minus(c.T[n], At(h, 0)) == c.T[n];
    SameRows(c.A, s, n);
    assert c.G[s := c.G[s]] == c.G && c.T[n := c.T[n]] == c.T && c.B[n := c.B[n]] == c.B;
  }

  lemma SameRows(A: seq<seq<Vec>>, s: nat, n: nat)
    requires s < |A| && n < |A[s]|
    ensures Updated(A, s, n, A[s][n]) == A
  {
    assert A[s][n := A[s][n]] == A[s];
  }

  function Elements(v: seq<nat>): set<nat> {
    set n | n in v
  }

  /** Distinct elements of a sequence are not more than its length. */
  lemma Pigeonhole(visited: seq<nat>, nics: seq<nat>)
    requires forall i, j :: 0 <= i < j < |visited| ==> visited[i] != visited[j]
    requires forall n :: n in visited ==> n in nics
    ensures |visited| <= |nics|
  {
    ElementCount(visited);
    ElementCount(nics);
    SubsetCount(Elements(visited), Elements(nics));
  }

  lemma {:induction false} ElementCount(v: seq<nat>)
    ensures |Elements(v)| <= |v|
    ensures (forall i, j :: 0 <= i < j < |v| ==> v[i] != v[j]) ==> |Elements(v)| == |v|
  {
    if v != [] {
      var rest := v[..|v| - 1];
      ElementCount(rest);
      assert v == rest + [v[|v| - 1]];
      assert Elements(v) == Elements(rest) + {v[|v| - 1]};
    }
  }

  lemma {:induction false} SubsetCount(a: set<nat>, b: set<nat>)
    requires a <= b
    ensures |a| <= |b|
  {
    if a != {} {
      var x :| x in a;
      SubsetCount(a - {x}, b - {x});
    }
  }

  /** What the balanced books say about the original demands and bandwidths. */
  lemma Served(c: Cluster, c0: Cluster, W: seq<Rate>)
    requires Sound(c, W) && Balanced(c, c0, W)
    ensures |c.G| == |c0.G| && |c.T| == |c0.T| && |c.B| == |c0.B|
    ensures forall s, i :: 0 <= s < |c.G| && 0 <= i < 3 && c.G[s] == ZERO ==> OfStage(c.A[s], i, |c.T|) == c0.G[s][i]
    ensures forall s, n :: 0 <= s < |c.G| && 0 <= n < |c.T| ==> Required(c.A[s][n], W[s]) <= c0.B[n]
  {
    hide Required, OfStage;
    forall s, n | 0 <= s < |c.G| && 0 <= n < |c.T|
      ensures Required(c.A[s][n], W[s]) <= c0.B[n]
    {
      ShareBounded(c, c0.B, W, n, s);
    }
  }
}
