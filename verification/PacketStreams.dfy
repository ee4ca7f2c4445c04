/** Streams of stamped packets in the order in which they arrive somewhere. */
module PacketStreams {
  import opened PacketTypes
  import opened Words

  /** A stamped packet: its 32-bit number stands for its place in the stream, which is its identity. */
  predicate Stamped(p: Packet) {
    p.seqn == p.id % MOD
  }

  ghost predicate Distinct(ps: seq<Packet>) {
    forall i, j :: 0 <= i < j < |ps| ==> ps[i].id != ps[j].id
  }

  function Ids(ps: seq<Packet>): set<nat> {
    set p | p in ps :: p.id
  }

  /** Distinct stamped packets. */
  ghost predicate Stream(ps: seq<Packet>) {
    Distinct(ps) && forall p :: p in ps ==> Stamped(p)
  }

  /** The packets are those of the first `|ps|` places, in some order. */
  ghost predicate Complete(ps: seq<Packet>) {
    Stream(ps) && forall k: nat :: k in Ids(ps) <==> k < |ps|
  }

  /** Packet `k` is not among the first `t`. */
  predicate Missing(ps: seq<Packet>, k: nat, t: nat)
    requires t <= |ps|
  {
    forall u :: 0 <= u < t ==> ps[u].id != k
  }

  /** No packet comes `d` or more places ahead of one that has not come yet. */
  ghost predicate Close(ps: seq<Packet>, d: nat) {
    CloseFrom(ps, 0, d)
  }

  ghost predicate CloseFrom(ps: seq<Packet>, from: nat, d: nat) {
    forall t, k :: from <= t < |ps| && 0 <= k && Missing(ps, k, t) ==> ps[t].id < k + d
  }

  // ----- counting --------------------------------------------------------------------------------

  /** Distinct numbers below `m` are at most `m`. */
  lemma {:induction false} Pigeonhole(ids: set<nat>, m: nat)
    requires forall k :: k in ids ==> k < m
    ensures |ids| <= m
  {
    if m > 0 {
      Pigeonhole(ids - {m - 1}, m - 1);
    } else {
      assert ids == {};
    }
  }

  lemma {:induction false} AllBelow(m: nat, ids: set<nat>)
    requires forall k :: 0 <= k < m ==> k in ids
    ensures |ids| >= m
  {
    if m > 0 {
      AllBelow(m - 1, ids - {m - 1});
    }
  }

  lemma Tail(p: Packet, rest: seq<Packet>)
    requires Distinct([p] + rest)
    ensures Distinct(rest)
    ensures forall q :: q in rest ==> q.id != p.id && q in [p] + rest
  {
    var all := [p] + rest;
    forall i, j | 0 <= i < j < |rest|
      ensures rest[i].id != rest[j].id
    {
      assert all[i + 1] == rest[i] && all[j + 1] == rest[j];
    }
    forall q | q in rest
      ensures q.id != p.id
    {
      var i :| 0 <= i < |rest| && rest[i] == q;
      assert all[0] == p && all[i + 1] == q;
    }
  }

  lemma {:induction false} IdsCount(ps: seq<Packet>)
    requires Distinct(ps)
    ensures |Ids(ps)| == |ps|
  {
    if ps != [] {
      Tail(ps[0], ps[1..]);
      assert ps == [ps[0]] + ps[1..];
      IdsCount(ps[1..]);
      assert Ids(ps) == {ps[0].id} + Ids(ps[1..]);
    }
  }

  // ----- the first packets of a stream -------------------------------------------------------------

  /** The packets with the numbers `Ids(all[..t])` are the first `t`. */
  lemma MissingMeans(all: seq<Packet>, k: nat, t: nat)
    requires t <= |all|
    ensures Missing(all, k, t) <==> k !in Ids(all[..t])
  {
    if k in Ids(all[..t]) {
      var p :| p in all[..t] && p.id == k;
      var u :| 0 <= u < t && all[u] == p;
    } else {
      forall u | 0 <= u < t
        ensures all[u].id != k
      {
        assert all[u] in all[..t];
      }
    }
  }

  lemma DistinctFront(all: seq<Packet>, t: nat)
    requires t <= |all| && Distinct(all)
    ensures Distinct(all[..t])
    ensures t < |all| ==> all[t].id !in Ids(all[..t]) && Ids(all[..t + 1]) == Ids(all[..t]) + {all[t].id}
  {
    if t < |all| {
      MissingMeans(all, all[t].id, t);
      assert all[..t + 1] == all[..t] + [all[t]];
    }
  }

  /** If the first `f` numbers are all among the first `t` packets, there are not fewer packets than that. */
  lemma FrontCount(all: seq<Packet>, t: nat, f: nat)
    requires t <= |all| && Distinct(all) && forall k :: 0 <= k < f ==> k in Ids(all[..t])
    ensures f <= t
  {
    DistinctFront(all, t);
    IdsCount(all[..t]);
    AllBelow(f, Ids(all[..t]));
  }

  /** In a close stream there are not many packets behind the first number missing. */
  lemma BelowMissing(all: seq<Packet>, k: nat, t: nat, d: nat)
    requires t <= |all| && Distinct(all) && Close(all, d) && Missing(all, k, t)
    ensures t <= k + d
  {
    DistinctFront(all, t);
    IdsCount(all[..t]);
    forall p | p in all[..t]
      ensures p.id < k + d
    {
      var u :| 0 <= u < t && all[u] == p;
      assert Missing(all, k, u);
    }
    Pigeonhole(Ids(all[..t]), k + d);
  }

  /** A number that is not yet among the first `t + 1` packets of a complete stream comes behind them. */
  lemma ComesLater(all: seq<Packet>, t: nat, k: nat) returns (p: Packet)
    requires t < |all| && Complete(all) && k < |all| && k !in Ids(all[..t]) && k != all[t].id
    ensures p in all[t + 1..] && p.id == k
  {
    assert k in Ids(all);
    p :| p in all && p.id == k;
    var u :| 0 <= u < |all| && all[u] == p;
    MissingMeans(all, k, t);
    assert all[t + 1..][u - (t + 1)] == p;
  }
}
