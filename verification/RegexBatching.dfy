/** Batching packets for the regular-expression engine, one batch for each queue. */
module RegexBatching {
  import opened PacketTypes
  import opened Words

  /** A job for the engine: the packet it scans and the number stored with it. */
  datatype Op = Op(packet: Packet, id: nat)

  /** The counters of one queue. */
  datatype Core = Core(totalEnqueued: nat, totalDequeued: nat, bufId: nat, opOffset: nat)

  /** The jobs that the packets of a queue make, numbered from 1. */
  function Jobs(packets: seq<Packet>): (r: seq<Op>)
    ensures |r| == |packets|
  {
    seq(|packets|, i requires 0 <= i < |packets| => Op(packets[i], i + 1))
  }

  lemma JobsAppend(packets: seq<Packet>, p: Packet)
    ensures Jobs(packets + [p]) == Jobs(packets) + [Op(p, |packets| + 1)]
  {
  }

  lemma {:induction false} WholeBatches(n: nat, k: nat, batch: nat)
    requires batch > 0
    ensures (n + k * batch) % batch == n % batch && (n < batch ==> n % batch == n)
    decreases k
  {
    if k > 0 {
      WholeBatches(n, k - 1, batch);
      assert n + k * batch == (n + (k - 1) * batch) + batch;
      OneBatch(n + (k - 1) * batch, batch);
    }
  }

  lemma OneBatch(x: nat, batch: nat)
    requires batch > 0
    ensures (x + batch) % batch == x % batch
  {
    RemainderUnique(x + batch, batch, x / batch + 1, x % batch);
  }

  lemma {:induction false} Ordered(q: nat, r: nat, m: nat)
    requires q < r
    ensures q * m + m <= r * m
    decreases r
  {
    if q + 1 < r { Ordered(q, r - 1, m); }
    NextMultiple(r - 1, m);
  }

  lemma NextMultiple(r: nat, m: nat)
    ensures (r + 1) * m == r * m + m
  {
  }

  // ----- how often the device answers --------------------------------------------------------------------

  /** How many of the polls of queue `q`, from the `a`-th up to the `b`-th, the device has finished jobs for. */
  function Replies(answers: (nat, nat) -> nat, q: nat, a: nat, b: nat): (n: nat)
    requires a <= b
    ensures n <= b - a
    decreases b
  {
    if a == b then 0 else Replies(answers, q, a, b - 1) + if answers(q, b - 1) > 0 then 1 else 0
  }

  lemma RepliesNext(answers: (nat, nat) -> nat, q: nat, a: nat, b: nat)
    requires a <= b
    ensures Replies(answers, q, a, b + 1) == Replies(answers, q, a, b) + if answers(q, b) > 0 then 1 else 0
    ensures Replies(answers, q, a, a) == 0
  {
  }

  lemma {:induction false} RepliesAdd(answers: (nat, nat) -> nat, q: nat, a: nat, b: nat, c: nat)
    requires a <= b <= c
    ensures Replies(answers, q, a, c) == Replies(answers, q, a, b) + Replies(answers, q, b, c)
    decreases c
  {
    if b < c { RepliesAdd(answers, q, a, b, c - 1); }
  }

  /** Among any `gap` polls of queue `q` in a row, the device has finished jobs for one. */
  ghost predicate Answering(answers: (nat, nat) -> nat, q: nat, gap: nat) {
    forall a: nat :: AnswersWithin(answers, q, a, gap)
  }

  ghost predicate AnswersWithin(answers: (nat, nat) -> nat, q: nat, a: nat, gap: nat) {
    exists t: nat :: a <= t < a + gap && answers(q, t) > 0
  }

  lemma {:induction false} RepliesSome(answers: (nat, nat) -> nat, q: nat, a: nat, b: nat, t: nat)
    requires a <= t < b && answers(q, t) > 0
    ensures Replies(answers, q, a, b) > 0
    decreases b
  {
    if t < b - 1 { RepliesSome(answers, q, a, b - 1, t); }
  }

  lemma {:induction false} RepliesEnough(answers: (nat, nat) -> nat, q: nat, gap: nat, a: nat, b: nat, k: nat)
    requires Answering(answers, q, gap) && a + k * gap <= b
    ensures Replies(answers, q, a, b) >= k
    decreases k
  {
    if k > 0 {
      NextMultiple(k - 1, gap);
      assert AnswersWithin(answers, q, a, gap);
      var t: nat :| a <= t < a + gap && answers(q, t) > 0;
      RepliesSome(answers, q, a, a + gap, t);
      RepliesEnough(answers, q, gap, a + gap, b, k - 1);
      RepliesAdd(answers, q, a, a + gap, b);
    }
  }

  /** Two sequences agree except at one place. */
  predicate Elsewhere<T(==)>(s: seq<T>, t: seq<T>, i: nat) {
    |s| == |t| && forall k :: 0 <= k < |s| && k != i ==> s[k] == t[k]
  }

  lemma NothingElsewhere<T>(s: seq<T>, i: nat)
    ensures Elsewhere(s, s, i)
  {
  }

  lemma StillElsewhere<T>(s: seq<T>, t: seq<T>, i: nat, x: T)
    requires i < |s| && Elsewhere(s, t, i)
    ensures Elsewhere(s[i := x], t, i)
  {
  }

  lemma LeastIs(a: nat, b: nat)
    ensures Least(a, b) == if a <= b then a else b
  {
  }

  /** Of `flight` jobs all are counted by now, or as many as there were polls with an answer. */
  predicate Reached(answers: (nat, nat) -> nat, q: nat, a: nat, b: nat, counted: nat, flight: nat, now: nat)
    requires a <= b
  {
    now >= Least(counted + flight, counted + Replies(answers, q, a, b))
  }

  /** One more poll takes back as many jobs as the device answers, a batch holds and are in flight. */
  lemma ReachedNext(answers: (nat, nat) -> nat, q: nat, a: nat, b: nat, counted: nat, flight: nat, now: nat, left: nat,
                    maxBatch: nat)
    requires a <= b && Reached(answers, q, a, b, counted, flight, now) && now + left >= counted + flight && maxBatch > 0
    ensures var num := Least(Least(answers(q, b), maxBatch), left);
      num <= left && Reached(answers, q, a, b + 1, counted, flight, now + num)
  {
    hide Replies;
    RepliesNext(answers, q, a, b);
  }

  lemma ReachedNothing(answers: (nat, nat) -> nat, q: nat, a: nat, counted: nat, flight: nat)
    ensures Reached(answers, q, a, a, counted, flight, counted)
  {
  }

  /** If the device keeps answering, `flight` jobs are counted after `flight` times the longest it goes without an
      answer. */
  lemma Counted(answers: (nat, nat) -> nat, q: nat, a: nat, b: nat, counted: nat, flight: nat, now: nat)
    requires a <= b && Reached(answers, q, a, b, counted, flight, now)
    ensures forall gap: nat :: Answering(answers, q, gap) && flight * gap <= b - a ==> now >= counted + flight
  {
    hide Replies, Answering;
    forall gap: nat | Answering(answers, q, gap) && flight * gap <= b - a
      ensures now >= counted + flight
    {
      RepliesEnough(answers, q, gap, a, b, flight);
    }
  }

  class Engine {
    const queues: nat
    const maxBatch: nat
    var cores: seq<Core>
    /** `maxBatch` slots for queue 0, then as many for queue 1, and so on. */
    const slots: array<Op>

    /** How many jobs the device is ready to take at its `attempts`-th offer, and how many of a queue it is ready to
        give back at the queue's `polls`-th poll. */
    const accepts: nat -> nat
    const answers: (nat, nat) -> nat
    var attempts: nat
    var polls: seq<nat>
    /** The offer from a given one on at which the device is ready to take a job again. */
    ghost const due: nat -> nat
    /** The jobs of each queue that the device has taken and not given back. */
    var inFlight: seq<nat>

    /** The packets given to each queue, and the jobs that the device has taken from it. */
    ghost var given: seq<seq<Packet>>
    ghost var taken: seq<seq<Op>>

    ghost predicate Eventually()
    {
      forall t :: due(t) >= t && accepts(due(t)) > 0
    }

    ghost predicate Shape()
      reads this`cores, this`given, this`taken, this`inFlight, this`polls
    {
      |cores| == |given| == |taken| == |inFlight| == |polls| == queues && slots.Length == queues * maxBatch
    }

    function Base(q: nat): (b: nat)
      requires q < queues
      ensures b == q * maxBatch && b + maxBatch <= queues * maxBatch
    {
      Ordered(q, queues, maxBatch);
      q * maxBatch
    }

    /** The jobs of the batch that a queue is filling. */
    ghost function Pending(q: nat): seq<Op>
      requires Shape() && q < queues && cores[q].opOffset <= maxBatch
      reads this`cores, this`given, this`taken, this`inFlight, this`polls, slots
    {
      slots[Base(q)..Base(q) + cores[q].opOffset]
    }

    /** Every packet of the queue is a job that the device took or the batch holds, once and in order. */
    ghost predicate QueueValid(q: nat)
      requires Shape() && q < queues
      reads this`cores, this`given, this`taken, this`inFlight, this`polls, slots
    {
      var k := cores[q];
      && k.opOffset <= maxBatch
      && taken[q] + Pending(q) == Jobs(given[q])
      && k.bufId == |given[q]| && k.totalEnqueued == |taken[q]| && k.totalDequeued + inFlight[q] == k.totalEnqueued
    }

    ghost predicate Valid()
      reads this`cores, this`given, this`taken, this`inFlight, this`polls, slots
    {
      && Shape() && Eventually() && 0 < maxBatch <= 0xFFFF
      && forall q :: 0 <= q < queues ==> QueueValid(q) && cores[q].opOffset < maxBatch && |taken[q]| % maxBatch == 0
    }

    /** Slots of different queues are different. */
    lemma Disjoint(q: nat, r: nat)
      requires q < queues && r < queues && q != r
      ensures Base(q) + maxBatch <= Base(r) || Base(r) + maxBatch <= Base(q)
    {
      if q < r {
        Ordered(q, r, maxBatch);
      } else {
        Ordered(r, q, maxBatch);
      }
    }

    constructor (queues: nat, maxBatch: nat, empty: Op, accepts: nat -> nat, answers: (nat, nat) -> nat,
                 ghost due: nat -> nat)
      requires 0 < maxBatch <= 0xFFFF && forall t :: due(t) >= t && accepts(due(t)) > 0
      ensures Valid() && this.queues == queues && this.maxBatch == maxBatch
      ensures forall q :: 0 <= q < queues ==> given[q] == [] && taken[q] == []
    {
      this.queues, this.maxBatch, this.accepts, this.answers, this.due := queues, maxBatch, accepts, answers, due;
      attempts, polls := 0, seq(queues, _ => 0);
      cores := seq(queues, _ => Core(0, 0, 0, 0));
      inFlight := seq(queues, _ => 0);
      given, taken := seq(queues, _ => []), seq(queues, _ => []);
      slots := new Op[queues * maxBatch](_ => empty);
      new;
      WholeBatches(0, 0, maxBatch);
      assert forall q :: 0 <= q < queues ==> Pending(q) == [] == Jobs([]);
    }

    /** The device takes the first jobs of the `n` that stand from slot `from` on. */
    method EnqueueBurst(q: nat, from: nat, n: nat) returns (ret: nat)
      requires q < |taken| == |inFlight| && from + n <= slots.Length
      modifies this`attempts, this`taken, this`inFlight
      ensures ret == Least(accepts(old(attempts)), n) && attempts == old(attempts) + 1
      ensures taken == old(taken)[q := old(taken[q]) + slots[from..from + ret]]
      ensures inFlight == old(inFlight)[q := old(inFlight[q]) + ret]
    {
      ret := Least(accepts(attempts), n);
      attempts := attempts + 1;
      taken := taken[q := taken[q] + slots[from..from + ret]];
      inFlight := inFlight[q := inFlight[q] + ret];
    }

    /** Every job of the queue that the device had taken is counted, or as many more as there were polls that the
        device had finished jobs for. */
    twostate predicate Advances(q: nat)
      requires q < |old(cores)| == |old(inFlight)| == |old(polls)| && |cores| == |polls| == |old(cores)|
      reads this`cores, this`polls
    {
      && polls[q] >= old(polls[q])
      && Reached(answers, q, old(polls[q]), polls[q], old(cores[q].totalDequeued), old(inFlight[q]),
                 cores[q].totalDequeued)
    }

    /** Take back what the device has finished: one poll, and as many jobs as it answers, a batch holds and are in
        flight. */
    method DequeuePipeline(q: nat)
      requires q < |cores| == |inFlight| == |polls|
      modifies this`polls, this`cores, this`inFlight
      ensures var k, num := old(cores[q]), Least(Least(answers(q, old(polls[q])), maxBatch), old(inFlight[q]));
        && cores == old(cores)[q := k.(totalDequeued := k.totalDequeued + num)]
        && inFlight == old(inFlight)[q := old(inFlight[q]) - num]
      ensures polls == old(polls)[q := old(polls[q]) + 1]
      ensures maxBatch > 0 ==> Advances(q)
    {
      var num := Least(Least(answers(q, polls[q]), maxBatch), inFlight[q]);
      polls := polls[q := polls[q] + 1];
      inFlight := inFlight[q := inFlight[q] - num];
      cores := cores[q := cores[q].(totalDequeued := cores[q].totalDequeued + num)];
      ReachedNothing(answers, q, old(polls[q]), old(cores[q].totalDequeued), old(inFlight[q]));
      if maxBatch > 0 {
        ReachedNext(answers, q, old(polls[q]), old(polls[q]), old(cores[q].totalDequeued), old(inFlight[q]),
                    old(cores[q].totalDequeued), old(inFlight[q]), maxBatch);
      }
    }

    /** One turn of the retry loop: jobs are offered, and finished ones are taken back. */
    method OfferAndPoll(q: nat, from: nat, n: nat) returns (ret: nat)
      requires q < |taken| == |inFlight| == |cores| == |polls| && from + n <= slots.Length
      modifies this`attempts, this`polls, this`cores, this`taken, this`inFlight
      ensures ret == Least(accepts(old(attempts)), n) && attempts == old(attempts) + 1
      ensures taken == old(taken)[q := old(taken[q]) + slots[from..from + ret]]
      ensures polls == old(polls)[q := old(polls[q]) + 1]
      ensures var k, num := old(cores[q]), Least(Least(answers(q, old(polls[q])), maxBatch), old(inFlight[q]) + ret);
        && cores == old(cores)[q := k.(totalDequeued := k.totalDequeued + num)]
        && inFlight == old(inFlight)[q := old(inFlight[q]) + ret - num]
    {
      hide Replies;
      ret := EnqueueBurst(q, from, n);
      DequeuePipeline(q);
    }

    /** Offer a queue's slots to the device until it has taken the first `toEnqueue` of them. */
    method OfferAll(q: nat, toEnqueue: nat) returns (numEnqueued: nat)
      requires |cores| == |taken| == |inFlight| == |polls| == queues && slots.Length == queues * maxBatch
      requires q < queues && toEnqueue <= maxBatch && Eventually() && maxBatch > 0
      modifies this`attempts, this`polls, this`cores, this`taken, this`inFlight
      ensures numEnqueued == toEnqueue && |cores| == |taken| == |inFlight| == |polls| == queues
      ensures taken[q] == old(taken[q]) + slots[Base(q)..Base(q) + toEnqueue]
      ensures cores[q] == old(cores[q]).(totalDequeued := cores[q].totalDequeued)
      ensures cores[q].totalDequeued + inFlight[q] == old(cores[q].totalDequeued + inFlight[q]) + toEnqueue
      ensures Elsewhere(cores, old(cores), q) && Elsewhere(taken, old(taken), q)
      ensures Elsewhere(inFlight, old(inFlight), q) && Elsewhere(polls, old(polls), q)
      ensures Advances(q) && polls[q] - old(polls[q]) == attempts - old(attempts)
      ensures toEnqueue > 0 ==> attempts > old(attempts)
    {
      hide Base, Eventually, Replies, Reached, Least, Elsewhere;
      NothingElsewhere(cores, q);
      NothingElsewhere(taken, q);
      NothingElsewhere(inFlight, q);
      NothingElsewhere(polls, q);
      numEnqueued := 0;
      var qOffset := Base(q);
      ghost var limit := due(attempts);
      Due(attempts);
      ReachedNothing(answers, q, polls[q], cores[q].totalDequeued, inFlight[q]);
      assert slots[qOffset..qOffset + 0] == [];
      while numEnqueued < toEnqueue
        invariant numEnqueued <= toEnqueue && |cores| == |taken| == |inFlight| == |polls| == queues
        invariant taken[q] == old(taken[q]) + slots[qOffset..qOffset + numEnqueued]
        invariant cores[q] == old(cores[q]).(totalDequeued := cores[q].totalDequeued)
        invariant cores[q].totalDequeued + inFlight[q] == old(cores[q].totalDequeued + inFlight[q]) + numEnqueued
        invariant Elsewhere(cores, old(cores), q) && Elsewhere(taken, old(taken), q)
        invariant Elsewhere(inFlight, old(inFlight), q) && Elsewhere(polls, old(polls), q)
        invariant Advances(q) && polls[q] - old(polls[q]) == attempts - old(attempts) >= 0
        invariant numEnqueued > 0 ==> attempts > old(attempts)
        invariant attempts <= limit && accepts(limit) > 0
        decreases toEnqueue - numEnqueued, limit - attempts
      {
        ghost var p, d, f := polls[q], cores[q].totalDequeued, inFlight[q];
        ghost var cores1, taken1, inFlight1, polls1 := cores, taken, inFlight, polls;
        LeastIs(accepts(attempts), toEnqueue - numEnqueued);
        var ret := OfferAndPoll(q, numEnqueued + qOffset, toEnqueue - numEnqueued);
        ReachedNext(answers, q, old(polls[q]), p, old(cores[q].totalDequeued), old(inFlight[q]), d, f + ret, maxBatch);
        Rejoin(old(taken[q]), qOffset, numEnqueued, ret);
        StillElsewhere(cores1, old(cores), q, cores[q]);
        StillElsewhere(taken1, old(taken), q, taken[q]);
        StillElsewhere(inFlight1, old(inFlight), q, inFlight[q]);
        StillElsewhere(polls1, old(polls), q, polls[q]);
        if ret > 0 {
          limit := due(attempts);
          Due(attempts);
        }
        numEnqueued := numEnqueued + ret;
      }
    }

    lemma Due(t: nat)
      requires Eventually()
      ensures due(t) >= t && accepts(due(t)) > 0
    {
    }

    lemma Rejoin(before: seq<Op>, from: nat, done: nat, ret: nat)
      requires from + done + ret <= slots.Length
      ensures before + slots[from..from + done] + slots[done + from..done + from + ret]
           == before + slots[from..from + (done + ret)]
    {
    }

    /** Send a queue's batch. */
    method SendOps(q: nat)
      requires Shape() && Eventually() && q < queues && forall r :: 0 <= r < queues ==> QueueValid(r)
      requires maxBatch > 0
      modifies this`attempts, this`polls, this`cores, this`taken, this`inFlight
      ensures Shape() && forall r :: 0 <= r < queues ==> QueueValid(r)
      ensures cores[q].opOffset == 0 && taken[q] == Jobs(given[q])
      ensures Advances(q) && (old(cores[q].opOffset) > 0 ==> polls[q] > old(polls[q]))
      ensures Apart(q)
    {
      assert QueueValid(q);
      hide Eventually, Replies;
      var toEnqueue := cores[q].opOffset;
      var numEnqueued := OfferAll(q, toEnqueue);
      var k := cores[q];
      cores := cores[q := k.(totalEnqueued := k.totalEnqueued + numEnqueued, opOffset := 0)];
      assert Pending(q) == [];
      forall r | 0 <= r < queues
        ensures QueueValid(r)
      {
        assert old(QueueValid(r));
        assert r != q ==> Pending(r) == old(Pending(r));
      }
    }

    /** The other queues are left alone. */
    twostate predicate Apart(q: nat)
      requires old(Shape()) && Shape()
      reads this`cores, this`given, this`taken, this`inFlight, this`polls
    {
      forall r :: 0 <= r < queues && r != q ==>
        && cores[r] == old(cores[r]) && taken[r] == old(taken[r]) && inFlight[r] == old(inFlight[r])
        && polls[r] == old(polls[r])
    }

    /** Hand a packet to the engine: a full batch is sent, otherwise finished jobs are taken back. */
    method Regex(q: nat, packet: Packet)
      requires Valid() && q < queues
      modifies this, slots
      ensures Valid() && given == old(given)[q := old(given[q]) + [packet]]
      ensures Advances(q) && polls[q] > old(polls[q]) && |taken[q]| >= |old(taken[q])|
      ensures Apart(q)
    {
      hide QueueValid, Replies;
      var toSend := SearchLive(q, packet);
      QueueFacts(q);
      if toSend {
        SendOps(q);
        WholeBatches(|old(taken[q])|, 1, maxBatch);
      } else {
        Poll(q);
      }
    }

    lemma QueueFacts(q: nat)
      requires Shape() && q < queues && QueueValid(q)
      ensures |given[q]| == |taken[q]| + cores[q].opOffset
      ensures cores[q].totalDequeued + inFlight[q] == |taken[q]| == cores[q].totalEnqueued
    {
    }

    /** Taking back finished jobs does not touch the batches. */
    method Poll(q: nat)
      requires Shape() && q < queues && forall r :: 0 <= r < queues ==> QueueValid(r)
      requires maxBatch > 0
      modifies this`polls, this`cores, this`inFlight
      ensures Shape() && forall r :: 0 <= r < queues ==> QueueValid(r)
      ensures var num := Least(Least(answers(q, old(polls[q])), maxBatch), old(inFlight[q]));
        && cores[q] == old(cores[q]).(totalDequeued := old(cores[q].totalDequeued) + num)
        && inFlight[q] == old(inFlight[q]) - num && polls[q] == old(polls[q]) + 1
      ensures Advances(q) && Apart(q)
    {
      hide Replies;
      DequeuePipeline(q);
      forall r | 0 <= r < queues
        ensures QueueValid(r)
      {
        assert old(QueueValid(r)) && Pending(r) == old(Pending(r));
      }
    }

    /** Hand packets to the engine one after the other.  If the device keeps answering, the jobs it had at first are
        all counted after as many packets as there were jobs, times the longest that it goes without an answer. */
    method Scan(q: nat, packets: seq<Packet>)
      requires Valid() && q < queues
      modifies this, slots
      ensures Valid() && given == old(given)[q := old(given[q]) + packets]
      ensures Advances(q) && polls[q] - old(polls[q]) >= |packets| && Apart(q)
      ensures forall gap: nat :: Answering(answers, q, gap) && old(inFlight[q]) * gap <= |packets| ==>
                cores[q].totalDequeued >= |old(taken[q])|
    {
      hide QueueValid, Answering;
      QueueFacts(q);
      ghost var p0, d0, f0 := polls[q], cores[q].totalDequeued, inFlight[q];
      assert old(given[q]) + packets[..0] == old(given[q]);
      var i := 0;
      while i < |packets|
        invariant i <= |packets|
        invariant Valid() && given == old(given)[q := old(given[q]) + packets[..i]]
        invariant Advances(q) && polls[q] - old(polls[q]) >= i && Apart(q)
        invariant |taken[q]| >= |old(taken[q])|
      {
        QueueFacts(q);
        ghost var p := polls[q];
        Regex(q, packets[i]);
        RepliesAdd(answers, q, p0, p, polls[q]);
        assert packets[..i + 1] == packets[..i] + [packets[i]];
        assert old(given[q]) + packets[..i] + [packets[i]] == old(given[q]) + packets[..i + 1];
        i := i + 1;
      }
      assert packets[..|packets|] == packets;
      Counted(answers, q, p0, polls[q], d0, f0, cores[q].totalDequeued);
    }

    /** Before leaving, poll until every job is back or, after `patience` polls, the time is up.  If the device keeps
        answering and there is time, every job that it took is counted. */
    method PostSearch(q: nat, patience: nat)
      requires Valid() && q < queues
      modifies this`polls, this`cores, this`inFlight
      ensures Valid() && Advances(q) && Apart(q) && polls[q] - old(polls[q]) <= patience + 1
      ensures cores[q].totalDequeued == cores[q].totalEnqueued || polls[q] - old(polls[q]) == patience + 1
      ensures forall gap: nat :: Answering(answers, q, gap) && old(inFlight[q]) * gap <= patience + 1 ==>
                cores[q].totalDequeued == cores[q].totalEnqueued
    {
      hide QueueValid, Answering;
      QueueFacts(q);
      ghost var p0, d0, f0 := polls[q], cores[q].totalDequeued, inFlight[q];
      var turns := 0;
      while cores[q].totalEnqueued > cores[q].totalDequeued
        invariant Valid() && Advances(q) && Apart(q) && polls[q] - old(polls[q]) == turns <= patience
        invariant cores[q] == old(cores[q]).(totalDequeued := cores[q].totalDequeued)
        decreases patience + 1 - turns
      {
        ghost var p := polls[q];
        QueueFacts(q);
        Poll(q);
        RepliesAdd(answers, q, p0, p, polls[q]);
        turns := turns + 1;
        if turns > patience {
          break;
        }
      }
      QueueFacts(q);
      Counted(answers, q, p0, polls[q], d0, f0, cores[q].totalDequeued);
    }

    /** Between calls, the device has taken the largest number of whole batches of a queue's packets, each packet
        once and in order, and the counters agree. */
    lemma Submitted(q: nat)
      requires Valid() && q < queues
      ensures cores[q].bufId == cores[q].totalEnqueued + cores[q].opOffset && cores[q].opOffset < maxBatch
      ensures |taken[q]| == |given[q]| - |given[q]| % maxBatch
      ensures var jobs := taken[q] + slots[q * maxBatch..q * maxBatch + cores[q].opOffset];
        |jobs| == |given[q]| && forall i :: 0 <= i < |jobs| ==> jobs[i] == Op(given[q][i], i + 1)
    {
      assert QueueValid(q);
      var done := |taken[q]| / maxBatch;
      assert |taken[q]| == done * maxBatch;
      WholeBatches(cores[q].opOffset, done, maxBatch);
    }

    /** Give a packet to a queue's batch; true if the batch is full now. */
    method SearchLive(q: nat, packet: Packet) returns (full: bool)
      requires Valid() && q < queues
      modifies this`cores, this`given, slots
      ensures Shape()
      ensures var k := old(cores[q]);
        cores == old(cores)[q := k.(bufId := k.bufId + 1, opOffset := k.opOffset + 1)]
      ensures given == old(given)[q := old(given[q]) + [packet]]
      ensures QueueValid(q) && forall r :: 0 <= r < queues && r != q ==> QueueValid(r)
      ensures full <==> cores[q].opOffset == maxBatch
    {
      var k := cores[q];
      var at := Base(q) + k.opOffset;
      slots[at] := Op(packet, k.bufId + 1);
      cores := cores[q := k.(bufId := k.bufId + 1, opOffset := k.opOffset + 1)];
      given := given[q := given[q] + [packet]];
      JobsAppend(old(given[q]), packet);
      assert Pending(q) == old(Pending(q)) + [Op(packet, k.bufId + 1)];
      forall r | 0 <= r < queues && r != q
        ensures QueueValid(r)
      {
        Disjoint(q, r);
        assert old(QueueValid(r));
        assert Pending(r) == old(Pending(r));
      }
      full := cores[q].opOffset == maxBatch;
    }
  }
}
