/** The per-source token buckets that gate expensive handshake work. */
module RateLimit {
  import opened Net
  import Sets

  const MAX_RATE_BUCKETS: nat := 4096
  const PRUNE_THRESHOLD: nat := 32

  datatype Policy = Policy(burst: nat, window: nat)

  datatype Bucket = Bucket(tokens: nat, lastRefill: Instant)

  type Buckets = map<SocketAddr, Bucket>

  datatype Limiter = Limiter(buckets: Buckets, order: seq<SocketAddr>, lastPrune: Instant)

  datatype Admission = Admission(limiter: Limiter, ok: bool)

  // ---------------------------------------------------------------------
  // One call
  // ---------------------------------------------------------------------

  /** Old enough to be refilled on its next touch. */
  predicate Stale(b: Bucket, p: Policy, now: Instant) { Since(now, b.lastRefill) >= p.window }

  predicate PruneDue(l: Limiter, p: Policy, now: Instant) {
    |l.buckets| > PRUNE_THRESHOLD && (Since(now, l.lastPrune) >= p.window || Since(now, l.lastPrune) < 1)
  }

  function Kept(order: seq<SocketAddr>, m: Buckets): seq<SocketAddr> {
    if order == [] then []
    else if order[|order| - 1] in m then Kept(order[..|order| - 1], m) + [order[|order| - 1]]
    else Kept(order[..|order| - 1], m)
  }

  function FreshBuckets(m: Buckets, p: Policy, now: Instant): Buckets {
    map a | a in m && !Stale(m[a], p, now) :: m[a]
  }

  function Prune(l: Limiter, p: Policy, now: Instant): Limiter {
    if PruneDue(l, p, now)
    then Limiter(FreshBuckets(l.buckets, p, now), Kept(l.order, FreshBuckets(l.buckets, p, now)), now)
    else l
  }

  /** Evicts oldest-inserted sources until a new one fits. */
  function MakeRoom(l: Limiter): Limiter
    decreases |l.order|
  {
    if |l.buckets| < MAX_RATE_BUCKETS || l.order == [] then l
    else MakeRoom(Limiter(l.buckets - {l.order[0]}, l.order[1..], l.lastPrune))
  }

  /** The charge itself, on a table that has been pruned or not. */
  function Charge(l: Limiter, p: Policy, from: SocketAddr, now: Instant): Admission {
    if from in l.buckets then
      var b := if Stale(l.buckets[from], p, now) then Bucket(p.burst, now) else l.buckets[from];
      if b.tokens == 0 then Admission(l.(buckets := l.buckets[from := b]), false)
      else Admission(l.(buckets := l.buckets[from := b.(tokens := b.tokens - 1)]), true)
    else
      var r := MakeRoom(l);
      var left := if p.burst > 0 then p.burst - 1 else 0;
      Admission(Limiter(r.buckets[from := Bucket(left, now)], r.order + [from], r.lastPrune), p.burst > 0)
  }

  /** `rate_ok`. */
  function Admit(l: Limiter, p: Policy, from: SocketAddr, now: Instant): Admission {
    Charge(Prune(l, p, now), p, from, now)
  }

  // ---------------------------------------------------------------------
  // The table invariant
  // ---------------------------------------------------------------------

  ghost predicate Distinct(s: seq<SocketAddr>) {
    forall i, j | 0 <= i < j < |s| :: s[i] != s[j]
  }

  /** The queue holds exactly the bucket keys, each once. */
  ghost predicate Inv(l: Limiter, p: Policy) {
    && Distinct(l.order)
    && (forall a :: a in l.order <==> a in l.buckets)
    && |l.buckets| <= MAX_RATE_BUCKETS
    && (forall a | a in l.buckets :: l.buckets[a].tokens <= p.burst)
  }

  lemma {:induction false} KeptIsFilter(order: seq<SocketAddr>, m: Buckets)
    requires Distinct(order)
    ensures Distinct(Kept(order, m))
    ensures forall a :: a in Kept(order, m) <==> a in order && a in m
  {
    if order != [] {
      var n := |order| - 1;
      KeptIsFilter(order[..n], m);
      assert forall a :: a in order <==> a in order[..n] || a == order[n];
      assert order[n] !in order[..n];
    }
  }

  lemma PruneKeepsInv(l: Limiter, p: Policy, now: Instant)
    requires Inv(l, p)
    ensures Inv(Prune(l, p, now), p)
  {
    if PruneDue(l, p, now) {
      var m := FreshBuckets(l.buckets, p, now);
      KeptIsFilter(l.order, m);
      assert m.Keys <= l.buckets.Keys;
      Sets.SubsetSize(m.Keys, l.buckets.Keys);
    }
  }

  lemma {:induction false} MakeRoomKeepsInv(l: Limiter, p: Policy)
    requires Inv(l, p)
    ensures Inv(MakeRoom(l), p) && |MakeRoom(l).buckets| < MAX_RATE_BUCKETS
    ensures MakeRoom(l).buckets.Keys <= l.buckets.Keys
    decreases |l.order|
  {
    if l.order == [] {
      assert l.buckets.Keys == {};
    }
    if |l.buckets| >= MAX_RATE_BUCKETS {
      var l' := Limiter(l.buckets - {l.order[0]}, l.order[1..], l.lastPrune);
      PopKeepsInv(l, p, l');
      hide Inv;
      MakeRoomKeepsInv(l', p);
    }
  }

  lemma DistinctTail(s: seq<SocketAddr>)
    requires s != [] && Distinct(s)
    ensures Distinct(s[1..]) && forall a :: a in s[1..] <==> a in s && a != s[0]
  {
    assert s == [s[0]] + s[1..];
  }

  lemma PopKeepsInv(l: Limiter, p: Policy, l': Limiter)
    requires Inv(l, p) && l.order != [] && l' == Limiter(l.buckets - {l.order[0]}, l.order[1..], l.lastPrune)
    ensures Inv(l', p) && l'.buckets.Keys <= l.buckets.Keys
  {
    var first := l.order[0];
    DistinctTail(l.order);
    assert l'.buckets.Keys == l.buckets.Keys - {first};
    Sets.SubsetSize(l'.buckets.Keys, l.buckets.Keys);
  }

  /** Every call keeps the queue, the table and the cap in step. */
  lemma AdmitKeepsInv(l: Limiter, p: Policy, from: SocketAddr, now: Instant)
    requires Inv(l, p)
    ensures Inv(Admit(l, p, from, now).limiter, p)
  {
    hide Inv, Prune, MakeRoom, Stale;
    PruneKeepsInv(l, p, now);
    var l1 := Prune(l, p, now);
    if from in l1.buckets {
      TouchKeepsInv(l1, p, from, Charge(l1, p, from, now).limiter.buckets[from]);
    } else {
      MakeRoomKeepsInv(l1, p);
      AppendKeepsInv(MakeRoom(l1), p, from, Charge(l1, p, from, now).limiter.buckets[from]);
    }
  }

  lemma TouchKeepsInv(l: Limiter, p: Policy, from: SocketAddr, b: Bucket)
    requires Inv(l, p) && from in l.buckets
    ensures b.tokens <= p.burst ==> Inv(l.(buckets := l.buckets[from := b]), p)
    ensures l.buckets[from].tokens <= p.burst
  {
    assert l.buckets[from := b].Keys == l.buckets.Keys;
  }

  lemma AppendKeepsInv(l: Limiter, p: Policy, from: SocketAddr, b: Bucket)
    requires Inv(l, p) && from !in l.buckets && |l.buckets| < MAX_RATE_BUCKETS && b.tokens <= p.burst
    ensures Inv(Limiter(l.buckets[from := b], l.order + [from], l.lastPrune), p)
  {
    assert l.buckets[from := b].Keys == l.buckets.Keys + {from};
    assert from !in l.order;
  }

  // ---------------------------------------------------------------------
  // The limiter as the source holds it
  // ---------------------------------------------------------------------

  class RateLimiter {
    var buckets: Buckets
    var order: seq<SocketAddr>
    var lastPrune: Instant
    const policy: Policy

    function View(): Limiter
      reads this
    {
      Limiter(buckets, order, lastPrune)
    }

    constructor (policy: Policy, now: Instant)
      ensures this.policy == policy && View() == Limiter(map[], [], now) && Inv(View(), policy)
    {
      this.policy := policy;
      buckets, order, lastPrune := map[], [], now;
    }

    method RateOk(from: SocketAddr, now: Instant) returns (ok: bool)
      requires Inv(View(), policy)
      modifies this
      ensures Admission(View(), ok) == Admit(old(View()), policy, from, now)
      ensures Inv(View(), policy)
    {
      hide Inv, Kept, FreshBuckets, PruneDue, Stale, MakeRoom;
      AdmitKeepsInv(View(), policy, from, now);
      if PruneDue(View(), policy, now) {
        lastPrune := now;
        buckets := FreshBuckets(buckets, policy, now);
        RetainTracked();
      }
      if from in buckets {
        var bucket := buckets[from];
        if Stale(bucket, policy, now) {
          bucket := Bucket(policy.burst, now);
        }
        if bucket.tokens == 0 {
          buckets := buckets[from := bucket];
          return false;
        }
        buckets := buckets[from := bucket.(tokens := bucket.tokens - 1)];
        return true;
      }
      EvictOldest();
      var left := if policy.burst > 0 then policy.burst - 1 else 0;
      buckets := buckets[from := Bucket(left, now)];
      order := order + [from];
      return policy.burst > 0;
    }

    method EvictOldest()
      modifies this
      ensures View() == MakeRoom(old(View()))
    {
      while |buckets| >= MAX_RATE_BUCKETS && order != []
        invariant MakeRoom(View()) == MakeRoom(old(View()))
        decreases |order|
      {
        var victim := order[0];
        order := order[1..];
        buckets := buckets - {victim};
      }
    }

    method RetainTracked()
      modifies this`order
      ensures order == Kept(old(order), buckets)
    {
      var kept: seq<SocketAddr> := [];
      for i := 0 to |order|
        invariant order == old(order) && kept == Kept(order[..i], buckets)
      {
        assert order[..i + 1][..i] == order[..i];
        if order[i] in buckets {
          kept := kept + [order[i]];
        }
      }
      assert order[..|order|] == order;
      order := kept;
    }
  }

  // ---------------------------------------------------------------------
  // Runs
  // ---------------------------------------------------------------------

  datatype Call = Call(from: SocketAddr, now: Instant)

  ghost predicate Ordered(calls: seq<Call>, start: Instant) {
    && (forall i | 0 <= i < |calls| :: start <= calls[i].now)
    && (forall i, j | 0 <= i < j < |calls| :: calls[i].now <= calls[j].now)
  }

  lemma OrderedTail(calls: seq<Call>, start: Instant)
    requires Ordered(calls, start) && calls != []
    ensures start <= calls[0].now && Ordered(calls[1..], calls[0].now)
  {
    forall i | 0 <= i < |calls[1..]| ensures calls[0].now <= calls[1..][i].now {
      assert calls[1..][i] == calls[i + 1];
    }
  }

  /** How often `s` is admitted. */
  ghost function Granted(l: Limiter, p: Policy, calls: seq<Call>, s: SocketAddr): nat
    decreases |calls|
  {
    if calls == [] then 0 else
      var a := Admit(l, p, calls[0].from, calls[0].now);
      (if calls[0].from == s && a.ok then 1 else 0) + Granted(a.limiter, p, calls[1..], s)
  }

  ghost function TokensOf(l: Limiter, s: SocketAddr): nat {
    if s in l.buckets then l.buckets[s].tokens else 0
  }

  /** The call finds the table full and `s` at the front of the queue. */
  ghost predicate Evicts(l: Limiter, p: Policy, c: Call, s: SocketAddr) {
    var l1 := Prune(l, p, c.now);
    c.from !in l1.buckets && |l1.buckets| >= MAX_RATE_BUCKETS && l1.order != [] && l1.order[0] == s
  }

  /** Making room costs a full table exactly its oldest-inserted source. */
  lemma MakeRoomIsOne(l: Limiter, p: Policy, s: SocketAddr)
    requires Inv(l, p)
    ensures var r := MakeRoom(l);
            && (s in r.buckets <==> s in l.buckets && !(|l.buckets| >= MAX_RATE_BUCKETS && l.order != [] && l.order[0] == s))
            && (s in r.buckets ==> r.buckets[s] == l.buckets[s])
  {
    if |l.buckets| >= MAX_RATE_BUCKETS && l.order != [] {
      var first := l.order[0];
      var l' := Limiter(l.buckets - {first}, l.order[1..], l.lastPrune);
      assert first in l.buckets;
      assert l'.buckets.Keys == l.buckets.Keys - {first};
      assert |l'.buckets| < MAX_RATE_BUCKETS;
      assert MakeRoom(l) == MakeRoom(l') == l';
    }
  }

  lemma OnePrune(l: Limiter, p: Policy, now: Instant, s: SocketAddr)
    ensures var l1 := Prune(l, p, now);
            && (s in l1.buckets <==> s in l.buckets && !(PruneDue(l, p, now) && Stale(l.buckets[s], p, now)))
            && (s in l1.buckets ==> l1.buckets[s] == l.buckets[s])
  {}

  /** What one call leaves of the bucket of `s`, full table or not. */
  lemma OneCall(l: Limiter, p: Policy, c: Call, s: SocketAddr)
    requires Inv(l, p)
    ensures var l1, a := Prune(l, p, c.now), Admit(l, p, c.from, c.now);
            && (s in l1.buckets <==> s in l.buckets && !(PruneDue(l, p, c.now) && Stale(l.buckets[s], p, c.now)))
            && (s in l1.buckets ==> l1.buckets[s] == l.buckets[s])
            && (c.from != s ==> (s in a.limiter.buckets <==> s in l1.buckets && !Evicts(l, p, c, s))
                                && (s in a.limiter.buckets ==> a.limiter.buckets[s] == l1.buckets[s]))
            && (c.from == s ==>
                  && s in a.limiter.buckets
                  && var b := if s in l1.buckets && !Stale(l1.buckets[s], p, c.now) then l1.buckets[s] else Bucket(p.burst, c.now);
                     && (a.ok <==> b.tokens > 0)
                     && a.limiter.buckets[s] == b.(tokens := if a.ok then b.tokens - 1 else 0))
  {
    hide Inv, Prune, MakeRoom, Stale, PruneDue;
    OnePrune(l, p, c.now, s);
    PruneKeepsInv(l, p, c.now);
    MakeRoomIsOne(Prune(l, p, c.now), p, s);
  }

  /** The bucket of `s` was filled within the last window. */
  ghost predicate Recent(l: Limiter, p: Policy, s: SocketAddr, now: Instant) {
    s in l.buckets && now - l.buckets[s].lastRefill < p.window && 0 < p.window
  }

  /** A source filled within the window is admitted exactly while it has tokens, any other exactly if there is a burst at all. */
  lemma AdmitsExactly(l: Limiter, p: Policy, s: SocketAddr, now: Instant)
    requires Inv(l, p)
    ensures Admit(l, p, s, now).ok <==> if Recent(l, p, s, now) then l.buckets[s].tokens > 0 else p.burst > 0
  {
    hide Inv, Admit, Prune, PruneDue;
    OneCall(l, p, Call(s, now), s);
  }

  /** The call sweeps: over 32 sources, and a window has passed since the last sweep, or no time at all. */
  ghost predicate Sweeps(l: Limiter, p: Policy, now: Instant) {
    |l.buckets| > 32 && (now <= l.lastPrune || p.window <= now - l.lastPrune || p.window == 0)
  }

  /** Another source is forgotten exactly when a sweep finds it out of its window, or as the oldest of a full table. */
  lemma ForgetsExactly(l: Limiter, p: Policy, c: Call, s: SocketAddr)
    requires Inv(l, p) && s in l.buckets && s != c.from
    ensures s in Admit(l, p, c.from, c.now).limiter.buckets
       <==> (Sweeps(l, p, c.now) ==> Recent(l, p, s, c.now)) && !Evicts(l, p, c, s)
  {
    hide Inv, Admit, Prune, Evicts;
    OneCall(l, p, c, s);
  }

  /** `s` comes before `t` in the queue. */
  ghost predicate Precedes(order: seq<SocketAddr>, s: SocketAddr, t: SocketAddr) {
    exists i, j | 0 <= i < j < |order| :: order[i] == s && order[j] == t
  }

  lemma PrecedesMore(order: seq<SocketAddr>, s: SocketAddr, t: SocketAddr, last: SocketAddr)
    ensures Precedes(order, s, t) ==> Precedes(order + [last], s, t)
    ensures s in order ==> Precedes(order + [last], s, last)
  {
    var more := order + [last];
    if Precedes(order, s, t) {
      var i, j :| 0 <= i < j < |order| && order[i] == s && order[j] == t;
      assert more[i] == s && more[j] == t;
    }
    if s in order {
      var i :| 0 <= i < |order| && order[i] == s;
      assert more[i] == s && more[|order|] == last;
    }
  }

  lemma {:induction false} KeptInOrder(order: seq<SocketAddr>, m: Buckets, s: SocketAddr, t: SocketAddr)
    requires Precedes(order, s, t) && s in m && t in m
    ensures Precedes(Kept(order, m), s, t)
  {
    var n := |order| - 1;
    var i, j :| 0 <= i < j < |order| && order[i] == s && order[j] == t;
    var rest := order[..n];
    assert rest[i] == s;
    if j < n {
      assert rest[j] == t;
      KeptInOrder(rest, m, s, t);
      PrecedesMore(Kept(rest, m), s, t, order[n]);
    } else {
      KeptHolds(rest, m, s);
      PrecedesMore(Kept(rest, m), s, t, t);
    }
  }

  lemma {:induction false} KeptHolds(order: seq<SocketAddr>, m: Buckets, s: SocketAddr)
    requires s in order && s in m
    ensures s in Kept(order, m)
  {
    var n := |order| - 1;
    if order[n] != s { KeptHolds(order[..n], m, s); }
  }

  lemma PrecedesTail(order: seq<SocketAddr>, s: SocketAddr, t: SocketAddr)
    requires order != [] && Precedes(order, s, t) && order[0] != s
    ensures Precedes(order[1..], s, t)
  {
    var i, j :| 0 <= i < j < |order| && order[i] == s && order[j] == t;
    assert order[1..][i - 1] == s && order[1..][j - 1] == t;
  }

  lemma MakeRoomInOrder(l: Limiter, p: Policy, s: SocketAddr, t: SocketAddr)
    requires Inv(l, p) && Precedes(l.order, s, t) && s in MakeRoom(l).buckets
    ensures Precedes(MakeRoom(l).order, s, t)
  {
    hide Precedes;
    if |l.buckets| >= MAX_RATE_BUCKETS && l.order != [] {
      MakeRoomIsOne(l, p, s);
      var l' := Limiter(l.buckets - {l.order[0]}, l.order[1..], l.lastPrune);
      assert l'.buckets.Keys == l.buckets.Keys - {l.order[0]};
      PrecedesTail(l.order, s, t);
    }
  }

  /**
   * The queue is in order of insertion: a call leaves the sources it keeps in the order they had,
   * and puts a source it had no bucket for behind all others.
   */
  lemma OrderIsInsertion(l: Limiter, p: Policy, c: Call, s: SocketAddr, t: SocketAddr)
    requires Inv(l, p) && s in Prune(l, p, c.now).buckets && s in Admit(l, p, c.from, c.now).limiter.buckets
    ensures Precedes(l.order, s, t) && t in Prune(l, p, c.now).buckets ==> Precedes(Admit(l, p, c.from, c.now).limiter.order, s, t)
    ensures c.from !in Prune(l, p, c.now).buckets ==> Precedes(Admit(l, p, c.from, c.now).limiter.order, s, c.from)
  {
    hide Precedes, MakeRoom, Inv, Stale, PruneDue;
    var l1 := Prune(l, p, c.now);
    PruneKeepsInv(l, p, c.now);
    if Precedes(l.order, s, t) && t in l1.buckets && l1 != l { KeptInOrder(l.order, l1.buckets, s, t); }
    if c.from !in l1.buckets {
      var r := MakeRoom(l1);
      MakeRoomKeepsInv(l1, p);
      Queued(r, p, s);
      PrecedesMore(r.order, s, t, c.from);
      if Precedes(l1.order, s, t) { MakeRoomInOrder(l1, p, s, t); }
    }
  }

  lemma Queued(l: Limiter, p: Policy, s: SocketAddr)
    requires Inv(l, p) && s in l.buckets
    ensures s in l.order
  {}

  /** A call that fills the bucket of `s`: its first, or its first in a window. */
  ghost predicate Refills(l: Limiter, p: Policy, c: Call, s: SocketAddr) {
    var l1 := Prune(l, p, c.now);
    c.from == s && (s !in l1.buckets || Stale(l1.buckets[s], p, c.now))
  }

  ghost predicate NeverRefilled(l: Limiter, p: Policy, calls: seq<Call>, s: SocketAddr)
    decreases |calls|
  {
    calls == []
    || (!Refills(l, p, calls[0], s)
        && NeverRefilled(Admit(l, p, calls[0].from, calls[0].now).limiter, p, calls[1..], s))
  }

  /** Between refills a source is admitted at most as often as it has tokens, so at most `burst` times. */
  lemma {:induction false} BoundedBetweenRefills(l: Limiter, p: Policy, calls: seq<Call>, s: SocketAddr)
    requires Inv(l, p) && NeverRefilled(l, p, calls, s)
    ensures Granted(l, p, calls, s) <= TokensOf(l, s) <= p.burst
    decreases |calls|
  {
    hide Admit, Prune, Stale, PruneDue, Evicts;
    if calls != [] {
      var c := calls[0];
      var l' := Admit(l, p, c.from, c.now).limiter;
      OneCall(l, p, c, s);
      AdmitKeepsInv(l, p, c.from, c.now);
      BoundedBetweenRefills(l', p, calls[1..], s);
    }
  }

  /** How often a full table costs `s` its bucket. */
  ghost function Evictions(l: Limiter, p: Policy, calls: seq<Call>, s: SocketAddr): nat
    decreases |calls|
  {
    if calls == [] then 0 else
      (if s in l.buckets && Evicts(l, p, calls[0], s) then 1 else 0)
      + Evictions(Admit(l, p, calls[0].from, calls[0].now).limiter, p, calls[1..], s)
  }

  /** A bucket filled less than a window ago is not filled again, unless a full table costs the source that bucket. */
  lemma {:induction false} NoSecondRefill(l: Limiter, p: Policy, calls: seq<Call>, s: SocketAddr, start: Instant)
    requires Inv(l, p) && Ordered(calls, start) && p.window > 0
    requires s in l.buckets && forall i | 0 <= i < |calls| :: calls[i].now < l.buckets[s].lastRefill + p.window
    ensures Evictions(l, p, calls, s) == 0 ==> NeverRefilled(l, p, calls, s)
    decreases |calls|
  {
    hide Admit, Prune, PruneDue, Evicts, Inv;
    if calls != [] {
      var c := calls[0];
      var l' := Admit(l, p, c.from, c.now).limiter;
      assert !Stale(l.buckets[s], p, c.now);
      OneCall(l, p, c, s);
      AdmitKeepsInv(l, p, c.from, c.now);
      OrderedTail(calls, start);
      if s in l'.buckets { NoSecondRefill(l', p, calls[1..], s, c.now); }
    }
  }

  /** What one call adds to the bound: nothing, or a burst for an eviction. */
  lemma BurstStep(burst: nat, evicted: bool, m: nat, n: nat)
    requires m == n + if evicted then 1 else 0
    ensures burst * m == burst * n + if evicted then burst else 0
  {}

  lemma EvictionsUnfold(l: Limiter, p: Policy, calls: seq<Call>, s: SocketAddr)
    requires calls != []
    ensures var l' := Admit(l, p, calls[0].from, calls[0].now).limiter;
            Evictions(l, p, calls, s)
            == Evictions(l', p, calls[1..], s) + if s in l.buckets && Evicts(l, p, calls[0], s) then 1 else 0
  {
    hide Admit, Evicts;
  }

  lemma EvictionStep(l: Limiter, p: Policy, calls: seq<Call>, s: SocketAddr)
    requires calls != []
    ensures var l' := Admit(l, p, calls[0].from, calls[0].now).limiter;
            p.burst * Evictions(l, p, calls, s)
            == p.burst * Evictions(l', p, calls[1..], s) + if s in l.buckets && Evicts(l, p, calls[0], s) then p.burst else 0
  {
    hide Admit, Evicts, Evictions;
    var l' := Admit(l, p, calls[0].from, calls[0].now).limiter;
    EvictionsUnfold(l, p, calls, s);
    BurstStep(p.burst, s in l.buckets && Evicts(l, p, calls[0], s), Evictions(l, p, calls, s), Evictions(l', p, calls[1..], s));
  }

  /**
   * Within a window of its last refill a source is admitted as often as it has tokens,
   * and a burst more for each eviction.
   */
  lemma {:induction false} AfterRefill(l: Limiter, p: Policy, calls: seq<Call>, s: SocketAddr, start: Instant)
    requires Inv(l, p) && Ordered(calls, start) && p.window > 0 && s in l.buckets && l.buckets[s].lastRefill <= start
    requires forall i | 0 <= i < |calls| :: calls[i].now < l.buckets[s].lastRefill + p.window
    ensures Granted(l, p, calls, s) <= TokensOf(l, s) + p.burst * Evictions(l, p, calls, s)
    decreases |calls|, 0
  {
    hide Admit, Prune, PruneDue, Evicts, Inv, Evictions;
    if calls != [] {
      var c := calls[0];
      var l' := Admit(l, p, c.from, c.now).limiter;
      assert !Stale(l.buckets[s], p, c.now);
      OneCall(l, p, c, s);
      AdmitKeepsInv(l, p, c.from, c.now);
      OrderedTail(calls, start);
      EvictionStep(l, p, calls, s);
      if s in l'.buckets {
        AfterRefill(l', p, calls[1..], s, c.now);
      } else {
        AfterEviction(l', p, calls[1..], s, c.now, l.buckets[s].lastRefill + p.window);
      }
    }
  }

  /** An evicted source waits for its next call, which fills its bucket anew. */
  lemma {:induction false} AfterEviction(l: Limiter, p: Policy, calls: seq<Call>, s: SocketAddr, start: Instant, end: Instant)
    requires Inv(l, p) && Ordered(calls, start) && p.window > 0 && s !in l.buckets && end <= start + p.window
    requires forall i | 0 <= i < |calls| :: calls[i].now < end
    ensures Granted(l, p, calls, s) <= p.burst + p.burst * Evictions(l, p, calls, s)
    decreases |calls|, 1
  {
    hide Admit, Prune, PruneDue, Evicts, Inv, Evictions;
    if calls != [] {
      var c := calls[0];
      var l' := Admit(l, p, c.from, c.now).limiter;
      OneCall(l, p, c, s);
      AdmitKeepsInv(l, p, c.from, c.now);
      OrderedTail(calls, start);
      EvictionStep(l, p, calls, s);
      if c.from == s {
        AfterRefill(l', p, calls[1..], s, c.now);
      } else {
        AfterEviction(l', p, calls[1..], s, c.now, end);
      }
    }
  }

  lemma {:induction false} WindowBound(l: Limiter, p: Policy, calls: seq<Call>, s: SocketAddr, start: Instant, end: Instant)
    requires Inv(l, p) && Ordered(calls, start) && end <= start + p.window
    requires forall i | 0 <= i < |calls| :: calls[i].now < end
    ensures Granted(l, p, calls, s) <= TokensOf(l, s) + p.burst + p.burst * Evictions(l, p, calls, s)
    decreases |calls|
  {
    hide Admit, Prune, PruneDue, Evicts, Inv, Evictions;
    if calls != [] {
      var c := calls[0];
      var l' := Admit(l, p, c.from, c.now).limiter;
      OneCall(l, p, c, s);
      AdmitKeepsInv(l, p, c.from, c.now);
      OrderedTail(calls, start);
      EvictionStep(l, p, calls, s);
      if Refills(l, p, c, s) {
        AfterRefill(l', p, calls[1..], s, c.now);
      } else {
        WindowBound(l', p, calls[1..], s, c.now, end);
      }
    } else {
      assert Granted(l, p, calls, s) == 0;
    }
  }

  /**
   * In any half-open interval of one window a source is admitted at most twice `burst`
   * times, and `burst` times more for each time a full table costs it its bucket.
   */
  lemma TwiceBurstPerWindow(l: Limiter, p: Policy, calls: seq<Call>, s: SocketAddr, start: Instant)
    requires Inv(l, p) && Ordered(calls, start)
    requires forall i | 0 <= i < |calls| :: calls[i].now < start + p.window
    ensures Granted(l, p, calls, s) <= (2 + Evictions(l, p, calls, s)) * p.burst
    ensures Evictions(l, p, calls, s) == 0 ==> Granted(l, p, calls, s) <= 2 * p.burst
  {
    hide Granted, Evictions;
    WindowBound(l, p, calls, s, start, start + p.window);
    assert TokensOf(l, s) <= p.burst;
    var n := Evictions(l, p, calls, s);
    assert (2 + n) * p.burst == 2 * p.burst + p.burst * n;
  }

  // ---------------------------------------------------------------------
  // The prune is invisible
  // ---------------------------------------------------------------------

  /** The answers of a run, with the prune and without it. */
  ghost function Answers(l: Limiter, p: Policy, calls: seq<Call>): seq<bool>
    decreases |calls|
  {
    if calls == [] then [] else
      var a := Admit(l, p, calls[0].from, calls[0].now);
      [a.ok] + Answers(a.limiter, p, calls[1..])
  }

  ghost function UnprunedAnswers(u: Limiter, p: Policy, calls: seq<Call>): seq<bool>
    decreases |calls|
  {
    if calls == [] then [] else
      var a := Charge(u, p, calls[0].from, calls[0].now);
      [a.ok] + UnprunedAnswers(a.limiter, p, calls[1..])
  }

  ghost function AfterAll(l: Limiter, p: Policy, calls: seq<Call>): Limiter
    decreases |calls|
  {
    if calls == [] then l else AfterAll(Admit(l, p, calls[0].from, calls[0].now).limiter, p, calls[1..])
  }

  ghost function UnprunedAfterAll(u: Limiter, p: Policy, calls: seq<Call>): Limiter
    decreases |calls|
  {
    if calls == [] then u else UnprunedAfterAll(Charge(u, p, calls[0].from, calls[0].now).limiter, p, calls[1..])
  }

  ghost predicate StaysBelowCap(u: Limiter, p: Policy, calls: seq<Call>)
    decreases |calls|
  {
    |u.buckets| < MAX_RATE_BUCKETS
    && (calls != [] ==> StaysBelowCap(Charge(u, p, calls[0].from, calls[0].now).limiter, p, calls[1..]))
  }

  /** What a source could still spend right now. */
  ghost function Budget(l: Limiter, p: Policy, s: SocketAddr, now: Instant): nat {
    if s in l.buckets && !Stale(l.buckets[s], p, now) then l.buckets[s].tokens else p.burst
  }

  /** `l` is `u` without some buckets that would be refilled anyway. */
  ghost predicate Covers(l: Limiter, u: Limiter, p: Policy, now: Instant) {
    && (forall a | a in l.buckets :: a in u.buckets && u.buckets[a] == l.buckets[a])
    && (forall a | a in u.buckets && a !in l.buckets :: Stale(u.buckets[a], p, now))
  }

  lemma CoversSmaller(l: Limiter, u: Limiter, p: Policy, now: Instant)
    requires Covers(l, u, p, now)
    ensures |l.buckets| <= |u.buckets|
  {
    assert l.buckets.Keys <= u.buckets.Keys;
    Sets.SubsetSize(l.buckets.Keys, u.buckets.Keys);
  }

  lemma PruneCovers(l: Limiter, u: Limiter, p: Policy, before: Instant, now: Instant)
    requires Covers(l, u, p, before) && before <= now
    ensures Covers(Prune(l, p, now), u, p, now)
  {}

  lemma ChargeCovers(l: Limiter, u: Limiter, p: Policy, from: SocketAddr, now: Instant)
    requires Covers(l, u, p, now) && |u.buckets| < MAX_RATE_BUCKETS
    ensures Charge(l, p, from, now).ok == Charge(u, p, from, now).ok
    ensures Covers(Charge(l, p, from, now).limiter, Charge(u, p, from, now).limiter, p, now)
  {
    CoversSmaller(l, u, p, now);
  }

  /**
   * For every ordered call sequence in which the unpruned table stays below the
   * cap, pruning changes no answer and no source's budget.
   */
  lemma {:induction false} PruneIsInvisible(l: Limiter, u: Limiter, p: Policy, calls: seq<Call>, start: Instant)
    requires Covers(l, u, p, start) && Ordered(calls, start) && StaysBelowCap(u, p, calls)
    ensures Answers(l, p, calls) == UnprunedAnswers(u, p, calls)
    ensures forall s, now | start <= now && (calls != [] ==> calls[|calls| - 1].now <= now) ::
              Budget(AfterAll(l, p, calls), p, s, now) == Budget(UnprunedAfterAll(u, p, calls), p, s, now)
    decreases |calls|
  {
    hide Charge;
    if calls != [] {
      var c := calls[0];
      OrderedTail(calls, start);
      PruneCovers(l, u, p, start, c.now);
      ChargeCovers(Prune(l, p, c.now), u, p, c.from, c.now);
      PruneIsInvisible(Admit(l, p, c.from, c.now).limiter, Charge(u, p, c.from, c.now).limiter, p, calls[1..], c.now);
      assert |calls| > 1 ==> calls[1..][|calls| - 2] == calls[|calls| - 1];
    }
  }
}
