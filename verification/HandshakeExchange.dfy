/** A fresh server and one prompt client: the exchange succeeds with nothing left to assume but configuration. */
module HandshakeExchange {
  import opened Bytes
  import opened Codec
  import opened Net
  import opened HandshakeFraming
  import opened HandshakeMessages
  import opened HandshakeServer
  import opened HandshakeRuns
  import opened HandshakeLimits
  import opened HandshakeAgreement
  import Client = HandshakeClient
  import RateLimit
  import Sets

  /** A server nobody has talked to. */
  ghost predicate Fresh(x: Execution) { IsRun(x) && x.start.limiter.buckets == map[] }

  /** Every datagram comes from the client's address, for its session or for nobody's, within one lifetime of `t`. */
  ghost predicate OwnTraffic(x: Execution, sid: SessionId, source: SocketAddr, t: Instant, n: nat) {
    forall k | 0 <= k < n && k < |x.ops| :: OwnStep(x.ops[k], sid, source, t, x.cfg.ttl)
  }

  ghost predicate OwnStep(op: Op, sid: SessionId, source: SocketAddr, t: Instant, ttl: nat) {
    && op.Deliver? && op.from == source && t <= op.now < t + ttl
    && (About(op).Some? ==> About(op).value.sid == sid)
  }

  // ---------------------------------------------------------------------
  // The limiter has a token for each of the first `burst` datagrams
  // ---------------------------------------------------------------------

  /** After `k` questions by `source` alone its bucket lacks at most `k` tokens. */
  ghost predicate Ample(l: RateLimit.Limiter, p: RateLimit.Policy, source: SocketAddr, k: nat) {
    && l.buckets.Keys <= {source}
    && (source in l.buckets ==> l.buckets[source].tokens + k >= p.burst)
  }

  lemma AmpleAdmits(l: RateLimit.Limiter, p: RateLimit.Policy, source: SocketAddr, now: Instant, k: nat)
    requires Ample(l, p, source, k)
    ensures Ample(RateLimit.Admit(l, p, source, now).limiter, p, source, k + 1)
    ensures k < p.burst ==> RateLimit.Admit(l, p, source, now).ok
  {
    Sets.SubsetSize(l.buckets.Keys, {source});
    assert |l.buckets| <= 1;
    assert !RateLimit.PruneDue(l, p, now);
  }

  // ---------------------------------------------------------------------
  // The table holds nothing but the client's own recent entry
  // ---------------------------------------------------------------------

  ghost predicate Recent(t: Table, sid: SessionId, start: Instant) {
    forall s | s in t :: s == sid && t[s].lastSeen >= start
  }

  ghost predicate Calm(x: Execution, sid: SessionId, source: SocketAddr, t: Instant, n: nat)
    requires IsRun(x) && n <= |x.ops|
  {
    Recent(StateAt(x, n).pending, sid, t) && Ample(StateAt(x, n).limiter, x.cfg.rate, source, n)
  }

  lemma OthersStayOut(x: Execution, sid: SessionId, source: SocketAddr, t: Instant, n: nat, s: SessionId)
    requires IsRun(x) && n < |x.ops| && Recent(StateAt(x, n).pending, sid, t) && OwnStep(x.ops[n], sid, source, t, x.cfg.ttl)
    ensures s in StateAt(x, n + 1).pending ==> s == sid && StateAt(x, n + 1).pending[s].lastSeen >= t
  {
    hide StateAt, Step, Swept, About, AddFragment, Authentic, ServerHelloOf, Datagrams, DecodeM1, DecodeM3, MacMatches, Derived,
      RateLimit.Inv, EntryOk;
    OneMore(x, n);
    var st, op := StateAt(x, n), x.ops[n];
    StepMoves(x.suite, x.cfg, st, op, s);
    SweptIsPart(x.cfg, st, op, s);
  }

  lemma CalmLimiter(x: Execution, sid: SessionId, source: SocketAddr, t: Instant, n: nat)
    requires IsRun(x) && n < |x.ops| && Calm(x, sid, source, t, n) && OwnStep(x.ops[n], sid, source, t, x.cfg.ttl)
    ensures Ample(StateAt(x, n + 1).limiter, x.cfg.rate, source, n + 1)
    ensures n < x.cfg.rate.burst ==> ReplyAt(x, n).gate != Refused
  {
    hide StateAt, Step, About, RateLimit.Inv, RateLimit.Admit, Recent, Works;
    OneMore(x, n);
    var st, op := StateAt(x, n), x.ops[n];
    StepGate(x.suite, x.cfg, st, op);
    AmpleAdmits(st.limiter, x.cfg.rate, source, op.now, n);
  }

  lemma {:induction false} StaysCalm(x: Execution, sid: SessionId, source: SocketAddr, t: Instant, n: nat)
    requires Fresh(x) && n <= |x.ops| && OwnTraffic(x, sid, source, t, n)
    ensures Calm(x, sid, source, t, n)
  {
    hide *;
    if n == 0 {
      StartsCalm(x, sid, source, t);
    } else {
      OwnPrefix(x, sid, source, t, n - 1, n);
      StaysCalm(x, sid, source, t, n - 1);
      CalmStep(x, sid, source, t, n - 1);
    }
  }

  lemma StartsCalm(x: Execution, sid: SessionId, source: SocketAddr, t: Instant)
    requires Fresh(x)
    ensures IsRun(x) && Calm(x, sid, source, t, 0)
  {
    hide RateLimit.Inv;
    StartState(x);
  }

  lemma OwnPrefix(x: Execution, sid: SessionId, source: SocketAddr, t: Instant, i: nat, n: nat)
    requires OwnTraffic(x, sid, source, t, n) && i <= n && Fresh(x)
    ensures IsRun(x) && OwnTraffic(x, sid, source, t, i)
    ensures i < n && i < |x.ops| ==> OwnStep(x.ops[i], sid, source, t, x.cfg.ttl)
  {
    hide OwnStep, IsRun;
  }

  lemma CalmStep(x: Execution, sid: SessionId, source: SocketAddr, t: Instant, n: nat)
    requires IsRun(x) && n < |x.ops| && Calm(x, sid, source, t, n) && OwnStep(x.ops[n], sid, source, t, x.cfg.ttl)
    ensures Calm(x, sid, source, t, n + 1)
  {
    hide StateAt, OwnStep, Inv;
    CalmLimiter(x, sid, source, t, n);
    var table := StateAt(x, n + 1).pending;
    forall s | s in table ensures s == sid && table[s].lastSeen >= t {
      OthersStayOut(x, sid, source, t, n, s);
    }
  }

  /** So tokens, time and space suffice at every one of the first `burst` datagrams. */
  lemma CalmSuffices(x: Execution, sid: SessionId, source: SocketAddr, t: Instant, n: nat)
    requires IsRun(x) && n < |x.ops| && Calm(x, sid, source, t, n) && OwnStep(x.ops[n], sid, source, t, x.cfg.ttl)
    requires n < x.cfg.rate.burst && x.cfg.maxPending > 0
    ensures Suffices(x, sid, source, n) && ReplyAt(x, n).gate != Refused
  {
    hide StateAt, About, RateLimit.Inv, ReplyAt, Ample;
    CalmLimiter(x, sid, source, t, n);
    var st, op := StateAt(x, n), x.ops[n];
    SweptIsPart(x.cfg, st, op, sid);
    assert sid !in st.pending ==> Swept(x.cfg, st, op).Keys == {} by {
      forall s | s in Swept(x.cfg, st, op) ensures s == sid && s in st.pending { SweptIsPart(x.cfg, st, op, s); }
    }
  }

  /**
   * Against a fresh server with room for one entry and a burst larger than the
   * number of datagrams, a client that sends only its own M1 fragments, in any order
   * with fragments 1 to 3 after fragment 0, any number of times, within one
   * lifetime, and relays its M3 from the same address, ends up with the server's
   * master and session id.
   */
  lemma FreshExchange(x: Execution, k: Client.Config, cl: Client.Client, r: nat, source: SocketAddr, t: Instant,
                      first: nat, n: nat, replies: seq<Client.Op>) returns (j: nat)
    requires Fresh(x) && n < |x.ops| && Lawful(x.suite) && Matched(x.suite, k, x.cfg, x.start.roster)
    requires Client.NewClient(x.suite, k, cl.sid, cl.kem, cl.dh, r) == Some(cl)
    requires n < x.cfg.rate.burst && x.cfg.maxPending > 0
    requires OwnTraffic(x, cl.sid, source, t, n + 1) && HonestM1(x, cl, source, n) && WholeM1(x, cl.sid, source, first, n)
    requires Relayed(x, cl.sid, n, replies)
    ensures Client.Valid(cl) && j < |replies|
    ensures var e := Client.Events(x.suite, k, cl, replies)[j];
            && e.Confirm3? && |e.packets| == 1
            && (x.ops[n].Deliver? && x.ops[n].pkt == e.packets[0] ==> Agree(ReplyAt(x, n).event, e.outcome))
  {
    hide *;
    FreshIsRun(x);
    forall i | 0 <= i < n ensures Suffices(x, cl.sid, source, i) {
      OwnPrefix(x, cl.sid, source, t, i, n + 1);
      StaysCalm(x, cl.sid, source, t, i);
      CalmSuffices(x, cl.sid, source, t, i);
    }
    j := Agreement(x, k, cl, r, source, first, n, replies);
    var e := Client.Events(x.suite, k, cl, replies)[j];
    if x.ops[n].Deliver? && x.ops[n].pkt == e.packets[0] {
      OwnPrefix(x, cl.sid, source, t, n, n + 1);
      StaysCalm(x, cl.sid, source, t, n);
      CalmSuffices(x, cl.sid, source, t, n);
      ServerProgress(x, k, cl, source, n) by { StartsRebuilding(x.suite, k, cl, r); }
      WholeM1IsGot(x, cl.sid, source, first, n);
      var _ := AnsweredBy(x, cl, source, n);
      InTime(x, cl.sid, source, t, n, e.packets);
    }
  }

  lemma FreshIsRun(x: Execution)
    requires Fresh(x)
    ensures IsRun(x)
  {
    hide IsRun;
  }

  lemma InTime(x: Execution, sid: SessionId, source: SocketAddr, t: Instant, n: nat, packets: seq<WirePacket>)
    requires IsRun(x) && n < |x.ops| && Suffices(x, sid, source, n) && sid in StateAt(x, n).pending && ReplyAt(x, n).gate != Refused
    requires OwnStep(x.ops[n], sid, source, t, x.cfg.ttl) && |packets| == 1 && x.ops[n].pkt == packets[0]
    ensures Arrives(x, n, sid, source, packets)
  {
    hide StateAt, About, Swept, ReplyAt, IsRun;
  }
}
