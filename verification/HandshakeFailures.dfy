/** What a datagram that leads to nothing still does to the pending table. */
module HandshakeFailures {
  import opened Bytes
  import opened Codec
  import opened Net
  import opened HandshakeFraming
  import opened HandshakeMessages
  import opened HandshakeServer
  import opened HandshakeRuns
  import opened HandshakeAgreement
  import opened HandshakeExchange
  import Client = HandshakeClient
  import RateLimit

  // ---------------------------------------------------------------------
  // Exactly when an uneventful delivery changes the table
  // ---------------------------------------------------------------------

  ghost predicate AnyExpired(cfg: Config, t: Table, now: Instant) {
    exists sid | sid in t :: Expired(t[sid], cfg, now)
  }

  /** Fragment 0 of an unknown session is admitted and there is room. */
  ghost predicate Opens(cfg: Config, st: Server, from: SocketAddr, now: Instant, f: Fragment) {
    && f.hsType == ClientHello && f.idx == 0 && f.sid !in st.pending
    && RateLimit.Admit(st.limiter, cfg.rate, from, now).ok && |st.pending| < cfg.maxPending
  }

  /** The source's own unfinished entry takes the fragment in. */
  ghost predicate TakesIn(st: Server, from: SocketAddr, f: Fragment)
    requires TableOk(st.pending)
  {
    && f.hsType == ClientHello && f.sid in st.pending
    && var e := st.pending[f.sid];
       e.source == from && e.phase == AwaitM1 && AddFragment(e.assembler.value, f).result != Ignored
  }

  /** The source's own entry meets its genuine M3 after its client was taken off the roster. */
  ghost predicate Revokes(c: Suite, cfg: Config, st: Server, from: SocketAddr, now: Instant, f: Fragment)
    requires TableOk(st.pending) && f.Valid()
  {
    && f.hsType == ClientConfirm && f.sid in st.pending
    && var e := st.pending[f.sid];
       && e.source == from && e.phase == AwaitM3 && RateLimit.Admit(st.limiter, cfg.rate, from, now).ok
       && DecodeM3(f.body).Some? && DecodeM3(f.body).value.version == cfg.version && DecodeM3(f.body).value.sid == f.sid
       && MacMatches(c, e, f.body, f.sid) && e.client.value !in st.roster
  }

  lemma NothingExpired(cfg: Config, t: Table, now: Instant)
    requires !AnyExpired(cfg, t, now)
    ensures EvictExpired(t, cfg, now) == t
  {
    hide Expired;
  }

  /** A sweep always shows: what it took is gone, or is a new entry with a new time. */
  lemma SweepShows(c: Suite, cfg: Config, st: Server, op: Op)
    requires Inv(st, cfg) && cfg.ttl > 0 && About(op).Some? && AnyExpired(cfg, st.pending, op.now)
    ensures Step(c, cfg, st, op).server.pending != st.pending
  {
    hide Step, About, RateLimit.Inv, AddFragment, EntryOk;
    var sid :| sid in st.pending && Expired(st.pending[sid], cfg, op.now);
    StepMoves(c, cfg, st, op, sid);
  }

  lemma NewM1Changes(cfg: Config, st: Server, f: Fragment, from: SocketAddr, now: Instant)
    requires f.sid !in st.pending && f.hsType == ClientHello
    ensures OnNewM1(cfg, st, f, from, now).server.pending == st.pending <==> !Opens(cfg, st, from, now, f)
  {
    hide RateLimit.Admit, NewPending;
  }

  lemma AwaitM1Changes(c: Suite, cfg: Config, st: Server, f: Fragment, from: SocketAddr, now: Instant, draw: Draw)
    requires f.Valid() && f.hsType == ClientHello && f.sid in st.pending && EntryOk(st.pending[f.sid])
    requires st.pending[f.sid].phase == AwaitM1 && OnAwaitM1(c, cfg, st, f, from, now, draw).event == Nothing
    ensures OnAwaitM1(c, cfg, st, f, from, now, draw).server.pending == st.pending
       <==> AddFragment(st.pending[f.sid].assembler.value, f).result == Ignored
  {
    hide RateLimit.Admit, AddFragment, DecodeM1, Matching, ServerHelloOf, Datagrams, Th1, Slice;
    var a := st.pending[f.sid].assembler.value;
    var r := AddFragment(a, f);
    if r.result != Ignored {
      AddStores(a, f);
      assert r.assembler.received[f.idx] != a.received[f.idx];
    }
  }

  lemma M1Changes(c: Suite, cfg: Config, st: Server, f: Fragment, from: SocketAddr, now: Instant, draw: Draw)
    requires TableOk(st.pending) && f.Valid() && f.hsType == ClientHello && !AnyExpired(cfg, st.pending, now)
    requires OnM1(c, cfg, st, f, from, now, draw).event == Nothing
    ensures OnM1(c, cfg, st, f, from, now, draw).server.pending == st.pending
       <==> !Opens(cfg, st, from, now, f) && !TakesIn(st, from, f)
  {
    hide RateLimit.Admit, OnNewM1, OnAwaitM1, AnyExpired, EvictExpired, EntryOk, Datagrams, AddFragment;
    NothingExpired(cfg, st.pending, now);
    if f.sid !in st.pending {
      NewM1Changes(cfg, st, f, from, now);
    } else if st.pending[f.sid].source == from && st.pending[f.sid].phase == AwaitM1 {
      AwaitM1Changes(c, cfg, st, f, from, now, draw);
    }
  }

  lemma M3Changes(c: Suite, cfg: Config, st: Server, f: Fragment, from: SocketAddr, now: Instant)
    requires TableOk(st.pending) && f.Valid() && f.hsType == ClientConfirm && !AnyExpired(cfg, st.pending, now)
    requires OnM3(c, cfg, st, f, from, now).event == Nothing
    ensures OnM3(c, cfg, st, f, from, now).server.pending == st.pending <==> !Revokes(c, cfg, st, from, now, f)
  {
    hide RateLimit.Admit, AnyExpired, EvictExpired, EntryOk, MacMatches, Derived, DecodeM3;
    NothingExpired(cfg, st.pending, now);
  }

  /**
   * A delivery that leads to nothing leaves the pending table alone exactly when it is no
   * well-formed M1 or M3 fragment, or nothing is expired and it opens no entry, is taken in
   * by none, and meets no revoked client.
   */
  lemma UneventfulDelivery(c: Suite, cfg: Config, st: Server, op: Op)
    requires Inv(st, cfg) && cfg.ttl > 0 && op.Deliver? && Step(c, cfg, st, op).event == Nothing
    ensures var f := About(op);
            Step(c, cfg, st, op).server.pending == st.pending
            <==> || f.None?
                 || (&& !AnyExpired(cfg, st.pending, op.now) && !Opens(cfg, st, op.from, op.now, f.value)
                     && !TakesIn(st, op.from, f.value) && !Revokes(c, cfg, st, op.from, op.now, f.value))
  {
    hide OnM1, OnM3, AnyExpired, Opens, FromDatagram, RateLimit.Inv, EntryOk, AddFragment, RateLimit.Admit, MacMatches, DecodeM3;
    var f := About(op);
    if f.Some? {
      if AnyExpired(cfg, st.pending, op.now) {
        SweepShows(c, cfg, st, op);
      } else if f.value.hsType == ClientHello {
        M1Changes(c, cfg, st, f.value, op.from, op.now, op.draw);
      } else {
        M3Changes(c, cfg, st, f.value, op.from, op.now);
        NoOpening(cfg, st, op.from, op.now, f.value);
      }
    }
  }

  lemma NoOpening(cfg: Config, st: Server, from: SocketAddr, now: Instant, f: Fragment)
    requires f.hsType == ClientConfirm
    ensures !Opens(cfg, st, from, now, f)
  {}

  // ---------------------------------------------------------------------
  // A complete M1 that was refused its token
  // ---------------------------------------------------------------------

  /** The entry holds a whole M1 that nobody judged. */
  ghost predicate Stuck(e: Pending) {
    e.phase == AwaitM1 && e.assembler.Some? && e.assembler.value.complete
  }

  ghost predicate StuckAt(x: Execution, n: nat, sid: SessionId)
    requires IsRun(x) && n <= |x.ops|
  {
    sid in StateAt(x, n).pending && Stuck(StateAt(x, n).pending[sid])
  }

  /** That is what a completing fragment without a token leaves. */
  lemma RefusedCompletionSticks(x: Execution, n: nat, sid: SessionId, f: Fragment, e: Pending)
    requires IsRun(x) && n < |x.ops| && About(x.ops[n]) == Some(f) && f.sid == sid && f.hsType == ClientHello
    requires EntryOf(Swept(x.cfg, StateAt(x, n), x.ops[n]), sid) == Some(e) && EntryOk(e)
    requires e.phase == AwaitM1 && e.source == x.ops[n].from && AddFragment(e.assembler.value, f).result == Completed
    requires ReplyAt(x, n).gate == Refused
    ensures StuckAt(x, n + 1, sid) && ReplyAt(x, n).event == Nothing
    ensures StateAt(x, n + 1).pending[sid].lastSeen == e.lastSeen && StateAt(x, n + 1).pending[sid].started == e.started
  {
    hide StateAt, Swept, About, AddFragment, CompleteM1, RateLimit.Admit, EvictExpired, RateLimit.Inv, Slice;
    var st, op := StateAt(x, n), x.ops[n];
    OneMore(x, n);
    StepIsOnM1(x, n, f);
    SweptBy(x.cfg, st, op);
    AddStores(e.assembler.value, f);
    JudgedIsAdmitted(x.suite, x.cfg, Evicted(st, x.cfg, op.now), f, op.from, op.now, op.draw);
  }

  /** A refused completion keeps the whole M1 and changes nothing else of the entry. */
  lemma JudgedIsAdmitted(c: Suite, cfg: Config, st: Server, f: Fragment, from: SocketAddr, now: Instant, draw: Draw)
    requires f.sid in st.pending && EntryOk(st.pending[f.sid]) && st.pending[f.sid].phase == AwaitM1
    requires AddFragment(st.pending[f.sid].assembler.value, f).result == Completed
    requires OnAwaitM1(c, cfg, st, f, from, now, draw).gate == Refused
    ensures var e, r := st.pending[f.sid], OnAwaitM1(c, cfg, st, f, from, now, draw);
            r.event == Nothing
            && EntryOf(r.server.pending, f.sid) == Some(e.(assembler := Some(AddFragment(e.assembler.value, f).assembler)))
  {
    hide AddFragment, RateLimit.Admit, DecodeM1, Matching, ServerHelloOf, Datagrams, Th1;
    AddKeepsValid(st.pending[f.sid].assembler.value, f);
  }

  lemma CompleteIgnores(a: Assembler, f: Fragment)
    requires |a.received| == 5 && a.complete
    ensures AddFragment(a, f).result == Ignored
  {}

  lemma StuckStep(x: Execution, n: nat, sid: SessionId)
    requires IsRun(x) && n < |x.ops| && StuckAt(x, n, sid) && sid in Swept(x.cfg, StateAt(x, n), x.ops[n])
    ensures EntryOf(StateAt(x, n + 1).pending, sid) == Some(StateAt(x, n).pending[sid])
    ensures About(x.ops[n]).Some? && About(x.ops[n]).value.sid == sid ==> ReplyAt(x, n).event == Nothing
  {
    hide StateAt, Step, Swept, About, AddFragment, RateLimit.Inv;
    OneMore(x, n);
    var st, op := StateAt(x, n), x.ops[n];
    StepMoves(x.suite, x.cfg, st, op, sid);
    SweptIsPart(x.cfg, st, op, sid);
    if About(op).Some? { CompleteIgnores(st.pending[sid].assembler.value, About(op).value); }
  }

  /** Steps `i..n` stay within one lifetime of the entry's last refresh. */
  ghost predicate WithinLifetime(x: Execution, i: nat, n: nat, lastSeen: Instant) {
    forall k | i <= k < n && k < |x.ops| :: About(x.ops[k]).Some? ==> x.ops[k].now < lastSeen + x.cfg.ttl
  }

  lemma UnexpiredIsKept(x: Execution, n: nat, sid: SessionId)
    requires IsRun(x) && n < |x.ops| && sid in StateAt(x, n).pending && x.cfg.ttl > 0
    ensures sid in Swept(x.cfg, StateAt(x, n), x.ops[n])
       <==> (About(x.ops[n]).Some? ==> x.ops[n].now < StateAt(x, n).pending[sid].lastSeen + x.cfg.ttl)
  {
    hide StateAt, About, RateLimit.Inv, EntryOk;
  }

  /** Nothing is said for the session in steps `i..n`. */
  ghost predicate Silent(x: Execution, i: nat, n: nat, sid: SessionId)
    requires IsRun(x)
  {
    forall k | i <= k < n && k < |x.ops| :: SilentAt(x, k, sid)
  }

  ghost predicate SilentAt(x: Execution, k: nat, sid: SessionId)
    requires IsRun(x) && k < |x.ops|
  {
    About(x.ops[k]).Some? && About(x.ops[k]).value.sid == sid ==> ReplyAt(x, k).event == Nothing
  }

  lemma SilentLater(x: Execution, i: nat, n: nat, sid: SessionId)
    requires IsRun(x) && n < |x.ops| && Silent(x, i, n, sid) && SilentAt(x, n, sid)
    ensures Silent(x, i, n + 1, sid)
  {
    hide IsRun, SilentAt;
  }

  lemma WithinShorter(x: Execution, i: nat, n: nat, lastSeen: Instant)
    requires i < n <= |x.ops| && WithinLifetime(x, i, n, lastSeen)
    ensures WithinLifetime(x, i, n - 1, lastSeen)
    ensures About(x.ops[n - 1]).Some? ==> x.ops[n - 1].now < lastSeen + x.cfg.ttl
  {
    hide About;
  }

  /** Nothing moves a stuck entry, and nothing is said for its session, until its lifetime ends. */
  lemma {:induction false} StuckUntilSwept(x: Execution, i: nat, n: nat, sid: SessionId)
    requires IsRun(x) && i <= n <= |x.ops| && StuckAt(x, i, sid) && x.cfg.ttl > 0
    requires WithinLifetime(x, i, n, StateAt(x, i).pending[sid].lastSeen)
    ensures StuckAt(x, n, sid) && StateAt(x, n).pending[sid] == StateAt(x, i).pending[sid]
    ensures Silent(x, i, n, sid)
  {
    hide IsRun, StateAt, ReplyAt, Swept, About, Stuck, WithinLifetime, Silent, Inv;
    if i < n {
      WithinShorter(x, i, n, StateAt(x, i).pending[sid].lastSeen);
      StuckUntilSwept(x, i, n - 1, sid);
      UnexpiredIsKept(x, n - 1, sid);
      StuckStep(x, n - 1, sid);
      SilentLater(x, i, n - 1, sid);
    } else {
      SilentHere(x, i, sid);
    }
  }

  lemma SilentHere(x: Execution, i: nat, sid: SessionId)
    requires IsRun(x)
    ensures Silent(x, i, i, sid)
  {
    hide IsRun, SilentAt;
  }

  /** The first well-formed fragment after that sweeps it. */
  lemma StuckIsSwept(x: Execution, i: nat, n: nat, sid: SessionId)
    requires IsRun(x) && i <= n < |x.ops| && StuckAt(x, i, sid) && x.cfg.ttl > 0
    requires WithinLifetime(x, i, n, StateAt(x, i).pending[sid].lastSeen)
    requires About(x.ops[n]).Some? && x.ops[n].now >= StateAt(x, i).pending[sid].lastSeen + x.cfg.ttl
    ensures sid !in Swept(x.cfg, StateAt(x, n), x.ops[n])
  {
    hide IsRun, StateAt, ReplyAt, Swept, About, Stuck;
    StuckUntilSwept(x, i, n, sid);
    UnexpiredIsKept(x, n, sid);
  }

  // ---------------------------------------------------------------------
  // A refused M1 deletes its entry
  // ---------------------------------------------------------------------

  /** The server finds fault with the client's M1. */
  ghost predicate Faulty(c: Suite, cfg: Config, roster: seq<VerifyKey>, cl: Client.Client) {
    var m1 := DecodeM1(c, M1Of(cl));
    || m1.None? || m1.value.version != cfg.version || m1.value.sid != cl.sid
    || Matching(c, roster, Th1(c, M1Of(cl)), m1.value.sig).None?
  }

  lemma FaultyIsDropped(c: Suite, cfg: Config, st: Server, cl: Client.Client, from: SocketAddr, now: Instant, draw: Draw)
    requires cl.sid in st.pending && Faulty(c, cfg, st.roster, cl)
    ensures var r := CompleteM1(c, cfg, st, cl.sid, M1Of(cl), from, now, draw);
            r.event == Nothing && cl.sid !in r.server.pending
  {
    hide DecodeM1, Matching, Th1, ServerHelloOf, Datagrams, M1Of;
  }

  /** The fragment that completes a faulty M1 takes its entry away, without a word. */
  lemma RefusedHello(x: Execution, cl: Client.Client, source: SocketAddr, n: nat, i: nat)
    requires IsRun(x) && n < |x.ops| && Progress(x, cl, source, n) && Suffices(x, cl.sid, source, n)
    requires Got(x, cl.sid, source, n)[0] && !All(Got(x, cl.sid, source, n)) && i < 4 && All(Got(x, cl.sid, source, n)[i := true])
    requires About(x.ops[n]) == Some(M1Fragment(cl, i)) && x.ops[n].from == source
    requires Faulty(x.suite, x.cfg, StateAt(x, n).roster, cl)
    ensures cl.sid in StateAt(x, n).pending && ReplyAt(x, n).event == Nothing && cl.sid !in StateAt(x, n + 1).pending
  {
    hide IsRun, StateAt, Suffices, About, Progress, Collecting, Got, OnAwaitM1, EntryOk, All, CompleteM1, AddFragment, EvictExpired,
      Slice, M1Of, ReplyAt, RateLimit.Admit, M1Fragment, Faulty;
    CollectingState(x, cl, source, n, i);
    OneMore(x, n);
    var op, st, e := x.ops[n], Evicted(StateAt(x, n), x.cfg, x.ops[n].now), StateAt(x, n).pending[cl.sid];
    CollectsEntry(x.suite, x.cfg, st, cl, i, e, op.from, op.now, op.draw);
    FaultyIsDropped(x.suite, x.cfg, Judged(x.cfg, st, cl, i, op.from, op.now), cl, op.from, op.now, op.draw);
  }

  /** Four datagrams carrying an M1 of another protocol version. */
  ghost function OldHello(c: Suite, cfg: Config, roster: seq<VerifyKey>, cl: Client.Client, source: SocketAddr, draw: Draw): Execution {
    Execution(c, cfg, Server(roster, map[], RateLimit.Limiter(map[], [], 0)),
              seq(4, i requires 0 <= i < 4 =>
                Deliver(DatagramAt(ClientHello, PROTOCOL_VERSION, cl.sid, M1Of(cl), i), source, 0, draw)))
  }

  lemma OldHelloStep(c: Suite, cfg: Config, roster: seq<VerifyKey>, cl: Client.Client, source: SocketAddr, draw: Draw, i: nat)
    requires i < 4
    ensures var op := OldHello(c, cfg, roster, cl, source, draw).ops[i];
            op.Deliver? && op.from == source && op.now == 0 && About(op) == Some(M1Fragment(cl, i))
  {
    hide FromDatagram, DatagramAt, Slice, M1Of;
    DatagramRoundTrip(ClientHello, cl.sid, M1Of(cl), i);
  }

  lemma OldHelloIsFresh(c: Suite, cfg: Config, roster: seq<VerifyKey>, cl: Client.Client, source: SocketAddr, draw: Draw)
    requires cfg.ttl > 0
    ensures var x := OldHello(c, cfg, roster, cl, source, draw);
            Fresh(x) && |x.ops| == 4 && OwnTraffic(x, cl.sid, source, 0, 4)
  {
    hide About, DatagramAt, M1Of, Slice;
    forall i | 0 <= i < 4 ensures OwnStep(OldHello(c, cfg, roster, cl, source, draw).ops[i], cl.sid, source, 0, cfg.ttl) {
      OldHelloStep(c, cfg, roster, cl, source, draw, i);
    }
  }

  /**
   * Whatever the primitives, the roster and the configuration (four tokens, one free slot),
   * there is a run in which a failed peer input mutates the table: the fourth datagram of
   * an M1 of another version is answered with nothing and deletes the entry.
   */
  lemma FailedInputMutates(c: Suite, cfg: Config, roster: seq<VerifyKey>, cl: Client.Client, source: SocketAddr, draw: Draw)
    requires cfg.ttl > 0 && cfg.maxPending > 0 && cfg.rate.burst >= 4 && cl.hello.version != PROTOCOL_VERSION
    ensures var x := OldHello(c, cfg, roster, cl, source, draw);
            && IsRun(x) && |x.ops| == 4
            && cl.sid in StateAt(x, 3).pending && ReplyAt(x, 3).event == Nothing && cl.sid !in StateAt(x, 4).pending
  {
    hide *;
    var x := OldHello(c, cfg, roster, cl, source, draw);
    OldHelloIsFresh(c, cfg, roster, cl, source, draw);
    FreshIsRun(x);
    OldHelloCalm(c, cfg, roster, cl, source, draw, 0);
    StartProgress(x, cl, source);
    GotSoFar(c, cfg, roster, cl, source, draw);
    OpeningStep(x, cl, source, 0, 0);
    OldHelloCalm(c, cfg, roster, cl, source, draw, 1);
    CollectingMore(x, cl, source, 1, 1);
    OldHelloCalm(c, cfg, roster, cl, source, draw, 2);
    CollectingMore(x, cl, source, 2, 2);
    OldHelloCalm(c, cfg, roster, cl, source, draw, 3);
    OldIsFaulty(c, cfg, StateAt(x, 3).roster, cl);
    ParametersOf(c, cfg, roster, cl, source, draw);
    RefusedHello(x, cl, source, 3, 3);
  }

  lemma ParametersOf(c: Suite, cfg: Config, roster: seq<VerifyKey>, cl: Client.Client, source: SocketAddr, draw: Draw)
    ensures OldHello(c, cfg, roster, cl, source, draw).suite == c && OldHello(c, cfg, roster, cl, source, draw).cfg == cfg
  {
    hide DatagramAt, M1Of;
  }

  lemma OldIsFaulty(c: Suite, cfg: Config, roster: seq<VerifyKey>, cl: Client.Client)
    requires cl.hello.version != PROTOCOL_VERSION
    ensures Faulty(c, cfg, roster, cl)
  {
    hide DecodeM1, EncodeM1, Matching, Th1;
    M1RoundTrip(c, cl.hello);
  }

  lemma OldHelloCalm(c: Suite, cfg: Config, roster: seq<VerifyKey>, cl: Client.Client, source: SocketAddr, draw: Draw, i: nat)
    requires cfg.ttl > 0 && cfg.maxPending > 0 && cfg.rate.burst >= 4 && i < 4
    ensures var x := OldHello(c, cfg, roster, cl, source, draw);
            && IsRun(x) && |x.ops| == 4 && Suffices(x, cl.sid, source, i)
            && x.ops[i].Deliver? && x.ops[i].from == source && About(x.ops[i]) == Some(M1Fragment(cl, i))
  {
    hide *;
    var x := OldHello(c, cfg, roster, cl, source, draw);
    OldHelloIsFresh(c, cfg, roster, cl, source, draw);
    OwnPrefix(x, cl.sid, source, 0, i, 4);
    StaysCalm(x, cl.sid, source, 0, i);
    ParametersOf(c, cfg, roster, cl, source, draw);
    CalmSuffices(x, cl.sid, source, 0, i);
    OldHelloStep(c, cfg, roster, cl, source, draw, i);
  }

  lemma GotSoFar(c: Suite, cfg: Config, roster: seq<VerifyKey>, cl: Client.Client, source: SocketAddr, draw: Draw)
    ensures var x := OldHello(c, cfg, roster, cl, source, draw);
            && |x.ops| == 4
            && !Got(x, cl.sid, source, 0)[0]
            && Got(x, cl.sid, source, 1)[0] && !All(Got(x, cl.sid, source, 1)) && !All(Got(x, cl.sid, source, 1)[1 := true])
            && Got(x, cl.sid, source, 2)[0] && !All(Got(x, cl.sid, source, 2)) && !All(Got(x, cl.sid, source, 2)[2 := true])
            && Got(x, cl.sid, source, 3)[0] && !All(Got(x, cl.sid, source, 3)) && All(Got(x, cl.sid, source, 3)[3 := true])
  {
    hide About, FedIndex, DatagramAt, M1Of, Slice, M1Fragment;
    var x := OldHello(c, cfg, roster, cl, source, draw);
    forall i | 0 <= i < 4 ensures FedIndex(x.ops[i], cl.sid, source) == Some(i) {
      OldHelloStep(c, cfg, roster, cl, source, draw, i);
      FedIs(x.ops[i], cl, source, i);
    }
    assert Got(x, cl.sid, source, 1) == [true, false, false, false];
    assert Got(x, cl.sid, source, 2) == [true, true, false, false];
    assert Got(x, cl.sid, source, 3) == [true, true, true, false];
    assert !Got(x, cl.sid, source, 3)[3] && !Got(x, cl.sid, source, 2)[3] && !Got(x, cl.sid, source, 1)[3];
    assert !Got(x, cl.sid, source, 2)[2 := true][3] && !Got(x, cl.sid, source, 1)[1 := true][3];
  }
}
