/** Honest parties agree: any order and repetition of honest fragments ends with one master secret on both sides. */
module HandshakeAgreement {
  import opened Bytes
  import opened Codec
  import opened Net
  import opened HandshakeFraming
  import opened HandshakeMessages
  import opened HandshakeServer
  import opened HandshakeRuns
  import Client = HandshakeClient
  import RateLimit

  // ---------------------------------------------------------------------
  // The cryptographic core
  // ---------------------------------------------------------------------

  /** The two configurations match: each side knows the other's key. */
  ghost predicate Matched(c: Suite, k: Client.Config, s: Config, roster: seq<VerifyKey>) {
    && k.version == s.version == PROTOCOL_VERSION
    && k.server == c.verifyKey(s.identity) && c.verifyKey(k.identity) in roster
  }

  ghost predicate IsClient(c: Suite, k: Client.Config, cl: Client.Client) {
    cl.hello == Client.HelloOf(c, k, cl.sid, cl.kem, cl.dh)
  }

  function M1Of(cl: Client.Client): Message1 { EncodeM1(cl.hello) }

  function SharedA(c: Suite, cl: Client.Client, draw: Draw): Encapsulated { c.encapsulate(cl.hello.kem, draw.coins) }

  function M2Of(c: Suite, s: Config, cl: Client.Client, draw: Draw): Message2 {
    ServerHelloOf(c, s, cl.sid, M1Of(cl), SharedA(c, cl, draw).ciphertext, draw)
  }

  /** A key under which the client's hello verifies. */
  ghost predicate Verifies(c: Suite, cl: Client.Client, key: VerifyKey) {
    c.verify(key, Th1(c, M1Of(cl)), cl.hello.sig)
  }

  /** The server reads the client's hello back and finds its signature good. */
  lemma HelloVerifies(c: Suite, k: Client.Config, s: Config, roster: seq<VerifyKey>, cl: Client.Client)
    requires Lawful(c) && Matched(c, k, s, roster) && IsClient(c, k, cl)
    ensures DecodeM1(c, M1Of(cl)) == Some(cl.hello) && cl.hello.version == s.version && cl.hello.sid == cl.sid
    ensures Matching(c, roster, Th1(c, M1Of(cl)), cl.hello.sig).Some? && Verifies(c, cl, c.verifyKey(k.identity))
  {
    hide DecodeM1, EncodeM1, Th1;
    M1RoundTrip(c, cl.hello);
    Th1IgnoresSignature(c, cl.hello, Zeros(SIGNATURE_LEN));
    MatchingIsLastMatch(c, roster, Th1(c, M1Of(cl)), cl.hello.sig);
  }

  /** The unsigned and signed forms of the server's hello. */
  function Hello2Of(c: Suite, s: Config, cl: Client.Client, draw: Draw): Hello2 {
    var unsigned := Hello2(s.version, cl.sid, c.kemPublic(draw.kem), c.dhPublic(draw.dh), SharedA(c, cl, draw).ciphertext,
                           Zeros(SIGNATURE_LEN));
    unsigned.(sig := c.sign(s.identity, Th2(c, M1Of(cl), EncodeM2(unsigned))))
  }

  /** The client reads the server's hello back and finds its signature good. */
  lemma ReplyVerifies(c: Suite, k: Client.Config, s: Config, roster: seq<VerifyKey>, cl: Client.Client, draw: Draw)
    requires Lawful(c) && Matched(c, k, s, roster) && IsClient(c, k, cl)
    ensures DecodeM2(c, M2Of(c, s, cl, draw)) == Some(Hello2Of(c, s, cl, draw))
    ensures c.verify(k.server, Th2(c, M1Of(cl), M2Of(c, s, cl, draw)), Hello2Of(c, s, cl, draw).sig)
  {
    hide DecodeM2, EncodeM2, Th2, EncodeM1;
    var hello := Hello2Of(c, s, cl, draw);
    assert M2Of(c, s, cl, draw) == EncodeM2(hello);
    M2RoundTrip(c, hello);
    Th2IgnoresSignature(c, M1Of(cl), hello, Zeros(SIGNATURE_LEN));
  }

  /** The server entry that answered this client with this draw. */
  ghost predicate Served(c: Suite, s: Config, cl: Client.Client, draw: Draw, e: Pending) {
    && e.phase == AwaitM3 && e.client.Some? && Verifies(c, cl, e.client.value)
    && e.m1 == Some(M1Of(cl)) && e.m2 == Some(M2Of(c, s, cl, draw)) && e.kem == Some(draw.kem)
    && e.ssA == SharedA(c, cl, draw).secret && c.dh(draw.dh, cl.hello.x) == Some(e.dh)
  }

  /** The client answers that M2, and its M3 makes the server derive the client's master and find its MAC good. */
  lemma SecretsAgree(c: Suite, k: Client.Config, s: Config, roster: seq<VerifyKey>, cl: Client.Client, draw: Draw,
                     e: Pending, coins: Coins)
    requires Lawful(c) && Matched(c, k, s, roster) && IsClient(c, k, cl) && Served(c, s, cl, draw, e)
    ensures var a := Client.AnswerTo(c, k, cl, M2Of(c, s, cl, draw), coins);
            && a.Some? && DecodeM3(a.value.m3).Some?
            && DecodeM3(a.value.m3).value.version == s.version && DecodeM3(a.value.m3).value.sid == cl.sid
            && MacMatches(c, e, a.value.m3, cl.sid) && Derived(c, e, a.value.m3, cl.sid) == a.value.master
  {
    hide DecodeM2, DecodeM3, EncodeM2, EncodeM3, EncodeM1, Th2, Th3, Th1, MasterSecret, FinishedMac, ServerHelloOf;
    ReplyVerifies(c, k, s, roster, cl, draw);
    var m2, hello := M2Of(c, s, cl, draw), Hello2Of(c, s, cl, draw);
    var shared := c.encapsulate(hello.kem, coins);
    assert c.dh(cl.dh, hello.x) == Some(e.dh);
    var a := Client.Finish(c, k, cl, m2, hello.ct, shared, e.dh);
    FinishAgrees(c, k, cl, m2, hello.ct, shared, e, a);
  }

  lemma FinishAgrees(c: Suite, k: Client.Config, cl: Client.Client, m2: Message2, ct: KemCiphertext, shared: Encapsulated,
                     e: Pending, a: Client.Answer)
    requires k.version == PROTOCOL_VERSION && a == Client.Finish(c, k, cl, m2, ct, shared, e.dh)
    requires e.m1 == Some(M1Of(cl)) && e.m2 == Some(m2) && e.kem.Some?
    requires e.ssA == c.decapsulate(cl.kem, ct) && c.decapsulate(e.kem.value, shared.ciphertext) == shared.secret
    ensures DecodeM3(a.m3).Some? && DecodeM3(a.m3).value.version == k.version && DecodeM3(a.m3).value.sid == cl.sid
    ensures MacMatches(c, e, a.m3, cl.sid) && Derived(c, e, a.m3, cl.sid) == a.master
  {
    hide EncodeM3, EncodeM1, Th3, MasterSecret, FinishedMac;
    var unsigned := Confirm(k.version, cl.sid, shared.ciphertext, Zeros(FINISHED_MAC_LEN));
    var th3 := Th3(c, M1Of(cl), m2, EncodeM3(unsigned));
    var signed := unsigned.(mac := FinishedMac(c, a.master, k.version, cl.sid, th3));
    assert a.m3 == EncodeM3(signed);
    M3RoundTrip(signed);
    Th3IgnoresMac(c, M1Of(cl), m2, unsigned, signed.mac);
  }

  // ---------------------------------------------------------------------
  // The server rebuilds and answers M1
  // ---------------------------------------------------------------------

  /** The index of the M1 fragment a step delivers from the client's address, if it does. */
  ghost function FedIndex(op: Op, sid: SessionId, source: SocketAddr): Option<nat> {
    var f := About(op);
    if f.Some? && f.value.sid == sid && f.value.hsType == ClientHello && op.from == source then Some(f.value.idx) else None
  }

  /** Every step before `n` is fair to the client. */
  ghost predicate HonestM1(x: Execution, cl: Client.Client, source: SocketAddr, n: nat)
    requires IsRun(x)
  {
    forall k | 0 <= k < n && k < |x.ops| :: Fair(x, cl, source, k)
  }

  /**
   * What bears the client's session id is its own M1, fragment by fragment, or cannot
   * touch its entry; and no swap takes a key off the roster that its M1 verifies under.
   */
  ghost predicate Fair(x: Execution, cl: Client.Client, source: SocketAddr, k: nat)
    requires IsRun(x) && k < |x.ops|
  {
    && (forall key | key in StateAt(x, k).roster && Verifies(x.suite, cl, key) :: key in ReplyAt(x, k).server.roster)
    && var f := About(x.ops[k]);
       f.Some? && f.value.sid == cl.sid ==>
         || (x.ops[k].from == source && f.value == M1Fragment(cl, f.value.idx))
         || Powerless(x.suite, StateAt(x, k).pending, x.ops[k], f.value, cl.sid, source)
  }

  /**
   * A stranger's datagram under the session id that does not come before the client's
   * fragment 0 to take its place, or an M3 that is not the entry's own.
   */
  ghost predicate Powerless(c: Suite, t: Table, op: Op, f: Fragment, sid: SessionId, source: SocketAddr)
    requires op.Deliver? && TableOk(t) && f.Valid()
  {
    if f.hsType == ClientHello then op.from != source && (f.idx == 0 ==> sid in t)
    else
      && f.hsType == ClientConfirm
      && (sid in t && op.from == t[sid].source && t[sid].phase == AwaitM3 ==> !MacMatches(c, t[sid], f.body, sid))
  }

  ghost function M1Fragment(cl: Client.Client, i: nat): Fragment {
    Fragment(cl.sid, ClientHello, i, if i < 4 then Slice(ClientHello, M1Of(cl), i) else [])
  }

  /** Tokens, time and table space suffice at step `k`. */
  ghost predicate Suffices(x: Execution, sid: SessionId, source: SocketAddr, k: nat)
    requires IsRun(x) && k < |x.ops|
  {
    && (sid in StateAt(x, k).pending ==> sid in Swept(x.cfg, StateAt(x, k), x.ops[k]))
    && (FedIndex(x.ops[k], sid, source).Some? ==> ReplyAt(x, k).gate != Refused)
    && (FedIndex(x.ops[k], sid, source) == Some(0) && sid !in StateAt(x, k).pending
        ==> |Swept(x.cfg, StateAt(x, k), x.ops[k])| < x.cfg.maxPending)
  }

  /** Which fragments have come in, not counting any that came before fragment 0. */
  ghost function Got(x: Execution, sid: SessionId, source: SocketAddr, n: nat): (g: seq<bool>)
    requires n <= |x.ops|
    ensures |g| == 4
  {
    if n == 0 then [false, false, false, false] else GotNext(Got(x, sid, source, n - 1), FedIndex(x.ops[n - 1], sid, source))
  }

  ghost function GotNext(g: seq<bool>, i: Option<nat>): (g': seq<bool>)
    requires |g| == 4
    ensures |g'| == 4
  {
    if i.Some? && i.value < 4 && (i.value == 0 || g[0]) then g[i.value := true] else g
  }

  ghost predicate All(g: seq<bool>) { forall i | 0 <= i < |g| :: g[i] }

  /** The step that answered the client, and what it sent. */
  ghost predicate AnswerStep(x: Execution, cl: Client.Client, source: SocketAddr, a: nat)
    requires IsRun(x) && a < |x.ops|
  {
    && x.ops[a].Deliver? && EmitsFor(x, a, cl.sid)
    && ReplyAt(x, a).event == Emit(Datagrams(ServerHello, x.cfg.version, cl.sid, M2Of(x.suite, x.cfg, cl, x.ops[a].draw)), source)
  }

  /** How far the handshake of `cl` has come after `n` steps. */
  ghost predicate Progress(x: Execution, cl: Client.Client, source: SocketAddr, n: nat)
    requires IsRun(x) && n <= |x.ops|
  {
    var st, g := StateAt(x, n), Got(x, cl.sid, source, n);
    if !g[0] then cl.sid !in st.pending && g == [false, false, false, false]
    else
      && cl.sid in st.pending
      && var e := st.pending[cl.sid];
         && e.source == source
         && if All(g) then exists a | 0 <= a < n :: ServedAt(x, cl, source, e, a)
            else e.phase == AwaitM1 && Collecting(e.assembler.value, cl, g)
  }

  ghost predicate ServedAt(x: Execution, cl: Client.Client, source: SocketAddr, e: Pending, a: nat)
    requires IsRun(x) && a < |x.ops|
  {
    AnswerStep(x, cl, source, a) && Served(x.suite, x.cfg, cl, x.ops[a].draw, e) && e.client.value in StateAt(x, a).roster
  }

  ghost predicate Collecting(a: Assembler, cl: Client.Client, g: seq<bool>) {
    |g| == 4 && a.hsType == ClientHello && Holds(a, M1Of(cl)) && a.received[..4] == g
  }

  lemma StepIsOnM1(x: Execution, n: nat, f: Fragment)
    requires IsRun(x) && n < |x.ops| && About(x.ops[n]) == Some(f) && f.hsType == ClientHello
    ensures x.ops[n].Deliver?
    ensures ReplyAt(x, n) == OnM1(x.suite, x.cfg, StateAt(x, n), f, x.ops[n].from, x.ops[n].now, x.ops[n].draw)
  {
    hide OnM1, StateAt, RateLimit.Inv;
  }

  /** Progress is about the fragments and the entry, and stays where they stay. */
  lemma ProgressKept(x: Execution, cl: Client.Client, source: SocketAddr, n: nat)
    requires IsRun(x) && n < |x.ops| && Progress(x, cl, source, n)
    requires EntryOf(StateAt(x, n + 1).pending, cl.sid) == EntryOf(StateAt(x, n).pending, cl.sid)
    requires Got(x, cl.sid, source, n + 1) == Got(x, cl.sid, source, n)
    ensures Progress(x, cl, source, n + 1)
  {
    hide StateAt, Inv, ServedAt, Collecting, Got;
    var g := Got(x, cl.sid, source, n);
    if g[0] && All(g) {
      var e := StateAt(x, n).pending[cl.sid];
      var a :| 0 <= a < n && ServedAt(x, cl, source, e, a);
      assert ServedAt(x, cl, source, e, a);
    }
  }

  lemma ProgressAbsent(x: Execution, cl: Client.Client, source: SocketAddr, n: nat)
    requires IsRun(x) && n <= |x.ops| && EntryOf(StateAt(x, n).pending, cl.sid) == None
    requires Got(x, cl.sid, source, n) == [false, false, false, false]
    ensures Progress(x, cl, source, n)
  {
    hide StateAt, Inv, ServedAt, Collecting, Got;
  }

  lemma ProgressCollecting(x: Execution, cl: Client.Client, source: SocketAddr, n: nat, e: Pending)
    requires IsRun(x) && n <= |x.ops| && EntryOf(StateAt(x, n).pending, cl.sid) == Some(e)
    requires Got(x, cl.sid, source, n)[0] && !All(Got(x, cl.sid, source, n))
    requires e.source == source && e.phase == AwaitM1 && e.assembler.Some?
    requires Collecting(e.assembler.value, cl, Got(x, cl.sid, source, n))
    ensures Progress(x, cl, source, n)
  {
    hide StateAt, Inv, ServedAt, Collecting, Got, All;
  }

  lemma ProgressServed(x: Execution, cl: Client.Client, source: SocketAddr, n: nat, e: Pending, a: nat)
    requires IsRun(x) && n <= |x.ops| && EntryOf(StateAt(x, n).pending, cl.sid) == Some(e) && a < n
    requires All(Got(x, cl.sid, source, n)) && e.source == source && ServedAt(x, cl, source, e, a)
    ensures Progress(x, cl, source, n)
  {
    hide StateAt, Inv, ServedAt, Collecting, Got;
  }

  /** A step about some other session leaves this one alone. */
  lemma OtherStep(x: Execution, cl: Client.Client, source: SocketAddr, n: nat)
    requires IsRun(x) && n < |x.ops| && Progress(x, cl, source, n) && Suffices(x, cl.sid, source, n)
    requires About(x.ops[n]).None? || About(x.ops[n]).value.sid != cl.sid
    ensures Progress(x, cl, source, n + 1)
  {
    hide StateAt, Step, RateLimit.Inv, Progress, About, Swept;
    OneMore(x, n);
    StepMoves(x.suite, x.cfg, StateAt(x, n), x.ops[n], cl.sid);
    SweptIsPart(x.cfg, StateAt(x, n), x.ops[n], cl.sid);
    ProgressKept(x, cl, source, n);
  }

  /** A step about this session that is powerless leaves its entry alone. */
  lemma PowerlessStep(x: Execution, cl: Client.Client, source: SocketAddr, n: nat, f: Fragment)
    requires IsRun(x) && n < |x.ops| && Progress(x, cl, source, n) && Suffices(x, cl.sid, source, n)
    requires About(x.ops[n]) == Some(f) && f.sid == cl.sid
    requires Powerless(x.suite, StateAt(x, n).pending, x.ops[n], f, cl.sid, source)
    ensures Progress(x, cl, source, n + 1)
  {
    hide StateAt, Step, RateLimit.Inv, Progress, About, Swept, MacMatches, Derived, DecodeM3, Datagrams, AddFragment, Answers, EntryOk;
    OneMore(x, n);
    var st, op := StateAt(x, n), x.ops[n];
    ProgressSource(x, cl, source, n);
    StepMoves(x.suite, x.cfg, st, op, cl.sid);
    SweptIsPart(x.cfg, st, op, cl.sid);
    ProgressKept(x, cl, source, n);
  }

  lemma ProgressSource(x: Execution, cl: Client.Client, source: SocketAddr, n: nat)
    requires IsRun(x) && n <= |x.ops| && Progress(x, cl, source, n)
    ensures cl.sid in StateAt(x, n).pending ==> StateAt(x, n).pending[cl.sid].source == source
    ensures cl.sid in StateAt(x, n).pending <==> Got(x, cl.sid, source, n)[0]
    ensures !Got(x, cl.sid, source, n)[0] ==> Got(x, cl.sid, source, n) == [false, false, false, false]
  {
    hide StateAt, Inv, ServedAt, Collecting, Got;
  }

  lemma OpensEntry(c: Suite, cfg: Config, st: Server, f: Fragment, from: SocketAddr, now: Instant, draw: Draw)
    requires TableOk(st.pending) && f.sid !in EvictExpired(st.pending, cfg, now)
    requires OnM1(c, cfg, st, f, from, now, draw).gate != Refused && (f.idx == 0 ==> |EvictExpired(st.pending, cfg, now)| < cfg.maxPending)
    ensures EntryOf(OnM1(c, cfg, st, f, from, now, draw).server.pending, f.sid)
         == if f.idx == 0 then Some(NewPending(f, from, now)) else None
  {
    hide EvictExpired, RateLimit.Admit, NewPending;
  }

  lemma NewCollects(cl: Client.Client, from: SocketAddr, now: Instant)
    ensures var e := NewPending(M1Fragment(cl, 0), from, now);
            e.source == from && e.phase == AwaitM1 && e.assembler.Some? && Collecting(e.assembler.value, cl, [true, false, false, false])
  {
    hide AddFragment, EncodeM1;
    NewHolds(ClientHello, M1Of(cl));
    AddHonestM1(NewAssembler(ClientHello), cl, 0);
  }

  /** Fragment 0 opens the entry; anything before it is dropped. */
  lemma OpeningStep(x: Execution, cl: Client.Client, source: SocketAddr, n: nat, i: nat)
    requires IsRun(x) && n < |x.ops| && Progress(x, cl, source, n) && Suffices(x, cl.sid, source, n) && !Got(x, cl.sid, source, n)[0]
    requires About(x.ops[n]) == Some(M1Fragment(cl, i)) && x.ops[n].from == source && i < 4
    ensures Progress(x, cl, source, n + 1)
  {
    hide IsRun, StateAt, Suffices, About, Progress, Collecting, NewPending, M1Fragment, Got;
    ProgressSource(x, cl, source, n);
    OpeningEntry(x, cl, source, n, i);
    FedIs(x.ops[n], cl, source, i);
    GotOpening(x, cl.sid, source, n, i);
    if i == 0 {
      NewCollects(cl, source, x.ops[n].now);
      ProgressCollecting(x, cl, source, n + 1, NewPending(M1Fragment(cl, 0), source, x.ops[n].now));
    } else {
      ProgressAbsent(x, cl, source, n + 1);
    }
  }

  lemma FedIs(op: Op, cl: Client.Client, source: SocketAddr, i: nat)
    requires About(op) == Some(M1Fragment(cl, i)) && op.from == source
    ensures FedIndex(op, cl.sid, source) == Some(i)
  {
    hide About, Slice, M1Of;
  }

  lemma GotOpening(x: Execution, sid: SessionId, source: SocketAddr, n: nat, i: nat)
    requires n < |x.ops| && FedIndex(x.ops[n], sid, source) == Some(i) && i < 4
    requires Got(x, sid, source, n) == [false, false, false, false]
    ensures var g := Got(x, sid, source, n + 1);
            if i == 0 then g == [true, false, false, false] && !All(g) else g == [false, false, false, false]
  {
    hide FedIndex;
    assert ![true, false, false, false][1];
  }

  lemma OpeningEntry(x: Execution, cl: Client.Client, source: SocketAddr, n: nat, i: nat)
    requires IsRun(x) && n < |x.ops| && cl.sid !in StateAt(x, n).pending && Suffices(x, cl.sid, source, n)
    requires About(x.ops[n]) == Some(M1Fragment(cl, i)) && x.ops[n].from == source && i < 4
    ensures EntryOf(StateAt(x, n + 1).pending, cl.sid)
         == if i == 0 then Some(NewPending(M1Fragment(cl, 0), source, x.ops[n].now)) else None
  {
    hide StateAt, RateLimit.Inv, Swept, About, OnM1, NewPending, Slice, M1Of;
    var st, op, f := StateAt(x, n), x.ops[n], M1Fragment(cl, i);
    FedIs(op, cl, source, i);
    OneMore(x, n);
    StepIsOnM1(x, n, f);
    SweptIsPart(x.cfg, st, op, cl.sid);
    SweptBy(x.cfg, st, op);
    OpensEntry(x.suite, x.cfg, st, f, op.from, op.now, op.draw);
  }

  lemma SweptBy(cfg: Config, st: Server, op: Op)
    requires About(op).Some?
    ensures Swept(cfg, st, op) == EvictExpired(st.pending, cfg, op.now)
  {}

  lemma AddHonestM1(a: Assembler, cl: Client.Client, i: nat)
    requires a.hsType == ClientHello && Holds(a, M1Of(cl)) && i < 4 && !a.complete
    ensures |a.received| == 5
    ensures var r := AddFragment(a, M1Fragment(cl, i));
            if a.received[i] then r == Added(a, Ignored)
            else
              && Holds(r.assembler, M1Of(cl)) && r.assembler.hsType == ClientHello
              && r.assembler.received == a.received[i := true]
              && r.result == (if r.assembler.complete then Completed else Advanced)
              && (r.assembler.complete <==> All(a.received[..4][i := true]))
              && (r.assembler.complete ==> r.assembler.buffer == M1Of(cl))
  {
    hide AddFragment, EncodeM1;
    AddHonest(a, M1Of(cl), cl.sid, i);
    var r := AddFragment(a, M1Fragment(cl, i)).assembler;
    if !a.received[i] {
      assert r.received[..4] == a.received[..4][i := true];
      assert r.Full() <==> All(r.received[..4]) by { FullIsAll(r); }
    }
  }

  lemma FullIsAll(a: Assembler)
    requires |a.received| == 5 && a.hsType == ClientHello
    ensures a.Full() <==> All(a.received[..4])
  {
    if All(a.received[..4]) {
      forall i | 0 <= i < 4 ensures a.received[i] { assert a.received[..4][i]; }
    }
  }

  /** The state in which a completed M1 is judged. */
  ghost function Judged(cfg: Config, st: Server, cl: Client.Client, i: nat, from: SocketAddr, now: Instant): Server
    requires cl.sid in st.pending && EntryOk(st.pending[cl.sid]) && st.pending[cl.sid].phase == AwaitM1
  {
    var e := st.pending[cl.sid];
    var a := AddFragment(e.assembler.value, M1Fragment(cl, i)).assembler;
    Server(st.roster, st.pending[cl.sid := e.(assembler := Some(a))], RateLimit.Admit(st.limiter, cfg.rate, from, now).limiter)
  }

  /** A fragment of the client's M1 is collected; with a token, the last one has the whole M1 judged. */
  lemma CollectsEntry(c: Suite, cfg: Config, st: Server, cl: Client.Client, i: nat, e: Pending,
                      from: SocketAddr, now: Instant, draw: Draw)
    requires i < 4 && cl.sid in st.pending && e == st.pending[cl.sid] && EntryOk(e) && e.phase == AwaitM1
    requires Collecting(e.assembler.value, cl, e.assembler.value.received[..4]) && !e.assembler.value.complete
    requires OnAwaitM1(c, cfg, st, M1Fragment(cl, i), from, now, draw).gate != Refused
    ensures var r := OnAwaitM1(c, cfg, st, M1Fragment(cl, i), from, now, draw);
            var g := e.assembler.value.received[..4][i := true];
            if All(g) then
              r == CompleteM1(c, cfg, Judged(cfg, st, cl, i, from, now), cl.sid, M1Of(cl), from, now, draw)
            else
              && cl.sid in r.server.pending && r.server.pending[cl.sid].source == e.source && r.event == Nothing
              && r.server.pending[cl.sid].phase == AwaitM1 && r.server.pending[cl.sid].assembler.Some?
              && Collecting(r.server.pending[cl.sid].assembler.value, cl, g)
  {
    hide AddFragment, EncodeM1, RateLimit.Admit, Datagrams, CompleteM1, Holds, ServerHelloOf, Served;
    var a := e.assembler.value;
    AddHonestM1(a, cl, i);
    var r := AddFragment(a, M1Fragment(cl, i));
    if a.received[i] {
      assert a.received[..4][i := true] == a.received[..4];
      NotAll(a);
    } else {
      assert r.assembler.received[..4] == a.received[..4][i := true];
    }
  }

  lemma NotAll(a: Assembler)
    requires a.Valid() && a.hsType == ClientHello && !a.complete
    ensures !All(a.received[..4])
  {
    FullIsAll(a);
  }

  lemma AnswersHonest(c: Suite, k: Client.Config, cfg: Config, st: Server, cl: Client.Client,
                      from: SocketAddr, now: Instant, draw: Draw)
    requires Lawful(c) && Matched(c, k, cfg, st.roster) && IsClient(c, k, cl) && cl.sid in st.pending
    ensures var r := CompleteM1(c, cfg, st, cl.sid, M1Of(cl), from, now, draw);
            && cl.sid in r.server.pending && r.server.pending[cl.sid].source == st.pending[cl.sid].source
            && Served(c, cfg, cl, draw, r.server.pending[cl.sid]) && r.server.pending[cl.sid].client.value in st.roster
            && r.event == Emit(Datagrams(ServerHello, cfg.version, cl.sid, M2Of(c, cfg, cl, draw)), from)
  {
    hide DecodeM1, EncodeM1, Datagrams, ServerHelloOf, Th1, Matching;
    HelloVerifies(c, k, cfg, st.roster, cl);
    MatchingIsLastMatch(c, st.roster, Th1(c, M1Of(cl)), cl.hello.sig);
  }

  /** What a fragment of its own finds when the entry is still collecting. */
  lemma CollectingState(x: Execution, cl: Client.Client, source: SocketAddr, n: nat, i: nat)
    requires IsRun(x) && n < |x.ops| && Progress(x, cl, source, n) && Suffices(x, cl.sid, source, n)
    requires Got(x, cl.sid, source, n)[0] && !All(Got(x, cl.sid, source, n))
    requires About(x.ops[n]) == Some(M1Fragment(cl, i)) && x.ops[n].from == source && i < 4
    ensures cl.sid in StateAt(x, n).pending
    ensures var st, op, e := Evicted(StateAt(x, n), x.cfg, x.ops[n].now), x.ops[n], StateAt(x, n).pending[cl.sid];
            && cl.sid in st.pending && st.pending[cl.sid] == e && EntryOk(e) && e.phase == AwaitM1 && e.source == source
            && Collecting(e.assembler.value, cl, e.assembler.value.received[..4])
            && e.assembler.value.received[..4] == Got(x, cl.sid, source, n) && !e.assembler.value.complete
            && ReplyAt(x, n) == OnAwaitM1(x.suite, x.cfg, st, M1Fragment(cl, i), op.from, op.now, op.draw)
            && ReplyAt(x, n).gate != Refused
    ensures Got(x, cl.sid, source, n + 1) == Got(x, cl.sid, source, n)[i := true]
  {
    hide StateAt, RateLimit.Inv, Swept, About, OnAwaitM1, OnRepeatedM1, OnNewM1, Holds, EvictExpired, ServedAt, Slice, M1Of;
    var st, op, f, g := StateAt(x, n), x.ops[n], M1Fragment(cl, i), Got(x, cl.sid, source, n);
    FedIs(op, cl, source, i);
    StepIsOnM1(x, n, f);
    SweptIsPart(x.cfg, st, op, cl.sid);
    SweptBy(x.cfg, st, op);
    EvictKeepsOk(st.pending, x.cfg, op.now);
    NotComplete(st.pending[cl.sid].assembler.value, cl, g);
  }

  /** Collecting one more, with others still missing, needs nothing of the client's keys. */
  lemma CollectingMore(x: Execution, cl: Client.Client, source: SocketAddr, n: nat, i: nat)
    requires IsRun(x) && n < |x.ops| && Progress(x, cl, source, n) && Suffices(x, cl.sid, source, n)
    requires Got(x, cl.sid, source, n)[0] && !All(Got(x, cl.sid, source, n))
    requires About(x.ops[n]) == Some(M1Fragment(cl, i)) && x.ops[n].from == source && i < 4
    requires !All(Got(x, cl.sid, source, n)[i := true])
    ensures Progress(x, cl, source, n + 1)
  {
    hide IsRun, StateAt, Suffices, About, Progress, Collecting, M1Fragment, Got, OnAwaitM1, EntryOk, All, ReplyAt, Evicted;
    CollectingState(x, cl, source, n, i);
    OneMore(x, n);
    var op, e := x.ops[n], StateAt(x, n).pending[cl.sid];
    CollectsEntry(x.suite, x.cfg, Evicted(StateAt(x, n), x.cfg, op.now), cl, i, e, op.from, op.now, op.draw);
    ProgressCollecting(x, cl, source, n + 1, StateAt(x, n + 1).pending[cl.sid]);
  }

  /** The completing fragment makes the server authenticate the client and answer. */
  lemma CollectingLast(x: Execution, k: Client.Config, cl: Client.Client, source: SocketAddr, n: nat, i: nat)
    requires IsRun(x) && n < |x.ops| && Progress(x, cl, source, n) && Suffices(x, cl.sid, source, n)
    requires Got(x, cl.sid, source, n)[0] && !All(Got(x, cl.sid, source, n))
    requires Lawful(x.suite) && Matched(x.suite, k, x.cfg, StateAt(x, n).roster) && IsClient(x.suite, k, cl)
    requires About(x.ops[n]) == Some(M1Fragment(cl, i)) && x.ops[n].from == source && i < 4
    requires All(Got(x, cl.sid, source, n)[i := true])
    ensures Progress(x, cl, source, n + 1)
  {
    hide IsRun, StateAt, Suffices, About, Progress, Collecting, Got, OnAwaitM1, EntryOk, All, CompleteM1, Served, Lawful, Matched,
      IsClient, Datagrams, M2Of, AddFragment, EvictExpired, Slice, M1Of, ServedAt, ReplyAt, RateLimit.Admit, M1Fragment;
    CollectingState(x, cl, source, n, i);
    OneMore(x, n);
    var op, st, e := x.ops[n], Evicted(StateAt(x, n), x.cfg, x.ops[n].now), StateAt(x, n).pending[cl.sid];
    CollectsEntry(x.suite, x.cfg, st, cl, i, e, op.from, op.now, op.draw);
    AnswersHonest(x.suite, k, x.cfg, Judged(x.cfg, st, cl, i, op.from, op.now), cl, op.from, op.now, op.draw);
    JustServed(x, cl, source, n, i, StateAt(x, n + 1).pending[cl.sid]);
    ProgressServed(x, cl, source, n + 1, StateAt(x, n + 1).pending[cl.sid], n);
  }

  lemma JustServed(x: Execution, cl: Client.Client, source: SocketAddr, n: nat, i: nat, e: Pending)
    requires IsRun(x) && n < |x.ops| && About(x.ops[n]) == Some(M1Fragment(cl, i))
    requires Served(x.suite, x.cfg, cl, x.ops[n].draw, e) && e.client.value in StateAt(x, n).roster
    requires ReplyAt(x, n).event
          == Emit(Datagrams(ServerHello, x.cfg.version, cl.sid, M2Of(x.suite, x.cfg, cl, x.ops[n].draw)), source)
    ensures ServedAt(x, cl, source, e, n)
  {
    hide IsRun, StateAt, About, Datagrams, M2Of, M1Of, SharedA, ReplyAt, Slice;
  }

  lemma CollectingStep(x: Execution, k: Client.Config, cl: Client.Client, source: SocketAddr, n: nat, i: nat)
    requires IsRun(x) && n < |x.ops| && Progress(x, cl, source, n) && Suffices(x, cl.sid, source, n)
    requires Got(x, cl.sid, source, n)[0] && !All(Got(x, cl.sid, source, n))
    requires Lawful(x.suite) && Matched(x.suite, k, x.cfg, StateAt(x, n).roster) && IsClient(x.suite, k, cl)
    requires About(x.ops[n]) == Some(M1Fragment(cl, i)) && x.ops[n].from == source && i < 4
    ensures Progress(x, cl, source, n + 1)
  {
    hide *;
    if All(Got(x, cl.sid, source, n)[i := true]) {
      CollectingLast(x, k, cl, source, n, i);
    } else {
      CollectingMore(x, cl, source, n, i);
    }
  }

  lemma NotComplete(a: Assembler, cl: Client.Client, g: seq<bool>)
    requires Collecting(a, cl, g) && !All(g)
    ensures !a.complete && a.received[..4] == g
  {
    FullIsAll(a);
  }

  lemma AnsweredStep(x: Execution, cl: Client.Client, source: SocketAddr, n: nat, i: nat)
    requires IsRun(x) && n < |x.ops| && Progress(x, cl, source, n) && Suffices(x, cl.sid, source, n) && All(Got(x, cl.sid, source, n))
    requires About(x.ops[n]) == Some(M1Fragment(cl, i)) && x.ops[n].from == source && i < 4
    ensures Progress(x, cl, source, n + 1)
  {
    hide StateAt, Step, RateLimit.Inv, About, Swept, Datagrams, Progress, ServedAt, Served, EntryOk, AddFragment, MacMatches, DecodeM3,
      Derived;
    OneMore(x, n);
    var st, g := StateAt(x, n), Got(x, cl.sid, source, n);
    var a := AnsweredBy(x, cl, source, n);
    ServedPhase(x, cl, source, st.pending[cl.sid], a);
    StepMoves(x.suite, x.cfg, st, x.ops[n], cl.sid);
    SweptIsPart(x.cfg, st, x.ops[n], cl.sid);
    assert Got(x, cl.sid, source, n + 1) == g;
    var e, e' := st.pending[cl.sid], StateAt(x, n + 1).pending[cl.sid];
    ServedRefreshed(x, cl, source, e, e', a);
    ProgressServed(x, cl, source, n + 1, e', a);
  }

  lemma ServedPhase(x: Execution, cl: Client.Client, source: SocketAddr, e: Pending, a: nat)
    requires IsRun(x) && a < |x.ops| && ServedAt(x, cl, source, e, a)
    ensures e.phase == AwaitM3
  {
    hide IsRun, AnswerStep, StateAt, M1Of, M2Of, SharedA;
  }

  lemma ServedRefreshed(x: Execution, cl: Client.Client, source: SocketAddr, e: Pending, e': Pending, a: nat)
    requires IsRun(x) && a < |x.ops| && ServedAt(x, cl, source, e, a) && Frozen(e, e')
    ensures ServedAt(x, cl, source, e', a)
  {
    hide IsRun, AnswerStep, StateAt, M1Of, M2Of, SharedA;
  }

  /** A key the client's M1 verifies under stays on the roster. */
  lemma {:induction false} KeyStays(x: Execution, cl: Client.Client, source: SocketAddr, i: nat, n: nat, key: VerifyKey)
    requires IsRun(x) && i <= n <= |x.ops| && HonestM1(x, cl, source, n)
    requires key in StateAt(x, i).roster && Verifies(x.suite, cl, key)
    ensures key in StateAt(x, n).roster
  {
    hide *;
    if i < n {
      HonestShorter(x, cl, source, n);
      KeyStays(x, cl, source, i, n - 1, key);
      OneMore(x, n - 1);
      FairKeepsKey(x, cl, source, n - 1, key);
    }
  }

  lemma FairKeepsKey(x: Execution, cl: Client.Client, source: SocketAddr, n: nat, key: VerifyKey)
    requires IsRun(x) && n < |x.ops| && Fair(x, cl, source, n) && key in StateAt(x, n).roster && Verifies(x.suite, cl, key)
    ensures key in ReplyAt(x, n).server.roster
  {
    hide StateAt, ReplyAt, IsRun, Verifies, About, Powerless;
  }

  /** So the configurations go on matching. */
  lemma StaysMatched(x: Execution, k: Client.Config, cl: Client.Client, source: SocketAddr, n: nat)
    requires IsRun(x) && n <= |x.ops| && HonestM1(x, cl, source, n)
    requires Lawful(x.suite) && Matched(x.suite, k, x.cfg, x.start.roster) && IsClient(x.suite, k, cl)
    ensures Matched(x.suite, k, x.cfg, StateAt(x, n).roster)
  {
    hide IsRun, StateAt, HonestM1, Verifies, Lawful, IsClient;
    StartState(x);
    HelloVerifies(x.suite, k, x.cfg, x.start.roster, cl);
    KeyStays(x, cl, source, 0, n, x.suite.verifyKey(k.identity));
  }

  /** Any order, any repetition, any other traffic in between: the server is where the fragments have taken it. */
  lemma {:induction false} ServerProgress(x: Execution, k: Client.Config, cl: Client.Client, source: SocketAddr, n: nat)
    requires IsRun(x) && n <= |x.ops| && HonestM1(x, cl, source, n) && forall j | 0 <= j < n :: Suffices(x, cl.sid, source, j)
    requires Lawful(x.suite) && Matched(x.suite, k, x.cfg, x.start.roster) && IsClient(x.suite, k, cl)
    ensures Progress(x, cl, source, n)
  {
    hide *;
    if n == 0 {
      StartProgress(x, cl, source);
    } else {
      HonestShorter(x, cl, source, n);
      ServerProgress(x, k, cl, source, n - 1);
      StaysMatched(x, k, cl, source, n - 1);
      HonestProgress(x, k, cl, source, n - 1);
    }
  }

  lemma StartProgress(x: Execution, cl: Client.Client, source: SocketAddr)
    requires IsRun(x)
    ensures Progress(x, cl, source, 0)
  {
    hide RateLimit.Inv, Collecting, ServedAt;
  }

  lemma HonestShorter(x: Execution, cl: Client.Client, source: SocketAddr, n: nat)
    requires IsRun(x) && HonestM1(x, cl, source, n) && 0 < n <= |x.ops|
    ensures HonestM1(x, cl, source, n - 1) && Fair(x, cl, source, n - 1)
  {
    hide IsRun, Fair;
  }

  lemma HonestProgress(x: Execution, k: Client.Config, cl: Client.Client, source: SocketAddr, n: nat)
    requires IsRun(x) && n < |x.ops| && Progress(x, cl, source, n) && Suffices(x, cl.sid, source, n) && Fair(x, cl, source, n)
    requires Lawful(x.suite) && Matched(x.suite, k, x.cfg, StateAt(x, n).roster) && IsClient(x.suite, k, cl)
    ensures Progress(x, cl, source, n + 1)
  {
    hide IsRun, StateAt, Progress, Suffices, Lawful, Matched, IsClient, About, Got, M1Fragment, All, Powerless, ReplyAt, Verifies;
    var f := About(x.ops[n]);
    if f.None? || f.value.sid != cl.sid {
      OtherStep(x, cl, source, n);
    } else if !(x.ops[n].from == source && f.value == M1Fragment(cl, f.value.idx)) {
      PowerlessStep(x, cl, source, n, f.value);
    } else {
      var i := f.value.idx;
      assert i < 4 by { hide *; IndexOf(x.ops[n], cl, i); }
      if !Got(x, cl.sid, source, n)[0] {
        OpeningStep(x, cl, source, n, i);
      } else if !All(Got(x, cl.sid, source, n)) {
        CollectingStep(x, k, cl, source, n, i);
      } else {
        AnsweredStep(x, cl, source, n, i);
      }
    }
  }

  lemma IndexOf(op: Op, cl: Client.Client, i: nat)
    requires About(op) == Some(M1Fragment(cl, i))
    ensures i < 4
  {}

  // ---------------------------------------------------------------------
  // Every reply the client can be shown is the same M2
  // ---------------------------------------------------------------------

  lemma {:induction false} GotGrows(x: Execution, sid: SessionId, source: SocketAddr, i: nat, n: nat)
    requires i <= n <= |x.ops|
    ensures forall j | 0 <= j < 4 :: Got(x, sid, source, i)[j] ==> Got(x, sid, source, n)[j]
  {
    hide FedIndex;
    if i < n { GotGrows(x, sid, source, i, n - 1); }
  }

  lemma {:induction false} EmissionsAre(x: Execution, k: Client.Config, cl: Client.Client, source: SocketAddr, i: nat, n: nat)
    requires IsRun(x) && i < n <= |x.ops| && EmitsFor(x, i, cl.sid)
    requires HonestM1(x, cl, source, n) && forall j | 0 <= j < n :: Suffices(x, cl.sid, source, j)
    requires Lawful(x.suite) && Matched(x.suite, k, x.cfg, x.start.roster) && IsClient(x.suite, k, cl)
    ensures Awaiting(x, n, cl.sid)
    ensures var e := StateAt(x, n).pending[cl.sid];
            e.m2.Some? && ReplyAt(x, i).event == Emit(Datagrams(ServerHello, x.cfg.version, cl.sid, e.m2.value), e.source)
  {
    hide *;
    EmissionIsCached(x, i, cl.sid);
    StaysAnswered(x, k, cl, source, i + 1, n);
    FrozenFor(x, i + 1, n, cl.sid);
    FrozenSame(x, i + 1, n, cl.sid);
    AwaitingHasM2(x, n, cl.sid);
  }

  lemma FrozenSame(x: Execution, i: nat, n: nat, sid: SessionId)
    requires IsRun(x) && i <= n <= |x.ops| && FrozenBetween(x, i, n, sid)
    ensures sid in StateAt(x, i).pending && sid in StateAt(x, n).pending
    ensures StateAt(x, n).pending[sid].m2 == StateAt(x, i).pending[sid].m2
    ensures StateAt(x, n).pending[sid].source == StateAt(x, i).pending[sid].source
  {
    hide StateAt, RateLimit.Inv;
  }

  lemma AwaitingHasM2(x: Execution, n: nat, sid: SessionId)
    requires IsRun(x) && n <= |x.ops| && Awaiting(x, n, sid)
    ensures sid in StateAt(x, n).pending && StateAt(x, n).pending[sid].m2.Some?
  {
    hide StateAt, RateLimit.Inv;
  }

  lemma StaysAnswered(x: Execution, k: Client.Config, cl: Client.Client, source: SocketAddr, i: nat, n: nat)
    requires IsRun(x) && i <= n <= |x.ops| && Awaiting(x, i, cl.sid)
    requires HonestM1(x, cl, source, n) && forall j | 0 <= j < n :: Suffices(x, cl.sid, source, j)
    requires Lawful(x.suite) && Matched(x.suite, k, x.cfg, x.start.roster) && IsClient(x.suite, k, cl)
    ensures forall j | i <= j <= n :: Awaiting(x, j, cl.sid)
  {
    hide *;
    HonestPrefix(x, cl, source, i, n);
    ServerProgress(x, k, cl, source, i);
    AwaitingIsAll(x, cl, source, i);
    forall j | i <= j <= n ensures Awaiting(x, j, cl.sid) {
      HonestPrefix(x, cl, source, j, n);
      ServerProgress(x, k, cl, source, j);
      GotGrows(x, cl.sid, source, i, j);
      AllGrows(Got(x, cl.sid, source, i), Got(x, cl.sid, source, j));
      AwaitingIsAll(x, cl, source, j);
    }
  }

  lemma AllGrows(g: seq<bool>, h: seq<bool>)
    requires |g| == |h| == 4 && All(g) && forall j | 0 <= j < 4 :: g[j] ==> h[j]
    ensures All(h)
  {}

  lemma HonestPrefix(x: Execution, cl: Client.Client, source: SocketAddr, i: nat, n: nat)
    requires IsRun(x) && HonestM1(x, cl, source, n) && i <= n
    ensures HonestM1(x, cl, source, i)
  {
    hide IsRun, Fair;
  }

  lemma AwaitingIsAll(x: Execution, cl: Client.Client, source: SocketAddr, n: nat)
    requires IsRun(x) && n <= |x.ops| && Progress(x, cl, source, n)
    ensures Awaiting(x, n, cl.sid) <==> All(Got(x, cl.sid, source, n))
  {
    hide StateAt, RateLimit.Inv, Collecting, AnswerStep, M2Of, M1Of, Got, SharedA;
    var g := Got(x, cl.sid, source, n);
    if All(g) { assert g[0]; }
  }

  // ---------------------------------------------------------------------
  // The client rebuilds and answers M2
  // ---------------------------------------------------------------------

  ghost function ReplyFragment(op: Client.Op, sid: SessionId): Option<Fragment> {
    if op.Timer? then None else
      var f := FromDatagram(op.pkt);
      if f.Ok? && f.value.hsType == ServerHello && f.value.sid == sid then Some(f.value) else None
  }

  ghost function M2Fragment(sid: SessionId, m2: Message2, i: nat): Fragment {
    Fragment(sid, ServerHello, i, if i < 5 then Slice(ServerHello, m2, i) else [])
  }

  /** What bears this session id is a fragment of `m2`. */
  ghost predicate HonestReply(op: Client.Op, sid: SessionId, m2: Message2) {
    var f := ReplyFragment(op, sid);
    f.Some? ==> f.value.idx < 5 && f.value == M2Fragment(sid, m2, f.value.idx)
  }

  ghost predicate Shows(op: Client.Op, sid: SessionId, m2: Message2, i: nat) {
    ReplyFragment(op, sid) == Some(M2Fragment(sid, m2, i))
  }

  ghost predicate Comes(ops: seq<Client.Op>, sid: SessionId, m2: Message2, i: nat) {
    exists j | 0 <= j < |ops| :: Shows(ops[j], sid, m2, i)
  }

  /** Every fragment of `m2` that `a` lacks is still to come. */
  ghost predicate RestComes(a: Assembler, ops: seq<Client.Op>, sid: SessionId, m2: Message2)
    requires |a.received| == 5
  {
    forall i | 0 <= i < 5 :: a.received[i] || Comes(ops, sid, m2, i)
  }

  ghost predicate Rebuilding(cl: Client.Client, m2: Message2) {
    && Client.Valid(cl) && cl.state.AwaitM2? && Holds(cl.state.assembler, m2) && !cl.state.assembler.complete
  }

  /** The announcement of the M3 that answers `m2`. */
  ghost predicate Announces(c: Suite, k: Client.Config, cl: Client.Client, m2: Message2, coins: Coins, e: Client.Event) {
    var a := Client.AnswerTo(c, k, cl, m2, coins);
    a.Some? && e == Client.Confirm3(Datagrams(ClientConfirm, k.version, cl.sid, a.value.m3), Outcome(a.value.master, cl.sid, k.server))
  }

  lemma UnrelatedStep(c: Suite, k: Client.Config, cl: Client.Client, m2: Message2, op: Client.Op)
    requires Rebuilding(cl, m2) && ReplyFragment(op, cl.sid).None?
    ensures var cl' := Client.Next(c, k, cl, op);
            cl' == cl.(state := cl'.state) && cl'.state.AwaitM2? && cl'.state.assembler == cl.state.assembler
  {
    hide FromDatagram, Client.Backoff, Holds;
    if op.Datagram? { FragmentType(op.pkt); }
  }

  lemma RelatedStep(c: Suite, k: Client.Config, cl: Client.Client, m2: Message2, op: Client.Op, i: nat)
    requires Rebuilding(cl, m2) && i < 5 && Shows(op, cl.sid, m2, i)
    requires forall coins :: Client.AnswerTo(c, k, cl, m2, coins).Some?
    ensures var s, cl' := Client.Step(c, k, cl, op), Client.Next(c, k, cl, op);
            || Announces(c, k, cl, m2, op.coins, s.event)
            || (&& cl' == cl.(state := cl'.state) && Rebuilding(cl', m2)
                && cl'.state.assembler.received == cl.state.assembler.received[i := true])
  {
    hide FromDatagram, Client.AnswerTo, Datagrams, AddFragment, Client.Jittered, Holds;
    FragmentType(op.pkt);
    assert Holds(cl.state.assembler, m2) && |cl.state.assembler.received| == 5;
    AddHonest(cl.state.assembler, m2, cl.sid, i);
    var r := AddFragment(cl.state.assembler, M2Fragment(cl.sid, m2, i));
    AddKeepsValid(cl.state.assembler, M2Fragment(cl.sid, m2, i));
    if cl.state.assembler.received[i] {
      assert cl.state.assembler.received[i := true] == cl.state.assembler.received;
    }
    AnswerIgnoresState(c, k, cl, cl.state.(assembler := r.assembler), m2, op.coins);
  }

  lemma AnswerIgnoresState(c: Suite, k: Client.Config, cl: Client.Client, st: Client.State, m2: Message2, coins: Coins)
    ensures Client.AnswerTo(c, k, cl.(state := st), m2, coins) == Client.AnswerTo(c, k, cl, m2, coins)
  {
    hide DecodeM2, EncodeM1, EncodeM3, Th2, Th3, MasterSecret, FinishedMac;
  }

  /** Any order, any repetition, timers and other traffic in between: the client announces its M3. */
  lemma {:induction false} ClientConfirms(c: Suite, k: Client.Config, cl: Client.Client, m2: Message2, ops: seq<Client.Op>)
    returns (n: nat)
    requires Rebuilding(cl, m2) && RestComes(cl.state.assembler, ops, cl.sid, m2)
    requires forall j | 0 <= j < |ops| :: HonestReply(ops[j], cl.sid, m2)
    requires forall coins :: Client.AnswerTo(c, k, cl, m2, coins).Some?
    ensures n < |ops| && ops[n].Datagram? && Announces(c, k, cl, m2, ops[n].coins, Client.Events(c, k, cl, ops)[n])
    decreases |ops|
  {
    hide Client.Step, Client.Next, Client.AnswerTo, ReplyFragment, Announces, M2Fragment, Holds;
    SomethingMissing(cl, m2);
    var missing :| 0 <= missing < 5 && !cl.state.assembler.received[missing];
    var where :| 0 <= where < |ops| && Shows(ops[where], cl.sid, m2, missing);
    var op, rest := ops[0], ops[1..];
    var cl' := Client.Next(c, k, cl, op);
    var f := ReplyFragment(op, cl.sid);
    assert HonestReply(op, cl.sid, m2);
    if f.None? {
      UnrelatedStep(c, k, cl, m2, op);
      RestAfterOther(cl.state.assembler, ops, cl.sid, m2);
    } else {
      var i := f.value.idx;
      RelatedStep(c, k, cl, m2, op, i);
      DeliversDatagram(op, cl.sid);
      if Announces(c, k, cl, m2, op.coins, Client.Step(c, k, cl, op).event) { return 0; }
      RestAfterShown(cl.state.assembler, cl'.state.assembler, ops, cl.sid, m2, i);
    }
    forall coins ensures Client.AnswerTo(c, k, cl', m2, coins).Some? { AnswerIgnoresState(c, k, cl, cl'.state, m2, coins); }
    var n' := ClientConfirms(c, k, cl', m2, rest);
    AnnouncesIgnoresState(c, k, cl, cl'.state, m2, rest[n'].coins, Client.Events(c, k, cl', rest)[n']);
    n := n' + 1;
  }

  lemma AnnouncesIgnoresState(c: Suite, k: Client.Config, cl: Client.Client, st: Client.State, m2: Message2, coins: Coins, e: Client.Event)
    requires Announces(c, k, cl.(state := st), m2, coins, e)
    ensures Announces(c, k, cl, m2, coins, e)
  {
    hide Client.AnswerTo, Datagrams;
    AnswerIgnoresState(c, k, cl, st, m2, coins);
  }

  lemma DeliversDatagram(op: Client.Op, sid: SessionId)
    requires ReplyFragment(op, sid).Some?
    ensures op.Datagram?
  {}

  lemma SomethingMissing(cl: Client.Client, m2: Message2)
    requires Rebuilding(cl, m2)
    ensures cl.state.assembler.hsType == ServerHello && |cl.state.assembler.received| == 5
    ensures exists i | 0 <= i < 5 :: !cl.state.assembler.received[i]
  {}

  lemma RestAfterOther(a: Assembler, ops: seq<Client.Op>, sid: SessionId, m2: Message2)
    requires |a.received| == 5 && ops != [] && RestComes(a, ops, sid, m2) && ReplyFragment(ops[0], sid).None?
    ensures RestComes(a, ops[1..], sid, m2)
  {
    hide ReplyFragment;
    forall i | 0 <= i < 5 && !a.received[i] ensures Comes(ops[1..], sid, m2, i) {
      var j :| 0 <= j < |ops| && Shows(ops[j], sid, m2, i);
      assert ops[1..][j - 1] == ops[j];
    }
  }

  lemma RestAfterShown(a: Assembler, a': Assembler, ops: seq<Client.Op>, sid: SessionId, m2: Message2, k: nat)
    requires |a.received| == 5 && k < 5 && a'.received == a.received[k := true]
    requires ops != [] && RestComes(a, ops, sid, m2) && Shows(ops[0], sid, m2, k)
    ensures RestComes(a', ops[1..], sid, m2)
  {
    hide ReplyFragment;
    forall i | 0 <= i < 5 && !a'.received[i] ensures Comes(ops[1..], sid, m2, i) {
      assert !a.received[i];
      var j :| 0 <= j < |ops| && Shows(ops[j], sid, m2, i);
      assert j != 0;
      assert ops[1..][j - 1] == ops[j];
    }
  }

  // ---------------------------------------------------------------------
  // Agreement
  // ---------------------------------------------------------------------

  /** All of M1 reaches the server before step `n`, fragments 1 to 3 each at least once after fragment 0. */
  ghost predicate WholeM1(x: Execution, sid: SessionId, source: SocketAddr, first: nat, n: nat) {
    && first < n <= |x.ops| && FedIndex(x.ops[first], sid, source) == Some(0)
    && forall i | 1 <= i < 4 :: exists j | first < j < n :: FedIndex(x.ops[j], sid, source) == Some(i)
  }

  lemma WholeM1IsGot(x: Execution, sid: SessionId, source: SocketAddr, first: nat, n: nat)
    requires WholeM1(x, sid, source, first, n)
    ensures All(Got(x, sid, source, n))
  {
    hide FedIndex;
    assert Got(x, sid, source, first + 1)[0];
    forall i | 0 <= i < 4 ensures Got(x, sid, source, n)[i] {
      GotGrows(x, sid, source, first + 1, n);
      if i > 0 {
        var j :| first < j < n && FedIndex(x.ops[j], sid, source) == Some(i);
        GotGrows(x, sid, source, first + 1, j);
        assert Got(x, sid, source, j + 1)[i];
        GotGrows(x, sid, source, j + 1, n);
      }
    }
  }

  /** `pkt` is datagram `i` of something the server sent for this session before step `n`. */
  ghost predicate Sent(x: Execution, sid: SessionId, n: nat, pkt: WirePacket, i: nat)
    requires IsRun(x) && n <= |x.ops|
  {
    exists a | 0 <= a < n :: SentAt(x, sid, a, pkt, i)
  }

  ghost predicate SentAt(x: Execution, sid: SessionId, a: nat, pkt: WirePacket, i: nat)
    requires IsRun(x) && a < |x.ops|
  {
    EmitsFor(x, a, sid) && i < |ReplyAt(x, a).event.frags| && ReplyAt(x, a).event.frags[i] == pkt
  }

  /** What the client is shown for its session came from the server, and every datagram of the reply is among it. */
  ghost predicate Relayed(x: Execution, sid: SessionId, n: nat, replies: seq<Client.Op>)
    requires IsRun(x) && n <= |x.ops|
  {
    && (forall j | 0 <= j < |replies| :: ReplyFragment(replies[j], sid).Some? ==> exists i :: Sent(x, sid, n, replies[j].pkt, i))
    && (forall i | 0 <= i < 5 :: Shown(x, sid, n, replies, i))
  }

  ghost predicate Shown(x: Execution, sid: SessionId, n: nat, replies: seq<Client.Op>, i: nat)
    requires IsRun(x) && n <= |x.ops|
  {
    exists j | 0 <= j < |replies| :: replies[j].Datagram? && Sent(x, sid, n, replies[j].pkt, i)
  }

  /** Whatever the server sent is a fragment of the one M2 it keeps. */
  lemma SentIsM2(x: Execution, k: Client.Config, cl: Client.Client, source: SocketAddr, n: nat, m2: Message2, op: Client.Op, i: nat)
    requires IsRun(x) && n <= |x.ops| && HonestM1(x, cl, source, n) && forall j | 0 <= j < n :: Suffices(x, cl.sid, source, j)
    requires Lawful(x.suite) && Matched(x.suite, k, x.cfg, x.start.roster) && IsClient(x.suite, k, cl)
    requires cl.sid in StateAt(x, n).pending && StateAt(x, n).pending[cl.sid].m2 == Some(m2)
    requires op.Datagram? && Sent(x, cl.sid, n, op.pkt, i)
    ensures i < 5 && Shows(op, cl.sid, m2, i)
  {
    hide IsRun, StateAt, HonestM1, Suffices, Lawful, IsClient, EmitsFor, ReplyAt, FromDatagram, DatagramAt;
    var a :| 0 <= a < n && SentAt(x, cl.sid, a, op.pkt, i);
    EmissionsAre(x, k, cl, source, a, n);
    assert op.pkt == DatagramAt(ServerHello, PROTOCOL_VERSION, cl.sid, m2, i);
    DatagramRoundTrip(ServerHello, cl.sid, m2, i);
  }

  lemma RelayedIsM2(x: Execution, k: Client.Config, cl: Client.Client, source: SocketAddr, n: nat, m2: Message2, replies: seq<Client.Op>)
    requires IsRun(x) && n <= |x.ops| && HonestM1(x, cl, source, n) && forall j | 0 <= j < n :: Suffices(x, cl.sid, source, j)
    requires Lawful(x.suite) && Matched(x.suite, k, x.cfg, x.start.roster) && IsClient(x.suite, k, cl)
    requires cl.sid in StateAt(x, n).pending && StateAt(x, n).pending[cl.sid].m2 == Some(m2)
    requires Relayed(x, cl.sid, n, replies)
    ensures forall j | 0 <= j < |replies| :: HonestReply(replies[j], cl.sid, m2)
    ensures RestComes(NewAssembler(ServerHello), replies, cl.sid, m2)
  {
    hide IsRun, StateAt, HonestM1, Suffices, Lawful, IsClient, Matched, Sent, ReplyFragment, M2Fragment;
    forall j | 0 <= j < |replies| ensures HonestReply(replies[j], cl.sid, m2) {
      if ReplyFragment(replies[j], cl.sid).Some? {
        DeliversDatagram(replies[j], cl.sid);
        var i :| Sent(x, cl.sid, n, replies[j].pkt, i);
        SentIsM2(x, k, cl, source, n, m2, replies[j], i);
        M2FragmentIndex(cl.sid, m2, i);
      }
    }
    forall i | 0 <= i < 5 ensures Comes(replies, cl.sid, m2, i) {
      assert Shown(x, cl.sid, n, replies, i);
      var j :| 0 <= j < |replies| && replies[j].Datagram? && Sent(x, cl.sid, n, replies[j].pkt, i);
      SentIsM2(x, k, cl, source, n, m2, replies[j], i);
    }
  }

  lemma M2FragmentIndex(sid: SessionId, m2: Message2, i: nat)
    ensures M2Fragment(sid, m2, i).idx == i
  {}

  /** The honest M3 completes the handshake on the server. */
  lemma ConfirmCompletes(x: Execution, n: nat, sid: SessionId, e: Pending, m3: Message3)
    requires IsRun(x) && n < |x.ops| && sid in StateAt(x, n).pending && StateAt(x, n).pending[sid] == e
    requires sid in Swept(x.cfg, StateAt(x, n), x.ops[n]) && ReplyAt(x, n).gate != Refused
    requires Confirms(x.ops[n], sid, e.source, m3) && EntryOk(e) && e.phase == AwaitM3
    requires MacMatches(x.suite, e, m3, sid) && e.client.value in StateAt(x, n).roster
    requires DecodeM3(m3).Some? && DecodeM3(m3).value.version == x.cfg.version && DecodeM3(m3).value.sid == sid
    ensures ReplyAt(x, n).event.Complete?
    ensures ReplyAt(x, n).event.outcome == Outcome(Derived(x.suite, e, m3, sid), sid, e.client.value)
  {
    hide StateAt, RateLimit.Inv, RateLimit.Admit, FromDatagram, MacMatches, DecodeM3, Derived, EvictExpired;
    var st, op := StateAt(x, n), x.ops[n];
    SweptBy(x.cfg, st, op);
    SweptIsPart(x.cfg, st, op, sid);
    EvictKeepsOk(st.pending, x.cfg, op.now);
  }

  /** The M3 the client announced reaches the server at step `n`, in time and with a token. */
  ghost predicate Arrives(x: Execution, n: nat, sid: SessionId, source: SocketAddr, packets: seq<WirePacket>)
    requires IsRun(x) && n < |x.ops|
  {
    && x.ops[n].Deliver? && x.ops[n].from == source && |packets| == 1 && x.ops[n].pkt == packets[0]
    && sid in Swept(x.cfg, StateAt(x, n), x.ops[n]) && ReplyAt(x, n).gate != Refused
  }

  /** Both ends hold the same session. */
  ghost predicate Agree(server: Event, client: Outcome) {
    server.Complete? && server.outcome.master == client.master && server.outcome.sid == client.sid
  }

  lemma ServerAgrees(x: Execution, k: Client.Config, cl: Client.Client, source: SocketAddr, n: nat, e: Pending, a: nat,
                     coins: Coins, announced: Client.Event)
    requires IsRun(x) && n < |x.ops| && a < n && HonestM1(x, cl, source, n)
    requires Lawful(x.suite) && Matched(x.suite, k, x.cfg, x.start.roster) && IsClient(x.suite, k, cl)
    requires cl.sid in StateAt(x, n).pending && e == StateAt(x, n).pending[cl.sid] && e.source == source
    requires ServedAt(x, cl, source, e, a) && Announces(x.suite, k, cl, M2Of(x.suite, x.cfg, cl, x.ops[a].draw), coins, announced)
    requires Arrives(x, n, cl.sid, source, announced.packets)
    ensures Agree(ReplyAt(x, n).event, announced.outcome)
  {
    hide IsRun, StateAt, ReplyAt, Swept, EmitsFor, Lawful, IsClient, M2Of, SharedA, MacMatches, Derived, DecodeM3, FromDatagram,
      Client.AnswerTo, DatagramAt, M1Of;
    var draw := x.ops[a].draw;
    SecretsAgree(x.suite, k, x.cfg, x.start.roster, cl, draw, e, coins);
    var m3 := Client.AnswerTo(x.suite, k, cl, M2Of(x.suite, x.cfg, cl, draw), coins).value.m3;
    assert announced.packets[0] == DatagramAt(ClientConfirm, PROTOCOL_VERSION, cl.sid, m3, 0);
    DatagramRoundTrip(ClientConfirm, cl.sid, m3, 0);
    assert Slice(ClientConfirm, m3, 0) == m3;
    KeyStays(x, cl, source, a, n, e.client.value);
    ConfirmCompletes(x, n, cl.sid, e, m3);
  }

  /**
   * For every delivery order and repetition of honest fragments, amid roster swaps and
   * hostile traffic that are fair to the client, in which M1 fragments 1 to 3 each come after fragment 0 and tokens,
   * time and table space suffice: the server answers, the client announces its
   * M3, and when that M3 arrives both ends hold the same master and session id.
   */
  lemma Agreement(x: Execution, k: Client.Config, cl: Client.Client, r: nat, source: SocketAddr, first: nat, n: nat,
                  replies: seq<Client.Op>) returns (j: nat)
    requires IsRun(x) && n < |x.ops| && Lawful(x.suite) && Matched(x.suite, k, x.cfg, x.start.roster)
    requires Client.NewClient(x.suite, k, cl.sid, cl.kem, cl.dh, r) == Some(cl)
    requires HonestM1(x, cl, source, n) && WholeM1(x, cl.sid, source, first, n) && forall i | 0 <= i < n :: Suffices(x, cl.sid, source, i)
    requires Relayed(x, cl.sid, n, replies)
    ensures Client.Valid(cl) && j < |replies|
    ensures var e := Client.Events(x.suite, k, cl, replies)[j];
            && e.Confirm3? && e.outcome.sid == cl.sid && |e.packets| == 1
            && (Arrives(x, n, cl.sid, source, e.packets) ==> Agree(ReplyAt(x, n).event, e.outcome))
  {
    hide *;
    StartsRebuilding(x.suite, k, cl, r);
    ServerProgress(x, k, cl, source, n);
    WholeM1IsGot(x, cl.sid, source, first, n);
    var a := AnsweredBy(x, cl, source, n);
    var e := StateAt(x, n).pending[cl.sid];
    var m2 := M2Of(x.suite, x.cfg, cl, x.ops[a].draw);
    RelayedIsM2(x, k, cl, source, n, m2, replies);
    forall coins ensures Client.AnswerTo(x.suite, k, cl, m2, coins).Some? {
      SecretsAgree(x.suite, k, x.cfg, x.start.roster, cl, x.ops[a].draw, e, coins);
    }
    NewRebuilds(x.suite, k, cl, r, m2);
    j := ClientConfirms(x.suite, k, cl, m2, replies);
    var announced := Client.Events(x.suite, k, cl, replies)[j];
    AnnouncedShape(x.suite, k, cl, m2, replies[j].coins, announced);
    if Arrives(x, n, cl.sid, source, announced.packets) {
      ServerAgrees(x, k, cl, source, n, e, a, replies[j].coins, announced);
    }
  }

  lemma StartsRebuilding(c: Suite, k: Client.Config, cl: Client.Client, r: nat)
    requires Client.NewClient(c, k, cl.sid, cl.kem, cl.dh, r) == Some(cl)
    ensures IsClient(c, k, cl) && Client.Valid(cl)
  {
    hide Client.HelloOf, Datagrams;
    NewHolds(ServerHello, Zeros(M2_BODY_LEN));
  }

  lemma NewRebuilds(c: Suite, k: Client.Config, cl: Client.Client, r: nat, m2: Message2)
    requires Client.NewClient(c, k, cl.sid, cl.kem, cl.dh, r) == Some(cl)
    ensures Rebuilding(cl, m2) && cl.state.assembler == NewAssembler(ServerHello)
  {
    hide Client.HelloOf, Datagrams;
    NewHolds(ServerHello, m2);
  }

  lemma AnsweredBy(x: Execution, cl: Client.Client, source: SocketAddr, n: nat) returns (a: nat)
    requires IsRun(x) && n <= |x.ops| && Progress(x, cl, source, n) && All(Got(x, cl.sid, source, n))
    ensures cl.sid in StateAt(x, n).pending && a < n && x.ops[a].Deliver?
    ensures var e := StateAt(x, n).pending[cl.sid];
            && e.source == source && ServedAt(x, cl, source, e, a) && Served(x.suite, x.cfg, cl, x.ops[a].draw, e)
            && e.m2 == Some(M2Of(x.suite, x.cfg, cl, x.ops[a].draw))
  {
    hide StateAt, RateLimit.Inv, EmitsFor, Datagrams, M2Of, M1Of, SharedA, Got;
    assert Got(x, cl.sid, source, n)[0];
    a :| 0 <= a < n && ServedAt(x, cl, source, StateAt(x, n).pending[cl.sid], a);
  }

  lemma AnnouncedShape(c: Suite, k: Client.Config, cl: Client.Client, m2: Message2, coins: Coins, e: Client.Event)
    requires Announces(c, k, cl, m2, coins, e)
    ensures e.Confirm3? && e.outcome.sid == cl.sid && |e.packets| == 1
  {
    hide Client.AnswerTo, DatagramAt;
  }
}
