/** Whole runs of the server: what every completion rests on. */
module HandshakeRuns {
  import opened Bytes
  import opened Codec
  import opened Net
  import opened HandshakeFraming
  import opened HandshakeMessages
  import opened HandshakeServer
  import RateLimit

  datatype Op = Deliver(pkt: WirePacket, from: SocketAddr, now: Instant, draw: Draw) | Swap(roster: seq<VerifyKey>)

  function Step(c: Suite, cfg: Config, st: Server, op: Op): Reply
    requires TableOk(st.pending)
  {
    match op
    case Deliver(pkt, from, now, draw) => HandleDatagram(c, cfg, st, pkt, from, now, draw)
    case Swap(roster) => Reply(SetRoster(cfg, st, roster), Nothing, Unasked, false)
  }

  lemma StepKeepsInv(c: Suite, cfg: Config, st: Server, op: Op)
    requires Inv(st, cfg)
    ensures Inv(Step(c, cfg, st, op).server, cfg)
  {
    hide HandleDatagram, RateLimit.Inv;
    if op.Deliver? { HandleKeepsInv(c, cfg, st, op.pkt, op.from, op.now, op.draw); }
  }

  /** A server, its configuration and everything that is done to it. */
  datatype Execution = Execution(suite: Suite, cfg: Config, start: Server, ops: seq<Op>)

  ghost predicate IsRun(x: Execution) { Inv(x.start, x.cfg) && x.start.pending == map[] }

  ghost function StateAt(x: Execution, n: nat): (st: Server)
    requires IsRun(x) && n <= |x.ops|
    ensures Inv(st, x.cfg)
  {
    if n == 0 then x.start
    else
      StepKeepsInv(x.suite, x.cfg, StateAt(x, n - 1), x.ops[n - 1]);
      Step(x.suite, x.cfg, StateAt(x, n - 1), x.ops[n - 1]).server
  }

  ghost function ReplyAt(x: Execution, n: nat): Reply
    requires IsRun(x) && n < |x.ops|
  {
    Step(x.suite, x.cfg, StateAt(x, n), x.ops[n])
  }

  // ---------------------------------------------------------------------
  // One step, seen from one session id
  // ---------------------------------------------------------------------

  ghost function EntryOf(t: Table, sid: SessionId): Option<Pending> {
    if sid in t then Some(t[sid]) else None
  }

  /** The fragment a step is about, if the server looks at it. */
  ghost function About(op: Op): (r: Option<Fragment>)
    ensures r.Some? ==> op.Deliver? && r.value.Valid() && r.value.hsType != ServerHello
  {
    if op.Swap? then None else
      var f := FromDatagram(op.pkt);
      if f.Err? || f.value.hsType == ServerHello then None else Some(f.value)
  }

  /** The table the step works on, after the sweep. */
  ghost function Swept(cfg: Config, st: Server, op: Op): Table {
    if About(op).None? then st.pending else EvictExpired(st.pending, cfg, op.now)
  }

  /** How the entry of the addressed session may change, and what may be said meanwhile. */
  ghost predicate Moves(c: Suite, cfg: Config, roster: seq<VerifyKey>, op: Op, f: Fragment,
                        before: Option<Pending>, after: Option<Pending>, event: Event)
    requires op.Deliver? && f.Valid() && (before.Some? ==> EntryOk(before.value))
  {
    match before
    case None => event == Nothing && (after == None || (f.hsType == ClientHello && f.idx == 0
                                                        && after == Some(NewPending(f, op.from, op.now))))
    case Some(e) =>
      || (event == Nothing && after == before)
      || (e.source == op.from && if e.phase == AwaitM1 then MovesM1(c, cfg, roster, op, f, e, after, event)
                                 else MovesM3(c, cfg, roster, op, f, e, after, event))
  }

  ghost predicate MovesM1(c: Suite, cfg: Config, roster: seq<VerifyKey>, op: Op, f: Fragment,
                          e: Pending, after: Option<Pending>, event: Event)
    requires op.Deliver? && f.Valid() && EntryOk(e) && e.phase == AwaitM1
  {
    && f.hsType == ClientHello
    && var a := AddFragment(e.assembler.value, f);
       || (a.result == Advanced && event == Nothing && after == Some(e.(assembler := Some(a.assembler), lastSeen := op.now)))
       || (a.result == Completed && event == Nothing && (after == None || after == Some(e.(assembler := Some(a.assembler)))))
       || (a.result == Completed && Answers(c, cfg, roster, op, f.sid, a.assembler.buffer, e, after, event))
  }

  /** The step that authenticates an assembled M1 and answers it. */
  ghost predicate Answers(c: Suite, cfg: Config, roster: seq<VerifyKey>, op: Op, sid: SessionId, m1: seq<byte>,
                          e: Pending, after: Option<Pending>, event: Event)
    requires op.Deliver?
  {
    && |m1| == M1_BODY_LEN && after.Some? && after.value.client.Some?
    && Authentic(c, cfg, roster, sid, m1, after.value.client.value)
    && var hello := DecodeM1(c, m1).value;
       var shared := c.encapsulate(hello.kem, op.draw.coins);
       var m2 := ServerHelloOf(c, cfg, sid, m1, shared.ciphertext, op.draw);
       && c.dh(op.draw.dh, hello.x).Some?
       && after.value == Answering(e.(assembler := after.value.assembler), m1, m2, op.now, shared.secret,
                                   c.dh(op.draw.dh, hello.x).value, op.draw.kem, after.value.client.value)
       && event == Emit(Datagrams(ServerHello, cfg.version, sid, m2), op.from)
  }

  /** `client` is on the roster and signed this M1, which names this session. */
  ghost predicate Authentic(c: Suite, cfg: Config, roster: seq<VerifyKey>, sid: SessionId, m1: Message1, client: VerifyKey) {
    && client in roster
    && DecodeM1(c, m1).Some? && DecodeM1(c, m1).value.sid == sid && DecodeM1(c, m1).value.version == cfg.version
    && c.verify(client, Th1(c, m1), DecodeM1(c, m1).value.sig)
  }

  ghost predicate MovesM3(c: Suite, cfg: Config, roster: seq<VerifyKey>, op: Op, f: Fragment,
                          e: Pending, after: Option<Pending>, event: Event)
    requires op.Deliver? && f.Valid() && EntryOk(e) && e.phase == AwaitM3
  {
    if f.hsType == ClientHello then
      && f.idx == 0 && after == Some(e.(lastSeen := op.now))
      && event == Emit(Datagrams(ServerHello, cfg.version, f.sid, e.m2.value), e.source)
    else
      && f.hsType == ClientConfirm && after == None && MacMatches(c, e, f.body, f.sid)
      && DecodeM3(f.body).Some? && DecodeM3(f.body).value.sid == f.sid && DecodeM3(f.body).value.version == cfg.version
      && event == if e.client.value in roster
                  then Complete(Outcome(Derived(c, e, f.body, f.sid), f.sid, e.client.value), Since(op.now, e.started))
                  else Nothing
  }

  lemma {:induction false} MatchingIsLastMatch(c: Suite, roster: seq<VerifyKey>, d: Digest, sig: Signature)
    ensures var r := Matching(c, roster, d, sig);
            if r.Some? then r.value in roster && c.verify(r.value, d, sig)
            else forall k | k in roster :: !c.verify(k, d, sig)
  {
    if roster != [] {
      var n := |roster| - 1;
      MatchingIsLastMatch(c, roster[..n], d, sig);
      assert roster == roster[..n] + [roster[n]];
    }
  }

  lemma CompleteM1Moves(c: Suite, cfg: Config, st: Server, sid: SessionId, m1: Message1, op: Op, e: Pending)
    requires op.Deliver? && sid in st.pending && (exists a :: st.pending[sid] == e.(assembler := a))
    ensures var r := CompleteM1(c, cfg, st, sid, m1, op.from, op.now, op.draw);
            || (r.event == Nothing && EntryOf(r.server.pending, sid) == None)
            || Answers(c, cfg, st.roster, op, sid, m1, e, EntryOf(r.server.pending, sid), r.event)
    ensures forall s | s != sid :: EntryOf(CompleteM1(c, cfg, st, sid, m1, op.from, op.now, op.draw).server.pending, s)
                                == EntryOf(st.pending, s)
    ensures CompleteM1(c, cfg, st, sid, m1, op.from, op.now, op.draw).server.roster == st.roster
  {
    hide DecodeM1, Th1, Matching, ServerHelloOf, Datagrams;
    var hello := DecodeM1(c, m1);
    if hello.Some? { MatchingIsLastMatch(c, st.roster, Th1(c, m1), hello.value.sig); }
  }

  lemma AwaitM1Moves(c: Suite, cfg: Config, st: Server, f: Fragment, op: Op, e: Pending)
    requires op.Deliver? && f.Valid() && f.hsType == ClientHello && f.sid in st.pending && e == st.pending[f.sid]
    requires EntryOk(e) && e.phase == AwaitM1 && e.source == op.from
    ensures var r := OnAwaitM1(c, cfg, st, f, op.from, op.now, op.draw);
            && Moves(c, cfg, st.roster, op, f, Some(e), EntryOf(r.server.pending, f.sid), r.event)
            && r.server.roster == st.roster
            && forall s | s != f.sid :: EntryOf(r.server.pending, s) == EntryOf(st.pending, s)
  {
    hide CompleteM1, RateLimit.Admit, AddFragment, Answers;
    AddKeepsValid(e.assembler.value, f);
    var a := AddFragment(e.assembler.value, f).assembler;
    var l := RateLimit.Admit(st.limiter, cfg.rate, op.from, op.now).limiter;
    var st' := Server(st.roster, st.pending[f.sid := e.(assembler := Some(a))], l);
    CompleteM1Moves(c, cfg, st', f.sid, a.buffer, op, e);
  }

  lemma M1Moves(c: Suite, cfg: Config, st: Server, f: Fragment, op: Op)
    requires op.Deliver? && TableOk(st.pending) && f.Valid() && f.hsType == ClientHello
    requires TableOk(EvictExpired(st.pending, cfg, op.now))
    ensures var r := OnM1(c, cfg, st, f, op.from, op.now, op.draw);
            var t := EvictExpired(st.pending, cfg, op.now);
            && Moves(c, cfg, st.roster, op, f, EntryOf(t, f.sid), EntryOf(r.server.pending, f.sid), r.event)
            && r.server.roster == st.roster
            && forall s | s != f.sid :: EntryOf(r.server.pending, s) == EntryOf(t, s)
  {
    hide OnAwaitM1, RateLimit.Admit, AddFragment, EvictExpired, MovesM1, Datagrams, NewPending, EntryOk;
    var st' := Evicted(st, cfg, op.now);
    if f.sid in st'.pending && st'.pending[f.sid].source == op.from && st'.pending[f.sid].phase == AwaitM1 {
      AwaitM1Moves(c, cfg, st', f, op, st'.pending[f.sid]);
    }
  }

  lemma M3Moves(c: Suite, cfg: Config, st: Server, f: Fragment, op: Op)
    requires op.Deliver? && TableOk(st.pending) && f.Valid() && f.hsType == ClientConfirm
    requires TableOk(EvictExpired(st.pending, cfg, op.now))
    ensures var r := OnM3(c, cfg, st, f, op.from, op.now);
            var t := EvictExpired(st.pending, cfg, op.now);
            && Moves(c, cfg, st.roster, op, f, EntryOf(t, f.sid), EntryOf(r.server.pending, f.sid), r.event)
            && r.server.roster == st.roster
            && forall s | s != f.sid :: EntryOf(r.server.pending, s) == EntryOf(t, s)
  {
    hide RateLimit.Admit, EvictExpired, MovesM1, MacMatches, Derived, DecodeM3, EntryOk;
  }

  /** One step, seen from session `sid`. */
  lemma StepMoves(c: Suite, cfg: Config, st: Server, op: Op, sid: SessionId)
    requires Inv(st, cfg)
    ensures TableOk(Swept(cfg, st, op))
    ensures var r, t, f := Step(c, cfg, st, op), Swept(cfg, st, op), About(op);
            && (op.Deliver? ==> r.server.roster == st.roster)
            && (f.None? ==> r.event == Nothing)
            && if f.Some? && f.value.sid == sid
               then Moves(c, cfg, st.roster, op, f.value, EntryOf(t, sid), EntryOf(r.server.pending, sid), r.event)
               else EntryOf(r.server.pending, sid) == EntryOf(t, sid)
  {
    hide OnM1, OnM3, EvictExpired, Moves, EntryOk, FromDatagram, RateLimit.Inv;
    var f := About(op);
    if f.Some? {
      EvictKeepsOk(st.pending, cfg, op.now);
      if f.value.hsType == ClientHello { M1Moves(c, cfg, st, f.value, op); } else { M3Moves(c, cfg, st, f.value, op); }
    }
  }

  // ---------------------------------------------------------------------
  // The history behind an entry
  // ---------------------------------------------------------------------

  ghost predicate Feeds(op: Op, sid: SessionId, source: SocketAddr, i: nat, body: seq<byte>) {
    op.Deliver? && op.from == source && FromDatagram(op.pkt) == Ok(Fragment(sid, ClientHello, i, body))
  }

  /** Fragment `i` with this body came from `source` in steps `lo..hi`. */
  ghost predicate Fed(x: Execution, sid: SessionId, source: SocketAddr, i: nat, body: seq<byte>, lo: nat, hi: nat) {
    exists j | lo <= j < hi && j < |x.ops| :: Feeds(x.ops[j], sid, source, i, body)
  }

  ghost predicate CompletesAt(x: Execution, n: nat, sid: SessionId)
    requires IsRun(x) && n < |x.ops|
  {
    ReplyAt(x, n).event.Complete? && ReplyAt(x, n).event.outcome.sid == sid
  }

  ghost predicate Quiet(x: Execution, sid: SessionId, lo: nat, hi: nat)
    requires IsRun(x)
  {
    forall j | lo <= j < hi && j < |x.ops| :: !CompletesAt(x, j, sid)
  }

  /** The whole of `m1` came from `source` in steps `lo..hi`. */
  ghost predicate FedWhole(x: Execution, sid: SessionId, source: SocketAddr, m1: Message1, lo: nat, hi: nat) {
    forall i | 0 <= i < 4 :: Fed(x, sid, source, i, Slice(ClientHello, m1, i), lo, hi)
  }

  /** Step `a` authenticated this M1, fed whole since `born`, and sent this M2 back. */
  ghost predicate AnsweredAt(x: Execution, sid: SessionId, e: Pending, born: nat, a: nat)
    requires IsRun(x) && a < |x.ops| && EntryOk(e) && e.phase == AwaitM3
  {
    && FedWhole(x, sid, e.source, e.m1.value, born, a + 1)
    && Authentic(x.suite, x.cfg, StateAt(x, a).roster, sid, e.m1.value, e.client.value)
    && x.ops[a].Deliver?
    && var op, hello := x.ops[a], DecodeM1(x.suite, e.m1.value).value;
       var shared := x.suite.encapsulate(hello.kem, op.draw.coins);
       && e.m2.value == ServerHelloOf(x.suite, x.cfg, sid, e.m1.value, shared.ciphertext, op.draw)
       && e.ssA == shared.secret && x.suite.dh(op.draw.dh, hello.x) == Some(e.dh) && e.kem.value == op.draw.kem
       && ReplyAt(x, a).event == Emit(Datagrams(ServerHello, x.cfg.version, sid, e.m2.value), e.source)
  }

  /** Step `born` created the entry `e` grew from: no entry survived its sweep, and its clock and source are the entry's. */
  ghost predicate BornAt(x: Execution, sid: SessionId, source: SocketAddr, started: Instant, born: nat)
    requires IsRun(x) && born < |x.ops|
  {
    && x.ops[born].Deliver? && x.ops[born].now == started && x.ops[born].from == source
    && sid !in Swept(x.cfg, StateAt(x, born), x.ops[born])
  }

  /** The entry survived every sweep of the steps between `lo` and `hi`. */
  ghost predicate Unswept(x: Execution, sid: SessionId, lo: nat, hi: nat)
    requires IsRun(x)
  {
    forall j | lo < j < hi && j < |x.ops| :: sid in Swept(x.cfg, StateAt(x, j), x.ops[j])
  }

  ghost predicate AwaitingFrom(x: Execution, sid: SessionId, a: nat, n: nat)
    requires IsRun(x)
  {
    forall j | a < j <= n && j <= |x.ops| :: Awaiting(x, j, sid)
  }

  /** What must have happened for `e` to be the entry of `sid` after `n` steps. */
  ghost predicate Explains(x: Execution, n: nat, sid: SessionId, e: Pending, born: nat)
    requires IsRun(x) && n <= |x.ops| && EntryOk(e)
  {
    && born < n && BornAt(x, sid, e.source, e.started, born) && Unswept(x, sid, born, n) && Quiet(x, sid, born, n)
    && match e.phase
       case AwaitM1 =>
         var a := e.assembler.value;
         forall i | 0 <= i < 4 && a.received[i] :: Fed(x, sid, e.source, i, Slice(ClientHello, a.buffer, i), born, n)
       case AwaitM3 => exists a | born <= a < n :: AnsweredAt(x, sid, e, born, a) && AwaitingFrom(x, sid, a, n)
  }

  ghost predicate HasHistory(x: Execution, n: nat, sid: SessionId, e: Pending)
    requires IsRun(x) && n <= |x.ops| && EntryOk(e)
  {
    exists born :: Explains(x, n, sid, e, born)
  }

  ghost predicate Explained(x: Execution, n: nat, sid: SessionId)
    requires IsRun(x) && n <= |x.ops|
  {
    var st := StateAt(x, n);
    sid in st.pending ==> HasHistory(x, n, sid, st.pending[sid])
  }

  lemma ExplainsLater(x: Execution, n: nat, sid: SessionId, e: Pending, born: nat)
    requires IsRun(x) && n < |x.ops| && EntryOk(e) && Explains(x, n, sid, e, born) && !CompletesAt(x, n, sid)
    requires sid in Swept(x.cfg, StateAt(x, n), x.ops[n]) && (e.phase == AwaitM3 ==> Awaiting(x, n + 1, sid))
    ensures Explains(x, n + 1, sid, e, born)
  {
    hide AnsweredAt, CompletesAt, Feeds, StateAt, Swept, Awaiting, BornAt, IsRun, Assembler.Valid;
    UnsweptLater(x, sid, born, n);
    if e.phase == AwaitM3 {
      var a :| born <= a < n && AnsweredAt(x, sid, e, born, a) && AwaitingFrom(x, sid, a, n);
      assert AnsweredAt(x, sid, e, born, a) && AwaitingFrom(x, sid, a, n + 1);
    } else {
      FedLonger(x, sid, e, born, n);
    }
  }

  lemma UnsweptLater(x: Execution, sid: SessionId, born: nat, n: nat)
    requires IsRun(x) && n < |x.ops| && born < n && Unswept(x, sid, born, n) && sid in Swept(x.cfg, StateAt(x, n), x.ops[n])
    ensures Unswept(x, sid, born, n + 1)
  {
    hide StateAt, Swept, IsRun;
  }

  lemma FedLonger(x: Execution, sid: SessionId, e: Pending, born: nat, n: nat)
    requires EntryOk(e) && e.phase == AwaitM1
    requires forall i | 0 <= i < 4 && e.assembler.value.received[i] ::
               Fed(x, sid, e.source, i, Slice(ClientHello, e.assembler.value.buffer, i), born, n)
    ensures forall i | 0 <= i < 4 && e.assembler.value.received[i] ::
              Fed(x, sid, e.source, i, Slice(ClientHello, e.assembler.value.buffer, i), born, n + 1)
  {
    hide Feeds;
  }

  lemma RefreshedExplains(x: Execution, n: nat, sid: SessionId, e: Pending, born: nat, now: Instant)
    requires IsRun(x) && n <= |x.ops| && EntryOk(e) && e.phase == AwaitM3 && Explains(x, n, sid, e, born)
    ensures Explains(x, n, sid, e.(lastSeen := now), born)
  {
    hide FedWhole, Authentic, StateAt, ServerHelloOf, Datagrams, ReplyAt, Quiet, BornAt, Unswept, AwaitingFrom;
    var a :| born <= a < n && AnsweredAt(x, sid, e, born, a) && AwaitingFrom(x, sid, a, n);
    assert AnsweredAt(x, sid, e.(lastSeen := now), born, a);
  }

  lemma NewExplains(x: Execution, n: nat, sid: SessionId, f: Fragment)
    requires IsRun(x) && n < |x.ops| && About(x.ops[n]) == Some(f) && f.sid == sid && f.hsType == ClientHello && f.idx == 0
    requires f.Valid() && !CompletesAt(x, n, sid) && sid !in Swept(x.cfg, StateAt(x, n), x.ops[n])
    ensures var e := NewPending(f, x.ops[n].from, x.ops[n].now);
            EntryOk(e) && Explains(x, n + 1, sid, e, n)
  {
    hide CompletesAt, StateAt, AddFragment, RateLimit.Inv, FromDatagram, Slice, Swept;
    NewHolds(ClientHello, Zeros(M1_BODY_LEN));
    FirstIsAdded(f);
    AddStores(NewAssembler(ClientHello), f);
    assert Feeds(x.ops[n], sid, x.ops[n].from, 0, f.body);
  }

  /** The assembler after one more fragment is still made of what was fed. */
  lemma AddedExplains(x: Execution, n: nat, sid: SessionId, e: Pending, f: Fragment, born: nat)
    requires IsRun(x) && n < |x.ops| && About(x.ops[n]) == Some(f) && f.sid == sid && f.hsType == ClientHello && f.Valid()
    requires EntryOk(e) && e.phase == AwaitM1 && e.source == x.ops[n].from
    requires Explains(x, n, sid, e, born) && AddFragment(e.assembler.value, f).result != Ignored
    ensures var a := AddFragment(e.assembler.value, f).assembler;
            && a.Valid() && a.hsType == ClientHello
            && (AddFragment(e.assembler.value, f).result == Completed ==> a.Full())
            && forall i | 0 <= i < 4 && a.received[i] ::
                 Fed(x, sid, e.source, i, Slice(ClientHello, a.buffer, i), born, n + 1)
  {
    hide AddFragment, CompletesAt, StateAt, Quiet;
    AddStores(e.assembler.value, f);
    assert Feeds(x.ops[n], sid, x.ops[n].from, f.idx, f.body);
  }

  /** A completion is about the session its datagram names, and consumes its entry. */
  lemma CompletionConsumes(x: Execution, n: nat, sid: SessionId)
    requires IsRun(x) && n < |x.ops| && CompletesAt(x, n, sid)
    ensures StateAt(x, n + 1) == ReplyAt(x, n).server && sid !in StateAt(x, n + 1).pending
    ensures var op, st := x.ops[n], StateAt(x, n);
            && About(op).Some? && About(op).value.sid == sid
            && sid in st.pending && EntryOk(st.pending[sid]) && st.pending[sid].phase == AwaitM3
            && st.pending[sid].source == op.from
            && MovesM3(x.suite, x.cfg, st.roster, op, About(op).value, st.pending[sid], None, ReplyAt(x, n).event)
  {
    hide Step, Swept, AddFragment, Authentic, ServerHelloOf, StateAt, RateLimit.Inv, About, MacMatches, DecodeM3, Derived;
    var st, op := StateAt(x, n), x.ops[n];
    OneMore(x, n);
    StepMoves(x.suite, x.cfg, st, op, sid);
    assert About(op).Some?;
    var own := About(op).value.sid;
    StepMoves(x.suite, x.cfg, st, op, own);
    SweptIsPart(x.cfg, st, op, own);
    assert own == sid;
  }

  lemma OwnStepExplained(x: Execution, n: nat, sid: SessionId, f: Fragment, before: Option<Pending>, after: Pending)
    requires IsRun(x) && n < |x.ops| && About(x.ops[n]) == Some(f) && f.sid == sid && f.Valid()
    requires !CompletesAt(x, n, sid) && EntryOf(StateAt(x, n + 1).pending, sid) == Some(after)
    requires before == EntryOf(Swept(x.cfg, StateAt(x, n), x.ops[n]), sid)
    requires before.Some? ==> EntryOk(before.value) && HasHistory(x, n, sid, before.value)
    requires Moves(x.suite, x.cfg, StateAt(x, n).roster, x.ops[n], f, before, Some(after), ReplyAt(x, n).event)
    ensures EntryOk(after) && HasHistory(x, n + 1, sid, after)
  {
    hide MovesM1, Explains, StateAt, ReplyAt, CompletesAt, AddFragment, EntryOk, About, Datagrams, MacMatches, DecodeM3, Swept;
    if before.None? {
      NewExplains(x, n, sid, f);
    } else {
      var e := before.value;
      var born :| Explains(x, n, sid, e, born);
      if after == e {
        ExplainsLater(x, n, sid, e, born);
      } else if e.phase == AwaitM1 {
        AdvanceExplained(x, n, sid, f, e, after, born);
      } else {
        ExplainsLater(x, n, sid, e, born);
        assert after == e.(lastSeen := x.ops[n].now);
        RefreshedExplains(x, n + 1, sid, e, born, x.ops[n].now);
        RefreshedOk(e, x.ops[n].now);
      }
    }
  }

  lemma RefreshedOk(e: Pending, now: Instant)
    requires EntryOk(e)
    ensures EntryOk(e.(lastSeen := now))
  {}

  lemma AdvanceExplained(x: Execution, n: nat, sid: SessionId, f: Fragment, e: Pending, after: Pending, born: nat)
    requires IsRun(x) && n < |x.ops| && About(x.ops[n]) == Some(f) && f.sid == sid && f.Valid()
    requires !CompletesAt(x, n, sid) && EntryOk(e) && e.phase == AwaitM1 && e.source == x.ops[n].from
    requires Explains(x, n, sid, e, born) && sid in Swept(x.cfg, StateAt(x, n), x.ops[n])
    requires EntryOf(StateAt(x, n + 1).pending, sid) == Some(after)
    requires MovesM1(x.suite, x.cfg, StateAt(x, n).roster, x.ops[n], f, e, Some(after), ReplyAt(x, n).event)
    ensures EntryOk(after) && Explains(x, n + 1, sid, after, born)
  {
    hide Answers, StateAt, CompletesAt, AddFragment, About, Fed, AnsweredAt, ReplyAt, Swept, BornAt, Unswept, Quiet, RateLimit.Inv,
      Assembler.Full, AwaitingFrom, Slice, TableOk;
    assert x.ops[n].Deliver?;
    UnsweptLater(x, sid, born, n);
    QuietLater(x, sid, born, n);
    AddedExplains(x, n, sid, e, f, born);
    var a := AddFragment(e.assembler.value, f);
    if a.result == Completed
       && Answers(x.suite, x.cfg, StateAt(x, n).roster, x.ops[n], sid, a.assembler.buffer, e, Some(after), ReplyAt(x, n).event)
    {
      FullIsWhole(x, sid, e.source, a.assembler, born, n + 1);
      AnswerExplained(x, n, sid, a.assembler.buffer, e, after, born);
      JustAwaiting(x, n, sid, after);
      assert AnsweredAt(x, sid, after, born, n) && AwaitingFrom(x, sid, n, n + 1);
    }
  }

  lemma QuietLater(x: Execution, sid: SessionId, born: nat, n: nat)
    requires IsRun(x) && n < |x.ops| && Quiet(x, sid, born, n) && !CompletesAt(x, n, sid)
    ensures Quiet(x, sid, born, n + 1)
  {
    hide CompletesAt, IsRun;
  }

  lemma JustAwaiting(x: Execution, n: nat, sid: SessionId, after: Pending)
    requires IsRun(x) && n < |x.ops| && EntryOf(StateAt(x, n + 1).pending, sid) == Some(after) && after.phase == AwaitM3
    ensures AwaitingFrom(x, sid, n, n + 1)
  {
    hide StateAt, IsRun;
  }

  lemma FullIsWhole(x: Execution, sid: SessionId, source: SocketAddr, a: Assembler, born: nat, n: nat)
    requires a.Valid() && a.hsType == ClientHello && a.Full()
    requires forall i | 0 <= i < 4 && a.received[i] :: Fed(x, sid, source, i, Slice(ClientHello, a.buffer, i), born, n)
    ensures FedWhole(x, sid, source, a.buffer, born, n)
  {
    hide Fed, Slice;
  }

  lemma AnswerExplained(x: Execution, n: nat, sid: SessionId, m1: Message1, e: Pending, after: Pending, born: nat)
    requires IsRun(x) && n < |x.ops| && x.ops[n].Deliver? && e.source == x.ops[n].from
    requires FedWhole(x, sid, e.source, m1, born, n + 1)
    requires Answers(x.suite, x.cfg, StateAt(x, n).roster, x.ops[n], sid, m1, e, Some(after), ReplyAt(x, n).event)
    ensures EntryOk(after) && after.phase == AwaitM3 && after.source == e.source && after.started == e.started
    ensures AnsweredAt(x, sid, after, born, n)
  {
    hide StateAt, ReplyAt, FedWhole, Authentic, ServerHelloOf, Datagrams;
  }

  lemma OtherStepExplained(x: Execution, n: nat, sid: SessionId)
    requires IsRun(x) && n < |x.ops| && Explained(x, n, sid) && sid in StateAt(x, n).pending
    requires sid in StateAt(x, n + 1).pending && StateAt(x, n + 1).pending[sid] == StateAt(x, n).pending[sid]
    requires sid in Swept(x.cfg, StateAt(x, n), x.ops[n])
    ensures Explained(x, n + 1, sid)
  {
    hide StateAt, Explains, CompletesAt, MovesM3, Swept;
    if CompletesAt(x, n, sid) { CompletionConsumes(x, n, sid); }
    var e := StateAt(x, n).pending[sid];
    var born :| Explains(x, n, sid, e, born);
    ExplainsLater(x, n, sid, e, born);
  }

  lemma StepExplained(x: Execution, n: nat, sid: SessionId)
    requires IsRun(x) && n < |x.ops| && Explained(x, n, sid)
    ensures Explained(x, n + 1, sid)
  {
    hide Step, Swept, Moves, MovesM3, HasHistory, StateAt, RateLimit.Inv, About, CompletesAt;
    var st, op := StateAt(x, n), x.ops[n];
    assert StateAt(x, n + 1) == ReplyAt(x, n).server by { OneMore(x, n); }
    StepMoves(x.suite, x.cfg, st, op, sid);
    var t := Swept(x.cfg, st, op);
    SweptIsPart(x.cfg, st, op, sid);
    if sid in StateAt(x, n + 1).pending {
      if CompletesAt(x, n, sid) { CompletionConsumes(x, n, sid); }
      if About(op).Some? && About(op).value.sid == sid {
        OwnStepExplained(x, n, sid, About(op).value, EntryOf(t, sid), StateAt(x, n + 1).pending[sid]);
      } else {
        OtherStepExplained(x, n, sid);
      }
    }
  }

  lemma OneMore(x: Execution, n: nat)
    requires IsRun(x) && n < |x.ops|
    ensures StateAt(x, n + 1) == ReplyAt(x, n).server
  {}

  lemma SweptIsPart(cfg: Config, st: Server, op: Op, sid: SessionId)
    ensures sid in Swept(cfg, st, op) ==> sid in st.pending && Swept(cfg, st, op)[sid] == st.pending[sid]
  {}

  lemma {:induction false} RunExplained(x: Execution, n: nat, sid: SessionId)
    requires IsRun(x) && n <= |x.ops|
    ensures Explained(x, n, sid)
  {
    hide *;
    if n == 0 {
      StartExplained(x, sid);
    } else {
      RunExplained(x, n - 1, sid);
      StepExplained(x, n - 1, sid);
    }
  }

  lemma StartExplained(x: Execution, sid: SessionId)
    requires IsRun(x)
    ensures Explained(x, 0, sid)
  {
    hide HasHistory, RateLimit.Inv;
  }

  // ---------------------------------------------------------------------
  // What every completion rests on
  // ---------------------------------------------------------------------

  /**
   * Everything behind a completion at step `n`: the step `born` that created the
   * completing entry, which no sweep has taken since; an M1 fed whole since then and
   * authenticated at step `a` under a key that is still on the roster at step `n`;
   * the M2 sent to the same address at `a`, awaiting its M3 ever since; and an M3
   * whose Finished MAC matches.
   */
  ghost predicate Rests(x: Execution, n: nat, sid: SessionId, e: Pending, m3: Message3, born: nat, a: nat)
    requires IsRun(x) && n < |x.ops| && EntryOk(e) && e.phase == AwaitM3
  {
    && born <= a < n && AnsweredAt(x, sid, e, born, a)
    && EntryOf(StateAt(x, n).pending, sid) == Some(e)
    && BornAt(x, sid, e.source, e.started, born) && Unswept(x, sid, born, n) && AwaitingFrom(x, sid, a, n) && Quiet(x, sid, born, n)
    && Confirms(x.ops[n], sid, e.source, m3) && MacMatches(x.suite, e, m3, sid)
    && e.client.value in StateAt(x, n).roster
    && ReplyAt(x, n).event.Complete?
    && ReplyAt(x, n).event.outcome == Outcome(Derived(x.suite, e, m3, sid), sid, e.client.value)
  }

  ghost predicate Confirms(op: Op, sid: SessionId, source: SocketAddr, m3: Message3) {
    op.Deliver? && op.from == source && FromDatagram(op.pkt) == Ok(Fragment(sid, ClientConfirm, 0, m3))
  }

  lemma CompletionRests(x: Execution, n: nat, sid: SessionId) returns (e: Pending, m3: Message3, born: nat, a: nat)
    requires IsRun(x) && n < |x.ops| && CompletesAt(x, n, sid)
    ensures EntryOk(e) && e.phase == AwaitM3 && Rests(x, n, sid, e, m3, born, a)
    ensures sid !in StateAt(x, n + 1).pending
  {
    hide StateAt, AnsweredAt, MacMatches, Derived, DecodeM3, ReplyAt, FromDatagram, Quiet, RateLimit.Inv, IsRun, BornAt,
      Unswept, AwaitingFrom;
    CompletionConsumes(x, n, sid);
    RunExplained(x, n, sid);
    m3 := About(x.ops[n]).value.body;
    e := StateAt(x, n).pending[sid];
    born :| Explains(x, n, sid, e, born);
    a :| born <= a < n && AnsweredAt(x, sid, e, born, a) && AwaitingFrom(x, sid, a, n);
  }

  /** Two completions of one session need two whole M1s: all of the second is sent after the first completion. */
  lemma AnotherNeedsWholeM1(x: Execution, i: nat, n: nat, sid: SessionId) returns (m1: Message1, source: SocketAddr)
    requires IsRun(x) && i < n < |x.ops| && CompletesAt(x, i, sid) && CompletesAt(x, n, sid)
    ensures FedWhole(x, sid, source, m1, i + 1, n)
  {
    hide StateAt, MacMatches, Derived, Authentic, ServerHelloOf, Feeds, ReplyAt, CompletesAt;
    var e, _, born, a := CompletionRests(x, n, sid);
    m1, source := e.m1.value, e.source;
    assert i < born;
    forall k | 0 <= k < 4 ensures Fed(x, sid, source, k, Slice(ClientHello, m1, k), i + 1, n) {
      assert Fed(x, sid, source, k, Slice(ClientHello, m1, k), born, a + 1);
    }
  }

  // ---------------------------------------------------------------------
  // Entries awaiting M3
  // ---------------------------------------------------------------------

  /** An M3 with a wrong MAC leaves its unexpired entry exactly as it was. */
  lemma WrongMacChangesNothing(c: Suite, cfg: Config, st: Server, op: Op, f: Fragment)
    requires Inv(st, cfg) && About(op) == Some(f) && f.hsType == ClientConfirm && f.sid in st.pending
    requires var e := st.pending[f.sid];
             !Expired(e, cfg, op.now) && e.phase == AwaitM3 && !MacMatches(c, e, f.body, f.sid)
    ensures var r := Step(c, cfg, st, op);
            r.event == Nothing && f.sid in r.server.pending && r.server.pending[f.sid] == st.pending[f.sid]
  {
    hide MacMatches, Step, Inv;
    InvTable(st, cfg);
    StepMoves(c, cfg, st, op, f.sid);
  }

  ghost predicate Awaiting(x: Execution, n: nat, sid: SessionId)
    requires IsRun(x) && n <= |x.ops|
  {
    sid in StateAt(x, n).pending && StateAt(x, n).pending[sid].phase == AwaitM3
  }

  ghost predicate Frozen(before: Pending, after: Pending) { after == before.(lastSeen := after.lastSeen) }

  ghost predicate EmitsFor(x: Execution, n: nat, sid: SessionId)
    requires IsRun(x) && n < |x.ops|
  {
    About(x.ops[n]).Some? && About(x.ops[n]).value.sid == sid && ReplyAt(x, n).event.Emit?
  }

  /** While the entry awaits its M3, its M1, M2, source and keys are frozen. */
  lemma AwaitingFrozen(x: Execution, n: nat, sid: SessionId)
    requires IsRun(x) && n < |x.ops| && Awaiting(x, n, sid) && Awaiting(x, n + 1, sid)
    ensures FrozenBetween(x, n, n + 1, sid)
  {
    hide StateAt, Step, Datagrams, MovesM1, Swept, RateLimit.Inv;
    OneMore(x, n);
    var st := StateAt(x, n);
    StepMoves(x.suite, x.cfg, st, x.ops[n], sid);
    SweptIsPart(x.cfg, st, x.ops[n], sid);
  }

  lemma EmissionIsCached(x: Execution, n: nat, sid: SessionId)
    requires IsRun(x) && n < |x.ops| && EmitsFor(x, n, sid)
    ensures Awaiting(x, n + 1, sid)
    ensures var e := StateAt(x, n + 1).pending[sid];
            e.m2.Some? && ReplyAt(x, n).event == Emit(Datagrams(ServerHello, x.cfg.version, sid, e.m2.value), e.source)
  {
    hide StateAt, Step, Datagrams, Swept, RateLimit.Inv, Authentic, ServerHelloOf, AddFragment;
    OneMore(x, n);
    StepMoves(x.suite, x.cfg, StateAt(x, n), x.ops[n], sid);
  }

  /** Every M2 emission for one entry is the identical fragment list to the identical address. */
  lemma {:induction false} EmissionsIdentical(x: Execution, i: nat, n: nat, sid: SessionId)
    requires IsRun(x) && i < n < |x.ops| && EmitsFor(x, i, sid) && EmitsFor(x, n, sid)
    requires forall k | i < k <= n :: Awaiting(x, k, sid)
    ensures ReplyAt(x, n).event == ReplyAt(x, i).event
  {
    hide StateAt, Datagrams, EmitsFor, ReplyAt, EntryOk;
    EmissionIsCached(x, i, sid);
    EmissionIsCached(x, n, sid);
    FrozenFor(x, i + 1, n + 1, sid);
  }

  ghost predicate FrozenBetween(x: Execution, i: nat, n: nat, sid: SessionId)
    requires IsRun(x) && i <= n <= |x.ops|
  {
    && sid in StateAt(x, i).pending && sid in StateAt(x, n).pending
    && Frozen(StateAt(x, i).pending[sid], StateAt(x, n).pending[sid])
  }

  lemma {:induction false} FrozenFor(x: Execution, i: nat, n: nat, sid: SessionId)
    requires IsRun(x) && i <= n <= |x.ops| && forall k | i <= k <= n :: Awaiting(x, k, sid)
    ensures FrozenBetween(x, i, n, sid)
  {
    hide StateAt, Inv;
    if i < n {
      FrozenFor(x, i, n - 1, sid);
      AwaitingFrozen(x, n - 1, sid);
    }
    assert Awaiting(x, n, sid);
  }

  // ---------------------------------------------------------------------
  // Revocation
  // ---------------------------------------------------------------------

  /** A swap the server adopts: not empty and within the limit. */
  ghost predicate Adopts(cfg: Config, op: Op) { op.Swap? && 0 < |op.roster| <= cfg.maxRosterSize }

  ghost predicate NoneAdopted(x: Execution, lo: nat, hi: nat) {
    forall j | lo <= j < hi && j < |x.ops| :: !Adopts(x.cfg, x.ops[j])
  }

  lemma StepRoster(x: Execution, n: nat)
    requires IsRun(x) && n < |x.ops|
    ensures StateAt(x, n + 1).roster == if Adopts(x.cfg, x.ops[n]) then x.ops[n].roster else StateAt(x, n).roster
  {
    hide HandleDatagram, StateAt, Inv, Moves, Swept;
    OneMore(x, n);
    if x.ops[n].Deliver? { DeliveryRoster(x, n); }
  }

  lemma DeliveryRoster(x: Execution, n: nat)
    requires IsRun(x) && n < |x.ops| && x.ops[n].Deliver?
    ensures ReplyAt(x, n).server.roster == StateAt(x, n).roster
  {
    hide Step, StateAt, Swept, Moves, EntryOk, RateLimit.Inv;
    StepMoves(x.suite, x.cfg, StateAt(x, n), x.ops[n], Zeros(8));
  }

  /** The roster in force is the one last adopted, whole, or the first one; refused swaps and datagrams leave it. */
  lemma {:induction false} RosterInForce(x: Execution, lo: nat, n: nat)
    requires IsRun(x) && lo <= n <= |x.ops| && NoneAdopted(x, lo, n)
    requires lo > 0 ==> Adopts(x.cfg, x.ops[lo - 1])
    ensures StateAt(x, n).roster == if lo > 0 then x.ops[lo - 1].roster else x.start.roster
  {
    hide IsRun, StateAt, Adopts, Inv;
    if n == 0 {
      StartState(x);
    } else {
      StepRoster(x, n - 1);
      if lo < n { RosterInForce(x, lo, n - 1); }
    }
  }

  lemma StartState(x: Execution)
    requires IsRun(x)
    ensures StateAt(x, 0) == x.start
  {
    hide Inv;
  }

  /** Once a swap is adopted, no session completes for a key it left out, whenever that client authenticated. */
  lemma RevocationHolds(x: Execution, k: nat, n: nat, sid: SessionId)
    requires IsRun(x) && k < n < |x.ops| && Adopts(x.cfg, x.ops[k]) && NoneAdopted(x, k + 1, n) && CompletesAt(x, n, sid)
    ensures ReplyAt(x, n).event.outcome.peer in x.ops[k].roster
  {
    hide IsRun, StateAt, ReplyAt, Adopts, AnsweredAt, MacMatches, Derived, BornAt, Unswept, AwaitingFrom, Quiet, Confirms;
    RosterInForce(x, k + 1, n);
    var e, _, _, _ := CompletionRests(x, n, sid);
  }

  // ---------------------------------------------------------------------
  // A repeated M1 is answered again
  // ---------------------------------------------------------------------

  /** Fragment 0 from the entry's own address, with a token, gets the cached M2 again and renews the entry. */
  lemma RepeatIsAnswered(x: Execution, n: nat, sid: SessionId, f: Fragment, e: Pending)
    requires IsRun(x) && n < |x.ops| && About(x.ops[n]) == Some(f) && f.sid == sid && f.hsType == ClientHello && f.idx == 0
    requires EntryOf(Swept(x.cfg, StateAt(x, n), x.ops[n]), sid) == Some(e) && e.source == x.ops[n].from
    requires EntryOk(e) && e.phase == AwaitM3 && RateLimit.Admit(StateAt(x, n).limiter, x.cfg.rate, x.ops[n].from, x.ops[n].now).ok
    ensures ReplyAt(x, n).event == Emit(Datagrams(ServerHello, x.cfg.version, sid, e.m2.value), e.source)
    ensures EntryOf(StateAt(x, n + 1).pending, sid) == Some(e.(lastSeen := x.ops[n].now))
  {
    hide StateAt, RateLimit.Admit, EvictExpired, RateLimit.Inv, FromDatagram, Datagrams;
    OneMore(x, n);
  }
}
