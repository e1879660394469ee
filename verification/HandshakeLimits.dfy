/** How long an unfinished entry can live, and how much work a source can cause. */
module HandshakeLimits {
  import opened Bytes
  import opened Codec
  import opened Net
  import opened HandshakeFraming
  import opened HandshakeMessages
  import opened HandshakeServer
  import opened HandshakeRuns
  import RateLimit

  // ---------------------------------------------------------------------
  // The lifetime of an entry that never finishes its M1
  // ---------------------------------------------------------------------

  ghost function Flag(b: bool): nat { if b then 1 else 0 }

  /** How many of the four M1 fragments an assembler holds. */
  ghost function Arrived(a: Assembler): nat
    requires |a.received| == 5
  {
    Flag(a.received[0]) + Flag(a.received[1]) + Flag(a.received[2]) + Flag(a.received[3])
  }

  /** Each refresh of the deadline is paid for by a fragment, and the fourth buys none. */
  ghost predicate Aged(e: Pending, ttl: nat)
    requires EntryOk(e)
  {
    e.phase == AwaitM1 ==>
      && 1 <= Arrived(e.assembler.value)
      && e.lastSeen <= e.started + (Min(Arrived(e.assembler.value), 3) - 1) * ttl
  }

  lemma NewIsAged(f: Fragment, from: SocketAddr, now: Instant, ttl: nat)
    requires f.Valid() && f.hsType == ClientHello && f.idx == 0
    ensures EntryOk(NewPending(f, from, now)) && Aged(NewPending(f, from, now), ttl)
  {
    hide AddFragment;
    NewHolds(ClientHello, Zeros(M1_BODY_LEN));
    assert AddFragment(NewAssembler(ClientHello), f).result != Ignored by { FirstIsAdded(f); }
    AddStores(NewAssembler(ClientHello), f);
  }

  lemma AddCounts(a: Assembler, f: Fragment)
    requires a.Valid() && a.hsType == ClientHello && f.Valid() && f.hsType == ClientHello
    requires AddFragment(a, f).result != Ignored
    ensures var a' := AddFragment(a, f).assembler;
            && a'.Valid() && Arrived(a') == Arrived(a) + 1
            && (AddFragment(a, f).result == Advanced ==> Arrived(a') <= 3)
  {
    hide AddFragment;
    AddStores(a, f);
  }

  /** What a step leaves of an entry that stays in its first phase. */
  lemma AwaitM1Step(x: Execution, n: nat, sid: SessionId)
    requires IsRun(x) && n < |x.ops| && Persists(x, n, sid)
    ensures var e, e' := StateAt(x, n).pending[sid], StateAt(x, n + 1).pending[sid];
            && EntryOk(e) && EntryOk(e') && e'.started == e.started
            && Arrived(e.assembler.value) <= Arrived(e'.assembler.value)
            && (e'.lastSeen != e.lastSeen ==>
                  Arrived(e.assembler.value) < Arrived(e'.assembler.value) <= 3
                  && x.ops[n].Deliver? && e'.lastSeen == x.ops[n].now && !Expired(e, x.cfg, x.ops[n].now))
  {
    hide StateAt, Step, MovesM3, Authentic, ServerHelloOf, Datagrams, DecodeM1, AddFragment, RateLimit.Inv, FromDatagram, Arrived,
      Assembler.Full, BodyLen;
    OneMore(x, n);
    var st, op := StateAt(x, n), x.ops[n];
    StepMoves(x.suite, x.cfg, st, op, sid);
    SweptIsPart(x.cfg, st, op, sid);
    var e, f := st.pending[sid], About(op);
    if f.Some? && f.value.sid == sid && f.value.hsType == ClientHello && AddFragment(e.assembler.value, f.value).result != Ignored {
      AddCounts(e.assembler.value, f.value);
    }
  }

  /** The same entry is there, still collecting its M1, before and after step `n`. */
  ghost predicate Persists(x: Execution, n: nat, sid: SessionId)
    requires IsRun(x) && n < |x.ops|
  {
    && sid in Swept(x.cfg, StateAt(x, n), x.ops[n])
    && sid in StateAt(x, n).pending && StateAt(x, n).pending[sid].phase == AwaitM1
    && sid in StateAt(x, n + 1).pending && StateAt(x, n + 1).pending[sid].phase == AwaitM1
  }

  ghost predicate AgedAt(x: Execution, n: nat, sid: SessionId)
    requires IsRun(x) && n <= |x.ops|
  {
    sid in StateAt(x, n).pending ==> Aged(StateAt(x, n).pending[sid], x.cfg.ttl)
  }

  lemma AgedStep(x: Execution, n: nat, sid: SessionId)
    requires IsRun(x) && n < |x.ops| && AgedAt(x, n, sid)
    ensures AgedAt(x, n + 1, sid)
  {
    hide StateAt, RateLimit.Inv, Arrived, Swept, Aged, Expired, EntryOk;
    if sid in StateAt(x, n + 1).pending && StateAt(x, n + 1).pending[sid].phase != AwaitM1 {
      LaterIsAged(StateAt(x, n + 1).pending[sid], x.cfg.ttl);
    } else if sid in StateAt(x, n + 1).pending {
      if Persists(x, n, sid) {
        AwaitM1Step(x, n, sid);
        AgedCarries(StateAt(x, n).pending[sid], StateAt(x, n + 1).pending[sid], x.cfg, if x.ops[n].Deliver? then x.ops[n].now else 0);
      } else {
        BornStep(x, n, sid);
      }
    }
  }

  lemma LaterIsAged(e: Pending, ttl: nat)
    requires EntryOk(e) && e.phase == AwaitM3
    ensures Aged(e, ttl)
  {}

  /** A refresh inside the lifetime moves the deadline by less than one lifetime. */
  lemma AgedCarries(e: Pending, e': Pending, cfg: Config, now: Instant)
    requires EntryOk(e) && EntryOk(e') && e.phase == e'.phase == AwaitM1 && Aged(e, cfg.ttl) && e'.started == e.started
    requires Arrived(e.assembler.value) <= Arrived(e'.assembler.value)
    requires e'.lastSeen != e.lastSeen ==>
               && Arrived(e.assembler.value) < Arrived(e'.assembler.value) <= 3
               && e'.lastSeen == now && !Expired(e, cfg, now)
    ensures Aged(e', cfg.ttl)
  {
    hide Arrived, BodyLen, Assembler.Full;
    LifetimesGrow(Arrived(e.assembler.value), Arrived(e'.assembler.value), cfg.ttl);
  }

  lemma LifetimesGrow(n: nat, m: nat, ttl: nat)
    requires 1 <= n <= m
    ensures (Min(n, 3) - 1) * ttl <= (Min(m, 3) - 1) * ttl
    ensures n < m <= 3 ==> (Min(n, 3) - 1) * ttl + ttl <= (Min(m, 3) - 1) * ttl
  {}

  /** A first-phase entry that did not persist was created by this very step. */
  lemma BornStep(x: Execution, n: nat, sid: SessionId)
    requires IsRun(x) && n < |x.ops| && !Persists(x, n, sid)
    requires sid in StateAt(x, n + 1).pending && StateAt(x, n + 1).pending[sid].phase == AwaitM1
    ensures Aged(StateAt(x, n + 1).pending[sid], x.cfg.ttl)
    ensures x.ops[n].Deliver? && StateAt(x, n + 1).pending[sid].started == x.ops[n].now
  {
    hide StateAt, Step, MacMatches, Derived, DecodeM3, Authentic, ServerHelloOf, Datagrams, DecodeM1, AddFragment, RateLimit.Inv,
      FromDatagram, Swept, Aged;
    OneMore(x, n);
    var st, op := StateAt(x, n), x.ops[n];
    StepMoves(x.suite, x.cfg, st, op, sid);
    SweptIsPart(x.cfg, st, op, sid);
    var f := About(op);
    assert f.Some?;
    NewIsAged(f.value, op.from, op.now, x.cfg.ttl);
  }

  lemma {:induction false} AlwaysAged(x: Execution, n: nat, sid: SessionId)
    requires IsRun(x) && n <= |x.ops|
    ensures AgedAt(x, n, sid)
  {
    hide *;
    if n == 0 {
      StartAged(x, sid);
    } else {
      AlwaysAged(x, n - 1, sid);
      AgedStep(x, n - 1, sid);
    }
  }

  lemma StartAged(x: Execution, sid: SessionId)
    requires IsRun(x)
    ensures AgedAt(x, 0, sid)
  {
    hide Aged, RateLimit.Inv;
  }

  /**
   * Whatever is sent, the first well-formed M1 or M3 fragment three lifetimes after its
   * creation sweeps the entry out; if the session has an entry afterwards, that step created it.
   */
  lemma UnfinishedIsEvicted(x: Execution, n: nat, sid: SessionId)
    requires IsRun(x) && n < |x.ops| && sid in StateAt(x, n).pending && StateAt(x, n).pending[sid].phase == AwaitM1
    requires About(x.ops[n]).Some? && x.ops[n].now >= StateAt(x, n).pending[sid].started + 3 * x.cfg.ttl
    ensures sid !in Swept(x.cfg, StateAt(x, n), x.ops[n])
    ensures sid in StateAt(x, n + 1).pending
            ==> StateAt(x, n + 1).pending[sid] == NewPending(About(x.ops[n]).value, x.ops[n].from, x.ops[n].now)
  {
    hide StateAt, RateLimit.Inv, Arrived, About, Step, NewPending;
    AlwaysAged(x, n, sid);
    assert Expired(StateAt(x, n).pending[sid], x.cfg, x.ops[n].now);
    OneMore(x, n);
    StepMoves(x.suite, x.cfg, StateAt(x, n), x.ops[n], sid);
  }

  /** Steps of `i..n` that move the deadline of the entry. */
  ghost function Refreshes(x: Execution, sid: SessionId, i: nat, n: nat): nat
    requires IsRun(x) && i <= n <= |x.ops| && forall k | i <= k < n :: Persists(x, k, sid)
  {
    if i == n then 0 else
      assert Persists(x, n - 1, sid);
      Flag(StateAt(x, n).pending[sid].lastSeen != StateAt(x, n - 1).pending[sid].lastSeen) + Refreshes(x, sid, i, n - 1)
  }

  ghost function ArrivedAt(x: Execution, n: nat, sid: SessionId): nat
    requires IsRun(x) && n <= |x.ops| && sid in StateAt(x, n).pending && StateAt(x, n).pending[sid].phase == AwaitM1
  {
    Arrived(StateAt(x, n).pending[sid].assembler.value)
  }

  lemma {:induction false} RefreshesArePaid(x: Execution, sid: SessionId, i: nat, n: nat)
    requires IsRun(x) && i < n <= |x.ops| && forall k | i <= k < n :: Persists(x, k, sid)
    ensures Persists(x, i, sid) && Persists(x, n - 1, sid)
    ensures Min(ArrivedAt(x, i, sid), 3) + Refreshes(x, sid, i, n) <= Min(ArrivedAt(x, n, sid), 3)
  {
    hide StateAt, RateLimit.Inv, Arrived, Inv;
    assert Persists(x, i, sid);
    assert Persists(x, n - 1, sid);
    AwaitM1Step(x, n - 1, sid);
    if i < n - 1 {
      RefreshesArePaid(x, sid, i, n - 1);
    }
  }

  /** An entry that never finishes its M1 has its deadline moved at most twice. */
  lemma AtMostTwoRefreshes(x: Execution, sid: SessionId, i: nat, n: nat)
    requires IsRun(x) && i <= n <= |x.ops| && forall k | i <= k < n :: Persists(x, k, sid)
    ensures Refreshes(x, sid, i, n) <= 2
  {
    hide StateAt, RateLimit.Inv, Arrived, Inv, Refreshes;
    if i < n {
      RefreshesArePaid(x, sid, i, n);
      AlwaysAged(x, i, sid);
    } else {
      NoSteps(x, sid, i);
    }
  }

  lemma NoSteps(x: Execution, sid: SessionId, i: nat)
    requires IsRun(x) && i <= |x.ops|
    ensures Refreshes(x, sid, i, i) == 0
  {}

  // ---------------------------------------------------------------------
  // Every piece of expensive work is paid for with a token
  // ---------------------------------------------------------------------

  ghost predicate Allocates(c: Suite, cfg: Config, st: Server, op: Op)
    requires TableOk(st.pending)
  {
    About(op).Some? && About(op).value.sid !in Swept(cfg, st, op) && About(op).value.sid in Step(c, cfg, st, op).server.pending
  }

  /** A new entry, an M2 on the wire, a completion, or a KEM operation. */
  ghost predicate Works(c: Suite, cfg: Config, st: Server, op: Op)
    requires TableOk(st.pending)
  {
    Allocates(c, cfg, st, op) || Step(c, cfg, st, op).event != Nothing || Step(c, cfg, st, op).kem
  }

  ghost predicate Charged(c: Suite, cfg: Config, st: Server, op: Op)
    requires TableOk(st.pending)
  {
    Step(c, cfg, st, op).gate != Unasked
  }

  ghost predicate GateIs(cfg: Config, st: Server, from: SocketAddr, now: Instant, r: Reply) {
    var a := RateLimit.Admit(st.limiter, cfg.rate, from, now);
    match r.gate
    case Unasked => r.server.limiter == st.limiter
    case Refused => !a.ok && r.server.limiter == a.limiter
    case Admitted => a.ok && r.server.limiter == a.limiter
  }

  lemma OnM1Gate(c: Suite, cfg: Config, st: Server, f: Fragment, from: SocketAddr, now: Instant, draw: Draw)
    requires TableOk(st.pending) && TableOk(EvictExpired(st.pending, cfg, now))
    ensures var r := OnM1(c, cfg, st, f, from, now, draw);
            && GateIs(cfg, st, from, now, r)
            && (r.event != Nothing || r.kem || (f.sid !in EvictExpired(st.pending, cfg, now) && f.sid in r.server.pending)
                ==> r.gate == Admitted)
  {
    hide RateLimit.Admit, EvictExpired, AddFragment, DecodeM1, Matching, ServerHelloOf, Datagrams, NewPending, Th1;
    var t := EvictExpired(st.pending, cfg, now);
    if f.sid in t && t[f.sid].phase == AwaitM1 { AddKeepsValid(t[f.sid].assembler.value, f); }
  }

  lemma OnM3Gate(c: Suite, cfg: Config, st: Server, f: Fragment, from: SocketAddr, now: Instant)
    requires TableOk(st.pending) && f.Valid() && f.hsType == ClientConfirm
    ensures var r := OnM3(c, cfg, st, f, from, now);
            && GateIs(cfg, st, from, now, r)
            && (r.event != Nothing || r.kem ==> r.gate == Admitted)
            && r.server.pending.Keys <= EvictExpired(st.pending, cfg, now).Keys
  {
    hide RateLimit.Admit, EvictExpired, MacMatches, Derived, DecodeM3, EntryOk;
    EvictKeepsOk(st.pending, cfg, now);
  }

  lemma StepGate(c: Suite, cfg: Config, st: Server, op: Op)
    requires TableOk(st.pending)
    ensures Works(c, cfg, st, op) ==> Step(c, cfg, st, op).gate == Admitted
    ensures op.Deliver? ==> GateIs(cfg, st, op.from, op.now, Step(c, cfg, st, op))
    ensures op.Swap? ==> !Charged(c, cfg, st, op) && Step(c, cfg, st, op).server.limiter == st.limiter
  {
    hide OnM1, OnM3, EvictExpired, RateLimit.Admit, FromDatagram;
    if About(op).Some? {
      var f := About(op).value;
      EvictKeepsOk(st.pending, cfg, op.now);
      if f.hsType == ClientHello {
        OnM1Gate(c, cfg, st, f, op.from, op.now, op.draw);
      } else {
        OnM3Gate(c, cfg, st, f, op.from, op.now);
      }
    }
  }

  /** The questions a run puts to the limiter. */
  ghost function Calls(c: Suite, cfg: Config, st: Server, ops: seq<Op>): seq<RateLimit.Call>
    requires Inv(st, cfg)
    decreases |ops|
  {
    if ops == [] then [] else
      StepKeepsInv(c, cfg, st, ops[0]);
      var rest := Calls(c, cfg, Step(c, cfg, st, ops[0]).server, ops[1..]);
      if ops[0].Deliver? && Charged(c, cfg, st, ops[0]) then [RateLimit.Call(ops[0].from, ops[0].now)] + rest else rest
  }

  /** How often source `s` makes the server do expensive work. */
  ghost function Worked(c: Suite, cfg: Config, st: Server, ops: seq<Op>, s: SocketAddr): nat
    requires Inv(st, cfg)
    decreases |ops|
  {
    if ops == [] then 0 else
      StepKeepsInv(c, cfg, st, ops[0]);
      Flag(ops[0].Deliver? && ops[0].from == s && Works(c, cfg, st, ops[0]))
      + Worked(c, cfg, Step(c, cfg, st, ops[0]).server, ops[1..], s)
  }

  lemma {:induction false} WorkIsAdmitted(c: Suite, cfg: Config, st: Server, ops: seq<Op>, s: SocketAddr)
    requires Inv(st, cfg)
    ensures Worked(c, cfg, st, ops, s) <= RateLimit.Granted(st.limiter, cfg.rate, Calls(c, cfg, st, ops), s)
    decreases |ops|
  {
    hide Step, Works, Inv, RateLimit.Admit;
    if ops != [] {
      var op := ops[0];
      StepKeepsInv(c, cfg, st, op);
      InvTable(st, cfg);
      StepGate(c, cfg, st, op);
      var st' := Step(c, cfg, st, op).server;
      WorkIsAdmitted(c, cfg, st', ops[1..], s);
      var rest := Calls(c, cfg, st', ops[1..]);
      if Charged(c, cfg, st, op) {
        assert ([RateLimit.Call(op.from, op.now)] + rest)[1..] == rest;
      }
    }
  }

  /** The deliveries of a run happen in order, from `start` and before `end`. */
  ghost predicate Timed(ops: seq<Op>, start: Instant, end: Instant)
    decreases |ops|
  {
    ops == []
    || (if ops[0].Deliver? then start <= ops[0].now < end && Timed(ops[1..], ops[0].now, end) else Timed(ops[1..], start, end))
  }

  lemma {:induction false} CallsInOrder(c: Suite, cfg: Config, st: Server, ops: seq<Op>, start: Instant, end: Instant)
    requires Inv(st, cfg) && Timed(ops, start, end)
    ensures var calls := Calls(c, cfg, st, ops);
            RateLimit.Ordered(calls, start) && forall i | 0 <= i < |calls| :: calls[i].now < end
    decreases |ops|
  {
    hide Step, Inv;
    if ops != [] {
      var op := ops[0];
      StepKeepsInv(c, cfg, st, op);
      InvTable(st, cfg);
      CallsInOrder(c, cfg, Step(c, cfg, st, op).server, ops[1..], if op.Deliver? then op.now else start, end);
    }
  }

  /**
   * In any half-open interval of one rate window, one source makes the server allocate,
   * answer, complete or run a KEM at most twice `burst` times, and `burst` times more for
   * each time a full bucket table costs it its bucket.
   */
  lemma WorkPerWindow(c: Suite, cfg: Config, st: Server, ops: seq<Op>, s: SocketAddr, start: Instant)
    requires Inv(st, cfg) && Timed(ops, start, start + cfg.rate.window)
    ensures var evictions := RateLimit.Evictions(st.limiter, cfg.rate, Calls(c, cfg, st, ops), s);
            && Worked(c, cfg, st, ops, s) <= (2 + evictions) * cfg.rate.burst
            && (evictions == 0 ==> Worked(c, cfg, st, ops, s) <= 2 * cfg.rate.burst)
  {
    hide Calls, Worked, Timed, TableOk, RateLimit.Granted, RateLimit.Evictions, RateLimit.Inv;
    CallsInOrder(c, cfg, st, ops, start, start + cfg.rate.window);
    WorkIsAdmitted(c, cfg, st, ops, s);
    RateLimit.TwiceBurstPerWindow(st.limiter, cfg.rate, Calls(c, cfg, st, ops), s, start);
  }
}
