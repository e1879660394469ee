/** The client side of the handshake: one M1, one M3, and bounded byte-identical retransmission. */
module HandshakeClient {
  import opened Bytes
  import opened Codec
  import opened HandshakeFraming
  import opened HandshakeMessages
  import Words

  /** The longest duration, in nanoseconds. */
  const DURATION_MAX: nat := U64_MAX * 1_000_000_000 + 999_999_999

  datatype Config = Config(
    version: byte,
    identity: SignKey,
    server: VerifyKey,
    base: nat,
    m1Max: nat,
    m3Max: nat)

  datatype State =
    | AwaitM2(assembler: Assembler, attempts: nat, nextDelay: nat)
    | M3Sent(frags: seq<WirePacket>, attempts: nat, nextDelay: nat, outcome: Outcome)

  datatype Client = Client(sid: SessionId, kem: KemSecret, dh: DhSecret, hello: Hello1, m1Frags: seq<WirePacket>, state: State)

  datatype Event =
    | Emit(packets: seq<WirePacket>)
    | Confirm3(packets: seq<WirePacket>, outcome: Outcome)
    | Timeout
    | Nothing

  datatype Stepped = Stepped(state: State, event: Event)

  ghost predicate Valid(cl: Client) {
    cl.state.AwaitM2? ==> cl.state.assembler.Valid() && cl.state.assembler.hsType == ServerHello
  }

  // ---------------------------------------------------------------------
  // Delays
  // ---------------------------------------------------------------------

  /** The factor is drawn from 80..119 percent; a result past 64 bits is clamped. */
  function Jittered(base: nat, r: nat): nat {
    Min(base * (80 + r % 40) / 100, U64_MAX)
  }

  function Backoff(base: nat, attempt: nat, r: nat): nat {
    Jittered(Min(base * Words.Pow2(Min(attempt, 5)), DURATION_MAX), r)
  }

  lemma JitterBound(base: nat, r: nat)
    ensures 100 * Jittered(base, r) <= 119 * base
    ensures Jittered(base, r) == U64_MAX || 80 * base < 100 * Jittered(base, r) + 100
  {
    assert base * 80 <= base * (80 + r % 40) <= base * 119;
  }

  /** Every percentage of the range is drawn. */
  lemma JitterIsDrawn(base: nat, percent: nat)
    requires 80 <= percent <= 119
    ensures exists r :: Jittered(base, r) == Min(base * percent / 100, U64_MAX)
  {
    assert Jittered(base, percent - 80) == Min(base * percent / 100, U64_MAX);
  }

  /** A backoff lies between 80 and 119 percent of the doubled base, unless it is the longest delay there is. */
  lemma BackoffBound(base: nat, attempt: nat, r: nat)
    ensures var doubled := base * Words.Pow2(Min(attempt, 5));
            && 100 * Backoff(base, attempt, r) <= 119 * doubled
            && (Backoff(base, attempt, r) == U64_MAX || 80 * doubled < 100 * Backoff(base, attempt, r) + 100)
  {
    hide Jittered;
    var doubled := base * Words.Pow2(Min(attempt, 5));
    JitterBound(Min(doubled, DURATION_MAX), r);
    if doubled > DURATION_MAX { LongestJitter(r); }
  }

  lemma LongestJitter(r: nat)
    ensures Jittered(DURATION_MAX, r) == U64_MAX
  {
    assert DURATION_MAX * 80 <= DURATION_MAX * (80 + r % 40);
  }

  // ---------------------------------------------------------------------
  // The machine
  // ---------------------------------------------------------------------

  /** The M1 a client with these ephemeral keys signs and sends. */
  function HelloOf(c: Suite, cfg: Config, sid: SessionId, kem: KemSecret, dh: DhSecret): Hello1 {
    var unsigned := Hello1(cfg.version, sid, c.kemPublic(kem), c.dhPublic(dh), Zeros(SIGNATURE_LEN));
    unsigned.(sig := c.sign(cfg.identity, Th1(c, EncodeM1(unsigned))))
  }

  function NewClient(c: Suite, cfg: Config, sid: SessionId, kem: KemSecret, dh: DhSecret, r: nat): Option<Client> {
    if cfg.version != PROTOCOL_VERSION then None else
      var hello := HelloOf(c, cfg, sid, kem, dh);
      Some(Client(sid, kem, dh, hello, Datagrams(ClientHello, cfg.version, sid, EncodeM1(hello)),
                  AwaitM2(NewAssembler(ServerHello), 0, Jittered(cfg.base, r))))
  }

  /** The M3 that answers an accepted M2, and the secret both ends then hold. */
  datatype Answer = Answer(m3: Message3, master: Secret)

  function AnswerTo(c: Suite, cfg: Config, cl: Client, m2: Message2, coins: Coins): Option<Answer> {
    var hello := DecodeM2(c, m2);
    if hello.None? || hello.value.sid != cl.sid || hello.value.version != cfg.version then None
    else if !c.verify(cfg.server, Th2(c, EncodeM1(cl.hello), m2), hello.value.sig) then None
    else
      var shared := c.encapsulate(hello.value.kem, coins);
      var dh := c.dh(cl.dh, hello.value.x);
      if dh.None? then None else Some(Finish(c, cfg, cl, m2, hello.value.ct, shared, dh.value))
  }

  function Finish(c: Suite, cfg: Config, cl: Client, m2: Message2, ct: KemCiphertext, shared: Encapsulated, dh: Secret): Answer {
    var unsigned := Confirm(cfg.version, cl.sid, shared.ciphertext, Zeros(FINISHED_MAC_LEN));
    var th3 := Th3(c, EncodeM1(cl.hello), m2, EncodeM3(unsigned));
    var master := MasterSecret(c, c.decapsulate(cl.kem, ct), shared.secret, dh, cfg.version, cl.sid, th3);
    Answer(EncodeM3(unsigned.(mac := FinishedMac(c, master, cfg.version, cl.sid, th3))), master)
  }

  function OnCompleteM2(c: Suite, cfg: Config, cl: Client, m2: Message2, coins: Coins, r: nat): Stepped
    requires cl.state.AwaitM2?
  {
    var a := AnswerTo(c, cfg, cl, m2, coins);
    if a.None? then Stepped(cl.state.(assembler := NewAssembler(ServerHello)), Nothing)
    else
      var frags := Datagrams(ClientConfirm, cfg.version, cl.sid, a.value.m3);
      var outcome := Outcome(a.value.master, cl.sid, cfg.server);
      Stepped(M3Sent(frags, 0, Jittered(cfg.base, r), outcome), Confirm3(frags, outcome))
  }

  function OnDatagram(c: Suite, cfg: Config, cl: Client, pkt: WirePacket, coins: Coins, r: nat): Stepped
    requires Valid(cl)
  {
    var f := FromDatagram(pkt);
    if pkt[9] != TypeCode(ServerHello) || f.Err? || f.value.sid != cl.sid || cl.state.M3Sent? then Stepped(cl.state, Nothing)
    else
      var a := AddFragment(cl.state.assembler, f.value);
      AddKeepsValid(cl.state.assembler, f.value);
      var state' := cl.state.(assembler := a.assembler);
      if a.result != Completed then Stepped(state', Nothing)
      else OnCompleteM2(c, cfg, cl.(state := state'), a.assembler.buffer, coins, r)
  }

  function OnTimer(cfg: Config, cl: Client, r: nat): Stepped {
    var n := cl.state.attempts + 1;
    match cl.state
    case AwaitM2(assembler, attempts, _) =>
      if attempts >= cfg.m1Max then Stepped(cl.state, Timeout)
      else Stepped(AwaitM2(assembler, n, Backoff(cfg.base, n, r)), Emit(cl.m1Frags))
    case M3Sent(frags, attempts, _, outcome) =>
      if attempts >= cfg.m3Max then Stepped(cl.state, Timeout)
      else Stepped(M3Sent(frags, n, Backoff(cfg.base, n, r), outcome), Emit(frags))
  }

  /** The machine as the source holds it. */
  class ClientHandshake {
    const suite: Suite
    const cfg: Config
    const sid: SessionId
    const kem: KemSecret
    const dh: DhSecret
    const hello: Hello1
    const m1Frags: seq<WirePacket>
    var state: State

    ghost function View(): Client
      reads this
    {
      Client(sid, kem, dh, hello, m1Frags, state)
    }

    constructor (suite: Suite, cfg: Config, sid: SessionId, kem: KemSecret, dh: DhSecret, r: nat)
      requires cfg.version == PROTOCOL_VERSION
      ensures this.suite == suite && this.cfg == cfg && Valid(View())
      ensures Some(View()) == NewClient(suite, cfg, sid, kem, dh, r)
    {
      this.suite, this.cfg, this.sid, this.kem, this.dh := suite, cfg, sid, kem, dh;
      var signed := HelloOf(suite, cfg, sid, kem, dh);
      hello := signed;
      m1Frags := Datagrams(ClientHello, cfg.version, sid, EncodeM1(signed));
      state := AwaitM2(NewAssembler(ServerHello), 0, Jittered(cfg.base, r));
      NewHolds(ServerHello, Zeros(M2_BODY_LEN));
    }

    method HandleDatagram(pkt: WirePacket, coins: Coins, r: nat) returns (event: Event)
      requires Valid(View())
      modifies this`state
      ensures Stepped(state, event) == OnDatagram(suite, cfg, old(View()), pkt, coins, r)
      ensures Valid(View())
    {
      hide FromDatagram, AddFragment, OnCompleteM2;
      DatagramKeepsValid(suite, cfg, View(), pkt, coins, r);
      if pkt[9] != TypeCode(ServerHello) {
        return Nothing;
      }
      var f := FromDatagram(pkt);
      if f.Err? || f.value.sid != sid || state.M3Sent? {
        return Nothing;
      }
      var a := AddFragment(state.assembler, f.value);
      AddKeepsValid(state.assembler, f.value);
      state := state.(assembler := a.assembler);
      if a.result != Completed {
        return Nothing;
      }
      event := CompleteM2(a.assembler.buffer, coins, r);
    }

    method CompleteM2(m2: Message2, coins: Coins, r: nat) returns (event: Event)
      requires state.AwaitM2?
      modifies this`state
      ensures Stepped(state, event) == OnCompleteM2(suite, cfg, old(View()), m2, coins, r)
    {
      hide AnswerTo, Datagrams, NewAssembler;
      var a := AnswerTo(suite, cfg, Client(sid, kem, dh, hello, m1Frags, state), m2, coins);
      if a.None? {
        state := state.(assembler := NewAssembler(ServerHello));
        return Nothing;
      }
      var frags := Datagrams(ClientConfirm, cfg.version, sid, a.value.m3);
      var outcome := Outcome(a.value.master, sid, cfg.server);
      state := M3Sent(frags, 0, Jittered(cfg.base, r), outcome);
      return Confirm3(frags, outcome);
    }

    method Tick(r: nat) returns (event: Event)
      requires Valid(View())
      modifies this`state
      ensures Stepped(state, event) == OnTimer(cfg, old(View()), r) && Valid(View())
    {
      if state.AwaitM2? {
        if state.attempts >= cfg.m1Max {
          return Timeout;
        }
        var n := state.attempts + 1;
        state := AwaitM2(state.assembler, n, Backoff(cfg.base, n, r));
        return Emit(m1Frags);
      }
      if state.attempts >= cfg.m3Max {
        return Timeout;
      }
      var n := state.attempts + 1;
      state := M3Sent(state.frags, n, Backoff(cfg.base, n, r), state.outcome);
      return Emit(state.frags);
    }
  }

  /** `ClientHandshake::new`: an unsupported version is refused. */
  method Create(suite: Suite, cfg: Config, sid: SessionId, kem: KemSecret, dh: DhSecret, r: nat)
    returns (h: Option<ClientHandshake>)
    ensures h.Some? <==> cfg.version == PROTOCOL_VERSION
    ensures h.Some? ==> Valid(h.value.View()) && NewClient(suite, cfg, sid, kem, dh, r) == Some(h.value.View())
  {
    if cfg.version != PROTOCOL_VERSION {
      return None;
    }
    var machine := new ClientHandshake(suite, cfg, sid, kem, dh, r);
    return Some(machine);
  }

  lemma DatagramKeepsValid(c: Suite, cfg: Config, cl: Client, pkt: WirePacket, coins: Coins, r: nat)
    requires Valid(cl)
    ensures Valid(cl.(state := OnDatagram(c, cfg, cl, pkt, coins, r).state))
  {
    hide FromDatagram, AddFragment, AnswerTo, Datagrams;
    NewHolds(ServerHello, Zeros(M2_BODY_LEN));
    var f := FromDatagram(pkt);
    if f.Ok? && cl.state.AwaitM2? { AddKeepsValid(cl.state.assembler, f.value); }
  }

  // ---------------------------------------------------------------------
  // Runs
  // ---------------------------------------------------------------------

  datatype Op = Datagram(pkt: WirePacket, coins: Coins, r: nat) | Timer(r: nat)

  function Step(c: Suite, cfg: Config, cl: Client, op: Op): Stepped
    requires Valid(cl)
  {
    match op
    case Datagram(pkt, coins, r) => OnDatagram(c, cfg, cl, pkt, coins, r)
    case Timer(r) => OnTimer(cfg, cl, r)
  }

  function Next(c: Suite, cfg: Config, cl: Client, op: Op): (cl': Client)
    requires Valid(cl)
    ensures Valid(cl')
  {
    if op.Datagram? then DatagramKeepsValid(c, cfg, cl, op.pkt, op.coins, op.r);
      cl.(state := Step(c, cfg, cl, op).state)
    else cl.(state := Step(c, cfg, cl, op).state)
  }

  /** The events of a run, in order. */
  ghost function Events(c: Suite, cfg: Config, cl: Client, ops: seq<Op>): (es: seq<Event>)
    requires Valid(cl)
    ensures |es| == |ops|
    decreases |ops|
  {
    if ops == [] then [] else [Step(c, cfg, cl, ops[0]).event] + Events(c, cfg, Next(c, cfg, cl, ops[0]), ops[1..])
  }

  ghost function Emissions(es: seq<Event>): nat {
    if es == [] then 0 else (if es[0].Emit? then 1 else 0) + Emissions(es[1..])
  }

  ghost function Timeouts(es: seq<Event>): nat {
    if es == [] then 0 else (if es[0].Timeout? then 1 else 0) + Timeouts(es[1..])
  }

  ghost function Timers(ops: seq<Op>): nat {
    if ops == [] then 0 else (if ops[0].Timer? then 1 else 0) + Timers(ops[1..])
  }

  /** Retransmissions the client may still make. */
  ghost function Budget(cfg: Config, st: State): nat {
    match st
    case AwaitM2(_, n, _) => Max(cfg.m1Max - n, 0) + cfg.m3Max
    case M3Sent(_, n, _, _) => Max(cfg.m3Max - n, 0)
  }

  /** One step: what it may say, and what it costs. */
  lemma StepShape(c: Suite, cfg: Config, cl: Client, op: Op)
    requires Valid(cl)
    ensures var s, cl' := Step(c, cfg, cl, op), Next(c, cfg, cl, op);
            && cl'.m1Frags == cl.m1Frags
            && (op.Timer? <==> s.event.Emit? || s.event.Timeout?)
            && Budget(cfg, cl'.state) + (if s.event.Emit? then 1 else 0) <= Budget(cfg, cl.state)
            && (s.event.Timeout? ==> cl' == cl)
            && match cl.state
               case AwaitM2(_, _, _) =>
                 && (s.event.Emit? ==> s.event.packets == cl.m1Frags)
                 && if s.event.Confirm3? then cl'.state.M3Sent? && cl'.state.frags == s.event.packets else cl'.state.AwaitM2?
               case M3Sent(frags, _, _, outcome) =>
                 && !s.event.Confirm3? && (s.event.Emit? ==> s.event.packets == frags)
                 && cl'.state.M3Sent? && cl'.state.frags == frags && cl'.state.outcome == outcome
  {
    hide FromDatagram, AddFragment, AnswerTo, Datagrams, Backoff, Jittered, Valid;
  }

  /** Every retransmission repeats `packets`, and no M3 is announced. */
  ghost predicate Repeats(es: seq<Event>, packets: seq<WirePacket>) {
    forall i | 0 <= i < |es| :: !es[i].Confirm3? && (es[i].Emit? ==> es[i].packets == packets)
  }

  /** M1 repeated, then at most one M3, then that M3 repeated. */
  ghost predicate TwoPhases(es: seq<Event>, m1: seq<WirePacket>) {
    || Repeats(es, m1)
    || exists k | 0 <= k < |es| :: ConfirmsAt(es, m1, k)
  }

  ghost predicate ConfirmsAt(es: seq<Event>, m1: seq<WirePacket>, k: nat)
    requires k < |es|
  {
    es[k].Confirm3? && Repeats(es[..k], m1) && Repeats(es[k + 1..], es[k].packets)
  }

  lemma {:induction false} ConfirmedRepeats(c: Suite, cfg: Config, cl: Client, ops: seq<Op>)
    requires Valid(cl) && cl.state.M3Sent?
    ensures Repeats(Events(c, cfg, cl, ops), cl.state.frags)
    decreases |ops|
  {
    hide Step, Next, Valid;
    if ops != [] {
      StepShape(c, cfg, cl, ops[0]);
      ConfirmedRepeats(c, cfg, Next(c, cfg, cl, ops[0]), ops[1..]);
    }
  }

  /** In every run the client announces at most one M3, and every retransmission is byte-identical per phase. */
  lemma {:induction false} OneConfirmation(c: Suite, cfg: Config, cl: Client, ops: seq<Op>)
    requires Valid(cl) && cl.state.AwaitM2?
    ensures TwoPhases(Events(c, cfg, cl, ops), cl.m1Frags)
    decreases |ops|
  {
    hide Step, Next, Valid;
    if ops != [] {
      var cl' := Next(c, cfg, cl, ops[0]);
      StepShape(c, cfg, cl, ops[0]);
      var e, rest := Step(c, cfg, cl, ops[0]).event, Events(c, cfg, cl', ops[1..]);
      if e.Confirm3? {
        ConfirmedRepeats(c, cfg, cl', ops[1..]);
        var es := Events(c, cfg, cl, ops);
        assert es[0 + 1..] == rest;
        assert ConfirmsAt(es, cl.m1Frags, 0);
      } else {
        OneConfirmation(c, cfg, cl', ops[1..]);
        ShiftPhases(e, rest, cl.m1Frags);
      }
    }
  }

  lemma RepeatsMore(e: Event, rest: seq<Event>, m1: seq<WirePacket>)
    requires Repeats(rest, m1) && !e.Confirm3? && (e.Emit? ==> e.packets == m1)
    ensures Repeats([e] + rest, m1)
  {}

  lemma ShiftPhases(e: Event, rest: seq<Event>, m1: seq<WirePacket>)
    requires TwoPhases(rest, m1) && !e.Confirm3? && (e.Emit? ==> e.packets == m1)
    ensures TwoPhases([e] + rest, m1)
  {
    hide Repeats, ConfirmsAt;
    if Repeats(rest, m1) {
      RepeatsMore(e, rest, m1);
    } else {
      var k :| 0 <= k < |rest| && ConfirmsAt(rest, m1, k);
      ConfirmsLater(e, rest, m1, k);
    }
  }

  lemma ConfirmsLater(e: Event, rest: seq<Event>, m1: seq<WirePacket>, k: nat)
    requires k < |rest| && ConfirmsAt(rest, m1, k) && !e.Confirm3? && (e.Emit? ==> e.packets == m1)
    ensures ConfirmsAt([e] + rest, m1, k + 1)
  {
    hide Repeats;
    var es := [e] + rest;
    RepeatsMore(e, rest[..k], m1);
    assert es[..k + 1] == [e] + rest[..k];
    assert es[k + 2..] == rest[k + 1..];
  }

  /** Retransmissions stay within the budget, and every other timer tick is an explicit timeout. */
  lemma {:induction false} BoundedRetransmission(c: Suite, cfg: Config, cl: Client, ops: seq<Op>)
    requires Valid(cl)
    ensures var es := Events(c, cfg, cl, ops);
            Emissions(es) <= Budget(cfg, cl.state) <= cfg.m1Max + cfg.m3Max && Timers(ops) == Emissions(es) + Timeouts(es)
    decreases |ops|
  {
    hide Step, Next, Valid;
    if ops != [] {
      StepShape(c, cfg, cl, ops[0]);
      var cl' := Next(c, cfg, cl, ops[0]);
      BoundedRetransmission(c, cfg, cl', ops[1..]);
      var es := Events(c, cfg, cl, ops);
      assert es[1..] == Events(c, cfg, cl', ops[1..]);
    }
  }

  // ---------------------------------------------------------------------
  // Time spent in one phase
  // ---------------------------------------------------------------------

  /** Retransmissions before the phase of `cl` ends. */
  ghost function Retries(c: Suite, cfg: Config, cl: Client, ops: seq<Op>): nat
    requires Valid(cl)
    decreases |ops|
  {
    if ops == [] || Step(c, cfg, cl, ops[0]).event.Confirm3? then 0
    else (if Step(c, cfg, cl, ops[0]).event.Emit? then 1 else 0) + Retries(c, cfg, Next(c, cfg, cl, ops[0]), ops[1..])
  }

  /** The delays requested by those retransmissions. */
  ghost function Waits(c: Suite, cfg: Config, cl: Client, ops: seq<Op>): nat
    requires Valid(cl)
    decreases |ops|
  {
    if ops == [] || Step(c, cfg, cl, ops[0]).event.Confirm3? then 0
    else
      var cl' := Next(c, cfg, cl, ops[0]);
      (if Step(c, cfg, cl, ops[0]).event.Emit? then cl'.state.nextDelay else 0) + Waits(c, cfg, cl', ops[1..])
  }

  /** The sum of 2^min(i, 5) over `lo <= i < lo + n`. */
  ghost function Doublings(lo: nat, n: nat): nat
    decreases n
  {
    if n == 0 then 0 else Words.Pow2(Min(lo, 5)) + Doublings(lo + 1, n - 1)
  }

  lemma RetryDelay(c: Suite, cfg: Config, cl: Client, op: Op)
    requires Valid(cl)
    ensures var s, cl' := Step(c, cfg, cl, op), Next(c, cfg, cl, op);
            if s.event.Emit? then
              && cl'.state.attempts == cl.state.attempts + 1
              && 100 * cl'.state.nextDelay <= 119 * (cfg.base * Words.Pow2(Min(cl'.state.attempts, 5)))
            else s.event.Confirm3? || cl'.state.attempts == cl.state.attempts
  {
    hide FromDatagram, AddFragment, AnswerTo, Datagrams, Backoff, Jittered, Valid;
    BackoffBound(cfg.base, cl.state.attempts + 1, op.r);
  }

  lemma {:induction false} WaitsBound(c: Suite, cfg: Config, cl: Client, ops: seq<Op>)
    requires Valid(cl)
    ensures 100 * Waits(c, cfg, cl, ops) <= 119 * (cfg.base * Doublings(cl.state.attempts + 1, Retries(c, cfg, cl, ops)))
    decreases |ops|
  {
    hide Step, Next, Valid, Words.Pow2, Doublings;
    if ops != [] && !Step(c, cfg, cl, ops[0]).event.Confirm3? {
      var cl' := Next(c, cfg, cl, ops[0]);
      RetryDelay(c, cfg, cl, ops[0]);
      WaitsBound(c, cfg, cl', ops[1..]);
      if Step(c, cfg, cl, ops[0]).event.Emit? {
        WaitStep(cfg.base, cl'.state.attempts, Retries(c, cfg, cl', ops[1..]), cl'.state.nextDelay, Waits(c, cfg, cl', ops[1..]));
      }
    } else {
      NoWait(cfg.base, cl.state.attempts + 1);
    }
  }

  lemma WaitStep(base: nat, attempt: nat, retries: nat, wait: nat, waits: nat)
    requires 100 * wait <= 119 * (base * Words.Pow2(Min(attempt, 5)))
    requires 100 * waits <= 119 * (base * Doublings(attempt + 1, retries))
    ensures 100 * (wait + waits) <= 119 * (base * Doublings(attempt, 1 + retries))
  {
    hide Words.Pow2;
    Distributes(base, Words.Pow2(Min(attempt, 5)), Doublings(attempt + 1, retries));
  }

  lemma NoWait(base: nat, lo: nat)
    ensures base * Doublings(lo, 0) == 0
  {}

  lemma Distributes(base: nat, p: nat, d: nat)
    ensures base * (p + d) == base * p + base * d
  {}

  lemma OneMoreDoubling(base: nat, n: nat)
    ensures base * Doublings(0, n + 1) == base + base * Doublings(1, n)
  {
    assert Words.Pow2(0) == 1;
    var d := Doublings(1, n);
    assert base * (1 + d) == base + base * d;
  }

  /**
   * The first delay of a phase and those of its n retransmissions sum to at most
   * 119/100 of the base times the sum of 2^min(i, 5) over i = 0..n.
   */
  lemma PhaseDelay(c: Suite, cfg: Config, cl: Client, ops: seq<Op>, r: nat)
    requires Valid(cl) && cl.state.attempts == 0 && cl.state.nextDelay == Jittered(cfg.base, r)
    ensures 100 * (cl.state.nextDelay + Waits(c, cfg, cl, ops))
         <= 119 * (cfg.base * Doublings(0, Retries(c, cfg, cl, ops) + 1))
  {
    hide Step, Next, Valid, Jittered, Waits, Retries;
    JitterBound(cfg.base, r);
    WaitsBound(c, cfg, cl, ops);
    OneMoreDoubling(cfg.base, Retries(c, cfg, cl, ops));
  }

  /** Both phases start with no attempts and a freshly jittered base delay. */
  lemma PhasesStartFresh(c: Suite, cfg: Config, cl: Client, op: Op)
    requires Valid(cl) && Step(c, cfg, cl, op).event.Confirm3?
    ensures var st := Next(c, cfg, cl, op).state; st.attempts == 0 && st.nextDelay == Jittered(cfg.base, op.r)
  {
    hide FromDatagram, AddFragment, AnswerTo, Datagrams, Jittered, Valid, Backoff;
  }

  /** `m2` names this session and carries the pinned server's signature over both hellos. */
  ghost predicate AuthenticReply(c: Suite, cfg: Config, cl: Client, m2: Message2) {
    var hello := DecodeM2(c, m2);
    && hello.Some? && hello.value.sid == cl.sid && hello.value.version == cfg.version
    && c.verify(cfg.server, Th2(c, EncodeM1(cl.hello), m2), hello.value.sig)
  }

  /** An M3 is announced only for an assembled M2 the pinned server signed; anything else leaves the client waiting. */
  lemma ConfirmationIsAuthentic(c: Suite, cfg: Config, cl: Client, op: Op)
    requires Valid(cl) && cl.state.AwaitM2? && op.Datagram? && FromDatagram(op.pkt).Ok?
    requires FromDatagram(op.pkt).value.hsType == ServerHello && FromDatagram(op.pkt).value.sid == cl.sid
    ensures var s, a := Step(c, cfg, cl, op), AddFragment(cl.state.assembler, FromDatagram(op.pkt).value);
            && |a.assembler.buffer| == M2_BODY_LEN
            && (s.event.Confirm3? ==> a.result == Completed && AuthenticReply(c, cfg, cl, a.assembler.buffer))
            && (!s.event.Confirm3? ==> s.event == Nothing && s.state.AwaitM2? && s.state.attempts == cl.state.attempts)
            && (a.result == Completed && !AuthenticReply(c, cfg, cl, a.assembler.buffer)
                ==> s.state == cl.state.(assembler := NewAssembler(ServerHello)))
  {
    hide FromDatagram, AddFragment, Datagrams, DecodeM2, EncodeM1, Th2, Finish, NewAssembler;
    FragmentType(op.pkt);
    AddKeepsValid(cl.state.assembler, FromDatagram(op.pkt).value);
  }

  // ---------------------------------------------------------------------
  // Every budgeted retransmission is made
  // ---------------------------------------------------------------------

  /** Retransmissions left in the phase. */
  ghost function Left(cfg: Config, st: State): nat {
    Max((if st.AwaitM2? then cfg.m1Max else cfg.m3Max) - st.attempts, 0)
  }

  /** Timer ticks before the phase of `cl` ends. */
  ghost function Ticks(c: Suite, cfg: Config, cl: Client, ops: seq<Op>): nat
    requires Valid(cl)
    decreases |ops|
  {
    if ops == [] || Step(c, cfg, cl, ops[0]).event.Confirm3? then 0
    else (if ops[0].Timer? then 1 else 0) + Ticks(c, cfg, Next(c, cfg, cl, ops[0]), ops[1..])
  }

  /** A tick retransmits exactly while the phase has attempts left, and uses one up; a datagram within the phase uses none. */
  lemma TickExactly(c: Suite, cfg: Config, cl: Client, op: Op)
    requires Valid(cl)
    ensures var s, cl' := Step(c, cfg, cl, op), Next(c, cfg, cl, op);
            && (op.Timer? ==> s.event == if Left(cfg, cl.state) == 0 then Timeout
                                         else Emit(if cl.state.AwaitM2? then cl.m1Frags else cl.state.frags))
            && (!s.event.Confirm3? ==> Left(cfg, cl'.state) == Left(cfg, cl.state) - if s.event.Emit? then 1 else 0)
  {
    hide FromDatagram, AddFragment, AnswerTo, Datagrams, Backoff, Jittered, Valid;
  }

  /** In every run a phase makes as many retransmissions as it has ticks, until its budget is spent. */
  lemma {:induction false} RetriesExactly(c: Suite, cfg: Config, cl: Client, ops: seq<Op>)
    requires Valid(cl)
    ensures Retries(c, cfg, cl, ops) == Min(Ticks(c, cfg, cl, ops), Left(cfg, cl.state))
    decreases |ops|
  {
    hide Step, Next, Valid, Left;
    if ops != [] && !Step(c, cfg, cl, ops[0]).event.Confirm3? {
      TickExactly(c, cfg, cl, ops[0]);
      StepShape(c, cfg, cl, ops[0]);
      RetriesExactly(c, cfg, Next(c, cfg, cl, ops[0]), ops[1..]);
    }
  }

  // ---------------------------------------------------------------------
  // The answer is to the client's own hello
  // ---------------------------------------------------------------------

  /** The primitives of `c` with this hash, and a server whose only signature is the one on `m2` for the hello `m1`. */
  ghost function SignedOnce(c: Suite, h: seq<byte> -> Digest, m1: Message1, m2: Message2): Suite {
    var d := Th2(c.(hash := h), m1, m2);
    c.(hash := h, verify := (_, e, _) => e == d)
  }

  /** Whatever the hash, an M2 the server signed for another client's hello gets no answer: only one signed for this client's M1 does. */
  lemma AnswersOnlyOwnHello(c: Suite, cfg: Config, cl: Client, m1: Message1, m2: Message2, coins: Coins)
    requires forall h: seq<byte> -> Digest :: AnswerTo(SignedOnce(c, h, m1, m2), cfg, cl, m2, coins).Some?
    ensures m1 == EncodeM1(cl.hello)
  {
    hide Finish, DecodeM2, EncodeM1, Th2;
    forall h: seq<byte> -> Digest ensures Th2(c.(hash := h), EncodeM1(cl.hello), m2) == Th2(c.(hash := h), m1, m2) {
      var s := SignedOnce(c, h, m1, m2);
      assert AnswerTo(s, cfg, cl, m2, coins).Some?;
      Th2OnlyHashes(s, c.(hash := h), EncodeM1(cl.hello), m2);
    }
    Th2Binds(c, EncodeM1(cl.hello), m2, m1, m2);
  }

  lemma Th2OnlyHashes(c: Suite, d: Suite, m1: Message1, m2: Message2)
    requires c.hash == d.hash
    ensures Th2(c, m1, m2) == Th2(d, m1, m2)
  {}
}
