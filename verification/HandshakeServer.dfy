/** The server side of the handshake: pending table, rate gate, roster and the M1/M3 paths. */
module HandshakeServer {
  import opened Bytes
  import opened Codec
  import opened Net
  import opened HandshakeFraming
  import opened HandshakeMessages
  import RateLimit
  import Sets

  datatype Phase = AwaitM1 | AwaitM3

  datatype Pending = Pending(
    source: SocketAddr,
    phase: Phase,
    assembler: Option<Assembler>,
    m1: Option<Message1>,
    m2: Option<Message2>,
    lastSeen: Instant,
    started: Instant,
    ssA: Secret,
    dh: Secret,
    kem: Option<KemSecret>,
    client: Option<VerifyKey>)

  datatype Config = Config(
    version: byte,
    identity: SignKey,
    maxRosterSize: nat,
    maxPending: nat,
    ttl: nat,
    rate: RateLimit.Policy)

  type Table = map<SessionId, Pending>

  datatype Server = Server(roster: seq<VerifyKey>, pending: Table, limiter: RateLimit.Limiter)

  /** The fresh randomness one datagram may consume. */
  datatype Draw = Draw(kem: KemSecret, dh: DhSecret, coins: Coins)

  datatype Event =
    | Emit(frags: seq<WirePacket>, to: SocketAddr)
    | Complete(outcome: Outcome, duration: nat)
    | Nothing

  /** What the rate limiter said, if it was asked. */
  datatype Gate = Unasked | Refused | Admitted

  /** The new state and event; `gate` and `kem` record the cost: the token and any KEM operation. */
  datatype Reply = Reply(server: Server, event: Event, gate: Gate, kem: bool)

  // ---------------------------------------------------------------------
  // The invariant no `expect` may violate
  // ---------------------------------------------------------------------

  /** What each phase must hold for the source's `expect` calls to succeed. */
  ghost predicate EntryOk(e: Pending) {
    match e.phase
    case AwaitM1 => e.assembler.Some? && e.assembler.value.Valid() && e.assembler.value.hsType == ClientHello
    case AwaitM3 => e.m1.Some? && e.m2.Some? && e.kem.Some? && e.client.Some?
  }

  ghost predicate TableOk(t: Table) {
    forall sid | sid in t :: EntryOk(t[sid])
  }

  ghost predicate Inv(st: Server, cfg: Config) {
    TableOk(st.pending) && |st.pending| <= cfg.maxPending && RateLimit.Inv(st.limiter, cfg.rate)
  }

  // ---------------------------------------------------------------------
  // What one datagram does
  // ---------------------------------------------------------------------

  predicate Expired(e: Pending, cfg: Config, now: Instant) { Since(now, e.lastSeen) >= cfg.ttl }

  function EvictExpired(t: Table, cfg: Config, now: Instant): Table {
    map sid | sid in t && !Expired(t[sid], cfg, now) :: t[sid]
  }

  /** The last roster key the signature verifies under; every key is tried. */
  function Matching(c: Suite, roster: seq<VerifyKey>, d: Digest, sig: Signature): Option<VerifyKey> {
    if roster == [] then None
    else if c.verify(roster[|roster| - 1], d, sig) then Some(roster[|roster| - 1])
    else Matching(c, roster[..|roster| - 1], d, sig)
  }

  function ServerHelloOf(c: Suite, cfg: Config, sid: SessionId, m1: Message1, ct: KemCiphertext, draw: Draw): Message2 {
    var unsigned := Hello2(cfg.version, sid, c.kemPublic(draw.kem), c.dhPublic(draw.dh), ct, Zeros(SIGNATURE_LEN));
    EncodeM2(unsigned.(sig := c.sign(cfg.identity, Th2(c, m1, EncodeM2(unsigned)))))
  }

  function Drop(st: Server, sid: SessionId): Server { st.(pending := st.pending - {sid}) }

  function CompleteM1(c: Suite, cfg: Config, st: Server, sid: SessionId, bytes: Message1,
                      from: SocketAddr, now: Instant, draw: Draw): Reply
    requires sid in st.pending
  {
    var m1 := DecodeM1(c, bytes);
    if m1.None? then Reply(Drop(st, sid), Nothing, Admitted, false)
    else if m1.value.version != cfg.version || m1.value.sid != sid then Reply(Drop(st, sid), Nothing, Admitted, false)
    else
      var client := Matching(c, st.roster, Th1(c, bytes), m1.value.sig);
      if client.None? then Reply(Drop(st, sid), Nothing, Admitted, false)
      else
        var shared := c.encapsulate(m1.value.kem, draw.coins);
        var dh := c.dh(draw.dh, m1.value.x);
        if dh.None? then Reply(Drop(st, sid), Nothing, Admitted, true)
        else
          var m2 := ServerHelloOf(c, cfg, sid, bytes, shared.ciphertext, draw);
          var e := Answering(st.pending[sid], bytes, m2, now, shared.secret, dh.value, draw.kem, client.value);
          Reply(st.(pending := st.pending[sid := e]), Emit(Datagrams(ServerHello, cfg.version, sid, m2), from), Admitted, true)
  }

  function Answering(e: Pending, m1: Message1, m2: Message2, now: Instant, ssA: Secret, dh: Secret,
                     kem: KemSecret, client: VerifyKey): Pending {
    e.(phase := AwaitM3, assembler := None, m1 := Some(m1), m2 := Some(m2), lastSeen := now,
       ssA := ssA, dh := dh, kem := Some(kem), client := Some(client))
  }

  function OnAwaitM1(c: Suite, cfg: Config, st: Server, f: Fragment, from: SocketAddr, now: Instant, draw: Draw): Reply
    requires f.sid in st.pending && EntryOk(st.pending[f.sid]) && st.pending[f.sid].phase == AwaitM1
  {
    var e := st.pending[f.sid];
    var a := AddFragment(e.assembler.value, f);
    AddKeepsValid(e.assembler.value, f);
    match a.result {
      case Ignored => Reply(st, Nothing, Unasked, false)
      case Advanced =>
        Reply(st.(pending := st.pending[f.sid := e.(assembler := Some(a.assembler), lastSeen := now)]), Nothing, Unasked, false)
      case Completed =>
        var r := RateLimit.Admit(st.limiter, cfg.rate, from, now);
        var st' := st.(limiter := r.limiter, pending := st.pending[f.sid := e.(assembler := Some(a.assembler))]);
        if !r.ok then Reply(st', Nothing, Refused, false)
        else CompleteM1(c, cfg, st', f.sid, a.assembler.buffer, from, now, draw)
    }
  }

  /** A repeated M1: fragment 0 alone buys one resend of the cached M2. */
  function OnRepeatedM1(cfg: Config, st: Server, f: Fragment, from: SocketAddr, now: Instant): Reply
    requires f.sid in st.pending && EntryOk(st.pending[f.sid]) && st.pending[f.sid].phase == AwaitM3
  {
    var e := st.pending[f.sid];
    if f.idx != 0 then Reply(st, Nothing, Unasked, false)
    else
      var r := RateLimit.Admit(st.limiter, cfg.rate, from, now);
      if !r.ok then Reply(st.(limiter := r.limiter), Nothing, Refused, false)
      else
        Reply(st.(limiter := r.limiter, pending := st.pending[f.sid := e.(lastSeen := now)]),
              Emit(Datagrams(ServerHello, cfg.version, f.sid, e.m2.value), e.source), Admitted, false)
  }

  function NewPending(f: Fragment, from: SocketAddr, now: Instant): Pending {
    Pending(from, AwaitM1, Some(AddFragment(NewAssembler(ClientHello), f).assembler), None, None, now, now,
            Zeros(32), Zeros(32), None, None)
  }

  function OnNewM1(cfg: Config, st: Server, f: Fragment, from: SocketAddr, now: Instant): Reply {
    if f.idx != 0 then Reply(st, Nothing, Unasked, false)
    else
      var r := RateLimit.Admit(st.limiter, cfg.rate, from, now);
      if !r.ok then Reply(st.(limiter := r.limiter), Nothing, Refused, false)
      else if |st.pending| >= cfg.maxPending then Reply(st.(limiter := r.limiter), Nothing, Admitted, false)
      else Reply(st.(limiter := r.limiter, pending := st.pending[f.sid := NewPending(f, from, now)]), Nothing, Admitted, false)
  }

  function Evicted(st: Server, cfg: Config, now: Instant): Server {
    st.(pending := EvictExpired(st.pending, cfg, now))
  }

  function OnM1(c: Suite, cfg: Config, st: Server, f: Fragment, from: SocketAddr, now: Instant, draw: Draw): Reply
    requires TableOk(st.pending)
  {
    var st' := Evicted(st, cfg, now);
    if f.sid !in st'.pending then OnNewM1(cfg, st', f, from, now)
    else if st'.pending[f.sid].source != from then Reply(st', Nothing, Unasked, false)
    else if st'.pending[f.sid].phase == AwaitM1 then OnAwaitM1(c, cfg, st', f, from, now, draw)
    else OnRepeatedM1(cfg, st', f, from, now)
  }

  /** The transcript and master secret the server derives from a pending entry and an M3. */
  function Transcript(c: Suite, e: Pending, m3: Message3): Digest
    requires e.m1.Some? && e.m2.Some?
  {
    Th3(c, e.m1.value, e.m2.value, m3)
  }

  function Derived(c: Suite, e: Pending, m3: Message3, sid: SessionId): Secret
    requires e.m1.Some? && e.m2.Some? && e.kem.Some?
  {
    MasterSecret(c, e.ssA, c.decapsulate(e.kem.value, m3[9..1097]), e.dh, m3[0], sid, Transcript(c, e, m3))
  }

  /** The Finished MAC of `m3` is the one its entry's secrets give. */
  predicate MacMatches(c: Suite, e: Pending, m3: Message3, sid: SessionId)
    requires e.m1.Some? && e.m2.Some? && e.kem.Some?
  {
    FinishedMac(c, Derived(c, e, m3, sid), m3[0], sid, Transcript(c, e, m3)) == m3[1097..]
  }

  function OnM3(c: Suite, cfg: Config, st: Server, f: Fragment, from: SocketAddr, now: Instant): Reply
    requires TableOk(st.pending) && f.Valid() && f.hsType == ClientConfirm
  {
    var st1 := Evicted(st, cfg, now);
    if f.sid !in st1.pending then Reply(st1, Nothing, Unasked, false)
    else
      var e := st1.pending[f.sid];
      if e.source != from || e.phase != AwaitM3 then Reply(st1, Nothing, Unasked, false)
      else
        var r := RateLimit.Admit(st1.limiter, cfg.rate, from, now);
        var st2 := st1.(limiter := r.limiter);
        if !r.ok then Reply(st2, Nothing, Refused, false) else FinishM3(c, cfg, st2, f, e, now)
  }

  function FinishM3(c: Suite, cfg: Config, st: Server, f: Fragment, e: Pending, now: Instant): Reply
    requires f.Valid() && f.hsType == ClientConfirm && EntryOk(e) && e.phase == AwaitM3
  {
    var m3 := DecodeM3(f.body);
    if m3.None? || m3.value.version != cfg.version || m3.value.sid != f.sid then Reply(st, Nothing, Admitted, false)
    else if !MacMatches(c, e, f.body, f.sid) then Reply(st, Nothing, Admitted, true)
    else if e.client.value !in st.roster then Reply(Drop(st, f.sid), Nothing, Admitted, true)
    else Reply(Drop(st, f.sid),
               Complete(Outcome(Derived(c, e, f.body, f.sid), f.sid, e.client.value), Since(now, e.started)), Admitted, true)
  }

  function HandleDatagram(c: Suite, cfg: Config, st: Server, pkt: WirePacket, from: SocketAddr, now: Instant, draw: Draw): Reply
    requires TableOk(st.pending)
  {
    var f := FromDatagram(pkt);
    if f.Err? then Reply(st, Nothing, Unasked, false)
    else if f.value.hsType == ClientHello then OnM1(c, cfg, st, f.value, from, now, draw)
    else if f.value.hsType == ClientConfirm then OnM3(c, cfg, st, f.value, from, now)
    else Reply(st, Nothing, Unasked, false)
  }

  /** `set_roster`: adopted whole or refused, never truncated. */
  function SetRoster(cfg: Config, st: Server, roster: seq<VerifyKey>): Server {
    if roster == [] || |roster| > cfg.maxRosterSize then st else st.(roster := roster)
  }

  // ---------------------------------------------------------------------
  // Every datagram keeps the invariant
  // ---------------------------------------------------------------------

  lemma EvictKeepsOk(t: Table, cfg: Config, now: Instant)
    requires TableOk(t)
    ensures TableOk(EvictExpired(t, cfg, now)) && |EvictExpired(t, cfg, now)| <= |t|
  {
    hide EntryOk;
    var t' := EvictExpired(t, cfg, now);
    assert t'.Keys <= t.Keys;
    Sets.SubsetSize(t'.Keys, t.Keys);
  }

  /** A table that differs from `t` at `sid` only gains at most one entry, and none where `sid` was known. */
  lemma PutSize(t: Table, sid: SessionId, t': Table)
    requires t'.Keys <= t.Keys + {sid}
    ensures |t'| <= if sid in t then |t| else |t| + 1
  {
    Sets.SubsetSize(t'.Keys, t.Keys + {sid});
    if sid in t { assert t.Keys + {sid} == t.Keys; }
  }

  lemma CompleteM1KeepsInv(c: Suite, cfg: Config, st: Server, sid: SessionId, bytes: Message1,
                           from: SocketAddr, now: Instant, draw: Draw)
    requires Inv(st, cfg) && sid in st.pending
    ensures Inv(CompleteM1(c, cfg, st, sid, bytes, from, now, draw).server, cfg)
  {
    hide DecodeM1, ServerHelloOf, Matching, Th1, RateLimit.Inv, Datagrams;
    PutSize(st.pending, sid, CompleteM1(c, cfg, st, sid, bytes, from, now, draw).server.pending);
  }

  lemma AwaitM1KeepsInv(c: Suite, cfg: Config, st: Server, f: Fragment, from: SocketAddr, now: Instant, draw: Draw)
    requires Inv(st, cfg) && f.sid in st.pending && st.pending[f.sid].phase == AwaitM1
    ensures Inv(OnAwaitM1(c, cfg, st, f, from, now, draw).server, cfg)
  {
    hide CompleteM1, RateLimit.Admit, RateLimit.Inv, AddFragment;
    RateLimit.AdmitKeepsInv(st.limiter, cfg.rate, from, now);
    var e := st.pending[f.sid];
    AddKeepsValid(e.assembler.value, f);
    var a := AddFragment(e.assembler.value, f).assembler;
    var e' := e.(assembler := Some(a));
    PutSize(st.pending, f.sid, st.pending[f.sid := e']);
    PutSize(st.pending, f.sid, st.pending[f.sid := e'.(lastSeen := now)]);
    var st' := Server(st.roster, st.pending[f.sid := e'], RateLimit.Admit(st.limiter, cfg.rate, from, now).limiter);
    CompleteM1KeepsInv(c, cfg, st', f.sid, a.buffer, from, now, draw);
  }

  lemma RepeatedM1KeepsInv(cfg: Config, st: Server, f: Fragment, from: SocketAddr, now: Instant)
    requires Inv(st, cfg) && f.sid in st.pending && st.pending[f.sid].phase == AwaitM3
    ensures Inv(OnRepeatedM1(cfg, st, f, from, now).server, cfg)
  {
    hide RateLimit.Admit, RateLimit.Inv, Datagrams;
    RateLimit.AdmitKeepsInv(st.limiter, cfg.rate, from, now);
    PutSize(st.pending, f.sid, OnRepeatedM1(cfg, st, f, from, now).server.pending);
  }

  lemma NewM1KeepsInv(cfg: Config, st: Server, f: Fragment, from: SocketAddr, now: Instant)
    requires Inv(st, cfg) && f.sid !in st.pending
    ensures Inv(OnNewM1(cfg, st, f, from, now).server, cfg)
  {
    hide RateLimit.Admit, RateLimit.Inv, AddFragment;
    RateLimit.AdmitKeepsInv(st.limiter, cfg.rate, from, now);
    NewHolds(ClientHello, Zeros(M1_BODY_LEN));
    AddKeepsValid(NewAssembler(ClientHello), f);
    PutSize(st.pending, f.sid, OnNewM1(cfg, st, f, from, now).server.pending);
  }

  lemma OnM1KeepsInv(c: Suite, cfg: Config, st: Server, f: Fragment, from: SocketAddr, now: Instant, draw: Draw)
    requires Inv(st, cfg)
    ensures Inv(OnM1(c, cfg, st, f, from, now, draw).server, cfg)
  {
    hide OnAwaitM1, OnRepeatedM1, OnNewM1, RateLimit.Inv, EvictExpired, EntryOk;
    EvictKeepsOk(st.pending, cfg, now);
    var st' := Evicted(st, cfg, now);
    if f.sid !in st'.pending {
      NewM1KeepsInv(cfg, st', f, from, now);
    } else if st'.pending[f.sid].phase == AwaitM1 {
      AwaitM1KeepsInv(c, cfg, st', f, from, now, draw);
    } else {
      RepeatedM1KeepsInv(cfg, st', f, from, now);
    }
  }

  lemma OnM3KeepsInv(c: Suite, cfg: Config, st: Server, f: Fragment, from: SocketAddr, now: Instant)
    requires Inv(st, cfg) && f.Valid() && f.hsType == ClientConfirm
    ensures Inv(OnM3(c, cfg, st, f, from, now).server, cfg)
  {
    hide RateLimit.Admit, RateLimit.Inv, DecodeM3, MacMatches, Derived, EvictExpired, EntryOk;
    EvictKeepsOk(st.pending, cfg, now);
    RateLimit.AdmitKeepsInv(st.limiter, cfg.rate, from, now);
    var t := EvictExpired(st.pending, cfg, now);
    PutSize(t, f.sid, t - {f.sid});
  }

  /** No datagram, from anyone, can make an `expect` fail or grow the table past its cap. */
  lemma HandleKeepsInv(c: Suite, cfg: Config, st: Server, pkt: WirePacket, from: SocketAddr, now: Instant, draw: Draw)
    requires Inv(st, cfg)
    ensures Inv(HandleDatagram(c, cfg, st, pkt, from, now, draw).server, cfg)
  {
    hide OnM1, OnM3, TableOk, RateLimit.Inv, FromDatagram;
    var f := FromDatagram(pkt);
    if f.Ok? && f.value.hsType == ClientHello {
      OnM1KeepsInv(c, cfg, st, f.value, from, now, draw);
    } else if f.Ok? && f.value.hsType == ClientConfirm {
      OnM3KeepsInv(c, cfg, st, f.value, from, now);
    }
  }

  // ---------------------------------------------------------------------
  // The machine as the source holds it
  // ---------------------------------------------------------------------

  class ServerHandshake {
    const suite: Suite
    const cfg: Config
    const limiter: RateLimit.RateLimiter
    var roster: seq<VerifyKey>
    var pending: Table

    ghost predicate Valid()
      reads this, limiter
    {
      limiter.policy == cfg.rate && Inv(View(), cfg)
    }

    ghost function View(): Server
      reads this, limiter
    {
      Server(roster, pending, limiter.View())
    }

    /** An over-limit roster is not truncated: the machine starts with none and admits nobody. */
    constructor (suite: Suite, cfg: Config, roster: seq<VerifyKey>, now: Instant)
      ensures Valid() && fresh(limiter) && this.suite == suite && this.cfg == cfg
      ensures View() == Server(if |roster| > cfg.maxRosterSize then [] else roster, map[], RateLimit.Limiter(map[], [], now))
    {
      this.suite := suite;
      this.cfg := cfg;
      this.roster := if |roster| > cfg.maxRosterSize then [] else roster;
      pending := map[];
      limiter := new RateLimit.RateLimiter(cfg.rate, now);
    }

    method SwapRoster(newRoster: seq<VerifyKey>) returns (ok: bool)
      requires Valid()
      modifies this`roster
      ensures Valid() && View() == SetRoster(cfg, old(View()), newRoster)
      ensures ok <==> 0 < |newRoster| <= cfg.maxRosterSize
    {
      if newRoster == [] || |newRoster| > cfg.maxRosterSize {
        return false;
      }
      roster := newRoster;
      return true;
    }

    method Handle(pkt: WirePacket, from: SocketAddr, now: Instant, draw: Draw)
      returns (event: Event, ghost gate: Gate, ghost kem: bool)
      requires Valid()
      modifies this`pending, limiter
      ensures Valid()
      ensures Reply(View(), event, gate, kem) == HandleDatagram(suite, cfg, old(View()), pkt, from, now, draw)
    {
      hide OnM1, OnM3, Inv;
      assert TableOk(pending) by { InvTable(View(), cfg); }
      HandleKeepsInv(suite, cfg, View(), pkt, from, now, draw);
      event, gate, kem := Nothing, Unasked, false;
      var f := FromDatagram(pkt);
      if pkt[9] == TypeCode(ClientHello) {
        if f.Ok? {
          event, gate, kem := FeedM1(f.value, from, now, draw);
        }
      } else if pkt[9] == TypeCode(ClientConfirm) {
        if f.Ok? {
          event, gate, kem := FeedM3(f.value, from, now);
        }
      }
    }

    method FeedM1(f: Fragment, from: SocketAddr, now: Instant, draw: Draw)
      returns (event: Event, ghost gate: Gate, ghost kem: bool)
      requires Valid()
      modifies this`pending, limiter
      ensures Reply(View(), event, gate, kem) == OnM1(suite, cfg, old(View()), f, from, now, draw)
    {
      hide RateLimit.Inv, RateLimit.Admit, CompleteM1, AddFragment, EvictExpired, EntryOk;
      EvictKeepsOk(pending, cfg, now);
      pending := EvictExpired(pending, cfg, now);
      event, gate, kem := Nothing, Unasked, false;
      if f.sid !in pending {
        gate := AllocateFor(f, from, now);
      } else if pending[f.sid].source == from {
        if pending[f.sid].phase == AwaitM1 {
          event, gate, kem := AdvanceM1(f, from, now, draw);
        } else {
          event, gate := ResendM2(f, from, now);
        }
      }
    }

    method AllocateFor(f: Fragment, from: SocketAddr, now: Instant) returns (ghost gate: Gate)
      requires Valid() && f.sid !in pending
      modifies this`pending, limiter
      ensures Reply(View(), Nothing, gate, false) == OnNewM1(cfg, old(View()), f, from, now)
    {
      hide RateLimit.Inv, RateLimit.Admit, AddFragment;
      if f.idx != 0 {
        return Unasked;
      }
      var ok := limiter.RateOk(from, now);
      if !ok {
        return Refused;
      }
      if |pending| < cfg.maxPending {
        pending := pending[f.sid := NewPending(f, from, now)];
      }
      return Admitted;
    }

    method AdvanceM1(f: Fragment, from: SocketAddr, now: Instant, draw: Draw)
      returns (event: Event, ghost gate: Gate, ghost kem: bool)
      requires Valid() && f.sid in pending && EntryOk(pending[f.sid]) && pending[f.sid].phase == AwaitM1
      modifies this`pending, limiter
      ensures Reply(View(), event, gate, kem) == OnAwaitM1(suite, cfg, old(View()), f, from, now, draw)
    {
      hide RateLimit.Inv, RateLimit.Admit, CompleteM1, AddFragment;
      var e := pending[f.sid];
      var a := AddFragment(e.assembler.value, f);
      AddKeepsValid(e.assembler.value, f);
      event, gate, kem := Nothing, Unasked, false;
      match a.result {
        case Ignored =>
        case Advanced =>
          pending := pending[f.sid := e.(assembler := Some(a.assembler), lastSeen := now)];
        case Completed =>
          pending := pending[f.sid := e.(assembler := Some(a.assembler))];
          var ok := limiter.RateOk(from, now);
          gate := Refused;
          if ok {
            gate := Admitted;
            event, kem := AnswerM1(f.sid, a.assembler.buffer, from, now, draw);
          }
      }
    }

    method ResendM2(f: Fragment, from: SocketAddr, now: Instant) returns (event: Event, ghost gate: Gate)
      requires Valid() && f.sid in pending && EntryOk(pending[f.sid]) && pending[f.sid].phase == AwaitM3
      modifies this`pending, limiter
      ensures Reply(View(), event, gate, false) == OnRepeatedM1(cfg, old(View()), f, from, now)
    {
      hide RateLimit.Inv, RateLimit.Admit, Datagrams;
      var e := pending[f.sid];
      if f.idx != 0 {
        return Nothing, Unasked;
      }
      var ok := limiter.RateOk(from, now);
      if !ok {
        return Nothing, Refused;
      }
      pending := pending[f.sid := e.(lastSeen := now)];
      return Emit(Datagrams(ServerHello, cfg.version, f.sid, e.m2.value), e.source), Admitted;
    }

    /** Every roster key is tried; the last that verifies is kept. */
    method FindClient(d: Digest, sig: Signature) returns (client: Option<VerifyKey>)
      ensures client == Matching(suite, roster, d, sig)
    {
      client := None;
      for i := 0 to |roster|
        invariant client == Matching(suite, roster[..i], d, sig)
      {
        assert roster[..i + 1][..i] == roster[..i];
        if suite.verify(roster[i], d, sig) {
          client := Some(roster[i]);
        }
      }
      assert roster[..|roster|] == roster;
    }

    method AnswerM1(sid: SessionId, bytes: Message1, from: SocketAddr, now: Instant, draw: Draw)
      returns (event: Event, ghost kem: bool)
      requires sid in pending
      modifies this`pending
      ensures Reply(View(), event, Admitted, kem) == CompleteM1(suite, cfg, old(View()), sid, bytes, from, now, draw)
    {
      hide DecodeM1, Th1, Matching, ServerHelloOf, Datagrams;
      event, kem := Nothing, false;
      var m1 := DecodeM1(suite, bytes);
      if m1.None? || m1.value.version != cfg.version || m1.value.sid != sid {
        pending := pending - {sid};
        return;
      }
      var client := FindClient(Th1(suite, bytes), m1.value.sig);
      if client.None? {
        pending := pending - {sid};
        return;
      }
      kem := true;
      var shared := suite.encapsulate(m1.value.kem, draw.coins);
      var dh := suite.dh(draw.dh, m1.value.x);
      if dh.None? {
        pending := pending - {sid};
        return;
      }
      var m2 := ServerHelloOf(suite, cfg, sid, bytes, shared.ciphertext, draw);
      pending := pending[sid := Answering(pending[sid], bytes, m2, now, shared.secret, dh.value, draw.kem, client.value)];
      event := Emit(Datagrams(ServerHello, cfg.version, sid, m2), from);
    }

    method FeedM3(f: Fragment, from: SocketAddr, now: Instant)
      returns (event: Event, ghost gate: Gate, ghost kem: bool)
      requires Valid() && f.Valid() && f.hsType == ClientConfirm
      modifies this`pending, limiter
      ensures Reply(View(), event, gate, kem) == OnM3(suite, cfg, old(View()), f, from, now)
    {
      hide RateLimit.Inv, RateLimit.Admit, EvictExpired, DecodeM3, Derived, MacMatches;
      EvictKeepsOk(pending, cfg, now);
      pending := EvictExpired(pending, cfg, now);
      event, gate, kem := Nothing, Unasked, false;
      if f.sid !in pending {
        return;
      }
      var e := pending[f.sid];
      if e.source != from || e.phase != AwaitM3 {
        return;
      }
      var ok := limiter.RateOk(from, now);
      gate := if ok then Admitted else Refused;
      var m3 := DecodeM3(f.body);
      if !ok || m3.None? || m3.value.version != cfg.version || m3.value.sid != f.sid {
        return;
      }
      kem := true;
      if !MacMatches(suite, e, f.body, f.sid) {
        return;
      }
      pending := pending - {f.sid};
      if e.client.value in roster {
        event := Complete(Outcome(Derived(suite, e, f.body, f.sid), f.sid, e.client.value), Since(now, e.started));
      }
    }
  }

  lemma InvTable(st: Server, cfg: Config)
    requires Inv(st, cfg)
    ensures TableOk(st.pending)
  {}
}
