/**
 * The encrypted channel: a `CipherSession` at each end, an ideal AEAD, and a
 * network that may drop, reorder, duplicate, reflect and inject packets.
 */
module Channel {
  import opened Bytes
  import opened Codec
  import opened Replay

  // ---------------------------------------------------------------------
  // Keys, nonces and the ideal AEAD
  // ---------------------------------------------------------------------

  type Master = seq<byte>
  type Prefix = p: seq<byte> | |p| == 4 witness [0, 0, 0, 0]

  datatype Role = Client | Server {
    function Peer(): Role { if this == Client then Server else Client }

    function SendDirection(): Direction { if this == Client then ClientToServer else ServerToClient }

    function RecvDirection(): Direction { if this == Client then ServerToClient else ClientToServer }
  }

  /** A derived traffic key: the term `HKDF(master, sid, direction label)`. */
  datatype Key = Key(master: Master, sid: SessionId, direction: Direction)

  /** The derivation of the nonce prefixes: any function of the same inputs. */
  type PrefixKdf = (Master, SessionId, Direction) -> Prefix

  function Nonce(prefix: Prefix, counter: u64): seq<byte> {
    prefix + BigEndian(counter, 8)
  }

  /** A nonce says which prefix and which counter it is made of. */
  lemma NonceBinds(p: Prefix, q: Prefix, i: u64, j: u64)
    ensures |Nonce(p, i)| == 12
    ensures Nonce(p, i) == Nonce(q, j) ==> p == q && i == j
  {
    if Nonce(p, i) == Nonce(q, j) {
      assert p == Nonce(p, i)[..4] == Nonce(q, j)[..4] == q;
      assert BigEndian(i, 8) == Nonce(p, i)[4..] == Nonce(q, j)[4..] == BigEndian(j, 8);
      Widths();
      BigEndianInjective(i, j, 8);
    }
  }

  /** What the AEAD binds together, and the plaintexts it has sealed so far. */
  datatype Sealed = Sealed(key: Key, nonce: seq<byte>, aad: seq<byte>, region: seq<byte>)

  type Log = map<Sealed, seq<byte>>

  // ---------------------------------------------------------------------
  // One session
  // ---------------------------------------------------------------------

  datatype Session = Session(
    role: Role,
    sid: SessionId,
    keyC2s: Key,
    keyS2c: Key,
    prefixC2s: Prefix,
    prefixS2c: Prefix,
    sendCounter: u64,
    accepted: set<int>
  ) {
    function SendKey(): Key { if role == Client then keyC2s else keyS2c }

    function SendPrefix(): Prefix { if role == Client then prefixC2s else prefixS2c }

    function RecvKey(): Key { if role == Client then keyS2c else keyC2s }

    function RecvPrefix(): Prefix { if role == Client then prefixS2c else prefixC2s }
  }

  function NewSession(role: Role, master: Master, sid: SessionId, kdf: PrefixKdf): Session {
    Session(role, sid,
            Key(master, sid, ClientToServer), Key(master, sid, ServerToClient),
            kdf(master, sid, ClientToServer), kdf(master, sid, ServerToClient),
            0, {})
  }

  type Region = r: seq<byte> | |r| == PACKET_SIZE - HEADER_LEN witness Zeros(PACKET_SIZE - HEADER_LEN)

  /** What `encrypt` hands to the AEAD for the next packet, given the AEAD's output. */
  function NextSealed(s: Session, region: Region): Sealed {
    Sealed(s.SendKey(), Nonce(s.SendPrefix(), s.sendCounter),
           EncodeHeader(PacketHeader(PROTOCOL_VERSION, s.sid, s.sendCounter)), region)
  }

  datatype Encrypted = Encrypted(result: Result<WirePacket>, session: Session, log: Log)

  function Encrypt(s: Session, log: Log, t: MessageType, payload: seq<byte>, region: Region): Encrypted {
    if |payload| != PAYLOAD_LEN then Encrypted(Err(WrongLength), s, log)
    else if CounterExhausted(s.sendCounter) then Encrypted(Err(NonceExhausted), s, log)
    else
      var x := NextSealed(s, region);
      Encrypted(FromParts(x.aad, x.region), s.(sendCounter := s.sendCounter + 1),
                log[x := EncodeInner(InnerPlaintext(t, s.role.SendDirection(), payload))])
  }

  datatype Decrypted = Decrypted(result: Result<InnerPlaintext>, session: Session)

  function Decrypt(s: Session, log: Log, packet: WirePacket): Decrypted {
    var header := DecodeHeader(packet[..HEADER_LEN]);
    if header.Err? then Decrypted(Err(Rejected), s)
    else
      var counter := header.value.nonce;
      var x := Sealed(s.RecvKey(), Nonce(s.RecvPrefix(), counter), packet[..HEADER_LEN], packet[HEADER_LEN..]);
      if x !in log then Decrypted(Err(DecryptionFailed), s)
      else if CounterExhausted(counter) then Decrypted(Err(NonceExhausted), s)
      else if !Acceptable(s.accepted, counter) then Decrypted(Err(Rejected), s)
      else
        var s' := s.(accepted := s.accepted + {counter});
        var inner := DecodeInner(log[x]);
        if inner.Err? || inner.value.direction != s.role.RecvDirection() then Decrypted(Err(Rejected), s')
        else Decrypted(inner, s')
  }

  /** The cipher session as the source holds it, with the bit-level replay window. */
  class CipherSession {
    const role: Role
    const sid: SessionId
    const keyC2s: Key
    const keyS2c: Key
    const prefixC2s: Prefix
    const prefixS2c: Prefix
    var sendCounter: u64
    const replay: ReplayWindow

    ghost predicate Valid()
      reads this, replay, replay.bitmap
    {
      replay.Valid()
    }

    ghost function View(): Session
      reads this, replay
    {
      Session(role, sid, keyC2s, keyS2c, prefixC2s, prefixS2c, sendCounter, replay.accepted)
    }

    constructor (role: Role, master: Master, sid: SessionId, kdf: PrefixKdf)
      ensures Valid() && fresh(replay) && fresh(replay.bitmap)
      ensures View() == NewSession(role, master, sid, kdf)
    {
      this.role, this.sid := role, sid;
      keyC2s, keyS2c := Key(master, sid, ClientToServer), Key(master, sid, ServerToClient);
      prefixC2s, prefixS2c := kdf(master, sid, ClientToServer), kdf(master, sid, ServerToClient);
      sendCounter := 0;
      replay := new ReplayWindow();
    }

    /** `region` is the AEAD's output; `log'` is what it has sealed afterwards. */
    method EncryptPacket(log: Log, t: MessageType, payload: seq<byte>, region: Region)
      returns (r: Result<WirePacket>, log': Log)
      requires Valid()
      modifies this
      ensures Valid() && Encrypted(r, View(), log') == Encrypt(old(View()), log, t, payload, region)
    {
      log' := log;
      if |payload| != PAYLOAD_LEN {
        return Err(WrongLength), log;
      }
      if CounterExhausted(sendCounter) {
        return Err(NonceExhausted), log;
      }
      var inner := InnerPlaintext(t, role.SendDirection(), payload);
      var aad := EncodeHeader(PacketHeader(PROTOCOL_VERSION, sid, sendCounter));
      var nonce := Nonce(if role == Client then prefixC2s else prefixS2c, sendCounter);
      var key := if role == Client then keyC2s else keyS2c;
      log' := log[Sealed(key, nonce, aad, region) := EncodeInner(inner)];
      r := FromParts(aad, region);
      sendCounter := sendCounter + 1;
    }

    method DecryptPacket(log: Log, packet: WirePacket) returns (r: Result<InnerPlaintext>)
      requires Valid()
      modifies this, replay, replay.bitmap
      ensures Valid() && Decrypted(r, View()) == Decrypt(old(View()), log, packet)
    {
      var header := DecodeHeader(packet[..HEADER_LEN]);
      if header.Err? {
        return Err(Rejected);
      }
      var counter := header.value.nonce;
      var nonce := Nonce(if role == Client then prefixS2c else prefixC2s, counter);
      var key := if role == Client then keyS2c else keyC2s;
      var x := Sealed(key, nonce, packet[..HEADER_LEN], packet[HEADER_LEN..]);
      if x !in log {
        return Err(DecryptionFailed);
      }
      if CounterExhausted(counter) {
        return Err(NonceExhausted);
      }
      var isNew := replay.Accept(counter);
      if !isNew {
        return Err(Rejected);
      }
      var inner := DecodeInner(log[x]);
      if inner.Err? || inner.value.direction != role.RecvDirection() {
        return Err(Rejected);
      }
      r := inner;
    }
  }

  // ---------------------------------------------------------------------
  // Two sessions and a hostile network
  // ---------------------------------------------------------------------

  /** One successful `encrypt`, and one successful `decrypt`. */
  datatype Message = Message(msgType: MessageType, payload: seq<byte>, region: Region)
  datatype Receipt = Receipt(counter: nat, inner: InnerPlaintext)

  datatype End = End(session: Session, sent: seq<Message>, got: seq<Receipt>)

  datatype World = World(client: End, server: End, log: Log) {
    function At(r: Role): End { if r == Client then client else server }

    function Put(r: Role, e: End): World {
      if r == Client then this.(client := e) else this.(server := e)
    }
  }

  /** The network delivers whatever packet it likes, so `Deliver` carries any bytes. */
  datatype Event =
    | Send(role: Role, msgType: MessageType, payload: seq<byte>, region: Region)
    | Deliver(role: Role, packet: WirePacket)

  function Start(master: Master, sid: SessionId, kdf: PrefixKdf): World {
    World(End(NewSession(Client, master, sid, kdf), [], []),
          End(NewSession(Server, master, sid, kdf), [], []), map[])
  }

  function Step(w: World, e: Event): World {
    var end := w.At(e.role);
    match e
    case Send(r, t, payload, region) =>
      var x := Encrypt(end.session, w.log, t, payload, region);
      var sent := if x.result.Ok? then end.sent + [Message(t, payload, region)] else end.sent;
      w.Put(r, end.(session := x.session, sent := sent)).(log := x.log)
    case Deliver(r, packet) =>
      var x := Decrypt(end.session, w.log, packet);
      var got :=
        if x.result.Ok? && DecodeHeader(packet[..HEADER_LEN]).Ok?
        then end.got + [Receipt(DecodeHeader(packet[..HEADER_LEN]).value.nonce, x.result.value)]
        else end.got;
      w.Put(r, end.(session := x.session, got := got))
  }

  function Run(w: World, events: seq<Event>): World
    decreases |events|
  {
    if events == [] then w else Step(Run(w, events[..|events| - 1]), events[|events| - 1])
  }

  // ---------------------------------------------------------------------
  // What every reachable world satisfies
  // ---------------------------------------------------------------------

  /** The AEAD inputs of the messages sent from this end, in order. */
  ghost function SealedBy(e: End): (xs: seq<Sealed>)
    requires |e.sent| <= MAX_PACKET_NONCE
    ensures |xs| == |e.sent|
  {
    seq(|e.sent|, i requires 0 <= i < |e.sent| => NextSealed(e.session.(sendCounter := i), e.sent[i].region))
  }

  /** The AEAD input, the packet and the plaintext of the `i`-th message `r` sealed. */
  ghost function SealedAt(w: World, r: Role, i: nat): Sealed
    requires i < |w.At(r).sent| <= MAX_PACKET_NONCE
  {
    SealedBy(w.At(r))[i]
  }

  ghost function PacketAt(w: World, r: Role, i: nat): WirePacket
    requires i < |w.At(r).sent| <= MAX_PACKET_NONCE
  {
    SealedAt(w, r, i).aad + SealedAt(w, r, i).region
  }

  ghost function InnerAt(w: World, r: Role, i: nat): InnerPlaintext
    requires i < |w.At(r).sent|
  {
    InnerPlaintext(w.At(r).sent[i].msgType, r.SendDirection(), w.At(r).sent[i].payload)
  }

  /** Both ends derive one key schedule and play opposite roles. */
  ghost predicate Paired(w: World) {
    var c, s := w.client.session, w.server.session;
    && c.role == Client && s.role == Server && c.sid == s.sid
    && c.keyC2s == s.keyC2s && c.keyS2c == s.keyS2c
    && c.prefixC2s == s.prefixC2s && c.prefixS2c == s.prefixS2c
    && c.keyC2s.direction == ClientToServer && c.keyS2c.direction == ServerToClient
  }

  ghost function InnersOf(w: World, r: Role): (ps: seq<InnerPlaintext>)
    ensures |ps| == |w.At(r).sent|
  {
    seq(|w.At(r).sent|, i requires 0 <= i < |w.At(r).sent| => InnerAt(w, r, i))
  }

  /** Under `key` the AEAD has sealed `ps` as `xs`, and nothing else. */
  ghost predicate Logged(log: Log, key: Key, xs: seq<Sealed>, ps: seq<InnerPlaintext>)
    requires |xs| == |ps|
  {
    && (forall i | 0 <= i < |xs| :: xs[i] in log && log[xs[i]] == EncodeInner(ps[i]))
    && (forall x | x in log && x.key == key :: x in xs)
  }

  ghost predicate Sealing(w: World, r: Role) {
    && w.At(r).session.sendCounter == |w.At(r).sent| <= MAX_PACKET_NONCE
    && (forall i | 0 <= i < |w.At(r).sent| :: |w.At(r).sent[i].payload| == PAYLOAD_LEN)
    && Logged(w.log, w.At(r).session.SendKey(), SealedBy(w.At(r)), InnersOf(w, r))
  }

  /** Everything accepted is one of these messages, once each. */
  ghost predicate FaithfulTo(got: seq<Receipt>, accepted: set<int>, inners: seq<InnerPlaintext>) {
    && (forall j | 0 <= j < |got| :: got[j].counter < |inners| && got[j].inner == inners[got[j].counter])
    && (forall j, k | 0 <= j < k < |got| :: got[j].counter != got[k].counter)
    && (forall c | c in accepted :: exists j :: 0 <= j < |got| && got[j].counter == c)
    && (forall j | 0 <= j < |got| :: got[j].counter in accepted)
  }

  /** Everything `r` accepted is a message of its peer, once each. */
  ghost predicate Faithful(w: World, r: Role) {
    FaithfulTo(w.At(r).got, w.At(r).session.accepted, InnersOf(w, r.Peer()))
  }

  ghost predicate Inv(w: World) {
    Paired(w) && Sealing(w, Client) && Sealing(w, Server) && Faithful(w, Client) && Faithful(w, Server)
  }

  /** The AEAD opens nothing but the peer's own packets. */
  lemma Opened(w: World, r: Role, packet: WirePacket) returns (i: nat)
    requires Paired(w) && Sealing(w, r.Peer()) && DecodeHeader(packet[..HEADER_LEN]).Ok?
    requires OpenKey(w, r, packet) in w.log
    ensures i < |w.At(r.Peer()).sent|
    ensures packet == PacketAt(w, r.Peer(), i) && OpenKey(w, r, packet) == SealedAt(w, r.Peer(), i)
    ensures DecodeHeader(packet[..HEADER_LEN]).value.nonce == i
  {
    hide DecodeHeader, EncodeHeader, Nonce, EncodeInner;
    var x := OpenKey(w, r, packet);
    assert x.key == w.At(r.Peer()).session.SendKey();
    i :| 0 <= i < |w.At(r.Peer()).sent| && x == SealedBy(w.At(r.Peer()))[i];
    HeaderRoundTrip(PacketHeader(PROTOCOL_VERSION, w.At(r.Peer()).session.sid, i));
    assert packet == packet[..HEADER_LEN] + packet[HEADER_LEN..];
  }

  /** What `decrypt` asks the AEAD to open. */
  ghost function OpenKey(w: World, r: Role, packet: WirePacket): Sealed
    requires DecodeHeader(packet[..HEADER_LEN]).Ok?
  {
    var s := w.At(r).session;
    Sealed(s.RecvKey(), Nonce(s.RecvPrefix(), DecodeHeader(packet[..HEADER_LEN]).value.nonce),
           packet[..HEADER_LEN], packet[HEADER_LEN..])
  }

  lemma SendKeepsInv(w: World, e: Event)
    requires Inv(w) && e.Send?
    ensures Inv(Step(w, e))
  {
    hide Sealing, Faithful, EncodeHeader, EncodeInner, Nonce;
    var w', r := Step(w, e), e.role;
    assert w.At(r).session.sendCounter == |w.At(r).sent| by { SentCount(w, r); }
    if |e.payload| == PAYLOAD_LEN && !CounterExhausted(w.At(r).session.sendCounter) {
      SealingGrows(w, r, e.msgType, e.payload, e.region);
      PeerSealing(w, w', r.Peer(), NextSealed(w.At(r).session, e.region));
      FaithfulAfterSend(w, w', Client);
      FaithfulAfterSend(w, w', Server);
    } else {
      assert w' == w;
    }
  }

  lemma SentCount(w: World, r: Role)
    requires Sealing(w, r)
    ensures w.At(r).session.sendCounter == |w.At(r).sent|
  {}

  lemma SealingGrows(w: World, r: Role, t: MessageType, payload: seq<byte>, region: Region)
    requires Sealing(w, r) && |payload| == PAYLOAD_LEN && !CounterExhausted(w.At(r).session.sendCounter)
    requires w.At(r).session.role == r
    ensures Sealing(Step(w, Send(r, t, payload, region)), r)
  {
    var w', n := Step(w, Send(r, t, payload, region)), |w.At(r).sent|;
    var x := NextSealed(w.At(r).session, region);
    assert InnersOf(w', r) == InnersOf(w, r) + [InnerPlaintext(t, r.SendDirection(), payload)];
    SealedByGrows(w.At(r), w'.At(r));
    LoggedGrows(w.log, x, SealedBy(w.At(r)), InnersOf(w, r), InnerPlaintext(t, r.SendDirection(), payload));
  }

  lemma SealedByGrows(e: End, e': End)
    requires |e.sent| == e.session.sendCounter < MAX_PACKET_NONCE && |e'.sent| == |e.sent| + 1
    requires e.sent == e'.sent[..|e.sent|] && e'.session == e.session.(sendCounter := |e'.sent|)
    ensures SealedBy(e') == SealedBy(e) + [NextSealed(e.session, e'.sent[|e.sent|].region)]
    ensures NextSealed(e.session, e'.sent[|e.sent|].region) !in SealedBy(e)
  {
    forall i | 0 <= i < |e.sent| ensures SealedBy(e')[i] == SealedBy(e)[i] {}
    forall i | 0 <= i < |e.sent| ensures SealedBy(e)[i].aad != NextSealed(e.session, e'.sent[|e.sent|].region).aad {
      HeaderRoundTrip(PacketHeader(PROTOCOL_VERSION, e.session.sid, i));
      HeaderRoundTrip(PacketHeader(PROTOCOL_VERSION, e.session.sid, |e.sent|));
    }
  }

  lemma LoggedGrows(log: Log, x: Sealed, xs: seq<Sealed>, ps: seq<InnerPlaintext>, p: InnerPlaintext)
    requires |xs| == |ps| && Logged(log, x.key, xs, ps) && x !in xs
    ensures Logged(log[x := EncodeInner(p)], x.key, xs + [x], ps + [p])
  {}

  lemma FaithfulAfterSend(w: World, w': World, r: Role)
    requires Faithful(w, r) && w'.At(r).got == w.At(r).got
    requires w'.At(r).session.accepted == w.At(r).session.accepted
    requires w.At(r.Peer()).sent <= w'.At(r.Peer()).sent
    ensures Faithful(w', r)
  {
    hide FaithfulTo;
    var ps, ps' := InnersOf(w, r.Peer()), InnersOf(w', r.Peer());
    assert ps <= ps';
    FaithfulToMore(w.At(r).got, w.At(r).session.accepted, ps, ps');
  }

  lemma FaithfulToMore(got: seq<Receipt>, accepted: set<int>, ps: seq<InnerPlaintext>, ps': seq<InnerPlaintext>)
    requires FaithfulTo(got, accepted, ps) && ps <= ps'
    ensures FaithfulTo(got, accepted, ps')
  {}

  /** Sealing under the other direction's key leaves this direction's log alone. */
  lemma PeerSealing(w: World, w': World, r: Role, x: Sealed)
    requires Sealing(w, r) && w'.At(r) == w.At(r) && x.key != w.At(r).session.SendKey()
    requires x in w'.log && w'.log == w.log[x := w'.log[x]]
    ensures Sealing(w', r)
  {
    assert SealedBy(w'.At(r)) == SealedBy(w.At(r));
    assert InnersOf(w', r) == InnersOf(w, r);
  }

  lemma DeliverKeepsInv(w: World, e: Event)
    requires Inv(w) && e.Deliver?
    ensures Inv(Step(w, e))
  {
    hide Decrypt, Sealing, Faithful, DecodeHeader;
    var w', r := Step(w, e), e.role;
    var i := Delivered(w, r, e.packet);
    if i < 0 {
      assert w' == w;
    } else {
      SameSealing(w, w', Client);
      SameSealing(w, w', Server);
      FaithfulAfterSend(w, w', r.Peer());
      FaithfulAfterReceipt(w, w', r, i);
    }
  }

  /** A delivery either opens one acceptable packet of the peer's or changes nothing. */
  lemma Delivered(w: World, r: Role, packet: WirePacket) returns (i: int)
    requires Inv(w)
    ensures i < |w.At(r.Peer()).sent|
    ensures var s, d := w.At(r).session, Decrypt(w.At(r).session, w.log, packet);
            if i < 0 then d.result.Err? && d.session == s && d.result.error in {DecryptionFailed, Rejected}
            else
              && packet == PacketAt(w, r.Peer(), i)
              && DecodeHeader(packet[..HEADER_LEN]).Ok? && DecodeHeader(packet[..HEADER_LEN]).value.nonce == i
              && i !in s.accepted
              && d == Decrypted(Ok(InnerAt(w, r.Peer(), i)), s.(accepted := s.accepted + {i}))
  {
    if DecodeHeader(packet[..HEADER_LEN]).Ok? && OpenKey(w, r, packet) in w.log {
      i := Opened(w, r, packet);
      DecryptGenuine(w, r, i);
      if !Acceptable(w.At(r).session.accepted, i) { i := -1; }
    } else {
      i := -1;
    }
  }

  /** Delivering the peer's `i`-th packet: the replay window alone decides. */
  lemma DecryptGenuine(w: World, r: Role, i: nat)
    requires Inv(w) && i < |w.At(r.Peer()).sent|
    ensures var s, packet := w.At(r).session, PacketAt(w, r.Peer(), i);
            && DecodeHeader(packet[..HEADER_LEN]).Ok? && DecodeHeader(packet[..HEADER_LEN]).value.nonce == i
            && Decrypt(s, w.log, packet)
               == if Acceptable(s.accepted, i)
                  then Decrypted(Ok(InnerAt(w, r.Peer(), i)), s.(accepted := s.accepted + {i}))
                  else Decrypted(Err(Rejected), s)
  {
    hide DecodeHeader, EncodeHeader, DecodeInner, EncodeInner, Nonce, Acceptable, Faithful;
    var packet, x := PacketAt(w, r.Peer(), i), SealedAt(w, r.Peer(), i);
    assert packet[..HEADER_LEN] == x.aad && packet[HEADER_LEN..] == x.region;
    HeaderRoundTrip(PacketHeader(PROTOCOL_VERSION, w.At(r.Peer()).session.sid, i));
    InnerRoundTrip(InnerAt(w, r.Peer(), i));
    assert OpenKey(w, r, packet) == x;
  }

  lemma FaithfulAfterReceipt(w: World, w': World, r: Role, i: nat)
    requires Faithful(w, r) && i !in w.At(r).session.accepted && i < |w.At(r.Peer()).sent|
    requires w'.At(r).got == w.At(r).got + [Receipt(i, InnerAt(w, r.Peer(), i))]
    requires w'.At(r).session.accepted == w.At(r).session.accepted + {i}
    requires w'.At(r.Peer()).sent == w.At(r.Peer()).sent
    ensures Faithful(w', r)
  {
    hide FaithfulTo;
    assert InnersOf(w', r.Peer()) == InnersOf(w, r.Peer());
    FaithfulToReceipt(w.At(r).got, w.At(r).session.accepted, InnersOf(w, r.Peer()), i);
  }

  lemma FaithfulToReceipt(got: seq<Receipt>, accepted: set<int>, ps: seq<InnerPlaintext>, i: nat)
    requires FaithfulTo(got, accepted, ps) && i !in accepted && i < |ps|
    ensures FaithfulTo(got + [Receipt(i, ps[i])], accepted + {i}, ps)
  {
    var got' := got + [Receipt(i, ps[i])];
    forall c | c in accepted + {i} ensures exists j :: 0 <= j < |got'| && got'[j].counter == c {
      if c == i {
        assert got'[|got|].counter == c;
      } else {
        var j :| 0 <= j < |got| && got[j].counter == c;
        assert got'[j].counter == c;
      }
    }
  }

  lemma SameSealing(w: World, w': World, r: Role)
    requires Sealing(w, r) && w'.log == w.log && w'.At(r).sent == w.At(r).sent
    requires w'.At(r).session == w.At(r).session.(accepted := w'.At(r).session.accepted)
    ensures Sealing(w', r)
  {
    assert SealedBy(w'.At(r)) == SealedBy(w.At(r));
    assert InnersOf(w', r) == InnersOf(w, r);
  }

  lemma {:induction false} RunKeepsInv(master: Master, sid: SessionId, kdf: PrefixKdf, events: seq<Event>)
    ensures Inv(Run(Start(master, sid, kdf), events))
    decreases |events|
  {
    if events != [] {
      RunKeepsInv(master, sid, kdf, events[..|events| - 1]);
      var w, e := Run(Start(master, sid, kdf), events[..|events| - 1]), events[|events| - 1];
      if e.Send? { SendKeepsInv(w, e); } else { DeliverKeepsInv(w, e); }
    }
  }

  // ---------------------------------------------------------------------
  // The channel's promises, over every run
  // ---------------------------------------------------------------------

  /** Every received message is one the peer sent, whole; none is received twice. */
  lemma InjectiveDelivery(master: Master, sid: SessionId, kdf: PrefixKdf, events: seq<Event>, r: Role)
    ensures var w := Run(Start(master, sid, kdf), events);
            var got, sent := w.At(r).got, w.At(r.Peer()).sent;
            && (forall j | 0 <= j < |got| ::
                  && got[j].counter < |sent|
                  && got[j].inner == InnerPlaintext(sent[got[j].counter].msgType, r.RecvDirection(),
                                                    sent[got[j].counter].payload))
            && (forall j, k | 0 <= j < k < |got| :: got[j].counter != got[k].counter)
  {
    RunKeepsInv(master, sid, kdf, events);
  }

  /** No two packets sealed in one direction share a nonce. */
  lemma NoncesNeverRepeat(master: Master, sid: SessionId, kdf: PrefixKdf, events: seq<Event>, r: Role, i: nat, j: nat)
    requires i < j < |Run(Start(master, sid, kdf), events).At(r).sent|
    ensures var w := Run(Start(master, sid, kdf), events);
            |w.At(r).sent| <= MAX_PACKET_NONCE && SealedAt(w, r, i).nonce != SealedAt(w, r, j).nonce
  {
    RunKeepsInv(master, sid, kdf, events);
    var w := Run(Start(master, sid, kdf), events);
    var x, y := SealedAt(w, r, i).nonce, SealedAt(w, r, j).nonce;
    assert x[4..] == BigEndian(i, 8) && y[4..] == BigEndian(j, 8);
    Widths();
    if x == y { BigEndianInjective(i, j, 8); }
  }

  /**
   * A genuine packet is accepted exactly when it was not received before and is
   * at most `WINDOW_BITS` below everything received so far.
   */
  lemma GenuineDelivery(master: Master, sid: SessionId, kdf: PrefixKdf, events: seq<Event>, r: Role, i: nat)
    requires i < |Run(Start(master, sid, kdf), events).At(r.Peer()).sent|
    ensures var w := Run(Start(master, sid, kdf), events);
            var got := w.At(r).got;
            && |w.At(r.Peer()).sent| <= MAX_PACKET_NONCE
            && Decrypt(w.At(r).session, w.log, PacketAt(w, r.Peer(), i)).result
               == if (forall j | 0 <= j < |got| :: got[j].counter != i && got[j].counter <= i + WINDOW_BITS)
                  then Ok(InnerAt(w, r.Peer(), i)) else Err(Rejected)
  {
    RunKeepsInv(master, sid, kdf, events);
    var w := Run(Start(master, sid, kdf), events);
    DecryptGenuine(w, r, i);
    var got, accepted := w.At(r).got, w.At(r).session.accepted;
    if forall j | 0 <= j < |got| :: got[j].counter != i && got[j].counter <= i + WINDOW_BITS {
      assert Acceptable(accepted, i);
    } else {
      var j :| 0 <= j < |got| && !(got[j].counter != i && got[j].counter <= i + WINDOW_BITS);
      assert got[j].counter in accepted;
    }
  }

  /** Each direction has its own key and prefix, the same at both ends: what one end seals with, the other opens with. */
  lemma KeysByDirection(master: Master, sid: SessionId, kdf: PrefixKdf, r: Role)
    ensures var own, peer := NewSession(r, master, sid, kdf), NewSession(r.Peer(), master, sid, kdf);
            && own.SendKey() == peer.RecvKey() == Key(master, sid, r.SendDirection())
            && own.SendPrefix() == peer.RecvPrefix() == kdf(master, sid, r.SendDirection())
            && own.SendKey() != own.RecvKey()
  {}

  lemma RunGrows(w: World, events: seq<Event>, e: Event)
    ensures Run(w, events + [e]) == Step(Run(w, events), e)
  {
    assert (events + [e])[..|events|] == events;
  }

  /** A counter the peer has not seen is in its reach. */
  lemma FreshIsInReach(w: World, r: Role)
    requires Inv(w)
    ensures InReach(w.At(r.Peer()).got, |w.At(r).sent|)
  {
    hide Paired, Sealing;
  }

  /**
   * In every run `encrypt` refuses exactly a payload of the wrong length or, past that, a spent
   * counter, and then changes nothing. Otherwise the packet it returns is the one the delivery
   * theorems speak of: delivered at once it opens at the peer as the message that was sealed.
   */
  lemma EncryptYields(master: Master, sid: SessionId, kdf: PrefixKdf, events: seq<Event>, r: Role,
                      t: MessageType, payload: seq<byte>, region: Region)
    ensures var w := Run(Start(master, sid, kdf), events);
            var n, x, w' := |w.At(r).sent|, Encrypt(w.At(r).session, w.log, t, payload, region), Step(w, Send(r, t, payload, region));
            if |payload| != PAYLOAD_LEN then x.result == Err(WrongLength) && w' == w
            else if n >= 0xFFFF_FFFE_FFFF_FFFF then x.result == Err(NonceExhausted) && w' == w
            else
              && n < |w'.At(r).sent| <= MAX_PACKET_NONCE && x.result == Ok(PacketAt(w', r, n))
              && Decrypt(w'.At(r.Peer()).session, w'.log, x.result.value).result
                 == Ok(InnerPlaintext(t, r.SendDirection(), payload))
  {
    hide Decrypt, Logged, Faithful, EncodeHeader, DecodeHeader, Nonce, EncodeInner, DecodeInner;
    var e := Send(r, t, payload, region);
    var w := Run(Start(master, sid, kdf), events);
    RunKeepsInv(master, sid, kdf, events);
    if |payload| == PAYLOAD_LEN && |w.At(r).sent| < 0xFFFF_FFFE_FFFF_FFFF {
      RunKeepsInv(master, sid, kdf, events + [e]);
      RunGrows(Start(master, sid, kdf), events, e);
      EncryptIsPacket(w, r, t, payload, region);
      FreshIsInReach(w, r);
      GenuineDelivery(master, sid, kdf, events + [e], r.Peer(), |w.At(r).sent|);
    }
  }

  lemma EncryptIsPacket(w: World, r: Role, t: MessageType, payload: seq<byte>, region: Region)
    requires Inv(w) && |payload| == PAYLOAD_LEN && |w.At(r).sent| < MAX_PACKET_NONCE
    requires Inv(Step(w, Send(r, t, payload, region)))
    ensures var x, w', n := Encrypt(w.At(r).session, w.log, t, payload, region), Step(w, Send(r, t, payload, region)), |w.At(r).sent|;
            && |w'.At(r).sent| == n + 1 <= MAX_PACKET_NONCE && x.result == Ok(PacketAt(w', r, n))
            && InnerAt(w', r, n) == InnerPlaintext(t, r.SendDirection(), payload)
            && w'.At(r.Peer()).got == w.At(r.Peer()).got
  {
    hide Logged, Faithful, EncodeInner, Nonce;
    var w' := Step(w, Send(r, t, payload, region));
    SealedByGrows(w.At(r), w'.At(r));
  }

  /**
   * Bytes that are not a packet of the peer's are refused and leave no trace:
   * in particular any change to a genuine packet's header, ciphertext or tag.
   */
  lemma ForgeryRefused(master: Master, sid: SessionId, kdf: PrefixKdf, events: seq<Event>, r: Role, packet: WirePacket)
    requires var w := Run(Start(master, sid, kdf), events);
             |w.At(r.Peer()).sent| <= MAX_PACKET_NONCE
             ==> forall i | 0 <= i < |w.At(r.Peer()).sent| :: packet != PacketAt(w, r.Peer(), i)
    ensures var w := Run(Start(master, sid, kdf), events);
            && Decrypt(w.At(r).session, w.log, packet).result in {Err(DecryptionFailed), Err(Rejected)}
            && Step(w, Deliver(r, packet)) == w
  {
    hide Run, PacketAt, Decrypt, DecodeHeader, EncodeInner;
    RunKeepsInv(master, sid, kdf, events);
    var i := Delivered(Run(Start(master, sid, kdf), events), r, packet);
  }

  // ---------------------------------------------------------------------
  // Reflection
  // ---------------------------------------------------------------------

  /** The peer's packet under the same counter has the same ciphertext and tag. */
  ghost predicate Collides(w: World, r: Role, j: nat)
    requires j < |w.At(r).sent|
  {
    j < |w.At(r.Peer()).sent| && w.At(r.Peer()).sent[j].region == w.At(r).sent[j].region
  }

  /** Nothing received so far rules out counter `i`. */
  ghost predicate InReach(got: seq<Receipt>, i: nat) {
    forall j | 0 <= j < |got| :: got[j].counter != i && got[j].counter <= i + WINDOW_BITS
  }

  lemma PacketIs(w: World, r: Role, j: nat)
    requires Inv(w) && j < |w.At(r).sent|
    ensures |w.At(r).sent| <= MAX_PACKET_NONCE
    ensures PacketAt(w, r, j) == EncodeHeader(PacketHeader(PROTOCOL_VERSION, w.client.session.sid, j)) + w.At(r).sent[j].region
  {
    hide EncodeHeader, Faithful, Logged;
  }

  /** An end's own packet is byte for byte a packet of its peer's only by a collision of ciphertexts. */
  lemma OwnPacketIsPeers(w: World, r: Role, j: nat, i: nat)
    requires Inv(w) && j < |w.At(r).sent| && i < |w.At(r.Peer()).sent|
    ensures |w.At(r).sent| <= MAX_PACKET_NONCE && |w.At(r.Peer()).sent| <= MAX_PACKET_NONCE
    ensures PacketAt(w, r, j) == PacketAt(w, r.Peer(), i) <==> i == j && Collides(w, r, j)
  {
    hide EncodeHeader, DecodeHeader, Inv, PacketAt;
    PacketIs(w, r, j);
    PacketIs(w, r.Peer(), i);
    var sid, p, q := w.client.session.sid, PacketAt(w, r, j), PacketAt(w, r.Peer(), i);
    HeaderRoundTrip(PacketHeader(PROTOCOL_VERSION, sid, j));
    HeaderRoundTrip(PacketHeader(PROTOCOL_VERSION, sid, i));
    assert p[..HEADER_LEN] == EncodeHeader(PacketHeader(PROTOCOL_VERSION, sid, j)) && p[HEADER_LEN..] == w.At(r).sent[j].region;
    assert q[..HEADER_LEN] == EncodeHeader(PacketHeader(PROTOCOL_VERSION, sid, i)) && q[HEADER_LEN..] == w.At(r.Peer()).sent[i].region;
  }

  /**
   * An end accepts its own packet reflected back at it exactly when the peer's
   * packet under the same counter happens to carry the same ciphertext and tag and
   * is still acceptable; what it then receives is the peer's message.
   */
  lemma ReflectionOpens(master: Master, sid: SessionId, kdf: PrefixKdf, events: seq<Event>, r: Role, j: nat)
    requires j < |Run(Start(master, sid, kdf), events).At(r).sent|
    ensures var w := Run(Start(master, sid, kdf), events);
            && |w.At(r).sent| <= MAX_PACKET_NONCE
            && var d := Decrypt(w.At(r).session, w.log, PacketAt(w, r, j));
               && (d.result.Ok? <==> Collides(w, r, j) && InReach(w.At(r).got, j))
               && (d.result.Ok? ==> d.result.value == InnerAt(w, r.Peer(), j))
  {
    hide PacketAt, Decrypt, Step;
    var w := Run(Start(master, sid, kdf), events);
    RunKeepsInv(master, sid, kdf, events);
    PacketIs(w, r, j);
    if Collides(w, r, j) {
      OwnPacketIsPeers(w, r, j, j);
      GenuineDelivery(master, sid, kdf, events, r, j);
    } else {
      forall i | 0 <= i < |w.At(r.Peer()).sent| && |w.At(r.Peer()).sent| <= MAX_PACKET_NONCE
        ensures PacketAt(w, r, j) != PacketAt(w, r.Peer(), i)
      {
        OwnPacketIsPeers(w, r, j, i);
      }
      ForgeryRefused(master, sid, kdf, events, r, PacketAt(w, r, j));
    }
  }

  /**
   * So in a run whose two directions never produce the same ciphertext under the
   * same counter, every reflected packet is refused and leaves no trace.
   */
  lemma ReflectionRefused(master: Master, sid: SessionId, kdf: PrefixKdf, events: seq<Event>, r: Role, j: nat)
    requires j < |Run(Start(master, sid, kdf), events).At(r).sent| && !Collides(Run(Start(master, sid, kdf), events), r, j)
    ensures var w := Run(Start(master, sid, kdf), events);
            && |w.At(r).sent| <= MAX_PACKET_NONCE
            && Step(w, Deliver(r, PacketAt(w, r, j))) == w
            && Decrypt(w.At(r).session, w.log, PacketAt(w, r, j)).result.Err?
  {
    hide PacketAt, Decrypt, Step;
    var w := Run(Start(master, sid, kdf), events);
    RunKeepsInv(master, sid, kdf, events);
    PacketIs(w, r, j);
    forall i | 0 <= i < |w.At(r.Peer()).sent| && |w.At(r.Peer()).sent| <= MAX_PACKET_NONCE
      ensures PacketAt(w, r, j) != PacketAt(w, r.Peer(), i)
    {
      OwnPacketIsPeers(w, r, j, i);
    }
    ForgeryRefused(master, sid, kdf, events, r, PacketAt(w, r, j));
  }

  /** A collision is all it takes: with one and the same output of the AEAD in both directions the client opens its own packet. */
  lemma CollisionOpens(master: Master, sid: SessionId, kdf: PrefixKdf, t: MessageType, payload: seq<byte>, region: Region)
    requires |payload| == PAYLOAD_LEN
    ensures var w := Run(Start(master, sid, kdf), [Send(Client, t, payload, region), Send(Server, t, payload, region)]);
            && |w.client.sent| == 1
            && Decrypt(w.client.session, w.log, PacketAt(w, Client, 0)).result == Ok(InnerPlaintext(t, ServerToClient, payload))
  {
    hide Decrypt, PacketAt;
    var a, b := Send(Client, t, payload, region), Send(Server, t, payload, region);
    var w0 := Start(master, sid, kdf);
    var w1, w := Step(w0, a), Step(Step(w0, a), b);
    assert Run(w0, [a]) == w1 by { assert [a][..0] == []; }
    assert Run(w0, [a, b]) == w by { assert [a, b][..1] == [a]; }
    ReflectionOpens(master, sid, kdf, [a, b], Client, 0);
  }
}
