/** The parts together: a handshake hands its outcome to a channel, and a channel carries IP packets. */
module Tunnel {
  import opened Bytes
  import opened Codec
  import opened Net
  import opened Crc
  import opened Overlay
  import opened HandshakeFraming
  import opened HandshakeMessages
  import opened HandshakeRuns
  import opened HandshakeAgreement
  import Channel
  import Reassembly
  import Runs = ReassemblyRuns
  import HandshakeServer
  import Client = HandshakeClient

  // ---------------------------------------------------------------------
  // From the handshake to the channel
  // ---------------------------------------------------------------------

  /** The two sessions the ends open, each from its own outcome. */
  ghost function Opened(client: Outcome, server: Outcome, kdf: Channel.PrefixKdf): Channel.World {
    Channel.World(Channel.End(Channel.NewSession(Channel.Client, client.master, client.sid, kdf), [], []),
                  Channel.End(Channel.NewSession(Channel.Server, server.master, server.sid, kdf), [], []), map[])
  }

  /** Everything `r` has received its peer sent, whole and in this direction, and nothing twice. */
  ghost predicate Injective(w: Channel.World, r: Channel.Role) {
    var got, sent := w.At(r).got, w.At(r.Peer()).sent;
    && (forall j | 0 <= j < |got| ::
          && got[j].counter < |sent|
          && got[j].inner == InnerPlaintext(sent[got[j].counter].msgType, r.RecvDirection(), sent[got[j].counter].payload))
    && (forall j, k | 0 <= j < k < |got| :: got[j].counter != got[k].counter)
  }

  /** Outcomes that agree open a channel, and whatever the network then does to it, delivery is injective both ways. */
  lemma AgreedChannel(server: Outcome, client: Outcome, kdf: Channel.PrefixKdf, events: seq<Channel.Event>, r: Channel.Role)
    requires server.master == client.master && server.sid == client.sid
    ensures Opened(client, server, kdf) == Channel.Start(client.master, client.sid, kdf)
    ensures Injective(Channel.Run(Opened(client, server, kdf), events), r)
  {
    hide Channel.Run;
    Channel.InjectiveDelivery(client.master, client.sid, kdf, events, r);
  }

  /**
   * From handshake to traffic: under the conditions of `Agreement`, once the announced M3
   * arrives, the sessions opened from the two outcomes form one channel, and in every run
   * of it each end receives only what the other sent, once.
   */
  lemma HandshakeOpensChannel(x: Execution, k: Client.Config, cl: Client.Client, r: nat, source: SocketAddr, first: nat, n: nat,
                              replies: seq<Client.Op>, kdf: Channel.PrefixKdf, events: seq<Channel.Event>, end: Channel.Role)
    returns (j: nat)
    requires IsRun(x) && n < |x.ops| && Lawful(x.suite) && Matched(x.suite, k, x.cfg, x.start.roster)
    requires Client.NewClient(x.suite, k, cl.sid, cl.kem, cl.dh, r) == Some(cl)
    requires HonestM1(x, cl, source, n) && WholeM1(x, cl.sid, source, first, n)
    requires forall i | 0 <= i < n :: Suffices(x, cl.sid, source, i)
    requires Relayed(x, cl.sid, n, replies)
    ensures Client.Valid(cl) && j < |replies|
    ensures var e, s := Client.Events(x.suite, k, cl, replies)[j], ReplyAt(x, n).event;
            e.Confirm3? && (Arrives(x, n, cl.sid, source, e.packets) ==>
              s.Complete? && Injective(Channel.Run(Opened(e.outcome, s.outcome, kdf), events), end))
  {
    hide *;
    j := Agreement(x, k, cl, r, source, first, n, replies);
    var e, s := Client.Events(x.suite, k, cl, replies)[j], ReplyAt(x, n).event;
    if Arrives(x, n, cl.sid, source, e.packets) {
      AgreeMeans(s, e.outcome);
      AgreedChannel(s.outcome, e.outcome, kdf, events, end);
    }
  }

  lemma AgreeMeans(server: HandshakeServer.Event, client: Outcome)
    requires Agree(server, client)
    ensures server.Complete? && server.outcome.master == client.master && server.outcome.sid == client.sid
  {}

  // ---------------------------------------------------------------------
  // From the channel to IP packets
  // ---------------------------------------------------------------------

  /** Whatever is fed was received as tunnel data. */
  ghost predicate FedFrom(w: Channel.World, r: Channel.Role, ops: seq<Runs.Op>) {
    forall i | 0 <= i < |ops| && ops[i].FeedOp? :: Received(w, r, ops[i].slot)
  }

  ghost predicate Received(w: Channel.World, r: Channel.Role, slot: Slot) {
    exists j | 0 <= j < |w.At(r).got| :: w.At(r).got[j].inner.msgType == TunData && w.At(r).got[j].inner.payload == slot
  }

  /** `r` sent this slot as tunnel data. */
  ghost predicate SentSlot(w: Channel.World, r: Channel.Role, slot: Slot) {
    exists i | 0 <= i < |w.At(r).sent| :: w.At(r).sent[i].msgType == TunData && w.At(r).sent[i].payload == slot
  }

  lemma ReceivedWasSent(master: Channel.Master, sid: SessionId, kdf: Channel.PrefixKdf, events: seq<Channel.Event>,
                        r: Channel.Role, slot: Slot)
    requires Received(Channel.Run(Channel.Start(master, sid, kdf), events), r, slot)
    ensures SentSlot(Channel.Run(Channel.Start(master, sid, kdf), events), r.Peer(), slot)
  {
    hide Channel.Run;
    var w := Channel.Run(Channel.Start(master, sid, kdf), events);
    Channel.InjectiveDelivery(master, sid, kdf, events, r);
    var j :| 0 <= j < |w.At(r).got| && w.At(r).got[j].inner.msgType == TunData && w.At(r).got[j].inner.payload == slot;
    var i := w.At(r).got[j].counter;
    assert w.At(r.Peer()).sent[i].msgType == TunData && w.At(r.Peer()).sent[i].payload == slot;
  }

  /**
   * Whatever IP packet one end reassembles, over a network that drops, reorders, duplicates,
   * reflects and injects, validates, and every one of its slots was sent by the other end.
   */
  lemma CompletedWasSent(master: Channel.Master, sid: SessionId, kdf: Channel.PrefixKdf, events: seq<Channel.Event>,
                         r: Channel.Role, st: Reassembly.State, caps: Reassembly.Caps, ops: seq<Runs.Op>,
                         slot: Slot, now: Instant, b: seq<byte>)
    requires Reassembly.Inv(st, caps) && Decode(slot).Good?
    requires Runs.StartsAnew(st, Decode(slot).value.id, (ops + [Runs.FeedOp(slot, now)])[0])
    requires FedFrom(Channel.Run(Channel.Start(master, sid, kdf), events), r, ops + [Runs.FeedOp(slot, now)])
    requires Runs.Answer(Runs.Run(st, caps, ops), caps, slot, now) == Reassembly.Complete(b)
    ensures Fragmentable(b) && 20 <= |b| <= MAX_IP_PACKET_LEN
    ensures forall k | 0 <= k < FragCount(|b|) ::
              SentSlot(Channel.Run(Channel.Start(master, sid, kdf), events), r.Peer(), SlotAt(b, Decode(slot).value.id, k))
  {
    hide Channel.Run, Runs.Run, Runs.Answer, SlotAt, Decode, Reassembly.Inv, Fragmentable, Received, SentSlot, FragCount, Runs.StartsAnew;
    var all, id := ops + [Runs.FeedOp(slot, now)], Decode(slot).value.id;
    Runs.CompletedWasFed(st, caps, ops, slot, now, b);
    forall k | 0 <= k < FragCount(|b|)
      ensures SentSlot(Channel.Run(Channel.Start(master, sid, kdf), events), r.Peer(), SlotAt(b, id, k))
    {
      assert Runs.WasFed(all, SlotAt(b, id, k));
      var i :| 0 <= i < |all| && all[i].FeedOp? && all[i].slot == SlotAt(b, id, k);
      ReceivedWasSent(master, sid, kdf, events, r, all[i].slot);
    }
  }

  /** Under this id `r` sends nothing but fragments of `p`. */
  ghost predicate SendsOnly(w: Channel.World, r: Channel.Role, id: u64, p: seq<byte>)
    requires 20 <= |p| <= MAX_IP_PACKET_LEN
  {
    forall i | 0 <= i < |w.At(r).sent| && w.At(r).sent[i].msgType == TunData && Decode(w.At(r).sent[i].payload).Good?
               && Decode(w.At(r).sent[i].payload).value.id == id ::
      exists k :: 0 <= k < FragCount(|p|) && w.At(r).sent[i].payload == SlotAt(p, id, k)
  }

  /** If one end uses an id for one packet, the other reassembles that packet or none under it. */
  lemma CompletesWhatWasFragmented(master: Channel.Master, sid: SessionId, kdf: Channel.PrefixKdf, events: seq<Channel.Event>,
                                   r: Channel.Role, st: Reassembly.State, caps: Reassembly.Caps, ops: seq<Runs.Op>,
                                   slot: Slot, now: Instant, id: u64, p: seq<byte>, b: seq<byte>)
    requires Reassembly.Inv(st, caps) && Runs.IsFor(slot, id) && 20 <= |p| <= MAX_IP_PACKET_LEN
    requires Runs.StartsAnew(st, id, (ops + [Runs.FeedOp(slot, now)])[0])
    requires FedFrom(Channel.Run(Channel.Start(master, sid, kdf), events), r, ops + [Runs.FeedOp(slot, now)])
    requires SendsOnly(Channel.Run(Channel.Start(master, sid, kdf), events), r.Peer(), id, p)
    requires Runs.Answer(Runs.Run(st, caps, ops), caps, slot, now) == Reassembly.Complete(b)
    ensures b == p
  {
    hide Channel.Run, Runs.Run, Runs.Answer, SlotOf, Decode, Reassembly.Inv, Received, FragCount, Runs.StartsAnew, Crc32;
    var w, all := Channel.Run(Channel.Start(master, sid, kdf), events), ops + [Runs.FeedOp(slot, now)];
    forall i | 0 <= i < |all| && all[i].FeedOp? && Runs.IsFor(all[i].slot, id)
      ensures exists j :: 0 <= j < FragCount(|p|) && all[i].slot == SlotOf(p, Crc32(p), id, j)
    {
      ReceivedWasSent(master, sid, kdf, events, r, all[i].slot);
      var m :| 0 <= m < |w.At(r.Peer()).sent| && w.At(r.Peer()).sent[m].msgType == TunData
               && w.At(r.Peer()).sent[m].payload == all[i].slot;
      var j :| 0 <= j < FragCount(|p|) && w.At(r.Peer()).sent[m].payload == SlotAt(p, id, j);
      assert all[i].slot == SlotOf(p, Crc32(p), id, j);
    }
    Runs.OnlyThisPacketCompletes(st, caps, ops, slot, now, id, p, Crc32(p), b);
  }

  // ---------------------------------------------------------------------
  // Telling handshake from data
  // ---------------------------------------------------------------------

  /** The dispatch rule: byte 9 names a handshake message. */
  predicate LooksLikeHandshake(pkt: WirePacket) { HsTypeOf(pkt[9]).Some? }

  lemma TopByte(n: u64)
    ensures BigEndian(n, 8)[0] == n / 0x100_0000_0000_0000
  {
    hide BigEndian, FromBigEndian, Pow256;
    Widths();
    FromBigEndianOfBigEndian(n, 8);
    var s := BigEndian(n, 8);
    assert s == [s[0]] + s[1..];
    FromBigEndianSplit([s[0]], s[1..]);
    OneByte(s[0]);
    SevenBytes();
  }

  lemma SevenBytes()
    ensures Pow256(7) == 0x100_0000_0000_0000
  {
    assert Pow256(3) == 0x100_0000;
    assert Pow256(5) == 0x100_0000_0000;
  }

  /**
   * A data packet is taken for a handshake fragment exactly when the top byte of its counter is
   * 0x10, 0x20 or 0x30: never among the first 2^60 packets of a direction.
   */
  lemma DataLooksLikeHandshake(master: Channel.Master, sid: SessionId, kdf: Channel.PrefixKdf, events: seq<Channel.Event>,
                               r: Channel.Role, i: nat)
    requires i < |Channel.Run(Channel.Start(master, sid, kdf), events).At(r).sent|
    ensures var w := Channel.Run(Channel.Start(master, sid, kdf), events);
            && |w.At(r).sent| <= MAX_PACKET_NONCE
            && (LooksLikeHandshake(Channel.PacketAt(w, r, i)) <==> i / 0x100_0000_0000_0000 in {0x10, 0x20, 0x30})
            && (i < 0x1000_0000_0000_0000 ==> !LooksLikeHandshake(Channel.PacketAt(w, r, i)))
  {
    hide Channel.Run, Channel.PacketAt, Channel.Inv, BigEndian;
    var w := Channel.Run(Channel.Start(master, sid, kdf), events);
    Channel.RunKeepsInv(master, sid, kdf, events);
    Channel.PacketIs(w, r, i);
    TopByte(i);
    var h := PacketHeader(PROTOCOL_VERSION, w.client.session.sid, i);
    assert EncodeHeader(h)[9] == BigEndian(i, 8)[0];
  }

  /** A handshake datagram always is. */
  lemma HandshakeLooksLikeIt(t: HsType, sid: SessionId, message: seq<byte>, i: nat)
    requires |message| == BodyLen(t) && i < FragTotal(t)
    ensures LooksLikeHandshake(DatagramAt(t, PROTOCOL_VERSION, sid, message, i))
  {
    hide DatagramAt, FromDatagram;
    DatagramRoundTrip(t, sid, message, i);
  }
}
