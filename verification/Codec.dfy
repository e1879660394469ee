/** Fixed-size packet framing: the clear-text header and the sealed inner plaintext. */
module Codec {
  import opened Bytes

  const PROTOCOL_VERSION: byte := 2
  const PACKET_SIZE: nat := 1280
  const SESSION_ID_LEN: nat := 8
  const HEADER_LEN: nat := 17
  const AEAD_TAG_LEN: nat := 16
  const INNER_PLAINTEXT_LEN: nat := PACKET_SIZE - HEADER_LEN - AEAD_TAG_LEN
  const PAYLOAD_LEN: nat := INNER_PLAINTEXT_LEN - 2
  const MAX_PACKET_NONCE: u64 := U64_MAX - 0x1_0000_0000

  type SessionId = s: seq<byte> | |s| == SESSION_ID_LEN witness Zeros(SESSION_ID_LEN)
  type WirePacket = p: seq<byte> | |p| == PACKET_SIZE witness Zeros(PACKET_SIZE)

  datatype CodecError =
    | Truncated
    | InvalidVersion
    | InvalidMessageType
    | InvalidDirection
    | WrongLength
    | NonceExhausted
    | DecryptionFailed
    | Rejected

  type Result<T> = Fallible<T, CodecError>

  datatype MessageType = Handshake | Data | Cover | Close | TunData

  datatype Direction = ClientToServer | ServerToClient

  datatype PacketHeader = PacketHeader(version: byte, sid: SessionId, nonce: u64)

  datatype InnerPlaintext = InnerPlaintext(msgType: MessageType, direction: Direction, payload: seq<byte>)

  predicate CounterExhausted(counter: u64) { counter >= MAX_PACKET_NONCE }

  function TypeByte(t: MessageType): byte {
    match t
    case Handshake => 0
    case Data => 1
    case Cover => 2
    case Close => 3
    case TunData => 4
  }

  function TypeOf(b: byte): Result<MessageType> {
    match b
    case 0 => Ok(Handshake)
    case 1 => Ok(Data)
    case 2 => Ok(Cover)
    case 3 => Ok(Close)
    case 4 => Ok(TunData)
    case _ => Err(InvalidMessageType)
  }

  function DirectionByte(d: Direction): byte {
    match d
    case ClientToServer => 0
    case ServerToClient => 1
  }

  function DirectionOf(b: byte): Result<Direction> {
    match b
    case 0 => Ok(ClientToServer)
    case 1 => Ok(ServerToClient)
    case _ => Err(InvalidDirection)
  }

  function EncodeHeader(h: PacketHeader): (s: seq<byte>)
    ensures |s| == HEADER_LEN
  {
    [h.version] + h.sid + BigEndian(h.nonce, 8)
  }

  function DecodeHeader(data: seq<byte>): Result<PacketHeader> {
    if |data| < HEADER_LEN then Err(Truncated)
    else if data[0] != PROTOCOL_VERSION then Err(InvalidVersion)
    else
      Widths();
      Ok(PacketHeader(data[0], data[1..9], FromBigEndian(data[9..17])))
  }

  function EncodeInner(p: InnerPlaintext): (s: seq<byte>)
    ensures |s| == 2 + |p.payload|
  {
    [TypeByte(p.msgType), DirectionByte(p.direction)] + p.payload
  }

  function DecodeInner(data: seq<byte>): Result<InnerPlaintext> {
    if |data| != INNER_PLAINTEXT_LEN then Err(Truncated)
    else if TypeOf(data[0]).Err? then Err(InvalidMessageType)
    else if DirectionOf(data[1]).Err? then Err(InvalidDirection)
    else Ok(InnerPlaintext(TypeOf(data[0]).value, DirectionOf(data[1]).value, data[2..]))
  }

  function FromParts(header: seq<byte>, region: seq<byte>): (r: Result<WirePacket>)
    requires |header| == HEADER_LEN
  {
    if header[0] != PROTOCOL_VERSION then Err(InvalidVersion)
    else if |region| != PACKET_SIZE - HEADER_LEN then Err(Truncated)
    else Ok(header + region)
  }

  lemma HeaderRoundTrip(h: PacketHeader)
    ensures DecodeHeader(EncodeHeader(h))
         == if h.version == PROTOCOL_VERSION then Ok(h) else Err(InvalidVersion)
  {
    var s := EncodeHeader(h);
    assert s[1..9] == h.sid;
    assert s[9..17] == BigEndian(h.nonce, 8);
    Widths();
    FromBigEndianOfBigEndian(h.nonce, 8);
  }

  /** Only canonical headers decode: the header bytes are a function of the fields. */
  lemma HeaderCanonical(data: seq<byte>)
    requires DecodeHeader(data).Ok?
    ensures EncodeHeader(DecodeHeader(data).value) == data[..HEADER_LEN]
  {
    BigEndianOfFromBigEndian(data[9..17]);
    assert data[..HEADER_LEN] == [data[0]] + data[1..9] + data[9..17];
  }

  lemma InnerRoundTrip(p: InnerPlaintext)
    requires |p.payload| == PAYLOAD_LEN
    ensures DecodeInner(EncodeInner(p)) == Ok(p)
  {
    assert EncodeInner(p)[2..] == p.payload;
  }

  lemma InnerCanonical(data: seq<byte>)
    requires DecodeInner(data).Ok?
    ensures EncodeInner(DecodeInner(data).value) == data
  {
    assert data == [data[0], data[1]] + data[2..];
  }
}
