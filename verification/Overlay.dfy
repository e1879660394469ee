/** The TUN overlay: its 20-byte header, inner IP validation and the fragmenter. */
module Overlay {
  import opened Bytes
  import opened Codec
  import opened Crc

  const OVERLAY_VERSION: byte := 1
  const OVERLAY_HEADER_LEN: nat := 20
  const FRAG_CAP: nat := PAYLOAD_LEN - OVERLAY_HEADER_LEN
  const MAX_FRAG_COUNT: nat := 54
  const MAX_IP_PACKET_LEN: nat := 65535

  /** One record payload. */
  type Slot = s: seq<byte> | |s| == PAYLOAD_LEN witness Zeros(PAYLOAD_LEN)

  datatype OverlayError =
    | TruncatedHeader
    | BadVersion
    | BadFlags
    | BadReserved
    | BadFragCount
    | BadFragIndex
    | BadIpTotalLen
    | InconsistentFragCount
    | BadIpHeader
    | IpLengthMismatch

  datatype Checked<+T> = Good(value: T) | Bad(error: OverlayError)

  // ---------------------------------------------------------------------
  // Header
  // ---------------------------------------------------------------------

  datatype OverlayHeader = OverlayHeader(
    version: byte, fragIndex: byte, fragCount: byte, flags: byte,
    ipTotalLen: u16, reserved: u16, id: u64, crc: u32)

  function Encode(h: OverlayHeader): (s: seq<byte>)
    ensures |s| == OVERLAY_HEADER_LEN
  {
    [h.version, h.fragIndex, h.fragCount, h.flags] + BigEndian(h.ipTotalLen, 2)
    + BigEndian(h.reserved, 2) + BigEndian(h.id, 8) + BigEndian(h.crc, 4)
  }

  /** The fields of the first 20 bytes, before any validation. */
  function Fields(s: seq<byte>): OverlayHeader
    requires |s| >= OVERLAY_HEADER_LEN
  {
    Widths();
    OverlayHeader(s[0], s[1], s[2], s[3], FromBigEndian(s[4..6]), FromBigEndian(s[6..8]),
                  FromBigEndian(s[8..16]), FromBigEndian(s[16..20]))
  }

  function Decode(s: seq<byte>): Checked<OverlayHeader> {
    if |s| < OVERLAY_HEADER_LEN then Bad(TruncatedHeader)
    else
      var h := Fields(s);
      if h.version != OVERLAY_VERSION then Bad(BadVersion)
      else if h.flags != 0 then Bad(BadFlags)
      else if h.reserved != 0 then Bad(BadReserved)
      else if h.fragCount == 0 || h.fragCount > MAX_FRAG_COUNT then Bad(BadFragCount)
      else if h.fragIndex >= h.fragCount then Bad(BadFragIndex)
      else if h.ipTotalLen < 20 then Bad(BadIpTotalLen)
      else if (h.fragCount - 1) * FRAG_CAP >= h.ipTotalLen || h.ipTotalLen > h.fragCount * FRAG_CAP
      then Bad(InconsistentFragCount)
      else Good(h)
  }

  /** The headers the decoder lets through. */
  predicate WellFormed(h: OverlayHeader) {
    && h.version == OVERLAY_VERSION && h.flags == 0 && h.reserved == 0
    && h.fragIndex < h.fragCount && 20 <= h.ipTotalLen && h.fragCount == FragCount(h.ipTotalLen)
  }

  function FragCount(len: nat): nat { (len + FRAG_CAP - 1) / FRAG_CAP }

  /** Bytes of fragment `k` of a packet of `len` bytes. */
  function FragLen(len: nat, k: nat): (n: nat)
    requires k < FragCount(len)
    ensures n <= FRAG_CAP && k * FRAG_CAP + n <= len
  {
    if k + 1 < FragCount(len) then FRAG_CAP else len - k * FRAG_CAP
  }

  function ExpectedFragLen(h: OverlayHeader): int {
    if h.fragIndex + 1 < h.fragCount then FRAG_CAP else h.ipTotalLen - (h.fragCount - 1) * FRAG_CAP
  }

  lemma FieldsOfEncode(h: OverlayHeader, rest: seq<byte>)
    ensures Fields(Encode(h) + rest) == h
  {
    var s := Encode(h) + rest;
    assert s[4..6] == BigEndian(h.ipTotalLen, 2);
    assert s[6..8] == BigEndian(h.reserved, 2);
    assert s[8..16] == BigEndian(h.id, 8);
    assert s[16..20] == BigEndian(h.crc, 4);
    Widths();
    FromBigEndianOfBigEndian(h.ipTotalLen, 2);
    FromBigEndianOfBigEndian(h.reserved, 2);
    FromBigEndianOfBigEndian(h.id, 8);
    FromBigEndianOfBigEndian(h.crc, 4);
  }

  lemma EncodeOfFields(s: seq<byte>)
    requires |s| >= OVERLAY_HEADER_LEN
    ensures Encode(Fields(s)) == s[..OVERLAY_HEADER_LEN]
  {
    BigEndianOfFromBigEndian(s[4..6]);
    BigEndianOfFromBigEndian(s[6..8]);
    BigEndianOfFromBigEndian(s[8..16]);
    BigEndianOfFromBigEndian(s[16..20]);
    assert s[..OVERLAY_HEADER_LEN]
        == [s[0], s[1], s[2], s[3]] + s[4..6] + s[6..8] + s[8..16] + s[16..20];
  }

  /** The fragment count a header must carry is the number of fragments its length needs. */
  lemma CountIsForced(h: OverlayHeader)
    requires 20 <= h.ipTotalLen
    ensures (1 <= h.fragCount <= MAX_FRAG_COUNT
             && (h.fragCount - 1) * FRAG_CAP < h.ipTotalLen <= h.fragCount * FRAG_CAP)
         <==> h.fragCount == FragCount(h.ipTotalLen)
  {}

  /** Decoding is exact: it accepts the well-formed headers, each as itself. */
  lemma DecodeExact(s: seq<byte>)
    ensures Decode(s).Good? <==> |s| >= OVERLAY_HEADER_LEN && WellFormed(Fields(s))
    ensures Decode(s).Good? ==> Decode(s).value == Fields(s) && Encode(Decode(s).value) == s[..OVERLAY_HEADER_LEN]
  {
    if |s| >= OVERLAY_HEADER_LEN {
      EncodeOfFields(s);
      if 20 <= Fields(s).ipTotalLen { CountIsForced(Fields(s)); }
    }
  }

  lemma HeaderRoundTrip(h: OverlayHeader, rest: seq<byte>)
    ensures WellFormed(h) <==> Decode(Encode(h) + rest) == Good(h)
  {
    FieldsOfEncode(h, rest);
    DecodeExact(Encode(h) + rest);
  }

  // ---------------------------------------------------------------------
  // Inner IP packets
  // ---------------------------------------------------------------------

  function U16(hi: byte, lo: byte): u16 { (hi as int) * 256 + lo }

  function DeclaredIpLen(ip: seq<byte>): Checked<nat> {
    if |ip| == 0 then Bad(BadIpHeader)
    else if ip[0] / 16 == 4 then
      if |ip| < 20 then Bad(BadIpHeader)
      else
        var total, ihl := U16(ip[2], ip[3]), (ip[0] % 16) * 4;
        if total < 20 || ihl < 20 || ihl > total || total > MAX_IP_PACKET_LEN then Bad(BadIpHeader)
        else Good(total)
    else if ip[0] / 16 == 6 then
      if |ip| < 40 then Bad(BadIpHeader)
      else
        var total := 40 + U16(ip[4], ip[5]);
        if total > MAX_IP_PACKET_LEN then Bad(BadIpHeader) else Good(total)
    else Bad(BadIpHeader)
  }

  function ValidateIpPacket(ip: seq<byte>): Checked<nat> {
    var declared := DeclaredIpLen(ip);
    if declared.Bad? then declared
    else if declared.value != |ip| then Bad(IpLengthMismatch)
    else declared
  }

  /** The reassembler's header check, made when only fragment 0 is known to be in place. */
  predicate IpHeaderOk(buf: seq<byte>, len: nat)
    requires |buf| > 0
  {
    if len > MAX_IP_PACKET_LEN || |buf| < len then false
    else if buf[0] / 16 == 4 then
      && len >= 20 && U16(buf[2], buf[3]) == len
      && 20 <= (buf[0] % 16) * 4 <= len
    else if buf[0] / 16 == 6 then
      len >= 40 && 40 + U16(buf[4], buf[5]) == len
    else false
  }

  lemma TwoBytes(s: seq<byte>)
    requires |s| == 2
    ensures U16(s[0], s[1]) == FromBigEndian(s)
  {
    assert s[..1] == [s[0]];
    assert FromBigEndian([s[0]]) == s[0];
  }

  /** An IPv4 packet whose big-endian total length is its length and whose header fits in it. */
  ghost predicate IsIpv4(ip: seq<byte>) {
    && 20 <= |ip| && ip[0] / 16 == 4 && FromBigEndian(ip[2..4]) == |ip|
    && 5 <= ip[0] % 16 && 4 * ((ip[0] % 16) as int) <= |ip|
  }

  /** An IPv6 packet whose big-endian payload length is what follows its 40-byte header. */
  ghost predicate IsIpv6(ip: seq<byte>) {
    40 <= |ip| <= 65535 && ip[0] / 16 == 6 && 40 + FromBigEndian(ip[4..6]) == |ip|
  }

  /** What validates is an IPv4 or an IPv6 packet of exactly its declared length, and nothing else. */
  lemma ValidatesExactly(ip: seq<byte>)
    ensures ValidateIpPacket(ip).Good? <==> IsIpv4(ip) || IsIpv6(ip)
    ensures ValidateIpPacket(ip).Good? ==> ValidateIpPacket(ip).value == |ip|
  {
    hide FromBigEndian;
    if |ip| >= 20 {
      TwoBytes(ip[2..4]);
      TwoBytes(ip[4..6]);
    }
  }

  /** The two checks agree on a whole packet. */
  lemma HeaderCheckIsPacketCheck(ip: seq<byte>)
    requires |ip| > 0
    ensures IpHeaderOk(ip, |ip|) <==> ValidateIpPacket(ip).Good?
    ensures ValidateIpPacket(ip).Good? ==> 20 <= |ip| <= MAX_IP_PACKET_LEN
  {}

  /** The check looks at fragment 0 only. */
  lemma HeaderCheckIsLocal(a: seq<byte>, b: seq<byte>)
    requires |a| == |b| >= 20 && a[..FragLen(|a|, 0)] == b[..FragLen(|a|, 0)]
    ensures IpHeaderOk(a, |a|) <==> IpHeaderOk(b, |b|)
  {
    var n := FragLen(|a|, 0);
    assert n == Min(FRAG_CAP, |a|);
    assert forall i | 0 <= i < n :: a[i] == a[..n][i] == b[..n][i] == b[i];
  }

  // ---------------------------------------------------------------------
  // Fragmentation
  // ---------------------------------------------------------------------

  predicate Fragmentable(ip: seq<byte>) { ValidateIpPacket(ip).Good? }

  function HeaderAt(len: nat, crc: u32, id: u64, k: nat): (h: OverlayHeader)
    requires 20 <= len <= MAX_IP_PACKET_LEN && k < FragCount(len)
    ensures WellFormed(h)
  {
    OverlayHeader(OVERLAY_VERSION, k, FragCount(len), 0, len, 0, id, crc)
  }

  /** The slot carrying bytes `k * FRAG_CAP ..` of `buf` under the given metadata. */
  function SlotOf(buf: seq<byte>, crc: u32, id: u64, k: nat): Slot
    requires 20 <= |buf| <= MAX_IP_PACKET_LEN && k < FragCount(|buf|)
  {
    var n := FragLen(|buf|, k);
    Encode(HeaderAt(|buf|, crc, id, k)) + buf[k * FRAG_CAP..k * FRAG_CAP + n] + Zeros(FRAG_CAP - n)
  }

  function SlotAt(ip: seq<byte>, id: u64, k: nat): Slot
    requires 20 <= |ip| <= MAX_IP_PACKET_LEN && k < FragCount(|ip|)
  {
    SlotOf(ip, Crc32(ip), id, k)
  }

  lemma EmptyIsBad(ip: seq<byte>)
    requires ip == []
    ensures ValidateIpPacket(ip).Bad?
  {}

  /** `fragment_ip_packet`: refuses exactly the packets that do not validate. */
  method FragmentIpPacket(ip: seq<byte>, id: u64) returns (r: Option<seq<Slot>>)
    ensures r.Some? <==> Fragmentable(ip)
    ensures r.Some? ==>
              && 20 <= |ip| <= MAX_IP_PACKET_LEN
              && |r.value| == FragCount(|ip|)
              && forall k | 0 <= k < |r.value| :: r.value[k] == SlotAt(ip, id, k)
  {
    hide Encode, ValidateIpPacket, IpHeaderOk, Crc32;
    if |ip| > 0 { HeaderCheckIsPacketCheck(ip); } else { EmptyIsBad(ip); }
    if |ip| < 20 || |ip| > MAX_IP_PACKET_LEN || ValidateIpPacket(ip).Bad? {
      return None;
    }
    var count := FragCount(|ip|);
    if count == 0 || count > MAX_FRAG_COUNT {
      return None;
    }
    var crc := TableCrc32(ip);
    var out: seq<Slot> := [];
    for idx := 0 to count
      invariant |out| == idx
      invariant forall k | 0 <= k < idx :: out[k] == SlotAt(ip, id, k)
    {
      var start := idx * FRAG_CAP;
      var end := Min(start + FRAG_CAP, |ip|);
      var header := Encode(OverlayHeader(OVERLAY_VERSION, idx, count, 0, |ip|, 0, id, crc));
      var slot: Slot := header + ip[start..end] + Zeros(FRAG_CAP - (end - start));
      assert slot == SlotAt(ip, id, idx) by {
        assert end - start == FragLen(|ip|, idx);
        assert OverlayHeader(OVERLAY_VERSION, idx, count, 0, |ip|, 0, id, crc) == HeaderAt(|ip|, crc, id, idx);
      }
      out := out + [slot];
    }
    return Some(out);
  }

  /** What a slot says, read back. */
  lemma ReadSlot(buf: seq<byte>, crc: u32, id: u64, k: nat)
    requires 20 <= |buf| <= MAX_IP_PACKET_LEN && k < FragCount(|buf|)
    ensures var s, n := SlotOf(buf, crc, id, k), FragLen(|buf|, k);
            && Decode(s) == Good(HeaderAt(|buf|, crc, id, k))
            && ExpectedFragLen(Decode(s).value) == n
            && s[OVERLAY_HEADER_LEN..OVERLAY_HEADER_LEN + n] == buf[k * FRAG_CAP..k * FRAG_CAP + n]
            && s[OVERLAY_HEADER_LEN + n..] == Zeros(FRAG_CAP - n)
  {
    var s, n, h := SlotOf(buf, crc, id, k), FragLen(|buf|, k), HeaderAt(|buf|, crc, id, k);
    var body := buf[k * FRAG_CAP..k * FRAG_CAP + n];
    assert s == Encode(h) + (body + Zeros(FRAG_CAP - n));
    HeaderRoundTrip(h, body + Zeros(FRAG_CAP - n));
  }

  /** Every clean slot is the slot of its own contents: the framing has no slack. */
  lemma SlotCanonical(s: Slot, buf: seq<byte>)
    requires Decode(s).Good?
    requires var h := Decode(s).value;
             && |buf| == h.ipTotalLen && WellFormed(h)
             && var n := FragLen(|buf|, h.fragIndex);
             && buf[h.fragIndex * FRAG_CAP..h.fragIndex * FRAG_CAP + n] == s[OVERLAY_HEADER_LEN..OVERLAY_HEADER_LEN + n]
             && s[OVERLAY_HEADER_LEN + n..] == Zeros(FRAG_CAP - n)
    ensures s == SlotOf(buf, Decode(s).value.crc, Decode(s).value.id, Decode(s).value.fragIndex)
  {
    var h := Decode(s).value;
    DecodeExact(s);
    var n := FragLen(|buf|, h.fragIndex);
    assert h == HeaderAt(|buf|, h.crc, h.id, h.fragIndex);
    assert s == s[..OVERLAY_HEADER_LEN] + s[OVERLAY_HEADER_LEN..OVERLAY_HEADER_LEN + n] + s[OVERLAY_HEADER_LEN + n..];
  }
}
