/** The egress guard: which destinations the forwarding backend refuses. */
module Egress {
  import opened Bytes
  import opened Net

  datatype Policy = DenyUnsafe | AllowLoopback

  datatype DenyRule =
    | PortZero
    | V4Loopback | V6Loopback | V4Unspecified | V6Unspecified | V4Multicast | V6Multicast | V4Broadcast
    | MetadataImdsV4 | MetadataAlibabaV4 | MetadataAwsV6 | MetadataGcpV6

  type Octets4 = o: seq<byte> | |o| == 4 witness [0, 0, 0, 0]
  type Octets16 = o: seq<byte> | |o| == 16 witness Zeros(16)

  const AWS_V6: Octets16 := [0xfd, 0x00, 0x0e, 0xc2, 0, 0, 0, 0, 0, 0, 0, 0, 0, 0, 0x02, 0x54]
  const GCP_V6: Octets16 := [0xfd, 0x20, 0x00, 0xce, 0, 0, 0, 0, 0, 0, 0, 0, 0, 0, 0x02, 0x54]
  const LOOPBACK_V6: Octets16 := [0, 0, 0, 0, 0, 0, 0, 0, 0, 0, 0, 0, 0, 0, 0, 1]

  function DenyIpv4(o: Octets4, policy: Policy): Option<DenyRule> {
    if o == [169, 254, 169, 254] then Some(MetadataImdsV4)
    else if o == [100, 100, 100, 200] then Some(MetadataAlibabaV4)
    else if o[0] == 127 && policy == DenyUnsafe then Some(V4Loopback)
    else if o[0] == 0 then Some(V4Unspecified)
    else if 224 <= o[0] <= 239 then Some(V4Multicast)
    else if o == [255, 255, 255, 255] then Some(V4Broadcast)
    else None
  }

  /** The IPv4 host inside an IPv4-mapped or IPv4-compatible address. */
  function EmbeddedIpv4(o: Octets16): Option<Octets4> {
    if o[..12] == Zeros(10) + [0xff, 0xff] then Some(o[12..])
    else if o[..12] == Zeros(12) then Some(o[12..])
    else None
  }

  function DenyIpv6(o: Octets16, policy: Policy): Option<DenyRule> {
    if o == AWS_V6 then Some(MetadataAwsV6)
    else if o == GCP_V6 then Some(MetadataGcpV6)
    else if o == LOOPBACK_V6 then (if policy == DenyUnsafe then Some(V6Loopback) else None)
    else if o == Zeros(16) then Some(V6Unspecified)
    else if o[0] == 0xff then Some(V6Multicast)
    else
      var v4 := EmbeddedIpv4(o);
      if v4.Some? then DenyIpv4(v4.value, policy) else None
  }

  function DenyReason(dest: SocketAddr, policy: Policy): Option<DenyRule> {
    if dest.port == 0 then Some(PortZero)
    else match dest.ip
      case V4(o) => DenyIpv4(o, policy)
      case V6(o) => DenyIpv6(o, policy)
  }

  predicate Denied(dest: SocketAddr, policy: Policy) { DenyReason(dest, policy).Some? }

  /** The two IPv6 spellings of an IPv4 host. */
  function Mapped(o: Octets4): Octets16 { Zeros(10) + [0xff, 0xff] + o }

  function Compatible(o: Octets4): Octets16 { Zeros(12) + o }

  /** Spelling a host as IPv4-mapped changes neither the decision nor the rule. */
  lemma MappedSame(o: Octets4, port: u16, policy: Policy)
    ensures DenyReason(SocketAddr(V6(Mapped(o)), port), policy) == DenyReason(SocketAddr(V4(o), port), policy)
  {
    var m := Mapped(o);
    assert m[10] == 0xff && m[0] == 0;
    assert m[..12] == Zeros(10) + [0xff, 0xff] && m[12..] == o;
  }

  lemma CompatibleIs(o: Octets4)
    ensures Compatible(o)[..12] == Zeros(12) && Compatible(o)[12..] == o && Compatible(o)[10] == 0
    ensures Compatible(o) == LOOPBACK_V6 <==> o == [0, 0, 0, 1]
    ensures Compatible(o) == Zeros(16) <==> o == [0, 0, 0, 0]
  {
    var m := Compatible(o);
    assert m[..12] == Zeros(12) && m[12..] == o;
    assert LOOPBACK_V6[12..] == [0, 0, 0, 1] && LOOPBACK_V6[..12] == Zeros(12);
    assert Zeros(16)[12..] == [0, 0, 0, 0] && Zeros(16)[..12] == Zeros(12);
    assert LOOPBACK_V6 == LOOPBACK_V6[..12] + LOOPBACK_V6[12..];
    assert Zeros(16) == Zeros(16)[..12] + Zeros(16)[12..];
  }

  /**
   * Spelling a host as IPv4-compatible changes the decision in exactly one case:
   * 0.0.0.1 under the test-only policy, whose spelling is the IPv6 loopback.
   */
  lemma CompatibleSame(o: Octets4, port: u16, policy: Policy)
    ensures (Denied(SocketAddr(V6(Compatible(o)), port), policy) <==> Denied(SocketAddr(V4(o), port), policy))
       <==> !(policy == AllowLoopback && o == [0, 0, 0, 1] && port != 0)
  {
    var m := Compatible(o);
    CompatibleIs(o);
    assert m[0] == 0 by { assert m[..12][0] == 0; }
    assert m[10] != 0xff;
    assert Zeros(10) + [0xff, 0xff] != m[..12] by { assert (Zeros(10) + [0xff, 0xff])[10] == 0xff; }
  }

  /** Under the production policy no re-encoding of a refused IPv4 host gets through. */
  lemma NoReencodingEscapes(o: Octets4, port: u16)
    requires Denied(SocketAddr(V4(o), port), DenyUnsafe)
    ensures Denied(SocketAddr(V6(Mapped(o)), port), DenyUnsafe)
    ensures Denied(SocketAddr(V6(Compatible(o)), port), DenyUnsafe)
  {
    MappedSame(o, port, DenyUnsafe);
    CompatibleSame(o, port, DenyUnsafe);
  }

  /** Private and shared ranges stay reachable, but for the metadata hosts inside them. */
  lemma PrivateStaysReachable(o: Octets4, port: u16, policy: Policy)
    requires port != 0
    requires o[0] == 10 || (o[0] == 172 && 16 <= o[1] <= 31) || (o[0] == 192 && o[1] == 168)
             || (o[0] == 100 && 64 <= o[1] <= 127) || (o[0] == 169 && o[1] == 254)
    ensures Denied(SocketAddr(V4(o), port), policy) <==> o == [169, 254, 169, 254] || o == [100, 100, 100, 200]
  {}

  lemma UniqueLocalStaysReachable(o: Octets16, port: u16, policy: Policy)
    requires port != 0 && o[0] in {0xfc, 0xfd}
    ensures Denied(SocketAddr(V6(o), port), policy) <==> o == AWS_V6 || o == GCP_V6
  {
    assert Mapped([0, 0, 0, 0])[0] == 0;
    assert o[..12][0] == o[0];
    assert (Zeros(10) + [0xff, 0xff])[0] == 0 && Zeros(12)[0] == 0;
  }

  /** The test-only policy opens the loopback destinations and nothing else. */
  lemma AllowLoopbackOpensLoopback(dest: SocketAddr)
    ensures Denied(dest, AllowLoopback) ==> Denied(dest, DenyUnsafe)
    ensures Denied(dest, DenyUnsafe) && !Denied(dest, AllowLoopback)
       <==> dest.port != 0 && (match dest.ip
                               case V4(o) => o[0] == 127
                               case V6(o) => o == LOOPBACK_V6 || (EmbeddedIpv4(o).Some? && EmbeddedIpv4(o).value[0] == 127))
  {
    if dest.ip.V6? {
      LoopbackOpensV6(dest.ip.v6);
    }
  }

  lemma LoopbackOpensV6(o: Octets16)
    ensures DenyIpv6(o, AllowLoopback).Some? ==> DenyIpv6(o, DenyUnsafe).Some?
    ensures DenyIpv6(o, DenyUnsafe).Some? && DenyIpv6(o, AllowLoopback).None?
       <==> o == LOOPBACK_V6 || (EmbeddedIpv4(o).Some? && EmbeddedIpv4(o).value[0] == 127)
  {
    if EmbeddedIpv4(o).Some? && EmbeddedIpv4(o).value[0] == 127 {
      assert o[12] == 127;
      assert o[..12][0] == o[0];
      assert Zeros(12)[0] == 0 && (Zeros(10) + [0xff, 0xff])[0] == 0;
    }
  }

  /** An IPv4 address as a number. */
  function Number(o: Octets4): nat { FromBigEndian(o) }

  lemma NumberIs(o: Octets4)
    ensures Number(o) == 0x100_0000 * (o[0] as int) + FromBigEndian(o[1..]) && FromBigEndian(o[1..]) < 0x100_0000
  {
    var t := o[1..];
    assert o[..3][..2] == o[..2] && o[..2][..1] == o[..1];
    assert t[..2] == [o[1], o[2]] && t[..2][..1] == [o[1]] && t[2] == o[3];
    assert FromBigEndian(o[..1]) == o[0];
    assert FromBigEndian(o[..2]) == 0x100 * FromBigEndian(o[..1]) + o[1];
    assert FromBigEndian(o[..3]) == 0x100 * FromBigEndian(o[..2]) + o[2];
    assert FromBigEndian(t[..1]) == o[1];
    assert FromBigEndian(t[..2]) == 0x100 * FromBigEndian(t[..1]) + o[2];
  }

  /** A block of addresses that share their first octet. */
  lemma Block(o: Octets4, lo: nat, hi: nat)
    ensures 0x100_0000 * lo <= Number(o) < 0x100_0000 * hi <==> lo <= o[0] < hi
  {
    hide Number, FromBigEndian;
    NumberIs(o);
  }

  /** A number names one host. */
  lemma Host(o: Octets4, h: Octets4)
    ensures Number(o) == Number(h) <==> o == h
  {
    hide FromBigEndian;
    SameNumber(o, h);
  }

  lemma HostNumbers()
    ensures Number([255, 255, 255, 255]) == 0xFFFF_FFFF
    ensures Number([169, 254, 169, 254]) == 0xA9FE_A9FE
    ensures Number([100, 100, 100, 200]) == 0x6464_64C8
  {
    Spelled(255, 255, 255, 255);
    Spelled(169, 254, 169, 254);
    Spelled(100, 100, 100, 200);
  }

  lemma Spelled(a: byte, b: byte, c: byte, d: byte)
    ensures Number([a, b, c, d]) == 0x100_0000 * (a as int) + 0x1_0000 * (b as int) + 0x100 * (c as int) + d
  {
    assert [a, b, c, d][..3] == [a, b, c] && [a, b, c][..2] == [a, b] && [a, b][..1] == [a];
    assert FromBigEndian([a]) == a;
    assert FromBigEndian([a, b]) == 0x100 * (a as int) + b;
    assert FromBigEndian([a, b, c]) == 0x100 * FromBigEndian([a, b]) + c;
  }

  /** The refused IPv4 destinations are these address blocks and hosts, and no others. */
  lemma DeniedBlocks(o: Octets4, port: u16)
    ensures var n := Number(o);
            Denied(SocketAddr(V4(o), port), DenyUnsafe)
            <==> || port == 0
                 || n < 0x0100_0000                    // 0.0.0.0/8
                 || 0x7F00_0000 <= n < 0x8000_0000     // 127.0.0.0/8
                 || 0xE000_0000 <= n < 0xF000_0000     // 224.0.0.0/4
                 || n in {0xFFFF_FFFF, 0xA9FE_A9FE, 0x6464_64C8}
  {
    hide Number;
    Block(o, 0, 1);
    Block(o, 127, 128);
    Block(o, 224, 240);
    HostNumbers();
    Host(o, [255, 255, 255, 255]);
    Host(o, [169, 254, 169, 254]);
    Host(o, [100, 100, 100, 200]);
  }

  // ---------------------------------------------------------------------
  // The refused IPv6 destinations
  // ---------------------------------------------------------------------

  lemma Widths120()
    ensures Pow256(12) == 0x1_0000_0000_0000_0000_0000_0000
    ensures Pow256(15) == 0x1_00_0000_0000_0000_0000_0000_0000_0000
  {
    Widths();
    assert Pow256(10) == 0x1_0000_0000_0000_0000_0000;
    assert Pow256(12) == 0x1_0000_0000_0000_0000_0000_0000;
    assert Pow256(14) == 0x1_0000_0000_0000_0000_0000_0000_0000;
  }

  /** ff00::/8 is the top of the number range. */
  lemma TopBlock(o: Octets16)
    ensures o[0] == 0xff <==> FromBigEndian(o) >= 0xFF00_0000_0000_0000_0000_0000_0000_0000
  {
    hide FromBigEndian, Pow256;
    assert o == [o[0]] + o[1..];
    FromBigEndianSplit([o[0]], o[1..]);
    OneByte(o[0]);
    Widths120();
  }

  /** The upper 96 bits of an address, and its last 32. */
  lemma UpperAndLower(o: Octets16)
    ensures FromBigEndian(o) == FromBigEndian(o[..12]) * 0x1_0000_0000 + FromBigEndian(o[12..])
    ensures FromBigEndian(o[12..]) < 0x1_0000_0000
  {
    hide FromBigEndian, Pow256;
    assert o == o[..12] + o[12..];
    FromBigEndianSplit(o[..12], o[12..]);
    Widths();
  }

  lemma {:induction false} ZerosAreZero(n: nat)
    ensures FromBigEndian(Zeros(n)) == 0
  {
    if n > 0 {
      ZerosAreZero(n - 1);
      assert Zeros(n)[..n - 1] == Zeros(n - 1);
    }
  }

  lemma AfterZeros(n: nat, s: seq<byte>)
    ensures FromBigEndian(Zeros(n) + s) == FromBigEndian(s)
  {
    hide FromBigEndian, Pow256;
    FromBigEndianSplit(Zeros(n), s);
    ZerosAreZero(n);
  }

  /** The two embedding prefixes, as the numbers their 96 bits make. */
  lemma Prefixes(o: Octets16)
    ensures o[..12] == Zeros(12) <==> FromBigEndian(o[..12]) == 0
    ensures o[..12] == Zeros(10) + [0xff, 0xff] <==> FromBigEndian(o[..12]) == 0xFFFF
  {
    hide FromBigEndian;
    ZerosAreZero(12);
    SameNumber(o[..12], Zeros(12));
    AfterZeros(10, [0xff, 0xff]);
    FromBigEndianSplit([0xff], [0xff]);
    assert [0xff] + [0xff] == [0xff, 0xff];
    OneByte(0xff);
    assert Pow256(1) == 256;
    SameNumber(o[..12], Zeros(10) + [0xff, 0xff]);
  }

  lemma OneMoreWord(s: seq<byte>, w: Octets4)
    ensures FromBigEndian(s + w) == FromBigEndian(s) * 0x1_0000_0000 + Number(w)
  {
    hide FromBigEndian, Pow256;
    Widths();
    FromBigEndianSplit(s, w);
  }

  /** Four words of a host, each a number of its own. */
  lemma FourWords(a: Octets4, b: Octets4, c: Octets4, d: Octets4)
    ensures FromBigEndian(a + b + c + d)
         == ((Number(a) * 0x1_0000_0000 + Number(b)) * 0x1_0000_0000 + Number(c)) * 0x1_0000_0000 + Number(d)
  {
    hide FromBigEndian;
    OneMoreWord(a, b);
    OneMoreWord(a + b, c);
    OneMoreWord(a + b + c, d);
  }

  /** A host whose middle eight bytes are zero. */
  lemma EndWords(a: Octets4, d: Octets4)
    ensures FromBigEndian(a + [0, 0, 0, 0] + [0, 0, 0, 0] + d) == Number(a) * 0x1_0000_0000_0000_0000_0000_0000 + Number(d)
  {
    hide FromBigEndian, Number;
    Spelled(0, 0, 0, 0);
    FourWords(a, [0, 0, 0, 0], [0, 0, 0, 0], d);
  }

  lemma AwsNumber()
    ensures FromBigEndian(AWS_V6) == 0xFD00_0EC2_0000_0000_0000_0000_0000_0254
  {
    hide FromBigEndian, Number;
    Spelled(0xfd, 0x00, 0x0e, 0xc2);
    Spelled(0, 0, 0x02, 0x54);
    EndWords([0xfd, 0x00, 0x0e, 0xc2], [0, 0, 0x02, 0x54]);
    assert AWS_V6 == [0xfd, 0x00, 0x0e, 0xc2] + [0, 0, 0, 0] + [0, 0, 0, 0] + [0, 0, 0x02, 0x54];
  }

  lemma GcpNumber()
    ensures FromBigEndian(GCP_V6) == 0xFD20_00CE_0000_0000_0000_0000_0000_0254
  {
    hide FromBigEndian, Number;
    Spelled(0xfd, 0x20, 0x00, 0xce);
    Spelled(0, 0, 0x02, 0x54);
    EndWords([0xfd, 0x20, 0x00, 0xce], [0, 0, 0x02, 0x54]);
    assert GCP_V6 == [0xfd, 0x20, 0x00, 0xce] + [0, 0, 0, 0] + [0, 0, 0, 0] + [0, 0, 0x02, 0x54];
  }

  lemma LoopbackNumber()
    ensures FromBigEndian(LOOPBACK_V6) == 1
  {
    hide FromBigEndian, Number;
    Spelled(0, 0, 0, 0);
    Spelled(0, 0, 0, 1);
    EndWords([0, 0, 0, 0], [0, 0, 0, 1]);
    assert LOOPBACK_V6 == [0, 0, 0, 0] + [0, 0, 0, 0] + [0, 0, 0, 0] + [0, 0, 0, 1];
  }

  /** The four named hosts, by their numbers. */
  lemma NamedHosts(o: Octets16)
    ensures o == AWS_V6 <==> FromBigEndian(o) == 0xFD00_0EC2_0000_0000_0000_0000_0000_0254
    ensures o == GCP_V6 <==> FromBigEndian(o) == 0xFD20_00CE_0000_0000_0000_0000_0000_0254
    ensures o == LOOPBACK_V6 <==> FromBigEndian(o) == 1
    ensures o == Zeros(16) <==> FromBigEndian(o) == 0
  {
    hide FromBigEndian;
    AwsNumber();
    GcpNumber();
    LoopbackNumber();
    ZerosAreZero(16);
    SameNumber(o, AWS_V6);
    SameNumber(o, GCP_V6);
    SameNumber(o, LOOPBACK_V6);
    SameNumber(o, Zeros(16));
  }

  /**
   * The refused IPv6 destinations: the unspecified and the loopback address, ff00::/8, the two
   * metadata hosts, and in ::/96 and ::ffff:0:0/96 the refused IPv4 hosts; and no others.
   */
  lemma DeniedBlocksV6(o: Octets16, port: u16)
    ensures var n := FromBigEndian(o);
            Denied(SocketAddr(V6(o), port), DenyUnsafe)
            <==> || port == 0 || n == 0 || n == 1
                 || 0xFF00_0000_0000_0000_0000_0000_0000_0000 <= n
                 || n == 0xFD00_0EC2_0000_0000_0000_0000_0000_0254
                 || n == 0xFD20_00CE_0000_0000_0000_0000_0000_0254
                 || (n / 0x1_0000_0000 in {0, 0xFFFF} && Denied(SocketAddr(V4(o[12..]), port), DenyUnsafe))
  {
    hide FromBigEndian, DenyIpv4;
    TopBlock(o);
    NamedHosts(o);
    UpperAndLower(o);
    Prefixes(o);
    UpperHalf(FromBigEndian(o), FromBigEndian(o[..12]), FromBigEndian(o[12..]));
  }

  lemma UpperHalf(n: nat, hi: nat, lo: nat)
    requires n == hi * 0x1_0000_0000 + lo && lo < 0x1_0000_0000
    ensures n / 0x1_0000_0000 == hi
  {}
}
