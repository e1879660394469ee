/** Relay framing inside a payload slot, and the client's binding map. */
module Relay {
  import opened Bytes
  import opened Net
  import Codec
  import Lru
  import Sets

  const FAMILY_IPV4: byte := 0x04
  const FAMILY_IPV6: byte := 0x06
  const HDR_LEN_V4: nat := 9
  const HDR_LEN_V6: nat := 21
  const MAX_DATAGRAM_V4: nat := Codec.PAYLOAD_LEN - HDR_LEN_V4
  const MAX_DATAGRAM_V6: nat := Codec.PAYLOAD_LEN - HDR_LEN_V6

  datatype RelayError = Truncated(len: nat) | BadFamily(family: byte) | TooLarge(max: nat, got: nat)

  type Result<T> = Fallible<T, RelayError>

  datatype Frame = Frame(dest: SocketAddr, payload: seq<byte>)

  function Octets(a: Ip): (s: seq<byte>)
    ensures |s| == if a.V4? then 4 else 16
  {
    match a
    case V4(o) => o
    case V6(o) => o
  }

  function Family(a: Ip): byte { if a.V4? then FAMILY_IPV4 else FAMILY_IPV6 }

  function MaxDatagram(a: Ip): nat { if a.V4? then MAX_DATAGRAM_V4 else MAX_DATAGRAM_V6 }

  function EncodeRelay(f: Frame): Result<seq<byte>> {
    var max := MaxDatagram(f.dest.ip);
    if |f.payload| > max then Err(TooLarge(max, |f.payload|))
    else Ok([Family(f.dest.ip)] + Octets(f.dest.ip) + BigEndian(f.dest.port, 2) + BigEndian(|f.payload|, 2) + f.payload)
  }

  /** Capacity is checked before truncation; what follows the declared datagram is padding. */
  function DecodeRelay(msg: seq<byte>): Result<Frame> {
    if msg == [] then Err(Truncated(0))
    else if msg[0] == FAMILY_IPV4 then
      if |msg| < HDR_LEN_V4 then Err(Truncated(|msg|))
      else Body(SocketAddr(V4(msg[1..5]), Port(msg[5..7])), msg, HDR_LEN_V4, MAX_DATAGRAM_V4)
    else if msg[0] == FAMILY_IPV6 then
      if |msg| < HDR_LEN_V6 then Err(Truncated(|msg|))
      else Body(SocketAddr(V6(msg[1..17]), Port(msg[17..19])), msg, HDR_LEN_V6, MAX_DATAGRAM_V6)
    else Err(BadFamily(msg[0]))
  }

  function Port(s: seq<byte>): (p: u16)
    requires |s| == 2
  {
    Widths();
    FromBigEndian(s)
  }

  function Body(dest: SocketAddr, msg: seq<byte>, hdr: nat, max: nat): Result<Frame>
    requires 2 <= hdr <= |msg|
  {
    var len := FromBigEndian(msg[hdr - 2..hdr]);
    if len > max then Err(TooLarge(max, len))
    else if |msg| < hdr + len then Err(Truncated(|msg|))
    else Ok(Frame(dest, msg[hdr..hdr + len]))
  }

  lemma SmallFits(n: nat)
    requires n <= Codec.PAYLOAD_LEN
    ensures n < Pow256(2)
  {
    Widths();
  }

  lemma PortFits(p: u16)
    ensures p < Pow256(2)
  {
    Widths();
  }

  /** Where the parts of a padded frame lie. */
  lemma PartsLie(family: byte, octets: seq<byte>, port: seq<byte>, len: seq<byte>, payload: seq<byte>, padding: seq<byte>)
    requires |port| == |len| == 2
    ensures var msg, n := [family] + octets + port + len + payload + padding, |octets|;
            && msg[0] == family && msg[1..1 + n] == octets && msg[1 + n..3 + n] == port && msg[3 + n..5 + n] == len
            && msg[5 + n..5 + n + |payload|] == payload
  {}

  /** A frame followed by any padding decodes to what was framed. */
  lemma DecodeOfEncode(f: Frame, padding: seq<byte>)
    requires EncodeRelay(f).Ok?
    ensures DecodeRelay(EncodeRelay(f).value + padding) == Ok(f)
  {
    hide BigEndian, FromBigEndian, Pow256;
    SmallFits(|f.payload|);
    PortFits(f.dest.port);
    FromBigEndianOfBigEndian(f.dest.port, 2);
    FromBigEndianOfBigEndian(|f.payload|, 2);
    PartsLie(Family(f.dest.ip), Octets(f.dest.ip), BigEndian(f.dest.port, 2), BigEndian(|f.payload|, 2), f.payload, padding);
  }

  /** Whatever decodes can be framed again, and the frame is how the message began. */
  lemma EncodeOfDecode(msg: seq<byte>)
    requires DecodeRelay(msg).Ok?
    ensures var r := EncodeRelay(DecodeRelay(msg).value);
            r.Ok? && r.value <= msg
  {
    hide BigEndian, FromBigEndian, Pow256;
    if msg[0] == FAMILY_IPV4 {
      Reframed(SocketAddr(V4(msg[1..5]), Port(msg[5..7])), msg, 4);
    } else {
      Reframed(SocketAddr(V6(msg[1..17]), Port(msg[17..19])), msg, 16);
    }
  }

  /** The five parts a frame with `n` address octets is made of. */
  lemma FrameParts(msg: seq<byte>, n: nat, len: nat)
    requires 5 + n + len <= |msg|
    ensures msg[..5 + n + len] == [msg[0]] + msg[1..1 + n] + msg[1 + n..3 + n] + msg[3 + n..5 + n] + msg[5 + n..5 + n + len]
  {}

  lemma Reframed(dest: SocketAddr, msg: seq<byte>, n: nat)
    requires 5 + n <= |msg| && msg[0] == Family(dest.ip) && Octets(dest.ip) == msg[1..1 + n]
    requires dest.port == FromBigEndian(msg[1 + n..3 + n]) && Body(dest, msg, 5 + n, MaxDatagram(dest.ip)).Ok?
    ensures var r := EncodeRelay(Body(dest, msg, 5 + n, MaxDatagram(dest.ip)).value);
            r.Ok? && r.value <= msg
  {
    hide BigEndian, FromBigEndian, Pow256, Octets, Family, MaxDatagram;
    var len := FromBigEndian(msg[3 + n..5 + n]);
    BigEndianOfFromBigEndian(msg[1 + n..3 + n]);
    BigEndianOfFromBigEndian(msg[3 + n..5 + n]);
    FrameParts(msg, n, len);
  }

  /** What decodes is exactly a frame followed by padding. */
  lemma DecodesExactly(msg: seq<byte>, f: Frame)
    ensures DecodeRelay(msg) == Ok(f) <==> EncodeRelay(f).Ok? && EncodeRelay(f).value <= msg
  {
    hide DecodeRelay, EncodeRelay;
    if DecodeRelay(msg) == Ok(f) { EncodeOfDecode(msg); }
    if EncodeRelay(f).Ok? && EncodeRelay(f).value <= msg {
      var frame := EncodeRelay(f).value;
      assert msg == frame + msg[|frame|..];
      DecodeOfEncode(f, msg[|frame|..]);
    }
  }

  lemma PartOfTake(s: seq<byte>, n: nat, lo: nat, hi: nat)
    requires lo <= hi <= n <= |s|
    ensures s[..n][lo..hi] == s[lo..hi]
  {}

  /** A frame cut short anywhere is reported truncated, at its actual length. */
  lemma CutShort(f: Frame, n: nat)
    requires EncodeRelay(f).Ok? && n < |EncodeRelay(f).value|
    ensures DecodeRelay(EncodeRelay(f).value[..n]) == Err(Truncated(n))
  {
    hide BigEndian, FromBigEndian, Pow256;
    var frame := EncodeRelay(f).value;
    var msg, k := frame[..n], |Octets(f.dest.ip)|;
    SmallFits(|f.payload|);
    FromBigEndianOfBigEndian(|f.payload|, 2);
    PartsLie(Family(f.dest.ip), Octets(f.dest.ip), BigEndian(f.dest.port, 2), BigEndian(|f.payload|, 2), f.payload, []);
    assert frame + [] == frame;
    if n >= 5 + k { PartOfTake(frame, n, 3 + k, 5 + k); }
  }

  /** A header that declares more than a slot can carry is too large, however much of the datagram is there. */
  lemma OverCapacity(dest: SocketAddr, len: nat, rest: seq<byte>)
    requires MaxDatagram(dest.ip) < len < 0x1_0000
    ensures DecodeRelay([Family(dest.ip)] + Octets(dest.ip) + BigEndian(dest.port, 2) + BigEndian(len, 2) + rest)
         == Err(TooLarge(MaxDatagram(dest.ip), len))
  {
    hide BigEndian, FromBigEndian, Pow256;
    Widths();
    FromBigEndianOfBigEndian(len, 2);
    PartsLie(Family(dest.ip), Octets(dest.ip), BigEndian(dest.port, 2), BigEndian(len, 2), rest, []);
    var msg := [Family(dest.ip)] + Octets(dest.ip) + BigEndian(dest.port, 2) + BigEndian(len, 2) + rest;
    assert msg + [] == msg;
  }

  /** A frame never outgrows the payload slot, and refusal is exactly about size. */
  lemma EncodeFits(f: Frame)
    ensures EncodeRelay(f).Ok? <==> HDR_LEN_V4 + (if f.dest.ip.V4? then 0 else 12) + |f.payload| <= Codec.PAYLOAD_LEN
    ensures EncodeRelay(f).Ok? ==> |EncodeRelay(f).value| <= Codec.PAYLOAD_LEN
  {}

  // ---------------------------------------------------------------------
  // Bindings
  // ---------------------------------------------------------------------

  const MAP_TTL: nat := 60_000_000_000
  const MAP_MAX: nat := 256

  datatype Binding = Binding(app: SocketAddr, lastUse: Instant)

  type Bindings = map<SocketAddr, Binding>

  function LastUses(b: Bindings): map<SocketAddr, Instant> { map k | k in b :: b[k].lastUse }

  predicate Expired(b: Binding, now: Instant) { Since(now, b.lastUse) > MAP_TTL }

  function Unexpired(b: Bindings, now: Instant): Bindings { map k | k in b && !Expired(b[k], now) :: b[k] }

  /** The unexpired bindings, cut to the cap by oldest last use. */
  ghost predicate Pruned(before: Bindings, now: Instant, after: Bindings) {
    && (forall k | k in after :: k in before && after[k] == before[k])
    && Lru.Trimmed(LastUses(Unexpired(before, now)), LastUses(Unexpired(before, now)).Keys, MAP_MAX, LastUses(after))
  }

  class BindingMap {
    var bindings: Bindings

    constructor ()
      ensures bindings == map[]
    {
      bindings := map[];
    }

    method Prune(now: Instant)
      modifies this
      ensures Pruned(old(bindings), now, bindings)
    {
      RemoveExpired(now);
      EvictOldest();
      assert LastUses(bindings).Keys == bindings.Keys;
    }

    method RemoveExpired(now: Instant)
      modifies this
      ensures bindings == Unexpired(old(bindings), now)
    {
      var keys := bindings.Keys;
      var expired: set<SocketAddr> := {};
      while keys != {}
        invariant bindings == old(bindings) && keys <= bindings.Keys
        invariant expired == set k | k in bindings.Keys - keys && Expired(bindings[k], now)
        decreases |keys|
      {
        var k :| k in keys;
        keys := keys - {k};
        if Expired(bindings[k], now) {
          expired := expired + {k};
        }
      }
      bindings := bindings - expired;
    }

    method EvictOldest()
      modifies this
      ensures forall k | k in bindings :: k in old(bindings) && bindings[k] == old(bindings[k])
      ensures Lru.Trimmed(LastUses(old(bindings)), LastUses(old(bindings)).Keys, MAP_MAX, LastUses(bindings))
    {
      ghost var start := LastUses(bindings);
      while |bindings| > MAP_MAX
        invariant forall k | k in bindings :: k in old(bindings) && bindings[k] == old(bindings[k])
        invariant Leads(start, LastUses(bindings))
        decreases |bindings|
      {
        var uses := LastUses(bindings);
        assert uses.Keys == bindings.Keys;
        assert |uses.Keys| > MAP_MAX;
        var k := Lru.FindOldest(uses, uses.Keys);
        LeadsOn(start, uses, k);
        bindings := bindings - {k};
        assert LastUses(bindings) == uses - {k};
      }
      assert LastUses(bindings).Keys == bindings.Keys;
      Lru.NothingToTrim(LastUses(bindings), LastUses(bindings).Keys, MAP_MAX);
    }
  }

  /** Trimming `m` is trimming `start`. */
  ghost predicate Leads(start: map<SocketAddr, Instant>, m: map<SocketAddr, Instant>) {
    forall after | Lru.Trimmed(m, m.Keys, MAP_MAX, after) :: Lru.Trimmed(start, start.Keys, MAP_MAX, after)
  }

  lemma LeadsOn(start: map<SocketAddr, Instant>, m: map<SocketAddr, Instant>, k: SocketAddr)
    requires Leads(start, m) && |m.Keys| > MAP_MAX && Lru.IsOldest(m, m.Keys, k)
    ensures Leads(start, m - {k})
  {
    assert (m - {k}).Keys == m.Keys - {k};
    forall after | Lru.Trimmed(m - {k}, (m - {k}).Keys, MAP_MAX, after)
      ensures Lru.Trimmed(start, start.Keys, MAP_MAX, after)
    {
      Lru.TrimOne(m, m.Keys, MAP_MAX, k, after);
    }
  }

  /** What pruning promises, spelled out. */
  lemma PruneBounds(before: Bindings, now: Instant, after: Bindings)
    requires Pruned(before, now, after)
    ensures |after| <= MAP_MAX && forall k | k in after :: !Expired(after[k], now)
    ensures forall gone, kept | gone in before && gone !in after && !Expired(before[gone], now) && kept in after ::
              before[gone].lastUse <= after[kept].lastUse
    ensures |Unexpired(before, now)| <= MAP_MAX ==> after == Unexpired(before, now)
  {
    var live, uses := Unexpired(before, now), LastUses(Unexpired(before, now));
    var rest := LastUses(after);
    assert uses.Keys == live.Keys && rest.Keys == after.Keys;
    assert uses.Keys * rest.Keys == rest.Keys;
    forall gone, kept | gone in before && gone !in after && !Expired(before[gone], now) && kept in after
      ensures before[gone].lastUse <= after[kept].lastUse
    {
      assert gone in uses.Keys - rest.Keys && kept in uses.Keys * rest.Keys;
    }
    if |live| <= MAP_MAX {
      Sets.SameSize(rest.Keys, uses.Keys);
    }
  }

  /** Used within the last minute. */
  ghost predicate Recent(b: Bindings, k: SocketAddr, now: Instant) {
    k in b && now - b[k].lastUse <= 60_000_000_000
  }

  /** At most 256 bindings stay, none unused for a minute; and while the recent ones are that few, all of them stay. */
  lemma StaysExactly(before: Bindings, now: Instant, after: Bindings, k: SocketAddr)
    requires Pruned(before, now, after)
    ensures |after| <= 256 && (k in after ==> Recent(before, k, now) && after[k] == before[k])
    ensures |set b | b in before && Recent(before, b, now)| <= 256 ==> (k in after <==> Recent(before, k, now))
  {
    hide Pruned;
    PruneBounds(before, now, after);
    PrunedIsPart(before, now, after);
    assert (set b | b in before && Recent(before, b, now)) == Unexpired(before, now).Keys;
  }

  lemma PrunedIsPart(before: Bindings, now: Instant, after: Bindings)
    requires Pruned(before, now, after)
    ensures forall k | k in after :: k in before && after[k] == before[k]
  {}
}
