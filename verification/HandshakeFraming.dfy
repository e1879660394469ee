/** Handshake fragments: fixed-size datagrams, their parser, and order-free assembly. */
module HandshakeFraming {
  import opened Bytes
  import opened Codec

  const HS_FRAG_HEADER_LEN: nat := 12
  const HS_FRAG_BODY_MAX: nat := PACKET_SIZE - HS_FRAG_HEADER_LEN

  const SIGNATURE_LEN: nat := 3309
  const KEM_PUBLIC_LEN: nat := 1184
  const KEM_CIPHERTEXT_LEN: nat := 1088
  const X25519_LEN: nat := 32
  const FINISHED_MAC_LEN: nat := 16

  const M1_BODY_LEN: nat := 1 + SESSION_ID_LEN + KEM_PUBLIC_LEN + X25519_LEN + SIGNATURE_LEN
  const M2_BODY_LEN: nat := 1 + SESSION_ID_LEN + KEM_PUBLIC_LEN + X25519_LEN + KEM_CIPHERTEXT_LEN + SIGNATURE_LEN
  const M3_BODY_LEN: nat := 1 + SESSION_ID_LEN + KEM_CIPHERTEXT_LEN + FINISHED_MAC_LEN

  /** The three messages. */
  datatype HsType = ClientHello | ServerHello | ClientConfirm

  function TypeCode(t: HsType): byte {
    match t
    case ClientHello => 0x10
    case ServerHello => 0x20
    case ClientConfirm => 0x30
  }

  function HsTypeOf(b: byte): Option<HsType> {
    if b == 0x10 then Some(ClientHello)
    else if b == 0x20 then Some(ServerHello)
    else if b == 0x30 then Some(ClientConfirm)
    else None
  }

  function FragTotal(t: HsType): (n: nat)
    ensures 1 <= n <= 5
  {
    match t
    case ClientHello => 4
    case ServerHello => 5
    case ClientConfirm => 1
  }

  function BodyLen(t: HsType): (n: nat)
    ensures (FragTotal(t) - 1) * HS_FRAG_BODY_MAX < n <= FragTotal(t) * HS_FRAG_BODY_MAX
  {
    match t
    case ClientHello => M1_BODY_LEN
    case ServerHello => M2_BODY_LEN
    case ClientConfirm => M3_BODY_LEN
  }

  /** Length of fragment `i` of a message of type `t`. */
  function SliceLen(t: HsType, i: nat): (n: nat)
    requires i < FragTotal(t)
    ensures 0 < n <= HS_FRAG_BODY_MAX && i * HS_FRAG_BODY_MAX + n <= BodyLen(t)
  {
    Min(BodyLen(t) - i * HS_FRAG_BODY_MAX, HS_FRAG_BODY_MAX)
  }

  function Slice(t: HsType, message: seq<byte>, i: nat): (s: seq<byte>)
    requires |message| == BodyLen(t) && i < FragTotal(t)
    ensures |s| == SliceLen(t, i)
  {
    message[i * HS_FRAG_BODY_MAX..i * HS_FRAG_BODY_MAX + SliceLen(t, i)]
  }

  // ---------------------------------------------------------------------
  // Datagrams
  // ---------------------------------------------------------------------

  datatype Fragment = Fragment(sid: SessionId, hsType: HsType, idx: nat, body: seq<byte>) {
    predicate Valid() { idx < FragTotal(hsType) && |body| == SliceLen(hsType, idx) }
  }

  /** `from_datagram`; every malformed datagram is dropped by every caller. */
  function FromDatagram(pkt: WirePacket): (r: Result<Fragment>)
    ensures r.Ok? ==> r.value.Valid()
  {
    var t := HsTypeOf(pkt[9]);
    if pkt[0] != PROTOCOL_VERSION then Err(InvalidVersion)
    else if t.None? then Err(InvalidMessageType)
    else if pkt[11] != FragTotal(t.value) then Err(Truncated)
    else if pkt[10] >= pkt[11] then Err(Truncated)
    else
      var n := SliceLen(t.value, pkt[10]);
      Ok(Fragment(pkt[1..9], t.value, pkt[10], pkt[HS_FRAG_HEADER_LEN..HS_FRAG_HEADER_LEN + n]))
  }

  function DatagramAt(t: HsType, version: byte, sid: SessionId, message: seq<byte>, i: nat): WirePacket
    requires |message| == BodyLen(t) && i < FragTotal(t)
  {
    Padded(version, sid, t, i, Slice(t, message, i))
  }

  /** Header, body and zero padding up to the packet size. */
  function Padded(version: byte, sid: SessionId, t: HsType, i: nat, body: seq<byte>): WirePacket
    requires i < FragTotal(t) && |body| <= HS_FRAG_BODY_MAX
  {
    [version] + sid + [TypeCode(t), i, FragTotal(t)] + body + Zeros(HS_FRAG_BODY_MAX - |body|)
  }

  function Datagrams(t: HsType, version: byte, sid: SessionId, message: seq<byte>): (ds: seq<WirePacket>)
    requires |message| == BodyLen(t)
    ensures |ds| == FragTotal(t)
  {
    seq(FragTotal(t), i requires 0 <= i < FragTotal(t) => DatagramAt(t, version, sid, message, i))
  }

  lemma SliceEnds(t: HsType, i: nat)
    requires i < FragTotal(t)
    ensures i * HS_FRAG_BODY_MAX + SliceLen(t, i) == Min((i * HS_FRAG_BODY_MAX) + HS_FRAG_BODY_MAX, BodyLen(t))
  {}

  method FragmentMessage(t: HsType, version: byte, sid: SessionId, message: seq<byte>)
    returns (r: Result<seq<WirePacket>>)
    ensures r == if |message| == BodyLen(t) then Ok(Datagrams(t, version, sid, message)) else Err(WrongLength)
  {
    hide Padded, SliceLen;
    if |message| != BodyLen(t) {
      return Err(WrongLength);
    }
    var out: seq<WirePacket> := [];
    for i := 0 to FragTotal(t)
      invariant |out| == i
      invariant forall j | 0 <= j < i :: out[j] == DatagramAt(t, version, sid, message, j)
    {
      var start := i * HS_FRAG_BODY_MAX;
      var end := Min(start + HS_FRAG_BODY_MAX, |message|);
      SliceEnds(t, i);
      var dg := Padded(version, sid, t, i, message[start..end]);
      out := out + [dg];
    }
    assert out == Datagrams(t, version, sid, message);
    return Ok(out);
  }

  /** A datagram parses back to the fragment it was cut from, and is zero after it. */
  lemma DatagramRoundTrip(t: HsType, sid: SessionId, message: seq<byte>, i: nat)
    requires |message| == BodyLen(t) && i < FragTotal(t)
    ensures var d := DatagramAt(t, PROTOCOL_VERSION, sid, message, i);
            && d[9] == TypeCode(t) && FromDatagram(d) == Ok(Fragment(sid, t, i, Slice(t, message, i)))
            && forall k | HS_FRAG_HEADER_LEN + SliceLen(t, i) <= k < PACKET_SIZE :: d[k] == 0
  {
    var d, n := DatagramAt(t, PROTOCOL_VERSION, sid, message, i), SliceLen(t, i);
    assert d[1..9] == sid;
    assert d[HS_FRAG_HEADER_LEN..HS_FRAG_HEADER_LEN + n] == Slice(t, message, i);
  }

  /** The fragments of a message by its type byte: none for a byte that names no message. */
  function TotalByCode(b: byte): nat {
    match b
    case 0x10 => 4
    case 0x20 => 5
    case 0x30 => 1
    case _ => 0
  }

  /** A datagram parses exactly with the version, a message's type and total, and an index below it. */
  lemma ParsesExactly(pkt: WirePacket)
    ensures FromDatagram(pkt).Ok? <==> pkt[0] == PROTOCOL_VERSION && pkt[10] < pkt[11] == TotalByCode(pkt[9])
    ensures FromDatagram(pkt).Ok? ==>
              var f := FromDatagram(pkt).value;
              f.sid == pkt[1..9] && TypeCode(f.hsType) == pkt[9] && f.idx == pkt[10] && f.body <= pkt[12..]
  {
    hide SliceLen;
  }

  // ---------------------------------------------------------------------
  // Assembly
  // ---------------------------------------------------------------------

  datatype FragmentResult = Ignored | Advanced | Completed

  datatype Assembler = Assembler(hsType: HsType, received: seq<bool>, buffer: seq<byte>, complete: bool) {
    /** Sized for the largest message; only the first `FragTotal` flags are used. */
    ghost predicate Valid() {
      && |received| == 5 && |buffer| == BodyLen(hsType)
      && (complete <==> Full())
    }

    predicate Full()
      requires |received| == 5
    {
      forall i | 0 <= i < FragTotal(hsType) :: received[i]
    }
  }

  function NewAssembler(t: HsType): Assembler {
    Assembler(t, [false, false, false, false, false], Zeros(BodyLen(t)), false)
  }

  datatype Added = Added(assembler: Assembler, result: FragmentResult)

  function AddFragment(a: Assembler, f: Fragment): Added
    requires |a.received| == 5
  {
    var start := f.idx * HS_FRAG_BODY_MAX;
    if a.complete || f.hsType != a.hsType then Added(a, Ignored)
    else if f.idx >= FragTotal(a.hsType) || a.received[f.idx] then Added(a, Ignored)
    else if start + |f.body| > |a.buffer| then Added(a, Ignored)
    else
      var a' := a.(received := a.received[f.idx := true],
                   buffer := a.buffer[..start] + f.body + a.buffer[start + |f.body|..]);
      if a'.Full() then Added(a'.(complete := true), Completed) else Added(a', Advanced)
  }

  /** The assembler as the source holds it: two buffers updated in place. */
  class FragmentAssembler {
    const hsType: HsType
    const received: array<bool>
    const buffer: array<byte>
    var complete: bool

    ghost predicate Valid()
      reads this, received, buffer
    {
      received.Length == 5 && View().Valid()
    }

    ghost function View(): Assembler
      reads this, received, buffer
    {
      Assembler(hsType, received[..], buffer[..], complete)
    }

    constructor (t: HsType)
      ensures Valid() && fresh(received) && fresh(buffer) && View() == NewAssembler(t)
    {
      hsType := t;
      received := new bool[5](_ => false);
      buffer := new byte[BodyLen(t)](_ => 0);
      complete := false;
      new;
      assert !View().received[0];
    }

    method Add(f: Fragment) returns (r: FragmentResult)
      requires Valid()
      modifies this`complete, received, buffer
      ensures Valid() && Added(View(), r) == AddFragment(old(View()), f)
    {
      if complete || f.hsType != hsType {
        return Ignored;
      }
      if f.idx >= FragTotal(hsType) || received[f.idx] {
        return Ignored;
      }
      var start := f.idx * HS_FRAG_BODY_MAX;
      if start + |f.body| > buffer.Length {
        return Ignored;
      }
      received[f.idx] := true;
      Copy(start, f.body);
      var all := AllReceived();
      if all {
        complete := true;
        return Completed;
      }
      return Advanced;
    }

    method Copy(start: nat, body: seq<byte>)
      requires start + |body| <= buffer.Length
      modifies buffer
      ensures buffer[..] == old(buffer[..start]) + body + old(buffer[start + |body|..])
    {
      for i := 0 to |body|
        invariant buffer[..] == old(buffer[..start]) + body[..i] + old(buffer[start + i..])
      {
        buffer[start + i] := body[i];
      }
    }

    method AllReceived() returns (all: bool)
      requires received.Length == 5
      ensures all <==> forall i | 0 <= i < FragTotal(hsType) :: received[i]
    {
      all := true;
      for i := 0 to FragTotal(hsType)
        invariant all <==> forall j | 0 <= j < i :: received[j]
      {
        all := all && received[i];
      }
    }

    method Message() returns (m: Option<seq<byte>>)
      requires Valid()
      ensures m == if View().Full() then Some(View().buffer) else None
    {
      m := if complete then Some(buffer[..]) else None;
    }
  }

  /** What has arrived so far are fragments of `message`. */
  ghost predicate Holds(a: Assembler, message: seq<byte>) {
    && a.Valid() && |message| == BodyLen(a.hsType)
    && forall i | 0 <= i < FragTotal(a.hsType) && a.received[i] ::
         Slice(a.hsType, a.buffer, i) == Slice(a.hsType, message, i)
  }

  lemma NewHolds(t: HsType, message: seq<byte>)
    requires |message| == BodyLen(t)
    ensures Holds(NewAssembler(t), message)
  {
    assert !NewAssembler(t).received[0];
  }

  lemma AddKeepsValid(a: Assembler, f: Fragment)
    requires a.Valid()
    ensures AddFragment(a, f).assembler.Valid() && AddFragment(a, f).assembler.hsType == a.hsType
  {}

  lemma SlicesCover(t: HsType, a: seq<byte>, b: seq<byte>)
    requires |a| == |b| == BodyLen(t)
    requires forall i | 0 <= i < FragTotal(t) :: Slice(t, a, i) == Slice(t, b, i)
    ensures a == b
  {
    hide SliceLen, Slice;
    forall j | 0 <= j < |a| ensures a[j] == b[j] {
      var i := SliceOf(t, j);
      assert Slice(t, a, i) == Slice(t, b, i);
      SliceByte(t, a, i, j);
      SliceByte(t, b, i, j);
    }
  }

  lemma SliceByte(t: HsType, m: seq<byte>, i: nat, j: nat)
    requires |m| == BodyLen(t) && i < FragTotal(t) && i * HS_FRAG_BODY_MAX <= j < i * HS_FRAG_BODY_MAX + SliceLen(t, i)
    ensures Slice(t, m, i)[j - i * HS_FRAG_BODY_MAX] == m[j]
  {
    hide SliceLen;
  }

  /** Every byte of a message lies in one of its slices. */
  lemma SliceOf(t: HsType, j: nat) returns (i: nat)
    requires j < BodyLen(t)
    ensures i < FragTotal(t) && i * HS_FRAG_BODY_MAX <= j < i * HS_FRAG_BODY_MAX + SliceLen(t, i)
  {
    i := j / HS_FRAG_BODY_MAX;
    SliceEndsAt(t, i, j);
  }

  lemma SliceEndsAt(t: HsType, i: nat, j: nat)
    requires j < BodyLen(t) && i * HS_FRAG_BODY_MAX <= j < i * HS_FRAG_BODY_MAX + HS_FRAG_BODY_MAX
    ensures i < FragTotal(t) && j < i * HS_FRAG_BODY_MAX + SliceLen(t, i)
  {}

  /** An honest fragment is recorded, and the last missing one yields the message. */
  lemma AddHonest(a: Assembler, message: seq<byte>, sid: SessionId, i: nat)
    requires Holds(a, message) && i < FragTotal(a.hsType)
    ensures var f := Fragment(sid, a.hsType, i, Slice(a.hsType, message, i));
            var r := AddFragment(a, f);
            if a.complete || a.received[i] then r == Added(a, Ignored)
            else
              && Holds(r.assembler, message) && r.assembler.received == a.received[i := true]
              && r.assembler.hsType == a.hsType
              && r.result == (if r.assembler.Full() then Completed else Advanced)
              && (r.assembler.Full() ==> r.assembler.buffer == message)
  {
    var t := a.hsType;
    var r := AddFragment(a, Fragment(sid, t, i, Slice(t, message, i)));
    if !a.complete && !a.received[i] {
      forall j | 0 <= j < FragTotal(t) && r.assembler.received[j]
        ensures Slice(t, r.assembler.buffer, j) == Slice(t, message, j)
      {
        AddedSlice(a.buffer, r.assembler.buffer, message, t, i, j);
      }
      if r.assembler.Full() { SlicesCover(t, r.assembler.buffer, message); }
    }
  }

  /** Slices of different fragments do not overlap. */
  lemma SlicesApart(t: HsType, i: nat, j: nat)
    requires i < j < FragTotal(t)
    ensures i * HS_FRAG_BODY_MAX + SliceLen(t, i) <= j * HS_FRAG_BODY_MAX
  {
    assert (i + 1) * HS_FRAG_BODY_MAX <= j * HS_FRAG_BODY_MAX;
  }

  /** A piece of `from` outside the patch is untouched; the patch itself is what was written. */
  lemma PatchedPiece(from: seq<byte>, start: nat, patch: seq<byte>, lo: nat, hi: nat)
    requires start + |patch| <= |from| && lo <= hi <= |from|
    ensures var to := from[..start] + patch + from[start + |patch|..];
            && |to| == |from|
            && (hi <= start || start + |patch| <= lo ==> to[lo..hi] == from[lo..hi])
            && to[start..start + |patch|] == patch
  {}

  lemma AddedSlice(from: seq<byte>, to: seq<byte>, message: seq<byte>, t: HsType, i: nat, j: nat)
    requires |from| == |to| == |message| == BodyLen(t) && i < FragTotal(t) && j < FragTotal(t)
    requires var start := i * HS_FRAG_BODY_MAX;
             to == from[..start] + Slice(t, message, i) + from[start + SliceLen(t, i)..]
    ensures Slice(t, to, j) == if j == i then Slice(t, message, i) else Slice(t, from, j)
  {
    hide SliceLen;
    var lo, n := j * HS_FRAG_BODY_MAX, SliceLen(t, j);
    PatchedPiece(from, i * HS_FRAG_BODY_MAX, Slice(t, message, i), lo, lo + n);
    if i < j { SlicesApart(t, i, j); }
    if j < i { SlicesApart(t, j, i); }
  }

  /** An accepted fragment lands in its own slice and disturbs no other. */
  lemma AddStores(a: Assembler, f: Fragment)
    requires a.Valid() && f.Valid() && f.hsType == a.hsType && AddFragment(a, f).result != Ignored
    ensures var a' := AddFragment(a, f).assembler;
            && a'.Valid() && a'.hsType == a.hsType && !a.received[f.idx] && a'.received == a.received[f.idx := true]
            && (a'.complete <==> AddFragment(a, f).result == Completed)
            && forall j | 0 <= j < FragTotal(a.hsType) ::
                 Slice(a.hsType, a'.buffer, j) == if j == f.idx then f.body else Slice(a.hsType, a.buffer, j)
  {
    var t, a' := a.hsType, AddFragment(a, f).assembler;
    var start := f.idx * HS_FRAG_BODY_MAX;
    assert a'.buffer[start..start + |f.body|] == f.body;
    forall j | 0 <= j < FragTotal(t)
      ensures Slice(t, a'.buffer, j) == if j == f.idx then f.body else Slice(t, a.buffer, j)
    {
      AddedSlice(a.buffer, a'.buffer, a'.buffer, t, f.idx, j);
    }
  }

  /** A fragment is ignored exactly once the message is whole, or if it is of another message, or was already received. */
  lemma IgnoresExactly(a: Assembler, f: Fragment)
    requires a.Valid() && f.Valid()
    ensures AddFragment(a, f).result == Ignored <==> a.Full() || f.hsType != a.hsType || a.received[f.idx]
    ensures AddFragment(a, f).result == Ignored <==> AddFragment(a, f).assembler == a
  {
    hide SliceLen;
    if f.hsType == a.hsType { FitsSlice(f); }
  }

  lemma FitsSlice(f: Fragment)
    requires f.Valid()
    ensures f.idx * HS_FRAG_BODY_MAX + |f.body| <= BodyLen(f.hsType)
  {}

  lemma FirstIsAdded(f: Fragment)
    requires f.Valid() && f.hsType == ClientHello && f.idx == 0
    ensures AddFragment(NewAssembler(ClientHello), f).result != Ignored
  {}

  lemma FragmentType(pkt: WirePacket)
    ensures FromDatagram(pkt).Ok? ==> (pkt[9] == TypeCode(ServerHello) <==> FromDatagram(pkt).value.hsType == ServerHello)
  {}
}
