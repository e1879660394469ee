/** Handshake messages, the zero-filled transcript and the key schedule, over any crypto suite. */
module HandshakeMessages {
  import opened Bytes
  import opened Codec
  import opened HandshakeFraming

  type Digest = d: seq<byte> | |d| == 32 witness Zeros(32)
  type Secret = s: seq<byte> | |s| == 32 witness Zeros(32)
  type Signature = s: seq<byte> | |s| == SIGNATURE_LEN witness Zeros(SIGNATURE_LEN)
  type KemPublic = s: seq<byte> | |s| == KEM_PUBLIC_LEN witness Zeros(KEM_PUBLIC_LEN)
  type KemCiphertext = s: seq<byte> | |s| == KEM_CIPHERTEXT_LEN witness Zeros(KEM_CIPHERTEXT_LEN)
  type DhPublic = s: seq<byte> | |s| == X25519_LEN witness Zeros(X25519_LEN)
  type Mac = s: seq<byte> | |s| == FINISHED_MAC_LEN witness Zeros(FINISHED_MAC_LEN)

  type SignKey = seq<byte>
  type VerifyKey = seq<byte>
  type KemSecret = seq<byte>
  type DhSecret = seq<byte>
  type Coins = seq<byte>

  datatype Encapsulated = Encapsulated(secret: Secret, ciphertext: KemCiphertext)

  /** The primitives, as functions the protocol treats as opaque. */
  datatype Suite = Suite(
    hash: seq<byte> -> Digest,
    verifyKey: SignKey -> VerifyKey,
    sign: (SignKey, Digest) -> Signature,
    verify: (VerifyKey, Digest, Signature) -> bool,
    signatureParses: Signature -> bool,
    kemPublic: KemSecret -> KemPublic,
    kemPublicParses: KemPublic -> bool,
    encapsulate: (KemPublic, Coins) -> Encapsulated,
    decapsulate: (KemSecret, KemCiphertext) -> Secret,
    dhPublic: DhSecret -> DhPublic,
    dh: (DhSecret, DhPublic) -> Option<Secret>,
    hkdf: (seq<byte>, seq<byte>) -> Secret,
    hmac: (Secret, Digest) -> Mac)

  /** What correct implementations promise honest parties. */
  ghost predicate Lawful(c: Suite) {
    && (forall k, d :: c.verify(c.verifyKey(k), d, c.sign(k, d)))
    && (forall k, d :: c.signatureParses(c.sign(k, d)))
    && (forall k :: c.kemPublicParses(c.kemPublic(k)))
    && (forall k, r :: c.decapsulate(k, c.encapsulate(c.kemPublic(k), r).ciphertext)
                       == c.encapsulate(c.kemPublic(k), r).secret)
    && (forall a, b :: c.dh(a, c.dhPublic(b)) == c.dh(b, c.dhPublic(a)))
    && (forall a, b :: c.dh(a, c.dhPublic(b)).Some?)
  }

  /** The laws are consistent: some suite, however weak, meets them. */
  lemma LawsAreConsistent()
    ensures exists c :: Lawful(c)
  {
    var c := Suite(
      _ => Zeros(32), k => k, (_, _) => Zeros(SIGNATURE_LEN), (_, _, _) => true, _ => true,
      _ => Zeros(KEM_PUBLIC_LEN), _ => true, (_, _) => Encapsulated(Zeros(32), Zeros(KEM_CIPHERTEXT_LEN)), (_, _) => Zeros(32),
      _ => Zeros(X25519_LEN), (_, _) => Some(Zeros(32)), (_, _) => Zeros(32), (_, _) => Zeros(FINISHED_MAC_LEN));
    assert Lawful(c);
  }

  function Ascii(s: string): seq<byte> {
    seq(|s|, i requires 0 <= i < |s| => s[i] as int % 256)
  }

  // ---------------------------------------------------------------------
  // Message bodies
  // ---------------------------------------------------------------------

  type Message1 = m: seq<byte> | |m| == M1_BODY_LEN witness Zeros(M1_BODY_LEN)
  type Message2 = m: seq<byte> | |m| == M2_BODY_LEN witness Zeros(M2_BODY_LEN)
  type Message3 = m: seq<byte> | |m| == M3_BODY_LEN witness Zeros(M3_BODY_LEN)

  datatype Hello1 = Hello1(version: byte, sid: SessionId, kem: KemPublic, x: DhPublic, sig: Signature)
  datatype Hello2 = Hello2(version: byte, sid: SessionId, kem: KemPublic, x: DhPublic, ct: KemCiphertext, sig: Signature)
  datatype Confirm = Confirm(version: byte, sid: SessionId, ct: KemCiphertext, mac: Mac)

  function EncodeM1(m: Hello1): Message1 { [m.version] + m.sid + m.kem + m.x + m.sig }

  function EncodeM2(m: Hello2): Message2 { [m.version] + m.sid + m.kem + m.x + m.ct + m.sig }

  function EncodeM3(m: Confirm): Message3 { [m.version] + m.sid + m.ct + m.mac }

  function DecodeM1(c: Suite, m: Message1): Option<Hello1> {
    var r := Hello1(m[0], m[1..9], m[9..1193], m[1193..1225], m[1225..]);
    if r.version != PROTOCOL_VERSION || !c.kemPublicParses(r.kem) || !c.signatureParses(r.sig) then None
    else Some(r)
  }

  function DecodeM2(c: Suite, m: Message2): Option<Hello2> {
    var r := Hello2(m[0], m[1..9], m[9..1193], m[1193..1225], m[1225..2313], m[2313..]);
    if r.version != PROTOCOL_VERSION || !c.kemPublicParses(r.kem) || !c.signatureParses(r.sig) then None
    else Some(r)
  }

  function DecodeM3(m: Message3): Option<Confirm> {
    var r := Confirm(m[0], m[1..9], m[9..1097], m[1097..]);
    if r.version != PROTOCOL_VERSION then None else Some(r)
  }

  lemma M1RoundTrip(c: Suite, m: Hello1)
    ensures DecodeM1(c, EncodeM1(m))
         == if m.version == PROTOCOL_VERSION && c.kemPublicParses(m.kem) && c.signatureParses(m.sig) then Some(m) else None
  {
    var s := EncodeM1(m);
    assert s[1..9] == m.sid && s[9..1193] == m.kem && s[1193..1225] == m.x && s[1225..] == m.sig;
  }

  lemma M2RoundTrip(c: Suite, m: Hello2)
    ensures DecodeM2(c, EncodeM2(m))
         == if m.version == PROTOCOL_VERSION && c.kemPublicParses(m.kem) && c.signatureParses(m.sig) then Some(m) else None
  {
    var s := EncodeM2(m);
    assert s[1..9] == m.sid && s[9..1193] == m.kem && s[1193..1225] == m.x;
    assert s[1225..2313] == m.ct && s[2313..] == m.sig;
  }

  lemma M3RoundTrip(m: Confirm)
    ensures DecodeM3(EncodeM3(m)) == if m.version == PROTOCOL_VERSION then Some(m) else None
  {
    var s := EncodeM3(m);
    assert s[1..9] == m.sid && s[9..1097] == m.ct && s[1097..] == m.mac;
  }

  // ---------------------------------------------------------------------
  // Transcript
  // ---------------------------------------------------------------------

  /** Bytes of the signature or MAC slot that ends each message. */
  function SlotLen(t: HsType): (n: nat)
    ensures n <= BodyLen(t)
  {
    if t == ClientConfirm then FINISHED_MAC_LEN else SIGNATURE_LEN
  }

  /** `canonical_zerofill`: the message with its last slot zeroed. */
  function ZeroFilled(t: HsType, message: seq<byte>): Option<seq<byte>> {
    if |message| != BodyLen(t) then None
    else Some(message[..BodyLen(t) - SlotLen(t)] + Zeros(SlotLen(t)))
  }

  function HashWithDomain(c: Suite, parts: seq<byte>): Digest {
    c.hash(Ascii("pq-tunnel-v1") + parts)
  }

  function Th1(c: Suite, m1: Message1): Digest {
    HashWithDomain(c, ZeroFilled(ClientHello, m1).value)
  }

  function Th2(c: Suite, m1: Message1, m2: Message2): Digest {
    HashWithDomain(c, m1 + ZeroFilled(ServerHello, m2).value)
  }

  function Th3(c: Suite, m1: Message1, m2: Message2, m3: Message3): Digest {
    HashWithDomain(c, ZeroFilled(ClientHello, m1).value + ZeroFilled(ServerHello, m2).value
                      + ZeroFilled(ClientConfirm, m3).value)
  }

  /** The hashed form does not see the slot, so signer and verifier hash alike. */
  lemma Th1IgnoresSignature(c: Suite, m: Hello1, sig: Signature)
    ensures Th1(c, EncodeM1(m)) == Th1(c, EncodeM1(m.(sig := sig)))
  {
    var body := [m.version] + m.sid + m.kem + m.x;
    assert EncodeM1(m)[..|body|] == body == EncodeM1(m.(sig := sig))[..|body|];
  }

  lemma Th2IgnoresSignature(c: Suite, m1: Message1, m: Hello2, sig: Signature)
    ensures Th2(c, m1, EncodeM2(m)) == Th2(c, m1, EncodeM2(m.(sig := sig)))
  {
    var body := [m.version] + m.sid + m.kem + m.x + m.ct;
    assert EncodeM2(m)[..|body|] == body == EncodeM2(m.(sig := sig))[..|body|];
  }

  lemma Th3IgnoresMac(c: Suite, m1: Message1, m2: Message2, m: Confirm, mac: Mac)
    ensures Th3(c, m1, m2, EncodeM3(m)) == Th3(c, m1, m2, EncodeM3(m.(mac := mac)))
  {
    var body := [m.version] + m.sid + m.ct;
    assert EncodeM3(m)[..|body|] == body == EncodeM3(m.(mac := mac))[..|body|];
  }

  // ---------------------------------------------------------------------
  // Key schedule
  // ---------------------------------------------------------------------

  function MasterSecret(c: Suite, ssA: Secret, ssB: Secret, dh: Secret, version: byte, sid: SessionId, th3: Digest): Secret {
    c.hkdf(ssA + ssB + dh, Ascii("pq-tunnel-master-v2") + [version] + sid + th3)
  }

  function FinishedMac(c: Suite, master: Secret, version: byte, sid: SessionId, th3: Digest): Mac {
    c.hmac(c.hkdf(master, Ascii("pq-tunnel-finished-v1") + [version] + sid), th3)
  }

  datatype Outcome = Outcome(master: Secret, sid: SessionId, peer: VerifyKey)

  // ---------------------------------------------------------------------
  // What the hashes and keys bind
  // ---------------------------------------------------------------------

  function Ones(n: nat): (s: seq<byte>)
    ensures |s| == n
  {
    seq(n, _ => 1)
  }

  /** A hash that tells one input from all others. */
  function Marks(input: seq<byte>): seq<byte> -> Digest {
    s => if s == input then Ones(32) else Zeros(32)
  }

  /** A key derivation that tells one input from all others. */
  function MarksKey(ikm: seq<byte>, info: seq<byte>): (seq<byte>, seq<byte>) -> Secret {
    (i, f) => if i == ikm && f == info then Ones(32) else Zeros(32)
  }

  function MarksMac(d: Digest): (Secret, Digest) -> Mac {
    (k, e) => if k == Ones(32) && e == d then Ones(FINISHED_MAC_LEN) else Zeros(FINISHED_MAC_LEN)
  }

  lemma OnesAreNotZeros(n: nat)
    requires n > 0
    ensures Ones(n) != Zeros(n)
  {
    assert Ones(n)[0] != Zeros(n)[0];
  }

  /** The message outside its signature or MAC slot. */
  function Signed(t: HsType, m: seq<byte>): seq<byte>
    requires |m| == BodyLen(t)
  {
    match t
    case ClientHello => m[..1225]
    case ServerHello => m[..2313]
    case ClientConfirm => m[..1097]
  }

  lemma ZeroFilledKeeps(t: HsType, m: seq<byte>, n: seq<byte>)
    requires |m| == |n| == BodyLen(t)
    ensures ZeroFilled(t, m).value == ZeroFilled(t, n).value <==> Signed(t, m) == Signed(t, n)
  {
    var k := BodyLen(t) - SlotLen(t);
    assert ZeroFilled(t, m).value[..k] == m[..k] && ZeroFilled(t, n).value[..k] == n[..k];
  }

  lemma SplitPair(a: seq<byte>, b: seq<byte>, c: seq<byte>, d: seq<byte>)
    requires |a| == |c| && a + b == c + d
    ensures a == c && b == d
  {
    assert a == (a + b)[..|a|] == (c + d)[..|c|] == c;
    assert b == (a + b)[|a|..] == (c + d)[|c|..] == d;
  }

  /** The M1 hash binds the whole M1 but its signature. */
  lemma Th1Binds(c: Suite, m: Message1, n: Message1)
    requires forall h: seq<byte> -> Digest :: Th1(c.(hash := h), m) == Th1(c.(hash := h), n)
    ensures Signed(ClientHello, m) == Signed(ClientHello, n)
  {
    hide Ascii, Signed;
    var prefix, x, y := Ascii("pq-tunnel-v1"), ZeroFilled(ClientHello, m).value, ZeroFilled(ClientHello, n).value;
    var h := Marks(prefix + x);
    assert Th1(c.(hash := h), m) == Th1(c.(hash := h), n);
    OnesAreNotZeros(32);
    SplitPair(prefix, x, prefix, y);
    ZeroFilledKeeps(ClientHello, m, n);
  }

  /** The hash the server signs binds the client's M1, signature included, and the M2 but its signature. */
  lemma Th2Binds(c: Suite, m1: Message1, m2: Message2, n1: Message1, n2: Message2)
    requires forall h: seq<byte> -> Digest :: Th2(c.(hash := h), m1, m2) == Th2(c.(hash := h), n1, n2)
    ensures m1 == n1 && Signed(ServerHello, m2) == Signed(ServerHello, n2)
  {
    hide Ascii, Signed;
    var prefix, x, y := Ascii("pq-tunnel-v1"), ZeroFilled(ServerHello, m2).value, ZeroFilled(ServerHello, n2).value;
    var h := Marks(prefix + (m1 + x));
    assert Th2(c.(hash := h), m1, m2) == Th2(c.(hash := h), n1, n2);
    OnesAreNotZeros(32);
    SplitPair(prefix, m1 + x, prefix, n1 + y);
    SplitPair(m1, x, n1, y);
    ZeroFilledKeeps(ServerHello, m2, n2);
  }

  /** The final hash binds all three messages but their signatures and MAC. */
  lemma Th3Binds(c: Suite, m1: Message1, m2: Message2, m3: Message3, n1: Message1, n2: Message2, n3: Message3)
    requires forall h: seq<byte> -> Digest :: Th3(c.(hash := h), m1, m2, m3) == Th3(c.(hash := h), n1, n2, n3)
    ensures Signed(ClientHello, m1) == Signed(ClientHello, n1) && Signed(ServerHello, m2) == Signed(ServerHello, n2)
    ensures Signed(ClientConfirm, m3) == Signed(ClientConfirm, n3)
  {
    hide Ascii, Signed;
    var prefix := Ascii("pq-tunnel-v1");
    var a, b, d := ZeroFilled(ClientHello, m1).value, ZeroFilled(ServerHello, m2).value, ZeroFilled(ClientConfirm, m3).value;
    var a', b', d' := ZeroFilled(ClientHello, n1).value, ZeroFilled(ServerHello, n2).value, ZeroFilled(ClientConfirm, n3).value;
    var h := Marks(prefix + (a + b + d));
    assert Th3(c.(hash := h), m1, m2, m3) == Th3(c.(hash := h), n1, n2, n3);
    OnesAreNotZeros(32);
    SplitPair(prefix, a + b + d, prefix, a' + b' + d');
    SplitPair(a + b, d, a' + b', d');
    SplitPair(a, b, a', b');
    ZeroFilledKeeps(ClientHello, m1, n1);
    ZeroFilledKeeps(ServerHello, m2, n2);
    ZeroFilledKeeps(ClientConfirm, m3, n3);
  }

  /** What a master secret is made of. */
  datatype Inputs = Inputs(ssA: Secret, ssB: Secret, dh: Secret, version: byte, sid: SessionId, th3: Digest)

  function MasterOf(c: Suite, i: Inputs): Secret { MasterSecret(c, i.ssA, i.ssB, i.dh, i.version, i.sid, i.th3) }

  /** The master secret binds both KEM secrets, the DH secret, the version, the session and the transcript, each in its place. */
  lemma MasterBinds(c: Suite, i: Inputs, j: Inputs)
    requires forall h: (seq<byte>, seq<byte>) -> Secret :: MasterOf(c.(hkdf := h), i) == MasterOf(c.(hkdf := h), j)
    ensures i == j
  {
    hide Ascii;
    var prefix := Ascii("pq-tunnel-master-v2");
    var h := MarksKey(i.ssA + i.ssB + i.dh, prefix + [i.version] + i.sid + i.th3);
    assert MasterOf(c.(hkdf := h), i) == MasterOf(c.(hkdf := h), j);
    OnesAreNotZeros(32);
    SplitPair(i.ssA + i.ssB, i.dh, j.ssA + j.ssB, j.dh);
    SplitPair(i.ssA, i.ssB, j.ssA, j.ssB);
    SplitPair(prefix + [i.version] + i.sid, i.th3, prefix + [j.version] + j.sid, j.th3);
    SplitPair(prefix + [i.version], i.sid, prefix + [j.version], j.sid);
    SplitPair(prefix, [i.version], prefix, [j.version]);
  }

  /** A key derivation that hands back one third of the keying material. */
  function Third(k: nat): (seq<byte>, seq<byte>) -> Secret
    requires k < 3
  {
    (ikm, _) => if |ikm| == 96 then ikm[32 * k..32 * k + 32] else Zeros(32)
  }

  /** The keying material is the secret from the client's KEM key, the one from the server's, and the DH secret, in that order. */
  lemma SecretsInOrder(c: Suite, i: Inputs)
    ensures MasterOf(c.(hkdf := Third(0)), i) == i.ssA
    ensures MasterOf(c.(hkdf := Third(1)), i) == i.ssB
    ensures MasterOf(c.(hkdf := Third(2)), i) == i.dh
  {
    hide Ascii;
    var ikm := i.ssA + i.ssB + i.dh;
    assert ikm[0..32] == i.ssA && ikm[32..64] == i.ssB && ikm[64..96] == i.dh;
  }

  /** The Finished MAC binds the master secret, the version, the session and the transcript. */
  lemma FinishedBinds(c: Suite, m: Secret, v: byte, s: SessionId, t: Digest, m': Secret, v': byte, s': SessionId, t': Digest)
    requires forall h: (seq<byte>, seq<byte>) -> Secret, g: (Secret, Digest) -> Mac ::
               FinishedMac(c.(hkdf := h, hmac := g), m, v, s, t) == FinishedMac(c.(hkdf := h, hmac := g), m', v', s', t')
    ensures m == m' && v == v' && s == s' && t == t'
  {
    hide Ascii;
    var prefix := Ascii("pq-tunnel-finished-v1");
    var h, g := MarksKey(m, prefix + [v] + s), MarksMac(t);
    assert FinishedMac(c.(hkdf := h, hmac := g), m, v, s, t) == FinishedMac(c.(hkdf := h, hmac := g), m', v', s', t');
    OnesAreNotZeros(32);
    OnesAreNotZeros(FINISHED_MAC_LEN);
    SplitPair(prefix + [v], s, prefix + [v'], s');
    SplitPair(prefix, [v], prefix, [v']);
  }
}
