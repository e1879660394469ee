# pq-tunnel, verified

A Dafny model of the protocol core of pq-tunnel, a post-quantum UDP tunnel whose
packets all have one fixed size. `dafny verify dfyconfig.toml` checks the whole
project.

Each component is written twice. A specification function says what one call
does to a plain value; where the source updates an object in place, a class with
the same fields and loops is proved equal to that function. The promises are then
proved about the function, for every input, every run or every reachable state.

## What is modelled

- **The encrypted channel** (`Bytes`, `Words`, `Codec`, `Replay`, `Channel`).
  Two cipher sessions exchange packets over a network that drops, reorders,
  duplicates, reflects and injects. The AEAD is ideal: it opens exactly the
  (key, nonce, associated data, ciphertext) tuples it sealed (section 2.8 of
  RFC 8439). Traffic keys are terms that differ by direction; nonce prefixes are
  any function of master, session and direction. The replay window is the real
  sixteen-word bitmap, with 64-bit shifts and masks written out in arithmetic.
- **IP over the tunnel** (`Crc`, `Overlay`, `Reassembly`, `ReassemblyRuns`,
  `ReassemblyProgress`, `Tunnel`). Fragmenter, table-driven CRC-32 (section 8 of RFC 1952)
  and the stateful reassembler with duplicates, poisoning, deadlines and two
  caps. Lengths follow section 3.1 of RFC 791 and section 3 of RFC 8200.
- **The handshake** (`HandshakeFraming`, `HandshakeMessages`, `RateLimit`,
  `HandshakeServer`, `HandshakeRuns`, `HandshakeLimits`, `HandshakeClient`,
  `HandshakeAgreement`, `HandshakeExchange`, `HandshakeFailures`). Three fragmented
  messages, a client machine and a server table with lifetimes, a pending cap, token buckets and roster swaps.
  Signature, KEM, DH, hash, HKDF and HMAC are arbitrary functions in a `Suite`;
  only the agreement results assume they are `Lawful` (signatures verify,
  decapsulation inverts encapsulation, DH is symmetric as in section 6.1 of
  RFC 7748).
- **Policies** (`Net`, `Sets`, `Lru`, `Relay`, `Egress`, `Forward`, `Cover`).
  The relay frame and its binding map, the forwarding socket pool with its egress
  guard, and the cover-traffic scheduler.

Clocks, randomness and the results of socket calls are parameters. Each call sees
one `now`, and `usize` is 64 bits. A duration since a later instant is zero. An
IPv6 socket address is its address and port, without flow label and scope.

## Where the code and its text disagree

The model follows the code.

- The envelope's module text describes a strict high-water replay guard without
  out-of-order tolerance. The code keeps a 1024-bit window, consulted after the
  AEAD opens.
- The jitter comment gives a factor up to 1.2. The code draws 80 to 119 percent,
  so 119/100 is the bound proved.
- The interval's text says the floor only affects rates that saturate the
  arithmetic. It affects every rate above `MAX_COVER_RATE_BPS`, about 470 Mbps.
- The server's text says a failed peer input mutates nothing. A failed M1 drops
  its entry (`HandshakeFailures.FailedInputMutates`), any well-formed fragment sweeps
  expired entries, and a refused completing fragment leaves the assembler complete
  until its lifetime ends (`HandshakeFailures.StuckUntilSwept`).
  `HandshakeFailures.UneventfulDelivery` gives the exact condition.
- The IPv4-compatible spelling of a host is meant to get the IPv4 decision. It
  does, except that 0.0.0.1 spelled `::1` is allowed under the test-only policy;
  `Egress.CompatibleSame` gives the exact condition.

Two expected properties hold only under a condition. The packet header names no
direction, so that an end refuses its own packets reflected back rests on the AEAD:
it does unless the peer's packet under the same counter came out with the same
ciphertext and tag and is still acceptable (`Channel.ReflectionOpens` is exact).
And one byte tells data from handshake, so a data packet is told apart exactly while
the top byte of its counter is not 0x10, 0x20 or 0x30
(`Tunnel.DataLooksLikeHandshake`).

## Model

| member | source | states |
|---|---|---|
| `Channel.InjectiveDelivery` | pq-tunnel-core/src/envelope.rs:328-413 | in every run over a hostile network each successful decrypt yields exactly the type and payload of one message the peer encrypted, and no message is received twice |
| `Channel.NoncesNeverRepeat` | pq-tunnel-core/src/envelope.rs:274-318 | in every run no two packets sealed in one direction share a nonce |
| `Channel.GenuineDelivery` | pq-tunnel-core/src/envelope.rs:328-413 | in every run a genuine packet is accepted exactly when it was not received before and lies at most 1024 below everything received; otherwise it is rejected |
| `Channel.ForgeryRefused` | pq-tunnel-core/src/envelope.rs:328-413 | in every run bytes that are not one of the peer's packets (any altered packet, any invention) are refused and leave both ends unchanged |
| `Channel.ReflectionOpens` | pq-tunnel-core/src/envelope.rs:328-413 | in every run an end accepts its own j-th packet reflected back exactly when the peer's j-th packet has the same ciphertext and tag and is still acceptable; what it then receives is the peer's message |
| `Channel.ReflectionRefused` | pq-tunnel-core/src/envelope.rs:328-413 | so without such a collision every reflected packet is refused and leaves no trace |
| `Channel.OwnPacketIsPeers` | pq-tunnel-core/src/envelope.rs:274-318 | packets of the two directions are equal byte for byte exactly when counter and ciphertext are |
| `Channel.CollisionOpens` | pq-tunnel-core/src/envelope.rs:274-413 | the run with a collision: one and the same AEAD output in both directions lets the client open its own packet |
| `Channel.RunKeepsInv` | pq-tunnel-core/src/envelope.rs:274-413 | the invariant behind the four promises holds after every sequence of sends and deliveries |
| `Channel.SendKeepsInv` | pq-tunnel-core/src/envelope.rs:274-318 | a send, successful or refused, keeps the log, counters and receipts of both ends consistent |
| `Channel.DeliverKeepsInv` | pq-tunnel-core/src/envelope.rs:328-413 | a delivery of arbitrary bytes keeps them consistent |
| `Channel.Opened` | pq-tunnel-core/src/envelope.rs:328-375 | what the AEAD opens at one end is one of the peer's packets, under the counter in its header |
| `Channel.DecryptGenuine` | pq-tunnel-core/src/envelope.rs:328-413 | for a genuine packet the replay window alone decides, and the plaintext is the one sealed |
| `Channel.Delivered` | pq-tunnel-core/src/envelope.rs:328-413 | every delivery either opens one acceptable packet of the peer or fails with no state change |
| `Channel.CipherSession.constructor` | pq-tunnel-core/src/envelope.rs:201-220 | a new session has the four derived keys and prefixes, counter 0 and an empty window |
| `Channel.CipherSession.EncryptPacket` | pq-tunnel-core/src/envelope.rs:274-318 | the method is the session step: length and exhaustion refusals, header as associated data, prefix and counter as nonce, counter advanced only on success |
| `Channel.EncryptYields` | pq-tunnel-core/src/envelope.rs:274-413 | in every run encrypt refuses exactly a payload of another length and the counters from 2^64 - 2^32 - 1 on; otherwise it returns the packet every delivery result speaks of, and the peer that receives it opens exactly the type and payload given when nothing received so far rules its counter out, and rejects it otherwise |
| `Channel.EncryptIsPacket` | pq-tunnel-core/src/envelope.rs:274-318 | from any state of the invariant what encrypt returns is the next packet of its direction, header and AEAD output both |
| `Channel.KeysByDirection` | pq-tunnel-core/src/envelope.rs:238-264 | each end sends under the key and prefix of its own direction and receives under the peer's |
| `Channel.NonceBinds` | pq-crypto/src/kdf.rs:229-234 | a 12-byte nonce determines its prefix and its counter |
| `Channel.CipherSession.DecryptPacket` | pq-tunnel-core/src/envelope.rs:328-413 | the method is the session step, with the bit-level window standing for the set of accepted counters; replay is checked after the AEAD opens |
| `Replay.ReplayWindow.Accept` | pq-tunnel-core/src/replay.rs:88-145 | succeeds exactly when the counter was not accepted since the last clear and is at most 1024 below the highest; the bitmap keeps representing the accepted set |
| `Replay.ReplayWindow.Advance` | pq-tunnel-core/src/replay.rs:95-120 | moving the window up by any gap, inside it, exactly its width or beyond, leaves bit i standing for counter highest-1-i |
| `Replay.ReplayWindow.ShiftRight` | pq-tunnel-core/src/replay.rs:152-176 | the two-stage word-and-bit shift is one plain shift of the 1024-bit string, for every gap below 1024 |
| `Replay.ReplayWindow.MoveWords` | pq-tunnel-core/src/replay.rs:158-166 | the word-level stage, in place and downwards |
| `Replay.ReplayWindow.MoveBits` | pq-tunnel-core/src/replay.rs:168-175 | the bit-level stage, carrying bits across word boundaries |
| `Replay.ReplayWindow.SetBit` | pq-tunnel-core/src/replay.rs:179-183 | sets that bit of the string and no other |
| `Replay.ReplayWindow.GetBit` | pq-tunnel-core/src/replay.rs:186-190 | reads that bit of the string |
| `Replay.ReplayWindow.Clear` | pq-tunnel-core/src/replay.rs:193-196 | forgets every accepted counter |
| `Replay.TwoStageShift` | pq-tunnel-core/src/replay.rs:152-176 | word move followed by bit move equals the shift of the whole string |
| `Replay.Rebased` | pq-tunnel-core/src/replay.rs:112-117 | after the shift and the mark for the old highest, the bits track the same accepted set relative to the new highest |
| `Replay.Restarted` | pq-tunnel-core/src/replay.rs:99-111 | a jump of the window width or more keeps nothing, except the old highest at exactly the width |
| `Codec.HeaderRoundTrip` | pq-tunnel-core/src/codec.rs:286-327 | an encoded header decodes to itself exactly when its version is the supported one |
| `Codec.HeaderCanonical` | pq-tunnel-core/src/codec.rs:300-327 | a header that decodes is byte for byte the encoding of its fields |
| `Codec.InnerRoundTrip` | pq-tunnel-core/src/codec.rs:385-419 | a full-size inner plaintext survives encoding |
| `Codec.InnerCanonical` | pq-tunnel-core/src/codec.rs:401-419 | only canonical inner plaintexts decode |
| `Crc.TableCrc32` | pq-tunnel-core/src/dataplane.rs:316-327 | the table-driven CRC equals the bit-serial CRC on every input |
| `Crc.BuildTable` | pq-tunnel-core/src/dataplane.rs:300-314 | entry i of the table is eight bit steps of i |
| `Crc.LookupIsByteStep` | pq-tunnel-core/src/dataplane.rs:316-327 | one table lookup equals eight bit steps on the whole register |
| `Crc.ByteStepInjective` | pq-tunnel-core/src/dataplane.rs:316-327 | a byte step is injective in the register for a fixed byte and in the byte for a fixed register |
| `Crc.RegisterInjective` | pq-tunnel-core/src/dataplane.rs:316-327 | feeding the same bytes never merges two different registers |
| `Crc.OneByteDetected` | pq-tunnel-core/src/dataplane.rs:316-327 | changing any one byte of any input changes its CRC |
| `Crc.PolynomialIsGenerator` | pq-tunnel-core/src/dataplane.rs:300-314 | the constant of the table is the generator polynomial of section 8 of RFC 1952, term by term in reflected order |
| `Crc.KnownChecksums` | pq-tunnel-core/src/dataplane.rs:316-327 | the checksum of no bytes is 0 and of the one byte 0xFF is 0xFF000000, which fixes the initial and the final inversion |
| `Overlay.DecodeExact` | pq-tunnel-core/src/dataplane.rs:124-175 | a header decodes exactly when its twenty bytes are the encoding of a well-formed header, and to that header |
| `Overlay.HeaderRoundTrip` | pq-tunnel-core/src/dataplane.rs:124-188 | encoding then decoding is the identity on exactly the well-formed headers |
| `Overlay.CountIsForced` | pq-tunnel-core/src/dataplane.rs:149-165 | the consistency checks admit one fragment count per length: the one the fragmenter uses |
| `Overlay.HeaderCheckIsPacketCheck` | pq-tunnel-core/src/dataplane.rs:206-294 | on a whole packet the reassembler's header check and the fragmenter's validation agree |
| `Overlay.HeaderCheckIsLocal` | pq-tunnel-core/src/dataplane.rs:260-294 | the header check depends on the bytes of fragment 0 only |
| `Overlay.ValidatesExactly` | pq-tunnel-core/src/dataplane.rs:206-258 | a packet validates exactly as IPv4 with at least 20 bytes, its big-endian total length its own length and a header of five words or more that fits, or as IPv6 with 40 to 65535 bytes and a payload length 40 less than its own |
| `Overlay.FragmentIpPacket` | pq-tunnel-core/src/dataplane.rs:344-376 | refuses exactly the packets that do not validate; otherwise slot k carries bytes k*cap.. under the forced header, zero padded |
| `Overlay.ReadSlot` | pq-tunnel-core/src/dataplane.rs:124-200 | a slot the fragmenter produced reads back as its header, its fragment and zero padding |
| `Overlay.SlotCanonical` | pq-tunnel-core/src/dataplane.rs:124-200 | a slot that decodes and has zero padding is the slot the fragmenter would produce for its contents |
| `Reassembly.FeedKeepsInv` | pq-tunnel-core/src/dataplane.rs:471-590 | every feed keeps: byte count equal to the sum of live lengths, both caps, and per entry the received count, fragment-0 flags and header validity |
| `Reassembly.ExpireKeepsInv` | pq-tunnel-core/src/dataplane.rs:448-461 | expiry keeps the invariant; the subtraction never saturates |
| `Reassembly.Reassembler.constructor` | pq-tunnel-core/src/dataplane.rs:420-438 | a new reassembler is empty |
| `Reassembly.Reassembler.ExpireEntries` | pq-tunnel-core/src/dataplane.rs:448-461 | removes exactly the entries whose deadline has come and their bytes |
| `Reassembly.Reassembler.Clear` | pq-tunnel-core/src/dataplane.rs:463-469 | removes everything |
| `Reassembly.Reassembler.FeedSlot` | pq-tunnel-core/src/dataplane.rs:471-590 | the method, with its early returns, is the feed step on the table |
| `Reassembly.Reassembler.FeedPresent` | pq-tunnel-core/src/dataplane.rs:521-589 | feeding a live entry: poison, metadata and padding checks, duplicate comparison, write, fragment-0 check, completion and CRC |
| `Reassembly.Reassembler.HasTrailing` | pq-tunnel-core/src/dataplane.rs:482-488 | reports exactly whether a byte after the fragment is not zero |
| `ReassemblyRuns.CompletedWasFed` | pq-tunnel-core/src/dataplane.rs:471-590 | from any step at which the id has no live entry: whatever completes validates, the fragmenter accepts it, and every one of its slots was fed byte for byte since that step |
| `ReassemblyRuns.CompletedSinceCreated` | pq-tunnel-core/src/dataplane.rs:471-590 | sound and canonical: in every run that begins with no live entry for the id, whatever completes validates, the fragmenter accepts it, and every one of its slots was fed byte for byte since the step that created the completing entry, expiry inside a feed included |
| `ReassemblyRuns.TurnedAwayExactly` | pq-tunnel-core/src/dataplane.rs:471-506 | a slot for an id without a live entry is malformed exactly for non-zero padding, and otherwise dropped exactly when the live entries number the cap or their lengths and its own exceed the byte cap |
| `ReassemblyRuns.WantedExactly` | pq-tunnel-core/src/dataplane.rs:471-590 | a clean fragment its entry lacks, new entries included, is answered Pending, Poisoned or Complete exactly by the header check of fragment 0, by whether all others are there and by the checksum of the whole, and the entry afterwards holds it |
| `ReassemblyRuns.DuplicateExactly` | pq-tunnel-core/src/dataplane.rs:545-556 | a fragment the entry already has is ignored exactly when its slot is byte for byte the one held; any other poisons the entry |
| `ReassemblyRuns.ConflictPoisons` | pq-tunnel-core/src/dataplane.rs:527-543 | a slot that contradicts the length or checksum of its entry, or has non-zero padding, poisons it |
| `ReassemblyRuns.OnlyThisPacketCompletes` | pq-tunnel-core/src/dataplane.rs:344-590 | if every slot fed for an id is a fragment of one buffer under one checksum, only that buffer can complete, and only if the checksum is right |
| `ReassemblyRuns.CorruptionNeverCompletes` | pq-tunnel-core/src/dataplane.rs:545-581 | if every copy of one fragment that is fed has some one byte altered, not necessarily the same, and no genuine copy is, the packet never completes, in any order and with any other traffic |
| `ReassemblyRuns.OtherIdsUntouched` | pq-tunnel-core/src/dataplane.rs:471-590 | feeding one id never changes another unexpired id's entry |
| `ReassemblyRuns.RunJustified` | pq-tunnel-core/src/dataplane.rs:471-590 | in every run the fragments an unpoisoned entry holds are slots fed since the id last had no live entry |
| `ReassemblyRuns.SlotOfInjective` | pq-tunnel-core/src/dataplane.rs:344-376 | equal slots come from the same index, checksum, length and bytes |
| `ReassemblyProgress.HonestFragmentsComplete` | pq-tunnel-core/src/dataplane.rs:344-590 | complete: with no live entry for the id at the start, fragments of a valid packet in any order, with duplicates and other ids in between, before the deadline and within the caps, answer Pending or DuplicateIgnored until the last missing one, which completes with the packet |
| `ReassemblyProgress.HonestRun` | pq-tunnel-core/src/dataplane.rs:471-590 | after any such run the entry holds exactly the fragments seen, under the first fragment's deadline |
| `ReassemblyProgress.HonestFeed` | pq-tunnel-core/src/dataplane.rs:471-590 | one fragment of the packet: duplicate, progress or completion, decided by what is held |
| `ReassemblyProgress.PoisonIsPermanent` | pq-tunnel-core/src/dataplane.rs:448-590 | a poisoned entry stays exactly as it is through every feed and expiry before its deadline |
| `ReassemblyProgress.PoisonedFeed` | pq-tunnel-core/src/dataplane.rs:521-525 | whatever is fed to a poisoned entry answers Poisoned |
| `HandshakeFraming.FragmentMessage` | pq-tunnel-core/src/handshake_v2.rs:371-401 | refuses a message of the wrong length, otherwise cuts it into its fixed number of zero-padded datagrams |
| `HandshakeFraming.DatagramRoundTrip` | pq-tunnel-core/src/handshake_v2.rs:318-401 | a datagram parses back to the fragment it was cut from and is zero after it |
| `HandshakeFraming.FromDatagram` | pq-tunnel-core/src/handshake_v2.rs:318-364 | whatever parses has an index below the total of its type and a body of exactly that slice's length |
| `HandshakeFraming.ParsesExactly` | pq-tunnel-core/src/handshake_v2.rs:260-364 | a datagram parses exactly with the protocol version, type 0x10, 0x20 or 0x30 with total 4, 5 or 1, and an index below the total; session, type, index and body are the bytes at their places |
| `HandshakeFraming.FragmentAssembler.constructor` | pq-tunnel-core/src/handshake_v2.rs:430-442 | a new assembler holds nothing |
| `HandshakeFraming.FragmentAssembler.Add` | pq-tunnel-core/src/handshake_v2.rs:447-471 | the in-place method is the assembler step: wrong type, duplicates and late fragments ignored |
| `HandshakeFraming.FragmentAssembler.Message` | pq-tunnel-core/src/handshake_v2.rs:474-477 | the message is available exactly once every fragment has arrived |
| `HandshakeFraming.AddHonest` | pq-tunnel-core/src/handshake_v2.rs:447-477 | an honest fragment is recorded, and the last missing one yields the message exactly, in any order |
| `HandshakeFraming.AddStores` | pq-tunnel-core/src/handshake_v2.rs:447-471 | an accepted fragment lands in its own slice and disturbs no other |
| `HandshakeFraming.IgnoresExactly` | pq-tunnel-core/src/handshake_v2.rs:447-471 | a fragment is ignored, leaving the assembler as it was, exactly once the message is whole, or if it is of another type, or was received before |
| `HandshakeFraming.SlicesCover` | pq-tunnel-core/src/handshake_v2.rs:371-401 | two messages with equal slices are equal |
| `HandshakeMessages.M1RoundTrip` | pq-tunnel-core/src/handshake_v2.rs:485-560 | an encoded M1 decodes to itself, or is refused exactly for its version, KEM key or signature encoding |
| `HandshakeMessages.M2RoundTrip` | pq-tunnel-core/src/handshake_v2.rs:563-650 | the same for M2 |
| `HandshakeMessages.M3RoundTrip` | pq-tunnel-core/src/handshake_v2.rs:652-716 | the same for M3, where only the version can refuse |
| `HandshakeMessages.Th1IgnoresSignature` | pq-tunnel-core/src/handshake_v2.rs:725-760 | the M1 transcript hash does not see the signature slot, so signer and verifier hash alike |
| `HandshakeMessages.Th2IgnoresSignature` | pq-tunnel-core/src/handshake_v2.rs:763-770 | the M2 transcript hash does not see the server's signature slot |
| `HandshakeMessages.Th3IgnoresMac` | pq-tunnel-core/src/handshake_v2.rs:773-780 | the M3 transcript hash does not see the Finished MAC |
| `HandshakeMessages.Th1Binds` | pq-tunnel-core/src/handshake_v2.rs:725-760 | M1s whose transcript hashes agree under every hash function agree in every byte before the signature |
| `HandshakeMessages.Th2Binds` | pq-tunnel-core/src/handshake_v2.rs:763-770 | pairs whose hashes agree under every hash function have the same M1, signature included, and M2s that agree in every byte before the signature |
| `HandshakeMessages.Th3Binds` | pq-tunnel-core/src/handshake_v2.rs:773-780 | triples whose hashes agree under every hash function agree in all three messages outside their signatures and MAC |
| `HandshakeMessages.MasterBinds` | pq-crypto/src/kdf.rs:164-192 | master secrets that agree under every key derivation have the same two KEM secrets, DH secret, version, session id and transcript, each in its place |
| `HandshakeMessages.SecretsInOrder` | pq-crypto/src/kdf.rs:164-192 | the 96 bytes of keying material are the two KEM secrets and the DH secret in that order |
| `HandshakeMessages.FinishedBinds` | pq-crypto/src/kdf.rs:197-226 | Finished MACs that agree under every key derivation and MAC function have the same master secret, version, session id and transcript |
| `RateLimit.RateLimiter.RateOk` | pq-tunnel-core/src/handshake_v2.rs:1651-1733 | the method is the limiter step and keeps the queue equal to the bucket keys |
| `RateLimit.RateLimiter.constructor` | pq-tunnel-core/src/handshake_v2.rs:1562-1576 | a new limiter tracks nobody |
| `RateLimit.RateLimiter.EvictOldest` | pq-tunnel-core/src/handshake_v2.rs:1706-1719 | evicts oldest-inserted sources until one more fits |
| `RateLimit.RateLimiter.RetainTracked` | pq-tunnel-core/src/handshake_v2.rs:1668-1673 | keeps in the queue exactly the sources still in the table, in order |
| `RateLimit.AdmitKeepsInv` | pq-tunnel-core/src/handshake_v2.rs:1651-1733 | on every call the queue holds exactly the bucket keys, each once, never more than 4096, and no bucket exceeds the burst |
| `RateLimit.PruneKeepsInv` | pq-tunnel-core/src/handshake_v2.rs:1661-1678 | the window sweep keeps queue and table in step |
| `RateLimit.MakeRoomKeepsInv` | pq-tunnel-core/src/handshake_v2.rs:1706-1719 | eviction keeps them in step and always makes room |
| `RateLimit.OneCall` | pq-tunnel-core/src/handshake_v2.rs:1651-1733 | what one call leaves of any source's bucket, full table or not, and when it admits: another source's call costs a source its bucket exactly when the table is full and that source is first in the queue |
| `RateLimit.OrderIsInsertion` | pq-tunnel-core/src/handshake_v2.rs:1661-1733 | the queue is in order of insertion: a call leaves the sources it keeps in the order they had and puts a source it had no bucket for behind all others |
| `RateLimit.AdmitsExactly` | pq-tunnel-core/src/handshake_v2.rs:1651-1733 | a source whose bucket was filled less than a window ago is admitted exactly while it has tokens, and any other exactly if the burst is not zero, whatever is swept or evicted meanwhile |
| `RateLimit.ForgetsExactly` | pq-tunnel-core/src/handshake_v2.rs:1661-1719 | another source loses its bucket exactly when the call sweeps, with over 32 sources tracked, and finds it a window old, or as the oldest-inserted of a full table |
| `RateLimit.BoundedBetweenRefills` | pq-tunnel-core/src/handshake_v2.rs:1685-1733 | between refills a source is admitted at most as often as it has tokens, so at most burst times |
| `RateLimit.NoSecondRefill` | pq-tunnel-core/src/handshake_v2.rs:1685-1695 | a bucket filled less than a window ago is not filled again unless a full table costs the source that bucket |
| `RateLimit.AfterRefill` | pq-tunnel-core/src/handshake_v2.rs:1685-1733 | within a window of its last refill a source is admitted as often as it has tokens, and burst times more for each time a full table costs it its bucket |
| `RateLimit.MakeRoomIsOne` | pq-tunnel-core/src/handshake_v2.rs:1706-1719 | making room costs a full table exactly its oldest-inserted source |
| `RateLimit.TwiceBurstPerWindow` | pq-tunnel-core/src/handshake_v2.rs:1651-1733 | in any half-open interval of one window a source is admitted at most (2 + evictions) * burst times, where evictions counts how often a full table costs it its bucket; so at most 2*burst without one |
| `RateLimit.PruneIsInvisible` | pq-tunnel-core/src/handshake_v2.rs:1661-1733 | for every ordered call sequence in which the unpruned table stays below the cap, the limiter with and without the sweep gives the same answers and the same budget to every source |
| `HandshakeServer.ServerHandshake.constructor` | pq-tunnel-core/src/handshake_v2.rs:1562-1576 | starts with an empty table; a roster over the limit becomes an empty one, never a truncated one |
| `HandshakeServer.ServerHandshake.SwapRoster` | pq-tunnel-core/src/handshake_v2.rs:1601-1616 | adopts a non-empty roster within the limit whole, replacing the old one, and otherwise changes nothing; HandshakeRuns.RevocationHolds and RosterInForce say what that means over runs |
| `HandshakeServer.ServerHandshake.Handle` | pq-tunnel-core/src/handshake_v2.rs:1633-1644 | the method is the server step and keeps the table invariant |
| `HandshakeServer.ServerHandshake.FeedM1` | pq-tunnel-core/src/handshake_v2.rs:1747-1863 | sweep, then allocate, advance or resend, as the entry and its source decide |
| `HandshakeServer.ServerHandshake.AllocateFor` | pq-tunnel-core/src/handshake_v2.rs:1842-1862 | no allocation before fragment 0, a token and a free slot |
| `HandshakeServer.ServerHandshake.AdvanceM1` | pq-tunnel-core/src/handshake_v2.rs:1771-1806 | an advancing fragment refreshes the entry; a completing one asks for a token first |
| `HandshakeServer.ServerHandshake.ResendM2` | pq-tunnel-core/src/handshake_v2.rs:1807-1840 | only fragment 0, with a token, buys one resend of the cached M2 |
| `HandshakeServer.ServerHandshake.FindClient` | pq-tunnel-core/src/handshake_v2.rs:1885-1893 | every roster key is tried and the last that verifies is kept |
| `HandshakeServer.ServerHandshake.AnswerM1` | pq-tunnel-core/src/handshake_v2.rs:1867-1951 | every failure drops the entry silently; success stores the M1, M2, secrets and client and emits the M2 |
| `HandshakeServer.ServerHandshake.FeedM3` | pq-tunnel-core/src/handshake_v2.rs:1953-2045 | unknown, foreign or early M3s are free; the rest cost a token, and only a matching MAC consumes the entry |
| `HandshakeServer.HandleKeepsInv` | pq-tunnel-core/src/handshake_v2.rs:1633-2045 | no datagram from anyone breaks table well-formedness: at most max_pending entries, AwaitM1 has an M1 assembler, AwaitM3 has full-length M1 and M2, KEM secret and client, so no expect can fail |
| `HandshakeServer.OnM1KeepsInv` | pq-tunnel-core/src/handshake_v2.rs:1747-1951 | the M1 half of that invariant |
| `HandshakeServer.OnM3KeepsInv` | pq-tunnel-core/src/handshake_v2.rs:1953-2045 | the M3 half of that invariant |
| `HandshakeServer.CompleteM1KeepsInv` | pq-tunnel-core/src/handshake_v2.rs:1867-1951 | completing an M1 leaves the entry well-formed for its new phase or gone |
| `HandshakeServer.EvictKeepsOk` | pq-tunnel-core/src/handshake_v2.rs:1646-1649 | the sweep removes entries and changes none |
| `HandshakeRuns.CompletionRests` | pq-tunnel-core/src/handshake_v2.rs:1867-2045 | over every run of datagrams and roster swaps, each Complete names a key that is on the roster at that step and verified the stored M1, for an entry created at a known step and never swept since, whose M1 was fed whole since then, whose M2 was emitted to the same source and has awaited its M3 ever since, and whose Finished MAC matches over the secrets of that emission; it consumes the entry |
| `HandshakeRuns.RevocationHolds` | pq-tunnel-core/src/handshake_v2.rs:1601-2045 | in every run, after a swap that is adopted and until the next one, every Complete names a key of exactly that roster, so a revoked client never completes, its genuine M3 included |
| `HandshakeRuns.RosterInForce` | pq-tunnel-core/src/handshake_v2.rs:1601-1616 | in every run the roster in force at a step is the last one adopted, whatever was refused since and whatever datagrams came |
| `HandshakeRuns.AnotherNeedsWholeM1` | pq-tunnel-core/src/handshake_v2.rs:1953-2045 | a second Complete for a session needs every M1 fragment to be sent again after the first |
| `HandshakeRuns.CompletionConsumes` | pq-tunnel-core/src/handshake_v2.rs:1969-2045 | a Complete comes from an AwaitM3 entry of the same source and removes it |
| `HandshakeRuns.WrongMacChangesNothing` | pq-tunnel-core/src/handshake_v2.rs:1996-2021 | an M3 with a wrong MAC leaves its unexpired entry exactly as it was and says nothing |
| `HandshakeRuns.EmissionsIdentical` | pq-tunnel-core/src/handshake_v2.rs:1807-1840 | every M2 emission for one entry is the identical fragment list to the identical address |
| `HandshakeRuns.EmissionIsCached` | pq-tunnel-core/src/handshake_v2.rs:1807-1951 | whatever M2 is emitted is the one the entry keeps |
| `HandshakeRuns.RepeatIsAnswered` | pq-tunnel-core/src/handshake_v2.rs:1807-1841 | fragment 0 repeated from the same source to an unexpired entry that awaits M3, with a token, gets the cached M2 again in full and refreshes the entry |
| `HandshakeRuns.AwaitingFrozen` | pq-tunnel-core/src/handshake_v2.rs:1807-2045 | while an entry awaits its M3 nothing but its last-seen time changes |
| `HandshakeRuns.StepMoves` | pq-tunnel-core/src/handshake_v2.rs:1633-2045 | every way a step can change one session's entry, and what it may emit meanwhile; other sessions only by the sweep |
| `HandshakeRuns.RunExplained` | pq-tunnel-core/src/handshake_v2.rs:1747-1951 | in every run each entry has the history its phase claims: the step that created it, fragments fed since, and for AwaitM3 the authenticated answer |
| `HandshakeRuns.MatchingIsLastMatch` | pq-tunnel-core/src/handshake_v2.rs:1885-1898 | the roster loop finds a key on the roster under which the signature verifies, or none exists |
| `HandshakeRuns.StepKeepsInv` | pq-tunnel-core/src/handshake_v2.rs:1601-2045 | table well-formedness survives roster swaps as well as datagrams |
| `HandshakeLimits.UnfinishedIsEvicted` | pq-tunnel-core/src/handshake_v2.rs:1646-1805 | whatever is sent, an entry that has not finished its M1 is swept by the first well-formed M1 or M3 fragment at least 3*pending_ttl after its creation; an entry found afterwards is one that step created |
| `HandshakeLimits.AtMostTwoRefreshes` | pq-tunnel-core/src/handshake_v2.rs:1771-1805 | an entry that never finishes its M1 has its deadline moved at most twice in any run |
| `HandshakeLimits.AlwaysAged` | pq-tunnel-core/src/handshake_v2.rs:1771-1805 | in every run the last refresh of an unfinished entry is at most one lifetime per extra fragment, and at most two, after its creation |
| `HandshakeLimits.StepGate` | pq-tunnel-core/src/handshake_v2.rs:1787-1984 | a new entry, an emitted M2, a completion or any KEM operation happens only in a call the limiter admitted |
| `HandshakeLimits.WorkIsAdmitted` | pq-tunnel-core/src/handshake_v2.rs:1651-1984 | over every run a source causes such work at most as often as it is admitted |
| `HandshakeLimits.WorkPerWindow` | pq-tunnel-core/src/handshake_v2.rs:1651-1984 | in any half-open interval of one rate window a source causes such work at most (2 + evictions) * burst times; so at most 2*burst when no full table costs it its bucket |
| `HandshakeClient.Create` | pq-tunnel-core/src/handshake_v2.rs:1007-1040 | refuses an unsupported version, otherwise signs and fragments one M1 |
| `HandshakeClient.ClientHandshake.constructor` | pq-tunnel-core/src/handshake_v2.rs:1007-1040 | the fresh machine: cached M1 fragments, empty M2 assembler, no attempts, jittered base delay |
| `HandshakeClient.ClientHandshake.HandleDatagram` | pq-tunnel-core/src/handshake_v2.rs:1085-1107 | the method is the client step on a datagram and keeps the machine valid |
| `HandshakeClient.ClientHandshake.CompleteM2` | pq-tunnel-core/src/handshake_v2.rs:1156-1248 | a refused M2 resets the assembler; an accepted one moves to M3Sent and announces the M3 with its outcome |
| `HandshakeClient.ClientHandshake.Tick` | pq-tunnel-core/src/handshake_v2.rs:1111-1147 | the timer step of either phase: cached fragments again, or Timeout |
| `HandshakeClient.OneConfirmation` | pq-tunnel-core/src/handshake_v2.rs:1085-1248 | for every interleaving of datagrams and timers at most one M3 is announced; before it every retransmission is the M1, after it the announced M3, byte for byte |
| `HandshakeClient.BoundedRetransmission` | pq-tunnel-core/src/handshake_v2.rs:1111-1147 | at most m1_max_attempts + m3_max_attempts retransmissions, and every other timer tick is an explicit Timeout |
| `HandshakeClient.TickExactly` | pq-tunnel-core/src/handshake_v2.rs:1111-1147 | a tick retransmits the cached fragments of its phase exactly while the phase has attempts left and uses one up; otherwise it is a Timeout; a datagram uses none |
| `HandshakeClient.RetriesExactly` | pq-tunnel-core/src/handshake_v2.rs:1111-1147 | in every run a phase makes exactly as many retransmissions as it has ticks, until its budget is spent |
| `HandshakeClient.PhaseDelay` | pq-tunnel-core/src/handshake_v2.rs:852-869 | the delays requested in a phase of n retransmissions sum to at most 119/100 * base * sum of 2^min(i,5) for i = 0..n |
| `HandshakeClient.PhasesStartFresh` | pq-tunnel-core/src/handshake_v2.rs:1233-1238 | the M3 phase starts with no attempts and a freshly jittered base delay |
| `HandshakeClient.BackoffBound` | pq-tunnel-core/src/handshake_v2.rs:852-869 | a backoff delay lies between 80 and 119 percent of the base times 2^min(attempt,5), saturation included |
| `HandshakeClient.JitterIsDrawn` | pq-tunnel-core/src/handshake_v2.rs:852-862 | every whole percentage from 80 to 119 is drawn by some random value |
| `HandshakeClient.ConfirmationIsAuthentic` | pq-tunnel-core/src/handshake_v2.rs:1085-1248 | an M3 is announced only for an assembled M2 that names this session and carries the pinned server's signature over both hellos; any other M2 resets the assembler |
| `HandshakeClient.AnswersOnlyOwnHello` | pq-tunnel-core/src/handshake_v2.rs:1156-1190 | under every hash function, a server whose only signature is on an M2 for some M1 gets an answer from a client only if that M1 is the client's own hello, byte for byte |
| `HandshakeAgreement.Agreement` | pq-tunnel-core/src/handshake_v2.rs:1156-2045 | for every order and repetition of honest fragments, with M1 fragments 1-3 after fragment 0, tokens, time and space sufficing, amid roster swaps and hostile traffic that leave the client's entry and key alone, the server answers, the client announces its M3, and its arrival completes the server with the same master and session id |
| `HandshakeAgreement.ServerProgress` | pq-tunnel-core/src/handshake_v2.rs:1747-1951 | along every such run the server is exactly where the fragments delivered so far have taken it: absent, collecting them, or having answered |
| `HandshakeAgreement.ClientConfirms` | pq-tunnel-core/src/handshake_v2.rs:1085-1248 | shown every fragment of the reply in any order, the client announces the M3 that answers it |
| `HandshakeAgreement.SecretsAgree` | pq-tunnel-core/src/handshake_v2.rs:1156-2045 | the client accepts the server's reply, and its M3 makes the server derive the client's master and find the MAC good |
| `HandshakeAgreement.HelloVerifies` | pq-tunnel-core/src/handshake_v2.rs:1873-1898 | the server reads an honest hello back and some roster key verifies it |
| `HandshakeAgreement.ReplyVerifies` | pq-tunnel-core/src/handshake_v2.rs:1156-1180 | the client reads an honest reply back and the pinned key verifies it |
| `HandshakeAgreement.EmissionsAre` | pq-tunnel-core/src/handshake_v2.rs:1807-1951 | everything the server ever emits for the session is the one M2 it keeps |
| `HandshakeAgreement.PowerlessStep` | pq-tunnel-core/src/handshake_v2.rs:1764-2021 | a stranger's datagrams under the session id, once the entry is open, and M3s with a wrong MAC do not move it |
| `HandshakeAgreement.KeyStays` | pq-tunnel-core/src/handshake_v2.rs:1601-1616 | swaps that keep the keys the M1 verifies under keep the client authenticated |
| `HandshakeAgreement.ConfirmCompletes` | pq-tunnel-core/src/handshake_v2.rs:1953-2045 | an M3 with the right MAC, in time and with a token, completes |
| `HandshakeAgreement.WholeM1IsGot` | pq-tunnel-core/src/handshake_v2.rs:1842-1848 | fragments that come before fragment 0 do not count; one arrival of each after it suffices |
| `HandshakeExchange.FreshExchange` | pq-tunnel-core/src/handshake_v2.rs:1085-2045 | against a fresh server with room for one entry and a burst above the number of datagrams, a client sending only its own fragments within one lifetime, in any order with 1-3 after 0 and any number of times, agrees with the server on master and session id |
| `HandshakeExchange.CalmSuffices` | pq-tunnel-core/src/handshake_v2.rs:1646-1984 | in such a run no datagram is refused a token, the entry never expires and the table has room |
| `HandshakeExchange.AmpleAdmits` | pq-tunnel-core/src/handshake_v2.rs:1651-1733 | a source asking alone is admitted at each of its first burst questions |
| `HandshakeFailures.UneventfulDelivery` | pq-tunnel-core/src/handshake_v2.rs:1631-2045 | a delivery that leads to nothing leaves the pending table unchanged if and only if it is no well-formed M1 or M3 fragment, or no entry is expired and it neither opens an entry, nor is taken in by one, nor is the genuine M3 of a client off the roster |
| `HandshakeFailures.FailedInputMutates` | pq-tunnel-core/src/handshake_v2.rs:1873-1883 | whatever the primitives, roster and configuration, the run in which the fourth datagram of an M1 of another version is answered with nothing and deletes its entry |
| `HandshakeFailures.RefusedHello` | pq-tunnel-core/src/handshake_v2.rs:1867-1898 | the fragment that completes an M1 the server finds fault with takes its entry away without a word |
| `HandshakeFailures.RefusedCompletionSticks` | pq-tunnel-core/src/handshake_v2.rs:1780-1789 | a completing fragment refused its token leaves the whole M1 in the entry, unjudged, with its old deadline |
| `HandshakeFailures.StuckUntilSwept` | pq-tunnel-core/src/handshake_v2.rs:1771-1805 | over every run, such an entry stays exactly as it is and nothing is said for its session while its lifetime lasts |
| `HandshakeFailures.StuckIsSwept` | pq-tunnel-core/src/handshake_v2.rs:1646-1649 | and the first well-formed fragment after that sweeps it |
| `Forward.AlwaysOk` | pq-tunnel-bin/src/forward.rs:128-309 | in every run, whatever bind and connect do, at most 512 sockets are pooled, at most 128 per session, and no pooled destination is refused by the policy |
| `Forward.EvictionIsLru` | pq-tunnel-bin/src/forward.rs:241-309 | a socket that is not idle is lost only at a cap and as a least recently used candidate; another session's only at the global cap |
| `Forward.ForwardsExactly` | pq-tunnel-bin/src/forward.rs:128-197 | a framed datagram is dropped exactly when its destination is refused; otherwise echo returns the frame without padding, and forwarding sends exactly that datagram to exactly that destination on a socket used within the last minute or on one that opens, with its last use now, and nothing if none opens |
| `Forward.WhoStays` | pq-tunnel-bin/src/forward.rs:128-321 | after any datagram each pooled socket is the one just used or was used within the last minute and is unchanged, and one used within the last minute is lost only as a victim of a cap |
| `Forward.JunkIsDropped` | pq-tunnel-bin/src/forward.rs:128-142 | what does not decode is dropped, leaving exactly the sockets used within the last minute |
| `Forward.HandledKeepsOk` | pq-tunnel-bin/src/forward.rs:128-197 | one relay message keeps the caps and the policy |
| `Forward.RoomIsEnough` | pq-tunnel-bin/src/forward.rs:241-276 | after making room one more socket fits under both caps |
| `Forward.Forwarder.constructor` | pq-tunnel-bin/src/forward.rs:112-124 | a new forwarder pools nothing |
| `Forward.Forwarder.Handle` | pq-tunnel-bin/src/forward.rs:128-197 | sweep, decode, egress check before any socket, echo or forward, last use refreshed |
| `Forward.Forwarder.PruneIdle` | pq-tunnel-bin/src/forward.rs:311-321 | removes exactly the sockets idle for longer than 60 s |
| `Forward.Forwarder.MakeRoomFor` | pq-tunnel-bin/src/forward.rs:241-276 | one globally oldest socket at the global cap, then the session's oldest ones at its cap |
| `Forward.Forwarder.TrimSession` | pq-tunnel-bin/src/forward.rs:254-276 | the loop leaves at most 127 sockets of the session, having removed the least recently used |
| `Forward.Forwarder.OnSessionClosed` | pq-tunnel-bin/src/forward.rs:223-233 | drops exactly that session's sockets |
| `Forward.Forwarder.Shutdown` | pq-tunnel-bin/src/forward.rs:338-342 | drops every socket |
| `Lru.FindOldest` | pq-tunnel-bin/src/forward.rs:323-328 | the scan returns a member no other member is older than |
| `Lru.TrimOne` | pq-tunnel-bin/src/forward.rs:263-276 | removing the oldest and trimming the rest is trimming the whole |
| `Lru.TrimmedUnique` | pq-tunnel-bin/src/relay.rs:308-333 | when no two last uses coincide the survivors of a trim are determined |
| `Egress.NoReencodingEscapes` | pq-tunnel-bin/src/forward.rs:470-567 | under DenyUnsafe a refused IPv4 host stays refused as IPv4-mapped and as IPv4-compatible IPv6 |
| `Egress.MappedSame` | pq-tunnel-bin/src/forward.rs:507-567 | the IPv4-mapped spelling gets the same decision and the same rule, under either policy |
| `Egress.CompatibleSame` | pq-tunnel-bin/src/forward.rs:507-567 | the IPv4-compatible spelling gets the same decision except for 0.0.0.1 under AllowLoopback with a non-zero port |
| `Egress.PrivateStaysReachable` | pq-tunnel-bin/src/forward.rs:482-504 | private, shared and link-local IPv4 is refused only at the two metadata hosts |
| `Egress.UniqueLocalStaysReachable` | pq-tunnel-bin/src/forward.rs:507-540 | unique-local IPv6 is refused only at the two metadata hosts |
| `Egress.DeniedBlocks` | pq-tunnel-bin/src/forward.rs:470-504 | under DenyUnsafe the refused IPv4 destinations are port 0, 0/8, 127/8, 224/4, the broadcast address and the two metadata hosts, as numeric blocks, and no others |
| `Egress.DeniedBlocksV6` | pq-tunnel-bin/src/forward.rs:507-567 | under DenyUnsafe the refused IPv6 destinations are port 0, the unspecified and loopback addresses, ff00::/8, the two metadata hosts, and in ::/96 and ::ffff:0:0/96 the refused IPv4 hosts, all by their 128-bit numbers, and no others |
| `Egress.NamedHosts` | pq-tunnel-bin/src/forward.rs:507-523 | the named IPv6 hosts are fd00:ec2::254, fd20:ce::254, ::1 and ::, by their numbers |
| `Egress.AllowLoopbackOpensLoopback` | pq-tunnel-bin/src/forward.rs:470-567 | the test-only policy opens exactly the loopback destinations, embedded spellings included |
| `Relay.DecodeOfEncode` | pq-tunnel-bin/src/relay.rs:71-145 | a frame followed by any padding decodes to what was framed |
| `Relay.EncodeOfDecode` | pq-tunnel-bin/src/relay.rs:71-145 | whatever decodes re-encodes, and the frame is a prefix of the message |
| `Relay.DecodesExactly` | pq-tunnel-bin/src/relay.rs:71-145 | a message decodes to a frame exactly when the frame can be encoded and its encoding is how the message begins |
| `Relay.CutShort` | pq-tunnel-bin/src/relay.rs:104-145 | a frame cut short anywhere is reported truncated at the length that is left |
| `Relay.OverCapacity` | pq-tunnel-bin/src/relay.rs:135-142 | a header that declares more than the slot capacity is too large however much of the datagram is there |
| `Relay.EncodeFits` | pq-tunnel-bin/src/relay.rs:71-91 | framing is refused exactly when header and datagram would not fit one payload slot |
| `Relay.BindingMap.Prune` | pq-tunnel-bin/src/relay.rs:308-333 | leaves the unexpired bindings cut to 256 by oldest last use |
| `Relay.BindingMap.RemoveExpired` | pq-tunnel-bin/src/relay.rs:308-321 | the sweep removes exactly the bindings older than 60 s |
| `Relay.BindingMap.EvictOldest` | pq-tunnel-bin/src/relay.rs:322-333 | the loop removes only least recently used bindings, down to the cap |
| `Relay.PruneBounds` | pq-tunnel-bin/src/relay.rs:308-333 | every survivor is unexpired, at most 256 remain, every evicted unexpired binding is no newer than every survivor, and nothing is evicted below the cap |
| `Relay.StaysExactly` | pq-tunnel-bin/src/relay.rs:308-333 | at most 256 bindings stay, none unused for over a minute, and while no more than 256 were used within the minute exactly those stay |
| `Tunnel.HandshakeOpensChannel` | pq-tunnel-core/src/envelope.rs:201-413 | under the conditions of the agreement theorem, the sessions opened from the two handshake outcomes form one channel, and in every run of it each end receives only what the other sent, once |
| `Tunnel.AgreedChannel` | pq-tunnel-core/src/envelope.rs:201-220 | outcomes with equal master and session id open exactly the paired sessions of a channel |
| `Tunnel.CompletedWasSent` | pq-tunnel-core/src/dataplane.rs:471-590 | whatever IP packet one end reassembles from what it received over a hostile network validates, and every one of its slots was sent by the other end |
| `Tunnel.CompletesWhatWasFragmented` | pq-tunnel-core/src/dataplane.rs:344-590 | if one end uses an id for one packet, the other end reassembles that packet under it or none |
| `Tunnel.DataLooksLikeHandshake` | pq-tunnel-core/src/handshake_v2.rs:279-289 | in every run a data packet is taken for a handshake fragment exactly when the top byte of its counter is 0x10, 0x20 or 0x30, so never among the first 2^60 packets of a direction |
| `Tunnel.HandshakeLooksLikeIt` | pq-tunnel-core/src/handshake_v2.rs:279-401 | every datagram the fragmenter makes is taken for a handshake fragment |
| `Cover.RateIsBounded` | pq-tunnel-core/src/scheduler.rs:162-202 | in every run of start, stop and on_deadline on a non-decreasing clock emissions are at least one interval apart, so at most floor(T/interval) within T of a start |
| `Cover.EmissionsSpaced` | pq-tunnel-core/src/scheduler.rs:162-202 | with nothing due before t every emission is at or after t and a full interval from the next, across stops and restarts |
| `Cover.PunctualDriver` | pq-tunnel-core/src/scheduler.rs:162-202 | a driver that is never late emits exactly one packet per interval |
| `Cover.DisabledIsSilent` | pq-tunnel-core/src/scheduler.rs:189-202 | a disabled policy never emits |
| `Cover.IntervalAntitone` | pq-tunnel-core/src/scheduler.rs:126-132 | a faster rate never lengthens the interval, and the floor always holds |
| `Cover.ClampInactiveUpToMax` | pq-tunnel-core/src/scheduler.rs:87-132 | the floor leaves the quotient unchanged exactly for rates up to MAX_COVER_RATE_BPS |
| `Cover.RateIsMet` | pq-tunnel-core/src/scheduler.rs:113-132 | up to the maximum rate the interval is the longest whole number of nanoseconds at which one 1280-byte packet per interval still meets the rate |
| `Cover.EdgeRates` | pq-tunnel-core/src/scheduler.rs:87-132 | faster rates all get the floor of 21762 ns, no rate counts as one bit per second, and the default of 2 Mbps is exactly 5.12 ms |
| `Cover.CoverScheduler.constructor` | pq-tunnel-core/src/scheduler.rs:151-153 | starts unscheduled |
| `Cover.CoverScheduler.Begin` | pq-tunnel-core/src/scheduler.rs:162-166 | arms one interval out, once |
| `Cover.CoverScheduler.Halt` | pq-tunnel-core/src/scheduler.rs:169-171 | disarms |
| `Cover.CoverScheduler.OnDeadline` | pq-tunnel-core/src/scheduler.rs:189-202 | emits at most once and re-arms from now, so a stall yields one packet |

## Left out

- HandshakeAgreement.Agreement: covers traffic that is fair to the client, because a stranger whose fragment 0 comes first, or who sends from the client's own address, shuts the client out until the entry's lifetime ends, and a swap may revoke the client.
- RateLimit.PruneIsInvisible: covers runs in which the unpruned table stays below the cap, because pruning changes which source a cap eviction hits.
- Reassembly.Reassembler.FeedSlot: the byte-cap test adds without saturation, which differs only for a byte cap of 2^64 - 1; buffers are sequences that are reassigned, so overwriting in place is not modelled.
- HandshakeServer.ServerHandshake.AdvanceM1: the entry's assembler is a value in the table; its in-place buffer is modelled separately as HandshakeFraming.FragmentAssembler.
- Cover.CoverScheduler.OnDeadline: instants are unbounded, so overflow of an instant is not modelled.
- Forward.Forwarder.Handle: binding and connecting are one yes-or-no input, and sending always leaves the pool as it is; denial counters and sampled logging are not modelled.
- Secrecy and unforgeability of the primitives: keys and secrets are values, and no adversary computes with them.
- The primitives themselves, the HKDF labels of the traffic keys, zeroization, constant-time comparison and redacted debug output.
- Async drivers, sockets, reader tasks, timers, the TUN device and the command line.
- The session manager and wire session, whose source is not part of this model.
- Nonce and packet-length helpers, identity files and the TUN address policy, which would only add easy members.
- The proxy, the benchmarks and the fuzz targets.
