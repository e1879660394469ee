/** What runs of the reassembler deliver, and what they never deliver. */
module ReassemblyRuns {
  import opened Bytes
  import opened Codec
  import opened Crc
  import opened Net
  import opened Overlay
  import opened Reassembly

  datatype Op =
    | FeedOp(slot: Slot, now: Instant)
    | ExpireOp(now: Instant)
    | ClearOp

  ghost function Step(st: State, caps: Caps, op: Op): (r: State)
    requires Inv(st, caps)
    ensures Inv(r, caps)
  {
    match op
    case FeedOp(slot, now) =>
      FeedKeepsInv(st, caps, slot, now);
      Feed(st, caps, slot, now).state
    case ExpireOp(now) =>
      ExpireKeepsInv(st, caps, now);
      Expire(st, now)
    case ClearOp => EMPTY
  }

  /** In every run the byte count is the sum of the live lengths and both caps hold. */
  ghost function Run(st: State, caps: Caps, ops: seq<Op>): (r: State)
    requires Inv(st, caps)
    ensures Inv(r, caps)
    decreases |ops|
  {
    if ops == [] then st else Step(Run(st, caps, ops[..|ops| - 1]), caps, ops[|ops| - 1])
  }

  /** What feeding `slot` next would answer. */
  ghost function Answer(st: State, caps: Caps, slot: Slot, now: Instant): Outcome
    requires Inv(st, caps)
  {
    Feed(st, caps, slot, now).outcome
  }

  ghost predicate IsFor(slot: Slot, id: u64) {
    Decode(slot).Good? && Decode(slot).value.id == id
  }

  // ---------------------------------------------------------------------
  // Soundness: a completed packet was fed, slot for slot
  // ---------------------------------------------------------------------

  ghost predicate WasFed(ops: seq<Op>, slot: Slot) {
    exists i :: 0 <= i < |ops| && ops[i].FeedOp? && ops[i].slot == slot
  }

  /** The fragment an entry holds at index `k`, as the slot that carried it. */
  ghost function Held(e: Entry, id: u64, k: nat): Slot
    requires Shaped(e) && k < e.fragCount
  {
    SlotOf(e.buf, e.crc, id, k)
  }

  lemma HeldElsewhere(e: Entry, id: u64, j: nat, k: nat, body: seq<byte>)
    requires Shaped(e) && j < e.fragCount && k < e.fragCount && j != k && |body| == FragLen(e.ipTotalLen, k)
    ensures Held(Written(e, k, k * FRAG_CAP, body), id, j) == Held(e, id, j)
  {
    var e', lo, n := Written(e, k, k * FRAG_CAP, body), j * FRAG_CAP, FragLen(e.ipTotalLen, j);
    if j < k {
      assert lo + n <= k * FRAG_CAP;
    } else {
      assert k * FRAG_CAP + |body| <= lo;
    }
    assert e'.buf[lo..lo + n] == e.buf[lo..lo + n];
  }

  lemma HeldHere(e: Entry, slot: Slot, h: OverlayHeader)
    requires Shaped(e) && Decode(slot) == Good(h) && WellFormed(h) && !TrailingBad(slot, h)
    requires e.ipTotalLen == h.ipTotalLen && e.crc == h.crc
    ensures var n := FragLen(e.ipTotalLen, h.fragIndex);
            var body := slot[OVERLAY_HEADER_LEN..OVERLAY_HEADER_LEN + n];
            Held(Written(e, h.fragIndex, h.fragIndex * FRAG_CAP, body), h.id, h.fragIndex) == slot
  {
    HeadersFit(h);
    var k, n := h.fragIndex, FragLen(e.ipTotalLen, h.fragIndex);
    var body := slot[OVERLAY_HEADER_LEN..OVERLAY_HEADER_LEN + n];
    var e' := Written(e, k, k * FRAG_CAP, body);
    assert e'.buf[k * FRAG_CAP..k * FRAG_CAP + n] == body;
    assert slot[OVERLAY_HEADER_LEN + n..] == Zeros(FRAG_CAP - n);
    SlotCanonical(slot, e'.buf);
  }

  /** What an entry holds after a call it either held before or was just fed. */
  lemma AbsorbHolds(e: Entry, slot: Slot, h: OverlayHeader, j: nat)
    requires Live(e) && !e.poisoned && Decode(slot) == Good(h) && WellFormed(h) && j < e.fragCount
    requires var a := Absorb(e, slot, h); !a.entry.poisoned && a.entry.received[j]
    ensures var a := Absorb(e, slot, h);
            && Shaped(a.entry) && a.entry.fragCount == e.fragCount
            && (Held(a.entry, h.id, j) == slot || (e.received[j] && Held(a.entry, h.id, j) == Held(e, h.id, j)))
  {
    hide SlotOf, IpHeaderOk, Crc32, Decode;
    HeadersFit(h);
    var k, n := h.fragIndex, ExpectedFragLen(h);
    var body := slot[OVERLAY_HEADER_LEN..OVERLAY_HEADER_LEN + n];
    if !e.received[k] {
      assert Absorb(e, slot, h) == Finish(Written(e, k, k * FRAG_CAP, body), k);
      if j == k { HeldHere(e, slot, h); } else { HeldElsewhere(e, h.id, j, k, body); }
    }
  }

  lemma ExpiredEntry(st: State, now: Instant, id: u64)
    ensures var m := Expire(st, now).entries;
            && (id in m <==> id in st.entries && st.entries[id].deadline > now)
            && (id in m ==> m[id] == st.entries[id])
  {
    hide TotalLen;
  }

  lemma FeedDecodedElsewhere(st: State, caps: Caps, slot: Slot, h: OverlayHeader, now: Instant, id: u64)
    requires WellFormed(h) && (h.id in st.entries ==> Shaped(st.entries[h.id])) && id != h.id
    ensures var m := FeedDecoded(st, caps, slot, h, now).state.entries;
            && (id in m <==> id in st.entries)
            && (id in m ==> m[id] == st.entries[id])
  {
    hide Absorb, TrailingBad, Room;
  }

  /** Feeding one id never touches another id's unexpired entry. */
  lemma OtherIdsUntouched(st: State, caps: Caps, slot: Slot, now: Instant, id: u64)
    requires Inv(st, caps) && !IsFor(slot, id)
    ensures var m := Feed(st, caps, slot, now).state.entries;
            && (id in m <==> id in st.entries && st.entries[id].deadline > now)
            && (id in m ==> m[id] == st.entries[id])
  {
    hide FeedDecoded, Decode, WellFormed, Expire;
    ExpiredEntry(st, now, id);
    DecodeExact(slot);
    if Decode(slot).Good? {
      ExpireKeepsInv(st, caps, now);
      FeedDecodedElsewhere(Expire(st, now), caps, slot, Decode(slot).value, now, id);
    }
  }

  // ---------------------------------------------------------------------
  // When a slot is turned away
  // ---------------------------------------------------------------------

  ghost function LiveEntries(st: State, now: Instant): Entries {
    map id | id in st.entries && st.entries[id].deadline > now :: st.entries[id]
  }

  /** One more packet of `len` bytes stays within both caps, beside the entries still live. */
  ghost predicate Fits(st: State, caps: Caps, len: nat, now: Instant) {
    |LiveEntries(st, now)| < caps.maxEntries && TotalLen(LiveEntries(st, now)) + len <= caps.maxBytes
  }

  lemma ExpireLeavesLive(st: State, caps: Caps, now: Instant)
    requires Inv(st, caps)
    ensures Expire(st, now) == State(LiveEntries(st, now), TotalLen(LiveEntries(st, now)))
  {
    hide TotalLen, Live;
    ExpireKeepsInv(st, caps, now);
    assert Expire(st, now).entries == LiveEntries(st, now);
  }

  lemma FitsIsRoom(st: State, caps: Caps, len: nat, now: Instant)
    requires Inv(st, caps)
    ensures Fits(st, caps, len, now) <==> Room(Expire(st, now), caps, len)
  {
    hide Inv, TotalLen, LiveEntries, Expire;
    ExpireLeavesLive(st, caps, now);
  }

  /** What follows the fragment in its slot is not all zero. */
  ghost predicate DirtyPadding(slot: Slot, h: OverlayHeader)
    requires WellFormed(h)
  {
    var n := FragLen(h.ipTotalLen, h.fragIndex);
    slot[OVERLAY_HEADER_LEN + n..] != Zeros(FRAG_CAP - n)
  }

  lemma TrailingIsDirty(slot: Slot, h: OverlayHeader)
    requires WellFormed(h)
    ensures TrailingBad(slot, h) <==> DirtyPadding(slot, h)
  {
    HeadersFit(h);
    var lo := OVERLAY_HEADER_LEN + FragLen(h.ipTotalLen, h.fragIndex);
    var z := Zeros(PAYLOAD_LEN - lo);
    if slot[lo..] != z {
      var i :| 0 <= i < PAYLOAD_LEN - lo && slot[lo..][i] != z[i];
      assert slot[lo + i] != 0;
    } else {
      forall i | lo <= i < PAYLOAD_LEN ensures slot[i] == 0 { assert slot[lo..][i - lo] == z[i - lo]; }
    }
  }

  /**
   * A slot for an id without a live entry is turned away exactly for dirty padding, or else
   * exactly when the live entries leave no room for its packet under one of the caps.
   */
  lemma TurnedAwayExactly(st: State, caps: Caps, slot: Slot, now: Instant, h: OverlayHeader)
    requires Inv(st, caps) && Decode(slot) == Good(h) && WellFormed(h) && h.id !in LiveEntries(st, now)
    ensures var outcome := Feed(st, caps, slot, now).outcome;
            && (outcome == Malformed <==> DirtyPadding(slot, h))
            && (outcome == DroppedCap <==> !DirtyPadding(slot, h) && !Fits(st, caps, h.ipTotalLen, now))
  {
    hide Decode, WellFormed, TrailingBad, DirtyPadding, Room, Fits, Expire, NewEntry, TotalLen, Live, Absorb;
    ExpireLeavesLive(st, caps, now);
    FitsIsRoom(st, caps, h.ipTotalLen, now);
    TrailingIsDirty(slot, h);
    NewEntryLive(h, now + caps.lifetime);
  }

  /** The entry a slot for its own id meets: the live one, or a new one. */
  ghost function Met(st: State, caps: Caps, h: OverlayHeader, now: Instant): Entry {
    if h.id in st.entries && st.entries[h.id].deadline > now then st.entries[h.id]
    else NewEntry(h, now + caps.lifetime)
  }

  /** How a slot's own entry moves, given the table it meets. */
  lemma FeedDecodedHere(st: State, caps: Caps, slot: Slot, h: OverlayHeader, now: Instant, e: Entry)
    requires WellFormed(h) && Shaped(e)
    requires e == if h.id in st.entries then st.entries[h.id] else NewEntry(h, now + caps.lifetime)
    ensures var f, a := FeedDecoded(st, caps, slot, h, now), Absorb(e, slot, h);
            if f.outcome in {Malformed, DroppedCap}
            then h.id !in st.entries && f.state == st && (TrailingBad(slot, h) || !Room(st, caps, h.ipTotalLen))
            else
              && f.outcome == a.outcome
              && (a.outcome.Complete? <==> h.id !in f.state.entries)
              && (h.id in f.state.entries ==> f.state.entries[h.id] == a.entry)
  {
    hide TrailingBad, Room, Finish, Written;
  }

  lemma MetIsLive(st: State, caps: Caps, slot: Slot, now: Instant)
    requires Inv(st, caps) && Decode(slot).Good?
    ensures WellFormed(Decode(slot).value) && Live(Met(st, caps, Decode(slot).value, now))
  {
    hide Decode, WellFormed, TotalLen, CountTrue, NewEntry;
    DecodeExact(slot);
    NewEntryLive(Decode(slot).value, now + caps.lifetime);
  }

  /** A slot is turned away, or its entry moves as `Absorb` says. */
  ghost predicate Moved(f: Fed, e: Entry, slot: Slot, h: OverlayHeader)
    requires Shaped(e) && WellFormed(h)
  {
    if f.outcome in {Malformed, DroppedCap} then h.id !in f.state.entries
    else
      && f.outcome == Absorb(e, slot, h).outcome
      && (f.outcome.Complete? <==> h.id !in f.state.entries)
      && (h.id in f.state.entries ==> f.state.entries[h.id] == Absorb(e, slot, h).entry)
  }

  lemma OwnIdStep(st: State, caps: Caps, slot: Slot, now: Instant, h: OverlayHeader, e: Entry)
    requires Inv(st, caps) && WellFormed(h) && Shaped(e)
    requires Decode(slot) == Good(h) && e == Met(st, caps, h, now)
    ensures Moved(Feed(st, caps, slot, now), e, slot, h)
  {
    hide FeedDecoded, Absorb, Expire, Decode, TrailingBad, Room, NewEntry, WellFormed, TotalLen, Live;
    ExpireKeepsInv(st, caps, now);
    ExpiredEntry(st, now, h.id);
    FeedDecodedHere(Expire(st, now), caps, slot, h, now, e);
  }

  ghost predicate Justified(st: State, id: u64, ops: seq<Op>)
    requires id in st.entries ==> Shaped(st.entries[id])
  {
    id in st.entries && !st.entries[id].poisoned ==>
      forall k | 0 <= k < st.entries[id].fragCount && st.entries[id].received[k] ::
        WasFed(ops, Held(st.entries[id], id, k))
  }

  /** Whatever entry `id` had is gone by the time `op` acts: cleared or expired, if it was there at all. */
  ghost predicate StartsAnew(st: State, id: u64, op: Op) {
    id in st.entries ==> op.ClearOp? || st.entries[id].deadline <= op.now
  }

  lemma FedLater(ops: seq<Op>, op: Op, slot: Slot)
    requires WasFed(ops, slot) || (op.FeedOp? && op.slot == slot)
    ensures WasFed(ops + [op], slot)
  {
    if WasFed(ops, slot) {
      var i :| 0 <= i < |ops| && ops[i].FeedOp? && ops[i].slot == slot;
      assert (ops + [op])[i] == ops[i];
    } else {
      assert (ops + [op])[|ops|] == op;
    }
  }

  lemma StepJustified(st: State, caps: Caps, op: Op, id: u64, ops: seq<Op>)
    requires Inv(st, caps) && (Justified(st, id, ops) || StartsAnew(st, id, op))
    ensures Justified(Step(st, caps, op), id, ops + [op])
  {
    hide SlotOf, Feed, Absorb, Expire, Decode, WasFed, TotalLen, IpHeaderOk, CountTrue, WellFormed;
    var st' := Step(st, caps, op);
    if id in st'.entries && !st'.entries[id].poisoned {
      var e' := st'.entries[id];
      forall k | 0 <= k < e'.fragCount && e'.received[k] ensures WasFed(ops + [op], Held(e', id, k)) {
        if op.FeedOp? && IsFor(op.slot, id) {
          var h := Decode(op.slot).value;
          MetIsLive(st, caps, op.slot, op.now);
          OwnIdStep(st, caps, op.slot, op.now, h, Met(st, caps, h, op.now));
          AbsorbJustified(st, caps, op.slot, op.now, id, k, ops);
        } else if op.FeedOp? {
          OtherIdsUntouched(st, caps, op.slot, op.now, id);
        } else {
          ExpiredEntry(st, op.now, id);
        }
        FedLater(ops, op, Held(e', id, k));
      }
    }
  }

  lemma AbsorbJustified(st: State, caps: Caps, slot: Slot, now: Instant, id: u64, k: nat, ops: seq<Op>)
    requires Inv(st, caps) && (Justified(st, id, ops) || StartsAnew(st, id, FeedOp(slot, now)))
    requires IsFor(slot, id) && WellFormed(Decode(slot).value)
    requires var e := Met(st, caps, Decode(slot).value, now);
             Live(e) && var a := Absorb(e, slot, Decode(slot).value);
             Shaped(a.entry) && !a.entry.poisoned && k < a.entry.fragCount && a.entry.received[k]
    ensures var a := Absorb(Met(st, caps, Decode(slot).value, now), slot, Decode(slot).value);
            Held(a.entry, id, k) == slot || WasFed(ops, Held(a.entry, id, k))
  {
    hide SlotOf, Finish, Written, Expire, Decode, WasFed, TotalLen, IpHeaderOk, CountTrue, WellFormed, TrailingBad;
    var h := Decode(slot).value;
    var e := Met(st, caps, h, now);
    assert !e.poisoned;
    AbsorbSameCount(e, slot, h);
    AbsorbHolds(e, slot, h, k);
  }

  lemma AbsorbSameCount(e: Entry, slot: Slot, h: OverlayHeader)
    requires Shaped(e) && WellFormed(h)
    ensures Absorb(e, slot, h).entry.fragCount == e.fragCount
  {
    hide IpHeaderOk, Crc32;
  }

  lemma {:induction false} RunJustified(st: State, caps: Caps, ops: seq<Op>, id: u64)
    requires Inv(st, caps) && ops != [] && StartsAnew(st, id, ops[0])
    ensures Justified(Run(st, caps, ops), id, ops)
    decreases |ops|
  {
    hide Step, Held, WasFed, Live, TotalLen;
    var n := |ops| - 1;
    if n > 0 { RunJustified(st, caps, ops[..n], id); } else { assert ops[..n] == []; }
    StepJustified(Run(st, caps, ops[..n]), caps, ops[n], id, ops[..n]);
    assert ops[..n] + [ops[n]] == ops;
  }

  /**
   * A completed packet validates, fragments again, and each of its fragments
   * was fed byte for byte since any step at which the id had no live entry.
   */
  lemma CompletedWasFed(st: State, caps: Caps, ops: seq<Op>, slot: Slot, now: Instant, b: seq<byte>)
    requires Inv(st, caps) && Decode(slot).Good?
    requires StartsAnew(st, Decode(slot).value.id, (ops + [FeedOp(slot, now)])[0])
    requires Answer(Run(st, caps, ops), caps, slot, now) == Complete(b)
    ensures Fragmentable(b) && 20 <= |b| <= MAX_IP_PACKET_LEN
    ensures forall k | 0 <= k < FragCount(|b|) ::
              WasFed(ops + [FeedOp(slot, now)], SlotAt(b, Decode(slot).value.id, k))
  {
    hide SlotOf, Feed, Decode, WasFed, TotalLen, IpHeaderOk, WellFormed;
    var h, st' := Decode(slot).value, Run(st, caps, ops);
    if ops != [] { RunJustified(st, caps, ops, h.id); }
    var e := Met(st', caps, h, now);
    MetIsLive(st', caps, slot, now);
    OwnIdStep(st', caps, slot, now, h, e);
    AbsorbCompletes(e, slot, h, b);
    forall k | 0 <= k < FragCount(|b|)
      ensures WasFed(ops + [FeedOp(slot, now)], SlotAt(b, h.id, k))
    {
      AbsorbJustified(st', caps, slot, now, h.id, k, ops);
      FedLater(ops, FeedOp(slot, now), Held(Absorb(e, slot, h).entry, h.id, k));
    }
  }

  // ---------------------------------------------------------------------
  // The step that created the completing entry
  // ---------------------------------------------------------------------

  lemma {:induction false} RunSplit(st: State, caps: Caps, a: seq<Op>, b: seq<Op>)
    requires Inv(st, caps)
    ensures Run(st, caps, a + b) == Run(Run(st, caps, a), caps, b)
    decreases |b|
  {
    hide Step, Inv;
    if b == [] {
      assert a + b == a;
    } else {
      var n := |b| - 1;
      RunSplit(st, caps, a, b[..n]);
      assert (a + b)[..|a + b| - 1] == a + b[..n];
    }
  }

  ghost predicate Anew(st: State, caps: Caps, ops: seq<Op>, id: u64, n: nat)
    requires Inv(st, caps) && n < |ops|
  {
    StartsAnew(Run(st, caps, ops[..n]), id, ops[n])
  }

  /** Step `born` created the entry of `id`, and that entry has lived through every step since. */
  ghost predicate CreatedAt(st: State, caps: Caps, ops: seq<Op>, id: u64, born: nat)
    requires Inv(st, caps)
  {
    && born < |ops| && ops[born].FeedOp? && IsFor(ops[born].slot, id)
    && Anew(st, caps, ops, id, born) && forall j | born < j < |ops| :: !Anew(st, caps, ops, id, j)
  }

  lemma {:induction false} LastAnew(st: State, caps: Caps, ops: seq<Op>, id: u64, n: nat) returns (born: nat)
    requires Inv(st, caps) && n < |ops| && StartsAnew(st, id, ops[0])
    ensures born <= n && Anew(st, caps, ops, id, born) && forall j | born < j <= n :: !Anew(st, caps, ops, id, j)
  {
    hide *;
    AnewAtStart(st, caps, ops, id);
    if Anew(st, caps, ops, id, n) {
      born := n;
    } else {
      born := LastAnew(st, caps, ops, id, n - 1);
    }
  }

  lemma AnewAtStart(st: State, caps: Caps, ops: seq<Op>, id: u64)
    requires Inv(st, caps) && ops != [] && StartsAnew(st, id, ops[0])
    ensures Anew(st, caps, ops, id, 0)
  {
    hide Inv, StartsAnew, Step;
    assert ops[..0] == [];
  }

  /** A step that starts anew without feeding the id leaves the next step to start anew as well. */
  lemma AnewOnlyByFeeding(st: State, caps: Caps, ops: seq<Op>, id: u64, n: nat)
    requires Inv(st, caps) && n + 1 < |ops| && Anew(st, caps, ops, id, n)
    requires !(ops[n].FeedOp? && IsFor(ops[n].slot, id))
    ensures Anew(st, caps, ops, id, n + 1)
  {
    hide Feed, Expire, IsFor, Live, TotalLen;
    var st', op := Run(st, caps, ops[..n]), ops[n];
    assert ops[..n + 1][..n] == ops[..n];
    if op.FeedOp? { OtherIdsUntouched(st', caps, op.slot, op.now, id); }
    if op.ExpireOp? { ExpiredEntry(st', op.now, id); }
  }

  /**
   * In every run that begins with no live entry for the id, a completed packet
   * validates, fragments again, and each of its fragments was fed byte for byte
   * since the step that created the completing entry.
   */
  lemma CompletedSinceCreated(st: State, caps: Caps, ops: seq<Op>, slot: Slot, now: Instant, b: seq<byte>) returns (born: nat)
    requires Inv(st, caps) && Decode(slot).Good?
    requires StartsAnew(st, Decode(slot).value.id, (ops + [FeedOp(slot, now)])[0])
    requires Answer(Run(st, caps, ops), caps, slot, now) == Complete(b)
    ensures Fragmentable(b) && 20 <= |b| <= MAX_IP_PACKET_LEN
    ensures var all, id := ops + [FeedOp(slot, now)], Decode(slot).value.id;
            && CreatedAt(st, caps, all, id, born)
            && forall k | 0 <= k < FragCount(|b|) :: WasFed(all[born..], SlotAt(b, id, k))
  {
    hide Step, Answer, Decode, SlotAt, WasFed, Fragmentable, FragCount, StartsAnew, Inv;
    var all, id, n := ops + [FeedOp(slot, now)], Decode(slot).value.id, |ops|;
    born := LastAnew(st, caps, all, id, n);
    if born < n && !(all[born].FeedOp? && IsFor(all[born].slot, id)) { AnewOnlyByFeeding(st, caps, all, id, born); }
    var first, rest := ops[..born], ops[born..];
    assert ops == first + rest && all[..born] == first && all[born..] == rest + [FeedOp(slot, now)];
    RunSplit(st, caps, first, rest);
    CompletedWasFed(Run(st, caps, first), caps, rest, slot, now, b);
  }

  /** Completion means: everything received, a valid header and a matching checksum. */
  lemma AbsorbCompletes(e: Entry, slot: Slot, h: OverlayHeader, b: seq<byte>)
    requires Live(e) && WellFormed(h) && Absorb(e, slot, h).outcome == Complete(b)
    ensures var e' := Absorb(e, slot, h).entry;
            && Shaped(e') && !e'.poisoned && e'.buf == b && e'.crc == Crc32(b)
            && (forall k | 0 <= k < e'.fragCount :: e'.received[k])
            && Fragmentable(b)
  {
    hide Crc32, SlotOf;
    HeadersFit(h);
    var k, n := h.fragIndex, ExpectedFragLen(h);
    var body := slot[OVERLAY_HEADER_LEN..OVERLAY_HEADER_LEN + n];
    assert !e.received[k];
    WrittenKeepsLive(e, k, body);
    CountAll(Written(e, k, k * FRAG_CAP, body).received);
    HeaderCheckIsPacketCheck(b);
  }

  // ---------------------------------------------------------------------
  // Duplicates and conflicts
  // ---------------------------------------------------------------------

  /** A slot that repeats fragment `k` is the held one exactly when length, checksum, padding and bytes all agree. */
  lemma SameSlotExactly(e: Entry, slot: Slot, h: OverlayHeader)
    requires Shaped(e) && Decode(slot) == Good(h) && WellFormed(h) && h.fragIndex < e.fragCount
    ensures slot == Held(e, h.id, h.fragIndex)
       <==> && h.ipTotalLen == e.ipTotalLen && h.crc == e.crc && !DirtyPadding(slot, h)
            && var lo, n := h.fragIndex * FRAG_CAP, FragLen(e.ipTotalLen, h.fragIndex);
               slot[OVERLAY_HEADER_LEN..OVERLAY_HEADER_LEN + n] == e.buf[lo..lo + n]
  {
    hide SlotOf, Decode, Encode;
    ReadSlot(e.buf, e.crc, h.id, h.fragIndex);
    HeadersFit(h);
    if h.ipTotalLen == e.ipTotalLen && h.crc == e.crc && !DirtyPadding(slot, h) {
      var lo, n := h.fragIndex * FRAG_CAP, FragLen(e.ipTotalLen, h.fragIndex);
      if slot[OVERLAY_HEADER_LEN..OVERLAY_HEADER_LEN + n] == e.buf[lo..lo + n] { SlotCanonical(slot, e.buf); }
    }
  }

  /** A fragment the entry already has is ignored exactly when it is byte for byte the slot that was fed; any other poisons. */
  lemma DuplicateExactly(st: State, caps: Caps, slot: Slot, now: Instant, h: OverlayHeader, e: Entry)
    requires Inv(st, caps) && Decode(slot) == Good(h) && WellFormed(h)
    requires h.id in LiveEntries(st, now) && e == st.entries[h.id] && Shaped(e) && !e.poisoned
    requires h.fragIndex < e.fragCount && e.received[h.fragIndex]
    ensures var f := Feed(st, caps, slot, now);
            && f.outcome == (if slot == Held(e, h.id, h.fragIndex) then DuplicateIgnored else Poisoned)
            && h.id in f.state.entries
            && f.state.entries[h.id] == (if slot == Held(e, h.id, h.fragIndex) then e else e.(poisoned := true))
  {
    hide Decode, WellFormed, TrailingBad, DirtyPadding, Room, Expire, TotalLen, Live, Finish, Written, Held, FragLen;
    SameSlotExactly(e, slot, h);
    TrailingIsDirty(slot, h);
    HeadersFit(h);
    CountOf(h);
    ExpiredEntry(st, now, h.id);
  }

  lemma CountOf(h: OverlayHeader)
    requires WellFormed(h)
    ensures h.fragCount == FragCount(h.ipTotalLen)
  {}

  /** A slot that contradicts its entry's length or checksum, or carries dirty padding, poisons it. */
  lemma ConflictPoisons(st: State, caps: Caps, slot: Slot, now: Instant, h: OverlayHeader, e: Entry)
    requires Inv(st, caps) && Decode(slot) == Good(h) && WellFormed(h)
    requires h.id in LiveEntries(st, now) && e == st.entries[h.id] && !e.poisoned
    requires h.ipTotalLen != e.ipTotalLen || h.crc != e.crc || DirtyPadding(slot, h)
    ensures var f := Feed(st, caps, slot, now);
            f.outcome == Poisoned && h.id in f.state.entries && f.state.entries[h.id] == e.(poisoned := true)
  {
    hide Decode, WellFormed, TrailingBad, DirtyPadding, Room, Expire, TotalLen, Finish, Written;
    TrailingIsDirty(slot, h);
    ExpiredEntry(st, now, h.id);
  }

  /** The fragment's bytes over the packet so far. */
  ghost function Patched(e: Entry, slot: Slot, h: OverlayHeader): seq<byte>
    requires Shaped(e) && WellFormed(h) && h.ipTotalLen == e.ipTotalLen
  {
    var lo, n := h.fragIndex * FRAG_CAP, FragLen(h.ipTotalLen, h.fragIndex);
    e.buf[..lo] + slot[OVERLAY_HEADER_LEN..OVERLAY_HEADER_LEN + n] + e.buf[lo + n..]
  }

  ghost predicate OthersHeld(e: Entry, k: nat) {
    forall j | 0 <= j < |e.received| && j != k :: e.received[j]
  }

  /** A fragment the entry lacks, with its length, checksum and padding in order. */
  ghost predicate Wanted(e: Entry, slot: Slot, h: OverlayHeader) {
    && Shaped(e) && WellFormed(h) && !e.poisoned && h.ipTotalLen == e.ipTotalLen && h.crc == e.crc
    && !DirtyPadding(slot, h) && h.fragIndex < e.fragCount && !e.received[h.fragIndex]
  }

  /** Its answer: a fragment 0 that fails the header check poisons, and so does a last one when the whole fails its checksum. */
  ghost function WantedAnswer(e: Entry, slot: Slot, h: OverlayHeader): Outcome
    requires Wanted(e, slot, h)
  {
    var b := Patched(e, slot, h);
    if h.fragIndex == 0 && !IpHeaderOk(b, |b|) then Poisoned
    else if !OthersHeld(e, h.fragIndex) then Pending
    else if Crc32(b) != e.crc then Poisoned
    else Complete(b)
  }

  lemma LastOne(e: Entry, k: nat, r: seq<bool>)
    requires k < |e.received| && r == e.received[k := true]
    ensures OthersHeld(e, k) <==> forall j | 0 <= j < |r| :: r[j]
  {
    assert forall j | 0 <= j < |r| && j != k :: r[j] == e.received[j];
  }

  lemma AbsorbWanted(e: Entry, slot: Slot, h: OverlayHeader)
    requires Live(e) && Wanted(e, slot, h)
    ensures var a := Absorb(e, slot, h);
            && a.outcome == WantedAnswer(e, slot, h)
            && (a.entry.poisoned <==> a.outcome == Poisoned)
            && a.entry.received == e.received[h.fragIndex := true] && a.entry.buf == Patched(e, slot, h)
  {
    hide Crc32, IpHeaderOk, DirtyPadding, TrailingBad;
    TrailingIsDirty(slot, h);
    HeadersFit(h);
    var k, n := h.fragIndex, ExpectedFragLen(h);
    var body := slot[OVERLAY_HEADER_LEN..OVERLAY_HEADER_LEN + n];
    var w := Written(e, k, k * FRAG_CAP, body);
    WrittenKeepsLive(e, k, body);
    CountAll(w.received);
    assert w.buf == Patched(e, slot, h);
    LastOne(e, k, w.received);
    if OthersHeld(e, k) && k != 0 { assert e.received[0]; }
  }

  /** A wanted fragment, with or without a live entry to meet it, is turned away for want of room or answered so. */
  lemma WantedExactly(st: State, caps: Caps, slot: Slot, now: Instant, h: OverlayHeader, e: Entry)
    requires Inv(st, caps) && Decode(slot) == Good(h) && e == Met(st, caps, h, now) && Wanted(e, slot, h)
    ensures var f := Feed(st, caps, slot, now);
            if h.id !in LiveEntries(st, now) && !Fits(st, caps, h.ipTotalLen, now) then f.outcome == DroppedCap
            else
              && f.outcome == WantedAnswer(e, slot, h)
              && (f.outcome.Complete? <==> h.id !in f.state.entries)
              && (h.id in f.state.entries ==>
                    var e' := f.state.entries[h.id];
                    && (e'.poisoned <==> f.outcome == Poisoned)
                    && e'.received == e.received[h.fragIndex := true] && e'.buf == Patched(e, slot, h))
  {
    hide Decode, Fits, Absorb, WantedAnswer, Patched, DirtyPadding, Live, TotalLen, NewEntry, Feed;
    MetIsLive(st, caps, slot, now);
    AbsorbWanted(e, slot, h);
    OwnIdStep(st, caps, slot, now, h, e);
    NotTurnedAway(st, caps, slot, now, h);
  }

  lemma NotTurnedAway(st: State, caps: Caps, slot: Slot, now: Instant, h: OverlayHeader)
    requires Inv(st, caps) && Decode(slot) == Good(h) && WellFormed(h) && !DirtyPadding(slot, h)
    ensures Feed(st, caps, slot, now).outcome != Malformed
    ensures Feed(st, caps, slot, now).outcome == DroppedCap <==> h.id !in LiveEntries(st, now) && !Fits(st, caps, h.ipTotalLen, now)
  {
    hide Decode, WellFormed, DirtyPadding, Fits, TotalLen, Live, Feed, Absorb;
    if h.id !in LiveEntries(st, now) {
      TurnedAwayExactly(st, caps, slot, now, h);
    } else {
      LiveIsFed(st, caps, slot, now, h);
    }
  }

  /** With a live entry for its id no slot is turned away. */
  lemma LiveIsFed(st: State, caps: Caps, slot: Slot, now: Instant, h: OverlayHeader)
    requires Inv(st, caps) && Decode(slot) == Good(h) && WellFormed(h) && h.id in LiveEntries(st, now)
    ensures Feed(st, caps, slot, now).outcome !in {Malformed, DroppedCap}
  {
    hide Decode, WellFormed, TotalLen, Live, Expire, Absorb;
    ExpireKeepsInv(st, caps, now);
    ExpiredEntry(st, now, h.id);
  }

  // ---------------------------------------------------------------------
  // Corruption
  // ---------------------------------------------------------------------

  /** Every slot for `id` carries a fragment of `q` under checksum `crc`. */
  ghost predicate OnlyFragmentsOf(ops: seq<Op>, q: seq<byte>, crc: u32, id: u64)
    requires 20 <= |q| <= MAX_IP_PACKET_LEN
  {
    forall i | 0 <= i < |ops| && ops[i].FeedOp? && IsFor(ops[i].slot, id) ::
      exists j :: 0 <= j < FragCount(|q|) && ops[i].slot == SlotOf(q, crc, id, j)
  }

  /** Slots say where they belong: equal slots are equal fragments. */
  lemma SlotOfInjective(a: seq<byte>, b: seq<byte>, c: u32, d: u32, id: u64, j: nat, k: nat)
    requires 20 <= |a| <= MAX_IP_PACKET_LEN && 20 <= |b| <= MAX_IP_PACKET_LEN
    requires j < FragCount(|a|) && k < FragCount(|b|) && SlotOf(a, c, id, j) == SlotOf(b, d, id, k)
    ensures j == k && c == d && |a| == |b|
    ensures var lo := j * FRAG_CAP; var hi := lo + FragLen(|a|, j); a[lo..hi] == b[lo..hi]
  {
    hide SlotOf, Decode, WellFormed;
    ReadSlot(a, c, id, j);
    ReadSlot(b, d, id, k);
  }

  lemma SameFragmentsSameBytes(a: seq<byte>, b: seq<byte>)
    requires |a| == |b|
    requires forall j | 0 <= j < FragCount(|a|) :: SameFragment(a, b, j)
    ensures a == b
  {
    forall i | 0 <= i < |a| ensures a[i] == b[i] {
      var j := i / FRAG_CAP;
      var lo, n := j * FRAG_CAP, FragLen(|a|, j);
      assert SameFragment(a, b, j);
      assert a[i] == a[lo..lo + n][i - lo] == b[lo..lo + n][i - lo] == b[i];
    }
  }

  /** If only fragments of `q` are fed, only `q` completes, and only under its own checksum. */
  lemma OnlyThisPacketCompletes(st: State, caps: Caps, ops: seq<Op>, slot: Slot, now: Instant, id: u64,
                                q: seq<byte>, crc: u32, b: seq<byte>)
    requires Inv(st, caps) && IsFor(slot, id) && 20 <= |q| <= MAX_IP_PACKET_LEN
    requires StartsAnew(st, id, (ops + [FeedOp(slot, now)])[0])
    requires OnlyFragmentsOf(ops + [FeedOp(slot, now)], q, crc, id)
    requires Answer(Run(st, caps, ops), caps, slot, now) == Complete(b)
    ensures b == q && crc == Crc32(q)
  {
    hide SlotAt, Decode, Run, Answer, Inv, Crc32, Fragmentable, WasFed, OnlyFragmentsOf, StartsAnew;
    CompletedWasFed(st, caps, ops, slot, now, b);
    var all := ops + [FeedOp(slot, now)];
    assert 0 < FragCount(|b|);
    FedFragment(all, id, b, q, crc, 0);
    forall j | 0 <= j < FragCount(|b|) ensures SameFragment(b, q, j) {
      FedFragment(all, id, b, q, crc, j);
    }
    SameFragmentsSameBytes(b, q);
  }

  lemma FedFragment(ops: seq<Op>, id: u64, b: seq<byte>, q: seq<byte>, crc: u32, j: nat)
    requires 20 <= |q| <= MAX_IP_PACKET_LEN && 20 <= |b| <= MAX_IP_PACKET_LEN && j < FragCount(|b|)
    requires OnlyFragmentsOf(ops, q, crc, id) && WasFed(ops, SlotAt(b, id, j))
    ensures |b| == |q| && Crc32(b) == crc && SameFragment(b, q, j)
  {
    hide SlotOf, Decode, WellFormed, Crc32;
    var i :| 0 <= i < |ops| && ops[i].FeedOp? && ops[i].slot == SlotAt(b, id, j);
    ReadSlot(b, Crc32(b), id, j);
    assert IsFor(ops[i].slot, id);
    var k :| 0 <= k < FragCount(|q|) && ops[i].slot == SlotOf(q, crc, id, k);
    SlotOfInjective(b, q, Crc32(b), crc, id, j, k);
  }

  /** The slot of fragment `k` with one of its payload bytes changed. */
  ghost function Corrupted(p: seq<byte>, id: u64, k: nat, m: nat, v: byte): Slot
    requires 20 <= |p| <= MAX_IP_PACKET_LEN && k < FragCount(|p|) && m < FragLen(|p|, k)
  {
    SlotAt(p, id, k)[OVERLAY_HEADER_LEN + m := v]
  }

  lemma UpdateMiddle(a: seq<byte>, b: seq<byte>, c: seq<byte>, m: nat, v: byte)
    requires m < |b|
    ensures (a + b + c)[|a| + m := v] == a + b[m := v] + c
  {}

  lemma UpdateSlice(p: seq<byte>, lo: nat, n: nat, m: nat, v: byte)
    requires m < n && lo + n <= |p|
    ensures p[lo + m := v][lo..lo + n] == p[lo..lo + n][m := v]
  {}

  lemma CorruptedHere(p: seq<byte>, crc: u32, id: u64, k: nat, m: nat, v: byte)
    requires 20 <= |p| <= MAX_IP_PACKET_LEN && k < FragCount(|p|) && m < FragLen(|p|, k)
    ensures SlotOf(p[k * FRAG_CAP + m := v], crc, id, k) == SlotOf(p, crc, id, k)[OVERLAY_HEADER_LEN + m := v]
  {
    hide Encode, HeaderAt, Zeros;
    var lo, n := k * FRAG_CAP, FragLen(|p|, k);
    UpdateSlice(p, lo, n, m, v);
    UpdateMiddle(Encode(HeaderAt(|p|, crc, id, k)), p[lo..lo + n], Zeros(FRAG_CAP - n), m, v);
  }

  /** A slot for `id` is a genuine fragment of `p` other than `k`, or fragment `k` with some one byte changed. */
  ghost predicate Tampered(slot: Slot, p: seq<byte>, id: u64, k: nat)
    requires 20 <= |p| <= MAX_IP_PACKET_LEN && k < FragCount(|p|)
  {
    || (exists j :: 0 <= j < FragCount(|p|) && j != k && slot == SlotAt(p, id, j))
    || (exists m, v :: 0 <= m < FragLen(|p|, k) && v != p[k * FRAG_CAP + m] && slot == Corrupted(p, id, k, m, v))
  }

  ghost predicate OnlyTampered(ops: seq<Op>, p: seq<byte>, id: u64, k: nat)
    requires 20 <= |p| <= MAX_IP_PACKET_LEN && k < FragCount(|p|)
  {
    forall i | 0 <= i < |ops| && ops[i].FeedOp? && IsFor(ops[i].slot, id) :: Tampered(ops[i].slot, p, id, k)
  }

  ghost predicate SameFragment(a: seq<byte>, b: seq<byte>, j: nat)
    requires |a| == |b| && j < FragCount(|a|)
  {
    a[j * FRAG_CAP..j * FRAG_CAP + FragLen(|a|, j)] == b[j * FRAG_CAP..j * FRAG_CAP + FragLen(|a|, j)]
  }

  lemma GenuineFragment(b: seq<byte>, p: seq<byte>, id: u64, j: nat, i: nat)
    requires 20 <= |p| <= MAX_IP_PACKET_LEN && 20 <= |b| <= MAX_IP_PACKET_LEN && j < FragCount(|b|) && i < FragCount(|p|)
    requires SlotAt(b, id, j) == SlotAt(p, id, i)
    ensures i == j && |b| == |p| && Crc32(b) == Crc32(p) && SameFragment(b, p, j)
  {
    hide SlotOf, Crc32, FragCount, FragLen;
    SlotOfInjective(b, p, Crc32(b), Crc32(p), id, j, i);
  }

  lemma ChangedFragment(b: seq<byte>, p: seq<byte>, id: u64, j: nat, k: nat, m: nat, v: byte)
    requires 20 <= |p| <= MAX_IP_PACKET_LEN && 20 <= |b| <= MAX_IP_PACKET_LEN && j < FragCount(|b|) && k < FragCount(|p|)
    requires m < FragLen(|p|, k) && SlotAt(b, id, j) == Corrupted(p, id, k, m, v)
    ensures k == j && |b| == |p| && Crc32(b) == Crc32(p) && SameFragment(b, p[k * FRAG_CAP + m := v], k)
  {
    hide SlotOf, Crc32, FragCount, FragLen;
    CorruptedHere(p, Crc32(p), id, k, m, v);
    SlotOfInjective(b, p[k * FRAG_CAP + m := v], Crc32(b), Crc32(p), id, j, k);
  }

  /** A fragment that was fed is the genuine one, or fragment `k` with one byte changed. */
  lemma FedTampered(ops: seq<Op>, id: u64, b: seq<byte>, p: seq<byte>, k: nat, j: nat) returns (m: nat, v: byte)
    requires 20 <= |p| <= MAX_IP_PACKET_LEN && 20 <= |b| <= MAX_IP_PACKET_LEN && j < FragCount(|b|) && k < FragCount(|p|)
    requires OnlyTampered(ops, p, id, k) && WasFed(ops, SlotAt(b, id, j))
    ensures |b| == |p| && Crc32(b) == Crc32(p)
    ensures j != k ==> SameFragment(b, p, j)
    ensures j == k ==> ChangedTo(b, p, k, m, v)
  {
    hide SlotAt, Decode, Crc32, FragCount, FragLen, Corrupted, SameFragment, Tampered;
    var i :| 0 <= i < |ops| && ops[i].FeedOp? && ops[i].slot == SlotAt(b, id, j);
    SlotIsFor(b, id, j);
    m, v := WhichTampered(ops[i].slot, b, p, id, j, k);
  }

  /** Fragment `k` of `b` is that of `p` with byte `m` changed to `v`. */
  ghost predicate ChangedTo(b: seq<byte>, p: seq<byte>, k: nat, m: nat, v: byte)
    requires |b| == |p| && k < FragCount(|p|)
  {
    m < FragLen(|p|, k) && v != p[k * FRAG_CAP + m] && SameFragment(b, p[k * FRAG_CAP + m := v], k)
  }

  lemma SlotIsFor(b: seq<byte>, id: u64, j: nat)
    requires 20 <= |b| <= MAX_IP_PACKET_LEN && j < FragCount(|b|)
    ensures IsFor(SlotAt(b, id, j), id)
  {
    hide SlotOf, Decode, Crc32;
    ReadSlot(b, Crc32(b), id, j);
  }

  lemma WhichTampered(slot: Slot, b: seq<byte>, p: seq<byte>, id: u64, j: nat, k: nat) returns (m: nat, v: byte)
    requires 20 <= |p| <= MAX_IP_PACKET_LEN && 20 <= |b| <= MAX_IP_PACKET_LEN && j < FragCount(|b|) && k < FragCount(|p|)
    requires Tampered(slot, p, id, k) && slot == SlotAt(b, id, j)
    ensures |b| == |p| && Crc32(b) == Crc32(p)
    ensures j != k ==> SameFragment(b, p, j)
    ensures j == k ==> ChangedTo(b, p, k, m, v)
  {
    hide SlotAt, Crc32, FragCount, FragLen, Corrupted, SameFragment;
    m, v := 0, 0;
    if i :| 0 <= i < FragCount(|p|) && i != k && slot == SlotAt(p, id, i) {
      GenuineFragment(b, p, id, j, i);
    } else {
      m, v :| 0 <= m < FragLen(|p|, k) && v != p[k * FRAG_CAP + m] && slot == Corrupted(p, id, k, m, v);
      ChangedFragment(b, p, id, j, k, m, v);
    }
  }

  lemma ElsewhereSame(p: seq<byte>, k: nat, m: nat, v: byte, j: nat)
    requires k < FragCount(|p|) && m < FragLen(|p|, k) && j < FragCount(|p|) && j != k
    ensures SameFragment(p, p[k * FRAG_CAP + m := v], j)
  {
    var lo, n := j * FRAG_CAP, FragLen(|p|, j);
    assert lo + n <= k * FRAG_CAP || k * FRAG_CAP + m < lo;
  }

  /**
   * If every copy of fragment `k` that is fed has some one byte changed, not
   * necessarily the same, and no genuine copy is, the packet never completes,
   * whatever else happens in the table.
   */
  lemma CorruptionNeverCompletes(st: State, caps: Caps, ops: seq<Op>, slot: Slot, now: Instant, id: u64, p: seq<byte>, k: nat)
    requires Inv(st, caps) && IsFor(slot, id) && StartsAnew(st, id, (ops + [FeedOp(slot, now)])[0])
    requires 20 <= |p| <= MAX_IP_PACKET_LEN && k < FragCount(|p|)
    requires OnlyTampered(ops + [FeedOp(slot, now)], p, id, k)
    ensures !Answer(Run(st, caps, ops), caps, slot, now).Complete?
  {
    hide SlotAt, Decode, Run, Answer, Inv, Crc32, Fragmentable, WasFed, OnlyTampered, StartsAnew, FragLen;
    if Answer(Run(st, caps, ops), caps, slot, now).Complete? {
      var b, all := Answer(Run(st, caps, ops), caps, slot, now).bytes, ops + [FeedOp(slot, now)];
      CompletedWasFed(st, caps, ops, slot, now, b);
      assert 0 < FragCount(|b|);
      var _, _ := FedTampered(all, id, b, p, k, 0);
      var m, v := FedTampered(all, id, b, p, k, k);
      var q := p[k * FRAG_CAP + m := v];
      forall j | 0 <= j < FragCount(|b|) ensures SameFragment(b, q, j) {
        if j != k {
          var _, _ := FedTampered(all, id, b, p, k, j);
          ElsewhereSame(p, k, m, v, j);
        }
      }
      OneByteDetected(p, k * FRAG_CAP + m, v);
      SameFragmentsSameBytes(b, q);
    }
  }
}
