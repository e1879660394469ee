/** Honest fragments always rebuild their packet; poisoned entries never do. */
module ReassemblyProgress {
  import opened Bytes
  import opened Codec
  import opened Crc
  import opened Net
  import opened Overlay
  import opened Reassembly
  import opened ReassemblyRuns

  ghost function FragBytes(b: seq<byte>, k: nat): (s: seq<byte>)
    requires k < FragCount(|b|)
    ensures |s| == FragLen(|b|, k)
  {
    b[k * FRAG_CAP..k * FRAG_CAP + FragLen(|b|, k)]
  }

  ghost predicate AllTrue(s: seq<bool>) { forall k | 0 <= k < |s| :: s[k] }

  // ---------------------------------------------------------------------
  // One entry
  // ---------------------------------------------------------------------

  /** What the entry has received are fragments of `p`. */
  ghost predicate Holds(e: Entry, p: seq<byte>) {
    && Live(e) && !e.poisoned && e.ipTotalLen == |p| && e.crc == Crc32(p)
    && forall k | 0 <= k < e.fragCount && e.received[k] :: FragBytes(e.buf, k) == FragBytes(p, k)
  }

  lemma WrittenElsewhere(e: Entry, k: nat, body: seq<byte>, j: nat)
    requires Shaped(e) && k < e.fragCount && j < e.fragCount && j != k && |body| == FragLen(e.ipTotalLen, k)
    ensures var e' := Written(e, k, k * FRAG_CAP, body);
            |e'.buf| == |e.buf| && FragBytes(e'.buf, j) == FragBytes(e.buf, j)
  {
    var e', lo, n := Written(e, k, k * FRAG_CAP, body), j * FRAG_CAP, FragLen(e.ipTotalLen, j);
    assert lo + n <= k * FRAG_CAP || k * FRAG_CAP + |body| <= lo;
    assert e'.buf[lo..lo + n] == e.buf[lo..lo + n];
  }

  lemma WrittenHere(e: Entry, k: nat, body: seq<byte>)
    requires Shaped(e) && k < e.fragCount && |body| == FragLen(e.ipTotalLen, k)
    ensures var e' := Written(e, k, k * FRAG_CAP, body);
            |e'.buf| == |e.buf| && FragBytes(e'.buf, k) == body
  {}

  lemma WrittenHolds(e: Entry, p: seq<byte>, k: nat)
    requires Holds(e, p) && k < e.fragCount && !e.received[k]
    ensures var e' := Written(e, k, k * FRAG_CAP, FragBytes(p, k));
            Shaped(e') && forall j | 0 <= j < e'.fragCount && e'.received[j] :: FragBytes(e'.buf, j) == FragBytes(p, j)
  {
    hide Crc32, IpHeaderOk, FragBytes, CountTrue;
    var e' := Written(e, k, k * FRAG_CAP, FragBytes(p, k));
    forall j | 0 <= j < e'.fragCount && e'.received[j] ensures FragBytes(e'.buf, j) == FragBytes(p, j) {
      if j == k { WrittenHere(e, k, FragBytes(p, k)); } else { WrittenElsewhere(e, k, FragBytes(p, k), j); }
    }
  }

  /** Everything received is the packet itself. */
  lemma AllHeldIsPacket(b: seq<byte>, p: seq<byte>)
    requires |b| == |p| && forall k | 0 <= k < FragCount(|p|) :: FragBytes(b, k) == FragBytes(p, k)
    ensures b == p
  {
    forall k | 0 <= k < FragCount(|b|)
      ensures var lo := k * FRAG_CAP; b[lo..lo + FragLen(|b|, k)] == p[lo..lo + FragLen(|b|, k)]
    {
      assert FragBytes(b, k) == FragBytes(p, k);
    }
    SameFragmentsSameBytes(b, p);
  }

  lemma HeaderFromPacket(b: seq<byte>, p: seq<byte>)
    requires |b| == |p| && Fragmentable(p)
    ensures 20 <= |p| <= MAX_IP_PACKET_LEN
    ensures FragBytes(b, 0) == FragBytes(p, 0) ==> IpHeaderOk(b, |b|)
  {
    HeaderCheckIsPacketCheck(p);
    if FragBytes(b, 0) == FragBytes(p, 0) {
      assert b[..FragLen(|b|, 0)] == FragBytes(b, 0) == FragBytes(p, 0) == p[..FragLen(|b|, 0)];
      HeaderCheckIsLocal(b, p);
    }
  }

  /** What an honest new fragment does to an entry. */
  lemma FinishHonest(e: Entry, p: seq<byte>, k: nat)
    requires Holds(e, p) && k < e.fragCount && !e.received[k] && Fragmentable(p)
    ensures var a := Finish(Written(e, k, k * FRAG_CAP, FragBytes(p, k)), k);
            if AllTrue(e.received[k := true]) then a.outcome == Complete(p)
            else a.outcome == Pending && Holds(a.entry, p) && a.entry.received == e.received[k := true]
  {
    hide Crc32, IpHeaderOk, Fragmentable, FragBytes;
    var e' := Written(e, k, k * FRAG_CAP, FragBytes(p, k));
    WrittenHolds(e, p, k);
    HeaderFromPacket(e'.buf, p);
    WrittenKeepsLive(e, k, FragBytes(p, k));
    CountAll(e'.received);
    FinishKeepsLive(e, k, FragBytes(p, k));
    if AllTrue(e'.received) { AllHeldIsPacket(e'.buf, p); }
  }

  lemma AbsorbHonest(e: Entry, p: seq<byte>, id: u64, k: nat)
    requires Holds(e, p) && k < e.fragCount && Fragmentable(p)
    ensures var slot := SlotAt(p, id, k);
            && Decode(slot) == Good(HeaderAt(|p|, Crc32(p), id, k)) && !TrailingBad(slot, Decode(slot).value)
            && var a := Absorb(e, slot, Decode(slot).value);
               if e.received[k] then a == Absorbed(e, DuplicateIgnored)
               else if AllTrue(e.received[k := true]) then a.outcome == Complete(p)
               else a.outcome == Pending && Holds(a.entry, p) && a.entry.received == e.received[k := true]
  {
    hide Crc32, IpHeaderOk, Fragmentable, Decode, SlotOf, Live, Finish, Written;
    LiveIsShaped(e);
    var slot := SlotAt(p, id, k);
    ReadSlot(p, Crc32(p), id, k);
    NoTrailing(slot, Decode(slot).value);
    assert slot[OVERLAY_HEADER_LEN..OVERLAY_HEADER_LEN + ExpectedFragLen(Decode(slot).value)] == FragBytes(p, k);
    if !e.received[k] { FinishHonest(e, p, k); }
  }

  lemma NoTrailing(slot: Slot, h: OverlayHeader)
    requires 0 <= ExpectedFragLen(h) <= FRAG_CAP
    requires slot[OVERLAY_HEADER_LEN + ExpectedFragLen(h)..] == Zeros(FRAG_CAP - ExpectedFragLen(h))
    ensures !TrailingBad(slot, h)
  {
    var n := OVERLAY_HEADER_LEN + ExpectedFragLen(h);
    forall i | n <= i < PAYLOAD_LEN ensures slot[i] == 0 {
      assert slot[i] == slot[n..][i - n];
    }
  }

  // ---------------------------------------------------------------------
  // The whole table
  // ---------------------------------------------------------------------

  /** Which fragments of `p` a run has been fed. */
  ghost function Seen(ops: seq<Op>, p: seq<byte>, id: u64): (s: seq<bool>)
    requires 20 <= |p| <= MAX_IP_PACKET_LEN
    ensures |s| == FragCount(|p|)
  {
    seq(FragCount(|p|), k requires 0 <= k < FragCount(|p|) => WasFed(ops, SlotAt(p, id, k)))
  }

  /**
   * Whatever else is fed, slots for `id` are fragments of `p`, the first step is
   * one of them, and nothing happens after that entry's deadline.
   */
  ghost predicate Honest(ops: seq<Op>, p: seq<byte>, id: u64, caps: Caps)
    requires 20 <= |p| <= MAX_IP_PACKET_LEN
  {
    && (ops != [] ==> ops[0].FeedOp? && IsFor(ops[0].slot, id))
    && (forall i | 0 <= i < |ops| :: !ops[i].ClearOp? && ops[i].now < ops[0].now + caps.lifetime)
    && OnlyFragmentsOf(ops, p, Crc32(p), id)
  }

  ghost predicate Building(st: State, p: seq<byte>, id: u64, seen: seq<bool>, deadline: Instant) {
    && id in st.entries && Holds(st.entries[id], p)
    && st.entries[id].received == seen && st.entries[id].deadline == deadline
  }

  /** Feeding fragment `k` of `p` to a table that holds `seen` of it so far. */
  lemma HonestFeed(st: State, caps: Caps, p: seq<byte>, id: u64, k: nat, now: Instant, e: Entry)
    requires Inv(st, caps) && Fragmentable(p) && 20 <= |p| <= MAX_IP_PACKET_LEN && k < FragCount(|p|)
    requires e == Met(st, caps, HeaderAt(|p|, Crc32(p), id, k), now) && Holds(e, p)
    requires (id in st.entries && st.entries[id].deadline > now) || Fits(st, caps, |p|, now)
    ensures var f := Feed(st, caps, SlotAt(p, id, k), now);
            if e.received[k] then f.outcome == DuplicateIgnored && Building(f.state, p, id, e.received, e.deadline)
            else if AllTrue(e.received[k := true]) then f.outcome == Complete(p)
            else f.outcome == Pending && Building(f.state, p, id, e.received[k := true], e.deadline)
  {
    hide Crc32, Fragmentable, Decode, SlotOf, Live, Expire, Feed, Absorb, TrailingBad, Room, Fits;
    LiveIsShaped(e);
    var h := HeaderAt(|p|, Crc32(p), id, k);
    AbsorbHonest(e, p, id, k);
    AbsorbKeepsLive(e, SlotAt(p, id, k), h);
    OwnIdStep(st, caps, SlotAt(p, id, k), now, h, e);
    Admitted(st, caps, SlotAt(p, id, k), now, h);
  }

  lemma Admitted(st: State, caps: Caps, slot: Slot, now: Instant, h: OverlayHeader)
    requires Inv(st, caps) && Decode(slot) == Good(h) && WellFormed(h)
    requires || (h.id in st.entries && st.entries[h.id].deadline > now)
             || (!TrailingBad(slot, h) && Fits(st, caps, h.ipTotalLen, now))
    ensures Feed(st, caps, slot, now).outcome !in {Malformed, DroppedCap}
  {
    hide Decode, WellFormed, TrailingBad, Room, Absorb, Expire, Fits;
    FitsIsRoom(st, caps, h.ipTotalLen, now);
    ExpiredEntry(st, now, h.id);
  }

  lemma FreshHolds(p: seq<byte>, id: u64, k: nat, deadline: Instant)
    requires Fragmentable(p) && 20 <= |p| <= MAX_IP_PACKET_LEN && k < FragCount(|p|)
    ensures Holds(NewEntry(HeaderAt(|p|, Crc32(p), id, k), deadline), p)
  {
    hide Crc32;
    NewEntryLive(HeaderAt(|p|, Crc32(p), id, k), deadline);
  }

  lemma SeenGrows(ops: seq<Op>, op: Op, p: seq<byte>, id: u64, k: nat)
    requires 20 <= |p| <= MAX_IP_PACKET_LEN && k < FragCount(|p|) && op.FeedOp? && op.slot == SlotAt(p, id, k)
    ensures Seen(ops + [op], p, id) == Seen(ops, p, id)[k := true]
  {
    hide SlotOf, Crc32;
    forall j | 0 <= j < FragCount(|p|)
      ensures WasFed(ops + [op], SlotAt(p, id, j)) == (j == k || WasFed(ops, SlotAt(p, id, j)))
    {
      if SlotAt(p, id, j) == op.slot { SlotOfInjective(p, p, Crc32(p), Crc32(p), id, j, k); }
      FedOneMore(ops, op, SlotAt(p, id, j));
    }
  }

  lemma SeenSame(ops: seq<Op>, op: Op, p: seq<byte>, id: u64)
    requires 20 <= |p| <= MAX_IP_PACKET_LEN && (op.FeedOp? ==> !IsFor(op.slot, id))
    ensures Seen(ops + [op], p, id) == Seen(ops, p, id)
  {
    hide SlotOf, Crc32, Decode;
    forall j | 0 <= j < FragCount(|p|)
      ensures WasFed(ops + [op], SlotAt(p, id, j)) == WasFed(ops, SlotAt(p, id, j))
    {
      ReadSlot(p, Crc32(p), id, j);
      FedOneMore(ops, op, SlotAt(p, id, j));
    }
  }

  lemma FedOneMore(ops: seq<Op>, op: Op, slot: Slot)
    ensures WasFed(ops + [op], slot) == (WasFed(ops, slot) || (op.FeedOp? && op.slot == slot))
  {
    if WasFed(ops, slot) || (op.FeedOp? && op.slot == slot) {
      FedLater(ops, op, slot);
    }
  }

  lemma NothingSeen(p: seq<byte>, id: u64)
    requires 20 <= |p| <= MAX_IP_PACKET_LEN
    ensures Seen([], p, id) == seq(FragCount(|p|), _ => false)
  {}

  /** The entry the next fragment of an honest run meets. */
  lemma HonestMeets(st: State, caps: Caps, ops: seq<Op>, p: seq<byte>, id: u64, k: nat, now: Instant) returns (e: Entry)
    requires Inv(st, caps) && Fragmentable(p) && 20 <= |p| <= MAX_IP_PACKET_LEN
    requires k < FragCount(|p|) && StartsAnew(st, id, (ops + [FeedOp(SlotAt(p, id, k), now)])[0])
    requires Honest(ops + [FeedOp(SlotAt(p, id, k), now)], p, id, caps)
    requires Fits(st, caps, |p|, (ops + [FeedOp(SlotAt(p, id, k), now)])[0].now)
    requires ops != [] ==> Building(Run(st, caps, ops), p, id, Seen(ops, p, id), ops[0].now + caps.lifetime)
    ensures e == Met(Run(st, caps, ops), caps, HeaderAt(|p|, Crc32(p), id, k), now)
    ensures Holds(e, p) && e.received == Seen(ops, p, id)
    ensures e.deadline == (ops + [FeedOp(SlotAt(p, id, k), now)])[0].now + caps.lifetime
    ensures var st' := Run(st, caps, ops);
            (id in st'.entries && st'.entries[id].deadline > now) || Fits(st', caps, |p|, now)
  {
    hide Crc32, SlotOf, Expire, Fits, Holds, Fragmentable;
    var all := ops + [FeedOp(SlotAt(p, id, k), now)];
    e := Met(Run(st, caps, ops), caps, HeaderAt(|p|, Crc32(p), id, k), now);
    if ops == [] {
      FreshHolds(p, id, k, now + caps.lifetime);
      NothingSeen(p, id);
    } else {
      assert all[|ops|].now < all[0].now + caps.lifetime;
    }
  }

  lemma {:induction false} HonestRun(st: State, caps: Caps, ops: seq<Op>, p: seq<byte>, id: u64)
    requires Inv(st, caps) && Fragmentable(p) && 20 <= |p| <= MAX_IP_PACKET_LEN
    requires ops != [] && StartsAnew(st, id, ops[0]) && Honest(ops, p, id, caps) && Fits(st, caps, |p|, ops[0].now)
    requires !AllTrue(Seen(ops, p, id))
    ensures Building(Run(st, caps, ops), p, id, Seen(ops, p, id), ops[0].now + caps.lifetime)
    decreases |ops|
  {
    hide Crc32, SlotOf, Expire, Fits, Holds, Fragmentable, Feed, Decode, Seen, TotalLen, Live;
    var n := |ops| - 1;
    var prev, op := ops[..n], ops[n];
    assert ops == prev + [op];
    HonestPrefix(ops, p, id, caps);
    if n > 0 && !AllTrue(Seen(prev, p, id)) { HonestRun(st, caps, prev, p, id); }
    if op.FeedOp? && IsFor(op.slot, id) {
      var k :| 0 <= k < FragCount(|p|) && op.slot == SlotOf(p, Crc32(p), id, k);
      SeenGrows(prev, op, p, id, k);
      if n > 0 { MoreSeen(Seen(prev, p, id), k); }
      var e := HonestMeets(st, caps, prev, p, id, k, op.now);
      HonestFeed(Run(st, caps, prev), caps, p, id, k, op.now, e);
      if e.received[k] { assert e.received[k := true] == e.received; }
    } else {
      SeenSame(prev, op, p, id);
      Undisturbed(Run(st, caps, prev), caps, op, p, id, Seen(prev, p, id), ops[0].now + caps.lifetime);
    }
  }

  lemma MoreSeen(seen: seq<bool>, k: nat)
    requires k < |seen| && !AllTrue(seen[k := true])
    ensures !AllTrue(seen)
  {
    var j :| 0 <= j < |seen| && !seen[k := true][j];
    assert !seen[j];
  }

  lemma HonestPrefix(ops: seq<Op>, p: seq<byte>, id: u64, caps: Caps)
    requires 20 <= |p| <= MAX_IP_PACKET_LEN && ops != [] && Honest(ops, p, id, caps)
    ensures Honest(ops[..|ops| - 1], p, id, caps)
  {
    hide SlotOf, Crc32, IsFor;
    var prev := ops[..|ops| - 1];
    forall i | 0 <= i < |prev| && prev[i].FeedOp? && IsFor(prev[i].slot, id)
      ensures exists j :: 0 <= j < FragCount(|p|) && prev[i].slot == SlotOf(p, Crc32(p), id, j)
    {
      assert prev[i] == ops[i];
    }
  }

  lemma Undisturbed(st: State, caps: Caps, op: Op, p: seq<byte>, id: u64, seen: seq<bool>, deadline: Instant)
    requires Inv(st, caps) && Building(st, p, id, seen, deadline)
    requires !op.ClearOp? && op.now < deadline && (op.FeedOp? ==> !IsFor(op.slot, id))
    ensures Building(Step(st, caps, op), p, id, seen, deadline)
  {
    hide Holds, Feed, Expire, Live, TotalLen, IsFor;
    if op.FeedOp? {
      OtherIdsUntouched(st, caps, op.slot, op.now, id);
    } else {
      ExpiredEntry(st, op.now, id);
    }
  }

  /**
   * Reassembly is complete: in any order, with any duplicates and any traffic for
   * other ids, each fragment of `p` is answered `Pending` or `DuplicateIgnored`
   * until the last missing one, which is answered with `p`.
   */
  lemma HonestFragmentsComplete(st: State, caps: Caps, ops: seq<Op>, p: seq<byte>, id: u64, k: nat, now: Instant)
    requires Inv(st, caps) && Fragmentable(p) && 20 <= |p| <= MAX_IP_PACKET_LEN
    requires k < FragCount(|p|) && StartsAnew(st, id, (ops + [FeedOp(SlotAt(p, id, k), now)])[0])
    requires Honest(ops + [FeedOp(SlotAt(p, id, k), now)], p, id, caps)
    requires Fits(st, caps, |p|, (ops + [FeedOp(SlotAt(p, id, k), now)])[0].now)
    requires !AllTrue(Seen(ops, p, id))
    ensures Answer(Run(st, caps, ops), caps, SlotAt(p, id, k), now)
         == if Seen(ops, p, id)[k] then DuplicateIgnored
            else if AllTrue(Seen(ops, p, id)[k := true]) then Complete(p)
            else Pending
  {
    hide Crc32, SlotOf, Expire, Fits, Holds, Fragmentable, Feed, Decode, Seen;
    var all := ops + [FeedOp(SlotAt(p, id, k), now)];
    HonestPrefix(all, p, id, caps);
    assert all[..|all| - 1] == ops;
    if ops != [] { HonestRun(st, caps, ops, p, id); }
    var e := HonestMeets(st, caps, ops, p, id, k, now);
    HonestFeed(Run(st, caps, ops), caps, p, id, k, now, e);
  }

  // ---------------------------------------------------------------------
  // Poisoning
  // ---------------------------------------------------------------------

  /** A poisoned entry stays poisoned until its deadline or a clear, whatever is fed. */
  lemma {:induction false} PoisonIsPermanent(st: State, caps: Caps, ops: seq<Op>, id: u64)
    requires Inv(st, caps) && id in st.entries && st.entries[id].poisoned
    requires forall op | op in ops :: !op.ClearOp? && op.now < st.entries[id].deadline
    ensures var m := Run(st, caps, ops).entries; id in m && m[id] == st.entries[id]
    decreases |ops|
  {
    hide Feed, Expire, Live, TotalLen, Decode;
    if ops != [] {
      var n := |ops| - 1;
      PoisonIsPermanent(st, caps, ops[..n], id);
      var st', op := Run(st, caps, ops[..n]), ops[n];
      assert op in ops;
      if op.ExpireOp? {
        ExpiredEntry(st', op.now, id);
      } else if IsFor(op.slot, id) {
        PoisonedFeed(st', caps, op.slot, op.now, id);
      } else {
        OtherIdsUntouched(st', caps, op.slot, op.now, id);
      }
    }
  }

  lemma PoisonedFeed(st: State, caps: Caps, slot: Slot, now: Instant, id: u64)
    requires Inv(st, caps) && id in st.entries && st.entries[id].poisoned && st.entries[id].deadline > now
    requires IsFor(slot, id)
    ensures var f := Feed(st, caps, slot, now);
            f.outcome == Poisoned && id in f.state.entries && f.state.entries[id] == st.entries[id]
  {
    hide Feed, Expire, TotalLen, Decode, Finish, Written, TrailingBad, Room, Fits;
    var h := Decode(slot).value;
    MetIsLive(st, caps, slot, now);
    OwnIdStep(st, caps, slot, now, h, st.entries[id]);
    Admitted(st, caps, slot, now, h);
  }
}
