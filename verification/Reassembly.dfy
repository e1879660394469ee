/** The stateful reassembler: entries, caps, poisoning, deadlines and completion. */
module Reassembly {
  import opened Bytes
  import opened Codec
  import opened Crc
  import opened Net
  import Sets
  import opened Overlay

  datatype Outcome =
    | Pending
    | DuplicateIgnored
    | Poisoned
    | DroppedCap
    | InvalidHeader(error: OverlayError)
    | Malformed
    | Complete(bytes: seq<byte>)

  datatype Entry = Entry(
    fragCount: byte,
    ipTotalLen: nat,
    crc: u32,
    received: seq<bool>,
    buf: seq<byte>,
    receivedCount: nat,
    poisoned: bool,
    hasFragment0: bool,
    fragment0Valid: bool,
    deadline: Instant)

  datatype Caps = Caps(maxEntries: nat, maxBytes: nat, lifetime: nat)

  type Entries = map<u64, Entry>

  datatype State = State(entries: Entries, currentBytes: nat)

  const EMPTY: State := State(map[], 0)

  function SatSub(a: nat, b: nat): nat { if a < b then 0 else a - b }

  // ---------------------------------------------------------------------
  // What one call does
  // ---------------------------------------------------------------------

  /** Sum of the lengths claimed by a table of entries. */
  ghost function TotalLen(m: Entries): nat {
    if m == map[] then 0 else
      var id :| id in m;
      m[id].ipTotalLen + TotalLen(m - {id})
  }

  ghost function Due(m: Entries, now: Instant): set<u64> {
    set id | id in m && m[id].deadline <= now
  }

  ghost function Expire(st: State, now: Instant): State {
    var due := Due(st.entries, now);
    State(st.entries - due, SatSub(st.currentBytes, TotalLen(st.entries - (st.entries.Keys - due))))
  }

  function NewEntry(h: OverlayHeader, deadline: Instant): Entry {
    Entry(h.fragCount, h.ipTotalLen, h.crc, seq(h.fragCount, _ => false), Zeros(h.ipTotalLen),
          0, false, false, false, deadline)
  }

  /** Some byte after the fragment is not zero. */
  predicate TrailingBad(slot: Slot, h: OverlayHeader) {
    exists i | 0 <= i < PAYLOAD_LEN :: OVERLAY_HEADER_LEN + ExpectedFragLen(h) <= i && slot[i] != 0
  }

  datatype Absorbed = Absorbed(entry: Entry, outcome: Outcome)

  /** An entry of the right shape for its claimed length. */
  predicate Shaped(e: Entry) {
    && 20 <= e.ipTotalLen <= MAX_IP_PACKET_LEN && e.fragCount == FragCount(e.ipTotalLen)
    && |e.received| == e.fragCount && |e.buf| == e.ipTotalLen
  }

  /** The part of `feed` that concerns one live entry. */
  function Absorb(e: Entry, slot: Slot, h: OverlayHeader): (a: Absorbed)
    requires Shaped(e) && WellFormed(h)
    ensures !a.outcome.Malformed? && !a.outcome.DroppedCap?
  {
    if e.poisoned then Absorbed(e, Poisoned)
    else if e.fragCount != h.fragCount || e.ipTotalLen != h.ipTotalLen || e.crc != h.crc
    then Absorbed(e.(poisoned := true), Poisoned)
    else if TrailingBad(slot, h) then Absorbed(e.(poisoned := true), Poisoned)
    else
      var k, n := h.fragIndex, ExpectedFragLen(h);
      var offset, body := k * FRAG_CAP, slot[OVERLAY_HEADER_LEN..OVERLAY_HEADER_LEN + n];
      if e.received[k] then
        if e.buf[offset..offset + n] == body then Absorbed(e, DuplicateIgnored)
        else Absorbed(e.(poisoned := true), Poisoned)
      else
        Finish(Written(e, k, offset, body), k)
  }

  /** The fragment's bytes copied into place. */
  function Written(e: Entry, k: nat, offset: nat, body: seq<byte>): Entry
    requires k < |e.received| && offset + |body| <= |e.buf|
  {
    e.(received := e.received[k := true],
       buf := e.buf[..offset] + body + e.buf[offset + |body|..],
       receivedCount := e.receivedCount + 1)
  }

  function Finish(e: Entry, k: nat): (a: Absorbed)
    requires |e.buf| == e.ipTotalLen >= 20
    ensures a.outcome.Pending? || a.outcome.Poisoned? || a.outcome.Complete?
  {
    var ok := IpHeaderOk(e.buf, e.ipTotalLen);
    var e' := if k == 0 then e.(hasFragment0 := true, fragment0Valid := ok) else e;
    if k == 0 && !ok then Absorbed(e'.(poisoned := true), Poisoned)
    else if e'.receivedCount == e'.fragCount && e'.hasFragment0 && e'.fragment0Valid then
      if Crc32(e'.buf) != e'.crc then Absorbed(e'.(poisoned := true), Poisoned)
      else Absorbed(e', Complete(e'.buf))
    else Absorbed(e', Pending)
  }

  datatype Fed = Fed(state: State, outcome: Outcome)

  predicate Room(st: State, caps: Caps, len: nat) {
    |st.entries| < caps.maxEntries && st.currentBytes + len <= caps.maxBytes
  }

  function FeedEntry(st: State, e: Entry, slot: Slot, h: OverlayHeader): Fed
    requires Shaped(e) && WellFormed(h)
  {
    var a := Absorb(e, slot, h);
    if a.outcome.Complete?
    then Fed(State(st.entries - {h.id}, SatSub(st.currentBytes, e.ipTotalLen)), a.outcome)
    else Fed(State(st.entries[h.id := a.entry], st.currentBytes), a.outcome)
  }

  function FeedDecoded(st: State, caps: Caps, slot: Slot, h: OverlayHeader, now: Instant): Fed
    requires WellFormed(h)
    requires h.id in st.entries ==> Shaped(st.entries[h.id])
  {
    if h.id in st.entries then FeedEntry(st, st.entries[h.id], slot, h)
    else if TrailingBad(slot, h) then Fed(st, Malformed)
    else if !Room(st, caps, h.ipTotalLen) then Fed(st, DroppedCap)
    else
      FeedEntry(st.(currentBytes := st.currentBytes + h.ipTotalLen),
                NewEntry(h, now + caps.lifetime), slot, h)
  }

  ghost function Feed(st: State, caps: Caps, slot: Slot, now: Instant): Fed
    requires forall id | id in st.entries :: Shaped(st.entries[id])
  {
    var d := Decode(slot);
    DecodeExact(slot);
    if d.Bad? then Fed(Expire(st, now), InvalidHeader(d.error))
    else FeedDecoded(Expire(st, now), caps, slot, d.value, now)
  }

  // ---------------------------------------------------------------------
  // The invariant of the table
  // ---------------------------------------------------------------------

  function CountTrue(s: seq<bool>): (n: nat)
    ensures n <= |s|
  {
    if s == [] then 0 else CountTrue(s[..|s| - 1]) + if s[|s| - 1] then 1 else 0
  }

  lemma {:induction false} CountAll(s: seq<bool>)
    ensures CountTrue(s) == |s| <==> forall i | 0 <= i < |s| :: s[i]
  {
    if s != [] {
      CountAll(s[..|s| - 1]);
    }
  }

  lemma {:induction false} CountNone(n: nat)
    ensures CountTrue(seq(n, _ => false)) == 0
  {
    if n != 0 {
      CountNone(n - 1);
      assert seq(n, _ => false)[..n - 1] == seq(n - 1, _ => false);
    }
  }

  lemma {:induction false} CountSet(s: seq<bool>, k: nat)
    requires k < |s| && !s[k]
    ensures CountTrue(s[k := true]) == CountTrue(s) + 1
  {
    var n := |s| - 1;
    if k == n {
      assert s[k := true][..n] == s[..n];
    } else {
      CountSet(s[..n], k);
      assert s[k := true][..n] == s[..n][k := true];
    }
  }

  ghost predicate Live(e: Entry) {
    && Shaped(e)
    && e.receivedCount == CountTrue(e.received)
    && e.hasFragment0 == e.received[0]
    && (!e.poisoned && e.received[0] ==> e.fragment0Valid && IpHeaderOk(e.buf, e.ipTotalLen))
    && (!e.poisoned ==> e.receivedCount < e.fragCount)
  }

  ghost predicate Inv(st: State, caps: Caps) {
    && (forall id | id in st.entries :: Live(st.entries[id]))
    && st.currentBytes == TotalLen(st.entries)
    && |st.entries| <= caps.maxEntries
    && st.currentBytes <= caps.maxBytes
  }

  lemma {:induction false} TotalLenRemove(m: Entries, id: u64)
    requires id in m
    ensures TotalLen(m) == m[id].ipTotalLen + TotalLen(m - {id})
    decreases |m|
  {
    var c :| c in m && TotalLen(m) == m[c].ipTotalLen + TotalLen(m - {c});
    if c != id {
      TotalLenRemove(m - {c}, id);
      TotalLenRemove(m - {id}, c);
      assert m - {c} - {id} == m - {id} - {c};
    }
  }

  lemma TotalLenPut(m: Entries, id: u64, e: Entry)
    ensures TotalLen(m[id := e]) == e.ipTotalLen + TotalLen(m - {id})
    ensures id !in m ==> m - {id} == m
  {
    TotalLenRemove(m[id := e], id);
    assert m[id := e] - {id} == m - {id};
  }

  lemma {:induction false} TotalLenSplit(m: Entries, gone: set<u64>)
    requires gone <= m.Keys
    ensures TotalLen(m) == TotalLen(m - gone) + TotalLen(m - (m.Keys - gone))
    decreases |gone|
  {
    if gone == {} {
      assert m - gone == m;
      assert m - (m.Keys - gone) == map[];
    } else {
      var id :| id in gone;
      TotalLenSplit(m - {id}, gone - {id});
      TotalLenRemove(m, id);
      var out := m - (m.Keys - gone);
      TotalLenRemove(out, id);
      assert m - {id} - (gone - {id}) == m - gone;
      assert (m - {id}) - ((m - {id}).Keys - (gone - {id})) == out - {id};
    }
  }

  // ---------------------------------------------------------------------
  // Every call keeps the invariant
  // ---------------------------------------------------------------------

  lemma ExpireKeepsInv(st: State, caps: Caps, now: Instant)
    requires Inv(st, caps)
    ensures Inv(Expire(st, now), caps)
    ensures st.currentBytes >= TotalLen(st.entries - (st.entries.Keys - Due(st.entries, now)))
  {
    var due := Due(st.entries, now);
    TotalLenSplit(st.entries, due);
    SmallerTable(st.entries, due);
  }

  lemma SmallerTable(m: Entries, gone: set<u64>)
    ensures |m - gone| <= |m|
  {
    var n := m - gone;
    assert n.Keys == m.Keys - gone;
    assert |m.Keys - gone| <= |m.Keys|;
  }

  lemma HeadersFit(h: OverlayHeader)
    requires WellFormed(h)
    ensures ExpectedFragLen(h) == FragLen(h.ipTotalLen, h.fragIndex)
  {}

  lemma WrittenKeepsLive(e: Entry, k: nat, body: seq<byte>)
    requires Live(e) && !e.poisoned && k < e.fragCount && !e.received[k] && |body| == FragLen(e.ipTotalLen, k)
    ensures var e' := Written(e, k, k * FRAG_CAP, body);
            && Shaped(e') && e'.receivedCount == CountTrue(e'.received) <= e'.fragCount
            && (k != 0 && e.received[0] ==> IpHeaderOk(e'.buf, e'.ipTotalLen))
  {
    var e' := Written(e, k, k * FRAG_CAP, body);
    CountSet(e.received, k);
    if k != 0 {
      var n := FragLen(|e.buf|, 0);
      assert n == FRAG_CAP <= k * FRAG_CAP;
      assert e.buf[..n] == e'.buf[..n];
      HeaderCheckIsLocal(e.buf, e'.buf);
    }
  }

  lemma FinishKeepsLive(e: Entry, k: nat, body: seq<byte>)
    requires Live(e) && !e.poisoned && k < e.fragCount && !e.received[k] && |body| == FragLen(e.ipTotalLen, k)
    ensures var a := Finish(Written(e, k, k * FRAG_CAP, body), k);
            && a.entry.ipTotalLen == e.ipTotalLen && a.entry.deadline == e.deadline
            && (!a.outcome.Complete? ==> Live(a.entry))
  {
    WrittenKeepsLive(e, k, body);
    CountAll(Written(e, k, k * FRAG_CAP, body).received);
  }

  lemma AbsorbKeepsLive(e: Entry, slot: Slot, h: OverlayHeader)
    requires Live(e) && WellFormed(h)
    ensures var a := Absorb(e, slot, h);
            && a.entry.ipTotalLen == e.ipTotalLen && a.entry.deadline == e.deadline
            && (!a.outcome.Complete? ==> Live(a.entry))
  {
    hide IpHeaderOk, CountTrue, TrailingBad, Finish, Written;
    HeadersFit(h);
    var k, n := h.fragIndex, ExpectedFragLen(h);
    if !e.poisoned && e.fragCount == h.fragCount && e.ipTotalLen == h.ipTotalLen && !e.received[k] {
      FinishKeepsLive(e, k, slot[OVERLAY_HEADER_LEN..OVERLAY_HEADER_LEN + n]);
    }
  }

  lemma NewEntryLive(h: OverlayHeader, deadline: Instant)
    requires WellFormed(h)
    ensures Live(NewEntry(h, deadline)) && Shaped(NewEntry(h, deadline))
  {
    CountNone(h.fragCount);
  }

  lemma FeedEntryFresh(st: State, e: Entry, slot: Slot, h: OverlayHeader)
    requires Shaped(e) && WellFormed(h)
    ensures FeedEntry(st.(entries := st.entries[h.id := e]), e, slot, h) == FeedEntry(st, e, slot, h)
  {
    hide Absorb;
    assert st.entries[h.id := e] - {h.id} == st.entries - {h.id};
  }

  /** Feeding keeps the table, the byte count and both caps. */
  lemma FeedKeepsInv(st: State, caps: Caps, slot: Slot, now: Instant)
    requires Inv(st, caps)
    ensures Inv(Feed(st, caps, slot, now).state, caps)
  {
    ExpireKeepsInv(st, caps, now);
    DecodeExact(slot);
    if Decode(slot).Good? { FeedDecodedKeepsInv(Expire(st, now), caps, slot, Decode(slot).value, now); }
  }

  lemma FeedDecodedKeepsInv(st: State, caps: Caps, slot: Slot, h: OverlayHeader, now: Instant)
    requires Inv(st, caps) && WellFormed(h)
    ensures Inv(FeedDecoded(st, caps, slot, h, now).state, caps)
  {
    hide FeedEntry, Inv, TotalLen, Live, NewEntry, TrailingBad, WellFormed, Room;
    if h.id in st.entries {
      FeedKnownKeepsInv(st, caps, slot, h);
    } else if Room(st, caps, h.ipTotalLen) {
      FeedNewKeepsInv(st, caps, slot, h, now);
    }
  }

  lemma FeedKnownKeepsInv(st: State, caps: Caps, slot: Slot, h: OverlayHeader)
    requires Inv(st, caps) && WellFormed(h) && h.id in st.entries
    ensures Shaped(st.entries[h.id]) && Inv(FeedEntry(st, st.entries[h.id], slot, h).state, caps)
  {
    hide FeedEntry, TotalLen, WellFormed, Live;
    LiveIsShaped(st.entries[h.id]);
    TotalLenRemove(st.entries, h.id);
    Sets.OneMore(st.entries.Keys, h.id);
    FeedEntryKeepsInv(st, caps, st.entries[h.id], slot, h);
  }

  lemma FeedNewKeepsInv(st: State, caps: Caps, slot: Slot, h: OverlayHeader, now: Instant)
    requires Inv(st, caps) && WellFormed(h) && h.id !in st.entries && Room(st, caps, h.ipTotalLen)
    ensures var e := NewEntry(h, now + caps.lifetime);
            Shaped(e) && Inv(FeedEntry(st.(currentBytes := st.currentBytes + h.ipTotalLen), e, slot, h).state, caps)
  {
    hide FeedEntry, TotalLen, WellFormed, Live, NewEntry, FragCount, Shaped;
    NewEntryLive(h, now + caps.lifetime);
    NewEntryLen(h, now + caps.lifetime);
    NothingDropped(st.entries, h.id);
    Sets.OneMore(st.entries.Keys, h.id);
    FeedEntryKeepsInv(st.(currentBytes := st.currentBytes + h.ipTotalLen), caps, NewEntry(h, now + caps.lifetime), slot, h);
  }

  lemma NothingDropped(m: Entries, id: u64)
    requires id !in m
    ensures m - {id} == m
  {}

  lemma NewEntryLen(h: OverlayHeader, deadline: Instant)
    ensures NewEntry(h, deadline).ipTotalLen == h.ipTotalLen
  {}

  lemma FeedEntryKeepsInv(st: State, caps: Caps, e: Entry, slot: Slot, h: OverlayHeader)
    requires Live(e) && WellFormed(h)
    requires forall id | id in st.entries :: Live(st.entries[id])
    requires st.currentBytes == e.ipTotalLen + TotalLen(st.entries - {h.id}) <= caps.maxBytes
    requires |st.entries.Keys + {h.id}| <= caps.maxEntries
    ensures Inv(FeedEntry(st, e, slot, h).state, caps)
  {
    hide Absorb, TotalLen, WellFormed, Live;
    assert Shaped(e) by { LiveIsShaped(e); }
    var a := Absorb(e, slot, h);
    AbsorbKeepsLive(e, slot, h);
    TotalLenPut(st.entries, h.id, a.entry);
    PutOrDrop(st.entries, h.id, a.entry);
  }

  lemma LiveIsShaped(e: Entry)
    requires Live(e)
    ensures Shaped(e)
  {}

  lemma PutOrDrop(m: Entries, id: u64, e: Entry)
    ensures |m[id := e]| == |m.Keys + {id}| && |m - {id}| <= |m.Keys + {id}|
  {
    assert m[id := e].Keys == m.Keys + {id};
    Sets.SubsetSize((m - {id}).Keys, m.Keys + {id});
  }

  // ---------------------------------------------------------------------
  // The reassembler as the source holds it
  // ---------------------------------------------------------------------

  class Reassembler {
    var entries: Entries
    var currentBytes: nat
    const caps: Caps

    ghost function View(): State
      reads this
    {
      State(entries, currentBytes)
    }

    constructor (caps: Caps)
      ensures View() == EMPTY && Inv(View(), caps) && this.caps == caps
    {
      this.caps := caps;
      entries, currentBytes := map[], 0;
    }

    method ExpireEntries(now: Instant)
      requires Inv(View(), caps)
      modifies this
      ensures View() == Expire(old(View()), now) && Inv(View(), caps)
    {
      ghost var start := View();
      var due := FindDue(now);
      RemoveAll(due);
      ExpireKeepsInv(start, caps, now);
      TotalLenSplit(start.entries, due);
    }

    method FindDue(now: Instant) returns (due: set<u64>)
      ensures due == Due(entries, now)
    {
      var todo := entries.Keys;
      due := {};
      while todo != {}
        invariant todo <= entries.Keys
        invariant due == Due(entries, now) - todo
        decreases todo
      {
        var id :| id in todo;
        if entries[id].deadline <= now {
          due := due + {id};
        }
        todo := todo - {id};
      }
    }

    method RemoveAll(due: set<u64>)
      requires due <= entries.Keys && currentBytes == TotalLen(entries)
      modifies this
      ensures entries == old(entries) - due && currentBytes == TotalLen(entries)
    {
      hide TotalLen;
      var todo := due;
      while todo != {}
        invariant todo <= due && entries == old(entries) - (due - todo)
        invariant currentBytes == TotalLen(entries)
        decreases todo
      {
        var id :| id in todo;
        TotalLenRemove(entries, id);
        currentBytes := SatSub(currentBytes, entries[id].ipTotalLen);
        entries := entries - {id};
        todo := todo - {id};
      }
    }

    method Clear()
      modifies this
      ensures View() == EMPTY
    {
      entries, currentBytes := map[], 0;
    }

    /** `feed`, with its early returns and in-place writes. */
    method FeedSlot(slot: Slot, now: Instant) returns (outcome: Outcome)
      requires Inv(View(), caps)
      modifies this
      ensures Fed(View(), outcome) == Feed(old(View()), caps, slot, now)
      ensures Inv(View(), caps)
    {
      hide FeedEntry, TotalLen, Live, Decode, WellFormed, Expire, NewEntry, TrailingBad;
      FeedKeepsInv(View(), caps, slot, now);
      ExpireEntries(now);
      DecodeExact(slot);
      var d := Decode(slot);
      if d.Bad? {
        return InvalidHeader(d.error);
      }
      var h := d.value;
      var bad := HasTrailing(slot, h);
      if h.id !in entries {
        if bad {
          return Malformed;
        }
        if |entries| >= caps.maxEntries || currentBytes + h.ipTotalLen > caps.maxBytes {
          return DroppedCap;
        }
        NewEntryLive(h, now + caps.lifetime);
        FeedEntryFresh(State(entries, currentBytes + h.ipTotalLen), NewEntry(h, now + caps.lifetime), slot, h);
        entries := entries[h.id := NewEntry(h, now + caps.lifetime)];
        currentBytes := currentBytes + h.ipTotalLen;
      }
      outcome := FeedPresent(slot, h, bad);
    }

    method HasTrailing(slot: Slot, h: OverlayHeader) returns (bad: bool)
      requires WellFormed(h)
      ensures bad == TrailingBad(slot, h)
    {
      HeadersFit(h);
      bad := false;
      for i := OVERLAY_HEADER_LEN + ExpectedFragLen(h) to PAYLOAD_LEN
        invariant bad == exists j | 0 <= j < i :: OVERLAY_HEADER_LEN + ExpectedFragLen(h) <= j && slot[j] != 0
      {
        if slot[i] != 0 {
          bad := true;
        }
      }
    }

    method FeedPresent(slot: Slot, h: OverlayHeader, bad: bool) returns (outcome: Outcome)
      requires WellFormed(h) && h.id in entries && Live(entries[h.id]) && bad == TrailingBad(slot, h)
      modifies this
      ensures Fed(View(), outcome) == FeedEntry(old(View()), old(entries[h.id]), slot, h)
    {
      hide Crc32, IpHeaderOk, TrailingBad, CountTrue;
      var id, entry := h.id, entries[h.id];
      if entry.poisoned {
        assert entries[id := entry] == entries;
        return Poisoned;
      }
      if entry.fragCount != h.fragCount || entry.ipTotalLen != h.ipTotalLen || entry.crc != h.crc || bad {
        entries := entries[id := entry.(poisoned := true)];
        return Poisoned;
      }
      HeadersFit(h);
      var k, n := h.fragIndex, ExpectedFragLen(h);
      var offset, body := k * FRAG_CAP, slot[OVERLAY_HEADER_LEN..OVERLAY_HEADER_LEN + n];
      if entry.received[k] {
        if entry.buf[offset..offset + n] == body {
          assert entries[id := entry] == entries;
          return DuplicateIgnored;
        }
        entries := entries[id := entry.(poisoned := true)];
        return Poisoned;
      }
      entry := entry.(buf := entry.buf[..offset] + body + entry.buf[offset + n..]);
      entry := entry.(received := entry.received[k := true], receivedCount := entry.receivedCount + 1);
      if k == 0 {
        entry := entry.(hasFragment0 := true, fragment0Valid := IpHeaderOk(entry.buf, entry.ipTotalLen));
        if !entry.fragment0Valid {
          entries := entries[id := entry.(poisoned := true)];
          return Poisoned;
        }
      }
      if entry.receivedCount == entry.fragCount && entry.hasFragment0 && entry.fragment0Valid {
        var crc := TableCrc32(entry.buf);
        if crc != entry.crc {
          entries := entries[id := entry.(poisoned := true)];
          return Poisoned;
        }
        entries := entries - {id};
        currentBytes := SatSub(currentBytes, entry.ipTotalLen);
        return Complete(entry.buf);
      }
      entries := entries[id := entry];
      return Pending;
    }
  }
}
