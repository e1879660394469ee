/**
 * The sliding replay window: a highest counter and a 1024-bit bitmap held in
 * sixteen 64-bit words, proved to be a set of accepted counters.
 */
module Replay {
  import opened Bytes
  import opened Words

  const WINDOW_BITS: nat := 1024
  const WINDOW_WORDS: nat := 16

  // ---------------------------------------------------------------------
  // Sixteen words as one 1024-bit string
  // ---------------------------------------------------------------------

  predicate Bit(words: seq<u64>, i: nat)
    requires |words| == WINDOW_WORDS && i < WINDOW_BITS
  {
    TestBit(words[i / 64], i % 64)
  }

  /** The words as one string of `WINDOW_BITS` bits, bit 0 first. */
  ghost function BitString(words: seq<u64>): (bits: seq<bool>)
    requires |words| == WINDOW_WORDS
    ensures |bits| == WINDOW_BITS
  {
    seq(WINDOW_BITS, i requires 0 <= i < WINDOW_BITS => Bit(words, i))
  }

  /** The plain shift: `gap` clear bits enter, the last `gap` bits leave. */
  ghost function ShiftedBits(bits: seq<bool>, gap: nat): (r: seq<bool>)
    requires gap <= |bits|
    ensures |r| == |bits|
  {
    seq(gap, _ => false) + bits[..|bits| - gap]
  }

  ghost function ClearBits(): (bits: seq<bool>)
    ensures |bits| == WINDOW_BITS
  {
    seq(WINDOW_BITS, _ => false)
  }

  /** Bit `i` says whether counter `h - 1 - i` was accepted. */
  ghost predicate Tracks(bits: seq<bool>, h: int, accepted: set<int>) {
    forall i | 0 <= i < |bits| :: bits[i] <==> h - 1 - i in accepted
  }

  lemma Rebased(bits: seq<bool>, accepted: set<int>, h: int, gap: nat)
    requires |bits| == WINDOW_BITS && 0 < gap < WINDOW_BITS && Tracks(bits, h, accepted)
    requires h in accepted && forall a | a in accepted :: a <= h
    ensures Tracks(ShiftedBits(bits, gap)[gap - 1 := true], h + gap, accepted)
  {
    var r := ShiftedBits(bits, gap)[gap - 1 := true];
    forall i | 0 <= i < |r| ensures r[i] <==> h + gap - 1 - i in accepted {
      if gap <= i { assert r[i] == bits[i - gap]; }
    }
  }

  /** A jump of at least the window width forgets everything below `h`. */
  lemma Restarted(accepted: set<int>, h: int, gap: nat)
    requires WINDOW_BITS <= gap && h in accepted && forall a | a in accepted :: a <= h
    ensures Tracks(if gap == WINDOW_BITS then ClearBits()[WINDOW_BITS - 1 := true] else ClearBits(),
                   h + gap, accepted)
  {}

  /** The words after the word-level and the bit-level stage of `shift_right`. */
  ghost predicate WordsMoved(from: seq<u64>, to: seq<u64>, wordGap: nat)
    requires |from| == |to| == WINDOW_WORDS
  {
    forall j | 0 <= j < WINDOW_WORDS :: to[j] == if j < wordGap then 0 else from[j - wordGap]
  }

  ghost predicate BitsMoved(from: seq<u64>, to: seq<u64>, bitShift: nat)
    requires |from| == |to| == WINDOW_WORDS && 0 < bitShift < 64
  {
    && to[0] == Shl(from[0], bitShift)
    && forall j | 1 <= j < WINDOW_WORDS ::
         to[j] == Or(Shl(from[j], bitShift), Shr(from[j - 1], 64 - bitShift))
  }

  lemma WordsMovedBits(from: seq<u64>, to: seq<u64>, wordGap: nat, i: nat)
    requires |from| == |to| == WINDOW_WORDS && i < WINDOW_BITS && WordsMoved(from, to, wordGap)
    ensures Bit(to, i) == (64 * wordGap <= i && Bit(from, i - 64 * wordGap))
  {
    if i / 64 < wordGap {
      ZeroBits(i % 64);
    } else {
      assert (i - 64 * wordGap) / 64 == i / 64 - wordGap && (i - 64 * wordGap) % 64 == i % 64;
    }
  }

  lemma BitsMovedBits(from: seq<u64>, to: seq<u64>, s: nat, i: nat)
    requires |from| == |to| == WINDOW_WORDS && i < WINDOW_BITS && 0 < s < 64 && BitsMoved(from, to, s)
    ensures Bit(to, i) == (s <= i && Bit(from, i - s))
  {
    var j, k := i / 64, i % 64;
    if j == 0 {
      ShlBit(from[0], s, k);
    } else {
      FunnelBit(from[j], from[j - 1], s, k);
    }
    if s <= k {
      assert (i - s) / 64 == j && (i - s) % 64 == k - s;
    } else if j != 0 {
      assert (i - s) / 64 == j - 1 && (i - s) % 64 == 64 - s + k;
    }
  }

  /** Words first, then bits, is one shift of the whole string. */
  lemma TwoStageShift(from: seq<u64>, mid: seq<u64>, to: seq<u64>, gap: nat)
    requires |from| == |mid| == |to| == WINDOW_WORDS && gap < WINDOW_BITS
    requires WordsMoved(from, mid, gap / 64)
    requires if gap % 64 == 0 then to == mid else BitsMoved(mid, to, gap % 64)
    ensures BitString(to) == ShiftedBits(BitString(from), gap)
  {
    forall i | 0 <= i < WINDOW_BITS ensures BitString(to)[i] == ShiftedBits(BitString(from), gap)[i] {
      TwoStageBit(from, mid, to, gap, i);
    }
  }

  lemma TwoStageBit(from: seq<u64>, mid: seq<u64>, to: seq<u64>, gap: nat, i: nat)
    requires |from| == |mid| == |to| == WINDOW_WORDS && gap < WINDOW_BITS && i < WINDOW_BITS
    requires WordsMoved(from, mid, gap / 64)
    requires if gap % 64 == 0 then to == mid else BitsMoved(mid, to, gap % 64)
    ensures Bit(to, i) == (gap <= i && Bit(from, i - gap))
  {
    var s := gap % 64;
    if s > 0 { BitsMovedBits(mid, to, s, i); }
    if s <= i { WordsMovedBits(from, mid, gap / 64, i - s); }
  }

  // ---------------------------------------------------------------------
  // The set the window stands for
  // ---------------------------------------------------------------------

  /** `c` is at most `WINDOW_BITS` below every accepted counter. */
  predicate InWindow(accepted: set<int>, c: int) {
    forall a | a in accepted :: a <= c + WINDOW_BITS
  }

  /** What `accept` decides, stated on the set of counters accepted so far. */
  predicate Acceptable(accepted: set<int>, c: int) {
    c !in accepted && InWindow(accepted, c)
  }

  function AfterAccept(accepted: set<int>, c: int): set<int> {
    if Acceptable(accepted, c) then accepted + {c} else accepted
  }

  class ReplayWindow {
    var highest: Option<u64>
    const bitmap: array<u64>
    /** The counters accepted since creation or the last `Clear`. */
    ghost var accepted: set<int>

    ghost predicate Valid()
      reads this, bitmap
    {
      && bitmap.Length == WINDOW_WORDS
      && match highest
         case None =>
           accepted == {} && BitString(bitmap[..]) == ClearBits()
         case Some(h) =>
           && h in accepted
           && (forall a | a in accepted :: 0 <= a <= h)
           && Tracks(BitString(bitmap[..]), h, accepted)
    }

    constructor ()
      ensures Valid() && fresh(bitmap) && accepted == {} && highest == None
    {
      highest := None;
      bitmap := new u64[WINDOW_WORDS](_ => 0);
      accepted := {};
      new;
      AllZero();
    }

    ghost method AllZero()
      requires bitmap.Length == WINDOW_WORDS && forall j | 0 <= j < WINDOW_WORDS :: bitmap[j] == 0
      ensures BitString(bitmap[..]) == ClearBits()
    {
      forall i | 0 <= i < WINDOW_BITS ensures !Bit(bitmap[..], i) { ZeroBits(i % 64); }
    }

    method ClearBitmap()
      requires bitmap.Length == WINDOW_WORDS
      modifies bitmap
      ensures BitString(bitmap[..]) == ClearBits()
    {
      for j := 0 to WINDOW_WORDS
        invariant forall m | 0 <= m < j :: bitmap[m] == 0
      {
        bitmap[j] := 0;
      }
      AllZero();
    }

    method Clear()
      requires Valid()
      modifies this, bitmap
      ensures Valid() && highest == None && accepted == {}
    {
      highest := None;
      ClearBitmap();
      accepted := {};
    }

    /** The two-stage shift is a plain shift of the 1024-bit string. */
    method ShiftRight(gap: nat)
      requires bitmap.Length == WINDOW_WORDS && gap < WINDOW_BITS
      modifies bitmap
      ensures BitString(bitmap[..]) == ShiftedBits(old(BitString(bitmap[..])), gap)
    {
      var wordGap, bitShift := gap / 64, gap % 64;
      ghost var start := bitmap[..];
      if wordGap > 0 {
        MoveWords(wordGap);
      }
      ghost var middle := bitmap[..];
      if bitShift > 0 {
        MoveBits(bitShift);
      }
      TwoStageShift(start, middle, bitmap[..], gap);
    }

    method MoveWords(wordGap: nat)
      requires bitmap.Length == WINDOW_WORDS && 0 < wordGap < WINDOW_WORDS
      modifies bitmap
      ensures WordsMoved(old(bitmap[..]), bitmap[..], wordGap)
    {
      for i := WINDOW_WORDS downto wordGap
        invariant forall j | 0 <= j < i :: bitmap[j] == old(bitmap[j])
        invariant forall j | i <= j < WINDOW_WORDS :: bitmap[j] == old(bitmap[j - wordGap])
      {
        bitmap[i] := bitmap[i - wordGap];
      }
      for i := 0 to wordGap
        invariant forall j | 0 <= j < i :: bitmap[j] == 0
        invariant forall j | wordGap <= j < WINDOW_WORDS :: bitmap[j] == old(bitmap[j - wordGap])
      {
        bitmap[i] := 0;
      }
    }

    method MoveBits(bitShift: nat)
      requires bitmap.Length == WINDOW_WORDS && 0 < bitShift < 64
      modifies bitmap
      ensures BitsMoved(old(bitmap[..]), bitmap[..], bitShift)
    {
      var inv := 64 - bitShift;
      for i := WINDOW_WORDS downto 1
        invariant forall j | 0 <= j < i :: bitmap[j] == old(bitmap[j])
        invariant forall j | i <= j < WINDOW_WORDS ::
                    bitmap[j] == Or(Shl(old(bitmap[j]), bitShift), Shr(old(bitmap[j - 1]), inv))
      {
        bitmap[i] := Or(Shl(bitmap[i], bitShift), Shr(bitmap[i - 1], inv));
      }
      bitmap[0] := Shl(bitmap[0], bitShift);
    }

    method SetBit(bitIndex: nat)
      requires bitmap.Length == WINDOW_WORDS && bitIndex < WINDOW_BITS
      modifies bitmap
      ensures BitString(bitmap[..]) == old(BitString(bitmap[..]))[bitIndex := true]
    {
      var word, bit := bitIndex / 64, bitIndex % 64;
      ghost var start := bitmap[..];
      bitmap[word] := Or(bitmap[word], Shl(1, bit));
      forall i | 0 <= i < WINDOW_BITS
        ensures BitString(bitmap[..])[i] == (i == bitIndex || BitString(start)[i])
      {
        MaskSet(start[word], bit, i % 64);
      }
    }

    method GetBit(bitIndex: nat) returns (b: bool)
      requires bitmap.Length == WINDOW_WORDS && bitIndex < WINDOW_BITS
      ensures b == BitString(bitmap[..])[bitIndex]
    {
      var word, bit := bitIndex / 64, bitIndex % 64;
      MaskTest(bitmap[word], bit);
      b := And(bitmap[word], Shl(1, bit)) != 0;
    }

    /** The bitmap decides exactly what the set of accepted counters decides. */
    method Accept(counter: u64) returns (ok: bool)
      requires Valid()
      modifies this, bitmap
      ensures Valid()
      ensures ok <==> Acceptable(old(accepted), counter)
      ensures accepted == AfterAccept(old(accepted), counter)
    {
      match highest
      case None =>
        highest, accepted, ok := Some(counter), {counter}, true;
      case Some(h) =>
        if counter > h {
          Advance(h, counter);
          highest, accepted, ok := Some(counter), accepted + {counter}, true;
        } else if counter == h {
          ok := false;
        } else {
          var offset := h - counter;
          if offset > WINDOW_BITS {
            ok := false;
          } else {
            var seen := GetBit(offset - 1);
            if seen {
              ok := false;
            } else {
              SetBit(offset - 1);
              accepted, ok := accepted + {counter}, true;
            }
          }
        }
    }

    /** Re-bases the bitmap from `h` to `counter`, recording `h` as seen. */
    method Advance(h: u64, counter: u64)
      requires Valid() && highest == Some(h) && counter > h
      modifies bitmap
      ensures Tracks(BitString(bitmap[..]), counter, accepted)
    {
      hide BitString, ClearBits, ShiftedBits, Tracks;
      var gap := counter - h;
      if gap >= WINDOW_BITS { Restarted(accepted, h, gap); }
      if gap > WINDOW_BITS {
        ClearBitmap();
      } else if gap == WINDOW_BITS {
        ClearBitmap();
        SetBit(WINDOW_BITS - 1);
      } else {
        Rebased(BitString(bitmap[..]), accepted, h, gap);
        ShiftRight(gap);
        SetBit(gap - 1);
      }
    }
  }
}
