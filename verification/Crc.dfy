/** CRC-32 as `dataplane.rs` computes it, from a table of 256 words. */
module Crc {
  import opened Bytes
  import opened Words

  const POLYNOMIAL: u32 := 0xEDB8_8320
  const ALL_ONES: u32 := 0xFFFF_FFFF

  // ---------------------------------------------------------------------
  // The bit-serial register
  // ---------------------------------------------------------------------

  /** Exclusive or of two 32-bit words. */
  function Xor32(a: u32, b: u32): u32 {
    Range32();
    XorRange(a, b, 32);
    Xor(a, b)
  }

  function BitStep(c: u32): u32 {
    if c % 2 == 1 then Xor32(c / 2, POLYNOMIAL) else c / 2
  }

  function BitSteps(c: u32, n: nat): u32 {
    if n == 0 then c else BitStep(BitSteps(c, n - 1))
  }

  /** A byte enters the low end of the register and is shifted through bit by bit. */
  function ByteStep(c: u32, b: byte): u32 {
    BitSteps(Xor32(c, b), 8)
  }

  function Register(c: u32, data: seq<byte>): u32 {
    if data == [] then c else ByteStep(Register(c, data[..|data| - 1]), data[|data| - 1])
  }

  /** The bit-serial CRC-32. */
  function Crc32(data: seq<byte>): u32 {
    Xor32(Register(ALL_ONES, data), ALL_ONES)
  }

  // ---------------------------------------------------------------------
  // The table-driven form
  // ---------------------------------------------------------------------

  method BuildTable() returns (table: seq<u32>)
    ensures |table| == 256
    ensures forall i | 0 <= i < 256 :: table[i] == BitSteps(i, 8)
  {
    table := [];
    for i := 0 to 256
      invariant |table| == i
      invariant forall j | 0 <= j < i :: table[j] == BitSteps(j, 8)
    {
      var c: u32 := i;
      for n := 0 to 8
        invariant c == BitSteps(i, n)
      {
        if c % 2 == 1 {
          c := Xor32(c / 2, POLYNOMIAL);
        } else {
          c := c / 2;
        }
      }
      table := table + [c];
    }
  }

  /** One lookup does what eight shifts do. */
  method TableCrc32(data: seq<byte>) returns (crc: u32)
    ensures crc == Crc32(data)
  {
    var table := BuildTable();
    var c := ALL_ONES;
    for i := 0 to |data|
      invariant c == Register(ALL_ONES, data[..i])
    {
      LookupIsByteStep(c, data[i]);
      OneMore(data[..i], data[i]);
      assert data[..i + 1] == data[..i] + [data[i]];
      var index := Xor32(c, data[i]) % 256;
      c := Xor32(c / 256, table[index]);
    }
    assert data[..|data|] == data;
    crc := Xor32(c, ALL_ONES);
  }

  lemma LookupIsByteStep(c: u32, b: byte)
    ensures Xor32(c / 256, BitSteps(Xor32(c, b) % 256, 8)) == ByteStep(c, b)
  {
    var x := Xor32(c, b);
    Range32();
    XorHigh(c, b, 8);
    EightPlaces(c);
    EightPlaces(x);
    SplitByte(x);
    BitStepsLinear(256 * (x / 256), x % 256, 8);
    EightPlaces(x / 256);
    ShiftOut(x / 256, 8, 8);
  }

  lemma SplitByte(x: u32)
    ensures Xor32(256 * (x / 256), x % 256) == x
  {
    Range32();
    EightPlaces(x / 256);
    XorDisjoint(x / 256, x % 256, 8);
  }

  lemma OneMore(s: seq<byte>, b: byte)
    ensures Register(ALL_ONES, s + [b]) == ByteStep(Register(ALL_ONES, s), b)
  {
    assert (s + [b])[..|s|] == s;
  }

  lemma Range32()
    ensures Pow2(8) == 0x100
    ensures Pow2(31) == 0x8000_0000
    ensures Pow2(32) == 0x1_0000_0000
  {
    assert Pow2(8) == 0x100;
    assert Pow2(16) == 0x1_0000;
    assert Pow2(24) == 0x100_0000;
  }

  // ---------------------------------------------------------------------
  // Linearity and injectivity
  // ---------------------------------------------------------------------

  lemma BitStepLinear(x: u32, y: u32)
    ensures BitStep(Xor32(x, y)) == Xor32(BitStep(x), BitStep(y))
  {
    XorBit(x, y);
    StepOfXor(x, y, Xor32(x, y));
  }

  lemma StepOfXor(x: u32, y: u32, z: u32)
    requires z / 2 == Xor(x / 2, y / 2) && z % 2 == (x % 2 + y % 2) % 2
    ensures BitStep(z) == Xor(BitStep(x), BitStep(y))
  {
    hide Xor;
    FoldedParity(x / 2, y / 2, POLYNOMIAL, x % 2 == 1, y % 2 == 1);
  }

  lemma FoldedParity(a: nat, b: nat, p: nat, aOdd: bool, bOdd: bool)
    ensures Xor(if aOdd then Xor(a, p) else a, if bOdd then Xor(b, p) else b)
         == if aOdd != bOdd then Xor(Xor(a, b), p) else Xor(a, b)
  {
    hide Xor;
    FoldedXor(a, b, p);
  }

  lemma FoldedXor(a: nat, b: nat, p: nat)
    ensures Xor(Xor(a, b), p) == Xor(a, Xor(b, p))
    ensures Xor(Xor(a, b), p) == Xor(Xor(a, p), b)
    ensures Xor(Xor(a, p), Xor(b, p)) == Xor(a, b)
  {
    hide Xor;
    XorAssoc(a, b, p);
    XorComm(b, p);
    XorAssoc(a, p, b);
    XorAssoc(a, p, Xor(p, b));
    XorAssoc(p, p, b);
    XorSelf(p);
    XorComm(0, b);
    XorZero(b);
  }

  lemma {:induction false} BitStepsLinear(x: u32, y: u32, n: nat)
    ensures BitSteps(Xor32(x, y), n) == Xor32(BitSteps(x, n), BitSteps(y, n))
  {
    if n != 0 {
      BitStepsLinear(x, y, n - 1);
      BitStepLinear(BitSteps(x, n - 1), BitSteps(y, n - 1));
    }
  }

  /** Clear low bits are shifted out unchanged. */
  lemma {:induction false} ShiftOut(h: nat, n: nat, k: nat)
    requires k <= n && Doubles(h, n) < 0x1_0000_0000
    ensures BitSteps(Doubles(h, n), k) == Doubles(h, n - k)
    decreases k
  {
    if k != 0 { ShiftOut(h, n, k - 1); }
  }

  /** The top bit of the polynomial marks what was shifted out. */
  lemma BitStepInjective(x: u32, y: u32)
    requires BitStep(x) == BitStep(y)
    ensures x == y
  {
    Range32();
    XorTop(x / 2, POLYNOMIAL, 31);
    XorTop(y / 2, POLYNOMIAL, 31);
    if x % 2 == 1 && y % 2 == 1 { XorCancels(x / 2, y / 2, POLYNOMIAL); }
  }

  lemma {:induction false} BitStepsInjective(x: u32, y: u32, n: nat)
    requires BitSteps(x, n) == BitSteps(y, n)
    ensures x == y
  {
    if n != 0 {
      BitStepInjective(BitSteps(x, n - 1), BitSteps(y, n - 1));
      BitStepsInjective(x, y, n - 1);
    }
  }

  /** One byte step loses nothing: neither the register nor the byte. */
  lemma ByteStepInjective(c: u32, d: u32, a: byte, b: byte)
    requires ByteStep(c, a) == ByteStep(d, b)
    ensures a == b <==> c == d
  {
    BitStepsInjective(Xor32(c, a), Xor32(d, b), 8);
    if a == b {
      XorCancels(c, d, a);
    }
    if c == d {
      XorComm(c, a);
      XorComm(c, b);
      XorCancels(a, b, c);
    }
  }

  lemma {:induction false} RegisterInjective(c: u32, d: u32, data: seq<byte>)
    requires Register(c, data) == Register(d, data)
    ensures c == d
  {
    if data != [] {
      var init := data[..|data| - 1];
      ByteStepInjective(Register(c, init), Register(d, init), data[|data| - 1], data[|data| - 1]);
      RegisterInjective(c, d, init);
    }
  }

  lemma {:induction false} RegisterConcat(c: u32, s: seq<byte>, t: seq<byte>)
    ensures Register(c, s + t) == Register(Register(c, s), t)
    decreases |t|
  {
    if t == [] {
      assert s + t == s;
    } else {
      RegisterConcat(c, s, t[..|t| - 1]);
      assert (s + t)[..|s + t| - 1] == s + t[..|t| - 1];
    }
  }

  /** Changing any one byte changes the checksum. */
  lemma OneByteDetected(data: seq<byte>, k: nat, b: byte)
    requires k < |data| && data[k] != b
    ensures Crc32(data[k := b]) != Crc32(data)
  {
    var c, rest := Register(ALL_ONES, data[..k]), data[k + 1..];
    assert data == (data[..k] + [data[k]]) + rest;
    assert data[k := b] == (data[..k] + [b]) + rest;
    RegisterConcat(ALL_ONES, data[..k] + [data[k]], rest);
    RegisterConcat(ALL_ONES, data[..k] + [b], rest);
    OneMore(data[..k], data[k]);
    OneMore(data[..k], b);
    if Crc32(data[k := b]) == Crc32(data) {
      XorCancels(Register(ALL_ONES, data), Register(ALL_ONES, data[k := b]), ALL_ONES);
      RegisterInjective(ByteStep(c, data[k]), ByteStep(c, b), rest);
      ByteStepInjective(c, c, data[k], b);
    }
  }

  // ---------------------------------------------------------------------
  // Which CRC it is
  // ---------------------------------------------------------------------

  /** The weight of x^k when coefficients are read from the low end up. */
  function Weight(k: nat): nat
    requires k < 32
  {
    Pow2(31 - k)
  }

  /**
   * The constant is the generator of section 8 of RFC 1952: x^32 + x^26 + x^23 + x^22 + x^16
   * + x^12 + x^11 + x^10 + x^8 + x^7 + x^5 + x^4 + x^2 + x + 1, below its leading term.
   */
  lemma PolynomialIsGenerator()
    ensures POLYNOMIAL == Weight(26) + Weight(23) + Weight(22) + Weight(16) + Weight(12) + Weight(11) + Weight(10)
                          + Weight(8) + Weight(7) + Weight(5) + Weight(4) + Weight(2) + Weight(1) + Weight(0)
  {
    hide Pow2;
    SmallPowers();
    Range32();
    BigPowers();
  }

  lemma SmallPowers()
    ensures Pow2(5) == 0x20 && Pow2(9) == 0x200 && Pow2(15) == 0x8000
  {
    assert Pow2(3) == 8;
    assert Pow2(7) == 0x80;
    assert Pow2(11) == 0x800;
    assert Pow2(13) == 0x2000;
  }

  lemma BigPowers()
    ensures Pow2(19) == 0x8_0000 && Pow2(20) == 0x10_0000 && Pow2(21) == 0x20_0000 && Pow2(23) == 0x80_0000
    ensures Pow2(24) == 0x100_0000 && Pow2(26) == 0x400_0000 && Pow2(27) == 0x800_0000
    ensures Pow2(29) == 0x2000_0000 && Pow2(30) == 0x4000_0000
  {
    SmallPowers();
    assert Pow2(17) == 0x2_0000;
    assert Pow2(19) == 0x8_0000;
    assert Pow2(21) == 0x20_0000;
    assert Pow2(23) == 0x80_0000;
    assert Pow2(25) == 0x200_0000;
    assert Pow2(27) == 0x800_0000;
    assert Pow2(29) == 0x2000_0000;
  }

  /** Taking out the low bits of a number that ends in ones. */
  lemma TakeOut(h: nat, l: nat, n: nat)
    requires l < Pow2(n)
    ensures Xor(Doubles(h, n) + l, l) == Doubles(h, n) && Xor(l, Doubles(h, n) + l) == Doubles(h, n)
  {
    hide Xor, Doubles, Pow2;
    var d := Doubles(h, n);
    XorDisjoint(h, l, n);
    XorAssoc(d, l, l);
    XorSelf(l);
    XorZero(d);
    XorComm(l, d + l);
  }

  /** Known answers: the register starts and ends inverted. */
  lemma KnownChecksums()
    ensures Crc32([]) == 0
    ensures Crc32([0xFF]) == 0xFF00_0000
  {
    XorSelf(ALL_ONES);
    assert Xor32(ALL_ONES, 0xFF) == Doubles(0xFF_FFFF, 8) by {
      hide Xor, Doubles;
      Range32();
      EightPlaces(0xFF_FFFF);
      TakeOut(0xFF_FFFF, 0xFF, 8);
    }
    ShiftOut(0xFF_FFFF, 8, 8);
    assert ByteStep(ALL_ONES, 0xFF) == 0xFF_FFFF by { hide Xor; EightPlaces(0xFF_FFFF); }
    assert Register(ALL_ONES, [0xFF]) == ByteStep(ALL_ONES, 0xFF) by { hide ByteStep; assert [0xFF][..0] == []; }
    assert Xor32(0xFF_FFFF, ALL_ONES) == 0xFF00_0000 by {
      hide Xor, Doubles;
      BigPowers();
      TwentyFour(0xFF);
      TakeOut(0xFF, 0xFF_FFFF, 24);
    }
  }

  lemma TwentyFour(a: nat)
    ensures Doubles(a, 24) == 0x100_0000 * a
  {
    hide Doubles;
    EightPlaces(a);
    EightPlaces(0x100 * a);
    EightPlaces(0x1_0000 * a);
    MoreDoubles(a, 8, 8);
    MoreDoubles(a, 16, 8);
  }
}
