/**
 * The 64-bit word operations the replay window uses, with the value each has
 * on unsigned machine words, and what each does to the individual bits.
 */
module Words {
  import opened Bytes

  function Pow2(n: nat): (p: nat)
    ensures p > 0
  {
    if n == 0 then 1 else 2 * Pow2(n - 1)
  }

  lemma WordSize()
    ensures Pow2(64) == 0x1_0000_0000_0000_0000
  {
    assert Pow2(8) == 0x100;
    assert Pow2(16) == 0x1_0000;
    assert Pow2(24) == 0x100_0000;
    assert Pow2(32) == 0x1_0000_0000;
    assert Pow2(40) == 0x100_0000_0000;
    assert Pow2(48) == 0x1_0000_0000_0000;
    assert Pow2(56) == 0x100_0000_0000_0000;
  }

  /** Bit `k` of the binary expansion of `w`. */
  predicate TestBit(w: nat, k: nat) {
    if k == 0 then w % 2 == 1 else TestBit(w / 2, k - 1)
  }

  /** `w << s`: the high bits fall off the end of the word. */
  function Shl(w: u64, s: nat): u64 {
    if s == 0 then w else (2 * Shl(w, s - 1)) % 0x1_0000_0000_0000_0000
  }

  /** `w >> s`. */
  function Shr(w: u64, s: nat): u64 {
    if s == 0 then w else Shr(w, s - 1) / 2
  }

  /** The bitwise operations on the `n` low-order bits. */
  function OrBits(a: nat, b: nat, n: nat): (c: nat)
    ensures c < Pow2(n)
  {
    if n == 0 then 0 else 2 * OrBits(a / 2, b / 2, n - 1) + Max(a % 2, b % 2)
  }

  function AndBits(a: nat, b: nat, n: nat): (c: nat)
    ensures c < Pow2(n)
  {
    if n == 0 then 0 else 2 * AndBits(a / 2, b / 2, n - 1) + Min(a % 2, b % 2)
  }

  /** `a | b`. */
  function Or(a: u64, b: u64): u64 {
    WordSize();
    OrBits(a, b, 64)
  }

  /** `a & b`. */
  function And(a: u64, b: u64): u64 {
    WordSize();
    AndBits(a, b, 64)
  }

  lemma {:induction false} OrBit(a: nat, b: nat, n: nat, k: nat)
    requires k < n
    ensures TestBit(OrBits(a, b, n), k) == (TestBit(a, k) || TestBit(b, k))
  {
    if k != 0 {
      OrBit(a / 2, b / 2, n - 1, k - 1);
      assert OrBits(a, b, n) / 2 == OrBits(a / 2, b / 2, n - 1);
    }
  }

  lemma {:induction false} AndBit(a: nat, b: nat, n: nat, k: nat)
    requires k < n
    ensures TestBit(AndBits(a, b, n), k) == (TestBit(a, k) && TestBit(b, k))
  {
    if k != 0 {
      AndBit(a / 2, b / 2, n - 1, k - 1);
      assert AndBits(a, b, n) / 2 == AndBits(a / 2, b / 2, n - 1);
    }
  }

  lemma {:induction false} ZeroBits(k: nat)
    ensures !TestBit(0, k)
  {
    if k != 0 { ZeroBits(k - 1); }
  }

  /** A nonzero word below `2^n` has a bit below `n`. */
  lemma {:induction false} SomeBit(w: nat, n: nat) returns (k: nat)
    requires 0 < w < Pow2(n)
    ensures k < n && TestBit(w, k)
  {
    if w % 2 == 1 {
      k := 0;
    } else {
      k := SomeBit(w / 2, n - 1);
      k := k + 1;
    }
  }

  /** Doubling within an `n`-bit word moves every bit up by one. */
  lemma DoubleBit(w: nat, n: nat, k: nat)
    requires w < Pow2(n) && k < n
    ensures var d := if 2 * w < Pow2(n) then 2 * w else 2 * w - Pow2(n);
            TestBit(d, k) == (k > 0 && TestBit(w, k - 1))
  {
    if k > 0 && 2 * w >= Pow2(n) {
      DropTopBit(w, n - 1, k - 1);
      assert (2 * w - Pow2(n)) / 2 == w - Pow2(n - 1);
    }
  }

  lemma {:induction false} DropTopBit(w: nat, n: nat, k: nat)
    requires Pow2(n) <= w && k < n
    ensures TestBit(w - Pow2(n), k) == TestBit(w, k)
  {
    if k > 0 {
      DropTopBit(w / 2, n - 1, k - 1);
      assert (w - Pow2(n)) / 2 == w / 2 - Pow2(n - 1);
    }
  }

  lemma DoubledWordBit(w: u64, k: nat)
    requires k < 64
    ensures TestBit((2 * w) % 0x1_0000_0000_0000_0000, k) == (k > 0 && TestBit(w, k - 1))
  {
    hide TestBit, Pow2;
    WordSize();
    DoubledWord(w);
    DoubleBit(w, 64, k);
  }

  lemma DoubledWord(w: u64)
    ensures (2 * w) % 0x1_0000_0000_0000_0000
         == if 2 * w < 0x1_0000_0000_0000_0000 then 2 * w else 2 * w - 0x1_0000_0000_0000_0000
  {}

  /** A left shift moves bit `k - s` to bit `k` and clears the low `s` bits. */
  lemma {:induction false} ShlBit(w: u64, s: nat, k: nat)
    requires k < 64
    ensures TestBit(Shl(w, s), k) == (s <= k && TestBit(w, k - s))
    decreases s
  {
    if s != 0 {
      DoubledWordBit(Shl(w, s - 1), k);
      if k > 0 { ShlBit(w, s - 1, k - 1); }
    }
  }

  /** A right shift moves bit `s + k` to bit `k`. */
  lemma {:induction false} ShrBit(w: u64, s: nat, k: nat)
    ensures TestBit(Shr(w, s), k) == TestBit(w, s + k)
    decreases s
  {
    if s != 0 {
      ShrBit(w, s - 1, k + 1);
      assert TestBit(Shr(w, s - 1), k + 1) == TestBit(Shr(w, s - 1) / 2, k);
    }
  }

  lemma {:induction false} HighBits(w: nat, n: nat, k: nat)
    requires w < Pow2(n) && n <= k
    ensures !TestBit(w, k)
  {
    if k > 0 {
      if n > 0 { HighBits(w / 2, n - 1, k - 1); } else { ZeroBits(k); }
    }
  }

  lemma OneBit(s: nat, k: nat)
    requires k < 64
    ensures TestBit(Shl(1, s), k) == (k == s)
  {
    ShlBit(1, s, k);
    if s < k { ZeroBits(k - s - 1); }
  }

  /** The source's bit test: `w & (1 << k) != 0`. */
  lemma MaskTest(w: u64, k: nat)
    requires k < 64
    ensures (And(w, Shl(1, k)) != 0) == TestBit(w, k)
  {
    var m := And(w, Shl(1, k));
    AndBit(w, Shl(1, k), 64, k);
    OneBit(k, k);
    if m != 0 {
      WordSize();
      var j := SomeBit(m, 64);
      AndBit(w, Shl(1, k), 64, j);
      OneBit(k, j);
    } else {
      ZeroBits(k);
    }
  }

  /** The source's bit set: `w | (1 << j)`. */
  lemma MaskSet(w: u64, j: nat, k: nat)
    requires j < 64 && k < 64
    ensures TestBit(Or(w, Shl(1, j)), k) == (k == j || TestBit(w, k))
  {
    OrBit(w, Shl(1, j), 64, k);
    OneBit(j, k);
  }

  /** Two adjacent words shifted by `s`, as one 128-bit string. */
  lemma FunnelBit(hi: u64, lo: u64, s: nat, k: nat)
    requires 0 < s < 64 && k < 64
    ensures TestBit(Or(Shl(hi, s), Shr(lo, 64 - s)), k)
         == if s <= k then TestBit(hi, k - s) else TestBit(lo, 64 - s + k)
  {
    OrBit(Shl(hi, s), Shr(lo, 64 - s), 64, k);
    ShlBit(hi, s, k);
    ShrBit(lo, 64 - s, k);
    if s <= k {
      WordSize();
      HighBits(lo, 64, 64 - s + k);
    }
  }

  // ---------------------------------------------------------------------
  // Exclusive or
  // ---------------------------------------------------------------------

  /** `a ^ b`, bit by bit. */
  function Xor(a: nat, b: nat): nat
    decreases a + b
  {
    if a == 0 && b == 0 then 0 else 2 * Xor(a / 2, b / 2) + (a % 2 + b % 2) % 2
  }

  lemma XorBit(a: nat, b: nat)
    ensures Xor(a, b) / 2 == Xor(a / 2, b / 2)
    ensures Xor(a, b) % 2 == (a % 2 + b % 2) % 2
  {}

  lemma {:induction false} XorZero(a: nat)
    ensures Xor(a, 0) == a
  {
    if a != 0 { XorZero(a / 2); }
  }

  lemma {:induction false} XorComm(a: nat, b: nat)
    ensures Xor(a, b) == Xor(b, a)
    decreases a + b
  {
    if a != 0 || b != 0 { XorComm(a / 2, b / 2); }
  }

  lemma {:induction false} XorAssoc(a: nat, b: nat, c: nat)
    ensures Xor(Xor(a, b), c) == Xor(a, Xor(b, c))
    decreases a + b + c
  {
    if a != 0 || b != 0 || c != 0 {
      XorAssoc(a / 2, b / 2, c / 2);
      XorBit(a, b);
      XorBit(b, c);
      XorAssocBit(a, b, c, Xor(a, b), Xor(b, c), Xor(a / 2, b / 2), Xor(b / 2, c / 2));
    }
  }

  lemma XorAssocBit(a: nat, b: nat, c: nat, ab: nat, bc: nat, ab2: nat, bc2: nat)
    requires ab / 2 == ab2 && ab % 2 == (a % 2 + b % 2) % 2
    requires bc / 2 == bc2 && bc % 2 == (b % 2 + c % 2) % 2
    requires Xor(ab2, c / 2) == Xor(a / 2, bc2)
    ensures Xor(ab, c) == Xor(a, bc)
  {
    hide Xor;
    XorBit(ab, c);
    XorBit(a, bc);
    Parities(a % 2, b % 2, c % 2, ab % 2, bc % 2);
    SameHalves(Xor(ab, c), Xor(a, bc));
  }

  lemma Parities(a: nat, b: nat, c: nat, ab: nat, bc: nat)
    requires a < 2 && b < 2 && c < 2 && ab == (a + b) % 2 && bc == (b + c) % 2
    ensures (ab + c) % 2 == (a + bc) % 2
  {}

  lemma SameHalves(x: nat, y: nat)
    requires x / 2 == y / 2 && x % 2 == y % 2
    ensures x == y
  {}

  lemma {:induction false} XorSelf(a: nat)
    ensures Xor(a, a) == 0
  {
    if a != 0 { XorSelf(a / 2); }
  }

  lemma XorCancels(a: nat, b: nat, c: nat)
    requires Xor(a, c) == Xor(b, c)
    ensures a == b
  {
    hide Xor;
    XorAssoc(a, c, c);
    XorAssoc(b, c, c);
    XorSelf(c);
    XorZero(a);
    XorZero(b);
  }

  lemma {:induction false} XorRange(a: nat, b: nat, n: nat)
    requires a < Pow2(n) && b < Pow2(n)
    ensures Xor(a, b) < Pow2(n)
  {
    if n != 0 { XorRange(a / 2, b / 2, n - 1); }
  }

  /** A set top bit of one operand only survives. */
  lemma {:induction false} XorTop(a: nat, b: nat, n: nat)
    requires a < Pow2(n) <= b < Pow2(n + 1)
    ensures Pow2(n) <= Xor(a, b)
  {
    if n != 0 { XorTop(a / 2, b / 2, n - 1); }
  }

  /** `a >> n` and `h << n`, one place at a time. */
  function Halves(a: nat, n: nat): nat {
    if n == 0 then a else Halves(a / 2, n - 1)
  }

  function Doubles(h: nat, n: nat): nat {
    if n == 0 then h else 2 * Doubles(h, n - 1)
  }

  /** Low bits leave the high bits alone. */
  lemma {:induction false} XorHigh(a: nat, b: nat, n: nat)
    requires b < Pow2(n)
    ensures Halves(Xor(a, b), n) == Halves(a, n)
  {
    if n == 0 {
      XorZero(a);
    } else {
      XorHigh(a / 2, b / 2, n - 1);
      XorBit(a, b);
    }
  }

  /** Disjoint bits add. */
  lemma {:induction false} XorDisjoint(h: nat, l: nat, n: nat)
    requires l < Pow2(n)
    ensures Xor(Doubles(h, n), l) == Doubles(h, n) + l
  {
    if n == 0 {
      XorZero(h);
    } else {
      hide Xor;
      var d := Doubles(h, n - 1);
      XorDisjoint(h, l / 2, n - 1);
      XorBit(2 * d, l);
      FromHalves(Xor(2 * d, l), d, l);
    }
  }

  lemma FromHalves(x: nat, d: nat, l: nat)
    requires x / 2 == d + l / 2 && x % 2 == l % 2
    ensures x == 2 * d + l
  {}

  lemma OneHalf(a: nat, n: nat)
    requires n > 0
    ensures Halves(a, n) == Halves(a / 2, n - 1)
  {}

  lemma FourHalves(a: nat, n: nat)
    requires n >= 4
    ensures Halves(a, n) == Halves(a / 16, n - 4)
  {
    hide Halves;
    OneHalf(a, n);
    OneHalf(a / 2, n - 1);
    OneHalf(a / 2 / 2, n - 2);
    OneHalf(a / 2 / 2 / 2, n - 3);
    assert a / 2 / 2 / 2 / 2 == a / 16;
  }

  lemma FourDoubles(a: nat)
    ensures Doubles(a, 4) == 16 * a
  {
    assert Doubles(a, 1) == 2 * a;
    assert Doubles(a, 3) == 8 * a;
  }

  lemma {:induction false} MoreDoubles(a: nat, m: nat, n: nat)
    ensures Doubles(a, m + n) == Doubles(Doubles(a, m), n)
    decreases n
  {
    if n > 0 { MoreDoubles(a, m, n - 1); }
  }

  lemma EightPlaces(a: nat)
    ensures Halves(a, 8) == a / 256
    ensures Doubles(a, 8) == 256 * a
  {
    assert Halves(a, 8) == a / 256 by {
      FourHalves(a, 8);
      FourHalves(a / 16, 4);
    }
    assert Doubles(a, 8) == 256 * a by {
      hide Doubles;
      MoreDoubles(a, 4, 4);
      FourDoubles(a);
      FourDoubles(16 * a);
    }
  }
}
