/** The block multiplication of section 6.3 of NIST SP 800-38D is multiplication of polynomials modulo
    x^128 + x^7 + x^2 + x + 1: linear in both factors, commutative, associative, with unit 1, and with
    the power x^128 reduced as the polynomial says. */
module GcmField {
  import opened Gcm
  import opened Words64

  const ONE := Unit(0)

  /** v times x^n. */
  function Times(v: Lanes, n: nat): Lanes { if n == 0 then v else MulX(Times(v, n - 1)) }

  // ---- multiplication by x is linear ----

  function Feed(lo: u64): u64 { if Odd(lo) then 0xE100_0000_0000_0000 else 0 }

  lemma MulXHighIs(h: u64, l: u64)
    ensures MulXHigh(h, l) == X64(Halve(h), Feed(l))
  {
    hide X64, Halve, Feed, MulXHigh;
    MulXHighOf(h, l);
    HalveIs(h);
    FeedIs(l);
  }

  lemma MulXHighOf(h: u64, l: u64)
    ensures MulXHigh(h, l) == X64(h >> 1, if l & 1 != 0 then 0xE100_0000_0000_0000 else 0)
  {}

  lemma HalveIs(h: u64)
    ensures Halve(h) == h >> 1
  {}

  lemma FeedIs(l: u64)
    ensures Feed(l) == if l & 1 != 0 then 0xE100_0000_0000_0000 else 0
  {}

  lemma FeedXor(a: u64, b: u64)
    ensures Feed(X64(a, b)) == X64(Feed(a), Feed(b))
  {
    hide X64, Odd, Halve;
    HalveXor(a, b);
    X64Laws(0xE100_0000_0000_0000, 0, 0, 0);
    X64Laws(0, 0, 0, 0);
  }

  lemma MulXHighXor(h: u64, l: u64, h': u64, l': u64)
    ensures MulXHigh(X64(h, h'), X64(l, l')) == X64(MulXHigh(h, l), MulXHigh(h', l'))
  {
    hide X64, Halve, Feed, MulXHigh;
    MulXHighIs(h, l);
    MulXHighIs(h', l');
    MulXHighIs(X64(h, h'), X64(l, l'));
    HalveXor(h, h');
    FeedXor(l, l');
    X64Laws(Halve(h), Halve(h'), Feed(l), Feed(l'));
  }

  lemma MulXLowXor(h: u64, l: u64, h': u64, l': u64)
    ensures MulXLow(X64(h, h'), X64(l, l')) == X64(MulXLow(h, l), MulXLow(h', l'))
  {
    assert MulXLow(h ^ h', l ^ l') == ((l >> 1) | (h << 63)) ^ ((l' >> 1) | (h' << 63));
    assert X64((l >> 1) | (h << 63), (l' >> 1) | (h' << 63)) == ((l >> 1) | (h << 63)) ^ ((l' >> 1) | (h' << 63));
  }

  lemma MulXXor(a: Lanes, b: Lanes)
    ensures MulX(XorLanes(a, b)) == XorLanes(MulX(a), MulX(b))
  {
    hide X64, MulXHigh, MulXLow;
    MulXHighXor(a.hi, a.lo, b.hi, b.lo);
    MulXLowXor(a.hi, a.lo, b.hi, b.lo);
  }

  lemma {:induction false} TimesXor(a: Lanes, b: Lanes, n: nat)
    ensures Times(XorLanes(a, b), n) == XorLanes(Times(a, n), Times(b, n))
  {
    hide MulX, XorLanes;
    if n > 0 {
      TimesXor(a, b, n - 1);
      MulXXor(Times(a, n - 1), Times(b, n - 1));
    }
  }

  lemma {:induction false} TimesTwice(v: Lanes, m: nat, n: nat)
    ensures Times(Times(v, m), n) == Times(v, m + n)
  {
    hide MulX;
    if n > 0 {
      TimesTwice(v, m, n - 1);
    }
  }

  // ---- the powers of x ----

  lemma MaskFacts(i: nat)
    requires i < 64
    ensures i < 63 ==> !Odd(Mask(i)) && Halve(Mask(i)) == Mask(i + 1)
    ensures i == 63 ==> Mask(i) == 1
  {
    MaskIsBit(i);
    hide Odd, Halve, Mask;
    assert i < 63 ==> IsBit(Mask(i), 63 - i);
  }

  lemma MulXEven(w: u64)
    requires !Odd(w)
    ensures MulX(Lanes(w, 0)) == Lanes(Halve(w), 0) && MulX(Lanes(0, w)) == Lanes(0, Halve(w))
  {}

  lemma MulXOne()
    ensures MulX(Lanes(1, 0)) == Lanes(0, 0x8000_0000_0000_0000)
    ensures MulX(Lanes(0, 1)) == Lanes(0xE100_0000_0000_0000, 0)
  {}

  lemma UnitNext(i: nat)
    requires i < 127
    ensures MulX(Unit(i)) == Unit(i + 1)
  {
    hide MulX, Odd, Halve;
    MaskFacts(i % 64);
    MulXOne();
    if i % 64 < 63 {
      MulXEven(Mask(i % 64));
    }
  }

  /** x^7 + x^2 + x + 1. */
  const LOW_TERMS := XorLanes(XorLanes(ONE, Unit(1)), XorLanes(Unit(2), Unit(7)))

  /** x^128 is x^7 + x^2 + x + 1. */
  lemma UnitLast()
    ensures MulX(Unit(127)) == LOW_TERMS
  {
    MaskFacts(63);
    MulXOne();
    LowTermsAre();
    hide MulX, XorLanes, Mask;
  }

  lemma LowTermsAre()
    ensures LOW_TERMS == Lanes(0xE100_0000_0000_0000, 0)
  {
    assert Mask(0) == 0x8000_0000_0000_0000 && Mask(1) == 0x4000_0000_0000_0000 && Mask(2) == 0x2000_0000_0000_0000;
    assert Mask(3) == 0x1000_0000_0000_0000 && Mask(4) == 0x0800_0000_0000_0000 && Mask(5) == 0x0400_0000_0000_0000;
    assert Mask(6) == 0x0200_0000_0000_0000 && Mask(7) == 0x0100_0000_0000_0000;
  }

  lemma {:induction false} UnitIsPower(i: nat)
    requires i < 128
    ensures Unit(i) == Times(ONE, i)
  {
    hide MulX, Unit;
    if i > 0 {
      UnitIsPower(i - 1);
      UnitNext(i - 1);
    }
  }

  // ---- the product is linear in both factors ----

  lemma DotXor(a: Lanes, b: Lanes, y: Lanes)
    ensures Dot(XorLanes(a, b), y) == XorLanes(Dot(a, y), Dot(b, y))
  {
    hide Dot, Multiply, XorLanes;
    MultiplyIsDot(a, y);
    MultiplyIsDot(b, y);
    MultiplyIsDot(XorLanes(a, b), y);
    MultiplyXor(a, b, y);
  }

  lemma DotZero(y: Lanes)
    ensures Dot(ZERO, y) == ZERO
  {
    hide Dot, Multiply;
    MultiplyIsDot(ZERO, y);
    MultiplyZero(y);
  }

  lemma {:induction false} FinishIsTimes(y: Lanes, i: nat)
    requires i < 128
    ensures Finish(Shifted(y, 128 - i)) == Times(y, i)
  {
    hide Finish, Shifted, MulX;
    if i == 0 {
      FinishTop(y);
    } else {
      FinishIsTimes(y, i - 1);
      FinishShifted(y, 128 - i);
    }
  }

  /** A single bit number i multiplies by x^i. */
  lemma DotUnit(i: nat, y: Lanes)
    requires i < 128
    ensures Dot(Unit(i), y) == Times(y, i)
  {
    hide Dot, Multiply, Unit, Finish, Shifted, Times;
    MultiplyIsDot(Unit(i), y);
    MultiplyUnit(y, i);
    FinishIsTimes(y, i);
  }

  lemma DotOne(y: Lanes)
    ensures Dot(ONE, y) == y
  {
    hide Dot, Unit;
    DotUnit(0, y);
  }

  // ---- x^128 on every block ----

  function LowTimes(y: Lanes): Lanes {
    XorLanes(XorLanes(y, Times(y, 1)), XorLanes(Times(y, 2), Times(y, 7)))
  }

  /** Multiplying 128 times by x is multiplying by x^7 + x^2 + x + 1, for a power of x. */
  lemma PowerWraps(k: nat)
    requires k < 128
    ensures Times(Unit(k), 128) == LowTimes(Unit(k))
  {
    hide MulX, Unit, XorLanes;
    UnitIsPower(k);
    UnitIsPower(1);
    UnitIsPower(2);
    UnitIsPower(7);
    UnitIsPower(127);
    UnitLast();
    var y := Times(ONE, k);
    TimesTwice(ONE, k, 128);
    TimesTwice(ONE, 128, k);
    assert Times(ONE, 128) == MulX(Times(ONE, 127));
    TimesXor(XorLanes(ONE, Unit(1)), XorLanes(Unit(2), Unit(7)), k);
    TimesXor(ONE, Unit(1), k);
    TimesXor(Unit(2), Unit(7), k);
    TimesTwice(ONE, 1, k);
    TimesTwice(ONE, 2, k);
    TimesTwice(ONE, 7, k);
    TimesTwice(ONE, k, 1);
    TimesTwice(ONE, k, 2);
    TimesTwice(ONE, k, 7);
  }

  lemma LowTimesXor(a: Lanes, b: Lanes)
    ensures LowTimes(XorLanes(a, b)) == XorLanes(LowTimes(a), LowTimes(b))
  {
    hide Times, XorLanes;
    TimesXor(a, b, 1);
    TimesXor(a, b, 2);
    TimesXor(a, b, 7);
    XorLanesLaws(a, b, Times(a, 1), Times(b, 1));
    XorLanesLaws(Times(a, 2), Times(b, 2), Times(a, 7), Times(b, 7));
    XorLanesLaws(XorLanes(a, Times(a, 1)), XorLanes(b, Times(b, 1)),
                 XorLanes(Times(a, 2), Times(a, 7)), XorLanes(Times(b, 2), Times(b, 7)));
  }

  lemma TimesZero(n: nat)
    ensures Times(ZERO, n) == ZERO
  {
    hide Times, XorLanes;
    XorLanesLaws(ZERO, ZERO, ZERO, ZERO);
    TimesXor(ZERO, ZERO, n);
    XorLanesLaws(Times(ZERO, n), ZERO, ZERO, ZERO);
  }

  lemma BitsAll(x: Lanes)
    ensures Bits(x, 0) == x
  {
    hide Bits, XorLanes, BlockBit;
    BitsAre(x, 0);
    NextLane(x.hi, 0);
  }

  /** The sum of bits from number i on, one bit taken off. */
  lemma NextBits(x: Lanes, i: nat)
    requires i < 128
    ensures Bits(x, i) == XorLanes(if BlockBit(x, i) then Unit(i) else ZERO, Bits(x, i + 1))
    ensures Bits(x, 128) == ZERO
  {}

  lemma {:induction false} BitsWrap(y: Lanes, i: nat)
    requires i <= 128
    ensures Times(Bits(y, i), 128) == LowTimes(Bits(y, i))
    decreases 128 - i
  {
    hide Times, LowTimes, Bits, XorLanes, BlockBit, Unit;
    if i == 128 {
      NextBits(y, 0);
      TimesZero(128);
      LowTimesZero();
    } else {
      NextBits(y, i);
      var u, rest := if BlockBit(y, i) then Unit(i) else ZERO, Bits(y, i + 1);
      BitsWrap(y, i + 1);
      PowerWraps(i);
      TimesZero(128);
      LowTimesZero();
      TimesXor(u, rest, 128);
      LowTimesXor(u, rest);
    }
  }

  lemma LowTimesZero()
    ensures LowTimes(ZERO) == ZERO
  {
    hide Times, XorLanes;
    TimesZero(1);
    TimesZero(2);
    TimesZero(7);
    XorLanesLaws(ZERO, ZERO, ZERO, ZERO);
  }

  /** x^128 reduces to x^7 + x^2 + x + 1 on every block. */
  lemma PolynomialReduces(y: Lanes)
    ensures Times(y, 128) == LowTimes(y)
  {
    hide Times, LowTimes, Bits;
    BitsWrap(y, 0);
    BitsAll(y);
  }

  // ---- the product commutes with multiplication by x in both factors ----

  lemma DotMulXUnit(i: nat, y: Lanes)
    requires i < 128
    ensures Dot(MulX(Unit(i)), y) == MulX(Dot(Unit(i), y))
  {
    hide Dot, MulX, Unit, XorLanes;
    DotUnit(i, y);
    if i < 127 {
      UnitNext(i);
      DotUnit(i + 1, y);
    } else {
      UnitLast();
      DotXor(XorLanes(ONE, Unit(1)), XorLanes(Unit(2), Unit(7)), y);
      DotXor(ONE, Unit(1), y);
      DotXor(Unit(2), Unit(7), y);
      DotOne(y);
      DotUnit(1, y);
      DotUnit(2, y);
      DotUnit(7, y);
      PolynomialReduces(y);
    }
  }

  lemma MulXZero()
    ensures MulX(ZERO) == ZERO
  {
    hide MulX;
    TimesZero(1);
    assert Times(ZERO, 1) == MulX(Times(ZERO, 0)) && Times(ZERO, 0) == ZERO;
  }

  lemma {:induction false} DotMulXBits(x: Lanes, y: Lanes, i: nat)
    requires i <= 128
    ensures Dot(MulX(Bits(x, i)), y) == MulX(Dot(Bits(x, i), y))
    decreases 128 - i
  {
    hide Dot, MulX, Bits, XorLanes, BlockBit, Unit;
    MulXZero();
    DotZero(y);
    if i == 128 {
      NextBits(x, 0);
    } else {
      NextBits(x, i);
      var u, rest := if BlockBit(x, i) then Unit(i) else ZERO, Bits(x, i + 1);
      DotMulXBits(x, y, i + 1);
      DotMulXUnit(i, y);
      MulXXor(u, rest);
      DotXor(u, rest, y);
      DotXor(MulX(u), MulX(rest), y);
      MulXXor(Dot(u, y), Dot(rest, y));
    }
  }

  lemma DotMulX(x: Lanes, y: Lanes)
    ensures Dot(MulX(x), y) == MulX(Dot(x, y))
  {
    hide Dot, MulX, Bits;
    DotMulXBits(x, y, 0);
    BitsAll(x);
  }

  lemma {:induction false} DotTimes(x: Lanes, y: Lanes, n: nat)
    ensures Dot(Times(x, n), y) == Times(Dot(x, y), n)
  {
    hide Dot, MulX;
    if n > 0 {
      DotTimes(x, y, n - 1);
      DotMulX(Times(x, n - 1), y);
    }
  }

  lemma {:induction false} SumXor(x: Lanes, v: Lanes, w: Lanes, i: nat)
    requires i <= 128
    ensures Sum(x, XorLanes(v, w), i) == XorLanes(Sum(x, v, i), Sum(x, w, i))
    decreases 128 - i
  {
    hide MulX, XorLanes, BlockBit;
    XorLanesLaws(ZERO, ZERO, ZERO, ZERO);
    if i < 128 {
      MulXXor(v, w);
      SumXor(x, MulX(v), MulX(w), i + 1);
      var b := BlockBit(x, i);
      XorLanesLaws(if b then v else ZERO, if b then w else ZERO, Sum(x, MulX(v), i + 1), Sum(x, MulX(w), i + 1));
    }
  }

  lemma {:induction false} SumMulX(x: Lanes, v: Lanes, i: nat)
    requires i <= 128
    ensures Sum(x, MulX(v), i) == MulX(Sum(x, v, i))
    decreases 128 - i
  {
    hide MulX, XorLanes, BlockBit;
    MulXZero();
    if i < 128 {
      SumMulX(x, MulX(v), i + 1);
      MulXXor(if BlockBit(x, i) then v else ZERO, Sum(x, MulX(v), i + 1));
    }
  }

  lemma {:induction false} TimesDot(x: Lanes, y: Lanes, n: nat)
    ensures Dot(x, Times(y, n)) == Times(Dot(x, y), n)
  {
    hide MulX, Sum;
    if n > 0 {
      TimesDot(x, y, n - 1);
      SumMulX(x, Times(y, n - 1), 0);
    }
  }

  // ---- the ring laws ----

  lemma {:induction false} DotOneBits(x: Lanes, i: nat)
    requires i <= 128
    ensures Dot(Bits(x, i), ONE) == Bits(x, i)
    decreases 128 - i
  {
    hide Dot, Bits, XorLanes, BlockBit, Unit, Times;
    DotZero(ONE);
    if i == 128 {
      NextBits(x, 0);
    } else {
      NextBits(x, i);
      DotOneBits(x, i + 1);
      DotUnit(i, ONE);
      UnitIsPower(i);
      DotXor(if BlockBit(x, i) then Unit(i) else ZERO, Bits(x, i + 1), ONE);
    }
  }

  lemma {:induction false} CommuteBits(x: Lanes, y: Lanes, i: nat)
    requires i <= 128
    ensures Dot(Bits(x, i), y) == Dot(y, Bits(x, i))
    decreases 128 - i
  {
    hide Dot, Bits, XorLanes, BlockBit, Unit, Times;
    DotZero(y);
    DotZeroRight(y);
    if i == 128 {
      NextBits(x, 0);
    } else {
      NextBits(x, i);
      var u, rest := if BlockBit(x, i) then Unit(i) else ZERO, Bits(x, i + 1);
      CommuteBits(x, y, i + 1);
      DotUnit(i, y);
      UnitIsPower(i);
      TimesDot(y, ONE, i);
      DotOneBits(y, 0);
      BitsAll(y);
      DotXor(u, rest, y);
      DotXorRight(y, u, rest);
    }
  }

  lemma DotXorRight(x: Lanes, a: Lanes, b: Lanes)
    ensures Dot(x, XorLanes(a, b)) == XorLanes(Dot(x, a), Dot(x, b))
  {
    hide Sum, XorLanes;
    SumXor(x, a, b, 0);
  }

  lemma DotZeroRight(x: Lanes)
    ensures Dot(x, ZERO) == ZERO
  {
    hide Dot, XorLanes;
    XorLanesLaws(ZERO, ZERO, ZERO, ZERO);
    DotXorRight(x, ZERO, ZERO);
    XorLanesLaws(Dot(x, ZERO), ZERO, ZERO, ZERO);
  }

  /** The product is commutative. */
  lemma Commutative(x: Lanes, y: Lanes)
    ensures Dot(x, y) == Dot(y, x)
  {
    hide Dot, Bits;
    CommuteBits(x, y, 0);
    BitsAll(x);
  }

  lemma {:induction false} AssociateBits(x: Lanes, y: Lanes, z: Lanes, i: nat)
    requires i <= 128
    ensures Dot(Dot(Bits(x, i), y), z) == Dot(Bits(x, i), Dot(y, z))
    decreases 128 - i
  {
    hide Dot, Bits, XorLanes, BlockBit, Unit, Times;
    DotZero(y);
    DotZero(z);
    DotZero(Dot(y, z));
    if i == 128 {
      NextBits(x, 0);
    } else {
      NextBits(x, i);
      var u, rest := if BlockBit(x, i) then Unit(i) else ZERO, Bits(x, i + 1);
      AssociateBits(x, y, z, i + 1);
      DotUnit(i, y);
      DotUnit(i, Dot(y, z));
      DotTimes(y, z, i);
      DotXor(u, rest, y);
      DotXor(Dot(u, y), Dot(rest, y), z);
      DotXor(u, rest, Dot(y, z));
    }
  }

  /** The product is associative. */
  lemma Associative(x: Lanes, y: Lanes, z: Lanes)
    ensures Dot(Dot(x, y), z) == Dot(x, Dot(y, z))
  {
    hide Dot, Bits;
    AssociateBits(x, y, z, 0);
    BitsAll(x);
  }

  /** Multiplying n times by x is multiplying by the nth power of x. */
  lemma TimesIsDot(y: Lanes, n: nat)
    ensures Times(y, n) == Dot(Times(ONE, n), y)
  {
    hide Dot, Times;
    DotTimes(ONE, y, n);
    DotOne(y);
  }
}
