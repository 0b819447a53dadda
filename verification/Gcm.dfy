/** GF(2^128) multiplication for GCM with carry-less multiply, mbedtls_aesni_gcm_mult (intrinsics
    version), against the block multiplication of section 6.3 of NIST SP 800-38D. */
module Gcm {
  import opened Bytes
  import opened BlockCipher
  import opened Words64

  type u128 = bv128

  function X64(a: u64, b: u64): u64 { a ^ b }
  function X128(a: u128, b: u128): u128 { a ^ b }

  /** An __m128i as its two 64-bit lanes. */
  datatype Lanes = Lanes(hi: u64, lo: u64)

  const ZERO := Lanes(0, 0)

  function XorLanes(a: Lanes, b: Lanes): Lanes { Lanes(X64(a.hi, b.hi), X64(a.lo, b.lo)) }

  // ---- the intrinsics ----

  function High(x: u128): u64 { (x >> 64) as u64 }
  function Low(x: u128): u64 { (x & 0xFFFF_FFFF_FFFF_FFFF) as u64 }
  function Wide(b: u64): u128 { b as u128 }
  function Odd(a: u64): bool { a & 1 != 0 }
  function Halve(a: u64): u64 { a >> 1 }
  function Twice(b: u128): u128 { b << 1 }

  /** Carry-less product: one shifted copy of b for every set bit among the n low bits of a. */
  function Accumulate(a: u64, b: u128, n: nat): u128
    decreases n
  {
    if n == 0 then 0
    else X128(if Odd(a) then b else 0, Accumulate(Halve(a), Twice(b), n - 1))
  }

  function Split(x: u128): Lanes { Lanes(High(x), Low(x)) }

  /** _mm_clmulepi64_si128 on two chosen lanes. */
  function Clmul(a: u64, b: u64): Lanes { Split(Accumulate(a, Wide(b), 64)) }

  /** A product of two 128-bit polynomials, dd:cc. */
  datatype Product = Product(dd: Lanes, cc: Lanes)

  /** gcm_clmul: dd:cc = aa * bb from four carry-less products. */
  function ClmulWide(aa: Lanes, bb: Lanes): Product {
    var cc := Clmul(aa.lo, bb.lo);
    var dd := Clmul(aa.hi, bb.hi);
    var ee := Clmul(aa.lo, bb.hi);
    var ff := Clmul(aa.hi, bb.lo);
    Cross(cc, dd, XorLanes(ff, ee))
  }

  /** Adds the middle products, one lane up. */
  function Cross(cc: Lanes, dd: Lanes, mid: Lanes): Product {
    Product(XorLanes(dd, Lanes(0, mid.hi)), XorLanes(cc, Lanes(mid.lo, 0)))
  }

  // Lane operations of the shift and the reduction.
  function Double(lo: u64): u64 { lo << 1 }
  function Carry(hi: u64, lo: u64): u64 { (hi << 1) | (lo >> 63) }
  function ReduceLane(lo: u64, hi: u64): u64 { hi ^ ((lo << 63) ^ (lo << 62) ^ (lo << 57)) }
  function MixHigh(d: u64): u64 { (d >> 1) ^ (d >> 2) ^ (d >> 7) ^ d }
  function MixLow(d: u64, lo: u64): u64 {
    (lo >> 1) ^ (lo >> 2) ^ (lo >> 7) ^ ((d << 63) ^ (d << 62) ^ (d << 57)) ^ lo
  }

  /** gcm_shift: dd:cc one bit to the left. */
  function Shift(p: Product): Product {
    Product(Lanes(Carry(p.dd.hi, p.dd.lo), Carry(p.dd.lo, p.cc.hi)),
            Lanes(Carry(p.cc.hi, p.cc.lo), Double(p.cc.lo)))
  }

  /** gcm_reduce. */
  function Reduce(x: Lanes): Lanes { Lanes(ReduceLane(x.lo, x.hi), x.lo) }

  /** gcm_mix. */
  function Mix(d: Lanes): Lanes { Lanes(MixHigh(d.hi), MixLow(d.hi, d.lo)) }

  /** The two-step reduction of a shifted product. */
  function Finish(s: Product): Lanes { XorLanes(Mix(Reduce(s.cc)), s.dd) }

  /** The whole multiplication on byte-reversed operands. */
  function Multiply(aa: Lanes, bb: Lanes): Lanes { Finish(Shift(ClmulWide(aa, bb))) }

  // ---- the specification ----

  /** Multiplication by x in GCM bit order: a right shift, reduced by R = 11100001 || 0^120. */
  function MulX(v: Lanes): Lanes { Lanes(MulXHigh(v.hi, v.lo), MulXLow(v.hi, v.lo)) }

  function MulXHigh(hi: u64, lo: u64): u64 { (hi >> 1) ^ (if lo & 1 != 0 then 0xE100_0000_0000_0000 else 0) }
  function MulXLow(hi: u64, lo: u64): u64 { (lo >> 1) | (hi << 63) }

  /** The single bit number i of a lane, counted from the most significant. */
  function Mask(i: nat): u64 { if i == 0 then 0x8000_0000_0000_0000 else Halve(Mask(i - 1)) }

  function And(a: u64, b: u64): u64 { a & b }

  /** Bit number i of a block, leftmost first. */
  predicate BlockBit(x: Lanes, i: nat)
    requires i < 128
  {
    And(if i < 64 then x.hi else x.lo, Mask(i % 64)) != 0
  }

  /** Algorithm 1: from bit i on, adds v for every set bit and moves v to v times x. */
  function Sum(x: Lanes, v: Lanes, i: nat): Lanes
    requires i <= 128
    decreases 128 - i
  {
    if i == 128 then ZERO
    else XorLanes(if BlockBit(x, i) then v else ZERO, Sum(x, MulX(v), i + 1))
  }

  /** The product of two blocks in GF(2^128). */
  function Dot(x: Lanes, y: Lanes): Lanes { Sum(x, y, 0) }

  // ---- exclusive or ----

  lemma Swap64(a: u64, b: u64, c: u64, d: u64)
    ensures (a ^ b) ^ (c ^ d) == (a ^ c) ^ (b ^ d)
  {}

  lemma Zero64(a: u64)
    ensures X64(a, 0) == a && X64(0, a) == a && X64(a, a) == 0
  {}

  lemma X64Laws(a: u64, b: u64, c: u64, d: u64)
    ensures X64(X64(a, b), X64(c, d)) == X64(X64(a, c), X64(b, d))
    ensures X64(a, 0) == a && X64(0, a) == a && X64(a, a) == 0
  {
    Zero64(a);
    Swap64(a, b, c, d);
    assert X64(a ^ b, c ^ d) == (a ^ b) ^ (c ^ d);
    assert X64(a ^ c, b ^ d) == (a ^ c) ^ (b ^ d);
  }

  lemma Swap128(a: u128, b: u128, c: u128, d: u128)
    ensures (a ^ b) ^ (c ^ d) == (a ^ c) ^ (b ^ d)
  {}

  lemma Zero128(a: u128)
    ensures X128(a, 0) == a && X128(0, a) == a && X128(a, a) == 0
  {}

  lemma X128Laws(a: u128, b: u128, c: u128, d: u128)
    ensures X128(X128(a, b), X128(c, d)) == X128(X128(a, c), X128(b, d))
    ensures X128(a, 0) == a && X128(0, a) == a && X128(a, a) == 0
  {
    Zero128(a);
    Swap128(a, b, c, d);
    assert X128(a ^ b, c ^ d) == (a ^ b) ^ (c ^ d);
    assert X128(a ^ c, b ^ d) == (a ^ c) ^ (b ^ d);
  }

  lemma XorLanesLaws(a: Lanes, b: Lanes, c: Lanes, d: Lanes)
    ensures XorLanes(XorLanes(a, b), XorLanes(c, d)) == XorLanes(XorLanes(a, c), XorLanes(b, d))
    ensures XorLanes(a, ZERO) == a && XorLanes(ZERO, a) == a && XorLanes(a, a) == ZERO
  {
    hide X64;
    X64Laws(a.hi, b.hi, c.hi, d.hi);
    X64Laws(a.lo, b.lo, c.lo, d.lo);
  }

  // ---- the reduction is linear ----

  lemma LanesXor(a: u64, b: u64, a': u64, b': u64)
    ensures Double(X64(a, a')) == X64(Double(a), Double(a'))
    ensures Carry(X64(b, b'), X64(a, a')) == X64(Carry(b, a), Carry(b', a'))
    ensures MixHigh(X64(a, a')) == X64(MixHigh(a), MixHigh(a'))
  {
    assert Double(a ^ a') == (a << 1) ^ (a' << 1);
    assert X64(a << 1, a' << 1) == (a << 1) ^ (a' << 1);
    assert Carry(b ^ b', a ^ a') == ((b << 1) | (a >> 63)) ^ ((b' << 1) | (a' >> 63));
    assert X64((b << 1) | (a >> 63), (b' << 1) | (a' >> 63)) == ((b << 1) | (a >> 63)) ^ ((b' << 1) | (a' >> 63));
    assert MixHigh(a ^ a') == ((a >> 1) ^ (a >> 2) ^ (a >> 7) ^ a) ^ ((a' >> 1) ^ (a' >> 2) ^ (a' >> 7) ^ a');
    assert X64((a >> 1) ^ (a >> 2) ^ (a >> 7) ^ a, (a' >> 1) ^ (a' >> 2) ^ (a' >> 7) ^ a')
        == ((a >> 1) ^ (a >> 2) ^ (a >> 7) ^ a) ^ ((a' >> 1) ^ (a' >> 2) ^ (a' >> 7) ^ a');
  }

  lemma ReduceXor(l: u64, h: u64, l': u64, h': u64)
    ensures ReduceLane(X64(l, l'), X64(h, h')) == X64(ReduceLane(l, h), ReduceLane(l', h'))
  {
    assert ReduceLane(l ^ l', h ^ h')
        == (h ^ ((l << 63) ^ (l << 62) ^ (l << 57))) ^ (h' ^ ((l' << 63) ^ (l' << 62) ^ (l' << 57)));
    assert X64(h ^ ((l << 63) ^ (l << 62) ^ (l << 57)), h' ^ ((l' << 63) ^ (l' << 62) ^ (l' << 57)))
        == (h ^ ((l << 63) ^ (l << 62) ^ (l << 57))) ^ (h' ^ ((l' << 63) ^ (l' << 62) ^ (l' << 57)));
  }

  lemma MixLowXor(d: u64, l: u64, d': u64, l': u64)
    ensures MixLow(X64(d, d'), X64(l, l')) == X64(MixLow(d, l), MixLow(d', l'))
  {
    assert MixLow(d ^ d', l ^ l')
        == ((l >> 1) ^ (l >> 2) ^ (l >> 7) ^ ((d << 63) ^ (d << 62) ^ (d << 57)) ^ l)
         ^ ((l' >> 1) ^ (l' >> 2) ^ (l' >> 7) ^ ((d' << 63) ^ (d' << 62) ^ (d' << 57)) ^ l');
    assert X64((l >> 1) ^ (l >> 2) ^ (l >> 7) ^ ((d << 63) ^ (d << 62) ^ (d << 57)) ^ l,
               (l' >> 1) ^ (l' >> 2) ^ (l' >> 7) ^ ((d' << 63) ^ (d' << 62) ^ (d' << 57)) ^ l')
        == ((l >> 1) ^ (l >> 2) ^ (l >> 7) ^ ((d << 63) ^ (d << 62) ^ (d << 57)) ^ l)
         ^ ((l' >> 1) ^ (l' >> 2) ^ (l' >> 7) ^ ((d' << 63) ^ (d' << 62) ^ (d' << 57)) ^ l');
  }

  function XorProduct(p: Product, q: Product): Product {
    Product(XorLanes(p.dd, q.dd), XorLanes(p.cc, q.cc))
  }

  lemma ShiftXor(p: Product, q: Product)
    ensures Shift(XorProduct(p, q)) == XorProduct(Shift(p), Shift(q))
  {
    hide X64, Carry, Double, MixHigh;
    LanesXor(p.dd.lo, p.dd.hi, q.dd.lo, q.dd.hi);
    LanesXor(p.cc.hi, p.dd.lo, q.cc.hi, q.dd.lo);
    LanesXor(p.cc.lo, p.cc.hi, q.cc.lo, q.cc.hi);
  }

  lemma MixXor(a: Lanes, b: Lanes)
    ensures Mix(XorLanes(a, b)) == XorLanes(Mix(a), Mix(b))
  {
    hide X64, Carry, Double, MixHigh, MixLow;
    LanesXor(a.hi, a.hi, b.hi, b.hi);
    MixLowXor(a.hi, a.lo, b.hi, b.lo);
  }

  lemma FinishXor(p: Product, q: Product)
    ensures Finish(XorProduct(p, q)) == XorLanes(Finish(p), Finish(q))
  {
    hide X64, ReduceLane, Mix;
    ReduceXor(p.cc.lo, p.cc.hi, q.cc.lo, q.cc.hi);
    MixXor(Reduce(p.cc), Reduce(q.cc));
    XorLanesLaws(Mix(Reduce(p.cc)), Mix(Reduce(q.cc)), p.dd, q.dd);
  }

  // ---- the carry-less product is linear ----

  lemma HalveXor(a: u64, b: u64)
    ensures Odd(X64(a, b)) == (Odd(a) != Odd(b))
    ensures Halve(X64(a, b)) == X64(Halve(a), Halve(b))
  {
    assert Odd(a ^ b) == ((a & 1 != 0) != (b & 1 != 0));
    assert Halve(a ^ b) == (a >> 1) ^ (b >> 1);
    assert X64(a >> 1, b >> 1) == (a >> 1) ^ (b >> 1);
  }

  lemma {:induction false} AccumulateXor(a: u64, a': u64, b: u128, n: nat)
    ensures Accumulate(X64(a, a'), b, n) == X128(Accumulate(a, b, n), Accumulate(a', b, n))
    decreases n
  {
    hide X64, X128, Odd, Halve, Twice;
    if n == 0 {
      X128Laws(0, 0, 0, 0);
    } else {
      HalveXor(a, a');
      AccumulateXor(Halve(a), Halve(a'), Twice(b), n - 1);
      var u, v := if Odd(a) then b else 0, if Odd(a') then b else 0;
      X128Laws(b, b, b, b);
      X128Laws(0, 0, 0, 0);
      X128Laws(u, v, Accumulate(Halve(a), Twice(b), n - 1), Accumulate(Halve(a'), Twice(b), n - 1));
    }
  }

  lemma SplitXor(x: u128, y: u128)
    ensures Split(X128(x, y)) == XorLanes(Split(x), Split(y))
  {
    assert High(x ^ y) == ((x >> 64) as u64) ^ ((y >> 64) as u64);
    assert X64((x >> 64) as u64, (y >> 64) as u64) == ((x >> 64) as u64) ^ ((y >> 64) as u64);
    assert Low(x ^ y) == ((x & 0xFFFF_FFFF_FFFF_FFFF) as u64) ^ ((y & 0xFFFF_FFFF_FFFF_FFFF) as u64);
    assert X64((x & 0xFFFF_FFFF_FFFF_FFFF) as u64, (y & 0xFFFF_FFFF_FFFF_FFFF) as u64)
        == ((x & 0xFFFF_FFFF_FFFF_FFFF) as u64) ^ ((y & 0xFFFF_FFFF_FFFF_FFFF) as u64);
  }

  lemma ClmulXor(a: u64, a': u64, b: u64)
    ensures Clmul(X64(a, a'), b) == XorLanes(Clmul(a, b), Clmul(a', b))
  {
    hide X64, X128, Split, Accumulate, Wide;
    AccumulateXor(a, a', Wide(b), 64);
    SplitXor(Accumulate(a, Wide(b), 64), Accumulate(a', Wide(b), 64));
  }

  lemma CrossXor(c: Lanes, d: Lanes, m: Lanes, c': Lanes, d': Lanes, m': Lanes)
    ensures Cross(XorLanes(c, c'), XorLanes(d, d'), XorLanes(m, m')) == XorProduct(Cross(c, d, m), Cross(c', d', m'))
  {
    hide X64;
    X64Laws(d.hi, d'.hi, 0, 0);
    X64Laws(0, 0, 0, 0);
    X64Laws(d.lo, d'.lo, m.hi, m'.hi);
    X64Laws(c.hi, c'.hi, m.lo, m'.lo);
    X64Laws(c.lo, c'.lo, 0, 0);
  }

  lemma ClmulWideXor(a: Lanes, a': Lanes, b: Lanes)
    ensures ClmulWide(XorLanes(a, a'), b) == XorProduct(ClmulWide(a, b), ClmulWide(a', b))
  {
    hide X64, Clmul, Cross;
    ClmulXor(a.lo, a'.lo, b.lo);
    ClmulXor(a.hi, a'.hi, b.hi);
    ClmulXor(a.lo, a'.lo, b.hi);
    ClmulXor(a.hi, a'.hi, b.lo);
    XorLanesLaws(Clmul(a.hi, b.lo), Clmul(a'.hi, b.lo), Clmul(a.lo, b.hi), Clmul(a'.lo, b.hi));
    CrossXor(Clmul(a.lo, b.lo), Clmul(a.hi, b.hi), XorLanes(Clmul(a.hi, b.lo), Clmul(a.lo, b.hi)),
             Clmul(a'.lo, b.lo), Clmul(a'.hi, b.hi), XorLanes(Clmul(a'.hi, b.lo), Clmul(a'.lo, b.hi)));
  }

  /** The multiplication is linear in its first factor. */
  lemma MultiplyXor(a: Lanes, a': Lanes, b: Lanes)
    ensures Multiply(XorLanes(a, a'), b) == XorLanes(Multiply(a, b), Multiply(a', b))
  {
    hide XorLanes, XorProduct, ClmulWide, Shift, Finish;
    ClmulWideXor(a, a', b);
    ShiftXor(ClmulWide(a, b), ClmulWide(a', b));
    FinishXor(Shift(ClmulWide(a, b)), Shift(ClmulWide(a', b)));
  }

  // ---- one bit times a lane ----

  /** w is x^k: a single bit at position k. */
  predicate IsBit(w: u64, k: nat) {
    if k == 0 then w == 1 else !Odd(w) && IsBit(Halve(w), k - 1)
  }

  /** b shifted left k times. */
  function Shl(b: u128, k: nat): u128 { if k == 0 then b else Twice(Shl(b, k - 1)) }

  lemma {:induction false} ShlInside(b: u128, k: nat)
    ensures Shl(Twice(b), k) == Twice(Shl(b, k))
  {
    hide Twice;
    if k > 0 {
      ShlInside(b, k - 1);
    }
  }

  lemma OneAndZero()
    ensures Odd(1) && Halve(1) == 0 && !Odd(0) && Halve(0) == 0
  {}

  lemma {:induction false} AccumulateZero(b: u128, n: nat)
    ensures Accumulate(0, b, n) == 0
    decreases n
  {
    hide X128, Odd, Halve, Twice;
    OneAndZero();
    X128Laws(0, 0, 0, 0);
    if n > 0 {
      AccumulateZero(Twice(b), n - 1);
    }
  }

  lemma {:induction false} AccumulateBit(w: u64, k: nat, b: u128, n: nat)
    requires IsBit(w, k) && k < n
    ensures Accumulate(w, b, n) == Shl(b, k)
    decreases k
  {
    hide X128, Odd, Halve, Twice;
    OneAndZero();
    var rest := Accumulate(Halve(w), Twice(b), n - 1);
    X128Laws(b, 0, 0, 0);
    X128Laws(rest, 0, 0, 0);
    if k == 0 {
      AccumulateZero(Twice(b), n - 1);
    } else {
      AccumulateBit(Halve(w), k - 1, Twice(b), n - 1);
      ShlInside(b, k - 1);
    }
  }

  lemma HalveUp(w: u64)
    requires w & 0x8000_0000_0000_0000 == 0
    ensures !Odd(w << 1) && Halve(w << 1) == w
  {}

  lemma BitUp(w: u64, k: nat)
    requires w & 0x8000_0000_0000_0000 == 0 && IsBit(w, k)
    ensures IsBit(w << 1, k + 1)
  {
    hide Odd, Halve;
    HalveUp(w);
  }

  lemma BitsTo15()
    ensures IsBit(0x8000, 15)
  {
    BitUp(0x1, 0); BitUp(0x2, 1); BitUp(0x4, 2); BitUp(0x8, 3);
    BitUp(0x10, 4); BitUp(0x20, 5); BitUp(0x40, 6); BitUp(0x80, 7);
    BitUp(0x100, 8); BitUp(0x200, 9); BitUp(0x400, 10); BitUp(0x800, 11);
    BitUp(0x1000, 12); BitUp(0x2000, 13); BitUp(0x4000, 14);
  }

  lemma BitsTo31()
    ensures IsBit(0x80000000, 31)
  {
    BitsTo15();
    BitUp(0x8000, 15); BitUp(0x10000, 16); BitUp(0x20000, 17); BitUp(0x40000, 18);
    BitUp(0x80000, 19); BitUp(0x100000, 20); BitUp(0x200000, 21); BitUp(0x400000, 22);
    BitUp(0x800000, 23); BitUp(0x1000000, 24); BitUp(0x2000000, 25); BitUp(0x4000000, 26);
    BitUp(0x8000000, 27); BitUp(0x10000000, 28); BitUp(0x20000000, 29); BitUp(0x40000000, 30);
  }

  lemma BitsTo47()
    ensures IsBit(0x800000000000, 47)
  {
    BitsTo31();
    BitUp(0x80000000, 31); BitUp(0x100000000, 32); BitUp(0x200000000, 33); BitUp(0x400000000, 34);
    BitUp(0x800000000, 35); BitUp(0x1000000000, 36); BitUp(0x2000000000, 37); BitUp(0x4000000000, 38);
    BitUp(0x8000000000, 39); BitUp(0x10000000000, 40); BitUp(0x20000000000, 41); BitUp(0x40000000000, 42);
    BitUp(0x80000000000, 43); BitUp(0x100000000000, 44); BitUp(0x200000000000, 45); BitUp(0x400000000000, 46);
  }

  lemma BitsTo63()
    ensures IsBit(0x8000000000000000, 63)
  {
    BitsTo47();
    BitUp(0x800000000000, 47); BitUp(0x1000000000000, 48); BitUp(0x2000000000000, 49); BitUp(0x4000000000000, 50);
    BitUp(0x8000000000000, 51); BitUp(0x10000000000000, 52); BitUp(0x20000000000000, 53); BitUp(0x40000000000000, 54);
    BitUp(0x80000000000000, 55); BitUp(0x100000000000000, 56);
    BitUp(0x200000000000000, 57); BitUp(0x400000000000000, 58);
    BitUp(0x800000000000000, 59); BitUp(0x1000000000000000, 60);
    BitUp(0x2000000000000000, 61); BitUp(0x4000000000000000, 62);
  }

  lemma {:induction false} MaskIsBit(i: nat)
    requires i < 64
    ensures IsBit(Mask(i), 63 - i)
  {
    if i == 0 {
      BitsTo63();
    } else {
      MaskIsBit(i - 1);
    }
  }

  /** The top bit of x. */
  predicate Top(x: u128) { x & 0x8000_0000_0000_0000_0000_0000_0000_0000 != 0 }

  /** x can be doubled j times without losing a bit. */
  predicate Fits(x: u128, j: nat)
    decreases j
  { j == 0 || (!Top(x) && Fits(Twice(x), j - 1)) }

  function By8(x: u128): u128 { x << 8 }
  predicate Clear8(x: u128) { x & 0xFF00_0000_0000_0000_0000_0000_0000_0000 == 0 }

  lemma FitsRaise8(x: u128, j: nat)
    requires Clear8(x) && Fits(By8(x), j)
    ensures Fits(x, j + 8)
  {
    assert Twice(x) == x << 1 && Twice(x << 1) == x << 2 && Twice(x << 2) == x << 3 && Twice(x << 3) == x << 4;
    assert Twice(x << 4) == x << 5 && Twice(x << 5) == x << 6 && Twice(x << 6) == x << 7 && Twice(x << 7) == x << 8;
    assert !Top(x) && !Top(x << 1) && !Top(x << 2) && !Top(x << 3);
    assert !Top(x << 4) && !Top(x << 5) && !Top(x << 6) && !Top(x << 7);
    hide Top, Twice;
    assert Fits(x << 7, j + 1);
    assert Fits(x << 6, j + 2);
    assert Fits(x << 5, j + 3);
    assert Fits(x << 4, j + 4);
    assert Fits(x << 3, j + 5);
    assert Fits(x << 2, j + 6);
    assert Fits(x << 1, j + 7);
  }

  lemma {:induction false} FitsShl(b: u128, j: nat, k: nat)
    requires k <= j && Fits(b, j)
    ensures Fits(Shl(b, k), j - k)
  {
    hide Twice, Top;
    if k > 0 {
      FitsShl(b, j, k - 1);
    }
  }

  /** A lane shifted left by n bytes. */
  function ByBytes(b: u64, n: nat): u128 { if n == 0 then Wide(b) else By8(ByBytes(b, n - 1)) }

  lemma ByBytesClear(b: u64)
    ensures Clear8(b as u128) && Clear8((b as u128) << 8) && Clear8((b as u128) << 16) && Clear8((b as u128) << 24)
    ensures Clear8((b as u128) << 32) && Clear8((b as u128) << 40)
    ensures Clear8((b as u128) << 48) && Clear8((b as u128) << 56)
  {}

  lemma ByBytesAre(b: u64)
    ensures ByBytes(b, 0) == b as u128 && ByBytes(b, 1) == (b as u128) << 8
    ensures ByBytes(b, 2) == (b as u128) << 16 && ByBytes(b, 3) == (b as u128) << 24
    ensures ByBytes(b, 4) == (b as u128) << 32 && ByBytes(b, 5) == (b as u128) << 40
    ensures ByBytes(b, 6) == (b as u128) << 48 && ByBytes(b, 7) == (b as u128) << 56
    ensures ByBytes(b, 8) == (b as u128) << 64
  {}

  lemma BytesClear(b: u64, n: nat)
    requires n < 8
    ensures Clear8(ByBytes(b, n))
  {
    hide Clear8, ByBytes;
    ByBytesClear(b);
    ByBytesAre(b);
  }

  lemma {:induction false} BytesFit(b: u64, n: nat)
    requires n <= 8
    ensures Fits(ByBytes(b, n), 64 - 8 * n)
    decreases 8 - n
  {
    hide By8, Clear8, Top, Twice, Wide;
    if n < 8 {
      BytesFit(b, n + 1);
      BytesClear(b, n);
      FitsRaise8(ByBytes(b, n), 64 - 8 * (n + 1));
    }
  }

  lemma Shl8(b: u128, k: nat, x: u128)
    requires Shl(b, k) == x
    ensures Shl(b, k + 8) == By8(x)
  {
    assert Shl(b, k + 1) == x << 1;
    assert Shl(b, k + 2) == x << 2;
    assert Shl(b, k + 3) == x << 3;
    assert Shl(b, k + 4) == x << 4;
    assert Shl(b, k + 5) == x << 5;
    assert Shl(b, k + 6) == x << 6;
    assert Shl(b, k + 7) == x << 7;
  }

  lemma {:induction false} ShlBytes(b: u64, n: nat)
    ensures Shl(Wide(b), 8 * n) == ByBytes(b, n)
  {
    hide By8, Twice, Wide;
    if n > 0 {
      ShlBytes(b, n - 1);
      Shl8(Wide(b), 8 * (n - 1), ByBytes(b, n - 1));
    }
  }

  lemma SplitWide(b: u64)
    ensures Split((b as u128) << 64) == Lanes(b, 0)
  {}

  lemma ShlWide64(b: u64)
    ensures Split(Shl(Wide(b), 64)) == Lanes(b, 0)
  {
    hide By8, Twice, Wide, Split;
    ShlBytes(b, 8);
    ByBytesAre(b);
    SplitWide(b);
  }

  // ---- one bit times a block ----

  function ShiftedLane(b: u64, k: nat): Lanes { Split(Shl(Wide(b), k)) }

  /** y shifted left j times as a 256-bit polynomial, in the shape the four products give. */
  function Shifted(y: Lanes, j: nat): Product
    requires j <= 128
  {
    if j < 64 then Cross(ShiftedLane(y.lo, j), ZERO, ShiftedLane(y.hi, j))
    else Cross(ZERO, ShiftedLane(y.hi, j - 64), ShiftedLane(y.lo, j - 64))
  }

  predicate TopLane(h: u64) { h & 0x8000_0000_0000_0000 != 0 }

  lemma SplitTwice(x: u128)
    ensures Split(Twice(x)) == Lanes(Carry(High(x), Low(x)), Double(Low(x)))
    ensures Top(x) == TopLane(High(x))
  {}

  /** One more doubling of a lane, and no bit is lost before the 64th. */
  lemma NextShiftedLane(b: u64, k: nat)
    requires k < 64
    ensures var v := ShiftedLane(b, k);
            ShiftedLane(b, k + 1) == Lanes(Carry(v.hi, v.lo), Double(v.lo)) && !TopLane(v.hi)
  {
    hide Carry, Double, TopLane, Top, Twice, Wide, High, Low;
    WideFits(b);
    FitsShl(Wide(b), 64, k);
    SplitTwice(Shl(Wide(b), k));
  }

  lemma WideFits(b: u64)
    ensures Fits(Wide(b), 64)
  {
    hide By8, Fits, Wide;
    BytesFit(b, 0);
  }

  lemma CarryClear(h: u64, v: u64, l: u64)
    requires !TopLane(v)
    ensures Carry(0, v) == 0
    ensures Carry(h, v ^ l) == Carry(h, l) && Carry(h, l ^ v) == Carry(h, l)
  {}

  lemma CarryInto(h: u64, v: u64, l: u64)
    requires !TopLane(v)
    ensures Carry(0, v) == 0
    ensures Carry(h, X64(v, l)) == Carry(h, l) && Carry(h, X64(l, v)) == Carry(h, l)
  {
    CarryClear(h, v, l);
    assert X64(v, l) == v ^ l && X64(l, v) == l ^ v;
  }

  lemma CarryOut(h: u64, u: u64, l: u64)
    ensures Carry(X64(h, u), l) == X64(Carry(h, l), Double(u))
    ensures Carry(X64(u, h), l) == X64(Double(u), Carry(h, l))
    ensures Carry(0, 0) == 0 && Double(0) == 0 && Carry(u, 0) == Double(u)
  {
    CarryLow(u);
    hide X64, Carry, Double;
    LanesXor(l, h, 0, u);
    LanesXor(0, u, l, h);
    X64Laws(l, 0, 0, 0);
  }

  lemma CarryLow(u: u64)
    ensures Carry(u, 0) == Double(u) && Carry(0, 0) == 0 && Double(0) == 0
  {}

  lemma CrossLow(v: Lanes, u: Lanes)
    ensures Cross(v, ZERO, u) == Product(Lanes(0, u.hi), Lanes(X64(v.hi, u.lo), v.lo))
  {
    hide X64;
    X64Laws(0, 0, 0, 0);
    X64Laws(u.hi, 0, 0, 0);
    X64Laws(v.lo, 0, 0, 0);
  }

  lemma CrossHigh(u: Lanes, v: Lanes)
    ensures Cross(ZERO, u, v) == Product(Lanes(u.hi, X64(u.lo, v.hi)), Lanes(v.lo, 0))
  {
    hide X64;
    X64Laws(0, 0, 0, 0);
    X64Laws(u.hi, 0, 0, 0);
    X64Laws(v.lo, 0, 0, 0);
  }

  lemma ShiftLow(v: Lanes, u: Lanes)
    requires !TopLane(v.hi) && !TopLane(u.hi)
    ensures Shift(Cross(v, ZERO, u))
         == Cross(Lanes(Carry(v.hi, v.lo), Double(v.lo)), ZERO, Lanes(Carry(u.hi, u.lo), Double(u.lo)))
  {
    hide X64, Carry, Double, TopLane, Cross;
    CrossLow(v, u);
    CrossLow(Lanes(Carry(v.hi, v.lo), Double(v.lo)), Lanes(Carry(u.hi, u.lo), Double(u.lo)));
    CarryInto(u.hi, v.hi, u.lo);
    CarryInto(0, u.hi, 0);
    CarryOut(v.hi, u.lo, v.lo);
  }

  lemma ShiftHigh(u: Lanes, v: Lanes)
    requires !TopLane(v.hi)
    ensures Shift(Cross(ZERO, u, v))
         == Cross(ZERO, Lanes(Carry(u.hi, u.lo), Double(u.lo)), Lanes(Carry(v.hi, v.lo), Double(v.lo)))
  {
    hide X64, Carry, Double, TopLane, Cross;
    CrossHigh(u, v);
    CrossHigh(Lanes(Carry(u.hi, u.lo), Double(u.lo)), Lanes(Carry(v.hi, v.lo), Double(v.lo)));
    CarryInto(u.hi, v.hi, u.lo);
    CarryOut(v.hi, u.lo, v.lo);
    CarryLow(v.lo);
  }

  lemma ShiftedLaneEnds(b: u64)
    ensures ShiftedLane(b, 0) == Lanes(0, b) && ShiftedLane(b, 64) == Lanes(b, 0)
  {
    ShlWide64(b);
    SplitNarrow(b);
    hide Wide, Split;
    assert Shl(Wide(b), 0) == Wide(b);
  }

  lemma SplitNarrow(b: u64)
    ensures Split(Wide(b)) == Lanes(0, b)
  {}

  /** The one-bit shift of the product loses nothing. */
  lemma NextShifted(y: Lanes, j: nat)
    requires j < 128
    ensures Shift(Shifted(y, j)) == Shifted(y, j + 1)
  {
    hide Shift, Cross, ShiftedLane, Carry, Double, TopLane, X64;
    NextShiftedLane(y.lo, j % 64);
    NextShiftedLane(y.hi, j % 64);
    var u, v := ShiftedLane(y.hi, j % 64), ShiftedLane(y.lo, j % 64);
    if j < 64 {
      ShiftLow(v, u);
      if j == 63 {
        ShiftedLaneEnds(y.hi);
        ShiftedLaneEnds(y.lo);
        CrossLow(Lanes(y.lo, 0), Lanes(y.hi, 0));
        CrossHigh(Lanes(0, y.hi), Lanes(0, y.lo));
        X64Laws(y.lo, 0, 0, 0);
        X64Laws(y.hi, 0, 0, 0);
      }
    } else {
      ShiftHigh(u, v);
    }
  }

  /** The single bit number i of a block. */
  function Unit(i: nat): Lanes
    requires i < 128
  {
    if i < 64 then Lanes(Mask(i), 0) else Lanes(0, Mask(i - 64))
  }

  lemma ClmulBit(w: u64, k: nat, b: u64)
    requires IsBit(w, k) && k < 64
    ensures Clmul(w, b) == ShiftedLane(b, k)
  {
    hide Split, Wide, IsBit, Accumulate, Shl;
    AccumulateBit(w, k, Wide(b), 64);
  }

  lemma ClmulZero(b: u64)
    ensures Clmul(0, b) == ZERO
  {
    hide Wide, Accumulate;
    AccumulateZero(Wide(b), 64);
  }

  lemma ClmulUnit(y: Lanes, i: nat)
    requires i < 128
    ensures ClmulWide(Unit(i), y) == Shifted(y, 127 - i)
  {
    hide Clmul, IsBit, ShiftedLane, Cross, Mask, XorLanes;
    MaskIsBit(i % 64);
    ClmulBit(Mask(i % 64), 63 - i % 64, y.hi);
    ClmulBit(Mask(i % 64), 63 - i % 64, y.lo);
    ClmulZero(y.hi);
    ClmulZero(y.lo);
    XorLanesLaws(ShiftedLane(y.hi, 63 - i % 64), ZERO, ZERO, ZERO);
    XorLanesLaws(ShiftedLane(y.lo, 63 - i % 64), ZERO, ZERO, ZERO);
  }

  // ---- reducing a product is reducing its double and dividing by x ----

  // The two lanes of the reduced product d1:d0:c1:c0, written out.

  function FinishHigh(d1: u64, c1: u64, c0: u64): u64 {
    var r := c1 ^ ((c0 << 63) ^ (c0 << 62) ^ (c0 << 57));
    ((r >> 1) ^ (r >> 2) ^ (r >> 7) ^ r) ^ d1
  }

  function FinishLow(d0: u64, c1: u64, c0: u64): u64 {
    var r := c1 ^ ((c0 << 63) ^ (c0 << 62) ^ (c0 << 57));
    ((c0 >> 1) ^ (c0 >> 2) ^ (c0 >> 7) ^ ((r << 63) ^ (r << 62) ^ (r << 57)) ^ c0) ^ d0
  }

  // The two lanes of the doubled product, reduced and divided by x, written out.

  function HalvedHigh(d1: u64, d0: u64, c1: u64, c0: u64): u64 {
    var e0 := c0 << 1;
    var e1 := (c1 << 1) | (c0 >> 63);
    var f0 := (d0 << 1) | (c1 >> 63);
    var f1 := (d1 << 1) | (d0 >> 63);
    var s := e1 ^ ((e0 << 63) ^ (e0 << 62) ^ (e0 << 57));
    var h := ((s >> 1) ^ (s >> 2) ^ (s >> 7) ^ s) ^ f1;
    var l := ((e0 >> 1) ^ (e0 >> 2) ^ (e0 >> 7) ^ ((s << 63) ^ (s << 62) ^ (s << 57)) ^ e0) ^ f0;
    (h >> 1) ^ (if l & 1 != 0 then 0xE100_0000_0000_0000 else 0)
  }

  function HalvedLow(d1: u64, d0: u64, c1: u64, c0: u64): u64 {
    var e0 := c0 << 1;
    var e1 := (c1 << 1) | (c0 >> 63);
    var f0 := (d0 << 1) | (c1 >> 63);
    var f1 := (d1 << 1) | (d0 >> 63);
    var s := e1 ^ ((e0 << 63) ^ (e0 << 62) ^ (e0 << 57));
    var h := ((s >> 1) ^ (s >> 2) ^ (s >> 7) ^ s) ^ f1;
    var l := ((e0 >> 1) ^ (e0 >> 2) ^ (e0 >> 7) ^ ((s << 63) ^ (s << 62) ^ (s << 57)) ^ e0) ^ f0;
    (l >> 1) | (h << 63)
  }

  lemma HalvedHighRaw(d1: u64, d0: u64, c1: u64, c0: u64)
    requires d1 & 0x8000_0000_0000_0000 == 0
    ensures
      var r := c1 ^ ((c0 << 63) ^ (c0 << 62) ^ (c0 << 57));
      ((r >> 1) ^ (r >> 2) ^ (r >> 7) ^ r) ^ d1 == HalvedHigh(d1, d0, c1, c0)
  {}

  lemma HalvedLowRaw(d1: u64, d0: u64, c1: u64, c0: u64)
    requires d1 & 0x8000_0000_0000_0000 == 0
    ensures
      var r := c1 ^ ((c0 << 63) ^ (c0 << 62) ^ (c0 << 57));
      ((c0 >> 1) ^ (c0 >> 2) ^ (c0 >> 7) ^ ((r << 63) ^ (r << 62) ^ (r << 57)) ^ c0) ^ d0 == HalvedLow(d1, d0, c1, c0)
  {}

  lemma MulXRaw(d1: u64, d0: u64, c1: u64, c0: u64)
    ensures
      var e0 := c0 << 1;
      var e1 := (c1 << 1) | (c0 >> 63);
      var f0 := (d0 << 1) | (c1 >> 63);
      var f1 := (d1 << 1) | (d0 >> 63);
      var s := e1 ^ ((e0 << 63) ^ (e0 << 62) ^ (e0 << 57));
      var h := ((s >> 1) ^ (s >> 2) ^ (s >> 7) ^ s) ^ f1;
      var l := ((e0 >> 1) ^ (e0 >> 2) ^ (e0 >> 7) ^ ((s << 63) ^ (s << 62) ^ (s << 57)) ^ e0) ^ f0;
      MulXHigh(h, l) == HalvedHigh(d1, d0, c1, c0)
  {}

  lemma MulXLowRaw(d1: u64, d0: u64, c1: u64, c0: u64)
    ensures
      var e0 := c0 << 1;
      var e1 := (c1 << 1) | (c0 >> 63);
      var f0 := (d0 << 1) | (c1 >> 63);
      var f1 := (d1 << 1) | (d0 >> 63);
      var s := e1 ^ ((e0 << 63) ^ (e0 << 62) ^ (e0 << 57));
      var h := ((s >> 1) ^ (s >> 2) ^ (s >> 7) ^ s) ^ f1;
      var l := ((e0 >> 1) ^ (e0 >> 2) ^ (e0 >> 7) ^ ((s << 63) ^ (s << 62) ^ (s << 57)) ^ e0) ^ f0;
      MulXLow(h, l) == HalvedLow(d1, d0, c1, c0)
  {}

  lemma FinishHighRaw(d1: u64, d0: u64, c1: u64, c0: u64)
    ensures
      var e0 := c0 << 1;
      var e1 := (c1 << 1) | (c0 >> 63);
      var f1 := (d1 << 1) | (d0 >> 63);
      var s := e1 ^ ((e0 << 63) ^ (e0 << 62) ^ (e0 << 57));
      FinishHigh(f1, e1, e0) == ((s >> 1) ^ (s >> 2) ^ (s >> 7) ^ s) ^ f1
  {}

  lemma FinishLowRaw(d1: u64, d0: u64, c1: u64, c0: u64)
    ensures
      var e0 := c0 << 1;
      var e1 := (c1 << 1) | (c0 >> 63);
      var f0 := (d0 << 1) | (c1 >> 63);
      var s := e1 ^ ((e0 << 63) ^ (e0 << 62) ^ (e0 << 57));
      FinishLow(f0, e1, e0) == ((e0 >> 1) ^ (e0 >> 2) ^ (e0 >> 7) ^ ((s << 63) ^ (s << 62) ^ (s << 57)) ^ e0) ^ f0
  {}

  lemma HalvedRaw(d1: u64, d0: u64, c1: u64, c0: u64)
    ensures
      var e0 := c0 << 1;
      var e1 := (c1 << 1) | (c0 >> 63);
      var f0 := (d0 << 1) | (c1 >> 63);
      var f1 := (d1 << 1) | (d0 >> 63);
      MulXHigh(FinishHigh(f1, e1, e0), FinishLow(f0, e1, e0)) == HalvedHigh(d1, d0, c1, c0)
    ensures
      var e0 := c0 << 1;
      var e1 := (c1 << 1) | (c0 >> 63);
      var f0 := (d0 << 1) | (c1 >> 63);
      var f1 := (d1 << 1) | (d0 >> 63);
      MulXLow(FinishHigh(f1, e1, e0), FinishLow(f0, e1, e0)) == HalvedLow(d1, d0, c1, c0)
  {
    hide *;
    MulXRaw(d1, d0, c1, c0);
    MulXLowRaw(d1, d0, c1, c0);
    FinishHighRaw(d1, d0, c1, c0);
    FinishLowRaw(d1, d0, c1, c0);
  }

  lemma Halved(d1: u64, d0: u64, c1: u64, c0: u64)
    ensures var e0, e1, f0, f1 := Double(c0), Carry(c1, c0), Carry(d0, c1), Carry(d1, d0);
            && MulXHigh(FinishHigh(f1, e1, e0), FinishLow(f0, e1, e0)) == HalvedHigh(d1, d0, c1, c0)
            && MulXLow(FinishHigh(f1, e1, e0), FinishLow(f0, e1, e0)) == HalvedLow(d1, d0, c1, c0)
  {
    hide HalvedHigh, HalvedLow, FinishHigh, FinishLow, MulXHigh, MulXLow;
    HalvedRaw(d1, d0, c1, c0);
  }

  lemma FinishHighIsHalved(d1: u64, d0: u64, c1: u64, c0: u64)
    requires d1 & 0x8000_0000_0000_0000 == 0
    ensures FinishHigh(d1, c1, c0) == HalvedHigh(d1, d0, c1, c0)
  {
    hide HalvedHigh;
    HalvedHighRaw(d1, d0, c1, c0);
  }

  lemma FinishLowIsHalved(d1: u64, d0: u64, c1: u64, c0: u64)
    requires d1 & 0x8000_0000_0000_0000 == 0
    ensures FinishLow(d0, c1, c0) == HalvedLow(d1, d0, c1, c0)
  {
    hide HalvedLow;
    HalvedLowRaw(d1, d0, c1, c0);
  }

  lemma FinishIsHalved(d1: u64, d0: u64, c1: u64, c0: u64)
    requires !TopLane(d1)
    ensures FinishHigh(d1, c1, c0) == HalvedHigh(d1, d0, c1, c0) && FinishLow(d0, c1, c0) == HalvedLow(d1, d0, c1, c0)
  {
    hide HalvedHigh, HalvedLow, FinishHigh, FinishLow;
    FinishHighIsHalved(d1, d0, c1, c0);
    FinishLowIsHalved(d1, d0, c1, c0);
  }

  lemma MixHighRaw(d: u64, c1: u64, c0: u64)
    ensures
      var r := c1 ^ ((c0 << 63) ^ (c0 << 62) ^ (c0 << 57));
      MixHigh(r) == (r >> 1) ^ (r >> 2) ^ (r >> 7) ^ r
    ensures
      var r := c1 ^ ((c0 << 63) ^ (c0 << 62) ^ (c0 << 57));
      X64((r >> 1) ^ (r >> 2) ^ (r >> 7) ^ r, d) == FinishHigh(d, c1, c0)
  {}

  lemma MixLowRaw(d: u64, c1: u64, c0: u64)
    ensures
      var r := c1 ^ ((c0 << 63) ^ (c0 << 62) ^ (c0 << 57));
      MixLow(r, c0) == (c0 >> 1) ^ (c0 >> 2) ^ (c0 >> 7) ^ ((r << 63) ^ (r << 62) ^ (r << 57)) ^ c0
    ensures
      var r := c1 ^ ((c0 << 63) ^ (c0 << 62) ^ (c0 << 57));
      X64((c0 >> 1) ^ (c0 >> 2) ^ (c0 >> 7) ^ ((r << 63) ^ (r << 62) ^ (r << 57)) ^ c0, d) == FinishLow(d, c1, c0)
  {}

  lemma MixReduced(d: u64, c1: u64, c0: u64)
    ensures X64(MixHigh(ReduceLane(c0, c1)), d) == FinishHigh(d, c1, c0)
    ensures X64(MixLow(ReduceLane(c0, c1), c0), d) == FinishLow(d, c1, c0)
  {
    hide X64, MixHigh, MixLow, FinishHigh, FinishLow;
    MixHighRaw(d, c1, c0);
    MixLowRaw(d, c1, c0);
  }

  lemma FinishLanes(p: Product)
    ensures Finish(p) == Lanes(FinishHigh(p.dd.hi, p.cc.hi, p.cc.lo), FinishLow(p.dd.lo, p.cc.hi, p.cc.lo))
  {
    hide X64, ReduceLane, MixHigh, MixLow, FinishHigh, FinishLow;
    MixReduced(p.dd.hi, p.cc.hi, p.cc.lo);
    MixReduced(p.dd.lo, p.cc.hi, p.cc.lo);
  }

  lemma FinishHalves(p: Product)
    requires !TopLane(p.dd.hi)
    ensures Finish(p) == MulX(Finish(Shift(p)))
  {
    hide Finish, FinishHigh, FinishLow, HalvedHigh, HalvedLow, MulXHigh, MulXLow, Carry, Double, TopLane;
    FinishLanes(p);
    FinishLanes(Shift(p));
    Halved(p.dd.hi, p.dd.lo, p.cc.hi, p.cc.lo);
    FinishIsHalved(p.dd.hi, p.dd.lo, p.cc.hi, p.cc.lo);
  }

  // ---- every block is the sum of its bits ----

  /** All bits from number i on. */
  function Tail(i: nat): u64 { if i == 0 then 0xFFFF_FFFF_FFFF_FFFF else Halve(Tail(i - 1)) }

  lemma MaskBase()
    ensures X64(Mask(0), Halve(Tail(0))) == Tail(0)
  {
    assert Halve(Tail(0)) == 0x7FFF_FFFF_FFFF_FFFF;
    assert X64(0x8000_0000_0000_0000, 0x7FFF_FFFF_FFFF_FFFF) == 0xFFFF_FFFF_FFFF_FFFF;
  }

  lemma {:induction false} MaskAndTail(i: nat)
    ensures X64(Mask(i), Tail(i + 1)) == Tail(i)
  {
    hide X64, Halve;
    if i == 0 {
      MaskBase();
    } else {
      MaskAndTail(i - 1);
      HalveXor(Mask(i - 1), Tail(i));
    }
  }

  lemma LastTail(t: u64)
    requires 1 ^ (t >> 1) == t
    ensures t >> 1 == 0
  {}

  lemma TailEnds()
    ensures Tail(64) == 0
  {
    MaskAndTail(63);
    MaskIsBit(63);
    assert X64(1, Halve(Tail(63))) == 1 ^ (Tail(63) >> 1);
    LastTail(Tail(63));
    hide Tail;
  }

  lemma AndParts(a: u64, u: u64, v: u64)
    ensures And(a, u ^ v) == (a & u) ^ (a & v)
    ensures X64(a & u, a & v) == (a & u) ^ (a & v)
    ensures And(a, 0) == 0 && And(a, 0xFFFF_FFFF_FFFF_FFFF) == a
  {}

  lemma AndXor(a: u64, u: u64, v: u64)
    ensures And(a, X64(u, v)) == X64(And(a, u), And(a, v))
    ensures And(a, 0) == 0 && And(a, 0xFFFF_FFFF_FFFF_FFFF) == a
  {
    AndParts(a, u, v);
    assert X64(u, v) == u ^ v;
    assert And(a, u) == a & u && And(a, v) == a & v;
    hide X64, And;
  }

  lemma AndEven(a: u64, w: u64)
    requires !Odd(w)
    ensures And(Halve(a), Halve(w)) == 0 ==> And(a, w) == 0
    ensures And(Halve(a), Halve(w)) == Halve(w) ==> And(a, w) == w
  {}

  lemma AndOne(a: u64)
    ensures And(a, 1) == 0 || And(a, 1) == 1
  {}

  /** A single bit is either there or not. */
  lemma {:induction false} AndBit(a: u64, w: u64, k: nat)
    requires IsBit(w, k)
    ensures And(a, w) == 0 || And(a, w) == w
    decreases k
  {
    hide And, Halve, Odd;
    if k == 0 {
      AndOne(a);
    } else {
      AndBit(Halve(a), Halve(w), k - 1);
      AndEven(a, w);
    }
  }

  /** The sum of the bits of a block from number i on. */
  function Bits(x: Lanes, i: nat): Lanes
    requires i <= 128
    decreases 128 - i
  {
    if i == 128 then ZERO
    else XorLanes(if BlockBit(x, i) then Unit(i) else ZERO, Bits(x, i + 1))
  }

  function From(x: Lanes, i: nat): Lanes
    requires i <= 128
  {
    if i < 64 then Lanes(And(x.hi, Tail(i)), x.lo) else Lanes(0, And(x.lo, Tail(i - 64)))
  }

  lemma NextLane(a: u64, i: nat)
    requires i < 64
    ensures And(a, Tail(i)) == X64(if And(a, Mask(i)) != 0 then Mask(i) else 0, And(a, Tail(i + 1)))
    ensures And(a, Tail(0)) == a && And(a, Tail(64)) == 0
  {
    hide X64, And, Halve, IsBit;
    MaskAndTail(i);
    AndXor(a, Mask(i), Tail(i + 1));
    MaskIsBit(i);
    AndBit(a, Mask(i), 63 - i);
    TailEnds();
  }

  lemma NextFrom(x: Lanes, i: nat)
    requires i < 128
    ensures From(x, i) == XorLanes(if BlockBit(x, i) then Unit(i) else ZERO, From(x, i + 1))
  {
    hide X64, And, Tail, Mask;
    NextLane(x.hi, i % 64);
    NextLane(x.lo, i % 64);
    X64Laws(x.lo, 0, 0, 0);
    X64Laws(0, 0, 0, 0);
  }

  lemma {:induction false} BitsAre(x: Lanes, i: nat)
    requires i <= 128
    ensures Bits(x, i) == From(x, i)
    decreases 128 - i
  {
    if i == 128 {
      NextLane(x.lo, 0);
    } else {
      hide From, XorLanes, BlockBit;
      BitsAre(x, i + 1);
      NextFrom(x, i);
    }
  }

  // ---- the product ----

  lemma ShiftedTop(y: Lanes, j: nat)
    requires j < 128
    ensures !TopLane(Shifted(y, j).dd.hi)
  {
    ZeroTop();
    hide ShiftedLane, Cross, TopLane, X64;
    var u, v := ShiftedLane(y.hi, j % 64), ShiftedLane(y.lo, j % 64);
    NextShiftedLane(y.hi, j % 64);
    CrossLow(v, u);
    CrossHigh(u, v);
  }

  lemma ZeroTop()
    ensures !TopLane(0)
  {}

  /** One place further to the right in GCM order is a multiplication by x. */
  lemma FinishShifted(y: Lanes, j: nat)
    requires j < 128
    ensures Finish(Shifted(y, j)) == MulX(Finish(Shifted(y, j + 1)))
  {
    hide Finish, Shifted, Shift, MulX, TopLane;
    ShiftedTop(y, j);
    NextShifted(y, j);
    FinishHalves(Shifted(y, j));
  }

  lemma FinishTop(y: Lanes)
    ensures Finish(Shifted(y, 128)) == y
  {
    FinishZero();
    hide X64, ShiftedLane, Cross, Mix, Reduce;
    ShiftedLaneEnds(y.hi);
    ShiftedLaneEnds(y.lo);
    CrossHigh(Lanes(y.hi, 0), Lanes(y.lo, 0));
    X64Laws(y.hi, 0, 0, 0);
    X64Laws(y.lo, 0, 0, 0);
  }

  lemma FinishZero()
    ensures Mix(Reduce(ZERO)) == ZERO
  {}

  lemma MultiplyZero(y: Lanes)
    ensures Multiply(ZERO, y) == ZERO
  {
    hide Multiply, XorLanes;
    XorLanesLaws(ZERO, ZERO, ZERO, ZERO);
    MultiplyXor(ZERO, ZERO, y);
    XorLanesLaws(Multiply(ZERO, y), ZERO, ZERO, ZERO);
  }

  lemma MultiplyUnit(y: Lanes, i: nat)
    requires i < 128
    ensures Multiply(Unit(i), y) == Finish(Shifted(y, 128 - i))
  {
    hide ClmulWide, Shift, Finish, Shifted, Unit;
    ClmulUnit(y, i);
    NextShifted(y, 127 - i);
  }

  lemma {:induction false} SumIsMultiply(x: Lanes, y: Lanes, i: nat)
    requires i <= 128
    ensures i < 128 ==> Sum(x, Finish(Shifted(y, 128 - i)), i) == Multiply(Bits(x, i), y)
    ensures Multiply(Bits(x, 128), y) == ZERO
    decreases 128 - i
  {
    hide Finish, Shifted, Multiply, XorLanes, MulX, BlockBit, Unit;
    MultiplyZero(y);
    if i < 128 {
      var v, b := Finish(Shifted(y, 128 - i)), BlockBit(x, i);
      SumIsMultiply(x, y, i + 1);
      FinishShifted(y, 127 - i);
      MultiplyUnit(y, i);
      MultiplyXor(if b then Unit(i) else ZERO, Bits(x, i + 1), y);
    }
  }

  /** The carry-less product, shift and two-step reduction give the product of section 6.3. */
  lemma MultiplyIsDot(x: Lanes, y: Lanes)
    ensures Multiply(x, y) == Dot(x, y)
  {
    hide Finish, Shifted, Multiply, XorLanes, MulX, BlockBit, Sum, Bits;
    SumIsMultiply(x, y, 0);
    FinishTop(y);
    BitsAre(x, 0);
    NextLane(x.hi, 0);
  }

  // ---- blocks, registers and lanes ----

  /** A block with its leftmost bit on top, as the standard reads it. */
  function LanesOf(b: Block): Lanes {
    Lanes(U64(b[7], b[6], b[5], b[4], b[3], b[2], b[1], b[0]),
          U64(b[15], b[14], b[13], b[12], b[11], b[10], b[9], b[8]))
  }

  /** Byte k of a register's memory image. */
  function StoredByte(x: Lanes, k: nat): byte
    requires k < 16
  {
    if k == 0 then Byte0(x.lo)
    else if k == 1 then Byte1(x.lo)
    else if k == 2 then Byte2(x.lo)
    else if k == 3 then Byte3(x.lo)
    else if k == 4 then Byte4(x.lo)
    else if k == 5 then Byte5(x.lo)
    else if k == 6 then Byte6(x.lo)
    else if k == 7 then Byte7(x.lo)
    else if k == 8 then Byte0(x.hi)
    else if k == 9 then Byte1(x.hi)
    else if k == 10 then Byte2(x.hi)
    else if k == 11 then Byte3(x.hi)
    else if k == 12 then Byte4(x.hi)
    else if k == 13 then Byte5(x.hi)
    else if k == 14 then Byte6(x.hi)
    else Byte7(x.hi)
  }

  function Stored(x: Lanes): Block { seq(16, k requires 0 <= k < 16 => StoredByte(x, k)) }

  function Reversed(b: Block): Block { seq(16, i requires 0 <= i < 16 => b[15 - i]) }

  /** The inverse of LanesOf: most significant byte first. */
  function BlockOf(x: Lanes): Block { Reversed(Stored(x)) }

  lemma StoredIs(b: Block, k: nat)
    requires k < 16
    ensures StoredByte(LanesOf(b), k) == b[15 - k]
  {
    hide U64, Byte0, Byte1, Byte2, Byte3, Byte4, Byte5, Byte6, Byte7;
    if k < 8 {
      BytesOfU64(b[15], b[14], b[13], b[12], b[11], b[10], b[9], b[8]);
    } else {
      BytesOfU64(b[7], b[6], b[5], b[4], b[3], b[2], b[1], b[0]);
    }
  }

  lemma BlockLanes(b: Block)
    ensures BlockOf(LanesOf(b)) == b
  {
    hide StoredByte, LanesOf;
    forall k | 0 <= k < 16
      ensures Reversed(Stored(LanesOf(b)))[k] == b[k]
    {
      StoredIs(b, 15 - k);
    }
  }

  lemma LoadStored(x: Lanes)
    ensures Load(Stored(x)) == x
  {
    hide U64, Byte0, Byte1, Byte2, Byte3, Byte4, Byte5, Byte6, Byte7;
    U64OfBytes(x.hi);
    U64OfBytes(x.lo);
  }

  lemma LanesBlock(x: Lanes)
    ensures LanesOf(BlockOf(x)) == x
  {
    hide LanesOf, Load, Stored, Reversed;
    ReversedTwice(Stored(x));
    LoadReversed(Reversed(Stored(x)));
    LoadStored(x);
  }

  /** The lanes of a register, from its 16 bytes in memory. */
  function Load(m: Block): Lanes {
    Lanes(U64(m[8], m[9], m[10], m[11], m[12], m[13], m[14], m[15]),
          U64(m[0], m[1], m[2], m[3], m[4], m[5], m[6], m[7]))
  }

  lemma LoadReversed(b: Block)
    ensures Load(Reversed(b)) == LanesOf(b)
  {
    hide U64;
  }

  /** The byte-reversal loops. */
  method ReverseInto(a: array<byte>, r: array<byte>)
    requires a.Length == r.Length == 16 && a != r
    modifies r
    ensures r[..] == Reversed(a[..])
  {
    for i := 0 to 16
      invariant forall k :: 0 <= k < i ==> r[k] == a[15 - k]
    {
      r[i] := a[15 - i];
    }
  }

  lemma ReversedTwice(b: Block)
    ensures Reversed(Reversed(b)) == b
  {}

  /** mbedtls_aesni_gcm_mult: c = a times b in GF(2^128); c may be the same buffer as a or b. */
  method GcmMult(c: array<byte>, a: array<byte>, b: array<byte>)
    requires a.Length == b.Length == c.Length == 16
    modifies c
    ensures c[..] == BlockOf(Dot(LanesOf(old(a[..])), LanesOf(old(b[..]))))
  {
    hide ClmulWide, Shift, Finish, Mix, Reduce, XorLanes, Dot, LanesOf, Load, Reversed, Stored, Splice;
    var aa, bb := new byte[16], new byte[16];
    ReverseInto(a, aa);
    ReverseInto(b, bb);
    LoadReversed(a[..]);
    LoadReversed(b[..]);
    var x, y := Load(aa[..]), Load(bb[..]);
    var p := Shift(ClmulWide(x, y));
    var xh := Mix(Reduce(p.cc));
    var cc := XorLanes(xh, p.dd);
    FinishAt(p);
    MultiplyIsDot(x, y);
    var m, s := new byte[16], Stored(cc);
    SpliceWhole(m[..], s);
    PutBlock(s, m, 0);
    ReverseInto(m, c);
    assert c[..] == BlockOf(cc);
  }

  lemma FinishAt(s: Product)
    ensures Finish(s) == XorLanes(Mix(Reduce(s.cc)), s.dd)
  {}
}
