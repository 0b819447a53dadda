/** The field GF(2^8) of AES, as `aes_gen_tables` builds it: multiplication by {02} (XTIME), the
    constant multiples the tables need, and the powers of the generator {03}. */
module Gf256 {
  import opened Bytes

  /** XTIME followed by truncation to a byte. */
  function Xtime(x: byte): byte {
    (x << 1) ^ (if x & 0x80 != 0 then 0x1B else 0)
  }

  lemma DoubledXor(x: byte, y: byte)
    ensures ((x ^ y) << 1) ^ (if (x ^ y) & 0x80 != 0 then 0x1B else 0)
         == ((x << 1) ^ (if x & 0x80 != 0 then 0x1B else 0)) ^ ((y << 1) ^ (if y & 0x80 != 0 then 0x1B else 0))
  {}

  lemma XtimeXor(x: byte, y: byte)
    ensures Xtime(Xor(x, y)) == Xor(Xtime(x), Xtime(y))
  {
    var u := (x << 1) ^ (if x & 0x80 != 0 then 0x1B else 0);
    var v := (y << 1) ^ (if y & 0x80 != 0 then 0x1B else 0);
    assert Xor(u, v) == u ^ v;
    assert Xtime(x ^ y) == u ^ v by { DoubledXor(x, y); }
  }

  function Xor3(x: byte, y: byte, z: byte): byte { Xor(Xor(x, y), z) }

  // Section 4.2.1 of FIPS 197: constant multiples are sums of repeated doublings.
  function Mul3(x: byte): byte { Xor(x, Xtime(x)) }
  function Mul9(x: byte): byte { Xor(Xtime(Xtime(Xtime(x))), x) }
  function Mul11(x: byte): byte { Xor3(Xtime(Xtime(Xtime(x))), Xtime(x), x) }
  function Mul13(x: byte): byte { Xor3(Xtime(Xtime(Xtime(x))), Xtime(Xtime(x)), x) }
  function Mul14(x: byte): byte { Xor3(Xtime(Xtime(Xtime(x))), Xtime(Xtime(x)), Xtime(x)) }
  /** Multiplication by {35}, the 15th power of the generator. */
  function Mul53(x: byte): byte {
    Xor(Xor(Xtime(Xtime(Xtime(Xtime(Xtime(x))))), Xtime(Xtime(Xtime(Xtime(x))))), Xor(Xtime(Xtime(x)), x))
  }

  /** The powers of the generator {03}. */
  function Pow3(i: nat): byte {
    if i == 0 then 1 else Mul3(Pow3(i - 1))
  }

  lemma Mul3Injective(x: byte, y: byte)
    requires Mul3(x) == Mul3(y)
    ensures x == y
  {}

  lemma Mul3Nonzero(x: byte)
    requires x != 0
    ensures Mul3(x) != 0
  {}

  lemma {:induction false} Pow3Nonzero(i: nat)
    ensures Pow3(i) != 0
  {
    hide Mul3;
    if i > 0 {
      Pow3Nonzero(i - 1);
      Mul3Nonzero(Pow3(i - 1));
    }
  }

  // ---- constant multiples commute with multiplication by the generator ----

  lemma MulXor(x: byte, y: byte)
    ensures Mul9(Xor(x, y)) == Xor(Mul9(x), Mul9(y))
    ensures Mul11(Xor(x, y)) == Xor(Mul11(x), Mul11(y))
    ensures Mul13(Xor(x, y)) == Xor(Mul13(x), Mul13(y))
    ensures Mul14(Xor(x, y)) == Xor(Mul14(x), Mul14(y))
    ensures Mul3(Xor(x, y)) == Xor(Mul3(x), Mul3(y))
  {
    hide Xtime, Xor;
    var x2, y2 := Xtime(x), Xtime(y);
    var x4, y4 := Xtime(x2), Xtime(y2);
    XtimeXor(x, y);
    XtimeXor(x2, y2);
    XtimeXor(x4, y4);
    XorSwap(x, y, x2, y2);
    var x8, y8 := Xtime(x4), Xtime(y4);
    XorSwap(x8, y8, x, y);
    XorSwap(x8, y8, x2, y2);
    XorSwap(x8, y8, x4, y4);
    XorSwap(Xor(x8, x2), Xor(y8, y2), x, y);
    XorSwap(Xor(x8, x4), Xor(y8, y4), x, y);
    XorSwap(Xor(x8, x4), Xor(y8, y4), x2, y2);
  }

  lemma MulXtime(x: byte)
    ensures Mul9(Xtime(x)) == Xtime(Mul9(x))
    ensures Mul11(Xtime(x)) == Xtime(Mul11(x))
    ensures Mul13(Xtime(x)) == Xtime(Mul13(x))
    ensures Mul14(Xtime(x)) == Xtime(Mul14(x))
  {
    hide Xtime, Xor;
    var x2 := Xtime(x);
    var x4 := Xtime(x2);
    var x8 := Xtime(x4);
    XtimeXor(x8, x);
    XtimeXor(x8, x2);
    XtimeXor(x8, x4);
    XtimeXor(Xor(x8, x2), x);
    XtimeXor(Xor(x8, x4), x);
    XtimeXor(Xor(x8, x4), x2);
  }

  lemma MulMul3(x: byte)
    ensures Mul9(Mul3(x)) == Mul3(Mul9(x))
    ensures Mul11(Mul3(x)) == Mul3(Mul11(x))
    ensures Mul13(Mul3(x)) == Mul3(Mul13(x))
    ensures Mul14(Mul3(x)) == Mul3(Mul14(x))
  {
    hide Xtime, Xor, Mul9, Mul11, Mul13, Mul14;
    MulXor(x, Xtime(x));
    MulXtime(x);
  }

  lemma Mul53Mul3(x: byte)
    ensures Mul53(Mul3(x)) == Mul3(Mul53(x))
  {
    hide Xtime, Xor;
    var x2 := Xtime(x);
    var x4 := Xtime(x2);
    var x8 := Xtime(x4);
    var x16 := Xtime(x8);
    var x32 := Xtime(x16);
    var x64 := Xtime(x32);
    XtimeXor(x, x2);
    XtimeXor(x2, x4);
    XtimeXor(x4, x8);
    XtimeXor(x8, x16);
    XtimeXor(x16, x32);
    XtimeXor(Xor(x32, x16), Xor(x4, x));
    XtimeXor(x32, x16);
    XtimeXor(x4, x);
    XorSwap(x32, x64, x16, x32);
    XorSwap(x4, x8, x, x2);
    XorSwap(Xor(x32, x16), Xor(x64, x32), Xor(x4, x), Xor(x8, x2));
  }

  // ---- the generator has order 255 ----

  lemma Pow3Small()
    ensures Pow3(6) == 0x55 && Pow3(10) == 0x72 && Pow3(15) == 0x35
  {
    assert Pow3(2) == 0x05;
    assert Pow3(4) == 0x11;
    assert Pow3(6) == 0x55;
    assert Pow3(8) == 0x1a;
    assert Pow3(10) == 0x72;
    assert Pow3(12) == 0xa1;
    assert Pow3(14) == 0x13;
  }

  lemma {:induction false} Pow3Plus15(i: nat)
    ensures Pow3(i + 15) == Mul53(Pow3(i))
  {
    if i == 0 {
      Pow3Small();
      assert Mul53(1) == 0x35;
    } else {
      hide Mul3, Mul53;
      Pow3Plus15(i - 1);
      Mul53Mul3(Pow3(i - 1));
    }
  }

  lemma Pow3Proper()
    ensures Pow3(15) != 1 && Pow3(51) != 1 && Pow3(85) != 1
    ensures Pow3(135) == 0xc2
  {
    hide Pow3, Mul3;
    Pow3Small();
    Pow3Plus15(6);
    assert Mul53(0x55) == 0x73;
    Pow3Plus15(21);
    assert Mul53(0x73) == 0x37;
    Pow3Plus15(36);
    assert Mul53(0x37) == 0x0c;
    Pow3Plus15(10);
    assert Mul53(0x72) == 0x02;
    Pow3Plus15(25);
    assert Mul53(0x02) == 0x6a;
    Pow3Plus15(40);
    assert Mul53(0x6a) == 0xcc;
    Pow3Plus15(55);
    assert Mul53(0xcc) == 0x4d;
    Pow3Plus15(70);
    assert Mul53(0x4d) == 0xbd;
    Pow3Plus15(15);
    assert Mul53(0x35) == 0x66;
    Pow3Plus15(30);
    assert Mul53(0x66) == 0xab;
    Pow3Plus15(45);
    assert Mul53(0xab) == 0xd3;
    Pow3Plus15(60);
    assert Mul53(0xd3) == 0x08;
    Pow3Plus15(75);
    assert Mul53(0x08) == 0xb3;
    Pow3Plus15(90);
    assert Mul53(0xb3) == 0x1d;
    Pow3Plus15(105);
    assert Mul53(0x1d) == 0x2f;
    Pow3Plus15(120);
    assert Mul53(0x2f) == 0xc2;
  }

  lemma Pow3Cycle()
    ensures Pow3(255) == 1
  {
    hide Pow3, Mul3;
    Pow3Proper();
    Pow3Plus15(135);
    assert Mul53(0xc2) == 0x40;
    Pow3Plus15(150);
    assert Mul53(0x40) == 0xef;
    Pow3Plus15(165);
    assert Mul53(0xef) == 0xe8;
    Pow3Plus15(180);
    assert Mul53(0xe8) == 0x63;
    Pow3Plus15(195);
    assert Mul53(0x63) == 0x4a;
    Pow3Plus15(210);
    assert Mul53(0x4a) == 0x36;
    Pow3Plus15(225);
    assert Mul53(0x36) == 0x39;
    Pow3Plus15(240);
    assert Mul53(0x39) == 0x01;
  }

  lemma {:induction false} Pow3Period(d: nat, i: nat)
    requires Pow3(d) == 1
    ensures Pow3(i + d) == Pow3(i)
  {
    hide Mul3;
    if i > 0 {
      Pow3Period(d, i - 1);
    }
  }

  lemma {:induction false} Pow3Multiple(d: nat, q: nat)
    requires Pow3(d) == 1
    ensures Pow3(d * q) == 1
  {
    hide Mul3;
    if q > 0 {
      Pow3Multiple(d, q - 1);
      Pow3Period(d, d * (q - 1));
      assert d * (q - 1) + d == d * q;
    }
  }

  /** A proper divisor of 255 = 3 * 5 * 17 divides 15, 51 or 85. */
  lemma DivisorsOf255(d: nat, q: nat)
    requires d * q == 255 && d != 255
    ensures d == 1 || d == 3 || d == 5 || d == 15 || d == 17 || d == 51 || d == 85
  {
    if d > 16 {
      ProductAtLeast(d, q);
      SmallFactor(q, d);
    } else {
      SmallFactor(d, q);
    }
  }

  lemma ProductAtLeast(d: nat, q: nat)
    requires d > 16
    ensures q >= 16 ==> d * q >= 17 * 16
  {}

  lemma SmallFactor(a: nat, b: nat)
    requires a <= 16 && a * b == 255
    ensures a == 1 || (a == 3 && b == 85) || (a == 5 && b == 51) || (a == 15 && b == 17)
    ensures a == 1 ==> b == 255
  {
    assert a == 0 || a == 1 || a == 2 || a == 3 || a == 4 || a == 5 || a == 6 || a == 7 || a == 8
        || a == 9 || a == 10 || a == 11 || a == 12 || a == 13 || a == 14 || a == 15 || a == 16;
  }

  /** No smaller positive power of {03} is 1: Euclid's algorithm on d and 255 would otherwise
      reach a proper divisor of 255 with that property. */
  lemma {:induction false} Pow3Order(d: nat)
    requires 0 < d < 255
    ensures Pow3(d) != 1
    decreases d
  {
    hide Pow3;
    if Pow3(d) == 1 {
      var q, r := 255 / d, 255 % d;
      assert 255 == r + d * q;
      Pow3Multiple(d, q);
      Pow3Period(d * q, r);
      Pow3Cycle();
      if r > 0 {
        Pow3Order(r);
      } else {
        DivisorsOf255(d, q);
        Pow3Multiple(d, 15 / d);
        Pow3Multiple(d, 51 / d);
        Pow3Multiple(d, 85 / d);
        Pow3Proper();
      }
    }
  }

  lemma {:induction false} Pow3Cancel(i: nat, d: nat)
    requires Pow3(i) == Pow3(i + d)
    ensures Pow3(d) == 1
  {
    if i > 0 {
      Mul3Injective(Pow3(i - 1), Pow3(i + d - 1));
      Pow3Cancel(i - 1, d);
    }
  }

  /** The powers 1 .. 255 are pairwise different. */
  lemma Pow3Distinct(i: nat, j: nat)
    requires 1 <= i < j <= 255
    ensures Pow3(i) != Pow3(j)
  {
    hide Pow3;
    if Pow3(i) == Pow3(j) {
      Pow3Cancel(i, j - i);
      Pow3Order(j - i);
    }
  }

  // ---- hence every nonzero byte is a power ----

  ghost function UpTo(n: nat): (s: set<int>)
    ensures forall i :: i in s <==> 1 <= i <= n
    ensures |s| == n
  {
    if n == 0 then {} else UpTo(n - 1) + {n}
  }

  /** The first n powers, as numbers. */
  ghost function Powers(n: nat): set<int> {
    set k | 1 <= k <= n :: Pow3(k) as int
  }

  lemma {:induction false} PowersCount(n: nat)
    requires n <= 255
    ensures |Powers(n)| == n
  {
    hide Pow3;
    if n > 0 {
      PowersCount(n - 1);
      forall k | 1 <= k <= n - 1
        ensures Pow3(k) as int != Pow3(n) as int
      {
        if Pow3(k) as int == Pow3(n) as int {
          ByteIntInjective(Pow3(k), Pow3(n));
          Pow3Distinct(k, n);
        }
      }
      assert Powers(n) == Powers(n - 1) + {Pow3(n) as int};
      assert Pow3(n) as int !in Powers(n - 1);
    }
  }

  lemma SubsetOfSameSize<T>(a: set<T>, b: set<T>)
    requires a <= b && |a| == |b|
    ensures a == b
  {
    assert |b - a| == |b| - |a|;
  }

  /** The generator reaches every nonzero byte: `log` is defined everywhere but at 0. */
  lemma Pow3Onto(b: byte)
    requires b != 0
    ensures exists k :: 1 <= k <= 255 && Pow3(k) == b
  {
    hide Pow3;
    PowersCount(255);
    forall k | 1 <= k <= 255
      ensures 1 <= Pow3(k) as int <= 255
    {
      Pow3Nonzero(k);
    }
    SubsetOfSameSize(Powers(255), UpTo(255));
    assert b as int in Powers(255);
    var k :| 1 <= k <= 255 && Pow3(k) as int == b as int;
    ByteIntInjective(Pow3(k), b);
  }

  /** MUL(c, x) = pow[(log c + log x) % 255] is multiplication by the constant c: a linear map that
      commutes with the generator is determined by its value at 1. */
  lemma {:induction false} MulPow3(i: nat, k9: nat, k11: nat, k13: nat, k14: nat)
    requires Pow3(k9) == 9 && Pow3(k11) == 11 && Pow3(k13) == 13 && Pow3(k14) == 14
    ensures Mul9(Pow3(i)) == Pow3(k9 + i)
    ensures Mul11(Pow3(i)) == Pow3(k11 + i)
    ensures Mul13(Pow3(i)) == Pow3(k13 + i)
    ensures Mul14(Pow3(i)) == Pow3(k14 + i)
  {
    if i == 0 {
    } else {
      hide Xtime, Xor, Mul3, Mul9, Mul11, Mul13, Mul14;
      MulPow3(i - 1, k9, k11, k13, k14);
      MulMul3(Pow3(i - 1));
    }
  }

  /** The exponent may be reduced modulo 255, as MUL does. */
  lemma Pow3Mod(i: nat)
    ensures Pow3(i % 255) == Pow3(i)
    decreases i
  {
    hide Pow3;
    if i >= 255 {
      Pow3Cycle();
      Pow3Period(255, i - 255);
      Pow3Mod(i - 255);
      assert i % 255 == (i - 255) % 255;
    }
  }
}
