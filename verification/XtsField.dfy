/** The tweaks of XTS are powers of x times the first tweak, in the field GF(2^128) that GCM multiplies
    in. The two standards number the bits of a block in opposite ways within each byte. */
module XtsField {
  import opened BlockCipher
  import opened Gcm
  import opened GcmField
  import opened Words64
  import opened Xts

  /** The bits of a word in the opposite order. */
  function Mirror(w: u64): u64 {
    var v1 := ((w >> 1) & 0x5555_5555_5555_5555) | ((w & 0x5555_5555_5555_5555) << 1);
    var v2 := ((v1 >> 2) & 0x3333_3333_3333_3333) | ((v1 & 0x3333_3333_3333_3333) << 2);
    var v3 := ((v2 >> 4) & 0x0F0F_0F0F_0F0F_0F0F) | ((v2 & 0x0F0F_0F0F_0F0F_0F0F) << 4);
    var v4 := ((v3 >> 8) & 0x00FF_00FF_00FF_00FF) | ((v3 & 0x00FF_00FF_00FF_00FF) << 8);
    var v5 := ((v4 >> 16) & 0x0000_FFFF_0000_FFFF) | ((v4 & 0x0000_FFFF_0000_FFFF) << 16);
    (v5 >> 32) | (v5 << 32)
  }

  lemma MirrorTwice(w: u64)
    ensures Mirror(Mirror(w)) == w
  {}

  lemma MirrorLow(a: u64, b: u64)
    ensures Mirror(DoubleLow(a, b)) == MulXHigh(Mirror(a), Mirror(b))
  {
    hide Mirror, MulXHigh, DoubleLow, X64, Halve, Feed;
    MulXHighIs(Mirror(a), Mirror(b));
    DoubleLowIs(a, b);
    MirrorTop(b);
    MirrorShift(a);
    MirrorFeed(a);
    X64Zero(Halve(Mirror(a)));
  }

  lemma DoubleLowIs(a: u64, b: u64)
    ensures DoubleLow(a, b) == if b >> 63 == 0 then a << 1 else (a << 1) ^ 0x87
  {}

  lemma MirrorTop(b: u64)
    ensures Feed(Mirror(b)) == if b >> 63 == 0 then 0 else 0xE100_0000_0000_0000
  {}

  lemma MirrorShift(a: u64)
    ensures Mirror(a << 1) == Halve(Mirror(a))
  {}

  lemma MirrorFeed(a: u64)
    ensures Mirror((a << 1) ^ 0x87) == X64(Halve(Mirror(a)), 0xE100_0000_0000_0000)
  {}

  lemma X64Zero(w: u64)
    ensures X64(w, 0) == w
  {}

  lemma MirrorHighRaw(a: u64, b: u64)
    ensures Mirror((a >> 63) | (b << 1)) == MulXLow(Mirror(a), Mirror(b))
  {}

  lemma MirrorHigh(a: u64, b: u64)
    ensures Mirror(DoubleHigh(a, b)) == MulXLow(Mirror(a), Mirror(b))
  {
    hide Mirror, MulXLow;
    MirrorHighRaw(a, b);
  }

  /** A tweak as an element of the field: bit i of byte j is the coefficient of x^(8j + i), which GCM
      keeps in place 8j + i from the left. */
  function Element(t: Block): Lanes { Lanes(Mirror(LowWord(t)), Mirror(HighWord(t))) }

  lemma WordsOfAlpha(t: Block)
    ensures LowWord(Alpha(t)) == DoubleLow(LowWord(t), HighWord(t))
    ensures HighWord(Alpha(t)) == DoubleHigh(LowWord(t), HighWord(t))
  {
    hide U64, Byte0, Byte1, Byte2, Byte3, Byte4, Byte5, Byte6, Byte7, DoubleLow, DoubleHigh, Alpha, LowWord, HighWord;
    var a, b := LowWord(t), HighWord(t);
    DoubleIsAlpha(t);
    U64OfBytes(DoubleLow(a, b));
    U64OfBytes(DoubleHigh(a, b));
    LowWordIs(Alpha(t));
  }

  lemma LowWordIs(t: Block)
    ensures LowWord(t) == U64(t[0], t[1], t[2], t[3], t[4], t[5], t[6], t[7])
    ensures HighWord(t) == U64(t[8], t[9], t[10], t[11], t[12], t[13], t[14], t[15])
  {}

  /** Doubling a tweak is multiplying the field element by x. */
  lemma AlphaIsMulX(t: Block)
    ensures Element(Alpha(t)) == MulX(Element(t))
  {
    hide Alpha, LowWord, HighWord, Mirror, MulXHigh, MulXLow;
    WordsOfAlpha(t);
    MirrorLow(LowWord(t), HighWord(t));
    MirrorHigh(LowWord(t), HighWord(t));
  }

  lemma {:induction false} TweakIsTimes(t: Block, j: nat)
    ensures Element(Tweak(t, j)) == Times(Element(t), j)
  {
    hide Alpha, MulX, Element;
    if j > 0 {
      TweakIsTimes(t, j - 1);
      AlphaIsMulX(Tweak(t, j - 1));
    }
  }

  /** The tweak of block j is x^j times the first tweak in GF(2^128), for every j. */
  lemma TweakIsProduct(t: Block, j: nat)
    ensures Element(Tweak(t, j)) == Dot(Times(ONE, j), Element(t))
  {
    hide Tweak, Times, Dot, Element;
    TweakIsTimes(t, j);
    TimesIsDot(Element(t), j);
  }

  /** No two tweaks stand for the same element. */
  lemma ElementInjective(t: Block, u: Block)
    requires Element(t) == Element(u)
    ensures t == u
  {
    hide Mirror, LowWord, HighWord, Byte0, Byte1, Byte2, Byte3, Byte4, Byte5, Byte6, Byte7;
    MirrorTwice(LowWord(t));
    MirrorTwice(LowWord(u));
    MirrorTwice(HighWord(t));
    MirrorTwice(HighWord(u));
    WordBytes(t);
    WordBytes(u);
    assert forall k :: 0 <= k < 16 ==> t[k] == u[k];
  }

  /** So the products determine the tweaks: two blocks are masked alike exactly when x^j t and x^k u are
      the same element. */
  lemma TweaksEqualIff(t: Block, j: nat, u: Block, k: nat)
    ensures Tweak(t, j) == Tweak(u, k) <==> Dot(Times(ONE, j), Element(t)) == Dot(Times(ONE, k), Element(u))
  {
    hide Tweak, Times, Dot, Element;
    TweakIsProduct(t, j);
    TweakIsProduct(u, k);
    if Element(Tweak(t, j)) == Element(Tweak(u, k)) {
      ElementInjective(Tweak(t, j), Tweak(u, k));
    }
  }
}
