/** The ARIA context of aria.c: both key schedules and the block routine over the round-key array. */
module AriaContext {
  import opened Bytes
  import opened Words
  import opened AriaDiffusion
  import opened Aria

  // ---- the key schedule as section 2.2 of RFC 5794 states it ----

  function ByteCols(b: seq<byte>): Quad
    requires |b| == 16
  {
    Quad(Col(b[0], b[1], b[2], b[3]), Col(b[4], b[5], b[6], b[7]),
         Col(b[8], b[9], b[10], b[11]), Col(b[12], b[13], b[14], b[15]))
  }

  function QuadBytes(x: Quad): (b: seq<byte>)
    ensures |b| == 16
  {
    [x.a.b0, x.a.b1, x.a.b2, x.a.b3, x.b.b0, x.b.b1, x.b.b2, x.b.b3,
     x.c.b0, x.c.b1, x.c.b2, x.c.b3, x.d.b0, x.d.b1, x.d.b2, x.d.b3]
  }

  /** FO and FE: key addition, substitution and diffusion. */
  function RoundOdd(x: Quad, k: Quad): Quad { Diffuse(Subst(SL1, XorQuad(x, k))) }
  function RoundEven(x: Quad, k: Quad): Quad { Diffuse(Subst(SL2, XorQuad(x, k))) }

  // CK1, CK2 and CK3 as byte columns.
  const C1 := Quad(Col(0x51, 0x7C, 0xC1, 0xB7), Col(0x27, 0x22, 0x0A, 0x94),
                   Col(0xFE, 0x13, 0xAB, 0xE8), Col(0xFA, 0x9A, 0x6E, 0xE0))
  const C2 := Quad(Col(0x6D, 0xB1, 0x4A, 0xCC), Col(0x9E, 0x21, 0xC8, 0x20),
                   Col(0xFF, 0x28, 0xB1, 0xD5), Col(0xEF, 0x5D, 0xE2, 0xB0))
  const C3 := Quad(Col(0xDB, 0x92, 0x37, 0x1D), Col(0x21, 0x26, 0xE9, 0x70),
                   Col(0x03, 0x24, 0x97, 0x75), Col(0x04, 0xE8, 0xC9, 0x0E))

  function RoundConstant(i: nat): Quad {
    if i % 3 == 0 then C1 else if i % 3 == 1 then C2 else C3
  }

  /** W0 .. W3 from the two key halves; size is 0, 1, 2 for 128, 192, 256 bits. */
  function Expand(kl: Quad, kr: Quad, size: nat): (w: seq<Quad>)
    ensures |w| == 4
  {
    var w1 := XorQuad(RoundOdd(kl, RoundConstant(size)), kr);
    var w2 := XorQuad(RoundEven(w1, RoundConstant(size + 1)), kl);
    var w3 := XorQuad(RoundOdd(w2, RoundConstant(size + 2)), w1);
    [kl, w1, w2, w3]
  }

  /** A column as a big-endian word, and four of them as a 128-bit number. */
  function BeWord(c: Col): bv32 {
    ((c.b0 as bv32) << 24) | ((c.b1 as bv32) << 16) | ((c.b2 as bv32) << 8) | (c.b3 as bv32)
  }

  function Be128(a: bv32, b: bv32, c: bv32, d: bv32): bv128 {
    ((a as bv128) << 96) | ((b as bv128) << 64) | ((c as bv128) << 32) | (d as bv128)
  }

  function BeQuad(x: Quad): bv128 { Be128(BeWord(x.a), BeWord(x.b), BeWord(x.c), BeWord(x.d)) }

  // ---- aria_rot128 ----

  datatype W4 = W4(w0: word, w1: word, w2: word, w3: word)

  function Pick(x: W4, j: byte): word
    requires j < 4
  {
    if j == 0 then x.w0 else if j == 1 then x.w1 else if j == 2 then x.w2 else x.w3
  }

  function Quad4(x: W4): Quad { QuadOf(x.w0, x.w1, x.w2, x.w3) }

  lemma ReversedRaw(w: word)
    ensures ((((w & 0xFF) as byte) as bv32) << 24) | (((((w >> 8) & 0xFF) as byte) as bv32) << 16)
          | (((((w >> 16) & 0xFF) as byte) as bv32) << 8) | ((((w >> 24) & 0xFF) as byte) as bv32)
         == ((((w >> 8) & 0x00FF00FF) ^ ((w & 0x00FF00FF) << 8)) >> 16)
          ^ ((((w >> 8) & 0x00FF00FF) ^ ((w & 0x00FF00FF) << 8)) << 16)
  {}

  lemma BeOfWord(w: word)
    ensures BeWord(ColOf(w)) == P3(w)
  {
    ReversedRaw(w);
    assert P1(w) == ((w >> 8) & 0x00FF00FF) ^ ((w & 0x00FF00FF) << 8);
    assert P2(((w >> 8) & 0x00FF00FF) ^ ((w & 0x00FF00FF) << 8))
        == ((((w >> 8) & 0x00FF00FF) ^ ((w & 0x00FF00FF) << 8)) >> 16)
         ^ ((((w >> 8) & 0x00FF00FF) ^ ((w & 0x00FF00FF) << 8)) << 16);
    var c := Col((w & 0xFF) as byte, ((w >> 8) & 0xFF) as byte, ((w >> 16) & 0xFF) as byte, ((w >> 24) & 0xFF) as byte);
    assert ColOf(w) == c;
    assert BeWord(c) == ((((w & 0xFF) as byte) as bv32) << 24) | (((((w >> 8) & 0xFF) as byte) as bv32) << 16)
                      | (((((w >> 16) & 0xFF) as byte) as bv32) << 8) | ((((w >> 24) & 0xFF) as byte) as bv32);
  }

  lemma P3P3(x: word)
    ensures P3(P3(x)) == x
  {}

  lemma P3Xor(x: word, y: word)
    ensures P3(WXor(x, y)) == WXor(P3(x), P3(y))
  {}

  function XorW4(x: W4, y: W4): W4 {
    W4(WXor(x.w0, y.w0), WXor(x.w1, y.w1), WXor(x.w2, y.w2), WXor(x.w3, y.w3))
  }

  // Shifts by n bits, and bitwise or.
  function Shl(w: word, n: byte): word
    requires n < 32
  {
    w << n
  }

  function Shr(w: word, n: byte): word
    requires n < 32
  {
    w >> n
  }

  function Or(x: word, y: word): word { x | y }

  /** Two neighbouring big-endian words shifted together by n bits, as aria_rot128 does it. */
  function Funnel(t: word, u: word, n: byte): word
    requires n < 32
  {
    Or(Shl(t, n), Shr(u, if n == 0 then 0 else 32 - n))
  }

  function Rotl1(x: bv128): bv128 { (x << 1) | (x >> 127) }

  /** Rotation left by n bits. */
  function Rotl(x: bv128, n: byte): bv128 {
    if n == 0 then x else Rotl1(Rotl(x, n - 1))
  }

  lemma OneBitRaw(a: word, b: word, c: word, d: word)
    ensures ((((a as bv128) << 96) | ((b as bv128) << 64) | ((c as bv128) << 32) | (d as bv128)) << 1)
          | ((((a as bv128) << 96) | ((b as bv128) << 64) | ((c as bv128) << 32) | (d as bv128)) >> 127)
         == ((((a << 1) | (b >> 31)) as bv128) << 96) | ((((b << 1) | (c >> 31)) as bv128) << 64)
          | ((((c << 1) | (d >> 31)) as bv128) << 32) | (((d << 1) | (a >> 31)) as bv128)
  {}

  lemma FunnelOne(t: word, u: word)
    ensures Funnel(t, u, 1) == (t << 1) | (u >> 31)
  {}

  /** A rotation by one bit, word by word. */
  lemma OneBit(a: word, b: word, c: word, d: word)
    ensures Rotl1(Be128(a, b, c, d)) == Be128(Funnel(a, b, 1), Funnel(b, c, 1), Funnel(c, d, 1), Funnel(d, a, 1))
  {
    hide Funnel;
    OneBitRaw(a, b, c, d);
    FunnelOne(a, b);
    FunnelOne(b, c);
    FunnelOne(c, d);
    FunnelOne(d, a);
    assert Rotl1(((a as bv128) << 96) | ((b as bv128) << 64) | ((c as bv128) << 32) | (d as bv128))
        == ((((a as bv128) << 96) | ((b as bv128) << 64) | ((c as bv128) << 32) | (d as bv128)) << 1)
         | ((((a as bv128) << 96) | ((b as bv128) << 64) | ((c as bv128) << 32) | (d as bv128)) >> 127);
    assert Be128((a << 1) | (b >> 31), (b << 1) | (c >> 31), (c << 1) | (d >> 31), (d << 1) | (a >> 31))
        == ((((a << 1) | (b >> 31)) as bv128) << 96) | ((((b << 1) | (c >> 31)) as bv128) << 64)
         | ((((c << 1) | (d >> 31)) as bv128) << 32) | (((d << 1) | (a >> 31)) as bv128);
  }

  function Low(p: word): word { p & 1 }

  lemma ShlStep(t: word, n: byte)
    requires n < 31
    ensures Shl(t, n + 1) == Shl(Shl(t, n), 1)
  {}

  lemma ShrStep(u: word, n: byte)
    requires 0 < n < 31
    ensures Shr(u, 32 - n) == Shr(Shr(u, 31 - n), 1)
  {}

  lemma TopBit(u: word, n: byte)
    requires 0 < n < 32
    ensures Shr(Shl(u, n), 31) == Low(Shr(u, 31 - n)) && Shr(Shr(u, 32 - n), 31) == 0
  {}

  lemma JoinRaw(t: word, p: word, u: word, w: word)
    requires u >> 31 == p & 1 && w >> 31 == 0
    ensures ((t | (p >> 1)) << 1) | ((u | w) >> 31) == (t << 1) | p
  {}

  lemma Join(t: word, p: word, u: word, w: word)
    requires Shr(u, 31) == Low(p) && Shr(w, 31) == 0
    ensures Or(Shl(Or(t, Shr(p, 1)), 1), Shr(Or(u, w), 31)) == Or(Shl(t, 1), p)
  {
    JoinRaw(t, p, u, w);
  }

  /** One more bit on neighbouring words. */
  lemma FunnelStep(t: word, u: word, w: word, n: byte)
    requires 0 < n < 31
    ensures Funnel(Funnel(t, u, n), Funnel(u, w, n), 1) == Funnel(t, u, n + 1)
  {
    hide Shl, Shr, Or, Low;
    ShlStep(t, n);
    ShrStep(u, n);
    TopBit(u, n);
    TopBit(w, n);
    Join(Shl(t, n), Shr(u, 31 - n), Shl(u, n), Shr(w, 32 - n));
  }

  lemma FunnelLast(t: word, u: word, w: word)
    ensures Funnel(Funnel(t, u, 31), Funnel(u, w, 31), 1) == u
  {}

  /** Word i of four big-endian words rotated by n bits. */
  function TurnedWord(x: W4, n: byte, i: byte): word
    requires i < 4
  {
    var j := (n / 32 + i) % 4;
    if n % 32 == 0 then Pick(x, j) else Funnel(Pick(x, j), Pick(x, (j + 1) % 4), n % 32)
  }

  function Be4(x: W4): bv128 { Be128(x.w0, x.w1, x.w2, x.w3) }

  function Turned(x: W4, n: byte): W4 {
    W4(TurnedWord(x, n, 0), TurnedWord(x, n, 1), TurnedWord(x, n, 2), TurnedWord(x, n, 3))
  }

  lemma NextAmount(n: byte, i: byte)
    requires 0 < n && i < 4
    ensures n % 32 != 0 ==> n / 32 == (n - 1) / 32 && n % 32 == (n - 1) % 32 + 1
    ensures n % 32 == 0 ==> (n - 1) % 32 == 31 && (n / 32 + i) % 4 == (((n - 1) / 32 + i) % 4 + 1) % 4
    ensures ((n - 1) / 32 + (i + 1) % 4) % 4 == (((n - 1) / 32 + i) % 4 + 1) % 4
  {}

  /** One more bit on word i of the rotated words. */
  lemma TurnedStep(x: W4, n: byte, i: byte)
    requires 0 < n && i < 4
    ensures TurnedWord(x, n, i) == Funnel(TurnedWord(x, n - 1, i), TurnedWord(x, n - 1, (i + 1) % 4), 1)
  {
    hide Pick, Funnel;
    NextAmount(n, i);
    var j := ((n - 1) / 32 + i) % 4;
    var t, u, w := Pick(x, j), Pick(x, (j + 1) % 4), Pick(x, ((j + 1) % 4 + 1) % 4);
    if n % 32 == 0 {
      FunnelLast(t, u, w);
    } else if n % 32 != 1 {
      FunnelStep(t, u, w, n % 32 - 1);
    }
  }

  /** Rotation of the 128-bit number, word by word, by any number of bits. */
  lemma {:induction false} RotlIsTurned(x: W4, n: byte)
    ensures Rotl(Be4(x), n) == Be4(Turned(x, n))
  {
    hide Rotl1, Be128, TurnedWord, Funnel;
    if n == 0 {
      TurnedNone(x);
    } else {
      RotlIsTurned(x, n - 1);
      var y := Turned(x, n - 1);
      OneBit(y.w0, y.w1, y.w2, y.w3);
      TurnedStep(x, n, 0);
      TurnedStep(x, n, 1);
      TurnedStep(x, n, 2);
      TurnedStep(x, n, 3);
    }
  }

  lemma TurnedNone(x: W4)
    ensures Turned(x, 0) == x
  {}

  function Xor128(x: bv128, y: bv128): bv128 { x ^ y }

  lemma Be128Xor(a: bv32, b: bv32, c: bv32, d: bv32, a': bv32, b': bv32, c': bv32, d': bv32)
    ensures Be128(WXor(a, a'), WXor(b, b'), WXor(c, c'), WXor(d, d'))
         == Xor128(Be128(a, b, c, d), Be128(a', b', c', d'))
  {}

  function BigEndian(x: W4): W4 { W4(P3(x.w0), P3(x.w1), P3(x.w2), P3(x.w3)) }

  /** The big-endian word i of aria_rot128 before it is stored. */
  function RotatedWord(b: W4, n: byte, i: byte): word
    requires i < 4
  {
    Funnel(P3(Pick(b, (n / 32 + i) % 4)), P3(Pick(b, (n / 32 + i + 1) % 4)), n % 32)
  }

  function Rotated(b: W4, n: byte): W4 {
    W4(RotatedWord(b, n, 0), RotatedWord(b, n, 1), RotatedWord(b, n, 2), RotatedWord(b, n, 3))
  }

  /** aria_rot128, which takes b as big-endian words: a ^ (b <<< n). */
  method Rot128(a: W4, b: W4, n: byte) returns (r: W4)
    ensures r == XorW4(a, BigEndian(Rotated(b, n)))
  {
    hide WXor, P3, Funnel, Pick;
    var n1 := n % 32;
    var j := (n / 32) % 4;
    var t := P3(Pick(b, j));
    var out: seq<word> := [];
    var i: byte := 0;
    while i < 4
      invariant i <= 4 && j == (n / 32 + i) % 4 && t == P3(Pick(b, j))
      invariant |out| == i as nat
      invariant forall k: byte :: k < i ==> out[k] == WXor(Pick(a, k), P3(RotatedWord(b, n, k)))
      decreases 4 - i as int
    {
      j := (j + 1) % 4;
      NextIndex(n, i);
      var u := P3(Pick(b, j));
      t := P3(Funnel(t, u, n1));
      out := out + [WXor(Pick(a, i), t)];
      t := u;
      i := i + 1;
    }
    r := W4(out[0], out[1], out[2], out[3]);
    PickAll(a);
  }

  lemma NextIndex(n: byte, i: byte)
    requires i < 4
    ensures ((n / 32 + i) % 4 + 1) % 4 == (n / 32 + i + 1) % 4 == (n / 32 + (i + 1)) % 4
  {}

  lemma PickAll(a: W4)
    ensures Pick(a, 0) == a.w0 && Pick(a, 1) == a.w1 && Pick(a, 2) == a.w2 && Pick(a, 3) == a.w3
  {}

  lemma PickBigEndian(b: W4, j: byte)
    requires j < 4
    ensures P3(Pick(b, j)) == Pick(BigEndian(b), j)
  {
    hide P3;
  }

  /** The big-endian number of aria_rot128's result. */
  lemma RotatedXor(a: W4, b: W4, n: byte)
    ensures BeQuad(Quad4(XorW4(a, BigEndian(Rotated(b, n))))) == Xor128(BeQuad(Quad4(a)), Be4(Rotated(b, n)))
  {
    hide WXor, P3, Be128, ColOf, Xor128, BeQuad, RotatedWord;
    var f := Rotated(b, n);
    WordsToBe(a);
    WordsToBe(XorW4(a, BigEndian(f)));
    XorBigEndian(a.w0, f.w0);
    XorBigEndian(a.w1, f.w1);
    XorBigEndian(a.w2, f.w2);
    XorBigEndian(a.w3, f.w3);
    Be128Xor(P3(a.w0), P3(a.w1), P3(a.w2), P3(a.w3), f.w0, f.w1, f.w2, f.w3);
  }

  lemma XorBigEndian(x: word, f: word)
    ensures P3(WXor(x, P3(f))) == WXor(P3(x), f)
  {
    hide P3, WXor;
    P3Xor(x, P3(f));
    P3P3(f);
  }

  lemma WordsToBe(x: W4)
    ensures BeQuad(Quad4(x)) == Be4(BigEndian(x))
  {
    hide P3, Be128, BeWord, ColOf;
    BeOfWord(x.w0);
    BeOfWord(x.w1);
    BeOfWord(x.w2);
    BeOfWord(x.w3);
  }

  lemma RotatedIsTurned(b: W4, n: byte, i: byte)
    requires n % 32 != 0 && i < 4
    ensures RotatedWord(b, n, i) == TurnedWord(BigEndian(b), n, i)
  {
    hide P3, Funnel, Pick, BigEndian;
    NextIndex(n, i);
    PickBigEndian(b, (n / 32 + i) % 4);
    PickBigEndian(b, (n / 32 + i + 1) % 4);
  }

  /** On big-endian 128-bit numbers aria_rot128 computes a ^ (b <<< n). */
  ghost predicate Rotates(a: W4, b: W4, n: byte) {
    BeQuad(Quad4(XorW4(a, BigEndian(Rotated(b, n))))) == Xor128(BeQuad(Quad4(a)), Rotl(BeQuad(Quad4(b)), n))
  }

  lemma RotatedIsRotation(a: W4, b: W4, n: byte)
    requires n % 32 != 0
    ensures Rotates(a, b, n)
  {
    hide WXor, P3, Be128, Rotl, ColOf, Xor128, BeQuad, RotatedWord, TurnedWord, BigEndian;
    RotatedXor(a, b, n);
    WordsToBe(b);
    RotlIsTurned(BigEndian(b), n);
    RotatedIsTurned(b, n, 0);
    RotatedIsTurned(b, n, 1);
    RotatedIsTurned(b, n, 2);
    RotatedIsTurned(b, n, 3);
  }

  const ONES: word := 0xFFFF_FFFF

  lemma Xor128Cancel(x: bv128, y: bv128, z: bv128)
    requires Xor128(x, y) == Xor128(x, z)
    ensures y == z
  {}

  /** For a multiple of 32 it mixes two neighbouring words: here 0 and a word of ones. */
  lemma WholeWordsMix(a: W4, n: byte)
    requires n % 32 == 0
    ensures exists b :: !Rotates(a, b, n)
  {
    var j := (n / 32) % 4;
    var b := W4(if j == 3 then ONES else 0, if j == 0 then ONES else 0,
               if j == 1 then ONES else 0, if j == 2 then ONES else 0);
    assert Pick(b, j) == 0 && Pick(b, (n / 32 + 1) % 4) == ONES;
    assert P3(0) == 0 && P3(ONES) == ONES;
    assert RotatedWord(b, n, 0) == ONES;
    PickBigEndian(b, j);
    assert TurnedWord(BigEndian(b), n, 0) == 0;
    if Rotates(a, b, n) {
      MixedDiffer(a, b, n);
    }
  }

  lemma MixedDiffer(a: W4, b: W4, n: byte)
    requires Rotates(a, b, n)
    ensures RotatedWord(b, n, 0) == TurnedWord(BigEndian(b), n, 0)
  {
    hide WXor, P3, Be128, Rotl, ColOf, Xor128, BeQuad, RotatedWord, TurnedWord, BigEndian, Pick, Funnel, XorW4, Quad4;
    var f, t := Rotated(b, n), Turned(BigEndian(b), n);
    RotatedXor(a, b, n);
    WordsToBe(b);
    RotlIsTurned(BigEndian(b), n);
    Xor128Cancel(BeQuad(Quad4(a)), Be4(f), Be4(t));
    Be128Injective(f.w0, f.w1, f.w2, f.w3, t.w0, t.w1, t.w2, t.w3);
  }

  /** aria_rot128 rotates every pair of operands exactly when n is no multiple of 32. */
  lemma RotatesIff(n: byte)
    ensures (forall a, b :: Rotates(a, b, n)) <==> n % 32 != 0
  {
    hide Rotates;
    if n % 32 != 0 {
      forall a, b
        ensures Rotates(a, b, n)
      {
        RotatedIsRotation(a, b, n);
      }
    } else {
      WholeWordsMix(W4(0, 0, 0, 0), n);
    }
  }

  // ---- the helpers of the key schedule ----

  lemma QuadXor(x: W4, y: W4)
    ensures Quad4(W4(WXor(x.w0, y.w0), WXor(x.w1, y.w1), WXor(x.w2, y.w2), WXor(x.w3, y.w3)))
         == XorQuad(Quad4(x), Quad4(y))
  {
    hide WXor, ColOf, XorCol;
    ColXor(x.w0, y.w0);
    ColXor(x.w1, y.w1);
    ColXor(x.w2, y.w2);
    ColXor(x.w3, y.w3);
  }

  /** aria_fo_xor (with SL1) and aria_fe_xor (with SL2): one keyed round, then XOR x. */
  method RoundXor(p: W4, k: W4, x: W4, s: Boxes) returns (r: W4)
    ensures Quad4(r) == XorQuad(Diffuse(Subst(s, XorQuad(Quad4(p), Quad4(k)))), Quad4(x))
  {
    hide WXor, ColOf, Diffuse, Subst, XorQuad;
    var a, b, c, d := WXor(p.w0, k.w0), WXor(p.w1, k.w1), WXor(p.w2, k.w2), WXor(p.w3, k.w3);
    QuadXor(p, k);
    a, b, c, d := AriaSl(a, b, c, d, s);
    a, b, c, d := AriaA(a, b, c, d);
    QuadXor(W4(a, b, c, d), x);
    r := XorW4(W4(a, b, c, d), x);
  }

  /** The rows of the round constant masks. */
  function RcWords(i: nat): W4 {
    if i % 3 == 0 then W4(0xB7C17C51, 0x940A2227, 0xE8AB13FE, 0xE06E9AFA)
    else if i % 3 == 1 then W4(0xCC4AB16D, 0x20C8219E, 0xD5B128FF, 0xB0E25DEF)
    else W4(0x1D3792DB, 0x70E92621, 0x75972403, 0x0EC9E804)
  }

  lemma RcWordsConstant(i: nat)
    ensures Quad4(RcWords(i)) == RoundConstant(i)
  {}

  /** The right operand and the shift of round key i, section 2.2: ek1 .. ek17. */
  function KeyRotation(i: nat): (n: byte)
    requires i < 17
    ensures n % 32 != 0
  {
    if i < 4 then 128 - 19 else if i < 8 then 128 - 31 else if i < 12 then 61 else if i < 16 then 31 else 19
  }

  function RoundKey(w: seq<Quad>, i: nat): bv128
    requires |w| == 4 && i < 17
  {
    Xor128(BeQuad(w[i % 4]), Rotl(BeQuad(w[(i + 1) % 4]), KeyRotation(i)))
  }

  function KeyLeft(key: seq<byte>): Quad
    requires |key| >= 16
  {
    ByteCols(key[..16])
  }

  /** The rest of the key, padded with zeros. */
  function KeyRight(key: seq<byte>): Quad
    requires |key| in {16, 24, 32}
  {
    ByteCols((key[16..] + seq(16, _ => 0 as byte))[..16])
  }

  datatype Status = Success | BadInputData

  /** Round key i in the flattened array rk[17][4]. */
  function KeyAt(rk: seq<word>, i: nat): Quad
    requires 4 * i + 4 <= |rk|
  {
    QuadOf(rk[4 * i], rk[4 * i + 1], rk[4 * i + 2], rk[4 * i + 3])
  }

  function Keys(rk: seq<word>, nr: nat): (k: seq<Quad>)
    requires 4 * nr + 4 <= |rk|
    ensures |k| == nr + 1 && forall i :: 0 <= i <= nr ==> k[i] == KeyAt(rk, i)
  {
    seq(nr + 1, i requires 0 <= i <= nr => KeyAt(rk, i))
  }

  lemma NoRounds(k: seq<Quad>, x: Quad)
    ensures AfterRound(k, x, 0) == x
  {}

  /** One turn of the loop of crypt_ecb: an odd round and an even one, the last without diffusion. */
  lemma OddThenEven(k: seq<Quad>, x: Quad, i: nat)
    requires i % 2 == 0 && i + 2 < |k|
    ensures var odd := Diffuse(Subst(SL1, XorQuad(AfterRound(k, x, i), k[i])));
            var even := Subst(SL2, XorQuad(odd, k[i + 1]));
            && AfterRound(k, x, i + 2) == Diffuse(even)
            && (i + 3 == |k| ==> Crypt(k, x) == XorQuad(even, k[i + 2]))
  {
    hide Diffuse, Subst, XorQuad;
    assert AfterRound(k, x, i + 1) == Diffuse(Subst(SL1, XorQuad(AfterRound(k, x, i), k[i])));
  }

  /** Round key i of the buffer is the one the key schedule defines. */
  ghost predicate KeyDone(rk: seq<word>, w: seq<Quad>, i: nat) {
    |rk| == 68 && |w| == 4 && i < 17 && BeQuad(KeyAt(rk, i)) == RoundKey(w, i)
  }

  class AriaContext {
    var nr: nat
    const rk: array<word>

    constructor ()
      ensures fresh(rk) && rk.Length == 68
    {
      rk := new word[68];
    }

    ghost predicate Usable()
      reads this
    {
      rk.Length == 68 && (nr == 12 || nr == 14 || nr == 16)
    }

    ghost function RoundKeys(): (k: seq<Quad>)
      requires Usable()
      reads this, rk
      ensures |k| == nr + 1
    {
      Keys(rk[..], nr)
    }

    /** mbedtls_aria_crypt_ecb; input and output may be the same buffer. */
    method CryptEcb(input: array<byte>, output: array<byte>)
      requires Usable() && input.Length == output.Length == 16
      modifies output
      ensures output[..] == QuadBytes(Crypt(RoundKeys(), ByteCols(old(input[..]))))
    {
      hide QuadOf, Diffuse, Subst, XorQuad, ByteCols, QuadBytes, AfterRound, RoundKeys, RoundBoxes;
      ghost var k, x := RoundKeys(), ByteCols(input[..]);
      var w := LoadW4(input[..]);
      var a, b, c, d := w.w0, w.w1, w.w2, w.w3;
      var i := 0;
      NoRounds(k, x);
      while true
        invariant i % 2 == 0 && i < nr
        invariant QuadOf(a, b, c, d) == AfterRound(k, x, i)
        decreases nr - i
      {
        OddThenEven(k, x, i);
        a, b, c, d := AddKey(a, b, c, d, i);
        i := i + 1;
        a, b, c, d := AriaSl(a, b, c, d, SL1);
        a, b, c, d := AriaA(a, b, c, d);
        a, b, c, d := AddKey(a, b, c, d, i);
        i := i + 1;
        a, b, c, d := AriaSl(a, b, c, d, SL2);
        if i >= nr {
          break;
        }
        a, b, c, d := AriaA(a, b, c, d);
      }
      a, b, c, d := AddKey(a, b, c, d, i);
      StoreW4(W4(a, b, c, d), output);
    }

    /** The key addition of round i. */
    method AddKey(a0: word, b0: word, c0: word, d0: word, i: nat) returns (a: word, b: word, c: word, d: word)
      requires Usable() && i <= nr
      ensures QuadOf(a, b, c, d) == XorQuad(QuadOf(a0, b0, c0, d0), RoundKeys()[i])
    {
      hide ColOf, WXor, XorCol;
      a := WXor(a0, rk[4 * i]);
      b := WXor(b0, rk[4 * i + 1]);
      c := WXor(c0, rk[4 * i + 2]);
      d := WXor(d0, rk[4 * i + 3]);
      QuadXor(W4(a0, b0, c0, d0), W4(rk[4 * i], rk[4 * i + 1], rk[4 * i + 2], rk[4 * i + 3]));
      assert RoundKeys()[i] == KeyAt(rk[..], i);
    }

    /** Stores round key i. */
    method PutKey(i: nat, r: W4)
      requires rk.Length == 68 && i < 17
      modifies rk
      ensures KeyAt(rk[..], i) == Quad4(r)
      ensures forall j :: 0 <= j < 17 && j != i ==> KeyAt(rk[..], j) == old(KeyAt(rk[..], j))
    {
      hide ColOf;
      rk[4 * i] := r.w0;
      rk[4 * i + 1] := r.w1;
      rk[4 * i + 2] := r.w2;
      rk[4 * i + 3] := r.w3;
    }

    /** mbedtls_aria_setkey_enc. */
    method SetKeyEnc(key: array<byte>, keybits: int) returns (ret: Status)
      requires rk.Length == 68
      requires keybits in {128, 192, 256} ==> key.Length == keybits / 8
      modifies this`nr, rk
      ensures ret == (if keybits in {128, 192, 256} then Success else BadInputData)
      ensures ret.BadInputData? ==> nr == old(nr) && rk[..] == old(rk[..])
      ensures ret.Success? ==> nr == 12 + 2 * ((keybits - 128) / 64)
      ensures ret.Success? ==> IsSchedule(rk[..], key[..])
    {
      hide Quad4, KeyDone, Expand, KeyLeft, KeyRight;
      if keybits != 128 && keybits != 192 && keybits != 256 {
        return BadInputData;
      }
      var w0, w1 := SplitKey(key);
      var i := (keybits - 128) / 64;
      nr := 12 + 2 * i;
      ghost var w := Expand(Quad4(w0), Quad4(w1), i);
      var w2, w3;
      w1, w2, w3 := ExpandWords(w0, w1, i);
      FillKeys(w0, w1, w2, w3, w);
      ret := Success;
      assert w == Expand(KeyLeft(key[..]), KeyRight(key[..]), SizeOf(key[..]));
    }

    /** The loop that creates the round keys. */
    method FillKeys(w0: W4, w1: W4, w2: W4, w3: W4, ghost w: seq<Quad>)
      requires rk.Length == 68 && w == [Quad4(w0), Quad4(w1), Quad4(w2), Quad4(w3)]
      modifies rk
      ensures forall m :: 0 <= m < 17 ==> KeyDone(rk[..], w, m)
    {
      hide Quad4, KeyDone;
      for j := 0 to 4
        invariant forall m :: 0 <= m < 16 && m % 4 < j ==> KeyDone(rk[..], w, m)
      {
        PutFour(PickW(w0, w1, w2, w3, j), PickW(w0, w1, w2, w3, (j + 1) % 4), j, w);
      }
      PutRotated(w0, w1, 16, 19, w);
    }

    /** The four round keys of one turn. */
    method PutFour(left: W4, right: W4, j: nat, ghost w: seq<Quad>)
      requires rk.Length == 68 && j < 4 && |w| == 4
      requires Quad4(left) == w[j] && Quad4(right) == w[(j + 1) % 4]
      modifies rk
      ensures KeyDone(rk[..], w, j) && KeyDone(rk[..], w, j + 4)
      ensures KeyDone(rk[..], w, j + 8) && KeyDone(rk[..], w, j + 12)
      ensures forall i :: 0 <= i < 17 && old(KeyDone(rk[..], w, i)) ==> KeyDone(rk[..], w, i)
    {
      hide Quad4, KeyDone;
      PutRotated(left, right, j, 128 - 19, w);
      PutRotated(left, right, j + 4, 128 - 31, w);
      PutRotated(left, right, j + 8, 61, w);
      PutRotated(left, right, j + 12, 31, w);
    }

    method PutRotated(left: W4, right: W4, i: nat, n: byte, ghost w: seq<Quad>)
      requires rk.Length == 68 && i < 17 && |w| == 4 && n == KeyRotation(i)
      requires Quad4(left) == w[i % 4] && Quad4(right) == w[(i + 1) % 4]
      modifies rk
      ensures KeyDone(rk[..], w, i)
      ensures forall j :: 0 <= j < 17 && old(KeyDone(rk[..], w, j)) ==> KeyDone(rk[..], w, j)
    {
      hide Quad4, BeQuad, Rotl, Xor128, Rotated, BigEndian, XorW4, KeyAt;
      var r := Rot128(left, right, n);
      RotatedIsRotation(left, right, n);
      PutKey(i, r);
    }

    /** mbedtls_aria_setkey_dec: the encryption schedule flipped in place, then aria_a on the inner keys. */
    method SetKeyDec(key: array<byte>, keybits: int) returns (ret: Status)
      requires rk.Length == 68
      requires keybits in {128, 192, 256} ==> key.Length == keybits / 8
      modifies this`nr, rk
      ensures ret == (if keybits in {128, 192, 256} then Success else BadInputData)
      ensures ret.BadInputData? ==> nr == old(nr) && rk[..] == old(rk[..])
      ensures ret.Success? ==> Usable() && nr == 12 + 2 * ((keybits - 128) / 64)
      ensures ret.Success? ==>
                exists ek :: |ek| == 68 && IsSchedule(ek, key[..]) && RoundKeys() == DecryptionKeys(Keys(ek, nr))
    {
      ret := SetKeyEnc(key, keybits);
      if ret != Success {
        return;
      }
      ghost var ek := rk[..];
      Flip();
      DiffuseInner(Keys(ek, nr));
      assert IsSchedule(ek, key[..]);
    }

    /** The first loop: round keys i and nr - i are exchanged word by word. */
    method Flip()
      requires Usable()
      modifies rk
      ensures forall i :: 0 <= i <= nr ==> KeyAt(rk[..], i) == old(KeyAt(rk[..], nr - i))
    {
      hide KeyAt;
      var i, j := 0, nr;
      while i < j
        invariant i + j == nr && i <= j + 1
        invariant forall m :: 0 <= m <= nr ==>
                    KeyAt(rk[..], m) == old(if m < i || m > j then KeyAt(rk[..], nr - m) else KeyAt(rk[..], m))
      {
        SwapKeys(i, j);
        i, j := i + 1, j - 1;
      }
    }

    method SwapKeys(i: nat, j: nat)
      requires rk.Length == 68 && i < j < 17
      modifies rk
      ensures KeyAt(rk[..], i) == old(KeyAt(rk[..], j)) && KeyAt(rk[..], j) == old(KeyAt(rk[..], i))
      ensures forall m :: 0 <= m < 17 && m != i && m != j ==> KeyAt(rk[..], m) == old(KeyAt(rk[..], m))
    {
      hide ColOf;
      for k := 0 to 4
        invariant forall m :: 4 * i <= m < 4 * i + k ==> rk[m] == old(rk[m - 4 * i + 4 * j])
        invariant forall m :: 4 * j <= m < 4 * j + k ==> rk[m] == old(rk[m - 4 * j + 4 * i])
        invariant forall m :: 0 <= m < 68 && !(4 * i <= m < 4 * i + k) && !(4 * j <= m < 4 * j + k) ==>
                    rk[m] == old(rk[m])
      {
        var t := rk[4 * i + k];
        rk[4 * i + k] := rk[4 * j + k];
        rk[4 * j + k] := t;
      }
    }

    /** The second loop: aria_a on the middle keys. */
    method DiffuseInner(ghost k: seq<Quad>)
      requires Usable() && |k| == nr + 1
      requires forall i :: 0 <= i <= nr ==> KeyAt(rk[..], i) == k[nr - i]
      modifies rk
      ensures RoundKeys() == DecryptionKeys(k)
    {
      hide KeyAt, Diffuse;
      for i := 1 to nr
        invariant forall m :: 0 <= m <= nr ==>
                    KeyAt(rk[..], m) == if 0 < m < i then Diffuse(k[nr - m]) else k[nr - m]
      {
        var w := GetKey(i);
        var a, b, c, d := AriaA(w.w0, w.w1, w.w2, w.w3);
        PutKey(i, W4(a, b, c, d));
      }
      assert RoundKeys() == DecryptionKeys(k);
    }

    method GetKey(i: nat) returns (w: W4)
      requires rk.Length == 68 && i < 17
      ensures Quad4(w) == KeyAt(rk[..], i)
    {
      w := W4(rk[4 * i], rk[4 * i + 1], rk[4 * i + 2], rk[4 * i + 3]);
    }
  }

  function SizeOf(key: seq<byte>): nat
    requires |key| in {16, 24, 32}
  {
    (|key| - 16) / 8
  }

  /** The first 17 round keys of the buffer are ek1 .. ek17 of the key. */
  ghost predicate IsSchedule(rk: seq<word>, key: seq<byte>) {
    && |rk| == 68 && |key| in {16, 24, 32}
    && var w := Expand(KeyLeft(key), KeyRight(key), SizeOf(key));
       forall i :: 0 <= i < 17 ==> KeyDone(rk, w, i)
  }

  function PickW(w0: W4, w1: W4, w2: W4, w3: W4, i: nat): W4
    requires i < 4
  {
    if i == 0 then w0 else if i == 1 then w1 else if i == 2 then w2 else w3
  }

  /** W1, W2 and W3 from W0 and the right half of the key. */
  method ExpandWords(w0: W4, kr: W4, size: nat) returns (w1: W4, w2: W4, w3: W4)
    requires size <= 2
    ensures [Quad4(w0), Quad4(w1), Quad4(w2), Quad4(w3)] == Expand(Quad4(w0), Quad4(kr), size)
  {
    hide Quad4, RcWords, RoundConstant, Diffuse, Subst, XorQuad;
    var i := size;
    ConstantAt(i, size);
    w1 := RoundXor(w0, RcWords(i), kr, SL1);
    i := if i < 2 then i + 1 else 0;
    ConstantAt(i, size + 1);
    w2 := RoundXor(w1, RcWords(i), w0, SL2);
    i := if i < 2 then i + 1 else 0;
    ConstantAt(i, size + 2);
    w3 := RoundXor(w2, RcWords(i), w1, SL1);
  }

  lemma ConstantAt(i: nat, n: nat)
    requires i == n % 3
    ensures Quad4(RcWords(i)) == RoundConstant(n)
  {
    hide Quad4, C1, C2, C3;
    RcWordsConstant(i);
  }

  /** The key halves as words, the right one padded with zeros. */
  method SplitKey(key: array<byte>) returns (w0: W4, w1: W4)
    requires key.Length in {16, 24, 32}
    ensures Quad4(w0) == KeyLeft(key[..]) && Quad4(w1) == KeyRight(key[..])
  {
    hide ByteCols;
    w0 := LoadW4(key[..16]);
    w1 := LoadW4((key[16..] + seq(16, _ => 0 as byte))[..16]);
    assert key[..][..16] == key[..16] && key[..][16..] == key[16..];
  }

  function LoadWords(b: seq<byte>): W4
    requires |b| == 16
  {
    W4(Word(b[0], b[1], b[2], b[3]), Word(b[4], b[5], b[6], b[7]),
       Word(b[8], b[9], b[10], b[11]), Word(b[12], b[13], b[14], b[15]))
  }

  method LoadW4(b: seq<byte>) returns (w: W4)
    requires |b| == 16
    ensures Quad4(w) == ByteCols(b)
  {
    hide ColOf, Word;
    w := LoadWords(b);
    ColOfWordOf(Col(b[0], b[1], b[2], b[3]));
    ColOfWordOf(Col(b[4], b[5], b[6], b[7]));
    ColOfWordOf(Col(b[8], b[9], b[10], b[11]));
    ColOfWordOf(Col(b[12], b[13], b[14], b[15]));
  }

  method StoreW4(w: W4, output: array<byte>)
    requires output.Length == 16
    modifies output
    ensures output[..] == QuadBytes(Quad4(w))
  {
    hide Byte0, Byte1, Byte2, Byte3;
    var bytes := QuadBytes(Quad4(w));
    for i := 0 to 16
      invariant output[..i] == bytes[..i]
    {
      output[i] := bytes[i];
    }
  }

  // ---- a schedule is determined by its key ----

  lemma BeWordInjective(c: Col, d: Col)
    requires BeWord(c) == BeWord(d)
    ensures c == d
  {}

  lemma Be128Injective(a: bv32, b: bv32, c: bv32, d: bv32, a': bv32, b': bv32, c': bv32, d': bv32)
    requires Be128(a, b, c, d) == Be128(a', b', c', d')
    ensures a == a' && b == b' && c == c' && d == d'
  {}

  lemma BeQuadInjective(x: Quad, y: Quad)
    requires BeQuad(x) == BeQuad(y)
    ensures x == y
  {
    hide BeWord, Be128;
    Be128Injective(BeWord(x.a), BeWord(x.b), BeWord(x.c), BeWord(x.d),
                   BeWord(y.a), BeWord(y.b), BeWord(y.c), BeWord(y.d));
    BeWordInjective(x.a, y.a);
    BeWordInjective(x.b, y.b);
    BeWordInjective(x.c, y.c);
    BeWordInjective(x.d, y.d);
  }

  lemma ScheduleUnique(rk: seq<word>, rk': seq<word>, key: seq<byte>, nr: nat)
    requires IsSchedule(rk, key) && IsSchedule(rk', key) && nr <= 16
    ensures Keys(rk, nr) == Keys(rk', nr)
  {
    hide BeQuad, RoundKey, Expand, KeyLeft, KeyRight, KeyAt;
    var w := Expand(KeyLeft(key), KeyRight(key), SizeOf(key));
    forall i | 0 <= i <= nr
      ensures KeyAt(rk, i) == KeyAt(rk', i)
    {
      assert KeyDone(rk, w, i) && KeyDone(rk', w, i);
      BeQuadInjective(KeyAt(rk, i), KeyAt(rk', i));
    }
  }

  lemma QuadBytesCols(x: Quad)
    ensures ByteCols(QuadBytes(x)) == x
  {}

  lemma ByteColsBytes(b: seq<byte>)
    requires |b| == 16
    ensures QuadBytes(ByteCols(b)) == b
  {}

  /** The whole path through the code: for every supported key and every block, in place, the same
      block routine under the two key schedules restores the block. */
  method EncryptThenDecrypt(key: array<byte>, block: array<byte>)
    requires key.Length in {16, 24, 32} && block.Length == 16 && block != key
    modifies block
    ensures block[..] == old(block[..])
  {
    hide ByteCols, QuadBytes, Crypt, DecryptionKeys, IsSchedule, Keys;
    var enc := new AriaContext();
    var dec := new AriaContext();
    var r := enc.SetKeyEnc(key, 8 * key.Length);
    var r' := dec.SetKeyDec(key, 8 * key.Length);
    ghost var ek :| |ek| == 68 && IsSchedule(ek, key[..]) && dec.RoundKeys() == DecryptionKeys(Keys(ek, dec.nr));
    ScheduleUnique(enc.rk[..], ek, key[..], dec.nr);
    ghost var k, x := enc.RoundKeys(), ByteCols(block[..]);
    ByteColsBytes(block[..]);
    QuadBytesCols(Crypt(k, x));
    CryptUndoesCrypt(k, x);
    enc.CryptEcb(block, block);
    dec.CryptEcb(block, block);
  }
}
