/** Known answers of ARIA, for the keys and the block of appendix A of RFC 5794, the first self-test of aria.c. */
module AriaVectors {
  import opened Bytes
  import opened Words
  import opened AriaDiffusion
  import opened Aria
  import opened AriaContext

  /** Four words in hexadecimal as a block, first byte first. */
  function Q(x: W4): Quad { Quad(C(x.w0), C(x.w1), C(x.w2), C(x.w3)) }

  const LEFT: seq<byte> :=
    [0x00, 0x01, 0x02, 0x03, 0x04, 0x05, 0x06, 0x07, 0x08, 0x09, 0x0A, 0x0B, 0x0C, 0x0D, 0x0E, 0x0F]

  function Right(size: nat): seq<byte>
    requires size <= 2
  {
    if size == 0 then [] else if size == 1 then [0x10, 0x11, 0x12, 0x13, 0x14, 0x15, 0x16, 0x17]
    else [0x10, 0x11, 0x12, 0x13, 0x14, 0x15, 0x16, 0x17, 0x18, 0x19, 0x1A, 0x1B, 0x1C, 0x1D, 0x1E, 0x1F]
  }

  /** The 128-, 192- and 256-bit key: the bytes 0, 1, 2 and so on. */
  function Key(size: nat): (key: seq<byte>)
    requires size <= 2
    ensures |key| == 16 + 8 * size && key[..16] == LEFT && key[16..] == Right(size)
  {
    LEFT + Right(size)
  }

  const PLAIN: seq<byte> :=
    [0x00, 0x11, 0x22, 0x33, 0x44, 0x55, 0x66, 0x77, 0x88, 0x99, 0xAA, 0xBB, 0xCC, 0xDD, 0xEE, 0xFF]

  const CODED: seq<byte> :=
    [0xD7, 0x18, 0xFB, 0xD6, 0xAB, 0x64, 0x4C, 0x73,
     0x9D, 0xA9, 0x5F, 0x3B, 0xE6, 0x45, 0x17, 0x78]

  // ---- the expansion of the key ----

  lemma Constants()
    ensures C1 == Q(W4(0x517CC1B7, 0x27220A94, 0xFE13ABE8, 0xFA9A6EE0))
    ensures C2 == Q(W4(0x6DB14ACC, 0x9E21C820, 0xFF28B1D5, 0xEF5DE2B0))
    ensures C3 == Q(W4(0xDB92371D, 0x2126E970, 0x03249775, 0x04E8C90E))
  {}

  lemma Word1Of128()
    ensures XorQuad(RoundOdd(Q(W4(0x00010203, 0x04050607, 0x08090A0B, 0x0C0D0E0F)),
                            Q(W4(0x517CC1B7, 0x27220A94, 0xFE13ABE8, 0xFA9A6EE0))),
                    Q(W4(0x00000000, 0x00000000, 0x00000000, 0x00000000)))
         == Q(W4(0x2AFBEA74, 0x1E1746DD, 0x55C63BA1, 0xAFCEA0A5))
  {}

  lemma Word2Of128()
    ensures XorQuad(RoundEven(Q(W4(0x2AFBEA74, 0x1E1746DD, 0x55C63BA1, 0xAFCEA0A5)),
                             Q(W4(0x6DB14ACC, 0x9E21C820, 0xFF28B1D5, 0xEF5DE2B0))),
                    Q(W4(0x00010203, 0x04050607, 0x08090A0B, 0x0C0D0E0F)))
         == Q(W4(0x7C857801, 0x8BB127E0, 0x2DFE4E78, 0xC288E33C))
  {}

  lemma Word3Of128()
    ensures XorQuad(RoundOdd(Q(W4(0x7C857801, 0x8BB127E0, 0x2DFE4E78, 0xC288E33C)),
                            Q(W4(0xDB92371D, 0x2126E970, 0x03249775, 0x04E8C90E))),
                    Q(W4(0x2AFBEA74, 0x1E1746DD, 0x55C63BA1, 0xAFCEA0A5)))
         == Q(W4(0x6785B52B, 0x74DA46BF, 0x18105408, 0x2763FF6D))
  {}

  lemma Expands128()
    ensures Expand(Q(W4(0x00010203, 0x04050607, 0x08090A0B, 0x0C0D0E0F)),
                   Q(W4(0x00000000, 0x00000000, 0x00000000, 0x00000000)), 0)
         == [Q(W4(0x00010203, 0x04050607, 0x08090A0B, 0x0C0D0E0F)),
             Q(W4(0x2AFBEA74, 0x1E1746DD, 0x55C63BA1, 0xAFCEA0A5)),
             Q(W4(0x7C857801, 0x8BB127E0, 0x2DFE4E78, 0xC288E33C)),
             Q(W4(0x6785B52B, 0x74DA46BF, 0x18105408, 0x2763FF6D))]
  {
    hide Q, XorQuad, RoundOdd, RoundEven, C1, C2, C3;
    Constants();
    Word1Of128();
    Word2Of128();
    Word3Of128();
  }

  lemma Word1Of192()
    ensures XorQuad(RoundOdd(Q(W4(0x00010203, 0x04050607, 0x08090A0B, 0x0C0D0E0F)),
                            Q(W4(0x6DB14ACC, 0x9E21C820, 0xFF28B1D5, 0xEF5DE2B0))),
                    Q(W4(0x10111213, 0x14151617, 0x00000000, 0x00000000)))
         == Q(W4(0xE48C5230, 0x1E91D991, 0xB649ED7B, 0xB7CDE8AD))
  {}

  lemma Word2Of192()
    ensures XorQuad(RoundEven(Q(W4(0xE48C5230, 0x1E91D991, 0xB649ED7B, 0xB7CDE8AD)),
                             Q(W4(0xDB92371D, 0x2126E970, 0x03249775, 0x04E8C90E))),
                    Q(W4(0x00010203, 0x04050607, 0x08090A0B, 0x0C0D0E0F)))
         == Q(W4(0xA356EA6C, 0xAFE48697, 0x97A1B4EE, 0xA56D38CC))
  {}

  lemma Word3Of192()
    ensures XorQuad(RoundOdd(Q(W4(0xA356EA6C, 0xAFE48697, 0x97A1B4EE, 0xA56D38CC)),
                            Q(W4(0x517CC1B7, 0x27220A94, 0xFE13ABE8, 0xFA9A6EE0))),
                    Q(W4(0xE48C5230, 0x1E91D991, 0xB649ED7B, 0xB7CDE8AD)))
         == Q(W4(0xE1898F2E, 0x0E626CCF, 0x1F58BD50, 0x713C93BB))
  {}

  lemma Expands192()
    ensures Expand(Q(W4(0x00010203, 0x04050607, 0x08090A0B, 0x0C0D0E0F)),
                   Q(W4(0x10111213, 0x14151617, 0x00000000, 0x00000000)), 1)
         == [Q(W4(0x00010203, 0x04050607, 0x08090A0B, 0x0C0D0E0F)),
             Q(W4(0xE48C5230, 0x1E91D991, 0xB649ED7B, 0xB7CDE8AD)),
             Q(W4(0xA356EA6C, 0xAFE48697, 0x97A1B4EE, 0xA56D38CC)),
             Q(W4(0xE1898F2E, 0x0E626CCF, 0x1F58BD50, 0x713C93BB))]
  {
    hide Q, XorQuad, RoundOdd, RoundEven, C1, C2, C3;
    Constants();
    Word1Of192();
    Word2Of192();
    Word3Of192();
  }

  lemma Word1Of256()
    ensures XorQuad(RoundOdd(Q(W4(0x00010203, 0x04050607, 0x08090A0B, 0x0C0D0E0F)),
                            Q(W4(0xDB92371D, 0x2126E970, 0x03249775, 0x04E8C90E))),
                    Q(W4(0x10111213, 0x14151617, 0x18191A1B, 0x1C1D1E1F)))
         == Q(W4(0x15169E6E, 0xC54AAF0C, 0x975414FE, 0xAD1C71F3))
  {}

  lemma Word2Of256()
    ensures XorQuad(RoundEven(Q(W4(0x15169E6E, 0xC54AAF0C, 0x975414FE, 0xAD1C71F3)),
                             Q(W4(0x517CC1B7, 0x27220A94, 0xFE13ABE8, 0xFA9A6EE0))),
                    Q(W4(0x00010203, 0x04050607, 0x08090A0B, 0x0C0D0E0F)))
         == Q(W4(0x90EC92C2, 0xA800405A, 0xF99389E9, 0xC88B4E62))
  {}

  lemma Word3Of256()
    ensures XorQuad(RoundOdd(Q(W4(0x90EC92C2, 0xA800405A, 0xF99389E9, 0xC88B4E62)),
                            Q(W4(0x6DB14ACC, 0x9E21C820, 0xFF28B1D5, 0xEF5DE2B0))),
                    Q(W4(0x15169E6E, 0xC54AAF0C, 0x975414FE, 0xAD1C71F3)))
         == Q(W4(0xB68CD7A1, 0xBA16ABEE, 0x905F7009, 0xA8E968A9))
  {}

  lemma Expands256()
    ensures Expand(Q(W4(0x00010203, 0x04050607, 0x08090A0B, 0x0C0D0E0F)),
                   Q(W4(0x10111213, 0x14151617, 0x18191A1B, 0x1C1D1E1F)), 2)
         == [Q(W4(0x00010203, 0x04050607, 0x08090A0B, 0x0C0D0E0F)),
             Q(W4(0x15169E6E, 0xC54AAF0C, 0x975414FE, 0xAD1C71F3)),
             Q(W4(0x90EC92C2, 0xA800405A, 0xF99389E9, 0xC88B4E62)),
             Q(W4(0xB68CD7A1, 0xBA16ABEE, 0x905F7009, 0xA8E968A9))]
  {
    hide Q, XorQuad, RoundOdd, RoundEven, C1, C2, C3;
    Constants();
    Word1Of256();
    Word2Of256();
    Word3Of256();
  }

  /** W0 to W3 of the 128-, 192- and 256-bit key. */
  function Expanded(size: nat): seq<Quad>
    requires size <= 2
  {
    if size == 0 then
      [Q(W4(0x00010203, 0x04050607, 0x08090A0B, 0x0C0D0E0F)),
       Q(W4(0x2AFBEA74, 0x1E1746DD, 0x55C63BA1, 0xAFCEA0A5)),
       Q(W4(0x7C857801, 0x8BB127E0, 0x2DFE4E78, 0xC288E33C)),
       Q(W4(0x6785B52B, 0x74DA46BF, 0x18105408, 0x2763FF6D))]
    else if size == 1 then
      [Q(W4(0x00010203, 0x04050607, 0x08090A0B, 0x0C0D0E0F)),
       Q(W4(0xE48C5230, 0x1E91D991, 0xB649ED7B, 0xB7CDE8AD)),
       Q(W4(0xA356EA6C, 0xAFE48697, 0x97A1B4EE, 0xA56D38CC)),
       Q(W4(0xE1898F2E, 0x0E626CCF, 0x1F58BD50, 0x713C93BB))]
    else
      [Q(W4(0x00010203, 0x04050607, 0x08090A0B, 0x0C0D0E0F)),
       Q(W4(0x15169E6E, 0xC54AAF0C, 0x975414FE, 0xAD1C71F3)),
       Q(W4(0x90EC92C2, 0xA800405A, 0xF99389E9, 0xC88B4E62)),
       Q(W4(0xB68CD7A1, 0xBA16ABEE, 0x905F7009, 0xA8E968A9))]
  }

  lemma LeftHalf()
    ensures ByteCols(LEFT) == Q(W4(0x00010203, 0x04050607, 0x08090A0B, 0x0C0D0E0F))
  {}

  lemma RightHalves()
    ensures ByteCols((Right(0) + seq(16, _ => 0 as byte))[..16])
         == Q(W4(0x00000000, 0x00000000, 0x00000000, 0x00000000))
    ensures ByteCols((Right(1) + seq(16, _ => 0 as byte))[..16])
         == Q(W4(0x10111213, 0x14151617, 0x00000000, 0x00000000))
    ensures ByteCols((Right(2) + seq(16, _ => 0 as byte))[..16])
         == Q(W4(0x10111213, 0x14151617, 0x18191A1B, 0x1C1D1E1F))
  {}

  lemma KnownExpansion(size: nat)
    requires size <= 2
    ensures Expand(KeyLeft(Key(size)), KeyRight(Key(size)), SizeOf(Key(size))) == Expanded(size)
  {
    hide Q, Expand, ByteCols, LEFT;
    LeftHalf();
    RightHalves();
    Expands128();
    Expands192();
    Expands256();
  }

  // ---- the round keys ----

  /** ek1 to ek13 of the 128-bit key. */
  function Ek128(i: nat): W4
    requires i < 13
  {
    if i == 0 then W4(0xD415A75C, 0x794B85C5, 0xE0D2A0B3, 0xCB793BF6)
    else if i == 1 then W4(0x369C65E4, 0xB11777AB, 0x713A3E1E, 0x6601B8F4)
    else if i == 2 then W4(0x0368D4F1, 0x3D14497B, 0x6529AD7A, 0xC809E7D0)
    else if i == 3 then W4(0xC644552B, 0x549A263F, 0xB8D0B509, 0x06229EEC)
    else if i == 4 then W4(0x5F9C4349, 0x51F2D2EF, 0x342787B1, 0xA781794C)
    else if i == 5 then W4(0xAFEA2C0C, 0xE71DB6DE, 0x42A47461, 0xF4323C54)
    else if i == 6 then W4(0x324286DB, 0x44BA4DB6, 0xC44AC306, 0xF2A84B2C)
    else if i == 7 then W4(0x7F9FA935, 0x74D842B9, 0x101A5806, 0x3771EB7B)
    else if i == 8 then W4(0xAAB9C577, 0x31FCD213, 0xAD567745, 0x8FCFE6D4)
    else if i == 9 then W4(0x2F4423BB, 0x06465ABA, 0xDA5694A1, 0x9EB88459)
    else if i == 10 then W4(0x9F877280, 0x8F5D580D, 0x810EF8DD, 0xAC13ABEB)
    else if i == 11 then W4(0x8684946A, 0x155BE77E, 0xF8107448, 0x47E35FAD)
    else W4(0x0F0AA16D, 0xAEE61BD7, 0xDFEE5A59, 0x9970FB35)
  }

  lemma Keys128()
    ensures var a := W4(0x00010203, 0x04050607, 0x08090A0B, 0x0C0D0E0F);
            var b := W4(0x2AFBEA74, 0x1E1746DD, 0x55C63BA1, 0xAFCEA0A5);
            var c := W4(0x7C857801, 0x8BB127E0, 0x2DFE4E78, 0xC288E33C);
            var d := W4(0x6785B52B, 0x74DA46BF, 0x18105408, 0x2763FF6D);
            && XorW4(a, Turned(b, 109)) == W4(0xD415A75C, 0x794B85C5, 0xE0D2A0B3, 0xCB793BF6)
            && XorW4(b, Turned(c, 109)) == W4(0x369C65E4, 0xB11777AB, 0x713A3E1E, 0x6601B8F4)
            && XorW4(c, Turned(d, 109)) == W4(0x0368D4F1, 0x3D14497B, 0x6529AD7A, 0xC809E7D0)
            && XorW4(d, Turned(a, 109)) == W4(0xC644552B, 0x549A263F, 0xB8D0B509, 0x06229EEC)
            && XorW4(a, Turned(b, 97)) == W4(0x5F9C4349, 0x51F2D2EF, 0x342787B1, 0xA781794C)
            && XorW4(b, Turned(c, 97)) == W4(0xAFEA2C0C, 0xE71DB6DE, 0x42A47461, 0xF4323C54)
            && XorW4(c, Turned(d, 97)) == W4(0x324286DB, 0x44BA4DB6, 0xC44AC306, 0xF2A84B2C)
            && XorW4(d, Turned(a, 97)) == W4(0x7F9FA935, 0x74D842B9, 0x101A5806, 0x3771EB7B)
            && XorW4(a, Turned(b, 61)) == W4(0xAAB9C577, 0x31FCD213, 0xAD567745, 0x8FCFE6D4)
            && XorW4(b, Turned(c, 61)) == W4(0x2F4423BB, 0x06465ABA, 0xDA5694A1, 0x9EB88459)
            && XorW4(c, Turned(d, 61)) == W4(0x9F877280, 0x8F5D580D, 0x810EF8DD, 0xAC13ABEB)
            && XorW4(d, Turned(a, 61)) == W4(0x8684946A, 0x155BE77E, 0xF8107448, 0x47E35FAD)
            && XorW4(a, Turned(b, 31)) == W4(0x0F0AA16D, 0xAEE61BD7, 0xDFEE5A59, 0x9970FB35)
  {}

  lemma Keys256From12()
    ensures var a := W4(0x00010203, 0x04050607, 0x08090A0B, 0x0C0D0E0F);
            var b := W4(0x15169E6E, 0xC54AAF0C, 0x975414FE, 0xAD1C71F3);
            var c := W4(0x90EC92C2, 0xA800405A, 0xF99389E9, 0xC88B4E62);
            var d := W4(0xB68CD7A1, 0xBA16ABEE, 0x905F7009, 0xA8E968A9);
            && XorW4(a, Turned(b, 31)) == W4(0x62A45585, 0x4FAF0C78, 0x5E8732F2, 0x86864138)
            && XorW4(b, Turned(c, 31)) == W4(0x4116BE43, 0xB9836BF8, 0x7311B3CF, 0xE56A3892)
            && XorW4(c, Turned(d, 31)) == W4(0x4DE7C735, 0xE02FF85E, 0x2DE73DBD, 0x13CD25B2)
            && XorW4(d, Turned(a, 31)) == W4(0x348E54A2, 0x3E122EEB, 0x1659F70E, 0x28E9E9A8)
            && XorW4(a, Turned(b, 19)) == W4(0xF3772856, 0x7C61BCA7, 0xAFFC62E8, 0x8395A6BB)
  {}

  lemma BeQuadHex(x: W4)
    ensures BeQuad(Q(x)) == Be4(x)
  {
    hide Be128, C, BeWord;
    BeWordHex(x.w0);
    BeWordHex(x.w1);
    BeWordHex(x.w2);
    BeWordHex(x.w3);
  }

  lemma BeWordHex(w: word)
    ensures BeWord(C(w)) == w
  {}

  lemma KeyIs(w: seq<Quad>, i: nat, left: W4, right: W4, k: W4)
    requires |w| == 4 && i < 17 && w[i % 4] == Q(left) && w[(i + 1) % 4] == Q(right)
    requires XorW4(left, Turned(right, KeyRotation(i))) == k
    ensures RoundKey(w, i) == BeQuad(Q(k))
  {
    hide Q, BeQuad, Be128, Rotl, Turned, Xor128, WXor;
    var r := Turned(right, KeyRotation(i));
    BeQuadHex(left);
    BeQuadHex(right);
    BeQuadHex(k);
    RotlIsTurned(right, KeyRotation(i));
    Be128Xor(left.w0, left.w1, left.w2, left.w3, r.w0, r.w1, r.w2, r.w3);
  }

  lemma ScheduledKey(rk: seq<word>, key: seq<byte>, w: seq<Quad>, i: nat, left: W4, right: W4, k: W4)
    requires IsSchedule(rk, key) && w == Expand(KeyLeft(key), KeyRight(key), SizeOf(key))
    requires i < 17 && w[i % 4] == Q(left) && w[(i + 1) % 4] == Q(right)
    requires XorW4(left, Turned(right, KeyRotation(i))) == k
    ensures KeyAt(rk, i) == Q(k)
  {
    hide Q, BeQuad, Expand, KeyLeft, KeyRight, RoundKey, Turned, KeyRotation, XorW4, KeyAt;
    assert KeyDone(rk, w, i);
    KeyIs(w, i, left, right, k);
    BeQuadInjective(KeyAt(rk, i), Q(k));
  }

  /** Every round key of the 128-bit key. */
  lemma KnownSchedule128(rk: seq<word>)
    requires IsSchedule(rk, Key(0))
    ensures forall i :: 0 <= i <= 12 ==> KeyAt(rk, i) == Q(Ek128(i))
  {
    hide Q, KeyAt, Turned, XorW4, IsSchedule, Expand, KeyLeft, KeyRight, Key;
    var key := Key(0);
    var w := Expand(KeyLeft(key), KeyRight(key), SizeOf(key));
    KnownExpansion(0);
    Keys128();
    var a := W4(0x00010203, 0x04050607, 0x08090A0B, 0x0C0D0E0F);
    var b := W4(0x2AFBEA74, 0x1E1746DD, 0x55C63BA1, 0xAFCEA0A5);
    var c := W4(0x7C857801, 0x8BB127E0, 0x2DFE4E78, 0xC288E33C);
    var d := W4(0x6785B52B, 0x74DA46BF, 0x18105408, 0x2763FF6D);
    assert w[0] == Q(a) && w[1] == Q(b) && w[2] == Q(c) && w[3] == Q(d);
    ScheduledKey(rk, key, w, 0, a, b, Ek128(0));
    ScheduledKey(rk, key, w, 1, b, c, Ek128(1));
    ScheduledKey(rk, key, w, 2, c, d, Ek128(2));
    ScheduledKey(rk, key, w, 3, d, a, Ek128(3));
    ScheduledKey(rk, key, w, 4, a, b, Ek128(4));
    ScheduledKey(rk, key, w, 5, b, c, Ek128(5));
    ScheduledKey(rk, key, w, 6, c, d, Ek128(6));
    ScheduledKey(rk, key, w, 7, d, a, Ek128(7));
    ScheduledKey(rk, key, w, 8, a, b, Ek128(8));
    ScheduledKey(rk, key, w, 9, b, c, Ek128(9));
    ScheduledKey(rk, key, w, 10, c, d, Ek128(10));
    ScheduledKey(rk, key, w, 11, d, a, Ek128(11));
    ScheduledKey(rk, key, w, 12, a, b, Ek128(12));
  }

  /** The last five round keys of the 256-bit key, with the last two rotations. */
  lemma KnownSchedule256(rk: seq<word>)
    requires IsSchedule(rk, Key(2))
    ensures KeyAt(rk, 12) == Q(W4(0x62A45585, 0x4FAF0C78, 0x5E8732F2, 0x86864138))
    ensures KeyAt(rk, 13) == Q(W4(0x4116BE43, 0xB9836BF8, 0x7311B3CF, 0xE56A3892))
    ensures KeyAt(rk, 14) == Q(W4(0x4DE7C735, 0xE02FF85E, 0x2DE73DBD, 0x13CD25B2))
    ensures KeyAt(rk, 15) == Q(W4(0x348E54A2, 0x3E122EEB, 0x1659F70E, 0x28E9E9A8))
    ensures KeyAt(rk, 16) == Q(W4(0xF3772856, 0x7C61BCA7, 0xAFFC62E8, 0x8395A6BB))
  {
    hide Q, KeyAt, Turned, XorW4, IsSchedule, Expand, KeyLeft, KeyRight, Key;
    var w := Expand(KeyLeft(Key(2)), KeyRight(Key(2)), SizeOf(Key(2)));
    KnownExpansion(2);
    Keys256From12();
    var a := W4(0x00010203, 0x04050607, 0x08090A0B, 0x0C0D0E0F);
    var b := W4(0x15169E6E, 0xC54AAF0C, 0x975414FE, 0xAD1C71F3);
    var c := W4(0x90EC92C2, 0xA800405A, 0xF99389E9, 0xC88B4E62);
    var d := W4(0xB68CD7A1, 0xBA16ABEE, 0x905F7009, 0xA8E968A9);
    assert w[0] == Q(a) && w[1] == Q(b) && w[2] == Q(c) && w[3] == Q(d);
    ScheduledKey(rk, Key(2), w, 12, a, b,
                 W4(0x62A45585, 0x4FAF0C78, 0x5E8732F2, 0x86864138));
    ScheduledKey(rk, Key(2), w, 13, b, c,
                 W4(0x4116BE43, 0xB9836BF8, 0x7311B3CF, 0xE56A3892));
    ScheduledKey(rk, Key(2), w, 14, c, d,
                 W4(0x4DE7C735, 0xE02FF85E, 0x2DE73DBD, 0x13CD25B2));
    ScheduledKey(rk, Key(2), w, 15, d, a,
                 W4(0x348E54A2, 0x3E122EEB, 0x1659F70E, 0x28E9E9A8));
    ScheduledKey(rk, Key(2), w, 16, a, b,
                 W4(0xF3772856, 0x7C61BCA7, 0xAFFC62E8, 0x8395A6BB));
  }

  // ---- the rounds ----

  /** The block before each of the twelve rounds. */
  function State128(i: nat): W4
    requires i < 12
  {
    if i == 0 then W4(0x00112233, 0x44556677, 0x8899AABB, 0xCCDDEEFF)
    else if i == 1 then W4(0x7FC7F12B, 0xEFD0A079, 0x1DE87FA9, 0x6B469F52)
    else if i == 2 then W4(0xAC8DE17E, 0x49F7C511, 0x76189931, 0x62B189E9)
    else if i == 3 then W4(0xC3E8D59E, 0xC2E62D52, 0x49CA2741, 0x653CB7DD)
    else if i == 4 then W4(0x5D4AEBB1, 0x65E141FF, 0x759F669E, 0x1E85CC45)
    else if i == 5 then W4(0x7806E469, 0xF68874C5, 0x004B5F4A, 0x046BBCFA)
    else if i == 6 then W4(0x110F93C9, 0xA630CDD5, 0x1F97D220, 0x2413345A)
    else if i == 7 then W4(0xE054428E, 0xF088FEF9, 0x7928241C, 0xD3BE499E)
    else if i == 8 then W4(0x5734F38E, 0xA1CA3DDD, 0x102E71F9, 0x5E1D5F97)
    else if i == 9 then W4(0x4903325B, 0xE3E500CC, 0xCD52FBA4, 0x354A39AE)
    else if i == 10 then W4(0xCB8C508E, 0x2C4F8788, 0x0639DC89, 0x6D25EC9D)
    else W4(0xE7E0D245, 0x7ED73D23, 0xD4814240, 0x95AFDCA0)
  }

  lemma Rounds128From0()
    ensures RoundOdd(Q(W4(0x00112233, 0x44556677, 0x8899AABB, 0xCCDDEEFF)),
                     Q(W4(0xD415A75C, 0x794B85C5, 0xE0D2A0B3, 0xCB793BF6)))
         == Q(W4(0x7FC7F12B, 0xEFD0A079, 0x1DE87FA9, 0x6B469F52))
    ensures RoundEven(Q(W4(0x7FC7F12B, 0xEFD0A079, 0x1DE87FA9, 0x6B469F52)),
                      Q(W4(0x369C65E4, 0xB11777AB, 0x713A3E1E, 0x6601B8F4)))
         == Q(W4(0xAC8DE17E, 0x49F7C511, 0x76189931, 0x62B189E9))
    ensures RoundOdd(Q(W4(0xAC8DE17E, 0x49F7C511, 0x76189931, 0x62B189E9)),
                     Q(W4(0x0368D4F1, 0x3D14497B, 0x6529AD7A, 0xC809E7D0)))
         == Q(W4(0xC3E8D59E, 0xC2E62D52, 0x49CA2741, 0x653CB7DD))
  {}

  lemma Rounds128From3()
    ensures RoundEven(Q(W4(0xC3E8D59E, 0xC2E62D52, 0x49CA2741, 0x653CB7DD)),
                      Q(W4(0xC644552B, 0x549A263F, 0xB8D0B509, 0x06229EEC)))
         == Q(W4(0x5D4AEBB1, 0x65E141FF, 0x759F669E, 0x1E85CC45))
    ensures RoundOdd(Q(W4(0x5D4AEBB1, 0x65E141FF, 0x759F669E, 0x1E85CC45)),
                     Q(W4(0x5F9C4349, 0x51F2D2EF, 0x342787B1, 0xA781794C)))
         == Q(W4(0x7806E469, 0xF68874C5, 0x004B5F4A, 0x046BBCFA))
    ensures RoundEven(Q(W4(0x7806E469, 0xF68874C5, 0x004B5F4A, 0x046BBCFA)),
                      Q(W4(0xAFEA2C0C, 0xE71DB6DE, 0x42A47461, 0xF4323C54)))
         == Q(W4(0x110F93C9, 0xA630CDD5, 0x1F97D220, 0x2413345A))
  {}

  lemma Rounds128From6()
    ensures RoundOdd(Q(W4(0x110F93C9, 0xA630CDD5, 0x1F97D220, 0x2413345A)),
                     Q(W4(0x324286DB, 0x44BA4DB6, 0xC44AC306, 0xF2A84B2C)))
         == Q(W4(0xE054428E, 0xF088FEF9, 0x7928241C, 0xD3BE499E))
    ensures RoundEven(Q(W4(0xE054428E, 0xF088FEF9, 0x7928241C, 0xD3BE499E)),
                      Q(W4(0x7F9FA935, 0x74D842B9, 0x101A5806, 0x3771EB7B)))
         == Q(W4(0x5734F38E, 0xA1CA3DDD, 0x102E71F9, 0x5E1D5F97))
    ensures RoundOdd(Q(W4(0x5734F38E, 0xA1CA3DDD, 0x102E71F9, 0x5E1D5F97)),
                     Q(W4(0xAAB9C577, 0x31FCD213, 0xAD567745, 0x8FCFE6D4)))
         == Q(W4(0x4903325B, 0xE3E500CC, 0xCD52FBA4, 0x354A39AE))
  {}

  lemma Rounds128From9()
    ensures RoundEven(Q(W4(0x4903325B, 0xE3E500CC, 0xCD52FBA4, 0x354A39AE)),
                      Q(W4(0x2F4423BB, 0x06465ABA, 0xDA5694A1, 0x9EB88459)))
         == Q(W4(0xCB8C508E, 0x2C4F8788, 0x0639DC89, 0x6D25EC9D))
    ensures RoundOdd(Q(W4(0xCB8C508E, 0x2C4F8788, 0x0639DC89, 0x6D25EC9D)),
                     Q(W4(0x9F877280, 0x8F5D580D, 0x810EF8DD, 0xAC13ABEB)))
         == Q(W4(0xE7E0D245, 0x7ED73D23, 0xD4814240, 0x95AFDCA0))
  {}

  lemma Last128()
    ensures XorQuad(Subst(SL2, XorQuad(Q(W4(0xE7E0D245, 0x7ED73D23, 0xD4814240, 0x95AFDCA0)),
                                       Q(W4(0x8684946A, 0x155BE77E, 0xF8107448, 0x47E35FAD)))),
                    Q(W4(0x0F0AA16D, 0xAEE61BD7, 0xDFEE5A59, 0x9970FB35)))
         == Q(W4(0xD718FBD6, 0xAB644C73, 0x9DA95F3B, 0xE6451778))
  {}

  lemma NextRound(i: nat)
    requires i < 11
    ensures Diffuse(Subst(RoundBoxes(i + 1), XorQuad(Q(State128(i)), Q(Ek128(i))))) == Q(State128(i + 1))
  {
    hide Q, Diffuse, Subst, XorQuad, SL1, SL2;
    Rounds128From0();
    Rounds128From3();
    Rounds128From6();
    Rounds128From9();
  }

  lemma {:induction false} KnownRounds(k: seq<Quad>, i: nat)
    requires |k| == 13 && i <= 11 && forall j :: 0 <= j <= 12 ==> k[j] == Q(Ek128(j))
    ensures AfterRound(k, Q(State128(0)), i) == Q(State128(i))
  {
    hide Q, Ek128, State128, Diffuse, Subst, XorQuad, RoundBoxes;
    if i > 0 {
      KnownRounds(k, i - 1);
      NextRound(i - 1);
    }
  }

  lemma PlainLoaded()
    ensures ByteCols(PLAIN) == Q(W4(0x00112233, 0x44556677, 0x8899AABB, 0xCCDDEEFF))
  {}

  lemma CodedStored()
    ensures QuadBytes(Q(W4(0xD718FBD6, 0xAB644C73, 0x9DA95F3B, 0xE6451778))) == CODED
  {}

  /** The ciphertext of the block under the 128-bit key. */
  lemma KnownCipher(rk: seq<word>)
    requires IsSchedule(rk, Key(0))
    ensures QuadBytes(Crypt(Keys(rk, 12), ByteCols(PLAIN))) == CODED
  {
    hide Q, Key, CODED, PLAIN, KeyAt, ByteCols, QuadBytes, XorQuad, Subst, SL1, SL2, AfterRound;
    KnownSchedule128(rk);
    KnownRounds(Keys(rk, 12), 11);
    Last128();
    PlainLoaded();
    CodedStored();
  }

  /** The whole path through the code: the key set up and the block encrypted in place. */
  method EncryptExample() returns (coded: seq<byte>)
    ensures coded == CODED
  {
    hide IsSchedule, Crypt, ByteCols, QuadBytes, Keys;
    var key := new byte[16](i requires 0 <= i < 16 => LEFT[i]);
    var block := new byte[16](i requires 0 <= i < 16 => PLAIN[i]);
    assert key[..] == Key(0) && block[..] == PLAIN;
    var aria := new AriaContext();
    var ret := aria.SetKeyEnc(key, 128);
    KnownCipher(aria.rk[..]);
    aria.CryptEcb(block, block);
    coded := block[..];
  }
}
