/** What a Base64 text stands for: the alphabet, a group of digits as a number, and the texts without gaps that the
    decoder accepts. */
module Base64Text {
  import opened Bytes
  import opened Words
  import opened Base64

  /** The digits of a group are those of its 24-bit number in base 64, most significant first. */
  lemma GroupIsNumber(c1: byte, c2: byte, c3: byte)
    ensures var g := Group(c1, c2, c3);
            ((DecValue(g[0]) as word) * 262144 + (DecValue(g[1]) as word) * 4096
             + (DecValue(g[2]) as word) * 64 + (DecValue(g[3]) as word)
          == (c1 as word) * 65536 + (c2 as word) * 256 + (c3 as word))
  {
    hide DecValue, EncChar, Sextet1, Sextet2, Sextet3, Sextet4;
    SextetsAreSmall(c1, c2, c3);
    DigitOfValue(Sextet1(c1));
    DigitOfValue(Sextet2(c1, c2));
    DigitOfValue(Sextet3(c2, c3));
    DigitOfValue(Sextet4(c3));
    SextetNumber(c1, c2, c3);
  }

  lemma SextetNumber(c1: byte, c2: byte, c3: byte)
    ensures (Sextet1(c1) as word) * 262144 + (Sextet2(c1, c2) as word) * 4096
            + (Sextet3(c2, c3) as word) * 64 + (Sextet4(c3) as word)
         == (c1 as word) * 65536 + (c2 as word) * 256 + (c3 as word)
  {}

  // ---- the alphabet ----

  // The 48 bytes whose digits have the values 0 to 63.
  const BYTES1: seq<byte> := [0x00, 0x10, 0x83, 0x10, 0x51, 0x87, 0x20, 0x92, 0x8B, 0x30, 0xD3, 0x8F]
  const BYTES2: seq<byte> := [0x41, 0x14, 0x93, 0x51, 0x55, 0x97, 0x61, 0x96, 0x9B, 0x71, 0xD7, 0x9F]
  const BYTES3: seq<byte> := [0x82, 0x18, 0xA3, 0x92, 0x59, 0xA7, 0xA2, 0x9A, 0xAB, 0xB2, 0xDB, 0xAF]
  const BYTES4: seq<byte> := [0xC3, 0x1C, 0xB3, 0xD3, 0x5D, 0xB7, 0xE3, 0x9E, 0xBB, 0xF3, 0xDF, 0xBF]

  // The alphabet of table 1 of RFC 4648, in ASCII: ABCDEFGHIJKLMNOPQRSTUVWXYZ,
  // abcdefghijklmnopqrstuvwxyz, 0123456789, + and /.
  const LETTERS1: seq<byte> := [65, 66, 67, 68, 69, 70, 71, 72, 73, 74, 75, 76, 77, 78, 79, 80]
  const LETTERS2: seq<byte> := [81, 82, 83, 84, 85, 86, 87, 88, 89, 90, 97, 98, 99, 100, 101, 102]
  const LETTERS3: seq<byte> := [103, 104, 105, 106, 107, 108, 109, 110, 111, 112, 113, 114, 115, 116, 117, 118]
  const LETTERS4: seq<byte> := [119, 120, 121, 122, 48, 49, 50, 51, 52, 53, 54, 55, 56, 57, 43, 47]

  lemma TwoGroups(a1: byte, a2: byte, a3: byte, b1: byte, b2: byte, b3: byte)
    ensures Encode([a1, a2, a3, b1, b2, b3]) == Group(a1, a2, a3) + Group(b1, b2, b3)
  {
    hide Group, Encode;
    EncodeGroup(a1, a2, a3);
    EncodeGroup(b1, b2, b3);
    EncodeAppend([a1, a2, a3], [b1, b2, b3]);
    assert [a1, a2, a3, b1, b2, b3] == [a1, a2, a3] + [b1, b2, b3];
  }

  lemma FourGroups(b: seq<byte>)
    requires |b| == 12
    ensures Encode(b) == (Group(b[0], b[1], b[2]) + Group(b[3], b[4], b[5]))
                         + (Group(b[6], b[7], b[8]) + Group(b[9], b[10], b[11]))
  {
    hide Group, Encode;
    var left, right := [b[0], b[1], b[2], b[3], b[4], b[5]], [b[6], b[7], b[8], b[9], b[10], b[11]];
    TwoGroups(b[0], b[1], b[2], b[3], b[4], b[5]);
    TwoGroups(b[6], b[7], b[8], b[9], b[10], b[11]);
    EncodeAppend(left, right);
    assert b == left + right;
  }

  lemma FirstLetters()
    ensures Encode(BYTES1) == LETTERS1
  {
    hide Encode;
    FourGroups(BYTES1);
  }

  lemma SecondLetters()
    ensures Encode(BYTES2) == LETTERS2
  {
    hide Encode;
    FourGroups(BYTES2);
  }

  lemma ThirdLetters()
    ensures Encode(BYTES3) == LETTERS3
  {
    hide Encode;
    FourGroups(BYTES3);
  }

  lemma FourthLetters()
    ensures Encode(BYTES4) == LETTERS4
  {
    hide Encode;
    FourGroups(BYTES4);
  }

  /** The digits of the values 0 to 63, in this order, are the alphabet. */
  lemma WholeAlphabet()
    ensures Encode(BYTES1 + BYTES2 + BYTES3 + BYTES4) == LETTERS1 + LETTERS2 + LETTERS3 + LETTERS4
  {
    hide Encode, LETTERS1, LETTERS2, LETTERS3, LETTERS4;
    FirstLetters();
    SecondLetters();
    ThirdLetters();
    FourthLetters();
    EncodeAppend(BYTES1, BYTES2);
    EncodeAppend(BYTES1 + BYTES2, BYTES3);
    EncodeAppend(BYTES1 + BYTES2 + BYTES3, BYTES4);
  }

  /** Texts with padding, section 10 of RFC 4648: f is Zg==, fo is Zm8= and foo is Zm9v. */
  lemma PaddedTexts()
    ensures Encode([102]) == [90, 103, 61, 61]
    ensures Encode([102, 111]) == [90, 109, 56, 61]
    ensures Encode([102, 111, 111]) == [90, 109, 57, 118]
  {
    hide Encode;
    EncodeGroup(102, 111, 111);
    EncodeGroup(102, 111, 0);
    EncodeGroup(102, 0, 0);
  }

  // ---- the texts accepted ----

  /** A letter, a figure, + or /. */
  predicate Letter(c: byte) {
    65 <= c <= 90 || 97 <= c <= 122 || 48 <= c <= 57 || c == 43 || c == 47
  }

  lemma LettersAreDigits(c: byte)
    ensures Letter(c) <==> IsDigit(c)
    ensures Letter(c) ==> c <= 127 && c != 61
  {}

  predicate NoGaps(text: seq<byte>) { forall i :: 0 <= i < |text| ==> text[i] != 32 && text[i] != 13 && text[i] != 10 }

  /** k letters, and after them nothing but = characters. */
  predicate LettersThenPads(text: seq<byte>, k: nat) {
    && k <= |text|
    && (forall i :: 0 <= i < k ==> Letter(text[i]))
    && (forall i :: k <= i < |text| ==> text[i] == 61)
  }

  lemma ScanSymbol(text: seq<byte>, n: nat, e: nat)
    requires text != [] && NoGaps(text)
    ensures Scan(text, false, n, e) ==
              if text[0] == 61 then if e + 1 > 2 then Invalid else Scan(text[1..], false, n + 1, e + 1)
              else if e != 0 || !Letter(text[0]) then Invalid
              else Scan(text[1..], false, n + 1, e)
  {
    hide IsDigit, Letter;
    LettersAreDigits(text[0]);
  }

  /** A text without gaps is accepted exactly when it is letters followed by at most two = characters. */
  lemma AcceptedIff(text: seq<byte>)
    requires NoGaps(text)
    ensures Scan(text, false, 0, 0).Valid? <==>
              exists k :: 0 <= k <= |text| && LettersThenPads(text, k) && |text| - k <= 2
    ensures forall k :: 0 <= k <= |text| && LettersThenPads(text, k) && |text| - k <= 2 ==>
                          Scan(text, false, 0, 0) == Valid(|text|, |text| - k)
  {
    hide Scan, LettersThenPads;
    forall k | 0 <= k <= |text| && LettersThenPads(text, k) && |text| - k <= 2
      ensures Scan(text, false, 0, 0) == Valid(|text|, |text| - k)
    {
      ShapeAccepted(text, k, 0, 0);
    }
    if Scan(text, false, 0, 0).Valid? {
      var k := AcceptedShape(text, 0, 0);
    }
  }

  lemma {:induction false} ShapeAccepted(text: seq<byte>, k: nat, n: nat, e: nat)
    requires NoGaps(text) && LettersThenPads(text, k) && |text| - k + e <= 2 && (e > 0 ==> k == 0)
    ensures Scan(text, false, n, e) == Valid(n + |text|, |text| - k + e)
    decreases |text|
  {
    hide Scan, Letter;
    if text == [] {
      ScanEnd(false, n, e);
    } else {
      ScanSymbol(text, n, e);
      if k > 0 {
        LettersAreDigits(text[0]);
        ShapeAccepted(text[1..], k - 1, n + 1, e);
      } else {
        ShapeAccepted(text[1..], 0, n + 1, e + 1);
      }
    }
  }

  lemma {:induction false} AcceptedShape(text: seq<byte>, n: nat, e: nat) returns (k: nat)
    requires NoGaps(text) && Scan(text, false, n, e).Valid? && e <= 2
    ensures k <= |text| && LettersThenPads(text, k) && |text| - k + e <= 2 && (e > 0 ==> k == 0)
    decreases |text|
  {
    hide Scan, Letter;
    if text == [] {
      k := 0;
    } else {
      ScanSymbol(text, n, e);
      if text[0] == 61 {
        k := AcceptedShape(text[1..], n + 1, e + 1);
        k := 0;
      } else {
        k := AcceptedShape(text[1..], n + 1, e);
        k := k + 1;
      }
    }
  }

  // ---- the bytes of four symbols ----

  /** The value of a symbol; padding stands for 0. */
  function SymbolValue(c: byte): word { if c == 61 then 0 else DecValue(c) as word }

  /** Four values below 64 as a number. */
  function Number(v1: word, v2: word, v3: word, v4: word): word { v1 * 262144 + v2 * 4096 + v3 * 64 + v4 }

  function Pushed(x: word, v: word): word { (x << 6) | v }

  lemma PushedNumber(x: word, v1: word, v2: word, v3: word, v4: word)
    requires v1 < 64 && v2 < 64 && v3 < 64 && v4 < 64
    ensures var y := Pushed(Pushed(Pushed(Pushed(x, v1), v2), v3), v4);
            var v := Number(v1, v2, v3, v4);
            Byte2(y) == Byte2(v) && Byte1(y) == Byte1(v) && Byte0(y) == Byte0(v)
  {}

  lemma SymbolIsSmall(c: byte)
    requires Letter(c) || c == 61
    ensures SymbolValue(c) < 64 && !IsGap(c)
  {}

  lemma PushSymbol(x: word, c: byte)
    ensures Push(x, c) == Pushed(x, SymbolValue(c))
  {}

  lemma EmitIs(x: word, equals: nat)
    requires equals <= 2
    ensures Emit(x, equals) == [Byte2(x), Byte1(x), Byte0(x)][..3 - equals]
  {}

  /** Four symbols, the first two of them digits, give the first bytes of their 24-bit number, one less for each
      padding character, whatever the unused bits of the last digit are. */
  lemma FourSymbols(d: Decoder, a: byte, b: byte, c: byte, e: byte)
    requires d.digits == 0 && d.equals == 0
    requires Letter(a) && Letter(b) && (Letter(c) || c == 61) && (Letter(e) || e == 61) && (c == 61 ==> e == 61)
    ensures var v := Number(SymbolValue(a), SymbolValue(b), SymbolValue(c), SymbolValue(e));
            var bytes := [Byte2(v), Byte1(v), Byte0(v)];
            RunFrom(d, [a, b, c, e]).out == d.out + bytes[..if c == 61 then 1 else if e == 61 then 2 else 3]
  {
    hide Push, Pushed, Number, Emit, SymbolValue, IsGap, Byte0, Byte1, Byte2, RunFrom, Letter;
    SymbolIsSmall(a);
    SymbolIsSmall(b);
    SymbolIsSmall(c);
    SymbolIsSmall(e);
    LettersAreDigits(a);
    LettersAreDigits(b);
    RunFour(d, a, b, c, e);
    var x1 := Push(d.x, a);
    var x2 := Push(x1, b);
    var x3 := Push(x2, c);
    var x4 := Push(x3, e);
    PushSymbol(d.x, a);
    PushSymbol(x1, b);
    PushSymbol(x2, c);
    PushSymbol(x3, e);
    PushedNumber(d.x, SymbolValue(a), SymbolValue(b), SymbolValue(c), SymbolValue(e));
    EmitIs(x4, (if c == 61 then 1 else 0) + (if e == 61 then 1 else 0));
  }
}
