/** Base64, mbedtls_base64_encode and mbedtls_base64_decode; section 4 of RFC 4648. */
module Base64 {
  import opened Bytes
  import opened Words
  import ByteStream

  const SPACE: byte := 32
  const CR: byte := 13
  const LF: byte := 10
  const PAD: byte := 61

  /** mbedtls_ct_base64_enc_char: the alphabet. */
  function EncChar(v: byte): byte {
    if v <= 25 then v + 65
    else if v <= 51 then v - 26 + 97
    else if v <= 61 then v - 52 + 48
    else if v == 62 then 43
    else if v == 63 then 47
    else 0
  }

  /** mbedtls_ct_base64_dec_value: the value of a digit, 255 (-1 as signed char) for anything else. */
  function DecValue(c: byte): byte {
    if 65 <= c <= 90 then c - 65
    else if 97 <= c <= 122 then c - 97 + 26
    else if 48 <= c <= 57 then c - 48 + 52
    else if c == 43 then 62
    else if c == 47 then 63
    else 255
  }

  predicate IsDigit(c: byte) { DecValue(c) < 128 }
  predicate IsGap(c: byte) { c == CR || c == LF || c == SPACE }

  lemma DigitOfValue(v: byte)
    requires v < 64
    ensures DecValue(EncChar(v)) == v && IsDigit(EncChar(v))
    ensures !IsGap(EncChar(v)) && EncChar(v) != PAD && EncChar(v) <= 127
  {}

  lemma ValueOfDigit(c: byte)
    requires IsDigit(c)
    ensures DecValue(c) < 64 && EncChar(DecValue(c)) == c && !IsGap(c) && c != PAD
  {}

  // ---- encoding ----

  // The four digits of three bytes.
  function Sextet1(c1: byte): byte { (c1 >> 2) & 0x3F }
  function Sextet2(c1: byte, c2: byte): byte { (((c1 & 3) << 4) + (c2 >> 4)) & 0x3F }
  function Sextet3(c2: byte, c3: byte): byte { (((c2 & 15) << 2) + (c3 >> 6)) & 0x3F }
  function Sextet4(c3: byte): byte { c3 & 0x3F }

  function Group(c1: byte, c2: byte, c3: byte): (r: seq<byte>)
    ensures |r| == 4
  {
    [EncChar(Sextet1(c1)), EncChar(Sextet2(c1, c2)), EncChar(Sextet3(c2, c3)), EncChar(Sextet4(c3))]
  }

  /** Groups of three bytes; a group of one or two is completed with zero bits and padded. */
  function Encode(s: seq<byte>): (r: seq<byte>)
    ensures |r| == 4 * ((|s| + 2) / 3)
  {
    if |s| == 0 then []
    else if |s| == 1 then Group(s[0], 0, 0)[..2] + [PAD, PAD]
    else if |s| == 2 then Group(s[0], s[1], 0)[..3] + [PAD]
    else Group(s[0], s[1], s[2]) + Encode(s[3..])
  }

  // ---- decoding, second pass ----

  /** The accumulator, the digits in it, the padding seen so far and the bytes written. */
  datatype Decoder = Decoder(x: word, digits: nat, equals: nat, out: seq<byte>)

  function Push(x: word, c: byte): word { (x << 6) | (if c == PAD then 0 else DecValue(c) as word) }

  /** The bytes a full accumulator gives. */
  function Emit(x: word, equals: nat): seq<byte> {
    [Byte2(x)] + (if equals <= 1 then [Byte1(x)] else []) + (if equals <= 0 then [Byte0(x)] else [])
  }

  function Step(d: Decoder, c: byte): Decoder {
    if IsGap(c) then d
    else
      var x, equals := Push(d.x, c), d.equals + (if c == PAD then 1 else 0);
      if d.digits + 1 == 4 then Decoder(x, 0, equals, d.out + Emit(x, equals))
      else Decoder(x, d.digits + 1, equals, d.out)
  }

  function RunFrom(d: Decoder, text: seq<byte>): Decoder
    decreases |text|
  {
    if text == [] then d else RunFrom(Step(d, text[0]), text[1..])
  }

  const EMPTY := Decoder(0, 0, 0, [])

  // ---- decoding, first pass ----

  datatype Check = Invalid | Valid(symbols: nat, equals: nat)

  /** The first pass on the rest of the text, after n symbols of which equals are padding; spaces
      says that the last character was a space. */
  function Scan(text: seq<byte>, spaces: bool, n: nat, equals: nat): Check
    decreases |text|
  {
    if text == [] then Valid(n, equals)
    else if text[0] == SPACE then Scan(text[1..], true, n, equals)
    else if |text| >= 2 && text[0] == CR && text[1] == LF then Scan(text[1..], false, n, equals)
    else if text[0] == LF then Scan(text[1..], false, n, equals)
    else if spaces || text[0] > 127 then Invalid
    else if text[0] == PAD then
      if equals + 1 > 2 then Invalid else Scan(text[1..], false, n + 1, equals + 1)
    else if equals != 0 || !IsDigit(text[0]) then Invalid
    else Scan(text[1..], false, n + 1, equals)
  }

  /** The length promised for n symbols of which equals are padding. */
  function Promised(n: nat, equals: nat): int { 6 * (n / 8) + (6 * (n % 8) + 7) / 8 - equals }

  datatype Outcome = InvalidCharacter | BufferTooSmall(need: int) | Decoded(bytes: seq<byte>)

  /** The decoder on a text; room is the destination's size, if there is a destination. */
  function Decode(text: seq<byte>, hasRoom: bool, room: nat): Outcome {
    match Scan(text, false, 0, 0)
    case Invalid => InvalidCharacter
    case Valid(n, equals) =>
      if n == 0 then Decoded([])
      else if !hasRoom || room < Promised(n, equals) then BufferTooSmall(Promised(n, equals))
      else Decoded(RunFrom(EMPTY, text).out)
  }

  // ---- round trip ----

  function PushValue(x: word, v: byte): word { (x << 6) | (v as word) }

  lemma SextetsAreSmall(c1: byte, c2: byte, c3: byte)
    ensures Sextet1(c1) < 64 && Sextet2(c1, c2) < 64 && Sextet3(c2, c3) < 64 && Sextet4(c3) < 64
    ensures Sextet3(0, 0) == 0 && Sextet4(0) == 0
  {}

  lemma PushDigit(x: word, v: byte)
    requires v < 64
    ensures Push(x, EncChar(v)) == PushValue(x, v)
    ensures Push(x, PAD) == PushValue(x, 0)
  {
    DigitOfValue(v);
    hide EncChar, DecValue;
  }

  function FourDigits(x: word, v1: byte, v2: byte, v3: byte, v4: byte): word {
    PushValue(PushValue(PushValue(PushValue(x, v1), v2), v3), v4)
  }

  lemma GroupBits(x: word, c1: byte, c2: byte, c3: byte)
    ensures var y := FourDigits(x, Sextet1(c1), Sextet2(c1, c2), Sextet3(c2, c3), Sextet4(c3));
            Byte2(y) == c1 && Byte1(y) == c2 && Byte0(y) == c3
  {}

  /** Four steps on four symbols that are no gaps, the first two of them no padding. */
  lemma RunFour(d: Decoder, a: byte, b: byte, c: byte, e: byte)
    requires d.digits == 0 && d.equals == 0
    requires !IsGap(a) && !IsGap(b) && !IsGap(c) && !IsGap(e) && a != PAD && b != PAD
    ensures var x := Push(Push(Push(Push(d.x, a), b), c), e);
            var equals := (if c == PAD then 1 else 0) + (if e == PAD then 1 else 0);
            RunFrom(d, [a, b, c, e]) == Decoder(x, 0, equals, d.out + Emit(x, equals))
  {
    hide Push, Emit, IsGap;
    var s0 := [a, b, c, e];
    var s1, s2, s3 := [b, c, e], [c, e], [e];
    assert s0[1..] == s1 && s1[1..] == s2 && s2[1..] == s3 && s3[1..] == [];
    var d1 := Decoder(Push(d.x, a), 1, 0, d.out);
    var d2 := Decoder(Push(d1.x, b), 2, 0, d.out);
    var d3 := Decoder(Push(d2.x, c), 3, if c == PAD then 1 else 0, d.out);
    assert Step(d, a) == d1 && Step(d1, b) == d2 && Step(d2, c) == d3;
    RunOne(d3, e);
    RunNext(d2, s2);
    RunNext(d1, s1);
    RunNext(d, s0);
  }

  lemma RunNext(d: Decoder, text: seq<byte>)
    requires text != []
    ensures RunFrom(d, text) == RunFrom(Step(d, text[0]), text[1..])
  {}

  lemma RunOne(d: Decoder, c: byte)
    ensures RunFrom(d, [c]) == Step(d, c)
  {
    hide Step;
    assert [c][1..] == [];
  }

  lemma {:induction false} RunAppend(d: Decoder, a: seq<byte>, b: seq<byte>)
    ensures RunFrom(d, a + b) == RunFrom(RunFrom(d, a), b)
    decreases |a|
  {
    hide Step;
    if a == [] {
      assert a + b == b;
    } else {
      RunAppend(Step(d, a[0]), a[1..], b);
      assert (a + b)[1..] == a[1..] + b;
    }
  }

  /** Whatever the accumulator held, a group of digits gives its three bytes back. */
  lemma RunGroup(d: Decoder, c1: byte, c2: byte, c3: byte)
    requires d.digits == 0 && d.equals == 0
    ensures var r := RunFrom(d, Group(c1, c2, c3));
            r.digits == 0 && r.equals == 0 && r.out == d.out + [c1, c2, c3]
    ensures c3 == 0 ==> RunFrom(d, Group(c1, c2, 0)[..3] + [PAD]).out == d.out + [c1, c2]
    ensures c2 == c3 == 0 ==> RunFrom(d, Group(c1, 0, 0)[..2] + [PAD, PAD]).out == d.out + [c1]
  {
    hide Push, PushValue, FourDigits, EncChar, DecValue, IsGap, Sextet1, Sextet2, Sextet3, Sextet4;
    hide Byte0, Byte1, Byte2, RunFrom;
    var v1, v2, v3, v4 := Sextet1(c1), Sextet2(c1, c2), Sextet3(c2, c3), Sextet4(c3);
    SextetsAreSmall(c1, c2, c3);
    DigitOfValue(v1);
    DigitOfValue(v2);
    DigitOfValue(v3);
    DigitOfValue(v4);
    RunFour(d, EncChar(v1), EncChar(v2), EncChar(v3), EncChar(v4));
    GroupPushed(d.x, c1, c2, c3);
    PadIsNoGap();
    if c3 == 0 {
      assert Group(c1, c2, 0)[..3] + [PAD] == [EncChar(v1), EncChar(v2), EncChar(v3), PAD];
      RunFour(d, EncChar(v1), EncChar(v2), EncChar(v3), PAD);
    }
    if c2 == c3 == 0 {
      assert Group(c1, 0, 0)[..2] + [PAD, PAD] == [EncChar(v1), EncChar(v2), PAD, PAD];
      RunFour(d, EncChar(v1), EncChar(v2), PAD, PAD);
    }
  }

  lemma PadIsNoGap()
    ensures !IsGap(PAD) && !IsDigit(PAD)
  {}

  /** The accumulator after a group, with padding standing for zero digits. */
  lemma GroupPushed(x: word, c1: byte, c2: byte, c3: byte)
    ensures var p := Push(Push(x, EncChar(Sextet1(c1))), EncChar(Sextet2(c1, c2)));
            var y := Push(Push(p, EncChar(Sextet3(c2, c3))), EncChar(Sextet4(c3)));
            && Byte2(y) == c1 && Byte1(y) == c2 && Byte0(y) == c3
            && (c3 == 0 ==> Push(Push(p, EncChar(Sextet3(c2, c3))), PAD) == y)
            && (c2 == c3 == 0 ==> Push(Push(p, PAD), PAD) == y)
  {
    hide Push, PushValue, FourDigits, EncChar, Sextet1, Sextet2, Sextet3, Sextet4, Byte0, Byte1, Byte2;
    var v1, v2, v3, v4 := Sextet1(c1), Sextet2(c1, c2), Sextet3(c2, c3), Sextet4(c3);
    SextetsAreSmall(c1, c2, c3);
    var p1 := PushValue(x, v1);
    var p2 := PushValue(p1, v2);
    var p3 := PushValue(p2, v3);
    PushDigit(x, v1);
    PushDigit(p1, v2);
    PushDigit(p2, v3);
    PushDigit(p3, v4);
    GroupBits(x, c1, c2, c3);
    FourDigitsAre(x, v1, v2, v3, v4);
  }

  lemma FourDigitsAre(x: word, v1: byte, v2: byte, v3: byte, v4: byte)
    ensures FourDigits(x, v1, v2, v3, v4) == PushValue(PushValue(PushValue(PushValue(x, v1), v2), v3), v4)
  {}

  /** The second pass gives back every byte string that was encoded. */
  lemma {:induction false} RunEncode(d: Decoder, s: seq<byte>)
    requires d.digits == 0 && d.equals == 0
    ensures RunFrom(d, Encode(s)).out == d.out + s
    decreases |s|
  {
    hide RunFrom, Group;
    if |s| == 0 {
      RunNothing(d);
      assert d.out + s == d.out;
    } else if |s| == 1 {
      RunGroup(d, s[0], 0, 0);
      assert s == [s[0]];
    } else if |s| == 2 {
      RunGroup(d, s[0], s[1], 0);
      assert s == [s[0], s[1]];
    } else {
      var g, rest := [s[0], s[1], s[2]], s[3..];
      RunGroup(d, s[0], s[1], s[2]);
      RunAppend(d, Group(s[0], s[1], s[2]), Encode(rest));
      RunEncode(RunFrom(d, Group(s[0], s[1], s[2])), rest);
      assert s == g + rest;
      assert d.out + (g + rest) == d.out + g + rest;
    }
  }

  lemma RunNothing(d: Decoder)
    ensures RunFrom(d, []) == d
  {}

  lemma ScanDigit(text: seq<byte>, n: nat)
    requires text != [] && IsDigit(text[0]) && text[0] <= 127
    ensures Scan(text, false, n, 0) == Scan(text[1..], false, n + 1, 0)
  {
    ValueOfDigit(text[0]);
    hide DecValue;
  }

  /** The first pass over one or two padding characters at the end. */
  lemma ScanPads(n: nat)
    ensures Scan([], false, n, 0) == Valid(n, 0)
    ensures Scan([PAD], false, n, 0) == Valid(n + 1, 1)
    ensures Scan([PAD, PAD], false, n, 0) == Valid(n + 2, 2)
  {
    assert [PAD, PAD][1..] == [PAD] && [PAD][1..] == [];
    assert Scan([PAD], false, n + 1, 1) == Valid(n + 2, 2);
  }

  lemma {:induction false} ScanDigits(text: seq<byte>, k: nat, n: nat)
    requires k <= |text| && forall i :: 0 <= i < k ==> IsDigit(text[i]) && text[i] <= 127
    ensures Scan(text, false, n, 0) == Scan(text[k..], false, n + k, 0)
    decreases k
  {
    hide Scan, IsDigit;
    if k > 0 {
      ScanDigits(text, k - 1, n);
      ScanDigit(text[k - 1..], n + k - 1);
      assert text[k - 1..][1..] == text[k..];
    } else {
      assert text[0..] == text;
    }
  }

  lemma GroupDigits(c1: byte, c2: byte, c3: byte)
    ensures forall i :: 0 <= i < 4 ==> IsDigit(Group(c1, c2, c3)[i]) && Group(c1, c2, c3)[i] <= 127
  {
    hide EncChar, IsDigit, Sextet1, Sextet2, Sextet3, Sextet4;
    SextetsAreSmall(c1, c2, c3);
    DigitOfValue(Sextet1(c1));
    DigitOfValue(Sextet2(c1, c2));
    DigitOfValue(Sextet3(c2, c3));
    DigitOfValue(Sextet4(c3));
  }

  /** How many padding characters encoding n bytes needs. */
  function Pads(n: nat): nat { (3 - n % 3) % 3 }

  /** The first pass accepts every encoding. */
  lemma {:induction false} ScanEncode(s: seq<byte>, n: nat)
    ensures Scan(Encode(s), false, n, 0) == Valid(n + |Encode(s)|, Pads(|s|))
    decreases |s|
  {
    hide Scan, Group, IsDigit;
    ScanPads(n);
    ScanPads(n + 2);
    ScanPads(n + 3);
    var text := Encode(s);
    if |s| == 1 {
      GroupDigits(s[0], 0, 0);
      ScanDigits(text, 2, n);
      assert text[2..] == [PAD, PAD];
    } else if |s| == 2 {
      GroupDigits(s[0], s[1], 0);
      ScanDigits(text, 3, n);
      assert text[3..] == [PAD];
    } else if |s| >= 3 {
      GroupDigits(s[0], s[1], s[2]);
      ScanDigits(text, 4, n);
      assert text[4..] == Encode(s[3..]);
      ScanEncode(s[3..], n + 4);
    }
  }

  // ---- the promised length ----

  /** The overflow-free formula is the six bits of every symbol rounded up to bytes, less padding. */
  lemma PromisedIsCeiling(n: nat, equals: nat)
    ensures Promised(n, equals) == (6 * n + 7) / 8 - equals
    ensures Promised(n, equals) == 3 * (n / 4) + n % 4 - equals
  {
    assert n == 8 * (n / 8) + n % 8;
    var r := n % 8;
    if r == 0 || r == 1 || r == 2 || r == 3 {
      assert n / 4 == 2 * (n / 8);
    } else {
      assert n / 4 == 2 * (n / 8) + 1;
    }
  }

  /** How many bytes the second pass has written after n symbols of which the last e are padding. */
  function Written(n: nat, e: nat): int { 3 * (n / 4) - (if e > n % 4 then e - n % 4 else 0) }

  lemma WrittenNext(n: nat, e: nat, pad: bool)
    requires e + (if pad then 1 else 0) <= 2 && (e > 0 ==> pad)
    ensures var e' := if pad then e + 1 else e;
            Written(n + 1, e') == Written(n, e) + if n % 4 == 3 then 3 - e' else 0
    ensures (n + 1) % 4 == if n % 4 == 3 then 0 else n % 4 + 1
  {}

  lemma StepCounts(d: Decoder, c: byte, n: nat)
    requires !IsGap(c) && d.digits == n % 4 && |d.out| == Written(n, d.equals)
    requires d.equals + (if c == PAD then 1 else 0) <= 2 && (d.equals > 0 ==> c == PAD)
    ensures var r := Step(d, c);
            && r.digits == (n + 1) % 4 && r.equals == d.equals + (if c == PAD then 1 else 0)
            && |r.out| == Written(n + 1, r.equals)
  {
    hide Push, Written, IsGap, Byte0, Byte1, Byte2;
    WrittenNext(n, d.equals, c == PAD);
  }

  lemma GapStep(d: Decoder, c: byte)
    requires IsGap(c)
    ensures Step(d, c) == d
  {}

  lemma SymbolIsNoGap(c: byte)
    requires c == PAD || IsDigit(c)
    ensures !IsGap(c)
  {}

  /** The two passes agree on how many symbols and how much padding there are. */
  lemma {:induction false} PassesAgree(text: seq<byte>, spaces: bool, d: Decoder, n: nat)
    requires Scan(text, spaces, n, d.equals).Valid? && d.equals <= 2
    requires d.digits == n % 4 && |d.out| == Written(n, d.equals)
    ensures var v := Scan(text, spaces, n, d.equals);
            |RunFrom(d, text).out| == Written(v.symbols, v.equals)
    decreases |text|
  {
    hide Step, Written, IsDigit;
    if text != [] {
      var c := text[0];
      if c == SPACE || c == LF || (|text| >= 2 && c == CR && text[1] == LF) {
        GapStep(d, c);
        PassesAgree(text[1..], c == SPACE, d, n);
      } else {
        SymbolIsNoGap(c);
        StepCounts(d, c, n);
        PassesAgree(text[1..], false, Step(d, c), n + 1);
      }
    }
  }

  /** On every text the first pass accepts, the second pass writes what was promised less
      max(0, n mod 4 - padding): never more, and exactly that much iff no digit of an incomplete
      group is dropped. */
  lemma WritesWithinPromise(text: seq<byte>)
    requires Scan(text, false, 0, 0).Valid?
    ensures var v := Scan(text, false, 0, 0);
            var written := |RunFrom(EMPTY, text).out|;
            && 0 <= written <= Promised(v.symbols, v.equals)
            && (written == Promised(v.symbols, v.equals) <==> v.symbols % 4 <= v.equals)
  {
    hide Scan, RunFrom, Promised;
    var v := Scan(text, false, 0, 0);
    PassesAgree(text, false, EMPTY, 0);
    PromisedIsCeiling(v.symbols, v.equals);
  }

  /** Decoding an encoding gives back every byte string, into a buffer that is just large enough;
      a smaller one is refused with the needed length. */
  lemma RoundTrip(s: seq<byte>, room: nat)
    ensures Decode(Encode(s), true, room) == if room < |s| then BufferTooSmall(|s|) else Decoded(s)
  {
    hide Scan, RunFrom, Promised, Encode;
    var text := Encode(s);
    ScanEncode(s, 0);
    RunEncode(EMPTY, s);
    WritesWithinPromise(text);
    assert [] + s == s;
    EncodeEmpty(s);
  }

  lemma EncodeEmpty(s: seq<byte>)
    ensures |Encode(s)| % 4 == 0 && (|Encode(s)| == 0 <==> s == [])
  {
    hide Encode;
  }

  // ---- line breaks and spaces ----

  predicate StartsLine(b: seq<byte>) {
    (|b| >= 1 && b[0] == LF) || (|b| >= 2 && b[0] == CR && b[1] == LF)
  }

  predicate EndsIn(a: seq<byte>, c: byte) { a != [] && a[|a| - 1] == c }

  predicate StartsWith(b: seq<byte>, c: byte) { b != [] && b[0] == c }

  /** Whether a space came before makes no difference to the scan of b. */
  predicate Loose(b: seq<byte>) { b == [] || b[0] == SPACE || StartsLine(b) }

  lemma SpacesBefore(b: seq<byte>, n: nat, e: nat)
    ensures Loose(b) ==> Scan(b, true, n, e) == Scan(b, false, n, e)
    ensures !Loose(b) ==> Scan(b, true, n, e).Invalid?
  {}

  /** Inserting x between a and b parts the two characters of a CR LF. */
  predicate Tears(a: seq<byte>, x: seq<byte>, b: seq<byte>) { EndsIn(a, CR) && StartsWith(b, LF) && x != [LF] }

  /** Inserting x between a and b ends a line after a space inside it, or completes a lone CR to a CR LF. */
  predicate Joins(a: seq<byte>, x: seq<byte>, b: seq<byte>) {
    (EndsIn(a, SPACE) && !StartsWith(x, SPACE) && !Loose(b)) || (EndsIn(a, CR) && x == [LF] && !StartsWith(b, LF))
  }

  lemma ScanBreak(b: seq<byte>, spaces: bool, n: nat, e: nat)
    ensures Scan([LF] + b, spaces, n, e) == Scan(b, false, n, e)
    ensures Scan([CR, LF] + b, spaces, n, e) == Scan(b, false, n, e)
  {
    assert ([LF] + b)[1..] == b;
    assert ([CR, LF] + b)[1..] == [LF] + b;
  }

  function Spaces(k: nat): seq<byte> { seq(k, _ => SPACE) }

  lemma {:induction false} ScanSpaces(k: nat, b: seq<byte>, spaces: bool, n: nat, e: nat)
    ensures Scan(Spaces(k) + b, spaces, n, e) == Scan(b, spaces || k > 0, n, e)
  {
    if k == 0 {
      assert Spaces(0) + b == b;
    } else {
      ScanSpaces(k - 1, b, true, n, e);
      assert (Spaces(k) + b)[1..] == Spaces(k - 1) + b;
    }
  }

  /** The line breaks the decoder skips, and spaces before other spaces or where a line or the text ends. */
  ghost predicate Ignorable(x: seq<byte>, b: seq<byte>) {
    x == [LF] || x == [CR, LF] || (Loose(b) && exists k: nat :: k > 0 && x == Spaces(k))
  }

  lemma {:induction false} GapsDropped(d: Decoder, x: seq<byte>)
    requires forall i :: 0 <= i < |x| ==> IsGap(x[i])
    ensures RunFrom(d, x) == d
    decreases |x|
  {
    hide Step;
    if x != [] {
      GapStep(d, x[0]);
      GapsDropped(d, x[1..]);
    }
  }

  lemma IgnorableAreGaps(x: seq<byte>, b: seq<byte>)
    requires Ignorable(x, b)
    ensures forall i :: 0 <= i < |x| ==> IsGap(x[i])
    ensures x != [] && (x[0] == LF ==> x == [LF])
  {}

  lemma IgnorableScan(x: seq<byte>, b: seq<byte>, spaces: bool, n: nat, e: nat)
    requires Ignorable(x, b) && (spaces && !StartsWith(x, SPACE) ==> Loose(b))
    ensures Scan(x + b, spaces, n, e) == Scan(b, spaces, n, e)
  {
    hide Scan;
    ScanBreak(b, spaces, n, e);
    SpacesBefore(b, n, e);
    if x != [LF] && x != [CR, LF] {
      var k: nat :| k > 0 && x == Spaces(k);
      ScanSpaces(k, b, spaces, n, e);
    }
  }

  /** One scanning step depends on the next two characters only. */
  lemma SameStep(c: byte, t: seq<byte>, u: seq<byte>, spaces: bool, n: nat, e: nat)
    requires c == CR ==> (StartsWith(t, LF) <==> StartsWith(u, LF))
    requires Scan(t, c == SPACE, n, e) == Scan(u, c == SPACE, n, e)
    requires Scan(t, c == SPACE, n + 1, e) == Scan(u, c == SPACE, n + 1, e)
    requires Scan(t, c == SPACE, n + 1, e + 1) == Scan(u, c == SPACE, n + 1, e + 1)
    ensures Scan([c] + t, spaces, n, e) == Scan([c] + u, spaces, n, e)
  {
    hide IsDigit;
    var p, q := [c] + t, [c] + u;
    assert p[1..] == t && q[1..] == u;
  }

  /** What may be ignored before b changes nothing anywhere in a text, unless it tears or joins. */
  lemma {:induction false} InsertScan(a: seq<byte>, x: seq<byte>, b: seq<byte>, spaces: bool, n: nat, e: nat)
    requires Ignorable(x, b) && !Tears(a, x, b) && !Joins(a, x, b)
    requires a == [] && spaces && !StartsWith(x, SPACE) ==> Loose(b)
    ensures Scan(a + x + b, spaces, n, e) == Scan(a + b, spaces, n, e)
    decreases |a|
  {
    hide Scan, Ignorable, Loose;
    if a == [] {
      assert a + b == b && a + x + b == x + b;
      IgnorableScan(x, b, spaces, n, e);
    } else {
      var c, t, u := a[0], a[1..] + b, a[1..] + x + b;
      assert a + b == [c] + t && a + x + b == [c] + u;
      InsertScan(a[1..], x, b, c == SPACE, n, e);
      InsertScan(a[1..], x, b, c == SPACE, n + 1, e);
      InsertScan(a[1..], x, b, c == SPACE, n + 1, e + 1);
      IgnorableAreGaps(x, b);
      SameStep(c, u, t, spaces, n, e);
    }
  }

  /** A character that may not stand before v makes every text with the two invalid. */
  ghost predicate Bars(c: byte, v: seq<byte>) { forall spaces, n, e :: Scan([c] + v, spaces, n, e).Invalid? }

  lemma {:induction false} BarredInvalid(a: seq<byte>, v: seq<byte>, spaces: bool, n: nat, e: nat)
    requires a != [] && Bars(a[|a| - 1], v)
    ensures Scan(a + v, spaces, n, e).Invalid?
    decreases |a|
  {
    hide IsDigit;
    var c, u := a[0], a[1..] + v;
    assert a + v == [c] + u && ([c] + u)[1..] == u;
    if |a| == 1 {
      assert u == v;
    } else {
      BarredInvalid(a[1..], v, c == SPACE, n, e);
      BarredInvalid(a[1..], v, c == SPACE, n + 1, e);
      BarredInvalid(a[1..], v, c == SPACE, n + 1, e + 1);
    }
  }

  /** A carriage return is accepted before a line feed only; after a space, only what is loose. */
  lemma BarringPairs(v: seq<byte>)
    ensures !StartsWith(v, LF) ==> Bars(CR, v)
    ensures !Loose(v) ==> Bars(SPACE, v)
  {
    hide Loose;
    forall spaces, n, e
      ensures !StartsWith(v, LF) ==> Scan([CR] + v, spaces, n, e).Invalid?
      ensures !Loose(v) ==> Scan([SPACE] + v, spaces, n, e).Invalid?
    {
      assert ([CR] + v)[1..] == v && ([SPACE] + v)[1..] == v;
      SpacesBefore(v, n, e);
    }
  }

  lemma TornIsInvalid(a: seq<byte>, x: seq<byte>, b: seq<byte>)
    requires Ignorable(x, b) && Tears(a, x, b)
    ensures Scan(a + x + b, false, 0, 0).Invalid?
  {
    hide Scan, Ignorable, Bars;
    IgnorableAreGaps(x, b);
    BarringPairs(x + b);
    BarredInvalid(a, x + b, false, 0, 0);
    assert a + (x + b) == a + x + b;
  }

  lemma UnjoinedIsInvalid(a: seq<byte>, x: seq<byte>, b: seq<byte>)
    requires Joins(a, x, b)
    ensures Scan(a + b, false, 0, 0).Invalid?
  {
    hide Scan, Bars, Loose;
    BarringPairs(b);
    BarredInvalid(a, b, false, 0, 0);
  }

  /** Spaces put anywhere else make every text invalid. */
  lemma SpaceInsideLine(a: seq<byte>, k: nat, b: seq<byte>, hasRoom: bool, room: nat)
    requires k > 0 && !Loose(b)
    ensures Decode(a + Spaces(k) + b, hasRoom, room).InvalidCharacter?
  {
    hide Scan, Bars, Loose;
    BarringPairs(b);
    BarredInvalid(a + Spaces(k), b, false, 0, 0);
  }

  /** On every text, accepted or not: inserting a line break anywhere, or spaces at the end of a line or of
      the text, leaves the outcome as it was, with two exceptions. Tearing a CR LF apart makes an accepted
      text invalid; and a break that ends a line after a space inside it, or completes a lone CR, makes an
      invalid text accepted if nothing else is wrong with it. */
  lemma InsertKeepsOutcome(a: seq<byte>, x: seq<byte>, b: seq<byte>, hasRoom: bool, room: nat)
    requires Ignorable(x, b)
    ensures Decode(a + x + b, hasRoom, room) == Decode(a + b, hasRoom, room)
       <==> && (Tears(a, x, b) ==> Decode(a + b, hasRoom, room).InvalidCharacter?)
            && (Joins(a, x, b) ==> Decode(a + x + b, hasRoom, room).InvalidCharacter?)
  {
    hide Scan, RunFrom, Promised, Ignorable, Tears, Joins, IsGap;
    if Tears(a, x, b) {
      TornIsInvalid(a, x, b);
      TearsOrJoins(a, x, b);
    } else if Joins(a, x, b) {
      UnjoinedIsInvalid(a, x, b);
    } else {
      InsertScan(a, x, b, false, 0, 0);
      IgnorableAreGaps(x, b);
      var d := RunFrom(EMPTY, a);
      RunAppend(EMPTY, a, b);
      RunAppend(EMPTY, a + x, b);
      RunAppend(EMPTY, a, x);
      GapsDropped(d, x);
    }
  }

  lemma TearsOrJoins(a: seq<byte>, x: seq<byte>, b: seq<byte>)
    requires Tears(a, x, b)
    ensures !Joins(a, x, b)
  {}

  /** So an accepted text keeps its outcome unless a CR LF is torn apart. */
  lemma AcceptedKeepsOutcome(a: seq<byte>, x: seq<byte>, b: seq<byte>, hasRoom: bool, room: nat)
    requires Ignorable(x, b) && !Decode(a + b, hasRoom, room).InvalidCharacter?
    ensures Decode(a + x + b, hasRoom, room) == Decode(a + b, hasRoom, room) <==> !Tears(a, x, b)
  {
    hide Scan, RunFrom, Promised, Ignorable, Tears, Joins;
    InsertKeepsOutcome(a, x, b, hasRoom, room);
    if Joins(a, x, b) {
      UnjoinedIsInvalid(a, x, b);
    }
  }

  /** The inputs that show the second exception: "AB CD" is refused, and so is a CR before "AB"; with a line
      feed after the space, or after the CR, they are accepted. */
  lemma BreakMendsText(room: nat)
    requires room >= 3
    ensures Decode([65, 66, SPACE] + [67, 68], true, room).InvalidCharacter?
    ensures Decode([65, 66, SPACE] + [LF] + [67, 68], true, room).Decoded?
    ensures Decode([CR] + [65, 66], true, room).InvalidCharacter?
    ensures Decode([CR] + [LF] + [65, 66], true, room).Decoded?
  {
    hide RunFrom;
    UnjoinedIsInvalid([65, 66, SPACE], [LF], [67, 68]);
    UnjoinedIsInvalid([CR], [LF], [65, 66]);
    ScanTwo([67, 68], 2);
    ScanTwo([65, 66], 0);
    ScanSpaced(65, 66, [67, 68]);
    ScanBreak([65, 66], false, 0, 0);
    assert [CR] + [LF] + [65, 66] == [CR, LF] + [65, 66];
  }

  lemma ScanTwo(b: seq<byte>, n: nat)
    requires |b| == 2 && IsDigit(b[0]) && IsDigit(b[1])
    ensures Scan(b, false, n, 0) == Valid(n + 2, 0)
  {
    assert b[1..][1..] == [];
    assert Scan(b[1..], false, n + 1, 0) == Valid(n + 2, 0);
  }

  lemma ScanSpaced(c1: byte, c2: byte, b: seq<byte>)
    requires IsDigit(c1) && IsDigit(c2) && c1 <= 127 && c2 <= 127
    ensures Scan([c1, c2, SPACE] + [LF] + b, false, 0, 0) == Scan(b, false, 2, 0)
  {
    var v := [SPACE, LF] + b;
    var t := [c1, c2, SPACE] + [LF] + b;
    assert t[1..] == [c2] + v && ([c2] + v)[1..] == v && v[1..] == [LF] + b;
    assert Scan(v, false, 2, 0) == Scan([LF] + b, true, 2, 0);
    ScanBreak(b, true, 2, 0);
    assert Scan([c2] + v, false, 1, 0) == Scan(v, false, 2, 0);
  }

  // ---- the code ----

  const SIZE_MAX: nat := 0xFFFF_FFFF_FFFF_FFFF

  datatype Status = Ok | TooSmall | BadCharacter

  lemma EncodeAppend(a: seq<byte>, b: seq<byte>)
    requires |a| % 3 == 0
    ensures Encode(a + b) == Encode(a) + Encode(b)
    decreases |a|
  {
    hide Group;
    if a == [] {
      assert a + b == b;
    } else {
      EncodeAppend(a[3..], b);
      assert (a + b)[3..] == a[3..] + b;
    }
  }

  lemma EncodeGroup(c1: byte, c2: byte, c3: byte)
    ensures Encode([c1, c2, c3]) == Group(c1, c2, c3)
    ensures Encode([c1, c2]) == Group(c1, c2, 0)[..3] + [PAD]
    ensures Encode([c1]) == Group(c1, 0, 0)[..2] + [PAD, PAD]
  {
    hide Group;
    assert [c1, c2, c3][3..] == [];
    assert Group(c1, c2, c3) + [] == Group(c1, c2, c3);
  }

  /** Four characters of output. */
  method PutFour(dst: array<byte>, p: nat, q: seq<byte>)
    requires p + 4 <= dst.Length && |q| == 4
    modifies dst
    ensures dst[..p + 4] == old(dst[..p]) + q && dst[p + 4..] == old(dst[p + 4..])
  {
    dst[p], dst[p + 1], dst[p + 2], dst[p + 3] := q[0], q[1], q[2], q[3];
  }

  /** mbedtls_base64_encode. */
  method EncodeInto(dst: array?<byte>, dlen: nat, src: array<byte>, slen: nat) returns (ret: Status, olen: nat)
    requires slen <= src.Length && slen <= SIZE_MAX
    requires dst != null ==> dlen <= dst.Length && dst != src
    modifies dst
    ensures slen == 0 ==> ret == Ok && olen == 0
    ensures slen > 0 && (slen + 2) / 3 > (SIZE_MAX - 1) / 4 ==> ret == TooSmall && olen == SIZE_MAX
    ensures slen > 0 && (slen + 2) / 3 <= (SIZE_MAX - 1) / 4 ==>
              var need := 4 * ((slen + 2) / 3);
              if dst == null || dlen < need + 1 then ret == TooSmall && olen == need + 1
              else ret == Ok && olen == need && dst[..olen + 1] == Encode(src[..slen]) + [0]
                   && dst[olen + 1..] == old(dst[olen + 1..])
    ensures dst != null && (ret != Ok || slen == 0) ==> dst[..] == old(dst[..])
  {
    hide Encode, Group;
    if slen == 0 {
      return Ok, 0;
    }
    var n := slen / 3 + if slen % 3 != 0 then 1 else 0;
    if n > (SIZE_MAX - 1) / 4 {
      return TooSmall, SIZE_MAX;
    }
    n := n * 4;
    if dlen < n + 1 || dst == null {
      return TooSmall, n + 1;
    }
    var p := EncodeText(dst, src, slen);
    dst[p] := 0;
    return Ok, p;
  }

  /** The last group, of one or two bytes. */
  method EncodeTail(dst: array<byte>, p: nat, src: array<byte>, i: nat, slen: nat)
    requires i % 3 == 0 && i < slen < i + 3 && slen <= src.Length && p + 4 <= dst.Length && dst != src
    requires dst[..p] == Encode(src[..i])
    modifies dst
    ensures dst[..p + 4] == Encode(src[..slen]) && dst[p + 4..] == old(dst[p..])[4..]
  {
    hide Encode, Group;
    var c1, c2 := src[i], if i + 1 < slen then src[i + 1] else 0;
    var q := Group(c1, c2, 0);
    EncodeNext(src[..], i, slen - i);
    assert [q[0], q[1], q[2], PAD] == q[..3] + [PAD];
    assert [q[0], q[1], PAD, PAD] == q[..2] + [PAD, PAD];
    ghost var before := dst[p..];
    PutFour(dst, p, [q[0], q[1], if i + 1 < slen then q[2] else PAD, PAD]);
    assert dst[p + 4..] == before[4..];
    assert src[..][..slen] == src[..slen] && src[..][..i] == src[..i];
  }

  /** One turn of the encoding loop. */
  method EncodeTurn(dst: array<byte>, p: nat, src: array<byte>, i: nat)
    requires i % 3 == 0 && i + 3 <= src.Length && p + 4 <= dst.Length && dst != src
    requires dst[..p] == Encode(src[..i])
    modifies dst
    ensures dst[..p + 4] == Encode(src[..i + 3]) && dst[p + 4..] == old(dst[p..])[4..]
  {
    hide Encode, Group;
    EncodeNext(src[..], i, 3);
    assert src[..][..i] == src[..i] && src[..][..i + 3] == src[..i + 3];
    ghost var before := dst[p..];
    PutFour(dst, p, Group(src[i], src[i + 1], src[i + 2]));
    assert dst[p + 4..] == before[4..];
  }

  /** The encoding loop and its tail. */
  method EncodeText(dst: array<byte>, src: array<byte>, slen: nat) returns (p: nat)
    requires slen <= src.Length && 4 * ((slen + 2) / 3) < dst.Length && dst != src
    modifies dst
    ensures p == 4 * ((slen + 2) / 3) && dst[..p] == Encode(src[..slen]) && dst[p..] == old(dst[p..])
  {
    hide Encode, Group;
    ghost var before := dst[..];
    var i, n := 0, (slen / 3) * 3;
    p := 0;
    EncodeNone();
    while i < n
      invariant i <= n && i % 3 == 0 && 3 * p == 4 * i
      invariant dst[..p] == Encode(src[..i]) && dst[p..] == before[p..]
    {
      EncodeTurn(dst, p, src, i);
      assert before[p..][4..] == before[p + 4..];
      i, p := i + 3, p + 4;
    }
    if i < slen {
      EncodeTail(dst, p, src, i, slen);
      assert before[p..][4..] == before[p + 4..];
      p := p + 4;
    }
  }

  lemma EncodeNone()
    ensures Encode([]) == []
  {}

  lemma EncodeNext(s: seq<byte>, i: nat, k: nat)
    requires i % 3 == 0 && 0 < k <= 3 && i + k <= |s|
    ensures Encode(s[..i + k]) == Encode(s[..i])
              + if k == 3 then Group(s[i], s[i + 1], s[i + 2])
                else if k == 2 then Group(s[i], s[i + 1], 0)[..3] + [PAD]
                else Group(s[i], 0, 0)[..2] + [PAD, PAD]
  {
    hide Encode, Group;
    EncodeAppend(s[..i], s[i..i + k]);
    assert s[..i + k] == s[..i] + s[i..i + k];
    if k == 3 {
      EncodeGroup(s[i], s[i + 1], s[i + 2]);
      assert s[i..i + 3] == [s[i], s[i + 1], s[i + 2]];
    } else if k == 2 {
      EncodeGroup(s[i], s[i + 1], 0);
      assert s[i..i + 2] == [s[i], s[i + 1]];
    } else {
      EncodeGroup(s[i], 0, 0);
      assert s[i..i + 1] == [s[i]];
    }
  }

  /** The first pass of mbedtls_base64_decode. */
  method CheckText(src: array<byte>, slen: nat) returns (c: Check)
    requires slen <= src.Length
    ensures c == Scan(src[..slen], false, 0, 0)
  {
    hide IsDigit, Scan;
    ghost var text := src[..slen];
    var i, n, equals := 0, 0, 0;
    assert text[0..] == text && text[slen..] == [];
    while i < slen
      invariant i <= slen && equals <= 2
      invariant Scan(text[i..], false, n, equals) == Scan(text, false, 0, 0)
    {
      var spacesPresent := false;
      while i < slen && src[i] == SPACE
        invariant i <= slen
        invariant Scan(text[i..], spacesPresent, n, equals) == Scan(text, false, 0, 0)
      {
        ScanAt(text, i, spacesPresent, n, equals);
        i := i + 1;
        spacesPresent := true;
      }
      ScanEnd(spacesPresent, n, equals);
      if i == slen {
        return Valid(n, equals);
      }
      ScanAt(text, i, spacesPresent, n, equals);
      if slen - i >= 2 && src[i] == CR && src[i + 1] == LF {
        i := i + 1;
        continue;
      }
      if src[i] == LF {
        i := i + 1;
        continue;
      }
      if spacesPresent {
        return Invalid;
      }
      if src[i] > 127 {
        return Invalid;
      }
      if src[i] == PAD {
        equals := equals + 1;
        if equals > 2 {
          return Invalid;
        }
      } else {
        if equals != 0 {
          return Invalid;
        }
        if !IsDigit(src[i]) {
          return Invalid;
        }
      }
      n := n + 1;
      i := i + 1;
    }
    ScanEnd(false, n, equals);
    return Valid(n, equals);
  }

  lemma ScanEnd(spaces: bool, n: nat, equals: nat)
    ensures Scan([], spaces, n, equals) == Valid(n, equals)
  {}

  lemma ScanAt(text: seq<byte>, i: nat, spaces: bool, n: nat, equals: nat)
    requires i < |text|
    ensures Scan(text[i..], spaces, n, equals) ==
            if text[i] == SPACE then Scan(text[i + 1..], true, n, equals)
            else if i + 2 <= |text| && text[i] == CR && text[i + 1] == LF then Scan(text[i + 1..], false, n, equals)
            else if text[i] == LF then Scan(text[i + 1..], false, n, equals)
            else if spaces || text[i] > 127 then Invalid
            else if text[i] == PAD then
              if equals + 1 > 2 then Invalid else Scan(text[i + 1..], false, n + 1, equals + 1)
            else if equals != 0 || !IsDigit(text[i]) then Invalid
            else Scan(text[i + 1..], false, n + 1, equals)
  {
    hide IsDigit;
    assert text[i..][1..] == text[i + 1..];
  }

  lemma EmitSize(x: word, equals: nat)
    ensures |Emit(x, equals)| == 1 + (if equals <= 1 then 1 else 0) + (if equals <= 0 then 1 else 0)
  {}

  /** Output never overtakes the input, and later steps only append. */
  lemma StepGrows(d: Decoder, c: byte)
    requires d.digits <= 3
    ensures var r := Step(d, c);
            && r.digits <= 3 && |d.out| <= |r.out| && r.out[..|d.out|] == d.out
            && |r.out| + r.digits <= |d.out| + d.digits + 1
  {
    hide Push, IsGap, Emit;
    var x, equals := Push(d.x, c), d.equals + (if c == PAD then 1 else 0);
    EmitSize(x, equals);
  }

  lemma {:induction false} RunGrows(d: Decoder, text: seq<byte>)
    requires d.digits <= 3
    ensures |d.out| <= |RunFrom(d, text).out|
    decreases |text|
  {
    hide Step;
    if text != [] {
      StepGrows(d, text[0]);
      RunGrows(Step(d, text[0]), text[1..]);
    }
  }

  lemma RunTo(text: seq<byte>, j: nat, d: Decoder)
    requires j < |text| && RunFrom(EMPTY, text[..j]) == d && d.digits <= 3
    ensures RunFrom(EMPTY, text[..j + 1]) == Step(d, text[j])
    ensures |Step(d, text[j]).out| <= |RunFrom(EMPTY, text).out|
  {
    hide Step, RunFrom;
    RunAppend(EMPTY, text[..j], [text[j]]);
    assert text[..j + 1] == text[..j] + [text[j]];
    RunOne(d, text[j]);
    RunAppend(EMPTY, text[..j + 1], text[j + 1..]);
    assert text == text[..j + 1] + text[j + 1..];
    StepGrows(d, text[j]);
    RunGrows(Step(d, text[j]), text[j + 1..]);
  }

  /** Writes the bytes of a full accumulator. */
  method PutBytes(dst: array<byte>, p: nat, x: word, equals: nat) returns (p': nat)
    requires p + |Emit(x, equals)| <= dst.Length
    modifies dst
    ensures p' == p + |Emit(x, equals)| && dst[..p'] == old(dst[..p]) + Emit(x, equals)
    ensures dst[p'..] == old(dst[p'..])
  {
    hide Byte0, Byte1, Byte2;
    p' := p;
    dst[p'] := Byte2(x);
    p' := p' + 1;
    if equals <= 1 {
      dst[p'] := Byte1(x);
      p' := p' + 1;
    }
    if equals <= 0 {
      dst[p'] := Byte0(x);
      p' := p' + 1;
    }
  }

  /** The second pass. */
  method DecodeText(dst: array<byte>, src: array<byte>, slen: nat) returns (p: nat)
    requires slen <= src.Length && |RunFrom(EMPTY, src[..slen]).out| <= dst.Length
    modifies dst
    ensures p == |RunFrom(EMPTY, old(src[..slen])).out|
    ensures dst[..] == RunFrom(EMPTY, old(src[..slen])).out + old(dst[p..])
  {
    hide RunFrom, Push, Emit, IsGap;
    ghost var text, dst0 := src[..slen], dst[..];
    var x: word, digits, equals := 0, 0, 0;
    p := 0;
    RunNothing(EMPTY);
    for j := 0 to slen
      invariant p <= dst.Length && p + digits <= j && digits <= 3
      invariant RunFrom(EMPTY, text[..j]) == Decoder(x, digits, equals, dst[..p])
      invariant dst[p..] == dst0[p..] && src[j..slen] == text[j..]
    {
      ghost var d := Decoder(x, digits, equals, dst[..p]);
      RunTo(text, j, d);
      StepGrows(d, text[j]);
      ByteStream.NextInput(src[..], text, j);
      var c := src[j];
      if !IsGap(c) {
        x := Push(x, c);
        if c == PAD {
          equals := equals + 1;
        }
        digits := digits + 1;
        if digits == 4 {
          digits := 0;
          p := PutBytes(dst, p, x, equals);
        }
      }
    }
    assert text[..slen] == text;
    assert dst[..] == dst[..p] + dst[p..];
  }

  /** mbedtls_base64_decode; dst and src may be the same buffer. olen0 is what *olen held before. */
  method DecodeInto(dst: array?<byte>, dlen: nat, src: array<byte>, slen: nat, olen0: int)
    returns (ret: Status, olen: int)
    requires slen <= src.Length && (dst != null ==> dlen <= dst.Length)
    modifies dst
    ensures match Decode(old(src[..slen]), dst != null, dlen)
            case InvalidCharacter => ret == BadCharacter && olen == olen0
            case BufferTooSmall(need) => ret == TooSmall && olen == need >= 0
            case Decoded(bytes) =>
              ret == Ok && olen == |bytes| &&
              (dst != null ==> olen <= dst.Length && dst[..] == bytes + old(dst[olen..]))
    ensures dst != null && ret != Ok ==> dst[..] == old(dst[..])
  {
    hide Scan, RunFrom, Promised;
    ghost var text := src[..slen];
    var check := CheckText(src, slen);
    match check {
      case Invalid =>
        return BadCharacter, olen0;
      case Valid(n, equals) =>
        if n == 0 {
          return Ok, 0;
        }
        WritesWithinPromise(text);
        PromisedIs(n, equals);
        var need := 6 * (n / 8) + (6 * (n % 8) + 7) / 8 - equals;
        if dst == null || dlen < need {
          return TooSmall, need;
        }
        var p := DecodeText(dst, src, slen);
        return Ok, p;
    }
  }

  lemma PromisedIs(n: nat, equals: nat)
    ensures Promised(n, equals) == 6 * (n / 8) + (6 * (n % 8) + 7) / 8 - equals
  {}
}
