/** The AES context of aes.c: key schedules and the table-driven block transforms. */
module Aes {
  import opened Bytes
  import opened Words
  import opened AesSpec
  import opened AesTables

  // ---- key expansion as section 5.2 of FIPS 197 states it ----

  function RotWord(c: Col): Col { Col(c.b1, c.b2, c.b3, c.b0) }

  ghost function RconCol(i: nat): Col { Col(Rcon(i), 0, 0, 0) }

  /** Word i of the expanded key; nk is the key length in words. */
  ghost function KeyCol(s: seq<byte>, key: seq<byte>, nk: nat, i: nat): Col
    requires IsTable(s) && nk > 0 && |key| == 4 * nk
    decreases i
  {
    if i < nk then Col(key[4 * i], key[4 * i + 1], key[4 * i + 2], key[4 * i + 3])
    else
      var temp := KeyCol(s, key, nk, i - 1);
      var mixed := if i % nk == 0 then XorCol(SubCol(s, RotWord(temp)), RconCol(i / nk - 1))
                   else if nk > 6 && i % nk == 4 then SubCol(s, temp)
                   else temp;
      XorCol(KeyCol(s, key, nk, i - nk), mixed)
  }

  ghost function KeyState(s: seq<byte>, key: seq<byte>, nk: nat, i: nat): State
    requires IsTable(s) && nk > 0 && |key| == 4 * nk
  {
    State(KeyCol(s, key, nk, 4 * i), KeyCol(s, key, nk, 4 * i + 1),
          KeyCol(s, key, nk, 4 * i + 2), KeyCol(s, key, nk, 4 * i + 3))
  }

  /** The round keys of a 4, 6 or 8 word key: 11, 13 or 15 of them. */
  ghost function KeySchedule(s: seq<byte>, key: seq<byte>): (w: seq<State>)
    requires IsTable(s) && |key| in {16, 24, 32}
    ensures |w| == |key| / 4 + 7
    ensures forall i :: 0 <= i < |w| ==> w[i] == KeyState(s, key, |key| / 4, i)
  {
    seq(|key| / 4 + 7, i requires 0 <= i => KeyState(s, key, |key| / 4, i))
  }

  // ---- words and states ----

  datatype Words4 = Words4(w0: word, w1: word, w2: word, w3: word)

  function StateOf(x: Words4): State { State(ColOf(x.w0), ColOf(x.w1), ColOf(x.w2), ColOf(x.w3)) }

  /** Round key i as it lies in the round-key buffer. */
  function StateAt(rk: seq<word>, i: nat): State
    requires 4 * i + 4 <= |rk|
  {
    State(ColOf(rk[4 * i]), ColOf(rk[4 * i + 1]), ColOf(rk[4 * i + 2]), ColOf(rk[4 * i + 3]))
  }

  /** The first nr + 1 round keys of a buffer. */
  function RoundKeys(rk: seq<word>, nr: nat): (w: seq<State>)
    requires 4 * nr + 4 <= |rk|
    ensures |w| == nr + 1
    ensures forall i :: 0 <= i <= nr ==> w[i] == StateAt(rk, i)
  {
    seq(nr + 1, i requires 0 <= i <= nr => StateAt(rk, i))
  }

  function BytesToState(b: seq<byte>): State
    requires |b| == 16
  {
    State(Col(b[0], b[1], b[2], b[3]), Col(b[4], b[5], b[6], b[7]),
          Col(b[8], b[9], b[10], b[11]), Col(b[12], b[13], b[14], b[15]))
  }

  function StateToBytes(x: State): (b: seq<byte>)
    ensures |b| == 16
  {
    [x.c0.b0, x.c0.b1, x.c0.b2, x.c0.b3, x.c1.b0, x.c1.b1, x.c1.b2, x.c1.b3,
     x.c2.b0, x.c2.b1, x.c2.b2, x.c2.b3, x.c3.b0, x.c3.b1, x.c3.b2, x.c3.b3]
  }

  lemma BytesStateBytes(b: seq<byte>)
    requires |b| == 16
    ensures StateToBytes(BytesToState(b)) == b
  {}

  // ---- the round macros ----

  function Word4(a: word, b: word, c: word, d: word, e: word): word {
    WXor(WXor(WXor(WXor(a, b), c), d), e)
  }

  /** AES_FROUND with RK at position p. */
  function ForwardRound(t: Tables, rk: seq<word>, p: nat, y: Words4): Words4
    requires Sized(t) && p + 4 <= |rk|
  {
    Words4(
      Word4(rk[p], t.ft0[Byte0(y.w0) as int], t.ft1[Byte1(y.w1) as int],
            t.ft2[Byte2(y.w2) as int], t.ft3[Byte3(y.w3) as int]),
      Word4(rk[p + 1], t.ft0[Byte0(y.w1) as int], t.ft1[Byte1(y.w2) as int],
            t.ft2[Byte2(y.w3) as int], t.ft3[Byte3(y.w0) as int]),
      Word4(rk[p + 2], t.ft0[Byte0(y.w2) as int], t.ft1[Byte1(y.w3) as int],
            t.ft2[Byte2(y.w0) as int], t.ft3[Byte3(y.w1) as int]),
      Word4(rk[p + 3], t.ft0[Byte0(y.w3) as int], t.ft1[Byte1(y.w0) as int],
            t.ft2[Byte2(y.w1) as int], t.ft3[Byte3(y.w2) as int]))
  }

  /** AES_RROUND with RK at position p. */
  function ReverseRound(t: Tables, rk: seq<word>, p: nat, y: Words4): Words4
    requires Sized(t) && p + 4 <= |rk|
  {
    Words4(
      Word4(rk[p], t.rt0[Byte0(y.w0) as int], t.rt1[Byte1(y.w3) as int],
            t.rt2[Byte2(y.w2) as int], t.rt3[Byte3(y.w1) as int]),
      Word4(rk[p + 1], t.rt0[Byte0(y.w1) as int], t.rt1[Byte1(y.w0) as int],
            t.rt2[Byte2(y.w3) as int], t.rt3[Byte3(y.w2) as int]),
      Word4(rk[p + 2], t.rt0[Byte0(y.w2) as int], t.rt1[Byte1(y.w1) as int],
            t.rt2[Byte2(y.w0) as int], t.rt3[Byte3(y.w3) as int]),
      Word4(rk[p + 3], t.rt0[Byte0(y.w3) as int], t.rt1[Byte1(y.w2) as int],
            t.rt2[Byte2(y.w1) as int], t.rt3[Byte3(y.w0) as int]))
  }

  /** The word of the last rounds: a key word and four S-box outputs. */
  function LastWord(k: word, s: seq<byte>, b0: byte, b1: byte, b2: byte, b3: byte): word
    requires IsTable(s)
  {
    WXor(k, Word(Sub(s, b0), Sub(s, b1), Sub(s, b2), Sub(s, b3)))
  }

  function ForwardLast(t: Tables, rk: seq<word>, p: nat, y: Words4): Words4
    requires Sized(t) && p + 4 <= |rk|
  {
    Words4(
      LastWord(rk[p], t.fsb, Byte0(y.w0), Byte1(y.w1), Byte2(y.w2), Byte3(y.w3)),
      LastWord(rk[p + 1], t.fsb, Byte0(y.w1), Byte1(y.w2), Byte2(y.w3), Byte3(y.w0)),
      LastWord(rk[p + 2], t.fsb, Byte0(y.w2), Byte1(y.w3), Byte2(y.w0), Byte3(y.w1)),
      LastWord(rk[p + 3], t.fsb, Byte0(y.w3), Byte1(y.w0), Byte2(y.w1), Byte3(y.w2)))
  }

  function ReverseLast(t: Tables, rk: seq<word>, p: nat, y: Words4): Words4
    requires Sized(t) && p + 4 <= |rk|
  {
    Words4(
      LastWord(rk[p], t.rsb, Byte0(y.w0), Byte1(y.w3), Byte2(y.w2), Byte3(y.w1)),
      LastWord(rk[p + 1], t.rsb, Byte0(y.w1), Byte1(y.w0), Byte2(y.w3), Byte3(y.w2)),
      LastWord(rk[p + 2], t.rsb, Byte0(y.w2), Byte1(y.w1), Byte2(y.w0), Byte3(y.w3)),
      LastWord(rk[p + 3], t.rsb, Byte0(y.w3), Byte1(y.w2), Byte2(y.w1), Byte3(y.w0)))
  }

  // ---- the tables implement the rounds ----

  lemma XorColAssoc(a: Col, b: Col, c: Col)
    ensures XorCol(XorCol(a, b), c) == XorCol(a, XorCol(b, c))
  {
    hide Xor;
    XorAssoc(a.b0, b.b0, c.b0);
    XorAssoc(a.b1, b.b1, c.b1);
    XorAssoc(a.b2, b.b2, c.b2);
    XorAssoc(a.b3, b.b3, c.b3);
  }

  lemma Word4Col(k: word, a: word, b: word, c: word, d: word)
    ensures ColOf(Word4(k, a, b, c, d))
         == XorCol(ColOf(k), XorCol(XorCol(XorCol(ColOf(a), ColOf(b)), ColOf(c)), ColOf(d)))
  {
    hide WXor, ColOf, XorCol;
    ColXor(k, a);
    ColXor(WXor(k, a), b);
    ColXor(WXor(WXor(k, a), b), c);
    ColXor(WXor(WXor(WXor(k, a), b), c), d);
    XorColAssoc(ColOf(k), ColOf(a), ColOf(b));
    XorColAssoc(ColOf(k), XorCol(ColOf(a), ColOf(b)), ColOf(c));
    XorColAssoc(ColOf(k), XorCol(XorCol(ColOf(a), ColOf(b)), ColOf(c)), ColOf(d));
  }

  lemma TableEntries(t: Tables, b: byte)
    requires Ready(t) && Sized(t)
    ensures var f, r := ForwardCol(Sub(t.fsb, b)), ReverseCol(Sub(t.rsb, b));
            && ColOf(t.ft0[b as int]) == f && ColOf(t.ft1[b as int]) == RotCol(f)
            && ColOf(t.ft2[b as int]) == RotCol(RotCol(f)) && ColOf(t.ft3[b as int]) == RotCol(RotCol(RotCol(f)))
            && ColOf(t.rt0[b as int]) == r && ColOf(t.rt1[b as int]) == RotCol(r)
            && ColOf(t.rt2[b as int]) == RotCol(RotCol(r)) && ColOf(t.rt3[b as int]) == RotCol(RotCol(RotCol(r)))
  {
    hide ColOf, ForwardCol, ReverseCol, RotCol;
    assert RoundEntries(t, b as int);
  }

  lemma ForwardWord(t: Tables, k: word, b0: byte, b1: byte, b2: byte, b3: byte)
    requires Ready(t) && Sized(t)
    ensures ColOf(Word4(k, t.ft0[b0 as int], t.ft1[b1 as int], t.ft2[b2 as int], t.ft3[b3 as int]))
         == XorCol(ColOf(k), MixCol(SubCol(t.fsb, Col(b0, b1, b2, b3))))
  {
    hide Ready, Sub, Word4, ColOf, XorCol, ForwardCol, RotCol, MixCol;
    var c := SubCol(t.fsb, Col(b0, b1, b2, b3));
    TableEntries(t, b0);
    TableEntries(t, b1);
    TableEntries(t, b2);
    TableEntries(t, b3);
    MixColIsRotSum(c);
    Word4Col(k, t.ft0[b0 as int], t.ft1[b1 as int], t.ft2[b2 as int], t.ft3[b3 as int]);
  }

  lemma ReverseWordCol(t: Tables, k: word, b0: byte, b1: byte, b2: byte, b3: byte)
    requires Ready(t) && Sized(t)
    ensures ColOf(Word4(k, t.rt0[b0 as int], t.rt1[b1 as int], t.rt2[b2 as int], t.rt3[b3 as int]))
         == XorCol(ColOf(k), InvMixCol(SubCol(t.rsb, Col(b0, b1, b2, b3))))
  {
    hide Ready, Sub, Word4, ColOf, XorCol, ReverseCol, RotCol, InvMixCol;
    var c := SubCol(t.rsb, Col(b0, b1, b2, b3));
    TableEntries(t, b0);
    TableEntries(t, b1);
    TableEntries(t, b2);
    TableEntries(t, b3);
    InvMixColIsRotSum(c);
    Word4Col(k, t.rt0[b0 as int], t.rt1[b1 as int], t.rt2[b2 as int], t.rt3[b3 as int]);
  }

  lemma ForwardRoundState(t: Tables, rk: seq<word>, i: nat, y: Words4)
    requires Ready(t) && Sized(t) && 4 * i + 4 <= |rk|
    ensures StateOf(ForwardRound(t, rk, 4 * i, y))
         == AddRoundKey(MixColumns(ShiftRows(SubBytes(t.fsb, StateOf(y)))), StateAt(rk, i))
  {
    hide Ready, Sub, Word4, Byte0, Byte1, Byte2, Byte3, XorCol, MixCol;
    ForwardWord(t, rk[4 * i], Byte0(y.w0), Byte1(y.w1), Byte2(y.w2), Byte3(y.w3));
    ForwardWord(t, rk[4 * i + 1], Byte0(y.w1), Byte1(y.w2), Byte2(y.w3), Byte3(y.w0));
    ForwardWord(t, rk[4 * i + 2], Byte0(y.w2), Byte1(y.w3), Byte2(y.w0), Byte3(y.w1));
    ForwardWord(t, rk[4 * i + 3], Byte0(y.w3), Byte1(y.w0), Byte2(y.w1), Byte3(y.w2));
  }

  lemma ReverseRoundState(t: Tables, rk: seq<word>, i: nat, y: Words4)
    requires Ready(t) && Sized(t) && 4 * i + 4 <= |rk|
    ensures StateOf(ReverseRound(t, rk, 4 * i, y))
         == AddRoundKey(InvMixColumns(InvShiftRows(SubBytes(t.rsb, StateOf(y)))), StateAt(rk, i))
  {
    hide Ready, Sub, Word4, Byte0, Byte1, Byte2, Byte3, XorCol, InvMixCol;
    ReverseWordCol(t, rk[4 * i], Byte0(y.w0), Byte1(y.w3), Byte2(y.w2), Byte3(y.w1));
    ReverseWordCol(t, rk[4 * i + 1], Byte0(y.w1), Byte1(y.w0), Byte2(y.w3), Byte3(y.w2));
    ReverseWordCol(t, rk[4 * i + 2], Byte0(y.w2), Byte1(y.w1), Byte2(y.w0), Byte3(y.w3));
    ReverseWordCol(t, rk[4 * i + 3], Byte0(y.w3), Byte1(y.w2), Byte2(y.w1), Byte3(y.w0));
  }

  lemma LastWordCol(k: word, s: seq<byte>, b0: byte, b1: byte, b2: byte, b3: byte)
    requires IsTable(s)
    ensures ColOf(LastWord(k, s, b0, b1, b2, b3)) == XorCol(ColOf(k), SubCol(s, Col(b0, b1, b2, b3)))
  {
    hide ColOf, WXor, Word, XorCol, Sub;
    ColXor(k, Word(Sub(s, b0), Sub(s, b1), Sub(s, b2), Sub(s, b3)));
    ColOfWord(Sub(s, b0), Sub(s, b1), Sub(s, b2), Sub(s, b3));
  }

  lemma ForwardLastState(t: Tables, rk: seq<word>, i: nat, y: Words4)
    requires Sized(t) && 4 * i + 4 <= |rk|
    ensures StateOf(ForwardLast(t, rk, 4 * i, y)) == AddRoundKey(ShiftRows(SubBytes(t.fsb, StateOf(y))), StateAt(rk, i))
  {
    hide Sub, LastWord, Byte0, Byte1, Byte2, Byte3, XorCol;
    LastWordCol(rk[4 * i], t.fsb, Byte0(y.w0), Byte1(y.w1), Byte2(y.w2), Byte3(y.w3));
    LastWordCol(rk[4 * i + 1], t.fsb, Byte0(y.w1), Byte1(y.w2), Byte2(y.w3), Byte3(y.w0));
    LastWordCol(rk[4 * i + 2], t.fsb, Byte0(y.w2), Byte1(y.w3), Byte2(y.w0), Byte3(y.w1));
    LastWordCol(rk[4 * i + 3], t.fsb, Byte0(y.w3), Byte1(y.w0), Byte2(y.w1), Byte3(y.w2));
  }

  lemma ReverseLastState(t: Tables, rk: seq<word>, i: nat, y: Words4)
    requires Sized(t) && 4 * i + 4 <= |rk|
    ensures StateOf(ReverseLast(t, rk, 4 * i, y))
         == AddRoundKey(InvShiftRows(SubBytes(t.rsb, StateOf(y))), StateAt(rk, i))
  {
    hide Sub, LastWord, Byte0, Byte1, Byte2, Byte3, XorCol;
    LastWordCol(rk[4 * i], t.rsb, Byte0(y.w0), Byte1(y.w3), Byte2(y.w2), Byte3(y.w1));
    LastWordCol(rk[4 * i + 1], t.rsb, Byte0(y.w1), Byte1(y.w0), Byte2(y.w3), Byte3(y.w2));
    LastWordCol(rk[4 * i + 2], t.rsb, Byte0(y.w2), Byte1(y.w1), Byte2(y.w0), Byte3(y.w3));
    LastWordCol(rk[4 * i + 3], t.rsb, Byte0(y.w3), Byte1(y.w2), Byte2(y.w1), Byte3(y.w0));
  }

  /** The input words XORed with the first round key. */
  function LoadWords(b: seq<byte>, rk: seq<word>): Words4
    requires |b| == 16 && |rk| >= 4
  {
    Words4(WXor(Word(b[0], b[1], b[2], b[3]), rk[0]), WXor(Word(b[4], b[5], b[6], b[7]), rk[1]),
           WXor(Word(b[8], b[9], b[10], b[11]), rk[2]), WXor(Word(b[12], b[13], b[14], b[15]), rk[3]))
  }

  lemma LoadWordsState(b: seq<byte>, rk: seq<word>)
    requires |b| == 16 && |rk| >= 4
    ensures StateOf(LoadWords(b, rk)) == AddRoundKey(BytesToState(b), StateAt(rk, 0))
  {
    hide ColOf, WXor, Word, XorCol;
    var x := BytesToState(b);
    ColOfWord(b[0], b[1], b[2], b[3]);
    ColOfWord(b[4], b[5], b[6], b[7]);
    ColOfWord(b[8], b[9], b[10], b[11]);
    ColOfWord(b[12], b[13], b[14], b[15]);
    ColXor(Word(b[0], b[1], b[2], b[3]), rk[0]);
    ColXor(Word(b[4], b[5], b[6], b[7]), rk[1]);
    ColXor(Word(b[8], b[9], b[10], b[11]), rk[2]);
    ColXor(Word(b[12], b[13], b[14], b[15]), rk[3]);
    XorColComm(x.c0, ColOf(rk[0]));
    XorColComm(x.c1, ColOf(rk[1]));
    XorColComm(x.c2, ColOf(rk[2]));
    XorColComm(x.c3, ColOf(rk[3]));
  }

  function WordBytes(w: word): (b: seq<byte>)
    ensures |b| == 4
  {
    [Byte0(w), Byte1(w), Byte2(w), Byte3(w)]
  }

  /** MBEDTLS_PUT_UINT32_LE. */
  method PutWord(w: word, output: array<byte>, k: nat)
    requires k + 4 <= output.Length
    modifies output
    ensures output[..] == old(output[..k]) + WordBytes(w) + old(output[k + 4..])
  {
    hide Byte0, Byte1, Byte2, Byte3;
    output[k] := Byte0(w);
    output[k + 1] := Byte1(w);
    output[k + 2] := Byte2(w);
    output[k + 3] := Byte3(w);
  }

  method StoreWords(x: Words4, output: array<byte>)
    requires output.Length == 16
    modifies output
    ensures output[..] == StateToBytes(StateOf(x))
  {
    hide StateOf, StateToBytes, WordBytes;
    PutWord(x.w0, output, 0);
    ghost var b0 := WordBytes(x.w0);
    assert output[..4] == b0;
    PutWord(x.w1, output, 4);
    ghost var b1 := b0 + WordBytes(x.w1);
    assert output[..8] == b1;
    PutWord(x.w2, output, 8);
    ghost var b2 := b1 + WordBytes(x.w2);
    assert output[..12] == b2;
    PutWord(x.w3, output, 12);
    assert output[..] == b2 + WordBytes(x.w3);
    StateBytesOfWords(x);
  }

  lemma StateBytesOfWords(x: Words4)
    ensures StateToBytes(StateOf(x)) == WordBytes(x.w0) + WordBytes(x.w1) + WordBytes(x.w2) + WordBytes(x.w3)
  {
    hide Byte0, Byte1, Byte2, Byte3;
  }

  // ---- the context ----

  datatype Status = Success | InvalidKeyLength

  /** Number of rounds for a key length in bits, 0 when the length is not supported. */
  function Rounds(keybits: int): nat {
    if keybits == 128 then 10 else if keybits == 192 then 12 else if keybits == 256 then 14 else 0
  }

  /** The first n words of the buffer are the first n words of the expanded key. */
  ghost predicate Expanded(s: seq<byte>, key: seq<byte>, nk: nat, rk: seq<word>, n: nat) {
    && IsTable(s) && nk > 0 && |key| == 4 * nk && n <= |rk|
    && forall i :: 0 <= i < n ==> ColOf(rk[i]) == KeyCol(s, key, nk, i)
  }

  lemma ExpandedSchedule(s: seq<byte>, key: seq<byte>, rk: seq<word>, nr: nat, n: nat)
    requires |key| in {16, 24, 32} && nr == |key| / 4 + 6
    requires Expanded(s, key, |key| / 4, rk, n) && 4 * nr + 4 <= n
    ensures RoundKeys(rk, nr) == KeySchedule(s, key)
  {
    hide ColOf, KeyCol;
    var w, v := RoundKeys(rk, nr), KeySchedule(s, key);
    forall i | 0 <= i <= nr
      ensures w[i] == v[i]
    {}
  }

  function SubRotWord(s: seq<byte>, w: word): word
    requires IsTable(s)
  {
    Word(Sub(s, Byte1(w)), Sub(s, Byte2(w)), Sub(s, Byte3(w)), Sub(s, Byte0(w)))
  }

  function SubWord(s: seq<byte>, w: word): word
    requires IsTable(s)
  {
    Word(Sub(s, Byte0(w)), Sub(s, Byte1(w)), Sub(s, Byte2(w)), Sub(s, Byte3(w)))
  }

  /** The word that starts a group: RotWord, SubWord and the round constant. */
  lemma GroupWord(s: seq<byte>, key: seq<byte>, nk: nat, rk: seq<word>, k: nat, rc: word)
    requires Expanded(s, key, nk, rk, k) && nk <= k && k % nk == 0
    requires ColOf(rc) == RconCol(k / nk - 1)
    ensures ColOf(WXor(WXor(rk[k - nk], rc), SubRotWord(s, rk[k - 1]))) == KeyCol(s, key, nk, k)
  {
    hide WXor, Word, XorCol, Sub, RconCol;
    var w := rk[k - 1];
    ColXor(rk[k - nk], rc);
    ColXor(WXor(rk[k - nk], rc), SubRotWord(s, w));
    ColOfWord(Sub(s, Byte1(w)), Sub(s, Byte2(w)), Sub(s, Byte3(w)), Sub(s, Byte0(w)));
    var g := SubCol(s, RotWord(ColOf(w)));
    XorColAssoc(ColOf(rk[k - nk]), ColOf(rc), g);
    XorColComm(ColOf(rc), g);
  }

  /** The fifth word of an 8-word group: SubWord alone. */
  lemma MiddleWord(s: seq<byte>, key: seq<byte>, nk: nat, rk: seq<word>, k: nat)
    requires Expanded(s, key, nk, rk, k) && nk <= k && nk > 6 && k % nk == 4
    ensures ColOf(WXor(rk[k - nk], SubWord(s, rk[k - 1]))) == KeyCol(s, key, nk, k)
  {
    hide WXor, Word, XorCol, Sub;
    var w := rk[k - 1];
    ColXor(rk[k - nk], SubWord(s, w));
    ColOfWord(Sub(s, Byte0(w)), Sub(s, Byte1(w)), Sub(s, Byte2(w)), Sub(s, Byte3(w)));
  }

  lemma PlainWord(s: seq<byte>, key: seq<byte>, nk: nat, rk: seq<word>, k: nat)
    requires Expanded(s, key, nk, rk, k) && nk <= k && k % nk != 0 && !(nk > 6 && k % nk == 4)
    ensures ColOf(WXor(rk[k - nk], rk[k - 1])) == KeyCol(s, key, nk, k)
  {
    hide ColOf, WXor, XorCol;
    ColXor(rk[k - nk], rk[k - 1]);
  }

  // ---- the schedule byte by byte ----

  /** Round constant i, in full. */
  function RoundConstant(i: nat): byte {
    if i == 0 then 0x01 else if i == 1 then 0x02 else if i == 2 then 0x04 else if i == 3 then 0x08
    else if i == 4 then 0x10 else if i == 5 then 0x20 else if i == 6 then 0x40 else if i == 7 then 0x80
    else if i == 8 then 0x1B else 0x36
  }

  lemma RoundConstantIs(i: nat)
    requires i < 10
    ensures Rcon(i) == RoundConstant(i)
  {
    assert Rcon(2) == 0x04;
    assert Rcon(4) == 0x10;
    assert Rcon(6) == 0x40;
    assert Rcon(8) == 0x1B;
  }

  /** The bytes of a word XOR those of the word before it in the last group. */
  predicate Differ(w: word, before: word, d0: byte, d1: byte, d2: byte, d3: byte) {
    && Xor(Byte0(w), Byte0(before)) == d0 && Xor(Byte1(w), Byte1(before)) == d1
    && Xor(Byte2(w), Byte2(before)) == d2 && Xor(Byte3(w), Byte3(before)) == d3
  }

  /** Word k of the buffer, byte by byte. The first nk words are the key. At the start of a group the difference to the
      word nk before is the S-box of bytes 1, 2, 3 and 0 of the last word, with the round constant on byte 0; in the
      middle of a 256-bit group it is the S-box of bytes 0 to 3; otherwise it is the last word itself. */
  predicate WordOfSchedule(s: seq<byte>, key: seq<byte>, rk: seq<word>, nk: nat, k: nat)
    requires IsTable(s) && |key| == 4 * nk && nk > 0 && k < |rk|
  {
    if k < nk then
      && Byte0(rk[k]) == key[4 * k] && Byte1(rk[k]) == key[4 * k + 1]
      && Byte2(rk[k]) == key[4 * k + 2] && Byte3(rk[k]) == key[4 * k + 3]
    else
      var last, before := rk[k - 1], rk[k - nk];
      if k % nk == 0 then
        Differ(rk[k], before, Xor(s[Byte1(last) as int], RoundConstant(k / nk - 1)),
               s[Byte2(last) as int], s[Byte3(last) as int], s[Byte0(last) as int])
      else if nk == 8 && k % nk == 4 then
        Differ(rk[k], before, s[Byte0(last) as int], s[Byte1(last) as int],
               s[Byte2(last) as int], s[Byte3(last) as int])
      else Differ(rk[k], before, Byte0(last), Byte1(last), Byte2(last), Byte3(last))
  }

  lemma DifferBy(w: word, before: word, d: Col)
    requires ColOf(w) == XorCol(ColOf(before), d)
    ensures Differ(w, before, d.b0, d.b1, d.b2, d.b3)
  {
    hide Xor, Byte0, Byte1, Byte2, Byte3;
    var b := ColOf(before);
    XorComm(b.b0, d.b0);
    XorComm(b.b1, d.b1);
    XorComm(b.b2, d.b2);
    XorComm(b.b3, d.b3);
    XorCancel(b.b0, d.b0);
    XorCancel(b.b1, d.b1);
    XorCancel(b.b2, d.b2);
    XorCancel(b.b3, d.b3);
  }

  lemma AllScheduleBytes(s: seq<byte>, key: seq<byte>, rk: seq<word>, nr: nat)
    requires |key| in {16, 24, 32} && nr == |key| / 4 + 6 && Expanded(s, key, |key| / 4, rk, 4 * nr + 4)
    ensures forall k :: 0 <= k < 4 * nr + 4 ==> WordOfSchedule(s, key, rk, |key| / 4, k)
  {
    hide Expanded, WordOfSchedule;
    ExpandedFits(s, key, rk, nr);
    forall k | 0 <= k < 4 * nr + 4
      ensures WordOfSchedule(s, key, rk, |key| / 4, k)
    {
      GroupsCounted(|key| / 4, k);
      ScheduleBytes(s, key, |key| / 4, rk, 4 * nr + 4, k);
    }
  }

  lemma ExpandedFits(s: seq<byte>, key: seq<byte>, rk: seq<word>, nr: nat)
    requires |key| in {16, 24, 32} && nr == |key| / 4 + 6 && Expanded(s, key, |key| / 4, rk, 4 * nr + 4)
    ensures IsTable(s) && |rk| >= 4 * nr + 4
  {}

  lemma GroupsCounted(nk: nat, k: nat)
    requires (nk == 4 || nk == 6 || nk == 8) && k < 4 * (nk + 6) + 4
    ensures k / nk <= 10
  {
    if nk == 4 {
    } else if nk == 6 {
    } else {
    }
  }

  lemma ScheduleBytes(s: seq<byte>, key: seq<byte>, nk: nat, rk: seq<word>, n: nat, k: nat)
    requires Expanded(s, key, nk, rk, n) && k < n && (nk == 4 || nk == 6 || nk == 8) && k / nk <= 10
    ensures WordOfSchedule(s, key, rk, nk, k)
  {
    hide WordOfSchedule;
    if k < nk {
      KeyBytes(s, key, nk, rk, n, k);
    } else if k % nk == 0 {
      GroupBytes(s, key, nk, rk, n, k);
    } else if nk == 8 && k % nk == 4 {
      MiddleBytes(s, key, rk, n, k);
    } else {
      PlainBytes(s, key, nk, rk, n, k);
    }
  }

  lemma KeyBytes(s: seq<byte>, key: seq<byte>, nk: nat, rk: seq<word>, n: nat, k: nat)
    requires Expanded(s, key, nk, rk, n) && k < n && k < nk
    ensures WordOfSchedule(s, key, rk, nk, k)
  {
    hide Byte0, Byte1, Byte2, Byte3;
    assert ColOf(rk[k]) == KeyCol(s, key, nk, k);
  }

  lemma GroupColumn(s: seq<byte>, key: seq<byte>, nk: nat, k: nat)
    requires IsTable(s) && nk > 0 && |key| == 4 * nk && nk <= k && k % nk == 0 && k / nk <= 10
    ensures var last := KeyCol(s, key, nk, k - 1);
            KeyCol(s, key, nk, k) == XorCol(KeyCol(s, key, nk, k - nk),
              Col(Xor(Sub(s, last.b1), RoundConstant(k / nk - 1)), Sub(s, last.b2), Sub(s, last.b3), Sub(s, last.b0)))
  {
    hide Xor, Rcon, Sub, RoundConstant;
    var last := KeyCol(s, key, nk, k - 1);
    RoundConstantIs(k / nk - 1);
    XorZero(Sub(s, last.b2));
    XorZero(Sub(s, last.b3));
    XorZero(Sub(s, last.b0));
  }

  lemma GroupBytes(s: seq<byte>, key: seq<byte>, nk: nat, rk: seq<word>, n: nat, k: nat)
    requires Expanded(s, key, nk, rk, n) && k < n && nk <= k && k % nk == 0 && k / nk <= 10
    ensures WordOfSchedule(s, key, rk, nk, k)
  {
    hide Differ, XorCol, Xor, KeyCol, RoundConstant, Byte0, Byte1, Byte2, Byte3;
    GroupColumn(s, key, nk, k);
    var last, rc := ColOf(rk[k - 1]), RoundConstant(k / nk - 1);
    assert ColOf(rk[k]) == KeyCol(s, key, nk, k);
    DifferBy(rk[k], rk[k - nk], Col(Xor(Sub(s, last.b1), rc), Sub(s, last.b2), Sub(s, last.b3), Sub(s, last.b0)));
  }

  lemma MiddleBytes(s: seq<byte>, key: seq<byte>, rk: seq<word>, n: nat, k: nat)
    requires Expanded(s, key, 8, rk, n) && k < n && 8 <= k && k % 8 == 4
    ensures WordOfSchedule(s, key, rk, 8, k)
  {
    hide Differ, XorCol, Xor, RotWord, RconCol, Byte0, Byte1, Byte2, Byte3;
    assert ColOf(rk[k]) == KeyCol(s, key, 8, k);
    DifferBy(rk[k], rk[k - 8], SubCol(s, ColOf(rk[k - 1])));
  }

  lemma PlainBytes(s: seq<byte>, key: seq<byte>, nk: nat, rk: seq<word>, n: nat, k: nat)
    requires Expanded(s, key, nk, rk, n) && k < n && nk <= k && k % nk != 0 && !(nk > 6 && k % nk == 4)
    ensures WordOfSchedule(s, key, rk, nk, k)
  {
    hide Differ, XorCol, Xor, SubCol, RotWord, RconCol, Byte0, Byte1, Byte2, Byte3;
    assert ColOf(rk[k]) == KeyCol(s, key, nk, k);
    DifferBy(rk[k], rk[k - nk], ColOf(rk[k - 1]));
  }

  // ---- the decryption schedule ----

  /** The word RT0[FSb[..]] ^ RT1[FSb[..]] ^ RT2[FSb[..]] ^ RT3[FSb[..]] of setkey_dec. */
  function MixedWord(t: Tables, w: word): word
    requires Sized(t)
  {
    WXor(WXor(WXor(t.rt0[t.fsb[Byte0(w) as int] as int], t.rt1[t.fsb[Byte1(w) as int] as int]),
              t.rt2[t.fsb[Byte2(w) as int] as int]),
         t.rt3[t.fsb[Byte3(w) as int] as int])
  }

  /** Going through both S-boxes, the reverse tables apply InvMixColumns alone. */
  lemma MixedWordCol(t: Tables, w: word)
    requires Ready(t) && Sized(t)
    ensures ColOf(MixedWord(t, w)) == InvMixCol(ColOf(w))
  {
    hide Ready, WXor, XorCol, RotCol, ReverseCol, InvMixCol, Byte0, Byte1, Byte2, Byte3;
    var c := ColOf(w);
    var f0, f1, f2, f3 := Sub(t.fsb, c.b0), Sub(t.fsb, c.b1), Sub(t.fsb, c.b2), Sub(t.fsb, c.b3);
    ReadyUndoes(t);
    SubUndo(t.rsb, t.fsb, c.b0);
    SubUndo(t.rsb, t.fsb, c.b1);
    SubUndo(t.rsb, t.fsb, c.b2);
    SubUndo(t.rsb, t.fsb, c.b3);
    ReverseSum(t, f0, f1, f2, f3);
    InvMixColIsRotSum(c);
  }

  lemma ReverseSum(t: Tables, b0: byte, b1: byte, b2: byte, b3: byte)
    requires Ready(t) && Sized(t)
    ensures ColOf(WXor(WXor(WXor(t.rt0[b0 as int], t.rt1[b1 as int]), t.rt2[b2 as int]), t.rt3[b3 as int]))
         == RotSum(ReverseCol(Sub(t.rsb, b0)), ReverseCol(Sub(t.rsb, b1)),
                   ReverseCol(Sub(t.rsb, b2)), ReverseCol(Sub(t.rsb, b3)))
  {
    hide Ready, Sub, WXor, ColOf, XorCol, RotCol, ReverseCol;
    TableEntries(t, b0);
    TableEntries(t, b1);
    TableEntries(t, b2);
    TableEntries(t, b3);
    var w0, w1, w2, w3 := t.rt0[b0 as int], t.rt1[b1 as int], t.rt2[b2 as int], t.rt3[b3 as int];
    ColXor(w0, w1);
    ColXor(WXor(w0, w1), w2);
    ColXor(WXor(WXor(w0, w1), w2), w3);
  }

  lemma ReadyUndoes(t: Tables)
    requires Ready(t)
    ensures Undoes(t.rsb, t.fsb)
  {}

  /** The first n round keys of the buffer are those of the schedule dw. */
  ghost predicate Filled(rk: seq<word>, dw: seq<State>, n: nat) {
    && n <= |dw| && 4 * |dw| <= |rk|
    && forall i :: 0 <= i < n ==> StateAt(rk, i) == dw[i]
  }

  lemma FilledNext(before: seq<word>, rk: seq<word>, dw: seq<State>, n: nat)
    requires Filled(before, dw, n) && n < |dw|
    requires |rk| == |before| && rk[..4 * n] == before[..4 * n] && StateAt(rk, n) == dw[n]
    ensures Filled(rk, dw, n + 1)
  {
    hide ColOf;
    forall i | 0 <= i < n
      ensures StateAt(rk, i) == dw[i]
    {
      assert StateAt(before, i) == dw[i];
      SamePrefix(before, rk, 4 * n, 4 * i);
    }
  }

  lemma FilledFits(rk: seq<word>, dw: seq<State>, n: nat)
    requires Filled(rk, dw, n)
    ensures n <= |dw| && 4 * |dw| <= |rk|
  {}

  lemma NoneFilled(rk: seq<word>, dw: seq<State>)
    requires 4 * |dw| <= |rk|
    ensures Filled(rk, dw, 0)
  {}

  lemma AllFilled(rk: seq<word>, dw: seq<State>, nr: nat)
    requires Filled(rk, dw, nr + 1) && |dw| == nr + 1
    ensures 4 * nr + 4 <= |rk| && RoundKeys(rk, nr) == dw
  {
    hide StateAt;
  }

  lemma SamePrefix(a: seq<word>, b: seq<word>, n: nat, k: nat)
    requires n <= |a| && n <= |b| && a[..n] == b[..n] && k + 4 <= n
    ensures a[k] == b[k] && a[k + 1] == b[k + 1] && a[k + 2] == b[k + 2] && a[k + 3] == b[k + 3]
  {
    assert a[k] == a[..n][k] && b[k] == b[..n][k];
    assert a[k + 1] == a[..n][k + 1] && b[k + 1] == b[..n][k + 1];
    assert a[k + 2] == a[..n][k + 2] && b[k + 2] == b[..n][k + 2];
    assert a[k + 3] == a[..n][k + 3] && b[k + 3] == b[..n][k + 3];
  }

  ghost predicate MixedAt(rk: seq<word>, rp: nat, sk: seq<word>, sp: nat, k: nat) {
    && rp + k < |rk| && sp + k < |sk|
    && ColOf(rk[rp + k]) == InvMixCol(ColOf(sk[sp + k]))
  }

  class AesContext {
    var nr: nat
    const rk: array<word>

    constructor ()
      ensures fresh(rk) && rk.Length == 68
    {
      rk := new word[68];
    }

    ghost predicate Usable()
      reads this
    {
      rk.Length == 68 && (nr == 10 || nr == 12 || nr == 14)
    }

    ghost function Keys(): (w: seq<State>)
      requires Usable()
      reads this, rk
      ensures |w| == nr + 1
    {
      RoundKeys(rk[..], nr)
    }

    /** mbedtls_internal_aes_encrypt; input and output may be the same buffer. */
    method Encrypt(t: Tables, input: array<byte>, output: array<byte>)
      requires Ready(t) && Usable()
      requires input.Length == output.Length == 16
      modifies output
      ensures output[..] == StateToBytes(Cipher(t.fsb, Keys(), BytesToState(old(input[..]))))
    {
      hide Ready, ForwardRound, ForwardLast, LoadWords, BytesToState, StateToBytes, StateOf, StateAt;
      hide AddRoundKey, MixColumns, ShiftRows, SubBytes;
      ReadySized(t);
      ghost var w, x0 := Keys(), BytesToState(input[..]);
      var x := LoadWords(input[..], rk[..]);
      LoadWordsState(input[..], rk[..]);
      var p := 4;
      for i := nr / 2 - 1 downto 0
        invariant p == 4 * (nr - 1 - 2 * i)
        invariant StateOf(x) == CipherRound(t.fsb, w, x0, nr - 2 - 2 * i)
      {
        var y := ForwardRound(t, rk[..], p, x);
        ForwardRoundState(t, rk[..], p / 4, x);
        x := ForwardRound(t, rk[..], p + 4, y);
        ForwardRoundState(t, rk[..], p / 4 + 1, y);
        p := p + 8;
      }
      var y := ForwardRound(t, rk[..], p, x);
      ForwardRoundState(t, rk[..], nr - 1, x);
      x := ForwardLast(t, rk[..], p + 4, y);
      ForwardLastState(t, rk[..], nr, y);
      StoreWords(x, output);
    }

    /** mbedtls_internal_aes_decrypt; input and output may be the same buffer. */
    method Decrypt(t: Tables, input: array<byte>, output: array<byte>)
      requires Ready(t) && Usable()
      requires input.Length == output.Length == 16
      modifies output
      ensures output[..] == StateToBytes(EqInvCipher(t.rsb, Keys(), BytesToState(old(input[..]))))
    {
      hide Ready, ReverseRound, ReverseLast, LoadWords, BytesToState, StateToBytes, StateOf, StateAt;
      hide AddRoundKey, InvMixColumns, InvShiftRows, SubBytes;
      ReadySized(t);
      ghost var w, x0 := Keys(), BytesToState(input[..]);
      var x := LoadWords(input[..], rk[..]);
      LoadWordsState(input[..], rk[..]);
      var p := 4;
      for i := nr / 2 - 1 downto 0
        invariant p == 4 * (nr - 1 - 2 * i)
        invariant StateOf(x) == EqInvRound(t.rsb, w, x0, nr - 2 - 2 * i)
      {
        var y := ReverseRound(t, rk[..], p, x);
        ReverseRoundState(t, rk[..], p / 4, x);
        x := ReverseRound(t, rk[..], p + 4, y);
        ReverseRoundState(t, rk[..], p / 4 + 1, y);
        p := p + 8;
      }
      var y := ReverseRound(t, rk[..], p, x);
      ReverseRoundState(t, rk[..], nr - 1, x);
      x := ReverseLast(t, rk[..], p + 4, y);
      ReverseLastState(t, rk[..], nr, y);
      StoreWords(x, output);
    }

    /** mbedtls_aes_setkey_enc, with one loop per key size as the source has. */
    method SetKeyEnc(t: Tables, key: array<byte>, keybits: int) returns (ret: Status)
      requires Ready(t)
      requires rk.Length == 68
      requires Rounds(keybits) != 0 ==> key.Length == keybits / 8
      modifies this`nr, rk
      ensures ret == (if Rounds(keybits) == 0 then InvalidKeyLength else Success)
      ensures ret.InvalidKeyLength? ==> nr == old(nr) && rk[..] == old(rk[..])
      ensures ret.Success? ==> nr == Rounds(keybits) && Usable() && Keys() == KeySchedule(t.fsb, key[..])
      ensures ret.Success? <==> keybits == 128 || keybits == 192 || keybits == 256
      ensures ret.Success? ==> nr == keybits / 32 + 6
      ensures ret.Success? ==>
                forall k :: 0 <= k < 4 * nr + 4 ==> WordOfSchedule(t.fsb, key[..], rk[..], keybits / 32, k)
    {
      ReadySized(t);
      if keybits != 128 && keybits != 192 && keybits != 256 {
        return InvalidKeyLength;
      }
      nr := Rounds(keybits);
      LoadKey(t, key);
      if nr == 10 {
        Expand4(t, key[..]);
      } else if nr == 12 {
        Expand6(t, key[..]);
      } else {
        Expand8(t, key[..]);
      }
      ret := Success;
      ExpandedSchedule(t.fsb, key[..], rk[..], nr, 4 * nr + 4);
      AllScheduleBytes(t.fsb, key[..], rk[..], nr);
    }

    /** Stores word k of the expanded key. */
    method Append(ghost s: seq<byte>, ghost key: seq<byte>, ghost nk: nat, k: nat, v: word)
      requires k < rk.Length && Expanded(s, key, nk, rk[..], k)
      requires ColOf(v) == KeyCol(s, key, nk, k)
      modifies rk
      ensures Expanded(s, key, nk, rk[..], k + 1)
    {
      hide ColOf, KeyCol;
      rk[k] := v;
    }

    method LoadKey(t: Tables, key: array<byte>)
      requires Sized(t) && rk.Length == 68
      requires key.Length in {16, 24, 32}
      modifies rk
      ensures Expanded(t.fsb, key[..], key.Length / 4, rk[..], key.Length / 4)
    {
      hide ColOf, Word;
      for i := 0 to key.Length / 4
        invariant Expanded(t.fsb, key[..], key.Length / 4, rk[..], i)
      {
        ColOfWord(key[4 * i], key[4 * i + 1], key[4 * i + 2], key[4 * i + 3]);
        Append(t.fsb, key[..], key.Length / 4, i, Word(key[4 * i], key[4 * i + 1], key[4 * i + 2], key[4 * i + 3]));
      }
    }

    /** A word of the form RK[k] = RK[k - nk] ^ RK[k - 1]. */
    method Chain(t: Tables, ghost key: seq<byte>, nk: nat, k: nat)
      requires k < rk.Length && Expanded(t.fsb, key, nk, rk[..], k)
      requires nk <= k && k % nk != 0 && !(nk > 6 && k % nk == 4)
      modifies rk
      ensures Expanded(t.fsb, key, nk, rk[..], k + 1)
    {
      hide ColOf, WXor, KeyCol;
      PlainWord(t.fsb, key, nk, rk[..], k);
      Append(t.fsb, key, nk, k, WXor(rk[k - nk], rk[k - 1]));
    }

    /** The word that starts group i. */
    method StartGroup(t: Tables, ghost key: seq<byte>, nk: nat, i: nat)
      requires Ready(t) && i < 10 && (nk == 4 || nk == 6 || nk == 8)
      requires nk * (i + 1) < rk.Length && Expanded(t.fsb, key, nk, rk[..], nk * (i + 1))
      modifies rk
      ensures Expanded(t.fsb, key, nk, rk[..], nk * (i + 1) + 1)
    {
      hide ColOf, WXor, KeyCol, SubRotWord, RoundEntries, Undoes;
      var k := nk * (i + 1);
      GroupNumber(nk, i);
      GroupWord(t.fsb, key, nk, rk[..], k, t.rcon[i]);
      Append(t.fsb, key, nk, k, WXor(WXor(rk[k - nk], t.rcon[i]), SubRotWord(t.fsb, rk[k - 1])));
    }

    method Expand4(t: Tables, ghost key: seq<byte>)
      requires Ready(t) && rk.Length == 68 && Expanded(t.fsb, key, 4, rk[..], 4)
      modifies rk
      ensures Expanded(t.fsb, key, 4, rk[..], 44)
    {
      hide Ready, Expanded;
      for i := 0 to 10
        invariant Expanded(t.fsb, key, 4, rk[..], 4 * (i + 1))
      {
        StartGroup(t, key, 4, i);
        Chain(t, key, 4, 4 * i + 5);
        Chain(t, key, 4, 4 * i + 6);
        Chain(t, key, 4, 4 * i + 7);
      }
    }

    method Expand6(t: Tables, ghost key: seq<byte>)
      requires Ready(t) && rk.Length == 68 && Expanded(t.fsb, key, 6, rk[..], 6)
      modifies rk
      ensures Expanded(t.fsb, key, 6, rk[..], 54)
    {
      hide Ready, Expanded;
      for i := 0 to 8
        invariant Expanded(t.fsb, key, 6, rk[..], 6 * (i + 1))
      {
        StartGroup(t, key, 6, i);
        Chain(t, key, 6, 6 * i + 7);
        Chain(t, key, 6, 6 * i + 8);
        Chain(t, key, 6, 6 * i + 9);
        Chain(t, key, 6, 6 * i + 10);
        Chain(t, key, 6, 6 * i + 11);
      }
    }

    method Expand8(t: Tables, ghost key: seq<byte>)
      requires Ready(t) && rk.Length == 68 && Expanded(t.fsb, key, 8, rk[..], 8)
      modifies rk
      ensures Expanded(t.fsb, key, 8, rk[..], 64)
    {
      hide Ready, Expanded;
      for i := 0 to 7
        invariant Expanded(t.fsb, key, 8, rk[..], 8 * (i + 1))
      {
        StartGroup(t, key, 8, i);
        Chain(t, key, 8, 8 * i + 9);
        Chain(t, key, 8, 8 * i + 10);
        Chain(t, key, 8, 8 * i + 11);
        Middle(t, key, 8 * i + 12);
        Chain(t, key, 8, 8 * i + 13);
        Chain(t, key, 8, 8 * i + 14);
        Chain(t, key, 8, 8 * i + 15);
      }
    }

    method Middle(t: Tables, ghost key: seq<byte>, k: nat)
      requires k < rk.Length && Expanded(t.fsb, key, 8, rk[..], k)
      requires 8 <= k && k % 8 == 4
      modifies rk
      ensures Expanded(t.fsb, key, 8, rk[..], k + 1)
    {
      hide ColOf, WXor, KeyCol, SubWord;
      MiddleWord(t.fsb, key, 8, rk[..], k);
      Append(t.fsb, key, 8, k, WXor(rk[k - 8], SubWord(t.fsb, rk[k - 1])));
    }

    /** mbedtls_aes_setkey_dec. */
    method SetKeyDec(t: Tables, key: array<byte>, keybits: int) returns (ret: Status)
      requires Ready(t)
      requires rk.Length == 68
      requires Rounds(keybits) != 0 ==> key.Length == keybits / 8
      modifies this`nr, rk
      ensures ret == (if Rounds(keybits) == 0 then InvalidKeyLength else Success)
      ensures ret.InvalidKeyLength? ==> nr == old(nr) && rk[..] == old(rk[..])
      ensures ret.Success? ==>
                nr == Rounds(keybits) && Usable() && Keys() == DecryptionKeys(KeySchedule(t.fsb, key[..]))
    {
      hide Ready, KeySchedule, DecryptionKeys;
      var cty := new AesContext();
      ret := cty.SetKeyEnc(t, key, keybits);
      if ret != Success {
        return;
      }
      nr := cty.nr;
      Reverse(t, cty.rk, cty.Keys());
    }

    /** The copying loops of setkey_dec: SK runs backwards round by round, RK forwards. */
    method Reverse(t: Tables, sk: array<word>, ghost w: seq<State>)
      requires Ready(t) && Usable() && sk != rk
      requires 4 * nr + 4 <= sk.Length && w == RoundKeys(sk[..], nr)
      modifies rk
      ensures Keys() == DecryptionKeys(w)
    {
      hide Ready, DecryptionKeys, StateAt, RoundKeys, Filled;
      ghost var dw := DecryptionKeys(w);
      DecryptionKeysAt(w);
      NoneFilled(rk[..], dw);
      CopyRound(sk, 4 * nr, 0, w, dw);
      var rp, sp := 4, 4 * nr + 4;
      var i := nr - 1;
      sp := sp - 8;
      while i > 0
        invariant 0 <= i < nr && rp == 4 * (nr - i) && sp == 4 * i
        invariant Filled(rk[..], dw, nr - i)
      {
        MixRound(t, sk, sp, rp, w, dw);
        rp, sp := rp + 4, sp + 4;
        i := i - 1;
        sp := sp - 8;
      }
      CopyRound(sk, 0, 4 * nr, w, dw);
      AllFilled(rk[..], dw, nr);
    }

    /** One round key copied unchanged. */
    method CopyRound(sk: array<word>, sp: nat, rp: nat, ghost w: seq<State>, ghost dw: seq<State>)
      requires sk != rk && sp % 4 == 0 && rp % 4 == 0 && rk.Length == 68
      requires 4 * nr + 4 <= sk.Length && w == RoundKeys(sk[..], nr)
      requires sp <= 4 * nr && rp <= 4 * nr && |dw| == nr + 1 && dw[rp / 4] == w[sp / 4]
      requires Filled(rk[..], dw, rp / 4)
      modifies rk
      ensures Filled(rk[..], dw, rp / 4 + 1)
    {
      hide StateAt, Filled;
      FilledFits(rk[..], dw, rp / 4);
      ghost var before := rk[..];
      CopyKey(sk, sp, rp);
      FilledNext(before, rk[..], dw, rp / 4);
    }

    /** One round key copied with InvMixColumns applied. */
    method MixRound(t: Tables, sk: array<word>, sp: nat, rp: nat, ghost w: seq<State>, ghost dw: seq<State>)
      requires Ready(t) && sk != rk && sp % 4 == 0 && rp % 4 == 0 && rk.Length == 68
      requires 4 * nr + 4 <= sk.Length && w == RoundKeys(sk[..], nr)
      requires sp <= 4 * nr && rp <= 4 * nr && |dw| == nr + 1 && dw[rp / 4] == InvMixColumns(w[sp / 4])
      requires Filled(rk[..], dw, rp / 4)
      modifies rk
      ensures Filled(rk[..], dw, rp / 4 + 1)
    {
      hide Ready, StateAt, Filled, InvMixColumns;
      ReadySized(t);
      FilledFits(rk[..], dw, rp / 4);
      ghost var before := rk[..];
      MixKey(t, sk, sp, rp);
      FilledNext(before, rk[..], dw, rp / 4);
    }

    /** Four words copied from the encryption schedule. */
    method CopyKey(sk: array<word>, sp: nat, rp: nat)
      requires sk != rk && sp % 4 == 0 && rp % 4 == 0
      requires sp + 4 <= sk.Length && rp + 4 <= rk.Length
      modifies rk
      ensures rk[..rp] == old(rk[..rp])
      ensures StateAt(rk[..], rp / 4) == StateAt(sk[..], sp / 4)
    {
      hide ColOf;
      rk[rp] := sk[sp];
      rk[rp + 1] := sk[sp + 1];
      rk[rp + 2] := sk[sp + 2];
      rk[rp + 3] := sk[sp + 3];
    }

    /** Four words of the encryption schedule with InvMixColumns applied. */
    method MixKey(t: Tables, sk: array<word>, sp: nat, rp: nat)
      requires Ready(t) && Sized(t)
      requires sk != rk && sp % 4 == 0 && rp % 4 == 0
      requires sp + 4 <= sk.Length && rp + 4 <= rk.Length
      modifies rk
      ensures rk[..rp] == old(rk[..rp])
      ensures StateAt(rk[..], rp / 4) == InvMixColumns(StateAt(sk[..], sp / 4))
    {
      hide Ready, ColOf, InvMixCol, MixedWord;
      for j := 0 to 4
        invariant rk[..rp] == old(rk[..rp])
        invariant forall k :: 0 <= k < j ==> MixedAt(rk[..], rp, sk[..], sp, k)
      {
        ghost var before := rk[..];
        MixedWordCol(t, sk[sp + j]);
        rk[rp + j] := MixedWord(t, sk[sp + j]);
        forall k | 0 <= k < j
          ensures MixedAt(rk[..], rp, sk[..], sp, k)
        {
          assert MixedAt(before, rp, sk[..], sp, k);
          assert rk[rp + k] == before[rp + k];
        }
      }
      assert MixedAt(rk[..], rp, sk[..], sp, 0) && MixedAt(rk[..], rp, sk[..], sp, 1);
      assert MixedAt(rk[..], rp, sk[..], sp, 2) && MixedAt(rk[..], rp, sk[..], sp, 3);
    }
  }

  lemma DecryptionKeysAt(w: seq<State>)
    requires |w| >= 2
    ensures DecryptionKeys(w)[0] == w[|w| - 1] && DecryptionKeys(w)[|w| - 1] == w[0]
    ensures forall i :: 0 < i < |w| - 1 ==> DecryptionKeys(w)[i] == InvMixColumns(w[|w| - 1 - i])
  {}

  lemma GroupNumber(nk: nat, i: nat)
    requires nk == 4 || nk == 6 || nk == 8
    ensures (nk * (i + 1)) % nk == 0 && (nk * (i + 1)) / nk == i + 1 && nk <= nk * (i + 1)
  {
    if nk == 4 {
      assert (4 * (i + 1)) / 4 == i + 1;
    } else if nk == 6 {
      assert (6 * (i + 1)) / 6 == i + 1;
    } else {
      assert (8 * (i + 1)) / 8 == i + 1;
    }
  }

  lemma ReadySized(t: Tables)
    requires Ready(t)
    ensures Sized(t)
  {}

  // ---- the block transforms as functions of key and block ----

  function EncryptBlock(s: seq<byte>, w: seq<State>, b: seq<byte>): (c: seq<byte>)
    requires IsTable(s) && |w| >= 2 && |b| == 16
    ensures |c| == 16
  {
    StateToBytes(Cipher(s, w, BytesToState(b)))
  }

  function DecryptBlock(r: seq<byte>, dw: seq<State>, b: seq<byte>): (c: seq<byte>)
    requires IsTable(r) && |dw| >= 2 && |b| == 16
    ensures |c| == 16
  {
    StateToBytes(EqInvCipher(r, dw, BytesToState(b)))
  }

  lemma StateBytesState(x: State)
    ensures BytesToState(StateToBytes(x)) == x
  {}

  /** On bytes: decryption under the decryption schedule gives back every block. */
  lemma BlockRoundTrip(r: seq<byte>, s: seq<byte>, w: seq<State>, b: seq<byte>)
    requires Undoes(r, s) && |w| >= 2 && |b| == 16
    ensures DecryptBlock(r, DecryptionKeys(w), EncryptBlock(s, w, b)) == b
  {
    hide StateToBytes, BytesToState, Cipher, EqInvCipher, DecryptionKeys;
    var x := BytesToState(b);
    StateBytesState(Cipher(s, w, x));
    DecryptionUndoesEncryption(r, s, w, x);
    BytesStateBytes(b);
  }

  /** The whole path through the code: generated tables, both key schedules and both block
      transforms, for every supported key and every block, in place. */
  method EncryptThenDecrypt(key: array<byte>, block: array<byte>)
    requires key.Length in {16, 24, 32} && block.Length == 16 && block != key
    modifies block
    ensures block[..] == old(block[..])
  {
    hide Ready, KeySchedule, DecryptionKeys, Cipher, EqInvCipher, StateToBytes, BytesToState, StateAt;
    var t := GenTables();
    ReadySized(t);
    ReadyUndoes(t);
    var enc := new AesContext();
    var dec := new AesContext();
    var r := enc.SetKeyEnc(t, key, 8 * key.Length);
    var r' := dec.SetKeyDec(t, key, 8 * key.Length);
    BlockRoundTrip(t.rsb, t.fsb, enc.Keys(), block[..]);
    enc.Encrypt(t, block, block);
    dec.Decrypt(t, block, block);
  }
}
