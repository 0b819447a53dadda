/** The ARIA block cipher of aria.c: the word routines, the key schedules and the one routine that
    both encrypts and decrypts. */
module Aria {
  import opened Bytes
  import opened Words
  import opened AriaDiffusion
  import opened AriaTables

  // ---- byte orders of a word ----

  function P1(x: word): word { ((x >> 8) & 0x00FF00FF) ^ ((x & 0x00FF00FF) << 8) }
  function P2(x: word): word { (x >> 16) ^ (x << 16) }
  function P3(x: word): word { P2(P1(x)) }

  lemma OrderBytes(x: word)
    ensures Byte0(P1(x)) == Byte1(x) && Byte1(P1(x)) == Byte0(x) && Byte2(P1(x)) == Byte3(x) && Byte3(P1(x)) == Byte2(x)
    ensures Byte0(P2(x)) == Byte2(x) && Byte1(P2(x)) == Byte3(x) && Byte2(P2(x)) == Byte0(x) && Byte3(P2(x)) == Byte1(x)
  {}

  lemma OrderCol(x: word)
    ensures ColOf(P1(x)) == Swap1(ColOf(x))
    ensures ColOf(P2(x)) == Swap2(ColOf(x))
  {
    hide P1, P2, Byte0, Byte1, Byte2, Byte3;
    OrderBytes(x);
  }

  // ---- aria_a ----

  /** The statements of aria_a, on columns. */
  function Steps(x: Quad): Quad {
    var a := Swap2(x.b);
    var tb := Swap2(x.d);
    var d := Swap1(x.c);
    var c := Swap1(tb);
    var ta := XorCol(x.b, d);
    var tc := Swap2(x.a);
    var ta' := XorCol(XorCol(Swap1(ta), tc), c);
    var tb' := XorCol(tb, Swap2(d));
    var tc' := XorCol(tc, Swap1(a));
    var tb'' := XorCol(Swap2(tb'), ta');
    var ta'' := Swap2(ta');
    Quad(XorCol(a, Swap1(tb'')),
         XorCol(x.a, XorCol(ta', tb')),
         XorCol(c, XorCol(Swap1(Swap2(tc')), ta'')),
         XorCol(d, XorCol(Swap1(ta''), tc')))
  }

  lemma FourTerms(a: byte, b: byte, c: byte, d: byte)
    ensures Xor(Xor(Xor(a, b), c), d) == Xor(Xor(c, a), Xor(b, d))
  {
    hide Xor;
    XorComm(Xor(a, b), c);
    XorAssoc(c, a, b);
    XorAssoc(Xor(c, a), b, d);
  }

  lemma FourPairs(a: byte, b: byte, c: byte, d: byte)
    ensures Xor(Xor(a, b), Xor(c, d)) == Xor(Xor(d, a), Xor(c, b))
  {
    hide Xor;
    XorComm(c, d);
    XorSwap(a, b, d, c);
    XorComm(a, d);
    XorComm(b, c);
  }

  // The terms each word of aria_a accumulates, in the order the statements add them, regrouped.

  lemma AccumulatedA(b2: byte, d1: byte, c: byte, b: byte, c1: byte, a3: byte, d2: byte)
    ensures Xor(b2, Xor(Xor(d1, c), Xor(Xor(Xor(b, c1), a3), d2)))
         == Xor(Xor(Xor(a3, Xor(b, b2)), Xor(c, c1)), Xor(d1, d2))
  {
    hide Xor;
    FourTerms(b, c1, a3, d2);
    var p := Xor(a3, b);
    XorComm(Xor(d1, c), Xor(p, Xor(c1, d2)));
    XorAssoc(p, Xor(c1, d2), Xor(d1, c));
    FourPairs(c1, d2, d1, c);
    var w := Xor(Xor(c, c1), Xor(d1, d2));
    XorAssoc(b2, p, w);
    XorComm(b2, p);
    XorAssoc(a3, b, b2);
    XorAssoc(Xor(a3, Xor(b, b2)), Xor(c, c1), Xor(d1, d2));
  }

  lemma StepsRowA(x: Quad)
    ensures Steps(x).a == RowA(x)
  {
    hide Xor;
    var b2, d1, c, b, c1, a3, d2 := Swap2(x.b), Swap1(x.d), x.c, x.b, Swap1(x.c), Swap3(x.a), Swap2(x.d);
    AccumulatedA(b2.b0, d1.b0, c.b0, b.b0, c1.b0, a3.b0, d2.b0);
    AccumulatedA(b2.b1, d1.b1, c.b1, b.b1, c1.b1, a3.b1, d2.b1);
    AccumulatedA(b2.b2, d1.b2, c.b2, b.b2, c1.b2, a3.b2, d2.b2);
    AccumulatedA(b2.b3, d1.b3, c.b3, b.b3, c1.b3, a3.b3, d2.b3);
  }

  lemma AccumulatedB(a: byte, b1: byte, c: byte, a2: byte, d3: byte, d2: byte, c3: byte)
    ensures Xor(a, Xor(Xor(Xor(Xor(b1, c), a2), d3), Xor(d2, c3)))
         == Xor(Xor(Xor(Xor(a, a2), b1), Xor(c, c3)), Xor(d2, d3))
  {
    hide Xor;
    FourTerms(b1, c, a2, d3);
    XorAssoc(Xor(a2, b1), Xor(c, d3), Xor(d2, c3));
    FourPairs(c, d3, d2, c3);
    XorComm(c3, c);
    var w := Xor(Xor(c, c3), Xor(d2, d3));
    XorAssoc(a, Xor(a2, b1), w);
    XorAssoc(a, a2, b1);
    XorAssoc(Xor(Xor(a, a2), b1), Xor(c, c3), Xor(d2, d3));
  }

  lemma StepsRowB(x: Quad)
    ensures Steps(x).b == RowB(x)
  {
    hide Xor;
    var a, b1, c, a2, d3, d2, c3 := x.a, Swap1(x.b), x.c, Swap2(x.a), Swap3(x.d), Swap2(x.d), Swap3(x.c);
    AccumulatedB(a.b0, b1.b0, c.b0, a2.b0, d3.b0, d2.b0, c3.b0);
    AccumulatedB(a.b1, b1.b1, c.b1, a2.b1, d3.b1, d2.b1, c3.b1);
    AccumulatedB(a.b2, b1.b2, c.b2, a2.b2, d3.b2, d2.b2, c3.b2);
    AccumulatedB(a.b3, b1.b3, c.b3, a2.b3, d3.b3, d2.b3, c3.b3);
  }

  lemma AccumulatedC(d3: byte, a1: byte, b: byte, b3: byte, c2: byte, a: byte, d1: byte)
    ensures Xor(d3, Xor(Xor(a1, b), Xor(Xor(Xor(b3, c2), a), d1)))
         == Xor(Xor(Xor(Xor(a, a1), Xor(b, b3)), c2), Xor(d1, d3))
  {
    hide Xor;
    FourTerms(b3, c2, a, d1);
    XorAssoc(Xor(a1, b), Xor(a, b3), Xor(c2, d1));
    XorSwap(a1, b, a, b3);
    XorComm(a1, a);
    var y := Xor(Xor(a, a1), Xor(b, b3));
    XorComm(d3, Xor(y, Xor(c2, d1)));
    XorAssoc(y, c2, d1);
    XorAssoc(Xor(y, c2), d1, d3);
  }

  lemma StepsRowC(x: Quad)
    ensures Steps(x).c == RowC(x)
  {
    hide Xor;
    var d3, a1, b, b3, c2, a, d1 := Swap3(x.d), Swap1(x.a), x.b, Swap3(x.b), Swap2(x.c), x.a, Swap1(x.d);
    AccumulatedC(d3.b0, a1.b0, b.b0, b3.b0, c2.b0, a.b0, d1.b0);
    AccumulatedC(d3.b1, a1.b1, b.b1, b3.b1, c2.b1, a.b1, d1.b1);
    AccumulatedC(d3.b2, a1.b2, b.b2, b3.b2, c2.b2, a.b2, d1.b2);
    AccumulatedC(d3.b3, a1.b3, b.b3, b3.b3, c2.b3, a.b3, d1.b3);
  }

  lemma AccumulatedD(c1: byte, b2: byte, c3: byte, a1: byte, d: byte, a2: byte, b3: byte)
    ensures Xor(c1, Xor(Xor(Xor(Xor(b2, c3), a1), d), Xor(a2, b3)))
         == Xor(Xor(Xor(Xor(a1, a2), Xor(b2, b3)), Xor(c1, c3)), d)
  {
    hide Xor;
    FourTerms(b2, c3, a1, d);
    XorAssoc(Xor(a1, b2), Xor(c3, d), Xor(a2, b3));
    XorComm(Xor(c3, d), Xor(a2, b3));
    XorAssoc(Xor(a1, b2), Xor(a2, b3), Xor(c3, d));
    XorSwap(a1, b2, a2, b3);
    var y := Xor(Xor(a1, a2), Xor(b2, b3));
    XorAssoc(c1, y, Xor(c3, d));
    XorComm(c1, y);
    XorAssoc(y, c1, Xor(c3, d));
    XorAssoc(c1, c3, d);
    XorAssoc(y, Xor(c1, c3), d);
  }

  lemma StepsRowD(x: Quad)
    ensures Steps(x).d == RowD(x)
  {
    hide Xor;
    var c1, b2, c3, a1, d, a2, b3 := Swap1(x.c), Swap2(x.b), Swap3(x.c), Swap1(x.a), x.d, Swap2(x.a), Swap3(x.b);
    AccumulatedD(c1.b0, b2.b0, c3.b0, a1.b0, d.b0, a2.b0, b3.b0);
    AccumulatedD(c1.b1, b2.b1, c3.b1, a1.b1, d.b1, a2.b1, b3.b1);
    AccumulatedD(c1.b2, b2.b2, c3.b2, a1.b2, d.b2, a2.b2, b3.b2);
    AccumulatedD(c1.b3, b2.b3, c3.b3, a1.b3, d.b3, a2.b3, b3.b3);
  }

  lemma StepsDiffuse(x: Quad)
    ensures Steps(x) == Diffuse(x)
  {
    hide Steps, Diffuse, RowA, RowB, RowC, RowD;
    StepsRowA(x);
    StepsRowB(x);
    StepsRowC(x);
    StepsRowD(x);
    DiffuseRows(x);
  }

  function QuadOf(a: word, b: word, c: word, d: word): Quad {
    Quad(ColOf(a), ColOf(b), ColOf(c), ColOf(d))
  }

  lemma ColLaws()
    ensures forall x: word, y: word {:trigger ColOf(WXor(x, y))} :: ColOf(WXor(x, y)) == XorCol(ColOf(x), ColOf(y))
    ensures forall x: word {:trigger ColOf(P1(x))} :: ColOf(P1(x)) == Swap1(ColOf(x))
    ensures forall x: word {:trigger ColOf(P2(x))} :: ColOf(P2(x)) == Swap2(ColOf(x))
  {
    hide ColOf, WXor, XorCol, P1, P2, Swap1, Swap2;
    forall x: word, y: word
      ensures ColOf(WXor(x, y)) == XorCol(ColOf(x), ColOf(y))
    {
      ColXor(x, y);
    }
    forall x: word
      ensures ColOf(P1(x)) == Swap1(ColOf(x))
      ensures ColOf(P2(x)) == Swap2(ColOf(x))
    {
      OrderCol(x);
    }
  }

  /** aria_a: the four words are replaced by their diffusion. */
  method AriaA(a0: word, b0: word, c0: word, d0: word) returns (a: word, b: word, c: word, d: word)
    ensures QuadOf(a, b, c, d) == Diffuse(QuadOf(a0, b0, c0, d0))
  {
    hide ColOf, WXor, XorCol, P1, P2, Swap1, Swap2, Diffuse;
    a, b, c, d := a0, b0, c0, d0;
    var ta := b;
    b := a;
    a := P2(ta);
    var tb := P2(d);
    d := P1(c);
    c := P1(tb);
    ta := WXor(ta, d);
    var tc := P2(b);
    ta := WXor(WXor(P1(ta), tc), c);
    tb := WXor(tb, P2(d));
    tc := WXor(tc, P1(a));
    b := WXor(b, WXor(ta, tb));
    tb := WXor(P2(tb), ta);
    a := WXor(a, P1(tb));
    ta := P2(ta);
    d := WXor(d, WXor(P1(ta), tc));
    tc := P2(tc);
    c := WXor(c, WXor(P1(tc), ta));
    ColLaws();
    assert QuadOf(a, b, c, d) == Steps(QuadOf(a0, b0, c0, d0));
    StepsDiffuse(QuadOf(a0, b0, c0, d0));
  }

  // ---- substitution ----

  datatype Boxes = Boxes(sa: Box, sb: Box, sc: Box, sd: Box)

  const SL1 := Boxes(SB1, SB2, IS1, IS2)
  const SL2 := Boxes(IS1, IS2, SB1, SB2)

  function SubstCol(s: Boxes, c: Col): Col {
    Col(Look(s.sa, c.b0), Look(s.sb, c.b1), Look(s.sc, c.b2), Look(s.sd, c.b3))
  }

  function Subst(s: Boxes, x: Quad): Quad {
    Quad(SubstCol(s, x.a), SubstCol(s, x.b), SubstCol(s, x.c), SubstCol(s, x.d))
  }

  function SubstWord(s: Boxes, w: word): word {
    Word(Look(s.sa, Byte0(w)), Look(s.sb, Byte1(w)), Look(s.sc, Byte2(w)), Look(s.sd, Byte3(w)))
  }

  lemma SubstWordCol(s: Boxes, w: word)
    ensures ColOf(SubstWord(s, w)) == SubstCol(s, ColOf(w))
  {
    hide Word, Look, Byte0, Byte1, Byte2, Byte3;
    ColOfWordOf(Col(Look(s.sa, Byte0(w)), Look(s.sb, Byte1(w)), Look(s.sc, Byte2(w)), Look(s.sd, Byte3(w))));
  }

  /** aria_sl with the four tables it is given. */
  method AriaSl(a0: word, b0: word, c0: word, d0: word, s: Boxes) returns (a: word, b: word, c: word, d: word)
    ensures QuadOf(a, b, c, d) == Subst(s, QuadOf(a0, b0, c0, d0))
  {
    hide ColOf, SubstWord, SubstCol;
    a := SubstWord(s, a0);
    b := SubstWord(s, b0);
    c := SubstWord(s, c0);
    d := SubstWord(s, d0);
    SubstWordCol(s, a0);
    SubstWordCol(s, b0);
    SubstWordCol(s, c0);
    SubstWordCol(s, d0);
  }

  /** The tables of an odd round are SL1, those of an even round SL2. */
  function RoundBoxes(r: nat): Boxes { if r % 2 == 1 then SL1 else SL2 }

  lemma SubstUndo(r: nat, q: nat, x: Quad)
    requires r % 2 != q % 2
    ensures Subst(RoundBoxes(r), Subst(RoundBoxes(q), x)) == x
  {
    hide Look;
    forall c: Col
      ensures SubstCol(RoundBoxes(r), SubstCol(RoundBoxes(q), c)) == c
    {
      var s := RoundBoxes(q);
      LookUndo(s.sa, c.b0);
      LookUndo(s.sb, c.b1);
      LookUndo(s.sc, c.b2);
      LookUndo(s.sd, c.b3);
    }
    assert SubstCol(RoundBoxes(r), SubstCol(RoundBoxes(q), x.a)) == x.a;
    assert SubstCol(RoundBoxes(r), SubstCol(RoundBoxes(q), x.b)) == x.b;
    assert SubstCol(RoundBoxes(r), SubstCol(RoundBoxes(q), x.c)) == x.c;
    assert SubstCol(RoundBoxes(r), SubstCol(RoundBoxes(q), x.d)) == x.d;
  }

  // ---- the cipher of section 2.3 of RFC 5794 ----

  /** The state after r full rounds; k[r - 1] is the key of round r. */
  function AfterRound(k: seq<Quad>, x: Quad, r: nat): Quad
    requires r <= |k|
  {
    if r == 0 then x
    else Diffuse(Subst(RoundBoxes(r), XorQuad(AfterRound(k, x, r - 1), k[r - 1])))
  }

  /** |k| - 1 rounds, the last one without diffusion and with a final key. */
  function Crypt(k: seq<Quad>, x: Quad): Quad
    requires |k| >= 2
  {
    var nr := |k| - 1;
    XorQuad(Subst(RoundBoxes(nr), XorQuad(AfterRound(k, x, nr - 1), k[nr - 1])), k[nr])
  }

  /** The decryption keys of section 2.2 of RFC 5794: reversed, the inner ones diffused. */
  function DecryptionKeys(k: seq<Quad>): (d: seq<Quad>)
    requires |k| >= 2
    ensures |d| == |k|
  {
    seq(|k|, i requires 0 <= i < |k| =>
      if i == 0 || i == |k| - 1 then k[|k| - 1 - i] else Diffuse(k[|k| - 1 - i]))
  }

  /** The input of the substitution layer of round r + 1. */
  function Keyed(k: seq<Quad>, x: Quad, r: nat): Quad
    requires r < |k|
  {
    XorQuad(AfterRound(k, x, r), k[r])
  }

  /** Round j of decryption starts from the substitution output of round nr - j of encryption. */
  lemma {:induction false} CryptTracks(k: seq<Quad>, x: Quad, j: nat)
    requires |k| >= 2 && |k| % 2 == 1 && j < |k| - 1
    ensures Keyed(DecryptionKeys(k), Crypt(k, x), j)
         == Subst(RoundBoxes(|k| - 1 - j), Keyed(k, x, |k| - 2 - j))
  {
    hide XorQuad, Subst, Diffuse, RoundBoxes;
    var nr, d, y := |k| - 1, DecryptionKeys(k), Crypt(k, x);
    if j == 0 {
      XorQuadCancel(k[nr], Subst(RoundBoxes(nr), Keyed(k, x, nr - 1)));
    } else {
      CryptTracks(k, x, j - 1);
      var t := Keyed(k, x, nr - j);
      SubstUndo(j, nr - j + 1, t);
      assert AfterRound(d, y, j) == Diffuse(t);
      var u := Subst(RoundBoxes(nr - j), Keyed(k, x, nr - j - 1));
      assert t == XorQuad(Diffuse(u), k[nr - j]);
      DiffuseLinear(Diffuse(u), k[nr - j]);
      DiffuseInvolution(u);
      XorQuadCancel(Diffuse(k[nr - j]), u);
    }
  }

  /** The same routine decrypts under the decryption keys, for every even number of rounds. */
  lemma CryptUndoesCrypt(k: seq<Quad>, x: Quad)
    requires |k| >= 2 && |k| % 2 == 1
    ensures Crypt(DecryptionKeys(k), Crypt(k, x)) == x
  {
    hide XorQuad, Subst, Diffuse, RoundBoxes;
    var nr := |k| - 1;
    CryptTracks(k, x, nr - 1);
    SubstUndo(nr, 1, Keyed(k, x, 0));
    XorQuadCancel(k[0], x);
  }
}
