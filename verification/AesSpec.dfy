/** The AES cipher and its equivalent inverse as FIPS 197 states them, over columns of bytes,
    for an arbitrary pair of S-boxes. */
module AesSpec {
  import opened Bytes
  import opened Gf256
  import opened Words

  ghost predicate IsTable(s: seq<byte>) { |s| == 256 }

  /** The second S-box undoes the first. */
  ghost predicate Undoes(r: seq<byte>, s: seq<byte>) {
    && IsTable(s) && IsTable(r)
    && forall i :: 0 <= i < 256 ==> r[s[i] as int] as int == i
  }

  function Sub(s: seq<byte>, b: byte): byte
    requires IsTable(s)
  {
    s[b as int]
  }

  lemma SubUndo(r: seq<byte>, s: seq<byte>, b: byte)
    requires Undoes(r, s)
    ensures Sub(r, Sub(s, b)) == b
  {
    ByteIntInjective(Sub(r, Sub(s, b)), b);
  }

  // ---- columns ----

  function SubCol(s: seq<byte>, c: Col): Col
    requires IsTable(s)
  {
    Col(Sub(s, c.b0), Sub(s, c.b1), Sub(s, c.b2), Sub(s, c.b3))
  }

  function Sum4(a: byte, b: byte, c: byte, d: byte): byte { Xor(Xor(Xor(a, b), c), d) }

  /** MixColumns on one column, section 5.1.3. */
  function MixCol(c: Col): Col {
    Col(Sum4(Xtime(c.b0), Mul3(c.b1), c.b2, c.b3),
        Sum4(c.b0, Xtime(c.b1), Mul3(c.b2), c.b3),
        Sum4(c.b0, c.b1, Xtime(c.b2), Mul3(c.b3)),
        Sum4(Mul3(c.b0), c.b1, c.b2, Xtime(c.b3)))
  }

  /** InvMixColumns on one column, section 5.3.3. */
  function InvMixCol(c: Col): Col {
    Col(Sum4(Mul14(c.b0), Mul11(c.b1), Mul13(c.b2), Mul9(c.b3)),
        Sum4(Mul9(c.b0), Mul14(c.b1), Mul11(c.b2), Mul13(c.b3)),
        Sum4(Mul13(c.b0), Mul9(c.b1), Mul14(c.b2), Mul11(c.b3)),
        Sum4(Mul11(c.b0), Mul13(c.b1), Mul9(c.b2), Mul14(c.b3)))
  }

  lemma Sum4Xor(a: byte, b: byte, c: byte, d: byte, a': byte, b': byte, c': byte, d': byte)
    ensures Sum4(Xor(a, a'), Xor(b, b'), Xor(c, c'), Xor(d, d')) == Xor(Sum4(a, b, c, d), Sum4(a', b', c', d'))
  {
    hide Xor;
    XorSwap(a, a', b, b');
    XorSwap(Xor(a, b), Xor(a', b'), c, c');
    XorSwap(Xor(Xor(a, b), c), Xor(Xor(a', b'), c'), d, d');
  }

  lemma InvMixLinear(c: Col, d: Col)
    ensures InvMixCol(XorCol(c, d)) == XorCol(InvMixCol(c), InvMixCol(d))
  {
    hide Xor, Sum4, Mul9, Mul11, Mul13, Mul14;
    MulXor(c.b0, d.b0);
    MulXor(c.b1, d.b1);
    MulXor(c.b2, d.b2);
    MulXor(c.b3, d.b3);
    Sum4Xor(Mul14(c.b0), Mul11(c.b1), Mul13(c.b2), Mul9(c.b3), Mul14(d.b0), Mul11(d.b1), Mul13(d.b2), Mul9(d.b3));
    Sum4Xor(Mul9(c.b0), Mul14(c.b1), Mul11(c.b2), Mul13(c.b3), Mul9(d.b0), Mul14(d.b1), Mul11(d.b2), Mul13(d.b3));
    Sum4Xor(Mul13(c.b0), Mul9(c.b1), Mul14(c.b2), Mul11(c.b3), Mul13(d.b0), Mul9(d.b1), Mul14(d.b2), Mul11(d.b3));
    Sum4Xor(Mul11(c.b0), Mul13(c.b1), Mul9(c.b2), Mul14(c.b3), Mul11(d.b0), Mul13(d.b1), Mul9(d.b2), Mul14(d.b3));
  }

  // ---- the columns the tables hold ----

  /** Column 0 of MixColumns applied to one byte: what FT0 holds for S-box output x. */
  function ForwardCol(x: byte): Col { Col(Xtime(x), x, x, Mul3(x)) }

  /** Column 0 of InvMixColumns applied to one byte: what RT0 holds for inverse S-box output x. */
  function ReverseCol(x: byte): Col { Col(Mul14(x), Mul9(x), Mul13(x), Mul11(x)) }

  function RotCol(c: Col): Col { Col(c.b3, c.b0, c.b1, c.b2) }

  /** The sum of four columns, each rotated one place further than the one before. */
  function RotSum(c0: Col, c1: Col, c2: Col, c3: Col): Col {
    XorCol(XorCol(XorCol(c0, RotCol(c1)), RotCol(RotCol(c2))), RotCol(RotCol(RotCol(c3))))
  }

  lemma MixColIsRotSum(c: Col)
    ensures MixCol(c) == RotSum(ForwardCol(c.b0), ForwardCol(c.b1), ForwardCol(c.b2), ForwardCol(c.b3))
  {
    hide Xor, Xtime, Mul3;
  }

  lemma InvMixColIsRotSum(c: Col)
    ensures InvMixCol(c) == RotSum(ReverseCol(c.b0), ReverseCol(c.b1), ReverseCol(c.b2), ReverseCol(c.b3))
  {
    hide Xor, Mul9, Mul11, Mul13, Mul14;
  }

  lemma Sum4Rot(a: byte, b: byte, c: byte, d: byte)
    ensures Sum4(d, a, b, c) == Sum4(a, b, c, d)
  {
    hide Xor, Bit;
    BitsOfXor();
    SameBits(Sum4(d, a, b, c), Sum4(a, b, c, d));
  }

  lemma InvMixRot(c: Col)
    ensures InvMixCol(RotCol(c)) == RotCol(InvMixCol(c))
  {
    hide Sum4, Mul9, Mul11, Mul13, Mul14;
    Sum4Rot(Mul11(c.b0), Mul13(c.b1), Mul9(c.b2), Mul14(c.b3));
    Sum4Rot(Mul14(c.b0), Mul11(c.b1), Mul13(c.b2), Mul9(c.b3));
    Sum4Rot(Mul9(c.b0), Mul14(c.b1), Mul11(c.b2), Mul13(c.b3));
    Sum4Rot(Mul13(c.b0), Mul9(c.b1), Mul14(c.b2), Mul11(c.b3));
  }

  /** A row of InvMixColumns times column 0 of MixColumns: with a, a2, a4, a8, a16 the doublings
      of a byte, every term cancels but the first row's a. */
  lemma Row0Cancels(a: byte, a2: byte, a4: byte, a8: byte, a16: byte)
    ensures Sum4(Xor3(a16, a8, a4), Xor3(a8, a2, a), Xor3(a8, a4, a), Xor(Xor(a8, a), Xor(a16, a2))) == a
  {
    hide Xor, Bit;
    BitsOfXor();
    BitsOfZero();
    SameBits(Sum4(Xor3(a16, a8, a4), Xor3(a8, a2, a), Xor3(a8, a4, a), Xor(Xor(a8, a), Xor(a16, a2))), a);
  }

  lemma Row1Cancels(a: byte, a2: byte, a4: byte, a8: byte, a16: byte)
    ensures Sum4(Xor(a16, a2), Xor3(a8, a4, a2), Xor3(a8, a2, a), Xor(Xor3(a8, a4, a), Xor3(a16, a8, a2))) == 0
  {
    hide Xor, Bit;
    BitsOfXor();
    BitsOfZero();
    SameBits(Sum4(Xor(a16, a2), Xor3(a8, a4, a2), Xor3(a8, a2, a), Xor(Xor3(a8, a4, a), Xor3(a16, a8, a2))), 0);
  }

  lemma Row2Cancels(a: byte, a2: byte, a4: byte, a8: byte, a16: byte)
    ensures Sum4(Xor3(a16, a8, a2), Xor(a8, a), Xor3(a8, a4, a2), Xor(Xor3(a8, a2, a), Xor3(a16, a4, a2))) == 0
  {
    hide Xor, Bit;
    BitsOfXor();
    BitsOfZero();
    SameBits(Sum4(Xor3(a16, a8, a2), Xor(a8, a), Xor3(a8, a4, a2), Xor(Xor3(a8, a2, a), Xor3(a16, a4, a2))), 0);
  }

  lemma Row3Cancels(a: byte, a2: byte, a4: byte, a8: byte, a16: byte)
    ensures Sum4(Xor3(a16, a4, a2), Xor3(a8, a4, a), Xor(a8, a), Xor(Xor3(a8, a4, a2), Xor3(a16, a8, a4))) == 0
  {
    hide Xor, Bit;
    BitsOfXor();
    BitsOfZero();
    SameBits(Sum4(Xor3(a16, a4, a2), Xor3(a8, a4, a), Xor(a8, a), Xor(Xor3(a8, a4, a2), Xor3(a16, a8, a4))), 0);
  }

  lemma InvMixForward(x: byte)
    ensures InvMixCol(ForwardCol(x)) == Col(x, 0, 0, 0)
  {
    hide Xor, Xor3, Xtime, Sum4;
    var x2 := Xtime(x);
    var x4 := Xtime(x2);
    var x8 := Xtime(x4);
    var x16 := Xtime(x8);
    MulXor(x, x2);
    Row0Cancels(x, x2, x4, x8, x16);
    Row1Cancels(x, x2, x4, x8, x16);
    Row2Cancels(x, x2, x4, x8, x16);
    Row3Cancels(x, x2, x4, x8, x16);
  }

  /** InvMixColumns undoes MixColumns. */
  lemma InvMixMix(c: Col)
    ensures InvMixCol(MixCol(c)) == c
  {
    hide Xor, InvMixCol, ForwardCol;
    var f0, f1, f2, f3 := ForwardCol(c.b0), ForwardCol(c.b1), ForwardCol(c.b2), ForwardCol(c.b3);
    var r1, r2, r3 := RotCol(f1), RotCol(RotCol(f2)), RotCol(RotCol(RotCol(f3)));
    MixColIsRotSum(c);
    InvMixLinear(f0, r1);
    InvMixLinear(XorCol(f0, r1), r2);
    InvMixLinear(XorCol(XorCol(f0, r1), r2), r3);
    InvMixRot(f1);
    InvMixRot(f2);
    InvMixRot(RotCol(f2));
    InvMixRot(f3);
    InvMixRot(RotCol(f3));
    InvMixRot(RotCol(RotCol(f3)));
    InvMixForward(c.b0);
    InvMixForward(c.b1);
    InvMixForward(c.b2);
    InvMixForward(c.b3);
    XorZero(c.b0);
    XorZero(c.b1);
    XorZero(c.b2);
    XorZero(c.b3);
    XorZero(0);
  }

  // ---- the state and the rounds ----

  datatype State = State(c0: Col, c1: Col, c2: Col, c3: Col)

  function AddRoundKey(x: State, k: State): State {
    State(XorCol(k.c0, x.c0), XorCol(k.c1, x.c1), XorCol(k.c2, x.c2), XorCol(k.c3, x.c3))
  }

  function SubBytes(s: seq<byte>, x: State): State
    requires IsTable(s)
  {
    State(SubCol(s, x.c0), SubCol(s, x.c1), SubCol(s, x.c2), SubCol(s, x.c3))
  }

  /** Row r moves r columns to the left, section 5.1.2. */
  function ShiftRows(x: State): State {
    State(Col(x.c0.b0, x.c1.b1, x.c2.b2, x.c3.b3),
          Col(x.c1.b0, x.c2.b1, x.c3.b2, x.c0.b3),
          Col(x.c2.b0, x.c3.b1, x.c0.b2, x.c1.b3),
          Col(x.c3.b0, x.c0.b1, x.c1.b2, x.c2.b3))
  }

  /** Row r moves r columns to the right, section 5.3.1. */
  function InvShiftRows(x: State): State {
    State(Col(x.c0.b0, x.c3.b1, x.c2.b2, x.c1.b3),
          Col(x.c1.b0, x.c0.b1, x.c3.b2, x.c2.b3),
          Col(x.c2.b0, x.c1.b1, x.c0.b2, x.c3.b3),
          Col(x.c3.b0, x.c2.b1, x.c1.b2, x.c0.b3))
  }

  function MixColumns(x: State): State {
    State(MixCol(x.c0), MixCol(x.c1), MixCol(x.c2), MixCol(x.c3))
  }

  function InvMixColumns(x: State): State {
    State(InvMixCol(x.c0), InvMixCol(x.c1), InvMixCol(x.c2), InvMixCol(x.c3))
  }

  /** The state after round i of Cipher, section 5.1. */
  function CipherRound(s: seq<byte>, w: seq<State>, x: State, i: nat): State
    requires IsTable(s) && i < |w|
  {
    if i == 0 then AddRoundKey(x, w[0])
    else AddRoundKey(MixColumns(ShiftRows(SubBytes(s, CipherRound(s, w, x, i - 1)))), w[i])
  }

  /** Cipher with |w| - 1 rounds: the last one has no MixColumns. */
  function Cipher(s: seq<byte>, w: seq<State>, x: State): State
    requires IsTable(s) && |w| >= 2
  {
    AddRoundKey(ShiftRows(SubBytes(s, CipherRound(s, w, x, |w| - 2))), w[|w| - 1])
  }

  /** The state after round i of EqInvCipher, section 5.3.5, under its own key schedule dw. */
  function EqInvRound(r: seq<byte>, dw: seq<State>, y: State, i: nat): State
    requires IsTable(r) && i < |dw|
  {
    if i == 0 then AddRoundKey(y, dw[0])
    else AddRoundKey(InvMixColumns(InvShiftRows(SubBytes(r, EqInvRound(r, dw, y, i - 1)))), dw[i])
  }

  function EqInvCipher(r: seq<byte>, dw: seq<State>, y: State): State
    requires IsTable(r) && |dw| >= 2
  {
    AddRoundKey(InvShiftRows(SubBytes(r, EqInvRound(r, dw, y, |dw| - 2))), dw[|dw| - 1])
  }

  /** The schedule of the equivalent inverse cipher: reversed, with InvMixColumns applied to every
      round key but the first and the last. */
  function DecryptionKeys(w: seq<State>): (dw: seq<State>)
    requires |w| >= 2
    ensures |dw| == |w|
  {
    seq(|w|, i requires 0 <= i < |w| =>
      if i == 0 || i == |w| - 1 then w[|w| - 1 - i] else InvMixColumns(w[|w| - 1 - i]))
  }

  // ---- each step is undone by its inverse ----

  lemma AddRoundKeyTwice(x: State, k: State)
    ensures AddRoundKey(AddRoundKey(x, k), k) == x
  {
    hide XorCol;
    XorColCancel(k.c0, x.c0);
    XorColCancel(k.c1, x.c1);
    XorColCancel(k.c2, x.c2);
    XorColCancel(k.c3, x.c3);
  }

  lemma SubColUndo(r: seq<byte>, s: seq<byte>, c: Col)
    requires Undoes(r, s)
    ensures SubCol(r, SubCol(s, c)) == c
  {
    hide Sub;
    SubUndo(r, s, c.b0);
    SubUndo(r, s, c.b1);
    SubUndo(r, s, c.b2);
    SubUndo(r, s, c.b3);
  }

  lemma SubShiftUndo(r: seq<byte>, s: seq<byte>, x: State)
    requires Undoes(r, s)
    ensures InvShiftRows(SubBytes(r, ShiftRows(SubBytes(s, x)))) == x
  {
    hide Sub;
    forall c: Col
      ensures SubCol(r, SubCol(s, c)) == c
    {
      SubColUndo(r, s, c);
    }
    assert SubCol(r, SubCol(s, x.c0)) == x.c0;
    assert SubCol(r, SubCol(s, x.c1)) == x.c1;
    assert SubCol(r, SubCol(s, x.c2)) == x.c2;
    assert SubCol(r, SubCol(s, x.c3)) == x.c3;
  }

  /** Mixing back a keyed, mixed state under the mixed-back key leaves the state before mixing. */
  lemma InvMixKeyed(x: State, k: State)
    ensures AddRoundKey(InvMixColumns(AddRoundKey(MixColumns(x), k)), InvMixColumns(k)) == x
  {
    hide XorCol, MixCol, InvMixCol;
    InvMixLinear(k.c0, MixCol(x.c0));
    InvMixLinear(k.c1, MixCol(x.c1));
    InvMixLinear(k.c2, MixCol(x.c2));
    InvMixLinear(k.c3, MixCol(x.c3));
    InvMixMix(x.c0);
    InvMixMix(x.c1);
    InvMixMix(x.c2);
    InvMixMix(x.c3);
    XorColCancel(InvMixCol(k.c0), x.c0);
    XorColCancel(InvMixCol(k.c1), x.c1);
    XorColCancel(InvMixCol(k.c2), x.c2);
    XorColCancel(InvMixCol(k.c3), x.c3);
  }

  /** After i rounds the inverse cipher holds the substituted and shifted state of round nr - 1 - i. */
  lemma {:induction false} EqInvTracks(r: seq<byte>, s: seq<byte>, w: seq<State>, x: State, i: nat)
    requires Undoes(r, s) && i + 2 <= |w|
    ensures EqInvRound(r, DecryptionKeys(w), Cipher(s, w, x), i)
         == ShiftRows(SubBytes(s, CipherRound(s, w, x, |w| - 2 - i)))
  {
    hide AddRoundKey, SubBytes, ShiftRows, InvShiftRows, MixColumns, InvMixColumns;
    var last := |w| - 1;
    if i == 0 {
      AddRoundKeyTwice(ShiftRows(SubBytes(s, CipherRound(s, w, x, last - 1))), w[last]);
    } else {
      EqInvTracks(r, s, w, x, i - 1);
      var before := CipherRound(s, w, x, last - i);
      SubShiftUndo(r, s, before);
      var u := ShiftRows(SubBytes(s, CipherRound(s, w, x, last - i - 1)));
      assert before == AddRoundKey(MixColumns(u), w[last - i]);
      InvMixKeyed(u, w[last - i]);
    }
  }

  /** Decryption undoes encryption, for every key schedule, every block and every pair of S-boxes
      of which the second undoes the first. */
  lemma DecryptionUndoesEncryption(r: seq<byte>, s: seq<byte>, w: seq<State>, x: State)
    requires Undoes(r, s) && |w| >= 2
    ensures EqInvCipher(r, DecryptionKeys(w), Cipher(s, w, x)) == x
  {
    hide AddRoundKey, SubBytes, ShiftRows, InvShiftRows, MixColumns, InvMixColumns;
    EqInvTracks(r, s, w, x, |w| - 2);
    SubShiftUndo(r, s, CipherRound(s, w, x, 0));
    AddRoundKeyTwice(x, w[0]);
  }
}
