/** The literal S-boxes of aria.c as functions of the inverse in GF(2^8). The first one is the S-box that
    `aes_gen_tables` generates. */
module SBoxes {
  import opened Bytes
  import opened Gf256
  import opened AesTables
  import opened AriaTables

  /** The affine step of the AES S-box undone. */
  function UndoAffine(y: byte): byte {
    y.RotateLeft(1) ^ y.RotateLeft(3) ^ y.RotateLeft(6) ^ 0x05
  }

  lemma AffineUndoneRaw(y: byte)
    ensures var x := y.RotateLeft(1) ^ y.RotateLeft(3) ^ y.RotateLeft(6) ^ 0x05;
            x ^ x.RotateLeft(1) ^ x.RotateLeft(2) ^ x.RotateLeft(3) ^ x.RotateLeft(4) ^ 0x63 == y
  {}

  lemma AffineUndone(y: byte)
    ensures Affine(UndoAffine(y)) == y
  {
    hide Affine;
    AffineUndoneRaw(y);
    AffineRaw(UndoAffine(y));
  }

  /** The inverse that the first table holds. */
  function TableInverse(x: byte): byte { UndoAffine(Sb1(x)) }

  lemma TableInverseStep(x: byte)
    requires x != 0
    ensures Mul3(TableInverse(Mul3(x))) == TableInverse(x)
  {}

  lemma TableInverseEnds()
    ensures TableInverse(1) == 1 && Sb1(0) == 0x63
  {}

  /** It takes each power of the generator to the power that completes it to the 255th. */
  lemma {:induction false} TableInversePower(i: nat)
    requires i <= 255
    ensures TableInverse(Pow3(i)) == Pow3(255 - i)
  {
    hide TableInverse, Mul3;
    if i == 0 {
      TableInverseEnds();
      Pow3Cycle();
    } else {
      TableInversePower(i - 1);
      Pow3Nonzero(i - 1);
      TableInverseStep(Pow3(i - 1));
      Mul3Injective(TableInverse(Pow3(i)), Pow3(255 - i));
    }
  }

  lemma TableInverseIs(b: byte)
    requires b != 0
    ensures TableInverse(b) == Inverse(b)
  {
    hide TableInverse, Pow3;
    TableInversePower(Log(b));
  }

  /** aria_sb1 is the S-box of AES, on all 256 bytes. */
  lemma AesBoxIsSb1(b: byte)
    ensures SBox(b) == Sb1(b)
  {
    hide Affine, Sb1, UndoAffine, Inverse;
    if b == 0 {
      SBoxOfZero();
      TableInverseEnds();
      InverseOfZero();
    } else {
      TableInverseIs(b);
      AffineUndone(Sb1(b));
    }
  }

  lemma InverseOfZero()
    ensures SBox(0) == SBoxAt(0)
  {}

  /** The matrix of the second S-box, column by column. */
  function Linear2(x: byte): byte {
    (if x & 0x01 != 0 then 0xAC else 0) ^ (if x & 0x02 != 0 then 0xFD else 0)
    ^ (if x & 0x04 != 0 then 0xC6 else 0) ^ (if x & 0x08 != 0 then 0x83 else 0)
    ^ (if x & 0x10 != 0 then 0x26 else 0) ^ (if x & 0x20 != 0 then 0xA7 else 0)
    ^ (if x & 0x40 != 0 then 0xFB else 0) ^ (if x & 0x80 != 0 then 0x5F else 0)
  }

  /** Multiplication by {03} seen through that matrix. */
  function Step2(x: byte): byte {
    (if x & 0x01 != 0 then 0x2B else 0) ^ (if x & 0x02 != 0 then 0x78 else 0)
    ^ (if x & 0x04 != 0 then 0xE7 else 0) ^ (if x & 0x08 != 0 then 0x5E else 0)
    ^ (if x & 0x10 != 0 then 0x6D else 0) ^ (if x & 0x20 != 0 then 0x1E else 0)
    ^ (if x & 0x40 != 0 then 0x2C else 0) ^ (if x & 0x80 != 0 then 0xF6 else 0)
  }

  lemma Step2Is(x: byte)
    ensures Step2(Linear2(x)) == Linear2(Mul3(x))
  {}

  lemma Step2Injective(x: byte, y: byte)
    requires Step2(x) == Step2(y)
    ensures x == y
  {}

  function Centred(x: byte): byte { Sb2(x) ^ 0xE2 }

  lemma CentredStep(x: byte)
    requires x != 0
    ensures Step2(Centred(Mul3(x))) == Centred(x)
  {}

  lemma CentredEnds()
    ensures Centred(1) == Linear2(1) && Centred(0) == 0 && Linear2(0) == 0
  {}

  lemma {:induction false} CentredPower(i: nat)
    requires i <= 255
    ensures Centred(Pow3(i)) == Linear2(Pow3(255 - i))
  {
    hide Centred, Linear2, Step2, Mul3;
    if i == 0 {
      CentredEnds();
      Pow3Cycle();
    } else {
      CentredPower(i - 1);
      Pow3Nonzero(i - 1);
      CentredStep(Pow3(i - 1));
      Step2Is(Pow3(255 - i));
      Step2Injective(Centred(Pow3(i)), Linear2(Pow3(255 - i)));
    }
  }

  /** aria_sb2 is an affine function of the inverse too. (The definition has x^247, the eighth power of the inverse,
      and raising to the eighth power is linear.) */
  lemma Sb2IsAffine(b: byte)
    ensures Sb2(b) ^ 0xE2 == Linear2(Inverse(b))
  {
    hide Sb2, Linear2, Pow3;
    if b == 0 {
      CentredEnds();
    } else {
      CentredPower(Log(b));
    }
  }
}
