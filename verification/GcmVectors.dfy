/** Known answers of the GCM multiplication: the order of the bytes of a block, and the first product that is
    reduced. */
module GcmVectors {
  import opened Bytes
  import opened BlockCipher
  import opened Gcm
  import opened GcmField

  // The leftmost bit of the first byte of a block is the coefficient of x^0, the last bit of the last byte that of
  // x^127; x^128 is x^7 + x^2 + x + 1.
  const X: Block := [0x40, 0, 0, 0, 0, 0, 0, 0, 0, 0, 0, 0, 0, 0, 0, 0]
  const X127: Block := [0, 0, 0, 0, 0, 0, 0, 0, 0, 0, 0, 0, 0, 0, 0, 0x01]
  const X128: Block := [0xE1, 0, 0, 0, 0, 0, 0, 0, 0, 0, 0, 0, 0, 0, 0, 0]

  /** The first eight bytes of a block are the high lane, most significant first. */
  lemma KnownLanes()
    ensures LanesOf([0x00, 0x01, 0x02, 0x03, 0x04, 0x05, 0x06, 0x07, 0x08, 0x09, 0x0A, 0x0B, 0x0C, 0x0D, 0x0E, 0x0F])
         == Lanes(0x0001_0203_0405_0607, 0x0809_0A0B_0C0D_0E0F)
    ensures LanesOf(X) == Lanes(0x4000_0000_0000_0000, 0)
    ensures LanesOf(X127) == Lanes(0, 1)
    ensures LanesOf(X128) == Lanes(0xE100_0000_0000_0000, 0)
  {}

  lemma KnownUnits()
    ensures Unit(1) == Lanes(0x4000_0000_0000_0000, 0) && Unit(127) == Lanes(0, 1)
  {
    hide Odd, Halve;
    MaskFacts(63);
    assert Halve(0x8000_0000_0000_0000) == 0x4000_0000_0000_0000 by { HalveIs(0x8000_0000_0000_0000); }
    assert Mask(1) == Halve(Mask(0));
  }

  /** x times x^127. */
  lemma KnownProduct()
    ensures BlockOf(Dot(LanesOf(X), LanesOf(X127))) == X128
  {
    hide LanesOf, BlockOf, Dot, Unit, X, X127, X128, MulX, Finish;
    KnownLanes();
    KnownUnits();
    DotUnit(1, Unit(127));
    OneTime(Unit(127));
    UnitLast();
    LowTermsAre();
    BlockLanes(X128);
  }

  lemma OneTime(y: Lanes)
    ensures Times(y, 1) == MulX(y)
  {
    hide MulX;
    assert Times(y, 0) == y;
  }

  /** The same through the code, in place. */
  method MultiplyExample() returns (product: seq<byte>)
    ensures product == X128
  {
    hide LanesOf, BlockOf, Dot, X, X127, X128;
    var a := new byte[16](i requires 0 <= i < 16 => X[i]);
    var b := new byte[16](i requires 0 <= i < 16 => X127[i]);
    assert a[..] == X && b[..] == X127;
    KnownProduct();
    GcmMult(a, a, b);
    product := a[..];
  }
}
