/** Bytes, 32-bit little-endian words and exclusive or.
    The bit operations are wrapped in named functions so that the proofs about ciphers reason
    with the algebraic laws below and not with individual bits. */
module Bytes {
  type byte = bv8

  function Xor(x: byte, y: byte): byte { x ^ y }

  /** Bit i of a byte. */
  function Bit(x: byte, i: nat): bool
    requires i < 8
  {
    if i == 0 then x & 1 != 0 else if i == 1 then x & 2 != 0
    else if i == 2 then x & 4 != 0 else if i == 3 then x & 8 != 0
    else if i == 4 then x & 16 != 0 else if i == 5 then x & 32 != 0
    else if i == 6 then x & 64 != 0 else x & 128 != 0
  }

  lemma BitRaw(x: byte, y: byte, i: nat)
    requires i < 8
    ensures Bit(x ^ y, i) == (Bit(x, i) != Bit(y, i))
  {
    if i == 0 {
      assert ((x ^ y) & 1 != 0) == ((x & 1 != 0) != (y & 1 != 0));
    } else if i == 1 {
      assert ((x ^ y) & 2 != 0) == ((x & 2 != 0) != (y & 2 != 0));
    } else if i == 2 {
      assert ((x ^ y) & 4 != 0) == ((x & 4 != 0) != (y & 4 != 0));
    } else if i == 3 {
      assert ((x ^ y) & 8 != 0) == ((x & 8 != 0) != (y & 8 != 0));
    } else if i == 4 {
      assert ((x ^ y) & 16 != 0) == ((x & 16 != 0) != (y & 16 != 0));
    } else if i == 5 {
      assert ((x ^ y) & 32 != 0) == ((x & 32 != 0) != (y & 32 != 0));
    } else if i == 6 {
      assert ((x ^ y) & 64 != 0) == ((x & 64 != 0) != (y & 64 != 0));
    } else if i == 7 {
      assert ((x ^ y) & 128 != 0) == ((x & 128 != 0) != (y & 128 != 0));
    }
  }

  lemma BitXor(x: byte, y: byte, i: nat)
    requires i < 8
    ensures Bit(Xor(x, y), i) == (Bit(x, i) != Bit(y, i))
  {
    hide Bit;
    BitRaw(x, y, i);
    assert Xor(x, y) == x ^ y;
  }

  lemma BitsOfXor()
    ensures forall x: byte, y: byte, i {:trigger Bit(Xor(x, y), i)} ::
              0 <= i < 8 ==> Bit(Xor(x, y), i) == (Bit(x, i) != Bit(y, i))
  {
    hide Xor, Bit;
    forall x: byte, y: byte, i | 0 <= i < 8
      ensures Bit(Xor(x, y), i) == (Bit(x, i) != Bit(y, i))
    {
      BitXor(x, y, i);
    }
  }

  /** Two bytes with the same bits are equal. With BitsOfXor this proves identities between sums. */
  lemma SameBits(x: byte, y: byte)
    requires forall i :: 0 <= i < 8 ==> Bit(x, i) == Bit(y, i)
    ensures x == y
  {
    assert Bit(x, 0) == Bit(y, 0);
    assert Bit(x, 1) == Bit(y, 1);
    assert Bit(x, 2) == Bit(y, 2);
    assert Bit(x, 3) == Bit(y, 3);
    assert Bit(x, 4) == Bit(y, 4);
    assert Bit(x, 5) == Bit(y, 5);
    assert Bit(x, 6) == Bit(y, 6);
    assert Bit(x, 7) == Bit(y, 7);
  }

  lemma BitsOfZero()
    ensures forall i :: 0 <= i < 8 ==> !Bit(0, i)
  {}

  lemma XorComm(x: byte, y: byte)
    ensures Xor(x, y) == Xor(y, x)
  {
    hide Xor, Bit;
    BitsOfXor();
    SameBits(Xor(x, y), Xor(y, x));
  }

  lemma XorAssoc(x: byte, y: byte, z: byte)
    ensures Xor(Xor(x, y), z) == Xor(x, Xor(y, z))
  {
    hide Xor, Bit;
    BitsOfXor();
    SameBits(Xor(Xor(x, y), z), Xor(x, Xor(y, z)));
  }

  lemma XorCancel(x: byte, y: byte)
    ensures Xor(x, Xor(x, y)) == y
    ensures Xor(Xor(y, x), x) == y
  {
    hide Xor, Bit;
    BitsOfXor();
    SameBits(Xor(x, Xor(x, y)), y);
    SameBits(Xor(Xor(y, x), x), y);
  }

  lemma XorZero(x: byte)
    ensures Xor(x, 0) == x && Xor(0, x) == x && Xor(x, x) == 0
  {
    hide Xor, Bit;
    BitsOfXor();
    BitsOfZero();
    SameBits(Xor(x, 0), x);
    SameBits(Xor(0, x), x);
    SameBits(Xor(x, x), 0);
  }

  /** XOR of two pairs, regrouped. */
  lemma XorSwap(a: byte, b: byte, c: byte, d: byte)
    ensures Xor(Xor(a, b), Xor(c, d)) == Xor(Xor(a, c), Xor(b, d))
  {
    hide Xor, Bit;
    BitsOfXor();
    SameBits(Xor(Xor(a, b), Xor(c, d)), Xor(Xor(a, c), Xor(b, d)));
  }

  lemma ByteIntInjective(b: byte, c: byte)
    requires b as int == c as int
    ensures b == c
  {
    assert (b as int) as byte == b;
    assert (c as int) as byte == c;
  }

  /** The cast of a small non-negative integer to unsigned char. */
  function ByteOf(i: nat): (b: byte)
    requires i < 256
    ensures b as int == i
  {
    if i == 0 then 0 else ByteOf(i - 1) + 1
  }
}
