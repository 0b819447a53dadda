/** 32-bit words holding four bytes, least significant first, and columns of four bytes. */
module Words {
  import opened Bytes

  type word = bv32

  function WXor(x: word, y: word): word { x ^ y }

  // MBEDTLS_BYTE_0 .. MBEDTLS_BYTE_3
  function Byte0(w: word): byte { (w & 0xFF) as byte }
  function Byte1(w: word): byte { ((w >> 8) & 0xFF) as byte }
  function Byte2(w: word): byte { ((w >> 16) & 0xFF) as byte }
  function Byte3(w: word): byte { ((w >> 24) & 0xFF) as byte }

  /** Four bytes as a little-endian word, MBEDTLS_GET_UINT32_LE. */
  function Word(b0: byte, b1: byte, b2: byte, b3: byte): word {
    (b0 as word) ^ ((b1 as word) << 8) ^ ((b2 as word) << 16) ^ ((b3 as word) << 24)
  }

  function Rotl8(w: word): word { (w << 8) | (w >> 24) }

  datatype Col = Col(b0: byte, b1: byte, b2: byte, b3: byte)

  function ColOf(w: word): Col { Col(Byte0(w), Byte1(w), Byte2(w), Byte3(w)) }

  function WordOf(c: Col): word { Word(c.b0, c.b1, c.b2, c.b3) }

  /** The column of a word written in hexadecimal, first byte first. */
  function C(w: word): Col {
    Col(((w >> 24) & 0xFF) as byte, ((w >> 16) & 0xFF) as byte, ((w >> 8) & 0xFF) as byte, (w & 0xFF) as byte)
  }

  function XorCol(c: Col, d: Col): Col {
    Col(Xor(c.b0, d.b0), Xor(c.b1, d.b1), Xor(c.b2, d.b2), Xor(c.b3, d.b3))
  }

  lemma ByteOfWord(b0: byte, b1: byte, b2: byte, b3: byte)
    ensures Byte0(Word(b0, b1, b2, b3)) == b0
    ensures Byte1(Word(b0, b1, b2, b3)) == b1
    ensures Byte2(Word(b0, b1, b2, b3)) == b2
    ensures Byte3(Word(b0, b1, b2, b3)) == b3
  {}

  lemma ExtractXor(x: word, y: word)
    ensures ((x ^ y) & 0xFF) as byte == ((x & 0xFF) as byte) ^ ((y & 0xFF) as byte)
    ensures (((x ^ y) >> 8) & 0xFF) as byte == (((x >> 8) & 0xFF) as byte) ^ (((y >> 8) & 0xFF) as byte)
    ensures (((x ^ y) >> 16) & 0xFF) as byte == (((x >> 16) & 0xFF) as byte) ^ (((y >> 16) & 0xFF) as byte)
    ensures (((x ^ y) >> 24) & 0xFF) as byte == (((x >> 24) & 0xFF) as byte) ^ (((y >> 24) & 0xFF) as byte)
  {}

  lemma ByteXor(x: word, y: word)
    ensures Byte0(WXor(x, y)) == Xor(Byte0(x), Byte0(y))
    ensures Byte1(WXor(x, y)) == Xor(Byte1(x), Byte1(y))
    ensures Byte2(WXor(x, y)) == Xor(Byte2(x), Byte2(y))
    ensures Byte3(WXor(x, y)) == Xor(Byte3(x), Byte3(y))
  {
    ExtractXor(x, y);
    assert WXor(x, y) == x ^ y;
    assert Xor((x & 0xFF) as byte, (y & 0xFF) as byte) == Byte0(x ^ y);
    assert Xor(((x >> 8) & 0xFF) as byte, ((y >> 8) & 0xFF) as byte) == Byte1(x ^ y);
    assert Xor(((x >> 16) & 0xFF) as byte, ((y >> 16) & 0xFF) as byte) == Byte2(x ^ y);
    assert Xor(((x >> 24) & 0xFF) as byte, ((y >> 24) & 0xFF) as byte) == Byte3(x ^ y);
  }

  lemma ByteRotl8(w: word)
    ensures Byte0(Rotl8(w)) == Byte3(w)
    ensures Byte1(Rotl8(w)) == Byte0(w)
    ensures Byte2(Rotl8(w)) == Byte1(w)
    ensures Byte3(Rotl8(w)) == Byte2(w)
  {}

  lemma ColXor(x: word, y: word)
    ensures ColOf(WXor(x, y)) == XorCol(ColOf(x), ColOf(y))
  {
    hide WXor, Xor, Byte0, Byte1, Byte2, Byte3;
    ByteXor(x, y);
  }

  lemma ColRotl8(w: word)
    ensures ColOf(Rotl8(w)) == Col(Byte3(w), Byte0(w), Byte1(w), Byte2(w))
  {
    hide Rotl8, Byte0, Byte1, Byte2, Byte3;
    ByteRotl8(w);
  }

  lemma ColOfWordOf(c: Col)
    ensures ColOf(WordOf(c)) == c
  {
    hide Word, Byte0, Byte1, Byte2, Byte3;
    ByteOfWord(c.b0, c.b1, c.b2, c.b3);
  }

  lemma XorColCancel(c: Col, d: Col)
    ensures XorCol(c, XorCol(c, d)) == d
    ensures XorCol(XorCol(d, c), c) == d
  {
    hide Xor;
    XorCancel(c.b0, d.b0);
    XorCancel(c.b1, d.b1);
    XorCancel(c.b2, d.b2);
    XorCancel(c.b3, d.b3);
  }

  lemma XorColComm(c: Col, d: Col)
    ensures XorCol(c, d) == XorCol(d, c)
  {
    hide Xor;
    XorComm(c.b0, d.b0);
    XorComm(c.b1, d.b1);
    XorComm(c.b2, d.b2);
    XorComm(c.b3, d.b3);
  }
}
