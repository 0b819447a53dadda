/** 64-bit words holding eight bytes, least significant first. */
module Words64 {
  import opened Bytes

  type u64 = bv64

  /** Eight bytes as a 64-bit word, MBEDTLS_GET_UINT64_LE. */
  function U64(b0: byte, b1: byte, b2: byte, b3: byte, b4: byte, b5: byte, b6: byte, b7: byte): u64 {
    (b0 as u64) ^ ((b1 as u64) << 8) ^ ((b2 as u64) << 16) ^ ((b3 as u64) << 24)
    ^ ((b4 as u64) << 32) ^ ((b5 as u64) << 40) ^ ((b6 as u64) << 48) ^ ((b7 as u64) << 56)
  }

  function Byte0(w: u64): byte { (w & 0xFF) as byte }
  function Byte1(w: u64): byte { ((w >> 8) & 0xFF) as byte }
  function Byte2(w: u64): byte { ((w >> 16) & 0xFF) as byte }
  function Byte3(w: u64): byte { ((w >> 24) & 0xFF) as byte }
  function Byte4(w: u64): byte { ((w >> 32) & 0xFF) as byte }
  function Byte5(w: u64): byte { ((w >> 40) & 0xFF) as byte }
  function Byte6(w: u64): byte { ((w >> 48) & 0xFF) as byte }
  function Byte7(w: u64): byte { ((w >> 56) & 0xFF) as byte }

  lemma BytesOfU64(b0: byte, b1: byte, b2: byte, b3: byte, b4: byte, b5: byte, b6: byte, b7: byte)
    ensures Byte0(U64(b0, b1, b2, b3, b4, b5, b6, b7)) == b0
    ensures Byte1(U64(b0, b1, b2, b3, b4, b5, b6, b7)) == b1
    ensures Byte2(U64(b0, b1, b2, b3, b4, b5, b6, b7)) == b2
    ensures Byte3(U64(b0, b1, b2, b3, b4, b5, b6, b7)) == b3
    ensures Byte4(U64(b0, b1, b2, b3, b4, b5, b6, b7)) == b4
    ensures Byte5(U64(b0, b1, b2, b3, b4, b5, b6, b7)) == b5
    ensures Byte6(U64(b0, b1, b2, b3, b4, b5, b6, b7)) == b6
    ensures Byte7(U64(b0, b1, b2, b3, b4, b5, b6, b7)) == b7
  {}

  lemma U64OfBytes(w: u64)
    ensures U64(Byte0(w), Byte1(w), Byte2(w), Byte3(w), Byte4(w), Byte5(w), Byte6(w), Byte7(w)) == w
  {}
}
