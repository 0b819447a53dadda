/** XTS with ciphertext stealing, mbedtls_aes_crypt_xts, against sections 5.2 to 5.4 of
    IEEE 1619-2007. */
module Xts {
  import opened Bytes
  import opened BlockCipher
  import opened Words64

  // ---- multiplication of a tweak by the primitive element ----

  function Shl1(x: byte): byte { x << 1 }
  function Out1(x: byte): byte { x >> 7 }

  /** Section 5.2: every byte is doubled, takes the bit shifted out of the byte before it, and the
      bit shifted out at the end comes back as 135. */
  function AlphaByte(t: Block, k: nat): byte
    requires k < 16
  {
    if k == 0 then Xor(Shl1(t[0]), if Out1(t[15]) != 0 then 135 else 0) else Xor(Shl1(t[k]), Out1(t[k - 1]))
  }

  function Alpha(t: Block): Block { seq(16, k requires 0 <= k < 16 => AlphaByte(t, k)) }

  /** The tweak of block j: the first one times the jth power of the primitive element. */
  function Tweak(t: Block, j: nat): Block { if j == 0 then t else Alpha(Tweak(t, j - 1)) }

  // The two 64-bit words of mbedtls_gf128mul_x_ble.
  function DoubleLow(a: u64, b: u64): u64 { (a << 1) ^ ((0x0087 as u64) >> (8 - ((b >> 63) << 3))) }
  function DoubleHigh(a: u64, b: u64): u64 { (a >> 63) | (b << 1) }

  lemma DoubleLowBytes(a: u64, b: u64)
    ensures Byte0(DoubleLow(a, b)) == (Byte0(a) << 1) ^ (if Byte7(b) >> 7 != 0 then 135 else 0)
    ensures Byte1(DoubleLow(a, b)) == (Byte1(a) << 1) ^ (Byte0(a) >> 7)
    ensures Byte2(DoubleLow(a, b)) == (Byte2(a) << 1) ^ (Byte1(a) >> 7)
    ensures Byte3(DoubleLow(a, b)) == (Byte3(a) << 1) ^ (Byte2(a) >> 7)
    ensures Byte4(DoubleLow(a, b)) == (Byte4(a) << 1) ^ (Byte3(a) >> 7)
    ensures Byte5(DoubleLow(a, b)) == (Byte5(a) << 1) ^ (Byte4(a) >> 7)
    ensures Byte6(DoubleLow(a, b)) == (Byte6(a) << 1) ^ (Byte5(a) >> 7)
    ensures Byte7(DoubleLow(a, b)) == (Byte7(a) << 1) ^ (Byte6(a) >> 7)
  {}

  lemma DoubleHighBytes(a: u64, b: u64)
    ensures Byte0(DoubleHigh(a, b)) == (Byte0(b) << 1) ^ (Byte7(a) >> 7)
    ensures Byte1(DoubleHigh(a, b)) == (Byte1(b) << 1) ^ (Byte0(b) >> 7)
    ensures Byte2(DoubleHigh(a, b)) == (Byte2(b) << 1) ^ (Byte1(b) >> 7)
    ensures Byte3(DoubleHigh(a, b)) == (Byte3(b) << 1) ^ (Byte2(b) >> 7)
    ensures Byte4(DoubleHigh(a, b)) == (Byte4(b) << 1) ^ (Byte3(b) >> 7)
    ensures Byte5(DoubleHigh(a, b)) == (Byte5(b) << 1) ^ (Byte4(b) >> 7)
    ensures Byte6(DoubleHigh(a, b)) == (Byte6(b) << 1) ^ (Byte5(b) >> 7)
    ensures Byte7(DoubleHigh(a, b)) == (Byte7(b) << 1) ^ (Byte6(b) >> 7)
  {}

  /** Byte k of the tweak put back from its two words. */
  function DoubleByte(a: u64, b: u64, k: nat): byte
    requires k < 16
  {
    if k == 0 then Byte0(DoubleLow(a, b)) else if k == 1 then Byte1(DoubleLow(a, b))
    else if k == 2 then Byte2(DoubleLow(a, b)) else if k == 3 then Byte3(DoubleLow(a, b))
    else if k == 4 then Byte4(DoubleLow(a, b)) else if k == 5 then Byte5(DoubleLow(a, b))
    else if k == 6 then Byte6(DoubleLow(a, b)) else if k == 7 then Byte7(DoubleLow(a, b))
    else if k == 8 then Byte0(DoubleHigh(a, b)) else if k == 9 then Byte1(DoubleHigh(a, b))
    else if k == 10 then Byte2(DoubleHigh(a, b)) else if k == 11 then Byte3(DoubleHigh(a, b))
    else if k == 12 then Byte4(DoubleHigh(a, b)) else if k == 13 then Byte5(DoubleHigh(a, b))
    else if k == 14 then Byte6(DoubleHigh(a, b)) else Byte7(DoubleHigh(a, b))
  }

  function DoubleBytes(a: u64, b: u64): Block { seq(16, k requires 0 <= k < 16 => DoubleByte(a, b, k)) }

  function LowWord(t: Block): u64 { U64(t[0], t[1], t[2], t[3], t[4], t[5], t[6], t[7]) }
  function HighWord(t: Block): u64 { U64(t[8], t[9], t[10], t[11], t[12], t[13], t[14], t[15]) }

  lemma Linked(x: byte, y: byte)
    ensures (x << 1) ^ (y >> 7) == Xor(Shl1(x), Out1(y))
    ensures (x << 1) ^ (if y >> 7 != 0 then 135 else 0) == Xor(Shl1(x), if Out1(y) != 0 then 135 else 0)
  {}

  lemma DoubleLowLinked(a: u64, b: u64)
    ensures Byte0(DoubleLow(a, b)) == Xor(Shl1(Byte0(a)), if Out1(Byte7(b)) != 0 then 135 else 0)
    ensures Byte1(DoubleLow(a, b)) == Xor(Shl1(Byte1(a)), Out1(Byte0(a)))
    ensures Byte2(DoubleLow(a, b)) == Xor(Shl1(Byte2(a)), Out1(Byte1(a)))
    ensures Byte3(DoubleLow(a, b)) == Xor(Shl1(Byte3(a)), Out1(Byte2(a)))
    ensures Byte4(DoubleLow(a, b)) == Xor(Shl1(Byte4(a)), Out1(Byte3(a)))
    ensures Byte5(DoubleLow(a, b)) == Xor(Shl1(Byte5(a)), Out1(Byte4(a)))
    ensures Byte6(DoubleLow(a, b)) == Xor(Shl1(Byte6(a)), Out1(Byte5(a)))
    ensures Byte7(DoubleLow(a, b)) == Xor(Shl1(Byte7(a)), Out1(Byte6(a)))
  {
    hide Xor, Shl1, Out1, DoubleLow, DoubleHigh, Byte0, Byte1, Byte2, Byte3, Byte4, Byte5, Byte6, Byte7;
    DoubleLowBytes(a, b);
    Linked(Byte0(a), Byte7(b));
    Linked(Byte1(a), Byte0(a));
    Linked(Byte2(a), Byte1(a));
    Linked(Byte3(a), Byte2(a));
    Linked(Byte4(a), Byte3(a));
    Linked(Byte5(a), Byte4(a));
    Linked(Byte6(a), Byte5(a));
    Linked(Byte7(a), Byte6(a));
  }

  lemma DoubleHighLinked(a: u64, b: u64)
    ensures Byte0(DoubleHigh(a, b)) == Xor(Shl1(Byte0(b)), Out1(Byte7(a)))
    ensures Byte1(DoubleHigh(a, b)) == Xor(Shl1(Byte1(b)), Out1(Byte0(b)))
    ensures Byte2(DoubleHigh(a, b)) == Xor(Shl1(Byte2(b)), Out1(Byte1(b)))
    ensures Byte3(DoubleHigh(a, b)) == Xor(Shl1(Byte3(b)), Out1(Byte2(b)))
    ensures Byte4(DoubleHigh(a, b)) == Xor(Shl1(Byte4(b)), Out1(Byte3(b)))
    ensures Byte5(DoubleHigh(a, b)) == Xor(Shl1(Byte5(b)), Out1(Byte4(b)))
    ensures Byte6(DoubleHigh(a, b)) == Xor(Shl1(Byte6(b)), Out1(Byte5(b)))
    ensures Byte7(DoubleHigh(a, b)) == Xor(Shl1(Byte7(b)), Out1(Byte6(b)))
  {
    hide Xor, Shl1, Out1, DoubleLow, DoubleHigh, Byte0, Byte1, Byte2, Byte3, Byte4, Byte5, Byte6, Byte7;
    DoubleHighBytes(a, b);
    Linked(Byte0(b), Byte7(a));
    Linked(Byte1(b), Byte0(b));
    Linked(Byte2(b), Byte1(b));
    Linked(Byte3(b), Byte2(b));
    Linked(Byte4(b), Byte3(b));
    Linked(Byte5(b), Byte4(b));
    Linked(Byte6(b), Byte5(b));
    Linked(Byte7(b), Byte6(b));
  }

  lemma WordBytes(t: Block)
    ensures Byte0(LowWord(t)) == t[0] && Byte0(HighWord(t)) == t[8]
    ensures Byte1(LowWord(t)) == t[1] && Byte1(HighWord(t)) == t[9]
    ensures Byte2(LowWord(t)) == t[2] && Byte2(HighWord(t)) == t[10]
    ensures Byte3(LowWord(t)) == t[3] && Byte3(HighWord(t)) == t[11]
    ensures Byte4(LowWord(t)) == t[4] && Byte4(HighWord(t)) == t[12]
    ensures Byte5(LowWord(t)) == t[5] && Byte5(HighWord(t)) == t[13]
    ensures Byte6(LowWord(t)) == t[6] && Byte6(HighWord(t)) == t[14]
    ensures Byte7(LowWord(t)) == t[7] && Byte7(HighWord(t)) == t[15]
  {
    hide U64, Byte0, Byte1, Byte2, Byte3, Byte4, Byte5, Byte6, Byte7;
    BytesOfU64(t[0], t[1], t[2], t[3], t[4], t[5], t[6], t[7]);
    BytesOfU64(t[8], t[9], t[10], t[11], t[12], t[13], t[14], t[15]);
  }

  lemma ByteIsAlpha(t: Block, k: nat)
    requires k < 16
    ensures DoubleByte(LowWord(t), HighWord(t), k) == AlphaByte(t, k)
  {
    hide Byte0, Byte1, Byte2, Byte3, Byte4, Byte5, Byte6, Byte7;
    hide LowWord, HighWord, DoubleLow, DoubleHigh, Xor, Shl1, Out1;
    WordBytes(t);
    if k < 8 {
      DoubleLowLinked(LowWord(t), HighWord(t));
    } else {
      DoubleHighLinked(LowWord(t), HighWord(t));
    }
  }

  /** The 64-bit word operations are the standard's multiplication. */
  lemma DoubleIsAlpha(t: Block)
    ensures DoubleBytes(LowWord(t), HighWord(t)) == Alpha(t)
  {
    hide LowWord, HighWord, DoubleByte, AlphaByte;
    forall k | 0 <= k < 16
      ensures DoubleBytes(LowWord(t), HighWord(t))[k] == Alpha(t)[k]
    {
      ByteIsAlpha(t, k);
    }
  }

  /** The first byte is the least significant: the bit shifted out of it goes into the second one, and the bit
      shifted out of the last byte comes back as 0x87 in the first. */
  lemma KnownAlpha(t: Block)
    ensures t[0] == 0x81 && (forall k :: 0 < k < 16 ==> t[k] == 0) ==>
              Alpha(t)[0] == 2 && Alpha(t)[1] == 1 && forall k :: 2 <= k < 16 ==> Alpha(t)[k] == 0
    ensures t[15] == 0x80 && (forall k :: 0 <= k < 15 ==> t[k] == 0) ==>
              Alpha(t)[0] == 0x87 && forall k :: 1 <= k < 16 ==> Alpha(t)[k] == 0
  {
    hide Xor, Shl1, Out1;
    KnownShifts();
  }

  lemma KnownShifts()
    ensures Shl1(0x81) == 2 && Out1(0x81) == 1 && Shl1(0x80) == 0 && Out1(0x80) == 1 && Shl1(0) == 0 && Out1(0) == 0
    ensures Xor(2, 0) == 2 && Xor(0, 1) == 1 && Xor(0, 0x87) == 0x87 && Xor(0, 0) == 0
  {}

  // ---- the data unit ----

  type Transform = Block -> Block

  /** One block under a tweak, section 5.3.1. */
  function XtsBlock(f: Transform, t: Block, x: Block): Block { XorSeq(f(XorSeq(x, t)), t) }

  /** Whole blocks, the first under tweak number j. */
  function Blocks(f: Transform, t: Block, p: seq<byte>, j: nat): (r: seq<byte>)
    requires |p| % 16 == 0
    ensures |r| == |p|
    decreases |p|
  {
    if p == [] then []
    else XtsBlock(f, Tweak(t, j), p[..16]) + Blocks(f, t, p[16..], j + 1)
  }

  /** The number of the last whole block. */
  function LastBlock(p: seq<byte>): nat
    requires |p| >= 16
  {
    |p| / 16 - 1
  }

  /** Section 5.3.2. With b leftover bytes the last whole block is enciphered under its own tweak;
      its first b bytes become the short last block, and the others complete the leftover bytes to
      a block that is enciphered under the next tweak in its place. */
  function Encrypt(c: Cipher, t: Block, p: seq<byte>): (r: seq<byte>)
    requires |p| >= 16
    ensures |r| == |p|
  {
    var b, m := |p| % 16, LastBlock(p);
    if b == 0 then Blocks(c.enc, t, p, 0)
    else
      var cc := XtsBlock(c.enc, Tweak(t, m), p[16 * m..16 * m + 16]);
      Blocks(c.enc, t, p[..16 * m], 0)
      + XtsBlock(c.enc, Tweak(t, m + 1), p[16 * m + 16..] + cc[b..]) + cc[..b]
  }

  /** Section 5.4.2: the same with the last two tweaks taken in the other order. */
  function Decrypt(c: Cipher, t: Block, x: seq<byte>): (r: seq<byte>)
    requires |x| >= 16
    ensures |r| == |x|
  {
    var b, m := |x| % 16, LastBlock(x);
    if b == 0 then Blocks(c.dec, t, x, 0)
    else
      var pp := XtsBlock(c.dec, Tweak(t, m + 1), x[16 * m..16 * m + 16]);
      Blocks(c.dec, t, x[..16 * m], 0)
      + XtsBlock(c.dec, Tweak(t, m), x[16 * m + 16..] + pp[b..]) + pp[..b]
  }

  lemma BlockUndoes(c: Cipher, t: Block, x: Block)
    requires Invertible(c)
    ensures XtsBlock(c.dec, t, XtsBlock(c.enc, t, x)) == x
  {
    hide XorSeq;
    XorSeqTwice(c.enc(XorSeq(x, t)), t);
    assert c.dec(c.enc(XorSeq(x, t))) == XorSeq(x, t);
    XorSeqTwice(x, t);
  }

  lemma {:induction false} BlocksUndo(c: Cipher, t: Block, p: seq<byte>, j: nat)
    requires Invertible(c) && |p| % 16 == 0
    ensures Blocks(c.dec, t, Blocks(c.enc, t, p, j), j) == p
    decreases |p|
  {
    hide XtsBlock, Tweak;
    if p != [] {
      var y := XtsBlock(c.enc, Tweak(t, j), p[..16]);
      var x := Blocks(c.enc, t, p, j);
      assert x[..16] == y && x[16..] == Blocks(c.enc, t, p[16..], j + 1);
      BlockUndoes(c, Tweak(t, j), p[..16]);
      BlocksUndo(c, t, p[16..], j + 1);
      assert p == p[..16] + p[16..];
    }
  }

  lemma Pieces(a: seq<byte>, b: seq<byte>, c: seq<byte>)
    ensures (a + b + c)[..|a|] == a && (a + b + c)[|a|..|a| + |b|] == b && (a + b + c)[|a| + |b|..] == c
  {}

  lemma Rejoin(p: seq<byte>, k: nat)
    requires k + 16 <= |p|
    ensures p == p[..k] + p[k..k + 16] + p[k + 16..]
  {}

  /** The stolen bytes go back to where they were taken from. */
  lemma StolenBytes(tail: seq<byte>, cc: Block)
    requires |tail| < 16
    ensures (tail + cc[|tail|..])[..|tail|] == tail
    ensures cc[..|tail|] + (tail + cc[|tail|..])[|tail|..] == cc
  {}

  /** Decryption undoes encryption for every length the code accepts, stealing included. */
  lemma RoundTrip(c: Cipher, t: Block, p: seq<byte>)
    requires Invertible(c) && |p| >= 16
    ensures Decrypt(c, t, Encrypt(c, t, p)) == p
  {
    hide XtsBlock, Tweak, Blocks;
    var b, m, x := |p| % 16, LastBlock(p), Encrypt(c, t, p);
    if b == 0 {
      BlocksUndo(c, t, p, 0);
    } else {
      var head, tail := p[..16 * m], p[16 * m + 16..];
      var cc := XtsBlock(c.enc, Tweak(t, m), p[16 * m..16 * m + 16]);
      var pp := tail + cc[b..];
      Pieces(Blocks(c.enc, t, head, 0), XtsBlock(c.enc, Tweak(t, m + 1), pp), cc[..b]);
      BlockUndoes(c, Tweak(t, m + 1), pp);
      BlockUndoes(c, Tweak(t, m), p[16 * m..16 * m + 16]);
      StolenBytes(tail, cc);
      BlocksUndo(c, t, head, 0);
      Rejoin(p, 16 * m);
    }
  }

  // ---- one buffer for input and output ----

  /** What encryption computes when input and output are the same buffer: the leftover loop has
      overwritten the leftover input with ciphertext before it reads it. */
  function EncryptInPlace(c: Cipher, t: Block, p: seq<byte>): (r: seq<byte>)
    requires |p| >= 16
    ensures |r| == |p|
  {
    var b, m := |p| % 16, LastBlock(p);
    if b == 0 then Blocks(c.enc, t, p, 0)
    else
      var cc := XtsBlock(c.enc, Tweak(t, m), p[16 * m..16 * m + 16]);
      Blocks(c.enc, t, p[..16 * m], 0) + XtsBlock(c.enc, Tweak(t, m + 1), cc) + cc[..b]
  }

  function DecryptInPlace(c: Cipher, t: Block, x: seq<byte>): (r: seq<byte>)
    requires |x| >= 16
    ensures |r| == |x|
  {
    var b, m := |x| % 16, LastBlock(x);
    if b == 0 then Blocks(c.dec, t, x, 0)
    else
      var pp := XtsBlock(c.dec, Tweak(t, m + 1), x[16 * m..16 * m + 16]);
      Blocks(c.dec, t, x[..16 * m], 0) + XtsBlock(c.dec, Tweak(t, m), pp) + pp[..b]
  }

  function TransformOf(c: Cipher, mode: Mode): Transform {
    if mode == EncryptMode then c.enc else c.dec
  }

  /** The data unit under a mode, for separate buffers or for one. */
  function Crypt(c: Cipher, mode: Mode, inPlace: bool, t: Block, p: seq<byte>): (r: seq<byte>)
    requires |p| >= 16
    ensures |r| == |p|
  {
    if mode == EncryptMode then if inPlace then EncryptInPlace(c, t, p) else Encrypt(c, t, p)
    else if inPlace then DecryptInPlace(c, t, p) else Decrypt(c, t, p)
  }

  /** In one buffer the leftover bytes never reach the output, in either mode. */
  lemma TailLost(c: Cipher, mode: Mode, t: Block, p: seq<byte>, q: seq<byte>)
    requires |p| == |q| >= 16 && |p| % 16 != 0
    requires p[..16 * LastBlock(p) + 16] == q[..16 * LastBlock(p) + 16]
    ensures Crypt(c, mode, true, t, p) == Crypt(c, mode, true, t, q)
  {
    hide XtsBlock, Tweak, Blocks;
    var k := 16 * LastBlock(p);
    var h, g := p[..k + 16], q[..k + 16];
    assert p[..k] == h[..k] && q[..k] == g[..k];
    assert p[k..k + 16] == h[k..] && q[k..k + 16] == g[k..];
  }

  /** Two data units that a mode in one buffer does not tell apart. */
  ghost predicate Confused(c: Cipher, mode: Mode, t: Block, p: seq<byte>, q: seq<byte>) {
    |p| == |q| >= 16 && p != q && Crypt(c, mode, true, t, p) == Crypt(c, mode, true, t, q)
  }

  lemma WholeBlocksDiffer(c: Cipher, mode: Mode, t: Block, p: seq<byte>, q: seq<byte>)
    requires Invertible(c) && |p| == |q| >= 16 && |p| % 16 == 0
    ensures !Confused(c, mode, t, p, q)
  {
    hide XtsBlock, Tweak, Blocks;
    if Confused(c, mode, t, p, q) {
      SwappedInvertible(c);
      var d := if mode == EncryptMode then c else Swapped(c);
      BlocksUndo(d, t, p, 0);
      BlocksUndo(d, t, q, 0);
    }
  }

  /** In one buffer either mode loses no data exactly when there are no leftover bytes. */
  lemma InPlaceIsLosslessIff(c: Cipher, mode: Mode, t: Block, n: nat)
    requires Invertible(c) && n >= 16
    ensures (forall p: seq<byte>, q: seq<byte> :: |p| == n ==> !Confused(c, mode, t, p, q)) <==> n % 16 == 0
  {
    hide XtsBlock, Tweak, Blocks, Crypt;
    if n % 16 == 0 {
      forall p: seq<byte>, q: seq<byte> | |p| == n
        ensures !Confused(c, mode, t, p, q)
      {
        if |q| == n {
          WholeBlocksDiffer(c, mode, t, p, q);
        }
      }
    } else {
      var p, q := seq(n, i => 0 as byte), seq(n, i => if i == n - 1 then 1 as byte else 0);
      var k := 16 * LastBlock(p) + 16;
      assert k < n && p[..k] == q[..k];
      assert p[n - 1] != q[n - 1];
      TailLost(c, mode, t, p, q);
      assert Confused(c, mode, t, p, q);
    }
  }

  // ---- block by block ----

  /** y is x masked with the tweak, transformed and masked with the tweak again. */
  predicate Masked(f: Transform, tweak: Block, x: Block, y: Block) { y == XorSeq(f(XorSeq(x, tweak)), tweak) }

  lemma BlocksFirst(f: Transform, t: Block, p: seq<byte>, n: nat)
    requires |p| % 16 == 0 && p != []
    ensures Blocks(f, t, p, n) == XtsBlock(f, Tweak(t, n), p[..16]) + Blocks(f, t, p[16..], n + 1)
  {
    hide XtsBlock, Tweak;
  }

  lemma MaskedBlock(f: Transform, tweak: Block, x: Block)
    ensures Masked(f, tweak, x, XtsBlock(f, tweak, x))
  {
    hide XorSeq;
  }

  lemma {:induction false} BlockAt(f: Transform, t: Block, p: seq<byte>, n: nat, j: nat)
    requires |p| % 16 == 0 && 16 * j < |p|
    ensures Masked(f, Tweak(t, n + j), p[16 * j..16 * j + 16], Blocks(f, t, p, n)[16 * j..16 * j + 16])
    decreases j
  {
    hide Masked, XtsBlock, Tweak, Blocks;
    BlocksFirst(f, t, p, n);
    var y := XtsBlock(f, Tweak(t, n), p[..16]);
    if j == 0 {
      MaskedBlock(f, Tweak(t, n), p[..16]);
    } else {
      BlockAt(f, t, p[16..], n + 1, j - 1);
      SkipBlock(y, Blocks(f, t, p[16..], n + 1), 16 * j - 16);
      SkipInput(p, 16 * j - 16);
    }
  }

  /** Whole block j of the data unit, under tweak j; with leftover bytes, all whole blocks but the last. */
  lemma WholeBlock(c: Cipher, mode: Mode, inPlace: bool, t: Block, p: seq<byte>, j: nat)
    requires |p| >= 16 && 16 * j + 16 <= |p| && (|p| % 16 == 0 || j < LastBlock(p))
    ensures Masked(if mode == EncryptMode then c.enc else c.dec, Tweak(t, j), p[16 * j..16 * j + 16],
                   Crypt(c, mode, inPlace, t, p)[16 * j..16 * j + 16])
  {
    hide XtsBlock, Tweak, Blocks, Masked;
    var f := if mode == EncryptMode then c.enc else c.dec;
    var r, k := Crypt(c, mode, inPlace, t, p), 16 * LastBlock(p);
    if |p| % 16 == 0 {
      BlockAt(f, t, p, 0, j);
    } else {
      BlockAt(f, t, p[..k], 0, j);
      var head := Blocks(f, t, p[..k], 0);
      assert r[..k] == head;
      assert r[16 * j..16 * j + 16] == head[16 * j..16 * j + 16];
      assert p[16 * j..16 * j + 16] == p[..k][16 * j..16 * j + 16];
    }
  }

  /** The leftover bytes. The last whole block gives a block y under its own tweak, or in decryption under the next
      one. The first bytes of y end the output. The leftover bytes, completed by the other bytes of y, stand before
      them under the other of the two tweaks; in one buffer the first bytes of y have taken their place. */
  lemma StolenBlocks(c: Cipher, mode: Mode, inPlace: bool, t: Block, p: seq<byte>) returns (y: Block)
    requires |p| >= 16 && |p| % 16 != 0
    ensures var f := if mode == EncryptMode then c.enc else c.dec;
            var m, b, r := LastBlock(p), |p| % 16, Crypt(c, mode, inPlace, t, p);
            var left := if inPlace then y[..b] else p[16 * m + 16..];
            && Masked(f, Tweak(t, if mode == EncryptMode then m else m + 1), p[16 * m..16 * m + 16], y)
            && Masked(f, Tweak(t, if mode == EncryptMode then m + 1 else m), left + y[b..], r[16 * m..16 * m + 16])
            && r[16 * m + 16..] == y[..b]
  {
    hide XorSeq, Tweak, Blocks;
    var f := if mode == EncryptMode then c.enc else c.dec;
    var m, b, r := LastBlock(p), |p| % 16, Crypt(c, mode, inPlace, t, p);
    y := XtsBlock(f, Tweak(t, if mode == EncryptMode then m else m + 1), p[16 * m..16 * m + 16]);
    var left := if inPlace then y[..b] else p[16 * m + 16..];
    assert y[..b] + y[b..] == y;
    var z := XtsBlock(f, Tweak(t, if mode == EncryptMode then m + 1 else m), left + y[b..]);
    var head := Blocks(f, t, p[..16 * m], 0);
    assert r == head + z + y[..b];
    Pieces(head, z, y[..b]);
  }

  // ---- the code ----

  datatype Mode = EncryptMode | DecryptMode
  datatype Status = Success | InvalidInputLength

  /** mbedtls_gf128mul_x_ble; r and x may be the same buffer. */
  method Gf128MulX(r: array<byte>, x: array<byte>)
    requires r.Length == x.Length == 16
    modifies r
    ensures r[..] == Alpha(old(x[..]))
  {
    hide LowWord, HighWord, DoubleBytes, Alpha, Splice;
    DoubleIsAlpha(x[..]);
    var a, b := LowWord(x[..]), HighWord(x[..]);
    var y := DoubleBytes(a, b);
    SpliceWhole(r[..], y);
    PutBlock(y, r, 0);
  }

  /** dst[..] = src[k + i] ^ t[i]. */
  method XorFrom(src: array<byte>, k: nat, t: array<byte>, dst: array<byte>)
    requires t.Length == dst.Length == 16 && k + 16 <= src.Length && dst != src && dst != t
    modifies dst
    ensures dst[..] == XorSeq(src[k..k + 16], t[..])
  {
    hide Xor;
    for i := 0 to 16
      invariant forall m :: 0 <= m < i ==> dst[m] == Xor(src[k + m], t[m])
    {
      dst[i] := Xor(src[k + i], t[i]);
    }
  }

  /** dst[k + i] = src[i] ^ t[i]. */
  method XorTo(src: array<byte>, t: array<byte>, dst: array<byte>, k: nat)
    requires t.Length == src.Length == 16 && k + 16 <= dst.Length && dst != src && dst != t
    modifies dst
    ensures dst[..] == Splice(old(dst[..]), k, XorSeq(src[..], t[..]))
  {
    hide Xor;
    for i := 0 to 16
      invariant forall m :: 0 <= m < dst.Length && !(k <= m < k + i) ==> dst[m] == old(dst[m])
      invariant forall m :: k <= m < k + i ==> dst[m] == Xor(src[m - k], t[m - k])
    {
      dst[k + i] := Xor(src[i], t[i]);
    }
  }

  /** One block: mask, encipher, mask. input and output may be the same buffer. */
  method CryptBlock(f: Transform, t: array<byte>, tmp: array<byte>, input: array<byte>, output: array<byte>, k: nat)
    requires t.Length == tmp.Length == 16 && k + 16 <= input.Length && k + 16 <= output.Length
    requires tmp != t && tmp != input && tmp != output && output != t
    modifies tmp, output
    ensures output[..] == Splice(old(output[..]), k, XtsBlock(f, t[..], old(input[k..k + 16])))
  {
    hide XorSeq, Splice;
    XorFrom(input, k, t, tmp);
    var y := f(tmp[..]);
    SpliceWhole(tmp[..], y);
    PutBlock(y, tmp, 0);
    XorTo(tmp, t, output, k);
  }

  lemma StolenCopy(before: seq<byte>, after: seq<byte>, k: nat, b: nat)
    requires |before| == |after| && b <= 16 <= k && k + b <= |before|
    requires forall m :: 0 <= m < |before| && !(k <= m < k + b) ==> after[m] == before[m]
    requires forall m :: k <= m < k + b ==> after[m] == before[m - 16]
    ensures after == before[..k] + before[k - 16..k][..b] + before[k + b..]
  {
    var want := before[..k] + before[k - 16..k][..b] + before[k + b..];
    forall m | 0 <= m < |after|
      ensures after[m] == want[m]
    {
      if k <= m < k + b {
        assert want[m] == before[k - 16..k][..b][m - k] == before[m - 16];
      }
    }
  }

  /** First leftover loop: moves the bytes not stolen, and masks the leftover input. */
  method StealHead(t: array<byte>, tmp: array<byte>, input: array<byte>, output: array<byte>, k: nat, leftover: nat)
    requires t.Length == tmp.Length == 16 && leftover < 16 <= k
    requires k + leftover <= input.Length && k + leftover <= output.Length
    requires tmp != t && tmp != input && tmp != output && output != t
    modifies tmp, output
    ensures output[..] == old(output[..k]) + old(output[k - 16..k])[..leftover] + old(output[k + leftover..])
    ensures forall m :: 0 <= m < leftover ==>
              tmp[m] == Xor(if input == output then old(output[k - 16 + m]) else old(input[k + m]), t[m])
  {
    hide Xor;
    for i := 0 to leftover
      invariant forall m :: 0 <= m < output.Length && !(k <= m < k + i) ==> output[m] == old(output[m])
      invariant forall m :: k <= m < k + i ==> output[m] == old(output[m - 16])
      invariant forall m :: 0 <= m < i ==>
                  tmp[m] == Xor(if input == output then old(output[k - 16 + m]) else old(input[k + m]), t[m])
    {
      output[k + i] := output[k - 16 + i];
      tmp[i] := Xor(input[k + i], t[i]);
    }
    StolenCopy(old(output[..]), output[..], k, leftover);
  }

  /** Second leftover loop: masks the stolen bytes. */
  method StealRest(t: array<byte>, tmp: array<byte>, output: array<byte>, k: nat, leftover: nat)
    requires t.Length == tmp.Length == 16 && leftover < 16 <= k <= output.Length
    requires tmp != t && tmp != output
    modifies tmp
    ensures forall m :: 0 <= m < leftover ==> tmp[m] == old(tmp[m])
    ensures forall m :: leftover <= m < 16 ==> tmp[m] == Xor(output[k - 16 + m], t[m])
  {
    hide Xor;
    for i := leftover to 16
      invariant forall m :: 0 <= m < leftover ==> tmp[m] == old(tmp[m])
      invariant forall m :: leftover <= m < i ==> tmp[m] == Xor(output[k - 16 + m], t[m])
    {
      tmp[i] := Xor(output[k - 16 + i], t[i]);
    }
  }

  /** The leftover bytes after a data unit's whole blocks, which end at k. */
  method Steal(f: Transform, t: array<byte>, tmp: array<byte>, input: array<byte>, output: array<byte>, k: nat,
               leftover: nat)
    requires t.Length == tmp.Length == 16 && 0 < leftover < 16 <= k
    requires k + leftover <= input.Length && k + leftover <= output.Length
    requires tmp != t && tmp != input && tmp != output && output != t
    modifies tmp, output
    ensures var prev := old(output[k - 16..k]);
            var tail := if input == output then prev[..leftover] else old(input[k..k + leftover]);
            output[..] == old(output[..k - 16]) + XtsBlock(f, t[..], tail + prev[leftover..]) + prev[..leftover]
                        + old(output[k + leftover..])
  {
    hide Xor, Splice, XtsBlock;
    ghost var prev, before := output[k - 16..k], output[..];
    ghost var x := (if input == output then prev[..leftover] else input[k..k + leftover]) + prev[leftover..];
    StealHead(t, tmp, input, output, k, leftover);
    StealRest(t, tmp, output, k, leftover);
    assert tmp[..] == XorSeq(x, t[..]);
    assert output[..k - 16] == before[..k - 16] by { assert output[..k] == before[..k]; }
    assert output[k..] == prev[..leftover] + before[k + leftover..];
    FinishSteal(f, t, tmp, output, k, leftover, x);
  }

  method FinishSteal(f: Transform, t: array<byte>, tmp: array<byte>, output: array<byte>, k: nat, leftover: nat,
                     ghost x: Block)
    requires t.Length == tmp.Length == 16 && 0 < leftover < 16 <= k && k + leftover <= output.Length
    requires tmp != t && tmp != output && output != t && tmp[..] == XorSeq(x, t[..])
    modifies tmp, output
    ensures output[..] == old(output[..k - 16]) + XtsBlock(f, t[..], x) + old(output[k..])
  {
    hide XorSeq, Splice;
    ghost var before := output[..];
    var y := f(tmp[..]);
    SpliceWhole(tmp[..], y);
    PutBlock(y, tmp, 0);
    XorTo(tmp, t, output, k - 16);
    SpliceParts(before, k - 16, XtsBlock(f, t[..], x));
    assert output[..] == output[..k] + output[k..];
  }

  lemma {:induction false} BlocksAppend(f: Transform, t: Block, p: seq<byte>, b: Block, j: nat)
    requires |p| % 16 == 0
    ensures Blocks(f, t, p + b, j) == Blocks(f, t, p, j) + XtsBlock(f, Tweak(t, j + |p| / 16), b)
    decreases |p|
  {
    hide XtsBlock, Tweak;
    if p == [] {
      assert p + b == b && b[..16] == b && b[16..] == [];
    } else {
      BlocksAppend(f, t, p[16..], b, j + 1);
      assert (p + b)[..16] == p[..16] && (p + b)[16..] == p[16..] + b;
    }
  }

  /** What the loop over whole blocks has written after n of them. */
  function Whole(c: Cipher, mode: Mode, t: Block, p: seq<byte>, n: nat): (r: seq<byte>)
    requires 16 * n <= |p|
    ensures |r| == 16 * n
  {
    var f := TransformOf(c, mode);
    if n > 0 && mode == DecryptMode && |p| % 16 != 0 && n == |p| / 16 then
      Blocks(f, t, p[..16 * n - 16], 0) + XtsBlock(f, Tweak(t, n), p[16 * n - 16..16 * n])
    else Blocks(f, t, p[..16 * n], 0)
  }

  /** The tweak the code uses for whole block n: decryption with leftover bytes takes the next one
      for the last whole block. */
  function TweakNumber(mode: Mode, length: nat, n: nat): nat {
    if mode == DecryptMode && length % 16 != 0 && n + 1 == length / 16 then n + 1 else n
  }

  lemma WholeNext(c: Cipher, mode: Mode, t: Block, p: seq<byte>, n: nat)
    requires 16 * n + 16 <= |p|
    ensures Whole(c, mode, t, p, n + 1) == Whole(c, mode, t, p, n)
              + XtsBlock(TransformOf(c, mode), Tweak(t, TweakNumber(mode, |p|, n)), p[16 * n..16 * n + 16])
  {
    hide XtsBlock, Tweak, Blocks;
    BlocksAppend(TransformOf(c, mode), t, p[..16 * n], p[16 * n..16 * n + 16], 0);
    assert p[..16 * n + 16] == p[..16 * n] + p[16 * n..16 * n + 16];
  }

  /** After n blocks, whole block i stands where it was, under the tweak of its number; only the last one of
      a decryption with leftover bytes is under the next tweak. */
  lemma {:induction false} WholeAt(c: Cipher, mode: Mode, t: Block, p: seq<byte>, n: nat, i: nat)
    requires i < n && 16 * n <= |p|
    ensures Whole(c, mode, t, p, n)[16 * i..16 * i + 16]
         == XtsBlock(TransformOf(c, mode), Tweak(t, TweakNumber(mode, |p|, i)), p[16 * i..16 * i + 16])
    decreases n
  {
    hide XtsBlock, Tweak, Whole, TransformOf, TweakNumber;
    WholeNext(c, mode, t, p, n - 1);
    if i < n - 1 {
      WholeAt(c, mode, t, p, n - 1, i);
      var w := Whole(c, mode, t, p, n - 1);
      assert Whole(c, mode, t, p, n)[16 * i..16 * i + 16] == w[16 * i..16 * i + 16];
    }
  }

  /** Without leftover bytes the whole blocks are everything. */
  lemma WholeAll(c: Cipher, mode: Mode, inPlace: bool, t: Block, p: seq<byte>)
    requires |p| >= 16 && |p| % 16 == 0
    ensures Whole(c, mode, t, p, |p| / 16) == Crypt(c, mode, inPlace, t, p)
  {
    hide XtsBlock, Tweak, Blocks;
    assert p[..16 * (|p| / 16)] == p;
  }

  /** With leftover bytes, stealing completes the whole blocks. */
  lemma WholeStolen(c: Cipher, mode: Mode, inPlace: bool, t: Block, p: seq<byte>, w: seq<byte>, prev: seq<byte>,
                    tail: seq<byte>)
    requires |p| >= 16 && |p| % 16 != 0
    requires var n := |p| / 16; |w| == 16 * n && w == Whole(c, mode, t, p, n)
    requires var k := 16 * (|p| / 16);
             prev == w[k - 16..] && tail == if inPlace then prev[..|p| % 16] else p[k..]
    ensures var n, b := |p| / 16, |p| % 16;
            Crypt(c, mode, inPlace, t, p) == w[..16 * n - 16]
              + XtsBlock(TransformOf(c, mode), Tweak(t, if mode == EncryptMode then n else n - 1), tail + prev[b..])
              + prev[..b]
  {
    hide XtsBlock, Tweak, Blocks, Whole;
    var f, n, b := TransformOf(c, mode), |p| / 16, |p| % 16;
    var m := n - 1;
    var y := XtsBlock(f, Tweak(t, if mode == EncryptMode then m else n), p[16 * m..16 * m + 16]);
    WholeNext(c, mode, t, p, m);
    WholeInner(c, mode, t, p, m);
    assert w == Blocks(f, t, p[..16 * m], 0) + y;
    assert w[16 * m..] == y && w[..16 * m] == Blocks(f, t, p[..16 * m], 0);
    if inPlace {
      assert prev[..b] + prev[b..] == prev;
    }
  }

  lemma WholeInner(c: Cipher, mode: Mode, t: Block, p: seq<byte>, n: nat)
    requires 16 * n + 16 <= |p|
    ensures Whole(c, mode, t, p, n) == Blocks(TransformOf(c, mode), t, p[..16 * n], 0)
  {}

  lemma TweakNext(t: Block, j: nat)
    ensures Tweak(t, j + 1) == Alpha(Tweak(t, j))
  {}

  lemma WholeStart(c: Cipher, mode: Mode, t: Block, p: seq<byte>)
    requires |p| >= 16
    ensures Whole(c, mode, t, p, 0) == [] && Tweak(t, 0) == t
  {}

  /** The tweak buffers after n whole blocks. */
  predicate Tweaks(mode: Mode, length: nat, t: Block, n: nat, tweak: Block, prevTweak: Block) {
    if n > 0 && TweakNumber(mode, length, n - 1) == n then tweak == Tweak(t, n + 1) && prevTweak == Tweak(t, n - 1)
    else tweak == Tweak(t, n)
  }

  /** One turn of the loop over whole blocks. */
  method Turn(f: Transform, mode: Mode, length: nat, ghost t: Block, n: nat, tweak: array<byte>, prevTweak: array<byte>,
              tmp: array<byte>, input: array<byte>, output: array<byte>)
    requires tweak.Length == prevTweak.Length == tmp.Length == 16
    requires tweak != prevTweak && tmp != tweak && tmp != prevTweak
    requires input != tweak && input != prevTweak && input != tmp
    requires output != tweak && output != prevTweak && output != tmp
    requires n < length / 16 && length <= input.Length && length <= output.Length
    requires Tweaks(mode, length, t, n, tweak[..], prevTweak[..])
    modifies tweak, prevTweak, tmp, output
    ensures Tweaks(mode, length, t, n + 1, tweak[..], prevTweak[..])
    ensures output[..] == Splice(old(output[..]), 16 * n,
                                 XtsBlock(f, Tweak(t, TweakNumber(mode, length, n)), old(input[16 * n..16 * n + 16])))
  {
    hide XtsBlock, Tweak, Splice, Alpha;
    var leftover, blocks := length % 16, length / 16 - 1 - n;
    if leftover != 0 && mode == DecryptMode && blocks == 0 {
      SpliceWhole(prevTweak[..], tweak[..]);
      PutBlock(tweak[..], prevTweak, 0);
      TweakNext(t, n);
      Gf128MulX(tweak, tweak);
    }
    CryptBlock(f, tweak, tmp, input, output, 16 * n);
    TweakNext(t, TweakNumber(mode, length, n));
    Gf128MulX(tweak, tweak);
  }

  /** A copy of the unread input survives a block written to the output before it. */
  lemma StillUnread(inBefore: seq<byte>, inAfter: seq<byte>, p: seq<byte>, k: nat)
    requires k + 16 <= |p| <= |inBefore| == |inAfter| && inBefore[k..|p|] == p[k..]
    requires inAfter[k + 16..] == inBefore[k + 16..]
    ensures inAfter[k + 16..|p|] == p[k + 16..]
  {
    Window(inBefore, p, k, |p|);
    assert inAfter[k + 16..|p|] == inAfter[k + 16..][..|p| - k - 16];
    assert inBefore[k + 16..|p|] == inBefore[k + 16..][..|p| - k - 16];
  }

  /** The output after one more whole block. */
  lemma WholeStep(c: Cipher, mode: Mode, t: Block, p: seq<byte>, n: nat, before: seq<byte>, after: seq<byte>)
    requires 16 * n + 16 <= |p| <= |before| && before[..16 * n] == Whole(c, mode, t, p, n)
    requires var y := XtsBlock(TransformOf(c, mode), Tweak(t, TweakNumber(mode, |p|, n)), p[16 * n..16 * n + 16]);
             after == Splice(before, 16 * n, y)
    ensures after[..16 * (n + 1)] == Whole(c, mode, t, p, n + 1)
    ensures after[16 * (n + 1)..] == before[16 * n + 16..] == before[16 * n..][16..]
  {
    hide XtsBlock, Tweak, Whole, TransformOf, Splice;
    var y := XtsBlock(TransformOf(c, mode), Tweak(t, TweakNumber(mode, |p|, n)), p[16 * n..16 * n + 16]);
    WholeNext(c, mode, t, p, n);
    SpliceParts(before, 16 * n, y);
  }

  /** mbedtls_aes_crypt_xts. tweakEnc is encryption under the tweak key. */
  method CryptXts(c: Cipher, tweakEnc: Transform, mode: Mode, length: nat, dataUnit: array<byte>,
                  input: array<byte>, output: array<byte>) returns (ret: Status)
    requires dataUnit.Length == 16 && length <= input.Length && length <= output.Length
    modifies output
    ensures ret == if length < 16 || length > 0x10_0000 * 16 then InvalidInputLength else Success
    ensures ret.InvalidInputLength? ==> output[..] == old(output[..])
    ensures ret.Success? ==>
              output[..] == Crypt(c, mode, input == output, tweakEnc(old(dataUnit[..])), old(input[..length]))
                            + old(output[length..])
  {
    hide XtsBlock, Tweak, Blocks, Whole, Crypt, Splice, Alpha, Tweaks, TransformOf;
    if length < 16 {
      return InvalidInputLength;
    }
    if length > 0x10_0000 * 16 {
      return InvalidInputLength;
    }
    ret := Success;
    var leftover, blocks := length % 16, length / 16;
    var tweak, prevTweak, tmp := new byte[16], new byte[16], new byte[16];
    var t0 := tweakEnc(dataUnit[..]);
    SpliceWhole(tweak[..], t0);
    PutBlock(t0, tweak, 0);
    ghost var p := input[..length];
    WholeStart(c, mode, t0, p);
    TweaksStart(mode, length, t0, prevTweak[..]);
    var f := TransformOf(c, mode);
    for n := 0 to blocks
      invariant output[..16 * n] == Whole(c, mode, t0, p, n)
      invariant output[16 * n..] == old(output[16 * n..])
      invariant input[16 * n..length] == p[16 * n..]
      invariant Tweaks(mode, length, t0, n, tweak[..], prevTweak[..])
    {
      ghost var before, inBefore := output[..], input[..];
      Window(inBefore, p, 16 * n, length);
      Turn(f, mode, length, t0, n, tweak, prevTweak, tmp, input, output);
      WholeStep(c, mode, t0, p, n, before, output[..]);
      StillUnread(inBefore, input[..], p, 16 * n);
    }
    if leftover != 0 {
      StealLast(c, mode, t0, length, p, tweak, prevTweak, tmp, input, output);
    } else {
      WholeAll(c, mode, input == output, t0, p);
      assert output[..] == output[..length] + output[length..];
    }
  }

  lemma TweaksStart(mode: Mode, length: nat, t: Block, prevTweak: Block)
    ensures Tweaks(mode, length, t, 0, t, prevTweak)
  {}

  lemma LastWritten(s: seq<byte>, k: nat)
    requires 16 <= k <= |s|
    ensures s[..k][k - 16..] == s[k - 16..k] && s[..k][..k - 16] == s[..k - 16]
  {}

  /** The tweak that the leftover bytes use. */
  lemma LastTweak(mode: Mode, length: nat, t: Block, tweak: Block, prevTweak: Block)
    requires length >= 16 && length % 16 != 0 && Tweaks(mode, length, t, length / 16, tweak, prevTweak)
    ensures var n := length / 16;
            if mode == EncryptMode then tweak == Tweak(t, n) else prevTweak == Tweak(t, n - 1)
  {
    hide Tweak;
  }

  method StealLast(c: Cipher, mode: Mode, ghost t0: Block, length: nat, ghost p: seq<byte>, tweak: array<byte>,
                   prevTweak: array<byte>, tmp: array<byte>, input: array<byte>, output: array<byte>)
    requires tweak.Length == prevTweak.Length == tmp.Length == 16
    requires tweak != prevTweak && tmp != tweak && tmp != prevTweak
    requires input != tweak && input != prevTweak && input != tmp
    requires output != tweak && output != prevTweak && output != tmp
    requires 16 <= length == |p| && length % 16 != 0 && length <= input.Length && length <= output.Length
    requires Tweaks(mode, length, t0, length / 16, tweak[..], prevTweak[..])
    requires output[..16 * (length / 16)] == Whole(c, mode, t0, p, length / 16)
    requires input[16 * (length / 16)..length] == p[16 * (length / 16)..]
    modifies tmp, output
    ensures output[..] == Crypt(c, mode, input == output, t0, p) + old(output[length..])
  {
    hide XtsBlock, Tweak, Tweaks, Blocks, Whole, Crypt, Splice, Alpha, TransformOf;
    LastTweak(mode, length, t0, tweak[..], prevTweak[..]);
    var leftover, k := length % 16, 16 * (length / 16);
    ghost var w, prev := output[..k], output[k - 16..k];
    ghost var tail := if input == output then prev[..leftover] else input[k..length];
    LastWritten(output[..], k);
    WholeStolen(c, mode, input == output, t0, p, w, prev, tail);
    var t := if mode == DecryptMode then prevTweak else tweak;
    Steal(TransformOf(c, mode), t, tmp, input, output, k, leftover);
  }
}
