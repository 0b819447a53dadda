/** Cipher block chaining, mbedtls_aes_crypt_cbc; section 6.2 of NIST SP 800-38A. */
module Cbc {
  import opened Bytes
  import opened BlockCipher
  import opened ByteStream

  /** C_1 = E(P_1 ^ IV), C_j = E(P_j ^ C_{j-1}). */
  function Encrypt(c: Cipher, iv: Block, p: seq<byte>): (r: seq<byte>)
    requires |p| % 16 == 0
    ensures |r| == |p|
    decreases |p|
  {
    if p == [] then []
    else
      var y := c.enc(XorSeq(p[..16], iv));
      y + Encrypt(c, y, p[16..])
  }

  /** P_1 = D(C_1) ^ IV, P_j = D(C_j) ^ C_{j-1}. */
  function Decrypt(c: Cipher, iv: Block, x: seq<byte>): (r: seq<byte>)
    requires |x| % 16 == 0
    ensures |r| == |x|
    decreases |x|
  {
    if x == [] then []
    else XorSeq(c.dec(x[..16]), iv) + Decrypt(c, x[..16], x[16..])
  }

  /** The initialisation vector both directions leave behind: the last ciphertext block. */
  function NextIv(iv: Block, ciphertext: seq<byte>): Block
    requires |ciphertext| % 16 == 0
  {
    if ciphertext == [] then iv else ciphertext[|ciphertext| - 16..]
  }

  /** Block j of the ciphertext is block j of the plaintext, XORed with the ciphertext before it and encrypted. */
  lemma {:induction false} EncryptedBlock(c: Cipher, iv: Block, p: seq<byte>, j: nat)
    requires |p| % 16 == 0 && 16 * j < |p|
    ensures var x := Encrypt(c, iv, p);
            x[16 * j..16 * j + 16] ==
              c.enc(XorSeq(p[16 * j..16 * j + 16], if j == 0 then iv else x[16 * j - 16..16 * j]))
    decreases j
  {
    hide XorSeq;
    var y := c.enc(XorSeq(p[..16], iv));
    var rest := Encrypt(c, y, p[16..]);
    if j > 0 {
      EncryptedBlock(c, y, p[16..], j - 1);
      SkipBlock(y, rest, 16 * j - 16);
      SkipInput(p, 16 * j - 16);
      if j > 1 {
        SkipBlock(y, rest, 16 * j - 32);
      }
    }
  }

  lemma DecryptFirst(c: Cipher, iv: Block, x: seq<byte>)
    requires |x| % 16 == 0 && x != []
    ensures Decrypt(c, iv, x) == XorSeq(c.dec(x[..16]), iv) + Decrypt(c, x[..16], x[16..])
  {
    hide XorSeq;
  }

  /** Block j of the plaintext is block j of the ciphertext decrypted, XORed with the ciphertext before it. */
  lemma {:induction false} DecryptedBlock(c: Cipher, iv: Block, x: seq<byte>, j: nat)
    requires |x| % 16 == 0 && 16 * j < |x|
    ensures Decrypt(c, iv, x)[16 * j..16 * j + 16]
         == XorSeq(c.dec(x[16 * j..16 * j + 16]), if j == 0 then iv else x[16 * j - 16..16 * j])
    decreases j
  {
    hide XorSeq, Decrypt;
    DecryptFirst(c, iv, x);
    if j > 0 {
      DecryptedBlock(c, x[..16], x[16..], j - 1);
      SkipBlock(XorSeq(c.dec(x[..16]), iv), Decrypt(c, x[..16], x[16..]), 16 * j - 16);
      SkipInput(x, 16 * j - 16);
      if j > 1 {
        SkipInput(x, 16 * j - 32);
      }
    }
  }

  lemma {:induction false} RoundTrip(c: Cipher, iv: Block, p: seq<byte>)
    requires Invertible(c) && |p| % 16 == 0
    ensures Decrypt(c, iv, Encrypt(c, iv, p)) == p
    decreases |p|
  {
    if p != [] {
      var y := c.enc(XorSeq(p[..16], iv));
      var x := Encrypt(c, iv, p);
      assert x[..16] == y && x[16..] == Encrypt(c, y, p[16..]);
      assert c.dec(y) == XorSeq(p[..16], iv);
      XorSeqTwice(p[..16], iv);
      RoundTrip(c, y, p[16..]);
      assert p == p[..16] + p[16..];
    }
  }

  /** Two calls that carry the vector encrypt as one. */
  lemma {:induction false} EncryptAppend(c: Cipher, iv: Block, p: seq<byte>, q: seq<byte>)
    requires |p| % 16 == 0 && |q| % 16 == 0
    ensures (|p| + |q|) % 16 == 0
    ensures Encrypt(c, iv, p + q) == Encrypt(c, iv, p) + Encrypt(c, NextIv(iv, Encrypt(c, iv, p)), q)
    ensures NextIv(NextIv(iv, Encrypt(c, iv, p)), Encrypt(c, NextIv(iv, Encrypt(c, iv, p)), q))
         == NextIv(iv, Encrypt(c, iv, p + q))
    decreases |p|
  {
    hide XorSeq;
    if p == [] {
      assert p + q == q;
    } else {
      var y := c.enc(XorSeq(p[..16], iv));
      var rest := Encrypt(c, y, p[16..]);
      EncryptAppend(c, y, p[16..], q);
      AppendParts(p, q);
      NextIvAppend(iv, y, rest);
      var v := NextIv(y, rest);
      var tail := Encrypt(c, v, q);
      assert y + (rest + tail) == (y + rest) + tail;
      NextIvAppend(iv, y, rest + tail);
    }
  }

  lemma AppendParts(p: seq<byte>, q: seq<byte>)
    requires |p| >= 16
    ensures (p + q)[..16] == p[..16] && (p + q)[16..] == p[16..] + q
  {}

  lemma NextIvAppend(iv: Block, y: Block, rest: seq<byte>)
    requires |rest| % 16 == 0
    ensures NextIv(iv, y + rest) == NextIv(y, rest)
  {
    if rest == [] {
      assert (y + rest)[|y + rest| - 16..] == y;
    } else {
      assert (y + rest)[|y + rest| - 16..] == rest[|rest| - 16..];
    }
  }

  lemma {:induction false} DecryptAppend(c: Cipher, iv: Block, x: seq<byte>, y: seq<byte>)
    requires |x| % 16 == 0 && |y| % 16 == 0
    ensures (|x| + |y|) % 16 == 0
    ensures Decrypt(c, iv, x + y) == Decrypt(c, iv, x) + Decrypt(c, NextIv(iv, x), y)
    decreases |x|
  {
    hide XorSeq, NextIv;
    if x == [] {
      NoBlocks(c, iv);
      assert x + y == y;
      assert [] + Decrypt(c, iv, y) == Decrypt(c, iv, y);
    } else {
      var b, rest := x[..16], x[16..];
      DecryptAppend(c, b, rest, y);
      AppendParts(x, y);
      NextIvAppend(iv, b, rest);
      assert x == b + rest;
      var first, u, v := XorSeq(c.dec(b), iv), Decrypt(c, b, rest), Decrypt(c, NextIv(b, rest), y);
      assert first + (u + v) == (first + u) + v;
    }
  }

  // ---- any sequence of calls ----

  predicate WholeBlocks(chunks: seq<seq<byte>>) { forall i :: 0 <= i < |chunks| ==> |chunks[i]| % 16 == 0 }

  /** Output and vector after a sequence of encrypting calls. */
  function EncryptCalls(c: Cipher, iv: Block, chunks: seq<seq<byte>>): (seq<byte>, Block)
    requires WholeBlocks(chunks)
  {
    if chunks == [] then ([], iv)
    else
      var (out, v) := EncryptCalls(c, iv, chunks[..|chunks| - 1]);
      var y := Encrypt(c, v, chunks[|chunks| - 1]);
      (out + y, NextIv(v, y))
  }

  /** Output and vector after a sequence of decrypting calls. */
  function DecryptCalls(c: Cipher, iv: Block, chunks: seq<seq<byte>>): (seq<byte>, Block)
    requires WholeBlocks(chunks)
  {
    if chunks == [] then ([], iv)
    else
      var (out, v) := DecryptCalls(c, iv, chunks[..|chunks| - 1]);
      (out + Decrypt(c, v, chunks[|chunks| - 1]), NextIv(v, chunks[|chunks| - 1]))
  }

  lemma {:induction false} FlattenWhole(chunks: seq<seq<byte>>)
    requires WholeBlocks(chunks)
    ensures |Flatten(chunks)| % 16 == 0
  {
    if chunks != [] {
      FlattenWhole(chunks[..|chunks| - 1]);
    }
  }

  /** However the data is split over calls, the output and the final vector are those of one call. */
  lemma {:induction false} EncryptCallsAreOne(c: Cipher, iv: Block, chunks: seq<seq<byte>>)
    requires WholeBlocks(chunks)
    ensures |Flatten(chunks)| % 16 == 0
    ensures var out := Encrypt(c, iv, Flatten(chunks)); EncryptCalls(c, iv, chunks) == (out, NextIv(iv, out))
  {
    hide Encrypt, NextIv;
    FlattenWhole(chunks);
    if chunks == [] {
      NoBlocks(c, iv);
    } else {
      var init, last := chunks[..|chunks| - 1], chunks[|chunks| - 1];
      FlattenWhole(init);
      EncryptCallsAreOne(c, iv, init);
      EncryptAppend(c, iv, Flatten(init), last);
    }
  }

  lemma {:induction false} DecryptCallsAreOne(c: Cipher, iv: Block, chunks: seq<seq<byte>>)
    requires WholeBlocks(chunks)
    ensures |Flatten(chunks)| % 16 == 0
    ensures DecryptCalls(c, iv, chunks) == (Decrypt(c, iv, Flatten(chunks)), NextIv(iv, Flatten(chunks)))
  {
    hide Decrypt, NextIv;
    FlattenWhole(chunks);
    if chunks == [] {
      NoBlocks(c, iv);
    } else {
      var init, last := chunks[..|chunks| - 1], chunks[|chunks| - 1];
      FlattenWhole(init);
      DecryptCallsAreOne(c, iv, init);
      DecryptAppend(c, iv, Flatten(init), last);
      NextIvJoined(iv, Flatten(init), last);
    }
  }

  lemma NextIvJoined(iv: Block, x: seq<byte>, y: seq<byte>)
    requires |x| % 16 == 0 && |y| % 16 == 0
    ensures (|x| + |y|) % 16 == 0 && NextIv(iv, x + y) == NextIv(NextIv(iv, x), y)
  {
    if y == [] {
      assert x + y == x;
    } else {
      assert (x + y)[|x + y| - 16..] == y[|y| - 16..];
    }
  }

  lemma NoBlocks(c: Cipher, iv: Block)
    ensures Encrypt(c, iv, []) == [] && Decrypt(c, iv, []) == [] && NextIv(iv, []) == iv
  {}

  lemma SingleBlock(c: Cipher, iv: Block, b: Block)
    ensures Encrypt(c, iv, b) == c.enc(XorSeq(b, iv))
    ensures Decrypt(c, iv, b) == XorSeq(c.dec(b), iv)
    ensures NextIv(iv, b) == b
  {
    assert b[..16] == b && b[16..] == [];
    assert b[|b| - 16..] == b;
    assert Encrypt(c, iv, b) == c.enc(XorSeq(b, iv)) + [];
    assert Decrypt(c, iv, b) == XorSeq(c.dec(b), iv) + [];
  }

  /** The vector after one more ciphertext block. */
  lemma NextIvBlock(iv: Block, x: seq<byte>, b: Block)
    requires |x| % 16 == 0
    ensures NextIv(iv, x + b) == b
  {
    assert (x + b)[|x + b| - 16..] == b;
  }

  datatype Status = Success | InvalidInputLength

  /** One turn of the encryption loop. */
  method EncryptBlock(c: Cipher, iv: array<byte>, input: array<byte>, output: array<byte>, k: nat)
    requires iv.Length == 16 && iv != input && iv != output
    requires k + 16 <= input.Length && k + 16 <= output.Length
    modifies iv, output
    ensures iv[..] == c.enc(XorSeq(old(input[k..k + 16]), old(iv[..])))
    ensures output[..] == Splice(old(output[..]), k, iv[..])
  {
    hide XorSeq, Splice;
    ghost var out0, x := output[..], XorSeq(input[k..k + 16], iv[..]);
    XorBlock(input, output, k, iv);
    SpliceParts(out0, k, x);
    assert output[k..k + 16] == output[..][k..k + 16];
    var y := c.enc(output[k..k + 16]);
    PutBlock(y, output, k);
    SpliceTwice(out0, k, x, y);
    SpliceWhole(iv[..], y);
    PutBlock(y, iv, 0);
  }

  /** One turn of the decryption loop. */
  method DecryptBlock(c: Cipher, iv: array<byte>, input: array<byte>, output: array<byte>, k: nat)
    requires iv.Length == 16 && iv != input && iv != output
    requires k + 16 <= input.Length && k + 16 <= output.Length
    modifies iv, output
    ensures iv[..] == old(input[k..k + 16])
    ensures output[..] == Splice(old(output[..]), k, XorSeq(c.dec(old(input[k..k + 16])), old(iv[..])))
  {
    hide XorSeq, Splice;
    var temp := input[k..k + 16];
    ghost var out0, d := output[..], c.dec(temp);
    PutBlock(c.dec(temp), output, k);
    SpliceParts(out0, k, d);
    assert output[k..k + 16] == output[..][k..k + 16];
    SpliceTwice(out0, k, d, XorSeq(d, iv[..]));
    XorBlock(output, output, k, iv);
    SpliceWhole(iv[..], temp);
    PutBlock(temp, iv, 0);
  }

  /** Encryption; input and output may be the same buffer. The rest of the output is untouched. */
  method CryptEncrypt(c: Cipher, length: nat, iv: array<byte>, input: array<byte>, output: array<byte>)
    returns (ret: Status)
    requires iv.Length == 16 && iv != input && iv != output
    requires length <= input.Length && length <= output.Length
    modifies iv, output
    ensures ret == (if length % 16 != 0 then InvalidInputLength else Success)
    ensures ret.InvalidInputLength? ==> iv[..] == old(iv[..]) && output[..] == old(output[..])
    ensures ret.Success? ==> output[..] == Encrypt(c, old(iv[..]), old(input[..length])) + old(output[length..])
    ensures ret.Success? ==> iv[..] == NextIv(old(iv[..]), output[..length])
  {
    hide XorSeq, Splice, Encrypt, Decrypt, NextIv;
    if length % 16 != 0 {
      return InvalidInputLength;
    }
    ret := Success;
    NoBlocks(c, iv[..]);
    var k := 0;
    ghost var p, iv0 := input[..length], iv[..];
    while k < length
      invariant k <= length && k % 16 == 0
      invariant output[..k] == Encrypt(c, iv0, p[..k])
      invariant output[k..] == old(output[k..])
      invariant input[k..length] == p[k..]
      invariant iv[..] == NextIv(iv0, output[..k])
    {
      ghost var before, v, b := output[..], iv[..], p[k..k + 16];
      assert input[k..k + 16] == b by { Window(input[..], p, k, length); }
      EncryptBlock(c, iv, input, output, k);
      SpliceParts(before, k, iv[..]);
      EncryptAppend(c, iv0, p[..k], b);
      SingleBlock(c, v, b);
      NextIvBlock(iv0, before[..k], iv[..]);
      assert p[..k + 16] == p[..k] + b;
      assert output[k + 16..] == old(output[k + 16..]) by {
        assert before[k + 16..] == before[k..][16..];
      }
      k := k + 16;
    }
    assert p[..k] == p;
    assert output[..] == output[..length] + output[length..];
  }

  /** Decryption; input and output may be the same buffer. */
  method CryptDecrypt(c: Cipher, length: nat, iv: array<byte>, input: array<byte>, output: array<byte>)
    returns (ret: Status)
    requires iv.Length == 16 && iv != input && iv != output
    requires length <= input.Length && length <= output.Length
    modifies iv, output
    ensures ret == (if length % 16 != 0 then InvalidInputLength else Success)
    ensures ret.InvalidInputLength? ==> iv[..] == old(iv[..]) && output[..] == old(output[..])
    ensures ret.Success? ==> output[..] == Decrypt(c, old(iv[..]), old(input[..length])) + old(output[length..])
    ensures ret.Success? ==> iv[..] == NextIv(old(iv[..]), old(input[..length]))
  {
    hide XorSeq, Splice, Encrypt, Decrypt, NextIv;
    if length % 16 != 0 {
      return InvalidInputLength;
    }
    ret := Success;
    NoBlocks(c, iv[..]);
    var k := 0;
    ghost var x, iv0 := input[..length], iv[..];
    while k < length
      invariant k <= length && k % 16 == 0
      invariant output[..k] == Decrypt(c, iv0, x[..k])
      invariant output[k..] == old(output[k..])
      invariant input[k..length] == x[k..]
      invariant iv[..] == NextIv(iv0, x[..k])
    {
      ghost var before, v, b := output[..], iv[..], x[k..k + 16];
      assert input[k..k + 16] == b by { Window(input[..], x, k, length); }
      DecryptBlock(c, iv, input, output, k);
      SpliceParts(before, k, XorSeq(c.dec(b), v));
      DecryptAppend(c, iv0, x[..k], b);
      SingleBlock(c, v, b);
      NextIvBlock(iv0, x[..k], b);
      assert x[..k + 16] == x[..k] + b;
      assert output[k + 16..] == old(output[k + 16..]) by {
        assert before[k + 16..] == before[k..][16..];
      }
      k := k + 16;
    }
    assert x[..k] == x;
    assert output[..] == output[..length] + output[length..];
  }
}
