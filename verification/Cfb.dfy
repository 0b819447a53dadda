/** Cipher feedback with full-block and with one-byte segments, mbedtls_aes_crypt_cfb128 and
    mbedtls_aes_crypt_cfb8; section 6.3 of NIST SP 800-38A. */
module Cfb {
  import opened Bytes
  import opened BlockCipher
  import opened ByteStream

  type Offset = n: nat | n < 16

  /** The feedback block and the position of the next byte in it. */
  datatype Feedback = Feedback(iv: Block, n: Offset)

  function Put(b: Block, i: Offset, x: byte): Block { b[i := x] }

  function Next(n: Offset): Offset { (n + 1) % 16 }

  /** The key stream block in use: a fresh one at the start of every segment. */
  function Fresh(c: Cipher, s: Feedback): Block {
    if s.n == 0 then c.enc(s.iv) else s.iv
  }

  function EncStep(c: Cipher): Step<Feedback> {
    (s: Feedback, x: byte) =>
      var k := Fresh(c, s);
      var y := Xor(k[s.n], x);
      (Feedback(Put(k, s.n, y), Next(s.n)), y)
  }

  function DecStep(c: Cipher): Step<Feedback> {
    (s: Feedback, x: byte) =>
      var k := Fresh(c, s);
      (Feedback(Put(k, s.n, x), Next(s.n)), Xor(x, k[s.n]))
  }

  lemma Cfb128StepUndoes(c: Cipher)
    ensures StepUndoes(DecStep(c), EncStep(c))
  {
    hide Xor;
    forall s: Feedback, x: byte
      ensures DecStep(c)(s, EncStep(c)(s, x).1) == (EncStep(c)(s, x).0, x)
    {
      var k := Fresh(c, s)[s.n];
      XorComm(Xor(k, x), k);
      XorCancel(k, x);
    }
  }

  /** From the same vector and offset, decryption gives back every input of every length and both
      directions leave the same vector and offset. */
  lemma Cfb128RoundTrip(c: Cipher, s: Feedback, p: seq<byte>)
    ensures Run(DecStep(c), s, Run(EncStep(c), s, p).out) == Result(Run(EncStep(c), s, p).state, p)
  {
    Cfb128StepUndoes(c);
    RunUndoes(DecStep(c), EncStep(c), s, p);
  }

  lemma {:induction false} SegmentPrefix(c: Cipher, iv: Block, p: seq<byte>)
    requires |p| <= 16
    ensures var r := Run(EncStep(c), Feedback(iv, 0), p);
            && r.out == XorSeq(c.enc(iv)[..|p|], p)
            && r.state.n == |p| % 16
            && r.state.iv == if p == [] then iv else r.out + c.enc(iv)[|p|..]
  {
    hide Xor, XorSeq, EncStep, Fresh;
    if p == [] {
      assert XorSeq(c.enc(iv)[..0], p) == [];
    } else {
      var e, k := c.enc(iv), |p| - 1;
      SegmentPrefix(c, iv, p[..k]);
      var before := Run(EncStep(c), Feedback(iv, 0), p[..k]);
      FreshInSegment(c, iv, before.state, before.out);
      EncStepAt(c, before.state, p[k]);
      var y := Xor(e[k], p[k]);
      PutNext(before.out, e, k, y);
      XorSeqNext(e, p, k);
    }
  }

  lemma EncStepAt(c: Cipher, s: Feedback, x: byte)
    ensures var y := Xor(Fresh(c, s)[s.n], x);
            EncStep(c)(s, x) == (Feedback(Put(Fresh(c, s), s.n, y), Next(s.n)), y)
  {}

  lemma FreshInSegment(c: Cipher, iv: Block, s: Feedback, out: seq<byte>)
    requires |out| < 16 && s.n == |out|
    requires s.iv == if out == [] then iv else out + c.enc(iv)[|out|..]
    ensures Fresh(c, s) == out + c.enc(iv)[|out|..]
  {}

  lemma PutNext(out: seq<byte>, e: Block, k: nat, y: byte)
    requires |out| == k < 16
    ensures (out + e[k..])[k] == e[k]
    ensures Put(out + e[k..], k, y) == out + [y] + e[k + 1..]
  {}

  lemma XorSeqNext(e: seq<byte>, p: seq<byte>, k: nat)
    requires k + 1 == |p| <= |e|
    ensures XorSeq(e[..k + 1], p) == XorSeq(e[..k], p[..k]) + [Xor(e[k], p[k])]
  {
    hide Xor;
  }

  /** Over a whole segment that starts at offset 0: C = P ^ E(previous ciphertext block). */
  lemma Cfb128Block(c: Cipher, iv: Block, p: Block)
    ensures Run(EncStep(c), Feedback(iv, 0), p) ==
              Result(Feedback(XorSeq(c.enc(iv), p), 0), XorSeq(c.enc(iv), p))
  {
    SegmentPrefix(c, iv, p);
    assert c.enc(iv)[..16] == c.enc(iv) && c.enc(iv)[16..] == [];
    var r := Run(EncStep(c), Feedback(iv, 0), p);
    assert r.out + [] == r.out;
  }

  datatype Status = Success | BadInputData
  datatype Mode = ENCRYPT | DECRYPT

  function ModeStep(c: Cipher, mode: Mode): Step<Feedback> {
    if mode.ENCRYPT? then EncStep(c) else DecStep(c)
  }

  /** One turn of either loop of crypt_cfb128. */
  method Turn(c: Cipher, mode: Mode, n0: Offset, iv: array<byte>, input: array<byte>, output: array<byte>, k: nat)
    returns (n: Offset)
    requires iv.Length == 16 && iv != input && iv != output
    requires k < input.Length && k < output.Length
    modifies iv, output
    ensures (Feedback(iv[..], n), output[k]) == ModeStep(c, mode)(Feedback(old(iv[..]), n0), old(input[k]))
    ensures output[..] == old(output[..])[k := output[k]]
  {
    hide Xor, Splice;
    n := n0;
    ghost var s := Feedback(iv[..], n);
    if n == 0 {
      var b := c.enc(iv[..]);
      PutBlock(b, iv, 0);
      SpliceWhole(s.iv, b);
    }
    ghost var f := iv[..];
    assert f == Fresh(c, s);
    if mode.DECRYPT? {
      var x := input[k];
      output[k] := Xor(x, iv[n]);
      iv[n] := x;
      assert iv[..] == Put(f, n, x);
    } else {
      var y := Xor(iv[n], input[k]);
      output[k] := y;
      iv[n] := y;
      assert iv[..] == Put(f, n, y);
    }
    n := (n + 1) % 16;
  }

  /** mbedtls_aes_crypt_cfb128; input and output may be the same buffer. */
  method CryptCfb128(c: Cipher, mode: Mode, length: nat, ivOff: nat, iv: array<byte>, input: array<byte>,
                     output: array<byte>)
    returns (ret: Status, ivOff': nat)
    requires iv.Length == 16 && iv != input && iv != output
    requires length <= input.Length && length <= output.Length
    modifies iv, output
    ensures ret == if ivOff > 15 then BadInputData else Success
    ensures ret.BadInputData? ==> ivOff' == ivOff && iv[..] == old(iv[..]) && output[..] == old(output[..])
    ensures ret.Success? ==>
              var r := Run(ModeStep(c, mode), Feedback(old(iv[..]), ivOff), old(input[..length]));
              && output[..] == r.out + old(output[length..])
              && ivOff' == r.state.n && iv[..] == r.state.iv
  {
    hide ModeStep, Run;
    if ivOff > 15 {
      return BadInputData, ivOff;
    }
    var n: Offset := ivOff;
    ghost var p, s0 := input[..length], Feedback(iv[..], n);
    ghost var step := ModeStep(c, mode);
    RunNone(step, s0);
    for k := 0 to length
      invariant Run(step, s0, p[..k]) == Result(Feedback(iv[..], n), output[..k])
      invariant output[k..] == old(output[k..])
      invariant input[k..length] == p[k..]
    {
      ghost var before := output[..];
      NextInput(input[..], p, k);
      RunNext(step, s0, p, k, Feedback(iv[..], n), output[..k]);
      n := Turn(c, mode, n, iv, input, output, k);
      NextOutput(before, k, output[k]);
    }
    assert p[..length] == p;
    assert output[..] == output[..length] + output[length..];
    return Success, n;
  }

  // ---- one-byte segments ----

  /** The shift register: drop the first byte, append the ciphertext byte. */
  function Shift(iv: Block, x: byte): Block { iv[1..] + [x] }

  datatype Register = Register(iv: Block)

  function Enc8Step(c: Cipher): Step<Register> {
    (s: Register, x: byte) =>
      var y := Xor(c.enc(s.iv)[0], x);
      (Register(Shift(s.iv, y)), y)
  }

  function Dec8Step(c: Cipher): Step<Register> {
    (s: Register, x: byte) => (Register(Shift(s.iv, x)), Xor(c.enc(s.iv)[0], x))
  }

  /** The same for one-byte segments. */
  lemma Cfb8RoundTrip(c: Cipher, s: Register, p: seq<byte>)
    ensures Run(Dec8Step(c), s, Run(Enc8Step(c), s, p).out) == Result(Run(Enc8Step(c), s, p).state, p)
  {
    hide Xor;
    forall r: Register, x: byte
      ensures Dec8Step(c)(r, Enc8Step(c)(r, x).1) == (Enc8Step(c)(r, x).0, x)
    {
      XorCancel(c.enc(r.iv)[0], x);
    }
    RunUndoes(Dec8Step(c), Enc8Step(c), s, p);
  }

  lemma ShiftedIn(iv: Block, out: seq<byte>, y: byte)
    ensures Shift((iv + out)[|out|..], y) == (iv + (out + [y]))[|out| + 1..]
  {}

  lemma Enc8At(c: Cipher, s: Register, x: byte)
    ensures var y := Xor(c.enc(s.iv)[0], x); Enc8Step(c)(s, x) == (Register(Shift(s.iv, y)), y)
  {}

  /** The register holds the last 16 bytes of the vector and the ciphertext. */
  lemma {:induction false} RegisterHolds(c: Cipher, iv: Block, p: seq<byte>)
    ensures var r := Run(Enc8Step(c), Register(iv), p); r.state.iv == (iv + r.out)[|p|..]
  {
    hide Xor, Shift, Enc8Step;
    if p == [] {
      assert (iv + [])[0..] == iv;
    } else {
      var k := |p| - 1;
      RegisterHolds(c, iv, p[..k]);
      var before := Run(Enc8Step(c), Register(iv), p[..k]);
      Enc8At(c, before.state, p[k]);
      ShiftedIn(iv, before.out, Xor(c.enc(before.state.iv)[0], p[k]));
    }
  }

  lemma LastSixteen(iv: Block, x: seq<byte>, i: nat)
    requires i <= |x|
    ensures (iv + x[..i])[i..] == (iv + x)[i..i + 16]
  {}

  lemma OutPrefix(c: Cipher, s: Register, p: seq<byte>, i: nat)
    requires i <= |p|
    ensures Run(Enc8Step(c), s, p[..i]).out == Run(Enc8Step(c), s, p).out[..i]
  {
    hide Enc8Step;
    RunAppend(Enc8Step(c), s, p[..i], p[i..]);
    assert p == p[..i] + p[i..];
  }

  /** Ciphertext byte i is plaintext byte i XOR the first byte of E on the 16 bytes before it, of the vector and the
      ciphertext. */
  lemma Cfb8Byte(c: Cipher, iv: Block, p: seq<byte>, i: nat)
    requires i < |p|
    ensures var x := Run(Enc8Step(c), Register(iv), p).out;
            x[i] == Xor(c.enc((iv + x)[i..i + 16])[0], p[i])
  {
    hide Xor, Shift, Enc8Step, Run;
    var x := Run(Enc8Step(c), Register(iv), p).out;
    var s := Run(Enc8Step(c), Register(iv), p[..i]).state;
    RunAt(Enc8Step(c), Register(iv), p, i);
    RegisterHolds(c, iv, p[..i]);
    OutPrefix(c, Register(iv), p, i);
    Enc8At(c, s, p[i]);
    LastSixteen(iv, x, i);
  }

  function Mode8Step(c: Cipher, mode: Mode): Step<Register> {
    if mode.ENCRYPT? then Enc8Step(c) else Dec8Step(c)
  }

  /** One turn of the loop of crypt_cfb8 with its 17-byte scratch buffer. */
  method Turn8(c: Cipher, mode: Mode, ov: array<byte>, iv: array<byte>, input: array<byte>, output: array<byte>, k: nat)
    requires ov.Length == 17 && ov != iv && ov != input && ov != output
    requires iv.Length == 16 && iv != input && iv != output
    requires k < input.Length && k < output.Length
    modifies ov, iv, output
    ensures (Register(iv[..]), output[k]) == Mode8Step(c, mode)(Register(old(iv[..])), old(input[k]))
    ensures output[..] == old(output[..])[k := output[k]]
  {
    hide Xor, Splice;
    ghost var s := iv[..];
    CopyBlock(iv, 0, ov);
    var b := c.enc(iv[..]);
    PutBlock(b, iv, 0);
    SpliceWhole(s, b);
    if mode.DECRYPT? {
      ov[16] := input[k];
    }
    var x := Xor(iv[0], input[k]);
    output[k] := x;
    if mode.ENCRYPT? {
      ov[16] := x;
    }
    assert ov[1..17] == Shift(s, ov[16]) by {
      assert ov[..16] == s;
      assert ov[1..16] == ov[..16][1..];
    }
    PutBlock(ov[1..17], iv, 0);
    SpliceWhole(b, ov[1..17]);
  }

  /** mbedtls_aes_crypt_cfb8; input and output may be the same buffer. */
  method CryptCfb8(c: Cipher, mode: Mode, length: nat, iv: array<byte>, input: array<byte>, output: array<byte>)
    requires iv.Length == 16 && iv != input && iv != output
    requires length <= input.Length && length <= output.Length
    modifies iv, output
    ensures var r := Run(Mode8Step(c, mode), Register(old(iv[..])), old(input[..length]));
            output[..] == r.out + old(output[length..]) && iv[..] == r.state.iv
  {
    hide Mode8Step, Run;
    var ov := new byte[17];
    ghost var p, s0 := input[..length], Register(iv[..]);
    ghost var step := Mode8Step(c, mode);
    RunNone(step, s0);
    for k := 0 to length
      invariant Run(step, s0, p[..k]) == Result(Register(iv[..]), output[..k])
      invariant output[k..] == old(output[k..])
      invariant input[k..length] == p[k..]
    {
      ghost var before := output[..];
      NextInput(input[..], p, k);
      RunNext(step, s0, p, k, Register(iv[..]), output[..k]);
      Turn8(c, mode, ov, iv, input, output, k);
      NextOutput(before, k, output[k]);
    }
    assert p[..length] == p;
    assert output[..] == output[..length] + output[length..];
  }

  /** memcpy of 16 bytes to the front of a larger buffer. */
  method CopyBlock(src: array<byte>, k: nat, dst: array<byte>)
    requires k + 16 <= src.Length && dst.Length >= 16 && src != dst
    modifies dst
    ensures dst[..16] == src[k..k + 16] && dst[16..] == old(dst[16..])
  {
    for i := 0 to 16
      invariant dst[..i] == src[k..k + i]
      invariant dst[16..] == old(dst[16..])
    {
      dst[i] := src[k + i];
    }
  }
}
