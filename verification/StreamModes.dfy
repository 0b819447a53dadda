/** Output feedback and counter mode, mbedtls_aes_crypt_ofb and mbedtls_aes_crypt_ctr; sections 6.4
    and 6.5 of NIST SP 800-38A. */
module StreamModes {
  import opened Arith
  import opened Bytes
  import opened BlockCipher
  import opened ByteStream
  import opened Cfb

  // ---- output feedback ----

  function OfbStep(c: Cipher): Step<Feedback> {
    (s: Feedback, x: byte) => (Feedback(Fresh(c, s), Next(s.n)), Xor(x, Fresh(c, s)[s.n]))
  }

  /** E applied j times. */
  function Iterate(c: Cipher, iv: Block, j: nat): Block {
    if j == 0 then iv else c.enc(Iterate(c, iv, j - 1))
  }

  /** The number of blocks n bytes reach into. */
  function Blocks(n: nat): nat { (n + 15) / 16 }

  lemma FreshIterate(c: Cipher, iv: Block, k: nat, s: Feedback)
    requires s == Feedback(Iterate(c, iv, Blocks(k)), k % 16)
    ensures Fresh(c, s) == Iterate(c, iv, k / 16 + 1) && Blocks(k + 1) == k / 16 + 1
  {
    if k % 16 == 0 {
      assert Blocks(k) == k / 16;
    } else {
      assert Blocks(k) == k / 16 + 1;
    }
  }

  lemma {:induction false} OfbState(c: Cipher, iv: Block, p: seq<byte>)
    ensures Run(OfbStep(c), Feedback(iv, 0), p).state == Feedback(Iterate(c, iv, Blocks(|p|)), |p| % 16)
  {
    hide Xor, Iterate, Fresh, Blocks, OfbStep;
    if p == [] {
      NoIterate(c, iv);
    } else {
      var k := |p| - 1;
      OfbState(c, iv, p[..k]);
      var s := Run(OfbStep(c), Feedback(iv, 0), p[..k]).state;
      FreshIterate(c, iv, k, s);
      OfbStepAt(c, s, p[k]);
      NextOf(k);
    }
  }

  lemma NextOf(k: nat)
    ensures Next(k % 16) == (k + 1) % 16
  {}

  lemma OfbStepAt(c: Cipher, s: Feedback, x: byte)
    ensures OfbStep(c)(s, x) == (Feedback(Fresh(c, s), Next(s.n)), Xor(x, Fresh(c, s)[s.n]))
  {}

  /** From offset 0, output byte i is input byte i XOR byte i mod 16 of the (i div 16 + 1)th iterate
      of E on the vector. */
  lemma OfbKeyStream(c: Cipher, iv: Block, p: seq<byte>, i: nat)
    requires i < |p|
    ensures Run(OfbStep(c), Feedback(iv, 0), p).out[i] == Xor(p[i], Iterate(c, iv, i / 16 + 1)[i % 16])
  {
    hide Xor, Iterate, Fresh, Blocks, OfbStep;
    OfbState(c, iv, p[..i]);
    var s := Run(OfbStep(c), Feedback(iv, 0), p[..i]).state;
    FreshIterate(c, iv, i, s);
    OfbStepAt(c, s, p[i]);
    RunAt(OfbStep(c), Feedback(iv, 0), p, i);
  }

  lemma NoIterate(c: Cipher, iv: Block)
    ensures Iterate(c, iv, Blocks(0)) == iv
  {}

  /** A second pass from the same vector and offset restores the input. */
  lemma OfbRoundTrip(c: Cipher, s: Feedback, p: seq<byte>)
    ensures Run(OfbStep(c), s, Run(OfbStep(c), s, p).out) == Result(Run(OfbStep(c), s, p).state, p)
  {
    hide Xor;
    forall r: Feedback, x: byte
      ensures OfbStep(c)(r, OfbStep(c)(r, x).1) == (OfbStep(c)(r, x).0, x)
    {
      XorCancel(Fresh(c, r)[r.n], x);
    }
    RunUndoes(OfbStep(c), OfbStep(c), s, p);
  }

  /** One turn of the OFB loop. */
  method OfbTurn(c: Cipher, n: Offset, iv: array<byte>, x: byte) returns (n': Offset, y: byte)
    requires iv.Length == 16
    modifies iv
    ensures (Feedback(iv[..], n'), y) == OfbStep(c)(Feedback(old(iv[..]), n), x)
  {
    hide Xor, Splice;
    ghost var s := Feedback(iv[..], n);
    OfbStepAt(c, s, x);
    if n == 0 {
      var b := c.enc(iv[..]);
      SpliceWhole(s.iv, b);
      PutBlock(b, iv, 0);
    }
    assert iv[..] == Fresh(c, s);
    y := Xor(x, iv[n]);
    n' := (n + 1) % 16;
  }

  /** mbedtls_aes_crypt_ofb; input and output may be the same buffer. */
  method CryptOfb(c: Cipher, length: nat, ivOff: nat, iv: array<byte>, input: array<byte>, output: array<byte>)
    returns (ret: Status, ivOff': nat)
    requires iv.Length == 16 && iv != input && iv != output
    requires length <= input.Length && length <= output.Length
    modifies iv, output
    ensures ret == if ivOff > 15 then BadInputData else Success
    ensures ret.BadInputData? ==> ivOff' == ivOff && iv[..] == old(iv[..]) && output[..] == old(output[..])
    ensures ret.Success? ==>
              var r := Run(OfbStep(c), Feedback(old(iv[..]), ivOff), old(input[..length]));
              && output[..] == r.out + old(output[length..])
              && ivOff' == r.state.n && iv[..] == r.state.iv
  {
    hide Xor, Splice, Fresh, OfbStep, Next, Run;
    if ivOff > 15 {
      return BadInputData, ivOff;
    }
    var n: Offset := ivOff;
    ghost var p, s0 := input[..length], Feedback(iv[..], n);
    ghost var step := OfbStep(c);
    RunNone(step, s0);
    for k := 0 to length
      invariant Run(step, s0, p[..k]) == Result(Feedback(iv[..], n), output[..k])
      invariant output[k..] == old(output[k..])
      invariant input[k..length] == p[k..]
    {
      ghost var before, s := output[..], Feedback(iv[..], n);
      NextInput(input[..], p, k);
      RunNext(step, s0, p, k, s, output[..k]);
      var y;
      n, y := OfbTurn(c, n, iv, input[k]);
      output[k] := y;
      NextOutput(before, k, output[k]);
    }
    assert p[..length] == p;
    assert output[..] == output[..length] + output[length..];
    return Success, n;
  }

  // ---- counter mode ----

  /** A byte string as a big-endian number. */
  function BeNat(b: seq<byte>): nat {
    if b == [] then 0 else 256 * BeNat(b[..|b| - 1]) + b[|b| - 1] as int
  }

  function Power256(n: nat): (r: nat)
    ensures r > 0
  {
    if n == 0 then 1 else 256 * Power256(n - 1)
  }

  /** 256^16 = 2^128. */
  function TwoTo128(): (r: nat)
    ensures r > 0
  {
    Power256(16)
  }

  /** The remainder modulo 2^128. */
  function Mod128(a: nat): nat { a % TwoTo128() }

  /** The byte-carry loop on the first i bytes: add one to byte i - 1, go on while it became 0. */
  function Carry(b: Block, i: nat): Block
    requires i <= 16
    decreases i
  {
    if i == 0 then b
    else
      var b' := Put(b, i - 1, b[i - 1] + 1);
      if b'[i - 1] != 0 then b' else Carry(b', i - 1)
  }

  function Increment(b: Block): Block { Carry(b, 16) }

  lemma {:induction false} BeNatBound(b: seq<byte>)
    ensures BeNat(b) < Power256(|b|)
  {
    if b != [] {
      BeNatBound(b[..|b| - 1]);
    }
  }

  lemma NextByte(x: byte)
    ensures x + 1 != 0 ==> (x + 1) as int == x as int + 1
    ensures x + 1 == 0 ==> x as int == 255
  {}

  lemma ModScaled(a: nat, m: nat)
    requires m > 0
    ensures 256 * (a % m) == (256 * a) % (256 * m)
  {
    var q, r := a / m, a % m;
    assert 256 * a == 256 * r + (256 * m) * q;
    ModUnique(256 * a, 256 * m, q, 256 * r);
  }

  lemma BeNatLast(b: seq<byte>, i: nat)
    requires 0 < i <= |b|
    ensures BeNat(b[..i]) == 256 * BeNat(b[..i - 1]) + b[i - 1] as int
  {
    assert b[..i][..i - 1] == b[..i - 1];
  }

  lemma {:induction false} CarryAddsOne(b: Block, i: nat)
    requires i <= 16
    ensures Carry(b, i)[i..] == b[i..]
    ensures BeNat(Carry(b, i)[..i]) == (BeNat(b[..i]) + 1) % Power256(i)
    decreases i
  {
    hide BeNat;
    if i == 0 {
      CarryNothing(b);
    } else {
      var x, b' := b[i - 1], Put(b, i - 1, b[i - 1] + 1);
      var r := Carry(b, i);
      NextByte(x);
      BeNatLast(b, i);
      BeNatLast(r, i);
      if x + 1 == 0 {
        CarryAddsOne(b', i - 1);
        assert r == Carry(b', i - 1);
        assert r[i - 1] == r[i - 1..][0] && b'[i - 1] == b'[i - 1..][0];
        assert r[i..] == r[i - 1..][1..] && b'[i - 1..][1..] == b[i..];
        assert b'[..i - 1] == b[..i - 1];
        ModScaled(BeNat(b[..i - 1]) + 1, Power256(i - 1));
      } else {
        assert r == b' && r[..i - 1] == b[..i - 1];
        BeNatBound(r[..i]);
        SmallMod(BeNat(r[..i]), Power256(i));
      }
    }
  }

  lemma CarryNothing(b: Block)
    ensures Carry(b, 0)[0..] == b[0..]
    ensures BeNat(Carry(b, 0)[..0]) == (BeNat(b[..0]) + 1) % Power256(0)
  {}

  /** The counter is incremented as a 128-bit big-endian number. */
  lemma IncrementIsPlusOne(b: Block)
    ensures BeNat(Increment(b)) == Mod128(BeNat(b) + 1)
  {
    hide BeNat, Carry, Power256;
    CarryAddsOne(b, 16);
    assert Carry(b, 16)[..16] == Carry(b, 16) && b[..16] == b;
  }

  /** Byte i changes exactly when all bytes after it, up to byte n, are 0xFF. */
  lemma {:induction false} CarryBytes(b: Block, n: nat, i: nat)
    requires n <= 16 && i < 16
    ensures Carry(b, n)[i] == if i < n && (forall k :: i < k < n ==> b[k] == 0xFF) then b[i] + 1 else b[i]
    decreases n
  {
    if n > 0 {
      var b' := Put(b, n - 1, b[n - 1] + 1);
      NextByte(b[n - 1]);
      CarryBytes(b', n - 1, i);
      assert b'[n - 1] == 0 <==> b[n - 1] == 0xFF;
      assert forall k :: i < k < n - 1 ==> b'[k] == b[k];
    }
  }

  /** The last byte of the counter is the least significant one: byte i is incremented exactly when all bytes after
      it are 0xFF. */
  lemma IncrementBytes(b: Block, i: nat)
    requires i < 16
    ensures Increment(b)[i] == if forall k :: i < k < 16 ==> b[k] == 0xFF then b[i] + 1 else b[i]
  {
    hide Carry;
    CarryBytes(b, 16, i);
  }

  function CounterAt(b: Block, j: nat): Block {
    if j == 0 then b else Increment(CounterAt(b, j - 1))
  }

  lemma {:induction false} CounterValue(b: Block, j: nat)
    ensures BeNat(CounterAt(b, j)) == Mod128(BeNat(b) + j)
  {
    hide BeNat, Increment, Mod128;
    if j == 0 {
      BelowTwoTo128(b);
    } else {
      CounterValue(b, j - 1);
      IncrementIsPlusOne(CounterAt(b, j - 1));
      Mod128PlusOne(BeNat(b) + j - 1);
    }
  }

  lemma Mod128PlusOne(a: nat)
    ensures Mod128(Mod128(a) + 1) == Mod128(a + 1)
  {
    ModPlusOne(a, TwoTo128());
  }

  lemma BelowTwoTo128(b: Block)
    ensures Mod128(BeNat(b)) == BeNat(b)
  {
    BeNatBound(b);
    SmallMod(BeNat(b), TwoTo128());
  }

  lemma ModPlusOne(a: nat, m: nat)
    requires m > 0
    ensures (a % m + 1) % m == (a + 1) % m
  {
    var q, r := a / m, a % m;
    assert a == r + m * q;
    if r + 1 < m {
      ModUnique(a + 1, m, q, r + 1);
      SmallMod(r + 1, m);
    } else {
      MulPlusOne(m, q);
      ModUnique(a + 1, m, q + 1, 0);
      ModUnique(m, m, 1, 0);
    }
  }

  lemma MulPlusOne(m: nat, q: nat)
    ensures m * (q + 1) == m * q + m
  {}

  datatype Counter = Counter(nonce: Block, stream: Block, n: Offset)

  function Refill(c: Cipher, s: Counter): Counter {
    if s.n == 0 then Counter(Increment(s.nonce), c.enc(s.nonce), 0) else s
  }

  function CtrStep(c: Cipher): Step<Counter> {
    (s: Counter, x: byte) =>
      var f := Refill(c, s);
      (f.(n := Next(f.n)), Xor(x, f.stream[f.n]))
  }

  /** The state after k bytes from offset 0. */
  predicate CtrAfter(c: Cipher, s: Counter, k: nat, r: Counter) {
    && r.nonce == CounterAt(s.nonce, Blocks(k)) && r.n == k % 16
    && r.stream == if k == 0 then s.stream else c.enc(CounterAt(s.nonce, (k - 1) / 16))
  }

  lemma RefillAfter(c: Cipher, s: Counter, k: nat, r: Counter)
    requires s.n == 0 && CtrAfter(c, s, k, r)
    ensures Refill(c, r).stream == c.enc(CounterAt(s.nonce, k / 16)) && Refill(c, r).n == k % 16
    ensures Refill(c, r).nonce == CounterAt(s.nonce, Blocks(k + 1))
  {
    hide Increment;
    if k % 16 == 0 {
      assert Blocks(k) == k / 16 && Blocks(k + 1) == k / 16 + 1;
    } else {
      assert Blocks(k) == k / 16 + 1 && Blocks(k + 1) == k / 16 + 1 && (k - 1) / 16 == k / 16;
    }
  }

  lemma {:induction false} CtrState(c: Cipher, s: Counter, p: seq<byte>)
    requires s.n == 0
    ensures CtrAfter(c, s, |p|, Run(CtrStep(c), s, p).state)
  {
    hide Xor, Refill, Blocks, CounterAt, CtrStep;
    if p == [] {
      NoCounter(s.nonce);
    } else {
      var k := |p| - 1;
      CtrState(c, s, p[..k]);
      var r := Run(CtrStep(c), s, p[..k]).state;
      RefillAfter(c, s, k, r);
      CtrStepAt(c, r, p[k]);
      NextOf(k);
    }
  }

  /** From offset 0, output byte i is input byte i XOR byte i mod 16 of E applied to the counter
      block of value counter0 + i div 16 modulo 2^128. */
  lemma CtrKeyStream(c: Cipher, s: Counter, p: seq<byte>, i: nat)
    requires s.n == 0 && i < |p|
    ensures Run(CtrStep(c), s, p).out[i] == Xor(p[i], c.enc(CounterAt(s.nonce, i / 16))[i % 16])
    ensures BeNat(CounterAt(s.nonce, i / 16)) == Mod128(BeNat(s.nonce) + i / 16)
  {
    hide *;
    var q := p[..i];
    CtrState(c, s, q);
    CtrByte(c, s, i, Run(CtrStep(c), s, q).state, p[i]);
    RunAt(CtrStep(c), s, p, i);
    CounterValue(s.nonce, i / 16);
  }

  lemma CtrByte(c: Cipher, s: Counter, i: nat, r: Counter, x: byte)
    requires s.n == 0 && CtrAfter(c, s, i, r)
    ensures CtrStep(c)(r, x).1 == Xor(x, c.enc(CounterAt(s.nonce, i / 16))[i % 16])
  {
    hide Xor, Refill, CounterAt, CtrStep, CtrAfter;
    RefillAfter(c, s, i, r);
    CtrStepAt(c, r, x);
  }

  lemma NoCounter(b: Block)
    ensures CounterAt(b, Blocks(0)) == b
  {}

  lemma CtrRoundTrip(c: Cipher, s: Counter, p: seq<byte>)
    ensures Run(CtrStep(c), s, Run(CtrStep(c), s, p).out) == Result(Run(CtrStep(c), s, p).state, p)
  {
    hide Xor, Increment;
    forall r: Counter, x: byte
      ensures CtrStep(c)(r, CtrStep(c)(r, x).1) == (CtrStep(c)(r, x).0, x)
    {
      var f := Refill(c, r);
      XorCancel(f.stream[f.n], x);
    }
    RunUndoes(CtrStep(c), CtrStep(c), s, p);
  }

  /** The carry loop in place. */
  method AddOne(nonce: array<byte>)
    requires nonce.Length == 16
    modifies nonce
    ensures nonce[..] == Increment(old(nonce[..]))
  {
    var i := 16;
    while i > 0
      invariant 0 <= i <= 16
      invariant Carry(nonce[..], i) == Increment(old(nonce[..]))
    {
      ghost var b := nonce[..];
      nonce[i - 1] := nonce[i - 1] + 1;
      assert nonce[..] == Put(b, i - 1, b[i - 1] + 1);
      if nonce[i - 1] != 0 {
        return;
      }
      i := i - 1;
    }
  }

  lemma CtrStepAt(c: Cipher, s: Counter, x: byte)
    ensures var f := Refill(c, s);
            CtrStep(c)(s, x) == (f.(n := Next(f.n)), Xor(x, f.stream[f.n]))
  {}

  lemma RefillAt(c: Cipher, s: Counter)
    ensures Refill(c, s) == if s.n == 0 then Counter(Increment(s.nonce), c.enc(s.nonce), 0) else s
  {}

  /** A new key stream block, and the counter moves on. */
  method NextStream(c: Cipher, nonce: array<byte>, stream: array<byte>)
    requires nonce.Length == stream.Length == 16 && nonce != stream
    modifies nonce, stream
    ensures stream[..] == c.enc(old(nonce[..])) && nonce[..] == Increment(old(nonce[..]))
  {
    hide Splice, Increment;
    var b := c.enc(nonce[..]);
    SpliceWhole(stream[..], b);
    PutBlock(b, stream, 0);
    AddOne(nonce);
  }

  /** One turn of the CTR loop. */
  method CtrTurn(c: Cipher, n: Offset, nonce: array<byte>, stream: array<byte>, x: byte) returns (n': Offset, y: byte)
    requires nonce.Length == stream.Length == 16 && nonce != stream
    modifies nonce, stream
    ensures (Counter(nonce[..], stream[..], n'), y) == CtrStep(c)(Counter(old(nonce[..]), old(stream[..]), n), x)
  {
    hide Xor, Increment, CtrStep, Refill;
    ghost var s := Counter(nonce[..], stream[..], n);
    CtrStepAt(c, s, x);
    RefillAt(c, s);
    if n == 0 {
      NextStream(c, nonce, stream);
    }
    assert nonce[..] == Refill(c, s).nonce && stream[..] == Refill(c, s).stream;
    y := Xor(x, stream[n]);
    n' := (n + 1) % 16;
  }

  /** mbedtls_aes_crypt_ctr; input and output may be the same buffer. */
  method CryptCtr(c: Cipher, length: nat, ncOff: nat, nonce: array<byte>, stream: array<byte>,
                  input: array<byte>, output: array<byte>) returns (ret: Status, ncOff': nat)
    requires nonce.Length == stream.Length == 16 && nonce != stream
    requires nonce != input && nonce != output && stream != input && stream != output
    requires length <= input.Length && length <= output.Length
    modifies nonce, stream, output
    ensures ret == if ncOff > 15 then BadInputData else Success
    ensures ret.BadInputData? ==> ncOff' == ncOff && nonce[..] == old(nonce[..]) && stream[..] == old(stream[..])
    ensures ret.BadInputData? ==> output[..] == old(output[..])
    ensures ret.Success? ==>
              var r := Run(CtrStep(c), Counter(old(nonce[..]), old(stream[..]), ncOff), old(input[..length]));
              && output[..] == r.out + old(output[length..])
              && ncOff' == r.state.n && nonce[..] == r.state.nonce && stream[..] == r.state.stream
  {
    hide Xor, Splice, Increment, CtrStep, Refill, Next, Run;
    if ncOff > 15 {
      return BadInputData, ncOff;
    }
    var n: Offset := ncOff;
    ghost var p, s0 := input[..length], Counter(nonce[..], stream[..], n);
    ghost var step := CtrStep(c);
    RunNone(step, s0);
    for k := 0 to length
      invariant Run(step, s0, p[..k]) == Result(Counter(nonce[..], stream[..], n), output[..k])
      invariant output[k..] == old(output[k..])
      invariant input[k..length] == p[k..]
    {
      ghost var before, s := output[..], Counter(nonce[..], stream[..], n);
      NextInput(input[..], p, k);
      RunNext(step, s0, p, k, s, output[..k]);
      var y;
      n, y := CtrTurn(c, n, nonce, stream, input[k]);
      output[k] := y;
      NextOutput(before, k, output[k]);
    }
    assert p[..length] == p;
    assert output[..] == output[..length] + output[length..];
    return Success, n;
  }
}
