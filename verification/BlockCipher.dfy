/** A block cipher as the modes of operation see it: a block function E and its inverse D. */
module BlockCipher {
  import opened Bytes

  type Block = b: seq<byte> | |b| == 16 witness seq(16, _ => 0 as byte)

  datatype Cipher = Cipher(enc: Block -> Block, dec: Block -> Block)

  /** Decryption undoes encryption on every block. */
  ghost predicate Invertible(c: Cipher) {
    forall b: Block {:trigger c.enc(b)} :: c.dec(c.enc(b)) == b
  }

  function XorSeq(a: seq<byte>, b: seq<byte>): (r: seq<byte>)
    requires |a| == |b|
    ensures |r| == |a|
  {
    seq(|a|, i requires 0 <= i < |a| => Xor(a[i], b[i]))
  }

  lemma XorSeqTwice(a: seq<byte>, b: seq<byte>)
    requires |a| == |b|
    ensures XorSeq(XorSeq(a, b), b) == a
  {
    hide Xor;
    forall i | 0 <= i < |a|
      ensures XorSeq(XorSeq(a, b), b)[i] == a[i]
    {
      XorCancel(b[i], a[i]);
    }
  }

  lemma XorSeqAt(a: seq<byte>, b: seq<byte>, i: nat)
    requires |a| == |b| && i < |a|
    ensures XorSeq(a, b)[i] == Xor(a[i], b[i])
  {}

  /** Replaces 16 bytes of a buffer. */
  function Splice(s: seq<byte>, k: nat, b: seq<byte>): (r: seq<byte>)
    requires |b| == 16 && k + 16 <= |s|
    ensures |r| == |s|
  {
    s[..k] + b + s[k + 16..]
  }

  lemma SpliceParts(s: seq<byte>, k: nat, b: seq<byte>)
    requires |b| == 16 && k + 16 <= |s|
    ensures Splice(s, k, b)[..k + 16] == s[..k] + b
    ensures Splice(s, k, b)[k + 16..] == s[k + 16..]
    ensures Splice(s, k, b)[k..k + 16] == b
  {}

  lemma SpliceTwice(s: seq<byte>, k: nat, a: seq<byte>, b: seq<byte>)
    requires |a| == |b| == 16 && k + 16 <= |s|
    ensures Splice(Splice(s, k, a), k, b) == Splice(s, k, b)
  {}

  lemma SpliceWhole(s: seq<byte>, b: seq<byte>)
    requires |s| == |b| == 16
    ensures Splice(s, 0, b) == b
  {}

  /** A window of the unread input. */
  lemma Window(s: seq<byte>, p: seq<byte>, k: nat, n: nat)
    requires k + 16 <= n <= |s| && n == |p| && s[k..n] == p[k..]
    ensures s[k..k + 16] == p[k..k + 16] && s[k + 16..n] == p[k + 16..]
  {
    assert s[k..k + 16] == s[k..n][..16];
    assert p[k..k + 16] == p[k..][..16];
    assert s[k + 16..n] == s[k..n][16..];
    assert p[k + 16..] == p[k..][16..];
  }

  // A block of a text after its first block.

  lemma SkipBlock(y: Block, r: seq<byte>, k: nat)
    requires k + 16 <= |r|
    ensures (y + r)[16 + k..16 + k + 16] == r[k..k + 16]
  {}

  lemma SkipInput(p: seq<byte>, k: nat)
    requires k + 32 <= |p|
    ensures p[16..][k..k + 16] == p[16 + k..16 + k + 16]
  {}

  /** output[k + i] = input[k + i] ^ v[i] for i < 16; input and output may be the same buffer. */
  method XorBlock(input: array<byte>, output: array<byte>, k: nat, v: array<byte>)
    requires v.Length == 16 && v != output
    requires k + 16 <= input.Length && k + 16 <= output.Length
    modifies output
    ensures output[..] == Splice(old(output[..]), k, XorSeq(old(input[k..k + 16]), v[..]))
  {
    hide Xor;
    for i := 0 to 16
      invariant forall m :: 0 <= m < output.Length && !(k <= m < k + i) ==> output[m] == old(output[m])
      invariant forall m :: k <= m < k + i ==> output[m] == Xor(old(input[m]), v[m - k])
      invariant forall m :: k + i <= m < k + 16 ==> input[m] == old(input[m])
    {
      output[k + i] := Xor(input[k + i], v[i]);
    }
    ghost var x := XorSeq(old(input[k..k + 16]), v[..]);
    forall m | k <= m < k + 16
      ensures output[m] == x[m - k]
    {
      assert old(input[k..k + 16])[m - k] == old(input[m]);
      XorSeqAt(old(input[k..k + 16]), v[..], m - k);
    }
    assert output[..] == Splice(old(output[..]), k, x);
  }

  /** Writes a block to output[k ..]. */
  method PutBlock(b: Block, output: array<byte>, k: nat)
    requires k + 16 <= output.Length
    modifies output
    ensures output[..] == Splice(old(output[..]), k, b)
  {
    for i := 0 to 16
      invariant forall m :: 0 <= m < output.Length && !(k <= m < k + i) ==> output[m] == old(output[m])
      invariant forall m :: k <= m < k + i ==> output[m] == b[m - k]
    {
      output[k + i] := b[i];
    }
  }

  // ---- there are finitely many blocks ----

  function Longer(s: seq<byte>, i: nat): seq<byte>
    requires i < 256
  {
    s + [i as byte]
  }

  /** All byte strings of length n. */
  ghost function Strings(n: nat): set<seq<byte>> {
    if n == 0 then {[]} else set s, i: nat | s in Strings(n - 1) && i < 256 :: Longer(s, i)
  }

  lemma LastByte(s: seq<byte>)
    requires s != []
    ensures s == Longer(s[..|s| - 1], s[|s| - 1] as int)
  {
    var b := s[|s| - 1];
    assert (b as int) as byte == b;
  }

  lemma {:induction false} StringsAreAll(s: seq<byte>)
    ensures s in Strings(|s|)
    decreases |s|
  {
    hide Longer;
    if s != [] {
      LastByte(s);
      StringsAreAll(s[..|s| - 1]);
    }
  }

  ghost function Image<T>(xs: set<T>, f: T -> T): set<T> { set x | x in xs :: f(x) }

  /** The images of a set under a function that takes no two of its elements to the same value. */
  lemma {:induction false} ImageSize<T>(xs: set<T>, f: T -> T)
    requires forall x, y :: x in xs && y in xs && f(x) == f(y) ==> x == y
    ensures |Image(xs, f)| == |xs|
    decreases |xs|
  {
    if xs != {} {
      var x :| x in xs;
      var rest := xs - {x};
      ImageSize(rest, f);
      assert Image(xs, f) == Image(rest, f) + {f(x)};
    }
  }

  lemma SameSize<T>(part: set<T>, whole: set<T>)
    requires part <= whole && |part| == |whole|
    ensures part == whole
  {
    assert whole == part + (whole - part);
  }

  /** On a finite set, a function that takes no two elements to the same value reaches every element. */
  lemma Onto<T>(xs: set<T>, f: T -> T, y: T)
    requires forall x, z :: x in xs && z in xs && f(x) == f(z) ==> x == z
    requires y in xs && forall x :: x in xs ==> f(x) in xs
    ensures exists x :: x in xs && f(x) == y
  {
    ImageSize(xs, f);
    SameSize(Image(xs, f), xs);
    assert y in Image(xs, f);
  }

  ghost function AllBlocks(): (r: set<Block>)
    ensures forall b: Block :: b in r
  {
    var r: set<Block> := set s | s in Strings(16) && |s| == 16 :: s;
    assert forall b: Block :: b in r by {
      forall b: Block
        ensures b in r
      {
        StringsAreAll(b);
      }
    }
    r
  }

  /** There are finitely many blocks, so encryption reaches every one of them and undoes decryption as well. */
  lemma EncryptUndoes(c: Cipher, b: Block)
    requires Invertible(c)
    ensures c.enc(c.dec(b)) == b
  {
    var all := AllBlocks();
    forall x, y | x in all && y in all && c.enc(x) == c.enc(y)
      ensures x == y
    {
      assert c.dec(c.enc(x)) == x && c.dec(c.enc(y)) == y;
    }
    Onto(all, c.enc, b);
    var x :| x in all && c.enc(x) == b;
    assert c.dec(c.enc(x)) == x;
  }

  /** The two functions of a cipher in the other order. */
  function Swapped(c: Cipher): Cipher { Cipher(c.dec, c.enc) }

  lemma SwappedInvertible(c: Cipher)
    requires Invertible(c)
    ensures Invertible(Swapped(c))
  {
    forall b: Block
      ensures Swapped(c).dec(Swapped(c).enc(b)) == b
    {
      EncryptUndoes(c, b);
    }
  }
}
