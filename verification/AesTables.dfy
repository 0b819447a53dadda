/** The static tables of aes.c and `aes_gen_tables`, which fills them. */
module AesTables {
  import opened Bytes
  import opened Gf256
  import opened Words
  import opened AesSpec

  // ---- what the tables mean ----

  function Rotl1(y: byte): byte { (y << 1) | (y >> 7) }

  /** The affine step of the S-box, as the generator computes it by four rotations. */
  function Affine(x: byte): byte {
    var y1 := Rotl1(x);
    var y2 := Rotl1(y1);
    var y3 := Rotl1(y2);
    var y4 := Rotl1(y3);
    Xor(Xor(Xor(Xor(x, y1), y2), y3), Xor(y4, 0x63))
  }

  /** The discrete logarithm to base {03}. */
  ghost function Log(b: byte): (k: nat)
    requires b != 0
    ensures 1 <= k <= 255 && Pow3(k) == b
  {
    Pow3Onto(b);
    var k :| 1 <= k <= 255 && Pow3(k) == b;
    k
  }

  /** The multiplicative inverse in GF(2^8), extended by 0, section 5.1.1 of FIPS 197. */
  ghost function Inverse(b: byte): byte {
    if b == 0 then 0 else Pow3(255 - Log(b))
  }

  ghost function SBox(b: byte): byte { Affine(Inverse(b)) }

  ghost function Rcon(i: nat): byte {
    if i == 0 then 1 else Xtime(Rcon(i - 1))
  }

  lemma AffineRaw(x: byte)
    ensures Affine(x) == x ^ x.RotateLeft(1) ^ x.RotateLeft(2) ^ x.RotateLeft(3) ^ x.RotateLeft(4) ^ 0x63
  {}

  lemma AffineRawInjective(x: byte, y: byte)
    requires x ^ x.RotateLeft(1) ^ x.RotateLeft(2) ^ x.RotateLeft(3) ^ x.RotateLeft(4) ^ 0x63
          == y ^ y.RotateLeft(1) ^ y.RotateLeft(2) ^ y.RotateLeft(3) ^ y.RotateLeft(4) ^ 0x63
    ensures x == y
  {}

  lemma AffineInjective(x: byte, y: byte)
    requires Affine(x) == Affine(y)
    ensures x == y
  {
    hide Affine;
    AffineRaw(x);
    AffineRaw(y);
    AffineRawInjective(x, y);
  }

  lemma InverseInjective(b: byte, c: byte)
    requires Inverse(b) == Inverse(c)
    ensures b == c
  {
    hide Pow3;
    if b != 0 {
      Pow3Nonzero(255 - Log(b));
    }
    if c != 0 {
      Pow3Nonzero(255 - Log(c));
    }
    if b != 0 && c != 0 {
      // Pow3(0) == Pow3(255), so both exponents can be taken in 1 .. 255.
      Pow3Cycle();
      Pow3Zero();
      var i := if Log(b) == 255 then 255 else 255 - Log(b);
      var j := if Log(c) == 255 then 255 else 255 - Log(c);
      assert Pow3(i) == Pow3(j);
      if i < j {
        Pow3Distinct(i, j);
      } else if j < i {
        Pow3Distinct(j, i);
      }
    }
  }

  lemma Pow3Zero()
    ensures Pow3(0) == 1
  {}

  lemma SBoxInjective(b: byte, c: byte)
    requires SBox(b) == SBox(c)
    ensures b == c
  {
    hide Affine, Inverse;
    AffineInjective(Inverse(b), Inverse(c));
    InverseInjective(b, c);
  }

  /** The tables as they stand after generation; nothing writes them afterwards. */
  datatype Tables = Tables(fsb: seq<byte>, rsb: seq<byte>,
                           ft0: seq<word>, ft1: seq<word>, ft2: seq<word>, ft3: seq<word>,
                           rt0: seq<word>, rt1: seq<word>, rt2: seq<word>, rt3: seq<word>,
                           rcon: seq<word>)

  predicate Sized(t: Tables) {
    && |t.fsb| == |t.rsb| == 256
    && |t.ft0| == |t.ft1| == |t.ft2| == |t.ft3| == 256
    && |t.rt0| == |t.rt1| == |t.rt2| == |t.rt3| == 256
    && |t.rcon| == 10
  }

  /** A table of words whose entry i is the given column of S-box output i, rotated. */
  ghost predicate Holds(table: seq<word>, i: nat, c: Col) {
    i < |table| && ColOf(table[i]) == c
  }

  ghost predicate RoundEntries(t: Tables, i: nat)
    requires i < |t.fsb| && i < |t.rsb|
  {
    var f, r := ForwardCol(t.fsb[i]), ReverseCol(t.rsb[i]);
    && Holds(t.ft0, i, f) && Holds(t.ft1, i, RotCol(f))
    && Holds(t.ft2, i, RotCol(RotCol(f))) && Holds(t.ft3, i, RotCol(RotCol(RotCol(f))))
    && Holds(t.rt0, i, r) && Holds(t.rt1, i, RotCol(r))
    && Holds(t.rt2, i, RotCol(RotCol(r))) && Holds(t.rt3, i, RotCol(RotCol(RotCol(r))))
  }

  /** What the cipher needs of the tables: inverse S-boxes, the columns of MixColumns and
      InvMixColumns with their three rotations, and the round constants. */
  ghost predicate Ready(t: Tables) {
    && Sized(t)
    && Undoes(t.rsb, t.fsb)
    && (forall i :: 0 <= i < 256 ==> RoundEntries(t, i))
    && (forall i :: 0 <= i < 10 ==> ColOf(t.rcon[i]) == Col(Rcon(i), 0, 0, 0))
  }

  // ---- aes_gen_tables ----

  /** The MUL macro over the power and logarithm tables. */
  function TableMul(pow: seq<byte>, log: seq<nat>, c: byte, x: byte): byte
    requires |pow| == 256 && |log| == 256
  {
    if c != 0 && x != 0 then pow[(log[c as int] + log[x as int]) % 255] else 0
  }

  ghost predicate IsPowTable(pow: seq<byte>) {
    |pow| == 256 && forall k :: 0 <= k < 256 ==> pow[k] == Pow3(k)
  }

  ghost predicate IsLogTable(log: seq<nat>) {
    |log| == 256 && forall b: byte :: b != 0 ==> log[b as int] == Log(b)
  }

  lemma TableMulCorrect(pow: seq<byte>, log: seq<nat>, x: byte)
    requires IsPowTable(pow) && IsLogTable(log)
    ensures TableMul(pow, log, 0x0E, x) == Mul14(x)
    ensures TableMul(pow, log, 0x09, x) == Mul9(x)
    ensures TableMul(pow, log, 0x0D, x) == Mul13(x)
    ensures TableMul(pow, log, 0x0B, x) == Mul11(x)
  {
    hide Pow3;
    if x == 0 {
      MulOfZero();
    } else {
      hide Mul9, Mul11, Mul13, Mul14;
      MulPow3(Log(x), Log(9), Log(11), Log(13), Log(14));
      Pow3Mod(Log(9) + Log(x));
      Pow3Mod(Log(11) + Log(x));
      Pow3Mod(Log(13) + Log(x));
      Pow3Mod(Log(14) + Log(x));
    }
  }

  lemma MulOfZero()
    ensures Mul9(0) == 0 && Mul11(0) == 0 && Mul13(0) == 0 && Mul14(0) == 0
  {}

  lemma Pow3Step(i: nat)
    ensures Pow3(0) == 1 && Pow3(i + 1) == Mul3(Pow3(i))
  {}

  lemma NewPower(i: nat)
    requires i < 256
    ensures forall k :: 1 <= k < i ==> Pow3(k) as int != Pow3(i) as int
  {
    hide Pow3;
    forall k | 1 <= k < i
      ensures Pow3(k) as int != Pow3(i) as int
    {
      Pow3Distinct(k, i);
      if Pow3(k) as int == Pow3(i) as int {
        ByteIntInjective(Pow3(k), Pow3(i));
      }
    }
  }

  /** The first loop: powers of the generator and their logarithms. */
  method GenPowLog() returns (pow: array<byte>, log: array<nat>)
    ensures fresh(pow) && fresh(log)
    ensures IsPowTable(pow[..]) && IsLogTable(log[..])
  {
    hide Mul3, Pow3;
    pow := new byte[256];
    log := new nat[256];
    var x: byte := 1;
    Pow3Step(0);
    for i := 0 to 256
      invariant x == Pow3(i)
      invariant forall k :: 0 <= k < i ==> pow[k] == Pow3(k)
      invariant forall k :: 1 <= k < i ==> log[Pow3(k) as int] == k
    {
      NewPower(i);
      Pow3Step(i);
      pow[i] := x;
      log[x as int] := i;
      x := Mul3(x);
    }
    forall b: byte | b != 0
      ensures log[b as int] == Log(b)
    {
      assert log[Pow3(Log(b)) as int] == Log(b);
    }
  }

  ghost function SBoxAt(i: nat): byte
    requires i < 256
  {
    SBox(ByteOf(i))
  }

  ghost function SBoxIndex(i: nat): (j: nat)
    requires i < 256
    ensures j < 256
  {
    SBoxAt(i) as int
  }

  lemma SBoxIndexInjective(i: nat, j: nat)
    requires i < 256 && j < 256 && SBoxIndex(i) == SBoxIndex(j)
    ensures i == j
  {
    hide SBox;
    ByteIntInjective(SBoxAt(i), SBoxAt(j));
    SBoxInjective(ByteOf(i), ByteOf(j));
  }

  lemma SBoxOfZero()
    ensures SBoxAt(0) == 0x63 && SBoxIndex(0) == 0x63
  {
    AffineRaw(0);
  }

  /** The first n entries of the two S-boxes are filled. */
  ghost predicate IsSBoxPair(fsb: seq<byte>, rsb: seq<byte>, n: nat) {
    && |fsb| == 256 && |rsb| == 256 && n <= 256
    && forall i :: 0 <= i < n ==> fsb[i] == SBoxAt(i) && rsb[SBoxIndex(i)] as int == i
  }

  lemma SBoxPairUndoes(fsb: seq<byte>, rsb: seq<byte>)
    requires IsSBoxPair(fsb, rsb, 256)
    ensures Undoes(rsb, fsb)
  {
    hide SBoxAt;
  }

  lemma NextSBoxEntry(fsb: seq<byte>, rsb: seq<byte>, i: nat)
    requires i < 256 && IsSBoxPair(fsb, rsb, i)
    ensures IsSBoxPair(fsb[i := SBoxAt(i)], rsb[SBoxIndex(i) := ByteOf(i)], i + 1)
  {
    hide SBoxAt, SBoxIndex, ByteOf;
    forall k | 0 <= k < i
      ensures SBoxIndex(k) != SBoxIndex(i)
    {
      if SBoxIndex(k) == SBoxIndex(i) {
        SBoxIndexInjective(k, i);
      }
    }
  }

  /** The third loop: forward and reverse S-boxes. */
  method GenSBoxes(pow: array<byte>, log: array<nat>) returns (fsb: array<byte>, rsb: array<byte>)
    requires IsPowTable(pow[..]) && IsLogTable(log[..])
    ensures fresh(fsb) && fresh(rsb)
    ensures IsSBoxPair(fsb[..], rsb[..], 256)
  {
    hide SBoxAt, Affine, Rotl1, Xor, Pow3;
    fsb := new byte[256];
    rsb := new byte[256];
    fsb[0x00] := 0x63;
    rsb[0x63] := 0x00;
    SBoxOfZero();
    for i := 1 to 256
      invariant IsSBoxPair(fsb[..], rsb[..], i)
    {
      ghost var before, before' := fsb[..], rsb[..];
      LookupInverse(pow[..], log[..], i);
      var x := pow[255 - log[i]];
      ghost var inverse := x;

      var y := Rotl1(x);
      x, y := Xor(x, y), Rotl1(y);
      x, y := Xor(x, y), Rotl1(y);
      x, y := Xor(x, y), Rotl1(y);
      x := Xor(x, Xor(y, 0x63));
      AffineSteps(inverse);
      SBoxAtUnfold(i);

      fsb[i] := x;
      rsb[x as int] := ByteOf(i);
      NextSBoxEntry(before, before', i);
    }
  }

  lemma LookupInverse(pow: seq<byte>, log: seq<nat>, i: nat)
    requires IsPowTable(pow) && IsLogTable(log)
    requires 1 <= i < 256
    ensures 1 <= log[i] <= 255 && pow[255 - log[i]] == Inverse(ByteOf(i))
  {
    hide Pow3;
    var b := ByteOf(i);
    assert log[b as int] == Log(b);
  }

  lemma AffineSteps(x: byte)
    ensures var y1 := Rotl1(x);
            var y2 := Rotl1(y1);
            var y3 := Rotl1(y2);
            Affine(x) == Xor(Xor(Xor(Xor(x, y1), y2), y3), Xor(Rotl1(y3), 0x63))
  {}

  lemma SBoxAtUnfold(i: nat)
    requires i < 256
    ensures SBoxAt(i) == Affine(Inverse(ByteOf(i)))
  {}

  /** The second loop: powers of {02} as round constants. */
  method GenRoundConstants() returns (rcon: array<word>)
    ensures fresh(rcon) && rcon.Length == 10
    ensures forall i :: 0 <= i < 10 ==> ColOf(rcon[i]) == Col(Rcon(i), 0, 0, 0)
  {
    hide ColOf, Xtime;
    rcon := new word[10];
    var x: byte := 1;
    for i := 0 to 10
      invariant x == Rcon(i)
      invariant forall k :: 0 <= k < i ==> ColOf(rcon[k]) == Col(Rcon(k), 0, 0, 0)
    {
      rcon[i] := x as word;
      LowByteCol(x);
      x := Xtime(x);
    }
  }

  lemma LowByteCol(x: byte)
    ensures ColOf(x as word) == Col(x, 0, 0, 0)
  {}

  lemma RotatedCol(w: word)
    ensures ColOf(Rotl8(w)) == RotCol(ColOf(w))
  {
    hide Rotl8, Byte0, Byte1, Byte2, Byte3;
    ColRotl8(w);
  }

  /** The last loop for one table: a column for every S-box output, and its three rotations. */
  ghost predicate TableUpTo(t0: seq<word>, t1: seq<word>, t2: seq<word>, t3: seq<word>,
                            cols: seq<Col>, n: nat)
  {
    && |t0| == |t1| == |t2| == |t3| == |cols| == 256
    && forall i :: 0 <= i < 256 && i < n ==>
         && ColOf(t0[i]) == cols[i] && ColOf(t1[i]) == RotCol(cols[i])
         && ColOf(t2[i]) == RotCol(RotCol(cols[i])) && ColOf(t3[i]) == RotCol(RotCol(RotCol(cols[i])))
  }

  ghost function ForwardCols(fsb: seq<byte>): (cols: seq<Col>)
    ensures |cols| == |fsb| && forall i :: 0 <= i < |fsb| ==> cols[i] == ForwardCol(fsb[i])
  {
    seq(|fsb|, i requires 0 <= i < |fsb| => ForwardCol(fsb[i]))
  }

  ghost function ReverseCols(rsb: seq<byte>): (cols: seq<Col>)
    ensures |cols| == |rsb| && forall i :: 0 <= i < |rsb| ==> cols[i] == ReverseCol(rsb[i])
  {
    seq(|rsb|, i requires 0 <= i < |rsb| => ReverseCol(rsb[i]))
  }

  lemma ColOfWord(b0: byte, b1: byte, b2: byte, b3: byte)
    ensures ColOf(Word(b0, b1, b2, b3)) == Col(b0, b1, b2, b3)
  {
    ColOfWordOf(Col(b0, b1, b2, b3));
  }

  method PutColumn(t0: array<word>, t1: array<word>, t2: array<word>, t3: array<word>, i: nat, w: word,
                   ghost cols: seq<Col>)
    requires t0 != t1 && t0 != t2 && t0 != t3 && t1 != t2 && t1 != t3 && t2 != t3
    requires TableUpTo(t0[..], t1[..], t2[..], t3[..], cols, i)
    requires i < 256 && ColOf(w) == cols[i]
    modifies t0, t1, t2, t3
    ensures TableUpTo(t0[..], t1[..], t2[..], t3[..], cols, i + 1)
  {
    hide ColOf, RotCol, Rotl8;
    t0[i] := w;
    t1[i] := Rotl8(t0[i]);
    t2[i] := Rotl8(t1[i]);
    t3[i] := Rotl8(t2[i]);
    RotatedCol(t0[i]);
    RotatedCol(t1[i]);
    RotatedCol(t2[i]);
  }

  /** The last loop: the eight round tables. */
  method GenRoundTables(pow: array<byte>, log: array<nat>, fsb: array<byte>, rsb: array<byte>)
    returns (ft0: array<word>, ft1: array<word>, ft2: array<word>, ft3: array<word>,
             rt0: array<word>, rt1: array<word>, rt2: array<word>, rt3: array<word>)
    requires IsPowTable(pow[..]) && IsLogTable(log[..])
    requires fsb.Length == rsb.Length == 256
    ensures TableUpTo(ft0[..], ft1[..], ft2[..], ft3[..], ForwardCols(fsb[..]), 256)
    ensures TableUpTo(rt0[..], rt1[..], rt2[..], rt3[..], ReverseCols(rsb[..]), 256)
  {
    hide ColOf, RotCol, Word, Xtime, Mul9, Mul11, Mul13, Mul14, Mul3, IsPowTable, IsLogTable, TableMul, TableUpTo, Xor;
    ft0, ft1, ft2, ft3 := new word[256], new word[256], new word[256], new word[256];
    rt0, rt1, rt2, rt3 := new word[256], new word[256], new word[256], new word[256];
    ghost var fcols, rcols := ForwardCols(fsb[..]), ReverseCols(rsb[..]);
    EmptyTable(ft0[..], ft1[..], ft2[..], ft3[..], fcols);
    EmptyTable(rt0[..], rt1[..], rt2[..], rt3[..], rcols);
    for i := 0 to 256
      invariant TableUpTo(ft0[..], ft1[..], ft2[..], ft3[..], fcols, i)
      invariant TableUpTo(rt0[..], rt1[..], rt2[..], rt3[..], rcols, i)
    {
      var x := fsb[i];
      var y := Xtime(x);
      var z := Xor(y, x);
      Mul3IsSum(x);
      ColOfWord(y, x, x, z);
      PutColumn(ft0, ft1, ft2, ft3, i, Word(y, x, x, z), fcols);
      x := rsb[i];
      var w := ReverseWord(pow, log, x);
      PutColumn(rt0, rt1, rt2, rt3, i, w, rcols);
    }
  }

  method GenTables() returns (t: Tables)
    ensures Ready(t)
    ensures forall i :: 0 <= i < 256 ==> t.fsb[i] == SBoxAt(i)
  {
    hide ColOf, RotCol, SBoxAt, Rcon, IsPowTable, IsLogTable, TableUpTo, IsSBoxPair, Ready;
    var pow, log := GenPowLog();
    var rcon := GenRoundConstants();
    var fsb, rsb := GenSBoxes(pow, log);
    SBoxPairSize(fsb[..], rsb[..]);
    var ft0, ft1, ft2, ft3, rt0, rt1, rt2, rt3 := GenRoundTables(pow, log, fsb, rsb);
    t := Tables(fsb[..], rsb[..], ft0[..], ft1[..], ft2[..], ft3[..], rt0[..], rt1[..], rt2[..], rt3[..], rcon[..]);
    TablesReady(t);
  }

  method ReverseWord(pow: array<byte>, log: array<nat>, x: byte) returns (w: word)
    requires IsPowTable(pow[..]) && IsLogTable(log[..])
    ensures ColOf(w) == ReverseCol(x)
  {
    hide ColOf, Word, Mul9, Mul11, Mul13, Mul14;
    w := Word(TableMul(pow[..], log[..], 0x0E, x), TableMul(pow[..], log[..], 0x09, x),
              TableMul(pow[..], log[..], 0x0D, x), TableMul(pow[..], log[..], 0x0B, x));
    TableMulCorrect(pow[..], log[..], x);
    ColOfWord(Mul14(x), Mul9(x), Mul13(x), Mul11(x));
  }

  lemma SBoxPairSize(fsb: seq<byte>, rsb: seq<byte>)
    requires IsSBoxPair(fsb, rsb, 256)
    ensures |fsb| == 256 && |rsb| == 256
    ensures forall i :: 0 <= i < 256 ==> fsb[i] == SBoxAt(i)
  {}

  lemma EmptyTable(t0: seq<word>, t1: seq<word>, t2: seq<word>, t3: seq<word>, cols: seq<Col>)
    requires |t0| == |t1| == |t2| == |t3| == |cols| == 256
    ensures TableUpTo(t0, t1, t2, t3, cols, 0)
  {}

  lemma TablesReady(t: Tables)
    requires IsSBoxPair(t.fsb, t.rsb, 256)
    requires TableUpTo(t.ft0, t.ft1, t.ft2, t.ft3, ForwardCols(t.fsb), 256)
    requires TableUpTo(t.rt0, t.rt1, t.rt2, t.rt3, ReverseCols(t.rsb), 256)
    requires |t.rcon| == 10 && forall i :: 0 <= i < 10 ==> ColOf(t.rcon[i]) == Col(Rcon(i), 0, 0, 0)
    ensures Ready(t)
  {
    hide ColOf, SBoxAt, Rcon, Undoes, RoundEntries, TableUpTo;
    SBoxPairUndoes(t.fsb, t.rsb);
    TablesSized(t);
    forall i | 0 <= i < 256
      ensures RoundEntries(t, i)
    {
      EntryReady(t, i);
    }
  }

  lemma TablesSized(t: Tables)
    requires IsSBoxPair(t.fsb, t.rsb, 256)
    requires TableUpTo(t.ft0, t.ft1, t.ft2, t.ft3, ForwardCols(t.fsb), 256)
    requires TableUpTo(t.rt0, t.rt1, t.rt2, t.rt3, ReverseCols(t.rsb), 256)
    requires |t.rcon| == 10
    ensures Sized(t)
  {}

  lemma EntryReady(t: Tables, i: nat)
    requires |t.fsb| == |t.rsb| == 256 && i < 256
    requires TableUpTo(t.ft0, t.ft1, t.ft2, t.ft3, ForwardCols(t.fsb), 256)
    requires TableUpTo(t.rt0, t.rt1, t.rt2, t.rt3, ReverseCols(t.rsb), 256)
    ensures RoundEntries(t, i)
  {
    hide ColOf, RotCol, ForwardCol, ReverseCol;
    assert ForwardCols(t.fsb)[i] == ForwardCol(t.fsb[i]);
    assert ReverseCols(t.rsb)[i] == ReverseCol(t.rsb[i]);
  }

  lemma Mul3IsSum(x: byte)
    ensures ForwardCol(x) == Col(Xtime(x), x, x, Xor(Xtime(x), x))
  {
    XorComm(Xtime(x), x);
  }
}
