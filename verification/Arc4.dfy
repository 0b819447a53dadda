/** The ARC4 stream cipher, mbedtls_arc4_setup and mbedtls_arc4_crypt. */
module Arc4 {
  import opened Arith
  import opened Bytes
  import opened ByteStream

  type Index = n: nat | n < 256
  type Table = m: seq<byte> | |m| == 256 witness seq(256, _ => 0 as byte)

  datatype State = State(x: Index, y: Index, m: Table)

  function At(m: Table, i: int): byte { m[i % 256] }

  function Swap(m: Table, i: Index, j: Index): Table { m[i := m[j]][j := m[i]] }

  /** Every byte value occurs, and no two places hold the same one. */
  ghost predicate Permutation(m: Table) {
    && (forall i, j :: 0 <= i < j < 256 ==> m[i] != m[j])
    && (forall v {:trigger Holds(m, v)} :: 0 <= v < 256 ==> Holds(m, v))
  }

  ghost predicate Holds(m: Table, v: int) { exists i :: 0 <= i < 256 && m[i] as int == v }

  lemma SwapPermutes(m: Table, i: Index, j: Index)
    requires Permutation(m)
    ensures Permutation(Swap(m, i, j))
  {
    var r := Swap(m, i, j);
    forall v | 0 <= v < 256
      ensures Holds(r, v)
    {
      assert Holds(m, v);
      var k :| 0 <= k < 256 && m[k] as int == v;
      assert r[if k == i then j else if k == j then i else k] == m[k];
    }
  }

  // ---- key schedule ----

  function Identity(): Table { seq(256, i requires 0 <= i < 256 => ByteOf(i)) }

  datatype Schedule = Schedule(m: Table, j: Index)

  /** The key byte of round i: the key is used over and over. */
  function KeyByte(key: seq<byte>, i: nat): byte
    requires key != []
  {
    key[i % |key|]
  }

  /** Round i of the key schedule, with key byte b. */
  function RoundOf(s: Schedule, i: Index, b: byte): Schedule {
    var j := (s.j + s.m[i] as int + b as int) % 256;
    Schedule(Swap(s.m, i, j), j)
  }

  /** The table and j after i rounds, key byte i mod the key length in round i. */
  function Scheduled(key: seq<byte>, i: nat): Schedule
    requires key != [] && i <= 256
  {
    if i == 0 then Schedule(Identity(), 0)
    else RoundOf(Scheduled(key, i - 1), i - 1, KeyByte(key, i - 1))
  }

  /** The context a key sets up. */
  function Start(key: seq<byte>): State
    requires key != []
  {
    State(0, 0, Scheduled(key, 256).m)
  }

  lemma IdentityPermutes()
    ensures Permutation(Identity())
  {
    var m := Identity();
    forall i, j | 0 <= i < j < 256
      ensures m[i] != m[j]
    {
      assert m[i] as int == i && m[j] as int == j;
    }
    forall v | 0 <= v < 256
      ensures Holds(m, v)
    {
      assert m[v] as int == v;
    }
  }

  /** Whatever the key, setup leaves a permutation of 0..255. */
  lemma {:induction false} ScheduledPermutes(key: seq<byte>, i: nat)
    requires key != [] && i <= 256
    ensures Permutation(Scheduled(key, i).m)
  {
    hide Permutation, Swap;
    if i == 0 {
      IdentityPermutes();
    } else {
      ScheduledPermutes(key, i - 1);
      SwapPermutes(Scheduled(key, i - 1).m, i - 1, Scheduled(key, i).j);
    }
  }

  // ---- the key decides the table ----

  /** The key byte that leads j to the wanted place in a round. */
  function ByteFor(j: Index, entry: byte, wanted: Index): byte {
    ByteOf((wanted - j - entry as int) % 256)
  }

  lemma ByteForLeads(j: Index, entry: byte, wanted: Index)
    ensures (j + entry as int + ByteFor(j, entry, wanted) as int) % 256 == wanted
  {
    var e := entry as int;
    AddBack(j + e, wanted);
    assert (wanted - j - e) % 256 == (wanted - (j + e)) % 256;
  }

  lemma AddBack(a: nat, wanted: Index)
    ensures 0 <= (wanted - a) % 256 < 256 && (a + (wanted - a) % 256) % 256 == wanted
  {}

  /** A later place of the table that holds the value. */
  lemma FindLater(m: Table, p: Table, i: Index) returns (k: Index)
    requires Permutation(m) && Permutation(p) && m[..i] == p[..i]
    ensures i <= k && m[k] == p[i]
  {
    assert Holds(m, p[i] as int);
    k :| 0 <= k < 256 && m[k] as int == p[i] as int;
    ByteIntInjective(m[k], p[i]);
    forall x | 0 <= x < i
      ensures m[x] == p[x]
    {
      assert m[x] == m[..i][x] && p[x] == p[..i][x];
    }
  }

  lemma KeyByteFirst(key: seq<byte>, i: nat)
    requires i < |key|
    ensures KeyByte(key, i) == key[i]
  {
    ModUnique(i, |key|, 0, i);
  }

  /** The first rounds depend on the first bytes of a long key. */
  lemma {:induction false} SamePrefixRounds(key: seq<byte>, b: byte, i: nat)
    requires key != [] && |key| < 256 && i <= |key|
    ensures Scheduled(key + [b], i) == Scheduled(key, i)
  {
    hide Swap, KeyByte, Scheduled;
    if i == 0 {
      ScheduledStart(key);
      ScheduledStart(key + [b]);
    } else {
      SamePrefixRounds(key, b, i - 1);
      KeyByteFirst(key, i - 1);
      KeyByteFirst(key + [b], i - 1);
      ScheduledNext(key, i - 1);
      ScheduledNext(key + [b], i - 1);
    }
  }

  /** One more key byte, which puts value i of p in its place. */
  lemma PlaceOne(p: Table, before: seq<byte>, s: Schedule, i: Index) returns (key: seq<byte>)
    requires Permutation(p) && Permutation(s.m) && |before| == i && s.m[..i] == p[..i]
    requires forall b: byte :: Scheduled(before + [b], i) == s
    ensures |key| == i + 1 && Scheduled(key, i + 1).m[..i + 1] == p[..i + 1]
  {
    hide Permutation, ByteFor, Scheduled, KeyByte, Swap;
    var k := FindLater(s.m, p, i);
    var b := ByteFor(s.j, s.m[i], k);
    ByteForLeads(s.j, s.m[i], k);
    key := before + [b];
    KeyByteFirst(key, i);
    ScheduledNext(key, i);
    PlacedNext(s.m, p, i, k);
  }

  /** A key of i bytes whose rounds put the first i values of p in their places. */
  lemma {:induction false} PlaceFirst(p: Table, i: nat) returns (key: seq<byte>)
    requires Permutation(p) && 0 < i <= 256
    ensures |key| == i && Scheduled(key, i).m[..i] == p[..i]
  {
    hide Permutation, Scheduled, Identity;
    if i == 1 {
      IdentityPermutes();
      forall b: byte
        ensures Scheduled([] + [b], 0) == Schedule(Identity(), 0)
      {
        ScheduledStart([] + [b]);
      }
      key := PlaceOne(p, [], Schedule(Identity(), 0), 0);
    } else {
      var before := PlaceFirst(p, i - 1);
      ScheduledPermutes(before, i - 1);
      forall b: byte
        ensures Scheduled(before + [b], i - 1) == Scheduled(before, i - 1)
      {
        SamePrefixRounds(before, b, i - 1);
      }
      key := PlaceOne(p, before, Scheduled(before, i - 1), i - 1);
    }
  }

  lemma PlacedNext(m: Table, p: Table, i: Index, k: Index)
    requires m[..i] == p[..i] && i <= k && m[k] == p[i]
    ensures Swap(m, i, k)[..i + 1] == p[..i + 1]
  {
    var r := Swap(m, i, k);
    forall x | 0 <= x <= i
      ensures r[x] == p[x]
    {
      if x < i {
        assert m[x] == m[..i][x] && p[x] == p[..i][x];
      }
    }
  }

  /** Every permutation is the table of some key. */
  lemma EveryTableHasKey(p: Table)
    requires Permutation(p)
    ensures exists key: seq<byte> :: |key| == 256 && Start(key) == State(0, 0, p)
  {
    var key := PlaceFirst(p, 256);
    var m := Scheduled(key, 256).m;
    assert m == m[..256] && p == p[..256];
  }

  // ---- output ----

  /** The state after one output byte. */
  function Next(s: State): State {
    var x := (s.x + 1) % 256;
    var y := (s.y + s.m[x] as int) % 256;
    State(x, y, Swap(s.m, x, y))
  }

  /** The key stream byte of a state: after the swap, the entry numbered by the sum of the two. */
  function Key(s: State): byte { At(s.m, s.m[s.x] as int + s.m[s.y] as int) }

  function ArcStep(): Step<State> {
    (s: State, b: byte) => (Next(s), Xor(b, Key(Next(s))))
  }

  /** The state after n output bytes. */
  function After(s: State, n: nat): State { if n == 0 then s else Next(After(s, n - 1)) }

  lemma {:induction false} AfterRun(s: State, p: seq<byte>)
    ensures Run(ArcStep(), s, p).state == After(s, |p|)
  {
    hide Next, Key;
    if p != [] {
      AfterRun(s, p[..|p| - 1]);
    }
  }

  /** The entries at i and j exchanged, and every other one as it was. */
  predicate Exchanged(before: seq<byte>, after: seq<byte>, i: Index, j: Index) {
    && |before| == |after| == 256
    && after[i] == before[j] && after[j] == before[i]
    && forall k :: 0 <= k < 256 && k != i && k != j ==> after[k] == before[k]
  }

  /** One output byte, from the definition of the cipher: x moves on by one, y by entry x; the two entries are
      exchanged, and the entry numbered by their sum is the key stream byte. */
  lemma OneByte(s: State, b: byte)
    ensures var x := (s.x + 1) % 256;
            var y := (s.y + s.m[x] as int) % 256;
            var r := Run(ArcStep(), s, [b]);
            && r.state.x == x && r.state.y == y && Exchanged(s.m, r.state.m, x, y)
            && r.out == [Xor(b, r.state.m[(s.m[x] as int + s.m[y] as int) % 256])]
  {
    hide Xor, Swap, Key, Next, Exchanged;
    NextAt(s);
    RunOne(s, b);
    var x := (s.x + 1) % 256;
    var y := (s.y + s.m[x] as int) % 256;
    SwapExchanges(s.m, x, y);
    KeyAt(Next(s), s.m[x], s.m[y]);
  }

  lemma RunOne(s: State, b: byte)
    ensures Run(ArcStep(), s, [b]) == Result(ArcStep()(s, b).0, [ArcStep()(s, b).1])
  {
    hide ArcStep;
    assert [b][..0] == [];
    assert Run(ArcStep(), s, []) == Result(s, []);
  }

  lemma SwapExchanges(m: Table, i: Index, j: Index)
    ensures Exchanged(m, Swap(m, i, j), i, j) && Swap(m, i, j)[i] == m[j] && Swap(m, i, j)[j] == m[i]
  {}

  /** Output byte i is input byte i XOR a key stream byte that no input byte influences. */
  lemma KeyStream(s: State, p: seq<byte>, i: nat)
    requires i < |p|
    ensures Run(ArcStep(), s, p).out[i] == Xor(p[i], Key(After(s, i + 1)))
  {
    hide Next, Key, Xor;
    RunAt(ArcStep(), s, p, i);
    AfterRun(s, p[..i]);
  }

  /** After any amount of output the table is still a permutation. */
  lemma {:induction false} AfterPermutes(s: State, n: nat)
    requires Permutation(s.m)
    ensures Permutation(After(s, n).m)
  {
    hide Permutation, Swap;
    if n > 0 {
      AfterPermutes(s, n - 1);
      var b := After(s, n - 1);
      SwapPermutes(b.m, After(s, n).x, After(s, n).y);
    }
  }

  /** From setup on, for every key and every data. */
  lemma AlwaysPermutation(key: seq<byte>, p: seq<byte>)
    requires key != []
    ensures Permutation(Run(ArcStep(), Start(key), p).state.m)
  {
    hide Permutation, ArcStep;
    ScheduledPermutes(key, 256);
    AfterRun(Start(key), p);
    AfterPermutes(Start(key), |p|);
  }

  /** A second pass from the same context restores the data, however each pass is split over calls. */
  lemma RoundTrip(s: State, chunks: seq<seq<byte>>, again: seq<seq<byte>>)
    requires Flatten(again) == RunCalls(ArcStep(), s, chunks).out
    ensures RunCalls(ArcStep(), s, again).out == Flatten(chunks)
  {
    hide Xor, Next, Key;
    forall r: State, b: byte
      ensures ArcStep()(r, ArcStep()(r, b).1) == (ArcStep()(r, b).0, b)
    {
      XorCancel(Key(Next(r)), b);
    }
    RunUndoes(ArcStep(), ArcStep(), s, Flatten(chunks));
    CallsAreOneRun(ArcStep(), s, chunks);
    CallsAreOneRun(ArcStep(), s, again);
  }

  // ---- the context ----

  lemma KeyIndex(i: nat, n: nat)
    requires n > 0
    ensures (i + 1) % n == if i % n + 1 >= n then 0 else i % n + 1
  {
    if i % n + 1 >= n {
      MulNext(n, i / n);
      ModUnique(i + 1, n, i / n + 1, 0);
    } else {
      ModUnique(i + 1, n, i / n, i % n + 1);
    }
  }

  /** The key index k when round i starts, before it is wrapped. */
  function Reached(i: nat, n: nat): nat
    requires n > 0
  {
    if i == 0 then 0 else (i - 1) % n + 1
  }

  lemma ReachedKey(i: nat, key: seq<byte>)
    requires key != []
    ensures var k := if Reached(i, |key|) >= |key| then 0 else Reached(i, |key|);
            k < |key| && key[k] == KeyByte(key, i) && Reached(i + 1, |key|) == k + 1
    ensures Reached(0, |key|) == 0
  {
    if i > 0 {
      KeyIndex(i - 1, |key|);
    }
  }

  lemma MulNext(n: nat, q: nat)
    ensures n * (q + 1) == n * q + n
  {}

  class Arc4Context {
    var x: Index
    var y: Index
    const m: array<byte>

    constructor ()
      ensures fresh(m) && m.Length == 256
    {
      x, y, m := 0, 0, new byte[256];
    }

    ghost predicate Usable() { m.Length == 256 }

    ghost function Value(): State
      requires Usable()
      reads this, m
    {
      State(x, y, m[..])
    }

    /** mbedtls_arc4_setup. */
    method Setup(key: array<byte>)
      requires Usable() && key != m && key.Length > 0
      modifies this, m
      ensures Value() == Start(key[..])
    {
      hide Scheduled, RoundOf, Exchanged, Identity, Reached, KeyByte;
      x, y := 0, 0;
      Fill();
      var j: Index, k: nat := 0, 0;
      ScheduledStart(key[..]);
      ReachedKey(0, key[..]);
      for i := 0 to 256
        invariant 0 <= j < 256 && x == y == 0
        invariant k == Reached(i, key.Length)
        invariant Schedule(m[..], j) == Scheduled(key[..], i)
      {
        ReachedKey(i, key[..]);
        if k >= key.Length {
          k := 0;
        }
        j := Round(i, j, key[k]);
        ScheduledNext(key[..], i);
        k := k + 1;
      }
    }

    /** One round of the key schedule. */
    method Round(i: Index, j0: Index, k: byte) returns (j: Index)
      requires Usable()
      modifies m
      ensures j == (j0 + old(m[i]) as int + k as int) % 256
      ensures Exchanged(old(m[..]), m[..], i, j)
      ensures Schedule(m[..], j) == RoundOf(Schedule(old(m[..]), j0), i, k)
    {
      hide Swap, Exchanged;
      ghost var before := m[..];
      var a := m[i];
      j := (j0 + a as int + k as int) % 256;
      m[i] := m[j];
      m[j] := a;
      SwapStored(before, m[..], i, j);
      SwapExchanges(before, i, j);
    }

    method Fill()
      requires Usable()
      modifies m
      ensures m[..] == Identity()
    {
      for i := 0 to 256
        invariant forall k :: 0 <= k < i ==> m[k] == ByteOf(k)
      {
        m[i] := ByteOf(i);
      }
    }

    /** The table part of one turn of the cipher loop. */
    method Advance(x0: Index, y0: Index) returns (x1: Index, y1: Index, k: byte)
      requires Usable()
      modifies m
      ensures x1 == (x0 + 1) % 256 && y1 == (y0 + old(m[x1]) as int) % 256
      ensures Exchanged(old(m[..]), m[..], x1, y1) && k == m[(old(m[x1]) as int + old(m[y1]) as int) % 256]
      ensures State(x1, y1, m[..]) == Next(State(x0, y0, old(m[..])))
      ensures k == Key(State(x1, y1, m[..]))
    {
      hide Next, Key, Swap, Exchanged;
      ghost var s := State(x0, y0, m[..]);
      x1 := (x0 + 1) % 256;
      var a := m[x1];
      y1 := (y0 + a as int) % 256;
      var b := m[y1];
      NextAt(s);
      SwapExchanges(s.m, x1, y1);
      m[x1] := b;
      m[y1] := a;
      SwapStored(s.m, m[..], x1, y1);
      KeyAt(State(x1, y1, m[..]), a, b);
      k := m[(a as int + b as int) % 256];
    }

    /** mbedtls_arc4_crypt; input and output may be the same buffer. */
    method Crypt(length: nat, input: array<byte>, output: array<byte>)
      requires Usable() && input != m && output != m
      requires length <= input.Length && length <= output.Length
      modifies this, m, output
      ensures Value() == Run(ArcStep(), old(Value()), old(input[..length])).state
      ensures output[..] == Run(ArcStep(), old(Value()), old(input[..length])).out + old(output[length..])
    {
      hide Xor, Next, Key, ArcStep;
      var x': Index, y': Index := x, y;
      ghost var p, s0 := input[..length], Value();
      for i := 0 to length
        invariant Run(ArcStep(), s0, p[..i]) == Result(State(x', y', m[..]), output[..i])
        invariant output[i..] == old(output[i..])
        invariant input[i..length] == p[i..]
      {
        ghost var before, s := output[..], State(x', y', m[..]);
        NextInput(input[..], p, i);
        RunNext(ArcStep(), s0, p, i, s, output[..i]);
        var k;
        x', y', k := Advance(x', y');
        NextAt(s);
        output[i] := Xor(input[i], k);
        NextOutput(before, i, output[i]);
      }
      x, y := x', y';
      assert p[..length] == p;
      assert output[..] == output[..length] + output[length..];
    }
  }

  lemma ScheduledStart(key: seq<byte>)
    requires key != []
    ensures Scheduled(key, 0) == Schedule(Identity(), 0)
  {}

  lemma ScheduledNext(key: seq<byte>, i: nat)
    requires key != [] && i < 256
    ensures Scheduled(key, i + 1) == RoundOf(Scheduled(key, i), i, KeyByte(key, i))
  {
    hide RoundOf, KeyByte;
  }

  lemma SwapStored(before: Table, after: seq<byte>, i: Index, j: Index)
    requires after == before[i := before[j]][j := before[i]]
    ensures after == Swap(before, i, j)
  {}

  /** One round of setup, from the definition of the key schedule: j moves on by entry i and key byte i mod the key
      length, and the two entries are exchanged. */
  lemma OneRound(key: seq<byte>, i: nat)
    requires key != [] && i < 256
    ensures var s, t := Scheduled(key, i), Scheduled(key, i + 1);
            t.j == (s.j + s.m[i] as int + key[i % |key|] as int) % 256 && Exchanged(s.m, t.m, i, t.j)
  {
    hide Scheduled, Swap, Exchanged;
    ScheduledNext(key, i);
    SwapExchanges(Scheduled(key, i).m, i, Scheduled(key, i + 1).j);
  }

  /** A key whose rounds exchange nothing: byte i is 1 - i modulo 256, and byte 0 is 0. */
  function StillByte(i: Index): (b: byte)
    ensures b as int == if i <= 1 then 0 else 257 - i
  {
    ByteOf(if i <= 1 then 0 else 257 - i)
  }

  function StillKey(): (key: seq<byte>)
    ensures |key| == 256
  {
    seq(256, i requires 0 <= i < 256 => StillByte(i))
  }

  lemma StillIndex(j: Index, entry: byte, n: Index)
    requires entry as int == n && j == (if n == 0 then 0 else n - 1)
    ensures (j + entry as int + StillByte(n) as int) % 256 == n
  {
    hide StillByte;
  }

  lemma StillKeyAt(i: Index)
    ensures KeyByte(StillKey(), i) == StillByte(i)
  {
    hide StillByte;
    KeyByteFirst(StillKey(), i);
  }

  lemma StillRound(m: Table, j: Index, i: Index)
    requires m[i] as int == i && j == (if i == 0 then 0 else i - 1)
    ensures RoundOf(Schedule(m, j), i, StillByte(i)) == Schedule(m, i)
  {
    hide StillByte, Swap;
    StillIndex(j, m[i], i);
    SwapNothing(m, i);
  }

  lemma {:induction false} StillRounds(i: nat)
    requires i <= 256
    ensures Scheduled(StillKey(), i) == Schedule(Identity(), if i == 0 then 0 else i - 1)
  {
    hide Scheduled, StillKey, Identity, RoundOf, KeyByte, StillByte;
    if i == 0 {
      ScheduledStart(StillKey());
    } else {
      StillRounds(i - 1);
      StillKeyAt(i - 1);
      ScheduledNext(StillKey(), i - 1);
      IdentityAt(i - 1);
      StillRound(Identity(), if i == 1 then 0 else i - 2, i - 1);
    }
  }

  lemma SwapNothing(m: Table, i: Index)
    ensures Swap(m, i, i) == m
  {}

  lemma IdentityAt(k: Index)
    ensures Identity()[k] as int == k
  {}

  lemma SameEntry(m: Table, k: Index, b: byte)
    requires m[k] as int == b as int
    ensures m[k] == b
  {
    ByteIntInjective(m[k], b);
  }

  /** The first three states from the unchanged table. */
  lemma FirstKeys()
    ensures var s0 := State(0, 0, Identity());
            Key(After(s0, 1)) == 2 && Key(After(s0, 2)) == 5 && Key(After(s0, 3)) == 7
  {
    hide Identity, Next, Key, Swap;
    var m := Identity();
    IdentityAt(1);
    IdentityAt(2);
    IdentityAt(3);
    IdentityAt(5);
    IdentityAt(7);
    SameEntry(m, 1, 1);
    SameEntry(m, 2, 2);
    SameEntry(m, 3, 3);
    SameEntry(m, 5, 5);
    SameEntry(m, 7, 7);
    var s0, s1 := State(0, 0, m), State(1, 1, m);
    NextAt(s0);
    SwapNothing(m, 1);
    assert After(s0, 1) == s1;
    KeyAt(s1, 1, 1);
    NextAt(s1);
    var s2 := State(2, 3, Swap(m, 2, 3));
    SwapExchanges(m, 2, 3);
    assert After(s0, 2) == s2;
    KeyAt(s2, 2, 3);
    NextAt(s2);
    var s3 := State(3, 5, Swap(s2.m, 3, 5));
    SwapExchanges(s2.m, 3, 5);
    assert After(s0, 3) == s3;
    KeyAt(s3, 2, 5);
  }

  /** A known answer: under that key the key stream starts 02, 05, 07. */
  lemma StillKeyStream()
    ensures Run(ArcStep(), Start(StillKey()), [0, 0, 0]).out == [2, 5, 7]
  {
    hide ArcStep, Key, Run, Identity, Scheduled, StillKey, After;
    var s0, p := Start(StillKey()), [0, 0, 0];
    StillRounds(256);
    FirstKeys();
    KeyStream(s0, p, 0);
    KeyStream(s0, p, 1);
    KeyStream(s0, p, 2);
    XorZero(2);
    XorZero(5);
    XorZero(7);
  }

  lemma NextAt(s: State)
    ensures var x := (s.x + 1) % 256;
            var y := (s.y + s.m[x] as int) % 256;
            Next(s) == State(x, y, Swap(s.m, x, y))
    ensures forall b :: ArcStep()(s, b) == (Next(s), Xor(b, Key(Next(s))))
  {}

  lemma KeyAt(s: State, a: byte, b: byte)
    requires s.m[s.x] == b && s.m[s.y] == a
    ensures Key(s) == s.m[(a as int + b as int) % 256]
  {}
}
