/** The frame count nf of the jitter buffer against the timestamps in it. */
module JbufFrames {
  import opened Arith
  import opened JbufState
  import opened JbufSound

  // ---- frames ----

  function Ts(p: Packet): u32 { p.hdr.ts }

  /** Maximal stretches of neighbours with one timestamp. */
  function Runs(packets: seq<Packet>): nat {
    if |packets| == 0 then 0
    else if |packets| == 1 then 1
    else (if Ts(packets[0]) == Ts(packets[1]) then 0 else 1) + Runs(packets[1..])
  }

  function Timestamps(packets: seq<Packet>): set<u32> { set i | 0 <= i < |packets| :: Ts(packets[i]) }

  /** Timestamps go with sequence numbers: the packets of a frame are neighbours. */
  predicate Grouped(packets: seq<Packet>) {
    forall i, j, k :: 0 <= i < j < k < |packets| && Ts(packets[i]) == Ts(packets[k]) ==>
      Ts(packets[j]) == Ts(packets[i])
  }

  lemma TimestampsFirst(packets: seq<Packet>)
    requires packets != []
    ensures Timestamps(packets) == {Ts(packets[0])} + Timestamps(packets[1..])
  {
    var rest := packets[1..];
    forall t | t in Timestamps(packets)
      ensures t in {Ts(packets[0])} + Timestamps(rest)
    {
      var i :| 0 <= i < |packets| && Ts(packets[i]) == t;
      if i > 0 {
        assert rest[i - 1] == packets[i];
      }
    }
    forall t | t in Timestamps(rest)
      ensures t in Timestamps(packets)
    {
      var i :| 0 <= i < |rest| && Ts(rest[i]) == t;
      assert packets[i + 1] == rest[i];
    }
  }

  lemma GroupedTail(packets: seq<Packet>)
    requires Grouped(packets) && packets != []
    ensures Grouped(packets[1..])
  {
    var rest := packets[1..];
    forall i, j, k | 0 <= i < j < k < |rest| && Ts(rest[i]) == Ts(rest[k])
      ensures Ts(rest[j]) == Ts(rest[i])
    {
      assert rest[i] == packets[i + 1] && rest[j] == packets[j + 1] && rest[k] == packets[k + 1];
    }
  }

  /** The first timestamp comes again exactly when the second packet has it. */
  lemma FirstAgain(packets: seq<Packet>)
    requires Grouped(packets) && |packets| > 1
    ensures Ts(packets[0]) in Timestamps(packets[1..]) <==> Ts(packets[0]) == Ts(packets[1])
  {
    hide Ts;
    var rest := packets[1..];
    assert rest[0] == packets[1];
    if Ts(packets[0]) in Timestamps(rest) {
      var i :| 0 <= i < |rest| && Ts(rest[i]) == Ts(packets[0]);
      assert rest[i] == packets[i + 1];
    }
  }

  lemma NoTimestamps()
    ensures Timestamps([]) == {}
  {}

  lemma OneMore(t: u32, ts: set<u32>)
    ensures |{t} + ts| == |ts| + if t in ts then 0 else 1
  {
    if t in ts {
      assert {t} + ts == ts;
    }
  }

  /** With timestamps in order the stretches are the distinct timestamps. */
  lemma {:induction false} RunsAreTimestamps(packets: seq<Packet>)
    requires Grouped(packets)
    ensures Runs(packets) == |Timestamps(packets)|
  {
    hide Ts, Timestamps, Grouped;
    NoTimestamps();
    if packets != [] {
      var rest := packets[1..];
      GroupedTail(packets);
      RunsAreTimestamps(rest);
      TimestampsFirst(packets);
      OneMore(Ts(packets[0]), Timestamps(rest));
      if rest != [] {
        FirstAgain(packets);
      }
    }
  }

  /** Joining two stretches of packets. */
  predicate Joined(a: seq<Packet>, b: seq<Packet>) { a != [] && b != [] && Ts(a[|a| - 1]) == Ts(b[0]) }

  lemma {:induction false} RunsConcat(a: seq<Packet>, b: seq<Packet>)
    ensures Runs(a + b) == Runs(a) + Runs(b) - (if Joined(a, b) then 1 else 0)
    decreases |a|
  {
    hide Ts;
    if a == [] {
      assert a + b == b;
    } else {
      RunsConcat(a[1..], b);
      assert (a + b)[1..] == a[1..] + b;
      if |a| == 1 {
        assert a[1..] + b == b;
      } else {
        assert (a + b)[1] == a[1];
      }
    }
  }

  /** The new packet comes between two packets of one other frame. */
  predicate Splits(packets: seq<Packet>, i: nat, ts: u32)
    requires i <= |packets|
  {
    0 < i < |packets| && Ts(packets[i - 1]) == Ts(packets[i]) != ts
  }

  lemma RunsAround(a: seq<Packet>, p: Packet, b: seq<Packet>)
    ensures Runs(a + [p] + b) == Runs(a + b) + 1 + (if Joined(a, b) then 1 else 0)
              - (if Joined(a, [p]) then 1 else 0) - (if Joined([p], b) then 1 else 0)
  {
    hide Runs;
    RunsConcat(a, b);
    RunsConcat(a, [p]);
    RunsConcat(a + [p], b);
    RunsOne(p);
    assert (a + [p])[|a + [p]| - 1] == p;
  }

  lemma RunsOne(p: Packet)
    ensures Runs([p]) == 1
  {}

  lemma RunsBetween(a: seq<Packet>, p: Packet, b: seq<Packet>)
    ensures Runs(a + [p] + b) == Runs(a + b)
              + if Joined(a, [p]) || Joined([p], b) then 0 else if Joined(a, b) then 2 else 1
  {
    hide Runs, Ts;
    RunsAround(a, p, b);
  }

  lemma JoinedAt(packets: seq<Packet>, i: nat, p: Packet)
    requires i <= |packets|
    ensures SameFrame(packets, i, Ts(p)) <==> Joined(packets[..i], [p]) || Joined([p], packets[i..])
    ensures Splits(packets, i, Ts(p)) <==> Joined(packets[..i], packets[i..]) && !Joined(packets[..i], [p])
    ensures Joined(packets[..i], packets[i..]) ==> (Joined(packets[..i], [p]) <==> Joined([p], packets[i..]))
  {}

  /** What one more packet does to the stretches. */
  lemma RunsInserted(packets: seq<Packet>, i: nat, p: Packet)
    requires i <= |packets|
    ensures Runs(Inserted(packets, i, p)) == Runs(packets)
              + if SameFrame(packets, i, Ts(p)) then 0 else if Splits(packets, i, Ts(p)) then 2 else 1
  {
    hide Runs, Joined, SameFrame, Splits, Ts;
    RunsBetween(packets[..i], p, packets[i..]);
    JoinedAt(packets, i, p);
    assert packets[..i] + packets[i..] == packets;
  }

  lemma GroupedNeverSplits(packets: seq<Packet>, i: nat, p: Packet)
    requires i <= |packets| && Grouped(Inserted(packets, i, p))
    ensures !Splits(packets, i, Ts(p))
  {
    var r := Inserted(packets, i, p);
    if 0 < i < |packets| {
      assert r[i - 1] == packets[i - 1] && r[i] == p && r[i + 1] == packets[i];
    }
  }

  // ---- the count ----

  /** nf counts the buffered frames and the frames that stealing has removed since the last flush. */
  ghost predicate Counts(s: State, stolen: nat) { s.nf == (Runs(s.packets) + stolen) % TWO32 }

  /** Stealing the oldest packet removes the last packet of its frame. */
  predicate StealsFrame(s: State) {
    s.pool == [] && s.packets != [] && (|s.packets| == 1 || Ts(s.packets[0]) != Ts(s.packets[1]))
  }

  lemma AllocCounts(s: State, stolen: nat)
    requires Counts(s, stolen) && HasCells(s)
    ensures Counts(Alloc(s).0, if StealsFrame(s) then stolen + 1 else stolen)
  {}

  /** A stored packet keeps the count exactly when it does not come between two packets of one frame. */
  lemma StoreCountsIff(s: State, cell: nat, h: Header, mem: int, stolen: nat)
    requires Counts(s, stolen)
    ensures Counts(Store(s, cell, h, mem).0, stolen)
       <==> PlaceIn(s.packets, h.sn).Duplicate? || !Splits(s.packets, PlaceIn(s.packets, h.sn).index, h.ts)
  {
    hide Runs, SameFrame, Splits, PlaceIn;
    var spot := PlaceIn(s.packets, h.sn);
    if spot.Insert? {
      RunsInserted(s.packets, spot.index, Packet(cell, h, mem));
      SplitsIsNoNeighbour(s.packets, spot.index, h.ts);
      IncCounts(s.nf, Runs(s.packets) + stolen);
    }
  }

  /** A put into a fixed buffer with room, from which nothing was played. */
  lemma PutWithRoom(s: State, h: Header, mem: int, now: u64, u: Undefined, i: nat)
    requires s.jbtype == Fixed && s.seqGet == 0 && s.pool != [] && s.n < 3
    requires (s.ssrc == 0 || s.ssrc == h.ssrc) && (s.tr == 0 || !h.m) && PlaceIn(s.packets, h.sn) == Insert(i)
    ensures var r := Put(s, h, mem, now, u).0;
            && r.packets == Inserted(s.packets, i, Packet(s.pool[0], h, mem)) && r.pool == s.pool[1..]
            && r.n == s.n + 1 && r.nf == (if SameFrame(s.packets, i, h.ts) then s.nf else Inc(s.nf))
            && r.jbtype == Fixed && r.seqGet == 0 && r.ssrc == h.ssrc
  {
    hide PlaceIn, SameFrame, Flush;
  }

  /** Packet 2 of another frame comes between packets 1 and 3 of one: two frames are counted where there are
      three stretches. */
  lemma SplitMiscounts(h1: Header, h3: Header, h2: Header, mem: int, now: u64, u: Undefined)
    requires h1.sn == 1 && h3.sn == 3 && h2.sn == 2 && h1.ts == h3.ts != h2.ts
    requires h1.ssrc == h3.ssrc == h2.ssrc && !h3.m && !h2.m
    ensures var s1 := Put(NewBuffer(0, 3, Fixed), h1, mem, now, u).0;
            HasCells(s1) &&
            var s3 := Put(s1, h3, mem, now, u).0;
            HasCells(s3) &&
            var s2 := Put(s3, h2, mem, now, u).0;
            && s2.packets == [Packet(0, h1, mem), Packet(2, h2, mem), Packet(1, h3, mem)]
            && s2.n == 3 && s2.nf == 2 && Runs(s2.packets) == 3
  {
    hide Put;
    var s0 := NewBuffer(0, 3, Fixed);
    var p1, p2, p3 := Packet(0, h1, mem), Packet(2, h2, mem), Packet(1, h3, mem);
    assert s0.pool == [0, 1, 2];
    PutWithRoom(s0, h1, mem, now, u, 0);
    var s1 := Put(s0, h1, mem, now, u).0;
    assert s1.packets == [p1];
    PutWithRoom(s1, h3, mem, now, u, 1);
    var s3 := Put(s1, h3, mem, now, u).0;
    assert s3.packets == [p1, p3];
    assert Place([p1, p3], 2, 1) == Insert(1);
    PutWithRoom(s3, h2, mem, now, u, 1);
    assert Inserted(s3.packets, 1, p2) == [p1, p2, p3];
    ThreeRuns(p1, p2, p3);
  }

  lemma ThreeRuns(p1: Packet, p2: Packet, p3: Packet)
    requires Ts(p1) != Ts(p2) && Ts(p2) != Ts(p3)
    ensures Runs([p1, p2, p3]) == 3
  {
    assert [p1, p2, p3][1..] == [p2, p3] && [p2, p3][1..] == [p3];
    assert Runs([p2, p3]) == 2;
  }

  lemma ThreeDrains(s: State)
    requires |s.packets| == s.n == 3 && s.nf == 2
    requires Ts(s.packets[0]) != Ts(s.packets[1]) && Ts(s.packets[1]) != Ts(s.packets[2])
    ensures var r := Drain(Drain(Drain(s).0).0).0; r.packets == [] && r.n == 0 && r.nf == 0xFFFF_FFFF
  {
    var r1 := Drain(s).0;
    assert r1.packets == s.packets[1..] && r1.n == 2 && r1.nf == 1;
    var r2 := Drain(r1).0;
    assert r2.packets == s.packets[2..] && r2.n == 1 && r2.nf == 0;
  }

  /** The input that shows the failing half: draining those three packets takes nf below zero, and the empty
      buffer counts 2^32 - 1 frames. */
  lemma SplitUnderflows(h1: Header, h3: Header, h2: Header, mem: int, now: u64, u: Undefined)
    requires h1.sn == 1 && h3.sn == 3 && h2.sn == 2 && h1.ts == h3.ts != h2.ts
    requires h1.ssrc == h3.ssrc == h2.ssrc && !h3.m && !h2.m
    ensures var s1 := Put(NewBuffer(0, 3, Fixed), h1, mem, now, u).0;
            HasCells(s1) &&
            var s3 := Put(s1, h3, mem, now, u).0;
            HasCells(s3) &&
            var r := Drain(Drain(Drain(Put(s3, h2, mem, now, u).0).0).0).0;
            r.packets == [] && r.n == 0 && r.nf == 0xFFFF_FFFF
  {
    hide Put, Drain;
    SplitMiscounts(h1, h3, h2, mem, now, u);
    var s1 := Put(NewBuffer(0, 3, Fixed), h1, mem, now, u).0;
    ThreeDrains(Put(Put(s1, h3, mem, now, u).0, h2, mem, now, u).0);
  }

  lemma SplitsIsNoNeighbour(packets: seq<Packet>, i: nat, ts: u32)
    requires i <= |packets|
    ensures Splits(packets, i, ts) ==> !SameFrame(packets, i, ts)
  {}

  lemma IncCounts(nf: u32, count: nat)
    requires nf == count % TWO32
    ensures Inc(nf) == (count + 1) % TWO32 && Inc(nf) != (count + 2) % TWO32
    ensures count > 0 ==> Dec(nf) == (count - 1) % TWO32
  {
    var q := count / TWO32;
    assert count == TWO32 * q + nf;
    if nf + 1 < TWO32 {
      ModUnique(count + 1, TWO32, q, nf + 1);
    } else {
      ModUnique(count + 1, TWO32, q + 1, 0);
    }
    if nf > 0 && count > 0 {
      ModUnique(count - 1, TWO32, q, nf - 1);
    } else if count > 0 {
      ModUnique(count - 1, TWO32, q - 1, TWO32 - 1);
    }
  }

  lemma PlayCounts(s: State, stolen: nat)
    requires Counts(s, stolen) && s.packets != []
    ensures Counts(Play(s), stolen)
  {
    IncCounts(s.nf, Runs(s.packets) + stolen);
    assert s.packets[..0] + s.packets[1..] == s.packets[1..];
  }

  /** While fewer than 2^32 - max frames have been stolen, nf is exactly frames plus stolen frames, so
      decrementing it for a buffered packet never goes below zero; and it is zero for an empty buffer
      exactly when nothing was stolen. */
  lemma CountIsExact(s: State, stolen: nat, cells: multiset<nat>)
    requires Counts(s, stolen) && Sound(s, cells) && stolen + s.max < TWO32
    ensures s.nf == Runs(s.packets) + stolen
    ensures s.packets != [] ==> s.nf > 0
    ensures Grouped(s.packets) ==> s.nf == |Timestamps(s.packets)| + stolen
    ensures s.n == 0 ==> (s.nf == 0 <==> stolen == 0)
  {
    hide Ts;
    PoolSize(s, cells);
    RunsBound(s.packets);
    if Grouped(s.packets) {
      RunsAreTimestamps(s.packets);
    }
  }

  lemma {:induction false} RunsBound(packets: seq<Packet>)
    ensures Runs(packets) <= |packets| && (packets != [] ==> Runs(packets) > 0)
  {
    if packets != [] {
      RunsBound(packets[1..]);
    }
  }

  // ---- whole runs ----

  /** The frames stolen since the last flush, after one more event. */
  function Stolen(s: State, e: Event, stolen: nat): nat
    requires HasCells(s)
  {
    match e
    case PutEvent(h, mem, now, u) =>
      var s1 := Arrive(s, h, now);
      (if ArriveFlushes(s, h, now) then 0 else stolen) + (if !Late(s1, h.sn) && StealsFrame(s1) then 1 else 0)
    case FlushEvent => 0
    case _ => stolen
  }

  /** Packets keep the timestamp order when they arrive. */
  ghost predicate OrderedStep(s: State, e: Event)
    requires HasCells(s)
  {
    e.PutEvent? ==> Grouped(Put(s, e.h, e.mem, e.now, e.u).0.packets)
  }

  lemma PutCounts(s: State, h: Header, mem: int, now: u64, u: Undefined, stolen: nat, cells: multiset<nat>)
    requires Sound(s, cells) && HasCells(s) && Counts(s, stolen)
    requires Grouped(PutLocked(s, h, mem, now, u).0.packets)
    ensures Counts(PutLocked(s, h, mem, now, u).0, stolen + if !Late(s, h.sn) && StealsFrame(s) then 1 else 0)
  {
    hide Conserved, NeighboursOrdered, CalcRdiff, Grouped, PlaceIn, SameFrame, Splits, Runs, Alloc;
    var s1 := if s.running && s.jbtype == Adaptive then CalcRdiff(s, h.sn, now, u) else s;
    CalcRdiffKeeps(s, h.sn, now, u);
    if !Late(s1, h.sn) {
      AllocCounts(s1, stolen);
      var (s2, cell) := Alloc(s1);
      StoreCountsIff(s2, cell, h, mem, if StealsFrame(s1) then stolen + 1 else stolen);
      if PlaceIn(s2.packets, h.sn).Insert? {
        GroupedNeverSplits(s2.packets, PlaceIn(s2.packets, h.sn).index, Packet(cell, h, mem));
      }
    }
  }

  lemma StepCounts(s: State, e: Event, stolen: nat, cells: multiset<nat>)
    requires Sound(s, cells) && HasCells(s) && Counts(s, stolen) && OrderedStep(s, e)
    ensures Counts(Step(s, e).0, Stolen(s, e, stolen))
  {
    hide Sound, PutLocked, Arrive, Flush, Play, Runs, Grouped, StealsFrame, Late;
    match e {
      case PutEvent(h, mem, now, u) =>
        ArriveHasCells(s, h, now);
        ArriveSound(s, h, now, cells);
        ArriveEffect(s, h, now, cells);
        NoRuns();
        PutCounts(Arrive(s, h, now), h, mem, now, u, if ArriveFlushes(s, h, now) then 0 else stolen, cells);
      case GetEvent =>
        if s.packets != [] {
          PlayCounts(s, stolen);
        }
      case DrainEvent =>
        if s.packets != [] {
          PlayCounts(s, stolen);
        }
      case FlushEvent =>
        FlushSound(s, cells);
        NoRuns();
      case WishDownEvent =>
    }
  }

  lemma NoRuns()
    ensures Runs([]) == 0
  {}

  ghost predicate OrderedRun(s: State, es: seq<Event>, cells: multiset<nat>)
    requires Sound(s, cells)
    decreases |es|
  {
    SoundHasCells(s, cells);
    es != [] ==>
      OrderedStep(s, es[0]) && (StepSound(s, es[0], cells); OrderedRun(Step(s, es[0]).0, es[1..], cells))
  }

  /** The frames stolen since the last flush, after a run. */
  ghost function StolenAfter(s: State, es: seq<Event>, stolen: nat, cells: multiset<nat>): nat
    requires Sound(s, cells)
    decreases |es|
  {
    SoundHasCells(s, cells);
    if es == [] then stolen
    else
      StepSound(s, es[0], cells);
      StolenAfter(Step(s, es[0]).0, es[1..], Stolen(s, es[0], stolen), cells)
  }

  /** Only puts can separate the packets of a frame. */
  lemma StepGrouped(s: State, e: Event, cells: multiset<nat>)
    requires Sound(s, cells) && HasCells(s) && Grouped(s.packets) && OrderedStep(s, e)
    ensures Grouped(Step(s, e).0.packets)
  {
    hide Sound, Put, Flush, Play, Grouped;
    NoneGrouped();
    match e {
      case PutEvent(_, _, _, _) =>
      case GetEvent =>
        if s.packets != [] {
          PlaySound(s, cells);
          GroupedTail(s.packets);
        }
      case DrainEvent =>
        if s.packets != [] {
          PlaySound(s, cells);
          GroupedTail(s.packets);
        }
      case FlushEvent =>
        FlushSound(s, cells);
      case WishDownEvent =>
    }
  }

  lemma NoneGrouped()
    ensures Grouped([])
  {}

  lemma {:induction false} RunCounts(s: State, es: seq<Event>, stolen: nat, cells: multiset<nat>)
    requires Sound(s, cells) && Counts(s, stolen) && Grouped(s.packets) && OrderedRun(s, es, cells)
    ensures Counts(After(s, es, cells), StolenAfter(s, es, stolen, cells)) && Grouped(After(s, es, cells).packets)
    decreases |es|
  {
    hide Sound, HasCells, Counts, Step, OrderedStep, Stolen, Grouped;
    if es != [] {
      SoundHasCells(s, cells);
      StepSound(s, es[0], cells);
      StepCounts(s, es[0], stolen, cells);
      StepGrouped(s, es[0], cells);
      RunCounts(Step(s, es[0]).0, es[1..], Stolen(s, es[0], stolen), cells);
      AfterFirst(s, es, cells);
    }
  }

  /** In every state a run with ordered timestamps reaches, nf is the number of distinct timestamps in the
      buffer plus the frames stealing has removed since the last flush. */
  lemma FramesAreCounted(min: u32, max: u32, jbtype: JbType, es: seq<Event>)
    requires min <= max && max >= 1
    requires var s0 := NewBuffer(min, max, jbtype);
             Sound(s0, multiset(s0.pool)) && OrderedRun(s0, es, multiset(s0.pool))
    ensures var s0 := NewBuffer(min, max, jbtype);
            var s, stolen := After(s0, es, multiset(s0.pool)), StolenAfter(s0, es, 0, multiset(s0.pool));
            stolen + max < TWO32 ==>
              s.nf == |Timestamps(s.packets)| + stolen == Runs(s.packets) + stolen && (s.packets != [] ==> s.nf > 0)
  {
    hide Sound, Runs, OrderedRun, Timestamps, Grouped;
    var s0 := NewBuffer(min, max, jbtype);
    NoRuns();
    NoneGrouped();
    RunCounts(s0, es, 0, multiset(s0.pool));
    AfterConstants(s0, es, multiset(s0.pool));
    var s, stolen := After(s0, es, multiset(s0.pool)), StolenAfter(s0, es, 0, multiset(s0.pool));
    if stolen + max < TWO32 {
      CountIsExact(s, stolen, multiset(s0.pool));
    }
  }
}
