/** What every jitter buffer operation keeps on every input: no list node is lost or duplicated, the
    packet count is right, neighbours are in sequence order, and wish stays at least min. */
module JbufSound {
  import opened JbufState

  // ---- the order of sequence numbers ----

  lemma SeqLessFlip(x: u16, y: u16)
    ensures x != y && !SeqLess(x, y) ==> SeqLess(y, x)
    ensures !SeqLess(x, x)
  {}

  /** Where the search from the tail ends. */
  lemma {:induction false} PlaceIs(packets: seq<Packet>, sn: u16, k: nat)
    requires k <= |packets|
    ensures var r := Place(packets, sn, k);
            && r.index <= k
            && (forall j :: (if r.Insert? then r.index else r.index + 1) <= j < k ==>
                  !SeqLess(packets[j].hdr.sn, sn) && packets[j].hdr.sn != sn)
            && (r.Insert? && r.index > 0 ==> SeqLess(packets[r.index - 1].hdr.sn, sn))
            && (r.Duplicate? ==> r.index < k && packets[r.index].hdr.sn == sn)
  {
    hide SeqLess;
    if k > 0 {
      PlaceIs(packets, sn, k - 1);
    }
  }

  function Inserted(packets: seq<Packet>, i: nat, p: Packet): (r: seq<Packet>)
    requires i <= |packets|
    ensures |r| == |packets| + 1
  {
    packets[..i] + [p] + packets[i..]
  }

  /** Insertion keeps neighbours ordered. */
  lemma InsertOrdered(packets: seq<Packet>, p: Packet)
    requires NeighboursOrdered(packets) && PlaceIn(packets, p.hdr.sn).Insert?
    ensures NeighboursOrdered(Inserted(packets, PlaceIn(packets, p.hdr.sn).index, p))
  {
    hide SeqLess;
    var i := PlaceIn(packets, p.hdr.sn).index;
    PlaceIs(packets, p.hdr.sn, |packets|);
    if i < |packets| {
      SeqLessFlip(packets[i].hdr.sn, p.hdr.sn);
    }
    var r := Inserted(packets, i, p);
    forall j | 0 < j < |r|
      ensures SeqLess(r[j - 1].hdr.sn, r[j].hdr.sn)
    {
      if j > i + 1 {
        assert r[j] == packets[j - 1] && r[j - 1] == packets[j - 2];
        assert SeqLess(packets[j - 1 - 1].hdr.sn, packets[j - 1].hdr.sn);
      }
    }
  }

  lemma DropOrdered(packets: seq<Packet>)
    requires NeighboursOrdered(packets) && packets != []
    ensures NeighboursOrdered(packets[1..])
  {
    hide SeqLess;
    var r := packets[1..];
    forall j | 0 < j < |r|
      ensures SeqLess(r[j - 1].hdr.sn, r[j].hdr.sn)
    {
      assert SeqLess(packets[j + 1 - 1].hdr.sn, packets[j + 1].hdr.sn);
    }
  }

  // ---- conservation ----

  lemma Without(a: seq<nat>, i: nat)
    requires i < |a|
    ensures multiset(a) == multiset(a[..i] + a[i + 1..]) + multiset{a[i]}
  {
    assert a == a[..i] + [a[i]] + a[i + 1..];
  }

  lemma PoolSize(s: State, cells: multiset<nat>)
    requires Conserved(s, cells)
    ensures |s.pool| + |s.packets| == s.max && s.n <= s.max
    ensures s.pool != [] || s.packets != []
  {
    assert |multiset(Cells(s))| == |Cells(s)|;
  }

  /** packet_alloc takes one cell out of circulation. */
  ghost predicate OneOut(s: State, cell: nat, cells: multiset<nat>) {
    && multiset(Cells(s)) + multiset{cell} == cells && |cells| == s.max >= 1
    && s.n == |s.packets| + 1
  }

  lemma CellsTail(packets: seq<Packet>)
    requires packets != []
    ensures CellsOf(packets) == [packets[0].cell] + CellsOf(packets[1..])
  {}

  lemma CellsInserted(packets: seq<Packet>, i: nat, p: Packet)
    requires i <= |packets|
    ensures CellsOf(Inserted(packets, i, p)) == CellsOf(packets)[..i] + [p.cell] + CellsOf(packets)[i..]
  {}

  lemma BagHead(c: nat, rest: seq<nat>)
    ensures multiset([c] + rest) == multiset(rest) + multiset{c}
  {
    var a := [c] + rest;
    Without(a, 0);
    assert a[..0] + a[1..] == rest;
  }

  lemma BagMiddle(a: seq<nat>, c: nat, b: seq<nat>)
    ensures multiset(a + [c] + b) == multiset(a + b) + multiset{c}
  {
    var all := a + [c] + b;
    Without(all, |a|);
    assert all[..|a|] + all[|a| + 1..] == a + b;
  }

  lemma AllocPool(s: State)
    requires s.pool != []
    ensures multiset(Cells(s)) == multiset(Cells(Alloc(s).0)) + multiset{Alloc(s).1}
  {
    hide CellsOf;
    BagHead(s.pool[0], s.pool[1..] + CellsOf(s.packets));
    assert [s.pool[0]] + (s.pool[1..] + CellsOf(s.packets)) == Cells(s);
  }

  lemma AllocOldest(s: State)
    requires s.pool == [] && s.packets != []
    ensures multiset(Cells(s)) == multiset(Cells(Alloc(s).0)) + multiset{Alloc(s).1}
  {
    hide CellsOf;
    CellsTail(s.packets);
    BagHead(s.packets[0].cell, CellsOf(s.packets[1..]));
    assert [] + CellsOf(s.packets) == CellsOf(s.packets) && [] + CellsOf(s.packets[1..]) == CellsOf(s.packets[1..]);
  }

  lemma AllocConserves(s: State, cells: multiset<nat>)
    requires Conserved(s, cells) && HasCells(s)
    ensures OneOut(Alloc(s).0, Alloc(s).1, cells)
  {
    hide Cells;
    PoolSize(s, cells);
    if s.pool != [] {
      AllocPool(s);
    } else {
      AllocOldest(s);
    }
  }

  lemma StoreConserves(s: State, cell: nat, h: Header, mem: int, cells: multiset<nat>)
    requires OneOut(s, cell, cells)
    ensures Conserved(Store(s, cell, h, mem).0, cells)
  {
    hide SeqLess, SameFrame, PlaceIn, CellsOf;
    var spot := PlaceIn(s.packets, h.sn);
    var cs := CellsOf(s.packets);
    if spot.Insert? {
      var i := spot.index;
      CellsInserted(s.packets, i, Packet(cell, h, mem));
      BagInserted(s.pool, cs, i, cell);
    } else {
      BagMiddle(s.pool, cell, cs);
    }
  }

  lemma BagInserted(pool: seq<nat>, cs: seq<nat>, i: nat, c: nat)
    requires i <= |cs|
    ensures multiset(pool + (cs[..i] + [c] + cs[i..])) == multiset(pool + cs) + multiset{c}
  {
    BagMiddle(pool + cs[..i], c, cs[i..]);
    assert pool + cs[..i] + [c] + cs[i..] == pool + (cs[..i] + [c] + cs[i..]);
    assert pool + cs[..i] + cs[i..] == pool + cs;
  }

  lemma DerefConserves(s: State, cells: multiset<nat>)
    requires Conserved(s, cells) && s.packets != []
    ensures Conserved(Deref(s, 0), cells)
  {
    assert Cells(Deref(s, 0)) == Cells(s);
  }

  lemma {:induction false} FlushConserves(s: State, cells: multiset<nat>)
    requires Conserved(s, cells)
    ensures Conserved(FlushList(s), cells) && FlushList(s).packets == []
    ensures FlushList(s) == s.(pool := FlushList(s).pool, packets := [], n := FlushList(s).n)
    decreases |s.packets|
  {
    hide Conserved;
    if s.packets != [] {
      DerefConserves(s, cells);
      FlushConserves(Deref(s, 0), cells);
    }
  }

  // ---- every operation is sound ----

  lemma FlushSound(s: State, cells: multiset<nat>)
    requires Sound(s, cells)
    ensures Sound(Flush(s), cells) && Flush(s).packets == []
    ensures Flush(s) == s.(pool := Flush(s).pool, packets := [], n := 0, nf := 0, running := false, seqGet := 0)
  {
    FlushConserves(s, cells);
  }

  lemma SoundFields(s: State, cells: multiset<nat>, pt: int, tr: u64, ssrc: u32)
    requires Sound(s, cells)
    ensures Sound(s.(pt := pt), cells) && Sound(s.(tr := tr, ssrc := ssrc), cells)
  {
    hide NeighboursOrdered, CellsOf;
  }

  lemma ArriveSound(s: State, h: Header, now: u64, cells: multiset<nat>)
    requires Sound(s, cells)
    ensures Sound(Arrive(s, h, now), cells)
  {
    hide Flush, Sound;
    SoundFields(s, cells, h.pt, now, h.ssrc);
    var s1 := if s.pt == -1 then s.(pt := h.pt) else s;
    FlushSound(s1, cells);
    var s2 := if s1.ssrc != 0 && s1.ssrc != h.ssrc then Flush(s1) else s1;
    FlushSound(s2, cells);
    var s3 := if s2.tr != 0 && (now - s2.tr) % TWO64 > PUT_TIMEOUT && h.m then Flush(s2) else s2;
    SoundFields(s3, cells, h.pt, now, h.ssrc);
  }

  /** What the flushes before a put leave. */
  lemma ArriveEffect(s: State, h: Header, now: u64, cells: multiset<nat>)
    requires Sound(s, cells)
    ensures var r := Arrive(s, h, now);
            && r.wish == s.wish && r.min == s.min && r.max == s.max && r.rdiff == s.rdiff && r.jbtype == s.jbtype
            && r.seqPut == s.seqPut && r.timer == s.timer
            && if ArriveFlushes(s, h, now) then r.packets == [] && r.n == r.nf == r.seqGet == 0 && !r.running
               else r.packets == s.packets && r.pool == s.pool && r.n == s.n && r.nf == s.nf && r.seqGet == s.seqGet
                    && r.running == s.running
  {
    hide Flush, Sound;
    SoundFields(s, cells, h.pt, now, h.ssrc);
    var s1 := if s.pt == -1 then s.(pt := h.pt) else s;
    FlushSound(s1, cells);
    var s2 := if s1.ssrc != 0 && s1.ssrc != h.ssrc then Flush(s1) else s1;
    FlushSound(s2, cells);
  }

  /** The adaptive step touches wish, rdiff and the timer only, and wish stays at least min. */
  lemma CalcRdiffKeeps(s: State, sn: u16, now: u64, u: Undefined)
    requires s.wish >= s.min
    ensures var r := CalcRdiff(s, sn, now, u);
            r == s.(wish := r.wish, rdiff := r.rdiff, timer := r.timer) && r.wish >= s.wish >= s.min
  {
    hide NextRdiff, Sample, ClampWish, RawWish, FrameMax;
  }

  lemma PutSound(s: State, h: Header, mem: int, now: u64, u: Undefined, cells: multiset<nat>)
    requires Sound(s, cells) && HasCells(s)
    ensures Sound(PutLocked(s, h, mem, now, u).0, cells)
  {
    hide CalcRdiff, NeighboursOrdered, CellsOf, SeqLess, SameFrame, PlaceIn, Store, Alloc;
    var s1 := if s.running && s.jbtype == Adaptive then CalcRdiff(s, h.sn, now, u) else s;
    CalcRdiffKeeps(s, h.sn, now, u);
    if !Late(s1, h.sn) {
      AllocConserves(s1, cells);
      AllocSound(s1);
      var (s2, cell) := Alloc(s1);
      StoreConserves(s2, cell, h, mem, cells);
      StoreSound(s2, cell, h, mem);
    }
  }

  lemma AllocSound(s: State)
    requires NeighboursOrdered(s.packets) && HasCells(s)
    ensures NeighboursOrdered(Alloc(s).0.packets) && (Alloc(s).0.packets != [] ==> s.packets != [])
    ensures Alloc(s).0 == s.(pool := Alloc(s).0.pool, packets := Alloc(s).0.packets, n := Alloc(s).0.n)
  {
    hide NeighboursOrdered;
    if s.pool == [] {
      DropOrdered(s.packets);
    }
  }

  lemma StoreSound(s: State, cell: nat, h: Header, mem: int)
    requires NeighboursOrdered(s.packets)
    ensures var r := Store(s, cell, h, mem).0;
            && NeighboursOrdered(r.packets) && r.wish == s.wish
            && r.min == s.min && r.seqGet == s.seqGet && r.max == s.max
            && (r.running || (r.packets == s.packets && r.running == s.running))
  {
    hide SeqLess, SameFrame, PlaceIn, NeighboursOrdered;
    if PlaceIn(s.packets, h.sn).Insert? {
      InsertOrdered(s.packets, Packet(cell, h, mem));
    }
  }

  lemma PlaySound(s: State, cells: multiset<nat>)
    requires Sound(s, cells) && s.packets != []
    ensures Sound(Play(s), cells) && Play(s).packets == s.packets[1..]
  {
    hide CellsOf, NeighboursOrdered, LessFrame;
    var t := s.(seqGet := s.packets[0].hdr.sn, nf := LessFrame(s.packets, s.nf));
    DerefConserves(t, cells);
    DropOrdered(s.packets);
    assert s.packets[..0] + s.packets[1..] == s.packets[1..];
  }

  lemma WishDownSound(s: State, cells: multiset<nat>)
    requires Sound(s, cells)
    ensures Sound(WishDown(s), cells)
  {
    hide CellsOf, NeighboursOrdered;
  }

  // ---- whole runs ----

  datatype Event =
    | PutEvent(h: Header, mem: int, now: u64, u: Undefined)
    | GetEvent
    | DrainEvent
    | FlushEvent
    | WishDownEvent

  function Step(s: State, e: Event): (State, Error)
    requires HasCells(s)
  {
    match e
    case PutEvent(h, mem, now, u) => Put(s, h, mem, now, u)
    case GetEvent => Get(s)
    case DrainEvent => Drain(s)
    case FlushEvent => (Flush(s), None)
    case WishDownEvent => (WishDown(s), None)
  }

  lemma StepSound(s: State, e: Event, cells: multiset<nat>)
    requires Sound(s, cells) && HasCells(s)
    ensures Sound(Step(s, e).0, cells) && HasCells(Step(s, e).0)
  {
    hide Sound, PutLocked, Arrive, Flush, Play, WishDown;
    match e {
      case PutEvent(h, mem, now, u) =>
        ArriveHasCells(s, h, now);
        ArriveSound(s, h, now, cells);
        PutSound(Arrive(s, h, now), h, mem, now, u, cells);
      case GetEvent =>
        if s.packets != [] {
          PlaySound(s, cells);
        }
      case DrainEvent =>
        if s.packets != [] {
          PlaySound(s, cells);
        }
      case FlushEvent =>
        FlushSound(s, cells);
      case WishDownEvent =>
        WishDownSound(s, cells);
    }
    SoundHasCells(Step(s, e).0, cells);
  }

  lemma SoundHasCells(s: State, cells: multiset<nat>)
    requires Sound(s, cells)
    ensures HasCells(s)
  {
    PoolSize(s, cells);
  }

  /** jbuf_alloc: nothing buffered, max free cells. */
  function NewBuffer(min: u32, max: u32, jbtype: JbType): State {
    State(seq(max, i => i), [], 0, 0, min, max, min, 0, 0, 0, 0, -1, false, 0, Off, jbtype)
  }

  /** The state after a run of events. */
  ghost function After(s: State, es: seq<Event>, cells: multiset<nat>): State
    requires Sound(s, cells)
    ensures Sound(After(s, es, cells), cells)
    decreases |es|
  {
    SoundHasCells(s, cells);
    if es == [] then s
    else
      var before := After(s, es[..|es| - 1], cells);
      SoundHasCells(before, cells);
      StepSound(before, es[|es| - 1], cells);
      Step(before, es[|es| - 1]).0
  }

  /** The first event of a run first. */
  lemma {:induction false} AfterFirst(s: State, es: seq<Event>, cells: multiset<nat>)
    requires Sound(s, cells) && HasCells(s) && es != []
    ensures Sound(Step(s, es[0]).0, cells) && After(s, es, cells) == After(Step(s, es[0]).0, es[1..], cells)
    decreases |es|
  {
    hide Sound, HasCells, Step;
    StepSound(s, es[0], cells);
    var n := |es| - 1;
    assert After(s, es[..0], cells) == s;
    if n > 0 {
      AfterFirst(s, es[..n], cells);
      assert es[..n][1..] == es[1..][..n - 1];
    }
  }

  /** In every reachable state pool and buffer together hold exactly the nodes allocated at the
      start, max of them, each once; n is the number of buffered packets; neighbours are in sequence
      order; and wish is at least min. */
  lemma AlwaysSound(min: u32, max: u32, jbtype: JbType, es: seq<Event>)
    requires min <= max && max >= 1
    ensures var s0 := NewBuffer(min, max, jbtype);
            Sound(s0, multiset(s0.pool)) &&
            var s := After(s0, es, multiset(s0.pool));
            && multiset(Cells(s)) == multiset(s0.pool) && |s.pool| + |s.packets| == max && s.n == |s.packets|
            && NeighboursOrdered(s.packets) && s.wish >= min
  {
    NewSound(min, max, jbtype);
    var s0 := NewBuffer(min, max, jbtype);
    var s := After(s0, es, multiset(s0.pool));
    AfterConstants(s0, es, multiset(s0.pool));
    PoolSize(s, multiset(s0.pool));
  }

  lemma NewSound(min: u32, max: u32, jbtype: JbType)
    requires min <= max && max >= 1
    ensures var s0 := NewBuffer(min, max, jbtype); Sound(s0, multiset(s0.pool))
  {
    var s0 := NewBuffer(min, max, jbtype);
    assert Cells(s0) == s0.pool;
    assert |multiset(s0.pool)| == |s0.pool|;
  }

  lemma {:induction false} AfterConstants(s: State, es: seq<Event>, cells: multiset<nat>)
    requires Sound(s, cells)
    ensures After(s, es, cells).min == s.min && After(s, es, cells).max == s.max
    decreases |es|
  {
    hide Sound, Step;
    if es != [] {
      var before := After(s, es[..|es| - 1], cells);
      AfterConstants(s, es[..|es| - 1], cells);
      SoundHasCells(before, cells);
      StepConstants(before, es[|es| - 1], cells);
    }
  }

  lemma StepConstants(s: State, e: Event, cells: multiset<nat>)
    requires Sound(s, cells) && HasCells(s)
    ensures Step(s, e).0.min == s.min && Step(s, e).0.max == s.max
  {
    hide Conserved, NeighboursOrdered, CalcRdiff, Flush, Arrive, PlaceIn, SameFrame;
    match e {
      case PutEvent(h, mem, now, u) =>
        ArriveHasCells(s, h, now);
        ArriveSound(s, h, now, cells);
        ArriveEffect(s, h, now, cells);
        CalcRdiffKeeps(Arrive(s, h, now), h.sn, now, u);
      case GetEvent =>
      case DrainEvent =>
      case FlushEvent =>
        FlushSound(s, cells);
      case WishDownEvent =>
    }
  }
}
