/** What the jitter buffer's operations answer, on its fields and over runs: when it waits, how deep it is, what
    it remembers of the last put, and where it expects the next packet. */
module JbufEffects {
  import opened JbufState
  import opened JbufSound
  import opened JbufOrder

  // ---- waiting ----

  /** Get hands out the head exactly when more frames are buffered than wished for, and never leaves fewer than
      wished for; otherwise nothing happens. */
  lemma GetIff(s: State)
    ensures var (r, err) := Get(s);
            if s.nf > s.wish && s.packets != [] then
              && err == (if r.nf > s.wish then Again else None)
              && r.packets == s.packets[1..] && r.seqGet == s.packets[0].hdr.sn
              && r.wish == s.wish && r.wish <= r.nf <= s.nf <= r.nf + 1
            else r == s && err == NoEntry
  {
    assert s.packets != [] ==> s.packets[..0] + s.packets[1..] == s.packets[1..];
  }

  /** Drain hands out the head whenever there is one, whatever is wished for. */
  lemma DrainIff(s: State, cells: multiset<nat>)
    requires Sound(s, cells)
    ensures var (r, err) := Drain(s);
            if s.packets != [] then
              && err == None && r.packets == s.packets[1..] && r.seqGet == s.packets[0].hdr.sn && r.wish == s.wish
            else r == s && err == NoEntry
  {
    assert s.packets != [] ==> s.packets[..0] + s.packets[1..] == s.packets[1..];
  }

  // ---- the depth ----

  ghost predicate AtMinimum(s: State) { s.jbtype == Fixed && s.wish == s.min }

  lemma StepAtMinimum(s: State, e: Event, cells: multiset<nat>)
    requires Sound(s, cells) && HasCells(s) && AtMinimum(s)
    ensures AtMinimum(Step(s, e).0)
  {
    hide Conserved, NeighboursOrdered, CalcRdiff, Flush, Arrive, PlaceIn, SameFrame;
    match e {
      case PutEvent(h, mem, now, u) =>
        ArriveHasCells(s, h, now);
        ArriveEffect(s, h, now, cells);
      case GetEvent =>
      case DrainEvent =>
      case FlushEvent =>
        FlushSound(s, cells);
      case WishDownEvent =>
    }
  }

  lemma {:induction false} RunAtMinimum(s: State, es: seq<Event>, cells: multiset<nat>)
    requires Sound(s, cells) && AtMinimum(s)
    ensures AtMinimum(After(s, es, cells)) && After(s, es, cells).min == s.min
    decreases |es|
  {
    hide Sound, HasCells, Step, AtMinimum;
    AfterConstants(s, es, cells);
    if es != [] {
      var before := After(s, es[..|es| - 1], cells);
      RunAtMinimum(s, es[..|es| - 1], cells);
      SoundHasCells(before, cells);
      StepAtMinimum(before, es[|es| - 1], cells);
    }
  }

  /** A fixed buffer always waits for more than min frames: after every run, get hands out a packet exactly then. */
  lemma FixedWaits(min: u32, max: u32, es: seq<Event>)
    requires min <= max && max >= 1
    ensures var s0 := NewBuffer(min, max, Fixed);
            Sound(s0, multiset(s0.pool)) &&
            var s := After(s0, es, multiset(s0.pool));
            s.wish == min && (Get(s).1 != NoEntry <==> s.nf > min && s.packets != [])
  {
    hide Sound, Get;
    var s0 := NewBuffer(min, max, Fixed);
    NewSound(min, max, Fixed);
    RunAtMinimum(s0, es, multiset(s0.pool));
    GetIff(After(s0, es, multiset(s0.pool)));
  }

  /** The timer firing k times. */
  function TimerRuns(s: State, k: nat): State { if k == 0 then s else WishDown(TimerRuns(s, k - 1)) }

  /** Every firing of the timer takes the wish down by one, as far as the minimum. */
  lemma {:induction false} TimerLowers(s: State, k: nat)
    requires s.wish >= s.min
    ensures var r := TimerRuns(s, k);
            && r.wish == (if s.wish - k < s.min then s.min else s.wish - k) && r.min == s.min
            && (k > 0 ==> r.timer == Off)
  {
    if k > 0 {
      TimerLowers(s, k - 1);
    }
  }

  // ---- the expected packet ----

  /** After a packet with number x is stored, the sample of a packet d numbers after its successor is d * 1024,
      and that of one d numbers before it too: a packet that follows has sample 0. */
  lemma NextIsExpected(s: State, h: Header, mem: int, now: u64, u: Undefined, x: int, d: int)
    requires HasCells(s) && h.sn == Wire(x) && Put(s, h, mem, now, u).1 == None && -HALF < d < HALF
    ensures Sample(Put(s, h, mem, now, u).0, Wire(x + 1 + d)) == Abs(d) * 1024
  {
    hide CalcRdiff, Arrive, PlaceIn, SameFrame, Late, Alloc;
    var r := Put(s, h, mem, now, u).0;
    assert r.seqPut == h.sn;
    ExpectedSample(x, d);
  }

  lemma ExpectedSample(x: int, d: int)
    requires -HALF < d < HALF
    ensures Abs(Int16(Wire(x) + 1 - Wire(x + 1 + d)) * EMA_COEFF) == Abs(d) * 1024
  {}

  // ---- two puts ----

  /** Nothing but gets, drains and the timer. */
  predicate Quiet(es: seq<Event>) {
    forall k :: 0 <= k < |es| ==> es[k].GetEvent? || es[k].DrainEvent? || es[k].WishDownEvent?
  }

  /** The second packet starts anew: another source, or a marker more than 400 ms after the first packet. */
  predicate StartsAnew(h1: Header, t1: u64, h2: Header, t2: u64) {
    || (h1.ssrc != 0 && h1.ssrc != h2.ssrc)
    || (t1 != 0 && (t2 - t1) % 0x1_0000_0000_0000_0000 > 400 && h2.m)
  }

  /** A put remembers its time and its source, and the first payload type. */
  lemma PutRemembers(s: State, h: Header, mem: int, now: u64, u: Undefined)
    requires HasCells(s)
    ensures var r := Put(s, h, mem, now, u).0;
            r.tr == now && r.ssrc == h.ssrc && r.pt == (if s.pt == -1 then h.pt else s.pt)
  {
    hide Arrive, PutLocked;
    ArriveHasCells(s, h, now);
    ArriveRemembers(s, h, now);
    PutLockedKeeps(Arrive(s, h, now), h, mem, now, u);
  }

  lemma ArriveRemembers(s: State, h: Header, now: u64)
    ensures var r := Arrive(s, h, now);
            r.tr == now && r.ssrc == h.ssrc && r.pt == (if s.pt == -1 then h.pt else s.pt)
  {
    hide FlushList;
    var s1 := if s.pt == -1 then s.(pt := h.pt) else s;
    FlushKeepsType(s1);
    var s2 := if s1.ssrc != 0 && s1.ssrc != h.ssrc then Flush(s1) else s1;
    FlushKeepsType(s2);
  }

  lemma PutLockedKeeps(s: State, h: Header, mem: int, now: u64, u: Undefined)
    requires HasCells(s)
    ensures var r := PutLocked(s, h, mem, now, u).0; r.tr == s.tr && r.ssrc == s.ssrc && r.pt == s.pt
  {
    hide NextRdiff, Sample, ClampWish, RawWish, FrameMax, PlaceIn, SameFrame, Late;
  }

  lemma {:induction false} FlushKeepsType(s: State)
    ensures FlushList(s).pt == s.pt
    decreases |s.packets|
  {
    if s.packets != [] {
      FlushKeepsType(Deref(s, 0));
    }
  }

  lemma {:induction false} QuietKeeps(s: State, es: seq<Event>, cells: multiset<nat>)
    requires Sound(s, cells) && Quiet(es)
    ensures After(s, es, cells).tr == s.tr && After(s, es, cells).ssrc == s.ssrc
    decreases |es|
  {
    hide Sound, HasCells;
    if es != [] {
      assert Quiet(es[..|es| - 1]);
      QuietKeeps(s, es[..|es| - 1], cells);
      SoundHasCells(After(s, es[..|es| - 1], cells), cells);
    }
  }

  /** The state before the second of two puts with only gets, drains and the timer between them. */
  ghost function Between(s: State, h1: Header, mem1: int, t1: u64, u1: Undefined, es: seq<Event>,
                         cells: multiset<nat>): (r: State)
    requires Sound(s, cells)
    ensures Sound(r, cells) && HasCells(r)
  {
    SoundHasCells(s, cells);
    StepSound(s, PutEvent(h1, mem1, t1, u1), cells);
    SoundHasCells(After(Put(s, h1, mem1, t1, u1).0, es, cells), cells);
    After(Put(s, h1, mem1, t1, u1).0, es, cells)
  }

  lemma BetweenRemembers(s: State, h1: Header, mem1: int, t1: u64, u1: Undefined, es: seq<Event>, cells: multiset<nat>)
    requires Sound(s, cells) && Quiet(es)
    ensures var r := Between(s, h1, mem1, t1, u1, es, cells); r.tr == t1 && r.ssrc == h1.ssrc
  {
    hide Sound, HasCells, Put, Quiet;
    SoundHasCells(s, cells);
    StepSound(s, PutEvent(h1, mem1, t1, u1), cells);
    PutRemembers(s, h1, mem1, t1, u1);
    QuietKeeps(Put(s, h1, mem1, t1, u1).0, es, cells);
  }

  /** Whatever was buffered, a put that starts anew after the previous put leaves exactly its own packet. */
  lemma StartLeavesOne(s: State, h1: Header, mem1: int, t1: u64, u1: Undefined, es: seq<Event>,
                       h2: Header, mem2: int, t2: u64, u2: Undefined, cells: multiset<nat>)
    requires Sound(s, cells) && Quiet(es) && StartsAnew(h1, t1, h2, t2)
    ensures var (r, err) := Put(Between(s, h1, mem1, t1, u1, es, cells), h2, mem2, t2, u2);
            && err == None && |r.packets| == 1 && r.packets[0].hdr == h2 && r.packets[0].mem == mem2
            && r.n == r.nf == 1 && r.seqGet == 0
  {
    hide Conserved, NeighboursOrdered, Arrive, CalcRdiff, Between, Quiet;
    var b := Between(s, h1, mem1, t1, u1, es, cells);
    BetweenRemembers(s, h1, mem1, t1, u1, es, cells);
    ArriveHasCells(b, h2, t2);
    ArriveSound(b, h2, t2, cells);
    ArriveEffect(b, h2, t2, cells);
    PoolSize(Arrive(b, h2, t2), cells);
  }

  /** Any other put is a put on the list that the earlier packets form. */
  lemma ContinuesOnList(s: State, h1: Header, mem1: int, t1: u64, u1: Undefined, es: seq<Event>,
                        h2: Header, mem2: int, t2: u64, u2: Undefined, v: View, x: int, cells: multiset<nat>)
    requires Sound(s, cells) && Quiet(es) && !StartsAnew(h1, t1, h2, t2)
    requires Shows(Between(s, h1, mem1, t1, u1, es, cells), v) && Window(v, x) && h2.sn == Wire(x)
    ensures var b := Between(s, h1, mem1, t1, u1, es, cells);
            var (r, err) := Put(b, h2, mem2, t2, u2);
            var (w, err') := PutView(v, b.pool == [], Entry(x, h2, mem2));
            Shows(r, w) && err == err'
  {
    hide Sound, HasCells, Arrive, Shows, Window, PutView, PutLocked, Between, Quiet, Wire;
    var b := Between(s, h1, mem1, t1, u1, es, cells);
    BetweenRemembers(s, h1, mem1, t1, u1, es, cells);
    ArriveHasCells(b, h2, t2);
    ArriveSound(b, h2, t2, cells);
    ArriveEffect(b, h2, t2, cells);
    ArriveShows(b, h2, t2, v, cells);
    PutLockedShows(Arrive(b, h2, t2), h2, mem2, t2, u2, v, x, cells);
  }
}
