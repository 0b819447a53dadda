/** Streams with one packet per frame: the receiver never overflows its jitter buffer. */
module RtpLean {
  import opened JbufState
  import opened JbufSound
  import opened JbufOrder
  import opened JbufAdaptive
  import opened JbufStream
  import opened RtpReceive
  import opened RtpRuns

  // ---- one packet per frame in the buffer ----

  predicate Distinct(packets: seq<Packet>) {
    forall i, j :: 0 <= i < j < |packets| ==> packets[i].hdr.ts != packets[j].hdr.ts
  }

  /** Every buffered packet is a frame of its own, and the wish is in range. */
  ghost predicate Lean(s: State) {
    && s.nf == s.n == |s.packets| <= s.max && Distinct(s.packets)
    && s.min < s.max && s.min <= s.wish <= s.max - 1
  }

  /** Buffered packets and the new one share a timestamp only if they share the sequence number. */
  predicate FrameEach(packets: seq<Packet>, h: Header) {
    forall i :: 0 <= i < |packets| ==> packets[i].hdr.ts == h.ts ==> packets[i].hdr.sn == h.sn
  }

  lemma DistinctInsert(packets: seq<Packet>, i: nat, p: Packet)
    requires i <= |packets| && Distinct(packets)
    requires forall j :: 0 <= j < |packets| ==> packets[j].hdr.ts != p.hdr.ts
    ensures Distinct(Inserted(packets, i, p)) && !SameFrame(packets, i, p.hdr.ts)
  {}

  lemma PlaceIsNew(s: State, v: View, x: int, h: Header)
    requires Shows(s, v) && h.sn == Wire(x) && PlaceIn(s.packets, h.sn).Insert? && FrameEach(s.packets, h)
    requires AllClose(v.list, x)
    ensures forall j :: 0 <= j < |s.packets| ==> s.packets[j].hdr.ts != h.ts
  {
    hide PlaceIn, SeqLess;
    PlaceShows(s.packets, v.list, x);
    forall j | 0 <= j < |s.packets|
      ensures s.packets[j].hdr.sn != h.sn
    {
      SeqLessIsLess(v.list[j].number, x);
    }
  }

  /** With room in the buffer a put takes a free cell, and packets stay frames of their own. */
  lemma PutLean(s: State, h: Header, mem: int, now: u64, u: Undefined, v: View, x: int, cells: multiset<nat>)
    requires Tracked(s, v, cells) && Window(v, x) && h.sn == Wire(x)
    requires Lean(s) && s.n < s.max && FrameEach(s.packets, h)
    ensures s.pool != [] && Lean(PutLocked(s, h, mem, now, u).0)
  {
    hide CalcRdiff, Conserved, NeighboursOrdered, SeqLess, PlaceIn, SameFrame, Distinct, FrameEach, Wire, Close;
    PoolSize(s, cells);
    CalcRdiffKeeps(s, h.sn, now, u);
    WishBelowMax(s, h.sn, now, u);
    var s1 := if s.running && s.jbtype == Adaptive then CalcRdiff(s, h.sn, now, u) else s;
    if !Late(s1, h.sn) && PlaceIn(s.packets, h.sn).Insert? {
      PlaceIsNew(s, v, x, h);
      DistinctInsert(s.packets, PlaceIn(s.packets, h.sn).index, Packet(s.pool[0], h, mem));
    }
  }

  lemma PlayLean(s: State)
    requires Lean(s) && s.packets != []
    ensures Lean(Play(s)) && Play(s).n == s.n - 1 && Play(s).wish == s.wish && Play(s).max == s.max
  {
    assert s.packets[..0] + s.packets[1..] == s.packets[1..];
  }

  /** Whatever the handler asks for, the loop takes exactly the frames above the wish. */
  lemma {:induction false} DrainLean(jb: State, pseq: u32, n: nat, i: nat, asks: seq<bool>)
    requires Lean(jb) && n >= |jb.packets|
    ensures var d := DrainLoop(jb, pseq, n, i, asks);
            && Lean(d.jb) && d.jb.max == jb.max && d.jb.wish == jb.wish
            && d.jb.nf == (if jb.nf > jb.wish then jb.wish else jb.nf) && |d.out| == jb.nf - d.jb.nf
    decreases n
  {
    hide LostCalc, Play, Distinct;
    if n > 0 && !Waits(jb) {
      var (jb', err) := Get(jb);
      var pseq' := LostCalc(pseq, jb.packets[0].hdr.sn).1;
      PlayLean(jb);
      if err == Again || Asks(asks, i) {
        DrainLean(jb', pseq', n - 1, i + 1, asks);
      }
    }
  }

  lemma FlushLean(s: State, cells: multiset<nat>)
    requires Sound(s, cells) && Lean(s)
    ensures Lean(Flush(s)) && Flush(s).n == 0 && Flush(s).max == s.max
  {
    hide Flush;
    FlushSound(s, cells);
  }

  lemma ArriveLean(s: State, h: Header, now: u64, cells: multiset<nat>)
    requires Sound(s, cells) && Lean(s)
    ensures Lean(Arrive(s, h, now)) && Arrive(s, h, now).n <= s.n && Arrive(s, h, now).max == s.max
  {
    hide Sound, Arrive, ArriveFlushes;
    ArriveEffect(s, h, now, cells);
  }

  // ---- events at the receiver ----

  /** The packet shares its timestamp with no buffered one of another number. */
  ghost predicate OwnFrame(r: Receiver, e: RxEvent) {
    ReachesBuffer(r, e) ==> FrameEach(Arrive(BufferSeen(r, e.h), e.h, e.now).packets, e.h)
  }

  /** Between two events: one packet per frame, and room for one more. */
  ghost predicate Calm(r: Receiver, v: View, cells: multiset<nat>) {
    Tracked(r.jb, v, cells) && Lean(r.jb) && r.jb.n < r.jb.max
  }

  lemma SeenLean(r: Receiver, v: View, h: Header, now: u64, cells: multiset<nat>)
    requires Calm(r, v, cells)
    ensures var s := Arrive(BufferSeen(r, h), h, now); Lean(s) && s.n < s.max == r.jb.max
  {
    hide Arrive, Flush, Shows, HasCells, Lean, Sound;
    FlushSound(r.jb, cells);
    FlushLean(r.jb, cells);
    ArriveLean(BufferSeen(r, h), h, now, cells);
  }

  lemma PutRxLean(r: Receiver, v: View, e: RxEvent, cells: multiset<nat>)
    requires Calm(r, v, cells) && InWindow(r, v, e) && OwnFrame(r, e) && ReachesBuffer(r, e)
    ensures Arrive(BufferSeen(r, e.h), e.h, e.now).pool != []
    ensures Lean(PutRx(r, v, e, cells).0) && PutRx(r, v, e, cells).0.max == r.jb.max
  {
    hide Sound, Arrive, ArriveView, Shows, HasCells, PutLocked, Window, FrameEach, BufferSeen, ViewSeen, Lean;
    var jb, w := BufferSeen(r, e.h), ViewSeen(r, v, e.h);
    SeenTracked(r, v, e.h, cells);
    SeenLean(r, v, e.h, e.now, cells);
    ArriveSound(jb, e.h, e.now, cells);
    ArriveHasCells(jb, e.h, e.now);
    ArriveShows(jb, e.h, e.now, w, cells);
    var jb1, w1 := Arrive(jb, e.h, e.now), ArriveView(jb, e.h, e.now, w);
    PutLean(jb1, e.h, e.mem, e.now, e.u, w1, e.number, cells);
    PutSound(jb1, e.h, e.mem, e.now, e.u, cells);
    SameMax(jb1, PutLocked(jb1, e.h, e.mem, e.now, e.u).0, cells);
  }

  lemma SameMax(s: State, t: State, cells: multiset<nat>)
    requires Sound(s, cells) && Sound(t, cells)
    ensures s.max == t.max
  {}

  /** A packet that reaches the buffer finds a free cell, and the loop leaves nf <= wish <= max - 1, and exactly
      wish frames if it passes any packet on. */
  predicate StaysBelow(r: Receiver, e: RxEvent)
    requires HasCells(r.jb)
  {
    ReachesBuffer(r, e) ==>
      var jb := RxStep(r, e).0.jb;
      && Arrive(BufferSeen(r, e.h), e.h, e.now).pool != [] && jb.nf <= jb.wish <= jb.max - 1
      && (RxStep(r, e).1 != [] ==> jb.nf == jb.wish)
  }

  lemma RxCalm(r: Receiver, v: View, e: RxEvent, cells: multiset<nat>)
    requires Calm(r, v, cells) && InWindow(r, v, e) && OwnFrame(r, e)
    ensures Calm(RxStep(r, e).0, RxView(r, v, e, cells).0, cells) && StaysBelow(r, e)
  {
    hide Sound, HasCells, Shows, Put, PutRx, InWindow, OwnFrame, DrainLoop, DrainView, Arrive, Flush, Distinct, RxView;
    RxTracked(r, v, e, cells);
    FlushLean(r.jb, cells);
    if ReachesBuffer(r, e) {
      PutRxLean(r, v, e, cells);
      PutRxTracked(r, v, e, cells);
      RxStepIs(r, v, e, cells);
      var jb := PutRx(r, v, e, cells).0;
      DrainLean(jb, StartPseq(r, e), jb.n, 0, e.asks);
    }
  }

  // ---- whole runs ----

  /** Every packet of the run shares its timestamp with no buffered one of another number. */
  ghost predicate OwnFrames(r: Receiver, v: View, run: seq<RxEvent>, cells: multiset<nat>)
    requires Tracked(r.jb, v, cells) && WindowRun(r, v, run, cells)
    decreases |run|
  {
    run != [] ==>
      OwnFrame(r, run[0]) &&
      (RxTracked(r, v, run[0], cells);
       OwnFrames(RxStep(r, run[0]).0, RxView(r, v, run[0], cells).0, run[1..], cells))
  }

  /** At every event of the run the buffer stays below its size: no packet is stolen. */
  ghost predicate NeverFull(r: Receiver, run: seq<RxEvent>)
    requires HasCells(r.jb)
    decreases |run|
  {
    run != [] ==>
      StaysBelow(r, run[0]) && HasCells(RxStep(r, run[0]).0.jb) && NeverFull(RxStep(r, run[0]).0, run[1..])
  }

  lemma {:induction false} CalmNeverFull(r: Receiver, v: View, run: seq<RxEvent>, cells: multiset<nat>)
    requires Calm(r, v, cells) && WindowRun(r, v, run, cells) && OwnFrames(r, v, run, cells)
    ensures NeverFull(r, run)
    decreases |run|
  {
    hide Sound, Shows, HasCells, RxStep, RxView, Lean, InWindow, OwnFrame, StaysBelow;
    if run != [] {
      RxCalm(r, v, run[0], cells);
      CalmNeverFull(RxStep(r, run[0]).0, RxView(r, v, run[0], cells).0, run[1..], cells);
    }
  }

  // ---- streams ----

  /** Every packet is a frame of its own: true timestamps grow with the unwrapped number, by less than 2^32
      ticks within 2^15 numbers. */
  ghost predicate Ticking(clock: int -> int) {
    forall a, b :: a < b < a + HALF ==> clock(a) < clock(b) < clock(a) + TWO32
  }

  predicate StampedEvents(run: seq<RxEvent>, clock: int -> int) {
    forall k :: 0 <= k < |run| ==> run[k].Arrives? ==> Carries(run[k].h, run[k].number, clock)
  }

  lemma StampedOwnFrame(s: State, v: View, h: Header, x: int, clock: int -> int)
    requires Shows(s, v) && Stamped(v.list, clock) && Ticking(clock)
    requires h.sn == Wire(x) && Carries(h, x, clock) && AllClose(v.list, x)
    ensures FrameEach(s.packets, h)
  {
    hide Wire;
    forall i | 0 <= i < |s.packets| && s.packets[i].hdr.ts == h.ts
      ensures s.packets[i].hdr.sn == h.sn
    {
      var y := v.list[i].number;
      assert Holds(s.packets[i], v.list[i]) && Close(y, x);
      if x < y {
        SameTick(clock(x), clock(y));
      } else if y < x {
        SameTick(clock(y), clock(x));
      }
    }
  }

  lemma RxOwnFrame(r: Receiver, v: View, e: RxEvent, clock: int -> int, cells: multiset<nat>)
    requires Tracked(r.jb, v, cells) && InWindow(r, v, e) && Stamped(v.list, clock) && Ticking(clock)
    requires e.Arrives? ==> Carries(e.h, e.number, clock)
    ensures OwnFrame(r, e)
  {
    hide Sound, Shows, HasCells, Arrive, ArriveFlushes, Flush, AllClose, FrameEach, Carries, Ticking, Wire;
    if ReachesBuffer(r, e) {
      var jb, w := BufferSeen(r, e.h), ViewSeen(r, v, e.h);
      SeenTracked(r, v, e.h, cells);
      ArriveShows(jb, e.h, e.now, w, cells);
      StampedOwnFrame(Arrive(jb, e.h, e.now), ArriveView(jb, e.h, e.now, w), e.h, e.number, clock);
    }
  }

  lemma {:induction false} DrainStamped(jb: State, v: View, n: nat, i: nat, asks: seq<bool>, clock: int -> int,
                                        cells: multiset<nat>)
    requires Tracked(jb, v, cells) && Stamped(v.list, clock)
    ensures Stamped(DrainView(jb, v, n, i, asks).0.list, clock)
    decreases n
  {
    hide Sound, HasCells, Play, Carries;
    if n > 0 && !Waits(jb) {
      GetTracked(jb, v, cells);
      DrainStamped(Play(jb), PlayView(v), n - 1, i + 1, asks, clock, cells);
    }
  }

  lemma RxStamped(r: Receiver, v: View, e: RxEvent, clock: int -> int, cells: multiset<nat>)
    requires Tracked(r.jb, v, cells) && InWindow(r, v, e) && Stamped(v.list, clock)
    requires e.Arrives? ==> Carries(e.h, e.number, clock)
    ensures Stamped(RxView(r, v, e, cells).0.list, clock)
  {
    hide Sound, HasCells, Step, StepView, GoodStep, DrainView, Carries, Flush;
    if ReachesBuffer(r, e) {
      SeenTracked(r, v, e.h, cells);
      PutRxTracked(r, v, e, cells);
      PutStamped(BufferSeen(r, e.h), ViewSeen(r, v, e.h), PutArrival(e), clock);
      var (jb, w, _) := PutRx(r, v, e, cells);
      DrainStamped(jb, w, jb.n, 0, e.asks, clock, cells);
    }
  }

  lemma {:induction false} StreamOwnFrames(r: Receiver, v: View, run: seq<RxEvent>, clock: int -> int,
                                           cells: multiset<nat>)
    requires Tracked(r.jb, v, cells) && WindowRun(r, v, run, cells)
    requires Ticking(clock) && Stamped(v.list, clock) && StampedEvents(run, clock)
    ensures OwnFrames(r, v, run, cells)
    decreases |run|
  {
    hide Sound, HasCells, Shows, RxStep, RxView, InWindow, OwnFrame, Ticking, Stamped, Carries;
    if run != [] {
      RxTracked(r, v, run[0], cells);
      RxOwnFrame(r, v, run[0], clock, cells);
      RxStamped(r, v, run[0], clock, cells);
      StreamOwnFrames(RxStep(r, run[0]).0, RxView(r, v, run[0], cells).0, run[1..], clock, cells);
    }
  }

  function NewReceiver(min: u32, max: u32, jbtype: JbType): Receiver {
    Receiver(NewBuffer(min, max, jbtype), UNSET, false, 0)
  }

  lemma NewCalm(min: u32, max: u32, jbtype: JbType)
    requires min < max
    ensures var r := NewReceiver(min, max, jbtype); Calm(r, EMPTY_VIEW, multiset(r.jb.pool))
  {
    NewTracked(min, max, jbtype);
  }

  /** For streams with one packet per timestamp and min < max, in fixed and in adaptive mode, with flushes at
      any time and whatever the handler asks for, no packet of the buffer is ever stolen. */
  lemma StreamNeverOverflows(min: u32, max: u32, jbtype: JbType, run: seq<RxEvent>, clock: int -> int)
    requires min < max && Ticking(clock) && StampedEvents(run, clock)
    requires var r := NewReceiver(min, max, jbtype);
             Tracked(r.jb, EMPTY_VIEW, multiset(r.jb.pool)) && WindowRun(r, EMPTY_VIEW, run, multiset(r.jb.pool))
    ensures var r := NewReceiver(min, max, jbtype); HasCells(r.jb) && NeverFull(r, run)
  {
    hide Sound, Shows, Lean, WindowRun, OwnFrames, StampedEvents, Ticking, NeverFull;
    var r := NewReceiver(min, max, jbtype);
    NewCalm(min, max, jbtype);
    StreamOwnFrames(r, EMPTY_VIEW, run, clock, multiset(r.jb.pool));
    CalmNeverFull(r, EMPTY_VIEW, run, multiset(r.jb.pool));
  }
}
