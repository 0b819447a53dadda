/** While incoming packets are less than 2^15 sequence numbers from the buffered ones and from the last
    played one, the jitter buffer acts as a duplicate-free list of packets in increasing order of
    their unwrapped numbers, and plays them in that order. */
module JbufOrder {
  import opened JbufState
  import opened JbufSound

  const HALF: int := 0x8000

  datatype Option = Nothing | Just(value: int)

  /** A buffered packet under its unwrapped number. */
  datatype Entry = Entry(number: int, hdr: Header, mem: int)

  /** The buffer as a list of packets and the number of the last one played. Playing a number that is
      0 modulo 2^16 is forgotten: seq_get == 0 means that nothing has been played. */
  datatype View = View(list: seq<Entry>, played: Option)

  function Wire(x: int): u16 { x % TWO16 }

  /** Increasing numbers, within fewer than 2^15. */
  predicate Increasing(list: seq<Entry>) {
    forall i, j :: 0 <= i < j < |list| ==> list[i].number < list[j].number < list[i].number + HALF
  }

  predicate Holds(p: Packet, e: Entry) { p.hdr == e.hdr && p.mem == e.mem && p.hdr.sn == Wire(e.number) }

  ghost predicate Shows(s: State, v: View) {
    && |s.packets| == |v.list| && Increasing(v.list)
    && (forall i :: 0 <= i < |v.list| ==> Holds(s.packets[i], v.list[i]))
    && match v.played
       case Nothing => s.seqGet == 0
       case Just(l) =>
         && s.seqGet == Wire(l) && s.seqGet != 0
         && forall i :: 0 <= i < |v.list| ==> l < v.list[i].number < l + HALF
  }

  predicate Close(x: int, y: int) { -HALF < x - y < HALF }

  predicate AllClose(list: seq<Entry>, x: int) { forall i :: 0 <= i < |list| ==> Close(list[i].number, x) }

  /** The incoming number is less than 2^15 from every buffered one and from the last played one. */
  ghost predicate Window(v: View, x: int) { AllClose(v.list, x) && (v.played.Just? ==> Close(x, v.played.value)) }

  // ---- the list ----

  predicate Has(list: seq<Entry>, x: int) { exists i :: 0 <= i < |list| && list[i].number == x }

  /** Insertion into an increasing list. */
  function SortedInsert(list: seq<Entry>, e: Entry): seq<Entry> {
    if list == [] || e.number < list[0].number then [e] + list
    else [list[0]] + SortedInsert(list[1..], e)
  }

  /** A put on the list: late unless after the last played number; a full list first drops its
      smallest number; a number that is there already is refused. */
  function PutView(v: View, full: bool, e: Entry): (View, Error) {
    if v.played.Just? && e.number <= v.played.value then (v, TimedOut)
    else
      var list := if full && v.list != [] then v.list[1..] else v.list;
      if Has(list, e.number) then (v.(list := list), Already)
      else (v.(list := SortedInsert(list, e)), None)
  }

  /** The packet with the smallest number is played. */
  function PlayView(v: View): View
    requires v.list != []
  {
    View(v.list[1..], if Wire(v.list[0].number) == 0 then Nothing else Just(v.list[0].number))
  }

  const EMPTY_VIEW := View([], Nothing)

  // ---- the buffer acts on the list ----

  lemma SeqLessIsLess(x: int, y: int)
    requires Close(x, y)
    ensures SeqLess(Wire(x), Wire(y)) <==> x < y
    ensures Wire(x) == Wire(y) <==> x == y
  {}

  lemma LateIsNotAfter(x: int, l: int)
    requires Close(x, l)
    ensures SeqLess(Wire(x), (Wire(l) + 1) % TWO16) <==> x <= l
  {}

  lemma {:induction false} InsertAt(list: seq<Entry>, e: Entry, i: nat)
    requires i <= |list|
    requires forall j :: 0 <= j < i ==> list[j].number < e.number
    requires i < |list| ==> e.number < list[i].number
    ensures SortedInsert(list, e) == list[..i] + [e] + list[i..]
    decreases i
  {
    if i > 0 {
      InsertAt(list[1..], e, i - 1);
      assert list[..i] == [list[0]] + list[1..][..i - 1] && list[i..] == list[1..][i - 1..];
    }
  }

  /** The search from the tail finds the place in the list. */
  lemma PlaceShows(packets: seq<Packet>, list: seq<Entry>, x: int)
    requires |packets| == |list| && Increasing(list) && AllClose(list, x)
    requires forall i :: 0 <= i < |list| ==> Holds(packets[i], list[i])
    ensures var r := PlaceIn(packets, Wire(x));
            && (r.Duplicate? <==> Has(list, x))
            && (r.Insert? ==> (forall j :: 0 <= j < r.index ==> list[j].number < x)
                              && (forall j :: r.index <= j < |list| ==> x < list[j].number))
  {
    hide SeqLess, Wire, Close;
    PlaceIs(packets, Wire(x), |packets|);
    forall i | 0 <= i < |list|
      ensures SeqLess(packets[i].hdr.sn, Wire(x)) <==> list[i].number < x
      ensures packets[i].hdr.sn == Wire(x) <==> list[i].number == x
    {
      SeqLessIsLess(list[i].number, x);
    }
  }

  lemma IncreasingInsert(list: seq<Entry>, e: Entry, i: nat)
    requires i <= |list| && Increasing(list) && AllClose(list, e.number)
    requires forall j :: 0 <= j < i ==> list[j].number < e.number
    requires forall j :: i <= j < |list| ==> e.number < list[j].number
    ensures Increasing(list[..i] + [e] + list[i..])
  {}

  lemma HoldsInserted(packets: seq<Packet>, list: seq<Entry>, p: Packet, e: Entry, i: nat)
    requires |packets| == |list| && i <= |list| && Holds(p, e)
    requires forall k :: 0 <= k < |list| ==> Holds(packets[k], list[k])
    ensures forall k :: 0 <= k < |list| + 1 ==> Holds(Inserted(packets, i, p)[k], (list[..i] + [e] + list[i..])[k])
  {
    hide Holds;
    var a, b := Inserted(packets, i, p), list[..i] + [e] + list[i..];
    forall k | 0 <= k < |list| + 1
      ensures Holds(a[k], b[k])
    {
      if k > i {
        assert a[k] == packets[k - 1] && b[k] == list[k - 1];
      }
    }
  }

  lemma StoreShows(s: State, cell: nat, h: Header, mem: int, v: View, x: int)
    requires Shows(s, v) && h.sn == Wire(x) && (v.played.Just? ==> v.played.value < x < v.played.value + HALF)
    requires AllClose(v.list, x)
    ensures var (r, err) := Store(s, cell, h, mem);
            var v' := if Has(v.list, x) then v else v.(list := SortedInsert(v.list, Entry(x, h, mem)));
            Shows(r, v') && err == (if Has(v.list, x) then Already else None)
  {
    hide SeqLess, Wire, Close, SameFrame, PlaceIn, SortedInsert, Has, Holds;
    PlaceShows(s.packets, v.list, x);
    var spot := PlaceIn(s.packets, h.sn);
    if spot.Insert? {
      NewHolds(cell, h, mem, x);
      HoldsInserted(s.packets, v.list, Packet(cell, h, mem), Entry(x, h, mem), spot.index);
      InsertAt(v.list, Entry(x, h, mem), spot.index);
      IncreasingInsert(v.list, Entry(x, h, mem), spot.index);
    }
  }

  lemma NewHolds(cell: nat, h: Header, mem: int, x: int)
    requires h.sn == Wire(x)
    ensures Holds(Packet(cell, h, mem), Entry(x, h, mem))
  {}

  lemma AllocShows(s: State, v: View)
    requires Shows(s, v) && HasCells(s)
    ensures Shows(Alloc(s).0, if s.pool == [] then v.(list := v.list[1..]) else v)
  {
    hide Wire, Holds;
  }

  /** A put without a flush is a put on the list, whatever the adaptive step does. */
  lemma PutLockedShows(s: State, h: Header, mem: int, now: u64, u: Undefined, v: View, x: int, cells: multiset<nat>)
    requires Sound(s, cells) && HasCells(s) && Shows(s, v) && Window(v, x) && h.sn == Wire(x)
    ensures var (r, err) := PutLocked(s, h, mem, now, u);
            var (v', err') := PutView(v, s.pool == [], Entry(x, h, mem));
            Shows(r, v') && err == err'
  {
    hide CalcRdiff, Conserved, NeighboursOrdered, SeqLess, Store, Alloc, SortedInsert, Wire, Has, Holds;
    CalcRdiffKeeps(s, h.sn, now, u);
    var s1 := if s.running && s.jbtype == Adaptive then CalcRdiff(s, h.sn, now, u) else s;
    assert Shows(s1, v);
    if v.played.Just? {
      LateIsNotAfter(x, v.played.value);
      assert x < v.played.value + HALF;
    }
    if !Late(s1, h.sn) {
      AllocShows(s1, v);
      var (s2, cell) := Alloc(s1);
      var v2 := if s1.pool == [] then v.(list := v.list[1..]) else v;
      StoreShows(s2, cell, h, mem, v2, x);
    }
  }

  /** The packets a put flushes before it is stored. */
  function ArriveView(s: State, h: Header, now: u64, v: View): View {
    if ArriveFlushes(s, h, now) then EMPTY_VIEW else v
  }

  lemma ArriveShows(s: State, h: Header, now: u64, v: View, cells: multiset<nat>)
    requires Sound(s, cells) && Shows(s, v)
    ensures Shows(Arrive(s, h, now), ArriveView(s, h, now, v))
  {
    hide Arrive, ArriveFlushes, Sound, Wire;
    ArriveEffect(s, h, now, cells);
  }

  lemma PlayShows(s: State, v: View)
    requires Shows(s, v) && s.packets != []
    ensures Shows(Play(s), PlayView(v)) && Holds(s.packets[0], v.list[0])
  {
    hide Wire, LessFrame;
    assert s.packets[..0] + s.packets[1..] == s.packets[1..];
    var w := PlayView(v);
    assert forall i :: 0 <= i < |w.list| ==> w.list[i] == v.list[i + 1];
  }

  // ---- runs ----

  /** What a run shows to the outside: a packet is played, or the buffer was flushed. */
  datatype Mark = Played(entry: Entry) | Reset

  /** A put carries the unwrapped number its header's 16 bits stand for. */
  datatype Arrival = Arrival(event: Event, number: int)

  ghost predicate GoodStep(s: State, v: View, a: Arrival) {
    a.event.PutEvent? ==>
      a.event.h.sn == Wire(a.number) && Window(ArriveView(s, a.event.h, a.event.now, v), a.number)
  }

  /** The list after a step, and the marks it makes. */
  function StepView(s: State, v: View, a: Arrival): (View, seq<Mark>)
    requires HasCells(s) && |s.packets| == |v.list|
  {
    match a.event
    case PutEvent(h, mem, now, u) =>
      var v1 := ArriveView(s, h, now, v);
      (PutView(v1, Arrive(s, h, now).pool == [], Entry(a.number, h, mem)).0, if v1 == v then [] else [Reset])
    case GetEvent => if Waits(s) then (v, []) else (PlayView(v), [Played(v.list[0])])
    case DrainEvent => if s.n <= 0 || s.packets == [] then (v, []) else (PlayView(v), [Played(v.list[0])])
    case FlushEvent => (EMPTY_VIEW, [Reset])
    case WishDownEvent => (v, [])
  }

  /** Every operation acts on the buffer as on the list. */
  lemma StepShows(s: State, v: View, a: Arrival, cells: multiset<nat>)
    requires Sound(s, cells) && HasCells(s) && Shows(s, v) && GoodStep(s, v, a)
    ensures Shows(Step(s, a.event).0, StepView(s, v, a).0)
  {
    hide Sound, PutLocked, Arrive, Flush, Play, WishDown, PutView, PlayView, Window, Wire;
    match a.event {
      case PutEvent(h, mem, now, u) =>
        ArriveHasCells(s, h, now);
        ArriveSound(s, h, now, cells);
        ArriveShows(s, h, now, v, cells);
        PutLockedShows(Arrive(s, h, now), h, mem, now, u, ArriveView(s, h, now, v), a.number, cells);
      case GetEvent =>
        if s.packets != [] {
          PlayShows(s, v);
        }
      case DrainEvent =>
        if s.packets != [] {
          PlayShows(s, v);
        }
      case FlushEvent =>
        FlushSound(s, cells);
      case WishDownEvent =>
        WishDownShows(s, v);
    }
  }

  lemma WishDownShows(s: State, v: View)
    requires Shows(s, v)
    ensures Shows(WishDown(s), v)
  {}

  ghost predicate Tracked(s: State, v: View, cells: multiset<nat>) {
    Sound(s, cells) && HasCells(s) && Shows(s, v)
  }

  lemma StepTracked(s: State, v: View, a: Arrival, cells: multiset<nat>)
    requires Tracked(s, v, cells) && GoodStep(s, v, a)
    ensures Tracked(Step(s, a.event).0, StepView(s, v, a).0, cells)
  {
    hide Sound, Shows, HasCells, Step, GoodStep, StepView;
    StepSound(s, a.event, cells);
    StepShows(s, v, a, cells);
  }

  /** Every put of the run stays within the window. */
  ghost predicate GoodRun(s: State, v: View, run: seq<Arrival>, cells: multiset<nat>)
    requires Tracked(s, v, cells)
    decreases |run|
  {
    run != [] ==>
      GoodStep(s, v, run[0]) &&
      (StepTracked(s, v, run[0], cells);
       GoodRun(Step(s, run[0].event).0, StepView(s, v, run[0]).0, run[1..], cells))
  }

  ghost function Marks(s: State, v: View, run: seq<Arrival>, cells: multiset<nat>): seq<Mark>
    requires Tracked(s, v, cells) && GoodRun(s, v, run, cells)
    decreases |run|
  {
    if run == [] then []
    else
      StepTracked(s, v, run[0], cells);
      StepView(s, v, run[0]).1 + Marks(Step(s, run[0].event).0, StepView(s, v, run[0]).0, run[1..], cells)
  }

  /** One mark may follow another. */
  predicate Follows(before: Mark, after: Mark) {
    before.Played? && after.Played? && Wire(before.entry.number) != 0 ==>
      before.entry.number < after.entry.number < before.entry.number + HALF
  }

  predicate InOrder(last: Option, marks: seq<Mark>) {
    && (marks != [] && last.Just? && marks[0].Played? ==> last.value < marks[0].entry.number < last.value + HALF)
    && forall k :: 0 < k < |marks| ==> Follows(marks[k - 1], marks[k])
  }

  lemma StepInOrder(s: State, v: View, a: Arrival, rest: seq<Mark>, cells: multiset<nat>)
    requires Tracked(s, v, cells) && GoodStep(s, v, a)
    requires InOrder(StepView(s, v, a).0.played, rest)
    ensures InOrder(v.played, StepView(s, v, a).1 + rest)
  {
    hide Sound, ArriveView, Arrive, Window, Wire;
    var (v', m) := StepView(s, v, a);
    var marks := m + rest;
    assert m == [] ==> marks == rest;
    if m != [] {
      assert marks[0] == m[0] && marks[1..] == rest;
      forall k | 0 < k < |marks|
        ensures Follows(marks[k - 1], marks[k])
      {
        if k > 1 {
          assert marks[k - 1] == rest[k - 1 - 1] && marks[k] == rest[k - 1];
        } else {
          assert marks[k] == rest[0];
        }
      }
    }
  }

  /** Over every run within the window, played numbers strictly increase, except right after a flush
      and right after number 0 modulo 2^16 is played. */
  lemma {:induction false} PlayedInOrder(s: State, v: View, run: seq<Arrival>, cells: multiset<nat>)
    requires Tracked(s, v, cells) && GoodRun(s, v, run, cells)
    ensures InOrder(v.played, Marks(s, v, run, cells))
    decreases |run|
  {
    hide Sound, HasCells, InOrder, GoodStep, Step, StepView;
    if run == [] {
      NoMarks(v.played);
    } else {
      StepTracked(s, v, run[0], cells);
      var s', v' := Step(s, run[0].event).0, StepView(s, v, run[0]).0;
      PlayedInOrder(s', v', run[1..], cells);
      StepInOrder(s, v, run[0], Marks(s', v', run[1..], cells), cells);
    }
  }

  lemma NoMarks(last: Option)
    ensures InOrder(last, [])
  {}

  /** A new buffer shows the empty list. */
  lemma NewTracked(min: u32, max: u32, jbtype: JbType)
    requires min <= max && max >= 1
    ensures var s0 := NewBuffer(min, max, jbtype); Tracked(s0, EMPTY_VIEW, multiset(s0.pool))
  {
    NewSound(min, max, jbtype);
    var s0 := NewBuffer(min, max, jbtype);
    SoundHasCells(s0, multiset(s0.pool));
  }

  lemma WindowPlayed(v: View, x: int)
    requires v.list != [] && AllClose(v.list, x)
    ensures Window(PlayView(v), x)
  {
    hide Wire;
    assert Close(v.list[0].number, x);
    var rest := v.list[1..];
    forall i | 0 <= i < |rest|
      ensures Close(rest[i].number, x)
    {
      assert rest[i] == v.list[i + 1];
    }
  }

  /** The exception is exact: after a packet is played, a put without a flush refuses every number up to
      it, unless its 16 bits were 0; then every one of them is let in again. */
  lemma OlderRefusedIff(s: State, v: View, h: Header, mem: int, now: u64, u: Undefined, x: int, cells: multiset<nat>)
    requires Tracked(s, v, cells) && s.packets != []
    requires h.sn == Wire(x) && AllClose(v.list, x) && x <= v.list[0].number
    requires !ArriveFlushes(Play(s), h, now)
    ensures HasCells(Play(s)) && (Put(Play(s), h, mem, now, u).1 == TimedOut <==> s.packets[0].hdr.sn != 0)
  {
    hide Sound, Play, PutLocked, Arrive, ArriveFlushes, AllClose, Window, Wire, Has, SortedInsert;
    WindowPlayed(v, x);
    var s', v' := Play(s), PlayView(v);
    PlaySound(s, cells);
    SoundHasCells(s', cells);
    PlayShows(s, v);
    ArriveHasCells(s', h, now);
    ArriveSound(s', h, now, cells);
    ArriveShows(s', h, now, v', cells);
    PutLockedShows(Arrive(s', h, now), h, mem, now, u, v', x, cells);
  }

  /** Number 65535 after 0: it is let in, and it is the next one to be played. */
  lemma OlderAfterZero(max: u32, h0: Header, h1: Header, mem0: int, mem1: int, now0: u64, now1: u64,
                       u0: Undefined, u1: Undefined)
    requires max >= 1 && h0.sn == 0 && h1.sn == 65535 && h0.ssrc == h1.ssrc && !h1.m
    ensures var s1 := Put(NewBuffer(0, max, Fixed), h0, mem0, now0, u0).0;
            var s2 := Get(s1).0;
            HasCells(s2) &&
            var (s3, err) := Put(s2, h1, mem1, now1, u1);
            && s1.packets == [Packet(0, h0, mem0)] && s2.packets == []
            && err == None && |s3.packets| == 1 && s3.packets[0].hdr == h1 && Get(s3).0 == Play(s3)
  {
    var s1 := Put(NewBuffer(0, max, Fixed), h0, mem0, now0, u0).0;
    assert s1.packets == [Packet(0, h0, mem0)] && s1.nf == s1.n == 1;
    var s2 := Get(s1).0;
    assert s2.packets == [] && s2.seqGet == 0 && s2.nf == 0;
  }
}
