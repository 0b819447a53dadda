/** The frame count over a stream whose timestamps go with its sequence numbers. */
module JbufStream {
  import opened JbufState
  import opened JbufSound
  import opened JbufOrder
  import opened JbufFrames

  /** True timestamps do not decrease with the unwrapped number, and advance by less than 2^32 ticks
      within 2^15 numbers. */
  ghost predicate Paced(clock: int -> int) {
    forall a, b :: a <= b < a + HALF ==> clock(a) <= clock(b) < clock(a) + TWO32
  }

  /** A packet carries the low 32 bits of its true timestamp. */
  predicate Carries(h: Header, number: int, clock: int -> int) { h.ts == clock(number) % TWO32 }

  predicate Stamped(list: seq<Entry>, clock: int -> int) {
    forall i :: 0 <= i < |list| ==> Carries(list[i].hdr, list[i].number, clock)
  }

  predicate StampedArrival(a: Arrival, clock: int -> int) {
    a.event.PutEvent? ==> Carries(a.event.h, a.number, clock)
  }

  /** Within 2^32 ticks the low 32 bits determine the true timestamp. */
  lemma SameTick(x: int, y: int)
    requires x <= y < x + TWO32 && x % TWO32 == y % TWO32
    ensures x == y
  {}

  /** So packets of one frame are neighbours. */
  lemma StampedGrouped(s: State, v: View, clock: int -> int)
    requires Shows(s, v) && Stamped(v.list, clock) && Paced(clock)
    ensures Grouped(s.packets)
  {
    hide Wire;
    forall i, j, k | 0 <= i < j < k < |s.packets| && Ts(s.packets[i]) == Ts(s.packets[k])
      ensures Ts(s.packets[j]) == Ts(s.packets[i])
    {
      var a, b, c := v.list[i].number, v.list[j].number, v.list[k].number;
      assert Holds(s.packets[i], v.list[i]) && Holds(s.packets[j], v.list[j]) && Holds(s.packets[k], v.list[k]);
      assert a < b < c < a + HALF;
      SameTick(clock(a), clock(c));
    }
  }

  lemma {:induction false} InsertStamped(list: seq<Entry>, e: Entry, clock: int -> int)
    requires Stamped(list, clock) && Carries(e.hdr, e.number, clock)
    ensures Stamped(SortedInsert(list, e), clock)
  {
    hide Carries;
    if list != [] && e.number >= list[0].number {
      InsertStamped(list[1..], e, clock);
    }
  }

  lemma PutStamped(s: State, v: View, a: Arrival, clock: int -> int)
    requires HasCells(s) && |s.packets| == |v.list| && a.event.PutEvent?
    requires Stamped(v.list, clock) && StampedArrival(a, clock)
    ensures Stamped(StepView(s, v, a).0.list, clock)
  {
    hide Carries, ArriveFlushes, Arrive, Has, SortedInsert;
    var h := a.event.h;
    var v1 := ArriveView(s, h, a.event.now, v);
    var list := if Arrive(s, h, a.event.now).pool == [] && v1.list != [] then v1.list[1..] else v1.list;
    InsertStamped(list, Entry(a.number, h, a.event.mem), clock);
  }

  /** Every operation keeps the buffer stamped, and its frames together. */
  lemma StepStamped(s: State, v: View, a: Arrival, clock: int -> int, cells: multiset<nat>)
    requires Tracked(s, v, cells) && GoodStep(s, v, a)
    requires Paced(clock) && Stamped(v.list, clock) && StampedArrival(a, clock)
    ensures Stamped(StepView(s, v, a).0.list, clock) && OrderedStep(s, a.event)
  {
    hide Sound, GoodStep, Paced, Carries, ArriveFlushes, Arrive, Has, SortedInsert, Put, Grouped;
    if a.event.PutEvent? {
      PutStamped(s, v, a, clock);
    }
    StepShows(s, v, a, cells);
    StampedGrouped(Step(s, a.event).0, StepView(s, v, a).0, clock);
  }

  function Events(run: seq<Arrival>): (es: seq<Event>)
    ensures |es| == |run|
  {
    seq(|run|, i requires 0 <= i < |run| => run[i].event)
  }

  predicate StampedRun(run: seq<Arrival>, clock: int -> int) {
    forall k :: 0 <= k < |run| ==> StampedArrival(run[k], clock)
  }

  lemma {:induction false} StreamIsOrdered(s: State, v: View, run: seq<Arrival>, clock: int -> int,
                                           cells: multiset<nat>)
    requires Tracked(s, v, cells) && GoodRun(s, v, run, cells)
    requires Paced(clock) && Stamped(v.list, clock) && StampedRun(run, clock)
    ensures OrderedRun(s, Events(run), cells)
    decreases |run|
  {
    hide Sound, HasCells, GoodStep, Step, StepView, Paced, Stamped, StampedArrival, OrderedStep;
    if run != [] {
      StepTracked(s, v, run[0], cells);
      StepStamped(s, v, run[0], clock, cells);
      StreamIsOrdered(Step(s, run[0].event).0, StepView(s, v, run[0]).0, run[1..], clock, cells);
      assert Events(run)[1..] == Events(run[1..]);
    }
  }

  /** Over every run within the window of a stream whose timestamps go with its sequence numbers, nf is the
      number of distinct timestamps in the buffer plus the frames stealing has removed since the last flush,
      so it never falls below zero. */
  lemma StreamFramesAreCounted(min: u32, max: u32, jbtype: JbType, run: seq<Arrival>, clock: int -> int)
    requires min <= max && max >= 1 && Paced(clock) && StampedRun(run, clock)
    requires var s0 := NewBuffer(min, max, jbtype);
             Tracked(s0, EMPTY_VIEW, multiset(s0.pool)) && GoodRun(s0, EMPTY_VIEW, run, multiset(s0.pool))
    ensures var s0 := NewBuffer(min, max, jbtype);
            var s := After(s0, Events(run), multiset(s0.pool));
            var stolen := StolenAfter(s0, Events(run), 0, multiset(s0.pool));
            stolen + max < TWO32 ==>
              s.nf == |Timestamps(s.packets)| + stolen && (s.packets != [] ==> s.nf > 0)
  {
    hide Sound, HasCells, Shows, GoodRun, Paced, StampedRun, OrderedRun, Timestamps, Runs;
    var s0 := NewBuffer(min, max, jbtype);
    StreamIsOrdered(s0, EMPTY_VIEW, run, clock, multiset(s0.pool));
    FramesAreCounted(min, max, jbtype, Events(run));
  }
}
