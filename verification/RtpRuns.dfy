/** The receive path over whole runs: what the jitter buffer plays is passed on in order, and the losses
    reported make up the numbers in between. */
module RtpRuns {
  import opened JbufState
  import opened JbufSound
  import opened JbufOrder
  import opened RtpReceive

  // ---- loss accounting over what the jitter buffer plays ----

  /** The packets played. */
  function Entries(marks: seq<Mark>): seq<Entry>
    decreases |marks|
  {
    if marks == [] then []
    else if marks[0].Played? then [marks[0].entry] + Entries(marks[1..])
    else Entries(marks[1..])
  }

  lemma {:induction false} EntriesConcat(a: seq<Mark>, b: seq<Mark>)
    ensures Entries(a + b) == Entries(a) + Entries(b)
    decreases |a|
  {
    if a == [] {
      assert a + b == b;
    } else {
      EntriesConcat(a[1..], b);
      assert (a + b)[1..] == a[1..] + b && (a + b)[0] == a[0];
      if a[0].Played? {
        var first, rest, later := [a[0].entry], Entries(a[1..]), Entries(b);
        assert first + rest + later == first + (rest + later);
      }
    }
  }

  /** A stretch of packets played after number first: no flush, no number 0 modulo 2^16 before the last,
      and no step over 2999. */
  predicate Stretch(first: int, marks: seq<Mark>)
    decreases |marks|
  {
    marks != [] ==>
      && marks[0].Played? && marks[0].entry.number - first <= 2999
      && (|marks| > 1 ==> Wire(marks[0].entry.number) != 0) && Stretch(marks[0].entry.number, marks[1..])
  }

  lemma InOrderTail(first: Option, marks: seq<Mark>)
    requires InOrder(first, marks) && marks != [] && marks[0].Played?
    requires |marks| > 1 ==> Wire(marks[0].entry.number) != 0
    ensures InOrder(Just(marks[0].entry.number), marks[1..])
    ensures first.Just? ==> first.value < marks[0].entry.number < first.value + HALF
  {
    hide Wire;
    var rest := marks[1..];
    if rest != [] {
      assert Follows(marks[1 - 1], marks[1]);
    }
    forall k | 0 < k < |rest|
      ensures Follows(rest[k - 1], rest[k])
    {
      assert Follows(marks[k + 1 - 1], marks[k + 1]);
    }
  }

  /** The order of the jitter buffer makes every step of a stretch a step forward. */
  lemma {:induction false} StretchSteps(first: int, marks: seq<Mark>)
    requires Stretch(first, marks) && InOrder(Just(first), marks)
    ensures |Entries(marks)| == |marks| && SmallSteps(first, Entries(marks))
    decreases |marks|
  {
    hide Wire, InOrder;
    if marks != [] {
      InOrderTail(Just(first), marks);
      StretchSteps(marks[0].entry.number, marks[1..]);
      assert Entries(marks)[1..] == Entries(marks[1..]);
    }
  }

  lemma OrderedConserves(first: int, marks: seq<Mark>)
    requires Stretch(first, marks) && InOrder(Just(first), marks)
    ensures |Entries(marks)| == |marks|
    ensures var to := Last(first, Entries(marks));
            Losses(Wire(first), Entries(marks)) == (to - first - |marks|, Wire(to))
  {
    hide *;
    StretchSteps(first, marks);
    LossConservation(first, Entries(marks));
  }

  /** Over every run of the jitter buffer within the window: a packet played after a number that is not 0
      modulo 2^16, with no flush between, is never reported as duplicate or misordered, and pseq follows it. */
  lemma PlayedIsAccepted(s: State, v: View, run: seq<Arrival>, k: int, cells: multiset<nat>)
    requires Tracked(s, v, cells) && GoodRun(s, v, run, cells)
    requires var marks := Marks(s, v, run, cells);
             && 0 < k < |marks| && marks[k - 1].Played? && marks[k].Played?
             && Wire(marks[k - 1].entry.number) != 0
    ensures var marks := Marks(s, v, run, cells);
            var (lost, pseq) := LostCalc(Wire(marks[k - 1].entry.number), Wire(marks[k].entry.number));
            lost >= 0 && pseq == Wire(marks[k].entry.number)
  {
    hide Wire, LostCalc, Tracked, GoodRun, Marks;
    var marks := Marks(s, v, run, cells);
    PlayedInOrder(s, v, run, cells);
    assert Follows(marks[k - 1], marks[k]);
    StepForward(marks[k - 1].entry.number, marks[k].entry.number);
  }

  /** Over every run of the jitter buffer within the window, in every stretch of it: nothing is reported as
      duplicate or misordered, and packets plus losses make up the whole distance. */
  lemma StretchConserves(s: State, v: View, run: seq<Arrival>, i: nat, j: nat, cells: multiset<nat>)
    requires Tracked(s, v, cells) && GoodRun(s, v, run, cells)
    requires var marks := Marks(s, v, run, cells);
             && i < j <= |marks| && marks[i].Played? && (i + 1 < j ==> Wire(marks[i].entry.number) != 0)
             && Stretch(marks[i].entry.number, marks[i + 1..j])
    ensures var marks := Marks(s, v, run, cells);
            var first, played := marks[i].entry.number, Entries(marks[i + 1..j]);
            var to := Last(first, played);
            |played| == j - i - 1 && Losses(Wire(first), played) == (to - first - |played|, Wire(to))
  {
    hide Wire, Tracked, GoodRun, Marks, InOrder, Stretch, Losses, Entries;
    var marks := Marks(s, v, run, cells);
    PlayedInOrder(s, v, run, cells);
    SliceInOrder(v.played, marks, i, j);
    InOrderTail(Nothing, marks[i..j]);
    assert marks[i..j][1..] == marks[i + 1..j];
    OrderedConserves(marks[i].entry.number, marks[i + 1..j]);
  }

  lemma SliceInOrder(last: Option, marks: seq<Mark>, i: nat, j: nat)
    requires i < j <= |marks| && InOrder(last, marks)
    ensures InOrder(Nothing, marks[i..j])
  {
    hide Follows;
    var slice := marks[i..j];
    forall k | 0 < k < |slice|
      ensures Follows(slice[k - 1], slice[k])
    {
      assert Follows(marks[i + k - 1], marks[i + k]);
    }
  }

  // ---- the drain loop ----

  /** The list when the loop ends, and the marks it makes. */
  function DrainView(jb: State, v: View, n: nat, i: nat, asks: seq<bool>): (View, seq<Mark>)
    requires |jb.packets| == |v.list|
    decreases n
  {
    if n == 0 || Waits(jb) then (v, [])
    else
      var (jb', err) := Get(jb);
      if err == Again || Asks(asks, i) then
        var rest := DrainView(jb', PlayView(v), n - 1, i + 1, asks);
        (rest.0, [Played(v.list[0])] + rest.1)
      else (PlayView(v), [Played(v.list[0])])
  }

  lemma GetTracked(jb: State, v: View, cells: multiset<nat>)
    requires Tracked(jb, v, cells) && !Waits(jb)
    ensures Get(jb).0 == Play(jb) && Tracked(Play(jb), PlayView(v), cells) && Holds(jb.packets[0], v.list[0])
  {
    hide Sound, HasCells, Shows, Play, PlayView, Holds;
    PlaySound(jb, cells);
    SoundHasCells(Play(jb), cells);
    PlayShows(jb, v);
  }

  lemma {:induction false} DrainTracked(jb: State, v: View, pseq: u32, n: nat, i: nat, asks: seq<bool>,
                                        cells: multiset<nat>)
    requires Tracked(jb, v, cells)
    ensures Tracked(DrainLoop(jb, pseq, n, i, asks).jb, DrainView(jb, v, n, i, asks).0, cells)
    decreases n
  {
    hide Sound, HasCells, LostCalc, Play, PlayView;
    if n > 0 && !Waits(jb) {
      var pseq' := LostCalc(pseq, jb.packets[0].hdr.sn).1;
      GetTracked(jb, v, cells);
      DrainTracked(Play(jb), PlayView(v), pseq', n - 1, i + 1, asks, cells);
    }
  }

  /** The loop plays in order. */
  lemma {:induction false} DrainInOrder(jb: State, v: View, n: nat, i: nat, asks: seq<bool>, rest: seq<Mark>,
                                        cells: multiset<nat>)
    requires Tracked(jb, v, cells) && InOrder(DrainView(jb, v, n, i, asks).0.played, rest)
    ensures InOrder(v.played, DrainView(jb, v, n, i, asks).1 + rest)
    decreases n
  {
    hide Sound, HasCells, InOrder, Play, Wire;
    if n == 0 || Waits(jb) {
      assert [] + rest == rest;
    } else {
      GetTracked(jb, v, cells);
      var (jb', err) := Get(jb);
      var get := Arrival(GetEvent, 0);
      if err == Again || Asks(asks, i) {
        var later := DrainView(jb', PlayView(v), n - 1, i + 1, asks).1;
        DrainInOrder(jb', PlayView(v), n - 1, i + 1, asks, rest, cells);
        StepInOrder(jb, v, get, later + rest, cells);
        assert [Played(v.list[0])] + later + rest == [Played(v.list[0])] + (later + rest);
      } else {
        StepInOrder(jb, v, get, rest, cells);
      }
    }
  }

  /** All losses reported with the packets passed on. */
  function TotalLost(out: seq<Delivery>): nat
    decreases |out|
  {
    if out == [] then 0 else out[0].lost + TotalLost(out[1..])
  }

  lemma {:induction false} TotalLostConcat(a: seq<Delivery>, b: seq<Delivery>)
    ensures TotalLost(a + b) == TotalLost(a) + TotalLost(b)
    decreases |a|
  {
    if a == [] {
      assert a + b == b;
    } else {
      TotalLostConcat(a[1..], b);
      assert (a + b)[1..] == a[1..] + b;
    }
  }

  /** The packets passed on are the given ones, in this order. */
  predicate Delivered(out: seq<Delivery>, played: seq<Entry>) {
    |out| == |played| && forall k :: 0 <= k < |out| ==> Holds(out[k].packet, played[k])
  }

  /** The packets passed on are those played; losses and pseq account for their numbers. */
  predicate AccountsFor(pseq: u32, out: seq<Delivery>, pseq': u32, played: seq<Entry>) {
    Delivered(out, played) && (TotalLost(out), pseq') == Losses(pseq, played)
  }

  lemma AccountsConcat(pseq: u32, out1: seq<Delivery>, pseq1: u32, played1: seq<Entry>,
                       out2: seq<Delivery>, pseq2: u32, played2: seq<Entry>)
    requires AccountsFor(pseq, out1, pseq1, played1) && AccountsFor(pseq1, out2, pseq2, played2)
    ensures AccountsFor(pseq, out1 + out2, pseq2, played1 + played2)
  {
    hide Losses, Holds, TotalLost;
    TotalLostConcat(out1, out2);
    LossesConcat(pseq, played1, played2);
  }

  lemma AccountsNone(pseq: u32)
    ensures AccountsFor(pseq, [], pseq, [])
  {}

  lemma AccountsOne(pseq: u32, p: Packet, e: Entry)
    requires Holds(p, e)
    ensures var (lost, pseq') := LostCalc(pseq, p.hdr.sn);
            AccountsFor(pseq, [Delivery(p, if lost > 0 then lost else 0)], pseq', Entries([Played(e)]))
  {
    hide LostCalc, Wire;
    var marks := [Played(e)];
    assert marks[1..] == [] && Entries(marks) == [e];
    assert Entries(marks)[1..] == [];
    var (lost, pseq') := LostCalc(pseq, p.hdr.sn);
    var out := [Delivery(p, if lost > 0 then lost else 0)];
    assert out[1..] == [];
    assert Losses(pseq', []) == (0, pseq') && TotalLost([]) == 0;
  }

  /** What the loop passes on is what it plays, with its losses. */
  lemma {:induction false} DrainAccounts(jb: State, v: View, pseq: u32, n: nat, i: nat, asks: seq<bool>,
                                         cells: multiset<nat>)
    requires Tracked(jb, v, cells)
    ensures var d := DrainLoop(jb, pseq, n, i, asks);
            AccountsFor(pseq, d.out, d.pseq, Entries(DrainView(jb, v, n, i, asks).1))
    decreases n
  {
    hide Sound, HasCells, LostCalc, Play, PlayView, Entries, AccountsFor, Holds;
    if n == 0 || Waits(jb) {
      AccountsNone(pseq);
      NoEntries();
    } else {
      GetTracked(jb, v, cells);
      var (jb', err) := Get(jb);
      var p, first := jb.packets[0], [Played(v.list[0])];
      var (lost, pseq') := LostCalc(pseq, p.hdr.sn);
      AccountsOne(pseq, p, v.list[0]);
      if err == Again || Asks(asks, i) {
        DrainAccounts(jb', PlayView(v), pseq', n - 1, i + 1, asks, cells);
        var rest := DrainLoop(jb', pseq', n - 1, i + 1, asks);
        var later := DrainView(jb', PlayView(v), n - 1, i + 1, asks).1;
        EntriesConcat(first, later);
        var delivery := Delivery(p, if lost > 0 then lost else 0);
        AccountsConcat(pseq, [delivery], pseq', Entries(first), rest.out, rest.pseq, Entries(later));
      }
    }
  }

  lemma NoEntries()
    ensures Entries([]) == []
  {}

  // ---- events at the receiver ----

  datatype RxEvent =
    | Arrives(h: Header, mem: int, now: u64, u: Undefined, verdict: Verdict, asks: seq<bool>, number: int)
    | FlushCall
    | TimerFires

  /** The packet gets as far as the jitter buffer. */
  predicate ReachesBuffer(r: Receiver, e: RxEvent) {
    e.Arrives? && e.verdict != Refuse && (e.verdict == NoData ==> r.pseqSet)
  }

  predicate SourceChanges(r: Receiver, h: Header) { r.pseqSet && h.ssrc != r.ssrc }

  function BufferSeen(r: Receiver, h: Header): State { if SourceChanges(r, h) then Flush(r.jb) else r.jb }
  function ViewSeen(r: Receiver, v: View, h: Header): View { if SourceChanges(r, h) then EMPTY_VIEW else v }

  function PutArrival(e: RxEvent): Arrival
    requires e.Arrives?
  {
    Arrival(PutEvent(e.h, e.mem, e.now, e.u), e.number)
  }

  /** The packet is within the window of the list it meets. */
  ghost predicate InWindow(r: Receiver, v: View, e: RxEvent) {
    ReachesBuffer(r, e) ==> GoodStep(BufferSeen(r, e.h), ViewSeen(r, v, e.h), PutArrival(e))
  }

  function RxStep(r: Receiver, e: RxEvent): (Receiver, seq<Delivery>)
    requires HasCells(r.jb)
  {
    match e
    case Arrives(h, mem, now, u, verdict, asks, _) => Decode(r, h, mem, now, u, verdict, asks)
    case FlushCall => (r.(jb := Flush(r.jb)), [])
    case TimerFires => (r.(jb := WishDown(r.jb)), [])
  }

  /** pseq when the loop starts. */
  function StartPseq(r: Receiver, e: RxEvent): u32 {
    if e.Arrives? && (!r.pseqSet || e.h.ssrc != r.ssrc) then Before(e.h.sn) else r.pseq
  }

  lemma SeenTracked(r: Receiver, v: View, h: Header, cells: multiset<nat>)
    requires Tracked(r.jb, v, cells)
    ensures Tracked(BufferSeen(r, h), ViewSeen(r, v, h), cells)
  {
    hide Sound, Flush;
    FlushSound(r.jb, cells);
    SoundHasCells(Flush(r.jb), cells);
  }

  /** Buffer, list and marks after the put of a packet. */
  ghost function PutRx(r: Receiver, v: View, e: RxEvent, cells: multiset<nat>): (State, View, seq<Mark>)
    requires Tracked(r.jb, v, cells) && e.Arrives?
  {
    var jb, w := BufferSeen(r, e.h), ViewSeen(r, v, e.h);
    SeenTracked(r, v, e.h, cells);
    var (w', marks) := StepView(jb, w, PutArrival(e));
    (Step(jb, PutArrival(e).event).0, w', (if SourceChanges(r, e.h) then [Reset] else []) + marks)
  }

  lemma PutRxTracked(r: Receiver, v: View, e: RxEvent, cells: multiset<nat>)
    requires Tracked(r.jb, v, cells) && InWindow(r, v, e) && ReachesBuffer(r, e)
    ensures Tracked(PutRx(r, v, e, cells).0, PutRx(r, v, e, cells).1, cells)
  {
    hide Sound, Shows, HasCells, Step, GoodStep, BufferSeen, ViewSeen, Tracked;
    SeenTracked(r, v, e.h, cells);
    StepTracked(BufferSeen(r, e.h), ViewSeen(r, v, e.h), PutArrival(e), cells);
  }

  /** A packet that reaches the buffer is put, and the buffer drained. */
  lemma RxStepIs(r: Receiver, v: View, e: RxEvent, cells: multiset<nat>)
    requires Tracked(r.jb, v, cells) && ReachesBuffer(r, e)
    ensures var jb := PutRx(r, v, e, cells).0;
            var d := DrainLoop(jb, StartPseq(r, e), jb.n, 0, e.asks);
            RxStep(r, e) == (Receiver(d.jb, d.pseq, true, e.h.ssrc), d.out)
  {
    hide Sound, Shows, HasCells, Put, DrainLoop, Flush, StepView;
  }

  /** The list after an event, and the marks it makes. */
  ghost function RxView(r: Receiver, v: View, e: RxEvent, cells: multiset<nat>): (View, seq<Mark>)
    requires Tracked(r.jb, v, cells) && InWindow(r, v, e)
  {
    if e.FlushCall? then (EMPTY_VIEW, [Reset])
    else if !ReachesBuffer(r, e) then (v, [])
    else
      PutRxTracked(r, v, e, cells);
      var (jb, w, marks) := PutRx(r, v, e, cells);
      var rest := DrainView(jb, w, jb.n, 0, e.asks);
      (rest.0, marks + rest.1)
  }

  lemma RxTracked(r: Receiver, v: View, e: RxEvent, cells: multiset<nat>)
    requires Tracked(r.jb, v, cells) && InWindow(r, v, e)
    ensures Tracked(RxStep(r, e).0.jb, RxView(r, v, e, cells).0, cells)
  {
    hide Sound, Shows, HasCells, Put, DrainLoop, DrainView, PutRx, Flush, WishDown, InWindow;
    match e {
      case Arrives(_, _, _, _, _, asks, _) =>
        if ReachesBuffer(r, e) {
          PutRxTracked(r, v, e, cells);
          RxStepIs(r, v, e, cells);
          var (jb, w, _) := PutRx(r, v, e, cells);
          DrainTracked(jb, w, StartPseq(r, e), jb.n, 0, asks, cells);
        }
      case FlushCall =>
        StepTracked(r.jb, v, Arrival(FlushEvent, 0), cells);
      case TimerFires =>
        StepTracked(r.jb, v, Arrival(WishDownEvent, 0), cells);
    }
  }

  /** Every event plays in order. */
  lemma RxInOrder(r: Receiver, v: View, e: RxEvent, rest: seq<Mark>, cells: multiset<nat>)
    requires Tracked(r.jb, v, cells) && InWindow(r, v, e) && InOrder(RxView(r, v, e, cells).0.played, rest)
    ensures InOrder(v.played, RxView(r, v, e, cells).1 + rest)
  {
    hide Sound, HasCells, InOrder, DrainView, Step, StepView, GoodStep, Flush;
    if e.FlushCall? {
      FlushInOrder(r.jb, v, rest, cells);
    } else if !ReachesBuffer(r, e) {
      assert [] + rest == rest;
    } else {
      PutRxTracked(r, v, e, cells);
      SeenTracked(r, v, e.h, cells);
      var (jb, w, marks) := PutRx(r, v, e, cells);
      var drained := DrainView(jb, w, jb.n, 0, e.asks).1;
      DrainInOrder(jb, w, jb.n, 0, e.asks, rest, cells);
      var put := StepView(BufferSeen(r, e.h), ViewSeen(r, v, e.h), PutArrival(e)).1;
      StepInOrder(BufferSeen(r, e.h), ViewSeen(r, v, e.h), PutArrival(e), drained + rest, cells);
      if SourceChanges(r, e.h) {
        FlushInOrder(r.jb, v, put + (drained + rest), cells);
      }
      Regroup(if SourceChanges(r, e.h) then [Reset] else [], put, drained, rest);
    }
  }

  lemma FlushInOrder(s: State, v: View, rest: seq<Mark>, cells: multiset<nat>)
    requires Tracked(s, v, cells) && InOrder(EMPTY_VIEW.played, rest)
    ensures InOrder(v.played, [Reset] + rest)
  {
    hide Sound, Shows, InOrder;
    StepInOrder(s, v, Arrival(FlushEvent, 0), rest, cells);
  }

  lemma Regroup(a: seq<Mark>, b: seq<Mark>, c: seq<Mark>, d: seq<Mark>)
    ensures a + b + c + d == a + (b + (c + d)) && [] + (b + (c + d)) == b + (c + d)
  {}

  /** What an event passes on is what it plays, with its losses. */
  lemma RxAccounts(r: Receiver, v: View, e: RxEvent, cells: multiset<nat>)
    requires Tracked(r.jb, v, cells) && InWindow(r, v, e)
    ensures AccountsFor(StartPseq(r, e), RxStep(r, e).1, RxStep(r, e).0.pseq, Entries(RxView(r, v, e, cells).1))
  {
    hide Sound, HasCells, Put, DrainLoop, DrainView, Flush, WishDown, InWindow, AccountsFor, Entries, PutRx;
    AccountsNone(StartPseq(r, e));
    NoEntries();
    if ReachesBuffer(r, e) {
      PutRxTracked(r, v, e, cells);
      RxStepIs(r, v, e, cells);
      var (jb, w, marks) := PutRx(r, v, e, cells);
      DrainAccounts(jb, w, StartPseq(r, e), jb.n, 0, e.asks, cells);
      EntriesConcat(marks, DrainView(jb, w, jb.n, 0, e.asks).1);
      PutPlaysNothing(r, v, e, cells);
      assert [] + Entries(DrainView(jb, w, jb.n, 0, e.asks).1) == Entries(DrainView(jb, w, jb.n, 0, e.asks).1);
    } else if e.FlushCall? {
      ResetsPlayNothing([Reset]);
    }
  }

  lemma {:induction false} ResetsPlayNothing(marks: seq<Mark>)
    requires forall k :: 0 <= k < |marks| ==> marks[k].Reset?
    ensures Entries(marks) == []
    decreases |marks|
  {
    if marks != [] {
      ResetsPlayNothing(marks[1..]);
    }
  }

  lemma PutPlaysNothing(r: Receiver, v: View, e: RxEvent, cells: multiset<nat>)
    requires Tracked(r.jb, v, cells) && e.Arrives?
    ensures Entries(PutRx(r, v, e, cells).2) == []
  {
    hide Sound, Shows, Step, ArriveView, PutView, Arrive, Flush, Entries;
    ResetsPlayNothing(PutRx(r, v, e, cells).2);
  }

  // ---- whole runs ----

  /** Every packet of the run is within the window. */
  ghost predicate WindowRun(r: Receiver, v: View, run: seq<RxEvent>, cells: multiset<nat>)
    requires Tracked(r.jb, v, cells)
    decreases |run|
  {
    run != [] ==>
      InWindow(r, v, run[0]) &&
      (RxTracked(r, v, run[0], cells);
       WindowRun(RxStep(r, run[0]).0, RxView(r, v, run[0], cells).0, run[1..], cells))
  }

  ghost function RunMarks(r: Receiver, v: View, run: seq<RxEvent>, cells: multiset<nat>): seq<Mark>
    requires Tracked(r.jb, v, cells) && WindowRun(r, v, run, cells)
    decreases |run|
  {
    if run == [] then []
    else
      RxTracked(r, v, run[0], cells);
      RxView(r, v, run[0], cells).1 + RunMarks(RxStep(r, run[0]).0, RxView(r, v, run[0], cells).0, run[1..], cells)
  }

  /** The receiver and the list after a run, and everything passed on. */
  ghost function RxRun(r: Receiver, v: View, run: seq<RxEvent>, cells: multiset<nat>): (Receiver, View, seq<Delivery>)
    requires Tracked(r.jb, v, cells) && WindowRun(r, v, run, cells)
    ensures Tracked(RxRun(r, v, run, cells).0.jb, RxRun(r, v, run, cells).1, cells)
    decreases |run|
  {
    if run == [] then (r, v, [])
    else
      RxTracked(r, v, run[0], cells);
      var (r', out) := RxStep(r, run[0]);
      var rest := RxRun(r', RxView(r, v, run[0], cells).0, run[1..], cells);
      (rest.0, rest.1, out + rest.2)
  }

  /** The receiver plays in order, except right after a flush and right after number 0 modulo 2^16. */
  lemma {:induction false} RunInOrder(r: Receiver, v: View, run: seq<RxEvent>, cells: multiset<nat>)
    requires Tracked(r.jb, v, cells) && WindowRun(r, v, run, cells)
    ensures InOrder(v.played, RunMarks(r, v, run, cells))
    decreases |run|
  {
    hide Sound, Shows, HasCells, InOrder, RxStep, RxView, InWindow;
    if run == [] {
      NoMarks(v.played);
    } else {
      RxTracked(r, v, run[0], cells);
      var r', v' := RxStep(r, run[0]).0, RxView(r, v, run[0], cells).0;
      RunInOrder(r', v', run[1..], cells);
      RxInOrder(r, v, run[0], RunMarks(r', v', run[1..], cells), cells);
    }
  }

  /** Every packet of the run comes from one source. */
  predicate OneSource(ssrc: u32, run: seq<RxEvent>) {
    forall k :: 0 <= k < |run| ==> run[k].Arrives? ==> run[k].h.ssrc == ssrc
  }

  /** Every packet of the run comes from one source, the receiver's if it has one. */
  predicate FromSource(r: Receiver, ssrc: u32, run: seq<RxEvent>) {
    OneSource(ssrc, run) && (r.pseqSet ==> r.ssrc == ssrc)
  }

  /** pseq before the first packet of such a run is counted. */
  function RunPseq(isSet: bool, pseq: u32, run: seq<RxEvent>): u32
    decreases |run|
  {
    if isSet || run == [] then pseq
    else if run[0].Arrives? then Before(run[0].h.sn)
    else RunPseq(false, pseq, run[1..])
  }

  lemma SourceStays(r: Receiver, ssrc: u32, run: seq<RxEvent>)
    requires HasCells(r.jb) && run != [] && FromSource(r, ssrc, run)
    ensures var r' := RxStep(r, run[0]).0;
            && FromSource(r', ssrc, run[1..]) && r'.pseqSet == (r.pseqSet || run[0].Arrives?)
            && (r'.pseqSet ==> StartPseq(r, run[0]) == RunPseq(r.pseqSet, r.pseq, run))
  {
    hide HasCells, Put, DrainLoop, Flush, WishDown;
    forall k | 0 <= k < |run[1..]| && run[1..][k].Arrives?
      ensures run[1..][k].h.ssrc == ssrc
    {
      assert run[1..][k] == run[k + 1];
    }
  }

  /** Flushes and the timer pass on nothing. */
  lemma QuietEvent(r: Receiver, v: View, e: RxEvent, cells: multiset<nat>)
    requires Tracked(r.jb, v, cells) && InWindow(r, v, e) && !e.Arrives?
    ensures RxStep(r, e).1 == [] && RxStep(r, e).0.pseq == r.pseq && Entries(RxView(r, v, e, cells).1) == []
  {
    hide Sound, Shows, HasCells, Flush, WishDown, Entries;
    ResetsPlayNothing(RxView(r, v, e, cells).1);
  }

  /** What a run from one source passes on is what it plays, with its losses. */
  lemma {:induction false} RunAccounts(r: Receiver, v: View, run: seq<RxEvent>, ssrc: u32, cells: multiset<nat>)
    requires Tracked(r.jb, v, cells) && WindowRun(r, v, run, cells) && FromSource(r, ssrc, run)
    ensures var (r', _, out) := RxRun(r, v, run, cells);
            var played := Entries(RunMarks(r, v, run, cells));
            && AccountsFor(RunPseq(r.pseqSet, r.pseq, run), out, r'.pseq, played)
            && (r.pseqSet || played != [] ==> r'.pseqSet && r'.ssrc == ssrc)
    decreases |run|
  {
    hide Sound, HasCells, Shows, RxStep, RxView, InWindow, AccountsFor, StartPseq, OneSource, Entries;
    var pseq := RunPseq(r.pseqSet, r.pseq, run);
    if run == [] {
      AccountsNone(pseq);
      NoEntries();
    } else {
      RxTracked(r, v, run[0], cells);
      SourceStays(r, ssrc, run);
      var (r', out) := RxStep(r, run[0]);
      var v', marks := RxView(r, v, run[0], cells).0, RxView(r, v, run[0], cells).1;
      RunAccounts(r', v', run[1..], ssrc, cells);
      var rest, later := RxRun(r', v', run[1..], cells), RunMarks(r', v', run[1..], cells);
      EntriesConcat(marks, later);
      if r'.pseqSet {
        RxAccounts(r, v, run[0], cells);
        AccountsConcat(pseq, out, r'.pseq, Entries(marks), rest.2, rest.0.pseq, Entries(later));
      } else {
        QuietEvent(r, v, run[0], cells);
        assert out + rest.2 == rest.2 && Entries(marks) + Entries(later) == Entries(later);
      }
    }
  }

  /** The receiver has passed on this number, and waits for the next. */
  ghost predicate PassedOn(r: Receiver, v: View, number: int) {
    r.pseqSet && v.played == Just(number) && r.pseq == Wire(number)
  }

  /** A receiver that follows number first, over every run within the window from one source that plays a
      stretch: packets passed on plus losses reported with them are the whole distance from first to the
      last number passed on, where pseq ends. */
  lemma ReceiverConserves(r: Receiver, v: View, run: seq<RxEvent>, first: int, cells: multiset<nat>)
    requires Tracked(r.jb, v, cells) && WindowRun(r, v, run, cells) && OneSource(r.ssrc, run)
    requires PassedOn(r, v, first) && Stretch(first, RunMarks(r, v, run, cells))
    ensures var (r', _, out) := RxRun(r, v, run, cells);
            var played := Entries(RunMarks(r, v, run, cells));
            var to := Last(first, played);
            Delivered(out, played) && |out| + TotalLost(out) == to - first && r'.pseq == Wire(to)
  {
    hide Tracked, WindowRun, RunMarks, RxRun, OneSource, Stretch, InOrder, Losses, Entries, Wire, TotalLost, Delivered;
    var marks := RunMarks(r, v, run, cells);
    RunInOrder(r, v, run, cells);
    OrderedConserves(first, marks);
    RunAccounts(r, v, run, r.ssrc, cells);
    DeliveredLength(RxRun(r, v, run, cells).2, Entries(marks));
  }

  lemma DeliveredLength(out: seq<Delivery>, played: seq<Entry>)
    requires Delivered(out, played)
    ensures |out| == |played|
  {}

  // ---- where stretches start ----

  /** The last played number the list remembers after these marks. */
  function PlayedAfter(last: Option, marks: seq<Mark>): Option {
    if marks == [] then last
    else
      match marks[|marks| - 1]
      case Reset => Nothing
      case Played(e) => if Wire(e.number) == 0 then Nothing else Just(e.number)
  }

  lemma PlayedConcat(last: Option, a: seq<Mark>, b: seq<Mark>)
    ensures PlayedAfter(last, a + b) == PlayedAfter(PlayedAfter(last, a), b)
  {
    hide Wire;
    if b == [] {
      assert a + b == a;
    }
  }

  lemma {:induction false} DrainPlayed(jb: State, v: View, n: nat, i: nat, asks: seq<bool>, cells: multiset<nat>)
    requires Tracked(jb, v, cells)
    ensures var d := DrainView(jb, v, n, i, asks); d.0.played == PlayedAfter(v.played, d.1)
    decreases n
  {
    hide Sound, HasCells, Play, Wire;
    if n > 0 && !Waits(jb) {
      GetTracked(jb, v, cells);
      DrainPlayed(Play(jb), PlayView(v), n - 1, i + 1, asks, cells);
      PlayedConcat(v.played, [Played(v.list[0])], DrainView(Play(jb), PlayView(v), n - 1, i + 1, asks).1);
    }
  }

  lemma RxPlayed(r: Receiver, v: View, e: RxEvent, cells: multiset<nat>)
    requires Tracked(r.jb, v, cells) && InWindow(r, v, e)
    ensures RxView(r, v, e, cells).0.played == PlayedAfter(v.played, RxView(r, v, e, cells).1)
  {
    hide Sound, HasCells, DrainView, Step, Arrive, ArriveFlushes, Flush, Has, SortedInsert, Wire;
    if ReachesBuffer(r, e) {
      PutRxTracked(r, v, e, cells);
      var (jb, w, marks) := PutRx(r, v, e, cells);
      DrainPlayed(jb, w, jb.n, 0, e.asks, cells);
      PlayedConcat(v.played, marks, DrainView(jb, w, jb.n, 0, e.asks).1);
    }
  }

  lemma {:induction false} RunPlayed(r: Receiver, v: View, run: seq<RxEvent>, cells: multiset<nat>)
    requires Tracked(r.jb, v, cells) && WindowRun(r, v, run, cells)
    ensures RxRun(r, v, run, cells).1.played == PlayedAfter(v.played, RunMarks(r, v, run, cells))
    decreases |run|
  {
    hide Sound, HasCells, Shows, RxStep, RxView, InWindow, PlayedAfter;
    if run == [] {
      NothingPlayed(v.played);
    } else {
      RxTracked(r, v, run[0], cells);
      RxPlayed(r, v, run[0], cells);
      var r', v' := RxStep(r, run[0]).0, RxView(r, v, run[0], cells).0;
      RunPlayed(r', v', run[1..], cells);
      PlayedConcat(v.played, RxView(r, v, run[0], cells).1, RunMarks(r', v', run[1..], cells));
    }
  }

  lemma NothingPlayed(last: Option)
    ensures PlayedAfter(last, []) == last
  {}

  lemma EntriesLast(marks: seq<Mark>)
    requires marks != [] && marks[|marks| - 1].Played?
    ensures Entries(marks) == Entries(marks[..|marks| - 1]) + [marks[|marks| - 1].entry]
  {
    hide Entries;
    var init, last := marks[..|marks| - 1], [marks[|marks| - 1]];
    EntriesConcat(init, last);
    EntriesOne(last[0]);
    assert marks == init + last;
  }

  lemma EntriesOne(m: Mark)
    requires m.Played?
    ensures Entries([m]) == [m.entry]
  {
    assert [m][1..] == [];
  }

  lemma LossesLast(pseq: u32, played: seq<Entry>, e: Entry)
    ensures Losses(pseq, played + [e]).1 == LostCalc(Losses(pseq, played).1, Wire(e.number)).1
  {
    hide LostCalc, Wire;
    LossesConcat(pseq, played, [e]);
    assert [e][1..] == [];
  }

  lemma AcceptedMoves(pseq: u32, sn: u16)
    requires LostCalc(pseq, sn).0 >= 0
    ensures LostCalc(pseq, sn).1 == sn
  {}

  /** The last packet the run plays has this number, which is not 0 modulo 2^16, and lostcalc does not refuse it. */
  ghost predicate EndsAt(r: Receiver, v: View, run: seq<RxEvent>, number: int, cells: multiset<nat>)
    requires Tracked(r.jb, v, cells) && WindowRun(r, v, run, cells)
  {
    var marks := RunMarks(r, v, run, cells);
    && marks != [] && marks[|marks| - 1].Played? && marks[|marks| - 1].entry.number == number && Wire(number) != 0
    && var before := Losses(RunPseq(r.pseqSet, r.pseq, run), Entries(marks[..|marks| - 1])).1;
       LostCalc(before, Wire(number)).0 >= 0
  }

  /** Such a run leaves the receiver where a stretch can start. */
  lemma RunPassesOn(r: Receiver, v: View, run: seq<RxEvent>, number: int, ssrc: u32, cells: multiset<nat>)
    requires Tracked(r.jb, v, cells) && WindowRun(r, v, run, cells) && FromSource(r, ssrc, run)
    requires EndsAt(r, v, run, number, cells)
    ensures var (r', v', _) := RxRun(r, v, run, cells); PassedOn(r', v', number) && r'.ssrc == ssrc
  {
    hide Tracked, WindowRun, RunMarks, RxRun, FromSource, RunPseq, Entries, Losses, LostCalc, Wire;
    hide TotalLost, Delivered;
    var marks := RunMarks(r, v, run, cells);
    var e, init := marks[|marks| - 1].entry, Entries(marks[..|marks| - 1]);
    var pseq := RunPseq(r.pseqSet, r.pseq, run);
    RunPlayed(r, v, run, cells);
    RunAccounts(r, v, run, ssrc, cells);
    EntriesLast(marks);
    LossesLast(pseq, init, e);
    AcceptedMoves(Losses(pseq, init).1, Wire(e.number));
  }

  /** So stretches of one source chain from a new receiver on: after a run that ends at number first, the next run
      that plays a stretch accounts for its whole distance. */
  lemma StretchAfterRun(r: Receiver, v: View, run: seq<RxEvent>, first: int, next: seq<RxEvent>, ssrc: u32,
                        cells: multiset<nat>)
    requires Tracked(r.jb, v, cells) && WindowRun(r, v, run, cells) && FromSource(r, ssrc, run) && OneSource(ssrc, next)
    requires EndsAt(r, v, run, first, cells)
    requires var (r', v', _) := RxRun(r, v, run, cells);
             WindowRun(r', v', next, cells) && Stretch(first, RunMarks(r', v', next, cells))
    ensures var (r', v', _) := RxRun(r, v, run, cells);
            var (end, _, out) := RxRun(r', v', next, cells);
            var played := Entries(RunMarks(r', v', next, cells));
            var to := Last(first, played);
            Delivered(out, played) && |out| + TotalLost(out) == to - first && end.pseq == Wire(to)
  {
    hide *;
    var (r', v', _) := RxRun(r, v, run, cells);
    RunPassesOn(r, v, run, first, ssrc, cells);
    ReceiverConserves(r', v', next, first, cells);
  }

  /** The first packet a new receiver gets, unless its number is 0 modulo 2^16: with no minimum it is played at
      once, and a stretch can start there. */
  lemma FirstPacketEndsAt(max: u32, e: RxEvent)
    requires max >= 1 && e.Arrives? && e.verdict == Accept && e.h.sn == Wire(e.number) != 0
    ensures var s0 := NewBuffer(0, max, Fixed);
            var r, cells := Receiver(s0, UNSET, false, 0), multiset(s0.pool);
            && Tracked(r.jb, EMPTY_VIEW, cells) && WindowRun(r, EMPTY_VIEW, [e], cells)
            && FromSource(r, e.h.ssrc, [e]) && EndsAt(r, EMPTY_VIEW, [e], e.number, cells)
  {
    hide Sound, HasCells, Shows, RxStep, RxView, InWindow, Entries, Losses, Put;
    var s0 := NewBuffer(0, max, Fixed);
    var r, cells := Receiver(s0, UNSET, false, 0), multiset(s0.pool);
    NewTracked(0, max, Fixed);
    FirstPacketView(max, e);
    assert [e][1..] == [];
    RxTracked(r, EMPTY_VIEW, e, cells);
    var marks := RunMarks(r, EMPTY_VIEW, [e], cells);
    var r', v' := RxStep(r, e).0, RxView(r, EMPTY_VIEW, e, cells).0;
    assert RunMarks(r', v', [e][1..], cells) == [];
    assert marks == RxView(r, EMPTY_VIEW, e, cells).1;
    assert marks[..0] == [];
    NoEntries();
    FirstAccepted(e.number);
  }

  lemma FirstAccepted(number: int)
    ensures LostCalc(Before(Wire(number)), Wire(number)).0 >= 0
    ensures Losses(Before(Wire(number)), []).1 == Before(Wire(number))
  {}

  lemma FirstPacketView(max: u32, e: RxEvent)
    requires max >= 1 && e.Arrives? && e.verdict == Accept && e.h.sn == Wire(e.number) != 0
    ensures var s0 := NewBuffer(0, max, Fixed);
            var r, cells := Receiver(s0, UNSET, false, 0), multiset(s0.pool);
            && Tracked(r.jb, EMPTY_VIEW, cells) && InWindow(r, EMPTY_VIEW, e)
            && RxView(r, EMPTY_VIEW, e, cells).1 == [Played(Entry(e.number, e.h, e.mem))]
  {
    hide Sound, Shows, Wire;
    NewTracked(0, max, Fixed);
    var s0 := NewBuffer(0, max, Fixed);
    var jb := Put(s0, e.h, e.mem, e.now, e.u).0;
    assert jb.packets == [Packet(0, e.h, e.mem)] && jb.nf == jb.n == 1 && jb.wish == 0;
  }
}
