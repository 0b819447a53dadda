/** The adaptive depth of the jitter buffer: calc_rdiff and wish_down. The ratio of packets to frames,
    a float in the source, is an exact fraction here. */
module JbufAdaptive {
  import opened Arith
  import opened JbufState
  import opened JbufSound
  import opened JbufFrames

  /** The largest distance for which the moving average cannot overflow. */
  const REACH: int := 4095
  const PEAK: int := 4095 * 1024

  /** An average up to here stays up to here while no update overflows; three times it still fits int32. */
  const TOP: int := 0x2AAA_AAAA

  /** The sample is less than 2^22 above the average. */
  predicate StepFits(s: State, sn: u16) { Sample(s, sn) - s.rdiff < 0x40_0000 }

  function Distance(s: State, sn: u16): int { Abs(Int16(s.seqPut + 1 - sn)) }

  lemma SampleIsDistance(s: State, sn: u16)
    ensures Sample(s, sn) == Distance(s, sn) * EMA_COEFF >= 0
  {}

  lemma DownFits(d: int, k: nat)
    requires -TOP <= d <= 0 && k <= 3
    ensures FitsInt32(d * k)
  {
    MulMono(-d, k, 3);
    assert d * k == -((-d) * k);
  }

  lemma TruncDivBounds(a: int, k: int)
    requires 0 <= k <= EMA_COEFF
    ensures a >= 0 ==> 0 <= TruncDiv(a * k, EMA_COEFF) <= a
    ensures a <= 0 ==> a <= TruncDiv(a * k, EMA_COEFF) <= 0
  {
    if a >= 0 {
      Scale(a, k);
    } else {
      Scale(-a, k);
      assert -(a * k) == (-a) * k;
    }
  }

  lemma Scale(a: nat, k: nat)
    requires k <= EMA_COEFF
    ensures 0 <= a * k <= a * EMA_COEFF
    ensures 0 <= a * k / EMA_COEFF <= a
  {
    assert a * (EMA_COEFF - k) >= 0;
  }

  /** The update overflows int32 exactly when the sample is 2^22 or more above the average. */
  lemma OverflowIff(s: State, sn: u16)
    requires 0 <= s.rdiff <= TOP
    ensures FitsInt32((Sample(s, sn) - s.rdiff) * Speed(s, Sample(s, sn))) <==> StepFits(s, sn)
  {
    SampleIsDistance(s, sn);
    hide Sample, Distance;
    if Sample(s, sn) <= s.rdiff {
      DownFits(Sample(s, sn) - s.rdiff, Speed(s, Sample(s, sn)));
    }
  }

  /** From a settled average, the furthest packet that does not overflow is 4095 numbers away. */
  lemma SettledOverflowIff(s: State, sn: u16)
    requires s.rdiff == 0
    ensures FitsInt32((Sample(s, sn) - s.rdiff) * Speed(s, Sample(s, sn))) <==> Distance(s, sn) <= REACH
  {
    hide FitsInt32, Speed, Distance, Sample;
    SampleIsDistance(s, sn);
    OverflowIff(s, sn);
  }

  /** The average goes half of the way up to a larger sample, and down to a smaller one by 1/1024 of the way at
      a wish over 2, by 2/1024 at 2 and by 3/1024 below. */
  predicate Smoothed(wish: int, prior: int, sample: int, next: int) {
    && (sample >= prior ==> next == prior + (sample - prior) / 2)
    && (sample <= prior ==>
          && next == prior - (prior - sample) * (if wish > 2 then 1 else if wish == 2 then 2 else 3) / 1024
          && sample <= next)
  }

  /** Every update that does not overflow smooths between the old average and the new sample. */
  lemma AverageIsBetween(s: State, sn: u16, u: Undefined)
    requires 0 <= s.rdiff <= TOP && StepFits(s, sn)
    ensures FitsInt32((Sample(s, sn) - s.rdiff) * Speed(s, Sample(s, sn)))
    ensures var r := NextRdiff(s, Sample(s, sn), u); Smoothed(s.wish, s.rdiff, Sample(s, sn), r) && 0 <= r <= TOP
  {
    SampleIsDistance(s, sn);
    hide Sample;
    var sample := Sample(s, sn);
    OverflowIff(s, sn);
    TruncDivBounds(sample - s.rdiff, Speed(s, sample));
    if sample < s.rdiff {
      DownSteps(sample - s.rdiff, Speed(s, sample));
    }
  }

  lemma DownSteps(d: int, k: nat)
    requires d <= 0
    ensures TruncDiv(d * k, EMA_COEFF) == -(-d * k / EMA_COEFF)
  {
    assert -(d * k) == (-d) * k;
    if d * k >= 0 {
      assert d * k == 0 by { MulMono(-d, 0, k); }
    }
  }

  /** Packets at most 4095 numbers from the expected one never overflow an average that such packets made. */
  lemma WithinReach(s: State, sn: u16, u: Undefined)
    requires Distance(s, sn) <= REACH && 0 <= s.rdiff <= PEAK
    ensures StepFits(s, sn) && 0 <= NextRdiff(s, Sample(s, sn), u) <= PEAK
  {
    SampleIsDistance(s, sn);
    hide Sample, Distance, NextRdiff;
    AverageIsBetween(s, sn, u);
  }

  /** The ratio is undefined exactly when frames are counted although no packet is buffered. */
  predicate RatioDefined(s: State) { s.nf != 0 ==> s.n != 0 }

  /** In the states that ordered runs reach, that is when frames were stolen and the buffer ran empty. */
  lemma RatioDefinedIff(s: State, stolen: nat, cells: multiset<nat>)
    requires Counts(s, stolen) && Sound(s, cells) && stolen + s.max < TWO32
    ensures RatioDefined(s) <==> s.packets != [] || stolen == 0
  {
    hide Counts;
    CountIsExact(s, stolen, cells);
  }

  /** Such a state is reached in three steps: in an adaptive buffer of one node and no minimum, a second
      packet steals the first one's frame, and a get plays it. The next put divides by the ratio 0. */
  lemma RatioIsLost(h1: Header, mem1: int, now1: u64, u1: Undefined, h2: Header, mem2: int, now2: u64, u2: Undefined)
    requires h1.ssrc == h2.ssrc && !h2.m && h2.sn != 0
    ensures var s1 := Put(NewBuffer(0, 1, Adaptive), h1, mem1, now1, u1).0;
            HasCells(s1) &&
            var s2 := Put(s1, h2, mem2, now2, u2).0;
            var s3 := Get(s2).0;
            && s3.packets == [] && s3.n == 0 && s3.nf == 1 && s3.seqGet != 0 && s3.running && s3.jbtype == Adaptive
            && !RatioDefined(s3)
  {
    var s0 := NewBuffer(0, 1, Adaptive);
    assert s0.pool == [0];
    var s1 := Put(s0, h1, mem1, now1, u1).0;
    assert s1.packets == [Packet(0, h1, mem1)] && s1.pool == [] && s1.nf == s1.n == 1;
    var s2 := Put(s1, h2, mem2, now2, u2).0;
    assert s2.packets == [Packet(0, h2, mem2)] && s2.nf == 2 && s2.n == 1;
  }

  lemma Quotient(max: nat, nf: nat, n: nat)
    requires 0 < nf <= n <= max
    ensures 1 <= max * nf / n <= max
  {
    MulMono(max, 1, nf);
    MulMono(max, nf, n);
    DivLess(n, max * nf, n);
    DivLess(max * nf, max * n, n);
    ModUnique(n, n, 1, 0);
    Cancel(max, n);
  }

  /** While frames do not outnumber packets, wish stays below max, even where C leaves the result of
      an overflow open. */
  lemma WishBelowMax(s: State, sn: u16, now: u64, u: Undefined)
    requires s.min < s.max && s.min <= s.wish <= s.max - 1 && s.nf <= s.n <= s.max
    ensures s.min <= CalcRdiff(s, sn, now, u).wish <= s.max - 1
  {
    hide NextRdiff, Sample, RawWish;
    if s.nf != 0 {
      Quotient(s.max, s.nf, s.n);
    }
  }

  /** An average counted in frames: 1/1024 of it, divided by the n / nf packets per frame. */
  function WantedFrames(rdiff: nat, nf: nat, n: nat): int
    requires nf <= n
  {
    if nf == 0 then rdiff / 1024 else rdiff * nf / (1024 * n)
  }

  /** The frames that max packets make at n / nf packets per frame. */
  function FrameLimit(max: nat, nf: nat, n: nat): nat
    requires nf <= n
  {
    if nf == 0 then max else max * nf / n
  }

  lemma NonNegative(v: nat, b: nat)
    requires b > 0
    ensures v / b >= 0
  {
    FloorBounds(v, b);
    if v / b <= -1 {
      MulMono(b, v / b, -1);
    }
  }

  lemma WantFits(rdiff: nat, nf: nat, n: nat)
    requires 0 < nf <= n
    ensures 0 <= rdiff * nf / (EMA_COEFF * n) <= rdiff / EMA_COEFF
  {
    MulMono(rdiff, 0, nf);
    MulMono(rdiff, nf, n);
    DivLess(rdiff * nf, rdiff * n, EMA_COEFF * n);
    NonNegative(rdiff * nf, EMA_COEFF * n);
    CancelBoth(rdiff, n);
  }

  lemma WishInFrames(s: State, rdiff: nat, u: Undefined)
    requires rdiff <= PEAK && s.nf <= s.n
    ensures RawWish(s, rdiff, u) == WantedFrames(rdiff, s.nf, s.n)
  {
    if s.nf != 0 {
      WantFits(rdiff, s.nf, s.n);
    }
  }

  lemma MaxInFrames(s: State, u: Undefined)
    requires s.nf <= s.n <= s.max && s.max > 0
    ensures FrameMax(s, u) == FrameLimit(s.max, s.nf, s.n) >= 1
  {
    if s.nf != 0 {
      Quotient(s.max, s.nf, s.n);
    }
  }

  /** Within reach, with no more frames than packets: the smoothed distance in frames is raised to min and cut
      below the frames that fit. That target is taken at once if it is above wish; otherwise wish stays, and a
      timer is left running that fires within 1 s, or 6 s for the last step, and sooner if it was running
      already. */
  lemma WishIsSmoothedDistance(s: State, sn: u16, now: u64, u: Undefined)
    requires s.jbtype == Adaptive && s.seqGet != 0 && s.nf <= s.n <= s.max && s.min < s.max
    requires Distance(s, sn) <= REACH && 0 <= s.rdiff <= PEAK
    ensures var rdiff := NextRdiff(s, Sample(s, sn), u);
            rdiff >= 0 &&
            var want, limit := WantedFrames(rdiff, s.nf, s.n), FrameLimit(s.max, s.nf, s.n);
            var raised := if want < s.min then s.min else want;
            var target := if raised >= limit then limit - 1 else raised;
            var r := CalcRdiff(s, sn, now, u);
            && r.rdiff == rdiff && target >= 0
            && r.wish == (if target > s.wish then target else s.wish)
            && (r.timer != Off ==> target < s.wish)
            && (target < s.wish ==>
                  var dt := if target + 1 == s.wish then 6000 else 1000;
                  r.timer != Off && r.timer.at - now <= dt
                  && (r.timer == s.timer || (r.timer.at == now + dt && (s.timer == Off || s.timer.at > now + dt))))
  {
    WithinReach(s, sn, u);
    var rdiff := NextRdiff(s, Sample(s, sn), u);
    WishInFrames(s, rdiff, u);
    MaxInFrames(s, u);
    hide NextRdiff, Sample, Distance, RawWish, FrameMax, WantedFrames, FrameLimit;
  }

  lemma Cancel(a: nat, n: nat)
    requires n > 0
    ensures a * n / n == a
  {
    ModUnique(a * n, n, a, 0);
  }

  lemma CancelBoth(a: nat, n: nat)
    requires n > 0
    ensures a * n / (EMA_COEFF * n) == a / EMA_COEFF
  {
    var q, r := a / EMA_COEFF, a % EMA_COEFF;
    assert a == EMA_COEFF * q + r;
    assert a * n == r * n + (EMA_COEFF * n) * q;
    MulMono(n, r + 1, EMA_COEFF);
    Distribute(n, r, 1);
    ModUnique(a * n, EMA_COEFF * n, q, r * n);
  }

  // ---- whole runs ----

  /** A put within reach, with no more frames than packets in the buffer. */
  ghost predicate InReach(s: State, e: Event)
    requires HasCells(s)
  {
    e.PutEvent? ==> var s1 := Arrive(s, e.h, e.now); Distance(s1, e.h.sn) <= REACH && s1.nf <= s1.n
  }

  ghost predicate Adapted(s: State) { 0 <= s.rdiff <= PEAK && s.min <= s.wish <= s.max - 1 }

  lemma StepAdapted(s: State, e: Event, cells: multiset<nat>)
    requires Sound(s, cells) && HasCells(s) && Adapted(s) && InReach(s, e)
    ensures Adapted(Step(s, e).0)
  {
    hide Conserved, NeighboursOrdered, CalcRdiff, Arrive, Flush, Distance, Late, PlaceIn, SameFrame;
    match e {
      case PutEvent(h, mem, now, u) =>
        ArriveHasCells(s, h, now);
        ArriveSound(s, h, now, cells);
        ArriveEffect(s, h, now, cells);
        var s1 := Arrive(s, h, now);
        PoolSize(s1, cells);
        CalcAdapted(s1, h.sn, now, u);
        CalcRdiffKeeps(s1, h.sn, now, u);
      case GetEvent =>
      case DrainEvent =>
      case FlushEvent =>
        FlushSound(s, cells);
      case WishDownEvent =>
    }
  }

  lemma CalcAdapted(s: State, sn: u16, now: u64, u: Undefined)
    requires Adapted(s) && Distance(s, sn) <= REACH && s.nf <= s.n <= s.max
    ensures Adapted(CalcRdiff(s, sn, now, u))
  {
    WithinReach(s, sn, u);
    WishBelowMax(s, sn, now, u);
    hide NextRdiff, Sample, Distance, RawWish, FrameMax, ClampWish;
  }

  ghost predicate ReachAt(s: State, es: seq<Event>, k: nat, cells: multiset<nat>)
    requires Sound(s, cells) && k < |es|
  {
    SoundHasCells(After(s, es[..k], cells), cells);
    InReach(After(s, es[..k], cells), es[k])
  }

  /** Over every run whose puts are within reach the moving average never overflows and wish stays
      between min and max - 1. */
  lemma {:induction false} AlwaysAdapted(s: State, es: seq<Event>, cells: multiset<nat>)
    requires Sound(s, cells) && Adapted(s)
    requires forall k :: 0 <= k < |es| ==> ReachAt(s, es, k, cells)
    ensures Adapted(After(s, es, cells))
    decreases |es|
  {
    hide Sound, Adapted, Step, InReach;
    if es != [] {
      var n := |es| - 1;
      forall k | 0 <= k < n
        ensures ReachAt(s, es[..n], k, cells)
      {
        assert ReachAt(s, es, k, cells);
        assert es[..n][..k] == es[..k];
      }
      AlwaysAdapted(s, es[..n], cells);
      var before := After(s, es[..n], cells);
      assert ReachAt(s, es, n, cells);
      SoundHasCells(before, cells);
      StepAdapted(before, es[n], cells);
    }
  }
}
