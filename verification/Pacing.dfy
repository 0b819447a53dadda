/** The pacing loop of the video transmit thread, vtx_thread, and its NACK queue. */
module Pacing {
  import opened Arith

  const PKT_SIZE: nat := 1280
  const NACK_QUEUE_TIME: nat := 500
  const MICRO: nat := 1_000_000

  /** The configured rate in bit/s and burst in bits. */
  datatype Config = Config(bitrate: nat, burstBits: nat)

  function MaxDelay(cfg: Config): nat
    requires cfg.bitrate > 0
  {
    PKT_SIZE * 8 * MICRO / cfg.bitrate + 1
  }

  function MaxBurst(cfg: Config): nat
    requires cfg.bitrate > 0
  {
    cfg.burstBits * MICRO / cfg.bitrate
  }

  /** start_jfs, target_jfs and sent. */
  datatype Pacer = Pacer(start: nat, target: nat, sent: nat)

  /** One turn of the loop: the clock when the packet is taken, its size, and when it is sent. */
  datatype Turn = Turn(jfs: nat, bits: nat, sentAt: nat)

  /** The microseconds slept before the packet. */
  function Delay(cfg: Config, p: Pacer, jfs: nat): nat
    requires cfg.bitrate > 0
  {
    if jfs < p.target then
      if p.target - jfs > MaxDelay(cfg) then MaxDelay(cfg) else p.target - jfs
    else 0
  }

  /** start_jfs and sent when the packet is sent: after a capped delay, or when the burst credit
      is used up, counting starts anew. */
  function Base(cfg: Config, p: Pacer, jfs: nat): Pacer
    requires cfg.bitrate > 0 && jfs >= MaxBurst(cfg)
  {
    if jfs < p.target then
      if p.target - jfs > MaxDelay(cfg) then p.(start := jfs + MaxDelay(cfg), sent := 0) else p
    else if jfs - MaxBurst(cfg) > p.target then p.(start := jfs - MaxBurst(cfg), sent := 0)
    else p
  }

  function Target(cfg: Config, start: nat, sent: nat): nat
    requires cfg.bitrate > 0
  {
    start + sent * MICRO / cfg.bitrate
  }

  /** The state after a packet of some bits. */
  function Next(cfg: Config, p: Pacer, jfs: nat, bits: nat): Pacer
    requires cfg.bitrate > 0 && jfs >= MaxBurst(cfg)
  {
    var q := Base(cfg, p, jfs);
    Pacer(q.start, Target(cfg, q.start, q.sent + bits), q.sent + bits)
  }

  predicate LateClock(cfg: Config, run: seq<Turn>)
    requires cfg.bitrate > 0
  {
    forall m :: 0 <= m < |run| ==> run[m].jfs >= MaxBurst(cfg)
  }

  /** The state before turn k. */
  function StateAt(cfg: Config, p0: Pacer, run: seq<Turn>, k: nat): Pacer
    requires cfg.bitrate > 0 && k <= |run| && LateClock(cfg, run)
  {
    if k == 0 then p0 else Next(cfg, StateAt(cfg, p0, run, k - 1), run[k - 1].jfs, run[k - 1].bits)
  }

  ghost predicate FairTurn(cfg: Config, p0: Pacer, run: seq<Turn>, m: nat)
    requires cfg.bitrate > 0 && LateClock(cfg, run) && m < |run|
  {
    && run[m].bits <= PKT_SIZE * 8
    && run[m].jfs >= (if m == 0 then p0.target else run[m - 1].sentAt)
    && run[m].sentAt >= run[m].jfs + Delay(cfg, StateAt(cfg, p0, run, m), run[m].jfs)
  }

  /** What the environment provides: packets of at most PKT_SIZE bytes, a monotone clock no earlier
      than the burst time, and sleeps that are not short. */
  ghost predicate Fair(cfg: Config, p0: Pacer, run: seq<Turn>) {
    && cfg.bitrate > 0 && p0.sent == 0 && p0.start <= p0.target && LateClock(cfg, run)
    && forall m :: 0 <= m < |run| ==> FairTurn(cfg, p0, run, m)
  }

  // ---- arithmetic ----

  /** Bits on the virtual schedule, scaled by a million: bitrate * start + sent. */
  function Virtual(cfg: Config, p: Pacer): int { cfg.bitrate * p.start + MICRO * p.sent }

  lemma TargetBounds(cfg: Config, start: nat, sent: nat)
    requires cfg.bitrate > 0
    ensures var t, v := Target(cfg, start, sent), Virtual(cfg, Pacer(start, 0, sent));
            cfg.bitrate * t <= v < cfg.bitrate * t + cfg.bitrate
  {
    FloorBounds(sent * MICRO, cfg.bitrate);
    Distribute(cfg.bitrate, start, sent * MICRO / cfg.bitrate);
  }

  // ---- the delay cap ----

  lemma TargetStep(cfg: Config, start: nat, sent: nat, bits: nat)
    requires cfg.bitrate > 0 && bits <= PKT_SIZE * 8
    ensures Target(cfg, start, sent + bits) <= Target(cfg, start, sent) + MaxDelay(cfg)
  {
    DivLess(bits * MICRO, PKT_SIZE * 8 * MICRO, cfg.bitrate);
    DivSum(sent * MICRO, bits * MICRO, cfg.bitrate);
    assert (sent + bits) * MICRO == sent * MICRO + bits * MICRO;
  }

  /** target_jfs is what the schedule says; the two clock readings at the start are the exception. */
  ghost predicate Scheduled(cfg: Config, p: Pacer)
    requires cfg.bitrate > 0
  {
    p.target >= Target(cfg, p.start, p.sent)
  }

  lemma NextTarget(cfg: Config, p: Pacer, jfs: nat, bits: nat, sentAt: nat)
    requires cfg.bitrate > 0 && jfs >= MaxBurst(cfg) && bits <= PKT_SIZE * 8
    requires Scheduled(cfg, p) && p.target <= jfs + MaxDelay(cfg) && sentAt >= jfs + Delay(cfg, p, jfs)
    ensures var q := Next(cfg, p, jfs, bits);
            q.target <= sentAt + MaxDelay(cfg) && Scheduled(cfg, q)
    ensures p.target <= sentAt
  {
    hide MaxDelay, MaxBurst, Target;
    var b := Base(cfg, p, jfs);
    TargetStep(cfg, b.start, b.sent, bits);
    TargetNothing(cfg, b.start);
  }

  lemma TargetNothing(cfg: Config, start: nat)
    requires cfg.bitrate > 0
    ensures Target(cfg, start, 0) == start
  {}

  /** Over every fair run the target is never more than max_delay ahead of the clock, so the delay
      is never cut short. */
  lemma {:induction false} CapNeverFires(cfg: Config, p0: Pacer, run: seq<Turn>, k: nat)
    requires Fair(cfg, p0, run) && k < |run|
    ensures var p := StateAt(cfg, p0, run, k);
            && Scheduled(cfg, p) && p.target <= run[k].jfs + MaxDelay(cfg)
            && (run[k].jfs < p.target ==> Delay(cfg, p, run[k].jfs) == p.target - run[k].jfs)
  {
    hide MaxDelay, MaxBurst, Target;
    if k == 0 {
      TargetNothing(cfg, p0.start);
      assert FairTurn(cfg, p0, run, 0);
    } else {
      CapNeverFires(cfg, p0, run, k - 1);
      var p, t := StateAt(cfg, p0, run, k - 1), run[k - 1];
      assert FairTurn(cfg, p0, run, k - 1) && FairTurn(cfg, p0, run, k);
      NextTarget(cfg, p, t.jfs, t.bits, t.sentAt);
    }
  }

  // ---- the rate ----

  /** The schedule never runs ahead of the packets, and never lags the clock by more than the burst. */
  lemma NextVirtual(cfg: Config, p: Pacer, jfs: nat, bits: nat)
    requires cfg.bitrate > 0 && jfs >= MaxBurst(cfg) && p.target == Target(cfg, p.start, p.sent)
    requires p.target <= jfs + MaxDelay(cfg)
    ensures var q := Next(cfg, p, jfs, bits);
            && Virtual(cfg, q) >= Virtual(cfg, p) + MICRO * bits
            && Virtual(cfg, q) >= cfg.bitrate * (jfs - MaxBurst(cfg)) + MICRO * bits
  {
    hide MaxDelay, MaxBurst, Target;
    var b, burst := cfg.bitrate, MaxBurst(cfg);
    TargetBounds(cfg, p.start, p.sent);
    var base := Base(cfg, p, jfs);
    assert Virtual(cfg, Next(cfg, p, jfs, bits)) == Virtual(cfg, base) + MICRO * bits;
    if base.start == jfs - burst && base.sent == 0 && jfs - burst > p.target {
      MulMono(b, p.target + 1, jfs - burst);
      Distribute(b, p.target, 1);
    } else {
      MulMono(b, jfs - burst, p.target);
    }
  }

  /** Before a send the target has passed. */
  lemma TargetPassed(cfg: Config, p: Pacer, jfs: nat, sentAt: nat)
    requires cfg.bitrate > 0 && p.target <= sentAt && Scheduled(cfg, p)
    ensures Virtual(cfg, p) < cfg.bitrate * (sentAt + 1)
  {
    hide Target;
    TargetBounds(cfg, p.start, p.sent);
    MulMono(cfg.bitrate, Target(cfg, p.start, p.sent), sentAt);
    Distribute(cfg.bitrate, sentAt, 1);
  }

  /** The bits of turns i to j - 1. */
  function Bits(run: seq<Turn>, i: nat, j: nat): nat
    requires i <= j <= |run|
    decreases j - i
  {
    if i == j then 0 else Bits(run, i, j - 1) + run[j - 1].bits
  }

  lemma {:induction false} BitsFirst(run: seq<Turn>, i: nat, j: nat)
    requires i < j <= |run|
    ensures Bits(run, i, j) == run[i].bits + Bits(run, i + 1, j)
    decreases j - i
  {
    if i + 1 < j {
      BitsFirst(run, i, j - 1);
    }
  }

  lemma ProperTarget(cfg: Config, p0: Pacer, run: seq<Turn>, k: nat)
    requires Fair(cfg, p0, run) && 0 < k <= |run|
    ensures var p := StateAt(cfg, p0, run, k); p.target == Target(cfg, p.start, p.sent)
  {
    hide MaxDelay, MaxBurst, Target;
  }

  lemma {:induction false} VirtualGrows(cfg: Config, p0: Pacer, run: seq<Turn>, i: nat, j: nat)
    requires Fair(cfg, p0, run) && 0 < i <= j <= |run|
    ensures Virtual(cfg, StateAt(cfg, p0, run, j)) >= Virtual(cfg, StateAt(cfg, p0, run, i)) + MICRO * Bits(run, i, j)
    decreases j - i
  {
    hide MaxDelay, MaxBurst, Target, Virtual, Next, Delay, FairTurn, Scheduled;
    if i < j {
      VirtualGrows(cfg, p0, run, i, j - 1);
      CapNeverFires(cfg, p0, run, j - 1);
      ProperTarget(cfg, p0, run, j - 1);
      NextVirtual(cfg, StateAt(cfg, p0, run, j - 1), run[j - 1].jfs, run[j - 1].bits);
    }
  }

  lemma SentPassesTarget(cfg: Config, p0: Pacer, run: seq<Turn>, k: nat)
    requires Fair(cfg, p0, run) && k < |run|
    ensures Virtual(cfg, StateAt(cfg, p0, run, k)) < cfg.bitrate * (run[k].sentAt + 1)
  {
    hide MaxDelay, MaxBurst, Target, Virtual, Next;
    CapNeverFires(cfg, p0, run, k);
    var p := StateAt(cfg, p0, run, k);
    assert FairTurn(cfg, p0, run, k);
    TargetPassed(cfg, p, run[k].jfs, run[k].sentAt);
  }

  /** The pacing bound: between any two sends of a fair run, the bits sent are at most the bitrate
      times the elapsed time plus the burst time, plus one packet, up to one microsecond of rounding. */
  lemma RateBound(cfg: Config, p0: Pacer, run: seq<Turn>, i: nat, j: nat)
    requires Fair(cfg, p0, run) && i < j < |run|
    ensures MICRO * Bits(run, i + 1, j + 1)
         <= cfg.bitrate * (run[j].sentAt - run[i].sentAt + MaxBurst(cfg) + 1) + MICRO * run[j].bits
  {
    hide MaxDelay, MaxBurst, Target, Virtual, Next, Delay, StateAt, Scheduled;
    var b, burst := cfg.bitrate, MaxBurst(cfg);
    if i + 1 == j {
      Monotone(cfg, p0, run, i);
      assert Bits(run, j, j) == 0 && Bits(run, j, j + 1) == run[j].bits;
      MulMono(b, 0, run[j].sentAt - run[i].sentAt + burst + 1);
    } else {
      Between(cfg, p0, run, i, j);
    }
  }

  lemma Monotone(cfg: Config, p0: Pacer, run: seq<Turn>, i: nat)
    requires Fair(cfg, p0, run) && i + 1 < |run|
    ensures run[i].sentAt <= run[i + 1].jfs <= run[i + 1].sentAt
  {
    hide MaxDelay, MaxBurst, Target, Virtual, Next;
    assert FairTurn(cfg, p0, run, i + 1);
  }

  /** Turn i + 1 starts the schedule no earlier than the burst time before send i. */
  lemma VirtualAfter(cfg: Config, p0: Pacer, run: seq<Turn>, i: nat)
    requires Fair(cfg, p0, run) && i + 1 < |run|
    ensures Virtual(cfg, StateAt(cfg, p0, run, i + 2))
         >= cfg.bitrate * (run[i].sentAt - MaxBurst(cfg)) + MICRO * run[i + 1].bits
  {
    hide MaxDelay, MaxBurst, Target, Virtual, Delay, Scheduled, Next, FairTurn;
    var t := run[i + 1];
    Monotone(cfg, p0, run, i);
    CapNeverFires(cfg, p0, run, i + 1);
    ProperTarget(cfg, p0, run, i + 1);
    NextVirtual(cfg, StateAt(cfg, p0, run, i + 1), t.jfs, t.bits);
    MulMono(cfg.bitrate, run[i].sentAt - MaxBurst(cfg), t.jfs - MaxBurst(cfg));
  }

  lemma Between(cfg: Config, p0: Pacer, run: seq<Turn>, i: nat, j: nat)
    requires Fair(cfg, p0, run) && i + 1 < j < |run|
    ensures MICRO * Bits(run, i + 1, j + 1)
         <= cfg.bitrate * (run[j].sentAt - run[i].sentAt + MaxBurst(cfg) + 1) + MICRO * run[j].bits
  {
    hide MaxDelay, MaxBurst, Target, Virtual, Delay, Scheduled, Next, StateAt, FairTurn;
    VirtualAfter(cfg, p0, run, i);
    VirtualGrows(cfg, p0, run, i + 2, j);
    SentPassesTarget(cfg, p0, run, j);
    BitsFirst(run, i + 1, j);
    assert Bits(run, i + 1, j + 1) == Bits(run, i + 1, j) + run[j].bits;
    var x, y := run[j].sentAt + 1, run[i].sentAt - MaxBurst(cfg);
    Distribute(cfg.bitrate, x, y);
    assert x - y == run[j].sentAt - run[i].sentAt + MaxBurst(cfg) + 1;
  }

  // ---- no packet waits for nothing ----

  /** The schedule was started anew at turn i, with the full burst credit: at every turn but the first, and at the
      first one if it comes later than the burst time after the clock reading for the target. */
  predicate Anew(cfg: Config, targetClock: nat, run: seq<Turn>, i: nat)
    requires cfg.bitrate > 0 && i < |run|
  {
    i > 0 || run[0].jfs - MaxBurst(cfg) > targetClock
  }

  /** Right after time t, the bits sent before turn k are still more than the bitrate allows: since the start, or since
      some turn, which is credited with the burst time before it. */
  ghost predicate Overdrawn(cfg: Config, startClock: nat, targetClock: nat, run: seq<Turn>, k: nat, t: int)
    requires cfg.bitrate > 0 && k <= |run|
  {
    || MICRO * Bits(run, 0, k) >= cfg.bitrate * (t + 1 - startClock)
    || exists i :: 0 <= i < k && Anew(cfg, targetClock, run, i) && SinceTurn(cfg, run, i, k, t)
  }

  ghost predicate SinceTurn(cfg: Config, run: seq<Turn>, i: nat, k: nat, t: int)
    requires cfg.bitrate > 0 && i < k <= |run|
  {
    MICRO * Bits(run, i, k) >= cfg.bitrate * (t + 1 - (run[i].jfs - MaxBurst(cfg)))
  }

  /** The largest account at turn k is the schedule itself. */
  ghost predicate IsLargest(cfg: Config, startClock: nat, targetClock: nat, run: seq<Turn>, k: nat, v: int)
    requires cfg.bitrate > 0 && k <= |run|
  {
    && v >= FromStart(cfg, startClock, run, k)
    && (forall i :: 0 <= i < k && Anew(cfg, targetClock, run, i) ==> v >= FromTurn(cfg, run, i, k))
    && (v == FromStart(cfg, startClock, run, k)
        || exists i :: 0 <= i < k && Anew(cfg, targetClock, run, i) && v == FromTurn(cfg, run, i, k))
  }

  function FromStart(cfg: Config, startClock: nat, run: seq<Turn>, k: nat): int
    requires k <= |run|
  {
    cfg.bitrate * startClock + MICRO * Bits(run, 0, k)
  }

  function FromTurn(cfg: Config, run: seq<Turn>, i: nat, k: nat): int
    requires cfg.bitrate > 0 && i < k <= |run|
  {
    cfg.bitrate * (run[i].jfs - MaxBurst(cfg)) + MICRO * Bits(run, i, k)
  }

  /** One turn adds its bits to the schedule, or to the burst time before the clock if that is later. */
  lemma NextVirtualExact(cfg: Config, p: Pacer, jfs: nat, bits: nat)
    requires cfg.bitrate > 0 && jfs >= MaxBurst(cfg) && p.target == Target(cfg, p.start, p.sent)
    requires p.target <= jfs + MaxDelay(cfg)
    ensures var v, w := Virtual(cfg, p), cfg.bitrate * (jfs - MaxBurst(cfg));
            Virtual(cfg, Next(cfg, p, jfs, bits)) == (if w > v then w else v) + MICRO * bits
  {
    hide MaxDelay, MaxBurst, Target;
    var b, burst := cfg.bitrate, MaxBurst(cfg);
    TargetBounds(cfg, p.start, p.sent);
    var base := Base(cfg, p, jfs);
    assert Virtual(cfg, Next(cfg, p, jfs, bits)) == Virtual(cfg, base) + MICRO * bits;
    if jfs - burst > p.target {
      MulMono(b, p.target + 1, jfs - burst);
      Distribute(b, p.target, 1);
    } else {
      MulMono(b, jfs - burst, p.target);
    }
  }

  /** The first turn: the clock for the target decides. */
  lemma FirstVirtual(cfg: Config, p0: Pacer, run: seq<Turn>)
    requires Fair(cfg, p0, run) && |run| > 0
    ensures IsLargest(cfg, p0.start, p0.target, run, 1, Virtual(cfg, StateAt(cfg, p0, run, 1)))
  {
    hide MaxDelay, MaxBurst, Target;
    assert FairTurn(cfg, p0, run, 0);
    assert Bits(run, 0, 0) == 0 && Bits(run, 0, 1) == run[0].bits;
    var v := Virtual(cfg, StateAt(cfg, p0, run, 1));
    if Anew(cfg, p0.target, run, 0) {
      MulMono(cfg.bitrate, p0.start, run[0].jfs - MaxBurst(cfg));
      assert v == FromTurn(cfg, run, 0, 1);
    } else {
      assert v == FromStart(cfg, p0.start, run, 1);
    }
  }

  /** One more turn keeps the schedule the largest account. */
  lemma LargestNext(cfg: Config, startClock: nat, targetClock: nat, run: seq<Turn>, k: nat, v: int, w: int)
    requires cfg.bitrate > 0 && 0 < k < |run| && IsLargest(cfg, startClock, targetClock, run, k, v)
    requires var c := cfg.bitrate * (run[k].jfs - MaxBurst(cfg));
             w == (if c > v then c else v) + MICRO * run[k].bits
    ensures IsLargest(cfg, startClock, targetClock, run, k + 1, w)
  {
    hide MaxBurst;
    var c := cfg.bitrate * (run[k].jfs - MaxBurst(cfg));
    assert Bits(run, k, k) == 0 && Bits(run, k, k + 1) == run[k].bits;
    assert FromTurn(cfg, run, k, k + 1) == c + MICRO * run[k].bits;
    assert FromStart(cfg, startClock, run, k + 1) == FromStart(cfg, startClock, run, k) + MICRO * run[k].bits;
    forall i | 0 <= i < k
      ensures FromTurn(cfg, run, i, k + 1) == FromTurn(cfg, run, i, k) + MICRO * run[k].bits
    {
      assert Bits(run, i, k + 1) == Bits(run, i, k) + run[k].bits;
    }
    if c <= v && v != FromStart(cfg, startClock, run, k) {
      var i :| 0 <= i < k && Anew(cfg, targetClock, run, i) && v == FromTurn(cfg, run, i, k);
      assert w == FromTurn(cfg, run, i, k + 1);
    }
    assert Anew(cfg, targetClock, run, k);
  }

  lemma {:induction false} ScheduleIsLargest(cfg: Config, p0: Pacer, run: seq<Turn>, k: nat)
    requires Fair(cfg, p0, run) && 0 < k <= |run|
    ensures IsLargest(cfg, p0.start, p0.target, run, k, Virtual(cfg, StateAt(cfg, p0, run, k)))
    decreases k
  {
    hide MaxDelay, MaxBurst, Target, Virtual, Next, Delay, Scheduled, FairTurn, IsLargest;
    if k == 1 {
      FirstVirtual(cfg, p0, run);
    } else {
      ScheduleIsLargest(cfg, p0, run, k - 1);
      CapNeverFires(cfg, p0, run, k - 1);
      ProperTarget(cfg, p0, run, k - 1);
      var p, t := StateAt(cfg, p0, run, k - 1), run[k - 1];
      NextVirtualExact(cfg, p, t.jfs, t.bits);
      LargestNext(cfg, p0.start, p0.target, run, k - 1, Virtual(cfg, p), Virtual(cfg, StateAt(cfg, p0, run, k)));
    }
  }

  /** An account is overdrawn exactly when the largest one is. */
  lemma OverdrawnIff(cfg: Config, startClock: nat, targetClock: nat, run: seq<Turn>, k: nat, v: int, t: int)
    requires cfg.bitrate > 0 && k <= |run| && IsLargest(cfg, startClock, targetClock, run, k, v)
    ensures Overdrawn(cfg, startClock, targetClock, run, k, t) <==> v >= cfg.bitrate * (t + 1)
  {
    hide MaxBurst, Anew, Bits;
    Distribute(cfg.bitrate, t + 1, startClock);
    forall i | 0 <= i < k
      ensures SinceTurn(cfg, run, i, k, t) <==> FromTurn(cfg, run, i, k) >= cfg.bitrate * (t + 1)
    {
      Distribute(cfg.bitrate, t + 1, run[i].jfs - MaxBurst(cfg));
    }
  }

  /** The packet of turn k waits exactly as long as some account is overdrawn. */
  ghost predicate WaitsExactly(cfg: Config, startClock: nat, targetClock: nat, run: seq<Turn>, k: nat, delay: nat)
    requires cfg.bitrate > 0 && k < |run|
  {
    forall t :: t >= run[k].jfs ==> (Overdrawn(cfg, startClock, targetClock, run, k, t) <==> t < run[k].jfs + delay)
  }

  lemma DelayIsExact(cfg: Config, p0: Pacer, run: seq<Turn>, k: nat)
    requires Fair(cfg, p0, run) && k < |run|
    ensures WaitsExactly(cfg, p0.start, p0.target, run, k, Delay(cfg, StateAt(cfg, p0, run, k), run[k].jfs))
  {
    hide MaxDelay, MaxBurst, Target, Virtual, Next, StateAt, IsLargest, Scheduled, Overdrawn, FairTurn;
    var p := StateAt(cfg, p0, run, k);
    CapNeverFires(cfg, p0, run, k);
    forall t | t >= run[k].jfs
      ensures Overdrawn(cfg, p0.start, p0.target, run, k, t) <==> t < run[k].jfs + Delay(cfg, p, run[k].jfs)
    {
      if k == 0 {
        NothingOverdrawn(cfg, p0, run, t);
      } else {
        ScheduleIsLargest(cfg, p0, run, k);
        OverdrawnIff(cfg, p0.start, p0.target, run, k, Virtual(cfg, p), t);
        ProperTarget(cfg, p0, run, k);
        PastTarget(cfg, p, t);
      }
    }
  }

  lemma NothingOverdrawn(cfg: Config, p0: Pacer, run: seq<Turn>, t: int)
    requires Fair(cfg, p0, run) && |run| > 0 && t >= run[0].jfs
    ensures !Overdrawn(cfg, p0.start, p0.target, run, 0, t)
    ensures Delay(cfg, StateAt(cfg, p0, run, 0), run[0].jfs) == 0
  {
    hide MaxDelay, MaxBurst;
    assert FairTurn(cfg, p0, run, 0);
    assert Bits(run, 0, 0) == 0;
    MulMono(cfg.bitrate, 1, t + 1 - p0.start);
  }

  /** The schedule reaches past time t exactly before its target. */
  lemma PastTarget(cfg: Config, p: Pacer, t: int)
    requires cfg.bitrate > 0 && p.target == Target(cfg, p.start, p.sent)
    ensures Virtual(cfg, p) >= cfg.bitrate * (t + 1) <==> t < p.target
  {
    hide Target;
    TargetBounds(cfg, p.start, p.sent);
    if t < p.target {
      MulMono(cfg.bitrate, t + 1, p.target);
    } else {
      MulMono(cfg.bitrate, p.target + 1, t + 1);
      Distribute(cfg.bitrate, p.target, 1);
    }
  }

  /** The burst credit is the configured bits, up to one microsecond of rounding. */
  lemma BurstCredit(cfg: Config)
    requires cfg.bitrate > 0
    ensures cfg.bitrate * MaxBurst(cfg) <= cfg.burstBits * 1_000_000 < cfg.bitrate * (MaxBurst(cfg) + 1)
  {
    FloorBounds(cfg.burstBits * MICRO, cfg.bitrate);
    Distribute(cfg.bitrate, MaxBurst(cfg), 1);
  }

  /** What the environment provides, told by the sleeps asked for: packets of at most 1280 bytes, a clock that is
      monotone and no earlier than the burst time, and sleeps that are not short. */
  ghost predicate FairTiming(cfg: Config, startClock: nat, targetClock: nat, run: seq<Turn>, delays: seq<nat>) {
    && cfg.bitrate > 0 && startClock <= targetClock && LateClock(cfg, run) && |delays| == |run|
    && forall m :: 0 <= m < |run| ==> FairSleep(targetClock, run, m, delays[m])
  }

  predicate FairSleep(targetClock: nat, run: seq<Turn>, m: nat, delay: nat)
    requires m < |run|
  {
    && run[m].bits <= 1280 * 8 && run[m].jfs >= (if m == 0 then targetClock else run[m - 1].sentAt)
    && run[m].sentAt >= run[m].jfs + delay
  }

  lemma FairSleepsAreFair(cfg: Config, startClock: nat, targetClock: nat, run: seq<Turn>, delays: seq<nat>)
    requires FairTiming(cfg, startClock, targetClock, run, delays)
    requires forall m :: 0 <= m < |run| ==>
               delays[m] == Delay(cfg, StateAt(cfg, Pacer(startClock, targetClock, 0), run, m), run[m].jfs)
    ensures forall m :: 0 <= m < |run| ==> WaitsExactly(cfg, startClock, targetClock, run, m, delays[m])
  {
    hide MaxDelay, MaxBurst, Delay, StateAt, WaitsExactly;
    var p0 := Pacer(startClock, targetClock, 0);
    forall m | 0 <= m < |run|
      ensures FairTurn(cfg, p0, run, m)
    {
      assert FairSleep(targetClock, run, m, delays[m]);
    }
    forall m | 0 <= m < |run|
      ensures WaitsExactly(cfg, startClock, targetClock, run, m, delays[m])
    {
      DelayIsExact(cfg, p0, run, m);
    }
  }

  /** Any sleep is at most the cap; after a longer wait was cut, the schedule goes on from the time of that send. */
  lemma CapRestarts(cfg: Config, p: Pacer, jfs: nat, bits: nat)
    requires cfg.bitrate > 0 && jfs >= MaxBurst(cfg)
    ensures var cap := 1280 * 8 * 1_000_000 / cfg.bitrate + 1;
            && Delay(cfg, p, jfs) <= cap
            && (p.target > jfs + cap ==>
                  && Delay(cfg, p, jfs) == cap
                  && Next(cfg, p, jfs, bits).target == jfs + cap + bits * 1_000_000 / cfg.bitrate)
  {
    hide MaxBurst;
  }

  /** The cap fits the unsigned int it is cast to exactly from 3 bit/s on. */
  lemma CapFitsIff(cfg: Config)
    requires cfg.bitrate > 0
    ensures MaxDelay(cfg) < 0x1_0000_0000 <==> cfg.bitrate >= 3
  {
    DivLess2(PKT_SIZE * 8 * MICRO, cfg.bitrate);
  }

  lemma DivLess2(v: nat, b: nat)
    requires b > 0
    ensures b >= 3 ==> v / b <= v / 3
    ensures b <= 2 ==> v / b >= v / 2
  {
    if b >= 3 {
      FloorBounds(v, b);
      FloorBounds(v, 3);
      if v / b >= v / 3 + 1 {
        MulMono(b, v / 3 + 1, v / b);
        MulMono(v / 3 + 1, 3, b);
      }
    } else if b == 2 {
    } else {
      assert v / b == v;
    }
  }

  // ---- the thread ----

  /** A sent packet kept for retransmission, until jfsNack. */
  datatype Kept = Kept(turn: nat, jfsNack: nat)

  function Expiry(jfs: nat): nat { jfs + NACK_QUEUE_TIME * 1000 }

  /** The packets of the first k turns that have not expired at a time. */
  function Unexpired(run: seq<Turn>, k: nat, now: nat): seq<Kept>
    requires k <= |run|
  {
    if k == 0 then []
    else
      Unexpired(run, k - 1, now)
      + if now > Expiry(run[k - 1].jfs) then [] else [Kept(k - 1, Expiry(run[k - 1].jfs))]
  }

  predicate ClockMonotone(run: seq<Turn>) {
    forall m, n :: 0 <= m <= n < |run| ==> run[m].jfs <= run[n].jfs
  }

  predicate SortedByTime(q: seq<Kept>) {
    forall m, n :: 0 <= m <= n < |q| ==> q[m].jfsNack <= q[n].jfsNack
  }

  /** Drops expired packets from the head, as far as the first one that has not expired. */
  function DropHead(q: seq<Kept>, now: nat): seq<Kept> {
    if q != [] && now > q[0].jfsNack then DropHead(q[1..], now) else q
  }

  lemma {:induction false} UnexpiredSorted(run: seq<Turn>, k: nat, now: nat)
    requires k <= |run| && ClockMonotone(run)
    ensures SortedByTime(Unexpired(run, k, now))
    ensures forall m :: 0 <= m < |Unexpired(run, k, now)| ==>
              exists n :: 0 <= n < k && Unexpired(run, k, now)[m].jfsNack == Expiry(run[n].jfs)
  {
    if k > 0 {
      UnexpiredSorted(run, k - 1, now);
    }
  }

  lemma {:induction false} DropAppend(a: seq<Kept>, e: Kept, now: nat)
    requires forall m :: 0 <= m < |a| ==> a[m].jfsNack <= e.jfsNack
    ensures DropHead(a + [e], now) == DropHead(a, now) + if now > e.jfsNack then [] else [e]
    decreases |a|
  {
    if a == [] {
      assert a + [e] == [e] && [e][1..] == [];
    } else {
      assert (a + [e])[0] == a[0] && (a + [e])[1..] == a[1..] + [e];
      if now > a[0].jfsNack {
        DropAppend(a[1..], e, now);
      }
    }
  }

  /** On a monotone clock the queue is sorted, so dropping from the head drops everything expired. */
  lemma {:induction false} DropIsExact(run: seq<Turn>, k: nat, before: nat, now: nat)
    requires k <= |run| && ClockMonotone(run) && before <= now
    ensures DropHead(Unexpired(run, k, before), now) == Unexpired(run, k, now)
  {
    hide Expiry;
    if k > 0 {
      DropIsExact(run, k - 1, before, now);
      UnexpiredSorted(run, k, before);
      if before <= Expiry(run[k - 1].jfs) {
        var q, e := Unexpired(run, k, before), Unexpired(run, k - 1, before);
        forall m | 0 <= m < |e|
          ensures e[m].jfsNack <= Expiry(run[k - 1].jfs)
        {
          assert q[m] == e[m] && q[|e|] == Kept(k - 1, Expiry(run[k - 1].jfs));
        }
        DropAppend(e, Kept(k - 1, Expiry(run[k - 1].jfs)), now);
      } else {
        assert Unexpired(run, k, before) == Unexpired(run, k - 1, before);
      }
    }
  }

  /** vtx_thread over a run: the sleeps it asks for, and what the NACK queue holds at the end. */
  method TransmitThread(cfg: Config, startClock: nat, targetClock: nat, run: seq<Turn>)
    returns (delays: seq<nat>, nackQueue: seq<Kept>)
    requires cfg.bitrate > 0 && LateClock(cfg, run) && ClockMonotone(run)
    ensures |delays| == |run|
    ensures forall k :: 0 <= k < |run| ==>
              delays[k] == Delay(cfg, StateAt(cfg, Pacer(startClock, targetClock, 0), run, k), run[k].jfs)
    ensures FairTiming(cfg, startClock, targetClock, run, delays) ==>
              forall k :: 0 <= k < |run| ==> WaitsExactly(cfg, startClock, targetClock, run, k, delays[k])
    ensures nackQueue == Unexpired(run, |run|, Clock(run, |run|))
    ensures forall e :: e in nackQueue <==>
              0 <= e.turn < |run| && e.jfsNack == run[e.turn].jfs + 500_000 && run[|run| - 1].jfs <= e.jfsNack
  {
    hide Delay, Next, StateAt, Unexpired, Clock, MaxDelay, MaxBurst, ClockMonotone;
    ghost var p0 := Pacer(startClock, targetClock, 0);
    var p := Pacer(startClock, targetClock, 0);
    var maxDelay, maxBurst := MaxDelay(cfg), MaxBurst(cfg);
    delays, nackQueue := [], [];
    NothingYet(cfg, p0, run);
    for k := 0 to |run|
      invariant |delays| == k && p == StateAt(cfg, p0, run, k)
      invariant forall m :: 0 <= m < k ==> delays[m] == Delay(cfg, StateAt(cfg, p0, run, m), run[m].jfs)
      invariant nackQueue == Unexpired(run, k, Clock(run, k))
    {
      NextState(cfg, p0, run, k);
      var delay;
      delay, p := Pace(cfg, p, maxDelay, maxBurst, run[k].jfs, run[k].bits);
      delays := delays + [delay];
      nackQueue := Keep(nackQueue, run, k);
    }
    if FairTiming(cfg, startClock, targetClock, run, delays) {
      FairSleepsAreFair(cfg, startClock, targetClock, run, delays);
    }
    UnexpiredIs(run, |run|, Clock(run, |run|));
    ClockAtEnd(run);
  }

  /** Kept are exactly the packets sent at most 500 ms before. */
  lemma {:induction false} UnexpiredIs(run: seq<Turn>, k: nat, now: nat)
    requires k <= |run|
    ensures forall e :: e in Unexpired(run, k, now) <==>
              0 <= e.turn < k && e.jfsNack == run[e.turn].jfs + 500_000 && now <= e.jfsNack
  {
    if k > 0 {
      UnexpiredIs(run, k - 1, now);
    }
  }

  lemma ClockAtEnd(run: seq<Turn>)
    ensures run != [] ==> Clock(run, |run|) == run[|run| - 1].jfs
  {}

  /** The clock reading of the turn before turn k. */
  function Clock(run: seq<Turn>, k: nat): nat
    requires k <= |run|
  {
    if k == 0 then 0 else run[k - 1].jfs
  }

  lemma NothingYet(cfg: Config, p0: Pacer, run: seq<Turn>)
    requires cfg.bitrate > 0 && LateClock(cfg, run)
    ensures StateAt(cfg, p0, run, 0) == p0 && Unexpired(run, 0, Clock(run, 0)) == []
  {}

  lemma NextState(cfg: Config, p0: Pacer, run: seq<Turn>, k: nat)
    requires cfg.bitrate > 0 && LateClock(cfg, run) && k < |run|
    ensures run[k].jfs >= MaxBurst(cfg)
    ensures StateAt(cfg, p0, run, k + 1) == Next(cfg, StateAt(cfg, p0, run, k), run[k].jfs, run[k].bits)
  {}

  lemma NextUnexpired(run: seq<Turn>, k: nat)
    requires k < |run| && ClockMonotone(run)
    ensures Unexpired(run, k + 1, Clock(run, k)) == Unexpired(run, k, Clock(run, k)) + [Kept(k, Expiry(run[k].jfs))]
    ensures Clock(run, k) <= Clock(run, k + 1) == run[k].jfs
  {}

  /** The waiting and accounting part of one turn. */
  method Pace(cfg: Config, p: Pacer, maxDelay: nat, maxBurst: nat, jfs: nat, bits: nat) returns (delay: nat, q: Pacer)
    requires cfg.bitrate > 0 && maxDelay == MaxDelay(cfg) && maxBurst == MaxBurst(cfg) <= jfs
    ensures delay == Delay(cfg, p, jfs) && q == Next(cfg, p, jfs, bits)
  {
    hide MaxDelay, MaxBurst;
    var startJfs, targetJfs, sent := p.start, p.target, p.sent;
    delay := 0;
    if jfs < targetJfs {
      delay := targetJfs - jfs;
      if delay > maxDelay {
        delay := maxDelay;
        startJfs := jfs + delay;
        sent := 0;
      }
    } else {
      if jfs - maxBurst > targetJfs {
        startJfs := jfs - maxBurst;
        sent := 0;
      }
    }
    sent := sent + bits;
    targetJfs := startJfs + sent * MICRO / cfg.bitrate;
    q := Pacer(startJfs, targetJfs, sent);
  }

  /** The sent packet joins the NACK queue, and expired ones leave it. */
  method Keep(q: seq<Kept>, run: seq<Turn>, k: nat) returns (r: seq<Kept>)
    requires k < |run| && ClockMonotone(run) && q == Unexpired(run, k, Clock(run, k))
    ensures r == Unexpired(run, k + 1, Clock(run, k + 1))
  {
    hide Unexpired, Clock, Expiry, DropHead, ClockMonotone;
    NextUnexpired(run, k);
    r := Cleanup(q + [Kept(k, Expiry(run[k].jfs))], run[k].jfs);
    DropIsExact(run, k + 1, Clock(run, k), run[k].jfs);
  }

  /** The delayed NACK queue cleanup. */
  method Cleanup(q: seq<Kept>, jfs: nat) returns (r: seq<Kept>)
    ensures r == DropHead(q, jfs)
  {
    r := q;
    while r != []
      invariant DropHead(r, jfs) == DropHead(q, jfs)
      decreases |r|
    {
      if jfs > r[0].jfsNack {
        r := r[1..];
      } else {
        break;
      }
    }
  }
}
