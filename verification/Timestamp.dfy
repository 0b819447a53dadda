/** RTP timestamp extension: timestamp.c, and update_rtp_timestamp of the video receiver. */
module Timestamp {
  import opened Arith

  const TWO32: int := 0x1_0000_0000
  const TWO64: int := 0x1_0000_0000_0000_0000
  const HALF: int := 0x8000_0000

  type u32 = x: int | 0 <= x < TWO32

  /** The cast to int32_t, and two's complement subtraction of two int32_t values. */
  function Signed(x: int): int {
    var m := x % TWO32;
    if m >= HALF then m - TWO32 else m
  }

  /** timestamp_wrap. */
  function Wrap(tsNew: u32, tsOld: u32): int {
    if tsNew < tsOld then
      if Signed(Signed(tsNew) - Signed(tsOld)) > 0 then 1 else 0
    else if Signed(tsOld - tsNew) > 0 then -1
    else 0
  }

  /** timestamp_calc_extended. */
  function Extended(numWraps: u32, ts: u32): int { numWraps * TWO32 + ts }

  // ---- the receiver's clock without a width ----

  /** How often the 32-bit timestamp has wrapped at true timestamp t. */
  function Epoch(t: int): int { t / TWO32 }

  function Wire(t: int): u32 { t % TWO32 }

  lemma SignedRange(x: int)
    requires -TWO32 < x < TWO32
    ensures Signed(x) == if x < -HALF then x + TWO32 else if x < HALF then x else x - TWO32
  {}

  lemma SignedShift(x: int)
    requires -TWO32 < x < TWO32
    ensures Signed(x + TWO32) == Signed(x) && Signed(x - TWO32) == Signed(x)
  {}

  /** timestamp_wrap looks at the difference modulo 2^32 only. */
  lemma WrapByDifference(a: u32, b: u32)
    ensures Wrap(a, b) == if a < b && Signed(a - b) > 0 then 1 else if a >= b && Signed(b - a) > 0 then -1 else 0
  {
    hide Signed;
    SignedRange(a);
    SignedRange(b);
    SignedShift(a - b);
  }

  lemma WireEpoch(t: int)
    ensures t == TWO32 * Epoch(t) + Wire(t)
  {}

  /** Less than 2^31 ticks apart, or 2^31 ticks apart with no wrap between. */
  predicate Near(t: int, last: int) {
    -HALF < t - last < HALF || (-HALF <= t - last <= HALF && Epoch(t) == Epoch(last))
  }

  /** timestamp_wrap counts the wraps between two true timestamps exactly when they are near. */
  lemma WrapIsEpochStep(t: int, last: int)
    ensures Wrap(Wire(t), Wire(last)) == Epoch(t) - Epoch(last) <==> Near(t, last)
  {
    hide Wrap, Signed, Wire, Epoch;
    WireEpoch(t);
    WireEpoch(last);
    WrapByDifference(Wire(t), Wire(last));
    SignedRange(Wire(t) - Wire(last));
    SignedRange(Wire(last) - Wire(t));
  }

  // ---- struct timestamp_recv ----

  datatype Receiver = Receiver(first: u32, last: u32, isSet: bool, numWraps: u32)

  /** update_rtp_timestamp. */
  function Update(r: Receiver, ts: u32): Receiver {
    if r.isSet then
      var wrap := Wrap(ts, r.last);
      if wrap == -1 then r
      else if wrap == 1 then r.(numWraps := (r.numWraps + 1) % TWO32, last := ts)
      else r.(last := ts)
    else Receiver(ts, ts, true, r.numWraps)
  }

  /** timestamp_duration. */
  function Duration(r: Receiver): int {
    if r.isSet then (Extended(r.numWraps, r.last) - r.first) % TWO64 else 0
  }

  const NEW_RECEIVER := Receiver(0, 0, false, 0)

  function RunUpdates(packets: seq<int>): Receiver {
    if packets == [] then NEW_RECEIVER
    else Update(RunUpdates(packets[..|packets| - 1]), Wire(packets[|packets| - 1]))
  }

  /** The last accepted of a run of true timestamps: a packet from before the last wrap is
      discarded, any other one becomes the last. */
  function LastAccepted(packets: seq<int>): int
    requires packets != []
  {
    var t := packets[|packets| - 1];
    if |packets| == 1 then t
    else
      var last := LastAccepted(packets[..|packets| - 1]);
      if Epoch(t) < Epoch(last) then last else t
  }

  /** Every packet is near the last accepted one before it. */
  ghost predicate Close(packets: seq<int>) {
    forall k :: 0 < k < |packets| ==> Near(packets[k], LastAccepted(packets[..k]))
  }

  /** What the receiver knows after a run whose first true timestamp is first. */
  ghost predicate Tracks(r: Receiver, first: int, last: int) {
    && r.isSet && r.first == Wire(first) && r.last == Wire(last)
    && Epoch(last) >= Epoch(first) && r.numWraps == (Epoch(last) - Epoch(first)) % TWO32
  }

  lemma UpdateTracks(r: Receiver, first: int, last: int, t: int)
    requires Tracks(r, first, last) && Near(t, last)
    ensures Tracks(Update(r, Wire(t)), first, if Epoch(t) < Epoch(last) then last else t)
  {
    hide Wrap;
    WrapIsEpochStep(t, last);
  }

  lemma {:induction false} RunTracks(packets: seq<int>)
    requires packets != [] && Close(packets)
    ensures Tracks(RunUpdates(packets), packets[0], LastAccepted(packets))
  {
    hide Tracks, Update;
    var n := |packets|;
    if n == 1 {
      FirstTracks(packets[0]);
      assert packets[..0] == [];
    } else {
      var before := packets[..n - 1];
      forall k | 0 < k < n - 1
        ensures Near(before[k], LastAccepted(before[..k]))
      {
        assert before[..k] == packets[..k];
      }
      RunTracks(before);
      UpdateTracks(RunUpdates(before), packets[0], LastAccepted(before), packets[n - 1]);
    }
  }

  lemma FirstTracks(t: int)
    ensures Tracks(Update(NEW_RECEIVER, Wire(t)), t, t)
  {}

  lemma TracksExtended(r: Receiver, first: int, last: int)
    requires Tracks(r, first, last)
    ensures Extended(r.numWraps, r.last) == (last - TWO32 * Epoch(first)) % TWO64
    ensures Duration(r) == (last - first) % TWO64
  {
    hide Wire, Epoch;
    WireEpoch(first);
    WireEpoch(last);
    var wraps := Epoch(last) - Epoch(first);
    var ext := Extended(r.numWraps, r.last);
    assert last - TWO32 * Epoch(first) == ext + TWO64 * (wraps / TWO32);
    ModUnique(last - TWO32 * Epoch(first), TWO64, wraps / TWO32, ext);
    ModShift(ext - r.first, wraps / TWO32);
  }

  lemma ModShift(a: int, q: int)
    ensures (a + TWO64 * q) % TWO64 == a % TWO64
  {}

  /** Over every run, across any number of wraps and with reordering, the extended timestamp is the
      true timestamp of the last accepted packet, counted from the wrap before the first packet, and
      the duration is the true time between the two. */
  lemma ExtendedIsTrue(packets: seq<int>)
    requires packets != [] && Close(packets)
    ensures var r := RunUpdates(packets);
            && Extended(r.numWraps, r.last) == (LastAccepted(packets) - TWO32 * Epoch(packets[0])) % TWO64
            && Duration(r) == (LastAccepted(packets) - packets[0]) % TWO64
  {
    hide *;
    RunTracks(packets);
    TracksExtended(RunUpdates(packets), packets[0], LastAccepted(packets));
  }

  /** A step of exactly 2^31 ticks over a wrap is lost. */
  lemma HalfStepIsLost()
    ensures RunUpdates([HALF + 5, TWO32 + 5]) == Receiver(HALF + 5, 5, true, 0)
  {
    var run := [HALF + 5, TWO32 + 5];
    assert run[..1] == [HALF + 5] && run[..1][..0] == [];
    assert RunUpdates([HALF + 5]) == Receiver(HALF + 5, HALF + 5, true, 0);
  }

  class TimestampRecv {
    var first: u32
    var last: u32
    var isSet: bool
    var numWraps: u32

    constructor ()
      ensures Value() == NEW_RECEIVER
    {
      first, last, isSet, numWraps := 0, 0, false, 0;
    }

    function Value(): Receiver
      reads this
    {
      Receiver(first, last, isSet, numWraps)
    }

    /** timestamp_set. */
    method Set(rtpTs: u32)
      modifies `first, `last, `isSet
      ensures first == last == rtpTs && isSet
    {
      first := rtpTs;
      last := rtpTs;
      isSet := true;
    }

    /** update_rtp_timestamp. A receiver that tracks a run still tracks it after the next packet, which
        becomes the last one unless it is from before the last wrap. */
    method UpdateRtp(rtpTs: u32)
      modifies this
      ensures Value() == Update(old(Value()), rtpTs)
      ensures forall start, latest, t ::
                old(Tracks(Value(), start, latest)) && rtpTs == Wire(t) && Near(t, latest) ==>
                Tracks(Value(), start, if Epoch(t) < Epoch(latest) then latest else t)
    {
      ghost var r := Value();
      forall start, latest, t | Tracks(r, start, latest) && rtpTs == Wire(t) && Near(t, latest)
        ensures Tracks(Update(r, rtpTs), start, if Epoch(t) < Epoch(latest) then latest else t)
      {
        UpdateTracks(r, start, latest, t);
      }
      if isSet {
        var wrap := Wrap(rtpTs, last);
        if wrap == -1 {
          return;
        }
        if wrap == 1 {
          numWraps := (numWraps + 1) % TWO32;
        }
      } else {
        Set(rtpTs);
      }
      last := rtpTs;
    }

    /** A whole run of packets, seen on the wire as their low 32 bits. */
    method Receive(packets: seq<int>)
      requires packets != [] && Close(packets) && Value() == NEW_RECEIVER
      modifies this
      ensures Extended(numWraps, last) == (LastAccepted(packets) - TWO32 * Epoch(packets[0])) % TWO64
      ensures Duration(Value()) == (LastAccepted(packets) - packets[0]) % TWO64
    {
      hide Update, Extended, Duration, LastAccepted;
      for k := 0 to |packets|
        invariant Value() == RunUpdates(packets[..k])
      {
        assert packets[..k + 1][..k] == packets[..k];
        UpdateRtp(Wire(packets[k]));
      }
      assert packets[..|packets|] == packets;
      ExtendedIsTrue(packets);
    }
  }
}
