/** struct jbuf and its operations, step by step, against the values of JbufState. The two linked
    lists are fields of type seq that the operations reassign. */
module Jbuf {
  import opened JbufState
  import opened JbufSound
  import opened JbufAdaptive
  import opened JbufEffects

  class Jbuf {
    var pool: seq<nat>
    var packets: seq<Packet>
    var n: u32
    var nf: u32
    var min: u32
    var max: u32
    var wish: u32
    var seqPut: u16
    var seqGet: u16
    var ssrc: u32
    var tr: u64
    var pt: int
    var running: bool
    var rdiff: int
    var timer: Timer
    var jbtype: JbType

    function Value(): State
      reads this
    {
      State(pool, packets, n, nf, min, max, wish, seqPut, seqGet, ssrc, tr, pt, running, rdiff, timer, jbtype)
    }

    /** jbuf_alloc, for min <= max, and jbuf_set_type. */
    constructor (minFrames: u32, maxPackets: u32, kind: JbType)
      requires minFrames <= maxPackets
      ensures Value() == NewBuffer(minFrames, maxPackets, kind)
    {
      pool, packets, n, nf := [], [], 0, 0;
      min, max, wish := minFrames, maxPackets, minFrames;
      seqPut, seqGet, ssrc, tr, pt, running, rdiff := 0, 0, 0, 0, -1, false, 0;
      timer, jbtype := Off, kind;
      new;
      for i := 0 to max
        invariant pool == seq(i, k => k)
        invariant Value() == NewBuffer(minFrames, maxPackets, kind).(pool := pool) && max == maxPackets
      {
        pool := pool + [i];
      }
    }

    /** packet_alloc. */
    method PacketAlloc() returns (cell: nat)
      requires HasCells(Value())
      modifies this
      ensures (Value(), cell) == Alloc(old(Value()))
    {
      if pool != [] {
        cell := pool[0];
        pool := pool[1..];
        n := Inc(n);
      } else {
        cell := packets[0].cell;
        packets := packets[1..];
      }
    }

    /** packet_deref. */
    method PacketDeref(i: nat)
      requires i < |packets|
      modifies this
      ensures Value() == Deref(old(Value()), i)
    {
      var cell := packets[i].cell;
      packets := packets[..i] + packets[i + 1..];
      pool := pool + [cell];
      n := Dec(n);
    }

    /** jbuf_flush. */
    method FlushAll()
      modifies this
      ensures Value() == Flush(old(Value()))
    {
      hide Deref;
      while packets != []
        invariant FlushList(Value()) == FlushList(old(Value()))
        decreases |packets|
      {
        DerefShrinks(Value());
        PacketDeref(0);
      }
      n := 0;
      nf := 0;
      running := false;
      seqGet := 0;
    }

    /** wish_down, the timer's handler. */
    method TimerFires()
      modifies this
      ensures Value() == WishDown(old(Value()))
    {
      timer := Off;
      if wish > min {
        wish := wish - 1;
      }
    }

    /** max / ratio. */
    method MaxFrames(u: Undefined) returns (frameMax: u32)
      ensures frameMax == FrameMax(Value(), u)
    {
      frameMax := max;
      if nf != 0 {
        frameMax := if n != 0 && FitsUint32(max * nf / n) then max * nf / n else u.max;
      }
    }

    /** The moving average: every update that does not overflow smooths. */
    method UpdateAverage(sn: u16, u: Undefined)
      modifies `rdiff
      ensures rdiff == NextRdiff(old(Value()), Sample(old(Value()), sn), u)
      ensures 0 <= old(rdiff) <= TOP && StepFits(old(Value()), sn) ==>
                Smoothed(wish, old(rdiff), Sample(old(Value()), sn), rdiff) && 0 <= rdiff <= TOP
    {
      hide FitsInt32, TruncDiv, Int16, Smoothed, StepFits;
      if 0 <= rdiff <= TOP && StepFits(Value(), sn) {
        AverageIsBetween(Value(), sn, u);
      }
      var diff := Int16(seqPut + 1 - sn);
      var adiff := Abs(diff * EMA_COEFF);
      var speed := if adiff > rdiff then UP_SPEED else if wish > 2 then 1 else if wish > 1 then 2 else 3;
      var change := (adiff - rdiff) * speed;
      rdiff := if FitsInt32(change) then rdiff + TruncDiv(change, EMA_COEFF) else u.rdiff;
    }

    /** The average in whole frames, rdiff / 1024 / ratio. */
    method AverageFrames(u: Undefined) returns (frames: u32)
      ensures frames == RawWish(Value(), rdiff, u)
    {
      var num, den := rdiff, EMA_COEFF;
      if nf != 0 {
        num, den := rdiff * nf, EMA_COEFF * n;
      }
      frames := if rdiff >= 0 && den != 0 && FitsUint32(num / den) then num / den else u.wish;
    }

    /** calc_rdiff. */
    method CalcDepth(sn: u16, now: u64, u: Undefined)
      modifies this
      ensures Value() == CalcRdiff(old(Value()), sn, now, u)
    {
      hide NextRdiff, FrameMax, RawWish, SetWish, Sample;
      if jbtype != Adaptive {
        return;
      }
      if seqGet == 0 {
        return;
      }
      ghost var s := Value();
      var frameMax := MaxFrames(u);
      UpdateAverage(sn, u);
      RdiffUnused(s, rdiff, u);
      var want := AverageFrames(u);
      if want < min {
        want := min;
      }
      if frameMax != 0 && want >= frameMax {
        want := frameMax - 1;
      }
      SetDepth(want, now);
    }

    /** The end of calc_rdiff: wish moves up, or the timer is set to move it down. */
    method SetDepth(want: u32, now: u64)
      modifies this
      ensures Value() == SetWish(old(Value()), want, now)
    {
      var down := false;
      if want > wish {
        wish := want;
      } else if want < wish {
        var dt := if want + 1 == wish then 6000 else 1000;
        if timer == Off || timer.at - now > dt {
          timer := Expires(now + dt);
        }
        down := true;
      }
      if !down && timer != Off {
        timer := Off;
      }
    }

    /** jbuf_put. */
    method PutPacket(h: Header, mem: int, now: u64, u: Undefined) returns (err: Error)
      requires HasCells(Value())
      modifies this
      ensures (Value(), err) == Put(old(Value()), h, mem, now, u)
      ensures tr == now && ssrc == h.ssrc
    {
      hide PutLocked, Arrive;
      ArriveHasCells(Value(), h, now);
      PutRemembers(Value(), h, mem, now, u);
      Prepare(h, now);
      err := PutUnderLock(h, mem, now, u);
    }

    /** The flushes and bookkeeping of jbuf_put before the lock. */
    method Prepare(h: Header, now: u64)
      modifies this
      ensures Value() == Arrive(old(Value()), h, now)
    {
      hide Flush;
      if pt == -1 {
        pt := h.pt;
      }
      if ssrc != 0 && ssrc != h.ssrc {
        FlushAll();
      }
      var dt := (now - tr) % TWO64;
      if tr != 0 && dt > PUT_TIMEOUT {
        if h.m {
          FlushAll();
        }
      }
      tr := now;
      ssrc := h.ssrc;
    }

    /** The part of jbuf_put under the lock. */
    method PutUnderLock(h: Header, mem: int, now: u64, u: Undefined) returns (err: Error)
      requires HasCells(Value())
      modifies this
      ensures (Value(), err) == PutLocked(old(Value()), h, mem, now, u)
    {
      hide CalcRdiff, Alloc, Store;
      CalcRdiffCells(Value(), h.sn, now, u);
      if running {
        if jbtype == Adaptive {
          CalcDepth(h.sn, now, u);
        }
        if seqGet != 0 && SeqLess(h.sn, (seqGet + 1) % TWO16) {
          return TimedOut;
        }
      }
      var cell := PacketAlloc();
      err := StorePacket(cell, h, mem);
    }

    /** The place of a packet: after the tail, or found by the search back from the tail. */
    method Search(sn: u16) returns (spot: Spot)
      ensures spot == PlaceIn(packets, sn)
    {
      hide SeqLess;
      var k: nat := |packets|;
      if packets == [] || SeqLess(packets[k - 1].hdr.sn, sn) {
        return Insert(k);
      }
      while k > 0
        invariant k <= |packets| && Place(packets, sn, k) == PlaceIn(packets, sn)
      {
        var le := packets[k - 1].hdr.sn;
        if SeqLess(le, sn) {
          return Insert(k);
        } else if sn == le {
          return Duplicate(k - 1);
        }
        k := k - 1;
      }
      return Insert(0);
    }

    /** A duplicate is inserted after its equal and released at once; any other packet stays. */
    method StorePacket(cell: nat, h: Header, mem: int) returns (err: Error)
      modifies this
      ensures (Value(), err) == Store(old(Value()), cell, h, mem)
    {
      hide PlaceIn, SameFrame;
      var spot := Search(h.sn);
      var k := if spot.Duplicate? then spot.index + 1 else spot.index;
      PlaceRange(packets, h.sn);
      if spot.Duplicate? {
        packets := packets[..k] + [Packet(cell, h, mem)] + packets[k..];
        PacketDeref(k);
        assert packets == old(packets);
        return Already;
      }
      var equal := SameFrame(packets, k, h.ts);
      packets := packets[..k] + [Packet(cell, h, mem)] + packets[k..];
      running := true;
      seqPut := h.sn;
      if !equal {
        nf := Inc(nf);
      }
      err := None;
    }

    /** The head leaves the buffer; shared by jbuf_get and jbuf_drain. */
    method TakeHead() returns (f: Packet)
      requires packets != []
      modifies this
      ensures Value() == Play(old(Value())) && f == old(packets[0])
    {
      f := packets[0];
      seqGet := f.hdr.sn;
      if |packets| > 1 {
        if f.hdr.ts != packets[1].hdr.ts {
          nf := Dec(nf);
        }
      } else {
        nf := Dec(nf);
      }
      PacketDeref(0);
    }

    /** jbuf_get. */
    method GetPacket(f0: Packet) returns (err: Error, f: Packet)
      modifies this
      ensures (Value(), err) == Get(old(Value()))
      ensures err == NoEntry <==> old(nf) <= old(wish) || old(packets) == []
      ensures err == Again <==> old(nf) > old(wish) && old(packets) != [] && nf > wish
      ensures f == if err == NoEntry then f0 else old(packets[0])
    {
      hide Play;
      GetIff(Value());
      if nf <= wish || packets == [] {
        return NoEntry, f0;
      }
      f := TakeHead();
      err := if nf > wish then Again else None;
    }

    /** jbuf_drain. */
    method DrainPacket(f0: Packet) returns (err: Error, f: Packet)
      modifies this
      ensures (Value(), err) == Drain(old(Value()))
      ensures f == if err == NoEntry then f0 else old(packets[0])
    {
      hide Play;
      if n <= 0 || packets == [] {
        return NoEntry, f0;
      }
      f := TakeHead();
      err := None;
    }
  }

  lemma PlaceRange(packets: seq<Packet>, sn: u16)
    ensures PlaceIn(packets, sn).Duplicate? ==> PlaceIn(packets, sn).index < |packets|
  {
    hide SeqLess;
    PlaceIs(packets, sn, |packets|);
  }

  lemma DerefShrinks(s: State)
    requires s.packets != []
    ensures FlushList(s) == FlushList(Deref(s, 0)) && |Deref(s, 0).packets| == |s.packets| - 1
  {}

  /** The average is no input of the frame maximum, and of the wish only as an argument. */
  lemma RdiffUnused(s: State, rdiff: int, u: Undefined)
    ensures FrameMax(s.(rdiff := rdiff), u) == FrameMax(s, u)
    ensures RawWish(s.(rdiff := rdiff), rdiff, u) == RawWish(s, rdiff, u)
  {}

  lemma CalcRdiffCells(s: State, sn: u16, now: u64, u: Undefined)
    ensures var r := CalcRdiff(s, sn, now, u);
            r.pool == s.pool && r.packets == s.packets && r.running == s.running && r.seqGet == s.seqGet
  {}
}
