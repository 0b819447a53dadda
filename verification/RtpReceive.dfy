/** The RTP receive path over the jitter buffer: lostcalc, decode_frame and the put-and-drain part of
    rtprecv_decode. */
module RtpReceive {
  import opened JbufState
  import opened JbufOrder
  import Jbuf

  /** (uint32_t)-1: no sequence number yet. */
  const UNSET: u32 := 0xFFFF_FFFF

  /** lostcalc: the count of lost packets, -1 for a duplicate, -2 for a misordered packet; and pseq. */
  function LostCalc(pseq: u32, sn: u16): (int, u32) {
    var delta := (sn - pseq) % TWO16;
    if pseq == UNSET then (0, sn)
    else if delta == 0 then (-1, pseq)
    else if delta < 3000 then (delta - 1, sn)
    else if delta < 0xff9c then (0, sn)
    else (-2, pseq)
  }

  // ---- loss accounting ----

  /** The losses reported over a run of delivered packets, and the final pseq. */
  function Losses(pseq: u32, delivered: seq<Entry>): (int, u32)
    decreases |delivered|
  {
    if delivered == [] then (0, pseq)
    else
      var (lost, pseq') := LostCalc(pseq, Wire(delivered[0].number));
      var rest := Losses(pseq', delivered[1..]);
      ((if lost > 0 then lost else 0) + rest.0, rest.1)
  }

  /** The last number delivered. */
  function Last(first: int, delivered: seq<Entry>): int {
    if delivered == [] then first else delivered[|delivered| - 1].number
  }

  /** Every step from one delivered number to the next is between 1 and 2999. */
  predicate SmallSteps(first: int, delivered: seq<Entry>)
    decreases |delivered|
  {
    delivered != [] ==> 1 <= delivered[0].number - first <= 2999 && SmallSteps(delivered[0].number, delivered[1..])
  }

  /** One delivery after another: what lostcalc reports for a step forward. */
  lemma StepForward(a: int, b: int)
    requires 1 <= b - a < TWO16 - 100
    ensures var (lost, pseq) := LostCalc(Wire(a), Wire(b));
            && pseq == Wire(b)
            && lost == (if b - a < 3000 then b - a - 1 else 0)
  {}

  /** Packets delivered after the first plus losses reported is the distance from first to last. */
  lemma {:induction false} LossConservation(first: int, delivered: seq<Entry>)
    requires SmallSteps(first, delivered)
    ensures Losses(Wire(first), delivered)
         == (Last(first, delivered) - first - |delivered|, Wire(Last(first, delivered)))
    decreases |delivered|
  {
    hide LostCalc, Wire;
    if delivered != [] {
      StepForward(first, delivered[0].number);
      LossConservation(delivered[0].number, delivered[1..]);
    }
  }

  /** lostcalc reports a duplicate or misorder exactly for steps of 0 to -100 modulo 2^16. */
  lemma RefusedIff(a: int, b: int)
    ensures LostCalc(Wire(a), Wire(b)).0 < 0 <==> (a - b) % TWO16 <= 100
  {}

  /** What lostcalc makes of every pair of numbers that pseq and sn may stand for: a step forward loses the
      numbers between; a step of 0 to -100 is refused, and no other one. */
  ghost predicate Accounts(pseq: u32, sn: u16, lost: int, next: u32) {
    forall a, b :: pseq == Wire(a) && sn == Wire(b) ==>
      && (lost < 0 <==> (a - b) % TWO16 <= 100)
      && next == (if lost < 0 then pseq else sn)
      && (1 <= b - a < TWO16 - 100 ==> lost == if b - a < 3000 then b - a - 1 else 0)
  }

  lemma AccountsForAll(pseq: u32, sn: u16)
    ensures Accounts(pseq, sn, LostCalc(pseq, sn).0, LostCalc(pseq, sn).1)
  {
    hide Wire;
    forall a, b | pseq == Wire(a) && sn == Wire(b)
      ensures LostCalc(pseq, sn).0 < 0 <==> (a - b) % TWO16 <= 100
      ensures 1 <= b - a < TWO16 - 100 ==> LostCalc(pseq, sn).0 == if b - a < 3000 then b - a - 1 else 0
    {
      RefusedIff(a, b);
      if 1 <= b - a < TWO16 - 100 {
        StepForward(a, b);
      }
    }
  }

  lemma {:induction false} LossesConcat(pseq: u32, a: seq<Entry>, b: seq<Entry>)
    ensures var (lost, middle) := Losses(pseq, a);
            Losses(pseq, a + b) == (lost + Losses(middle, b).0, Losses(middle, b).1)
    decreases |a|
  {
    hide LostCalc, Wire;
    if a == [] {
      assert a + b == b;
    } else {
      LossesConcat(LostCalc(pseq, Wire(a[0].number)).1, a[1..], b);
      assert (a + b)[1..] == a[1..] + b;
    }
  }

  // ---- draining ----

  /** A packet passed on, with the losses reported before it. */
  datatype Delivery = Delivery(packet: Packet, lost: nat)

  datatype Drained = Drained(jb: State, pseq: u32, out: seq<Delivery>)

  /** Whether the handler asks to be called again for the ith packet. */
  predicate Asks(asks: seq<bool>, i: nat) { i < |asks| && asks[i] }

  /** Up to n turns of decode_frame, from turn i on: on while the buffer is over its wish or the
      handler asks for more. */
  function DrainLoop(jb: State, pseq: u32, n: nat, i: nat, asks: seq<bool>): Drained
    decreases n
  {
    if n == 0 then Drained(jb, pseq, [])
    else
      var (jb', err) := Get(jb);
      if err == NoEntry then Drained(jb', pseq, [])
      else
        var (lost, pseq') := LostCalc(pseq, jb.packets[0].hdr.sn);
        var first := Delivery(jb.packets[0], if lost > 0 then lost else 0);
        if err == Again || Asks(asks, i) then
          var rest := DrainLoop(jb', pseq', n - 1, i + 1, asks);
          Drained(rest.jb, rest.pseq, [first] + rest.out)
        else Drained(jb', pseq', [first])
  }

  /** What the payload type handler says before the packet is put. */
  datatype Verdict = Accept | NoData | Refuse

  datatype Receiver = Receiver(jb: State, pseq: u32, pseqSet: bool, ssrc: u32)

  /** pseq for the first packet of a source. */
  function Before(sn: u16): u32 { (sn - 1) % TWO32 }

  function Decode(r: Receiver, h: Header, mem: int, now: u64, u: Undefined, verdict: Verdict,
                  asks: seq<bool>): (Receiver, seq<Delivery>)
    requires HasCells(r.jb)
  {
    var first := !r.pseqSet;
    var flush := !first && h.ssrc != r.ssrc;
    var r1 := if first || flush then r.(ssrc := h.ssrc, pseq := Before(h.sn), pseqSet := true) else r;
    if verdict == Refuse then (r1, [])
    else
      var jb1 := if flush then Flush(r1.jb) else r1.jb;
      if first && verdict == NoData then (r1.(jb := jb1), [])
      else
        FlushHasCells(r1.jb);
        var jb2 := Put(jb1, h, mem, now, u).0;
        var d := DrainLoop(jb2, r1.pseq, jb2.n, 0, asks);
        (Receiver(d.jb, d.pseq, true, r1.ssrc), d.out)
  }

  // ---- the code ----

  class RtpReceiver {
    const jbuf: Jbuf.Jbuf
    var pseq: u32
    var pseqSet: bool
    var ssrc: u32

    constructor (jb: Jbuf.Jbuf)
      ensures jbuf == jb && Value() == Receiver(jb.Value(), UNSET, false, 0)
    {
      jbuf, pseq, pseqSet, ssrc := jb, UNSET, false, 0;
    }

    function Value(): Receiver
      reads this, jbuf
    {
      Receiver(jbuf.Value(), pseq, pseqSet, ssrc)
    }

    /** lostcalc. */
    method CountLost(sn: u16) returns (lost: int)
      modifies `pseq
      ensures (lost, pseq) == LostCalc(old(pseq), sn)
      ensures old(pseq) == UNSET ==> lost == 0 && pseq == sn
      ensures Accounts(old(pseq), sn, lost, pseq)
    {
      AccountsForAll(pseq, sn);
      var delta := (sn - pseq) % TWO16;
      if pseq == UNSET {
        lost := 0;
      } else if delta == 0 {
        return -1;
      } else if delta < 3000 {
        lost := delta - 1;
      } else if delta < 0xff9c {
        lost := 0;
      } else {
        return -2;
      }
      pseq := sn;
    }

    /** decode_frame; ask says that the handler wants to be called again. */
    method DecodeFrame(ask: bool) returns (err: Error, out: seq<Delivery>)
      modifies `pseq, jbuf
      ensures var (jb', e) := Get(old(jbuf.Value()));
              if e == NoEntry then err == NoEntry && out == [] && Value() == old(Value()).(jb := jb')
              else
                var p := old(jbuf.packets[0]);
                var (lost, pseq') := LostCalc(old(pseq), p.hdr.sn);
                && Value() == old(Value()).(jb := jb', pseq := pseq')
                && out == [Delivery(p, if lost > 0 then lost else 0)]
                && err == (if ask then Again else e)
    {
      hide Get, LostCalc, Accounts;
      GetNeedsPacket(jbuf.Value());
      var f0 := Packet(0, Header(0, 0, 0, 0, false), 0);
      var e, f := jbuf.GetPacket(f0);
      if e == NoEntry {
        return NoEntry, [];
      }
      var lost := CountLost(f.hdr.sn);
      out := [Delivery(f, if lost > 0 then lost else 0)];
      err := if ask then Again else e;
    }

    /** The drain loop. */
    method DrainBuffer(asks: seq<bool>) returns (out: seq<Delivery>)
      modifies `pseq, jbuf
      ensures var d := DrainLoop(old(jbuf.Value()), old(pseq), old(jbuf.n), 0, asks);
              Value() == old(Value()).(jb := d.jb, pseq := d.pseq) && out == d.out
    {
      hide Get, LostCalc, DrainLoop;
      var left: nat, i: nat := jbuf.n, 0;
      out := [];
      ghost var d := DrainLoop(jbuf.Value(), pseq, left, 0, asks);
      while left > 0
        invariant Value() == old(Value()).(jb := jbuf.Value(), pseq := pseq)
        invariant d == Prefixed(out, DrainLoop(jbuf.Value(), pseq, left, i, asks))
        decreases left
      {
        ghost var done := out;
        DrainTurn(jbuf.Value(), pseq, left, i, asks);
        left := left - 1;
        var err, first := DecodeFrame(Asks(asks, i));
        out := out + first;
        i := i + 1;
        if err != Again {
          return;
        }
        PrefixedTwice(done, first, DrainLoop(jbuf.Value(), pseq, left, i, asks));
      }
      DrainNone(jbuf.Value(), pseq, i, asks);
    }

    /** rtprecv_flush. */
    method FlushBuffer()
      modifies jbuf
      ensures Value() == old(Value()).(jb := Flush(old(jbuf.Value())))
    {
      jbuf.FlushAll();
    }

    /** rtprecv_decode from the SSRC check on. */
    method DecodePacket(h: Header, mem: int, now: u64, u: Undefined, verdict: Verdict, asks: seq<bool>)
      returns (out: seq<Delivery>)
      requires HasCells(jbuf.Value())
      modifies this, jbuf
      ensures (Value(), out) == Decode(old(Value()), h, mem, now, u, verdict, asks)
    {
      hide Put, DrainLoop, Flush;
      FlushHasCellsToo(jbuf.Value());
      var flush, first := false, false;
      if !pseqSet {
        ssrc := h.ssrc;
        pseq := Before(h.sn);
        pseqSet := true;
        first := true;
      } else if h.ssrc != ssrc {
        ssrc := h.ssrc;
        pseq := Before(h.sn);
        flush := true;
      }
      if verdict == Refuse {
        return [];
      }
      if flush {
        jbuf.FlushAll();
      }
      if first && verdict == NoData {
        return [];
      }
      var err := jbuf.PutPacket(h, mem, now, u);
      out := DrainBuffer(asks);
    }
  }

  lemma GetNeedsPacket(s: State)
    ensures Get(s).1 != NoEntry ==> s.packets != []
  {}

  lemma FlushHasCellsToo(s: State)
    requires HasCells(s)
    ensures HasCells(Flush(s))
  {
    FlushHasCells(s);
  }

  /** Deliveries already made, and the rest. */
  function Prefixed(done: seq<Delivery>, rest: Drained): Drained { rest.(out := done + rest.out) }

  lemma PrefixedTwice(done: seq<Delivery>, first: seq<Delivery>, rest: Drained)
    ensures Prefixed(done, Prefixed(first, rest)) == Prefixed(done + first, rest)
  {
    assert done + (first + rest.out) == done + first + rest.out;
  }

  lemma DrainNone(jb: State, pseq: u32, i: nat, asks: seq<bool>)
    ensures DrainLoop(jb, pseq, 0, i, asks) == Drained(jb, pseq, [])
  {}

  /** One turn of the loop. */
  lemma DrainTurn(jb: State, pseq: u32, n: nat, i: nat, asks: seq<bool>)
    requires n > 0
    ensures var (jb', err) := Get(jb);
            DrainLoop(jb, pseq, n, i, asks) ==
              if err == NoEntry then Drained(jb', pseq, [])
              else
                var (lost, pseq') := LostCalc(pseq, jb.packets[0].hdr.sn);
                var first := Delivery(jb.packets[0], if lost > 0 then lost else 0);
                if err == Again || Asks(asks, i) then Prefixed([first], DrainLoop(jb', pseq', n - 1, i + 1, asks))
                else Drained(jb', pseq', [first])
  {}
}
