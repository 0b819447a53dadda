/** What rtprecv_decode makes of a packet from another source than the one it receives. */
module RtpSource {
  import opened JbufState
  import opened JbufSound
  import opened RtpReceive

  /** A packet put into an empty buffer that plays nothing is alone in it. */
  lemma PutIntoEmpty(s: State, h: Header, mem: int, now: u64, u: Undefined, cells: multiset<nat>)
    requires Sound(s, cells) && HasCells(s) && s.packets == [] && s.nf == s.seqGet == 0 && !s.running
    ensures var (r, err) := Put(s, h, mem, now, u);
            && err == None && |r.packets| == 1 && r.packets[0].hdr == h && r.packets[0].mem == mem
            && r.n == r.nf == 1 && r.wish == s.wish
  {
    hide Conserved, NeighboursOrdered, Arrive, CalcRdiff;
    ArriveHasCells(s, h, now);
    ArriveSound(s, h, now, cells);
    ArriveEffect(s, h, now, cells);
    PoolSize(Arrive(s, h, now), cells);
    EmptyCounts(s, cells);
  }

  lemma EmptyCounts(s: State, cells: multiset<nat>)
    requires Sound(s, cells) && s.packets == []
    ensures s.n == 0
  {}

  /** The drain loop on a buffer with a single packet. */
  lemma DrainSingle(jb: State, pseq: u32, asks: seq<bool>)
    requires |jb.packets| == 1 && jb.n == jb.nf == 1
    ensures var d := DrainLoop(jb, pseq, 1, 0, asks);
            if jb.wish > 0 then d == Drained(jb, pseq, [])
            else
              var (lost, next) := LostCalc(pseq, jb.packets[0].hdr.sn);
              d.out == [Delivery(jb.packets[0], if lost > 0 then lost else 0)]
              && d.jb.packets == [] && d.jb.nf == 0 && d.pseq == next
  {
    hide LostCalc;
    var jb' := Get(jb).0;
    if jb.wish == 0 {
      assert jb'.packets == [];
    }
    DrainTurn(jb, pseq, 1, 0, asks);
  }

  lemma BeforeFirst(sn: u16)
    ensures LostCalc(Before(sn), sn) == (0, sn)
  {}

  /** A packet from another source empties the buffer first: nothing of the old source is passed on or kept, the new
      packet is the only one, and no loss is reported before it, whatever its number. */
  lemma NewSource(r: Receiver, h: Header, mem: int, now: u64, u: Undefined, verdict: Verdict, asks: seq<bool>,
                  cells: multiset<nat>)
    requires Sound(r.jb, cells) && HasCells(r.jb)
    requires r.pseqSet && r.ssrc != h.ssrc && verdict != Refuse
    ensures var (r', out) := Decode(r, h, mem, now, u, verdict, asks);
            && r'.ssrc == h.ssrc && r'.pseqSet
            && if r.jb.wish > 0 then
                 && out == [] && |r'.jb.packets| == 1 && r'.jb.packets[0].hdr == h && r'.jb.packets[0].mem == mem
                 && r'.jb.n == r'.jb.nf == 1 && (r'.pseq + 1 - h.sn) % 0x1_0000_0000 == 0
               else
                 && |out| == 1 && out[0].packet.hdr == h && out[0].packet.mem == mem && out[0].lost == 0
                 && r'.jb.packets == [] && r'.pseq == h.sn
  {
    hide Sound, Put, Flush, DrainLoop, LostCalc;
    FlushSound(r.jb, cells);
    var jb1 := Flush(r.jb);
    SoundHasCells(jb1, cells);
    PutIntoEmpty(jb1, h, mem, now, u, cells);
    DrainSingle(Put(jb1, h, mem, now, u).0, Before(h.sn), asks);
    BeforeFirst(h.sn);
  }

  /** A refused packet changes nothing but the source, and nothing is passed on. */
  lemma RefusedKeepsBuffer(r: Receiver, h: Header, mem: int, now: u64, u: Undefined, asks: seq<bool>)
    requires HasCells(r.jb)
    ensures var (r', out) := Decode(r, h, mem, now, u, Refuse, asks);
            && out == [] && r'.jb == r.jb && r'.ssrc == h.ssrc
            && (r.pseqSet && r.ssrc == h.ssrc ==> r' == r)
  {}
}
