/** The jitter buffer of jbuf.c as a value: its state and what each operation makes of it. */
module JbufState {
  const TWO16: int := 0x1_0000
  const TWO31: int := 0x8000_0000
  const TWO32: int := 0x1_0000_0000
  const TWO64: int := 0x1_0000_0000_0000_0000

  const EMA_COEFF: int := 1024
  const UP_SPEED: int := 512
  const PUT_TIMEOUT: int := 400

  type u16 = x: int | 0 <= x < TWO16
  type u32 = x: int | 0 <= x < TWO32
  type u64 = x: int | 0 <= x < TWO64

  function Inc(x: u32): u32 { (x + 1) % TWO32 }
  function Dec(x: u32): u32 { (x - 1) % TWO32 }

  /** The cast to int16_t. */
  function Int16(x: int): int {
    var m := x % TWO16;
    if m >= 0x8000 then m - TWO16 else m
  }

  /** On the circle of 2^16 numbers, y lies up to half a turn after x. */
  predicate SeqLess(x: u16, y: u16) { Int16(x - y) < 0 }

  /** The RTP header fields the buffer looks at. */
  datatype Header = Header(sn: u16, ts: u32, ssrc: u32, pt: int, m: bool)

  /** A buffered packet; cell is the list node it lives in. */
  datatype Packet = Packet(cell: nat, hdr: Header, mem: int)

  datatype JbType = Fixed | Adaptive

  /** The rdiff down timer: off, or the time it expires. */
  datatype Timer = Off | Expires(at: int)

  datatype State = State(
    pool: seq<nat>, packets: seq<Packet>, n: u32, nf: u32, min: u32, max: u32, wish: u32,
    seqPut: u16, seqGet: u16, ssrc: u32, tr: u64, pt: int, running: bool, rdiff: int, timer: Timer, jbtype: JbType)

  datatype Error = None | TimedOut | Already | NoEntry | Again

  /** What the operations that C leaves undefined happen to yield. */
  datatype Undefined = Undefined(max: u32, wish: u32, rdiff: int)

  // ---- pool ----

  /** packet_alloc: a free cell, or the cell of the oldest packet. */
  function Alloc(s: State): (State, nat)
    requires s.pool != [] || s.packets != []
  {
    if s.pool != [] then (s.(pool := s.pool[1..], n := Inc(s.n)), s.pool[0])
    else (s.(packets := s.packets[1..]), s.packets[0].cell)
  }

  /** packet_deref of packet i. */
  function Deref(s: State, i: nat): State
    requires i < |s.packets|
  {
    s.(packets := s.packets[..i] + s.packets[i + 1..], pool := s.pool + [s.packets[i].cell], n := Dec(s.n))
  }

  function FlushList(s: State): State
    decreases |s.packets|
  {
    if s.packets == [] then s else FlushList(Deref(s, 0))
  }

  /** jbuf_flush. */
  function Flush(s: State): State { FlushList(s).(n := 0, nf := 0, running := false, seqGet := 0) }

  // ---- adaptive depth ----

  function Abs(x: int): int { if x < 0 then -x else x }

  /** C division, for a positive divisor. */
  function TruncDiv(a: int, b: int): int
    requires b > 0
  {
    if a >= 0 then a / b else -(-a / b)
  }

  /** wish_down. */
  function WishDown(s: State): State {
    s.(timer := Off, wish := if s.wish > s.min then s.wish - 1 else s.wish)
  }

  function Sample(s: State, sn: u16): int { Abs(Int16(s.seqPut + 1 - sn) * EMA_COEFF) }

  function Speed(s: State, adiff: int): int {
    if adiff > s.rdiff then UP_SPEED else if s.wish > 2 then 1 else if s.wish > 1 then 2 else 3
  }

  predicate FitsInt32(x: int) { -TWO31 <= x < TWO31 }
  predicate FitsUint32(x: int) { 0 <= x < TWO32 }

  function NextRdiff(s: State, adiff: int, u: Undefined): int {
    var change := (adiff - s.rdiff) * Speed(s, adiff);
    if FitsInt32(change) then s.rdiff + TruncDiv(change, EMA_COEFF) else u.rdiff
  }

  /** max / ratio, with the ratio of packets to frames as an exact fraction. */
  function FrameMax(s: State, u: Undefined): u32 {
    if s.nf == 0 then s.max
    else if s.n != 0 && FitsUint32(s.max * s.nf / s.n) then s.max * s.nf / s.n
    else u.max
  }

  /** rdiff / 1024 / ratio. */
  function RawWish(s: State, rdiff: int, u: Undefined): u32 {
    var num, den := if s.nf == 0 then rdiff else rdiff * s.nf, if s.nf == 0 then EMA_COEFF else EMA_COEFF * s.n;
    if rdiff >= 0 && den != 0 && FitsUint32(num / den) then num / den else u.wish
  }

  /** The wish after clamping to the range from min to max - 1. */
  function ClampWish(s: State, raw: u32, frameMax: u32): u32 {
    var w := if raw < s.min then s.min else raw;
    if frameMax != 0 && w >= frameMax then frameMax - 1 else w
  }

  function SetWish(s: State, wish: u32, now: u64): State {
    if wish > s.wish then s.(wish := wish, timer := Off)
    else if wish < s.wish then
      var dt := if wish + 1 == s.wish then 6000 else 1000;
      if s.timer == Off || s.timer.at - now > dt then s.(timer := Expires(now + dt)) else s
    else s.(timer := Off)
  }

  /** calc_rdiff. */
  function CalcRdiff(s: State, sn: u16, now: u64, u: Undefined): State {
    if s.jbtype != Adaptive || s.seqGet == 0 then s
    else
      var rdiff := NextRdiff(s, Sample(s, sn), u);
      SetWish(s.(rdiff := rdiff), ClampWish(s, RawWish(s, rdiff, u), FrameMax(s, u)), now)
  }

  // ---- put ----

  /** The flushes and the bookkeeping before the buffer is looked at. */
  function Arrive(s: State, h: Header, now: u64): State {
    var s1 := if s.pt == -1 then s.(pt := h.pt) else s;
    var s2 := if s1.ssrc != 0 && s1.ssrc != h.ssrc then Flush(s1) else s1;
    var s3 := if s2.tr != 0 && (now - s2.tr) % TWO64 > PUT_TIMEOUT && h.m then Flush(s2) else s2;
    s3.(tr := now, ssrc := h.ssrc)
  }

  /** A new SSRC, or a marker after a gap of more than 400 ms, flushes the buffer. */
  predicate ArriveFlushes(s: State, h: Header, now: u64) {
    (s.ssrc != 0 && s.ssrc != h.ssrc) || (s.tr != 0 && (now - s.tr) % TWO64 > PUT_TIMEOUT && h.m)
  }

  /** The packet is not after the last played one. */
  predicate Late(s: State, sn: u16) { s.running && s.seqGet != 0 && SeqLess(sn, (s.seqGet + 1) % TWO16) }

  datatype Spot = Insert(index: nat) | Duplicate(index: nat)

  /** The search from the tail among the first k packets. */
  function Place(packets: seq<Packet>, sn: u16, k: nat): Spot
    requires k <= |packets|
  {
    if k == 0 then Insert(0)
    else if SeqLess(packets[k - 1].hdr.sn, sn) then Insert(k)
    else if packets[k - 1].hdr.sn == sn then Duplicate(k - 1)
    else Place(packets, sn, k - 1)
  }

  function PlaceIn(packets: seq<Packet>, sn: u16): (r: Spot)
    ensures r.index <= |packets|
  {
    var r := Place(packets, sn, |packets|);
    PlaceBound(packets, sn, |packets|);
    r
  }

  lemma {:induction false} PlaceBound(packets: seq<Packet>, sn: u16, k: nat)
    requires k <= |packets|
    ensures Place(packets, sn, k).index <= k
  {
    if k > 0 {
      PlaceBound(packets, sn, k - 1);
    }
  }

  /** A neighbour of place i belongs to the same frame. */
  predicate SameFrame(packets: seq<Packet>, i: nat, ts: u32)
    requires i <= |packets|
  {
    (i > 0 && packets[i - 1].hdr.ts == ts) || (i < |packets| && packets[i].hdr.ts == ts)
  }

  /** Storing a packet in an allocated cell, unless its number is there already. */
  function Store(s: State, cell: nat, h: Header, mem: int): (State, Error) {
    match PlaceIn(s.packets, h.sn)
    case Duplicate(_) => (s.(pool := s.pool + [cell], n := Dec(s.n)), Already)
    case Insert(i) =>
      (s.(packets := s.packets[..i] + [Packet(cell, h, mem)] + s.packets[i..],
          nf := if SameFrame(s.packets, i, h.ts) then s.nf else Inc(s.nf),
          running := true, seqPut := h.sn), None)
  }

  /** The part of jbuf_put under the lock. */
  function PutLocked(s: State, h: Header, mem: int, now: u64, u: Undefined): (State, Error)
    requires HasCells(s)
  {
    var s1 := if s.running && s.jbtype == Adaptive then CalcRdiff(s, h.sn, now, u) else s;
    if Late(s1, h.sn) then (s1, TimedOut)
    else var (s2, cell) := Alloc(s1); Store(s2, cell, h, mem)
  }

  // ---- get and drain ----

  /** nf after the head leaves. */
  function LessFrame(packets: seq<Packet>, nf: u32): u32
    requires packets != []
  {
    if |packets| > 1 && packets[0].hdr.ts == packets[1].hdr.ts then nf else Dec(nf)
  }

  /** The head leaves the buffer to be played. */
  function Play(s: State): State
    requires s.packets != []
  {
    Deref(s.(seqGet := s.packets[0].hdr.sn, nf := LessFrame(s.packets, s.nf)), 0)
  }

  predicate Waits(s: State) { s.nf <= s.wish || s.packets == [] }

  /** jbuf_get. */
  function Get(s: State): (State, Error) {
    if Waits(s) then (s, NoEntry)
    else var s' := Play(s); (s', if s'.nf > s'.wish then Again else None)
  }

  /** jbuf_drain. */
  function Drain(s: State): (State, Error) {
    if s.n <= 0 || s.packets == [] then (s, NoEntry) else (Play(s), None)
  }

  // ---- what always holds ----

  function CellsOf(packets: seq<Packet>): (r: seq<nat>)
    ensures |r| == |packets|
  {
    seq(|packets|, i requires 0 <= i < |packets| => packets[i].cell)
  }

  /** Every list node, free or in the buffer. */
  function Cells(s: State): seq<nat> { s.pool + CellsOf(s.packets) }

  /** Neighbours in the buffer are in sequence order. */
  predicate NeighboursOrdered(packets: seq<Packet>) {
    forall i :: 0 < i < |packets| ==> SeqLess(packets[i - 1].hdr.sn, packets[i].hdr.sn)
  }

  /** Every cell is in the pool or in the buffer, once, and n counts the buffer. */
  ghost predicate Conserved(s: State, cells: multiset<nat>) {
    && multiset(Cells(s)) == cells && |cells| == s.max >= 1
    && s.n == |s.packets|
  }

  /** What every operation keeps, whatever the packets. */
  ghost predicate Sound(s: State, cells: multiset<nat>) {
    && Conserved(s, cells) && NeighboursOrdered(s.packets)
    && (s.seqGet != 0 || s.packets != [] ==> s.running) && s.wish >= s.min
  }

  /** Some list node exists, so a packet can always be stored. */
  predicate HasCells(s: State) { s.pool != [] || s.packets != [] }

  /** jbuf_put. */
  function Put(s: State, h: Header, mem: int, now: u64, u: Undefined): (State, Error)
    requires HasCells(s)
  {
    ArriveHasCells(s, h, now);
    PutLocked(Arrive(s, h, now), h, mem, now, u)
  }

  lemma {:induction false} FlushHasCells(s: State)
    requires HasCells(s)
    ensures HasCells(FlushList(s))
    decreases |s.packets|
  {
    if s.packets != [] {
      FlushHasCells(Deref(s, 0));
    }
  }

  lemma ArriveHasCells(s: State, h: Header, now: u64)
    requires HasCells(s)
    ensures HasCells(Arrive(s, h, now))
  {
    var s1 := if s.pt == -1 then s.(pt := h.pt) else s;
    FlushHasCells(s1);
    var s2 := if s1.ssrc != 0 && s1.ssrc != h.ssrc then Flush(s1) else s1;
    FlushHasCells(s2);
  }
}
