/**
  The ring of segments that queue32.c and queue32m.c share. A segment is the payload of one
  datagram and is filled with transport layer messages (length, counter, packet). Each function is
  what one mutex section does.
 */
module SegmentRing {
  import opened Bytes

  const HEADER := 4
  const ALIGNMENT := 4
  const MAX_DTO := 1024
  const MAX_SEGMENT := (1500 - 20 - 8) / 8 * 8
  const RESERVED := 0xEEEE
  const COMMITTED := 0xCCCC

  datatype Option<T> = None | Some(value: T)

  datatype Segment = Segment(size: nat, uncommitted: nat, bytes: seq<Byte>)

  /** `cur` is msg_ptr: the segment that takes the next message. */
  datatype Ring = Ring(segs: seq<Segment>, rp: nat, len: nat, cur: Option<nat>, lost: nat)

  /** A message buffer: its segment and the offset of its header. */
  datatype Place = Place(seg: nat, off: nat)

  function Inc16(x: nat): nat { (x + 1) % 0x10000 }
  function Dec16(x: nat): nat { if x == 0 then 0xFFFF else x - 1 }

  predicate ValidPacket(packetSize: nat) { 0 < packetSize <= MAX_DTO }

  /** The packet size rounded up, which goes into the message header. */
  function Dlc(packetSize: nat): nat { (packetSize + (ALIGNMENT - 1)) / ALIGNMENT * ALIGNMENT }

  /** A valid packet fits its message, which wastes at most three bytes and never exceeds the maximum. */
  lemma DlcFits(packetSize: nat)
    requires ValidPacket(packetSize)
    ensures 0 < packetSize <= Dlc(packetSize) <= 1024
    ensures Dlc(packetSize) < packetSize + 4 && Dlc(packetSize) % 4 == 0
  {
  }

  predicate WellFormed(r: Ring) {
    && r.rp < |r.segs| && 1 <= r.len <= |r.segs|
    && (forall q :: 0 <= q < |r.segs| ==> |r.segs[q].bytes| == MAX_SEGMENT)
    && (r.cur.Some? ==> r.cur.value == Slot(r, r.len - 1))
  }

  /** The `k`-th segment behind the read index. */
  function Slot(r: Ring, k: nat): (q: int) { if r.rp + k >= |r.segs| then r.rp + k - |r.segs| else r.rp + k }

  /** The empty ring, before queueInit takes the first segment. */
  function Blank(segmentCount: nat): Ring {
    Ring(seq(segmentCount, _ => Segment(0, 0, Zeros(MAX_SEGMENT))), 0, 0, None, 0)
  }

  function NewSegment(r: Ring): Ring
    requires r.rp < |r.segs|
  {
    if r.len >= |r.segs| then r.(cur := None)
    else
      var i := Slot(r, r.len);
      r.(segs := r.segs[i := r.segs[i].(size := 0, uncommitted := 0)], cur := Some(i), len := r.len + 1)
  }

  predicate NeedsSegment(r: Ring, dlc: nat)
    requires WellFormed(r)
  {
    r.cur.None? || (r.segs[r.cur.value].size + dlc + HEADER) % 0x10000 > MAX_SEGMENT
  }

  /** The ring in which queueAcquire looks for room. */
  function WithRoom(r: Ring, dlc: nat): Ring
    requires WellFormed(r)
  {
    if NeedsSegment(r, dlc) then NewSegment(r) else r
  }

  function SetBytes(r: Ring, q: nat, off: nat, data: seq<Byte>): Ring
    requires q < |r.segs| && off + |data| <= |r.segs[q].bytes|
  {
    r.(segs := r.segs[q := r.segs[q].(bytes := Splice(r.segs[q].bytes, off, data))])
  }

  /** Take room for one message from the current segment. */
  function Take(r: Ring, dlc: nat): Ring
    requires r.cur.Some? && r.cur.value < |r.segs|
  {
    var b := r.segs[r.cur.value];
    r.(segs := r.segs[r.cur.value :=
      b.(size := (b.size + dlc + HEADER) % 0x10000, uncommitted := Inc16(b.uncommitted))])
  }

  /** The message goes into the segment that was found, or is counted as lost. */
  function Grant(r: Ring, dlc: nat): Ring
    requires r.cur.Some? ==> r.cur.value < |r.segs|
  {
    if r.cur.Some? then Take(r, dlc) else r.(lost := r.lost + 1)
  }

  lemma WithRoomWellFormed(r: Ring, dlc: nat)
    requires WellFormed(r)
    ensures WellFormed(WithRoom(r, dlc)) && |WithRoom(r, dlc).segs| == |r.segs|
  {
  }

  /** No segment holds more than a datagram. */
  predicate Bounded(r: Ring) {
    forall q :: 0 <= q < |r.segs| ==> r.segs[q].size <= MAX_SEGMENT
  }

  lemma WithRoomFits(r: Ring, dlc: nat)
    requires WellFormed(r) && Bounded(r) && dlc <= MAX_DTO
    ensures var r' := WithRoom(r, dlc);
      && Bounded(r')
      && (r'.cur.Some? ==>
            r'.cur.value < |r'.segs| && r'.segs[r'.cur.value].size + HEADER + dlc <= MAX_SEGMENT)
  {
  }

  /** The mutex section of queueAcquire in queue32.c: the message gets room and a reserved header, or is lost. */
  function Acquire(r: Ring, dlc: nat): Ring
    requires WellFormed(r) && Bounded(r) && dlc <= MAX_DTO
  {
    WithRoomWellFormed(r, dlc);
    WithRoomFits(r, dlc);
    var r1 := WithRoom(r, dlc);
    if r1.cur.None? then Grant(r1, dlc)
    else SetBytes(Grant(r1, dlc), r1.cur.value, r1.segs[r1.cur.value].size, Word(dlc, RESERVED))
  }

  predicate InSegment(r: Ring, at: Place) {
    at.seg < |r.segs| && at.off + HEADER <= |r.segs[at.seg].bytes|
  }

  /** Start a new segment behind a high priority message. */
  function Flush(r: Ring, flush: bool): Ring
    requires WellFormed(r)
  {
    if flush && r.cur.Some? && r.segs[r.cur.value].size > 0 then NewSegment(r) else r
  }

  /** Commit one message: count it and mark its counter field. */
  function Commit(r: Ring, at: Place): Ring
    requires InSegment(r, at)
  {
    var b := r.segs[at.seg];
    r.(segs := r.segs[at.seg := b.(uncommitted := Dec16(b.uncommitted),
                                   bytes := Splice(b.bytes, at.off, Word(LowWord(b.bytes, at.off), COMMITTED)))])
  }

  /** The ring after the flush decision of queuePop. */
  function PopFlush(r: Ring, flush: bool): Ring
    requires WellFormed(r)
  {
    if r.len == 1 && r.segs[r.rp].size > 0 && flush then NewSegment(r) else r
  }

  /** queuePop may hand out the oldest segment. */
  predicate Ready(r: Ring)
    requires WellFormed(r)
  {
    r.len > 1 && r.segs[r.rp].uncommitted == 0 && r.segs[r.rp].size > 0
  }

  function Release(r: Ring): Ring
    requires r.len > 0
  {
    r.(rp := if r.rp + 1 >= |r.segs| then 0 else r.rp + 1, len := r.len - 1)
  }
}
