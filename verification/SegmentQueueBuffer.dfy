/** The segment accumulating queue as one thread sees it: each method is one mutex section, on the segments in place. */
module SegmentQueueBuffer {
  import opened Bytes
  import opened SegmentPacking
  import opened SegmentRing

  class Queue {
    const segs: array<Segment>
    var rp: nat
    var len: nat
    var cur: Option<nat>
    var lost: nat
    /** The next transport layer message counter. */
    var ctr: nat

    ghost function View(): Ring
      reads this, segs
    {
      Ring(segs[..], rp, len, cur, lost)
    }

    ghost predicate Valid()
      reads this, segs
    {
      WellFormed(View()) && Bounded(View()) && ctr < 0x10000
    }

    constructor (segmentCount: nat)
      requires segmentCount > 0
      ensures Valid() && fresh(segs) && ctr == 0
      ensures View() == SegmentRing.NewSegment(Blank(segmentCount))
    {
      segs := new Segment[segmentCount](_ => Segment(0, 0, Zeros(MAX_SEGMENT)));
      rp, len, cur, lost, ctr := 0, 1, Some(0), 0, 0;
      new;
      assert segs[..] == Blank(segmentCount).segs[0 := Segment(0, 0, Zeros(MAX_SEGMENT))];
    }

    /** newSegmentBuffer. */
    method NewSegment()
      requires Valid()
      modifies this`len, this`cur, segs
      ensures Valid() && View() == SegmentRing.NewSegment(old(View()))
    {
      if len >= segs.Length {
        cur := None;
      } else {
        var i := rp + len;
        if i >= segs.Length {
          i := i - segs.Length;
        }
        segs[i] := segs[i].(size := 0, uncommitted := 0);
        cur := Some(i);
        len := len + 1;
      }
    }

    /**
      queueAcquire: the place of the message and the size of its buffer. The message goes behind the
      last one exactly if it fits there, and otherwise to the start of the next segment if there is one.
     */
    method Acquire(packetSize: nat) returns (at: Option<Place>, size: nat)
      requires Valid()
      modifies this`len, this`cur, this`lost, segs
      ensures Valid()
      ensures at.Some? ==> packetSize <= size < packetSize + ALIGNMENT && at.value.off + HEADER + size <= MAX_SEGMENT
      ensures at.None? ==> size == 0
      ensures 0 < packetSize <= MAX_DTO ==>
        var r, dlc := old(View()), Dlc(packetSize);
        at == if r.cur.Some? && r.segs[r.cur.value].size + HEADER + dlc <= MAX_SEGMENT then
                Some(Place(r.cur.value, r.segs[r.cur.value].size))
              else if r.len < |r.segs| then Some(Place(Slot(r, r.len), 0))
              else None
      ensures packetSize == 0 || packetSize > MAX_DTO ==> at == None && View() == old(View())
      ensures 0 < packetSize <= MAX_DTO ==> View() == SegmentRing.Acquire(old(View()), Dlc(packetSize))
    {
      if !ValidPacket(packetSize) {
        return None, 0;
      }
      DlcFits(packetSize);
      var dlc := Dlc(packetSize);
      WithRoomFits(View(), dlc);
      if cur.None? || (segs[cur.value].size + dlc + HEADER) % 0x10000 > MAX_SEGMENT {
        NewSegment();
      }
      if cur.None? {
        lost := lost + 1;
        return None, 0;
      }
      at, size := Some(Place(cur.value, segs[cur.value].size)), dlc;
      TakeRoom(dlc);
    }

    /** Header and size of the message in the current segment, which has room for it. */
    method TakeRoom(dlc: nat)
      requires Valid() && cur.Some? && dlc <= MAX_DTO && segs[cur.value].size + HEADER + dlc <= MAX_SEGMENT
      modifies segs
      ensures Valid()
      ensures var r, q := old(View()), cur.value;
        View() == SetBytes(Grant(r, dlc), q, r.segs[q].size, Word(dlc, RESERVED))
    {
      var b := segs[cur.value];
      segs[cur.value] := b.(size := (b.size + dlc + HEADER) % 0x10000, uncommitted := Inc16(b.uncommitted),
        bytes := Splice(b.bytes, b.size, Word(dlc, RESERVED)));
    }

    /** The section of queuePush. */
    method Push(at: Place, flush: bool)
      requires Valid() && InSegment(View(), at)
      modifies this`len, this`cur, segs
      ensures Valid() && View() == Flush(Commit(old(View()), at), flush)
    {
      var b := segs[at.seg];
      segs[at.seg] := b.(uncommitted := Dec16(b.uncommitted),
        bytes := Splice(b.bytes, at.off, Word(LowWord(b.bytes, at.off), COMMITTED)));
      assert View() == Commit(old(View()), at);
      if flush && cur.Some? && segs[cur.value].size > 0 {
        NewSegment();
      }
    }

    /** The loop of queuePop over the messages of the oldest segment. */
    method StampCounters()
      requires Valid()
      modifies this`ctr, segs
      ensures Valid()
      ensures var r := old(View());
        View() == r.(segs :=
          r.segs[r.rp := r.segs[r.rp].(bytes := StampAll(r.segs[r.rp].bytes, r.segs[r.rp].size, 0, old(ctr)))])
    {
      ghost var r := View();
      var size, p := segs[rp].size, 0;
      while p + HEADER < size
        invariant ctr < 0x10000
        invariant segs[..] == r.segs[r.rp := r.segs[r.rp].(bytes := segs[rp].bytes)] && |segs[rp].bytes| == MAX_SEGMENT
        invariant StampAll(segs[rp].bytes, size, p, ctr) == StampAll(r.segs[r.rp].bytes, size, 0, old(ctr))
        decreases size - p
      {
        var b := segs[rp];
        var dlc := LowWord(b.bytes, p);
        segs[rp] := b.(bytes := Splice(b.bytes, p, Word(dlc, ctr)));
        ctr := Inc16(ctr);
        p := p + dlc + HEADER;
      }
    }

    /** queuePop: the section that looks for a datagram, and the loop that writes the counters into it. */
    method Pop(flush: bool) returns (datagram: Option<seq<Byte>>, packetsLost: nat)
      requires Valid()
      modifies this, segs
      ensures Valid() && packetsLost == old(lost)
      ensures var r := PopFlush(old(View()).(lost := 0), flush);
        if !Ready(r) then datagram == None && View() == r && ctr == old(ctr)
        else
          && View() == r.(segs :=
            r.segs[r.rp := r.segs[r.rp].(bytes := StampAll(r.segs[r.rp].bytes, r.segs[r.rp].size, 0, old(ctr)))])
          && datagram == Some(View().segs[rp].bytes[..View().segs[rp].size])
    {
      packetsLost := lost;
      lost := 0;
      if len == 1 && segs[rp].size > 0 && flush {
        NewSegment();
      }
      if !(len > 1 && segs[rp].uncommitted == 0 && segs[rp].size > 0) {
        return None, packetsLost;
      }
      StampCounters();
      datagram := Some(segs[rp].bytes[..segs[rp].size]);
    }

    /** queueRelease. */
    method Release()
      requires Valid() && len > 1
      modifies this`rp, this`len
      ensures Valid() && View() == SegmentRing.Release(old(View()))
    {
      rp := rp + 1;
      if rp >= segs.Length {
        rp := 0;
      }
      len := len - 1;
    }
  }
}
