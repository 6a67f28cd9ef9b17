/** Every producer step of the segment queues keeps the invariant. */
module SegmentQueueProducers {
  import opened Bytes
  import opened Counting
  import opened SegmentPacking
  import opened SegmentRing
  import opened SegmentQueue
  import opened SegmentQueueInvariant

  lemma CurIsLast(r: Ring, packs: seq<Pack>)
    requires InRing(r, packs) && SegmentsOk(r, packs) && r.cur.Some?
    ensures Packed(r.segs[r.cur.value], packs[r.cur.value].msgs) && PackAt(r, packs, r.len - 1) == packs[r.cur.value]
  {
    SlotLive(r, r.len - 1);
  }

  /** Before a new segment is taken, the last one is not empty. */
  lemma LastFilled(r: Ring, packs: seq<Pack>)
    requires InRing(r, packs) && SegmentsOk(r, packs) && Filled(r, packs)
    requires r.cur.None? || r.segs[r.cur.value].size > 0
    ensures PackAt(r, packs, r.len - 1).msgs != []
  {
    if r.cur.Some? {
      CurIsLast(r, packs);
      SizePositive(r.segs[r.cur.value], packs[r.cur.value].msgs);
    }
  }

  lemma RoomRing(s: State, dlc: nat)
    requires RingOk(s.ring, s.packs, s.granted) && ValidDlc(dlc)
    ensures var s' := RoomIn(s, dlc);
      RingOk(s'.ring, s'.packs, s'.granted) && Extends(s.ring, s.packs, s'.ring, s'.packs)
  {
    if NeedsSegment(s.ring, dlc) {
      LastFilled(s.ring, s.packs);
      NewSegmentOk(s.ring, s.packs, s.granted);
    }
  }

  lemma RoomFits(s: State, dlc: nat)
    requires InRing(s.ring, s.packs) && SegmentsOk(s.ring, s.packs) && ValidDlc(dlc)
    ensures var s' := RoomIn(s, dlc);
      RoomForOne(s', dlc) && (s'.ring.cur.Some? ==> s'.ring.segs[s'.ring.cur.value].size + dlc + HEADER <= MAX_SEGMENT)
  {
    if s.ring.cur.Some? {
      CurIsLast(s.ring, s.packs);
    }
  }

  lemma RoomOk(s: State, dlc: nat)
    requires RingOk(s.ring, s.packs, s.granted) && ValidDlc(dlc)
    ensures var s' := RoomIn(s, dlc);
      && RingOk(s'.ring, s'.packs, s'.granted) && Extends(s.ring, s.packs, s'.ring, s'.packs)
      && RoomForOne(s', dlc) &&
        (s'.ring.cur.Some? ==> s'.ring.segs[s'.ring.cur.value].size + dlc + HEADER <= MAX_SEGMENT)
  {
    RoomRing(s, dlc);
    RoomFits(s, dlc);
  }

  lemma GrantOk(s: State, dlc: nat)
    requires RingOk(s.ring, s.packs, s.granted) && ValidDlc(dlc) && RoomForOne(s, dlc)
    requires s.ring.cur.Some? ==> s.ring.segs[s.ring.cur.value].size + dlc + HEADER <= MAX_SEGMENT
    ensures var s' := Granted1(s, dlc); RingOk(s'.ring, s'.packs, s'.granted)
  {
    if s.ring.cur.None? {
      LostOk(s.ring, s.packs, s.granted, s.ring.lost + 1);
    } else {
      TakeOk(s.ring, s.packs, s.granted, dlc);
      if s.variant.Mutex? {
        HeaderInSection(s, s.ring, s.packs, dlc);
      }
    }
  }

  lemma AcquireRing(s: State, dlc: nat)
    requires RingOk(s.ring, s.packs, s.granted) && ValidDlc(dlc)
    ensures RoomForOne(RoomIn(s, dlc), dlc)
    ensures var s' := Acquired(s, dlc); RingOk(s'.ring, s'.packs, s'.granted)
  {
    RoomOk(s, dlc);
    GrantOk(RoomIn(s, dlc), dlc);
  }

  /** The section of the machine and that of the object are the same, up to the store of a lost count. */
  lemma SectionIsAcquire(s: State, dlc: nat)
    requires RingOk(s.ring, s.packs, s.granted) && Bounded(s.ring) && ValidDlc(dlc) && s.variant.Mutex?
    ensures RoomForOne(RoomIn(s, dlc), dlc)
    ensures var r := Acquired(s, dlc).ring;
      Acquire(s.ring, dlc) == if r.cur.Some? then r else r.(lost := r.lost + 1)
  {
    RoomFits(s, dlc);
  }

  lemma LostOk(r: Ring, packs: seq<Pack>, granted: nat, lost: nat)
    requires RingOk(r, packs, granted)
    ensures RingOk(r.(lost := lost), packs, granted)
  {
    var r' := r.(lost := lost);
    assert SegmentsOk(r', packs) by {
      assert forall q :: Live(r', q) ==> Live(r, q);
    }
    LostNumbered(r, packs, granted, lost);
  }

  lemma LostNumbered(r: Ring, packs: seq<Pack>, granted: nat, lost: nat)
    requires InRing(r, packs) && Numbered(r, packs, granted) && Filled(r, packs)
    ensures Numbered(r.(lost := lost), packs, granted) && Filled(r.(lost := lost), packs)
  {
    var r' := r.(lost := lost);
    assert forall q :: Live(r', q) ==> Live(r, q);
    assert forall k :: 0 <= k < r.len ==> PackAt(r', packs, k) == PackAt(r, packs, k);
  }

  lemma HeaderInSection(s: State, r: Ring, packs: seq<Pack>, dlc: nat)
    requires InRing(r, packs) && r.cur.Some? && ValidDlc(dlc) && r.segs[r.cur.value].size + dlc + HEADER <= MAX_SEGMENT
    requires var m := Granting(r.segs[r.cur.value], s.granted, dlc);
      RingOk(Take(r, dlc), AddMsg(packs, r.cur.value, m), s.granted + 1)
    ensures var q := r.cur.value; var m := Granting(r.segs[q], s.granted, dlc);
      RingOk(SetBytes(Take(r, dlc), q, r.segs[q].size, Word(dlc, RESERVED)), AddMsg(packs, q, m.(stage := Reserved)),
        s.granted + 1)
  {
    var q := r.cur.value;
    var m := Granting(r.segs[q], s.granted, dlc);
    var r1, packs1, n := Take(r, dlc), AddMsg(packs, q, m), |packs[q].msgs|;
    CurIsLast(r1, packs1);
    HeaderPacked(r1.segs[q], packs1[q].msgs, n, Reserved, 0);
    var b' := r1.segs[q].(bytes := Splice(r1.segs[q].bytes, m.off, Word(dlc, RESERVED)));
    SegmentReplaced(r1, packs1, s.granted + 1, q, b', n, m.(stage := Reserved));
    assert packs1[q].msgs[n := m.(stage := Reserved)] == packs[q].msgs + [m.(stage := Reserved)];
    assert SetMsg(packs1, q, n, m.(stage := Reserved)) == AddMsg(packs, q, m.(stage := Reserved));
  }

  lemma StoreRing(s: State, p: Producer)
    requires RingOk(s.ring, s.packs, s.granted) && ProducerOk(s, p) && ProducerEnabled(s, p, StoreHeader)
    ensures var s' := ProducerEffect(s, p, StoreHeader); RingOk(s'.ring, s'.packs, s'.granted)
  {
    var b, msgs := s.ring.segs[p.seg], s.packs[p.seg].msgs;
    assert Packed(b, msgs);
    HeaderPacked(b, msgs, p.i, Reserved, msgs[p.i].ctr);
    SegmentReplaced(s.ring, s.packs, s.granted, p.seg, b.(bytes := Splice(b.bytes, p.off, Word(p.dlc, RESERVED))), p.i,
                    msgs[p.i].(stage := Reserved));
  }

  lemma ByteInRing(r: Ring, packs: seq<Pack>, granted: nat, q: nat, i: nat, k: nat, val: Byte)
    requires RingOk(r, packs, granted) && q < |packs| && Live(r, q) && i < |packs[q].msgs| && k < packs[q].msgs[i].dlc
    ensures |packs[q].msgs[i].payload| == packs[q].msgs[i].dlc && packs[q].msgs[i].off + HEADER + k < |r.segs[q].bytes|
    ensures var m := packs[q].msgs[i];
      RingOk(SetBytes(r, q, m.off + HEADER + k, [val]), SetMsg(packs, q, i, m.(payload := Put(m.payload, k, val))),
        granted)
  {
    var b, m := r.segs[q], packs[q].msgs[i];
    ByteWritten(b, packs[q].msgs, i, k, val);
    SegmentReplaced(r, packs, granted, q, b.(bytes := Splice(b.bytes, m.off + HEADER + k, [val])), i,
                    m.(payload := Put(m.payload, k, val)));
  }

  lemma ByteRing(s: State, p: Producer, k: nat, val: Byte)
    requires RingOk(s.ring, s.packs, s.granted) && ProducerOk(s, p) && ProducerEnabled(s, p, WriteByte(k, val))
    ensures var s' := ProducerEffect(s, p, WriteByte(k, val)); RingOk(s'.ring, s'.packs, s'.granted)
  {
    ByteInRing(s.ring, s.packs, s.granted, p.seg, p.i, k, val);
  }

  lemma CommitRing(s: State, seg: nat, i: nat, off: nat, dlc: nat)
    requires RingOk(s.ring, s.packs, s.granted) && OwnsMsg(s, seg, i, off, dlc, Reserved)
    ensures RoomInside(s, seg, off, dlc)
    ensures var s' := Pushed(s, seg, i, off); RingOk(s'.ring, s'.packs, s'.granted)
  {
    var b, msgs := s.ring.segs[seg], s.packs[seg].msgs;
    assert Packed(b, msgs);
    MessageFits(b, msgs, i);
    HeaderReads(b, msgs, i);
    HeaderPacked(b, msgs, i, Committed, msgs[i].ctr);
    SegmentReplaced(s.ring, s.packs, s.granted, seg, Commit(s.ring, Place(seg, off)).segs[seg], i,
      msgs[i].(stage := Committed));
  }

  /** The assertions of queuePush hold: the message is in reserved state and has a valid length. */
  lemma PushAssertions(s: State, p: Producer)
    requires RingOk(s.ring, s.packs, s.granted) && ProducerOk(s, p) && p.Fill?
    ensures InSegment(s.ring, Place(p.seg, p.off))
    ensures HighWord(s.ring.segs[p.seg].bytes, p.off) == RESERVED
    ensures 0 < LowWord(s.ring.segs[p.seg].bytes, p.off) == p.dlc <= MAX_DTO
  {
    var b, msgs := s.ring.segs[p.seg], s.packs[p.seg].msgs;
    assert Packed(b, msgs);
    MessageFits(b, msgs, p.i);
    HeaderReads(b, msgs, p.i);
  }

  lemma FlushRing(s: State, flush: bool)
    requires RingOk(s.ring, s.packs, s.granted)
    ensures var s' := Flushed(s, flush);
      RingOk(s'.ring, s'.packs, s'.granted) && Extends(s.ring, s.packs, s'.ring, s'.packs)
  {
    if Flushes(s.ring, flush) {
      LastFilled(s.ring, s.packs);
      NewSegmentOk(s.ring, s.packs, s.granted);
    }
  }

  // ---------------------------------------------------------------- producer steps on the rest

  /**
    What a producer leaves alone: segments in use keep their messages but for its own one, which
    stays unstamped; messages that are added are not committed yet.
   */
  ghost predicate Leaves(s: State, s': State, seg: nat, i: nat) {
    && InRing(s.ring, s.packs) && InRing(s'.ring, s'.packs) && |s'.packs| == |s.packs|
    && s'.ring.rp == s.ring.rp && s.ring.len <= s'.ring.len
    && (forall q {:trigger Live(s.ring, q)} :: 0 <= q < |s.packs| && Live(s.ring, q) ==>
          Live(s'.ring, q) && s'.packs[q].base == s.packs[q].base && |s.packs[q].msgs| <= |s'.packs[q].msgs|)
    && (forall q, j :: 0 <= q < |s.packs| && Live(s.ring, q) && 0 <= j < |s.packs[q].msgs| && !(q == seg && j == i) ==>
          s'.packs[q].msgs[j] == s.packs[q].msgs[j])
    && (forall q, j :: 0 <= q < |s.packs| && Live(s'.ring, q) && 0 <= j < |s'.packs[q].msgs| ==>
          (Live(s.ring, q) && j < |s.packs[q].msgs| && s'.packs[q].msgs[j] == s.packs[q].msgs[j]) ||
          (q == seg && j == i && s'.packs[q].msgs[j].stage != Stamped) || Open(s'.packs[q].msgs[j]))
  }

  /** A segment that does not take messages any more, and in which the producer has none, stays as it is. */
  ghost predicate KeepsFront(s: State, s': State)
    requires InRing(s.ring, s.packs) && InRing(s'.ring, s'.packs)
  {
    s'.ring.rp == s.ring.rp && s'.packs[s.ring.rp] == s.packs[s.ring.rp] &&
      s'.ring.segs[s.ring.rp] == s.ring.segs[s.ring.rp]
  }

  lemma FrontLive(r: Ring, packs: seq<Pack>)
    requires InRing(r, packs)
    ensures Live(r, r.rp)
    ensures r.len > 1 && r.cur.Some? ==> r.cur.value != r.rp
  {
  }

  lemma AcquireLeaves(s: State, dlc: nat)
    requires RingOk(s.ring, s.packs, s.granted) && ValidDlc(dlc)
    ensures RoomForOne(RoomIn(s, dlc), dlc)
    ensures Leaves(s, Acquired(s, dlc), |s.packs|, 0)
  {
    RoomRing(s, dlc);
    RoomFits(s, dlc);
    NewSegmentEmpty(s, dlc);
    var s1 := RoomIn(s, dlc);
    GrantLeaves(s1, dlc);
    LeavesAfterExtends(s, s1, Granted1(s1, dlc));
  }

  lemma NewSegmentEmpty(s: State, dlc: nat)
    requires InRing(s.ring, s.packs)
    ensures var s1 := RoomIn(s, dlc);
      forall q :: 0 <= q < |s1.packs| && Live(s1.ring, q) && !Live(s.ring, q) ==> s1.packs[q].msgs == []
  {
    NewSegmentExtends(s.ring, s.packs, s.granted);
  }

  lemma AcquireKeepsFront(s: State, dlc: nat)
    requires RingOk(s.ring, s.packs, s.granted) && ValidDlc(dlc) && s.ring.len > 1
    ensures RoomForOne(RoomIn(s, dlc), dlc)
    ensures InRing(Acquired(s, dlc).ring, Acquired(s, dlc).packs) && KeepsFront(s, Acquired(s, dlc))
  {
    AcquireRing(s, dlc);
    RoomRing(s, dlc);
    FrontLive(s.ring, s.packs);
    GrantLeaves(RoomIn(s, dlc), dlc);
  }

  lemma GrantLeaves(s: State, dlc: nat)
    requires InRing(s.ring, s.packs) && dlc < 0x10000 && RoomForOne(s, dlc)
    ensures Leaves(s, Granted1(s, dlc), |s.packs|, 0)
    ensures s.ring.len > 1 ==> KeepsFront(s, Granted1(s, dlc))
  {
    FrontLive(s.ring, s.packs);
    assert forall q :: Live(Granted1(s, dlc).ring, q) <==> Live(s.ring, q);
  }

  lemma LeavesAfterExtends(s: State, s1: State, s': State)
    requires InRing(s.ring, s.packs) && InRing(s1.ring, s1.packs) && Extends(s.ring, s.packs, s1.ring, s1.packs)
    requires forall q, j ::
      0 <= q < |s1.packs| && Live(s1.ring, q) && !Live(s.ring, q) && 0 <= j < |s1.packs[q].msgs| ==>
        Open(s1.packs[q].msgs[j])
    requires Leaves(s1, s', |s1.packs|, 0)
    ensures Leaves(s, s', |s.packs|, 0)
  {
  }

  lemma CountLeaves(s: State, p: Producer)
    requires InRing(s.ring, s.packs) && ProducerEnabled(s, p, StoreLost)
    ensures Leaves(s, ProducerEffect(s, p, StoreLost), |s.packs|, 0)
    ensures KeepsFront(s, ProducerEffect(s, p, StoreLost))
  {
    assert forall q :: Live(ProducerEffect(s, p, StoreLost).ring, q) <==> Live(s.ring, q);
  }

  lemma StoreLeaves(s: State, p: Producer, step: ProducerStep)
    requires InRing(s.ring, s.packs) && ProducerOk(s, p) && ProducerEnabled(s, p, step)
    requires step.StoreHeader? || step.WriteByte?
    ensures Leaves(s, ProducerEffect(s, p, step), p.seg, p.i)
    ensures p.seg != s.ring.rp ==> KeepsFront(s, ProducerEffect(s, p, step))
  {
    var s' := ProducerEffect(s, p, step);
    assert forall q :: Live(s'.ring, q) <==> Live(s.ring, q);
  }

  lemma CommitLeaves(s: State, seg: nat, i: nat, off: nat, dlc: nat)
    requires InRing(s.ring, s.packs) && OwnsMsg(s, seg, i, off, dlc, Reserved) && InSegment(s.ring, Place(seg, off))
    ensures Leaves(s, Pushed(s, seg, i, off), seg, i)
    ensures seg != s.ring.rp ==> KeepsFront(s, Pushed(s, seg, i, off))
  {
    var s' := Pushed(s, seg, i, off);
    assert forall q :: Live(s'.ring, q) <==> Live(s.ring, q);
  }

  lemma ExtendsAfterLeaves(s: State, s1: State, s': State, seg: nat, i: nat)
    requires Leaves(s, s1, seg, i)
    requires InRing(s'.ring, s'.packs) && Extends(s1.ring, s1.packs, s'.ring, s'.packs)
    requires forall q, j ::
      0 <= q < |s'.packs| && Live(s'.ring, q) && !Live(s1.ring, q) && 0 <= j < |s'.packs[q].msgs| ==>
        Open(s'.packs[q].msgs[j])
    ensures Leaves(s, s', seg, i)
    ensures KeepsFront(s1, s')
  {
    FrontLive(s1.ring, s1.packs);
  }

  lemma FlushExtends(s: State, flush: bool)
    requires InRing(s.ring, s.packs)
    ensures var s' := Flushed(s, flush);
      && InRing(s'.ring, s'.packs) && Extends(s.ring, s.packs, s'.ring, s'.packs)
      && forall q :: 0 <= q < |s'.packs| && Live(s'.ring, q) && !Live(s.ring, q) ==> s'.packs[q].msgs == []
  {
    NewSegmentExtends(s.ring, s.packs, s.granted);
  }

  lemma PushLeaves(s: State, p: Producer, flush: bool)
    requires InRing(s.ring, s.packs) && ProducerOk(s, p) && ProducerEnabled(s, p, PushSection(flush))
    ensures Leaves(s, ProducerEffect(s, p, PushSection(flush)), p.seg, p.i)
    ensures p.seg != s.ring.rp ==> KeepsFront(s, ProducerEffect(s, p, PushSection(flush)))
  {
    var s1 := Pushed(s, p.seg, p.i, p.off);
    CommitLeaves(s, p.seg, p.i, p.off, p.dlc);
    FlushExtends(s1, flush);
    ExtendsAfterLeaves(s, s1, Flushed(s1, flush), p.seg, p.i);
  }

  lemma PushRing(s: State, p: Producer, flush: bool)
    requires RingOk(s.ring, s.packs, s.granted) && ProducerOk(s, p) && ProducerEnabled(s, p, PushSection(flush))
    ensures var s' := ProducerEffect(s, p, PushSection(flush)); RingOk(s'.ring, s'.packs, s'.granted)
  {
    CommitRing(s, p.seg, p.i, p.off, p.dlc);
    FlushRing(Pushed(s, p.seg, p.i, p.off), flush);
  }

  /** Everything one producer step means for the ring. */
  lemma ProducerRing(s: State, p: Producer, step: ProducerStep)
    requires RingOk(s.ring, s.packs, s.granted) && ProducerOk(s, p) && ProducerEnabled(s, p, step)
    ensures var s' := ProducerEffect(s, p, step);
      && RingOk(s'.ring, s'.packs, s'.granted)
      && Leaves(s, s', if Owns(p) then p.seg else |s.packs|, if Owns(p) then p.i else 0)
      && (s.ring.len > 1 && (Owns(p) ==> p.seg != s.ring.rp) ==> KeepsFront(s, s'))
  {
    match step {
      case AcquireStart(_) =>
      case AcquireSection =>
        AcquireRing(s, p.dlc);
        AcquireLeaves(s, p.dlc);
        if s.ring.len > 1 {
          AcquireKeepsFront(s, p.dlc);
        }
      case StoreLost =>
        LostOk(s.ring, s.packs, s.granted, p.seen + 1);
        CountLeaves(s, p);
      case StoreHeader =>
        StoreRing(s, p);
        StoreLeaves(s, p, step);
      case WriteByte(k, val) =>
        ByteRing(s, p, k, val);
        StoreLeaves(s, p, step);
      case PushSection(flush) =>
        PushRing(s, p, flush);
        PushLeaves(s, p, flush);
    }
  }

  /** While the consumer holds the oldest segment, no producer has a message in it. */
  lemma FrontNotOwned(s: State, p: Producer)
    requires InRing(s.ring, s.packs) && FrontOk(s) && Busy(s) && ProducerOk(s, p) && Owns(p)
    ensures p.seg != s.ring.rp
  {
  }

  lemma LeavesKeepsConsumer(s: State, s': State, seg: nat, i: nat)
    requires Leaves(s, s', seg, i) && Unstamped(s) && FrontOk(s)
    requires s'.consumer == s.consumer && s'.drawn == s.drawn && s'.delivered == s.delivered
    requires Busy(s) ==> KeepsFront(s, s')
    ensures Unstamped(s') && FrontOk(s')
  {
    FrontLive(s.ring, s.packs);
  }

  lemma OtherKept(s: State, s': State, seg: nat, i: nat, q: Producer)
    requires Leaves(s, s', seg, i) && ProducerOk(s, q) && (Owns(q) ==> q.seg != seg || q.i != i)
    ensures ProducerOk(s', q)
  {
  }

  lemma GrantOwned(s: State, dlc: nat)
    requires InRing(s.ring, s.packs) && dlc < 0x10000 && RoomForOne(s, dlc) && s.ring.cur.Some?
    ensures var q := s.ring.cur.value;
      OwnsMsg(Granted1(s, dlc), q, |s.packs[q].msgs|, s.ring.segs[q].size, dlc,
              if s.variant.Mutex? then Reserved else Granted)
  {
    SlotLive(s.ring, s.ring.len - 1);
  }

  lemma OwnAcquired(s: State, p: Producer)
    requires RingOk(s.ring, s.packs, s.granted) && ProducerOk(s, p) && ProducerEnabled(s, p, AcquireSection)
    ensures ProducerOk(Acquired(s, p.dlc), ProducerAfter(s, p, AcquireSection))
    ensures var p' := ProducerAfter(s, p, AcquireSection);
      Owns(p') ==> p'.seg < |s.packs| && (!Live(s.ring, p'.seg) || p'.i >= |s.packs[p'.seg].msgs|)
  {
    RoomOk(s, p.dlc);
    var s1 := RoomIn(s, p.dlc);
    if s1.ring.cur.Some? {
      GrantOwned(s1, p.dlc);
    }
  }

  lemma OwnStored(s: State, p: Producer, step: ProducerStep)
    requires InRing(s.ring, s.packs) && ProducerOk(s, p) && ProducerEnabled(s, p, step)
    requires (step.StoreHeader? || step.WriteByte?)
    ensures ProducerOk(ProducerEffect(s, p, step), ProducerAfter(s, p, step))
  {
  }

  lemma OwnAfter(s: State, p: Producer, step: ProducerStep)
    requires RingOk(s.ring, s.packs, s.granted) && ProducerOk(s, p) && ProducerEnabled(s, p, step)
    ensures ProducerOk(ProducerEffect(s, p, step), ProducerAfter(s, p, step))
    ensures var p' := ProducerAfter(s, p, step);
      Owns(p') ==> (Owns(p) && p'.seg == p.seg && p'.i == p.i) ||
                   (!Owns(p) && p'.seg < |s.packs| && (!Live(s.ring, p'.seg) || p'.i >= |s.packs[p'.seg].msgs|))
  {
    match step {
      case AcquireStart(packetSize) =>
      case StoreLost =>
      case AcquireSection => OwnAcquired(s, p);
      case PushSection(flush) =>
      case _ => OwnStored(s, p, step);
    }
  }

  lemma OtherProducer(s: State, t: nat, step: ProducerStep, u: nat)
    requires RingOk(s.ring, s.packs, s.granted) && ProducersOk(s) && Enabled(s, Produce(t, step))
    requires u < |s.producers| && u != t
    ensures ProducerOk(ProducerEffect(s, s.producers[t], step), s.producers[u])
    ensures var p', q := ProducerAfter(s, s.producers[t], step), s.producers[u];
      Owns(q) && Owns(p') ==> q.seg != p'.seg || q.i != p'.i
  {
    var p := s.producers[t];
    assert ProducerOk(s, p) && ProducerOk(s, s.producers[u]);
    ProducerRing(s, p, step);
    OwnAfter(s, p, step);
    OtherKept(s, ProducerEffect(s, p, step), if Owns(p) then p.seg else |s.packs|, if Owns(p) then p.i else 0,
              s.producers[u]);
  }

  lemma ProducersKept(s: State, t: nat, step: ProducerStep)
    requires RingOk(s.ring, s.packs, s.granted) && ProducersOk(s) && Enabled(s, Produce(t, step))
    ensures ProducersOk(Apply(s, Produce(t, step)))
  {
    var s1, s' := ProducerEffect(s, s.producers[t], step), Apply(s, Produce(t, step));
    assert ProducerOk(s, s.producers[t]);
    OwnAfter(s, s.producers[t], step);
    forall u | 0 <= u < |s.producers| && u != t
      ensures ProducerOk(s1, s'.producers[u])
      ensures Owns(s'.producers[u]) && Owns(s'.producers[t]) ==>
                s'.producers[u].seg != s'.producers[t].seg || s'.producers[u].i != s'.producers[t].i
    {
      OtherProducer(s, t, step, u);
    }
    SameProducers(s1, s');
  }

  lemma SameProducers(s1: State, s': State)
    requires s'.ring == s1.ring && s'.packs == s1.packs
    requires forall u :: 0 <= u < |s'.producers| ==> ProducerOk(s1, s'.producers[u])
    ensures forall u :: 0 <= u < |s'.producers| ==> ProducerOk(s', s'.producers[u])
  {
    forall u | 0 <= u < |s'.producers|
      ensures ProducerOk(s', s'.producers[u])
    {
      assert ProducerOk(s1, s'.producers[u]);
    }
  }

  lemma PendingUpdate(producers: seq<Producer>, t: nat, p: Producer)
    requires t < |producers|
    ensures Pending(producers[t := p]) + (if producers[t].Locking? || producers[t].Losing? then 1 else 0) ==
      Pending(producers) + (if p.Locking? || p.Losing? then 1 else 0)
  {
    CountUpdate(Flags(producers), t, p.Locking? || p.Losing?);
    assert Flags(producers[t := p]) == Flags(producers)[t := p.Locking? || p.Losing?];
  }

  lemma ProducerCounted(s: State, t: nat, step: ProducerStep)
    requires Counted(s) && Enabled(s, Produce(t, step))
    ensures Counted(Apply(s, Produce(t, step)))
  {
    PendingUpdate(s.producers, t, ProducerAfter(s, s.producers[t], step));
  }

  lemma SameResults(s1: State, s': State)
    requires s'.ring == s1.ring && s'.packs == s1.packs && s'.consumer == s1.consumer
    requires s'.drawn == s1.drawn && s'.delivered == s1.delivered && s'.sent == s1.sent
    ensures Unstamped(s1) ==> Unstamped(s')
    ensures InRing(s1.ring, s1.packs) && FrontOk(s1) ==> FrontOk(s')
    ensures SentOk(s1) ==> SentOk(s')
  {
  }

  lemma ProducerSameResults(s: State, p: Producer, step: ProducerStep)
    requires ProducerEnabled(s, p, step)
    ensures var s' := ProducerEffect(s, p, step);
      s'.consumer == s.consumer && s'.drawn == s.drawn && s'.delivered == s.delivered && s'.sent == s.sent
  {
  }

  lemma ProducerResults(s: State, p: Producer, step: ProducerStep)
    requires RingOk(s.ring, s.packs, s.granted) && Unstamped(s) && FrontOk(s)
    requires ProducerOk(s, p) && ProducerEnabled(s, p, step)
    ensures var s' := ProducerEffect(s, p, step);
      RingOk(s'.ring, s'.packs, s'.granted) && Unstamped(s') && FrontOk(s')
  {
    ProducerRing(s, p, step);
    ProducerSameResults(s, p, step);
    if Busy(s) && Owns(p) {
      FrontNotOwned(s, p);
    }
    LeavesKeepsConsumer(s, ProducerEffect(s, p, step), if Owns(p) then p.seg else |s.packs|,
                        if Owns(p) then p.i else 0);
  }

  lemma SentSame(s: State, s': State)
    requires SentOk(s) && s'.drawn == s.drawn && s'.delivered == s.delivered && s'.sent == s.sent
    ensures SentOk(s')
  {
  }

  lemma ProducerStepInv(s: State, t: nat, step: ProducerStep)
    requires Inv(s) && Enabled(s, Produce(t, step))
    ensures Inv(Apply(s, Produce(t, step)))
  {
    ProducerResults(s, s.producers[t], step);
    ProducerSameResults(s, s.producers[t], step);
    SentSame(s, ProducerEffect(s, s.producers[t], step));
    SameResults(ProducerEffect(s, s.producers[t], step), Apply(s, Produce(t, step)));
    ProducersKept(s, t, step);
    ProducerCounted(s, t, step);
  }
}
