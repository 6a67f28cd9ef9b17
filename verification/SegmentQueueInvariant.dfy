/** The invariant of the segment queues, and what opening, filling and releasing a segment does to it. */
module SegmentQueueInvariant {
  import opened Bytes
  import opened Counting
  import opened SegmentPacking
  import opened SegmentRing
  import opened SegmentQueue

  /** Segment `q` is in use. */
  predicate Live(r: Ring, q: nat) {
    q < |r.segs| && (if q >= r.rp then q - r.rp else q - r.rp + |r.segs|) < r.len
  }

  lemma SlotLive(r: Ring, k: nat)
    requires r.rp < |r.segs| && r.len <= |r.segs|
    ensures k < r.len ==> 0 <= Slot(r, k) && Live(r, Slot(r, k))
    ensures k < |r.segs| && k >= r.len ==> 0 <= Slot(r, k) < |r.segs| && !Live(r, Slot(r, k))
  {
  }

  ghost predicate SegmentsOk(r: Ring, packs: seq<Pack>)
    requires |packs| == |r.segs|
  {
    forall q {:trigger Live(r, q)} :: 0 <= q < |packs| && Live(r, q) ==> Packed(r.segs[q], packs[q].msgs)
  }

  predicate InRing(r: Ring, packs: seq<Pack>) { WellFormed(r) && |packs| == |r.segs| }

  function PackAt(r: Ring, packs: seq<Pack>, k: nat): Pack
    requires InRing(r, packs) && k < r.len
  {
    packs[Slot(r, k)]
  }

  /** The number of the first message behind the `k`-th segment. */
  function NextNumber(r: Ring, packs: seq<Pack>, k: nat): nat
    requires InRing(r, packs) && k < r.len
  {
    packs[Slot(r, k)].base + |packs[Slot(r, k)].msgs|
  }

  /** The messages are numbered through all segments in use, up to the last one granted. */
  ghost predicate Numbered(r: Ring, packs: seq<Pack>, granted: nat)
    requires InRing(r, packs)
  {
    && (forall k {:trigger PackAt(r, packs, k)} :: 0 < k < r.len ==>
      PackAt(r, packs, k).base == NextNumber(r, packs, k - 1))
    && NextNumber(r, packs, r.len - 1) == granted
    && (forall q, i {:trigger Live(r, q), packs[q].msgs[i]} ::
          0 <= q < |packs| && Live(r, q) && 0 <= i < |packs[q].msgs| ==> packs[q].msgs[i].id == packs[q].base + i)
  }

  /** Only the segment that takes the next message may be empty. */
  ghost predicate Filled(r: Ring, packs: seq<Pack>)
    requires InRing(r, packs)
  {
    && (forall k :: 0 <= k < r.len - 1 ==> PackAt(r, packs, k).msgs != [])
    && (r.cur.None? ==> PackAt(r, packs, r.len - 1).msgs != [])
  }

  ghost predicate RingOk(r: Ring, packs: seq<Pack>, granted: nat) {
    InRing(r, packs) && SegmentsOk(r, packs) && Numbered(r, packs, granted) && Filled(r, packs)
  }

  /** The segments in use stay as they are, and keep their places; `fresh` is what was added, if anything. */
  ghost predicate Extends(r: Ring, packs: seq<Pack>, r': Ring, packs': seq<Pack>)
    requires InRing(r, packs) && InRing(r', packs')
  {
    && |packs'| == |packs| && r'.rp == r.rp && r.len <= r'.len
    && (forall q :: 0 <= q < |packs| && Live(r, q) ==> Live(r', q) && packs'[q] == packs[q] && r'.segs[q] == r.segs[q])
  }

  lemma NewSegmentExtends(r: Ring, packs: seq<Pack>, granted: nat)
    requires InRing(r, packs)
    ensures InRing(NewSegment(r), NewPack(r, packs, granted)) &&
      Extends(r, packs, NewSegment(r), NewPack(r, packs, granted))
    ensures forall k :: 0 <= k < r.len ==> PackAt(NewSegment(r), NewPack(r, packs, granted), k) == PackAt(r, packs, k)
  {
    SlotLive(r, r.len);
    forall k | 0 <= k < r.len
      ensures PackAt(NewSegment(r), NewPack(r, packs, granted), k) == PackAt(r, packs, k)
    {
      SlotLive(r, k);
    }
  }

  lemma NewSegmentSegments(r: Ring, packs: seq<Pack>, granted: nat)
    requires InRing(r, packs) && SegmentsOk(r, packs)
    ensures InRing(NewSegment(r), NewPack(r, packs, granted)) && SegmentsOk(NewSegment(r), NewPack(r, packs, granted))
  {
    var r', packs' := NewSegment(r), NewPack(r, packs, granted);
    NewSegmentExtends(r, packs, granted);
    forall q | 0 <= q < |packs'| && Live(r', q)
      ensures Packed(r'.segs[q], packs'[q].msgs)
    {
      if Live(r, q) {
        assert Packed(r.segs[q], packs[q].msgs);
      } else {
        assert q == Slot(r, r.len);
        EmptyPacked(r'.segs[q]);
      }
    }
  }

  lemma NewSegmentNumbered(r: Ring, packs: seq<Pack>, granted: nat)
    requires InRing(r, packs) && Numbered(r, packs, granted)
    ensures InRing(NewSegment(r), NewPack(r, packs, granted))
    ensures Numbered(NewSegment(r), NewPack(r, packs, granted), granted)
  {
    NewSegmentExtends(r, packs, granted);
    var r', packs' := NewSegment(r), NewPack(r, packs, granted);
    forall k | 0 < k < r'.len
      ensures PackAt(r', packs', k).base == NextNumber(r', packs', k - 1)
    {
      assert PackAt(r', packs', k - 1) == PackAt(r, packs, k - 1);
      assert k < r.len ==> PackAt(r', packs', k) == PackAt(r, packs, k);
    }
    forall q, i | 0 <= q < |packs'| && Live(r', q) && 0 <= i < |packs'[q].msgs|
      ensures packs'[q].msgs[i].id == packs'[q].base + i
    {
      assert !Live(r, q) ==> q == Slot(r, r.len);
    }
  }

  lemma NewSegmentFilled(r: Ring, packs: seq<Pack>, granted: nat)
    requires InRing(r, packs) && Filled(r, packs) && PackAt(r, packs, r.len - 1).msgs != []
    ensures InRing(NewSegment(r), NewPack(r, packs, granted)) && Filled(NewSegment(r), NewPack(r, packs, granted))
  {
    NewSegmentExtends(r, packs, granted);
  }

  lemma NewSegmentOk(r: Ring, packs: seq<Pack>, granted: nat)
    requires RingOk(r, packs, granted) && PackAt(r, packs, r.len - 1).msgs != []
    ensures RingOk(NewSegment(r), NewPack(r, packs, granted), granted)
    ensures Extends(r, packs, NewSegment(r), NewPack(r, packs, granted))
  {
    NewSegmentExtends(r, packs, granted);
    NewSegmentSegments(r, packs, granted);
    NewSegmentNumbered(r, packs, granted);
    NewSegmentFilled(r, packs, granted);
  }

  /** Replacing one segment in use, and its messages. */
  lemma ReplacedSegments(r: Ring, packs: seq<Pack>, q: nat, b: Segment, msgs: seq<Msg>)
    requires InRing(r, packs) && SegmentsOk(r, packs) && q < |packs| && Packed(b, msgs)
    ensures var r', packs' := r.(segs := r.segs[q := b]), packs[q := packs[q].(msgs := msgs)];
      InRing(r', packs') && SegmentsOk(r', packs')
  {
    var r', packs' := r.(segs := r.segs[q := b]), packs[q := packs[q].(msgs := msgs)];
    forall x | 0 <= x < |packs'| && Live(r', x)
      ensures Packed(r'.segs[x], packs'[x].msgs)
    {
      assert Live(r, x);
    }
  }

  lemma TakeNumbered(r: Ring, packs: seq<Pack>, granted: nat, m: Msg)
    requires InRing(r, packs) && Numbered(r, packs, granted) && Filled(r, packs) && r.cur.Some? && m.id == granted
    ensures InRing(Take(r, m.dlc), AddMsg(packs, r.cur.value, m))
    ensures Numbered(Take(r, m.dlc), AddMsg(packs, r.cur.value, m), granted + 1) &&
      Filled(Take(r, m.dlc), AddMsg(packs, r.cur.value, m))
  {
    var r', packs' := Take(r, m.dlc), AddMsg(packs, r.cur.value, m);
    forall k | 0 <= k < r.len - 1
      ensures PackAt(r', packs', k) == PackAt(r, packs, k)
    {
      SlotLive(r, k);
    }
    assert PackAt(r', packs', r.len - 1).base == PackAt(r, packs, r.len - 1).base;
    assert forall q :: Live(r', q) ==> Live(r, q);
  }

  lemma TakeOk(r: Ring, packs: seq<Pack>, granted: nat, dlc: nat)
    requires RingOk(r, packs, granted) && r.cur.Some? && 0 < dlc <= MAX_DTO && dlc % ALIGNMENT == 0
    requires r.segs[r.cur.value].size + dlc + HEADER <= MAX_SEGMENT
    ensures RingOk(Take(r, dlc), AddMsg(packs, r.cur.value, Granting(r.segs[r.cur.value], granted, dlc)), granted + 1)
  {
    var q := r.cur.value;
    var m := Granting(r.segs[q], granted, dlc);
    SlotLive(r, r.len - 1);
    GrantPacked(r.segs[q], packs[q].msgs, granted, dlc);
    TakeNumbered(r, packs, granted, m);
    ReplacedSegments(r, packs, q, WithMessage(r.segs[q], dlc), packs[q].msgs + [m]);
  }

  lemma ReplacedNumbered(r: Ring, packs: seq<Pack>, granted: nat, q: nat, b: Segment, i: nat, m: Msg)
    requires InRing(r, packs) && Numbered(r, packs, granted) && Filled(r, packs)
    requires q < |packs| && i < |packs[q].msgs| && m.id == packs[q].msgs[i].id && |b.bytes| == MAX_SEGMENT
    ensures var r', packs' := r.(segs := r.segs[q := b]), SetMsg(packs, q, i, m);
      InRing(r', packs') && Numbered(r', packs', granted) && Filled(r', packs')
  {
    var r', packs' := r.(segs := r.segs[q := b]), SetMsg(packs, q, i, m);
    forall k | 0 <= k < r.len
      ensures PackAt(r', packs', k).base == PackAt(r, packs, k).base
      ensures |PackAt(r', packs', k).msgs| == |PackAt(r, packs, k).msgs|
    {
    }
    assert forall q :: Live(r', q) ==> Live(r, q);
  }

  /** A message in a segment in use goes to another stage or gets other bytes. */
  lemma SegmentReplaced(r: Ring, packs: seq<Pack>, granted: nat, q: nat, b: Segment, i: nat, m: Msg)
    requires RingOk(r, packs, granted) && q < |packs| && i < |packs[q].msgs|
    requires m.id == packs[q].msgs[i].id && Packed(b, packs[q].msgs[i := m])
    ensures RingOk(r.(segs := r.segs[q := b]), SetMsg(packs, q, i, m), granted)
  {
    ReplacedSegments(r, packs, q, b, packs[q].msgs[i := m]);
    ReplacedNumbered(r, packs, granted, q, b, i, m);
  }

  lemma ReleaseOk(r: Ring, packs: seq<Pack>, granted: nat)
    requires RingOk(r, packs, granted) && r.len > 1
    ensures RingOk(Release(r), packs, granted)
    ensures PackAt(Release(r), packs, 0).base == packs[r.rp].base + |packs[r.rp].msgs|
    ensures forall q :: 0 <= q < |packs| && Live(r, q) && q != r.rp ==> Live(Release(r), q)
  {
    var r' := Release(r);
    forall k | 0 <= k < r'.len
      ensures Slot(r', k) == Slot(r, k + 1)
    {
    }
    assert PackAt(r, packs, 1).base == PackAt(r, packs, 0).base + |PackAt(r, packs, 0).msgs|;
    forall q | 0 <= q < |packs| && Live(r', q)
      ensures Live(r, q)
    {
    }
    forall k | 0 <= k < r'.len
      ensures PackAt(r', packs, k) == PackAt(r, packs, k + 1)
    {
    }
  }

  // ---------------------------------------------------------------- the invariant: threads and results

  predicate ValidDlc(dlc: nat) { 0 < dlc <= MAX_DTO && dlc % ALIGNMENT == 0 }

  predicate Owns(p: Producer) { p.WriteHeader? || p.Fill? }

  ghost predicate OwnsMsg(s: State, seg: nat, i: nat, off: nat, dlc: nat, stage: Stage) {
    && InPack(s, seg, i) && Live(s.ring, seg)
    && s.packs[seg].msgs[i].stage == stage
    && s.packs[seg].msgs[i].off == off && s.packs[seg].msgs[i].dlc == dlc
  }

  ghost predicate ProducerOk(s: State, p: Producer) {
    match p
    case Idle => true
    case Locking(dlc) => ValidDlc(dlc)
    case Losing(_) => true
    case WriteHeader(seg, i, off, dlc) => OwnsMsg(s, seg, i, off, dlc, Granted)
    case Fill(seg, i, off, dlc) => OwnsMsg(s, seg, i, off, dlc, Reserved)
  }

  ghost predicate ProducersOk(s: State) {
    && (forall t :: 0 <= t < |s.producers| ==> ProducerOk(s, s.producers[t]))
    && (forall t, u :: 0 <= t < u < |s.producers| && Owns(s.producers[t]) && Owns(s.producers[u]) ==>
          s.producers[t].seg != s.producers[u].seg || s.producers[t].i != s.producers[u].i)
  }

  /** The consumer holds the oldest segment. */
  predicate Busy(s: State) { s.consumer.Stamping? || s.consumer.Sending? }

  /** Counters are stamped into the oldest segment only, and only while the consumer holds it. */
  ghost predicate Unstamped(s: State) {
    forall q, i ::
      0 <= q < |s.packs| && Live(s.ring, q) && 0 <= i < |s.packs[q].msgs| && !(q == s.ring.rp && Busy(s)) ==>
        s.packs[q].msgs[i].stage != Stamped
  }

  ghost predicate FrontOk(s: State)
    requires InRing(s.ring, s.packs)
  {
    var front, b := s.packs[s.ring.rp], s.ring.segs[s.ring.rp];
    match s.consumer
    case Stamping(p, i) =>
      && s.ring.len > 1 && i <= |front.msgs| && p == Off(b, front.msgs, i)
      && front.base == |s.delivered| && |s.drawn| == |s.delivered| + i
      && (forall j :: 0 <= j < i ==> front.msgs[j].stage == Stamped && front.msgs[j].ctr == s.drawn[front.base + j])
      && (forall j :: i <= j < |front.msgs| ==> front.msgs[j].stage == Committed)
    case Sending =>
      && s.ring.len > 1
      && front.base + |front.msgs| == |s.delivered| == |s.drawn|
      && (forall j :: 0 <= j < |front.msgs| ==> front.msgs[j].stage == Stamped)
    case Fault => false
    case _ => front.base == |s.delivered| == |s.drawn|
  }

  function Flatten(parts: seq<seq<Byte>>): seq<Byte> {
    if parts == [] then [] else Flatten(parts[..|parts| - 1]) + parts[|parts| - 1]
  }

  /** What was sent is what was granted, in the order of the grants, with the counters in the order they were drawn. */
  ghost predicate Sent(delivered: seq<Msg>, drawn: seq<nat>, sent: seq<seq<Byte>>) {
    && |delivered| <= |drawn|
    && AllOk(delivered)
    && StampedFrom(delivered, drawn, 0)
    && Flatten(sent) == EncodeAll(delivered)
    && (forall d :: 0 <= d < |sent| ==> 0 < |sent[d]| <= MAX_SEGMENT)
  }

  /** The messages are numbered from `base` on and carry the counters drawn for these numbers. */
  ghost predicate StampedFrom(msgs: seq<Msg>, drawn: seq<nat>, base: nat) {
    && base + |msgs| <= |drawn|
    && forall j :: 0 <= j < |msgs| ==>
      msgs[j].id == base + j && msgs[j].stage == Stamped && msgs[j].ctr == drawn[base + j]
  }

  ghost predicate SentOk(s: State) { Sent(s.delivered, s.drawn, s.sent) }

  function Flags(producers: seq<Producer>): (flags: seq<bool>)
    ensures |flags| == |producers|
  {
    seq(|producers|, t requires 0 <= t < |producers| => producers[t].Locking? || producers[t].Losing?)
  }

  /** Valid acquires that have not left their mutex section yet. */
  function Pending(producers: seq<Producer>): nat { CountTrue(Flags(producers)) }

  ghost predicate Counted(s: State) {
    && s.acquires + s.revived == s.granted + Pending(s.producers) + s.ring.lost + s.reported + s.dropped
    && (s.consumer.Clearing? ==> s.variant.Mutex? && s.consumer.seen <= s.ring.lost)
    && (s.variant.Critical? ==> s.dropped == 0 && s.revived == 0 && !Held(s))
  }

  ghost predicate Inv(s: State) {
    && RingOk(s.ring, s.packs, s.granted)
    && ProducersOk(s)
    && Unstamped(s)
    && FrontOk(s)
    && SentOk(s)
    && Counted(s)
  }
}
