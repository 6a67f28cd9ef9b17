/** What a producer pushed is what is delivered under its number. */
module SegmentQueuePayloads {
  import opened SegmentPacking
  import opened SegmentRing
  import opened SegmentQueue
  import opened SegmentQueueInvariant
  import opened SegmentQueueProducers
  import opened SegmentQueueConsumer

  /** The message has the payload that was pushed under its number. */
  predicate Recorded(s: State, m: Msg) { m.id in s.pushed && s.pushed[m.id] == m.payload }

  /** Every committed message in a segment in use. */
  ghost predicate LiveRecorded(s: State) {
    forall q, i {:trigger Live(s.ring, q), s.packs[q].msgs[i]} ::
      0 <= q < |s.packs| && Live(s.ring, q) && 0 <= i < |s.packs[q].msgs| && !Open(s.packs[q].msgs[i]) ==>
        Recorded(s, s.packs[q].msgs[i])
  }

  ghost predicate DeliveredRecorded(s: State) {
    forall j :: 0 <= j < |s.delivered| ==> Recorded(s, s.delivered[j])
  }

  // ---------------------------------------------------------------- numbers are not used twice

  lemma {:induction false} BaseGrows(r: Ring, packs: seq<Pack>, granted: nat, k: nat, k': nat)
    requires InRing(r, packs) && Numbered(r, packs, granted) && k < k' < r.len
    ensures PackAt(r, packs, k').base >= NextNumber(r, packs, k)
    decreases k' - k
  {
    assert PackAt(r, packs, k').base == NextNumber(r, packs, k' - 1);
    if k + 1 < k' {
      BaseGrows(r, packs, granted, k, k' - 1);
      assert NextNumber(r, packs, k' - 1) >= PackAt(r, packs, k' - 1).base;
    }
  }

  /** The place of segment `q` behind the read index. */
  function PlaceOf(r: Ring, q: nat): (k: nat)
    requires r.rp < |r.segs| && Live(r, q)
    ensures k < r.len && Slot(r, k) == q
  {
    if q >= r.rp then q - r.rp else q - r.rp + |r.segs|
  }

  predicate InUse(r: Ring, packs: seq<Pack>, q: nat, i: nat) {
    q < |packs| && Live(r, q) && i < |packs[q].msgs|
  }

  lemma LiveNumber(r: Ring, packs: seq<Pack>, granted: nat, q: nat, i: nat)
    requires InRing(r, packs) && Numbered(r, packs, granted) && InUse(r, packs, q, i)
    ensures packs[q].msgs[i].id == PackAt(r, packs, PlaceOf(r, q)).base + i < NextNumber(r, packs, PlaceOf(r, q))
  {
  }

  lemma LiveIds(r: Ring, packs: seq<Pack>, granted: nat, q: nat, i: nat, q': nat, i': nat)
    requires InRing(r, packs) && Numbered(r, packs, granted) && InUse(r, packs, q, i) && InUse(r, packs, q', i')
    requires packs[q].msgs[i].id == packs[q'].msgs[i'].id
    ensures q == q' && i == i'
  {
    LiveNumber(r, packs, granted, q, i);
    LiveNumber(r, packs, granted, q', i');
    var k, k' := PlaceOf(r, q), PlaceOf(r, q');
    if k < k' {
      BaseGrows(r, packs, granted, k, k');
    } else if k' < k {
      BaseGrows(r, packs, granted, k', k);
    }
  }

  /** A message that is not committed has a number that was not delivered. */
  lemma OpenIsBehind(s: State, q: nat, i: nat)
    requires RingOk(s.ring, s.packs, s.granted) && FrontOk(s) && InUse(s.ring, s.packs, q, i)
    requires Open(s.packs[q].msgs[i])
    ensures s.packs[q].msgs[i].id >= |s.delivered|
  {
    LiveNumber(s.ring, s.packs, s.granted, q, i);
    if PlaceOf(s.ring, q) > 0 {
      BaseGrows(s.ring, s.packs, s.granted, 0, PlaceOf(s.ring, q));
    }
  }

  // ---------------------------------------------------------------- producer steps

  /** A step that pushes nothing. */
  lemma QuietRecorded(s: State, s': State, seg: nat, i: nat)
    requires Leaves(s, s', seg, i) && LiveRecorded(s) && s'.pushed == s.pushed
    requires InUse(s'.ring, s'.packs, seg, i) ==> Open(s'.packs[seg].msgs[i])
    ensures LiveRecorded(s')
  {
    forall q: nat, j: nat | InUse(s'.ring, s'.packs, q, j) && !Open(s'.packs[q].msgs[j])
      ensures Recorded(s', s'.packs[q].msgs[j])
    {
      assert Live(s'.ring, q);
      assert s'.packs[q].msgs[j] == s.packs[q].msgs[j] && Live(s.ring, q);
    }
  }

  /** A push records its own message, under a number that no other message has. */
  lemma PushRecorded(s: State, s': State, seg: nat, i: nat)
    requires InRing(s.ring, s.packs) && Numbered(s.ring, s.packs, s.granted)
    requires Leaves(s, s', seg, i) && LiveRecorded(s) && InUse(s.ring, s.packs, seg, i)
    requires var m := s.packs[seg].msgs[i];
      s'.pushed == s.pushed[m.id := m.payload] && i < |s'.packs[seg].msgs| &&
      s'.packs[seg].msgs[i] == m.(stage := Committed)
    ensures LiveRecorded(s')
  {
    var m := s.packs[seg].msgs[i];
    forall q: nat, j: nat | InUse(s'.ring, s'.packs, q, j) && !Open(s'.packs[q].msgs[j])
      ensures Recorded(s', s'.packs[q].msgs[j])
    {
      if q != seg || j != i {
        assert Live(s'.ring, q);
        assert s'.packs[q].msgs[j] == s.packs[q].msgs[j] && Live(s.ring, q);
        assert Recorded(s, s.packs[q].msgs[j]);
        assert s.packs[q].msgs[j].id == m.id ==> q == seg && j == i by {
          if s.packs[q].msgs[j].id == m.id {
            LiveIds(s.ring, s.packs, s.granted, q, j, seg, i);
          }
        }
      }
    }
  }

  /** What a push does to its own message. */
  lemma PushedMessage(s: State, p: Producer, flush: bool)
    requires InRing(s.ring, s.packs) && ProducerOk(s, p) && ProducerEnabled(s, p, PushSection(flush))
    ensures var m, s' := s.packs[p.seg].msgs[p.i], ProducerEffect(s, p, PushSection(flush));
      && s'.pushed == s.pushed[m.id := m.payload] && s'.delivered == s.delivered
      && |s'.packs| == |s.packs| && p.i < |s'.packs[p.seg].msgs| && s'.packs[p.seg].msgs[p.i] == m.(stage := Committed)
  {
    var s1 := Pushed(s, p.seg, p.i, p.off);
    FlushExtends(s1, flush);
    assert Live(s1.ring, p.seg);
  }

  lemma PushStepRecorded(s: State, p: Producer, flush: bool)
    requires RingOk(s.ring, s.packs, s.granted) && FrontOk(s) && SentOk(s)
    requires ProducerOk(s, p) && ProducerEnabled(s, p, PushSection(flush)) && LiveRecorded(s) && DeliveredRecorded(s)
    ensures var s' := ProducerEffect(s, p, PushSection(flush)); LiveRecorded(s') && DeliveredRecorded(s')
  {
    var s' := ProducerEffect(s, p, PushSection(flush));
    PushLeaves(s, p, flush);
    PushedMessage(s, p, flush);
    PushRecorded(s, s', p.seg, p.i);
    OpenIsBehind(s, p.seg, p.i);
    DeliveredKept(s, s', s.packs[p.seg].msgs[p.i]);
  }

  lemma QuietStepRecorded(s: State, p: Producer, step: ProducerStep)
    requires RingOk(s.ring, s.packs, s.granted) && LiveRecorded(s)
    requires ProducerOk(s, p) && ProducerEnabled(s, p, step) && !step.PushSection?
    ensures LiveRecorded(ProducerEffect(s, p, step))
  {
    var s' := ProducerEffect(s, p, step);
    ProducerRing(s, p, step);
    if Owns(p) {
      OwnAfter(s, p, step);
      QuietRecorded(s, s', p.seg, p.i);
    } else {
      QuietRecorded(s, s', |s.packs|, 0);
    }
  }

  lemma QuietSameRecords(s: State, p: Producer, step: ProducerStep)
    requires ProducerEnabled(s, p, step) && !step.PushSection? && DeliveredRecorded(s)
    ensures DeliveredRecorded(ProducerEffect(s, p, step))
  {
    assert forall j :: 0 <= j < |s.delivered| ==> Recorded(s, s.delivered[j]);
  }

  lemma ProducerRecorded(s: State, p: Producer, step: ProducerStep)
    requires RingOk(s.ring, s.packs, s.granted) && FrontOk(s) && SentOk(s)
    requires ProducerOk(s, p) && ProducerEnabled(s, p, step) && LiveRecorded(s) && DeliveredRecorded(s)
    ensures LiveRecorded(ProducerEffect(s, p, step)) && DeliveredRecorded(ProducerEffect(s, p, step))
  {
    if step.PushSection? {
      PushStepRecorded(s, p, step.flush);
    } else {
      QuietStepRecorded(s, p, step);
      QuietSameRecords(s, p, step);
    }
  }

  lemma DeliveredKept(s: State, s': State, m: Msg)
    requires SentOk(s) && DeliveredRecorded(s) && s'.delivered == s.delivered
    requires s'.pushed == s.pushed[m.id := m.payload] && m.id >= |s.delivered|
    ensures DeliveredRecorded(s')
  {
    forall j | 0 <= j < |s'.delivered|
      ensures Recorded(s', s'.delivered[j])
    {
      assert Recorded(s, s.delivered[j]);
    }
  }

  // ---------------------------------------------------------------- consumer steps

  /** Segments are only added empty, or taken away. */
  lemma SegmentsRecorded(s: State, s': State)
    requires |s'.packs| == |s.packs| && s'.pushed == s.pushed && LiveRecorded(s)
    requires forall q :: 0 <= q < |s.packs| && Live(s'.ring, q) ==>
               s'.packs[q].msgs == [] || (Live(s.ring, q) && s'.packs[q] == s.packs[q])
    ensures LiveRecorded(s')
  {
    forall q: nat, j: nat | InUse(s'.ring, s'.packs, q, j) && !Open(s'.packs[q].msgs[j])
      ensures Recorded(s', s'.packs[q].msgs[j])
    {
      assert Live(s'.ring, q);
      assert Recorded(s, s.packs[q].msgs[j]);
    }
  }

  lemma PopSegments(s: State, flush: bool)
    requires InRing(s.ring, s.packs)
    ensures var s' := Popped(s, flush); |s'.packs| == |s.packs| && s'.pushed == s.pushed && s'.delivered == s.delivered
    ensures var s' := Popped(s, flush);
      forall q :: 0 <= q < |s.packs| && Live(s'.ring, q) ==>
        s'.packs[q].msgs == [] || (Live(s.ring, q) && s'.packs[q] == s.packs[q])
  {
    NewSegmentExtends(s.ring, s.packs, s.granted);
  }

  /** Writing a counter changes neither number nor payload. */
  lemma StampRecorded(s: State, ctr: nat)
    requires InRing(s.ring, s.packs) && FrontOk(s) && ConsumerEnabled(s, Stamp(ctr)) && LiveRecorded(s)
    requires DeliveredRecorded(s)
    ensures LiveRecorded(Stamped1(s, ctr)) && DeliveredRecorded(Stamped1(s, ctr))
  {
    var s', front := Stamped1(s, ctr), s.packs[s.ring.rp].msgs;
    FrontLive(s.ring, s.packs);
    assert forall q :: Live(s'.ring, q) <==> Live(s.ring, q);
    forall q: nat, j: nat | InUse(s'.ring, s'.packs, q, j) && !Open(s'.packs[q].msgs[j])
      ensures Recorded(s', s'.packs[q].msgs[j])
    {
      assert Live(s.ring, q);
      assert !Open(s.packs[q].msgs[j]);
      assert Recorded(s, s.packs[q].msgs[j]);
    }
  }

  lemma ReleaseRecorded(s: State)
    requires InRing(s.ring, s.packs) && s.ring.len > 1 && LiveRecorded(s)
    ensures LiveRecorded(s.(consumer := Waiting, ring := Release(s.ring)))
  {
    var s' := s.(consumer := Waiting, ring := Release(s.ring));
    assert forall q :: Live(s'.ring, q) ==> Live(s.ring, q);
    SegmentsRecorded(s, s');
  }

  lemma PopRecorded(s: State, flush: bool)
    requires InRing(s.ring, s.packs) && LiveRecorded(s) && DeliveredRecorded(s)
    ensures LiveRecorded(Popped(s, flush)) && DeliveredRecorded(Popped(s, flush))
  {
    PopSegments(s, flush);
    SegmentsRecorded(s, Popped(s, flush));
    assert forall j :: 0 <= j < |s.delivered| ==> Recorded(s, s.delivered[j]);
  }

  /** A step that changes nothing of the ring but the lost counter. */
  lemma SameRingRecorded(s: State, s': State)
    requires s'.ring == s.ring.(lost := s'.ring.lost) && s'.packs == s.packs
    requires s'.pushed == s.pushed && s'.delivered == s.delivered && LiveRecorded(s) && DeliveredRecorded(s)
    ensures LiveRecorded(s') && DeliveredRecorded(s')
  {
    assert forall q :: Live(s'.ring, q) <==> Live(s.ring, q);
    SegmentsRecorded(s, s');
    assert forall j :: 0 <= j < |s.delivered| ==> Recorded(s, s.delivered[j]);
  }

  lemma ConsumerRecorded(s: State, step: ConsumerStep)
    requires InRing(s.ring, s.packs) && FrontOk(s) && ConsumerEnabled(s, step) && LiveRecorded(s)
    requires DeliveredRecorded(s)
    ensures LiveRecorded(ConsumerEffect(s, step)) && DeliveredRecorded(ConsumerEffect(s, step))
  {
    match step
    case PopSection(flush, collect) =>
      var s1 := if collect && s.variant.Critical? then Collected(s) else s;
      SameRingRecorded(s, s1);
      PopRecorded(s1, flush);
    case Stamp(ctr) => StampRecorded(s, ctr);
    case ReleaseSection => ReleaseRecorded(s);
    case _ => SameRingRecorded(s, ConsumerEffect(s, step));
  }

  lemma StepRecorded(s: State, a: Action)
    requires Inv(s) && Enabled(s, a) && LiveRecorded(s) && DeliveredRecorded(s)
    ensures LiveRecorded(Apply(s, a)) && DeliveredRecorded(Apply(s, a))
  {
    match a
    case Produce(t, step) =>
      assert ProducerOk(s, s.producers[t]);
      ProducerRecorded(s, s.producers[t], step);
      SegmentsRecorded(ProducerEffect(s, s.producers[t], step), Apply(s, a));
    case Consume(step) => ConsumerRecorded(s, step);
  }

  lemma {:induction false} RunRecorded(s: State, acts: seq<Action>, s': State)
    requires Inv(s) && LiveRecorded(s) && DeliveredRecorded(s) && Steps(s, acts, s')
    ensures LiveRecorded(s') && DeliveredRecorded(s')
    decreases |acts|
  {
    if acts != [] {
      StepInv(s, acts[0]);
      StepRecorded(s, acts[0]);
      RunRecorded(Apply(s, acts[0]), acts[1..], s');
    }
  }
}
