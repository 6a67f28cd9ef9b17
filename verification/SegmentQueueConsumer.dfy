/** Every consumer step of the segment queues keeps the invariant, and so does every run. */
module SegmentQueueConsumer {
  import opened Bytes
  import opened Counting
  import opened SegmentPacking
  import opened SegmentRing
  import opened SegmentQueue
  import opened SegmentQueueInvariant
  import opened SegmentQueueProducers

  lemma CollectOk(s: State)
    requires Inv(s) && s.consumer.Popping?
    ensures Inv(Collected(s))
  {
    var s' := Collected(s);
    LostOk(s.ring, s.packs, s.granted, 0);
    LostKeepsRest(s, s');
  }

  /** Only the lost count of the ring changed. */
  lemma LostKeepsRest(s: State, s': State)
    requires InRing(s.ring, s.packs) && ProducersOk(s) && Unstamped(s)
    requires s'.ring == s.ring.(lost := s'.ring.lost) && s'.packs == s.packs && s'.producers == s.producers
    requires Busy(s') == Busy(s)
    ensures ProducersOk(s') && Unstamped(s')
  {
    assert forall q :: Live(s'.ring, q) <==> Live(s.ring, q);
    forall t | 0 <= t < |s'.producers|
      ensures ProducerOk(s', s'.producers[t])
    {
      assert ProducerOk(s, s.producers[t]);
    }
  }

  lemma LostStepInv(s: State, step: ConsumerStep)
    requires Inv(s) && ConsumerEnabled(s, step) && (step.PopStart? || step.ReadLost? || step.ClearLost?)
    ensures Inv(ConsumerEffect(s, step))
  {
    LostOk(s.ring, s.packs, s.granted, 0);
    LostKeepsRest(s, ConsumerEffect(s, step));
  }

  lemma ExtendsKeepsProducers(s: State, s': State)
    requires InRing(s.ring, s.packs) && InRing(s'.ring, s'.packs) && Extends(s.ring, s.packs, s'.ring, s'.packs)
    requires ProducersOk(s) && s'.producers == s.producers
    ensures ProducersOk(s')
  {
    forall t | 0 <= t < |s'.producers|
      ensures ProducerOk(s', s'.producers[t])
    {
      assert ProducerOk(s, s.producers[t]);
    }
  }

  lemma PopRing(s: State, flush: bool)
    requires RingOk(s.ring, s.packs, s.granted)
    ensures var s' := Popped(s, flush);
      RingOk(s'.ring, s'.packs, s'.granted) && Extends(s.ring, s.packs, s'.ring, s'.packs)
  {
    FrontLive(s.ring, s.packs);
    if s.ring.len == 1 && s.ring.segs[s.ring.rp].size > 0 && flush {
      SizePositive(s.ring.segs[s.ring.rp], s.packs[s.ring.rp].msgs);
      NewSegmentOk(s.ring, s.packs, s.granted);
    }
  }

  /** A segment that is handed out is committed completely. */
  lemma PopFront(s: State, flush: bool)
    requires InRing(s.ring, s.packs) && SegmentsOk(s.ring, s.packs) && Unstamped(s) && FrontOk(s) && s.consumer.Popping?
    requires InRing(Popped(s, flush).ring, Popped(s, flush).packs)
    requires Extends(s.ring, s.packs, Popped(s, flush).ring, Popped(s, flush).packs)
    ensures FrontOk(Popped(s, flush)) && Unstamped(Popped(s, flush))
  {
    var s', rp := Popped(s, flush), s.ring.rp;
    FrontLive(s.ring, s.packs);
    var b, msgs := s.ring.segs[rp], s.packs[rp].msgs;
    assert Packed(b, msgs);
    if s'.consumer.Stamping? {
      forall j | 0 <= j < |msgs|
        ensures msgs[j].stage == Committed
      {
        NoneOpen(b, msgs, j);
      }
    }
  }

  lemma PopInv(s: State, flush: bool)
    requires Inv(s) && s.consumer.Popping?
    ensures Inv(Popped(s, flush))
  {
    PopRing(s, flush);
    PopFront(s, flush);
    ExtendsKeepsProducers(s, Popped(s, flush));
    SentSame(s, Popped(s, flush));
  }

  /** The loop is on message `i` as long as there is one, and the assertions about its header hold. */
  lemma StampPosition(s: State)
    requires InRing(s.ring, s.packs) && SegmentsOk(s.ring, s.packs) && FrontOk(s) && s.consumer.Stamping?
    ensures var b, msgs, p, i := s.ring.segs[s.ring.rp], s.packs[s.ring.rp].msgs, s.consumer.p, s.consumer.i;
      && Packed(b, msgs)
      && (p + HEADER < b.size <==> i < |msgs|)
      && (i < |msgs| ==> p == msgs[i].off && LowWord(b.bytes, p) == msgs[i].dlc && MsgOk(msgs[i]) &&
                         HighWord(b.bytes, p) == SegmentRing.COMMITTED &&
                           p + msgs[i].dlc + HEADER == Off(b, msgs, i + 1))
  {
    FrontLive(s.ring, s.packs);
    var b, msgs, i := s.ring.segs[s.ring.rp], s.packs[s.ring.rp].msgs, s.consumer.i;
    assert Packed(b, msgs);
    if i < |msgs| {
      MessageFits(b, msgs, i);
      HeaderReads(b, msgs, i);
    }
  }

  lemma StampRing(s: State, ctr: nat)
    requires RingOk(s.ring, s.packs, s.granted) && FrontOk(s) && s.consumer.Stamping? && ctr < 0x10000
    requires s.consumer.i < |s.packs[s.ring.rp].msgs|
    ensures ConsumerEnabled(s, Stamp(ctr))
    ensures var s' := Stamped1(s, ctr); RingOk(s'.ring, s'.packs, s'.granted)
  {
    StampPosition(s);
    var q, i := s.ring.rp, s.consumer.i;
    var b, msgs := s.ring.segs[q], s.packs[q].msgs;
    StampRound(b, msgs, i, ctr);
    SegmentReplaced(s.ring, s.packs, s.granted, q, b.(bytes := Splice(b.bytes, msgs[i].off, Word(msgs[i].dlc, ctr))), i,
                    msgs[i].(stage := Stamped, ctr := ctr));
  }

  lemma StampProducers(s: State, ctr: nat)
    requires InRing(s.ring, s.packs) && SegmentsOk(s.ring, s.packs) && FrontOk(s) && ProducersOk(s)
    requires ConsumerEnabled(s, Stamp(ctr)) && s.consumer.i < |s.packs[s.ring.rp].msgs|
    ensures ProducersOk(Stamped1(s, ctr))
  {
    StampPosition(s);
    var s' := Stamped1(s, ctr);
    forall t | 0 <= t < |s'.producers|
      ensures ProducerOk(s', s'.producers[t])
    {
      assert ProducerOk(s, s.producers[t]);
      if Owns(s.producers[t]) {
        FrontNotOwned(s, s.producers[t]);
      }
    }
  }

  /** The counter goes into the message that the walk is on. */
  lemma StampEffect(s: State, ctr: nat)
    requires InRing(s.ring, s.packs) && SegmentsOk(s.ring, s.packs) && FrontOk(s)
    requires ConsumerEnabled(s, Stamp(ctr)) && s.consumer.i < |s.packs[s.ring.rp].msgs|
    ensures var s', q, i := Stamped1(s, ctr), s.ring.rp, s.consumer.i;
      && InRing(s'.ring, s'.packs) && s'.ring.rp == q && s'.ring.len == s.ring.len && |s'.ring.segs| == |s.ring.segs|
      && s'.packs == SetMsg(s.packs, q, i, s.packs[q].msgs[i].(stage := Stamped, ctr := ctr))
      && s'.consumer == Stamping(Off(s.ring.segs[q], s.packs[q].msgs, i + 1), i + 1)
      && s'.ring.segs[q].size == s.ring.segs[q].size && s'.drawn == s.drawn + [ctr] && s'.delivered == s.delivered
  {
    StampPosition(s);
  }

  lemma StampFront(s: State, ctr: nat)
    requires InRing(s.ring, s.packs) && SegmentsOk(s.ring, s.packs) && FrontOk(s)
    requires ConsumerEnabled(s, Stamp(ctr)) && s.consumer.i < |s.packs[s.ring.rp].msgs|
    ensures var s' := Stamped1(s, ctr); InRing(s'.ring, s'.packs) && FrontOk(s')
  {
    StampEffect(s, ctr);
    var s', q := Stamped1(s, ctr), s.ring.rp;
    var i := s.consumer.i + 1;
    assert Off(s'.ring.segs[q], s'.packs[q].msgs, i) == Off(s.ring.segs[q], s.packs[q].msgs, i);
  }

  lemma StampUnstamped(s: State, ctr: nat)
    requires InRing(s.ring, s.packs) && SegmentsOk(s.ring, s.packs) && FrontOk(s) && Unstamped(s)
    requires ConsumerEnabled(s, Stamp(ctr)) && s.consumer.i < |s.packs[s.ring.rp].msgs|
    ensures Unstamped(Stamped1(s, ctr))
  {
    StampEffect(s, ctr);
    assert forall x :: Live(Stamped1(s, ctr).ring, x) <==> Live(s.ring, x);
  }

  lemma StampInv(s: State, ctr: nat)
    requires Inv(s) && ConsumerEnabled(s, Stamp(ctr)) && s.consumer.i < |s.packs[s.ring.rp].msgs|
    ensures Inv(Stamped1(s, ctr))
  {
    StampRing(s, ctr);
    StampFront(s, ctr);
    StampUnstamped(s, ctr);
    StampProducers(s, ctr);
    StampSent(s, ctr);
  }

  lemma StampSent(s: State, ctr: nat)
    requires InRing(s.ring, s.packs) && SegmentsOk(s.ring, s.packs) && FrontOk(s) && SentOk(s) && Counted(s)
    requires ConsumerEnabled(s, Stamp(ctr)) && s.consumer.i < |s.packs[s.ring.rp].msgs|
    ensures SentOk(Stamped1(s, ctr)) && Counted(Stamped1(s, ctr))
  {
    StampPosition(s);
  }

  lemma FlattenAppend(parts: seq<seq<Byte>>, part: seq<Byte>)
    ensures Flatten(parts + [part]) == Flatten(parts) + part
  {
    assert (parts + [part])[..|parts|] == parts;
  }

  /** A datagram that is handed out is exactly the messages of its segment. */
  lemma SentExtends(delivered: seq<Msg>, drawn: seq<nat>, sent: seq<seq<Byte>>, b: Segment, msgs: seq<Msg>)
    requires Sent(delivered, drawn, sent) && Packed(b, msgs) && msgs != [] && StampedFrom(msgs, drawn, |delivered|)
    ensures Sent(delivered + msgs, drawn, sent + [b.bytes[..b.size]])
  {
    SizePositive(b, msgs);
    SegmentEncoded(b, msgs);
    EncodeConcat(delivered, msgs);
    FlattenAppend(sent, b.bytes[..b.size]);
    DeliveredNumbers(delivered, msgs, drawn);
  }

  lemma DeliveredNumbers(delivered: seq<Msg>, msgs: seq<Msg>, drawn: seq<nat>)
    requires StampedFrom(delivered, drawn, 0) && StampedFrom(msgs, drawn, |delivered|)
    ensures StampedFrom(delivered + msgs, drawn, 0)
  {
    var all := delivered + msgs;
    forall j | 0 <= j < |all|
      ensures all[j].id == j && all[j].stage == Stamped && all[j].ctr == drawn[j]
    {
      if j >= |delivered| {
        assert all[j] == msgs[j - |delivered|];
      }
    }
  }

  lemma FrontStamped(s: State)
    requires InRing(s.ring, s.packs) && Numbered(s.ring, s.packs, s.granted) && FrontOk(s)
    requires s.consumer.Stamping? && s.consumer.i == |s.packs[s.ring.rp].msgs|
    ensures StampedFrom(s.packs[s.ring.rp].msgs, s.drawn, |s.delivered|)
  {
    FrontLive(s.ring, s.packs);
  }

  lemma SendSent(s: State, ctr: nat)
    requires RingOk(s.ring, s.packs, s.granted) && FrontOk(s) && SentOk(s)
    requires ConsumerEnabled(s, Stamp(ctr)) && s.consumer.i == |s.packs[s.ring.rp].msgs|
    ensures SentOk(Stamped1(s, ctr))
  {
    StampPosition(s);
    FrontStamped(s);
    assert PackAt(s.ring, s.packs, 0).msgs != [];
    SentExtends(s.delivered, s.drawn, s.sent, s.ring.segs[s.ring.rp], s.packs[s.ring.rp].msgs);
  }

  lemma SendInv(s: State, ctr: nat)
    requires Inv(s) && ConsumerEnabled(s, Stamp(ctr)) && s.consumer.i == |s.packs[s.ring.rp].msgs|
    ensures Inv(Stamped1(s, ctr))
  {
    StampPosition(s);
    SendSent(s, ctr);
    SendRest(s, ctr);
  }

  lemma SendRest(s: State, ctr: nat)
    requires InRing(s.ring, s.packs) && SegmentsOk(s.ring, s.packs) && FrontOk(s) && Unstamped(s) && ProducersOk(s)
    requires Counted(s)
    requires ConsumerEnabled(s, Stamp(ctr)) && s.consumer.i == |s.packs[s.ring.rp].msgs|
    ensures var s' := Stamped1(s, ctr);
      InRing(s'.ring, s'.packs) && FrontOk(s') && Unstamped(s') && ProducersOk(s') && Counted(s')
  {
    StampPosition(s);
    var s' := Stamped1(s, ctr);
    SameProducers(s, s');
  }

  lemma ReleaseInv(s: State)
    requires Inv(s) && ConsumerEnabled(s, ReleaseSection)
    ensures Inv(ConsumerEffect(s, ReleaseSection))
  {
    var s' := ConsumerEffect(s, ReleaseSection);
    ReleaseOk(s.ring, s.packs, s.granted);
    ReleaseRest(s, s');
    SentSame(s, s');
  }

  lemma ReleaseRest(s: State, s': State)
    requires InRing(s.ring, s.packs) && FrontOk(s) && Unstamped(s) && ProducersOk(s) && Counted(s)
    requires s.consumer.Sending?
    requires s' == s.(consumer := Waiting, ring := Release(s.ring)) && InRing(s'.ring, s'.packs)
    requires PackAt(s'.ring, s'.packs, 0).base == s.packs[s.ring.rp].base + |s.packs[s.ring.rp].msgs|
    requires forall q :: 0 <= q < |s.packs| && Live(s.ring, q) && q != s.ring.rp ==> Live(s'.ring, q)
    ensures FrontOk(s') && Unstamped(s') && ProducersOk(s') && Counted(s')
  {
    forall q | Live(s'.ring, q)
      ensures Live(s.ring, q) && q != s.ring.rp
    {
    }
    forall t | 0 <= t < |s'.producers|
      ensures ProducerOk(s', s'.producers[t])
    {
      assert ProducerOk(s, s.producers[t]);
      if Owns(s.producers[t]) {
        FrontNotOwned(s, s.producers[t]);
      }
    }
  }

  lemma ConsumerStepInv(s: State, step: ConsumerStep)
    requires Inv(s) && ConsumerEnabled(s, step)
    ensures Inv(ConsumerEffect(s, step))
  {
    match step {
      case PopSection(flush, collect) =>
        if collect && s.variant.Critical? {
          CollectOk(s);
          PopInv(Collected(s), flush);
        } else {
          PopInv(s, flush);
        }
      case Stamp(ctr) =>
        if s.consumer.i < |s.packs[s.ring.rp].msgs| {
          StampInv(s, ctr);
        } else {
          SendInv(s, ctr);
        }
      case ReleaseSection => ReleaseInv(s);
      case _ => LostStepInv(s, step);
    }
  }

  lemma StepInv(s: State, a: Action)
    requires Inv(s) && Enabled(s, a)
    ensures Inv(Apply(s, a))
  {
    match a
    case Produce(t, p) => ProducerStepInv(s, t, p);
    case Consume(c) => ConsumerStepInv(s, c);
  }

  lemma {:induction false} RunInv(s: State, acts: seq<Action>, s': State)
    requires Inv(s) && Steps(s, acts, s')
    ensures Inv(s')
    decreases |acts|
  {
    if acts != [] {
      StepInv(s, acts[0]);
      RunInv(Apply(s, acts[0]), acts[1..], s');
    }
  }

  lemma InitInv(variant: Variant, segmentCount: nat, producerCount: nat)
    requires segmentCount > 0
    ensures Inv(Init(variant, segmentCount, producerCount))
  {
    var s := Init(variant, segmentCount, producerCount);
    CountNone(Flags(s.producers));
    forall q | 0 <= q < |s.packs|
      ensures Packed(s.ring.segs[q], s.packs[q].msgs)
    {
      EmptyPacked(s.ring.segs[q]);
    }
  }
}
