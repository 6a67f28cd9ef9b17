/** What the segment queues deliver over whole runs, what they hand out, and what they lose. */
module SegmentQueueDelivery {
  import opened Counting
  import opened SegmentPacking
  import opened SegmentRing
  import opened SegmentQueue
  import opened SegmentQueueInvariant
  import opened SegmentQueueProducers
  import opened SegmentQueueConsumer
  import opened SegmentQueuePayloads

  /**
    Safety over whole runs, for any number of producers: the datagrams handed out, one after the
    other, are exactly the first messages granted, in the order of the acquires; each was committed,
    has the payload that its producer pushed and the counter in the order they were drawn; each
    datagram fits; and no assertion of the walk ever fails.
   */
  lemma DatagramsInOrder(variant: Variant, segmentCount: nat, producerCount: nat, acts: seq<Action>, s: State)
    requires segmentCount > 0 && Steps(Init(variant, segmentCount, producerCount), acts, s)
    ensures |s.delivered| <= s.granted && |s.delivered| <= |s.drawn| && AllOk(s.delivered)
    ensures Flatten(s.sent) == EncodeAll(s.delivered)
    ensures forall j :: 0 <= j < |s.delivered| ==>
              var m := s.delivered[j];
              m.id == j && m.stage == Stamped && m.ctr == s.drawn[j] && j in s.pushed && m.payload == s.pushed[j]
    ensures forall d :: 0 <= d < |s.sent| ==> 0 < |s.sent[d]| <= MAX_SEGMENT
    ensures s.consumer != Fault
  {
    InitInv(variant, segmentCount, producerCount);
    RunInv(Init(variant, segmentCount, producerCount), acts, s);
    RunRecorded(Init(variant, segmentCount, producerCount), acts, s);
    GrantedBound(s, s.ring.len - 1);
    assert forall j :: 0 <= j < |s.delivered| ==> Recorded(s, s.delivered[j]);
  }

  lemma {:induction false} GrantedBound(s: State, k: nat)
    requires InRing(s.ring, s.packs) && Numbered(s.ring, s.packs, s.granted) && k < s.ring.len
    ensures NextNumber(s.ring, s.packs, k) >= NextNumber(s.ring, s.packs, 0)
  {
    if k > 0 {
      GrantedBound(s, k - 1);
      assert PackAt(s.ring, s.packs, k).base == NextNumber(s.ring, s.packs, k - 1);
    }
  }

  /**
    Conservation over whole runs of queue32m.c: every valid acquire was granted or is undecided, or
    its loss is counted or was reported. In queue32.c the counts overwritten by the unprotected reset
    are missing.
   */
  lemma AcquiresCounted(variant: Variant, segmentCount: nat, producerCount: nat, acts: seq<Action>, s: State)
    requires segmentCount > 0 && Steps(Init(variant, segmentCount, producerCount), acts, s)
    ensures s.acquires + s.revived == s.granted + Pending(s.producers) + s.ring.lost + s.reported + s.dropped
    ensures variant.Critical? ==> s.dropped == 0 && s.revived == 0
  {
    InitInv(variant, segmentCount, producerCount);
    RunInv(Init(variant, segmentCount, producerCount), acts, s);
    VariantFixed(Init(variant, segmentCount, producerCount), acts, s);
  }

  lemma {:induction false} VariantFixed(s: State, acts: seq<Action>, s': State)
    requires Steps(s, acts, s')
    ensures s'.variant == s.variant
    decreases |acts|
  {
    if acts != [] {
      VariantFixed(Apply(s, acts[0]), acts[1..], s');
    }
  }

  /**
    queuePop hands out the oldest segment exactly if it holds messages, all of them are committed, and
    there is another segment for the producers - or, with flush, room for one. So a ring of a single
    segment never hands out anything.
   */
  lemma PopHandsOut(s: State, flush: bool)
    requires Inv(s) && s.consumer.Popping?
    ensures var msgs := s.packs[s.ring.rp].msgs;
      Popped(s, flush).consumer.Stamping? <==>
        msgs != [] && (forall j :: 0 <= j < |msgs| ==> !Open(msgs[j])) &&
        (s.ring.len > 1 || (flush && |s.ring.segs| > 1))
  {
    FrontLive(s.ring, s.packs);
    var b, msgs := s.ring.segs[s.ring.rp], s.packs[s.ring.rp].msgs;
    SizePositive(b, msgs);
    if b.uncommitted == 0 {
      forall j | 0 <= j < |msgs|
        ensures !Open(msgs[j])
      {
        NoneOpen(b, msgs, j);
      }
    } else if forall j :: 0 <= j < |msgs| ==> !Open(msgs[j]) {
      CountNone(OpenFlags(msgs));
    }
  }
}
