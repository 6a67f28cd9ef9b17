/** A packet on its way through a segment queue: filled, pushed, stamped and sent as a datagram. */
module SegmentQueueTransfer {
  import opened Bytes
  import opened SegmentPacking
  import opened SegmentRing
  import opened SegmentQueue
  import opened SegmentQueueInvariant
  import opened SegmentQueueProducers
  import opened SegmentQueueConsumer
  import opened SegmentQueueDelivery
  import opened SegmentQueueMiscounts
  import opened SegmentQueueAlone

  // ---------------------------------------------------------------- the producer writes

  /** A granted producer can write every byte of its packet. */
  lemma FillFits(s: State, t: nat)
    requires Inv(s) && t < |s.producers| && s.producers[t].Fill?
    ensures var p := s.producers[t];
      && InPack(s, p.seg, p.i) && Live(s.ring, p.seg) && s.packs[p.seg].msgs[p.i].stage == Reserved
      && |s.packs[p.seg].msgs[p.i].payload| == p.dlc
      && forall k: nat, val {:trigger WriteByte(k, val)} :: k < p.dlc ==> ProducerEnabled(s, p, WriteByte(k, val))
  {
    var p := s.producers[t];
    assert ProducerOk(s, p);
    assert Packed(s.ring.segs[p.seg], s.packs[p.seg].msgs);
    MessageFits(s.ring.segs[p.seg], s.packs[p.seg].msgs, p.i);
    assert Image(s.ring.segs[p.seg].bytes, s.packs[p.seg].msgs[p.i]);
  }

  /** The message when `data` has been written into it from byte `k` on. */
  function Filled(m: Msg, data: seq<Byte>, k: nat): Msg
    requires k <= |data| <= |m.payload|
  {
    m.(payload := m.payload[..k] + data[k..] + m.payload[|data|..])
  }

  /** `s'` is `s`, but that producer `t` has written `data` from byte `k` on. */
  ghost predicate Wrote(s: State, t: nat, data: seq<Byte>, k: nat, s': State) {
    && t < |s.producers| && s.producers[t].Fill? && InPack(s, s.producers[t].seg, s.producers[t].i)
    && k <= |data| <= |s.packs[s.producers[t].seg].msgs[s.producers[t].i].payload|
    && |s'.ring.segs| == |s.ring.segs|
    && var p := s.producers[t];
       s' == s.(ring := s.ring.(segs := s'.ring.segs),
                packs := SetMsg(s.packs, p.seg, p.i, Filled(s.packs[p.seg].msgs[p.i], data, k)))
  }

  lemma FilledOne(m: Msg, data: seq<Byte>, k: nat)
    requires k < |data| <= |m.payload|
    ensures Filled(m.(payload := m.payload[k := data[k]]), data, k + 1) == Filled(m, data, k)
  {
  }

  lemma SetTwice(packs: seq<Pack>, seg: nat, i: nat, m1: Msg, m2: Msg)
    requires seg < |packs| && i < |packs[seg].msgs|
    ensures SetMsg(SetMsg(packs, seg, i, m1), seg, i, m2) == SetMsg(packs, seg, i, m2)
  {
    assert packs[seg].msgs[i := m1][i := m2] == packs[seg].msgs[i := m2];
    assert SetMsg(SetMsg(packs, seg, i, m1), seg, i, m2)[seg] == SetMsg(packs, seg, i, m2)[seg];
  }

  lemma SetSame(packs: seq<Pack>, seg: nat, i: nat)
    requires seg < |packs| && i < |packs[seg].msgs|
    ensures SetMsg(packs, seg, i, packs[seg].msgs[i]) == packs
  {
    assert packs[seg].msgs[i := packs[seg].msgs[i]] == packs[seg].msgs;
  }

  /** One byte, and the rest of them. */
  lemma WroteOne(s: State, t: nat, data: seq<Byte>, k: nat, s': State)
    requires Inv(s) && t < |s.producers| && s.producers[t].Fill? && k < |data| <= s.producers[t].dlc
    ensures var a := Produce(t, WriteByte(k, data[k]));
      && Enabled(s, a) && Apply(s, a).producers == s.producers
      && (Wrote(Apply(s, a), t, data, k + 1, s') ==> Wrote(s, t, data, k, s'))
  {
    FillFits(s, t);
    var p := s.producers[t];
    var m := s.packs[p.seg].msgs[p.i];
    var a := Produce(t, WriteByte(k, data[k]));
    assert ProducerEnabled(s, p, WriteByte(k, data[k]));
    var s1 := Apply(s, a);
    assert s1.producers == s.producers;
    FilledOne(m, data, k);
    SetTwice(s.packs, p.seg, p.i, m.(payload := Put(m.payload, k, data[k])), Filled(m, data, k));
  }

  lemma {:induction false} FillFrom(s: State, t: nat, data: seq<Byte>, k: nat) returns (acts: seq<Action>, s': State)
    requires Inv(s) && t < |s.producers| && s.producers[t].Fill? && k <= |data| <= s.producers[t].dlc
    ensures Steps(s, acts, s') && Inv(s') && Wrote(s, t, data, k, s')
    decreases |data| - k
  {
    FillFits(s, t);
    if k == |data| {
      acts, s' := [], s;
      NothingToWrite(s, t, data);
    } else {
      var a := Produce(t, WriteByte(k, data[k]));
      WroteOne(s, t, data, k, s);
      StepInv(s, a);
      acts, s' := FillFrom(Apply(s, a), t, data, k + 1);
      WroteOne(s, t, data, k, s');
      OneStep(s, a);
      StepsConcat(s, [a], Apply(s, a), acts, s');
      acts := [a] + acts;
    }
  }

  lemma NothingToWrite(s: State, t: nat, data: seq<Byte>)
    requires Inv(s) && t < |s.producers| && s.producers[t].Fill? && |data| <= s.producers[t].dlc
    ensures Wrote(s, t, data, |data|, s)
  {
    FillFits(s, t);
    var p := s.producers[t];
    var m := s.packs[p.seg].msgs[p.i];
    assert Filled(m, data, |data|).payload == m.payload;
    SetSame(s.packs, p.seg, p.i);
  }

  // ---------------------------------------------------------------- and pushes

  lemma PushFits(s: State, t: nat)
    requires Inv(s) && t < |s.producers| && s.producers[t].Fill?
    ensures var p := s.producers[t]; RoomInside(s, p.seg, p.off, p.dlc) && InPack(s, p.seg, p.i)
  {
    var p := s.producers[t];
    assert ProducerOk(s, p);
    assert Packed(s.ring.segs[p.seg], s.packs[p.seg].msgs);
    MessageFits(s.ring.segs[p.seg], s.packs[p.seg].msgs, p.i);
  }

  /** A flush closes the segment that takes messages exactly if it holds one, and opens the next one. */
  ghost predicate FlushedTo(s: State, flush: bool, s': State)
    requires InRing(s.ring, s.packs)
  {
    if flush && s.ring.cur.Some? && s.packs[s.ring.cur.value].msgs != [] then
      if s.ring.len < |s.ring.segs| then
        && InRing(s'.ring, s'.packs) && Extends(s.ring, s.packs, s'.ring, s'.packs)
        && s' == s.(ring := s'.ring, packs := s'.packs) && s'.ring.lost == s.ring.lost
        && s'.ring.len == s.ring.len + 1 && s'.ring.cur == Some(Slot(s.ring, s.ring.len))
        && s'.packs == s.packs[Slot(s.ring, s.ring.len) := Pack([], s.granted)]
        && |s'.ring.segs| == |s.ring.segs|
      else s' == s.(ring := s.ring.(cur := None))
    else s' == s
  }

  lemma FlushMeaning(s: State, flush: bool)
    requires InRing(s.ring, s.packs) && SegmentsOk(s.ring, s.packs)
    ensures FlushedTo(s, flush, Flushed(s, flush))
  {
    if s.ring.cur.Some? {
      CurIsLast(s.ring, s.packs);
      SizePositive(s.ring.segs[s.ring.cur.value], s.packs[s.ring.cur.value].msgs);
    }
    NewSegmentExtends(s.ring, s.packs, s.granted);
  }

  /** `s'` is `s`, but that message `i` of segment `seg` is committed and recorded. */
  ghost predicate CommittedTo(s: State, seg: nat, i: nat, s': State)
    requires InPack(s, seg, i)
  {
    var m := s.packs[seg].msgs[i];
    && |s'.ring.segs| == |s.ring.segs| && InRing(s'.ring, s'.packs)
    && s' == s.(ring := s.ring.(segs := s'.ring.segs), pushed := s.pushed[m.id := m.payload],
                packs := SetMsg(s.packs, seg, i, m.(stage := Committed)))
  }

  /**
    What a push does, in every reachable state in which the mutex is free: its message is committed
    and recorded with its payload, no other message changes, and then comes the flush.
   */
  lemma PushMeaning(s: State, t: nat, flush: bool) returns (s1: State)
    requires Inv(s) && t < |s.producers| && s.producers[t].Fill? && !Held(s)
    ensures Enabled(s, Produce(t, PushSection(flush))) && InPack(s, s.producers[t].seg, s.producers[t].i)
    ensures CommittedTo(s, s.producers[t].seg, s.producers[t].i, s1)
    ensures FlushedTo(s1.(producers := s.producers[t := Idle]), flush, Apply(s, Produce(t, PushSection(flush))))
  {
    FillFits(s, t);
    PushFits(s, t);
    var p := s.producers[t];
    s1 := Pushed(s, p.seg, p.i, p.off);
    assert ProducerOk(s, p);
    CommitRing(s, p.seg, p.i, p.off, p.dlc);
    FlushMeaning(s1, flush);
  }

  /** A message is filled and pushed. */
  lemma FillAndPush(s: State, t: nat, data: seq<Byte>, flush: bool)
      returns (acts: seq<Action>, s1: State, s2: State, s': State)
    requires Inv(s) && t < |s.producers| && s.producers[t].Fill? && !Held(s) && |data| <= s.producers[t].dlc
    ensures Steps(s, acts, s') && Inv(s') && Wrote(s, t, data, 0, s1)
    ensures InPack(s1, s.producers[t].seg, s.producers[t].i)
    ensures CommittedTo(s1, s.producers[t].seg, s.producers[t].i, s2)
    ensures FlushedTo(s2.(producers := s.producers[t := Idle]), flush, s')
  {
    acts, s1 := FillFrom(s, t, data, 0);
    s2 := PushMeaning(s1, t, flush);
    acts, s' := FinishWith(s, acts, s1, Produce(t, PushSection(flush)));
  }

  /**
    The state when a packet has been sent: one more message at its place, committed, with the bytes
    that were written; and with a flush the segment takes no more messages.
   */
  ghost predicate SentIn(s: State, data: seq<Byte>, flush: bool, s': State)
    requires 0 < |data| <= MAX_DTO && Sized(s) && HasRoom(s.ring, Dlc(|data|))
  {
    var dlc := Dlc(|data|);
    var q, before, r := TargetSegment(s.ring, dlc), Before(s, dlc), s.ring;
    var len := r.len + if FitsCurrent(r, dlc) then 0 else 1;
    && SameConsumer(s, s') && s'.producers == s.producers && Sized(s') && q < |s'.packs|
    && |s'.packs[q].msgs| == |before| + 1 && s'.packs[q].msgs[..|before|] == before
    && s'.packs[q].msgs[|before|].stage == Committed && s'.packs[q].msgs[|before|].dlc == dlc
    && data <= s'.packs[q].msgs[|before|].payload
    && if !flush then s'.ring.cur == Some(q) && s'.ring.len == len
       else if len < |r.segs| then s'.ring.cur == Some(Slot(r, len)) && s'.ring.len == len + 1
       else s'.ring.cur == None && s'.ring.len == len
  }

  ghost predicate SameConsumer(s: State, s': State) {
    && s'.consumer == s.consumer && s'.sent == s.sent && s'.delivered == s.delivered && s'.drawn == s.drawn
    && s'.ring.rp == s.ring.rp && |s'.ring.segs| == |s.ring.segs| && s'.ring.lost == s.ring.lost
  }

  lemma FilledAndCommitted(s: State, t: nat, data: seq<Byte>, s0: State, s1: State, s2: State)
    requires 0 < |data| <= MAX_DTO && Sized(s) && HasRoom(s.ring, Dlc(|data|))
    requires t < |s.producers| && s.producers[t].Idle? && GrantedIn(s, t, Dlc(|data|), s0, true)
    requires InRing(s0.ring, s0.packs) && Wrote(s0, t, data, 0, s1)
    requires InPack(s1, s0.producers[t].seg, s0.producers[t].i)
    requires CommittedTo(s1, s0.producers[t].seg, s0.producers[t].i, s2)
    ensures SentIn(s, data, false, s2.(producers := s0.producers[t := Idle]))
  {
    assert s0.producers[t := Idle] == s.producers;
    var q, before := TargetSegment(s.ring, Dlc(|data|)), Before(s, Dlc(|data|));
    assert s2.packs[q].msgs[..|before|] == s0.packs[q].msgs[..|before|];
  }

  lemma FlushedAfter(s: State, data: seq<Byte>, flush: bool, s2: State, s': State)
    requires 0 < |data| <= MAX_DTO && Sized(s) && HasRoom(s.ring, Dlc(|data|)) && SentIn(s, data, false, s2)
    requires FlushedTo(s2, flush, s')
    ensures SentIn(s, data, flush, s')
  {
    SlotLive(s2.ring, s2.ring.len);
    SlotLive(s2.ring, s2.ring.len - 1);
  }

  /** A packet with these bytes is acquired, filled and pushed, with no other thread moving. */
  lemma SendDataAlone(s: State, t: nat, data: seq<Byte>, flush: bool) returns (acts: seq<Action>, s': State)
    requires Inv(s) && t < |s.producers| && s.producers[t].Idle? && !Held(s)
    requires 0 < |data| <= MAX_DTO && HasRoom(s.ring, Dlc(|data|))
    ensures Steps(s, acts, s') && Inv(s') && SentIn(s, data, flush, s')
  {
    DlcFits(|data|);
    var s0;
    acts, s0 := AcquireAlone(s, t, |data|);
    assert !Held(s0);
    var push, s1, s2;
    push, s1, s2, s' := FillAndPush(s0, t, data, flush);
    StepsConcat(s, acts, s0, push, s');
    acts := acts + push;
    FilledAndCommitted(s, t, data, s0, s1, s2);
    FlushedAfter(s, data, flush, s2.(producers := s0.producers[t := Idle]), s');
  }

  // ---------------------------------------------------------------- the consumer stamps and sends

  /** What happens to the ring while the consumer works alone. */
  ghost predicate SameProducersAndRing(s: State, s': State) {
    && s'.producers == s.producers && s'.ring.rp == s.ring.rp && s'.ring.len == s.ring.len
    && |s'.ring.segs| == |s.ring.segs|
  }

  lemma SendStep(s: State, ctr: nat)
    requires Inv(s) && s.consumer.Stamping? && ctr < 0x10000 && s.consumer.i == |s.packs[s.ring.rp].msgs|
    ensures ConsumerEnabled(s, Stamp(ctr)) && AllOk(s.packs[s.ring.rp].msgs)
    ensures var s' := Stamped1(s, ctr);
      && s'.consumer.Sending? && SameProducersAndRing(s, s')
      && s'.sent == s.sent + [EncodeAll(s.packs[s.ring.rp].msgs)]
      && s'.delivered == s.delivered + s.packs[s.ring.rp].msgs
  {
    StampPosition(s);
    SegmentEncoded(s.ring.segs[s.ring.rp], s.packs[s.ring.rp].msgs);
  }

  /** The messages of the oldest segment, once the loop has stamped the rest of them. */
  function FrontStamped(s: State, ctr: nat): seq<Msg>
    requires Sized(s) && s.consumer.Stamping?
  {
    StampMsgs(s.packs[s.ring.rp].msgs, s.consumer.i, ctr)
  }

  /** `s'` is one round of the loop behind `s`. */
  ghost predicate StampedOne(s: State, ctr: nat, s': State)
    requires Sized(s) && s.consumer.Stamping?
  {
    && SameProducersAndRing(s, s') && s'.sent == s.sent && s'.delivered == s.delivered && Sized(s')
    && s'.consumer.Stamping? && s'.consumer.i == s.consumer.i + 1
    && |s'.packs[s.ring.rp].msgs| == |s.packs[s.ring.rp].msgs|
    && FrontStamped(s', Inc16(ctr)) == FrontStamped(s, ctr)
  }

  lemma StampReady(s: State, ctr: nat)
    requires InRing(s.ring, s.packs) && SegmentsOk(s.ring, s.packs) && FrontOk(s) && s.consumer.Stamping?
    requires ctr < 0x10000
    ensures ConsumerEnabled(s, Stamp(ctr))
  {
    StampPosition(s);
  }

  lemma StampFields(s: State, ctr: nat)
    requires InRing(s.ring, s.packs) && SegmentsOk(s.ring, s.packs) && FrontOk(s)
    requires ConsumerEnabled(s, Stamp(ctr)) && s.consumer.i < |s.packs[s.ring.rp].msgs|
    ensures StampedOne(s, ctr, Stamped1(s, ctr))
  {
    StampEffect(s, ctr);
    var s', i, msgs := Stamped1(s, ctr), s.consumer.i, s.packs[s.ring.rp].msgs;
    assert s'.packs[s.ring.rp].msgs == msgs[i := msgs[i].(stage := Stamped, ctr := ctr)];
    StampMsgsStep(msgs, i, ctr);
  }

  lemma StampStep(s: State, ctr: nat)
    requires Inv(s) && s.consumer.Stamping? && ctr < 0x10000 && s.consumer.i < |s.packs[s.ring.rp].msgs|
    ensures ConsumerEnabled(s, Stamp(ctr)) && Inv(Stamped1(s, ctr)) && StampedOne(s, ctr, Stamped1(s, ctr))
  {
    StampReady(s, ctr);
    StampInv(s, ctr);
    StampFields(s, ctr);
  }

  /** `s'` is behind the loop that writes the counters: the datagram is out, with these messages. */
  ghost predicate DatagramOut(s: State, msgs: seq<Msg>, s': State) {
    && s'.consumer.Sending? && SameProducersAndRing(s, s')
    && AllOk(msgs) && s'.sent == s.sent + [EncodeAll(msgs)] && s'.delivered == s.delivered + msgs
  }

  lemma LastStep(s: State, ctr: nat) returns (s': State)
    requires Inv(s) && s.consumer.Stamping? && ctr < 0x10000 && s.consumer.i >= |s.packs[s.ring.rp].msgs|
    ensures Enabled(s, Consume(Stamp(ctr))) && s' == Apply(s, Consume(Stamp(ctr)))
    ensures Inv(s') && DatagramOut(s, FrontStamped(s, ctr), s')
  {
    StampPosition(s);
    SendStep(s, ctr);
    s' := Apply(s, Consume(Stamp(ctr)));
    StepInv(s, Consume(Stamp(ctr)));
    assert FrontStamped(s, ctr) == s.packs[s.ring.rp].msgs;
  }

  lemma {:induction false} StampFrom(s: State, ctr: nat) returns (acts: seq<Action>, s': State)
    requires Inv(s) && s.consumer.Stamping? && ctr < 0x10000
    ensures Steps(s, acts, s') && Inv(s') && DatagramOut(s, FrontStamped(s, ctr), s')
    decreases |s.packs[s.ring.rp].msgs| - s.consumer.i
  {
    var a := Consume(Stamp(ctr));
    if s.consumer.i < |s.packs[s.ring.rp].msgs| {
      StampStep(s, ctr);
      var s1 := Apply(s, a);
      acts, s' := StampFrom(s1, Inc16(ctr));
      OneStep(s, a);
      StepsConcat(s, [a], s1, acts, s');
      acts := [a] + acts;
    } else {
      s' := LastStep(s, ctr);
      OneStep(s, a);
      acts := [a];
    }
  }

  // ---------------------------------------------------------------- an undisturbed pop

  /** The oldest segment can be handed out: it holds messages, all are committed, and there is another segment. */
  ghost predicate Poppable(s: State, flush: bool)
    requires Sized(s)
  {
    var msgs := s.packs[s.ring.rp].msgs;
    && msgs != [] && (forall j :: 0 <= j < |msgs| ==> !Open(msgs[j]))
    && (s.ring.len > 1 || (flush && |s.ring.segs| > 1))
  }

  /** The section of queuePop: the losses are collected, and the walk starts if the segment can be handed out. */
  lemma PopMeaning(s: State, flush: bool, collect: bool)
    requires Inv(s) && s.consumer.Popping? && !Held(s)
    ensures Enabled(s, Consume(PopSection(flush, collect)))
    ensures var s' := Apply(s, Consume(PopSection(flush, collect)));
      && s'.consumer == (if Poppable(s, flush) then Stamping(0, 0) else Waiting)
      && s'.producers == s.producers && s'.sent == s.sent && s'.delivered == s.delivered
      && s'.ring.rp == s.ring.rp && |s'.ring.segs| == |s.ring.segs| && Sized(s')
      && s'.packs[s.ring.rp] == s.packs[s.ring.rp]
      && s'.ring.lost + s'.reported == s.ring.lost + s.reported
      && (if collect && s.variant.Critical? then s'.ring.lost == 0 else s'.reported == s.reported)
  {
    var s0 := if collect && s.variant.Critical? then Collected(s) else s;
    if collect && s.variant.Critical? {
      CollectOk(s);
    }
    PopHandsOut(s0, flush);
    PopRing(s0, flush);
    FrontLive(s0.ring, s0.packs);
  }

  /** The consumer alone, from the pop to the release: one datagram with the messages of the oldest segment. */
  lemma PopAlone(s: State, flush: bool, ctr: nat) returns (acts: seq<Action>, s': State)
    requires Inv(s) && s.consumer.Waiting? && !Held(s) && Poppable(s, flush) && ctr < 0x10000
    ensures Steps(s, acts, s') && Inv(s') && s'.consumer.Waiting? && s'.producers == s.producers
    ensures var msgs := StampMsgs(s.packs[s.ring.rp].msgs, 0, ctr);
      AllOk(msgs) && s'.sent == s.sent + [EncodeAll(msgs)] && s'.delivered == s.delivered + msgs
  {
    var start, section, release := Consume(PopStart), Consume(PopSection(flush, false)), Consume(ReleaseSection);
    var s1 := Apply(s, start);
    OneStep(s, start);
    StepInv(s, start);
    assert !Held(s1);
    PopMeaning(s1, flush, false);
    var s2;
    acts, s2 := FinishWith(s, [start], s1, section);
    var stamps, s3 := StampFrom(s2, ctr);
    StepsConcat(s, acts, s2, stamps, s3);
    assert !Held(s3);
    acts, s' := FinishWith(s, acts + stamps, s3, release);
  }

  lemma EmptyRingFits(s: State, dlc: nat)
    requires Inv(s) && s.ring.len == 1 && s.packs[s.ring.rp].msgs == [] && ValidDlc(dlc)
    ensures FitsCurrent(s.ring, dlc) && s.ring.cur == Some(s.ring.rp)
  {
    assert PackAt(s.ring, s.packs, 0) == s.packs[s.ring.rp];
    CurIsLast(s.ring, s.packs);
  }

  lemma OneMessage(msgs: seq<Msg>, data: seq<Byte>, dlc: nat, ctr: nat)
    requires |msgs| == 1 && AllOk(msgs) && msgs[0].dlc == dlc && msgs[0].ctr == ctr && msgs[0].stage == Stamped
    requires data <= msgs[0].payload
    ensures dlc < 0x10000 && ctr < 0x10000
    ensures Word(dlc, ctr) + data <= EncodeAll(msgs) && |EncodeAll(msgs)| == HEADER + dlc
  {
    assert msgs[..0] == [];
    assert EncodeAll(msgs) == EncodeMsg(msgs[0]);
  }

  /** The ring holds one message, which begins with `data`, and it can be handed out. */
  ghost predicate HoldsOne(s: State, data: seq<Byte>)
    requires 0 < |data| <= MAX_DTO
  {
    && Sized(s) && s.consumer.Waiting? && !Held(s) && Poppable(s, false)
    && var msgs := s.packs[s.ring.rp].msgs;
       |msgs| == 1 && msgs[0].dlc == Dlc(|data|) && data <= msgs[0].payload
  }

  lemma SentToEmpty(s: State, data: seq<Byte>, s1: State)
    requires 0 < |data| <= MAX_DTO && Sized(s) && s.packs[s.ring.rp].msgs == [] && s.ring.len < |s.ring.segs|
    requires s.ring.cur == Some(s.ring.rp) && FitsCurrent(s.ring, Dlc(|data|)) && SentIn(s, data, true, s1)
    ensures Poppable(s1, false) && s1.ring.rp == s.ring.rp
    ensures var msgs := s1.packs[s.ring.rp].msgs;
      |msgs| == 1 && msgs[0].dlc == Dlc(|data|) && data <= msgs[0].payload
  {
  }

  lemma SendToEmpty(s: State, t: nat, data: seq<Byte>) returns (acts: seq<Action>, s': State)
    requires Inv(s) && t < |s.producers| && s.producers[t].Idle? && s.consumer.Waiting? && !Held(s)
    requires |s.ring.segs| > 1 && s.ring.len == 1 && s.packs[s.ring.rp].msgs == [] && 0 < |data| <= MAX_DTO
    ensures Steps(s, acts, s') && Inv(s') && HoldsOne(s', data) && s'.producers == s.producers && s'.sent == s.sent
  {
    DlcFits(|data|);
    EmptyRingFits(s, Dlc(|data|));
    acts, s' := SendDataAlone(s, t, data, true);
    SentToEmpty(s, data, s');
    assert !Held(s');
  }

  lemma PopOne(s: State, data: seq<Byte>, ctr: nat) returns (acts: seq<Action>, s': State)
    requires Inv(s) && 0 < |data| <= MAX_DTO && HoldsOne(s, data) && ctr < 0x10000
    ensures Steps(s, acts, s') && Inv(s') && s'.consumer.Waiting? && s'.producers == s.producers
    ensures |s'.sent| == |s.sent| + 1 && s'.sent[..|s.sent|] == s.sent && Dlc(|data|) < 0x10000
    ensures Word(Dlc(|data|), ctr) + data <= s'.sent[|s.sent|] && |s'.sent[|s.sent|]| == HEADER + Dlc(|data|)
  {
    acts, s' := PopAlone(s, false, ctr);
    OneMessage(StampMsgs(s.packs[s.ring.rp].msgs, 0, ctr), data, Dlc(|data|), ctr);
  }

  /**
    Through an empty ring of more than one segment, in both variants and any reachable state: the
    datagram is one message, with its length, the counter, and the bytes that were written.
   */
  lemma TransferAlone(s: State, t: nat, data: seq<Byte>, ctr: nat) returns (acts: seq<Action>, s': State)
    requires Inv(s) && t < |s.producers| && s.producers[t].Idle? && s.consumer.Waiting? && !Held(s)
    requires |s.ring.segs| > 1 && s.ring.len == 1 && s.packs[s.ring.rp].msgs == []
    requires 0 < |data| <= 1024 && ctr < 0x10000
    ensures Steps(s, acts, s') && Inv(s') && s'.consumer.Waiting? && s'.producers == s.producers
    ensures |s'.sent| == |s.sent| + 1 && s'.sent[..|s.sent|] == s.sent && Dlc(|data|) < 0x10000
    ensures Word(Dlc(|data|), ctr) + data <= s'.sent[|s.sent|] && |s'.sent[|s.sent|]| == HEADER + Dlc(|data|)
  {
    var s1;
    acts, s1 := SendToEmpty(s, t, data);
    var pop;
    pop, s' := PopOne(s1, data, ctr);
    StepsConcat(s, acts, s1, pop, s');
    acts := acts + pop;
  }
}
