/**
  When an acquire of the fixed-size queue is refused: only if all slots are in use for the cursors
  that the producer has observed, however often the compare-and-swap fails before. The tail is read
  again after each failure, so that a producer that fails once goes by the real cursors.
 */
module FixQueueRetry {
  import opened QueueEntry
  import opened FixQueue
  import opened FixQueueConsumer
  import opened FixQueueDelivery
  import opened FixQueueAlone

  /** The head that a producer has observed is never ahead of the real one. */
  ghost predicate HeadsSeen(s: State) {
    forall t :: 0 <= t < |s.producers| && (s.producers[t].Reserve? || s.producers[t].Refresh?) ==>
      s.producers[t].head <= s.head
  }

  lemma StepHeads(s: State, a: Action)
    requires HeadsSeen(s) && Enabled(s, a)
    ensures HeadsSeen(Apply(s, a))
  {
    forall t | 0 <= t < |s.producers| && (Apply(s, a).producers[t].Reserve? || Apply(s, a).producers[t].Refresh?)
      ensures Apply(s, a).producers[t].head <= Apply(s, a).head
    {
      assert (a.Produce? && a.t == t) || s.producers[t].Reserve? || s.producers[t].Refresh?;
    }
  }

  lemma {:induction false} RunHeads(s: State, acts: seq<Action>, s': State)
    requires HeadsSeen(s) && Steps(s, acts, s')
    ensures HeadsSeen(s') && |s'.slots| == |s.slots|
    decreases |acts|
  {
    if acts != [] {
      StepHeads(s, acts[0]);
      RunHeads(Apply(s, acts[0]), acts[1..], s');
    }
  }

  /** All slots are in use for these cursors. */
  predicate NoSlot(s: State, tail: nat, head: nat) { head - tail >= |s.slots| * SLOT_SIZE }

  /**
    Every attempt to reserve: refused exactly if all slots are in use for the cursors it has
    observed, granted exactly if not and the compare-and-swap succeeds, and repeated with the
    head of now, and with the tail read again, otherwise.
   */
  lemma AttemptEnds(s: State, t: nat, spurious: bool)
    requires Inv(s) && HeadsSeen(s) && Enabled(s, Produce(t, TryReserve(spurious)))
    ensures var s', p := Apply(s, Produce(t, TryReserve(spurious))), s.producers[t];
      if NoSlot(s, p.tail, p.head) then s' == s.(producers := s.producers[t := Overrun])
      else if spurious || p.head != s.head then s' == s.(producers := s.producers[t := Refresh(p.len, s.head)])
      else s'.producers == s.producers[t := Mark(|s.log|, |s.log| % |s.slots|, p.len)] && s'.lost == s.lost
  {
    var p := s.producers[t];
    assert ProducerOk(s, p);
    OverrunIsFull(|s.slots|, p.len, p.tail, p.head);
    SlotOfEntry(|s.log|, |s.slots|);
  }

  /**
    No packet is lost without a reason, in any run: whatever step makes a producer give up, it is
    an attempt to reserve, with cursors that are not ahead of the real ones and leave no slot.
   */
  lemma OverrunJustified(slotCount: nat, producerCount: nat, acts: seq<Action>, s: State, a: Action, u: nat)
    requires slotCount > 0 && Steps(Init(slotCount, producerCount), acts, s)
    requires Enabled(s, a) && u < |s.producers| && !s.producers[u].Overrun? && Apply(s, a).producers[u].Overrun?
    ensures var p := s.producers[u];
      && a.Produce? && a.t == u && a.p.TryReserve? && p.Reserve?
      && p.tail <= s.tail && p.head <= s.head && p.head - p.tail >= slotCount * SLOT_SIZE
  {
    RefinesQueue(slotCount, producerCount, acts, s);
    RunHeads(Init(slotCount, producerCount), acts, s);
    var p := s.producers[u];
    assert ProducerOk(s, p);
    if p.Reserve? {
      OverrunIsFull(slotCount, p.len, p.tail, p.head);
    }
  }

  /** A packet length that is not valid is turned down at once, and nothing is counted. */
  lemma InvalidRefused(s: State, t: nat, packetLen: nat)
    requires t < |s.producers| && s.producers[t].Idle? && (packetLen == 0 || packetLen > 248)
    ensures Apply(s, Produce(t, AcquireStart(packetLen))) == s
  {
    assert s.producers[t := Idle] == s.producers;
  }

  /**
    Lost packets are neither forgotten nor reported twice, in any run: the ones counted are those
    waiting for the consumer and those handed out, and a peek hands out all or none of them.
   */
  lemma LostAccounted(s: State, a: Action)
    requires Enabled(s, a)
    ensures var s' := Apply(s, a);
      && s'.lost + s'.reported == s.lost + s.reported + (if a.Produce? && a.p.CountLost? then 1 else 0)
      && (if a.Consume? && a.c.PeekStart? && a.c.collectLost then s'.lost == 0 else s'.reported == s.reported)
  {
  }

  // ---------------------------------------------------------------- undisturbed, from any point of an acquire

  /**
    What an undisturbed acquire comes to: refused at once if all slots are in use for the cursors
    that it has observed, and otherwise granted exactly if a slot is free now.
   */
  predicate Granted(s: State, p: Producer) {
    match p
    case Reserve(_, tail, head) => !NoSlot(s, tail, head) && HasRoom(s)
    case LoadHead(_, tail) => !NoSlot(s, tail, s.head)
    case _ => HasRoom(s)
  }

  /** `acts` is the rest of the acquire of producer `t`, with no other thread moving. */
  ghost predicate Ends(s: State, t: nat, granted: bool, acts: seq<Action>, s': State) {
    && t < |s.producers| && !s.producers[t].Idle? && !s.producers[t].Overrun? && |s.slots| > 0
    && Steps(s, acts, s') && Inv(s')
    && |s'.slots| == |s.slots| && s'.consumer == s.consumer && s'.released == s.released
    && if granted then
         && s'.producers == s.producers[t := Fill(|s.log|, |s.log| % |s.slots|, s.producers[t].len)]
         && |s'.log| == |s.log| + 1 && s'.log[..|s.log|] == s.log && s'.lost == s.lost
       else
         && s'.producers == s.producers[t := Idle] && s'.log == s.log && s'.slots == s.slots && s'.lost == s.lost + 1
  }

  /** A step of the acquire that decides nothing, and the rest. */
  lemma Continue(s: State, t: nat, a: Action, granted: bool, rest: seq<Action>, s': State)
    requires t < |s.producers| && Enabled(s, a) && !s.producers[t].Idle? && !s.producers[t].Overrun?
    requires var s1 := Apply(s, a);
      && s1 == s.(producers := s.producers[t := s1.producers[t]]) && Ends(s1, t, granted, rest, s')
      && s1.producers[t].len == s.producers[t].len
    ensures Ends(s, t, granted, [a] + rest, s')
  {
    OneStep(s, a);
    StepsConcat(s, [a], Apply(s, a), rest, s');
  }

  /** The decided attempt and the step behind it. */
  lemma DecidedAlone(s: State, t: nat) returns (acts: seq<Action>, s': State)
    requires Inv(s) && HeadsSeen(s) && t < |s.producers| && s.producers[t].Reserve?
    requires var p := s.producers[t]; p.head == s.head || NoSlot(s, p.tail, p.head)
    ensures Ends(s, t, !NoSlot(s, s.producers[t].tail, s.producers[t].head), acts, s')
  {
    var try := Produce(t, TryReserve(false));
    NeverOutOfBounds(s, t);
    AttemptEnds(s, t, false);
    StepInv(s, try);
    var s1 := Apply(s, try);
    var last := SettleAlone(s1, t);
    OneStep(s, try);
    ThenOneStep(s, [try], s1, last);
    acts, s' := [try] + [last], Apply(s1, last);
    assert s1.producers[t].Mark? ==> s'.log[..|s.log|] == s1.log[..|s.log|];
  }

  lemma FailOnce(s: State, t: nat, spurious: bool) returns (s': State)
    requires Inv(s) && HeadsSeen(s) && t < |s.producers| && s.producers[t].Reserve?
    requires var p := s.producers[t]; !NoSlot(s, p.tail, p.head) && (spurious || p.head != s.head)
    ensures var a := Produce(t, TryReserve(spurious));
      && Enabled(s, a) && s' == Apply(s, a) && Inv(s') && HeadsSeen(s')
      && s' == s.(producers := s.producers[t := Refresh(s.producers[t].len, s.head)])
  {
    NeverOutOfBounds(s, t);
    AttemptEnds(s, t, spurious);
    StepInv(s, Produce(t, TryReserve(spurious)));
    StepHeads(s, Produce(t, TryReserve(spurious)));
    s' := Apply(s, Produce(t, TryReserve(spurious)));
  }

  lemma RefreshOnce(s: State, t: nat) returns (s': State)
    requires Inv(s) && HeadsSeen(s) && t < |s.producers| && s.producers[t].Refresh?
    ensures var a := Produce(t, ReadTail);
      && Enabled(s, a) && s' == Apply(s, a) && Inv(s') && HeadsSeen(s')
      && s' == s.(producers := s.producers[t := Reserve(s.producers[t].len, s.tail, s.producers[t].head)])
  {
    StepInv(s, Produce(t, ReadTail));
    StepHeads(s, Produce(t, ReadTail));
    s' := Apply(s, Produce(t, ReadTail));
  }

  /** With the real cursors: after the spurious failures comes the decision. */
  lemma {:induction false} SpuriousAlone(s: State, t: nat, spurious: nat) returns (acts: seq<Action>, s': State)
    requires Inv(s) && HeadsSeen(s) && t < |s.producers| && s.producers[t].Reserve?
    requires s.producers[t].head == s.head && s.producers[t].tail == s.tail
    ensures Ends(s, t, HasRoom(s), acts, s')
    decreases spurious
  {
    if spurious == 0 || !HasRoom(s) {
      acts, s' := DecidedAlone(s, t);
    } else {
      var s1 := FailOnce(s, t, true);
      var s2 := RefreshOnce(s1, t);
      acts, s' := SpuriousAlone(s2, t, spurious - 1);
      Continue(s1, t, Produce(t, ReadTail), HasRoom(s), acts, s');
      acts := [Produce(t, ReadTail)] + acts;
      Continue(s, t, Produce(t, TryReserve(true)), HasRoom(s), acts, s');
      acts := [Produce(t, TryReserve(true))] + acts;
    }
  }

  /**
    From any attempt in any reachable state, and after any number of spurious failures: with no
    other thread moving, an acquire that its observed cursors do not refuse is granted exactly if
    a slot is free, even if the head that it holds is far behind.
   */
  lemma RetryAlone(s: State, t: nat, spurious: nat) returns (acts: seq<Action>, s': State)
    requires Inv(s) && HeadsSeen(s) && t < |s.producers| && s.producers[t].Reserve?
    ensures Ends(s, t, Granted(s, s.producers[t]), acts, s')
  {
    var p := s.producers[t];
    assert ProducerOk(s, p);
    if NoSlot(s, p.tail, p.head) || (p.head == s.head && spurious == 0) {
      acts, s' := DecidedAlone(s, t);
    } else {
      var again := p.head == s.head;
      var s1 := FailOnce(s, t, again);
      acts, s' := FromRefresh(s1, t, if again then spurious - 1 else spurious);
      Continue(s, t, Produce(t, TryReserve(again)), HasRoom(s), acts, s');
      acts := [Produce(t, TryReserve(again))] + acts;
    }
  }

  lemma FromRefresh(s: State, t: nat, spurious: nat) returns (acts: seq<Action>, s': State)
    requires Inv(s) && HeadsSeen(s) && t < |s.producers| && s.producers[t].Refresh? && s.producers[t].head == s.head
    ensures Ends(s, t, HasRoom(s), acts, s')
  {
    var s1 := RefreshOnce(s, t);
    acts, s' := SpuriousAlone(s1, t, spurious);
    Continue(s, t, Produce(t, ReadTail), HasRoom(s), acts, s');
    acts := [Produce(t, ReadTail)] + acts;
  }

  /** From where the tail is read: the acquire then goes by the head of now. */
  lemma FromLoadHead(s: State, t: nat) returns (acts: seq<Action>, s': State)
    requires Inv(s) && HeadsSeen(s) && t < |s.producers| && s.producers[t].LoadHead?
    ensures Ends(s, t, Granted(s, s.producers[t]), acts, s')
  {
    var a := Produce(t, ReadHead);
    assert ProducerOk(s, s.producers[t]);
    StepInv(s, a);
    StepHeads(s, a);
    acts, s' := DecidedAlone(Apply(s, a), t);
    Continue(s, t, a, Granted(s, s.producers[t]), acts, s');
    acts := [a] + acts;
  }

  // ---------------------------------------------------------------- refused while the queue is empty

  /** Producer 0 has read the tail 0 and waits; producer 1 is idle, and nothing is in the queue. */
  ghost predicate Waiting(slotCount: nat, acts: seq<Action>, s: State, len: nat) {
    && slotCount > 0 && Steps(Init(slotCount, 2), acts, s) && Inv(s) && HeadsSeen(s) && |s.slots| == slotCount
    && s.producers == [LoadHead(len, 0), Idle] && s.consumer.pc.Ready? && s.released == |s.log|
  }

  /** While it waits, one more packet of producer 1 passes the queue. */
  lemma PassAnother(slotCount: nat, acts: seq<Action>, s: State, len: nat) returns (acts': seq<Action>, s': State)
    requires Waiting(slotCount, acts, s, len)
    ensures Waiting(slotCount, acts', s', len) && |s'.log| == |s.log| + 1
  {
    var send, s1 := SendAlone(s, 1, 1);
    var receive;
    receive, s' := ReceiveAlone(s1);
    acts' := acts + send + receive;
    RunHeads(s, send, s1);
    RunHeads(s1, receive, s');
    StepsConcat(Init(slotCount, 2), acts, s, send, s1);
    StepsConcat(Init(slotCount, 2), acts + send, s1, receive, s');
  }

  lemma {:induction false} PassUntilFull(slotCount: nat, acts: seq<Action>, s: State, len: nat)
      returns (acts': seq<Action>, s': State)
    requires Waiting(slotCount, acts, s, len)
    ensures Waiting(slotCount, acts', s', len) && |s'.log| >= slotCount
    decreases slotCount - |s.log|
  {
    if |s.log| >= slotCount {
      acts', s' := acts, s;
    } else {
      acts', s' := PassAnother(slotCount, acts, s, len);
      acts', s' := PassUntilFull(slotCount, acts', s', len);
    }
  }

  lemma StartWaiting(slotCount: nat, packetLen: nat) returns (acts: seq<Action>, s: State)
    requires slotCount > 0 && 0 < packetLen <= MAX_PAYLOAD
    ensures Waiting(slotCount, acts, s, EntryLength(packetLen))
  {
    var s0, a1, a2 := Init(slotCount, 2), Produce(0, AcquireStart(packetLen)), Produce(0, ReadTail);
    var s1 := Apply(s0, a1);
    s := Apply(s1, a2);
    acts := [a1] + [a2];
    OneStep(s0, a1);
    ThenOneStep(s0, [a1], s1, a2);
    InitInv(slotCount, 2);
    RunInv(s0, acts, s);
    assert s0.producers == [Idle, Idle];
  }

  /**
    A packet can be lost while the queue is empty, whatever the number of slots: a tail that was
    read long before the head refuses the first attempt, and only a failed swap reads it again.
   */
  lemma RefusedWhileEmpty(slotCount: nat, packetLen: nat)
      returns (acts: seq<Action>, s: State, rest: seq<Action>, s': State)
    requires slotCount > 0 && 0 < packetLen <= MAX_PAYLOAD
    ensures Steps(Init(slotCount, 2), acts, s) && s.released == |s.log| && HasRoom(s)
    ensures s.producers == [LoadHead(EntryLength(packetLen), 0), Idle] && s'.producers == [Idle, Idle]
    ensures Steps(s, rest, s') && s'.log == s.log && s'.released == s.released && s'.lost == s.lost + 1
  {
    acts, s := StartWaiting(slotCount, packetLen);
    acts, s := PassUntilFull(slotCount, acts, s, EntryLength(packetLen));
    rest, s' := FromLoadHead(s, 0);
    assert s'.producers == [Idle, Idle];
  }
}
