/** The calls of the fixed-size queue as one thread runs them while no other moves. */
module FixQueueAlone {
  import opened QueueEntry
  import opened FixQueue
  import opened FixQueueConsumer
  import opened FixQueueDelivery

  lemma OneStep(s: State, a: Action)
    requires Enabled(s, a)
    ensures Steps(s, [a], Apply(s, a))
  {
    assert Steps(Apply(s, a), [a][1..], Apply(s, a));
  }

  lemma {:induction false} StepsConcat(s: State, acts: seq<Action>, s': State, more: seq<Action>, s'': State)
    requires Steps(s, acts, s') && Steps(s', more, s'')
    ensures Steps(s, acts + more, s'')
    decreases |acts|
  {
    if acts == [] {
      assert acts + more == more;
    } else {
      StepsConcat(Apply(s, acts[0]), acts[1..], s', more, s'');
      assert (acts + more)[1..] == acts[1..] + more;
    }
  }

  lemma ThenOneStep(s: State, acts: seq<Action>, s': State, a: Action)
    requires Steps(s, acts, s') && Enabled(s', a)
    ensures Steps(s, acts + [a], Apply(s', a))
  {
    OneStep(s', a);
    StepsConcat(s, acts, s', [a], Apply(s', a));
  }

  // ---------------------------------------------------------------- acquire and push

  /** A slot is free. */
  predicate HasRoom(s: State) { |s.log| < s.released + |s.slots| }

  /** The state in which a producer decides: it has seen both cursors. */
  function Deciding(s: State, t: nat, len: nat): State
    requires t < |s.producers|
  {
    s.(producers := s.producers[t := Reserve(len, s.tail, s.head)], acquires := s.acquires + 1)
  }

  lemma DecideAlone(s: State, t: nat, packetLen: nat) returns (acts: seq<Action>)
    requires t < |s.producers| && s.producers[t].Idle? && 0 < packetLen <= MAX_PAYLOAD
    ensures Steps(s, acts, Deciding(s, t, EntryLength(packetLen)))
  {
    var a1, a2, a3 := Produce(t, AcquireStart(packetLen)), Produce(t, ReadTail), Produce(t, ReadHead);
    var s1 := Apply(s, a1);
    var s2 := Apply(s1, a2);
    OneStep(s, a1);
    ThenOneStep(s, [a1], s1, a2);
    ThenOneStep(s, [a1] + [a2], s2, a3);
    acts := [a1] + [a2] + [a3];
    assert Apply(s2, a3) == Deciding(s, t, EntryLength(packetLen));
  }

  /** What the compare-and-swap does when nothing intervenes: it succeeds exactly if a slot is free. */
  lemma SwapAlone(s: State, t: nat)
    requires Inv(s) && t < |s.producers| && s.producers[t].Reserve?
    requires s.producers[t].tail == s.tail && s.producers[t].head == s.head
    ensures ProducerEnabled(s, s.producers[t], TryReserve(false))
    ensures var s', p := Apply(s, Produce(t, TryReserve(false))), s.producers[t];
      if HasRoom(s) then
        && s'.producers[t] == Mark(|s.log|, |s.log| % |s.slots|, p.len) && s'.head == s.head + SLOT_SIZE
        && |s'.log| == |s.log| + 1 && s'.log[..|s.log|] == s.log && s'.lost == s.lost
      else s' == s.(producers := s.producers[t := Overrun])
  {
    NeverOutOfBounds(s, t);
    assert ProducerOk(s, s.producers[t]);
    OverrunIsFull(|s.slots|, s.producers[t].len, s.tail, s.head);
    SlotOfEntry(|s.log|, |s.slots|);
  }

  /** The first four steps of an acquire. */
  lemma TryAlone(s: State, t: nat, packetLen: nat) returns (acts: seq<Action>, s': State)
    requires Inv(s) && t < |s.producers| && s.producers[t].Idle? && 0 < packetLen <= MAX_PAYLOAD
    ensures Steps(s, acts, s') && Inv(s') && s'.consumer == s.consumer && s'.released == s.released
    ensures |s'.slots| == |s.slots| && s'.slots == s.slots && s'.lost == s.lost && |s'.producers| == |s.producers|
    ensures HasRoom(s) ==>
      && s'.producers == s.producers[t := Mark(|s.log|, |s.log| % |s.slots|, EntryLength(packetLen))]
      && |s'.log| == |s.log| + 1 && s'.log[..|s.log|] == s.log
    ensures !HasRoom(s) ==> s'.producers == s.producers[t := Overrun] && s'.log == s.log
  {
    var first := DecideAlone(s, t, packetLen);
    var s1 := Deciding(s, t, EntryLength(packetLen));
    RunInv(s, first, s1);
    SwapAlone(s1, t);
    var swap := Produce(t, TryReserve(false));
    s' := Apply(s1, swap);
    StepInv(s1, swap);
    ThenOneStep(s, first, s1, swap);
    acts := first + [swap];
    assert HasRoom(s) ==> s'.producers == s.producers[t := s'.producers[t]];
    assert !HasRoom(s) ==> s'.producers == s.producers[t := Overrun];
  }

  /** The last one: the reserved header, or the lost count. */
  lemma SettleAlone(s: State, t: nat) returns (a: Action)
    requires Inv(s) && t < |s.producers| && (s.producers[t].Mark? || s.producers[t].Overrun?)
    ensures Enabled(s, a) && Inv(Apply(s, a))
    ensures var s', p := Apply(s, a), s.producers[t];
      && s'.consumer == s.consumer && s'.released == s.released && |s'.slots| == |s.slots| && |s'.log| == |s.log|
      && if p.Mark? then
           && s'.producers == s.producers[t := Fill(p.e, p.slot, p.len)] && s'.lost == s.lost
           && forall j :: 0 <= j < |s.log| && j != p.e ==> s'.log[j] == s.log[j]
         else s'.producers == s.producers[t := Idle] && s'.log == s.log && s'.slots == s.slots && s'.lost == s.lost + 1
  {
    NeverOutOfBounds(s, t);
    a := Produce(t, if s.producers[t].Mark? then StoreReserved else CountLost);
    StepInv(s, a);
  }

  /** With no thread moving, an acquire is granted exactly if a slot is free; otherwise it is counted as lost. */
  lemma AcquireAlone(s: State, t: nat, packetLen: nat) returns (acts: seq<Action>, s': State)
    requires Inv(s) && t < |s.producers| && s.producers[t].Idle? && 0 < packetLen <= MAX_PAYLOAD
    ensures Steps(s, acts, s') && Inv(s') && |s'.producers| == |s.producers| && s'.consumer == s.consumer
    ensures s'.released == s.released && |s'.slots| == |s.slots|
    ensures HasRoom(s) ==>
      && s'.producers == s.producers[t := Fill(|s.log|, |s.log| % |s.slots|, EntryLength(packetLen))]
      && |s'.log| == |s.log| + 1 && s'.log[..|s.log|] == s.log && s'.lost == s.lost
    ensures !HasRoom(s) ==>
      s'.producers == s.producers && s'.log == s.log && s'.slots == s.slots && s'.lost == s.lost + 1
  {
    var first, s1 := TryAlone(s, t, packetLen);
    var last := SettleAlone(s1, t);
    ThenOneStep(s, first, s1, last);
    acts, s' := first + [last], Apply(s1, last);
    if HasRoom(s) {
      assert s'.producers == s.producers[t := Fill(|s.log|, |s.log| % |s.slots|, EntryLength(packetLen))];
      assert s'.log[..|s.log|] == s1.log[..|s.log|];
    } else {
      assert s'.producers == s.producers;
    }
  }

  /** A granted acquire and its push put one committed entry at the end and change nothing before it. */
  lemma SendAlone(s: State, t: nat, packetLen: nat) returns (acts: seq<Action>, s': State)
    requires Inv(s) && t < |s.producers| && s.producers[t].Idle? && 0 < packetLen <= MAX_PAYLOAD && HasRoom(s)
    ensures Steps(s, acts, s') && Inv(s') && s'.producers == s.producers && s'.consumer == s.consumer
    ensures s'.released == s.released && |s'.slots| == |s.slots|
    ensures |s'.log| == |s.log| + 1 && s'.log[..|s.log|] == s.log && s'.log[|s.log|].stage == Committed
  {
    var acquire, s1 := AcquireAlone(s, t, packetLen);
    var push := Produce(t, Push);
    NeverOutOfBounds(s1, t);
    s' := Apply(s1, push);
    StepInv(s1, push);
    ThenOneStep(s, acquire, s1, push);
    acts := acquire + [push];
    assert s'.producers == s.producers;
  }

  // ---------------------------------------------------------------- peek and release

  /** What the last step of a peek makes of the consumer. */
  function Peeked(s: State, index: nat): Consumer {
    var j := s.released + index;
    if j < |s.log| && s.log[j].stage == Committed then
      s.consumer.(bufs := s.consumer.bufs[j := Buffer(s.log[j].slot, s.log[j].len)])
    else s.consumer
  }

  lemma PeekDecides(s: State, index: nat)
    requires Inv(s) && s.consumer.pc == PeekEntry(index, s.head)
    ensures ConsumerEnabled(s, PeekReadEntry) && ConsumerAfter(s, PeekReadEntry) == Peeked(s, index).(pc := Ready)
  {
    SlotOfEntry(s.released + index, |s.slots|);
    assert s.tail + index * SLOT_SIZE == (s.released + index) * SLOT_SIZE;
    PeekMeaning(s);
  }

  /** A peek while no producer moves: the entry with this index, exactly if it is there and committed. */
  lemma PeekAlone(s: State, index: nat) returns (acts: seq<Action>, s': State)
    requires Inv(s) && s.consumer.pc.Ready?
    ensures Steps(s, acts, s') && Inv(s') && s' == s.(consumer := Peeked(s, index))
  {
    var a1, a2, a3 := Consume(PeekStart(index, false)), Consume(PeekReadHead), Consume(PeekReadEntry);
    var s1 := Apply(s, a1);
    StepInv(s, a1);
    var s2 := Apply(s1, a2);
    StepInv(s1, a2);
    PeekDecides(s2, index);
    s' := Apply(s2, a3);
    OneStep(s, a1);
    ThenOneStep(s, [a1], s1, a2);
    ThenOneStep(s, [a1] + [a2], s2, a3);
    acts := [a1] + [a2] + [a3];
    StepInv(s2, a3);
  }

  /** In every reachable state whose oldest entry is committed, a peek and a release hand out exactly its payload. */
  lemma ReceiveAlone(s: State) returns (acts: seq<Action>, s': State)
    requires Inv(s) && s.consumer.pc.Ready? && s.released < |s.log| && s.log[s.released].stage == Committed
    ensures Steps(s, acts, s') && Inv(s') && s'.consumer.pc.Ready? && s'.log == s.log && s'.producers == s.producers
    ensures s'.released == s.released + 1 && s'.received == s.received + [s.log[s.released].payload]
  {
    var peek, s1 := PeekAlone(s, 0);
    PeekedIsStable(s1, s1.released);
    var clear, advance := Consume(ClearHeader), Consume(AdvanceTail);
    var s2 := Apply(s1, clear);
    StepInv(s1, clear);
    s' := Apply(s2, advance);
    StepInv(s2, advance);
    ThenOneStep(s, peek, s1, clear);
    ThenOneStep(s, peek + [clear], s2, advance);
    acts := peek + [clear] + [advance];
  }
}
