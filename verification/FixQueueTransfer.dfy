/** A packet on its way through the fixed-size queue: what the producer writes is what the consumer gets. */
module FixQueueTransfer {
  import opened Bytes
  import opened QueueEntry
  import opened FixQueue
  import opened FixQueueConsumer
  import opened FixQueueDelivery
  import opened FixQueueAlone

  /**
    The payload of an entry is what its producer writes: in every reachable state a step changes it
    only if it is the owner's store, then in that byte only, and never once it is committed.
   */
  lemma PayloadOnlyByOwner(s: State, a: Action, e: nat)
    requires Inv(s) && Enabled(s, a) && e < |s.log|
    ensures var s' := Apply(s, a);
      && e < |s'.log| && s'.log[e].len == s.log[e].len
      && if a.Produce? && a.p.WriteByte? && s.producers[a.t].e == e then
           && s.log[e].stage == Marked && a.p.off < |s.log[e].payload|
           && s'.log[e].payload == s.log[e].payload[a.p.off := a.p.val]
         else s'.log[e].payload == s.log[e].payload
  {
    if a.Produce? {
      ProducerPayload(s, a.t, a.p, e);
    }
  }

  lemma ProducerPayload(s: State, t: nat, step: ProducerStep, e: nat)
    requires t < |s.producers| && ProducerOk(s, s.producers[t]) && ProducerEnabled(s, s.producers[t], step)
    requires e < |s.log|
    ensures var log := ProducerEffect(s, s.producers[t], step).log;
      && e < |log| && log[e].len == s.log[e].len
      && if step.WriteByte? && s.producers[t].e == e then
           s.log[e].stage == Marked && log[e].payload == s.log[e].payload[step.off := step.val]
         else log[e].payload == s.log[e].payload
  {
  }

  /** The entry when `data` has been written into it from byte `k` on. */
  function Filled(e: Entry, data: seq<Byte>, k: nat): Entry
    requires k <= |data| <= |e.payload|
  {
    e.(payload := e.payload[..k] + data[k..] + e.payload[|data|..])
  }

  /** `s'` is `s`, but that producer `t` has written `data` from byte `k` on. */
  ghost predicate Wrote(s: State, t: nat, data: seq<Byte>, k: nat, s': State) {
    && t < |s.producers| && s.producers[t].Fill? && s.producers[t].e < |s.log|
    && k <= |data| <= |s.log[s.producers[t].e].payload|
    && |s'.slots| == |s.slots|
    && var e := s.producers[t].e; s' == s.(slots := s'.slots, log := s.log[e := Filled(s.log[e], data, k)])
  }

  lemma FilledOne(e: Entry, data: seq<Byte>, k: nat)
    requires k < |data| <= |e.payload|
    ensures Filled(e.(payload := e.payload[k := data[k]]), data, k + 1) == Filled(e, data, k)
  {
  }

  /** One byte, and the rest of them. */
  lemma WroteOne(s: State, t: nat, data: seq<Byte>, k: nat, s': State)
    requires Inv(s) && t < |s.producers| && s.producers[t].Fill? && k < |data|
    requires s.producers[t].e < |s.log| && |data| <= |s.log[s.producers[t].e].payload|
    ensures var a := Produce(t, WriteByte(k, data[k]));
      && Enabled(s, a) && Apply(s, a).producers == s.producers && |Apply(s, a).log| == |s.log|
      && |Apply(s, a).log[s.producers[t].e].payload| == |s.log[s.producers[t].e].payload|
      && (Wrote(Apply(s, a), t, data, k + 1, s') ==> Wrote(s, t, data, k, s'))
  {
    NeverOutOfBounds(s, t);
    var i := s.producers[t].e;
    var s1 := Apply(s, Produce(t, WriteByte(k, data[k])));
    assert s1.producers == s.producers;
    FilledOne(s.log[i], data, k);
    var e := Filled(s.log[i], data, k);
    assert s1.log[i := e] == s.log[i := e];
  }

  lemma {:induction false} FillFrom(s: State, t: nat, data: seq<Byte>, k: nat) returns (acts: seq<Action>, s': State)
    requires Inv(s) && t < |s.producers| && s.producers[t].Fill? && k <= |data|
    requires s.producers[t].e < |s.log| && |data| <= |s.log[s.producers[t].e].payload|
    ensures Steps(s, acts, s') && Inv(s') && Wrote(s, t, data, k, s')
    decreases |data| - k
  {
    if k == |data| {
      acts, s' := [], s;
      var payload := s.log[s.producers[t].e].payload;
      assert payload == payload[..k] + data[k..] + payload[|data|..];
    } else {
      var a := Produce(t, WriteByte(k, data[k]));
      WroteOne(s, t, data, k, s);
      StepInv(s, a);
      acts, s' := FillFrom(Apply(s, a), t, data, k + 1);
      WroteOne(s, t, data, k, s');
      OneStep(s, a);
      StepsConcat(s, [a], Apply(s, a), acts, s');
      acts := [a] + acts;
    }
  }

  /** `s'` is `s`, but that producer `t` has pushed its entry, filled with `data`. */
  ghost predicate Pushed(s: State, t: nat, data: seq<Byte>, s': State) {
    && t < |s.producers| && s.producers[t].Fill? && s.producers[t].e < |s.log|
    && |data| <= |s.log[s.producers[t].e].payload| && |s'.slots| == |s.slots|
    && var i := s.producers[t].e;
       s' == s.(slots := s'.slots, producers := s.producers[t := Idle],
                log := s.log[i := Filled(s.log[i], data, 0).(stage := Committed)])
  }

  lemma PushFilled(s: State, s1: State, t: nat, data: seq<Byte>)
    requires Wrote(s, t, data, 0, s1) && Inv(s1)
    ensures Enabled(s1, Produce(t, Push)) && Pushed(s, t, data, Apply(s1, Produce(t, Push)))
  {
    NeverOutOfBounds(s1, t);
    var i := s.producers[t].e;
    var s2 := Apply(s1, Produce(t, Push));
    assert s2.log == s.log[i := Filled(s.log[i], data, 0).(stage := Committed)];
  }

  /** An entry is filled and pushed. */
  lemma FillAndPush(s: State, t: nat, data: seq<Byte>) returns (acts: seq<Action>, s': State)
    requires Inv(s) && t < |s.producers| && s.producers[t].Fill?
    requires s.producers[t].e < |s.log| && |data| <= |s.log[s.producers[t].e].payload|
    ensures Steps(s, acts, s') && Inv(s') && Pushed(s, t, data, s')
  {
    var fill, s1 := FillFrom(s, t, data, 0);
    var push := Produce(t, Push);
    PushFilled(s, s1, t, data);
    StepInv(s1, push);
    ThenOneStep(s, fill, s1, push);
    acts, s' := fill + [push], Apply(s1, push);
  }

  /** `s'` is `s` with one more committed entry, which begins with `data`. */
  ghost predicate Appended(s: State, data: seq<Byte>, s': State) {
    && |s'.slots| == |s.slots| && s'.producers == s.producers && s'.consumer == s.consumer
    && s'.released == s.released && s'.lost == s.lost
    && |s'.log| == |s.log| + 1 && s'.log[..|s.log|] == s.log
    && s'.log[|s.log|].stage == Committed && data <= s'.log[|s.log|].payload
  }

  lemma PushedAppends(s: State, s1: State, t: nat, data: seq<Byte>, s': State)
    requires t < |s.producers| && s.producers[t].Idle? && |s1.slots| == |s.slots| && s1.consumer == s.consumer
    requires |s1.producers| == |s.producers| && s1.producers[t].Fill? && s1.producers[t].e == |s.log|
    requires s1.producers == s.producers[t := s1.producers[t]] && s1.released == s.released && s1.lost == s.lost
    requires |s1.log| == |s.log| + 1 && s1.log[..|s.log|] == s.log && Pushed(s1, t, data, s')
    ensures Appended(s, data, s')
  {
    assert s'.producers == s.producers;
    assert s'.log[..|s.log|] == s1.log[..|s.log|];
  }

  /** A packet with these bytes is acquired, filled and pushed, with no other thread moving. */
  lemma SendDataAlone(s: State, t: nat, data: seq<Byte>) returns (acts: seq<Action>, s': State)
    requires Inv(s) && t < |s.producers| && s.producers[t].Idle? && 0 < |data| <= 248 && HasRoom(s)
    ensures Steps(s, acts, s') && Inv(s') && Appended(s, data, s')
  {
    EntryLengthFits(|data|, MAX_PAYLOAD);
    var s1;
    acts, s1 := AcquireAlone(s, t, |data|);
    NeverOutOfBounds(s1, t);
    assert ProducerOk(s1, s1.producers[t]);
    var fill;
    fill, s' := FillAndPush(s1, t, data);
    StepsConcat(s, acts, s1, fill, s');
    acts := acts + fill;
    PushedAppends(s, s1, t, data, s');
  }

  /** Through an empty queue, in any reachable state: the bytes that were sent are the bytes that are received. */
  lemma TransferAlone(s: State, t: nat, data: seq<Byte>) returns (acts: seq<Action>, s': State)
    requires Inv(s) && t < |s.producers| && s.producers[t].Idle? && s.consumer.pc.Ready?
    requires s.released == |s.log| && 0 < |data| <= 248
    ensures Steps(s, acts, s') && Inv(s') && s'.producers == s.producers && s'.released == |s'.log|
    ensures |s'.received| > 0 && data <= s'.received[|s'.received| - 1]
  {
    var send, s1 := SendDataAlone(s, t, data);
    var receive;
    receive, s' := ReceiveAlone(s1);
    acts := send + receive;
    StepsConcat(s, send, s1, receive, s');
  }

  /** The consumer can write its header in front of the payload of every buffer that it has peeked. */
  lemma UserHeaderWritten(s: State, m: nat, off: nat, val: Byte)
    requires Inv(s) && s.consumer.pc.Ready? && m in s.consumer.bufs && m >= s.released && off < 4
    ensures Enabled(s, Consume(WriteUserHeader(m, off, val)))
    ensures var s', slot := Apply(s, Consume(WriteUserHeader(m, off, val))), s.consumer.bufs[m].slot;
      && |s'.slots| == |s.slots| && slot < |s.slots| && s'.slots[slot].header == s.slots[slot].header
      && off < |s.slots[slot].data| && s'.slots[slot].data == s.slots[slot].data[off := val]
      && forall i :: 0 <= i < |s.slots| && i != slot ==> s'.slots[i] == s.slots[i]
  {
    assert BufferOk(s, m, s.consumer.bufs[m]);
    assert EntryMemory(s, m);
  }
}
