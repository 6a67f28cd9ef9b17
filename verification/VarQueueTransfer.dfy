/** A packet on its way through the variable-size queue: what the producer writes is what the consumer gets. */
module VarQueueTransfer {
  import opened Bytes
  import opened QueueEntry
  import opened VarQueue
  import opened VarQueueConsumer
  import opened VarQueueDelivery
  import opened VarQueueMemory
  import opened VarQueueAlone

  /**
    The payload of an entry is what its producer writes: in every reachable state a step changes it
    only if it is the owner's store, then in that byte only, and never once it is committed.
   */
  lemma PayloadOnlyByOwner(s: State, a: Action, e: nat)
    requires Inv(s) && Enabled(s, a) && e < |s.log|
    ensures var s' := Apply(s, a);
      && e < |s'.log| && s'.log[e].len == s.log[e].len
      && if a.Produce? && a.p.WriteByte? && s.producers[a.t].e == e then
           && s.log[e].stage == Marked && a.p.off < |s.log[e].payload|
           && s'.log[e].payload == s.log[e].payload[a.p.off := a.p.val]
         else s'.log[e].payload == s.log[e].payload
  {
    if a.Produce? {
      ProducerPayload(s, a.t, a.p, e);
    }
  }

  lemma ProducerPayload(s: State, t: nat, step: ProducerStep, e: nat)
    requires t < |s.producers| && ProducerOk(s, s.producers[t]) && ProducerEnabled(s, s.producers[t], step)
    requires e < |s.log|
    ensures var log := ProducerEffect(s, s.producers[t], step).log;
      && e < |log| && log[e].len == s.log[e].len
      && if step.WriteByte? && s.producers[t].e == e then
           s.log[e].stage == Marked && log[e].payload == s.log[e].payload[step.off := step.val]
         else log[e].payload == s.log[e].payload
  {
  }

  /** The entry when `data` has been written into it from byte `k` on. */
  function Filled(e: Entry, data: seq<Byte>, k: nat): Entry
    requires k <= |data| <= |e.payload|
  {
    e.(payload := e.payload[..k] + data[k..] + e.payload[|data|..])
  }

  /** `s'` is `s`, but that producer `t` has written `data` from byte `k` on. */
  ghost predicate Wrote(s: State, t: nat, data: seq<Byte>, k: nat, s': State) {
    && t < |s.producers| && s.producers[t].Fill? && s.producers[t].e < |s.log|
    && k <= |data| <= |s.log[s.producers[t].e].payload|
    && var e := s.producers[t].e; s' == s.(buf := s'.buf, log := s.log[e := Filled(s.log[e], data, k)])
  }

  lemma FilledOne(e: Entry, data: seq<Byte>, k: nat)
    requires k < |data| <= |e.payload|
    ensures Filled(e.(payload := e.payload[k := data[k]]), data, k + 1) == Filled(e, data, k)
  {
  }

  /** One byte, and the rest of them. */
  lemma WroteOne(s: State, t: nat, data: seq<Byte>, k: nat, s': State)
    requires Inv(s) && t < |s.producers| && s.producers[t].Fill? && k < |data|
    requires s.producers[t].e < |s.log| && |data| <= |s.log[s.producers[t].e].payload|
    ensures var a := Produce(t, WriteByte(k, data[k]));
      && Enabled(s, a) && Apply(s, a).producers == s.producers && |Apply(s, a).log| == |s.log|
      && |Apply(s, a).log[s.producers[t].e].payload| == |s.log[s.producers[t].e].payload|
      && (Wrote(Apply(s, a), t, data, k + 1, s') ==> Wrote(s, t, data, k, s'))
  {
    NeverOutOfBounds(s, t);
    var i := s.producers[t].e;
    var s1 := Apply(s, Produce(t, WriteByte(k, data[k])));
    assert s1.producers == s.producers;
    FilledOne(s.log[i], data, k);
    var e := Filled(s.log[i], data, k);
    assert s1.log[i := e] == s.log[i := e];
  }

  lemma {:induction false} FillFrom(s: State, t: nat, data: seq<Byte>, k: nat) returns (acts: seq<Action>, s': State)
    requires Inv(s) && t < |s.producers| && s.producers[t].Fill? && k <= |data|
    requires s.producers[t].e < |s.log| && |data| <= |s.log[s.producers[t].e].payload|
    ensures Steps(s, acts, s') && Inv(s') && Wrote(s, t, data, k, s')
    decreases |data| - k
  {
    if k == |data| {
      acts, s' := [], s;
      var payload := s.log[s.producers[t].e].payload;
      assert payload == payload[..k] + data[k..] + payload[|data|..];
    } else {
      var a := Produce(t, WriteByte(k, data[k]));
      WroteOne(s, t, data, k, s);
      StepInv(s, a);
      var rest;
      rest, s' := FillFrom(Apply(s, a), t, data, k + 1);
      WroteOne(s, t, data, k, s');
      ConsSteps(s, a, Apply(s, a), rest, s');
      acts := [a] + rest;
    }
  }

  /** `s'` is `s`, but that producer `t` has pushed its entry, filled with `data`. */
  ghost predicate Pushed(s: State, t: nat, data: seq<Byte>, s': State) {
    && t < |s.producers| && s.producers[t].Fill? && s.producers[t].e < |s.log|
    && |data| <= |s.log[s.producers[t].e].payload|
    && var i := s.producers[t].e;
       s' == s.(buf := s'.buf, producers := s.producers[t := Idle],
                log := s.log[i := Filled(s.log[i], data, 0).(stage := Committed)])
  }

  lemma PushFilled(s: State, s1: State, t: nat, data: seq<Byte>)
    requires Wrote(s, t, data, 0, s1) && Inv(s1)
    ensures Enabled(s1, Produce(t, Push)) && Pushed(s, t, data, Apply(s1, Produce(t, Push)))
  {
    NeverOutOfBounds(s1, t);
    var i := s.producers[t].e;
    var s2 := Apply(s1, Produce(t, Push));
    assert s2.log == s.log[i := Filled(s.log[i], data, 0).(stage := Committed)];
  }

  /** An entry is filled and pushed. */
  lemma FillAndPush(s: State, t: nat, data: seq<Byte>) returns (acts: seq<Action>, s': State)
    requires Inv(s) && t < |s.producers| && s.producers[t].Fill?
    requires s.producers[t].e < |s.log| && |data| <= |s.log[s.producers[t].e].payload|
    ensures Steps(s, acts, s') && Inv(s') && Pushed(s, t, data, s')
  {
    var fill, s1 := FillFrom(s, t, data, 0);
    var push := Produce(t, Push);
    PushFilled(s, s1, t, data);
    StepInv(s1, push);
    ThenOneStep(s, fill, s1, push);
    acts, s' := fill + [push], Apply(s1, push);
  }

  /** `s'` is `s` with one more committed entry, which begins with `data`. */
  ghost predicate Appended(s: State, data: seq<Byte>, s': State) {
    && s'.size == s.size && s'.producers == s.producers && s'.consumer == s.consumer
    && s'.released == s.released && s'.received == s.received && s'.lost == s.lost
    && |s'.log| == |s.log| + 1 && s'.log[..|s.log|] == s.log
    && s'.log[|s.log|].stage == Committed && data <= s'.log[|s.log|].payload
  }

  lemma PushedAppends(s: State, t: nat, data: seq<Byte>, len: nat, s': State)
    requires Sized(s.size, s.buf) && t < |s.producers| && s.producers[t].Idle? && ValidLength(len, MAX_PAYLOAD)
    requires HasRoom(s, len) && Pushed(AcquireResult(s, t, len), t, data, s')
    ensures Appended(s, data, s')
  {
    assert s'.producers == s.producers;
    assert s'.log[..|s.log|] == s.log;
  }

  /** A packet with these bytes is acquired, filled and pushed, with no other thread moving. */
  lemma SendDataAlone(s: State, t: nat, data: seq<Byte>) returns (acts: seq<Action>, s': State)
    requires Inv(s) && t < |s.producers| && s.producers[t].Idle?
    requires 0 < |data| <= 1024 && HasRoom(s, EntryLength(|data|))
    ensures Steps(s, acts, s') && Inv(s') && Appended(s, data, s')
  {
    var len := EntryLength(|data|);
    EntryLengthFits(|data|, MAX_PAYLOAD);
    AcquireAlone(s, t, |data|, len);
    var acquire, s1 := DecideSteps(t, |data|) + [SettleStep(t, true)], AcquireResult(s, t, len);
    RunInv(s, acquire, s1);
    assert s1.producers[t].Fill? && s1.producers[t].e == |s.log|;
    var fill;
    fill, s' := FillAndPush(s1, t, data);
    PushedAppends(s, t, data, len, s');
    StepsConcat(s, acquire, s1, fill, s');
    acts := acquire + fill;
  }

  /** Through an empty buffer, in any reachable state: the bytes that were sent are the bytes that are received. */
  lemma TransferAlone(s: State, t: nat, data: seq<Byte>) returns (acts: seq<Action>, s': State)
    requires Inv(s) && t < |s.producers| && s.producers[t].Idle? && s.consumer.pc.Ready?
    requires s.released == |s.log| && 0 < |data| <= 1024
    ensures Steps(s, acts, s') && Inv(s') && s'.producers == s.producers && s'.released == |s'.log|
    ensures |s'.received| == |s.received| + 1 && s'.received[..|s.received|] == s.received
    ensures data <= s'.received[|s.received|]
  {
    EntryLengthFits(|data|, MAX_PAYLOAD);
    var send, s1 := SendDataAlone(s, t, data);
    var receive;
    receive, s' := ReceiveAlone(s1);
    acts := send + receive;
    StepsConcat(s, send, s1, receive, s');
  }

  /** The consumer can write its header in front of the payload of every buffer that it has peeked. */
  lemma UserHeaderWritten(s: State, m: nat, off: nat, val: Byte)
    requires Inv(s) && s.consumer.pc.Ready? && m in s.consumer.bufs && m >= s.released && off < 4
    ensures Enabled(s, Consume(WriteUserHeader(m, off, val)))
    ensures var s', at := Apply(s, Consume(WriteUserHeader(m, off, val))), s.consumer.bufs[m].off + off;
      |s'.buf| == |s.buf| && forall x :: 0 <= x < |s.buf| ==> s'.buf[x] == if x == at then val else s.buf[x]
  {
    assert BufferOk(s, m, s.consumer.bufs[m]);
    Fits(s, m);
    assert EntryOk(s.log[m]);
  }
}
