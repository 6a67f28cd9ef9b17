/**
  When an acquire of the variable-size queue is refused: only if its entry does not fit beside the
  tail that the producer has read, however often the compare-and-swap fails before. That tail can
  be long out of date, so that an acquire can be refused while the buffer is empty.
 */
module VarQueueRetry {
  import opened Bytes
  import opened QueueEntry
  import opened VarQueue
  import opened VarQueueConsumer
  import opened VarQueueDelivery
  import opened VarQueueAlone

  /** The head that a producer has observed is never ahead of the real one. */
  ghost predicate HeadsSeen(s: State) {
    forall t :: 0 <= t < |s.producers| && s.producers[t].Reserve? ==> s.producers[t].head <= s.head
  }

  lemma StepHeads(s: State, a: Action)
    requires HeadsSeen(s) && Enabled(s, a)
    ensures HeadsSeen(Apply(s, a))
  {
    forall t | 0 <= t < |s.producers| && Apply(s, a).producers[t].Reserve?
      ensures Apply(s, a).producers[t].head <= Apply(s, a).head
    {
      assert (a.Produce? && a.t == t) || s.producers[t].Reserve?;
    }
  }

  lemma {:induction false} RunHeads(s: State, acts: seq<Action>, s': State)
    requires HeadsSeen(s) && Steps(s, acts, s')
    ensures HeadsSeen(s')
    decreases |acts|
  {
    if acts != [] {
      StepHeads(s, acts[0]);
      RunHeads(Apply(s, acts[0]), acts[1..], s');
    }
  }

  lemma {:induction false} RunSize(s: State, acts: seq<Action>, s': State)
    requires Steps(s, acts, s')
    ensures s'.size == s.size
    decreases |acts|
  {
    if acts != [] {
      RunSize(Apply(s, acts[0]), acts[1..], s');
    }
  }

  /** The entry does not fit between a tail and a head. */
  predicate NoRoom(s: State, len: nat, tail: nat, head: nat) { head - tail + HEADER + len > s.size }

  /**
    Every attempt to reserve: refused exactly if the cursors it has observed leave no room, granted
    exactly if they do and the compare-and-swap succeeds, and repeated with the head of now otherwise.
   */
  lemma AttemptEnds(s: State, t: nat, spurious: bool)
    requires Inv(s) && HeadsSeen(s) && Enabled(s, Produce(t, TryReserve(spurious)))
    ensures var s', p := Apply(s, Produce(t, TryReserve(spurious))), s.producers[t];
      if NoRoom(s, p.len, p.tail, p.head) then s' == s.(producers := s.producers[t := Overrun])
      else if spurious || p.head != s.head then
        s' == s.(producers := s.producers[t := Reserve(p.len, p.tail, s.head)])
      else s'.producers == s.producers[t := Mark(|s.log|, s.head % s.size, p.len)] && s'.lost == s.lost
  {
    assert ProducerOk(s, s.producers[t]);
  }

  /**
    No packet is lost without a reason, in any run: whatever step makes a producer give up, it is
    an attempt to reserve, with cursors that are not ahead of the real ones and leave no room.
   */
  lemma OverrunJustified(size: nat, producerCount: nat, acts: seq<Action>, s: State, a: Action, u: nat)
    requires Sized(size, Zeros(size + MAX_ENTRY + HEADER)) && Steps(Init(size, producerCount), acts, s)
    requires Enabled(s, a) && u < |s.producers| && !s.producers[u].Overrun? && Apply(s, a).producers[u].Overrun?
    ensures var p := s.producers[u];
      && a.Produce? && a.t == u && a.p.TryReserve? && p.Reserve?
      && p.tail <= s.tail && p.head <= s.head && p.head - p.tail + HEADER + p.len > size
  {
    RefinesQueue(size, producerCount, acts, s);
    RunHeads(Init(size, producerCount), acts, s);
    RunSize(Init(size, producerCount), acts, s);
    assert ProducerOk(s, s.producers[u]);
  }

  /** A packet length that is not valid is turned down at once, and nothing is counted. */
  lemma InvalidRefused(s: State, t: nat, packetLen: nat)
    requires t < |s.producers| && s.producers[t].Idle? && (packetLen == 0 || packetLen > 1024)
    ensures Apply(s, Produce(t, AcquireStart(packetLen))) == s
  {
    assert s.producers[t := Idle] == s.producers;
  }

  /**
    Lost packets are neither forgotten nor reported twice, in any run: the ones counted are those
    waiting for the consumer and those handed out, and a peek hands out all or none of them.
   */
  lemma LostAccounted(s: State, a: Action)
    requires Enabled(s, a)
    ensures var s' := Apply(s, a);
      && s'.lost + s'.reported == s.lost + s.reported + (if a.Produce? && a.p.CountLost? then 1 else 0)
      && (if a.Consume? && a.c.PeekStart? && a.c.collectLost then s'.lost == 0 else s'.reported == s.reported)
  {
  }

  // ---------------------------------------------------------------- undisturbed, from any point of an acquire

  /** The state when a producer that wants `len` bytes has ended its acquire, with `tail` as the tail it knows. */
  function AcquireEnd(s: State, t: nat, len: nat, tail: nat): State
    requires t < |s.producers| && Sized(s.size, s.buf) && ValidLength(len, MAX_PAYLOAD)
  {
    var pos := s.head % s.size;
    if s.head - tail + HEADER + len <= s.size then
      s.(head := s.head + HEADER + len,
         buf := Splice(s.buf, pos, Word(len, 0)),
         log := s.log + [Entry(s.head, pos, len, Marked, Zeros(len - USER_HEADER))],
         producers := s.producers[t := Fill(|s.log|, pos, len)])
    else s.(lost := s.lost + 1, producers := s.producers[t := Idle])
  }

  /** `acts` is the rest of the acquire of producer `t`: it ends as the tail that the producer has read decides. */
  ghost predicate Ends(s: State, t: nat, acts: seq<Action>) {
    && t < |s.producers| && (s.producers[t].LoadHead? || s.producers[t].Reserve?)
    && Sized(s.size, s.buf) && ValidLength(s.producers[t].len, MAX_PAYLOAD)
    && Steps(s, acts, AcquireEnd(s, t, s.producers[t].len, s.producers[t].tail))
  }

  lemma TwoSteps(s: State, a1: Action, a2: Action)
    requires Enabled(s, a1) && Enabled(Apply(s, a1), a2)
    ensures Steps(s, [a1] + [a2], Apply(Apply(s, a1), a2))
  {
    OneStep(Apply(s, a1), [a2], Apply(Apply(s, a1), a2));
    ConsSteps(s, a1, Apply(s, a1), [a2], Apply(Apply(s, a1), a2));
  }

  lemma RefusedAlone(s: State, t: nat) returns (acts: seq<Action>)
    requires Inv(s) && t < |s.producers| && s.producers[t].Reserve? && s.producers[t].head <= s.head
    requires var p := s.producers[t]; NoRoom(s, p.len, p.tail, p.head)
    ensures Ends(s, t, acts) && |acts| == 2
  {
    assert ProducerOk(s, s.producers[t]);
    var try, count := Produce(t, TryReserve(false)), Produce(t, CountLost);
    assert Apply(Apply(s, try), count) == AcquireEnd(s, t, s.producers[t].len, s.producers[t].tail);
    TwoSteps(s, try, count);
    acts := [try] + [count];
  }

  lemma GrantedState(s: State, s1: State, t: nat)
    requires Inv(s) && t < |s.producers| && s.producers[t].Reserve? && s.producers[t].head == s.head
    requires var p := s.producers[t]; !NoRoom(s, p.len, p.tail, p.head)
    requires Enabled(s, Produce(t, TryReserve(false))) && s1 == Apply(s, Produce(t, TryReserve(false)))
    ensures var p := s.producers[t];
      && ValidLength(p.len, MAX_PAYLOAD) && Enabled(s1, Produce(t, StoreReserved))
      && Apply(s1, Produce(t, StoreReserved)) == AcquireEnd(s, t, p.len, p.tail)
  {
    var p := s.producers[t];
    assert ProducerOk(s, p);
    assert s1.producers[t] == Mark(|s.log|, s.head % s.size, p.len);
    var s2 := Apply(s1, Produce(t, StoreReserved));
    assert s2.log == AcquireEnd(s, t, p.len, p.tail).log;
  }

  lemma GrantedAlone(s: State, t: nat) returns (acts: seq<Action>)
    requires Inv(s) && t < |s.producers| && s.producers[t].Reserve? && s.producers[t].head == s.head
    requires var p := s.producers[t]; !NoRoom(s, p.len, p.tail, p.head)
    ensures Ends(s, t, acts) && |acts| == 2
  {
    var p := s.producers[t];
    assert ProducerOk(s, p);
    var try, store := Produce(t, TryReserve(false)), Produce(t, StoreReserved);
    var s1 := Apply(s, try);
    GrantedState(s, s1, t);
    TwoSteps(s, try, store);
    acts := [try] + [store];
  }

  /** An attempt that fails without a decision, and what an undisturbed acquire leads to behind it. */
  lemma FailOnce(s: State, t: nat, spurious: bool)
    requires Inv(s) && t < |s.producers| && s.producers[t].Reserve? && s.producers[t].head <= s.head
    requires var p := s.producers[t]; !NoRoom(s, p.len, p.tail, p.head) && (spurious || p.head != s.head)
    ensures var a, p := Produce(t, TryReserve(spurious)), s.producers[t];
      && ValidLength(p.len, MAX_PAYLOAD) && Enabled(s, a)
      && Apply(s, a) == s.(producers := s.producers[t := Reserve(p.len, p.tail, s.head)])
  {
    assert ProducerOk(s, s.producers[t]);
  }

  lemma EndKept(s: State, t: nat, p: Producer, len: nat, tail: nat)
    requires Inv(s) && t < |s.producers| && ValidLength(len, MAX_PAYLOAD)
    ensures AcquireEnd(s.(producers := s.producers[t := p]), t, len, tail) == AcquireEnd(s, t, len, tail)
  {
    var s1 := s.(producers := s.producers[t := p]);
    assert AcquireEnd(s1, t, len, tail).producers == AcquireEnd(s, t, len, tail).producers;
  }

  /** A step after which the producer knows the head of now, but which decides nothing. */
  lemma Continue(s: State, t: nat, a: Action, rest: seq<Action>)
    requires Inv(s) && t < |s.producers| && (s.producers[t].LoadHead? || s.producers[t].Reserve?) && Enabled(s, a)
    requires Apply(s, a) ==
             s.(producers := s.producers[t := Reserve(s.producers[t].len, s.producers[t].tail, s.head)])
    requires Ends(Apply(s, a), t, rest)
    ensures Ends(s, t, [a] + rest)
  {
    var p := s.producers[t];
    EndKept(s, t, Reserve(p.len, p.tail, s.head), p.len, p.tail);
    ConsSteps(s, a, Apply(s, a), rest, AcquireEnd(s, t, p.len, p.tail));
  }

  /** With the real head: after the spurious failures comes the decision. */
  lemma {:induction false} SpuriousAlone(s: State, t: nat, spurious: nat) returns (acts: seq<Action>)
    requires Inv(s) && t < |s.producers| && s.producers[t].Reserve? && s.producers[t].head == s.head
    ensures Ends(s, t, acts)
    ensures !NoRoom(s, s.producers[t].len, s.producers[t].tail, s.head) ==> |acts| == spurious + 2
    decreases spurious
  {
    var p := s.producers[t];
    if NoRoom(s, p.len, p.tail, p.head) {
      acts := RefusedAlone(s, t);
    } else if spurious == 0 {
      acts := GrantedAlone(s, t);
    } else {
      var fails := Produce(t, TryReserve(true));
      FailOnce(s, t, true);
      StepInv(s, fails);
      var rest := SpuriousAlone(Apply(s, fails), t, spurious - 1);
      Continue(s, t, fails, rest);
      acts := [fails] + rest;
    }
  }

  /**
    From any attempt in any reachable state, and after any number of spurious failures: with no
    other thread moving, the acquire is granted exactly if its entry fits beside the tail that the
    producer holds, whether or not the head that it holds is the real one.
   */
  lemma RetryAlone(s: State, t: nat, spurious: nat) returns (acts: seq<Action>)
    requires Inv(s) && t < |s.producers| && s.producers[t].Reserve? && s.producers[t].head <= s.head
    ensures Ends(s, t, acts)
    ensures !NoRoom(s, s.producers[t].len, s.producers[t].tail, s.head) ==>
      |acts| == spurious + if s.producers[t].head == s.head then 2 else 3
  {
    var p := s.producers[t];
    if p.head == s.head {
      acts := SpuriousAlone(s, t, spurious);
    } else if NoRoom(s, p.len, p.tail, p.head) {
      acts := RefusedAlone(s, t);
    } else {
      var fails := Produce(t, TryReserve(false));
      FailOnce(s, t, false);
      StepInv(s, fails);
      var rest := SpuriousAlone(Apply(s, fails), t, spurious);
      Continue(s, t, fails, rest);
      acts := [fails] + rest;
    }
  }

  /** From where the tail is read: the acquire then goes by the head of now. */
  lemma FromLoadHead(s: State, t: nat) returns (acts: seq<Action>)
    requires Inv(s) && t < |s.producers| && s.producers[t].LoadHead?
    ensures Ends(s, t, acts)
  {
    var a := Produce(t, ReadHead);
    assert ProducerOk(s, s.producers[t]);
    StepInv(s, a);
    var rest := SpuriousAlone(Apply(s, a), t, 0);
    Continue(s, t, a, rest);
    acts := [a] + rest;
  }

  // ---------------------------------------------------------------- refused while the buffer is empty

  /** Producer 0 has read the tail 0 and waits; producer 1 is idle, and nothing is in the buffer. */
  ghost predicate Waiting(size: nat, acts: seq<Action>, s: State, len: nat) {
    && Steps(Init(size, 2), acts, s) && Inv(s) && s.size == size
    && s.producers == [LoadHead(len, 0), Idle] && s.consumer.pc.Ready? && s.head == s.tail && s.released == |s.log|
  }

  /** While it waits, one more packet of producer 1 passes the buffer. */
  lemma PassAnother(size: nat, acts: seq<Action>, s: State, len: nat) returns (acts': seq<Action>, s': State)
    requires Waiting(size, acts, s, len)
    ensures Waiting(size, acts', s', len) && s'.head > s.head
  {
    var send, s1 := SendAlone(s, 1, 1);
    var receive;
    receive, s' := ReceiveAlone(s1);
    acts' := acts + send + receive;
    StepsConcat(Init(size, 2), acts, s, send, s1);
    StepsConcat(Init(size, 2), acts + send, s1, receive, s');
  }

  lemma {:induction false} PassUntilFull(size: nat, acts: seq<Action>, s: State, len: nat)
      returns (acts': seq<Action>, s': State)
    requires Waiting(size, acts, s, len)
    ensures Waiting(size, acts', s', len) && NoRoom(s', len, 0, s'.head)
    decreases size - s.head
  {
    if NoRoom(s, len, 0, s.head) {
      acts', s' := acts, s;
    } else {
      acts', s' := PassAnother(size, acts, s, len);
      acts', s' := PassUntilFull(size, acts', s', len);
    }
  }

  lemma StartWaiting(size: nat, packetLen: nat) returns (acts: seq<Action>, s: State)
    requires Sized(size, Zeros(size + MAX_ENTRY + HEADER)) && 0 < packetLen <= MAX_PAYLOAD
    ensures Waiting(size, acts, s, EntryLength(packetLen))
  {
    var s0, a1, a2 := Init(size, 2), Produce(0, AcquireStart(packetLen)), Produce(0, ReadTail);
    var s1 := Apply(s0, a1);
    s := Apply(s1, a2);
    acts := [a1] + [a2];
    OneStep(s0, [a1], s1);
    ThenOneStep(s0, [a1], s1, a2);
    InitInv(size, 2);
    RunInv(s0, acts, s);
    assert s0.producers == [Idle, Idle];
  }

  /**
    A packet can be lost while the buffer is empty, whatever the size of the buffer and of the
    packet: the tail is read once, before the head, and never again.
   */
  lemma RefusedWhileEmpty(size: nat, packetLen: nat)
      returns (acts: seq<Action>, s: State, rest: seq<Action>, s': State)
    requires Sized(size, Zeros(size + MAX_ENTRY + HEADER)) && 0 < packetLen <= MAX_PAYLOAD
    ensures Steps(Init(size, 2), acts, s) && s.head == s.tail && s.released == |s.log|
    ensures s.producers == [LoadHead(EntryLength(packetLen), 0), Idle] && s'.producers == [Idle, Idle]
    ensures Steps(s, rest, s') && s'.log == s.log && s'.tail == s.tail && s'.lost == s.lost + 1
  {
    acts, s := StartWaiting(size, packetLen);
    acts, s := PassUntilFull(size, acts, s, EntryLength(packetLen));
    rest := FromLoadHead(s, 0);
    s' := AcquireEnd(s, 0, EntryLength(packetLen), 0);
  }
}
