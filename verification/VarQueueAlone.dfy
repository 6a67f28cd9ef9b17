/** The calls of the variable-size queue as one thread runs them while no other moves. */
module VarQueueAlone {
  import opened Bytes
  import opened QueueEntry
  import opened VarQueue
  import opened VarQueueConsumer
  import opened VarQueueMemory
  import opened VarQueueDelivery
  import opened VarQueuePeek
  import opened VarQueueStale

  /** Room for an entry of this length, with no thread moving. */
  predicate HasRoom(s: State, len: nat) { s.head - s.tail + len + HEADER <= s.size }

  /** The state after one undisturbed acquire of a valid packet length by producer `t`. */
  function AcquireResult(s: State, t: nat, len: nat): State
    requires t < |s.producers| && Sized(s.size, s.buf) && ValidLength(len, MAX_PAYLOAD)
  {
    var pos := s.head % s.size;
    if HasRoom(s, len) then
      s.(head := s.head + len + HEADER,
         buf := Splice(s.buf, pos, Word(len, 0)),
         log := s.log + [Entry(s.head, pos, len, Marked, Zeros(len - USER_HEADER))],
         producers := s.producers[t := Fill(|s.log|, pos, len)],
         acquires := s.acquires + 1)
    else s.(lost := s.lost + 1, acquires := s.acquires + 1)
  }

  function DecideSteps(t: nat, packetLen: nat): seq<Action> {
    [Produce(t, AcquireStart(packetLen)), Produce(t, ReadTail), Produce(t, ReadHead), Produce(t, TryReserve(false))]
  }

  function SettleStep(t: nat, room: bool): Action { Produce(t, if room then StoreReserved else CountLost) }

  /** The first four steps: the producer has seen the current cursors and decides on them. */
  lemma DecideAlone(s: State, t: nat, packetLen: nat) returns (s': State)
    requires Sized(s.size, s.buf) && Window(s) && t < |s.producers| && s.producers[t].Idle?
    requires 0 < packetLen <= MAX_PAYLOAD
    ensures var len := EntryLength(packetLen);
      && s' == (if HasRoom(s, len) then
                  s.(head := s.head + len + HEADER,
                     log := s.log + [Entry(s.head, s.head % s.size, len, Claimed, Zeros(len - USER_HEADER))],
                     producers := s.producers[t := Mark(|s.log|, s.head % s.size, len)],
                     acquires := s.acquires + 1)
                else s.(producers := s.producers[t := Overrun], acquires := s.acquires + 1))
      && Steps(s, DecideSteps(t, packetLen), s')
  {
    EntryLengthFits(packetLen, MAX_PAYLOAD);
    var acts := DecideSteps(t, packetLen);
    var s1 := Apply(s, acts[0]);
    var s2 := Apply(s1, acts[1]);
    var s3 := Apply(s2, acts[2]);
    s' := Apply(s3, acts[3]);
    assert s3 == s.(producers := s.producers[t := Reserve(EntryLength(packetLen), s.tail, s.head)],
      acquires := s.acquires + 1);
    FourSteps(s, acts, s1, s2, s3, s');
  }

  lemma FourSteps(s: State, acts: seq<Action>, s1: State, s2: State, s3: State, s4: State)
    requires |acts| == 4
    requires Enabled(s, acts[0]) && s1 == Apply(s, acts[0])
    requires Enabled(s1, acts[1]) && s2 == Apply(s1, acts[1])
    requires Enabled(s2, acts[2]) && s3 == Apply(s2, acts[2])
    requires Enabled(s3, acts[3]) && s4 == Apply(s3, acts[3])
    ensures Steps(s, acts, s4)
  {
    OneStep(s3, acts[3..], s4);
    assert acts[2..][1..] == acts[3..];
    assert Steps(s2, acts[2..], s4);
    assert acts[1..][1..] == acts[2..];
    assert Steps(s1, acts[1..], s4);
  }

  lemma OneStep(s: State, acts: seq<Action>, s': State)
    requires |acts| == 1 && Enabled(s, acts[0]) && s' == Apply(s, acts[0])
    ensures Steps(s, acts, s')
  {
    assert Steps(s', acts[1..], s');
  }

  lemma ConsSteps(s: State, a: Action, s1: State, rest: seq<Action>, s': State)
    requires Enabled(s, a) && s1 == Apply(s, a) && Steps(s1, rest, s')
    ensures Steps(s, [a] + rest, s')
  {
    assert ([a] + rest)[1..] == rest;
  }

  lemma {:induction false} StepsConcat(s: State, acts: seq<Action>, s': State, more: seq<Action>, s'': State)
    requires Steps(s, acts, s') && Steps(s', more, s'')
    ensures Steps(s, acts + more, s'')
    decreases |acts|
  {
    if acts == [] {
      assert acts + more == more;
    } else {
      var s1 := Apply(s, acts[0]);
      StepsConcat(s1, acts[1..], s', more, s'');
      ConsSteps(s, acts[0], s1, acts[1..] + more, s'');
      assert acts + more == [acts[0]] + (acts[1..] + more);
    }
  }

  lemma ThenOneStep(s: State, acts: seq<Action>, s': State, a: Action)
    requires Steps(s, acts, s') && Enabled(s', a)
    ensures Steps(s, acts + [a], Apply(s', a))
  {
    OneStep(s', [a], Apply(s', a));
    StepsConcat(s, acts, s', [a], Apply(s', a));
  }

  /** The fifth step: a granted entry gets its reserved header, a refused one is counted. */
  lemma SettleAlone(s: State, s4: State, t: nat, len: nat)
    requires t < |s.producers| && Sized(s.size, s.buf) && ValidLength(len, MAX_PAYLOAD)
    requires s4 == if HasRoom(s, len) then
                     s.(head := s.head + len + HEADER,
                        log := s.log + [Entry(s.head, s.head % s.size, len, Claimed, Zeros(len - USER_HEADER))],
                        producers := s.producers[t := Mark(|s.log|, s.head % s.size, len)],
                        acquires := s.acquires + 1)
                   else s.(producers := s.producers[t := Overrun], acquires := s.acquires + 1)
    requires s.producers[t].Idle?
    ensures var a := SettleStep(t, HasRoom(s, len));
      Enabled(s4, a) && Apply(s4, a) == AcquireResult(s, t, len)
  {
    var s5 := Apply(s4, SettleStep(t, HasRoom(s, len)));
    assert s5.producers == AcquireResult(s, t, len).producers;
    assert s5.log == AcquireResult(s, t, len).log;
  }

  /** With no thread moving, an acquire is granted exactly if its entry fits beside the unreleased ones. */
  lemma AcquireAlone(s: State, t: nat, packetLen: nat, len: nat)
    requires Sized(s.size, s.buf) && Window(s) && t < |s.producers| && s.producers[t].Idle?
    requires 0 < packetLen <= MAX_PAYLOAD && len == EntryLength(packetLen)
    ensures ValidLength(len, MAX_PAYLOAD)
    ensures Steps(s, DecideSteps(t, packetLen) + [SettleStep(t, HasRoom(s, len))], AcquireResult(s, t, len))
  {
    EntryLengthFits(packetLen, MAX_PAYLOAD);
    var s4 := DecideAlone(s, t, packetLen);
    SettleAlone(s, s4, t, len);
    ThenOneStep(s, DecideSteps(t, packetLen), s4, SettleStep(t, HasRoom(s, len)));
  }

  /** A granted acquire and its push, with the payload left as it is. */
  lemma SendAlone(s: State, t: nat, packetLen: nat) returns (acts: seq<Action>, s': State)
    requires Inv(s) && t < |s.producers| && s.producers[t].Idle?
    requires 0 < packetLen <= MAX_PAYLOAD && HasRoom(s, EntryLength(packetLen))
    ensures Steps(s, acts, s') && Inv(s')
    ensures s'.size == s.size && s'.producers == s.producers && s'.consumer == s.consumer
    ensures s'.head == s.head + EntryLength(packetLen) + HEADER && s'.tail == s.tail && s'.released == s.released
    ensures |s'.log| == |s.log| + 1 && s'.log[..|s.log|] == s.log
    ensures s'.log[|s.log|].stage == Committed && s'.log[|s.log|].len == EntryLength(packetLen)
  {
    var len := EntryLength(packetLen);
    AcquireAlone(s, t, packetLen, len);
    var s1 := AcquireResult(s, t, len);
    RunInv(s, DecideSteps(t, packetLen) + [SettleStep(t, true)], s1);
    Fits(s1, |s.log|);
    s' := Apply(s1, Produce(t, Push));
    assert s'.producers == s.producers;
    acts := DecideSteps(t, packetLen) + [SettleStep(t, true)] + [Produce(t, Push)];
    ThenOneStep(s, DecideSteps(t, packetLen) + [SettleStep(t, true)], s1, Produce(t, Push));
    StepInv(s1, Produce(t, Push));
  }

  // ---------------------------------------------------------------- an undisturbed peek

  /** The consumer when the peek loop ends with `r`. */
  function PeekDone(c: Consumer, released: nat, index: nat, r: PeekResult): Consumer {
    match r
    case None(idx, cur) => c.(pc := Ready, cachedIndex := idx, cachedTail := cur, stale := false)
    case Found(idx, cur, b) =>
      c.(pc := Ready, cachedIndex := idx + 1, cachedTail := cur + (b.len + HEADER), stale := false,
        bufs := c.bufs[released + index := b])
    case Corrupt => c.(pc := Fault)
  }

  /** The state after an undisturbed queuePeek. */
  function PeekState(s: State, index: nat): State
    requires s.size > 0 && s.size + HEADER <= |s.buf|
  {
    s.(lost := 0, reported := s.reported + s.lost,
      consumer := PeekDone(s.consumer, s.released, index, PeekValue(s, index)))
  }

  lemma {:induction false} ScanAlone(s: State, index: nat, cur: nat, idx: nat) returns (acts: seq<Action>)
    requires s.size > 0 && s.size + HEADER <= |s.buf| && s.consumer.pc == Scan(index, s.head, cur, idx)
    ensures Steps(s, acts,
      s.(consumer := PeekDone(s.consumer, s.released, index, ScanFrom(s.size, s.buf, s.head, cur, idx, index))))
    decreases s.head - cur
  {
    var s1 := Apply(s, Consume(ScanEntry));
    if s1.consumer.pc.Scan? {
      var rest := ScanAlone(s1, index, s1.consumer.pc.cur, idx + 1);
      acts := [Consume(ScanEntry)] + rest;
      ConsSteps(s, Consume(ScanEntry), s1, rest,
                s.(consumer := PeekDone(s.consumer, s.released, index,
                  ScanFrom(s.size, s.buf, s.head, cur, idx, index))));
    } else {
      acts := [Consume(ScanEntry)];
      OneStep(s, acts, s1);
    }
  }

  /**
    The machine, run by the consumer alone, computes `PeekValue` and leaves the cache and the
    buffer that go with it.
   */
  lemma PeekAlone(s: State, index: nat) returns (acts: seq<Action>)
    requires s.size > 0 && s.size + HEADER <= |s.buf| && s.consumer.pc.Ready? && (index == 0 || !s.consumer.stale)
    ensures Steps(s, acts, PeekState(s, index))
  {
    var a0, a1 := Consume(PeekStart(index, true)), Consume(PeekReadHead);
    var s1 := Apply(s, a0);
    var s2 := Apply(s1, a1);
    var rest := ScanAlone(s2, index, s2.consumer.pc.cur, s2.consumer.pc.idx);
    ConsSteps(s1, a1, s2, rest, PeekState(s, index));
    ConsSteps(s, a0, s1, [a1] + rest, PeekState(s, index));
    acts := [a0] + ([a1] + rest);
  }

  // ---------------------------------------------------------------- an undisturbed release

  /** The state after an undisturbed queueRelease of the oldest entry. */
  function ReleaseState(s: State): State
    requires Holds(s, s.released)
  {
    var b := s.consumer.bufs[s.released];
    s.(buf := Splice(s.buf, b.off - HEADER, Zeros(b.len + HEADER)),
       tail := s.tail + (b.len + HEADER),
       released := s.released + 1,
       received := s.received + [s.buf[b.off + USER_HEADER..b.off + b.len]],
       consumer := s.consumer.(pc := Ready, cachedIndex := 0, cachedTail := 0, stale := true))
  }

  /** The state when the memset has run from byte `k` on, and the tail has advanced. */
  function ClearedFrom(s: State, k: nat): State
    requires Holds(s, s.released) && k <= s.consumer.bufs[s.released].len + HEADER
  {
    var b := s.consumer.bufs[s.released];
    s.(buf := Splice(s.buf, b.off - HEADER + k, Zeros(b.len + HEADER - k)),
       tail := s.tail + (b.len + HEADER),
       released := s.released + 1,
       consumer := s.consumer.(pc := Ready, cachedIndex := 0, cachedTail := 0, stale := true))
  }

  lemma ClearOne(s: State, k: nat)
    requires Holds(s, s.released) && s.consumer.pc == Clear(k) && k < s.consumer.bufs[s.released].len + HEADER
    ensures var s1 := Apply(s, Consume(ClearByte));
      Holds(s1, s1.released) && ClearedFrom(s1, k + 1) == ClearedFrom(s, k)
  {
    var s1 := Apply(s, Consume(ClearByte));
    assert ClearedFrom(s1, k + 1).buf == ClearedFrom(s, k).buf;
  }

  lemma {:induction false} ClearAlone(s: State, k: nat) returns (acts: seq<Action>)
    requires Holds(s, s.released) && s.consumer.pc == Clear(k) && k <= s.consumer.bufs[s.released].len + HEADER
    ensures Steps(s, acts, ClearedFrom(s, k))
    decreases s.consumer.bufs[s.released].len + HEADER - k
  {
    if k == s.consumer.bufs[s.released].len + HEADER {
      acts := [Consume(AdvanceTail)];
      assert ClearedFrom(s, k).buf == s.buf;
      OneStep(s, acts, Apply(s, Consume(AdvanceTail)));
    } else {
      var s1 := Apply(s, Consume(ClearByte));
      ClearOne(s, k);
      var rest := ClearAlone(s1, k + 1);
      acts := [Consume(ClearByte)] + rest;
      ConsSteps(s, Consume(ClearByte), s1, rest, ClearedFrom(s, k));
    }
  }

  /** The machine, run by the consumer alone, clears exactly the oldest entry and hands its bytes back. */
  lemma ReleaseAlone(s: State) returns (acts: seq<Action>)
    requires s.consumer.pc.Ready? && Holds(s, s.released)
    ensures Steps(s, acts, ReleaseState(s))
  {
    var s1 := Apply(s, Consume(ReleaseStart));
    var rest := ClearAlone(s1, 0);
    acts := [Consume(ReleaseStart)] + rest;
    ConsSteps(s, Consume(ReleaseStart), s1, rest, ReleaseState(s));
  }

  // ---------------------------------------------------------------- a peek ahead that goes astray

  /** The oldest entry is peeked and released. */
  lemma ReceiveAlone(s: State) returns (acts: seq<Action>, s': State)
    requires Inv(s) && s.consumer.pc.Ready? && Available(s, 0)
    ensures Steps(s, acts, s') && Inv(s')
    ensures s'.consumer.pc.Ready? && s'.consumer.stale
    ensures s'.size == s.size && s'.log == s.log && s'.released == s.released + 1
    ensures s'.producers == s.producers && s'.head == s.head && s'.lost == 0
    ensures s'.tail == s.tail + s.log[s.released].len + HEADER
    ensures s'.received == s.received + [s.log[s.released].payload]
  {
    PeekAgreesWithScan(s, 0);
    var peek := PeekAlone(s, 0);
    var s1 := PeekState(s, 0);
    RunInv(s, peek, s1);
    Fits(s1, s1.released);
    assert EntryOk(s1.log[s1.released]);
    ReleasedPayload(s1);
    var release := ReleaseAlone(s1);
    s' := ReleaseState(s1);
    RunInv(s1, release, s');
    acts := peek + release;
    StepsConcat(s, peek, s1, release, s');
  }

  /** One more minimal packet is sent by the only producer. */
  lemma SendAnother(size: nat, n: nat, acts: seq<Action>, s: State) returns (acts': seq<Action>, s': State)
    requires n < 3 && Sent(size, n, acts, s)
    ensures Sent(size, n + 1, acts', s')
  {
    var more;
    more, s' := SendAlone(s, 0, 1);
    acts' := acts + more;
    StepsConcat(Init(size, 1), acts, s, more, s');
    assert forall j :: 0 <= j < n ==> s'.log[j] == s'.log[..n][j];
  }

  /** A run from the empty buffer to a state that holds `n` minimal packets. */
  ghost predicate Sent(size: nat, n: nat, acts: seq<Action>, s: State) {
    && Steps(Init(size, 1), acts, s) && Inv(s)
    && s.size == size && s.producers == [Idle] && s.consumer == Init(size, 1).consumer
    && s.tail == 0 && s.released == 0 && |s.log| == n && s.head == n * (EntryLength(1) + HEADER)
    && forall j :: 0 <= j < n ==> s.log[j].stage == Committed && s.log[j].len == EntryLength(1)
  }

  lemma SendThree(size: nat) returns (acts: seq<Action>, s: State)
    requires Sized(size, Zeros(size + MAX_ENTRY + HEADER))
    ensures Sent(size, 3, acts, s)
  {
    InitInv(size, 1);
    acts, s := [], Init(size, 1);
    assert s.producers == [Idle];
    acts, s := SendAnother(size, 0, acts, s);
    acts, s := SendAnother(size, 1, acts, s);
    acts, s := SendAnother(size, 2, acts, s);
  }

  lemma SmallRemainder(x: nat, n: nat)
    requires 0 < x < n
    ensures x % n != 0
  {
  }

  /** Three packets are sent, and the first one is received. */
  lemma SendThreeReceiveOne(size: nat) returns (acts: seq<Action>, s: State)
    requires Sized(size, Zeros(size + MAX_ENTRY + HEADER))
    ensures Steps(Init(size, 1), acts, s) && Inv(s)
    ensures s.consumer.pc.Ready? && s.consumer.stale && Available(s, 1)
    ensures s.size == size && 0 < s.tail < size
  {
    var send, s1 := SendThree(size);
    var receive;
    receive, s := ReceiveAlone(s1);
    acts := send + receive;
    StepsConcat(Init(size, 1), send, s1, receive, s);
  }

  /**
    Whatever the size of the buffer, a run leads to a release after which a peek ahead misses an
    entry that is committed and next but one in the queue.
   */
  lemma PeekAheadMisses(size: nat) returns (acts: seq<Action>, s: State)
    requires Sized(size, Zeros(size + MAX_ENTRY + HEADER))
    ensures Steps(Init(size, 1), acts, s) && s.size == size && s.consumer.pc.Ready? && Sized(s.size, s.buf)
    ensures Available(s, 1) && !PeekRight(s, 1)
  {
    acts, s := SendThreeReceiveOne(size);
    SmallRemainder(s.tail, size);
    PeekAfterRelease(s, 1);
  }
}
