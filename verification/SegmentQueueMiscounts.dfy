/** Runs in which queue32.c loses a count, and runs in which it reports one twice. */
module SegmentQueueMiscounts {
  import opened SegmentRing
  import opened SegmentQueue
  import opened SegmentQueueInvariant
  import opened SegmentQueueProducers
  import opened SegmentQueueConsumer
  import opened SegmentQueueLosses

  /** One producer, between its acquire and the mutex section, and no room for its message; the mutex is free. */
  predicate NoRoom(s: State, t: nat)
    requires Sized(s)
  {
    t < |s.producers| && s.producers[t].Locking? && !Held(s) && WithRoom(s.ring, s.producers[t].dlc).cur.None?
  }

  lemma OneStep(s: State, a: Action)
    requires Enabled(s, a)
    ensures Steps(s, [a], Apply(s, a))
  {
    assert Steps(Apply(s, a), [a][1..], Apply(s, a));
  }

  lemma {:induction false} StepsConcat(s: State, acts: seq<Action>, s': State, more: seq<Action>, s'': State)
    requires Steps(s, acts, s') && Steps(s', more, s'')
    ensures Steps(s, acts + more, s'')
    decreases |acts|
  {
    ConcatTail(acts, more);
    if acts != [] {
      StepsConcat(Apply(s, acts[0]), acts[1..], s', more, s'');
    }
  }

  lemma ConcatTail(acts: seq<Action>, more: seq<Action>)
    ensures acts == [] ==> acts + more == more
    ensures acts != [] ==> (acts + more)[0] == acts[0] && (acts + more)[1..] == acts[1..] + more
  {
  }

  lemma Then(s: State, acts: seq<Action>, s': State, a: Action)
    requires Steps(s, acts, s') && Enabled(s', a)
    ensures Steps(s, acts + [a], Apply(s', a))
  {
    OneStep(s', a);
    StepsConcat(s, acts, s', [a], Apply(s', a));
  }

  lemma ThreeSteps(s: State, acts: seq<Action>, s1: State, s2: State, s3: State)
    requires |acts| == 3
    requires Enabled(s, acts[0]) && s1 == Apply(s, acts[0])
    requires Enabled(s1, acts[1]) && s2 == Apply(s1, acts[1])
    requires Enabled(s2, acts[2]) && s3 == Apply(s2, acts[2])
    ensures Steps(s, acts, s3)
  {
    OneStep(s2, acts[2]);
    assert acts[2..] == [acts[2]] && acts[1..][1..] == acts[2..];
    assert Steps(s1, acts[1..], s3);
  }

  /** The first half of a losing section: the counter is loaded. */
  lemma LosingSection(s: State, t: nat)
    requires Inv(s) && s.variant.Mutex? && NoRoom(s, t)
    ensures Enabled(s, Produce(t, AcquireSection))
    ensures var s' := Apply(s, Produce(t, AcquireSection));
      && Inv(s') && s'.ring.lost == s.ring.lost && s'.consumer == s.consumer && s'.variant == s.variant
      && s'.dropped == s.dropped && s'.reported == s.reported && s'.revived == s.revived
      && s'.producers == s.producers[t := Losing(s.ring.lost)]
      && s'.ring.cur.None? && s'.ring.len == |s'.ring.segs|
  {
    assert ProducerOk(s, s.producers[t]);
    AcquireRing(s, s.producers[t].dlc);
    SectionCounts(s, s.producers[t].dlc);
    LostInRoom(s.ring, s.producers[t].dlc);
    StepInv(s, Produce(t, AcquireSection));
  }

  /** The second half: the counter is stored. */
  lemma StoredCount(s: State, t: nat)
    requires t < |s.producers| && s.producers[t].Losing? && s.ring.lost <= s.producers[t].seen
    ensures Enabled(s, Produce(t, StoreLost))
    ensures var s' := Apply(s, Produce(t, StoreLost));
      && s'.ring.lost == s.producers[t].seen + 1 && s'.consumer == s.consumer && s'.reported == s.reported
      && s'.dropped == s.dropped && s'.revived == s.revived + (s.producers[t].seen - s.ring.lost)
  {
  }

  /** A read of the counter, and its reset. */
  lemma ReadCount(s: State)
    requires s.consumer.Waiting? && s.variant.Mutex?
    ensures Enabled(s, Consume(ReadLost)) && Apply(s, Consume(ReadLost)) == s.(consumer := Clearing(s.ring.lost))
  {
  }

  lemma ResetCount(s: State)
    requires s.consumer.Clearing? && s.consumer.seen <= s.ring.lost
    ensures Enabled(s, Consume(ClearLost))
    ensures var s' := Apply(s, Consume(ClearLost));
      && s'.ring.lost == 0 && s'.producers == s.producers && s'.reported == s.reported + s.consumer.seen
      && s'.dropped == s.dropped + (s.ring.lost - s.consumer.seen) && s'.revived == s.revived
  {
  }

  /** A loss that is stored between the read and the reset is neither reported nor counted. */
  lemma LostCountOverwritten(s: State, t: nat) returns (s': State)
    requires Inv(s) && s.variant.Mutex? && s.consumer.Waiting? && NoRoom(s, t)
    ensures Steps(s, [Consume(ReadLost)] + [Produce(t, AcquireSection)] + [Produce(t, StoreLost)] +
                     [Consume(ClearLost)], s')
    ensures s'.ring.lost == 0 && s'.reported == s.reported + s.ring.lost
    ensures s'.dropped == s.dropped + 1 && s'.revived == s.revived
  {
    var a1, a2, a3, a4 := Consume(ReadLost), Produce(t, AcquireSection), Produce(t, StoreLost), Consume(ClearLost);
    ReadCount(s);
    var s1 := Apply(s, a1);
    StepInv(s, a1);
    LosingSection(s1, t);
    var s2 := Apply(s1, a2);
    StoredCount(s2, t);
    var s3 := Apply(s2, a3);
    ResetCount(s3);
    s' := Apply(s3, a4);
    OneStep(s, a1);
    Then(s, [a1], s1, a2);
    Then(s, [a1] + [a2], s2, a3);
    Then(s, [a1] + [a2] + [a3], s3, a4);
  }

  /** Counts that are read and reset between the load and the store are reported, and stay in the counter. */
  lemma LostCountRevived(s: State, t: nat) returns (s': State)
    requires Inv(s) && s.variant.Mutex? && s.consumer.Waiting? && NoRoom(s, t)
    ensures Steps(s, [Produce(t, AcquireSection)] + [Consume(ReadLost)] + [Consume(ClearLost)] +
                     [Produce(t, StoreLost)], s')
    ensures s'.ring.lost == s.ring.lost + 1 && s'.reported == s.reported + s.ring.lost
    ensures s'.dropped == s.dropped && s'.revived == s.revived + s.ring.lost
  {
    var a1, a2, a3, a4 := Produce(t, AcquireSection), Consume(ReadLost), Consume(ClearLost), Produce(t, StoreLost);
    LosingSection(s, t);
    var s1 := Apply(s, a1);
    ReadCount(s1);
    var s2 := Apply(s1, a2);
    ResetCount(s2);
    var s3 := Apply(s2, a3);
    StoredCount(s3, t);
    s' := Apply(s3, a4);
    OneStep(s, a1);
    Then(s, [a1], s1, a2);
    Then(s, [a1] + [a2], s2, a3);
    Then(s, [a1] + [a2] + [a3], s3, a4);
  }

  /** What one granted message changes in a ring that has room in its current segment. */
  lemma GrantedRing(s: State, dlc: nat)
    requires Sized(s) && dlc < 0x10000 && !NeedsSegment(s.ring, dlc) && RoomForOne(s, dlc)
    ensures RoomIn(s, dlc) == s
    ensures var s' := Acquired(s, dlc);
      && Sized(s') && s'.ring.len == s.ring.len && s'.ring.cur == s.ring.cur && |s'.ring.segs| == |s.ring.segs|
      && s'.ring.segs[s.ring.cur.value].size == (s.ring.segs[s.ring.cur.value].size + dlc + HEADER) % 0x10000
      && s'.producers == s.producers && s'.consumer == s.consumer
  {
  }

  lemma TwoAcquiresStart() returns (s1: State, s2: State)
    ensures var s0 := Init(Mutex, 1, 2);
      && Enabled(s0, Produce(0, AcquireStart(MAX_DTO))) && s1 == Apply(s0, Produce(0, AcquireStart(MAX_DTO)))
      && Enabled(s1, Produce(1, AcquireStart(MAX_DTO))) && s2 == Apply(s1, Produce(1, AcquireStart(MAX_DTO)))
      && s2 == s0.(producers := [Locking(MAX_DTO), Locking(MAX_DTO)], acquires := 2)
  {
    var s0 := Init(Mutex, 1, 2);
    s1 := Apply(s0, Produce(0, AcquireStart(MAX_DTO)));
    s2 := Apply(s1, Produce(1, AcquireStart(MAX_DTO)));
    assert s2.producers == [Locking(MAX_DTO), Locking(MAX_DTO)];
  }

  lemma FirstSegmentRoom()
    ensures var s0 := Init(Mutex, 1, 2);
      && Sized(s0) && !NeedsSegment(s0.ring, MAX_DTO) && RoomForOne(s0, MAX_DTO)
      && s0.ring.cur == Some(0) && s0.ring.len == |s0.ring.segs| == 1 && s0.ring.segs[0].size == 0
  {
  }

  lemma FullRing(r: Ring, dlc: nat)
    requires WellFormed(r) && r.len == |r.segs| && NeedsSegment(r, dlc)
    ensures WithRoom(r, dlc).cur.None?
  {
  }

  lemma FirstIsGranted(s2: State) returns (s: State)
    requires s2 == Init(Mutex, 1, 2).(producers := [Locking(MAX_DTO), Locking(MAX_DTO)], acquires := 2)
    ensures Enabled(s2, Produce(0, AcquireSection)) && s == Apply(s2, Produce(0, AcquireSection))
    ensures s.consumer.Waiting? && Sized(s) && NoRoom(s, 1) && s.ring.lost == 0
    ensures s.producers == [Fill(0, 0, 0, MAX_DTO), Locking(MAX_DTO)]
  {
    FirstSegmentRoom();
    assert !Held(s2);
    GrantedRing(s2, MAX_DTO);
    s := Apply(s2, Produce(0, AcquireSection));
    FullRing(s.ring, MAX_DTO);
  }

  /** Such a state is reachable: one segment, two messages of maximal size. */
  lemma NoRoomReachable() returns (acts: seq<Action>, s: State)
    ensures Steps(Init(Mutex, 1, 2), acts, s) && s.consumer.Waiting? && Sized(s) && NoRoom(s, 1)
    ensures Inv(s) && s.variant.Mutex? && s.ring.lost == 0
    ensures s.producers == [Fill(0, 0, 0, MAX_DTO), Locking(MAX_DTO)]
  {
    acts := [Produce(0, AcquireStart(MAX_DTO)), Produce(1, AcquireStart(MAX_DTO)), Produce(0, AcquireSection)];
    var s1, s2 := TwoAcquiresStart();
    s := FirstIsGranted(s2);
    ThreeSteps(Init(Mutex, 1, 2), acts, s1, s2, s);
    InitInv(Mutex, 1, 2);
    RunInv(Init(Mutex, 1, 2), acts, s);
  }

  lemma StoredLoss(s: State)
    requires |s.producers| == 2 && s.producers[1] == Losing(s.ring.lost)
    ensures var a := Produce(1, StoreLost);
      && Enabled(s, a) && Apply(s, a).ring == s.ring.(lost := s.ring.lost + 1)
      && Apply(s, a).producers == s.producers[1 := Idle] && Apply(s, a).consumer == s.consumer
  {
  }

  lemma StartedAgain(s: State)
    requires |s.producers| == 2 && s.producers[1] == Idle
    ensures var a := Produce(1, AcquireStart(MAX_DTO));
      && Enabled(s, a) && Apply(s, a).ring == s.ring
      && Apply(s, a).producers == s.producers[1 := Locking(MAX_DTO)] && Apply(s, a).consumer == s.consumer
  {
  }

  lemma StoreAndStart(s: State) returns (acts: seq<Action>, s': State)
    requires |s.producers| == 2 && s.producers[1] == Losing(s.ring.lost)
    ensures Steps(s, acts, s') && s'.ring == s.ring.(lost := s.ring.lost + 1)
    ensures s'.producers == s.producers[1 := Locking(MAX_DTO)] && s'.consumer == s.consumer
  {
    var a1, a2 := Produce(1, StoreLost), Produce(1, AcquireStart(MAX_DTO));
    StoredLoss(s);
    var s1 := Apply(s, a1);
    StartedAgain(s1);
    s' := Apply(s1, a2);
    OneStep(s, a1);
    Then(s, [a1], s1, a2);
    acts := [a1] + [a2];
  }

  /** A losing section, and the next acquire of the same producer. */
  lemma LoseOnce(s: State) returns (acts: seq<Action>, s': State)
    requires Inv(s) && s.variant.Mutex? && s.consumer.Waiting? && NoRoom(s, 1)
    requires s.producers == [Fill(0, 0, 0, MAX_DTO), Locking(MAX_DTO)]
    ensures Steps(s, acts, s') && s'.producers == s.producers && s'.consumer.Waiting?
    ensures s'.ring.lost == s.ring.lost + 1 && s'.ring.cur.None? && s'.ring.len == |s'.ring.segs|
  {
    var a := Produce(1, AcquireSection);
    LosingSection(s, 1);
    OneStep(s, a);
    var rest;
    rest, s' := StoreAndStart(Apply(s, a));
    StepsConcat(s, [a], Apply(s, a), rest, s');
    acts := [a] + rest;
  }

  /** And so is one with a loss counted already, which the next losing section can bring back. */
  lemma CountedReachable() returns (acts: seq<Action>, s: State)
    ensures Steps(Init(Mutex, 1, 2), acts, s) && s.consumer.Waiting? && Sized(s) && NoRoom(s, 1)
    ensures Inv(s) && s.ring.lost == 1
  {
    var first, s0 := NoRoomReachable();
    var more;
    more, s := LoseOnce(s0);
    StepsConcat(Init(Mutex, 1, 2), first, s0, more, s);
    acts := first + more;
    RunInv(s0, more, s);
    FullRing(s.ring, MAX_DTO);
  }
}
