/** Which segment a message goes to, when it is lost, and what an undisturbed acquire and push come to. */
module SegmentQueueAlone {
  import opened SegmentPacking
  import opened SegmentRing
  import opened SegmentQueue
  import opened SegmentQueueInvariant
  import opened SegmentQueueProducers
  import opened SegmentQueueConsumer
  import opened SegmentQueueMiscounts

  /** The message fits behind the last one of the segment that takes messages. */
  predicate FitsCurrent(r: Ring, dlc: nat)
    requires WellFormed(r)
  {
    r.cur.Some? && r.segs[r.cur.value].size + HEADER + dlc <= MAX_SEGMENT
  }

  /** There is room for a message: there, or in a segment that is not in use. */
  predicate HasRoom(r: Ring, dlc: nat)
    requires WellFormed(r)
  {
    FitsCurrent(r, dlc) || r.len < |r.segs|
  }

  /** The segment that a message is granted in, its number and its offset there. */
  function TargetSegment(r: Ring, dlc: nat): (q: nat)
    requires WellFormed(r) && HasRoom(r, dlc)
    ensures q < |r.segs|
  {
    if FitsCurrent(r, dlc) then r.cur.value else Slot(r, r.len)
  }

  function TargetOffset(r: Ring, dlc: nat): nat
    requires WellFormed(r) && HasRoom(r, dlc)
  {
    if FitsCurrent(r, dlc) then r.segs[r.cur.value].size else 0
  }

  /** The messages that lie before it. */
  function Before(s: State, dlc: nat): seq<Msg>
    requires Sized(s) && HasRoom(s.ring, dlc)
  {
    if FitsCurrent(s.ring, dlc) then s.packs[s.ring.cur.value].msgs else []
  }

  /** A section looks for another segment exactly if the message does not fit behind the last one. */
  lemma NeedsSegmentIff(r: Ring, packs: seq<Pack>, dlc: nat)
    requires InRing(r, packs) && SegmentsOk(r, packs) && ValidDlc(dlc)
    ensures NeedsSegment(r, dlc) <==> !FitsCurrent(r, dlc)
  {
    if r.cur.Some? {
      CurIsLast(r, packs);
    }
  }

  lemma RoomFound(s: State, dlc: nat)
    requires InRing(s.ring, s.packs) && SegmentsOk(s.ring, s.packs) && ValidDlc(dlc)
    ensures var s' := RoomIn(s, dlc);
      if HasRoom(s.ring, dlc) then
        && s'.ring.cur == Some(TargetSegment(s.ring, dlc))
        && |s'.packs| == |s.packs| == |s'.ring.segs|
        && s'.packs[TargetSegment(s.ring, dlc)].msgs == Before(s, dlc)
        && s'.ring.segs[TargetSegment(s.ring, dlc)].size == TargetOffset(s.ring, dlc)
        && s'.ring.len == s.ring.len + (if FitsCurrent(s.ring, dlc) then 0 else 1)
      else s'.ring == s.ring.(cur := None) && s'.packs == s.packs
  {
    NeedsSegmentIff(s.ring, s.packs, dlc);
  }

  /** What the acquire section leaves alone. */
  ghost predicate SameRest(s: State, s': State) {
    && s'.variant == s.variant && s'.consumer == s.consumer && s'.drawn == s.drawn && s'.reported == s.reported
    && s'.delivered == s.delivered && s'.sent == s.sent && s'.pushed == s.pushed && s'.dropped == s.dropped
    && s'.revived == s.revived && s'.ring.rp == s.ring.rp && |s'.ring.segs| == |s.ring.segs|
  }

  /** The producer that has been granted a message of `dlc` bytes, and its message. */
  ghost predicate GrantedIn(s: State, t: nat, dlc: nat, s': State, header: bool)
    requires Sized(s) && HasRoom(s.ring, dlc) && t < |s.producers|
  {
    var q, msgs := TargetSegment(s.ring, dlc), Before(s, dlc);
    && SameRest(s, s') && Sized(s') && s'.granted == s.granted + 1
    && s'.ring.lost == s.ring.lost && s'.ring.cur == Some(q) && q < |s'.packs|
    && s'.ring.len == s.ring.len + (if FitsCurrent(s.ring, dlc) then 0 else 1)
    && |s'.packs[q].msgs| == |msgs| + 1 && s'.packs[q].msgs[..|msgs|] == msgs
    && s'.packs[q].msgs[|msgs|].dlc == dlc && s'.packs[q].msgs[|msgs|].off == TargetOffset(s.ring, dlc)
    && s'.producers == s.producers[t := if header then Fill(q, |msgs|, TargetOffset(s.ring, dlc), dlc)
                                        else WriteHeader(q, |msgs|, TargetOffset(s.ring, dlc), dlc)]
  }

  /** The loss of a message: no segment takes messages any more, and the segments are as before. */
  ghost predicate LostIn(s: State, t: nat, s': State, stored: bool)
    requires t < |s.producers|
  {
    && SameRest(s, s') && s'.granted == s.granted && s'.packs == s.packs
    && s'.ring == s.ring.(cur := None, lost := s.ring.lost + if stored then 1 else 0)
    && s'.producers == s.producers[t := if stored then Idle else Losing(s.ring.lost)]
  }

  /** The acquire section, in every reachable state: granted exactly if there is room, in the right place. */
  lemma SectionMeaning(s: State, t: nat)
    requires Inv(s) && t < |s.producers| && s.producers[t].Locking? && !Held(s)
    ensures Enabled(s, Produce(t, AcquireSection)) && ValidDlc(s.producers[t].dlc)
    ensures var s', dlc := Apply(s, Produce(t, AcquireSection)), s.producers[t].dlc;
      if HasRoom(s.ring, dlc) then GrantedIn(s, t, dlc, s', s.variant.Mutex?)
      else LostIn(s, t, s', s.variant.Critical?)
  {
    assert ProducerOk(s, s.producers[t]);
    var dlc := s.producers[t].dlc;
    RoomFits(s, dlc);
    RoomFound(s, dlc);
    SectionGrants(RoomIn(s, dlc), dlc);
  }

  /** The second half of the section. */
  lemma SectionGrants(s: State, dlc: nat)
    requires InRing(s.ring, s.packs) && ValidDlc(dlc) && RoomForOne(s, dlc)
    requires s.ring.cur.Some? ==> s.ring.segs[s.ring.cur.value].size + dlc + HEADER <= MAX_SEGMENT
    ensures var s' := Granted1(s, dlc);
      && s'.producers == s.producers && SameRest(s, s') && s'.ring.len == s.ring.len && s'.ring.cur == s.ring.cur
      && InRing(s'.ring, s'.packs)
      && if s.ring.cur.Some? then
           var q := s.ring.cur.value;
           && s'.packs[q].msgs[..|s.packs[q].msgs|] == s.packs[q].msgs
           && |s'.packs[q].msgs| == |s.packs[q].msgs| + 1 && s'.ring.lost == s.ring.lost
           && s'.packs[q].msgs[|s.packs[q].msgs|].dlc == dlc
           && s'.packs[q].msgs[|s.packs[q].msgs|].off == s.ring.segs[q].size && s'.granted == s.granted + 1
         else
           && s'.granted == s.granted && s'.packs == s.packs
           && s'.ring == s.ring.(lost := s.ring.lost + if s.variant.Critical? then 1 else 0)
  {
  }

  // ---------------------------------------------------------------- an undisturbed acquire

  lemma StartMeaning(s: State, t: nat, packetSize: nat)
    requires t < |s.producers| && s.producers[t].Idle?
    ensures var s' := Apply(s, Produce(t, AcquireStart(packetSize)));
      if 0 < packetSize <= MAX_DTO then
        s' == s.(producers := s.producers[t := Locking(Dlc(packetSize))], acquires := s.acquires + 1)
      else s' == s
  {
    assert s.producers[t := Idle] == s.producers;
  }

  /** queue32m.c writes the header behind the section. */
  lemma HeaderStep(s0: State, t: nat, dlc: nat, s: State)
    requires Sized(s0) && HasRoom(s0.ring, dlc) && t < |s0.producers| && GrantedIn(s0, t, dlc, s, false) && Inv(s)
    ensures Enabled(s, Produce(t, StoreHeader)) && GrantedIn(s0, t, dlc, Apply(s, Produce(t, StoreHeader)), true)
  {
    var p := s.producers[t];
    assert ProducerOk(s, p);
    assert Packed(s.ring.segs[p.seg], s.packs[p.seg].msgs);
    MessageFits(s.ring.segs[p.seg], s.packs[p.seg].msgs, p.i);
    var s' := Apply(s, Produce(t, StoreHeader));
    assert s'.packs[p.seg].msgs[..p.i] == s.packs[p.seg].msgs[..p.i];
  }

  lemma StoreLostStep(s0: State, t: nat, s: State)
    requires t < |s0.producers| && LostIn(s0, t, s, false)
    ensures Enabled(s, Produce(t, StoreLost)) && LostIn(s0, t, Apply(s, Produce(t, StoreLost)), true)
  {
  }

  lemma FinishWith(s: State, acts: seq<Action>, s1: State, a: Action) returns (acts': seq<Action>, s': State)
    requires Steps(s, acts, s1) && Inv(s1) && Enabled(s1, a)
    ensures Steps(s, acts', s') && Inv(s') && s' == Apply(s1, a)
  {
    Then(s, acts, s1, a);
    StepInv(s1, a);
    acts', s' := acts + [a], Apply(s1, a);
  }

  /** The state behind the section is reached from the start of the acquire. */
  lemma SectionAlone(s: State, t: nat, packetSize: nat) returns (acts: seq<Action>, s': State)
    requires Inv(s) && t < |s.producers| && s.producers[t].Idle? && !Held(s) && 0 < packetSize <= MAX_DTO
    ensures Steps(s, acts, s') && Inv(s')
    ensures if HasRoom(s.ring, Dlc(packetSize)) then GrantedIn(s, t, Dlc(packetSize), s', s.variant.Mutex?)
            else LostIn(s, t, s', s.variant.Critical?)
  {
    var start, section := Produce(t, AcquireStart(packetSize)), Produce(t, AcquireSection);
    StartMeaning(s, t, packetSize);
    OneStep(s, start);
    var s1 := Apply(s, start);
    StepInv(s, start);
    assert !Held(s1);
    SectionMeaning(s1, t);
    acts, s' := FinishWith(s, [start], s1, section);
    SectionFromStart(s, t, Dlc(packetSize), s1, s');
  }

  /** The start of the acquire changes nothing that its end is compared with. */
  lemma SectionFromStart(s: State, t: nat, dlc: nat, s1: State, s': State)
    requires Sized(s) && t < |s.producers|
    requires s1 == s.(producers := s.producers[t := Locking(dlc)], acquires := s.acquires + 1)
    requires if HasRoom(s.ring, dlc) then GrantedIn(s1, t, dlc, s', s.variant.Mutex?)
             else LostIn(s1, t, s', s.variant.Critical?)
    ensures if HasRoom(s.ring, dlc) then GrantedIn(s, t, dlc, s', s.variant.Mutex?)
            else LostIn(s, t, s', s.variant.Critical?)
  {
    assert forall p: Producer {:trigger s1.producers[t := p]} :: s1.producers[t := p] == s.producers[t := p];
  }

  /**
    With no thread moving, in both variants and any reachable state in which the mutex is free: the
    message is granted in the right place exactly if there is room, and counted as lost otherwise.
   */
  lemma AcquireAlone(s: State, t: nat, packetSize: nat) returns (acts: seq<Action>, s': State)
    requires Inv(s) && t < |s.producers| && s.producers[t].Idle? && !Held(s) && 0 < packetSize <= MAX_DTO
    ensures Steps(s, acts, s') && Inv(s')
    ensures if HasRoom(s.ring, Dlc(packetSize)) then GrantedIn(s, t, Dlc(packetSize), s', true)
            else LostIn(s, t, s', true)
  {
    acts, s' := SectionAlone(s, t, packetSize);
    if HasRoom(s.ring, Dlc(packetSize)) && s.variant.Critical? {
      HeaderStep(s, t, Dlc(packetSize), s');
      acts, s' := FinishWith(s, acts, s', Produce(t, StoreHeader));
    } else if !HasRoom(s.ring, Dlc(packetSize)) && s.variant.Mutex? {
      StoreLostStep(s, t, s');
      acts, s' := FinishWith(s, acts, s', Produce(t, StoreLost));
    }
  }
}
