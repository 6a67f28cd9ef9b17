/**
  How queue32.c miscounts losses. It reads and resets the lost counter outside of the mutex, so that
  a reset can overwrite a count, and the store of a count can bring back what was reported already.
 */
module SegmentQueueLosses {
  import opened SegmentRing
  import opened SegmentQueue
  import opened SegmentQueueInvariant
  import opened SegmentQueueConsumer
  import opened SegmentQueueDelivery

  // ---------------------------------------------------------------- the counter while the mutex is held

  /** One section at a time; the counter it has loaded can only have been reset since. */
  ghost predicate LossOk(s: State) {
    && (forall t, u :: 0 <= t < u < |s.producers| ==> !(s.producers[t].Losing? && s.producers[u].Losing?))
    && (forall t :: 0 <= t < |s.producers| && s.producers[t].Losing? ==>
          s.ring.lost == s.producers[t].seen || s.ring.lost == 0)
  }

  lemma LostInRoom(r: Ring, dlc: nat)
    requires WellFormed(r)
    ensures WithRoom(r, dlc).lost == r.lost
  {
  }

  /** What the acquire section does to the counter: nothing yet, if the count is a load and a store. */
  lemma SectionCounts(s: State, dlc: nat)
    requires Sized(s) && dlc < 0x10000 && RoomForOne(RoomIn(s, dlc), dlc)
    ensures var s' := Acquired(s, dlc);
      && (s.variant.Mutex? ==> s'.ring.lost == s.ring.lost)
      && s'.consumer == s.consumer && s'.dropped == s.dropped && s'.revived == s.revived
  {
    LostInRoom(s.ring, dlc);
  }

  lemma SectionLoads(s: State, p: Producer)
    requires ProducerEnabled(s, p, AcquireSection)
    ensures ProducerAfter(s, p, AcquireSection).Losing? ==>
              s.variant.Mutex? && ProducerAfter(s, p, AcquireSection) == Losing(s.ring.lost)
  {
    LostInRoom(s.ring, p.dlc);
  }

  lemma QuietCounts(s: State, p: Producer, step: ProducerStep)
    requires ProducerEnabled(s, p, step) && !step.AcquireSection? && !step.StoreLost?
    ensures var s' := ProducerEffect(s, p, step);
      && s'.ring.lost == s.ring.lost && s'.consumer == s.consumer
      && s'.dropped == s.dropped && s'.revived == s.revived
    ensures !ProducerAfter(s, p, step).Losing?
  {
  }

  lemma ProducerLossOk(s: State, t: nat, step: ProducerStep)
    requires LossOk(s) && (s.variant.Critical? ==> !Held(s)) && Enabled(s, Produce(t, step))
    ensures LossOk(Apply(s, Produce(t, step)))
  {
    var p := s.producers[t];
    if step.AcquireSection? {
      SectionCounts(s, p.dlc);
      SectionLoads(s, p);
    } else if !step.StoreLost? {
      QuietCounts(s, p, step);
    }
  }

  lemma StepLossOk(s: State, a: Action)
    requires LossOk(s) && Counted(s) && Enabled(s, a)
    ensures LossOk(Apply(s, a))
  {
    if a.Produce? {
      ProducerLossOk(s, a.t, a.p);
    }
  }

  lemma {:induction false} RunLossOk(s: State, acts: seq<Action>, s': State)
    requires Inv(s) && LossOk(s) && Steps(s, acts, s')
    ensures LossOk(s')
    decreases |acts|
  {
    if acts != [] {
      StepInv(s, acts[0]);
      StepLossOk(s, acts[0]);
      RunLossOk(Apply(s, acts[0]), acts[1..], s');
    }
  }

  /** The store is never blocked: the memory condition of the step always holds. */
  lemma StoreEnabled(s: State, t: nat)
    requires LossOk(s) && t < |s.producers| && s.producers[t].Losing?
    ensures Enabled(s, Produce(t, StoreLost))
  {
  }

  // ---------------------------------------------------------------- what is overwritten

  /** A count is stored between a read of the counter and its reset. */
  predicate StoresInGap(s: State, a: Action)
    requires Enabled(s, a)
  {
    a.Produce? && a.p.StoreLost? && s.consumer.Clearing?
  }

  /** How much these stores of a run add to the counter. */
  function AddedInGaps(s: State, acts: seq<Action>): nat
    decreases |acts|
  {
    if acts == [] || !Enabled(s, acts[0]) then 0
    else
      (if StoresInGap(s, acts[0]) then s.producers[acts[0].t].seen + 1 - s.ring.lost else 0) +
      AddedInGaps(Apply(s, acts[0]), acts[1..])
  }

  function StoresInGaps(s: State, acts: seq<Action>): nat
    decreases |acts|
  {
    if acts == [] || !Enabled(s, acts[0]) then 0
    else (if StoresInGap(s, acts[0]) then 1 else 0) + StoresInGaps(Apply(s, acts[0]), acts[1..])
  }

  /** What the next reset overwrites. */
  function Exposed(s: State): nat {
    if s.consumer.Clearing? && s.consumer.seen <= s.ring.lost then s.ring.lost - s.consumer.seen else 0
  }

  lemma StepExposes(s: State, a: Action)
    requires Counted(s) && Enabled(s, a)
    ensures var s' := Apply(s, a);
      s'.dropped + Exposed(s') ==
        s.dropped + Exposed(s) + (if StoresInGap(s, a) then s.producers[a.t].seen + 1 - s.ring.lost else 0)
  {
    if a.Produce? {
      var p := s.producers[a.t];
      if a.p.AcquireSection? {
        SectionCounts(s, p.dlc);
      } else if !a.p.StoreLost? {
        QuietCounts(s, p, a.p);
      }
    }
  }

  lemma {:induction false} RunExposes(s: State, acts: seq<Action>, s': State)
    requires Inv(s) && Steps(s, acts, s')
    ensures s'.dropped + Exposed(s') == s.dropped + Exposed(s) + AddedInGaps(s, acts)
    ensures AddedInGaps(s, acts) == 0 <==> StoresInGaps(s, acts) == 0
    decreases |acts|
  {
    if acts != [] {
      StepInv(s, acts[0]);
      StepExposes(s, acts[0]);
      RunExposes(Apply(s, acts[0]), acts[1..], s');
    }
  }

  // ---------------------------------------------------------------- what is brought back

  /** The counter is reset between the load and the store of a section that loaded more than 0. */
  predicate ResetsInSection(s: State, a: Action) {
    a == Consume(ClearLost) && exists t :: 0 <= t < |s.producers| && s.producers[t].Losing? && s.producers[t].seen > 0
  }

  function TakenBy(s: State, a: Action): nat { if a == Consume(ClearLost) && Held(s) then s.ring.lost else 0 }

  /** How much is taken off the counter by resets between a load and its store. */
  function TakenInSections(s: State, acts: seq<Action>): nat
    decreases |acts|
  {
    if acts == [] || !Enabled(s, acts[0]) then 0
    else TakenBy(s, acts[0]) + TakenInSections(Apply(s, acts[0]), acts[1..])
  }

  function ResetsInSections(s: State, acts: seq<Action>): nat
    decreases |acts|
  {
    if acts == [] || !Enabled(s, acts[0]) then 0
    else (if ResetsInSection(s, acts[0]) then 1 else 0) + ResetsInSections(Apply(s, acts[0]), acts[1..])
  }

  /** What was brought back, together with what the store that is due will bring back, is `n`. */
  ghost predicate BroughtBack(s: State, n: nat) {
    && (!Held(s) ==> s.revived == n)
    && (forall t :: 0 <= t < |s.producers| && s.producers[t].Losing? ==>
          s.revived + s.producers[t].seen - s.ring.lost == n)
  }

  lemma ProducerBringsBack(s: State, t: nat, step: ProducerStep, n: nat)
    requires LossOk(s) && (s.variant.Critical? ==> !Held(s)) && Enabled(s, Produce(t, step)) && BroughtBack(s, n)
    ensures BroughtBack(Apply(s, Produce(t, step)), n)
  {
    var p, s' := s.producers[t], Apply(s, Produce(t, step));
    assert forall u :: 0 <= u < |s.producers| && u != t ==> s'.producers[u] == s.producers[u];
    if step.AcquireSection? {
      SectionCounts(s, p.dlc);
      SectionLoads(s, p);
      assert s'.producers[t].Losing? || !Held(s');
    } else if step.StoreLost? {
      assert !Held(s');
    } else {
      QuietCounts(s, p, step);
      assert Held(s) ==> Held(s') by {
        if Held(s) {
          var u :| 0 <= u < |s.producers| && s.producers[u].Losing?;
          assert s'.producers[u].Losing?;
        }
      }
    }
  }

  lemma StepBringsBack(s: State, a: Action, n: nat)
    requires LossOk(s) && Counted(s) && Enabled(s, a) && BroughtBack(s, n)
    ensures BroughtBack(Apply(s, a), n + TakenBy(s, a))
  {
    if a.Produce? {
      ProducerBringsBack(s, a.t, a.p, n);
    } else {
      assert Apply(s, a).producers == s.producers;
      assert Held(Apply(s, a)) <==> Held(s);
    }
  }

  lemma {:induction false} RunBringsBack(s: State, acts: seq<Action>, s': State, n: nat)
    requires Inv(s) && LossOk(s) && Steps(s, acts, s') && BroughtBack(s, n)
    ensures BroughtBack(s', n + TakenInSections(s, acts))
    decreases |acts|
  {
    if acts != [] {
      StepInv(s, acts[0]);
      StepLossOk(s, acts[0]);
      StepBringsBack(s, acts[0], n);
      RunBringsBack(Apply(s, acts[0]), acts[1..], s', n + TakenBy(s, acts[0]));
    }
  }

  /** As long as nothing was brought back, the next reset in a section takes something off the counter. */
  lemma FirstReset(s: State, a: Action)
    requires LossOk(s) && Enabled(s, a) && BroughtBack(s, 0)
    ensures ResetsInSection(s, a) <==> a == Consume(ClearLost) && Held(s) && s.ring.lost > 0
  {
  }

  lemma {:induction false} RunResets(s: State, acts: seq<Action>, s': State)
    requires Inv(s) && LossOk(s) && Steps(s, acts, s') && BroughtBack(s, 0)
    ensures TakenInSections(s, acts) == 0 <==> ResetsInSections(s, acts) == 0
    decreases |acts|
  {
    if acts != [] {
      StepInv(s, acts[0]);
      StepLossOk(s, acts[0]);
      FirstReset(s, acts[0]);
      StepBringsBack(s, acts[0], 0);
      if !ResetsInSection(s, acts[0]) {
        RunResets(Apply(s, acts[0]), acts[1..], s');
      }
    }
  }

  // ---------------------------------------------------------------- exactly when the count is right

  lemma InitLossOk(variant: Variant, segmentCount: nat, producerCount: nat)
    requires segmentCount > 0
    ensures var s := Init(variant, segmentCount, producerCount);
      Inv(s) && LossOk(s) && BroughtBack(s, 0) && Exposed(s) == 0
  {
    InitInv(variant, segmentCount, producerCount);
  }

  /**
    For every run after which neither a reset nor a store of the counter is due: what was dropped is
    what stores between a read and its reset have added, and what was reported twice is what resets
    between a load and its store have taken off. So no count is dropped or brought back if and only
    if no store of a losing section falls between a read and its reset, and no reset falls between
    the load and the store of a section that loaded more than 0.
   */
  lemma CountsKeptIff(variant: Variant, segmentCount: nat, producerCount: nat, acts: seq<Action>, s: State)
    requires segmentCount > 0 && Steps(Init(variant, segmentCount, producerCount), acts, s)
    requires !s.consumer.Clearing? && !Held(s)
    ensures var s0 := Init(variant, segmentCount, producerCount);
      && s.dropped == AddedInGaps(s0, acts) && (s.dropped == 0 <==> StoresInGaps(s0, acts) == 0)
      && s.revived == TakenInSections(s0, acts) && (s.revived == 0 <==> ResetsInSections(s0, acts) == 0)
    ensures s.acquires == s.granted + Pending(s.producers) + s.ring.lost + s.reported <==> s.dropped == s.revived
  {
    var s0 := Init(variant, segmentCount, producerCount);
    InitLossOk(variant, segmentCount, producerCount);
    RunExposes(s0, acts, s);
    RunBringsBack(s0, acts, s, 0);
    RunResets(s0, acts, s);
    AcquiresCounted(variant, segmentCount, producerCount, acts, s);
  }

  /** Each reset drops exactly what the stores since its read have added. */
  lemma ResetDropsGap(s: State, acts: seq<Action>, s1: State)
    requires Inv(s) && s.consumer.Waiting? && s.variant.Mutex?
    requires Steps(Apply(s, Consume(ReadLost)), acts, s1) && s1.consumer.Clearing?
    requires forall i :: 0 <= i < |acts| ==> acts[i].Produce?
    ensures Enabled(s1, Consume(ClearLost))
    ensures Apply(s1, Consume(ClearLost)).dropped == s.dropped + AddedInGaps(Apply(s, Consume(ReadLost)), acts)
  {
    var s0 := Apply(s, Consume(ReadLost));
    StepInv(s, Consume(ReadLost));
    RunExposes(s0, acts, s1);
    RunInv(s0, acts, s1);
  }

  lemma SectionStep(s: State, t: nat, a: Action)
    requires LossOk(s) && Counted(s) && t < |s.producers| && s.producers[t].Losing? && Enabled(s, a)
    requires a != Produce(t, StoreLost)
    ensures var s' := Apply(s, a);
      && |s'.producers| == |s.producers| && s'.producers[t] == s.producers[t] && s'.revived == s.revived
      && s'.ring.lost == if a == Consume(ClearLost) then 0 else s.ring.lost
  {
    assert Held(s);
    if a.Produce? {
      QuietCounts(s, s.producers[a.t], a.p);
    }
  }

  lemma InTail(acts: seq<Action>, a: Action)
    requires acts != []
    ensures a in acts <==> a == acts[0] || a in acts[1..]
  {
    assert acts == [acts[0]] + acts[1..];
  }

  /** While producer `t` holds the mutex, nothing but a reset changes the counter. */
  lemma {:induction false} SectionRun(s: State, t: nat, acts: seq<Action>, s1: State)
    requires Inv(s) && LossOk(s) && t < |s.producers| && s.producers[t].Losing? && Steps(s, acts, s1)
    requires Produce(t, StoreLost) !in acts
    ensures LossOk(s1) && t < |s1.producers| && s1.producers[t] == s.producers[t] && s1.revived == s.revived
    ensures s1.ring.lost == if Consume(ClearLost) in acts then 0 else s.ring.lost
    decreases |acts|
  {
    if acts != [] {
      InTail(acts, Produce(t, StoreLost));
      InTail(acts, Consume(ClearLost));
      StepInv(s, acts[0]);
      StepLossOk(s, acts[0]);
      SectionStep(s, t, acts[0]);
      SectionRun(Apply(s, acts[0]), t, acts[1..], s1);
    }
  }

  /** Each store brings back exactly what it had loaded, if a reset fell in between, and nothing otherwise. */
  lemma StoreBringsBack(s: State, t: nat, acts: seq<Action>, s1: State)
    requires Inv(s) && LossOk(s) && t < |s.producers| && s.producers[t] == Losing(s.ring.lost) && Steps(s, acts, s1)
    requires Produce(t, StoreLost) !in acts
    ensures Enabled(s1, Produce(t, StoreLost))
    ensures Apply(s1, Produce(t, StoreLost)).revived ==
              s.revived + (if Consume(ClearLost) in acts then s.ring.lost else 0)
  {
    SectionRun(s, t, acts, s1);
  }
}
