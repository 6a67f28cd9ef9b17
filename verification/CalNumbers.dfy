/**
  Memory segment numbers, when threads create segments at the same time. The count is checked, and
  then loaded and stored by a plain increment, before the mutex of the segment list is taken: another thread can
  come in between, and threads can register in another order than they drew their numbers.
 */
module CalNumbers {
  const MAX_NUMBERS := 0xFF

  datatype Thread =
    | Idle
    | Checking
    | Drawing
    | Storing(seen: nat)
    | Registering(number: nat)

  /** `count` is memory_segment_count; `numbers` are those of the registered segments, in list order. */
  datatype State = State(count: nat, threads: seq<Thread>, numbers: seq<nat>)

  datatype Step = Create | CheckCount | LoadCount | StoreCount | RegisterSection

  datatype Action = Action(t: nat, step: Step)

  function Init(threadCount: nat): State { State(0, seq(threadCount, _ => Idle), []) }

  predicate StepEnabled(th: Thread, step: Step) {
    match step
    case Create => th.Idle?
    case CheckCount => th.Checking?
    case LoadCount => th.Drawing?
    case StoreCount => th.Storing?
    case RegisterSection => th.Registering?
  }

  function ThreadAfter(s: State, th: Thread, step: Step): Thread
    requires StepEnabled(th, step)
  {
    match step
    case Create => Checking
    case CheckCount => if s.count >= MAX_NUMBERS then Idle else Drawing
    case LoadCount => Storing(s.count)
    // The number is a byte
    case StoreCount => Registering(th.seen % 0x100)
    case RegisterSection => Idle
  }

  function Effect(s: State, th: Thread, step: Step): State
    requires StepEnabled(th, step)
  {
    match step
    case StoreCount => s.(count := th.seen + 1)
    case RegisterSection => s.(numbers := s.numbers + [th.number])
    case _ => s
  }

  predicate Enabled(s: State, a: Action) { a.t < |s.threads| && StepEnabled(s.threads[a.t], a.step) }

  function Apply(s: State, a: Action): State
    requires Enabled(s, a)
  {
    Effect(s, s.threads[a.t], a.step).(threads := s.threads[a.t := ThreadAfter(s, s.threads[a.t], a.step)])
  }

  ghost predicate Steps(s: State, acts: seq<Action>, s': State)
    decreases |acts|
  {
    if acts == [] then s' == s
    else Enabled(s, acts[0]) && Steps(Apply(s, acts[0]), acts[1..], s')
  }

  // ---------------------------------------------------------------- one creation at a time

  predicate Resting(s: State) { forall t :: 0 <= t < |s.threads| ==> s.threads[t].Idle? }

  /** In this run, no creation starts while another one is under way. */
  ghost predicate OneAtATime(s: State, acts: seq<Action>)
    decreases |acts|
  {
    acts == [] ||
    (Enabled(s, acts[0]) && (acts[0].step.Create? ==> Resting(s)) && OneAtATime(Apply(s, acts[0]), acts[1..]))
  }

  ghost predicate InOrder(numbers: seq<nat>) { forall i :: 0 <= i < |numbers| ==> numbers[i] == i }

  /** At most one thread is not idle, and count, list and that thread agree. */
  ghost predicate Agree(s: State) {
    && InOrder(s.numbers)
    && (forall t, u :: 0 <= t < u < |s.threads| ==> s.threads[t].Idle? || s.threads[u].Idle?)
    && (forall t :: 0 <= t < |s.threads| ==>
          match s.threads[t]
          case Registering(number) => number == |s.numbers| && s.count == number + 1
          case Storing(seen) => seen == s.count == |s.numbers| < MAX_NUMBERS
          case Drawing => s.count == |s.numbers| < MAX_NUMBERS
          case Checking => s.count == |s.numbers|
          case Idle => true)
    && (Resting(s) ==> s.count == |s.numbers|)
  }

  lemma StepAgrees(s: State, a: Action)
    requires Agree(s) && Enabled(s, a) && (a.step.Create? ==> Resting(s))
    ensures Agree(Apply(s, a))
  {
    var s' := Apply(s, a);
    assert forall u :: 0 <= u < |s.threads| && u != a.t ==> s'.threads[u] == s.threads[u] && s.threads[u].Idle? by {
      forall u | 0 <= u < |s.threads| && u != a.t
        ensures s.threads[u].Idle?
      {
        assert !s.threads[a.t].Idle? || Resting(s);
      }
    }
    assert !s'.threads[a.t].Idle? ==> !Resting(s');
  }

  lemma {:induction false} RunAgrees(s: State, acts: seq<Action>, s': State)
    requires Agree(s) && OneAtATime(s, acts) && Steps(s, acts, s')
    ensures Agree(s')
    decreases |acts|
  {
    if acts != [] {
      StepAgrees(s, acts[0]);
      RunAgrees(Apply(s, acts[0]), acts[1..], s');
    }
  }

  /** Segments that are created one at a time get the numbers 0, 1, 2, ... in the order of the list. */
  lemma NumbersFollowList(threadCount: nat, acts: seq<Action>, s: State)
    requires OneAtATime(Init(threadCount), acts) && Steps(Init(threadCount), acts, s)
    ensures InOrder(s.numbers)
  {
    RunAgrees(Init(threadCount), acts, s);
  }

  // ---------------------------------------------------------------- two creations at the same time

  lemma OneStep(s: State, a: Action)
    requires Enabled(s, a)
    ensures Steps(s, [a], Apply(s, a))
  {
    assert Steps(Apply(s, a), [a][1..], Apply(s, a));
  }

  lemma {:induction false} StepsConcat(s: State, acts: seq<Action>, s': State, more: seq<Action>, s'': State)
    requires Steps(s, acts, s') && Steps(s', more, s'')
    ensures Steps(s, acts + more, s'')
    decreases |acts|
  {
    if acts == [] {
      assert acts + more == more;
    } else {
      StepsConcat(Apply(s, acts[0]), acts[1..], s', more, s'');
      assert (acts + more)[1..] == acts[1..] + more;
    }
  }

  lemma Then(s: State, acts: seq<Action>, s': State, a: Action)
    requires Steps(s, acts, s') && Enabled(s', a)
    ensures Steps(s, acts + [a], Apply(s', a))
  {
    OneStep(s', a);
    StepsConcat(s, acts, s', [a], Apply(s', a));
  }

  /** Both threads are about to draw. */
  lemma BothStart() returns (acts: seq<Action>, s: State)
    ensures Steps(Init(2), acts, s) && s == State(0, [Drawing, Drawing], [])
  {
    var create0, check0, create1, check1 :=
      Action(0, Create), Action(0, CheckCount), Action(1, Create), Action(1, CheckCount);
    var s0 := Init(2);
    var s1 := Apply(s0, create0);
    var s2 := Apply(s1, check0);
    var s3 := Apply(s2, create1);
    OneStep(s0, create0);
    Then(s0, [create0], s1, check0);
    Then(s0, [create0] + [check0], s2, create1);
    Then(s0, [create0] + [check0] + [create1], s3, check1);
    acts, s := [create0] + [check0] + [create1] + [check1], Apply(s3, check1);
  }

  /** Both threads have drawn: the second one before the first one stored, or after it. */
  lemma BothDraw(overlap: bool) returns (acts: seq<Action>, s: State)
    ensures Steps(Init(2), acts, s)
    ensures s.threads == [Registering(0), Registering(if overlap then 0 else 1)] && s.numbers == []
  {
    var start, s0 := BothStart();
    var load0, first, second, store1 :=
      Action(0, LoadCount), Action(if overlap then 1 else 0, if overlap then LoadCount else StoreCount),
      Action(if overlap then 0 else 1, if overlap then StoreCount else LoadCount), Action(1, StoreCount);
    var s1 := Apply(s0, load0);
    var s2 := Apply(s1, first);
    var s3 := Apply(s2, second);
    Then(Init(2), start, s0, load0);
    Then(Init(2), start + [load0], s1, first);
    Then(Init(2), start + [load0] + [first], s2, second);
    Then(Init(2), start + [load0] + [first] + [second], s3, store1);
    acts, s := start + [load0] + [first] + [second] + [store1], Apply(s3, store1);
  }

  /** The numbers can end up in the other order than the list, and one number can be given twice. */
  lemma ConcurrentNumbers(overlap: bool) returns (acts: seq<Action>, s: State)
    ensures Steps(Init(2), acts, s)
    ensures s.numbers == if overlap then [0, 0] else [1, 0]
  {
    var draw, s1 := BothDraw(overlap);
    var register1, register0 := Action(1, RegisterSection), Action(0, RegisterSection);
    var s2 := Apply(s1, register1);
    Then(Init(2), draw, s1, register1);
    Then(Init(2), draw + [register1], s2, register0);
    acts, s := draw + [register1] + [register0], Apply(s2, register0);
  }

  /** With no other thread moving, a creation gets the count as its number, exactly if that is below 255. */
  lemma CreateAlone(s: State, t: nat) returns (acts: seq<Action>, s': State)
    requires t < |s.threads| && s.threads[t].Idle?
    ensures Steps(s, acts, s') && s'.threads == s.threads
    ensures if s.count < 255 then s'.count == s.count + 1 && s'.numbers == s.numbers + [s.count] else s' == s
  {
    var create, check := Action(t, Create), Action(t, CheckCount);
    var s1 := Apply(s, create);
    OneStep(s, create);
    Then(s, [create], s1, check);
    acts, s' := [create] + [check], Apply(s1, check);
    if s.count < 255 {
      var load, store, register := Action(t, LoadCount), Action(t, StoreCount), Action(t, RegisterSection);
      var s2, s3 := s', Apply(s', load);
      Then(s, acts, s2, load);
      Then(s, acts + [load], s3, store);
      var s4 := Apply(s3, store);
      Then(s, acts + [load] + [store], s4, register);
      acts, s' := acts + [load] + [store] + [register], Apply(s4, register);
    }
    assert s'.threads == s.threads;
  }
}
