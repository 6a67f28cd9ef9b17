/**
  The segment accumulating queues as a state machine: any number of producers, one consumer.

  One action is one mutex section, or one access outside of it. `Mutex` is queue32.c: the message
  header is written inside the acquire section, and queuePop reads and resets the lost counter
  before it takes the mutex; so an acquire section that finds no room is two actions, the load of
  the counter and its store, with the mutex held in between. `Critical` is queue32m.c: the header is
  written behind the section, and the lost counter is changed, read and reset inside sections only.
 */
module SegmentQueue {
  import opened Bytes
  import opened SegmentPacking
  import opened SegmentRing

  datatype Variant = Mutex | Critical

  /** Bookkeeping for one segment: its messages, and the number of the first one. */
  datatype Pack = Pack(msgs: seq<Msg>, base: nat)

  datatype Producer =
    | Idle
    | Locking(dlc: nat)
    | Losing(seen: nat)
    | WriteHeader(seg: nat, i: nat, off: nat, dlc: nat)
    | Fill(seg: nat, i: nat, off: nat, dlc: nat)

  datatype Consumer =
    | Waiting
    | Clearing(seen: nat)
    | Popping
    | Stamping(p: nat, i: nat)
    | Sending
    | Fault

  /**
    Everything behind `consumer` is bookkeeping: acquires that were valid and granted, lost counts
    handed out, overwritten by a reset and brought back by a store, counter values drawn, messages and
    datagrams sent, and the payloads that the producers pushed, by the number of the message.
   */
  datatype State = State(
    variant: Variant,
    ring: Ring,
    packs: seq<Pack>,
    producers: seq<Producer>,
    consumer: Consumer,
    acquires: nat,
    granted: nat,
    reported: nat,
    dropped: nat,
    revived: nat,
    drawn: seq<nat>,
    delivered: seq<Msg>,
    sent: seq<seq<Byte>>,
    pushed: map<nat, seq<Byte>>)

  datatype ProducerStep =
    | AcquireStart(packetSize: nat)
    | AcquireSection
    | StoreLost
    | StoreHeader
    | WriteByte(k: nat, val: Byte)
    | PushSection(flush: bool)

  datatype ConsumerStep =
    | PopStart
    | ReadLost
    | ClearLost
    | PopSection(flush: bool, collect: bool)
    | Stamp(ctr: nat)
    | ReleaseSection

  datatype Action = Produce(t: nat, p: ProducerStep) | Consume(c: ConsumerStep)

  /** queueInit: the ring with its first segment. */
  function Init(variant: Variant, segmentCount: nat, producerCount: nat): State
    requires segmentCount > 0
  {
    State(variant, NewSegment(Blank(segmentCount)), seq(segmentCount, _ => Pack([], 0)),
          seq(producerCount, _ => Idle), Waiting, 0, 0, 0, 0, 0, [], [], [], map[])
  }

  // ---------------------------------------------------------------- the producers

  predicate Sized(s: State) {
    WellFormed(s.ring) && |s.packs| == |s.ring.segs|
  }

  predicate InPack(s: State, seg: nat, i: nat) {
    seg < |s.packs| && i < |s.packs[seg].msgs|
  }

  predicate RoomInside(s: State, seg: nat, off: nat, dlc: nat) {
    seg < |s.ring.segs| && off + HEADER + dlc <= |s.ring.segs[seg].bytes|
  }

  /** A producer holds the mutex between its load and its store of the lost counter: no other section runs. */
  predicate Held(s: State) {
    exists t :: 0 <= t < |s.producers| && s.producers[t].Losing?
  }

  predicate ProducerEnabled(s: State, p: Producer, step: ProducerStep) {
    match step
    case AcquireStart(_) => p.Idle?
    case AcquireSection =>
      p.Locking? && !Held(s) && Sized(s) && p.dlc < 0x10000 && RoomForOne(RoomIn(s, p.dlc), p.dlc)
    case StoreLost => p.Losing? && s.ring.lost <= p.seen
    case StoreHeader => p.WriteHeader? && InPack(s, p.seg, p.i) && RoomInside(s, p.seg, p.off, p.dlc) && p.dlc < 0x10000
    case WriteByte(k, _) =>
      p.Fill? && InPack(s, p.seg, p.i) && RoomInside(s, p.seg, p.off, p.dlc) && k < p.dlc &&
      k < |s.packs[p.seg].msgs[p.i].payload|
    case PushSection(_) =>
      p.Fill? && !Held(s) && Sized(s) && InPack(s, p.seg, p.i) && RoomInside(s, p.seg, p.off, p.dlc)
  }

  function NewPack(r: Ring, packs: seq<Pack>, granted: nat): (packs': seq<Pack>)
    requires r.rp < |r.segs| == |packs|
    ensures |packs'| == |packs|
  {
    if r.len >= |r.segs| then packs else packs[Slot(r, r.len) := Pack([], granted)]
  }

  function PacksWithRoom(r: Ring, packs: seq<Pack>, granted: nat, dlc: nat): seq<Pack>
    requires WellFormed(r) && |packs| == |r.segs|
  {
    if NeedsSegment(r, dlc) then NewPack(r, packs, granted) else packs
  }

  /** First half of the acquire section: look for a segment with room. */
  function RoomIn(s: State, dlc: nat): State
    requires Sized(s)
  {
    s.(ring := WithRoom(s.ring, dlc), packs := PacksWithRoom(s.ring, s.packs, s.granted, dlc))
  }

  /** If a segment was found, the message fits it. */
  predicate RoomForOne(s: State, dlc: nat) {
    s.ring.cur.Some? ==>
      s.ring.cur.value < |s.packs| && s.ring.cur.value < |s.ring.segs| &&
        RoomInside(s, s.ring.cur.value, s.ring.segs[s.ring.cur.value].size, dlc)
  }

  function ProducerAfter(s: State, p: Producer, step: ProducerStep): Producer
    requires ProducerEnabled(s, p, step)
  {
    match step
    case AcquireStart(packetSize) => if ValidPacket(packetSize) then Locking(Dlc(packetSize)) else Idle
    case AcquireSection =>
      var s1 := RoomIn(s, p.dlc);
      if s1.ring.cur.None? then (if s.variant.Mutex? then Losing(s1.ring.lost) else Idle)
      else
        var q := s1.ring.cur.value;
        if s.variant.Mutex? then Fill(q, |s1.packs[q].msgs|, s1.ring.segs[q].size, p.dlc)
        else WriteHeader(q, |s1.packs[q].msgs|, s1.ring.segs[q].size, p.dlc)
    case StoreLost => Idle
    case StoreHeader => Fill(p.seg, p.i, p.off, p.dlc)
    case WriteByte(_, _) => p
    case PushSection(_) => Idle
  }

  function SetMsg(packs: seq<Pack>, seg: nat, i: nat, m: Msg): seq<Pack>
    requires seg < |packs| && i < |packs[seg].msgs|
  {
    packs[seg := packs[seg].(msgs := packs[seg].msgs[i := m])]
  }

  function AddMsg(packs: seq<Pack>, seg: nat, m: Msg): seq<Pack>
    requires seg < |packs|
  {
    packs[seg := packs[seg].(msgs := packs[seg].msgs + [m])]
  }

  /**
    Second half of the acquire section: take the room, or count the loss. In queue32.c the count is
    a load and a store of a variable that queuePop writes outside the mutex.
   */
  function Granted1(s: State, dlc: nat): State
    requires dlc < 0x10000 && RoomForOne(s, dlc)
  {
    if s.ring.cur.None? then (if s.variant.Mutex? then s else s.(ring := Grant(s.ring, dlc)))
    else
      var q := s.ring.cur.value;
      var m := Granting(s.ring.segs[q], s.granted, dlc);
      if s.variant.Mutex? then
        s.(ring := SetBytes(Grant(s.ring, dlc), q, s.ring.segs[q].size, Word(dlc, RESERVED)),
           packs := AddMsg(s.packs, q, m.(stage := Reserved)), granted := s.granted + 1)
      else s.(ring := Grant(s.ring, dlc), packs := AddMsg(s.packs, q, m), granted := s.granted + 1)
  }

  function Acquired(s: State, dlc: nat): State
    requires Sized(s) && dlc < 0x10000 && RoomForOne(RoomIn(s, dlc), dlc)
  {
    Granted1(RoomIn(s, dlc), dlc)
  }

  predicate Flushes(r: Ring, flush: bool)
    requires WellFormed(r)
  {
    flush && r.cur.Some? && r.segs[r.cur.value].size > 0
  }

  function Pushed(s: State, seg: nat, i: nat, off: nat): State
    requires InPack(s, seg, i) && InSegment(s.ring, Place(seg, off))
  {
    var m := s.packs[seg].msgs[i];
    s.(ring := Commit(s.ring, Place(seg, off)), packs := SetMsg(s.packs, seg, i, m.(stage := Committed)),
       pushed := s.pushed[m.id := m.payload])
  }

  function Flushed(s: State, flush: bool): State
    requires Sized(s)
  {
    s.(ring := Flush(s.ring, flush),
       packs := if Flushes(s.ring, flush) then NewPack(s.ring, s.packs, s.granted) else s.packs)
  }

  function ProducerEffect(s: State, p: Producer, step: ProducerStep): State
    requires ProducerEnabled(s, p, step)
  {
    match step
    case AcquireStart(packetSize) => s.(acquires := if ValidPacket(packetSize) then s.acquires + 1 else s.acquires)
    case AcquireSection => Acquired(s, p.dlc)
    case StoreLost =>
      s.(ring := s.ring.(lost := p.seen + 1), revived := s.revived + (p.seen - s.ring.lost))
    case StoreHeader =>
      s.(ring := SetBytes(s.ring, p.seg, p.off, Word(p.dlc, RESERVED)),
         packs := SetMsg(s.packs, p.seg, p.i, s.packs[p.seg].msgs[p.i].(stage := Reserved)))
    case WriteByte(k, val) =>
      var m := s.packs[p.seg].msgs[p.i];
      s.(ring := SetBytes(s.ring, p.seg, p.off + HEADER + k, [val]),
         packs := SetMsg(s.packs, p.seg, p.i, m.(payload := Put(m.payload, k, val))))
    case PushSection(flush) => Flushed(Pushed(s, p.seg, p.i, p.off), flush)
  }

  // ---------------------------------------------------------------- the consumer

  predicate ConsumerEnabled(s: State, step: ConsumerStep) {
    match step
    case PopStart => s.consumer.Waiting?
    case ReadLost => s.consumer.Waiting? && s.variant.Mutex?
    case ClearLost => s.consumer.Clearing? && s.consumer.seen <= s.ring.lost
    case PopSection(_, _) => s.consumer.Popping? && !Held(s) && Sized(s)
    case Stamp(ctr) =>
      s.consumer.Stamping? && Sized(s) && ctr < 0x10000 && s.ring.segs[s.ring.rp].size <= MAX_SEGMENT &&
      s.consumer.i <= |s.packs[s.ring.rp].msgs| &&
      (s.consumer.p + HEADER < s.ring.segs[s.ring.rp].size ==> s.consumer.i < |s.packs[s.ring.rp].msgs|)
    case ReleaseSection => s.consumer.Sending? && !Held(s) && Sized(s)
  }

  function ConsumerEffect(s: State, step: ConsumerStep): State
    requires ConsumerEnabled(s, step)
  {
    match step
    case PopStart => s.(consumer := Popping)
    case ReadLost => s.(consumer := Clearing(s.ring.lost))
    case ClearLost =>
      s.(consumer := Popping, ring := s.ring.(lost := 0), reported := s.reported + s.consumer.seen,
         dropped := s.dropped + (s.ring.lost - s.consumer.seen))
    case PopSection(flush, collect) => Popped(if collect && s.variant.Critical? then Collected(s) else s, flush)
    case Stamp(ctr) => Stamped1(s, ctr)
    case ReleaseSection => s.(consumer := Waiting, ring := Release(s.ring))
  }

  function Collected(s: State): State {
    s.(ring := s.ring.(lost := 0), reported := s.reported + s.ring.lost)
  }

  function Popped(s: State, flush: bool): State
    requires Sized(s)
  {
    var r := PopFlush(s.ring, flush);
    var packs := if s.ring.len == 1 && s.ring.segs[s.ring.rp].size > 0 && flush then
      NewPack(s.ring, s.packs, s.granted) else s.packs;
    PoppedWellFormed(s.ring, flush);
    s.(ring := r, packs := packs, consumer := if Ready(r) then Stamping(0, 0) else Waiting)
  }

  lemma NewSegmentWellFormed(r: Ring)
    requires WellFormed(r)
    ensures WellFormed(NewSegment(r)) && |NewSegment(r).segs| == |r.segs| && NewSegment(r).rp == r.rp
  {
  }

  lemma PoppedWellFormed(r: Ring, flush: bool)
    requires WellFormed(r)
    ensures WellFormed(PopFlush(r, flush))
  {
    NewSegmentWellFormed(r);
  }

  /** One round of the loop that writes the message counters. */
  function Stamped1(s: State, ctr: nat): State
    requires ConsumerEnabled(s, Stamp(ctr))
  {
    var b, p, i, q := s.ring.segs[s.ring.rp], s.consumer.p, s.consumer.i, s.ring.rp;
    if p + HEADER < b.size then
      var dlc, field := LowWord(b.bytes, p), HighWord(b.bytes, p);
      if !(0 < dlc <= MAX_DTO) || field != SegmentRing.COMMITTED then s.(consumer := Fault)
      else
        s.(ring := SetBytes(s.ring, q, p, Word(dlc, ctr)),
           packs := SetMsg(s.packs, q, i, s.packs[q].msgs[i].(stage := SegmentPacking.Stamped, ctr := ctr)),
           drawn := s.drawn + [ctr], consumer := Stamping(p + dlc + HEADER, i + 1))
    else
      s.(consumer := Sending, sent := s.sent + [b.bytes[..b.size]], delivered := s.delivered + s.packs[q].msgs)
  }

  // ---------------------------------------------------------------- runs

  predicate Enabled(s: State, a: Action) {
    match a
    case Produce(t, p) => t < |s.producers| && ProducerEnabled(s, s.producers[t], p)
    case Consume(c) => ConsumerEnabled(s, c)
  }

  function Apply(s: State, a: Action): State
    requires Enabled(s, a)
  {
    match a
    case Produce(t, p) =>
      ProducerEffect(s, s.producers[t], p).(producers := s.producers[t := ProducerAfter(s, s.producers[t], p)])
    case Consume(c) => ConsumerEffect(s, c)
  }

  ghost predicate Steps(s: State, acts: seq<Action>, s': State)
    decreases |acts|
  {
    if acts == [] then s' == s
    else Enabled(s, acts[0]) && Steps(Apply(s, acts[0]), acts[1..], s')
  }
}
