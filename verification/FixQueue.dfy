/**
  The lock-free queue with slots of fixed size: many producers, one consumer.

  The cursors count bytes and advance by one slot; a slot holds an atomic entry header (length and
  commit state) and the entry data. Producers refresh the tail after a failed compare-and-swap and
  may still work with a stale one. The consumer clears the header of a released slot, but not its
  data, and advances `tail`. One action is one atomic access or one byte of a payload copy.
 */
module FixQueue {
  import opened Arithmetic
  import opened Bytes
  import opened QueueEntry
  import R = ReservationQueue

  type Payload = R.Payload

  const MAX_PAYLOAD := 248
  const MAX_ENTRY := MAX_PAYLOAD + USER_HEADER
  const SLOT_SIZE := MAX_ENTRY + HEADER

  /** The atomic entry header: low word and high word. */
  datatype Header = Header(len: nat, state: nat)

  const CLEAR := Header(0, 0)

  datatype Slot = Slot(header: Header, data: seq<Byte>)

  datatype Stage = Claimed | Marked | Committed

  /** One entry of the log of all reservations: entry `j` has the cursor `j * SLOT_SIZE`. */
  datatype Entry = Entry(slot: nat, len: nat, stage: Stage, payload: Payload)

  /** The consumer's buffer: a slot and the length it read from its header. */
  datatype Buffer = Buffer(slot: nat, len: nat)

  datatype Producer =
    | Idle
    | LoadTail(len: nat)
    | LoadHead(len: nat, tail: nat)
    | Reserve(len: nat, tail: nat, head: nat)
    | Refresh(len: nat, head: nat)
    | Overrun
    | Mark(e: nat, slot: nat, len: nat)
    | Fill(e: nat, slot: nat, len: nat)

  datatype ConsumerPc =
    | Ready
    | PeekHead(index: nat)
    | PeekEntry(index: nat, head: nat)
    | Advance
    | Fault

  datatype Consumer = Consumer(pc: ConsumerPc, bufs: map<nat, Buffer>)

  /** `log`, `released`, `received`, `acquires` and `reported` are bookkeeping that no branch depends on. */
  datatype State = State(
    slots: seq<Slot>,
    head: nat,
    tail: nat,
    lost: nat,
    producers: seq<Producer>,
    consumer: Consumer,
    log: seq<Entry>,
    released: nat,
    received: seq<Payload>,
    acquires: nat,
    reported: nat)

  datatype ProducerStep =
    | AcquireStart(packetLen: nat)
    | ReadTail
    | ReadHead
    | TryReserve(spurious: bool)
    | CountLost
    | StoreReserved
    | WriteByte(off: nat, val: Byte)
    | Push

  datatype ConsumerStep =
    | PeekStart(index: nat, collectLost: bool)
    | PeekReadHead
    | PeekReadEntry
    | WriteUserHeader(m: nat, off: nat, val: Byte)
    | ClearHeader
    | AdvanceTail

  datatype Action = Produce(t: nat, p: ProducerStep) | Consume(c: ConsumerStep)

  function BufferSize(s: State): nat { |s.slots| * SLOT_SIZE }

  /** The slot that lies at `cursor % buffer_size`. */
  function SlotAt(cur: nat, size: nat): nat
    requires size > 0
  {
    (cur % size) / SLOT_SIZE
  }

  function Init(slotCount: nat, producerCount: nat): State {
    State(seq(slotCount, _ => Slot(CLEAR, Zeros(MAX_ENTRY))), 0, 0, 0, seq(producerCount, _ => Idle),
          Consumer(Ready, map[]), [], 0, [], 0, 0)
  }

  // ---------------------------------------------------------------- the producers

  predicate Reserves(s: State, p: Producer, spurious: bool)
    requires p.Reserve?
  {
    !Overruns(BufferSize(s), p.len, p.tail, p.head) && !spurious && s.head == p.head
  }

  predicate InSlots(s: State, e: nat, slot: nat) {
    e < |s.log| && slot < |s.slots|
  }

  predicate ProducerEnabled(s: State, p: Producer, step: ProducerStep) {
    match step
    case AcquireStart(_) => p.Idle?
    case ReadTail => p.LoadTail? || p.Refresh?
    case ReadHead => p.LoadHead?
    case TryReserve(_) =>
      p.Reserve? && |s.slots| > 0 && SlotAt(p.head, BufferSize(s)) < |s.slots| &&
      USER_HEADER <= p.len <= |s.slots[SlotAt(p.head, BufferSize(s))].data|
    case CountLost => p.Overrun?
    case StoreReserved => p.Mark? && InSlots(s, p.e, p.slot)
    case WriteByte(off, _) =>
      p.Fill? && InSlots(s, p.e, p.slot) && off < p.len - USER_HEADER &&
      USER_HEADER + off < |s.slots[p.slot].data| && off < |s.log[p.e].payload|
    case Push => p.Fill? && InSlots(s, p.e, p.slot)
  }

  function ProducerAfter(s: State, p: Producer, step: ProducerStep): Producer
    requires ProducerEnabled(s, p, step)
  {
    match step
    case AcquireStart(packetLen) =>
      if ValidPacket(packetLen, MAX_PAYLOAD) then LoadTail(EntryLength(packetLen)) else Idle
    case ReadTail => if p.LoadTail? then LoadHead(p.len, s.tail) else Reserve(p.len, s.tail, p.head)
    case ReadHead => Reserve(p.len, p.tail, s.head)
    case TryReserve(spurious) =>
      if Overruns(BufferSize(s), p.len, p.tail, p.head) then Overrun
      else if Reserves(s, p, spurious) then Mark(|s.log|, SlotAt(p.head, BufferSize(s)), p.len)
      else Refresh(p.len, s.head)
    case StoreReserved => Fill(p.e, p.slot, p.len)
    case WriteByte(_, _) => p
    case CountLost => Idle
    case Push => Idle
  }

  function SetHeader(slots: seq<Slot>, i: nat, header: Header): seq<Slot>
    requires i < |slots|
  {
    slots[i := slots[i].(header := header)]
  }

  function SetByte(slots: seq<Slot>, i: nat, off: nat, val: Byte): seq<Slot>
    requires i < |slots| && off < |slots[i].data|
  {
    slots[i := slots[i].(data := Put(slots[i].data, off, val))]
  }

  function ProducerEffect(s: State, p: Producer, step: ProducerStep): State
    requires ProducerEnabled(s, p, step)
  {
    match step
    case AcquireStart(packetLen) =>
      if ValidPacket(packetLen, MAX_PAYLOAD) then s.(acquires := s.acquires + 1) else s
    case TryReserve(spurious) =>
      if Reserves(s, p, spurious) then
        var slot := SlotAt(p.head, BufferSize(s));
        // The payload starts out as whatever the slot still holds
        s.(head := p.head + SLOT_SIZE,
          log := s.log + [Entry(slot, p.len, Claimed, s.slots[slot].data[USER_HEADER..p.len])])
      else s
    case CountLost => s.(lost := s.lost + 1)
    case StoreReserved =>
      s.(slots := SetHeader(s.slots, p.slot, Header(p.len, 0)), log := s.log[p.e := s.log[p.e].(stage := Marked)])
    case WriteByte(off, val) =>
      s.(slots := SetByte(s.slots, p.slot, USER_HEADER + off, val),
         log := s.log[p.e := s.log[p.e].(payload := Put(s.log[p.e].payload, off, val))])
    case Push =>
      s.(slots := SetHeader(s.slots, p.slot, Header(p.len, COMMITTED)),
        log := s.log[p.e := s.log[p.e].(stage := Committed)])
    case _ => s
  }

  // ---------------------------------------------------------------- the consumer

  predicate Holds(s: State, m: nat) {
    && m in s.consumer.bufs
    && s.consumer.bufs[m].slot < |s.slots|
    && USER_HEADER <= s.consumer.bufs[m].len <= |s.slots[s.consumer.bufs[m].slot].data|
  }

  predicate ConsumerEnabled(s: State, step: ConsumerStep) {
    var c := s.consumer;
    match step
    case PeekStart(_, _) => c.pc.Ready?
    case PeekReadHead => c.pc.PeekHead?
    case PeekReadEntry => c.pc.PeekEntry? && |s.slots| > 0 &&
      SlotAt(s.tail + c.pc.index * SLOT_SIZE, BufferSize(s)) < |s.slots|
    case WriteUserHeader(m, off, _) => c.pc.Ready? && m >= s.released && Holds(s, m) && off < USER_HEADER
    // The user contract: entries are released in order
    case ClearHeader => c.pc.Ready? && Holds(s, s.released)
    case AdvanceTail => c.pc.Advance?
  }

  function ConsumerAfter(s: State, step: ConsumerStep): Consumer
    requires ConsumerEnabled(s, step)
  {
    var c := s.consumer;
    match step
    case PeekStart(index, _) => c.(pc := PeekHead(index))
    case PeekReadHead => c.(pc := PeekEntry(c.pc.index, s.head))
    case PeekReadEntry =>
      var cur := s.tail + c.pc.index * SLOT_SIZE;
      if c.pc.head <= cur then c.(pc := Ready)
      else
        var slot := SlotAt(cur, BufferSize(s));
        var header := s.slots[slot].header;
        if header.state != COMMITTED then (if header.state != 0 then c.(pc := Fault) else c.(pc := Ready))
        else if !(0 < header.len <= MAX_ENTRY) then c.(pc := Fault)
        else c.(pc := Ready, bufs := c.bufs[s.released + c.pc.index := Buffer(slot, header.len)])
    case WriteUserHeader(_, _, _) => c
    case ClearHeader => c.(pc := Advance)
    case AdvanceTail => c.(pc := Ready)
  }

  function ConsumerEffect(s: State, step: ConsumerStep): State
    requires ConsumerEnabled(s, step)
  {
    match step
    case PeekStart(_, collectLost) => if collectLost then s.(lost := 0, reported := s.reported + s.lost) else s
    case WriteUserHeader(m, off, val) => s.(slots := SetByte(s.slots, s.consumer.bufs[m].slot, off, val))
    case ClearHeader =>
      var b := s.consumer.bufs[s.released];
      s.(received := s.received + [s.slots[b.slot].data[USER_HEADER..b.len]],
        slots := SetHeader(s.slots, b.slot, CLEAR))
    case AdvanceTail => s.(tail := s.tail + SLOT_SIZE, released := s.released + 1)
    case _ => s
  }

  // ---------------------------------------------------------------- runs

  predicate Enabled(s: State, a: Action) {
    match a
    case Produce(t, p) => t < |s.producers| && ProducerEnabled(s, s.producers[t], p)
    case Consume(c) => ConsumerEnabled(s, c)
  }

  function Apply(s: State, a: Action): State
    requires Enabled(s, a)
  {
    match a
    case Produce(t, p) =>
      ProducerEffect(s, s.producers[t], p).(producers := s.producers[t := ProducerAfter(s, s.producers[t], p)])
    case Consume(c) => ConsumerEffect(s, c).(consumer := ConsumerAfter(s, c))
  }

  ghost predicate Steps(s: State, acts: seq<Action>, s': State)
    decreases |acts|
  {
    if acts == [] then s' == s
    else Enabled(s, acts[0]) && Steps(Apply(s, acts[0]), acts[1..], s')
  }

  // ---------------------------------------------------------------- the invariant

  ghost predicate Shape(s: State) {
    && |s.slots| > 0
    && (forall i :: 0 <= i < |s.slots| ==> |s.slots[i].data| == MAX_ENTRY)
    && (forall j :: 0 <= j < |s.log| ==>
      ValidLength(s.log[j].len, MAX_PAYLOAD) && |s.log[j].payload| == s.log[j].len - USER_HEADER)
  }

  /** The cursors are slot boundaries, and the unreleased entries fit the slots. */
  ghost predicate Window(s: State) {
    && s.head == |s.log| * SLOT_SIZE
    && s.tail == s.released * SLOT_SIZE
    && s.released <= |s.log| <= s.released + |s.slots|
  }

  ghost predicate Placed(s: State)
    requires |s.slots| > 0
  {
    forall j :: 0 <= j < |s.log| ==> s.log[j].slot == j % |s.slots|
  }

  /** No slot is reused before it is released. */
  ghost predicate Separate(s: State) {
    && (forall j :: s.released <= j < |s.log| ==> s.log[j].slot < |s.slots|)
    && (forall j, k :: s.released <= j < k < |s.log| ==> s.log[j].slot != s.log[k].slot)
  }

  /** The entry whose header is cleared, but which the tail has not passed yet. */
  predicate Leaving(s: State, j: nat) { s.consumer.pc.Advance? && j == s.released }

  function HeaderOf(e: Entry): Header {
    match e.stage
    case Claimed => CLEAR
    case Marked => Header(e.len, 0)
    case Committed => Header(e.len, COMMITTED)
  }

  ghost predicate EntryMemory(s: State, j: nat)
    requires j < |s.log|
  {
    var e := s.log[j];
    && e.slot < |s.slots|
    && USER_HEADER <= e.len <= |s.slots[e.slot].data|
    && s.slots[e.slot].header == (if Leaving(s, j) then CLEAR else HeaderOf(e))
    && (!Leaving(s, j) ==> s.slots[e.slot].data[USER_HEADER..e.len] == e.payload)
  }

  ghost predicate Free(s: State, i: nat) {
    forall j :: s.released <= j < |s.log| ==> s.log[j].slot != i
  }

  /** Slots of unreleased entries hold what was written into them, and all other headers are clear. */
  ghost predicate Memory(s: State) {
    && (forall j :: s.released <= j < |s.log| ==> EntryMemory(s, j))
    && (forall i :: 0 <= i < |s.slots| && Free(s, i) ==> s.slots[i].header == CLEAR)
  }

  predicate Owns(p: Producer) { p.Mark? || p.Fill? }

  ghost predicate ProducerOk(s: State, p: Producer) {
    match p
    case LoadTail(len) => ValidLength(len, MAX_PAYLOAD)
    case LoadHead(len, tail) => ValidLength(len, MAX_PAYLOAD) && tail <= s.tail && tail % SLOT_SIZE == 0
    case Reserve(len, tail, head) => ValidLength(len, MAX_PAYLOAD) && tail <= s.tail && tail % SLOT_SIZE == 0 &&
      head % SLOT_SIZE == 0
    case Refresh(len, head) => ValidLength(len, MAX_PAYLOAD) && head % SLOT_SIZE == 0
    case Mark(e, slot, len) =>
      s.released <= e < |s.log| && s.log[e].stage == Claimed && slot == s.log[e].slot && len == s.log[e].len
    case Fill(e, slot, len) =>
      s.released <= e < |s.log| && s.log[e].stage == Marked && slot == s.log[e].slot && len == s.log[e].len
    case _ => true
  }

  ghost predicate ProducersOk(s: State) {
    && (forall t :: 0 <= t < |s.producers| ==> ProducerOk(s, s.producers[t]))
    && (forall t, u :: 0 <= t < u < |s.producers| && Owns(s.producers[t]) && Owns(s.producers[u]) ==>
          s.producers[t].e != s.producers[u].e)
  }

  ghost predicate BufferOk(s: State, m: nat, b: Buffer) {
    m < |s.log| && s.log[m].stage == Committed && b == Buffer(s.log[m].slot, s.log[m].len)
  }

  ghost predicate ConsumerOk(s: State) {
    var c := s.consumer;
    && (forall m :: m in c.bufs && m >= s.released ==> BufferOk(s, m, c.bufs[m]))
    && (match c.pc
        case PeekEntry(_, head) => head <= s.head
        case Advance => s.released < |s.log| && s.log[s.released].stage == Committed
        case Fault => false
        case _ => true)
  }

  ghost predicate Delivered(s: State) {
    |s.received| == s.released + (if s.consumer.pc.Advance? then 1 else 0)
  }

  ghost predicate Inv(s: State) {
    && Shape(s)
    && Window(s)
    && Placed(s)
    && Memory(s)
    && ProducersOk(s)
    && ConsumerOk(s)
    && Delivered(s)
  }

  // ---------------------------------------------------------------- arithmetic of the ring

  lemma SlotOfEntry(j: nat, k: nat)
    requires k > 0
    ensures SlotAt(j * SLOT_SIZE, k * SLOT_SIZE) == j % k
  {
    ScaledRemainder(SLOT_SIZE, j, k);
    assert SLOT_SIZE * j == j * SLOT_SIZE && SLOT_SIZE * k == k * SLOT_SIZE;
  }

  lemma DifferentSlots(j: nat, m: nat, k: nat)
    requires k > 0 && j < m < j + k
    ensures j % k != m % k
  {
    PositionsApart(k, j, 1, m, 1);
  }

  lemma LiveApart(s: State)
    requires |s.slots| > 0 && Window(s) && Placed(s)
    ensures Separate(s)
  {
    forall j, m | s.released <= j < m < |s.log|
      ensures s.log[j].slot != s.log[m].slot
    {
      DifferentSlots(j, m, |s.slots|);
    }
  }

  /**
    The overrun test, although written with the length of the entry, is exactly "all slots are in
    use" for the tail and head it is given.
   */
  lemma OverrunIsFull(slotCount: nat, len: nat, tail: nat, head: nat)
    requires slotCount > 0 && ValidLength(len, MAX_PAYLOAD) && tail % SLOT_SIZE == 0 && head % SLOT_SIZE == 0
    ensures Overruns(slotCount * SLOT_SIZE, len, tail, head) <==> head - tail >= slotCount * SLOT_SIZE
  {
  }
}
