/**
  The abstract specification of a calibration segment: a register of complete page versions.

  One writer stores bytes into a private working page and now and then announces the whole
  working page as a new version. Any number of clients take a hold on a version (or on the
  immutable default page), copy the held page out byte by byte and drop the hold.
  Both RCU algorithms of the repository are proved to refine this register.
 */
module VersionRegister {
  import opened Bytes

  type Page = seq<Byte>

  /** What the writer did, in program order. */
  datatype WriterEvent = Store(off: nat, val: Byte) | Announce

  /** The private page of the writer after `trace`, starting from `page`. */
  function Working(page: Page, trace: seq<WriterEvent>): (w: Page)
    ensures |w| == |page|
  {
    if trace == [] then page
    else
      var w := Working(page, trace[..|trace| - 1]);
      match trace[|trace| - 1]
      case Store(off, val) => if off < |w| then w[off := val] else w
      case Announce => w
  }

  /** All versions announced in `trace`; version 0 is the initial page. */
  function Versions(page: Page, trace: seq<WriterEvent>): (vs: seq<Page>)
    ensures |vs| > 0
    ensures forall v :: 0 <= v < |vs| ==> |vs[v]| == |page|
  {
    if trace == [] then [page]
    else
      var before := trace[..|trace| - 1];
      match trace[|trace| - 1]
      case Store(_, _) => Versions(page, before)
      case Announce => Versions(page, before) + [Working(page, before)]
  }

  datatype Source = Default | Version(v: nat)

  /** A hold and the bytes that its client has copied out so far. */
  datatype Hold = Hold(src: Source, buf: seq<Byte>)

  /** `seen` lists the versions returned by the client's locks on the working page, in order. */
  datatype Client = Client(holds: seq<Hold>, seen: seq<nat>)

  datatype Register = Register(default: Page, trace: seq<WriterEvent>, clients: seq<Client>)

  datatype Op =
    | Skip
    | Write(event: WriterEvent)
    | Take(c: nat, src: Source)
    | Read(c: nat, h: nat)
    | Drop(c: nat, h: nat)

  predicate Known(page: Page, trace: seq<WriterEvent>, src: Source) {
    src.Version? ==> src.v < |Versions(page, trace)|
  }

  function Content(page: Page, trace: seq<WriterEvent>, src: Source): (p: Page)
    requires Known(page, trace, src)
    ensures |p| == |page|
  {
    match src
    case Default => page
    case Version(v) => Versions(page, trace)[v]
  }

  predicate ClientEnabled(page: Page, trace: seq<WriterEvent>, cl: Client, op: Op) {
    match op
    case Take(_, src) =>
      && Known(page, trace, src)
      && (src.Version? ==> forall i :: 0 <= i < |cl.seen| ==> cl.seen[i] <= src.v)
    case Read(_, h) => h < |cl.holds| && Known(page, trace, cl.holds[h].src) && |cl.holds[h].buf| < |page|
    case Drop(_, h) => h < |cl.holds|
    case _ => false
  }

  function ClientAfter(page: Page, trace: seq<WriterEvent>, cl: Client, op: Op): Client
    requires ClientEnabled(page, trace, cl, op)
  {
    match op
    case Take(_, src) => Client(cl.holds + [Hold(src, [])], if src.Version? then cl.seen + [src.v] else cl.seen)
    case Read(_, h) =>
      var hold := cl.holds[h];
      cl.(holds := cl.holds[h := hold.(buf := hold.buf + [Content(page, trace, hold.src)[|hold.buf|]])])
    case Drop(_, h) => cl.(holds := RemoveAt(cl.holds, h))
  }

  predicate Enabled(r: Register, op: Op) {
    match op
    case Skip => true
    case Write(event) => event.Store? ==> event.off < |r.default|
    case _ => op.c < |r.clients| && ClientEnabled(r.default, r.trace, r.clients[op.c], op)
  }

  function Apply(r: Register, op: Op): Register
    requires Enabled(r, op)
  {
    match op
    case Skip => r
    case Write(event) => r.(trace := r.trace + [event])
    case _ => r.(clients := r.clients[op.c := ClientAfter(r.default, r.trace, r.clients[op.c], op)])
  }

  ghost predicate Runs(r: Register, ops: seq<Op>, r': Register)
    decreases |ops|
  {
    if ops == [] then r' == r
    else Enabled(r, ops[0]) && Runs(Apply(r, ops[0]), ops[1..], r')
  }

  function Init(page: Page, clients: nat): Register {
    Register(page, [], seq(clients, _ => Client([], [])))
  }

  /** Every copied prefix is a prefix of one complete version, and no client ever goes back. */
  ghost predicate Consistent(r: Register) {
    forall c :: 0 <= c < |r.clients| ==> ClientConsistent(r, r.clients[c])
  }

  ghost predicate ClientConsistent(r: Register, cl: Client) {
    && (forall h :: 0 <= h < |cl.holds| ==>
          Known(r.default, r.trace, cl.holds[h].src) && cl.holds[h].buf <= Content(r.default, r.trace, cl.holds[h].src))
    && (forall i, j :: 0 <= i < j < |cl.seen| ==> cl.seen[i] <= cl.seen[j])
  }

  /** Versions are only ever added: a longer trace keeps the earlier versions. */
  lemma {:induction false} VersionsGrow(page: Page, trace: seq<WriterEvent>, more: seq<WriterEvent>)
    ensures Versions(page, trace) <= Versions(page, trace + more)
    decreases |more|
  {
    if more == [] {
      assert trace + more == trace;
    } else {
      var init := more[..|more| - 1];
      VersionsGrow(page, trace, init);
      assert (trace + more)[..|trace + more| - 1] == trace + init;
    }
  }

  /** One more event of the writer. */
  lemma TraceStep(page: Page, trace: seq<WriterEvent>, e: WriterEvent)
    ensures Working(page, trace + [e]) ==
      var w := Working(page, trace); if e.Store? && e.off < |w| then Put(w, e.off, e.val) else w
    ensures Versions(page, trace + [e]) ==
      if e.Announce? then Versions(page, trace) + [Working(page, trace)] else Versions(page, trace)
  {
    assert (trace + [e])[..|trace|] == trace;
  }

  /** A version is the whole working page at one point of the writer's program. */
  lemma {:induction false} VersionIsSnapshot(page: Page, trace: seq<WriterEvent>, v: nat) returns (k: nat)
    requires v < |Versions(page, trace)|
    ensures k <= |trace|
    ensures Versions(page, trace)[v] == Working(page, trace[..k])
    ensures v > 0 ==> k < |trace| && trace[k] == Announce
  {
    if trace == [] {
      k := 0;
    } else {
      var before := trace[..|trace| - 1];
      if v < |Versions(page, before)| {
        k := VersionIsSnapshot(page, before, v);
        assert before[..k] == trace[..k];
      } else {
        k := |trace| - 1;
      }
    }
  }

  lemma ClientStays(r: Register, r': Register, cl: Client)
    requires ClientConsistent(r, cl) && r'.default == r.default
    requires Versions(r.default, r.trace) <= Versions(r'.default, r'.trace)
    ensures ClientConsistent(r', cl)
  {
    forall h | 0 <= h < |cl.holds|
      ensures Known(r'.default, r'.trace, cl.holds[h].src) &&
        cl.holds[h].buf <= Content(r'.default, r'.trace, cl.holds[h].src)
    {
      assert Known(r.default, r.trace, cl.holds[h].src);
    }
  }

  lemma OwnClient(r: Register, op: Op)
    requires Enabled(r, op) && (op.Take? || op.Read? || op.Drop?) && ClientConsistent(r, r.clients[op.c])
    ensures ClientConsistent(r, Apply(r, op).clients[op.c])
  {
    var cl, cl' := r.clients[op.c], Apply(r, op).clients[op.c];
    forall h | 0 <= h < |cl'.holds|
      ensures Known(r.default, r.trace, cl'.holds[h].src) &&
        cl'.holds[h].buf <= Content(r.default, r.trace, cl'.holds[h].src)
    {
      var m := if op.Drop? && h >= op.h then h + 1 else h;
      if m < |cl.holds| {
        assert Known(r.default, r.trace, cl.holds[m].src) &&
          cl.holds[m].buf <= Content(r.default, r.trace, cl.holds[m].src);
      }
    }
  }

  lemma StepConsistent(r: Register, op: Op)
    requires Consistent(r) && Enabled(r, op)
    ensures Consistent(Apply(r, op))
  {
    var r' := Apply(r, op);
    if op.Write? {
      VersionsGrow(r.default, r.trace, [op.event]);
    } else if !op.Skip? {
      OwnClient(r, op);
    }
    forall c | 0 <= c < |r'.clients|
      ensures ClientConsistent(r', r'.clients[c])
    {
      assert ClientConsistent(r, r'.clients[c]);
      ClientStays(r, r', r'.clients[c]);
    }
  }

  /** No torn read and no step back, in every run of the register. */
  lemma {:induction false} RunConsistent(r: Register, ops: seq<Op>, r': Register)
    requires Consistent(r) && Runs(r, ops, r')
    ensures Consistent(r')
    decreases |ops|
  {
    if ops != [] {
      StepConsistent(r, ops[0]);
      RunConsistent(Apply(r, ops[0]), ops[1..], r');
    }
  }
}
