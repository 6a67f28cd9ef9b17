/**
  What the readers of a segment can observe of a client's commands. The server fixes the program of
  the writer (its trace of stores and announcements); an RCU algorithm interleaves that program with
  the readers. Together: whatever a reader copies is the client's page at a command boundary.
 */
module CalObservation {
  import opened Bytes
  import opened VersionRegister
  import opened CalServer
  import RefCount = RefCountRcu
  import HandOver = HandOverRcu

  /** `buf` is a prefix of the client's page of segment `i` after some commands that leave no transaction open. */
  ghost predicate AtBoundary(buf: seq<Byte>, p0: Plain, cmds: seq<Command>, i: nat)
    requires |p0.access| == |p0.pages| == |p0.numbers| && i < |p0.pages|
  {
    exists k :: 0 <= k <= |cmds| && !InTransaction(cmds[..k]) && buf <= PlainRun(p0, cmds[..k]).pages[i]
  }

  lemma PrefixAtBoundary(cfg: Config, s: Server, cmds: seq<Command>, avails: seq<Avail>, i: nat,
                         trace: seq<WriterEvent>, v: nat, buf: seq<Byte>)
    requires Fresh(s) && |cmds| == |avails| && i < |s.segs|
    requires i < |Run(cfg, s, cmds, avails).segs| && trace <= Run(cfg, s, cmds, avails).segs[i].trace
    requires v < |Versions(s.segs[i].default, trace)| && buf <= Versions(s.segs[i].default, trace)[v]
    ensures AtBoundary(buf, View(s), cmds, i)
  {
    VersionsAtBoundaries(cfg, s, cmds, avails, i);
    var seg := Run(cfg, s, cmds, avails).segs[i];
    var more := seg.trace[|trace|..];
    assert seg.trace == trace + more;
    VersionsGrow(seg.default, trace, more);
    assert !InTransaction(cmds[..seg.stamps[v]]);
  }

  /** Reference counting: every byte string a lock has copied out lies at a command boundary. */
  lemma RefCountReadersSeeBoundaries(cfg: Config, s: Server, cmds: seq<Command>, avails: seq<Avail>, i: nat,
                                     spare: seq<Page>, threadCount: nat, acts: seq<RefCount.Action>, m: RefCount.State,
                                     t: nat, h: nat)
    requires Fresh(s) && |cmds| == |avails| && i < |s.segs| && RefCount.SparePages(s.segs[i].default, spare)
    requires RefCount.Steps(RefCount.Init(s.segs[i].default, spare, threadCount), acts, m)
    requires i < |Run(cfg, s, cmds, avails).segs| && m.trace <= Run(cfg, s, cmds, avails).segs[i].trace
    requires t < |m.threads| && h < |m.threads[t].locks|
    ensures m.threads[t].locks[h].loc.DefaultLoc? ==> m.threads[t].locks[h].buf <= s.segs[i].default
    ensures m.threads[t].locks[h].loc.Rcu? ==> AtBoundary(m.threads[t].locks[h].buf, View(s), cmds, i)
  {
    var l := m.threads[t].locks[h];
    RefCount.ReadersSeeCompleteVersions(s.segs[i].default, spare, threadCount, acts, m, t);
    RefCountDefault(s.segs[i].default, spare, threadCount, acts, m);
    assert RefCount.LockOk(m, l);
    if l.loc.Rcu? {
      PrefixAtBoundary(cfg, s, cmds, avails, i, m.trace, l.version, l.buf);
    }
  }

  lemma RefCountDefault(default: Page, spare: seq<Page>, threadCount: nat, acts: seq<RefCount.Action>,
                        m: RefCount.State)
    requires RefCount.Steps(RefCount.Init(default, spare, threadCount), acts, m)
    ensures m.default == default
  {
    RefCountDefaultKept(RefCount.Init(default, spare, threadCount), acts, m);
  }

  lemma {:induction false} RefCountDefaultKept(s: RefCount.State, acts: seq<RefCount.Action>, m: RefCount.State)
    requires RefCount.Steps(s, acts, m)
    ensures m.default == s.default
    decreases |acts|
  {
    if acts != [] {
      RefCountDefaultKept(RefCount.Apply(s, acts[0]), acts[1..], m);
    }
  }

  /** Lock count and page hand-over: the same. */
  lemma HandOverReadersSeeBoundaries(cfg: Config, s: Server, cmds: seq<Command>, avails: seq<Avail>, i: nat,
                                     spare: Page, threadCount: nat, acts: seq<HandOver.Action>, m: HandOver.State,
                                       t: nat, n: nat)
    requires Fresh(s) && |cmds| == |avails| && i < |s.segs|
    requires |spare| == |s.segs[i].default|
    requires HandOver.Steps(HandOver.Init(s.segs[i].default, spare, threadCount), acts, m)
    requires i < |Run(cfg, s, cmds, avails).segs| && m.trace <= Run(cfg, s, cmds, avails).segs[i].trace
    requires t < |m.threads| && n < |m.threads[t].locks|
    ensures m.threads[t].locks[n].loc.DefaultLoc? ==> m.threads[t].locks[n].buf <= s.segs[i].default
    ensures m.threads[t].locks[n].loc.Rcu? ==> AtBoundary(m.threads[t].locks[n].buf, View(s), cmds, i)
  {
    var l := m.threads[t].locks[n];
    HandOver.ReadersSeeCompleteVersions(s.segs[i].default, spare, threadCount, acts, m, t);
    HandOverDefaultKept(HandOver.Init(s.segs[i].default, spare, threadCount), acts, m);
    assert HandOver.LockOk(m, l);
    if l.loc.Rcu? {
      PrefixAtBoundary(cfg, s, cmds, avails, i, m.trace, l.version, l.buf);
    }
  }

  lemma {:induction false} HandOverDefaultKept(s: HandOver.State, acts: seq<HandOver.Action>, m: HandOver.State)
    requires HandOver.Steps(s, acts, m)
    ensures m.default == s.default
    decreases |acts|
  {
    if acts != [] {
      HandOverDefaultKept(HandOver.Apply(s, acts[0]), acts[1..], m);
    }
  }
}
