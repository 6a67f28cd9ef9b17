/** How entries lie in the ring of the variable-size queue, and what a write into one of them leaves alone. */
module VarQueueMemory {
  import opened Arithmetic
  import opened Bytes
  import opened QueueEntry
  import opened VarQueue

  predicate Disjoint(e1: Entry, e2: Entry) {
    e1.pos + HEADER + e1.len <= e2.pos || e2.pos + HEADER + e2.len <= e1.pos
  }

  lemma EntriesApart(size: nat, e1: Entry, e2: Entry)
    requires size > 0 && e1.pos == e1.cur % size && e2.pos == e2.cur % size
    requires End(e1) <= e2.cur && End(e2) <= e1.cur + size
    ensures Disjoint(e1, e2)
  {
    PositionsApart(size, e1.cur, HEADER + e1.len, e2.cur, HEADER + e2.len);
  }

  /** Unreleased entries lie inside the buffer and its slack, and never overlap. */
  ghost predicate Separate(s: State) {
    && (forall j :: s.released <= j < |s.log| ==> s.log[j].pos + HEADER + s.log[j].len <= |s.buf|)
    && (forall j, k :: s.released <= j < |s.log| && s.released <= k < |s.log| && j != k ==>
      Disjoint(s.log[j], s.log[k]))
  }

  lemma LiveCursors(s: State, j: nat, k: nat)
    requires Ordered(s) && Window(s) && s.released <= j < k < |s.log|
    ensures End(s.log[j]) <= s.log[k].cur && End(s.log[k]) <= s.log[j].cur + s.size
  {
    assert s.tail <= s.log[j].cur;
  }

  lemma LiveApart(s: State)
    requires Sized(s.size, s.buf) && Entries(s) && Ordered(s) && Placed(s) && Window(s)
    ensures Separate(s)
  {
    forall j, k | s.released <= j < k < |s.log|
      ensures Disjoint(s.log[j], s.log[k])
    {
      LiveCursors(s, j, k);
      EntriesApart(s.size, s.log[j], s.log[k]);
    }
    forall j | s.released <= j < |s.log|
      ensures s.log[j].pos + HEADER + s.log[j].len <= |s.buf|
    {
      Fits(s, j);
    }
  }

  lemma Fits(s: State, j: nat)
    requires Sized(s.size, s.buf) && Entries(s) && Placed(s) && j < |s.log|
    ensures s.log[j].pos < s.size && s.log[j].pos + HEADER + s.log[j].len <= |s.buf|
  {
    assert EntryOk(s.log[j]);
  }

  lemma HeaderPosition(cur: nat, size: nat)
    requires size > 0 && cur % ALIGNMENT == 0 && size % ALIGNMENT == 0
    ensures (cur % size) % ALIGNMENT == 0 && cur % size + HEADER <= size
  {
    ScaledRemainder(ALIGNMENT, cur / ALIGNMENT, size / ALIGNMENT);
    assert cur == ALIGNMENT * (cur / ALIGNMENT) && size == ALIGNMENT * (size / ALIGNMENT);
  }

  /** The atomic header is aligned and lies in the buffer proper, never in the slack. */
  lemma HeaderIsAligned(s: State, j: nat)
    requires Sized(s.size, s.buf) && Entries(s) && Placed(s) && j < |s.log|
    ensures s.log[j].pos % ALIGNMENT == 0 && s.log[j].pos + HEADER <= s.size
  {
    assert EntryOk(s.log[j]);
    HeaderPosition(s.log[j].cur, s.size);
  }

  // ---------------------------------------------------------------- memory steps

  /** `s'` differs from `s` at most in what the region of entry `j` holds and in the stage of entry `j`. */
  ghost predicate OnlyEntryChanged(s: State, s': State, j: nat) {
    && s'.size == s.size && s'.released == s.released && s'.head == s.head && s'.tail == s.tail
    && |s'.buf| == |s.buf| && |s'.log| == |s.log| && j < |s.log|
    && (forall i :: 0 <= i < |s.log| && i != j ==> s'.log[i] == s.log[i])
    && s'.log[j].cur == s.log[j].cur && s'.log[j].pos == s.log[j].pos && s'.log[j].len == s.log[j].len
    && |s'.log[j].payload| == |s.log[j].payload|
    && (forall x :: 0 <= x < |s.buf| && !InRegion(s.log[j], x) ==> s'.buf[x] == s.buf[x])
  }

  lemma ImageFrame(buf: seq<Byte>, buf': seq<Byte>, e: Entry)
    requires Image(buf, e) && |buf'| == |buf|
    requires forall x :: InRegion(e, x) && 0 <= x < |buf| ==> buf'[x] == buf[x]
    ensures Image(buf', e)
  {
    assert forall x :: e.pos <= x < e.pos + HEADER + e.len ==> InRegion(e, x);
    assert buf'[e.pos..e.pos + HEADER] == buf[e.pos..e.pos + HEADER];
    assert buf'[e.pos + HEADER + USER_HEADER..e.pos + HEADER + e.len] ==
      buf[e.pos + HEADER + USER_HEADER..e.pos + HEADER + e.len];
  }

  lemma OtherEntryKept(s: State, s': State, j: nat, i: nat)
    requires Separate(s) && Memory(s)
    requires OnlyEntryChanged(s, s', j) && s.released <= j && s.released <= i < |s.log| && i != j
    requires if j == s.released then true else Cleared(s') == Cleared(s) <= HEADER + s.log[s.released].len
    ensures EntryMemory(s', i)
  {
    assert Disjoint(s.log[i], s.log[j]);
    assert EntryMemory(s, i);
    var e := s.log[i];
    if i == s.released && Cleared(s) > 0 {
      forall x | e.pos <= x < e.pos + Cleared(s) && x < |s.buf|
        ensures s'.buf[x] == 0
      {
        assert InRegion(e, x) && !InRegion(s.log[j], x);
        assert s.buf[x] == 0;
      }
    } else {
      forall x | InRegion(e, x)
        ensures s'.buf[x] == s.buf[x]
      {
        assert !InRegion(s.log[j], x);
      }
      ImageFrame(s.buf, s'.buf, e);
    }
  }

  /** Writing into the region of one unreleased entry keeps the whole memory in order. */
  lemma RegionWrite(s: State, s': State, j: nat)
    requires Separate(s) && Memory(s)
    requires s.released <= j && OnlyEntryChanged(s, s', j)
    requires if j == s.released then true else Cleared(s') == Cleared(s) <= HEADER + s.log[s.released].len
    requires EntryMemory(s', j)
    ensures Memory(s')
  {
    forall i | s'.released <= i < |s'.log|
      ensures EntryMemory(s', i)
    {
      if i != j {
        OtherEntryKept(s, s', j, i);
      }
    }
    forall x | 0 <= x < |s'.buf| && Free(s', x)
      ensures s'.buf[x] == 0
    {
      assert !InRegion(s'.log[j], x);
      forall i | s.released <= i < |s.log|
        ensures !InRegion(s.log[i], x)
      {
        assert !InRegion(s'.log[i], x);
      }
      assert Free(s, x);
    }
  }
}
