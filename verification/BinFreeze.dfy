/** Freezing a segment in place gives the same file as writing it again, and loading finds the frozen page. */
module BinFreeze {
  import opened BinFile
  import opened BinFormat
  import opened Bytes
  import opened BinLayout
  import opened BinRoundTrip

  /** `segs` with another page at `i`. */
  function WithSegPage(segs: seq<Seg>, i: nat, page: seq<Byte>): (r: seq<Seg>)
    requires i < |segs|
    ensures |r| == |segs|
  {
    segs[i := segs[i].(page := page)]
  }

  function WithPage(r: Registry, i: nat, page: seq<Byte>): Registry
    requires i < |r.segs|
  {
    r.(segs := WithSegPage(r.segs, i, page))
  }

  lemma SpliceLeft(a: seq<Byte>, b: seq<Byte>, p: nat, data: seq<Byte>)
    requires p + |data| <= |a|
    ensures Splice(a + b, p, data) == Splice(a, p, data) + b
  {
  }

  lemma SpliceRight(a: seq<Byte>, b: seq<Byte>, p: nat, data: seq<Byte>)
    requires p + |data| <= |b|
    ensures Splice(a + b, |a| + p, data) == a + Splice(b, p, data)
  {
  }

  lemma SegPatched(index: Word16, s: Seg, page: seq<Byte>)
    requires SegOk(s) && |page| == |s.page|
    ensures SegBytes(index, s.(page := page)) == Splice(SegBytes(index, s), RECORD, page)
  {
    SpliceRight(SegRecord(Describe(index, s)), s.page, 0, page);
    assert Splice(s.page, 0, page) == page;
  }

  lemma LastPatched(segs: seq<Seg>, page: seq<Byte>)
    requires SegsOk(segs) && segs != [] && |page| == |segs[|segs| - 1].page|
    ensures var n := |segs| - 1;
      && SegsOk(WithSegPage(segs, n, page))
      && |SegsBytes(segs[..n])| + RECORD + |page| <= |SegsBytes(segs)|
      && SegsBytes(WithSegPage(segs, n, page)) == Splice(SegsBytes(segs), |SegsBytes(segs[..n])| + RECORD, page)
  {
    var n := |segs| - 1;
    assert SegOk(segs[n]);
    assert WithSegPage(segs, n, page)[..n] == segs[..n];
    SegPatched(n, segs[n], page);
    SpliceRight(SegsBytes(segs[..n]), SegBytes(n, segs[n]), RECORD, page);
  }

  lemma LaterUnpatched(segs: seq<Seg>, i: nat, page: seq<Byte>)
    requires SegsOk(segs) && i < |segs| - 1 && |page| == |segs[i].page|
    ensures var n := |segs| - 1;
      SegsOk(WithSegPage(segs, i, page)) && SegOk(segs[n]) && SegsOk(WithSegPage(segs[..n], i, page))
    ensures var n := |segs| - 1;
      SegsBytes(WithSegPage(segs, i, page)) == SegsBytes(WithSegPage(segs[..n], i, page)) + SegBytes(n, segs[n])
  {
    var n := |segs| - 1;
    assert WithSegPage(segs, i, page)[..n] == WithSegPage(segs[..n], i, page);
  }

  /** The bytes of `segs` with another page at `i` are its bytes with the page patched. */
  ghost predicate PatchesTo(segs: seq<Seg>, i: nat, page: seq<Byte>)
    requires SegsOk(segs) && i < |segs| && SegsOk(WithSegPage(segs, i, page))
  {
    var p := |SegsBytes(segs[..i])| + RECORD;
    p + |page| <= |SegsBytes(segs)| && SegsBytes(WithSegPage(segs, i, page)) == Splice(SegsBytes(segs), p, page)
  }

  lemma LastBytes(segs: seq<Seg>)
    requires SegsOk(segs) && segs != []
    ensures var n := |segs| - 1;
      SegsOk(segs[..n]) && SegOk(segs[n]) && SegsBytes(segs) == SegsBytes(segs[..n]) + SegBytes(n, segs[n])
  {
  }

  lemma PatchesLater(segs: seq<Seg>, i: nat, page: seq<Byte>)
    requires SegsOk(segs) && i < |segs| - 1 && |page| == |segs[i].page|
    requires SegsOk(segs[..|segs| - 1]) && SegsOk(WithSegPage(segs[..|segs| - 1], i, page))
    requires PatchesTo(segs[..|segs| - 1], i, page)
    ensures SegsOk(WithSegPage(segs, i, page)) && PatchesTo(segs, i, page)
  {
    var n := |segs| - 1;
    LaterUnpatched(segs, i, page);
    LastBytes(segs);
    PrefixOfPrefix(segs, n, i);
    SpliceFront(SegsBytes(segs[..n]), SegsBytes(WithSegPage(segs[..n], i, page)), SegBytes(n, segs[n]),
                |SegsBytes(segs[..i])| + RECORD, page);
  }

  lemma PrefixOfPrefix(segs: seq<Seg>, n: nat, i: nat)
    requires i <= n <= |segs|
    ensures segs[..n][..i] == segs[..i]
  {
  }

  lemma SpliceFront(a: seq<Byte>, a': seq<Byte>, b: seq<Byte>, p: nat, page: seq<Byte>)
    requires p + |page| <= |a| && a' == Splice(a, p, page)
    ensures a' + b == Splice(a + b, p, page)
  {
    SpliceLeft(a, b, p, page);
  }

  lemma {:induction false} SegsPatched(segs: seq<Seg>, i: nat, page: seq<Byte>)
    requires SegsOk(segs) && i < |segs| && |page| == |segs[i].page|
    ensures SegsOk(WithSegPage(segs, i, page)) && PatchesTo(segs, i, page)
  {
    if i == |segs| - 1 {
      LastPatched(segs, page);
    } else {
      SegsPatched(segs[..|segs| - 1], i, page);
      PatchesLater(segs, i, page);
    }
  }

  /**
    Freezing a segment - overwriting its page behind the recorded position - gives the same bytes as
    writing the file afresh with only that page replaced.
   */
  lemma FreezeIsRewrite(epk: seq<Byte>, r: Registry, i: nat, page: seq<Byte>)
    requires |epk| <= MAX_EPK && Writable(r) && i < |r.segs| && |page| == |r.segs[i].page|
    ensures Writable(WithPage(r, i, page))
    ensures var p := SegPos(r, i) + RECORD;
      p + |page| <= |FileBytes(epk, r)| && Splice(FileBytes(epk, r), p, page) == FileBytes(epk, WithPage(r, i, page))
  {
    SegsPatched(r.segs, i, page);
    var front := HeaderRecord(epk, |r.events|, |r.segs|) + EventsBytes(r.events);
    SpliceRight(front, SegsBytes(r.segs), |SegsBytes(r.segs[..i])| + RECORD, page);
  }

  predicate SameShape(segs: seq<Seg>, segs': seq<Seg>) {
    |segs'| == |segs| && forall k :: 0 <= k < |segs| ==>
      segs'[k].number == segs[k].number && |segs'[k].page| == |segs[k].page|
  }

  lemma {:induction false} SameLengths(segs: seq<Seg>, segs': seq<Seg>, l: Limits)
    requires SameShape(segs, segs')
    ensures SegsOk(segs) && SegsOk(segs') ==> |SegsBytes(segs')| == |SegsBytes(segs)|
    ensures MemoryCount(segs') == MemoryCount(segs) && PoolSum(segs', l) == PoolSum(segs, l)
    decreases |segs|
  {
    if segs != [] {
      SameLengths(segs[..|segs| - 1], segs'[..|segs| - 1], l);
    }
  }

  lemma SamePages(r: Registry, r': Registry, l: Limits)
    requires Fits(r, l) && r' == r.(segs := r'.segs) && SameShape(r.segs, r'.segs)
    ensures Fits(r', l) && (NumbersInOrder(r'.segs) <==> NumbersInOrder(r.segs))
    ensures MemoryCount(r'.segs) == MemoryCount(r.segs) && PoolSum(r'.segs, l) == PoolSum(r.segs, l)
  {
    SameLengths(r.segs, r'.segs, l);
    forall i | 0 <= i < |r.segs|
      ensures NumberOk(r'.segs, i) <==> NumberOk(r.segs, i)
    {
      SameLengths(r.segs[..i], r'.segs[..i], l);
    }
  }

  lemma SamePositions(r: Registry, i: nat, page: seq<Byte>, l: Limits)
    requires Writable(r) && i < |r.segs| && |page| == |r.segs[i].page| && Writable(WithPage(r, i, page))
    ensures Positioned(WithPage(r, i, page)) == WithPage(Positioned(r), i, page)
  {
    var r' := WithPage(r, i, page);
    forall k | 0 <= k < |r.segs|
      ensures SegPos(r', k) == SegPos(r, k)
    {
      SameLengths(r.segs[..k], r'.segs[..k], l);
    }
    forall k | 0 <= k < |r.segs|
      ensures Positioned(r').segs[k] == WithPage(Positioned(r), i, page).segs[k]
    {
      PositionedAt(r, |r.segs|, k);
      PositionedAt(r', |r.segs|, k);
    }
  }

  lemma LoadsPatched(epk: seq<Byte>, r: Registry, i: nat, page: seq<Byte>, l: Limits)
    requires ValidName(epk, MAX_EPK) && Writable(r) && Fits(r, l) && i < |r.segs| && |page| == |r.segs[i].page|
    ensures Writable(WithPage(r, i, page))
    ensures Load(FileBytes(epk, WithPage(r, i, page)), Some(epk), l) ==
              if NumbersInOrder(r.segs) then Some(WithPage(Recovered(r, l), i, page)) else None
  {
    FreezeIsRewrite(epk, r, i, page);
    SamePages(r, WithPage(r, i, page), l);
    LoadRecovers(epk, Some(epk), WithPage(r, i, page), l);
    SamePositions(r, i, page, l);
  }

  lemma PositionInFile(epk: seq<Byte>, r: Registry, i: nat)
    requires |epk| <= MAX_EPK && Writable(r) && i < |r.segs|
    ensures SegPos(r, i) < |FileBytes(epk, r)|
  {
    SegAt(r.segs, i);
  }

  /** In a file below 4 GiB the recorded position is the true one. */
  lemma RecordedPosition(epk: seq<Byte>, r: Registry, i: nat)
    requires |epk| <= MAX_EPK && Writable(r) && i < |r.segs| && |FileBytes(epk, r)| < 0x1_0000_0000
    ensures Positioned(r).segs[i].filePos == SegPos(r, i)
  {
    PositionInFile(epk, r, i);
    PositionedAt(r, |r.segs|, i);
  }

  /**
    After writing and then freezing a segment at its position, loading starts with the frozen page
    and leaves everything else as it was - again exactly if the numbers are in order.
   */
  lemma LoadAfterFreeze(epk: seq<Byte>, r: Registry, i: nat, page: seq<Byte>, l: Limits)
    requires ValidName(epk, MAX_EPK) && Writable(r) && Fits(r, l) && i < |r.segs| && |page| == |r.segs[i].page|
    ensures var p := SegPos(r, i) + RECORD;
      && p + |page| <= |FileBytes(epk, r)|
      && Load(Splice(FileBytes(epk, r), p, page), Some(epk), l) ==
           if NumbersInOrder(r.segs) then Some(WithPage(Recovered(r, l), i, page)) else None
  {
    FreezeIsRewrite(epk, r, i, page);
    LoadsPatched(epk, r, i, page, l);
  }
}
