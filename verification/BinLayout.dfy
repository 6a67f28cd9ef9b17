/** Where events and segments lie in a written file. */
module BinLayout {
  import opened BinFile
  import opened BinFormat
  import opened Bytes

  lemma {:induction false} EventAt(events: seq<Event>, k: nat)
    requires EventsOk(events) && k < |events|
    ensures EventOk(events[k]) && EventsBytes(events)[RECORD * k..RECORD * k + RECORD] == EventRecord(k, events[k])
  {
    var n := |events| - 1;
    if k < n {
      EventAt(events[..n], k);
      assert EventsBytes(events)[RECORD * k..RECORD * k + RECORD] ==
        EventsBytes(events[..n])[RECORD * k..RECORD * k + RECORD];
    }
  }

  lemma SliceLeft(a: seq<Byte>, b: seq<Byte>, i: nat, j: nat)
    requires i <= j <= |a|
    ensures (a + b)[i..j] == a[i..j]
  {
  }

  lemma SliceRight(a: seq<Byte>, b: seq<Byte>, i: nat, j: nat)
    requires i <= j <= |b|
    ensures (a + b)[|a| + i..|a| + j] == b[i..j]
  {
  }

  /** Segment `k` starts `p` bytes behind the first one. */
  ghost predicate SegLies(segs: seq<Seg>, k: nat, p: nat)
    requires SegsOk(segs) && k < |segs| && SegOk(segs[k])
  {
    var q := p + RECORD + |segs[k].page|;
    q <= |SegsBytes(segs)| && SegsBytes(segs)[p..q] == SegBytes(k, segs[k])
  }

  lemma LastSegLies(segs: seq<Seg>)
    requires SegsOk(segs) && segs != []
    ensures var n := |segs| - 1; SegOk(segs[n]) && SegLies(segs, n, |SegsBytes(segs[..n])|)
  {
    var n := |segs| - 1;
    assert SegOk(segs[n]);
    SliceRight(SegsBytes(segs[..n]), SegBytes(n, segs[n]), 0, RECORD + |segs[n].page|);
  }

  lemma {:induction false} SegAt(segs: seq<Seg>, k: nat)
    requires SegsOk(segs) && k < |segs|
    ensures SegOk(segs[k]) && SegLies(segs, k, |SegsBytes(segs[..k])|)
  {
    var n := |segs| - 1;
    if k < n {
      SegAt(segs[..n], k);
      assert segs[..n][..k] == segs[..k];
      var p := |SegsBytes(segs[..k])|;
      assert SegOk(segs[n]);
      SliceLeft(SegsBytes(segs[..n]), SegBytes(n, segs[n]), p, p + RECORD + |segs[k].page|);
    } else {
      LastSegLies(segs);
    }
  }

  lemma NextPos(r: Registry, k: nat)
    requires Writable(r) && k < |r.segs|
    ensures SegPos(r, k + 1) == SegPos(r, k) + RECORD + |r.segs[k].page|
  {
    assert SegOk(r.segs[k]);
    assert r.segs[..k + 1][..k] == r.segs[..k];
  }

  /** What lies at the position of event `k`. */
  lemma FileEvent(epk: seq<Byte>, r: Registry, k: nat)
    requires |epk| <= MAX_EPK && Writable(r) && k < |r.events|
    ensures var f, p := FileBytes(epk, r), RECORD + RECORD * k;
      EventOk(r.events[k]) && p + RECORD <= |f| && f[p..p + RECORD] == EventRecord(k, r.events[k])
  {
    EventAt(r.events, k);
    var f, p := FileBytes(epk, r), RECORD + RECORD * k;
    assert f[p..p + RECORD] == EventsBytes(r.events)[RECORD * k..RECORD * k + RECORD];
  }

  lemma SegParts(b: seq<Byte>, q: nat, index: Word16, s: Seg)
    requires SegOk(s) && q + RECORD + |s.page| <= |b| && b[q..q + RECORD + |s.page|] == SegBytes(index, s)
    ensures b[q..q + RECORD] == SegRecord(Describe(index, s)) && b[q + RECORD..q + RECORD + |s.page|] == s.page
  {
    var whole := b[q..q + RECORD + |s.page|];
    assert b[q..q + RECORD] == whole[..RECORD] && b[q + RECORD..q + RECORD + |s.page|] == whole[RECORD..];
  }

  /** The record of a segment and its page, in the file. */
  ghost predicate RecordLies(file: seq<Byte>, pos: nat, index: Word16, s: Seg) {
    && SegOk(s) && pos + RECORD + |s.page| <= |file|
    && file[pos..pos + RECORD] == SegRecord(Describe(index, s))
    && file[pos + RECORD..pos + RECORD + |s.page|] == s.page
  }

  /** What lies at the position of segment `k`. */
  lemma FileSeg(epk: seq<Byte>, r: Registry, k: nat)
    requires |epk| <= MAX_EPK && Writable(r) && k < |r.segs|
    ensures RecordLies(FileBytes(epk, r), SegPos(r, k), k, r.segs[k])
  {
    SegAt(r.segs, k);
    var front, b, q := HeaderRecord(epk, |r.events|, |r.segs|) + EventsBytes(r.events), SegsBytes(r.segs),
      |SegsBytes(r.segs[..k])|;
    SegParts(b, q, k, r.segs[k]);
    SliceRight(front, b, q, q + RECORD);
    SliceRight(front, b, q + RECORD, q + RECORD + |r.segs[k].page|);
  }

  lemma SegsBytesStep(segs: seq<Seg>, i: nat)
    requires SegsOk(segs) && i < |segs|
    ensures SegOk(segs[i]) && SegsBytes(segs[..i + 1]) == SegsBytes(segs[..i]) + SegBytes(i, segs[i])
  {
    assert segs[..i + 1][..i] == segs[..i];
  }

  /** The segments when the first `i` of them were written. */
  function PartlyPositioned(r: Registry, i: nat): (segs: seq<Seg>)
    requires Writable(r) && i <= |r.segs|
    ensures |segs| == |r.segs|
    ensures i < |r.segs| ==> segs[i] == r.segs[i]
    ensures i == 0 ==> segs == r.segs
    ensures i == |r.segs| ==> segs == Positioned(r).segs
  {
    PositionedSegs(r, i) + r.segs[i..]
  }

  lemma PositionedStep(r: Registry, i: nat)
    requires Writable(r) && i < |r.segs|
    ensures PartlyPositioned(r, i + 1) ==
              PartlyPositioned(r, i)[i := r.segs[i].(filePos := Low32(SegPos(r, i)))]
  {
  }
}
