/**
  The reference counting segment as the code holds it: one memory block with the default page and
  the RCU pages, and the header fields. The methods run undisturbed; their contracts give the
  step machine's state in terms of the old one.
 */
module RefCountSegment {
  import opened Bytes
  import opened CalLayout
  import Rcu = RefCountRcu

  lemma InBlock(size: nat, pages: nat, idx: nat)
    requires idx < pages
    ensures size <= RcuOffset(size, 1, idx)
    ensures RcuOffset(size, 1, idx) + size <= (1 + pages) * Aligned(size)
  {
    AlignedBounds(size);
    Scaled(0, 1 + idx, Aligned(size));
    Scaled(1 + idx, 1 + pages, Aligned(size));
  }

  /** RCU page `idx` of a block. */
  ghost function PageIn(block: seq<Byte>, size: nat, pages: nat, idx: nat): (page: seq<Byte>)
    requires |block| == (1 + pages) * Aligned(size) && idx < pages
    ensures |page| == size
  {
    InBlock(size, pages, idx);
    block[RcuOffset(size, 1, idx)..RcuOffset(size, 1, idx) + size]
  }

  /** The default page, at the start of a block. */
  ghost function DefaultIn(block: seq<Byte>, size: nat, pages: nat): (page: seq<Byte>)
    requires |block| == (1 + pages) * Aligned(size) && pages > 0
    ensures |page| == size
  {
    InBlock(size, pages, 0);
    block[..size]
  }

  /** Writing RCU page `target` changes no other page. */
  lemma OtherPages(block: seq<Byte>, block': seq<Byte>, size: nat, pages: nat, target: nat, p: nat)
    requires |block| == |block'| == (1 + pages) * Aligned(size) && target < pages && p < pages
    requires forall x :: 0 <= x < |block| && !(RcuOffset(size, 1, target) <= x < RcuOffset(size, 1, target) + size) ==>
      block'[x] == block[x]
    ensures p != target ==> PageIn(block', size, pages, p) == PageIn(block, size, pages, p)
    ensures DefaultIn(block', size, pages) == DefaultIn(block, size, pages)
  {
    InBlock(size, pages, target);
    InBlock(size, pages, p);
    if p < target {
      PagesDisjoint(size, 1, pages, p, target);
    } else if target < p {
      PagesDisjoint(size, 1, pages, target, p);
    }
  }

  class CalSeg {
    const size: nat
    const b: array<Byte>
    const pageRefs: array<nat>
    var publishedPage: nat
    var ecuWorking: bool

    ghost predicate Valid()
      reads this, b, pageRefs
    {
      && 0 < size <= 65528
      && pageRefs.Length >= 3
      && b.Length == (1 + pageRefs.Length) * Aligned(size)
      && 1 <= publishedPage < pageRefs.Length
      && forall p :: 0 <= p < pageRefs.Length ==> pageRefs[p] <= Rcu.REF_MAX
    }

    function Offset(idx: nat): nat
      reads this
    {
      RcuOffset(size, 1, idx)
    }

    ghost function Page(idx: nat): seq<Byte>
      requires Valid() && idx < pageRefs.Length
      reads this, b, pageRefs
    {
      PageIn(b[..], size, pageRefs.Length, idx)
    }

    ghost function DefaultPage(): seq<Byte>
      requires Valid()
      reads this, b, pageRefs
    {
      DefaultIn(b[..], size, pageRefs.Length)
    }

    constructor (defaultPage: seq<Byte>, pageCount: nat)
      requires 0 < |defaultPage| <= 65528 && pageCount >= 3
      ensures Valid() && fresh(b) && fresh(pageRefs) && size == |defaultPage| && pageRefs.Length == pageCount
      ensures publishedPage == 1 && ecuWorking
      ensures DefaultPage() == Page(0) == Page(1) == defaultPage
      ensures forall p :: 0 <= p < pageCount ==> pageRefs[p] == 0
    {
      size := |defaultPage|;
      b := new Byte[(1 + pageCount) * Aligned(|defaultPage|)](_ => 0);
      pageRefs := new nat[pageCount](_ => 0);
      publishedPage := 1;
      ecuWorking := true;
      new;
      InBlock(size, pageCount, 0);
      StoreBytes(b, 0, defaultPage);
      CopyDefaultPage(0);
      CopyDefaultPage(1);
    }

    method CopyDefaultPage(target: nat)
      requires Valid() && target < pageRefs.Length
      modifies b
      ensures Page(target) == old(DefaultPage()) == DefaultPage()
      ensures forall p :: 0 <= p < pageRefs.Length && p != target ==> Page(p) == old(Page(p))
    {
      ghost var before := b[..];
      InBlock(size, pageRefs.Length, target);
      CopyBytes(b, Offset(target), 0, size);
      forall p | 0 <= p < pageRefs.Length
        ensures p != target ==> PageIn(b[..], size, pageRefs.Length, p) == PageIn(before, size, pageRefs.Length, p)
        ensures DefaultIn(b[..], size, pageRefs.Length) == DefaultIn(before, size, pageRefs.Length)
      {
        OtherPages(before, b[..], size, pageRefs.Length, target, p);
      }
    }

    /** Returns the offset of the page that the reader may use until the matching unlock. */
    method Lock() returns (page: nat)
      requires Valid()
      requires pageRefs[publishedPage] < Rcu.REF_MAX
      modifies pageRefs
      ensures Valid()
      ensures !ecuWorking ==> page == 0 && pageRefs[..] == old(pageRefs[..])
      ensures ecuWorking ==> page == Offset(publishedPage)
      ensures ecuWorking ==> pageRefs[..] == old(pageRefs[..])[publishedPage := old(pageRefs[publishedPage]) + 1]
    {
      if !ecuWorking {
        return 0;
      }
      // Undisturbed, the first validation succeeds; the retry is part of the step machine
      var p := publishedPage;
      pageRefs[p] := Rcu.Inc16(pageRefs[p]);
      return Offset(p);
    }

    lemma NoPageAtZero()
      requires size > 0
      ensures forall p :: 1 <= p < pageRefs.Length ==> Offset(p) != 0
    {
      forall p | 1 <= p < pageRefs.Length
        ensures Offset(p) != 0
      {
        OffsetIdentifiesPage(size, 0, 0, 1 + p);
      }
    }

    /** Finds the pinned page from the page pointer; a pointer to no RCU page changes nothing. */
    method Unlock(page: nat)
      requires Valid()
      modifies pageRefs
      ensures Valid()
      ensures forall p :: 1 <= p < pageRefs.Length && page == Offset(p) ==>
        pageRefs[..] == old(pageRefs[..])[p := Rcu.Dec16(old(pageRefs[p]))]
      ensures (forall p :: 1 <= p < pageRefs.Length ==> page != Offset(p)) ==> pageRefs[..] == old(pageRefs[..])
    {
      if page == 0 {
        NoPageAtZero();
        return;
      }
      var idx := 1;
      while idx < pageRefs.Length && page != Offset(idx)
        invariant 1 <= idx <= pageRefs.Length
        invariant forall p :: 1 <= p < idx ==> page != Offset(p)
      {
        idx := idx + 1;
      }
      if idx >= pageRefs.Length {
        return;
      }
      forall p | 1 <= p < pageRefs.Length && page == Offset(p)
        ensures p == idx
      {
        OffsetIdentifiesPage(size, 1, p, idx);
      }
      pageRefs[idx] := Rcu.Dec16(pageRefs[idx]);
    }

    /** Lock and unlock are inverse: the pin a lock takes is the one its unlock releases. */
    method LockUnlock()
      requires Valid()
      requires pageRefs[publishedPage] < Rcu.REF_MAX
      modifies pageRefs
      ensures Valid() && pageRefs[..] == old(pageRefs[..])
    {
      NoPageAtZero();
      var page := Lock();
      ghost var refs := pageRefs[..];
      Unlock(page);
      assert ecuWorking ==> pageRefs[..] == refs[publishedPage := Rcu.Dec16(refs[publishedPage])];
    }

    /** Publishes the writer page, or changes nothing when every candidate is pinned. */
    method TryPublish() returns (ok: bool)
      requires Valid()
      modifies this`publishedPage, b
      ensures Valid()
      ensures ok <==> exists p :: 1 <= p < pageRefs.Length && p != old(publishedPage) && pageRefs[p] == 0
      ensures !ok ==> publishedPage == old(publishedPage) && b[..] == old(b[..])
      ensures ok ==> publishedPage == Rcu.FirstFree(pageRefs[..], old(publishedPage), old(publishedPage), 1)
      ensures ok ==>
        Page(publishedPage) == old(Page(0)) && pageRefs[publishedPage] == 0 && publishedPage != old(publishedPage)
      ensures DefaultPage() == old(DefaultPage())
      ensures forall p :: 0 <= p < pageRefs.Length && !(ok && p == publishedPage) ==> Page(p) == old(Page(p))
    {
      Rcu.ScanIsComplete(pageRefs[..], publishedPage);
      var n := pageRefs.Length;
      var target := n;
      var idx := publishedPage;
      var i := 1;
      while i < n
        invariant 1 <= i <= n && 1 <= idx < n
        invariant Rcu.FirstFree(pageRefs[..], publishedPage, publishedPage, 1) ==
          Rcu.FirstFree(pageRefs[..], publishedPage, idx, i)
        invariant target == n
      {
        idx := Rcu.NextCandidate(idx, n);
        if idx != publishedPage && pageRefs[idx] == 0 {
          target := idx;
          break;
        }
        i := i + 1;
      }
      assert target == Rcu.FirstFree(pageRefs[..], publishedPage, publishedPage, 1);
      if target >= n {
        return false;
      }
      CopyWriterPage(target);
      publishedPage := target;
      return true;
    }

    /** The memcpy of the publish: only the target page changes. */
    method CopyWriterPage(target: nat)
      requires Valid() && 1 <= target < pageRefs.Length
      modifies b
      ensures Page(target) == old(Page(0))
      ensures DefaultPage() == old(DefaultPage())
      ensures forall p :: 0 <= p < pageRefs.Length && p != target ==> Page(p) == old(Page(p))
    {
      ghost var before := b[..];
      InBlock(size, pageRefs.Length, target);
      PagesDisjoint(size, 1, pageRefs.Length, 0, target);
      CopyBytes(b, Offset(target), Offset(0), size);
      forall p | 0 <= p < pageRefs.Length
        ensures p != target ==> PageIn(b[..], size, pageRefs.Length, p) == PageIn(before, size, pageRefs.Length, p)
        ensures DefaultIn(b[..], size, pageRefs.Length) == DefaultIn(before, size, pageRefs.Length)
      {
        OtherPages(before, b[..], size, pageRefs.Length, target, p);
      }
    }
  }
}
