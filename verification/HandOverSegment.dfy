/**
  The lock count segment as the code holds it: one memory block with the default page and three RCU
  pages, and the header with page offsets. The methods run undisturbed; their contracts give the
  new header as the step machine's undisturbed lock, unlock and publish compute it.
 */
module HandOverSegment {
  import opened Bytes
  import opened CalLayout
  import Alone = HandOverAlone
  import Rcu = HandOverRcu

  const NO_PAGE := 0xFFFF_FFFF

  /** One of the four page places of a block: the default page and the three RCU pages. */
  predicate IsPlace(offset: nat, stride: nat) {
    offset == 0 || offset == stride || offset == 2 * stride || offset == 3 * stride
  }

  function PageIn(block: seq<Byte>, size: nat, stride: nat, offset: nat): seq<Byte>
    requires size <= stride && |block| == 4 * stride && IsPlace(offset, stride)
  {
    block[offset..offset + size]
  }

  /** Writing the page at `dst` changes no other page. */
  lemma OtherPage(block: seq<Byte>, block': seq<Byte>, size: nat, stride: nat, dst: nat, offset: nat)
    requires size <= stride && |block| == |block'| == 4 * stride
    requires IsPlace(dst, stride) && IsPlace(offset, stride) && offset != dst
    requires forall x :: 0 <= x < |block| && !(dst <= x < dst + size) ==> block'[x] == block[x]
    ensures PageIn(block', size, stride, offset) == PageIn(block, size, stride, offset)
  {
    Apart(size, stride, dst, offset);
  }

  lemma Apart(size: nat, stride: nat, p: nat, q: nat)
    requires size <= stride && p != q && IsPlace(p, stride) && IsPlace(q, stride)
    ensures p + size <= q || q + size <= p
    ensures p + size <= 4 * stride && q + size <= 4 * stride
  {
  }

  /** The memcpy of one page: every other page keeps its bytes. */
  method CopyPage(b: array<Byte>, size: nat, stride: nat, dst: nat, src: nat)
    requires size <= stride && b.Length == 4 * stride
    requires IsPlace(dst, stride) && IsPlace(src, stride) && src != dst
    modifies b
    ensures PageIn(b[..], size, stride, dst) == old(PageIn(b[..], size, stride, src))
    ensures forall o: nat :: IsPlace(o, stride) && o != dst ==>
      PageIn(b[..], size, stride, o) == old(PageIn(b[..], size, stride, o))
  {
    ghost var before := b[..];
    Apart(size, stride, dst, src);
    CopyBytes(b, dst, src, size);
    assert b[..][dst..dst + size] == b[dst..dst + size];
    forall o: nat | IsPlace(o, stride) && o != dst
      ensures PageIn(b[..], size, stride, o) == PageIn(before, size, stride, o)
    {
      OtherPage(before, b[..], size, stride, dst, o);
    }
  }

  class CalSeg {
    const size: nat
    const stride: nat
    const b: array<Byte>
    var ecuPageNext: nat
    var freePage: nat
    var ecuPage: nat
    var xcpPage: nat
    var lockCount: nat
    var freePageHazard: bool
    var ecuWorking: bool

    ghost predicate IsPage(offset: nat)
      reads this
    {
      offset != 0 && IsPlace(offset, stride)
    }

    /** Header offsets name pages; the writer page, the ECU page and the free page are different pages. */
    ghost predicate Valid()
      reads this, b
    {
      && 0 < size <= stride && 4 * stride < NO_PAGE
      && b.Length == 4 * stride
      && IsPage(ecuPage) && IsPage(ecuPageNext) && IsPage(xcpPage)
      && xcpPage != ecuPage && xcpPage != ecuPageNext
      && (freePage == NO_PAGE ||
        (IsPage(freePage) && freePage != xcpPage && freePage != ecuPage && freePage != ecuPageNext))
      && (freePage == NO_PAGE || ecuPageNext == ecuPage)
      && lockCount <= Rcu.LOCK_MAX
    }

    ghost function Header(): Rcu.Header
      reads this
    {
      Rcu.Header(ecuPage, ecuPageNext, if freePage == NO_PAGE then Rcu.None else Rcu.Some(freePage), xcpPage,
                 freePageHazard, lockCount)
    }

    /** The page at an offset; offset 0 is the default page. */
    ghost function PageAt(offset: nat): seq<Byte>
      requires Valid() && IsPlace(offset, stride)
      reads this, b
    {
      PageIn(b[..], size, stride, offset)
    }

    constructor (defaultPage: seq<Byte>)
      requires 0 < |defaultPage| <= 65528
      ensures Valid() && fresh(b) && size == |defaultPage| && stride == Aligned(size) && ecuWorking
      ensures Header() == Rcu.Header(RcuOffset(size, 1, 1), RcuOffset(size, 1, 1), Rcu.Some(RcuOffset(size, 1, 2)),
                                     RcuOffset(size, 1, 0), false, 0)
      ensures PageAt(ecuPage) == PageAt(xcpPage) == PageAt(0) == defaultPage
    {
      AlignedBounds(|defaultPage|);
      var a := Aligned(|defaultPage|);
      size := |defaultPage|;
      stride := a;
      b := new Byte[4 * a](_ => 0);
      ecuPage := 2 * a;
      xcpPage := a;
      freePage := 3 * a;
      freePageHazard := false;
      ecuPageNext := 2 * a;
      lockCount := 0;
      ecuWorking := true;
      new;
      StoreBytes(b, 0, defaultPage);
      CopyPage(b, size, stride, ecuPage, 0);
      CopyPage(b, size, stride, xcpPage, 0);
    }

    /** Returns the offset of the page that the reader may use until the matching unlock. */
    method Lock() returns (page: nat)
      requires Valid() && lockCount < Rcu.LOCK_MAX
      modifies this
      ensures Valid() && ecuWorking == old(ecuWorking)
      ensures Header() == Alone.LockHeader(old(Header()))
      ensures page == if ecuWorking then ecuPage else 0
    {
      var oldLockCount := lockCount;
      lockCount := Rcu.Inc16(lockCount);
      if oldLockCount == 0 {
        var next := ecuPageNext;
        var cur := ecuPage;
        if cur != next {
          freePageHazard := true;
          ecuPage := next;
          freePage := cur;
        } else {
          freePageHazard := false;
        }
      }
      if !ecuWorking {
        return 0;
      } else {
        return ecuPage;
      }
    }

    method Unlock()
      requires Valid() && lockCount > 0
      modifies this`lockCount
      ensures Valid() && Header() == Alone.UnlockHeader(old(Header()))
    {
      lockCount := Rcu.Dec16(lockCount);
    }

    /** Publishes the writer page and goes on writing in a copy of it, or changes nothing. */
    method TryPublish() returns (ok: bool)
      requires Valid()
      modifies this`freePage, this`xcpPage, this`ecuPageNext, b
      ensures Valid()
      ensures Header() == Alone.PublishHeader(old(Header()))
      ensures ok <==> old(freePage != NO_PAGE && !freePageHazard)
      ensures !ok ==> b[..] == old(b[..])
      ensures ok ==> PageAt(xcpPage) == PageAt(ecuPageNext) == old(PageAt(xcpPage))
      ensures PageAt(ecuPage) == old(PageAt(ecuPage)) && PageAt(0) == old(PageAt(0))
    {
      var free := freePage;
      if free == NO_PAGE || freePageHazard {
        return false;
      }
      var xcpPageNew := free;
      freePage := NO_PAGE;
      var xcpPageOld := xcpPage;
      CopyPage(b, size, stride, xcpPageNew, xcpPageOld);
      assert IsPlace(0, stride);
      xcpPage := xcpPageNew;
      ecuPageNext := xcpPageOld;
      return true;
    }
  }
}
