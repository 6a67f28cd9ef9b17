/** Where the pages of a calibration segment lie in its memory block (cal.h). */
module CalLayout {
  const PAGE_ALIGNMENT := 8

  /** The page size rounded up to the page alignment, as the 32 bit macro computes it. */
  function Aligned(size: nat): nat {
    (size + PAGE_ALIGNMENT - 1) / PAGE_ALIGNMENT * PAGE_ALIGNMENT
  }

  /** The same size as segment creation computes it, in 16 bits. */
  function Aligned16(size: nat): nat {
    Aligned(size) % 0x1_0000
  }

  /**
    Offset of RCU page `idx`. `defaults` is 1 when the block starts with a copy of the default page
    (segment relative addressing) and 0 when it does not (absolute addressing).
   */
  function RcuOffset(size: nat, defaults: nat, idx: nat): nat {
    (defaults + idx) * Aligned(size)
  }

  lemma AlignedBounds(size: nat)
    ensures size <= Aligned(size) < size + PAGE_ALIGNMENT
    ensures Aligned(size) % PAGE_ALIGNMENT == 0
  {
  }

  /** The block is allocated with the 16 bit size and used with the 32 bit one: they agree up to 65528 bytes. */
  lemma AllocatedSizeIsUsedSize(size: nat)
    requires size < 0x1_0000
    ensures Aligned16(size) == Aligned(size) <==> size <= 65528
  {
    AlignedBounds(size);
    if size <= 65528 {
      assert (size + 7) / 8 <= 8191;
    } else {
      assert (size + 7) / 8 == 8192;
    }
  }

  lemma {:induction false} Scaled(i: nat, j: nat, a: nat)
    requires i < j
    ensures i * a + a <= j * a
    decreases j
  {
    if i + 1 < j {
      Scaled(i, j - 1, a);
      assert (j - 1) * a <= j * a;
    }
  }

  /** Different pages do not overlap, start aligned, and lie inside the block. */
  lemma PagesDisjoint(size: nat, defaults: nat, pages: nat, i: nat, j: nat)
    requires i < j < pages
    ensures RcuOffset(size, defaults, i) + size <= RcuOffset(size, defaults, j)
    ensures RcuOffset(size, defaults, j) + size <= (defaults + pages) * Aligned(size)
    ensures RcuOffset(size, defaults, i) % PAGE_ALIGNMENT == 0
  {
    AlignedBounds(size);
    Scaled(defaults + i, defaults + j, Aligned(size));
    Scaled(defaults + j, defaults + pages, Aligned(size));
    ScaledAligned(defaults + i, size);
  }

  lemma ScaledAligned(n: nat, size: nat)
    ensures n * Aligned(size) % PAGE_ALIGNMENT == 0
  {
    var q := (size + PAGE_ALIGNMENT - 1) / PAGE_ALIGNMENT;
    assert n * (q * PAGE_ALIGNMENT) == n * q * PAGE_ALIGNMENT;
    MultipleOf(n * q);
  }

  lemma MultipleOf(k: nat)
    ensures k * PAGE_ALIGNMENT % PAGE_ALIGNMENT == 0
  {
  }

  /** A non-empty page is identified by its offset: this is what lets an unlock find its pin. */
  lemma OffsetIdentifiesPage(size: nat, defaults: nat, i: nat, j: nat)
    requires size > 0
    ensures RcuOffset(size, defaults, i) == RcuOffset(size, defaults, j) <==> i == j
  {
    AlignedBounds(size);
    if i < j {
      Scaled(defaults + i, defaults + j, Aligned(size));
    } else if j < i {
      Scaled(defaults + j, defaults + i, Aligned(size));
    }
  }
}
