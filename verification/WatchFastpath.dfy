/**
 The read-only proofs that a watch-enable loop would do nothing (src/runtime/watch_fastpath.h).

 The loop they stand for walks host pages and computes each page's guest index in 32 bits: multiply, saturating
 subtract, shift.
 */
module WatchFastpath {

  import opened Arithmetic
  import opened Bits
  import opened PageAuthority

  const U32: nat := 0x1_0000_0000

  /** How host pages map to guest pages: the host page size, the address offset, and log2 of the guest page size. */
  datatype Layout = Layout(pageSize: nat, offset: nat, shift: nat)

  function Less(a: nat, b: nat): nat {
    if a > b then a - b else 0
  }

  /** The guest page of a byte offset. */
  function GuestOf(l: Layout, bytes: nat): nat {
    hide Pow2;
    Quotient(Less(bytes, l.offset), Pow2(l.shift))
  }

  /** The guest page of a host page, and the same as the original loop computes it, in 32 bits. */
  function GuestIndex(l: Layout, p: nat): nat {
    GuestOf(l, p * l.pageSize)
  }

  function GuestIndex32(l: Layout, p: nat): nat {
    GuestOf(l, (p * l.pageSize) % U32)
  }

  /** The guest page of a host page holds its first byte, with bytes below the offset counted as the first. */
  lemma GuestIndexIs(l: Layout, p: nat, g: nat)
    ensures GuestIndex(l, p) == g
            <==> g * Pow2(l.shift) <= (if p * l.pageSize <= l.offset then 0 else p * l.pageSize - l.offset) < (g + 1) * Pow2(l.shift)
    ensures GuestIndex32(l, p) == g
            <==> g * Pow2(l.shift) <= (if p * l.pageSize % U32 <= l.offset then 0 else p * l.pageSize % U32 - l.offset)
                 < (g + 1) * Pow2(l.shift)
  {
    GuestOfIs(l, p * l.pageSize, g);
    GuestOfIs(l, p * l.pageSize % U32, g);
    hide GuestOf, Pow2;
  }

  lemma GuestOfIs(l: Layout, bytes: nat, g: nat)
    ensures GuestOf(l, bytes) == g
            <==> g * Pow2(l.shift) <= (if bytes <= l.offset then 0 else bytes - l.offset) < (g + 1) * Pow2(l.shift)
  {
    var size := Pow2(l.shift);
    hide Pow2;
    assert (g + 1) * size == g * size + size;
    DivCompare(Less(bytes, l.offset), g, size);
  }

  /** What both proofs check before they look at any page. */
  predicate Guarded(first: nat, last: nat, l: Layout, pageCount: nat, tableSize: nat) {
    && first <= last && l.pageSize != 0 && last < pageCount && l.shift < 32
    && last * l.pageSize < U32 && GuestIndex(l, last) < tableSize
  }

  lemma ProductOrder(p: nat, q: nat, size: nat)
    requires p <= q
    ensures p * size <= q * size
  {
    if p < q { MulBelow(p, q, size); }
  }

  lemma GuestOrder(l: Layout, a: nat, b: nat)
    requires a <= b
    ensures GuestOf(l, a) <= GuestOf(l, b)
  {
    var x, y, g := Less(a, l.offset), Less(b, l.offset), Pow2(l.shift);
    hide Pow2;
    DivBounds(y, g);
    DivCompare(x, Quotient(y, g), g);
  }

  /** With the guards met, no page of the span wraps, and every guest index lies in the table. */
  lemma NothingWraps(first: nat, last: nat, l: Layout, pageCount: nat, tableSize: nat, p: nat)
    requires Guarded(first, last, l, pageCount, tableSize) && first <= p <= last
    ensures GuestIndex32(l, p) == GuestIndex(l, p) < tableSize
    ensures GuestIndex(l, first) <= GuestIndex(l, p) <= GuestIndex(l, last)
  {
    hide GuestOf;
    ProductOrder(p, last, l.pageSize);
    ProductOrder(first, p, l.pageSize);
    GuestOrder(l, p * l.pageSize, last * l.pageSize);
    GuestOrder(l, first * l.pageSize, p * l.pageSize);
  }

  /** From one host page to the next the guest index advances by at most one, when guest pages are larger. */
  lemma StepByOne(l: Layout, p: nat)
    requires Pow2(l.shift) > l.pageSize
    ensures GuestIndex(l, p + 1) <= GuestIndex(l, p) + 1
  {
    var g := Pow2(l.shift);
    hide Pow2;
    var x, y := Less(p * l.pageSize, l.offset), Less((p + 1) * l.pageSize, l.offset);
    assert (p + 1) * l.pageSize == p * l.pageSize + l.pageSize;
    DivBounds(x, g);
    assert (Quotient(x, g) + 1) * g == Quotient(x, g) * g + g;
    DivCompare(y, Quotient(x, g) + 1, g);
  }

  /** The guest indices of a span of host pages leave no gap. */
  lemma {:induction false} NoGap(l: Layout, first: nat, last: nat, guest: nat) returns (p: nat)
    requires Pow2(l.shift) > l.pageSize && first <= last
    requires GuestIndex(l, first) <= guest <= GuestIndex(l, last)
    ensures first <= p <= last && GuestIndex(l, p) == guest
    decreases last - first
  {
    hide GuestIndex;
    if guest == GuestIndex(l, first) {
      p := first;
    } else {
      StepByOne(l, first);
      p := NoGap(l, first + 1, last, guest);
    }
  }

  /** Accepts exactly when the guards hold and every page of the span is already watched. */
  method AllNotificationPagesWatched(first: nat, last: nat, l: Layout, pageCount: nat, tableSize: nat, flags: seq<bv64>)
    returns (r: bool)
    ensures r <==> Guarded(first, last, l, pageCount, tableSize) && last / 64 < |flags|
                   && forall p: nat | first <= p <= last :: p < 64 * |flags| && Has(flags, p)
  {
    hide GuestIndex, Bit, SpanMask, And;
    if first > last || l.pageSize == 0 || last >= pageCount || l.shift >= 32 {
      return false;
    }
    if last * l.pageSize >= U32 {
      return false;
    }
    if GuestIndex(l, last) >= tableSize {
      return false;
    }
    if last / 64 >= |flags| {
      return false;
    }
    var block := first / 64;
    while true
      invariant first / 64 <= block <= last / 64
      invariant forall p: nat | first <= p <= last && p / 64 < block :: Has(flags, p)
      decreases last / 64 - block
    {
      var mask := SpanMask(block, first, last);
      MaskHeld(flags, block, first, last, mask);
      if And(flags[block], mask) != mask {
        return false;
      }
      if block == last / 64 {
        return true;
      }
      block := block + 1;
    }
  }

  /** Accepts exactly when the guards hold and the guest page of every host page of the span is immutable. */
  method AllGuestPagesImmutable(first: nat, last: nat, l: Layout, pageCount: nat, tableSize: nat, blocks: nat,
                                immutable: nat -> bool)
    returns (r: bool)
    ensures r <==> Guarded(first, last, l, pageCount, tableSize) && last / 64 < blocks && Pow2(l.shift) > l.pageSize
                   && forall p: nat | first <= p <= last :: immutable(GuestIndex(l, p))
  {
    hide GuestIndex, Pow2;
    if first > last || l.pageSize == 0 || last >= pageCount || l.shift >= 32 || Pow2(l.shift) <= l.pageSize {
      return false;
    }
    if last * l.pageSize >= U32 {
      return false;
    }
    if GuestIndex(l, last) >= tableSize || last / 64 >= blocks {
      return false;
    }
    var guest := GuestIndex(l, first);
    NothingWraps(first, last, l, pageCount, tableSize, last);
    while true
      invariant GuestIndex(l, first) <= guest <= GuestIndex(l, last)
      invariant forall g: nat | GuestIndex(l, first) <= g < guest :: immutable(g)
      decreases GuestIndex(l, last) - guest
    {
      if !immutable(guest) {
        ghost var p := NoGap(l, first, last, guest);
        return false;
      }
      if guest == GuestIndex(l, last) {
        forall p: nat | first <= p <= last ensures immutable(GuestIndex(l, p)) {
          NothingWraps(first, last, l, pageCount, tableSize, p);
        }
        return true;
      }
      guest := guest + 1;
    }
  }

  /**
   The indices visited between the first and the last guest page are exactly the ones the original 32-bit loop
   computes for the host pages of the span, and all are in the table.
   */
  lemma VisitedIsImage(first: nat, last: nat, l: Layout, pageCount: nat, tableSize: nat, guest: nat)
    requires Guarded(first, last, l, pageCount, tableSize) && Pow2(l.shift) > l.pageSize
    ensures GuestIndex(l, first) <= guest <= GuestIndex(l, last)
            <==> exists p: nat | first <= p <= last :: GuestIndex32(l, p) == guest
    ensures GuestIndex(l, first) <= guest <= GuestIndex(l, last) ==> guest < tableSize
  {
    hide GuestIndex, GuestIndex32, Pow2;
    if GuestIndex(l, first) <= guest <= GuestIndex(l, last) {
      var p := NoGap(l, first, last, guest);
      NothingWraps(first, last, l, pageCount, tableSize, p);
    }
    forall p: nat | first <= p <= last && GuestIndex32(l, p) == guest
      ensures GuestIndex(l, first) <= guest <= GuestIndex(l, last)
    {
      NothingWraps(first, last, l, pageCount, tableSize, p);
    }
  }
}
