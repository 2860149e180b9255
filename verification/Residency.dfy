/**
 The command thread's bitmap of pages it has already asked for, and the queue through which other threads take
 pages out of it (src/gpu/native/native_geometry_pass.cpp, `ResidencyCache` and around it).
 */
module Residency {

  import opened Bits
  import opened PageFlags
  import opened PageAuthority
  import opened Wrappers

  const PAGE_BYTES: nat := 4096
  const PAGES: nat := 131072
  const WORDS: nat := 2048
  const MAX_PENDING: nat := 256

  /** An inclusive span, of pages or of byte addresses. */
  datatype Span = Span(first: nat, last: nat)

  /** The first and last page of a byte range, unless it is empty or runs past the end of shared memory. */
  function PageSpan(start: nat, length: nat): (r: Option<Span>)
    ensures r.Some? ==> r.value.first <= r.value.last < PAGES
  {
    if length == 0 || start + length - 1 >= PAGES * PAGE_BYTES then None
    else Some(Span(start / PAGE_BYTES, (start + length - 1) / PAGE_BYTES))
  }

  /** The page holds a byte of the inclusive byte span. */
  ghost predicate Touches(s: Span, p: nat) {
    exists x: nat :: s.first <= x <= s.last && x / PAGE_BYTES == p
  }

  /** The byte range is not empty and lies inside shared memory. */
  predicate InMemory(start: nat, length: nat) {
    length > 0 && start + length <= PAGES * PAGE_BYTES
  }

  predicate InSpan(start: nat, length: nat, p: nat) {
    PageSpan(start, length).Some? && PageSpan(start, length).value.first <= p <= PageSpan(start, length).value.last
  }

  lemma PageSpanTouches(start: nat, length: nat, p: nat)
    ensures PageSpan(start, length).Some? <==> InMemory(start, length)
    ensures InMemory(start, length) ==>
              (PageSpan(start, length).value.first <= p <= PageSpan(start, length).value.last
               <==> Touches(Span(start, start + length - 1), p))
  {
    if InMemory(start, length) {
      PagesOfBytes(start, start + length - 1, PAGE_BYTES, p);
    }
  }

  /** A page of the inclusive byte span lies in shared memory as far as the span is cut off there. */
  lemma ClippedTouches(first: nat, last: nat, p: nat)
    requires first <= last && first < PAGES * PAGE_BYTES && p < PAGES
    ensures var end := if last >= PAGES * PAGE_BYTES then PAGES * PAGE_BYTES - 1 else last;
            first / PAGE_BYTES <= p <= end / PAGE_BYTES <==> Touches(Span(first, last), p)
  {
    var end := if last >= PAGES * PAGE_BYTES then PAGES * PAGE_BYTES - 1 else last;
    PagesOfBytes(first, end, PAGE_BYTES, p);
    PagesOfBytes(first, last, PAGE_BYTES, p);
  }

  lemma BeyondTouches(first: nat, last: nat, p: nat)
    requires (first >= PAGES * PAGE_BYTES || first > last) && p < PAGES
    ensures !Touches(Span(first, last), p)
  {}

  ghost predicate SpanMarked(pages: seq<bv64>, start: nat, length: nat) {
    |pages| == WORDS && PageSpan(start, length).Some? && forall p: nat | InSpan(start, length, p) :: p < PAGES && Has(pages, p)
  }

  /** The range lies in shared memory, and every page holding one of its bytes is marked. */
  ghost predicate BytesMarked(pages: seq<bv64>, start: nat, length: nat) {
    && |pages| == WORDS && InMemory(start, length)
    && forall p: nat | Touches(Span(start, start + length - 1), p) :: p < PAGES && Has(pages, p)
  }

  lemma CoveredAlike(pages: seq<bv64>, start: nat, length: nat)
    ensures SpanMarked(pages, start, length) <==> BytesMarked(pages, start, length)
  {
    hide Has, Touches, PageSpan;
    PageSpanTouches(start, length, 0);
    if SpanMarked(pages, start, length) {
      forall p: nat | Touches(Span(start, start + length - 1), p) ensures p < PAGES && Has(pages, p) {
        PageSpanTouches(start, length, p);
        assert InSpan(start, length, p);
      }
    }
    if BytesMarked(pages, start, length) {
      forall p: nat | InSpan(start, length, p) ensures p < PAGES && Has(pages, p) {
        PageSpanTouches(start, length, p);
        assert Touches(Span(start, start + length - 1), p);
      }
    }
  }

  class ResidencyCache {
    var pages: seq<bv64>

    ghost predicate Valid()
      reads this
    {
      |pages| == WORDS
    }

    constructor ()
      ensures Valid() && forall p | 0 <= p < PAGES :: !Has(pages, p)
    {
      pages := seq(WORDS, _ => 0);
      ZeroBits();
    }

    method Reset()
      modifies this
      ensures Valid() && forall p | 0 <= p < PAGES :: !Has(pages, p)
    {
      pages := seq(WORDS, _ => 0);
      ZeroBits();
    }

    /** The range has bytes, all of them in shared memory and in marked pages. */
    method Covers(start: nat, length: nat) returns (r: bool)
      requires Valid()
      ensures r <==> BytesMarked(pages, start, length)
    {
      hide Has;
      r := CoversPages(start, length);
      CoveredAlike(pages, start, length);
    }

    method CoversPages(start: nat, length: nat) returns (r: bool)
      requires Valid()
      ensures r <==> SpanMarked(pages, start, length)
    {
      hide Bit, And, MaskFrom, MaskUpTo, SpanMask;
      var span := PageSpan(start, length);
      if span.None? {
        return false;
      }
      var first, last := span.value.first, span.value.last;
      var word := first / 64;
      var mask := MaskFrom(first % 64);
      while word < last / 64
        invariant first / 64 <= word <= last / 64 && mask == Carried(word, first)
        invariant forall p | first <= p <= last && p / 64 < word :: Has(pages, p)
      {
        CarriedIsSpan(word, first, last);
        MaskHeld(pages, word, first, last, mask);
        if And(pages[word], mask) != mask {
          MissingPage(pages, word, first, last);
          return false;
        }
        mask := ALL;
        word := word + 1;
      }
      mask := And(mask, MaskUpTo(last % 64));
      CarriedIsSpan(word, first, last);
      MaskHeld(pages, word, first, last, mask);
      if And(pages[word], mask) != mask {
        MissingPage(pages, word, first, last);
        return false;
      }
      return true;
    }

    /** Marks or clears a span of pages and no other page. */
    method MarkSpan(first: nat, last: nat, resident: bool)
      requires Valid() && first <= last < PAGES
      modifies this
      ensures Valid()
      ensures forall p | 0 <= p < PAGES ::
        Has(pages, p) <==> if first <= p <= last then resident else Has(old(pages), p)
    {
      hide Bit, And, Or, Not, MaskFrom, MaskUpTo, SpanMask, Has;
      var word := first / 64;
      var mask := MaskFrom(first % 64);
      while word < last / 64
        invariant Valid() && first / 64 <= word <= last / 64 && mask == Carried(word, first)
        invariant forall p | 0 <= p < PAGES ::
          Has(pages, p) <==> if first <= p <= last && p / 64 < word then resident else Has(old(pages), p)
      {
        CarriedIsSpan(word, first, last);
        ghost var before := pages;
        pages := pages[word := if resident then Or(pages[word], mask) else And(pages[word], Not(mask))];
        MarkedWord(before, pages, word, first, last, mask, resident);
        mask := ALL;
        word := word + 1;
      }
      mask := And(mask, MaskUpTo(last % 64));
      CarriedIsSpan(word, first, last);
      ghost var before := pages;
      pages := pages[word := if resident then Or(pages[word], mask) else And(pages[word], Not(mask))];
      MarkedWord(before, pages, word, first, last, mask, resident);
    }

    method Add(start: nat, length: nat)
      requires Valid()
      modifies this
      ensures Valid()
      ensures forall p | 0 <= p < PAGES ::
        Has(pages, p) <==> Has(old(pages), p) || (InMemory(start, length) && Touches(Span(start, start + length - 1), p))
    {
      hide Has;
      var span := PageSpan(start, length);
      if span.Some? {
        MarkSpan(span.value.first, span.value.last, true);
      }
      forall p | 0 <= p < PAGES
        ensures Has(pages, p) <==> Has(old(pages), p) || (InMemory(start, length) && Touches(Span(start, start + length - 1), p))
      {
        PageSpanTouches(start, length, p);
        hide Touches, InMemory, PageSpan;
      }
    }

    /** Takes inclusive byte bounds; what lies past the buffer is ignored. */
    method ClearAddressRange(addressFirst: nat, addressLast: nat)
      requires Valid()
      modifies this
      ensures Valid()
      ensures forall p | 0 <= p < PAGES ::
        Has(pages, p) <==> Has(old(pages), p) && !Touches(Span(addressFirst, addressLast), p)
    {
      hide Has, Touches;
      if addressFirst >= PAGES * PAGE_BYTES {
        forall p | 0 <= p < PAGES ensures !Touches(Span(addressFirst, addressLast), p) {
          BeyondTouches(addressFirst, addressLast, p);
        }
        return;
      }
      var last := if addressLast >= PAGES * PAGE_BYTES then PAGES * PAGE_BYTES - 1 else addressLast;
      if addressFirst > last {
        forall p | 0 <= p < PAGES ensures !Touches(Span(addressFirst, addressLast), p) {
          BeyondTouches(addressFirst, addressLast, p);
        }
        return;
      }
      MarkSpan(addressFirst / PAGE_BYTES, last / PAGE_BYTES, false);
      forall p | 0 <= p < PAGES
        ensures addressFirst / PAGE_BYTES <= p <= last / PAGE_BYTES <==> Touches(Span(addressFirst, addressLast), p)
      {
        ClippedTouches(addressFirst, addressLast, p);
      }
    }
  }

  /** The mask the loops carry into a word: from the first bit in the first word, whole afterwards. */
  function Carried(word: nat, first: nat): bv64 {
    if word == first / 64 then MaskFrom(first % 64) else ALL
  }

  lemma CarriedIsSpan(word: nat, first: nat, last: nat)
    requires first <= last && first / 64 <= word <= last / 64
    ensures word < last / 64 ==> Carried(word, first) == SpanMask(word, first, last)
    ensures word == last / 64 ==> And(Carried(word, first), MaskUpTo(last % 64)) == SpanMask(word, first, last)
  {
    AllBits();
    hide Bit;
    if word < last / 64 {
      WordExt(Carried(word, first), SpanMask(word, first, last));
    } else {
      WordExt(And(Carried(word, first), MaskUpTo(last % 64)), SpanMask(word, first, last));
    }
  }

  lemma MissingPage(pages: seq<bv64>, word: nat, first: nat, last: nat)
    requires first <= last < 64 * |pages| && !(forall p | first <= p <= last && p / 64 == word :: Has(pages, p))
    ensures !(forall p | first <= p <= last :: p < 64 * |pages| && Has(pages, p))
  {}

  lemma MarkedWord(before: seq<bv64>, after: seq<bv64>, word: nat, first: nat, last: nat, mask: bv64, resident: bool)
    requires |before| == WORDS && first <= last < PAGES && first / 64 <= word <= last / 64
    requires mask == SpanMask(word, first, last)
    requires after == before[word := if resident then Or(before[word], mask) else And(before[word], Not(mask))]
    ensures forall p | 0 <= p < PAGES ::
      Has(after, p) <==> if first <= p <= last && p / 64 == word then resident else Has(before, p)
  {
    hide Bit, And, Or, Not, Has;
    forall p | 0 <= p < PAGES
      ensures Has(after, p) <==> if first <= p <= last && p / 64 == word then resident else Has(before, p)
    {
      HasChanged(before, word, mask, p);
    }
  }

  // ----- the queue of invalidations -----

  class PendingInvalidations {
    var pending: seq<Span>
    var overflow: bool
    var signal: bool

    ghost predicate Valid()
      reads this
    {
      |pending| <= MAX_PENDING && (pending != [] || overflow ==> signal)
    }

    constructor ()
      ensures Valid() && pending == [] && !overflow
    {
      pending, overflow, signal := [], false, false;
    }

    /** Called on whichever thread wrote the memory; past the limit only the fact that it happened is kept. */
    method ResidencyInvalidated(addressFirst: nat, addressLast: nat)
      requires Valid()
      modifies this
      ensures Valid() && signal
      ensures pending == if |old(pending)| < MAX_PENDING then old(pending) + [Span(addressFirst, addressLast)] else old(pending)
      ensures overflow == (old(overflow) || |old(pending)| == MAX_PENDING)
    {
      if |pending| < MAX_PENDING {
        pending := pending + [Span(addressFirst, addressLast)];
      } else {
        overflow := true;
      }
      signal := true;
    }

    /** Folds the queue into the bitmap: everything goes on overflow, else exactly the queued pages. */
    method Drain(cache: ResidencyCache)
      requires Valid() && cache.Valid()
      modifies this, cache
      ensures Valid() && cache.Valid() && pending == [] && !overflow
      ensures forall p | 0 <= p < PAGES ::
        Has(cache.pages, p) <==> Has(old(cache.pages), p) && !old(overflow) && !Queued(old(pending), p)
    {
      hide Has;
      if !signal {
        return;
      }
      var drained, all := pending, overflow;
      pending, overflow, signal := [], false, false;
      if all {
        cache.Reset();
        return;
      }
      for i := 0 to |drained|
        invariant cache.Valid() && Valid() && pending == [] && !overflow
        invariant forall p | 0 <= p < PAGES ::
          Has(cache.pages, p) <==> Has(old(cache.pages), p) && !Queued(drained[..i], p)
      {
        ghost var before := cache.pages;
        cache.ClearAddressRange(drained[i].first, drained[i].last);
        forall p | 0 <= p < PAGES
          ensures Has(cache.pages, p) <==> Has(old(cache.pages), p) && !Queued(drained[..i + 1], p)
        {
          QueuedMore(drained, i, p);
        }
      }
      assert drained[..|drained|] == drained;
    }
  }

  /** A queued byte span holds a byte of the page. */
  ghost predicate Queued(pending: seq<Span>, p: nat) {
    exists i :: 0 <= i < |pending| && Touches(pending[i], p)
  }

  lemma QueuedMore(pending: seq<Span>, i: nat, p: nat)
    requires i < |pending|
    ensures Queued(pending[..i + 1], p) <==> Queued(pending[..i], p) || Touches(pending[i], p)
  {
    hide Touches;
    if Queued(pending[..i + 1], p) {
      var k :| 0 <= k < i + 1 && Touches(pending[..i + 1][k], p);
      assert k < i ==> Touches(pending[..i][k], p);
    }
    if Queued(pending[..i], p) {
      var k :| 0 <= k < i && Touches(pending[..i][k], p);
      assert Touches(pending[..i + 1][k], p);
    }
    if Touches(pending[i], p) {
      assert Touches(pending[..i + 1][i], p);
    }
  }
}
