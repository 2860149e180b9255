/**
 Who owns each page of shared memory: the valid and GPU-written flags of the SDK, and the mirror
 (src/gpu/vendored/src/graphics/shared_memory.cpp, src/gpu/native/native_shared_residency_mirror.h,
 src/gpu/native/native_invalidation_range.h).

 Each method is tied to the update list of its section in PageFlags; the lemmas say what those lists do to pages.
 */
module PageAuthority {

  import opened Arithmetic
  import opened Bits
  import opened PageFlags

  const BUFFER_BYTES: nat := 0x2000_0000
  const MIRROR_PAGE_BYTES: nat := 4096
  const NO_EXTENT: nat := 0xFFFF_FFFF

  // ----- what the sections do to pages -----

  lemma {:induction false} ValidatedPages(f: Flags, i: nat, first: nat, last: nat, byGpu: bool, p: nat)
    requires f.Sized(|f.valid|) && first <= last && first / 64 <= i <= last / 64 + 1 <= |f.valid| && p < 64 * |f.valid|
    ensures var g := Execute(f, ValidatingTo(i, first, last, byGpu));
            var hit := first <= p <= last && p / 64 < i;
            && (Has(g.valid, p) <==> Has(f.valid, p) || hit)
            && (Has(g.written, p) <==> if hit then byGpu else Has(f.written, p))
            && (Has(g.mirror, p) <==> Has(f.mirror, p) && !hit)
    decreases i
  {
    hide Bit, SpanMask, Execute;
    if i == first / 64 {
      ExecuteNone(f);
    } else {
      ValidatedPages(f, i - 1, first, last, byGpu, p);
      ValidatingNext(i, first, last, byGpu);
      var done, mask := ValidatingTo(i - 1, first, last, byGpu), SpanMask(i - 1, first, last);
      ExecuteConcat(f, done, ValidateWord(i - 1, mask, byGpu));
      ValidatedWord(Execute(f, done), i - 1, mask, byGpu, p);
    }
  }

  lemma ExecuteNone(f: Flags)
    requires f.Sized(|f.valid|)
    ensures Execute(f, []) == f
  {}

  lemma ValidatedWord(f: Flags, i: nat, mask: bv64, byGpu: bool, p: nat)
    requires f.Sized(|f.valid|) && i < |f.valid| && p < 64 * |f.valid|
    ensures var g := Execute(f, ValidateWord(i, mask, byGpu));
            var hit := p / 64 == i && Bit(mask, p % 64);
            && (Has(g.valid, p) <==> Has(f.valid, p) || hit)
            && (Has(g.written, p) <==> if hit then byGpu else Has(f.written, p))
            && (Has(g.mirror, p) <==> Has(f.mirror, p) && !hit)
  {
    ThreeUpdates(f, ClearMirror(i, mask), OrValid(i, mask), if byGpu then OrWritten(i, mask) else ClearWritten(i, mask));
    HasChanged(f.valid, i, mask, p);
    HasChanged(f.written, i, mask, p);
    HasChanged(f.mirror, i, mask, p);
  }

  lemma ThreeUpdates(f: Flags, u: Update, v: Update, w: Update)
    requires f.Sized(|f.valid|) && InRange(u, |f.valid|) && InRange(v, |f.valid|) && InRange(w, |f.valid|)
    ensures Execute(f, [u, v, w]) == Apply(Apply(Apply(f, u), v), w)
  {
    hide Apply;
    assert [u, v, w][1..] == [v, w] && [v, w][1..] == [w] && [w][1..] == [];
    assert Execute(Apply(Apply(f, u), v), [w]) == Apply(Apply(Apply(f, u), v), w);
    assert Execute(Apply(f, u), [v, w]) == Apply(Apply(Apply(f, u), v), w);
  }

  lemma HasChanged(words: seq<bv64>, i: nat, mask: bv64, p: nat)
    requires i < |words| && p < 64 * |words|
    ensures Has(Clear(words, i, mask), p) <==> Has(words, p) && !(p / 64 == i && Bit(mask, p % 64))
    ensures Has(Raise(words, i, mask), p) <==> Has(words, p) || (p / 64 == i && Bit(mask, p % 64))
  {
    var k := p % 64;
    hide Bit, And, Or, Not;
    assert Bit(And(words[i], Not(mask)), k) <==> Bit(words[i], k) && !Bit(mask, k);
    assert Bit(Or(words[i], mask), k) <==> Bit(words[i], k) || Bit(mask, k);
  }

  lemma {:induction false} InvalidatedPages(f: Flags, i: nat, first: nat, last: nat, p: nat)
    requires f.Sized(|f.valid|) && first <= last && first / 64 <= i <= last / 64 + 1 <= |f.valid| && p < 64 * |f.valid|
    ensures var g := Execute(f, InvalidatingTo(i, first, last));
            var hit := first <= p <= last && p / 64 < i;
            && (Has(g.valid, p) <==> Has(f.valid, p) && !hit)
            && (Has(g.written, p) <==> Has(f.written, p) && !hit)
            && (Has(g.mirror, p) <==> Has(f.mirror, p) && !hit)
    decreases i
  {
    hide Bit, SpanMask, Execute;
    if i == first / 64 {
      ExecuteNone(f);
    } else {
      InvalidatedPages(f, i - 1, first, last, p);
      InvalidatingNext(i, first, last);
      var done, mask := InvalidatingTo(i - 1, first, last), SpanMask(i - 1, first, last);
      ExecuteConcat(f, done, InvalidateWord(i - 1, mask));
      InvalidatedWord(Execute(f, done), i - 1, mask, p);
    }
  }

  lemma InvalidatedWord(f: Flags, i: nat, mask: bv64, p: nat)
    requires f.Sized(|f.valid|) && i < |f.valid| && p < 64 * |f.valid|
    ensures var g := Execute(f, InvalidateWord(i, mask));
            var hit := p / 64 == i && Bit(mask, p % 64);
            && (Has(g.valid, p) <==> Has(f.valid, p) && !hit)
            && (Has(g.written, p) <==> Has(f.written, p) && !hit)
            && (Has(g.mirror, p) <==> Has(f.mirror, p) && !hit)
  {
    ThreeUpdates(f, ClearMirror(i, mask), ClearValid(i, mask), ClearWritten(i, mask));
    HasChanged(f.valid, i, mask, p);
    HasChanged(f.written, i, mask, p);
    HasChanged(f.mirror, i, mask, p);
  }

  /** A page that becomes valid, by an upload or by the GPU, is not mirrored yet; the other pages stay as they were. */
  lemma MakeValidEffect(f: Flags, first: nat, last: nat, byGpu: bool, p: nat)
    requires f.Sized(|f.valid|) && first <= last < 64 * |f.valid| && p < 64 * |f.valid|
    ensures var g := Execute(f, Script(MakeValid(first, last, byGpu), |f.valid|));
            if first <= p <= last
            then Has(g.valid, p) && Has(g.written, p) == byGpu && !Has(g.mirror, p)
            else Has(g.valid, p) == Has(f.valid, p) && Has(g.written, p) == Has(f.written, p)
                 && Has(g.mirror, p) == Has(f.mirror, p)
  {
    hide Execute, ValidatingTo, Has;
    ValidatedPages(f, last / 64 + 1, first, last, byGpu, p);
  }

  lemma InvalidateEffect(f: Flags, first: nat, last: nat, p: nat)
    requires f.Sized(|f.valid|) && first <= last < 64 * |f.valid| && p < 64 * |f.valid|
    ensures var g := Execute(f, Script(Invalidate(first, last), |f.valid|));
            if first <= p <= last
            then !Has(g.valid, p) && !Has(g.written, p) && !Has(g.mirror, p)
            else Has(g.valid, p) == Has(f.valid, p) && Has(g.written, p) == Has(f.written, p)
                 && Has(g.mirror, p) == Has(f.mirror, p)
  {
    hide Execute, InvalidatingTo, Has;
    InvalidatedPages(f, last / 64 + 1, first, last, p);
  }

  // ----- widening an invalidation -----

  datatype Pages = Pages(first: nat, last: nat) {
    predicate Has(p: nat) { first <= p <= last }
  }

  /** `64 - lzcnt` of the GPU-written bits below a page: where the widened range may begin in its word. */
  function GrowDown(word: bv64, k: nat): (r: nat)
    requires 0 < k < 64
    ensures r <= k && (r > 0 ==> Bit(word, r - 1)) && forall j | r <= j < k :: !Bit(word, j)
  {
    hide Bit;
    var below := And(word, MaskBelow(k));
    GrowsDown(word, below, k, TopBelow(below, 64));
    TopBelow(below, 64)
  }

  lemma GrowsDown(word: bv64, below: bv64, k: nat, r: nat)
    requires k < 64 && forall j | 0 <= j < 64 :: Bit(below, j) <==> Bit(word, j) && j < k
    requires r <= 64 && (r > 0 ==> Bit(below, r - 1)) && forall j | r <= j < 64 :: !Bit(below, j)
    ensures r <= k && (r > 0 ==> Bit(word, r - 1)) && forall j | r <= j < k :: !Bit(word, j)
  {
    hide Bit;
    forall j | r <= j < k ensures !Bit(word, j) {
      assert !Bit(below, j);
    }
  }

  function BitsAbove(word: bv64, k: nat): (r: bv64)
    requires k < 63
    ensures forall j | 0 <= j < 64 :: Bit(r, j) <==> Bit(word, j) && k < j
  {
    And(word, Not(MaskThrough(k)))
  }

  /** `max(tzcnt, 1) - 1` of the GPU-written bits above a page: where the widened range may end in its word. */
  function GrowUp(word: bv64, k: nat): (r: nat)
    requires k < 63
    ensures k <= r < 64 && (r < 63 ==> Bit(word, r + 1)) && forall j | k < j <= r :: !Bit(word, j)
  {
    var above := BitsAbove(word, k);
    var found := ScanFrom(above, 0);
    GrowsUp(word, above, k, found);
    (if found > 1 then found else 1) - 1
  }

  lemma GrowsUp(word: bv64, above: bv64, k: nat, found: nat)
    requires k < 63 && forall j | 0 <= j < 64 :: Bit(above, j) <==> Bit(word, j) && k < j
    requires found <= 64 && (found < 64 ==> Bit(above, found)) && forall j | 0 <= j < found :: !Bit(above, j)
    ensures k < found && (found < 64 ==> Bit(word, found)) && forall j | k < j < found :: !Bit(word, j)
  {
    hide Bit;
    forall j | k < j < found ensures !Bit(word, j) {
      assert !Bit(above, j);
    }
  }

  /** The request grown inside its 64-page blocks up to the nearest GPU-written pages. */
  function Widen(written: seq<bv64>, r: Pages): (w: Pages)
    requires r.first <= r.last < 64 * |written|
    ensures w.first <= r.first && r.last <= w.last < 64 * |written|
    ensures w.first / 64 == r.first / 64 && w.last / 64 == r.last / 64
  {
    var first := if r.first % 64 != 0 then r.first - r.first % 64 + GrowDown(written[r.first / 64], r.first % 64)
                 else r.first;
    var last := if r.last % 64 != 63 then r.last - r.last % 64 + GrowUp(written[r.last / 64], r.last % 64)
                else r.last;
    Pages(first, last)
  }

  ghost predicate WidestFree(written: seq<bv64>, r: Pages, w: Pages)
    requires w.first <= w.last < 64 * |written|
  {
    && (forall p: nat | w.Has(p) && !r.Has(p) :: !Has(written, p))
    && (w.first % 64 != 0 ==> Has(written, w.first - 1))
    && (w.last % 64 != 63 ==> Has(written, w.last + 1))
  }

  /** The grown part holds no GPU-written page, and it stops only at a block end or at a GPU-written page. */
  lemma WidenExactly(written: seq<bv64>, r: Pages)
    requires r.first <= r.last < 64 * |written|
    ensures WidestFree(written, r, Widen(written, r))
  {
    hide Bit, GrowDown, GrowUp;
    var w := Widen(written, r);
    forall p: nat | w.Has(p) && !r.Has(p) ensures !Has(written, p) {
      if p < r.first {
        assert p / 64 == r.first / 64;
      } else {
        assert p / 64 == r.last / 64;
      }
    }
  }

  // ----- the 64 KiB cap -----

  function Pow2(n: nat): (r: nat)
    ensures r > 0
  {
    if n == 0 then 1 else 2 * Pow2(n - 1)
  }

  /** Host pages in a 64 KiB block. */
  function CapBlock(pageLog2: nat): (r: nat)
    ensures r > 0
  {
    if pageLog2 < 16 then Pow2(16 - pageLog2) else 1
  }

  function CapNativeInvalidationRange(requested: Pages, original: Pages, pageLog2: nat, exact: bool, enabled: bool): Pages {
    if !enabled || exact || pageLog2 >= 32 || requested.first > requested.last
       || original.first > requested.first || original.last < requested.last
    then original
    else
      var block := CapBlock(pageLog2);
      var low, high := requested.first - requested.first % block, requested.last - requested.last % block + block - 1;
      Pages(if original.first > low then original.first else low, if original.last < high then original.last else high)
  }

  /** The cap keeps every requested page, adds none, and drops exactly what lies outside the request's 64 KiB blocks. */
  lemma CapExactly(requested: Pages, original: Pages, pageLog2: nat, exact: bool, enabled: bool, p: nat)
    requires original.first <= requested.first <= requested.last <= original.last
    ensures var c := CapNativeInvalidationRange(requested, original, pageLog2, exact, enabled);
            var block := CapBlock(pageLog2);
            && original.first <= c.first <= requested.first && requested.last <= c.last <= original.last
            && (c.Has(p) <==> original.Has(p)
                              && (!enabled || exact || pageLog2 >= 32
                                  || requested.first / block <= p / block <= requested.last / block))
  {
    var block := CapBlock(pageLog2);
    hide CapBlock;
    InBlock(p, requested.first, block);
    InBlock(p, requested.last, block);
  }

  lemma InBlock(p: nat, x: nat, block: nat)
    requires block > 0
    ensures x % block < block && x - x % block <= x <= x - x % block + block - 1
    ensures x - x % block <= p <==> x / block <= p / block
    ensures p <= x - x % block + block - 1 <==> p / block <= x / block
  {
    assert x - x % block == x / block * block;
    DivCompare(p, x / block, block);
  }

  // ----- the callback's range -----

  /** The pages the CPU-write callback invalidates. */
  function CallbackPages(written: seq<bv64>, requested: Pages, pageLog2: nat, exact: bool, narrow: bool): (r: Pages)
    requires requested.first <= requested.last < 64 * |written|
    ensures r.first <= requested.first && requested.last <= r.last < 64 * |written|
    ensures r.first / 64 == requested.first / 64 && r.last / 64 == requested.last / 64
  {
    var widened := if exact then requested else Widen(written, requested);
    CapExactly(requested, widened, pageLog2, exact, narrow, 0);
    CapNativeInvalidationRange(requested, widened, pageLog2, exact, narrow)
  }

  /** Outside the request nothing the GPU wrote is lost, and nothing outside the request's own blocks is touched. */
  lemma CallbackSpares(written: seq<bv64>, requested: Pages, pageLog2: nat, exact: bool, narrow: bool, p: nat)
    requires requested.first <= requested.last < 64 * |written|
    requires CallbackPages(written, requested, pageLog2, exact, narrow).Has(p) && !requested.Has(p)
    ensures !exact && p < 64 * |written| && !Has(written, p)
    ensures requested.first / 64 <= p / 64 <= requested.last / 64
    ensures narrow && pageLog2 < 32 ==>
              requested.first / CapBlock(pageLog2) <= p / CapBlock(pageLog2) <= requested.last / CapBlock(pageLog2)
  {
    var widened := if exact then requested else Widen(written, requested);
    hide Widen, CapNativeInvalidationRange, CapBlock, Has;
    CapExactly(requested, widened, pageLog2, exact, narrow, p);
    WidenExactly(written, requested);
  }

  /**
   Without the cap the callback's pages are the widest that spare what the GPU wrote; an exact request is not widened;
   and the cap only cuts at the request's 64 KiB blocks.
   */
  lemma CallbackPagesAre(written: seq<bv64>, requested: Pages, pageLog2: nat, exact: bool, narrow: bool, p: nat)
    requires requested.first <= requested.last < 64 * |written|
    ensures exact ==> CallbackPages(written, requested, pageLog2, exact, narrow) == requested
    ensures !exact && !narrow ==> WidestFree(written, requested, CallbackPages(written, requested, pageLog2, exact, narrow))
    ensures !exact && narrow && pageLog2 < 32 ==>
              (CallbackPages(written, requested, pageLog2, exact, narrow).Has(p)
               <==> CallbackPages(written, requested, pageLog2, exact, false).Has(p)
                    && CapUnit(requested.first, pageLog2) <= CapUnit(p, pageLog2) <= CapUnit(requested.last, pageLog2))
  {
    var widened := if exact then requested else Widen(written, requested);
    hide Widen, CapBlock, Has;
    CapExactly(requested, widened, pageLog2, exact, narrow, p);
    WidenExactly(written, requested);
    UnitIsBlock(p, pageLog2);
    UnitIsBlock(requested.first, pageLog2);
    UnitIsBlock(requested.last, pageLog2);
    if exact {
      assert CapNativeInvalidationRange(requested, widened, pageLog2, exact, narrow) == requested;
    }
  }

  /** The 64 KiB block a page begins in, or the page itself when pages are larger than that. */
  function CapUnit(p: nat, pageLog2: nat): nat {
    if pageLog2 <= 16 then p * Pow2(pageLog2) / 0x1_0000 else p
  }

  lemma {:induction false} PowAdds(a: nat, b: nat)
    ensures Pow2(0) == 1 && Pow2(1) == 2 && Pow2(a + b) == Pow2(a) * Pow2(b)
  {
    if b > 0 {
      PowAdds(a, b - 1);
      assert Pow2(a + b) == 2 * Pow2(a + (b - 1));
    }
  }

  lemma PowSixteen()
    ensures Pow2(16) == 0x1_0000
  {
    PowTwelve();
    PowAdds(12, 4);
    assert Pow2(4) == 16;
  }

  lemma UnitIsBlock(p: nat, pageLog2: nat)
    ensures CapUnit(p, pageLog2) == p / CapBlock(pageLog2)
  {
    PowSixteen();
    hide Pow2;
    if pageLog2 <= 16 {
      PowAdds(16 - pageLog2, pageLog2);
      var block, page := Pow2(16 - pageLog2), Pow2(pageLog2);
      assert block * page == 0x1_0000;
      SameQuotient(p, block, page);
    }
  }

  lemma Regroup(a: nat, b: nat, c: nat)
    ensures a * (b * c) == a * b * c && (a * b + b) * c == a * b * c + b * c
  {}

  /** Scaling both sides keeps a quotient. */
  lemma SameQuotient(p: nat, block: nat, page: nat)
    requires block > 0 && page > 0 && block * page > 0
    ensures p * page / (block * page) == p / block
  {
    var q, n, size := p / block, p * page, block * page;
    assert q * size <= n < q * size + size by {
      DivBounds(p, block);
      Regroup(q, block, page);
      TimesOrderIff(q * block, p, page);
      MulBelow(p, q * block + block, page);
    }
    DivCompare(n, q, size);
  }

  // ----- bytes and pages -----

  /** The page holds a byte of the range, as far as that lies in the buffer. */
  ghost predicate Touched(start: nat, length: nat, pageLog2: nat, p: nat) {
    exists x: nat :: start <= x < start + length && x < BUFFER_BYTES && x / Pow2(pageLog2) == p
  }

  /** The whole page lies in the byte extent. */
  predicate InExtent(extent: (nat, nat), pageLog2: nat, p: nat) {
    extent.0 <= p * Pow2(pageLog2) && (p + 1) * Pow2(pageLog2) <= extent.0 + extent.1
  }

  lemma ExtentHolds(pages: Pages, pageLog2: nat, p: nat)
    requires pages.first <= pages.last
    ensures InExtent((pages.first * Pow2(pageLog2), (pages.last - pages.first + 1) * Pow2(pageLog2)), pageLog2, p)
            <==> pages.Has(p)
  {
    var size := Pow2(pageLog2);
    hide Pow2;
    Distributes(pages.first, pages.last - pages.first + 1, size);
    TimesOrderIff(pages.first, p, size);
    TimesOrderIff(p + 1, pages.last + 1, size);
  }

  lemma Distributes(a: nat, b: nat, c: nat)
    ensures a * c + b * c == (a + b) * c
  {}

  lemma TimesOrderIff(a: nat, b: nat, c: nat)
    requires c > 0
    ensures a <= b <==> a * c <= b * c
  {
    if a < b { MulBelow(a, b, c); }
    if b < a { MulBelow(b, a, c); }
  }

  /** The pages of an unbroken run of bytes are the pages from its first byte's to its last byte's. */
  lemma PagesOfBytes(first: nat, last: nat, size: nat, p: nat)
    requires first <= last && size > 0
    ensures first / size <= p <= last / size <==> exists x: nat :: first <= x <= last && x / size == p
  {
    if first / size <= p <= last / size {
      var x := if p == first / size then first else p * size;
      DivCompare(first, p, size);
      DivCompare(last, p, size);
      DivCompare(p * size, p, size);
      if p > first / size {
        DivBounds(first, size);
        MulBelow(first / size, p, size);
      }
      assert first <= x <= last && x / size == p;
    }
    forall x: nat | first <= x <= last ensures first / size <= x / size <= last / size {
      DivBounds(first, size);
      DivBounds(x, size);
      DivCompare(x, first / size, size);
      DivCompare(last, x / size, size);
    }
  }

  // ----- the mirror -----

  datatype ByteRange = ByteRange(first: nat, length: nat) {
    predicate InBuffer() { length > 0 && first < BUFFER_BYTES && length <= BUFFER_BYTES - first }

    function FirstPage(): nat { first / MIRROR_PAGE_BYTES }

    function LastPage(): nat
      requires InBuffer()
    {
      (first + length - 1) / MIRROR_PAGE_BYTES
    }

    /** The range has a byte, and all of its bytes are in the buffer, in mirrored pages. */
    ghost predicate Mirrored(words: seq<bv64>)
      requires |words| == MIRROR_WORDS
    {
      length > 0 && forall x: nat | first <= x < first + length :: MirroredByte(words, x)
    }
  }

  /** The byte is in the buffer, in a mirrored page. */
  ghost predicate MirroredByte(words: seq<bv64>, x: nat)
    requires |words| == MIRROR_WORDS
  {
    x < BUFFER_BYTES && Has(words, x / MIRROR_PAGE_BYTES)
  }

  lemma MirroredPages(b: ByteRange, words: seq<bv64>)
    requires |words| == MIRROR_WORDS
    ensures b.Mirrored(words)
            <==> b.InBuffer() && forall p | b.FirstPage() <= p <= b.LastPage() :: Has(words, p)
  {
    hide Has;
    if b.Mirrored(words) {
      var last := b.first + b.length - 1;
      assert MirroredByte(words, last);
      forall p | b.FirstPage() <= p <= b.LastPage() ensures Has(words, p) {
        PagesOfBytes(b.first, last, MIRROR_PAGE_BYTES, p);
        var x: nat :| b.first <= x <= last && x / MIRROR_PAGE_BYTES == p;
        assert MirroredByte(words, x);
      }
    }
    if b.InBuffer() && forall p | b.FirstPage() <= p <= b.LastPage() :: Has(words, p) {
      forall x: nat | b.first <= x < b.first + b.length ensures MirroredByte(words, x) {
        assert b.FirstPage() <= x / MIRROR_PAGE_BYTES <= b.LastPage();
      }
    }
  }

  const MIRROR_WORDS: nat := 2048

  class NativeSharedResidencyMirror {
    var words: seq<bv64>
    var disabled: bool

    constructor ()
      ensures Valid() && !disabled && forall p | 0 <= p < 64 * MIRROR_WORDS :: !Has(words, p)
    {
      words, disabled := seq(MIRROR_WORDS, _ => 0), false;
      ZeroBits();
    }

    ghost predicate Valid()
      reads this
    {
      |words| == MIRROR_WORDS
    }

    /** Read at one instant: every byte of every range is in a mirrored page, and the mirror is in use. */
    method Contains(ranges: seq<ByteRange>) returns (r: bool)
      requires Valid()
      ensures r <==> ranges != [] && !disabled && forall b | b in ranges :: b.Mirrored(words)
    {
      hide Has;
      r := ContainsPages(ranges);
      forall b | b in ranges
        ensures b.Mirrored(words) <==> b.InBuffer() && forall p | b.FirstPage() <= p <= b.LastPage() :: Has(words, p)
      {
        MirroredPages(b, words);
      }
    }

    method ContainsPages(ranges: seq<ByteRange>) returns (r: bool)
      requires Valid()
      ensures r <==> ranges != [] && !disabled
                     && (forall b | b in ranges :: b.InBuffer())
                     && (forall b, p | b in ranges && b.InBuffer() && b.FirstPage() <= p <= b.LastPage() :: Has(words, p))
    {
      if ranges == [] || disabled {
        return false;
      }
      for i := 0 to |ranges|
        invariant forall b | b in ranges[..i] :: b.InBuffer()
      {
        if !ranges[i].InBuffer() {
          assert ranges[i] in ranges;
          return false;
        }
        assert ranges[..i + 1] == ranges[..i] + [ranges[i]];
      }
      assert ranges[..|ranges|] == ranges;
      for i := 0 to |ranges|
        invariant forall b, p | b in ranges[..i] && b.InBuffer() && b.FirstPage() <= p <= b.LastPage() :: Has(words, p)
      {
        var b := ranges[i];
        assert b in ranges;
        var all := ContainsSpan(b.FirstPage(), b.LastPage());
        if !all {
          return false;
        }
        assert ranges[..i + 1] == ranges[..i] + [b];
      }
      return true;
    }

    method ContainsSpan(first: nat, last: nat) returns (r: bool)
      requires Valid() && first <= last < 64 * MIRROR_WORDS
      ensures r <==> forall p | first <= p <= last :: Has(words, p)
    {
      hide Bit, SpanMask, And;
      var word := first / 64;
      while word <= last / 64
        invariant first / 64 <= word <= last / 64 + 1
        invariant forall p | first <= p <= last && p / 64 < word :: Has(words, p)
      {
        var mask := SpanMask(word, first, last);
        MaskHeld(words, word, first, last, mask);
        if And(words[word], mask) != mask {
          return false;
        }
        word := word + 1;
      }
      return true;
    }

    method PromoteValidWord(word: nat, liveValid: bv64, requested: bv64)
      requires Valid()
      modifies `words
      ensures words == if word < MIRROR_WORDS && !disabled then Raise(old(words), word, And(liveValid, requested)) else old(words)
    {
      if word >= MIRROR_WORDS || disabled {
        return;
      }
      var bits := And(liveValid, requested);
      if bits == 0 {
        RaiseNothing(words, word);
        return;
      }
      words := words[word := Or(words[word], bits)];
    }

    method ClearWord(word: nat, mask: bv64)
      requires Valid()
      modifies `words
      ensures words == if word < MIRROR_WORDS then Clear(old(words), word, mask) else old(words)
    {
      if word < MIRROR_WORDS {
        words := words[word := And(words[word], Not(mask))];
      }
    }

    /** Forgets exactly the pages of the span that exist. */
    method ClearPages(first: nat, last: nat)
      requires Valid()
      modifies `words
      ensures Valid()
      ensures forall p | 0 <= p < 64 * MIRROR_WORDS :: Has(words, p) <==> Has(old(words), p) && !(first <= p <= last)
    {
      if first > last || first >= 64 * MIRROR_WORDS {
        return;
      }
      var end := if last >= 64 * MIRROR_WORDS then 64 * MIRROR_WORDS - 1 else last;
      hide SpanMask, Bit, Has;
      var word := first / 64;
      while word <= end / 64
        invariant first / 64 <= word <= end / 64 + 1 && Valid()
        invariant forall p | 0 <= p < 64 * MIRROR_WORDS ::
          Has(words, p) <==> Has(old(words), p) && !(first <= p <= end && p / 64 < word)
      {
        ghost var before := words;
        var mask := SpanMask(word, first, end);
        ClearWord(word, mask);
        forall p | 0 <= p < 64 * MIRROR_WORDS
          ensures Has(words, p) <==> Has(before, p) && !(first <= p <= end && p / 64 == word)
        {
          HasChanged(before, word, mask, p);
        }
        word := word + 1;
      }
    }

    method Reset()
      requires Valid()
      modifies `words
      ensures words == seq(MIRROR_WORDS, _ => 0)
    {
      for i := 0 to MIRROR_WORDS
        invariant |words| == MIRROR_WORDS && forall k | 0 <= k < i :: words[k] == 0
      {
        words := words[i := 0];
      }
    }

    method Disable()
      requires Valid()
      modifies this
      ensures disabled && words == seq(MIRROR_WORDS, _ => 0)
    {
      disabled := true;
      Reset();
    }
  }

  lemma RaiseNothing(words: seq<bv64>, i: nat)
    requires i < |words|
    ensures Raise(words, i, 0) == words
  {
    ZeroBits();
    WordExt(Or(words[i], 0), words[i]);
  }

  /** A word holds all bits of its mask exactly when all of the span's pages in it are flagged. */
  lemma MaskHeld(words: seq<bv64>, i: nat, first: nat, last: nat, mask: bv64)
    requires first <= last < 64 * |words| && first / 64 <= i <= last / 64 && mask == SpanMask(i, first, last)
    ensures And(words[i], mask) == mask <==> forall p | first <= p <= last && p / 64 == i :: Has(words, p)
  {
    hide Bit, SpanMask, And;
    if forall p | first <= p <= last && p / 64 == i :: Has(words, p) {
      forall k | 0 <= k < 64 ensures Bit(And(words[i], mask), k) == Bit(mask, k) {
        var p := 64 * i + k;
        assert p / 64 == i && p % 64 == k;
        assert Bit(mask, k) ==> Has(words, p);
      }
      WordExt(And(words[i], mask), mask);
    }
    if And(words[i], mask) == mask {
      forall p | first <= p <= last && p / 64 == i ensures Has(words, p) {
        assert Bit(mask, p % 64);
        assert Bit(And(words[i], mask), p % 64);
      }
    }
  }

  // ----- the SDK's flags -----

  class SharedPages {
    var valid: seq<bv64>
    var written: seq<bv64>
    const mirror: NativeSharedResidencyMirror
    const pageLog2: nat

    constructor (log2: nat, residency: NativeSharedResidencyMirror)
      requires residency.Valid()
      ensures Valid() && mirror == residency && pageLog2 == log2
    {
      valid, written := seq(MIRROR_WORDS, _ => 0), seq(MIRROR_WORDS, _ => 0);
      mirror, pageLog2 := residency, log2;
    }

    ghost predicate Valid()
      reads this, mirror
    {
      |valid| == |written| == MIRROR_WORDS && mirror.Valid()
    }

    ghost function Now(): Flags
      reads this, mirror
    {
      Flags(valid, written, mirror.words, !mirror.disabled)
    }

    /** The span a byte range names, with the part past the buffer cut off. */
    function SpanOf(start: nat, length: nat): (r: Pages)
      requires pageLog2 >= 12 && length > 0 && start < BUFFER_BYTES
      ensures r.first <= r.last < 64 * MIRROR_WORDS
    {
      hide PageIndex;
      var size := if length < BUFFER_BYTES - start then length else BUFFER_BYTES - start;
      SpanFits(start, start + size - 1, pageLog2);
      Pages(PageIndex(start, pageLog2), PageIndex(start + size - 1, pageLog2))
    }

    /** A page is in the span exactly when it holds a byte of the range inside the buffer. */
    lemma SpanTouches(start: nat, length: nat, p: nat)
      requires pageLog2 >= 12 && length > 0 && start < BUFFER_BYTES
      ensures SpanOf(start, length).Has(p) <==> Touched(start, length, pageLog2, p)
    {
      hide Pow2;
      var size := if length < BUFFER_BYTES - start then length else BUFFER_BYTES - start;
      PagesOfBytes(start, start + size - 1, Pow2(pageLog2), p);
    }

    lemma NothingTouched(start: nat, length: nat, p: nat)
      requires length == 0 || start >= BUFFER_BYTES
      ensures !Touched(start, length, pageLog2, p)
    {}

    /** The pages holding a byte of the range become valid, GPU-written as asked and unmirrored; no other page changes. */
    method MakeRangeValid(start: nat, length: nat, byGpu: bool)
      requires Valid() && pageLog2 >= 12
      modifies this, mirror
      ensures Valid()
      ensures Now() == if length == 0 || start >= BUFFER_BYTES then old(Now())
                       else var r := SpanOf(start, length);
                            Execute(old(Now()), Script(MakeValid(r.first, r.last, byGpu), MIRROR_WORDS))
      ensures forall p: nat | p < 64 * MIRROR_WORDS :: MadeValid(old(Now()), Now(), Touched(start, length, pageLog2, p), byGpu, p)
    {
      hide Execute, Script, SpanOf, MadeValid, Touched;
      ghost var before := Now();
      if length > 0 && start < BUFFER_BYTES {
        ghost var r := SpanOf(start, length);
        ValidateBlocks(SpanOf(start, length), byGpu);
        forall p: nat | p < 64 * MIRROR_WORDS
          ensures MadeValid(before, Now(), Touched(start, length, pageLog2, p), byGpu, p)
        {
          SpanTouches(start, length, p);
          MadeValidAt(before, r, byGpu, p);
        }
      } else {
        forall p: nat | p < 64 * MIRROR_WORDS
          ensures MadeValid(before, Now(), Touched(start, length, pageLog2, p), byGpu, p)
        {
          NothingTouched(start, length, p);
          NothingMade(before, byGpu, p);
        }
      }
    }

    method ValidateBlock(i: nat, bits: bv64, byGpu: bool)
      requires Valid() && i < MIRROR_WORDS
      modifies this, mirror
      ensures Valid() && Now() == Execute(old(Now()), ValidateWord(i, bits, byGpu))
    {
      hide And, Or, Not;
      ThreeUpdates(Now(), ClearMirror(i, bits), OrValid(i, bits), if byGpu then OrWritten(i, bits) else ClearWritten(i, bits));
      mirror.ClearWord(i, bits);
      valid := valid[i := Or(valid[i], bits)];
      written := written[i := if byGpu then Or(written[i], bits) else And(written[i], Not(bits))];
    }

    method InvalidateBlock(i: nat, bits: bv64)
      requires Valid() && i < MIRROR_WORDS
      modifies this, mirror
      ensures Valid() && Now() == Execute(old(Now()), InvalidateWord(i, bits))
    {
      hide And, Or, Not;
      ThreeUpdates(Now(), ClearMirror(i, bits), ClearValid(i, bits), ClearWritten(i, bits));
      mirror.ClearWord(i, bits);
      valid := valid[i := And(valid[i], Not(bits))];
      written := written[i := And(written[i], Not(bits))];
    }

    method ValidateBlocks(pages: Pages, byGpu: bool)
      requires Valid() && pages.first <= pages.last < 64 * MIRROR_WORDS
      modifies this, mirror
      ensures Valid()
      ensures Now() == Execute(old(Now()), Script(MakeValid(pages.first, pages.last, byGpu), MIRROR_WORDS))
    {
      hide Execute, SpanMask, ValidatingTo, ValidateWord;
      var i := pages.first / 64;
      NoneValidated(Now(), pages.first, pages.last, byGpu);
      while i <= pages.last / 64
        invariant pages.first / 64 <= i <= pages.last / 64 + 1 && Valid()
        invariant Now() == Execute(old(Now()), ValidatingTo(i, pages.first, pages.last, byGpu))
      {
        ValidateBlock(i, BlockMask(i, pages.first, pages.last), byGpu);
        NextValidated(old(Now()), i, pages.first, pages.last, byGpu);
        i := i + 1;
      }
    }

    /**
     A CPU write forgets every page holding a byte of the range. What else it forgets lies in the extent it returns and
     was not GPU-written; an exact request forgets nothing else, and no page outside the extent changes.
     */
    method MemoryInvalidationCallback(start: nat, length: nat, exact: bool, narrow: bool)
      returns (extent: (nat, nat))
      requires Valid() && pageLog2 >= 12
      modifies this, mirror
      ensures Valid()
      ensures length == 0 || start >= BUFFER_BYTES ==> extent == (0, NO_EXTENT) && Now() == old(Now())
      ensures length > 0 && start < BUFFER_BYTES ==>
        var pages := CallbackPages(old(written), SpanOf(start, length), pageLog2, exact, narrow);
        && extent == (pages.first * Pow2(pageLog2), (pages.last - pages.first + 1) * Pow2(pageLog2))
        && Now() == Execute(old(Now()), Script(Invalidate(pages.first, pages.last), MIRROR_WORDS))
      ensures length > 0 && start < BUFFER_BYTES ==>
        forall p: nat | p < 64 * MIRROR_WORDS ::
          Forgotten(old(Now()), Now(), InExtent(extent, pageLog2, p), Touched(start, length, pageLog2, p), exact, p)
    {
      hide Execute, Script, SpanOf, CallbackPages, Pow2, Forgotten, Touched, InExtent;
      if length == 0 || start >= BUFFER_BYTES {
        return (0, NO_EXTENT);
      }
      ghost var before := Now();
      var requested := SpanOf(start, length);
      var pages := InvalidateWidened(requested, exact, narrow);
      extent := (pages.first * Pow2(pageLog2), (pages.last - pages.first + 1) * Pow2(pageLog2));
      forall p: nat | p < 64 * MIRROR_WORDS
        ensures Forgotten(before, Now(), InExtent(extent, pageLog2, p), Touched(start, length, pageLog2, p), exact, p)
      {
        SpanTouches(start, length, p);
        ExtentHolds(pages, pageLog2, p);
        ForgottenAt(before, requested, pageLog2, exact, narrow, p);
      }
    }

    /** Forgets the pages of a request, widened and possibly capped. */
    method InvalidateWidened(requested: Pages, exact: bool, narrow: bool) returns (pages: Pages)
      requires Valid() && requested.first <= requested.last < 64 * MIRROR_WORDS
      modifies this, mirror
      ensures Valid() && pages == CallbackPages(old(written), requested, pageLog2, exact, narrow)
      ensures Now() == Execute(old(Now()), Script(Invalidate(pages.first, pages.last), MIRROR_WORDS))
    {
      hide Execute, Script, CallbackPages;
      var blockFirst, blockLast := requested.first / 64, requested.last / 64;
      pages := CallbackPages(written, requested, pageLog2, exact, narrow);
      InvalidateBlocks(blockFirst, blockLast, pages);
    }

    method InvalidateBlocks(blockFirst: nat, blockLast: nat, pages: Pages)
      requires Valid() && pages.first <= pages.last < 64 * MIRROR_WORDS
      requires blockFirst == pages.first / 64 && blockLast == pages.last / 64
      modifies this, mirror
      ensures Valid()
      ensures Now() == Execute(old(Now()), Script(Invalidate(pages.first, pages.last), MIRROR_WORDS))
    {
      hide Execute, SpanMask, InvalidatingTo, InvalidateWord;
      var i := blockFirst;
      NoneInvalidated(Now(), pages.first, pages.last);
      while i <= blockLast
        invariant blockFirst <= i <= blockLast + 1 && Valid()
        invariant Now() == Execute(old(Now()), InvalidatingTo(i, pages.first, pages.last))
      {
        InvalidateNext(i, pages, old(Now()));
        i := i + 1;
      }
    }

    method InvalidateNext(i: nat, pages: Pages, ghost before: Flags)
      requires Valid() && before.Sized(MIRROR_WORDS) && pages.first <= pages.last < 64 * MIRROR_WORDS
      requires pages.first / 64 <= i <= pages.last / 64
      requires Now() == Execute(before, InvalidatingTo(i, pages.first, pages.last))
      modifies this, mirror
      ensures Valid() && Now() == Execute(before, InvalidatingTo(i + 1, pages.first, pages.last))
    {
      hide Execute, SpanMask, InvalidatingTo, InvalidateWord;
      InvalidateBlock(i, BlockMask(i, pages.first, pages.last));
      NextInvalidated(before, i, pages.first, pages.last);
    }

    /** Every page of every vector is cleared. */
    method InvalidateAllPages()
      requires Valid()
      modifies this, mirror
      ensures Valid()
      ensures Now() == old(Now()).(valid := Zeros(), written := Zeros(), mirror := Zeros())
    {
      mirror.Reset();
      valid := seq(MIRROR_WORDS, _ => 0);
      written := seq(MIRROR_WORDS, _ => 0);
    }

    /** The frame's end: only what the GPU wrote stays valid. */
    method SetSystemPageBlocksValidWithGpuDataWritten()
      requires Valid()
      modifies this, mirror
      ensures Valid()
      ensures Now() == old(Now()).(valid := old(written), mirror := Zeros())
    {
      mirror.Reset();
      valid := written;
    }
  }

  /** What making pages valid does to one page. */
  ghost predicate MadeValid(f: Flags, g: Flags, touched: bool, byGpu: bool, p: nat) {
    && f.Sized(MIRROR_WORDS) && g.Sized(MIRROR_WORDS) && p < 64 * MIRROR_WORDS
    && if touched then Has(g.valid, p) && Has(g.written, p) == byGpu && !Has(g.mirror, p)
       else SameFlags(f, g, p)
  }

  predicate SameFlags(f: Flags, g: Flags, p: nat)
    requires f.Sized(MIRROR_WORDS) && g.Sized(MIRROR_WORDS) && p < 64 * MIRROR_WORDS
  {
    Has(g.valid, p) == Has(f.valid, p) && Has(g.written, p) == Has(f.written, p) && Has(g.mirror, p) == Has(f.mirror, p)
  }

  lemma MadeValidAt(f: Flags, r: Pages, byGpu: bool, p: nat)
    requires f.Sized(MIRROR_WORDS) && r.first <= r.last < 64 * MIRROR_WORDS && p < 64 * MIRROR_WORDS
    ensures MadeValid(f, Execute(f, Script(MakeValid(r.first, r.last, byGpu), MIRROR_WORDS)), r.Has(p), byGpu, p)
  {
    hide Execute, Script, Has;
    MakeValidEffect(f, r.first, r.last, byGpu, p);
  }

  lemma NothingMade(f: Flags, byGpu: bool, p: nat)
    requires f.Sized(MIRROR_WORDS) && p < 64 * MIRROR_WORDS
    ensures MadeValid(f, f, false, byGpu, p)
  {
    hide Has;
  }

  /** What a CPU write does to one page. */
  ghost predicate Forgotten(f: Flags, g: Flags, inExtent: bool, touched: bool, exact: bool, p: nat) {
    && f.Sized(MIRROR_WORDS) && g.Sized(MIRROR_WORDS) && p < 64 * MIRROR_WORDS
    && (touched ==> inExtent) && (inExtent && !touched ==> !exact && !Has(f.written, p))
    && if inExtent then !Has(g.valid, p) && !Has(g.written, p) && !Has(g.mirror, p) else SameFlags(f, g, p)
  }

  lemma ForgottenAt(f: Flags, requested: Pages, pageLog2: nat, exact: bool, narrow: bool, p: nat)
    requires f.Sized(MIRROR_WORDS) && requested.first <= requested.last < 64 * MIRROR_WORDS && p < 64 * MIRROR_WORDS
    ensures var pages := CallbackPages(f.written, requested, pageLog2, exact, narrow);
            Forgotten(f, Execute(f, Script(Invalidate(pages.first, pages.last), MIRROR_WORDS)), pages.Has(p), requested.Has(p), exact, p)
  {
    hide Execute, Script, Has, CallbackPages;
    var pages := CallbackPages(f.written, requested, pageLog2, exact, narrow);
    InvalidateEffect(f, pages.first, pages.last, p);
    if pages.Has(p) && !requested.Has(p) {
      CallbackSpares(f.written, requested, pageLog2, exact, narrow, p);
    }
  }

  function Zeros(): seq<bv64> {
    seq(MIRROR_WORDS, _ => 0)
  }

  /** The mask the flag loops build: from the span's first bit in the first word through its last bit in the last. */
  function BlockMask(i: nat, first: nat, last: nat): (r: bv64)
    requires first <= last && first / 64 <= i <= last / 64
    ensures r == SpanMask(i, first, last)
  {
    AllBits();
    var low := if i == first / 64 then And(ALL, Not(MaskBelow(first % 64))) else ALL;
    var r := if i == last / 64 && last % 64 != 63 then And(low, MaskThrough(last % 64)) else low;
    WordExt(r, SpanMask(i, first, last));
    r
  }

  function PageIndex(byte: nat, log2: nat): nat {
    hide Pow2;
    Quotient(byte, Pow2(log2))
  }

  lemma SpanFits(first: nat, last: nat, log2: nat)
    requires log2 >= 12 && first <= last < BUFFER_BYTES
    ensures PageIndex(first, log2) <= PageIndex(last, log2) < 64 * MIRROR_WORDS
  {
    hide Pow2;
    PowGrows(12, log2);
    PowTwelve();
    DivBounds(last, Pow2(log2));
    DivCompare(first, Quotient(last, Pow2(log2)), Pow2(log2));
    FewPages(last, Pow2(log2));
  }

  lemma FewPages(byte: nat, size: nat)
    requires size >= 4096 && byte < BUFFER_BYTES
    ensures byte / size < 64 * MIRROR_WORDS
  {
    DivCompare(byte, 64 * MIRROR_WORDS - 1, size);
    assert 64 * MIRROR_WORDS * (size - 4096) >= 0;
  }

  lemma PowTwelve()
    ensures Pow2(12) == 4096
  {
    assert Pow2(6) == 64;
    assert Pow2(9) == 512;
  }

  lemma {:induction false} PowGrows(a: nat, b: nat)
    requires a <= b
    ensures Pow2(a) <= Pow2(b)
  {
    if a < b { PowGrows(a, b - 1); }
  }

  lemma NoneValidated(f: Flags, first: nat, last: nat, byGpu: bool)
    requires f.Sized(|f.valid|) && first <= last
    ensures Execute(f, ValidatingTo(first / 64, first, last, byGpu)) == f
  {
    hide SpanMask;
  }

  lemma NoneInvalidated(f: Flags, first: nat, last: nat)
    requires f.Sized(|f.valid|) && first <= last
    ensures Execute(f, InvalidatingTo(first / 64, first, last)) == f
  {
    hide SpanMask;
  }

  lemma ZeroToIsZeros(words: seq<bv64>)
    requires |words| == MIRROR_WORDS && ZeroTo(words, MIRROR_WORDS)
    ensures words == Zeros()
  {
    ZeroBits();
    forall i | 0 <= i < MIRROR_WORDS ensures words[i] == 0 {
      assert WordIn(words[i], 0);
      WordExt(words[i], 0);
    }
  }

  /** The two whole-vector methods do what their update lists do. */
  lemma WholeSections(f: Flags)
    requires f.Sized(MIRROR_WORDS) && Consistent(f)
    ensures Execute(f, Script(InvalidateAll, MIRROR_WORDS)).valid == Zeros()
    ensures Execute(f, Script(InvalidateAll, MIRROR_WORDS)).written == Zeros()
    ensures Execute(f, Script(InvalidateAll, MIRROR_WORDS)).mirror == Zeros()
    ensures Execute(f, Script(FrameSweep, MIRROR_WORDS)).valid == f.written
    ensures Execute(f, Script(FrameSweep, MIRROR_WORDS)).written == f.written
    ensures Execute(f, Script(FrameSweep, MIRROR_WORDS)).mirror == Zeros()
  {
    hide Execute, Script, ZeroTo, Consistent, Safe;
    InvalidateAllSafe(f);
    FrameSweepSafe(f);
    var g, h := Execute(f, Script(InvalidateAll, MIRROR_WORDS)), Execute(f, Script(FrameSweep, MIRROR_WORDS));
    ZeroToIsZeros(g.valid);
    ZeroToIsZeros(g.written);
    ZeroToIsZeros(g.mirror);
    ZeroToIsZeros(h.mirror);
  }

  lemma NextValidated(f: Flags, i: nat, first: nat, last: nat, byGpu: bool)
    requires f.Sized(|f.valid|) && first <= last && first / 64 <= i <= last / 64 < |f.valid|
    ensures Execute(f, ValidatingTo(i + 1, first, last, byGpu))
            == Execute(Execute(f, ValidatingTo(i, first, last, byGpu)), ValidateWord(i, SpanMask(i, first, last), byGpu))
  {
    hide Execute, SpanMask;
    ValidatingNext(i + 1, first, last, byGpu);
    ExecuteConcat(f, ValidatingTo(i, first, last, byGpu), ValidateWord(i, SpanMask(i, first, last), byGpu));
  }

  lemma NextInvalidated(f: Flags, i: nat, first: nat, last: nat)
    requires f.Sized(|f.valid|) && first <= last && first / 64 <= i <= last / 64 < |f.valid|
    ensures Execute(f, InvalidatingTo(i + 1, first, last))
            == Execute(Execute(f, InvalidatingTo(i, first, last)), InvalidateWord(i, SpanMask(i, first, last)))
  {
    hide Execute, SpanMask;
    InvalidatingNext(i + 1, first, last);
    ExecuteConcat(f, InvalidatingTo(i, first, last), InvalidateWord(i, SpanMask(i, first, last)));
  }
}
