/**
 Which pages a request queues for upload (`RequestRanges` in
 src/gpu/vendored/src/graphics/shared_memory.cpp): the scan of the valid-page
 words, with a run that may stay open from one word to the next.
 */
module RequestScan {

  import opened Arithmetic
  import opened Bits
  import opened RangeBatch

  /** No run is open. */
  const NONE: int := -1

  /** A page of the inclusive span whose valid bit is clear. */
  ghost predicate Need(valid: seq<bv64>, first: nat, last: nat, p: nat)
    requires last < 64 * |valid|
  {
    first <= p <= last && !Has(valid, p)
  }

  /** Bit `k` of the working word is set when its page is done or needs nothing. */
  ghost predicate Working(valid: seq<bv64>, first: nat, last: nat, i: nat, word: bv64, done: nat)
    requires last < 64 * |valid|
  {
    forall k | 0 <= k < 64 :: Bit(word, k) <==> k < done || !Need(valid, first, last, 64 * i + k)
  }

  ghost predicate Queued(before: seq<Range>, output: seq<Range>, valid: seq<bv64>, first: nat, last: nat, cut: nat)
    requires last < 64 * |valid|
  {
    forall p: nat :: Covers(output, p) <==> Covers(before, p) || (p < cut && Need(valid, first, last, p))
  }

  /** Everything before `upto` is queued, except the open run, which needs all of its pages. */
  ghost predicate Progress(before: seq<Range>, output: seq<Range>, valid: seq<bv64>, first: nat, last: nat,
                           open: int, upto: nat)
    requires last < 64 * |valid|
  {
    var cut := if open == NONE then upto else open;
    && NONE <= open <= upto && (open != NONE ==> Need(valid, first, last, open))
    && (forall p | cut <= p < upto :: Need(valid, first, last, p))
    && Queued(before, output, valid, first, last, cut)
  }

  /** The output is ready for a run that starts no earlier than `from`. */
  ghost predicate Tail(output: seq<Range>, from: nat, optimize: bool) {
    && Ladder(output) && (optimize ==> Separated(output))
    && (output != [] ==> output[|output| - 1].first <= from && output[|output| - 1].End() <= from + 1)
  }

  class UploadScan {
    var valid: seq<bv64>
    var uploadRanges: seq<Range>
    const pageBytes: nat
    const optimize: bool

    constructor (words: seq<bv64>, pageSize: nat, optimizing: bool)
      ensures valid == words && uploadRanges == [] && pageBytes == pageSize && optimize == optimizing
    {
      valid, uploadRanges, pageBytes, optimize := words, [], pageSize, optimizing;
    }

    /** One word of the scan, with the pages outside the span taken as valid. */
    function WorkingWord(i: nat, first: nat, last: nat): (word: bv64)
      requires first <= last < 64 * |valid| && first / 64 <= i <= last / 64
      reads this
      ensures Working(valid, first, last, i, word, 0)
    {
      var low := if i == first / 64 then Or(valid[i], MaskBelow(first % 64)) else valid[i];
      var word := if i == last / 64 && last % 64 != 63 then Or(low, Not(MaskThrough(last % 64))) else low;
      WorkingStart(valid, first, last, i, low, word);
      word
    }

    method Append(start: nat, count: nat, ghost before: seq<Range>, ghost first: nat, ghost last: nat, ghost upto: nat)
      requires last < 64 * |valid| && count > 0 && first <= start
      requires Queued(before, uploadRanges, valid, first, last, start) && Tail(uploadRanges, start, optimize)
      requires start + count <= upto
      requires forall p | start <= p < start + count :: Need(valid, first, last, p)
      requires forall p | start + count <= p < upto :: !Need(valid, first, last, p)
      modifies `uploadRanges
      ensures Queued(before, uploadRanges, valid, first, last, upto) && Tail(uploadRanges, start + count, optimize)
      ensures uploadRanges != [] && uploadRanges[|uploadRanges| - 1].End() == start + count
    {
      hide Covers, Need, Ladder, Separated;
      var overlap;
      uploadRanges, overlap := AppendUploadPageRange(uploadRanges, start, count, optimize);
    }

    /** The inner loop over one word: opens a run at each missing page and closes it at the next valid one. */
    method ScanWord(i: nat, first: nat, last: nat, open: int, ghost before: seq<Range>) returns (open': int)
      requires first <= last < 64 * |valid| && first / 64 <= i <= last / 64
      requires WordDone(before, uploadRanges, valid, first, last, i, open, optimize)
      modifies `uploadRanges
      ensures WordDone(before, uploadRanges, valid, first, last, i + 1, open', optimize)
    {
      hide WordDone, Scanning;
      var word := WorkingWord(i, first, last);
      ghost var done := 0;
      open' := open;
      WordStarts(before, uploadRanges, valid, first, last, i, open, word, optimize);
      while true
        invariant done <= 64 && Scanning(before, uploadRanges, valid, first, last, i, open', word, done, optimize)
        decreases 64 - done, if open' == NONE then 1 else if open' < 64 * i then 2 else 0
      {
        if open' == NONE {
          var page := ScanFrom(Not(word), 0);
          Opening(before, uploadRanges, valid, first, last, i, word, done, page, optimize);
          if page == 64 {
            break;
          }
          open', done := 64 * i + page, page;
        } else {
          var page := CloseRun(i, first, last, open', word, done, before);
          if page == 64 {
            break;
          }
          word, open', done := Or(word, MaskBelow(page)), NONE, page;
        }
      }
    }

    /** All the words of one page span, and the run still open at its end. */
    method ScanRange(first: nat, last: nat)
      requires first <= last < 64 * |valid| && Tail(uploadRanges, first, optimize)
      modifies `uploadRanges
      ensures Queued(old(uploadRanges), uploadRanges, valid, first, last, last + 1)
      ensures Tail(uploadRanges, last, optimize)
    {
      hide WordDone;
      ghost var before := uploadRanges;
      var open, i := NONE, first / 64;
      SpanStarts(before, valid, first, last, optimize);
      while i <= last / 64
        invariant first / 64 <= i <= last / 64 + 1
        invariant WordDone(before, uploadRanges, valid, first, last, i, open, optimize)
        decreases last / 64 + 1 - i
      {
        open := ScanWord(i, first, last, open, before);
        i := i + 1;
      }
      SpanEnds(before, uploadRanges, valid, first, last, open, optimize);
      if open != NONE {
        Append(open, last + 1 - open, before, first, last, last + 1);
        TailAt(uploadRanges, last, optimize);
      }
    }

    /**
     The request with its merged byte ranges: the lists handed to the upload, or none. `mirrored` is the answer of
     the mirror check, which comes first, and `backed` is whether sparse backing could be had for every range.
     */
    method RequestMerged(ranges: seq<Range>, mirrored: bool, backed: bool) returns (ok: bool, queued: seq<Range>)
      requires Separated(ranges) && pageBytes > 0
      requires forall r | r in ranges :: r.End() <= 64 * |valid| * pageBytes
      requires mirrored ==> forall p: nat :: !Missing(valid, ranges, pageBytes, p)
      modifies `uploadRanges
      ensures ok <==> ranges == [] || mirrored || backed
      ensures Ladder(queued) && (optimize ==> Separated(queued))
      ensures forall p: nat :: Covers(queued, p) <==> ok && Missing(valid, ranges, pageBytes, p)
    {
      hide Covers, Missing, Separated, Ladder, Has;
      LadderNone();
      if ranges == [] {
        NothingMissing(valid, ranges, pageBytes);
        return true, [];
      }
      if mirrored {
        NothingCovered();
        return true, [];
      }
      if !backed {
        return false, [];
      }
      ScanMerged(ranges);
      return true, uploadRanges;
    }

    /** The scan of all merged ranges, from an empty list. */
    method ScanMerged(ranges: seq<Range>)
      requires Separated(ranges) && ranges != [] && pageBytes > 0
      requires forall r | r in ranges :: r.End() <= 64 * |valid| * pageBytes
      modifies `uploadRanges
      ensures Ladder(uploadRanges) && (optimize ==> Separated(uploadRanges))
      ensures forall p: nat :: Covers(uploadRanges, p) <==> Missing(valid, ranges, pageBytes, p)
    {
      hide Covers, Missing, Queued, Tail, Separated, Ladder, Has, PageFrom, ScannedTo;
      uploadRanges := [];
      NothingScanned(valid, ranges, pageBytes, optimize);
      for k := 0 to |ranges|
        invariant ScannedTo(uploadRanges, valid, ranges, k, pageBytes, optimize)
      {
        ScanOneRange(ranges, k);
      }
      AllScanned(uploadRanges, valid, ranges, pageBytes, optimize);
    }

    method ScanOneRange(ranges: seq<Range>, k: nat)
      requires Separated(ranges) && k < |ranges| && pageBytes > 0
      requires forall r | r in ranges :: r.End() <= 64 * |valid| * pageBytes
      requires ScannedTo(uploadRanges, valid, ranges, k, pageBytes, optimize)
      modifies `uploadRanges
      ensures ScannedTo(uploadRanges, valid, ranges, k + 1, pageBytes, optimize)
    {
      hide Covers, Missing, Queued, Tail, Separated, Ladder, Has;
      NonEmptyRanges(ranges);
      SpanPages(ranges, k, pageBytes, 64 * |valid|);
      var pageFirst, pageLast := ranges[k].first / pageBytes, (ranges[k].End() - 1) / pageBytes;
      ghost var before := uploadRanges;
      ScanRange(pageFirst, pageLast);
      OneMoreRange(before, uploadRanges, valid, ranges, k, pageBytes, pageFirst, pageLast);
      TailMoves(uploadRanges, pageLast, PageFrom(ranges, k + 1, pageBytes, 64 * |valid|), optimize);
    }

    /**
     The whole request: the one-range shortcut or the batch. It queues exactly the invalid pages that some
     non-empty requested range touches, and refuses exactly the requests with a range past the limit.
     */
    method RequestRanges(input: seq<Range>, limit: nat, single: bool, mirrored: bool, backed: bool)
      returns (ok: bool, queued: seq<Range>)
      requires pageBytes > 0 && limit <= 64 * |valid| * pageBytes
      requires mirrored ==> forall p: nat :: !Missing(valid, input, pageBytes, p)
      modifies `uploadRanges
      ensures ok <==> (forall r | r in input :: r.length == 0 || r.Fits(limit))
                      && (mirrored || backed || forall r | r in input :: r.length == 0)
      ensures Ladder(queued) && (optimize ==> Separated(queued))
      ensures forall p: nat :: Covers(queued, p) <==> ok && Missing(valid, input, pageBytes, p)
    {
      hide Covers, Separated, Ladder, SameCover, Missing, Has;
      LadderNone();
      if input == [] {
        NothingMissing(valid, input, pageBytes);
        return true, [];
      }
      var selection := SelectNativeSingleRange(input, limit, single);
      if !selection.NotSelected? {
        OneRange(input, limit);
        if selection.Invalid? {
          return false, [];
        }
        ok, queued := RequestCanonical(input, SelectedRanges(selection), limit, mirrored, backed);
        return;
      }
      var batch := new NativeRangeBatch();
      var built := batch.Build(input, limit, optimize);
      if !built {
        return false, [];
      }
      ok, queued := RequestCanonical(input, batch.Ranges(), limit, mirrored, backed);
    }

    method RequestCanonical(ghost input: seq<Range>, ranges: seq<Range>, ghost limit: nat, mirrored: bool, backed: bool)
      returns (ok: bool, queued: seq<Range>)
      requires pageBytes > 0 && limit <= 64 * |valid| * pageBytes
      requires Separated(ranges) && SameCover(ranges, input) && forall r | r in ranges :: r.End() <= limit
      requires mirrored ==> forall p: nat :: !Missing(valid, input, pageBytes, p)
      modifies `uploadRanges
      ensures ok <==> mirrored || backed || forall r | r in input :: r.length == 0
      ensures Ladder(queued) && (optimize ==> Separated(queued))
      ensures forall p: nat :: Covers(queued, p) <==> ok && Missing(valid, input, pageBytes, p)
    {
      hide Covers, Separated, Ladder, SameCover, Missing, Has;
      EmptyCovers(input, ranges);
      SameMissing(valid, ranges, input, pageBytes);
      ok, queued := RequestMerged(ranges, mirrored, backed);
    }

    /** Looks for the valid page that ends the open run, and queues the run up to it; 64 when the word has none. */
    method CloseRun(i: nat, first: nat, last: nat, open: int, word: bv64, ghost done: nat, ghost before: seq<Range>)
      returns (page: nat)
      requires first <= last < 64 * |valid| && open != NONE
      requires Scanning(before, uploadRanges, valid, first, last, i, open, word, done, optimize)
      modifies `uploadRanges
      ensures done <= page <= 64 && (open >= 64 * i ==> done < page)
      ensures page == 64 ==> WordDone(before, uploadRanges, valid, first, last, i + 1, open, optimize)
      ensures page < 64 ==>
        Scanning(before, uploadRanges, valid, first, last, i, NONE, Or(word, MaskBelow(page)), page, optimize)
    {
      hide Progress, Tail, Working;
      var fromStart := if i == open / 64 then And(word, Not(MaskBelow(open % 64))) else word;
      page := ScanFrom(fromStart, 0);
      FirstValid(valid, first, last, i, open, word, done, fromStart, page);
      if page == 64 {
        StaysOpen(before, uploadRanges, valid, first, last, i, open, done);
      } else {
        Closes(before, uploadRanges, valid, first, last, i, open, done, page, optimize);
        Append(open, 64 * i + page - open, before, first, last, 64 * i + page);
        Closed(before, uploadRanges, valid, first, last, i, word, done, page, optimize);
      }
    }
  }

  /** Between words: nothing before word `i` is left, except what the open run holds. */
  ghost predicate WordDone(before: seq<Range>, output: seq<Range>, valid: seq<bv64>, first: nat, last: nat,
                           i: nat, open: int, optimize: bool)
    requires last < 64 * |valid|
  {
    && Progress(before, output, valid, first, last, open, 64 * i)
    && Tail(output, From(open, 64 * i, first), optimize)
    && open < 64 * i
  }

  /** Inside word `i`, with the bits below `done` finished. */
  ghost predicate Scanning(before: seq<Range>, output: seq<Range>, valid: seq<bv64>, first: nat, last: nat,
                           i: nat, open: int, word: bv64, done: nat, optimize: bool)
    requires last < 64 * |valid|
  {
    && done <= 64 && Working(valid, first, last, i, word, done)
    && Progress(before, output, valid, first, last, open, 64 * i + done)
    && Tail(output, From(open, 64 * i + done, first), optimize)
    && (open != NONE ==> InWord(i, open, word, done))
  }

  lemma WordStarts(before: seq<Range>, output: seq<Range>, valid: seq<bv64>, first: nat, last: nat,
                   i: nat, open: int, word: bv64, optimize: bool)
    requires last < 64 * |valid| && Working(valid, first, last, i, word, 0)
    requires WordDone(before, output, valid, first, last, i, open, optimize)
    ensures Scanning(before, output, valid, first, last, i, open, word, 0, optimize)
  {
    hide Queued, Tail, Working;
  }

  lemma Opening(before: seq<Range>, output: seq<Range>, valid: seq<bv64>, first: nat, last: nat,
                i: nat, word: bv64, done: nat, page: nat, optimize: bool)
    requires last < 64 * |valid|
    requires Scanning(before, output, valid, first, last, i, NONE, word, done, optimize)
    requires page <= 64 && (page < 64 ==> Bit(Not(word), page)) && forall k | 0 <= k < page :: !Bit(Not(word), k)
    ensures page == 64 ==> WordDone(before, output, valid, first, last, i + 1, NONE, optimize)
    ensures page < 64 ==> done <= page
                          && Scanning(before, output, valid, first, last, i, 64 * i + page, word, page, optimize)
  {
    hide Progress, Tail, Working;
    if page == 64 {
      NothingToOpen(before, output, valid, first, last, i, word, done, optimize);
    } else {
      Opens(before, output, valid, first, last, i, word, done, page, optimize);
    }
  }

  // ----- spans of the request -----

  /** An invalid page that holds a requested byte. */
  ghost predicate Missing(valid: seq<bv64>, ranges: seq<Range>, pageBytes: nat, p: nat)
    requires pageBytes > 0
  {
    p < 64 * |valid| && !Has(valid, p) && Holds(ranges, pageBytes, p)
  }

  ghost predicate Holds(ranges: seq<Range>, pageBytes: nat, p: nat)
    requires pageBytes > 0
  {
    exists x: nat :: Covers(ranges, x) && x / pageBytes == p
  }

  lemma SpanStarts(before: seq<Range>, valid: seq<bv64>, first: nat, last: nat, optimize: bool)
    requires first <= last < 64 * |valid| && Tail(before, first, optimize)
    ensures WordDone(before, before, valid, first, last, first / 64, NONE, optimize)
  {
    hide Covers, Tail;
  }

  lemma SpanEnds(before: seq<Range>, output: seq<Range>, valid: seq<bv64>, first: nat, last: nat,
                 open: int, optimize: bool)
    requires first <= last < 64 * |valid| && Tail(before, first, optimize)
    requires WordDone(before, output, valid, first, last, last / 64 + 1, open, optimize)
    ensures open == NONE ==> Queued(before, output, valid, first, last, last + 1) && Tail(output, last, optimize)
    ensures open != NONE ==> first <= open <= last && Queued(before, output, valid, first, last, open)
                             && Tail(output, open, optimize)
                             && forall p | open <= p < last + 1 :: Need(valid, first, last, p)
  {
    hide Covers, Tail;
    if open == NONE {
      TailCapped(before, output, valid, first, last, optimize);
    }
  }

  lemma TailCapped(before: seq<Range>, output: seq<Range>, valid: seq<bv64>, first: nat, last: nat, optimize: bool)
    requires first <= last < 64 * |valid| && Tail(before, first, optimize)
    requires Tail(output, 64 * (last / 64 + 1), optimize)
    requires Queued(before, output, valid, first, last, 64 * (last / 64 + 1))
    ensures Tail(output, last, optimize)
  {
    hide Separated;
    if output != [] {
      var run := output[|output| - 1];
      assert run.length > 0;
      assert Covers(output, run.End() - 1);
      if Covers(before, run.End() - 1) {
        TailBounds(before, run.End() - 1, first, optimize);
      }
    }
  }

  lemma TailBounds(output: seq<Range>, p: nat, from: nat, optimize: bool)
    requires Tail(output, from, optimize) && Covers(output, p)
    ensures p <= from
  {
    var r :| r in output && r.first <= p < r.End();
    var i :| 0 <= i < |output| && output[i] == r;
    if i < |output| - 1 {
      assert output[i].End() <= output[|output| - 1].first + 1;
    }
  }

  lemma TailAt(output: seq<Range>, last: nat, optimize: bool)
    requires Tail(output, last + 1, optimize) && output != [] && output[|output| - 1].End() == last + 1
    ensures Tail(output, last, optimize)
  {}

  /** The first page of range `k`, or the end of the vector past the last one. */
  function PageFrom(ranges: seq<Range>, k: nat, pageBytes: nat, pages: nat): nat
    requires pageBytes > 0
  {
    if k < |ranges| then ranges[k].first / pageBytes else pages
  }

  /** The missing pages of the first `k` ranges are queued, and the list is ready for the next range. */
  ghost predicate ScannedTo(output: seq<Range>, valid: seq<bv64>, ranges: seq<Range>, k: nat, pageBytes: nat, optimize: bool)
    requires k <= |ranges| && pageBytes > 0
  {
    && (forall p: nat :: Covers(output, p) <==> Missing(valid, ranges[..k], pageBytes, p))
    && Tail(output, PageFrom(ranges, k, pageBytes, 64 * |valid|), optimize)
  }

  lemma NothingScanned(valid: seq<bv64>, ranges: seq<Range>, pageBytes: nat, optimize: bool)
    requires pageBytes > 0
    ensures ScannedTo([], valid, ranges, 0, pageBytes, optimize)
  {
    hide Missing, PageFrom;
    NothingCovered();
    NothingMissing(valid, ranges[..0], pageBytes);
    TailStarts(PageFrom(ranges, 0, pageBytes, 64 * |valid|), optimize);
  }

  lemma AllScanned(output: seq<Range>, valid: seq<bv64>, ranges: seq<Range>, pageBytes: nat, optimize: bool)
    requires pageBytes > 0 && ScannedTo(output, valid, ranges, |ranges|, pageBytes, optimize)
    ensures Ladder(output) && (optimize ==> Separated(output))
    ensures forall p: nat :: Covers(output, p) <==> Missing(valid, ranges, pageBytes, p)
  {
    hide Missing, Covers, PageFrom, Ladder, Separated;
    assert ranges[..|ranges|] == ranges;
    TailGives(output, PageFrom(ranges, |ranges|, pageBytes, 64 * |valid|), optimize);
  }

  lemma TailMoves(output: seq<Range>, from: nat, to: nat, optimize: bool)
    requires Tail(output, from, optimize) && from <= to
    ensures Tail(output, to, optimize)
  {}

  lemma TailStarts(from: nat, optimize: bool)
    ensures Tail([], from, optimize)
  {}

  lemma TailGives(output: seq<Range>, from: nat, optimize: bool)
    requires Tail(output, from, optimize)
    ensures Ladder(output) && (optimize ==> Separated(output))
  {}

  lemma LadderNone()
    ensures Ladder([]) && Separated([]) && forall p: nat :: !Covers([], p)
  {}

  lemma NothingCovered()
    ensures forall p: nat :: !Covers([], p)
  {}

  lemma NothingMissing(valid: seq<bv64>, ranges: seq<Range>, pageBytes: nat)
    requires pageBytes > 0 && forall x: nat :: !Covers(ranges, x)
    ensures forall p: nat :: !Missing(valid, ranges, pageBytes, p)
  {}

  /** The pages of a range within the limit lie inside the vector, and before those of the next range. */
  lemma SpanPages(ranges: seq<Range>, k: nat, pageBytes: nat, pages: nat)
    requires Separated(ranges) && k < |ranges| && pageBytes > 0
    requires forall r | r in ranges :: r.End() <= pages * pageBytes
    ensures var first, last := ranges[k].first / pageBytes, (ranges[k].End() - 1) / pageBytes;
            first <= last < pages && (k + 1 < |ranges| ==> last <= ranges[k + 1].first / pageBytes)
  {
    var r := ranges[k];
    assert r in ranges;
    var last := (r.End() - 1) / pageBytes;
    DivBounds(r.End() - 1, pageBytes);
    DivCompare(r.first, last, pageBytes);
    if pages <= last {
      DivCompare(r.End() - 1, pages, pageBytes);
    }
    if k + 1 < |ranges| {
      DivCompare(ranges[k + 1].first, last, pageBytes);
    }
  }

  /** A page holds a byte of a non-empty range exactly when it lies in the range's page span. */
  lemma ByteOfPage(r: Range, pageBytes: nat, p: nat) returns (x: nat)
    requires r.length > 0 && pageBytes > 0 && r.first / pageBytes <= p <= (r.End() - 1) / pageBytes
    ensures r.first <= x < r.End() && x / pageBytes == p
  {
    DivCompare(r.first, p, pageBytes);
    DivCompare(r.End() - 1, p, pageBytes);
    x := if p * pageBytes >= r.first then p * pageBytes else r.first;
    DivCompare(x, p, pageBytes);
  }

  lemma PageOfByte(r: Range, pageBytes: nat, x: nat)
    requires pageBytes > 0 && r.first <= x < r.End()
    ensures r.first / pageBytes <= x / pageBytes <= (r.End() - 1) / pageBytes
  {
    DivBounds(x, pageBytes);
    DivBounds(r.End() - 1, pageBytes);
    DivCompare(r.first, x / pageBytes, pageBytes);
    DivCompare(x, (r.End() - 1) / pageBytes, pageBytes);
  }

  lemma HoldsGrows(ranges: seq<Range>, r: Range, pageBytes: nat, p: nat)
    requires r.length > 0 && pageBytes > 0
    ensures Holds(ranges + [r], pageBytes, p)
            <==> Holds(ranges, pageBytes, p) || r.first / pageBytes <= p <= (r.End() - 1) / pageBytes
  {
    hide Covers;
    if r.first / pageBytes <= p <= (r.End() - 1) / pageBytes {
      var x := ByteOfPage(r, pageBytes, p);
      CoversSnoc(ranges, r, x);
    }
    if Holds(ranges, pageBytes, p) {
      var x: nat :| Covers(ranges, x) && x / pageBytes == p;
      CoversSnoc(ranges, r, x);
    }
    if Holds(ranges + [r], pageBytes, p) {
      var x: nat :| Covers(ranges + [r], x) && x / pageBytes == p;
      CoversSnoc(ranges, r, x);
      if r.first <= x < r.End() {
        PageOfByte(r, pageBytes, x);
      }
    }
  }

  lemma MissingGrows(valid: seq<bv64>, ranges: seq<Range>, k: nat, pageBytes: nat, p: nat)
    requires k < |ranges| && ranges[k].length > 0 && pageBytes > 0
    requires (ranges[k].End() - 1) / pageBytes < 64 * |valid|
    ensures Missing(valid, ranges[..k + 1], pageBytes, p)
            <==> Missing(valid, ranges[..k], pageBytes, p)
                 || Need(valid, ranges[k].first / pageBytes, (ranges[k].End() - 1) / pageBytes, p)
  {
    hide Has, Holds;
    assert ranges[..k + 1] == ranges[..k] + [ranges[k]];
    HoldsGrows(ranges[..k], ranges[k], pageBytes, p);
  }

  lemma OneMoreRange(before: seq<Range>, output: seq<Range>, valid: seq<bv64>, ranges: seq<Range>, k: nat,
                     pageBytes: nat, first: nat, last: nat)
    requires k < |ranges| && ranges[k].length > 0 && pageBytes > 0
    requires first == ranges[k].first / pageBytes && last == (ranges[k].End() - 1) / pageBytes
    requires last < 64 * |valid| && Queued(before, output, valid, first, last, last + 1)
    requires forall p: nat :: Covers(before, p) <==> Missing(valid, ranges[..k], pageBytes, p)
    ensures forall p: nat :: Covers(output, p) <==> Missing(valid, ranges[..k + 1], pageBytes, p)
  {
    hide Covers, Missing;
    forall p: nat ensures Covers(output, p) <==> Missing(valid, ranges[..k + 1], pageBytes, p) {
      MissingGrows(valid, ranges, k, pageBytes, p);
      assert Need(valid, first, last, p) ==> p < last + 1;
    }
  }

  lemma SameMissing(valid: seq<bv64>, a: seq<Range>, b: seq<Range>, pageBytes: nat)
    requires SameCover(a, b) && pageBytes > 0
    ensures forall p: nat :: Missing(valid, a, pageBytes, p) <==> Missing(valid, b, pageBytes, p)
  {
    hide Covers;
    forall p: nat ensures Missing(valid, a, pageBytes, p) <==> Missing(valid, b, pageBytes, p) {
      if x: nat :| Covers(a, x) && x / pageBytes == p {
        assert Covers(b, x);
      }
      if x: nat :| Covers(b, x) && x / pageBytes == p {
        assert Covers(a, x);
      }
    }
  }

  lemma NonEmptyRanges(ranges: seq<Range>)
    requires Separated(ranges)
    ensures forall k | 0 <= k < |ranges| :: ranges[k].length > 0
  {}

  lemma EmptyCovers(input: seq<Range>, ranges: seq<Range>)
    requires Separated(ranges) && SameCover(ranges, input)
    ensures ranges == [] <==> forall r | r in input :: r.length == 0
  {
    if ranges != [] {
      assert ranges[0] in ranges;
      assert Covers(ranges, ranges[0].first);
    }
    if r :| r in input && r.length > 0 {
      assert Covers(input, r.first);
    }
  }

  /** The shortcut's list covers the bytes of its one range and stays within the limit. */
  lemma OneRange(input: seq<Range>, limit: nat)
    requires |input| == 1
    ensures var s := SelectNativeSingleRange(input, limit, true);
            var ranges := SelectedRanges(s);
            && (s.Invalid? <==> !(forall r | r in input :: r.length == 0 || r.Fits(limit)))
            && Separated(ranges) && (!s.Invalid? ==> SameCover(ranges, input))
            && forall r | r in ranges :: r.End() <= limit
  {
    assert input == [input[0]];
  }

  /** Where the next run can start at the earliest. */
  function From(open: int, upto: nat, first: nat): nat {
    if open >= 0 then open else if upto > first then upto else first
  }

  /** The open run began in an earlier word, or at the first unfinished bit of this one. */
  ghost predicate InWord(i: nat, open: int, word: bv64, done: nat) {
    0 <= open && done <= 64 && (if open < 64 * i then done == 0 else done < 64 && open == 64 * i + done && !Bit(word, done))
  }

  lemma NothingToOpen(before: seq<Range>, output: seq<Range>, valid: seq<bv64>, first: nat, last: nat,
                      i: nat, word: bv64, done: nat, optimize: bool)
    requires last < 64 * |valid| && done <= 64 && Working(valid, first, last, i, word, done)
    requires Progress(before, output, valid, first, last, NONE, 64 * i + done)
    requires forall k | 0 <= k < 64 :: !Bit(Not(word), k)
    requires Tail(output, From(NONE, 64 * i + done, first), optimize)
    ensures Progress(before, output, valid, first, last, NONE, 64 * (i + 1))
    ensures Tail(output, From(NONE, 64 * (i + 1), first), optimize)
  {
    hide Covers, Need, Ladder, Separated;
    forall p | 64 * i + done <= p < 64 * (i + 1) ensures !Need(valid, first, last, p) {
      assert !Bit(Not(word), p - 64 * i);
    }
  }

  lemma Opens(before: seq<Range>, output: seq<Range>, valid: seq<bv64>, first: nat, last: nat,
              i: nat, word: bv64, done: nat, page: nat, optimize: bool)
    requires last < 64 * |valid| && done <= 64 && Working(valid, first, last, i, word, done)
    requires Progress(before, output, valid, first, last, NONE, 64 * i + done)
    requires page < 64 && Bit(Not(word), page) && forall k | 0 <= k < page :: !Bit(Not(word), k)
    requires Tail(output, From(NONE, 64 * i + done, first), optimize)
    ensures done <= page && Working(valid, first, last, i, word, page)
    ensures Progress(before, output, valid, first, last, 64 * i + page, 64 * i + page)
    ensures Tail(output, 64 * i + page, optimize)
    ensures !Bit(word, page)
  {
    hide Covers, Ladder, Separated;
    assert !Bit(word, page);
    assert Need(valid, first, last, 64 * i + page);
    forall p | 64 * i + done <= p < 64 * i + page ensures !Need(valid, first, last, p) {
      assert !Bit(Not(word), p - 64 * i);
    }
  }

  /** The scan that closes a run starts looking right after the run's own first page. */
  lemma FirstValid(valid: seq<bv64>, first: nat, last: nat, i: nat, open: int, word: bv64, done: nat,
                   fromStart: bv64, page: nat)
    requires last < 64 * |valid| && done <= 64 && Working(valid, first, last, i, word, done)
    requires InWord(i, open, word, done)
    requires fromStart == if i == open / 64 then And(word, Not(MaskBelow(open % 64))) else word
    requires page <= 64 && (page < 64 ==> Bit(fromStart, page)) && forall k | 0 <= k < page :: !Bit(fromStart, k)
    ensures done <= page && (open >= 64 * i ==> done < page)
    ensures forall p | 64 * i + done <= p < 64 * i + page :: Need(valid, first, last, p)
    ensures page < 64 ==> !Need(valid, first, last, 64 * i + page)
  {
    hide Need;
    assert forall k | 0 <= k < 64 :: Bit(fromStart, k) <==> Bit(word, k) && k >= done;
    forall p | 64 * i + done <= p < 64 * i + page ensures Need(valid, first, last, p) {
      assert !Bit(word, p - 64 * i);
    }
    assert page < 64 ==> Bit(word, page) && page >= done;
  }

  lemma StaysOpen(before: seq<Range>, output: seq<Range>, valid: seq<bv64>, first: nat, last: nat,
                  i: nat, open: int, done: nat)
    requires last < 64 * |valid| && 0 <= open && Progress(before, output, valid, first, last, open, 64 * i + done)
    requires done <= 64 && forall p | 64 * i + done <= p < 64 * (i + 1) :: Need(valid, first, last, p)
    ensures Progress(before, output, valid, first, last, open, 64 * (i + 1))
  {
    hide Covers, Need;
  }

  lemma Closes(before: seq<Range>, output: seq<Range>, valid: seq<bv64>, first: nat, last: nat,
               i: nat, open: int, done: nat, page: nat, optimize: bool)
    requires last < 64 * |valid| && 0 <= open && Progress(before, output, valid, first, last, open, 64 * i + done)
    requires done <= page && (open >= 64 * i ==> done < page)
    requires forall p | 64 * i + done <= p < 64 * i + page :: Need(valid, first, last, p)
    ensures open < 64 * i + page && first <= open && Queued(before, output, valid, first, last, open)
    ensures forall p | open <= p < 64 * i + page :: Need(valid, first, last, p)
  {
    hide Covers;
  }

  lemma Closed(before: seq<Range>, output: seq<Range>, valid: seq<bv64>, first: nat, last: nat,
               i: nat, word: bv64, done: nat, page: nat, optimize: bool)
    requires last < 64 * |valid| && done <= page < 64 && Working(valid, first, last, i, word, done)
    requires first < 64 * i + page && Queued(before, output, valid, first, last, 64 * i + page)
    requires Tail(output, 64 * i + page, optimize)
    ensures Working(valid, first, last, i, Or(word, MaskBelow(page)), page)
    ensures Progress(before, output, valid, first, last, NONE, 64 * i + page)
    ensures Tail(output, From(NONE, 64 * i + page, first), optimize)
  {
    hide Covers, Need, Ladder, Separated;
  }

  lemma WorkingStart(valid: seq<bv64>, first: nat, last: nat, i: nat, low: bv64, word: bv64)
    requires first <= last < 64 * |valid| && first / 64 <= i <= last / 64
    requires low == if i == first / 64 then Or(valid[i], MaskBelow(first % 64)) else valid[i]
    requires word == if i == last / 64 && last % 64 != 63 then Or(low, Not(MaskThrough(last % 64))) else low
    ensures Working(valid, first, last, i, word, 0)
  {
    forall k | 0 <= k < 64 ensures Bit(word, k) <==> !Need(valid, first, last, 64 * i + k) {
      var p := 64 * i + k;
      assert p / 64 == i && p % 64 == k;
      assert Bit(low, k) <==> Bit(valid[i], k) || p < first;
    }
  }
}
