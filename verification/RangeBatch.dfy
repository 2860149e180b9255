/**
 Requested byte ranges and queued page ranges (src/gpu/native/native_range_batch.h):
 validation, sorting and merging into a canonical list, the one-range shortcut, and
 appending page runs.
 */
module RangeBatch {

  datatype Range = Range(first: nat, length: nat) {
    function End(): nat { first + length }

    predicate Fits(limit: nat) { first <= limit && length <= limit - first }
  }

  const STACK_CAPACITY: nat := 32

  ghost predicate Covers(rs: seq<Range>, x: nat) {
    exists r :: r in rs && r.first <= x < r.End()
  }

  ghost predicate SameCover(a: seq<Range>, b: seq<Range>) {
    forall x: nat :: Covers(a, x) <==> Covers(b, x)
  }

  /** Non-empty ranges in ascending order, with a gap before each next one. */
  ghost predicate Separated(rs: seq<Range>) {
    && (forall i | 0 <= i < |rs| :: rs[i].length > 0)
    && (forall i, j | 0 <= i < j < |rs| :: rs[i].End() < rs[j].first)
  }

  /** Non-empty runs in ascending order that share at most their boundary page with what comes before. */
  ghost predicate Ladder(rs: seq<Range>) {
    && (forall i | 0 <= i < |rs| :: rs[i].length > 0)
    && (forall i, j | 0 <= i < j < |rs| :: rs[i].first <= rs[j].first && rs[i].End() <= rs[j].first + 1)
  }

  predicate SortedByFirst(rs: seq<Range>) {
    forall i, j | 0 <= i <= j < |rs| :: rs[i].first <= rs[j].first
  }

  function Total(rs: seq<Range>): nat {
    if rs == [] then 0 else Total(rs[..|rs| - 1]) + rs[|rs| - 1].length
  }

  // ----- a canonical list is determined by what it covers -----

  lemma CoversCons(rs: seq<Range>, x: nat)
    requires rs != []
    ensures Covers(rs, x) <==> (rs[0].first <= x < rs[0].End()) || Covers(rs[1..], x)
  {
    assert forall r :: r in rs <==> r == rs[0] || r in rs[1..];
  }

  lemma CoversAppend(a: seq<Range>, b: seq<Range>, x: nat)
    ensures Covers(a + b, x) <==> Covers(a, x) || Covers(b, x)
  {}

  lemma CoversOne(r: Range, x: nat)
    ensures Covers([r], x) <==> r.first <= x < r.End()
  {
    assert r in [r];
  }

  lemma CoversSnoc(a: seq<Range>, r: Range, x: nat)
    ensures Covers(a + [r], x) <==> Covers(a, x) || r.first <= x < r.End()
  {
    CoversAppend(a, [r], x);
    CoversOne(r, x);
  }

  lemma SeparatedCover(rs: seq<Range>, x: nat)
    requires Separated(rs) && rs != [] && Covers(rs, x)
    ensures rs[0].first <= x && (x < rs[0].End() || (x > rs[0].End() && Covers(rs[1..], x)))
  {
    var r :| r in rs && r.first <= x < r.End();
    var i :| 0 <= i < |rs| && rs[i] == r;
    if i > 0 {
      assert rs[1..][i - 1] == r;
    }
  }

  /** Separated lists that cover the same values are the same list, however they were put together. */
  lemma {:induction false} CanonicalUnique(a: seq<Range>, b: seq<Range>)
    requires Separated(a) && Separated(b) && SameCover(a, b)
    ensures a == b
    decreases |a|
  {
    if a == [] || b == [] {
      if a != [] { CoversCons(a, a[0].first); }
      if b != [] { CoversCons(b, b[0].first); }
    } else {
      SameHead(a, b);
      forall x: nat ensures Covers(a[1..], x) <==> Covers(b[1..], x) {
        TailCover(a, x);
        TailCover(b, x);
      }
      CanonicalUnique(a[1..], b[1..]);
    }
  }

  lemma TailCover(rs: seq<Range>, x: nat)
    requires Separated(rs) && rs != []
    ensures Covers(rs[1..], x) <==> Covers(rs, x) && x >= rs[0].End()
  {
    CoversCons(rs, x);
    if Covers(rs[1..], x) {
      var r :| r in rs[1..] && r.first <= x < r.End();
      var i :| 0 <= i < |rs[1..]| && rs[1..][i] == r;
      assert rs[i + 1] == r;
    }
  }

  lemma SameHead(a: seq<Range>, b: seq<Range>)
    requires Separated(a) && Separated(b) && SameCover(a, b) && a != [] && b != []
    ensures a[0] == b[0]
  {
    CoversCons(a, a[0].first);
    CoversCons(b, b[0].first);
    SeparatedCover(a, b[0].first);
    SeparatedCover(b, a[0].first);
    HeadNotShorter(a, b);
    HeadNotShorter(b, a);
  }

  lemma HeadNotShorter(a: seq<Range>, b: seq<Range>)
    requires Separated(a) && Separated(b) && SameCover(a, b) && a != [] && b != []
    requires a[0].first == b[0].first
    ensures a[0].End() >= b[0].End()
  {
    if a[0].End() < b[0].End() {
      CoversCons(b, a[0].End());
      SeparatedCover(a, a[0].End());
    }
  }

  lemma SameElements(a: seq<Range>, b: seq<Range>)
    requires multiset(a) == multiset(b)
    ensures SameCover(a, b)
  {
    forall r ensures r in a <==> r in b {
      assert r in multiset(a) <==> r in a;
      assert r in multiset(b) <==> r in b;
    }
  }

  // ----- the batch -----

  function Insert(r: Range, rs: seq<Range>): (out: seq<Range>)
    ensures |out| == |rs| + 1
  {
    if rs == [] || r.first <= rs[0].first then [r] + rs else [rs[0]] + Insert(r, rs[1..])
  }

  lemma {:induction false} InsertSorts(r: Range, rs: seq<Range>)
    requires SortedByFirst(rs)
    ensures SortedByFirst(Insert(r, rs)) && multiset(Insert(r, rs)) == multiset(rs) + multiset{r}
    ensures Insert(r, rs)[0] == r || (rs != [] && Insert(r, rs)[0] == rs[0])
  {
    if rs != [] && r.first > rs[0].first {
      SortedTail(rs);
      InsertSorts(r, rs[1..]);
      assert rs == [rs[0]] + rs[1..];
      SortedCons(rs[0], Insert(r, rs[1..]));
      hide SortedByFirst;
    } else {
      SortedCons(r, rs);
    }
  }

  lemma SortedTail(rs: seq<Range>)
    requires SortedByFirst(rs) && rs != []
    ensures SortedByFirst(rs[1..]) && (|rs| > 1 ==> rs[0].first <= rs[1].first)
  {}

  lemma SortedCons(r: Range, rs: seq<Range>)
    requires SortedByFirst(rs) && (rs != [] ==> r.first <= rs[0].first)
    ensures SortedByFirst([r] + rs)
  {}

  lemma NothingSorted()
    ensures SortedByFirst([])
  {}

  /** `std::sort` by start. The order of equal starts is not promised; the merged list does not depend on it. */
  method SortByFirst(rs: seq<Range>) returns (r: seq<Range>)
    ensures SortedByFirst(r) && multiset(r) == multiset(rs) && |r| == |rs|
  {
    hide Insert, SortedByFirst;
    r := [];
    NothingSorted();
    for i := 0 to |rs|
      invariant |r| == i && SortedByFirst(r) && multiset(r) == multiset(rs[..i])
    {
      assert rs[..i + 1] == rs[..i] + [rs[i]];
      InsertSorts(rs[i], r);
      r := Insert(rs[i], r);
    }
    assert rs[..|rs|] == rs;
  }

  class NativeRangeBatch {
    var stack: seq<Range>
    var heap: seq<Range>
    var size: nat
    var onStack: bool

    constructor ()
      ensures Valid()
    {
      stack, heap, size, onStack := seq(STACK_CAPACITY, _ => Range(0, 0)), [], 0, false;
    }

    ghost predicate Valid()
      reads this
    {
      |stack| == STACK_CAPACITY && size <= |Storage()|
    }

    function Storage(): seq<Range>
      reads this
    {
      if onStack then stack else heap
    }

    function Ranges(): seq<Range>
      requires Valid()
      reads this
    {
      Storage()[..size]
    }

    /**
     Refuses the batch exactly when a non-empty range leaves the limit; otherwise holds the canonical list of
     the requested bytes, whichever storage it used.
     */
    method Build(input: seq<Range>, limit: nat, optimize: bool) returns (ok: bool)
      requires Valid()
      modifies this
      ensures Valid() && onStack == (optimize && |input| <= STACK_CAPACITY)
      ensures ok <==> forall r | r in input :: r.length == 0 || r.Fits(limit)
      ensures !ok ==> Ranges() == []
      ensures ok ==> Separated(Ranges()) && SameCover(Ranges(), input)
      ensures ok ==> forall r | r in Ranges() :: r.Fits(limit)
    {
      hide NonEmpty, Covers, SameCover, Separated;
      ok := Collect(input, limit, optimize);
      CoverNonEmpty(input);
      if !ok || size < 2 {
        return;
      }
      ghost var kept := Ranges();
      var data := SortByFirst(Ranges());
      NonEmptyStays(data, input);
      var merged := MergeSorted(data);
      Canonical(merged, data, kept, input, limit);
      Replace(merged);
    }

    method Replace(merged: seq<Range>)
      requires Valid() && |merged| <= size
      modifies this
      ensures Valid() && onStack == old(onStack) && Ranges() == merged
    {
      if onStack {
        stack := merged + stack[|merged|..];
      } else {
        heap := merged + heap[|merged|..];
      }
      size := |merged|;
    }

    /** The storing loop: keeps the non-empty ranges in order, or stops at the first that does not fit. */
    method Collect(input: seq<Range>, limit: nat, optimize: bool) returns (ok: bool)
      requires Valid()
      modifies this
      ensures Valid() && onStack == (optimize && |input| <= STACK_CAPACITY)
      ensures ok <==> forall r | r in input :: r.length == 0 || r.Fits(limit)
      ensures Ranges() == if ok then NonEmpty(input) else []
    {
      hide NonEmpty;
      size, heap := 0, [];
      onStack := optimize && |input| <= STACK_CAPACITY;
      NonEmptyNone();
      for i := 0 to |input|
        invariant Valid() && onStack == (optimize && |input| <= STACK_CAPACITY) && size <= i
        invariant !onStack ==> size == |heap|
        invariant Ranges() == NonEmpty(input[..i])
        invariant forall k | 0 <= k < i :: input[k].length == 0 || input[k].Fits(limit)
      {
        var r := input[i];
        NonEmptySnoc(input, i);
        if r.length == 0 {
          continue;
        }
        if r.first > limit || r.length > limit - r.first {
          size := 0;
          assert r in input;
          return false;
        }
        Put(r);
      }
      assert input[..|input|] == input;
      return true;
    }

    method Put(r: Range)
      requires Valid() && (onStack ==> size < STACK_CAPACITY) && (!onStack ==> size == |heap|)
      modifies this
      ensures Valid() && onStack == old(onStack) && size == old(size) + 1 && (!onStack ==> size == |heap|)
      ensures Ranges() == old(Ranges()) + [r]
    {
      if onStack {
        stack := stack[size := r];
      } else {
        heap := heap + [r];
      }
      size := size + 1;
    }
  }

  function NonEmpty(rs: seq<Range>): (r: seq<Range>)
    ensures forall q :: q in r <==> q in rs && q.length > 0
  {
    if rs == [] then []
    else
      var n := |rs| - 1;
      assert forall q :: q in rs <==> q in rs[..n] || q == rs[n];
      NonEmpty(rs[..n]) + if rs[n].length > 0 then [rs[n]] else []
  }

  lemma NonEmptyNone()
    ensures NonEmpty([]) == []
  {}

  lemma NonEmptySnoc(rs: seq<Range>, i: nat)
    requires i < |rs|
    ensures NonEmpty(rs[..i + 1]) == NonEmpty(rs[..i]) + if rs[i].length > 0 then [rs[i]] else []
  {
    assert rs[..i + 1][..i] == rs[..i];
  }

  lemma CoverNonEmpty(rs: seq<Range>)
    ensures SameCover(NonEmpty(rs), rs)
    ensures |NonEmpty(rs)| < 2 ==> Separated(NonEmpty(rs))
  {}

  lemma NonEmptyStays(data: seq<Range>, input: seq<Range>)
    requires multiset(data) == multiset(NonEmpty(input))
    ensures forall r | r in data :: r in input && r.length > 0
  {
    forall r | r in data ensures r in NonEmpty(input) {
      assert r in multiset(data);
    }
  }

  ghost predicate CoverWithin(rs: seq<Range>, limit: nat) {
    forall x: nat :: Covers(rs, x) ==> x < limit
  }

  lemma FitsByCover(rs: seq<Range>, limit: nat)
    requires forall r | r in rs :: r.Fits(limit)
    ensures CoverWithin(rs, limit)
  {}

  lemma Canonical(merged: seq<Range>, data: seq<Range>, kept: seq<Range>, input: seq<Range>, limit: nat)
    requires multiset(data) == multiset(kept) && SameCover(kept, input)
    requires forall r | r in data :: r in input && r.length > 0
    requires forall r | r in input :: r.length == 0 || r.Fits(limit)
    requires Separated(merged) && SameCover(merged, data)
    ensures SameCover(merged, input) && forall r | r in merged :: r.Fits(limit)
  {
    hide Covers, Separated;
    SameElements(data, kept);
    FitsByCover(data, limit);
    FitsFromCover(merged, data, limit);
  }

  lemma FitsFromCover(rs: seq<Range>, data: seq<Range>, limit: nat)
    requires Separated(rs) && SameCover(rs, data) && CoverWithin(data, limit)
    ensures forall r | r in rs :: r.Fits(limit)
  {
    forall r | r in rs ensures r.Fits(limit) {
      assert Covers(rs, r.End() - 1);
      assert Covers(data, r.End() - 1);
    }
  }

  lemma RestKept(data: seq<Range>, sorted: seq<Range>, at: nat, r: Range, i: nat)
    requires at < i <= |data| == |sorted| && data[i - 1..] == sorted[i - 1..]
    ensures data[at := r][i..] == sorted[i..]
  {
    assert data[i..] == data[i - 1..][1..] == sorted[i..];
  }

  /** The merge in place: a range that begins no later than the previous end extends it. */
  method MergeSorted(sorted: seq<Range>) returns (merged: seq<Range>)
    requires |sorted| >= 2 && SortedByFirst(sorted) && forall r | r in sorted :: r.length > 0
    ensures Separated(merged) && SameCover(merged, sorted) && 0 < |merged| <= |sorted|
  {
    hide Separated, Covers, SameCover, SortedByFirst;
    var data := sorted;
    var output, i := 0, 1;
    MergeStarts(sorted);
    while i < |sorted|
      invariant 0 <= output < i <= |sorted| == |data|
      invariant data[i..] == sorted[i..]
      invariant MergedTo(data[..output + 1], sorted, i)
    {
      assert data[i] == data[i..][0] && sorted[i] == sorted[i..][0];
      var previous, next := data[output], data[i];
      ghost var kept := data[..output];
      assert data[..output + 1] == kept + [previous];
      MergeOne(kept, previous, sorted, i);
      var end := if previous.End() > next.End() then previous.End() else next.End();
      if next.first <= previous.End() {
        RestKept(data, sorted, output, Range(previous.first, end - previous.first), i + 1);
        data := data[output := Range(previous.first, end - previous.first)];
        assert data[..output + 1] == kept + [Range(previous.first, end - previous.first)];
      } else {
        output := output + 1;
        RestKept(data, sorted, output, next, i + 1);
        data := data[output := next];
        assert data[..output + 1] == kept + [previous] + [next];
      }
      i := i + 1;
    }
    merged := data[..output + 1];
    assert sorted[..i] == sorted;
  }

  ghost predicate MergedTo(merged: seq<Range>, sorted: seq<Range>, i: nat)
    requires i <= |sorted|
  {
    && Separated(merged) && SameCover(merged, sorted[..i]) && merged != []
    && (i < |sorted| ==> merged[|merged| - 1].first <= sorted[i].first)
  }

  lemma MergeStarts(sorted: seq<Range>)
    requires |sorted| >= 2 && SortedByFirst(sorted) && forall r | r in sorted :: r.length > 0
    ensures MergedTo(sorted[..1], sorted, 1)
  {}

  lemma MergeOne(kept: seq<Range>, previous: Range, sorted: seq<Range>, i: nat)
    requires i < |sorted| && SortedByFirst(sorted) && forall r | r in sorted :: r.length > 0
    requires MergedTo(kept + [previous], sorted, i)
    ensures var next := sorted[i];
            var end := if previous.End() > next.End() then previous.End() else next.End();
            if next.first <= previous.End() then MergedTo(kept + [Range(previous.first, end - previous.first)], sorted, i + 1)
            else MergedTo(kept + [previous] + [next], sorted, i + 1)
  {
    hide Separated, Covers, SameCover;
    var next := sorted[i];
    assert next in sorted;
    assert sorted[..i + 1] == sorted[..i] + [next];
    if next.first <= previous.End() {
      var end := if previous.End() > next.End() then previous.End() else next.End();
      Joined(kept, previous, next, Range(previous.first, end - previous.first), sorted[..i]);
    } else {
      Pushed(kept + [previous], next, sorted[..i]);
    }
  }

  lemma Joined(kept: seq<Range>, previous: Range, next: Range, joined: Range, done: seq<Range>)
    requires Separated(kept + [previous]) && SameCover(kept + [previous], done) && next.length > 0
    requires previous.first <= next.first <= previous.End() && joined.first == previous.first
    requires joined.End() == if previous.End() > next.End() then previous.End() else next.End()
    ensures Separated(kept + [joined]) && SameCover(kept + [joined], done + [next])
  {
    forall x: nat ensures Covers(kept + [joined], x) <==> Covers(done + [next], x) {
      CoversSnoc(kept, previous, x);
      CoversSnoc(kept, joined, x);
      CoversSnoc(done, next, x);
    }
    var a, b := kept + [previous], kept + [joined];
    forall i, j | 0 <= i < j < |b| ensures b[i].End() < b[j].first {
      assert a[i] == b[i] && a[j].first == b[j].first;
    }
    forall i | 0 <= i < |b| ensures b[i].length > 0 {
      assert a[i].length > 0;
    }
  }

  lemma Pushed(kept: seq<Range>, next: Range, done: seq<Range>)
    requires kept != [] && Separated(kept) && SameCover(kept, done) && next.length > 0
    requires next.first > kept[|kept| - 1].End()
    ensures Separated(kept + [next]) && SameCover(kept + [next], done + [next])
  {
    forall x: nat ensures Covers(kept + [next], x) <==> Covers(done + [next], x) {
      CoversSnoc(kept, next, x);
      CoversSnoc(done, next, x);
    }
  }

  // ----- one range -----

  datatype Selection = NotSelected | Empty | Invalid | Ready(range: Range)

  function SelectNativeSingleRange(input: seq<Range>, limit: nat, enabled: bool): Selection {
    if !enabled || |input| != 1 then NotSelected
    else if input[0].length == 0 then Empty
    else if input[0].first + input[0].length > limit then Invalid
    else Ready(input[0])
  }

  function SelectedRanges(s: Selection): seq<Range> {
    if s.Ready? then [s.range] else []
  }

  /** Whatever list a batch of the one range could hold, the shortcut gives the same list and the same refusal. */
  lemma SingleAgreesWithBatch(input: seq<Range>, limit: nat, ranges: seq<Range>)
    requires |input| == 1 && Separated(ranges) && SameCover(ranges, input)
    ensures var s := SelectNativeSingleRange(input, limit, true);
            && !s.NotSelected?
            && (s.Invalid? <==> !(forall r | r in input :: r.length == 0 || r.Fits(limit)))
            && (!s.Invalid? ==> SelectedRanges(s) == ranges)
  {
    var r := input[0];
    assert input == [r];
    var chosen := if r.length == 0 then [] else [r];
    forall x: nat ensures Covers(chosen, x) <==> Covers(input, x) {
      CoversOne(r, x);
    }
    CanonicalUnique(chosen, ranges);
  }

  // ----- page runs -----

  /**
   Adds a run of pages at the end of the output: joins it to the last run when they touch, and in optimize mode
   also when they overlap. The answer counts the pages that were already there.
   */
  method AppendUploadPageRange(output: seq<Range>, start: nat, count: nat, optimize: bool)
    returns (result: seq<Range>, overlap: nat)
    requires optimize && output != [] ==> output[|output| - 1].first <= start
    ensures forall x: nat :: Covers(result, x) <==> Covers(output, x) || start <= x < start + count
    ensures Total(result) + overlap == Total(output) + count
    ensures !optimize ==> overlap == 0
    ensures optimize && Separated(output) ==> Separated(result)
    ensures count > 0 ==> result != [] && result[|result| - 1].first <= start
                          && result[|result| - 1].End() >= start + count
    ensures count == 0 ==> result == output
    ensures output != [] && Ladder(output) && output[|output| - 1].first <= start
            && output[|output| - 1].End() <= start + 1 && count > 0 ==>
              Ladder(result) && result[|result| - 1].End() == start + count
    ensures output == [] && count > 0 ==> Ladder(result) && result[0].End() == start + count
    ensures !optimize && count > 0 && output != [] && start != output[|output| - 1].End() ==>
              result == output + [Range(start, count)]
  {
    hide Separated, Covers, Total, Ladder;
    LadderOne(Range(start, count));
    if count == 0 {
      return output, 0;
    }
    if output != [] {
      var n := |output| - 1;
      var last := output[n];
      var lastEnd, end := last.End(), start + count;
      if start == lastEnd || (optimize && start >= last.first && start < lastEnd) {
        overlap := if start < lastEnd then (if lastEnd < end then lastEnd else end) - start else 0;
        var joined := Range(last.first, (if lastEnd > end then lastEnd else end) - last.first);
        result := output[n := joined];
        ExtendsLast(output, joined, Range(start, count));
        return;
      }
    }
    result, overlap := output + [Range(start, count)], 0;
    AddsRun(output, Range(start, count));
    assert output == [] ==> result == [Range(start, count)];
    if output != [] && Ladder(output) && output[|output| - 1].first <= start
       && output[|output| - 1].End() <= start + 1 {
      LadderAdds(output, Range(start, count));
    }
  }

  lemma LadderAdds(output: seq<Range>, added: Range)
    requires output != [] && Ladder(output) && added.length > 0
    requires output[|output| - 1].first <= added.first && output[|output| - 1].End() <= added.first + 1
    ensures Ladder(output + [added])
  {
    var result, n := output + [added], |output|;
    forall i | 0 <= i < n ensures result[i].first <= added.first && result[i].End() <= added.first + 1 {
      assert result[i] == output[i];
      if i < n - 1 {
        assert output[i].first <= output[n - 1].first && output[i].End() <= output[n - 1].first + 1;
      }
    }
    forall i, j | 0 <= i < j < |result|
      ensures result[i].first <= result[j].first && result[i].End() <= result[j].first + 1
    {
      if j < n {
        assert output[i].first <= output[j].first && output[i].End() <= output[j].first + 1;
      }
    }
    forall i | 0 <= i < |result| ensures result[i].length > 0 {
      if i < n { assert output[i].length > 0; }
    }
  }

  lemma LadderOne(r: Range)
    ensures r.length > 0 ==> Ladder([r])
  {}

  lemma ExtendsLast(output: seq<Range>, joined: Range, added: Range)
    requires output != []
    requires var last := output[|output| - 1];
             last.first <= added.first <= last.End() && joined.first == last.first
             && joined.End() == if last.End() > added.End() then last.End() else added.End()
    ensures var result := output[|output| - 1 := joined];
            && (forall x: nat :: Covers(result, x) <==> Covers(output, x) || added.first <= x < added.End())
            && Total(result) + output[|output| - 1].length == Total(output) + joined.length
            && (Separated(output) ==> Separated(result))
            && (Ladder(output) ==> Ladder(result))
  {
    var n := |output| - 1;
    var result := output[n := joined];
    assert output == output[..n] + [output[n]] && result == output[..n] + [joined];
    assert result[..n] == output[..n];
    forall x: nat ensures Covers(result, x) <==> Covers(output, x) || added.first <= x < added.End() {
      CoversSnoc(output[..n], output[n], x);
      CoversSnoc(output[..n], joined, x);
    }
  }

  lemma AddsRun(output: seq<Range>, added: Range)
    ensures forall x: nat :: Covers(output + [added], x) <==> Covers(output, x) || added.first <= x < added.End()
    ensures Total(output + [added]) == Total(output) + added.length
    ensures Separated(output) && added.length > 0 && (output != [] ==> output[|output| - 1].End() < added.first) ==>
              Separated(output + [added])
  {
    assert (output + [added])[..|output|] == output;
    forall x: nat ensures Covers(output + [added], x) <==> Covers(output, x) || added.first <= x < added.End() {
      CoversSnoc(output, added, x);
    }
  }
}
