/**
 Which constant registers a shader uploads (`constant_runs` and `packed_constant_map` in tools/ucode2hlsl.py).

 The registers read are merged into spans across small gaps, then across the smallest remaining gaps until at most
 eight spans are left; packed numbering follows the spans.
 */
module ConstantRuns {

  const MAX_RUNS: nat := 8
  const MERGE_GAP: nat := 8

  datatype Span = Span(first: nat, last: nat)

  predicate Ascending(xs: seq<nat>) {
    forall i, j | 0 <= i < j < |xs| :: xs[i] < xs[j]
  }

  predicate Separated(runs: seq<Span>) {
    && (forall i | 0 <= i < |runs| :: runs[i].first <= runs[i].last)
    && (forall i, j | 0 <= i < j < |runs| :: runs[i].last < runs[j].first)
  }

  predicate Within(runs: seq<Span>, x: nat) {
    exists i :: 0 <= i < |runs| && Holds(runs[i], x)
  }

  predicate Holds(r: Span, x: nat) {
    r.first <= x <= r.last
  }

  function Gap(runs: seq<Span>, i: nat): int
    requires i + 1 < |runs|
  {
    runs[i + 1].first - runs[i].last
  }

  function Stride(used: seq<nat>, j: nat): int
    requires j + 1 < |used|
  {
    used[j + 1] as int - used[j] as int
  }

  predicate Bounds(runs: seq<Span>, i: nat, a: nat, b: nat) {
    i + 1 < |runs| && runs[i].last == a && runs[i + 1].first == b
  }

  /** Two neighbouring registers still have a gap between spans between them. */
  predicate Kept(runs: seq<Span>, a: nat, b: nat) {
    exists i :: 0 <= i < |runs| && Bounds(runs, i, a, b)
  }

  /** The registers read at positions `j` and `j + 1` are in one span. */
  predicate Closed(used: seq<nat>, runs: seq<Span>, j: nat)
    requires j + 1 < |used|
  {
    !Kept(runs, used[j], used[j + 1])
  }

  predicate Ends(used: seq<nat>, runs: seq<Span>) {
    forall i | 0 <= i < |runs| :: runs[i].first in used && runs[i].last in used
  }

  predicate Covers(used: seq<nat>, runs: seq<Span>) {
    forall x | x in used :: Within(runs, x)
  }

  /** Spans that begin and end at registers read, and hold all of them. */
  predicate Spans(used: seq<nat>, runs: seq<Span>) {
    Separated(runs) && Ends(used, runs) && Covers(used, runs)
  }

  /** No gap between spans is smaller than one that was closed. */
  predicate Tight(used: seq<nat>, runs: seq<Span>) {
    forall j, i | 0 <= j < |used| - 1 && 0 <= i < |runs| - 1 && Closed(used, runs, j) :: Stride(used, j) <= Gap(runs, i)
  }

  predicate Wide(runs: seq<Span>) {
    forall i | 0 <= i < |runs| - 1 :: Gap(runs, i) > MERGE_GAP
  }

  predicate Narrow(used: seq<nat>, runs: seq<Span>) {
    forall j | 0 <= j < |used| - 1 && Closed(used, runs, j) :: Stride(used, j) <= MERGE_GAP
  }

  /** What the span list promises for the registers read, in ascending order. */
  predicate GoodRuns(used: seq<nat>, runs: seq<Span>) {
    Spans(used, runs) && Wide(runs) && Tight(used, runs) && |runs| <= MAX_RUNS && (|runs| < MAX_RUNS ==> Narrow(used, runs))
  }

  /** What is left of a span at its ends, when its neighbours in the list of registers lie in different spans. */
  lemma ApartMeets(used: seq<nat>, runs: seq<Span>, j: nat, i: nat, k: nat)
    requires Ascending(used) && Separated(runs) && Ends(used, runs) && j + 1 < |used|
    requires i < |runs| && Holds(runs[i], used[j]) && k < |runs| && Holds(runs[k], used[j + 1]) && i != k
    ensures Bounds(runs, i, used[j], used[j + 1])
  {
    assert i < k;
    assert runs[i].last < runs[i + 1].first <= runs[k].first;
    var x :| 0 <= x < |used| && used[x] == runs[i].last;
    var y :| 0 <= y < |used| && used[y] == runs[i + 1].first;
    assert j <= x < j + 1 && j < y <= j + 1;
  }

  /** Neighbouring registers read lie in one span exactly when no gap between spans is left between them. */
  lemma ClosedIff(used: seq<nat>, runs: seq<Span>, j: nat)
    requires Ascending(used) && Spans(used, runs) && j + 1 < |used|
    ensures Closed(used, runs, j) <==> exists i :: 0 <= i < |runs| && Holds(runs[i], used[j]) && Holds(runs[i], used[j + 1])
  {
    hide Ends, Ascending;
    var a, b := used[j], used[j + 1];
    assert Within(runs, a) && Within(runs, b);
    var i :| 0 <= i < |runs| && Holds(runs[i], a);
    var k :| 0 <= k < |runs| && Holds(runs[k], b);
    if i != k {
      ApartMeets(used, runs, j, i, k);
      assert Kept(runs, a, b);
    }
  }

  // ----- growing the list -----

  lemma CoversOneMore(used: seq<nat>, runs: seq<Span>, runs': seq<Span>, x: nat)
    requires Covers(used, runs) && |runs| <= |runs'| && Within(runs', x)
    requires forall i | 0 <= i < |runs| :: runs'[i].first <= runs[i].first && runs[i].last <= runs'[i].last
    ensures Covers(used + [x], runs')
  {
    forall y | y in used + [x] ensures Within(runs', y) {
      if y != x {
        assert Within(runs, y);
        var i :| 0 <= i < |runs| && Holds(runs[i], y);
        assert Holds(runs'[i], y);
      }
    }
  }

  lemma EndsOneMore(used: seq<nat>, runs: seq<Span>, x: nat)
    requires Ends(used, runs)
    ensures Ends(used + [x], runs + [Span(x, x)])
    ensures runs != [] ==> Ends(used + [x], runs[|runs| - 1 := Span(runs[|runs| - 1].first, x)])
  {
    hide Separated;
    assert x in used + [x];
    assert forall y | y in used :: y in used + [x];
  }

  lemma LastRunBounds(runs: seq<Span>, x: nat)
    requires runs != [] && Separated(runs) && runs[|runs| - 1].last < x
    ensures Separated(runs + [Span(x, x)])
    ensures Separated(runs[|runs| - 1 := Span(runs[|runs| - 1].first, x)])
  {
    var n := |runs| - 1;
    forall i | 0 <= i < n ensures runs[i].last < x {
      assert runs[i].last < runs[n].first;
    }
  }

  lemma ExtendSpans(used: seq<nat>, runs: seq<Span>, x: nat)
    requires used != [] && runs != [] && Spans(used, runs) && runs[|runs| - 1].last < x
    ensures Spans(used + [x], runs[|runs| - 1 := Span(runs[|runs| - 1].first, x)])
  {
    hide Ends, Separated, Covers;
    LastRunBounds(runs, x);
    EndsOneMore(used, runs, x);
    var runs' := runs[|runs| - 1 := Span(runs[|runs| - 1].first, x)];
    LastIsRun(used, runs);
    assert Holds(runs'[|runs| - 1], x);
    CoversOneMore(used, runs, runs', x);
  }

  lemma LastIsRun(used: seq<nat>, runs: seq<Span>)
    requires runs != [] && Spans(used, runs)
    ensures runs[|runs| - 1].first <= runs[|runs| - 1].last
  {}

  lemma AddSpans(used: seq<nat>, runs: seq<Span>, x: nat)
    requires used != [] && runs != [] && Spans(used, runs) && runs[|runs| - 1].last < x
    ensures Spans(used + [x], runs + [Span(x, x)])
  {
    hide Ends, Separated, Covers;
    LastRunBounds(runs, x);
    EndsOneMore(used, runs, x);
    assert Holds((runs + [Span(x, x)])[|runs|], x);
    CoversOneMore(used, runs, runs + [Span(x, x)], x);
  }

  lemma KeptOn(runs: seq<Span>, runs': seq<Span>, a: nat, b: nat)
    requires |runs| <= |runs'|
    requires forall i | 0 <= i < |runs| :: runs'[i].first == runs[i].first
    requires forall i | 0 <= i < |runs| - 1 :: runs'[i].last == runs[i].last
    ensures Kept(runs, a, b) ==> Kept(runs', a, b)
  {
    if Kept(runs, a, b) {
      var i :| 0 <= i < |runs| && Bounds(runs, i, a, b);
      assert Bounds(runs', i, a, b);
    }
  }

  lemma ExtendGaps(used: seq<nat>, runs: seq<Span>, x: nat)
    requires used != [] && runs != [] && Wide(runs) && Narrow(used, runs)
    requires x - used[|used| - 1] <= MERGE_GAP
    ensures Wide(runs[|runs| - 1 := Span(runs[|runs| - 1].first, x)])
    ensures Narrow(used + [x], runs[|runs| - 1 := Span(runs[|runs| - 1].first, x)])
  {
    var n := |runs| - 1;
    var runs', used' := runs[n := Span(runs[n].first, x)], used + [x];
    forall i | 0 <= i < n ensures Gap(runs', i) > MERGE_GAP {
      assert Gap(runs', i) == Gap(runs, i);
    }
    forall j | 0 <= j < |used'| - 1 && Closed(used', runs', j) ensures Stride(used', j) <= MERGE_GAP {
      if j < |used| - 1 {
        KeptOn(runs, runs', used[j], used[j + 1]);
        assert Closed(used, runs, j);
        assert Stride(used', j) == Stride(used, j);
      }
    }
  }

  lemma AddGaps(used: seq<nat>, runs: seq<Span>, x: nat)
    requires used != [] && runs != [] && Wide(runs) && Narrow(used, runs)
    requires runs[|runs| - 1].last == used[|used| - 1] && x - used[|used| - 1] > MERGE_GAP
    ensures Wide(runs + [Span(x, x)]) && Narrow(used + [x], runs + [Span(x, x)])
  {
    var n := |runs|;
    var runs', used' := runs + [Span(x, x)], used + [x];
    forall i | 0 <= i < n ensures Gap(runs', i) > MERGE_GAP {
      if i < n - 1 {
        assert Gap(runs', i) == Gap(runs, i);
      }
    }
    assert Bounds(runs', n - 1, used[|used| - 1], x);
    forall j | 0 <= j < |used'| - 1 && Closed(used', runs', j) ensures Stride(used', j) <= MERGE_GAP {
      if j < |used| - 1 {
        KeptOn(runs, runs', used[j], used[j + 1]);
        assert Closed(used, runs, j);
        assert Stride(used', j) == Stride(used, j);
      }
    }
  }

  // ----- closing a gap -----

  function Merge(runs: seq<Span>, i: nat): (r: seq<Span>)
    requires i + 1 < |runs|
    ensures |r| == |runs| - 1
    ensures forall k | 0 <= k < |r| ::
      r[k] == if k < i then runs[k] else if k == i then Span(runs[i].first, runs[i + 1].last) else runs[k + 1]
  {
    runs[..i] + [Span(runs[i].first, runs[i + 1].last)] + runs[i + 2..]
  }

  lemma MergeKept(runs: seq<Span>, i: nat, a: nat, b: nat)
    requires i + 1 < |runs| && Kept(runs, a, b) && !Bounds(runs, i, a, b)
    ensures Kept(Merge(runs, i), a, b)
  {
    var k :| 0 <= k < |runs| && Bounds(runs, k, a, b);
    assert Bounds(Merge(runs, i), if k < i then k else k - 1, a, b);
  }

  lemma MergeCloses(runs: seq<Span>, i: nat, a: nat, b: nat)
    requires i + 1 < |runs| && Kept(runs, a, b) && !Kept(Merge(runs, i), a, b)
    ensures Bounds(runs, i, a, b)
  {
    if !Bounds(runs, i, a, b) {
      MergeKept(runs, i, a, b);
    }
  }

  lemma MergeSpans(used: seq<nat>, runs: seq<Span>, i: nat)
    requires i + 1 < |runs| && Spans(used, runs)
    ensures Spans(used, Merge(runs, i))
  {
    hide Ends, Separated, Covers;
    MergeSeparated(runs, i);
    MergeEnds(used, runs, i);
    MergeCovers(used, runs, i);
  }

  lemma MergeEnds(used: seq<nat>, runs: seq<Span>, i: nat)
    requires i + 1 < |runs| && Ends(used, runs)
    ensures Ends(used, Merge(runs, i))
  {}

  lemma MergeCovers(used: seq<nat>, runs: seq<Span>, i: nat)
    requires i + 1 < |runs| && Separated(runs) && Covers(used, runs)
    ensures Covers(used, Merge(runs, i))
  {
    var merged := Merge(runs, i);
    assert runs[i].first <= runs[i].last < runs[i + 1].first <= runs[i + 1].last;
    hide Separated;
    forall x | x in used ensures Within(merged, x) {
      assert Within(runs, x);
      var k :| 0 <= k < |runs| && Holds(runs[k], x);
      assert Holds(merged[if k <= i then k else k - 1], x);
    }
  }

  lemma MergeSeparated(runs: seq<Span>, i: nat)
    requires i + 1 < |runs| && Separated(runs)
    ensures Separated(Merge(runs, i))
  {
    assert runs[i].last < runs[i + 1].first;
  }

  lemma MergeGap(runs: seq<Span>, i: nat, k: nat)
    requires i + 1 < |runs| && k + 2 < |runs|
    ensures Gap(Merge(runs, i), k) == Gap(runs, if k < i then k else k + 1)
  {}

  /** Closing the smallest gap keeps every closed gap at most as wide as every open one. */
  lemma MergeTight(used: seq<nat>, runs: seq<Span>, i: nat)
    requires i + 1 < |runs| && Tight(used, runs) && Wide(runs)
    requires forall k | 0 <= k < |runs| - 1 :: Gap(runs, i) <= Gap(runs, k)
    ensures Tight(used, Merge(runs, i)) && Wide(Merge(runs, i))
  {
    var merged := Merge(runs, i);
    forall k | 0 <= k < |merged| - 1 ensures Gap(merged, k) > MERGE_GAP {
      MergeGap(runs, i, k);
    }
    forall j, k | 0 <= j < |used| - 1 && 0 <= k < |merged| - 1 && Closed(used, merged, j)
      ensures Stride(used, j) <= Gap(merged, k)
    {
      MergeGap(runs, i, k);
      if !Closed(used, runs, j) {
        MergeCloses(runs, i, used[j], used[j + 1]);
      }
    }
  }

  /** The first position with the smallest gap. */
  method SmallestGap(runs: seq<Span>) returns (i: nat)
    requires |runs| > 1
    ensures i + 1 < |runs|
    ensures forall k | 0 <= k < |runs| - 1 :: Gap(runs, i) <= Gap(runs, k)
    ensures forall k | 0 <= k < i :: Gap(runs, i) < Gap(runs, k)
  {
    i := 0;
    for k := 1 to |runs| - 1
      invariant i < k <= |runs| - 1
      invariant forall m | 0 <= m < k :: Gap(runs, i) <= Gap(runs, m)
      invariant forall m | 0 <= m < i :: Gap(runs, i) < Gap(runs, m)
    {
      if Gap(runs, k) < Gap(runs, i) {
        i := k;
      }
    }
  }

  /** The runs across small gaps only. */
  method MergedRuns(ordered: seq<nat>) returns (runs: seq<Span>)
    requires ordered != [] && Ascending(ordered)
    ensures runs != [] && Spans(ordered, runs) && Wide(runs) && Narrow(ordered, runs)
  {
    hide Spans, Wide, Narrow;
    runs := [Span(ordered[0], ordered[0])];
    OneRun(ordered[0]);
    assert ordered[..1] == [ordered[0]];
    for j := 1 to |ordered|
      invariant runs != [] && Spans(ordered[..j], runs) && Wide(runs) && Narrow(ordered[..j], runs)
      invariant runs[|runs| - 1].last == ordered[j - 1]
    {
      var index := ordered[j];
      assert ordered[..j + 1] == ordered[..j] + [index];
      var n := |runs| - 1;
      if index - runs[n].last <= MERGE_GAP {
        Above(ordered, j);
        ExtendSpans(ordered[..j], runs, index);
        ExtendGaps(ordered[..j], runs, index);
        runs := runs[n := Span(runs[n].first, index)];
      } else {
        Above(ordered, j);
        AddSpans(ordered[..j], runs, index);
        AddGaps(ordered[..j], runs, index);
        runs := runs + [Span(index, index)];
      }
    }
    assert ordered[..|ordered|] == ordered;
  }

  lemma Above(ordered: seq<nat>, j: nat)
    requires Ascending(ordered) && 0 < j < |ordered|
    ensures ordered[j - 1] < ordered[j]
  {}

  lemma OneRun(x: nat)
    ensures Spans([x], [Span(x, x)]) && Wide([Span(x, x)]) && Narrow([x], [Span(x, x)])
  {
    assert Holds([Span(x, x)][0], x);
  }

  /**
   The spans to upload for the registers read, sorted; `useAll` is an address the translator cannot resolve.
   */
  method Runs(ordered: seq<nat>, useAll: bool) returns (runs: seq<Span>)
    requires Ascending(ordered)
    ensures useAll ==> runs == [Span(0, 255)]
    ensures !useAll ==> GoodRuns(ordered, runs) && (runs == [] <==> ordered == [])
  {
    hide Spans, Tight, Wide, Narrow, Separated, GoodRuns, Ascending, Gap;
    GoodNone();
    if useAll || ordered == [] {
      return if useAll then [Span(0, 255)] else [];
    }
    runs := MergedRuns(ordered);
    MergedTight(ordered, runs);
    while |runs| > MAX_RUNS
      invariant runs != [] && Spans(ordered, runs) && Tight(ordered, runs) && Wide(runs)
      invariant |runs| < MAX_RUNS ==> Narrow(ordered, runs)
      decreases |runs|
    {
      var i := SmallestGap(runs);
      MergeSpans(ordered, runs, i);
      MergeTight(ordered, runs, i);
      runs := Merge(runs, i);
    }
    GoodWhen(ordered, runs);
  }

  lemma GoodWhen(used: seq<nat>, runs: seq<Span>)
    requires Spans(used, runs) && Tight(used, runs) && Wide(runs) && |runs| <= MAX_RUNS
    requires |runs| < MAX_RUNS ==> Narrow(used, runs)
    ensures GoodRuns(used, runs)
  {
    hide Spans, Tight, Wide, Narrow;
  }

  lemma GoodNone()
    ensures GoodRuns([], [])
  {}

  lemma MergedTight(used: seq<nat>, runs: seq<Span>)
    requires Wide(runs) && Narrow(used, runs)
    ensures Tight(used, runs)
  {}

  lemma SpansSeparated(used: seq<nat>, runs: seq<Span>)
    requires Spans(used, runs)
    ensures Separated(runs)
  {}

  // ----- packed numbering -----

  /** The registers of one span in order. */
  function Registers(first: nat, last: nat): (r: seq<nat>)
    requires first <= last + 1
    ensures |r| == last + 1 - first && forall k | 0 <= k < |r| :: r[k] == first + k
  {
    seq(last + 1 - first, k => first + k)
  }

  /** The registers of all spans, back to back: position `k` is packed register `k`. */
  function Flat(runs: seq<Span>): seq<nat>
    requires Separated(runs)
  {
    if runs == [] then []
    else Flat(runs[..|runs| - 1]) + Registers(runs[|runs| - 1].first, runs[|runs| - 1].last)
  }

  lemma FlatNext(runs: seq<Span>, r: nat)
    requires Separated(runs) && r < |runs|
    ensures Separated(runs[..r]) && Separated(runs[..r + 1])
    ensures Flat(runs[..r + 1]) == Flat(runs[..r]) + Registers(runs[r].first, runs[r].last)
  {
    assert runs[..r + 1][..r] == runs[..r];
  }

  lemma {:induction false} FlatWithin(runs: seq<Span>)
    requires Separated(runs)
    ensures forall k | 0 <= k < |Flat(runs)| :: Within(runs, Flat(runs)[k])
  {
    if runs != [] {
      var n := |runs| - 1;
      var front := Flat(runs[..n]);
      FlatWithin(runs[..n]);
      forall k | 0 <= k < |Flat(runs)| ensures Within(runs, Flat(runs)[k]) {
        if k < |front| {
          assert Within(runs[..n], front[k]);
          var i :| 0 <= i < n && Holds(runs[..n][i], front[k]);
          assert Holds(runs[i], front[k]);
        } else {
          assert Holds(runs[n], Flat(runs)[k]);
        }
      }
    }
  }

  lemma {:induction false} FlatAscends(runs: seq<Span>)
    requires Separated(runs)
    ensures Ascending(Flat(runs))
  {
    if runs != [] {
      var n := |runs| - 1;
      var front := Flat(runs[..n]);
      FlatAscends(runs[..n]);
      FlatWithin(runs[..n]);
      forall k | 0 <= k < |front| ensures front[k] < runs[n].first {
        assert Within(runs[..n], front[k]);
        var i :| 0 <= i < n && Holds(runs[..n][i], front[k]);
        assert runs[i].last < runs[n].first;
      }
    }
  }

  lemma {:induction false} FlatHolds(runs: seq<Span>, x: nat)
    requires Separated(runs) && Within(runs, x)
    ensures x in Flat(runs)
  {
    var n := |runs| - 1;
    var i :| 0 <= i < |runs| && Holds(runs[i], x);
    if i == n {
      assert Registers(runs[n].first, runs[n].last)[x - runs[n].first] == x;
    } else {
      assert Holds(runs[..n][i], x);
      FlatHolds(runs[..n], x);
    }
  }

  /** The packed number of each uploaded register; none when the shader keeps absolute numbers. */
  datatype Packing = Absolute | Packed(mapping: map<nat, nat>)

  method PackedConstantMap(ordered: seq<nat>, useAll: bool, noPack: bool) returns (packing: Packing, runs: seq<Span>)
    requires Ascending(ordered)
    ensures packing.Absolute? <==> useAll || noPack
    ensures packing.Absolute? ==> runs == [Span(0, 255)]
    ensures packing.Packed? ==> GoodRuns(ordered, runs) && (runs == [] <==> ordered == []) && Numbers(packing.mapping, runs)
  {
    runs := Runs(ordered, useAll);
    if useAll || noPack {
      return Absolute, [Span(0, 255)];
    }
    hide Spans, Tight, Wide, Narrow;
    SpansSeparated(ordered, runs);
    var mapping: map<nat, nat> := map[];
    var packed := 0;
    for r := 0 to |runs|
      invariant Separated(runs[..r]) && packed == |Flat(runs[..r])| && NumbersUpTo(mapping, Flat(runs[..r]))
    {
      FlatNext(runs, r);
      FlatAscends(runs[..r + 1]);
      mapping, packed := NumberSpan(mapping, packed, runs[r], Flat(runs[..r]));
    }
    assert runs[..|runs|] == runs;
    return Packed(mapping), runs;
  }

  method NumberSpan(before: map<nat, nat>, start: nat, r: Span, ghost flat: seq<nat>)
    returns (mapping: map<nat, nat>, packed: nat)
    requires r.first <= r.last && start == |flat| && NumbersUpTo(before, flat)
    requires Ascending(flat + Registers(r.first, r.last))
    ensures NumbersUpTo(mapping, flat + Registers(r.first, r.last))
    ensures packed == |flat + Registers(r.first, r.last)|
  {
    hide NumbersUpTo, Ascending;
    ghost var all := flat + Registers(r.first, r.last);
    mapping, packed := before, start;
    var index := r.first;
    assert all[..start] == flat;
    while index <= r.last
      invariant r.first <= index <= r.last + 1 && packed == start + (index - r.first)
      invariant NumbersUpTo(mapping, all[..packed])
    {
      OneMoreNumber(mapping, all, packed, index);
      mapping := mapping[index := packed];
      packed, index := packed + 1, index + 1;
    }
    assert all[..packed] == all;
  }

  ghost predicate NumbersUpTo(mapping: map<nat, nat>, flat: seq<nat>) {
    && (forall k | 0 <= k < |flat| :: flat[k] in mapping && mapping[flat[k]] == k)
    && (forall i | i in mapping :: i in flat)
  }

  /** The mapping numbers the spans' registers from zero, back to back. */
  ghost predicate Numbers(mapping: map<nat, nat>, runs: seq<Span>) {
    Separated(runs) && NumbersUpTo(mapping, Flat(runs))
  }

  lemma OneMoreNumber(mapping: map<nat, nat>, flat: seq<nat>, k: nat, index: nat)
    requires Ascending(flat) && k < |flat| && flat[k] == index && NumbersUpTo(mapping, flat[..k])
    ensures NumbersUpTo(mapping[index := k], flat[..k + 1])
  {
    assert flat[..k + 1] == flat[..k] + [index];
    forall i | 0 <= i < k ensures flat[..k][i] != index {}
  }

  /** Every register read has a packed number, and the span list holds it there. */
  lemma UsedAreNumbered(used: seq<nat>, runs: seq<Span>, mapping: map<nat, nat>, i: nat)
    requires GoodRuns(used, runs) && Numbers(mapping, runs) && i in used
    ensures i in mapping && mapping[i] < |Flat(runs)| && Flat(runs)[mapping[i]] == i
  {
    FlatHolds(runs, i);
    var k :| 0 <= k < |Flat(runs)| && Flat(runs)[k] == i;
  }
}
