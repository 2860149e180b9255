/**
 The constant spans on their way to the GPU: printed to a side file (tools/ucode2hlsl.py), parsed and checked
 (src/gpu/native/native_constant_layout.h), and copied at draw time (src/gpu/native/native_constant_reuse.h,
 src/gpu/native/native_geometry_pass.cpp).
 */
module ConstantLayout {

  import opened ConstantRuns
  import opened Wrappers

  type Bytes = seq<bv8>

  /** A run of `count` registers from `first`, as the draw copies it. */
  datatype Run = Run(first: nat, count: nat)

  const REGISTER_BYTES: nat := 16
  const U32: nat := 0x1_0000_0000

  // ----- printing -----

  function Digit(d: nat): char
    requires d < 10
  {
    ['0', '1', '2', '3', '4', '5', '6', '7', '8', '9'][d]
  }

  function Digits(n: nat): (s: string)
    ensures s != []
  {
    if n < 10 then [Digit(n)] else Digits(n / 10) + [Digit(n % 10)]
  }

  function Item(r: Span): string {
    Digits(r.first) + "-" + Digits(r.last)
  }

  /** `",".join(f"{first}-{last}")`. */
  function Printed(runs: seq<Span>): string {
    if runs == [] then ""
    else if |runs| == 1 then Item(runs[0])
    else Item(runs[0]) + "," + Printed(runs[1..])
  }

  // ----- parsing -----

  predicate IsDigit(c: char) { '0' <= c <= '9' }

  function DigitValue(c: char): nat
    requires IsDigit(c)
  {
    c as nat - '0' as nat
  }

  function Value(s: string): nat
    requires forall c | c in s :: IsDigit(c)
  {
    if s == [] then 0 else 10 * Value(s[..|s| - 1]) + DigitValue(s[|s| - 1])
  }

  /** An unsigned 32-bit number, digits only; `from_chars` refuses what does not fit. */
  function Unsigned(text: string): Option<nat> {
    if text == [] || exists c :: c in text && !IsDigit(c) then None
    else if Value(text) < U32 then Some(Value(text)) else None
  }

  /** The first position of a character, or the length when there is none. */
  function IndexOf(text: string, c: char): (i: nat)
    ensures i <= |text| && (i < |text| ==> text[i] == c) && forall k | 0 <= k < i :: text[k] != c
  {
    if text == [] then 0 else if text[0] == c then 0 else 1 + IndexOf(text[1..], c)
  }

  function ParseItem(item: string): (r: Option<Span>)
    ensures r.Some? ==> r.value.first <= r.value.last < 256
  {
    var dash := IndexOf(item, '-');
    if dash == |item| then None
    else
      var first, last := Unsigned(item[..dash]), Unsigned(item[dash + 1..]);
      if first.None? || last.None? || first.value > last.value || last.value >= 256 then None
      else Some(Span(first.value, last.value))
  }

  /** The runs still to be read from `text`, after the ones in `parsed`. */
  function ParseFrom(text: string, parsed: seq<Run>, total: nat): Option<seq<Run>>
    requires total <= 256
    decreases |text|
  {
    if text == [] then Some(parsed)
    else
      var comma := IndexOf(text, ',');
      var item := ParseItem(text[..comma]);
      if item.None? then None
      else
        var count := item.value.last - item.value.first + 1;
        if count > 256 - total then None
        else
          var more := parsed + [Run(item.value.first, count)];
          if comma == |text| then Some(more)
          else if comma + 1 == |text| then None
          else ParseFrom(text[comma + 1..], more, total + count)
  }

  function Total(runs: seq<Run>): nat {
    if runs == [] then 0 else Total(runs[..|runs| - 1]) + runs[|runs| - 1].count
  }

  class NativeConstantLayoutMetadata {
    var upperBound: nat
    var hasPackedLayout: bool
    var packedRegisters: nat
    var runs: seq<Run>
    var haveUpperBound: bool
    var ok: bool

    constructor ()
      ensures upperBound == 256 && !hasPackedLayout && packedRegisters == 0 && runs == [] && !haveUpperBound && ok
    {
      upperBound, hasPackedLayout, packedRegisters, runs, haveUpperBound, ok := 256, false, 0, [], false, true;
    }

    method SetUpperBound(text: string) returns (r: bool)
      modifies this
      ensures r <==> !old(haveUpperBound) && Unsigned(text).Some? && Unsigned(text).value <= 256
      ensures if r then upperBound == Unsigned(text).value && haveUpperBound && ok == old(ok)
              else upperBound == old(upperBound) && haveUpperBound == old(haveUpperBound) && !ok
      ensures hasPackedLayout == old(hasPackedLayout) && packedRegisters == old(packedRegisters) && runs == old(runs)
    {
      var value := Unsigned(text);
      if haveUpperBound || value.None? || value.value > 256 {
        ok := false;
        return false;
      }
      haveUpperBound, upperBound := true, value.value;
      return true;
    }

    /** Takes the whole list or nothing, and only once. */
    method SetRuns(text: string) returns (r: bool)
      modifies this
      ensures r <==> !old(hasPackedLayout) && ParseFrom(text, [], 0).Some?
      ensures if r then hasPackedLayout && runs == ParseFrom(text, [], 0).value && packedRegisters == Total(runs) && ok == old(ok)
              else hasPackedLayout == old(hasPackedLayout) && runs == old(runs)
                   && packedRegisters == old(packedRegisters) && !ok
      ensures upperBound == old(upperBound) && haveUpperBound == old(haveUpperBound)
    {
      if hasPackedLayout {
        ok := false;
        return false;
      }
      var parsed := ReadRuns(text);
      if parsed.None? {
        ok := false;
        return false;
      }
      hasPackedLayout, packedRegisters, runs := true, parsed.value.1, parsed.value.0;
      return true;
    }

    /** The loop over the items of the list, and the registers they add up to. */
    static method ReadRuns(text: string) returns (r: Option<(seq<Run>, nat)>)
      ensures r.None? <==> ParseFrom(text, [], 0).None?
      ensures r.Some? ==> r.value.0 == ParseFrom(text, [], 0).value && r.value.1 == Total(r.value.0)
    {
      hide ParseItem, IndexOf, Total;
      TotalNone();
      var parsed: seq<Run>, total, rest := [], 0, text;
      while rest != []
        invariant total <= 256 && total == Total(parsed)
        invariant ParseFrom(text, [], 0) == ParseFrom(rest, parsed, total)
        decreases |rest|
      {
        var comma := IndexOf(rest, ',');
        var item := ParseItem(rest[..comma]);
        if item.None? || item.value.last - item.value.first + 1 > 256 - total {
          return None;
        }
        var run := Run(item.value.first, item.value.last - item.value.first + 1);
        TotalSnoc(parsed, run);
        parsed, total := parsed + [run], total + run.count;
        if comma == |rest| {
          return Some((parsed, total));
        }
        if comma + 1 == |rest| {
          return None;
        }
        rest := rest[comma + 1..];
      }
      return Some((parsed, total));
    }

    predicate Valid()
      reads this
    {
      ok && (hasPackedLayout && haveUpperBound && runs == [] ==> upperBound == 0)
    }
  }

  lemma TotalNone()
    ensures Total([]) == 0
  {}

  lemma TotalSnoc(runs: seq<Run>, r: Run)
    ensures Total(runs + [r]) == Total(runs) + r.count
  {
    assert (runs + [r])[..|runs|] == runs;
  }

  // ----- the round trip -----

  lemma DigitBack(d: nat)
    requires d < 10
    ensures IsDigit(Digit(d)) && DigitValue(Digit(d)) == d
  {}

  lemma {:induction false} DigitsBack(n: nat)
    ensures (forall c | c in Digits(n) :: IsDigit(c)) && Value(Digits(n)) == n
  {
    if n < 10 {
      DigitBack(n);
      assert Digits(n)[..0] == [];
    } else {
      DigitsBack(n / 10);
      DigitBack(n % 10);
      assert Digits(n)[..|Digits(n)| - 1] == Digits(n / 10);
    }
  }

  /** A printed number is read back, unless it does not fit in 32 bits. */
  lemma UnsignedBack(n: nat)
    ensures Unsigned(Digits(n)) == if n < U32 then Some(n) else None
  {
    DigitsBack(n);
  }

  lemma IndexAfter(a: string, c: char, b: string)
    requires forall k | 0 <= k < |a| :: a[k] != c
    ensures IndexOf(a + [c] + b, c) == |a| && IndexOf(a, c) == |a|
    ensures (a + [c] + b)[..|a|] == a && (a + [c] + b)[|a| + 1..] == b
  {
    var s := a + [c] + b;
    assert s[|a|] == c;
    assert forall k | 0 <= k < |a| :: s[k] == a[k];
  }

  lemma DigitsFree(n: nat, c: char)
    requires !IsDigit(c)
    ensures forall k | 0 <= k < |Digits(n)| :: Digits(n)[k] != c
  {
    DigitsBack(n);
    assert forall k | 0 <= k < |Digits(n)| :: Digits(n)[k] in Digits(n);
  }

  /** A printed span is read back exactly when its registers are below 256. */
  lemma ItemBack(r: Span)
    requires r.first <= r.last
    ensures ParseItem(Item(r)) == if r.last < 256 then Some(r) else None
  {
    hide Digits, Unsigned, IndexOf;
    UnsignedBack(r.first);
    UnsignedBack(r.last);
    DigitsFree(r.first, '-');
    IndexAfter(Digits(r.first), '-', Digits(r.last));
  }

  lemma ItemFree(r: Span)
    ensures Item(r) != [] && forall k | 0 <= k < |Item(r)| :: Item(r)[k] != ','
  {
    hide Digits;
    DigitsFree(r.first, ',');
    DigitsFree(r.last, ',');
  }

  function ToRun(r: Span): Run
    requires r.first <= r.last
  {
    Run(r.first, r.last - r.first + 1)
  }

  function ToRuns(runs: seq<Span>): (r: seq<Run>)
    requires Separated(runs)
    ensures |r| == |runs| && forall i | 0 <= i < |r| :: r[i] == ToRun(runs[i])
  {
    seq(|runs|, i requires 0 <= i < |runs| => ToRun(runs[i]))
  }

  predicate Below256(runs: seq<Span>) {
    forall i | 0 <= i < |runs| :: runs[i].last < 256
  }

  lemma PrintedMore(runs: seq<Span>)
    ensures runs != [] ==> Printed(runs) != []
  {
    hide Item;
    if runs != [] { ItemFree(runs[0]); }
  }

  /** Reading one item off the front of a printed list. */
  lemma ParseFront(r: Span, tail: string, parsed: seq<Run>, total: nat)
    requires r.first <= r.last && total <= r.first && total <= 256
    ensures var more := parsed + [ToRun(r)];
            && ParseFrom(Item(r), parsed, total) == (if r.last < 256 then Some(more) else None)
            && (tail != [] ==>
                  ParseFrom(Item(r) + [','] + tail, parsed, total)
                  == if r.last < 256 then ParseFrom(tail, more, total + ToRun(r).count) else None)
  {
    hide Item, ParseItem, IndexOf;
    ItemBack(r);
    ItemFree(r);
    IndexAfter(Item(r), ',', tail);
    assert Item(r)[..|Item(r)|] == Item(r);
  }

  /** The printed list is read back whole exactly when every register is below 256, and refused otherwise. */
  lemma {:induction false} ParseBack(runs: seq<Span>, parsed: seq<Run>, total: nat)
    requires Separated(runs) && total <= 256 && (runs != [] ==> total <= runs[0].first)
    ensures ParseFrom(Printed(runs), parsed, total) == if Below256(runs) then Some(parsed + ToRuns(runs)) else None
    decreases |runs|
  {
    hide Item, ParseFrom, ToRuns, Below256, Separated;
    if runs == [] {
      NoRuns();
      assert parsed + ToRuns(runs) == parsed;
      ParseNone(parsed, total);
    } else {
      var r, rest := runs[0], runs[1..];
      PrintedMore(rest);
      RunsSplit(runs, parsed);
      ParseFront(r, Printed(rest), parsed, total);
      if rest == [] {
        NoRuns();
        assert parsed + [ToRun(r)] + [] == parsed + [ToRun(r)];
      } else if r.last < 256 {
        ParseBack(rest, parsed + [ToRun(r)], total + ToRun(r).count);
      }
    }
  }

  lemma NoRuns()
    ensures Separated([]) && ToRuns([]) == [] && Below256([])
  {}

  lemma ParseNone(parsed: seq<Run>, total: nat)
    requires total <= 256
    ensures ParseFrom([], parsed, total) == Some(parsed)
  {}

  lemma RunsSplit(runs: seq<Span>, parsed: seq<Run>)
    requires runs != [] && Separated(runs)
    ensures runs[0].first <= runs[0].last && Separated(runs[1..])
    ensures |runs| > 1 ==> runs[0].last < runs[1..][0].first
    ensures parsed + ToRuns(runs) == parsed + [ToRun(runs[0])] + ToRuns(runs[1..])
    ensures Below256(runs) <==> runs[0].last < 256 && Below256(runs[1..])
  {
    TailSeparated(runs);
    assert ToRuns(runs) == [ToRun(runs[0])] + ToRuns(runs[1..]);
    TailBelow(runs);
  }

  lemma TailSeparated(runs: seq<Span>)
    requires runs != [] && Separated(runs)
    ensures Separated(runs[1..])
  {}

  lemma TailBelow(runs: seq<Span>)
    requires runs != []
    ensures Below256(runs) <==> runs[0].last < 256 && Below256(runs[1..])
  {
    assert forall i | 0 < i < |runs| :: runs[i] == runs[1..][i - 1];
  }

  /** For a shader's registers, the side file is accepted exactly when all of them are below 256. */
  lemma AcceptedIffBelow256(used: seq<nat>, runs: seq<Span>)
    requires GoodRuns(used, runs)
    ensures ParseFrom(Printed(runs), [], 0)
            == if forall x | x in used :: x < 256 then Some(ToRuns(runs)) else None
  {
    hide Printed, ParseFrom, ToRuns, Spans, Tight, Wide, Narrow, Separated, Below256;
    SpansSeparated(used, runs);
    ParseBack(runs, [], 0);
    assert [] + ToRuns(runs) == ToRuns(runs);
    BelowIff(used, runs);
  }

  lemma BelowIff(used: seq<nat>, runs: seq<Span>)
    requires Spans(used, runs)
    ensures Below256(runs) <==> forall x | x in used :: x < 256
  {
    if x :| x in used && x >= 256 {
      assert Within(runs, x);
      var i :| 0 <= i < |runs| && Holds(runs[i], x);
      assert runs[i].last >= 256;
    }
  }

  // ----- the copy at draw time -----

  /** The bytes of the registers from `first` up to `end`. */
  function RegisterSpan(source: Bytes, first: nat, end: nat): Bytes
    requires |source| == 256 * REGISTER_BYTES && first <= end <= 256
  {
    source[first * REGISTER_BYTES..end * REGISTER_BYTES]
  }

  /** Every run stays within the register file. */
  predicate InFile(runs: seq<Run>) {
    forall r | r in runs :: r.first + r.count <= 256
  }

  /** The float bytes of a packet: the source registers of each run, back to back. */
  function Copied(source: Bytes, runs: seq<Run>): Bytes
    requires |source| == 256 * REGISTER_BYTES && InFile(runs)
  {
    if runs == [] then []
    else
      var r := runs[|runs| - 1];
      assert r in runs;
      Copied(source, runs[..|runs| - 1]) + RegisterSpan(source, r.first, r.first + r.count)
  }

  /** The sixteen bytes of one register. */
  function RegisterAt(bytes: Bytes, k: nat): Bytes
    requires (k + 1) * REGISTER_BYTES <= |bytes|
  {
    bytes[k * REGISTER_BYTES..(k + 1) * REGISTER_BYTES]
  }

  lemma RunsFit(runs: seq<Span>)
    requires Separated(runs) && Below256(runs)
    ensures InFile(ToRuns(runs))
    ensures runs != [] ==> Separated(runs[..|runs| - 1]) && Below256(runs[..|runs| - 1])
  {}

  /** The packed bytes are as long as the flat list, and register `k` of them is the one it names. */
  ghost predicate InPlace(packed: Bytes, source: Bytes, flat: seq<nat>, k: nat)
    requires |source| == 256 * REGISTER_BYTES
  {
    && |packed| == |flat| * REGISTER_BYTES
    && (k < |flat| ==> flat[k] < 256 && RegisterAt(packed, k) == RegisterAt(source, flat[k]))
  }

  /** Packed register `k` is the guest register the flat list names, for every register of the spans. */
  lemma CopiedAt(source: Bytes, runs: seq<Span>, k: nat)
    requires |source| == 256 * REGISTER_BYTES && Separated(runs) && Below256(runs)
    ensures InFile(ToRuns(runs))
    ensures |Copied(source, ToRuns(runs))| == |Flat(runs)| * REGISTER_BYTES
    ensures k < |Flat(runs)| ==>
              (Flat(runs)[k] < 256
               && RegisterAt(Copied(source, ToRuns(runs)), k) == RegisterAt(source, Flat(runs)[k]))
  {
    CopiedInPlace(source, runs, k);
    hide Copied, Flat, Separated, Below256, ToRuns, RegisterAt;
  }

  lemma {:induction false} CopiedInPlace(source: Bytes, runs: seq<Span>, k: nat)
    requires |source| == 256 * REGISTER_BYTES && Separated(runs) && Below256(runs)
    ensures InFile(ToRuns(runs))
    ensures InPlace(Copied(source, ToRuns(runs)), source, Flat(runs), k)
    decreases |runs|
  {
    RunsFit(runs);
    hide Copied, Flat, Separated, Below256, ToRuns, InPlace, InFile, RegisterSpan;
    if runs == [] {
      CopiedNone(source, k);
    } else {
      CopiedInPlace(source, runs[..|runs| - 1], k);
      CopiedNext(source, runs[..|runs| - 1], runs, k);
    }
  }

  lemma CopiedNext(source: Bytes, front: seq<Span>, runs: seq<Span>, k: nat)
    requires |source| == 256 * REGISTER_BYTES && Separated(runs) && Below256(runs) && InFile(ToRuns(runs))
    requires runs != [] && front == runs[..|runs| - 1] && Separated(front) && InFile(ToRuns(front))
    requires InPlace(Copied(source, ToRuns(front)), source, Flat(front), k)
    ensures InPlace(Copied(source, ToRuns(runs)), source, Flat(runs), k)
  {
    hide Copied, Flat, Separated, Below256, ToRuns, InPlace, InFile, RegisterSpan;
    CopiedLast(source, runs);
    FlatLast(runs);
    LastRegister(source, Copied(source, ToRuns(front)), Flat(front), runs[|runs| - 1], k);
  }

  lemma CopiedNone(source: Bytes, k: nat)
    requires |source| == 256 * REGISTER_BYTES
    ensures Separated([]) && ToRuns([]) == [] && InPlace(Copied(source, []), source, Flat([]), k)
  {}

  lemma CopiedLast(source: Bytes, runs: seq<Span>)
    requires |source| == 256 * REGISTER_BYTES && Separated(runs) && Below256(runs) && runs != []
    requires InFile(ToRuns(runs))
    requires Separated(runs[..|runs| - 1]) && InFile(ToRuns(runs[..|runs| - 1]))
    ensures var r := runs[|runs| - 1];
            r.first <= r.last < 256
            && Copied(source, ToRuns(runs))
               == Copied(source, ToRuns(runs[..|runs| - 1])) + RegisterSpan(source, r.first, r.last + 1)
  {
    hide RegisterSpan, Copied, InFile, ToRuns, Separated, Below256;
    LastRun(runs);
    CopiedUnfold(source, ToRuns(runs));
  }

  lemma LastRun(runs: seq<Span>)
    requires Separated(runs) && Below256(runs) && runs != []
    ensures Separated(runs[..|runs| - 1]) && ToRuns(runs)[..|runs| - 1] == ToRuns(runs[..|runs| - 1])
    ensures var r := runs[|runs| - 1];
            r.first <= r.last < 256 && ToRuns(runs)[|runs| - 1] == Run(r.first, r.last + 1 - r.first)
  {}

  lemma CopiedUnfold(source: Bytes, runs: seq<Run>)
    requires |source| == 256 * REGISTER_BYTES && InFile(runs) && runs != []
    ensures var r := runs[|runs| - 1];
            && InFile(runs[..|runs| - 1]) && r.first + r.count <= 256
            && Copied(source, runs) == Copied(source, runs[..|runs| - 1]) + RegisterSpan(source, r.first, r.first + r.count)
  {
    hide RegisterSpan;
  }

  lemma FlatLast(runs: seq<Span>)
    requires Separated(runs) && runs != []
    ensures Separated(runs[..|runs| - 1]) && runs[|runs| - 1].first <= runs[|runs| - 1].last
    ensures Flat(runs) == Flat(runs[..|runs| - 1]) + Registers(runs[|runs| - 1].first, runs[|runs| - 1].last)
  {}

  lemma LastRegister(source: Bytes, front: Bytes, flat: seq<nat>, r: Span, k: nat)
    requires |source| == 256 * REGISTER_BYTES && r.first <= r.last < 256 && InPlace(front, source, flat, k)
    ensures var all := front + RegisterSpan(source, r.first, r.last + 1);
            InPlace(all, source, flat + Registers(r.first, r.last), k)
  {
    var span := RegisterSpan(source, r.first, r.last + 1);
    if k < |flat| {
      assert RegisterAt(front + span, k) == RegisterAt(front, k);
    } else if k < |flat| + (r.last + 1 - r.first) {
      SpanRegister(source, r.first, r.last + 1, k - |flat|);
      BehindFront(front, span, |flat|, k - |flat|);
      hide RegisterAt, RegisterSpan;
    }
  }

  lemma SpanRegister(source: Bytes, first: nat, end: nat, j: nat)
    requires |source| == 256 * REGISTER_BYTES && first + j < end <= 256
    ensures |RegisterSpan(source, first, end)| == (end - first) * REGISTER_BYTES
    ensures RegisterAt(RegisterSpan(source, first, end), j) == RegisterAt(source, first + j)
  {
    SliceInSlice(source, first * REGISTER_BYTES, end * REGISTER_BYTES, j * REGISTER_BYTES, (j + 1) * REGISTER_BYTES);
  }

  lemma SliceInSlice(s: Bytes, a: nat, b: nat, c: nat, d: nat)
    requires c <= d <= b - a && b <= |s|
    ensures s[a..b][c..d] == s[a + c..a + d]
  {
    var inner, outer := s[a..b][c..d], s[a + c..a + d];
    assert |inner| == |outer| && forall i | 0 <= i < |inner| :: inner[i] == outer[i];
  }

  lemma BehindFront(front: Bytes, span: Bytes, n: nat, j: nat)
    requires |front| == n * REGISTER_BYTES && (j + 1) * REGISTER_BYTES <= |span|
    ensures RegisterAt(front + span, n + j) == RegisterAt(span, j)
  {}

  // ----- the packet -----

  /** Only a list known to be empty may mean no registers at all. */
  function NativeConstantRegisters(packed: nat, explicitEmpty: bool): nat {
    if packed != 0 then packed else if explicitEmpty then 0 else 256
  }

  /** The float part of a draw's packet: nothing, zeros without a source, the whole file without runs, or the runs. */
  function FloatBytes(source: Option<Bytes>, runs: seq<Run>, registers: nat): Bytes
    requires source.Some? ==> |source.value| == 256 * REGISTER_BYTES && registers <= 256
    requires InFile(runs)
  {
    if registers == 0 then []
    else if source.None? then seq(registers * REGISTER_BYTES, _ => 0)
    else if runs == [] then source.value[..registers * REGISTER_BYTES]
    else Copied(source.value, runs)
  }

  predicate RunsAddUp(runs: seq<Run>, registers: nat) {
    InFile(runs) && Total(runs) == registers
  }

  const BOOL_BYTES: nat := 32
  const SLOT_BYTES: nat := 80
  const HEADER_BYTES: nat := BOOL_BYTES + 2 * SLOT_BYTES
  const CAPACITY: nat := HEADER_BYTES + 256 * REGISTER_BYTES

  /** What the caller hands over for one packet; the two slot tables may be missing. */
  datatype Parts = Parts(bools: Option<Bytes>, swizzles: Option<Bytes>, samplers: Option<Bytes>, source: Option<Bytes>,
                         runs: seq<Run>, packed: nat, explicitEmpty: bool) {
    predicate Sized() {
      && (bools.Some? ==> |bools.value| == BOOL_BYTES)
      && (swizzles.Some? ==> |swizzles.value| == SLOT_BYTES) && (samplers.Some? ==> |samplers.value| == SLOT_BYTES)
      && (source.Some? ==> |source.value| == 256 * REGISTER_BYTES)
    }

    /** Every byte of the packet would be initialized from a place that exists. */
    predicate Buildable() {
      var registers := NativeConstantRegisters(packed, explicitEmpty);
      && !(explicitEmpty && (packed != 0 || runs != [])) && registers <= 256
      && swizzles.Some? && samplers.Some?
      && (source.Some? && runs != [] ==> RunsAddUp(runs, registers))
    }

    function Packet(): Bytes
      requires Sized() && Buildable()
    {
      var registers := NativeConstantRegisters(packed, explicitEmpty);
      (if bools.Some? then bools.value else seq(BOOL_BYTES, _ => 0)) + swizzles.value + samplers.value
      + FloatBytes(source, if source.Some? then runs else [], registers)
    }
  }

  /** Where the bytes of the `n`-th run stand among the float bytes. */
  ghost predicate RunLaid(source: Bytes, runs: seq<Run>, n: nat, floats: Bytes)
    requires n < |runs|
  {
    var at, r := 16 * Total(runs[..n]), runs[n];
    && at + 16 * r.count <= |floats| && 16 * (r.first + r.count) <= |source|
    && floats[at..at + 16 * r.count] == source[16 * r.first..16 * (r.first + r.count)]
  }

  /** How many registers a packet holds: none only for a list known to be empty, the whole file when nothing is known. */
  function RegistersOf(p: Parts): nat {
    if p.packed > 0 then p.packed else if p.explicitEmpty then 0 else 256
  }

  /** The bytes of a packet, part by part: the bools, the swizzles, the samplers, and the registers. */
  ghost predicate LaidOut(p: Parts, bytes: Bytes) {
    && |bytes| == 192 + 16 * RegistersOf(p)
    && (if p.bools.Some? then p.bools.value == bytes[..32] else forall j | 0 <= j < 32 :: bytes[j] == 0)
    && p.swizzles == Some(bytes[32..112]) && p.samplers == Some(bytes[112..192])
    && (p.source.None? ==> forall j | 192 <= j < |bytes| :: bytes[j] == 0)
    && (p.source.Some? && p.runs == [] ==> bytes[192..] <= p.source.value)
    && (p.source.Some? && p.runs != [] ==> forall n: nat | n < |p.runs| :: RunLaid(p.source.value, p.runs, n, bytes[192..]))
  }

  lemma PacketLaidOut(p: Parts)
    requires p.Sized() && p.Buildable()
    ensures LaidOut(p, p.Packet())
  {
    hide RunLaid, Copied, Total, FloatBytes;
    var registers := NativeConstantRegisters(p.packed, p.explicitEmpty);
    var runs := if p.source.Some? then p.runs else [];
    var floats := FloatBytes(p.source, runs, registers);
    FloatsSized(p.source, runs, registers);
    var bools: Bytes := if p.bools.Some? then p.bools.value else seq(BOOL_BYTES, _ => 0);
    var bytes := p.Packet();
    FourParts(bools, p.swizzles.value, p.samplers.value, floats);
    assert p.source.None? ==> forall j | 192 <= j < |bytes| :: bytes[j] == floats[j - 192];
  }

  lemma FourParts(a: Bytes, b: Bytes, c: Bytes, d: Bytes)
    requires |a| == 32 && |b| == 80 && |c| == 80
    ensures var all := a + b + c + d;
            |all| == 192 + |d| && all[..32] == a && all[32..112] == b && all[112..192] == c && all[192..] == d
  {
    var all := a + b + c + d;
    assert forall i | 0 <= i < 32 :: all[..32][i] == a[i];
    assert forall i | 0 <= i < 80 :: all[32..112][i] == b[i];
    assert forall i | 0 <= i < 80 :: all[112..192][i] == c[i];
    assert forall i | 0 <= i < |d| :: all[192..][i] == d[i];
  }

  /** The float bytes are as many as the registers take, and what they should be. */
  lemma FloatsSized(source: Option<Bytes>, runs: seq<Run>, registers: nat)
    requires (source.Some? ==> |source.value| == 256 * REGISTER_BYTES) && registers <= 256
    requires runs != [] ==> source.Some? && RunsAddUp(runs, registers)
    ensures InFile(runs) && |FloatBytes(source, runs, registers)| == 16 * registers
    ensures source.None? ==> forall j | 0 <= j < 16 * registers :: FloatBytes(source, runs, registers)[j] == 0
    ensures source.Some? && runs == [] ==> FloatBytes(source, runs, registers) <= source.value
    ensures forall n: nat | n < |runs| && source.Some? :: RunLaid(source.value, runs, n, FloatBytes(source, runs, registers))
  {
    hide RunLaid, Copied, Total;
    if runs != [] {
      CopiedSized(source.value, runs);
      if registers == 0 {
        EmptyAlike(Copied(source.value, runs));
      }
      forall n: nat | n < |runs| ensures RunLaid(source.value, runs, n, FloatBytes(source, runs, registers)) {
        CopiedRun(source.value, runs, n);
      }
    }
  }

  lemma EmptyAlike(bytes: Bytes)
    requires |bytes| == 0
    ensures bytes == []
  {}

  lemma {:induction false} CopiedSized(source: Bytes, runs: seq<Run>)
    requires |source| == 256 * REGISTER_BYTES && InFile(runs)
    ensures |Copied(source, runs)| == 16 * Total(runs)
    decreases |runs|
  {
    if runs != [] {
      assert runs[|runs| - 1] in runs;
      CopiedSized(source, runs[..|runs| - 1]);
    }
  }

  lemma {:induction false} CopiedRun(source: Bytes, runs: seq<Run>, n: nat)
    requires |source| == 256 * REGISTER_BYTES && InFile(runs) && n < |runs|
    ensures RunLaid(source, runs, n, Copied(source, runs))
    decreases |runs|
  {
    var front, r := runs[..|runs| - 1], runs[|runs| - 1];
    assert r in runs;
    CopiedSized(source, front);
    var before, span := Copied(source, front), RegisterSpan(source, r.first, r.first + r.count);
    assert Copied(source, runs) == before + span && |span| == 16 * r.count;
    if n < |runs| - 1 {
      CopiedRun(source, front, n);
      LaidStays(source, front, runs, n, before, span);
    } else {
      assert (before + span)[|before|..] == span;
    }
  }

  lemma LaidStays(source: Bytes, front: seq<Run>, runs: seq<Run>, n: nat, before: Bytes, span: Bytes)
    requires n < |front| && runs != [] && front == runs[..|runs| - 1] && RunLaid(source, front, n, before)
    ensures RunLaid(source, runs, n, before + span)
  {
    hide Total;
    assert runs[..n] == front[..n] && runs[n] == front[n];
    var at, r := 16 * Total(runs[..n]), runs[n];
    assert (before + span)[at..at + 16 * r.count] == before[at..at + 16 * r.count];
  }

  /** The checking loop over the runs. */
  method CheckRuns(runs: seq<Run>, registers: nat) returns (ok: bool)
    ensures ok <==> RunsAddUp(runs, registers)
  {
    hide Total;
    TotalNone();
    var total := 0;
    for i := 0 to |runs|
      invariant total == Total(runs[..i]) && total <= registers
      invariant InFile(runs[..i])
    {
      var r := runs[i];
      assert runs[..i + 1] == runs[..i] + [r];
      TotalSnoc(runs[..i], r);
      TotalGrows(runs, i + 1);
      if r.first > 256 || r.count > 256 - r.first || total > registers || r.count > registers - total {
        assert r in runs;
        return false;
      }
      total := total + r.count;
    }
    assert runs[..|runs|] == runs;
    return total == registers;
  }

  lemma {:induction false} TotalGrows(runs: seq<Run>, i: nat)
    requires i <= |runs|
    ensures Total(runs[..i]) <= Total(runs)
    decreases |runs| - i
  {
    if i < |runs| {
      assert runs[..i + 1][..i] == runs[..i];
      TotalGrows(runs, i + 1);
    } else {
      assert runs[..i] == runs;
    }
  }

  class NativePixelConstantPacket {
    var bytes: Bytes

    constructor ()
      ensures bytes == []
    {
      bytes := [];
    }

    /** Refuses, leaving an empty packet, exactly when some byte could not be initialized. */
    method Build(p: Parts) returns (ok: bool)
      requires p.Sized()
      modifies this
      ensures ok <==> p.Buildable()
      ensures bytes == if ok then p.Packet() else []
      ensures ok ==> LaidOut(p, bytes)
    {
      hide RunsAddUp, FloatBytes, LaidOut;
      bytes := [];
      if p.explicitEmpty && (p.packed != 0 || p.runs != []) {
        return false;
      }
      var registers := NativeConstantRegisters(p.packed, p.explicitEmpty);
      if registers > 256 || p.swizzles.None? || p.samplers.None? {
        return false;
      }
      if p.source.Some? && p.runs != [] {
        var fits := CheckRuns(p.runs, registers);
        if !fits {
          return false;
        }
      }
      bytes := if p.bools.Some? then p.bools.value else seq(BOOL_BYTES, _ => 0);
      bytes := bytes + p.swizzles.value + p.samplers.value;
      var floats := FillFloats(p.source, if p.source.Some? then p.runs else [], registers);
      bytes := bytes + floats;
      PacketLaidOut(p);
      return true;
    }
  }

  /** The copying loop. */
  method FillFloats(source: Option<Bytes>, runs: seq<Run>, registers: nat) returns (floats: Bytes)
    requires source.Some? ==> |source.value| == 256 * REGISTER_BYTES
    requires registers <= 256 && (runs != [] ==> source.Some? && RunsAddUp(runs, registers))
    ensures floats == FloatBytes(source, runs, registers)
  {
    hide Total;
    if registers == 0 {
      return [];
    }
    if source.None? {
      return seq(registers * REGISTER_BYTES, _ => 0);
    }
    if runs == [] {
      return source.value[..registers * REGISTER_BYTES];
    }
    floats := [];
    for i := 0 to |runs|
      invariant InFile(runs[..i]) && floats == Copied(source.value, runs[..i])
    {
      var r := runs[i];
      assert r in runs && runs[..i + 1][..i] == runs[..i];
      floats := floats + RegisterSpan(source.value, r.first, r.first + r.count);
    }
    assert runs[..|runs|] == runs;
  }

  // ----- end to end -----

  /**
   From the registers a shader reads to the bytes it reads them from: the side file is accepted, the packet is
   built, and the packed number of every register read finds that register's bytes.
   */
  lemma RegistersArrive(used: seq<nat>, runs: seq<Span>, mapping: map<nat, nat>, source: Bytes, i: nat)
    requires GoodRuns(used, runs) && Numbers(mapping, runs) && |source| == 256 * REGISTER_BYTES
    requires i in used && forall x | x in used :: x < 256
    ensures ParseFrom(Printed(runs), [], 0) == Some(ToRuns(runs)) && ToRuns(runs) != []
    ensures var registers := NativeConstantRegisters(Total(ToRuns(runs)), false);
            && RunsAddUp(ToRuns(runs), registers) && registers <= 256
            && var floats := FloatBytes(Some(source), ToRuns(runs), registers);
               && i in mapping && |floats| == registers * REGISTER_BYTES && mapping[i] < registers
               && RegisterAt(floats, mapping[i]) == RegisterAt(source, i)
  {
    hide Printed, ParseFrom, Copied, Tight, Wide, Narrow;
    AcceptedIffBelow256(used, runs);
    UsedAreNumbered(used, runs, mapping, i);
    assert Below256(runs);
    CopiedAt(source, runs, mapping[i]);
    TotalIsFlat(runs);
    FlatFits(runs);
  }

  /**
   The same down to the packet: of the packet built for a draw, byte `j` of the packed register is byte `j` of the
   guest register.
   */
  lemma RegistersInPacket(used: seq<nat>, runs: seq<Span>, mapping: map<nat, nat>, p: Parts, i: nat, j: nat)
    requires GoodRuns(used, runs) && Numbers(mapping, runs) && i in used && forall x | x in used :: x < 256
    requires p.Sized() && p.swizzles.Some? && p.samplers.Some? && p.source.Some? && j < 16
    requires Separated(runs) && p.runs == ToRuns(runs) && p.packed == Total(p.runs) && !p.explicitEmpty
    ensures p.Buildable() && i in mapping
    ensures var at := 192 + 16 * mapping[i] + j; at < |p.Packet()| && p.Packet()[at] == p.source.value[16 * i + j]
  {
    hide GoodRuns, Numbers, Separated, ToRuns, Printed, ParseFrom, Copied, Total, FloatBytes, RegisterAt, Parts.Packet;
    RegistersArrive(used, runs, mapping, p.source.value, i);
    FloatsBehind(p);
    var floats := FloatBytes(p.source, p.runs, NativeConstantRegisters(p.packed, p.explicitEmpty));
    SameRegisterByte(p.Packet(), floats, p.source.value, mapping[i], i, j);
  }

  lemma SameRegisterByte(packet: Bytes, floats: Bytes, source: Bytes, k: nat, i: nat, j: nat)
    requires |packet| >= 192 && packet[192..] == floats && j < 16
    requires (k + 1) * REGISTER_BYTES <= |floats| && (i + 1) * REGISTER_BYTES <= |source|
    requires RegisterAt(floats, k) == RegisterAt(source, i)
    ensures 192 + 16 * k + j < |packet| && 16 * i + j < |source| && packet[192 + 16 * k + j] == source[16 * i + j]
  {
    hide RegisterAt;
    ByteOfRegister(floats, k, j);
    ByteOfRegister(source, i, j);
    assert packet[192..][16 * k + j] == packet[192 + 16 * k + j];
  }

  lemma FloatsBehind(p: Parts)
    requires p.Sized() && p.Buildable()
    ensures |p.Packet()| >= 192
    ensures p.source.Some? ==>
              p.Packet()[192..] == FloatBytes(p.source, p.runs, NativeConstantRegisters(p.packed, p.explicitEmpty))
  {
    hide FloatBytes;
  }

  lemma ByteOfRegister(bytes: Bytes, k: nat, j: nat)
    requires (k + 1) * REGISTER_BYTES <= |bytes| && j < 16
    ensures 16 * k + j < |bytes| && bytes[16 * k + j] == RegisterAt(bytes, k)[j]
  {}

  lemma {:induction false} TotalIsFlat(runs: seq<Span>)
    requires Separated(runs)
    ensures Total(ToRuns(runs)) == |Flat(runs)|
  {
    if runs != [] {
      var n := |runs| - 1;
      TotalIsFlat(runs[..n]);
      assert ToRuns(runs)[..n] == ToRuns(runs[..n]);
    }
  }

  lemma {:induction false} FlatFits(runs: seq<Span>)
    requires Separated(runs)
    ensures runs != [] ==> |Flat(runs)| <= runs[|runs| - 1].last + 1
  {
    if runs != [] {
      FlatFits(runs[..|runs| - 1]);
    }
  }

  /** With absolute numbering the one printed span is read back, and every register keeps its own place. */
  lemma AbsoluteArrives(source: Bytes, i: nat)
    requires |source| == 256 * REGISTER_BYTES && i < 256
    ensures ParseFrom(Printed([Span(0, 255)]), [], 0) == Some([Run(0, 256)])
    ensures RunsAddUp([Run(0, 256)], NativeConstantRegisters(Total([Run(0, 256)]), false))
    ensures FloatBytes(Some(source), [Run(0, 256)], NativeConstantRegisters(Total([Run(0, 256)]), false)) == source
  {
    hide Printed, ParseFrom, FloatBytes, Total;
    ParseBack([Span(0, 255)], [], 0);
    assert [] + ToRuns([Span(0, 255)]) == [Run(0, 256)];
    WholeTotal();
    WholeCopy(source);
  }

  lemma WholeTotal()
    ensures Total([Run(0, 256)]) == 256
  {
    assert [Run(0, 256)][..0] == [];
  }

  lemma WholeCopy(source: Bytes)
    requires |source| == 256 * REGISTER_BYTES
    ensures FloatBytes(Some(source), [Run(0, 256)], 256) == source
  {
    assert [Run(0, 256)][..0] == [];
    assert Copied(source, []) == [];
    assert source[0..256 * REGISTER_BYTES] == source && [] + source == source;
  }

  lemma FirstIsUsed(used: seq<nat>, runs: seq<Span>)
    requires Spans(used, runs)
    ensures runs == [] || runs[0].first in used
  {}

  lemma NoFloats(source: Option<Bytes>)
    requires source.Some? ==> |source.value| == 256 * REGISTER_BYTES
    ensures FloatBytes(source, [], 0) == []
  {}

  /** A shader that reads no register prints an empty list, which is accepted and uploads no register. */
  lemma NothingToUpload(runs: seq<Span>, source: Option<Bytes>)
    requires GoodRuns([], runs) && (source.Some? ==> |source.value| == 256 * REGISTER_BYTES)
    ensures ParseFrom(Printed(runs), [], 0) == Some([])
    ensures FloatBytes(source, [], NativeConstantRegisters(Total([]), true)) == []
  {
    hide FloatBytes, Spans;
    FirstIsUsed([], runs);
    NoFloats(source);
  }

  // ----- a side file with both lines -----

  /** The bound and the spans are readable, and an empty span list comes with the bound of a shader that reads nothing. */
  predicate BothAccepted(consts: string, cruns: string) {
    var bound, parsed := Unsigned(consts), ParseFrom(cruns, [], 0);
    && bound.Some? && bound.value <= 256 && parsed.Some? && (parsed.value == [] ==> bound.value == 0)
  }

  /** Loads the two lines of one side file; the shader is refused when either is or when they contradict each other. */
  method ReadLines(consts: string, cruns: string) returns (ok: bool, bound: nat, packed: nat, runs: seq<Run>)
    ensures ok <==> BothAccepted(consts, cruns)
    ensures ok ==> bound == Unsigned(consts).value && runs == ParseFrom(cruns, [], 0).value && packed == Total(runs)
  {
    var layout := new NativeConstantLayoutMetadata();
    bound, packed, runs := 0, 0, [];
    ok := layout.SetUpperBound(consts);
    if !ok {
      return;
    }
    ok := layout.SetRuns(cruns);
    if !ok {
      return;
    }
    ok := layout.Valid();
    bound, packed, runs := layout.upperBound, layout.packedRegisters, layout.runs;
  }

  /** One past the highest register read; the registers come sorted. */
  function Bound(used: seq<nat>): nat {
    if used == [] then 0 else used[|used| - 1] + 1
  }

  /** What the translator writes about a shader is accepted exactly when all registers it reads are below 256. */
  lemma BothAcceptedIff(used: seq<nat>, runs: seq<Span>)
    requires Ascending(used) && GoodRuns(used, runs)
    ensures BothAccepted(Digits(Bound(used)), Printed(runs)) <==> forall x | x in used :: x < 256
  {
    hide Digits, Printed, ParseFrom, Unsigned, Wide, Narrow, Tight;
    AcceptedIffBelow256(used, runs);
    UnsignedBack(Bound(used));
    if used != [] {
      RunsNotEmpty(used, runs);
      BoundIsHighest(used);
    }
  }

  lemma BoundIsHighest(used: seq<nat>)
    requires Ascending(used) && used != []
    ensures Bound(used) <= 256 <==> forall x | x in used :: x < 256
  {
    assert used[|used| - 1] in used;
  }

  lemma RunsNotEmpty(used: seq<nat>, runs: seq<Span>)
    requires GoodRuns(used, runs) && used != []
    ensures Separated(runs) && ToRuns(runs) != []
  {
    hide Wide, Narrow, Tight;
    assert used[0] in used;
    assert Within(runs, used[0]);
  }

  // ----- reuse of the last upload -----

  /** What the cache holds: the frame, bytes and address of the upload it vouches for, and a packet being built. */
  datatype Upload = Upload(frame: nat, bytes: Bytes, address: nat)

  class NativePixelConstantReuse {
    var packets: seq<Bytes>
    var active: nat
    var frame: nat
    var address: nat
    var valid: bool
    var candidateValid: bool

    ghost predicate Valid()
      reads this
    {
      |packets| == 2 && active < 2
    }

    ghost function Published(): Option<Upload>
      requires Valid()
      reads this
    {
      if valid then Some(Upload(frame, packets[active], address)) else None
    }

    ghost function Candidate(): Option<Bytes>
      requires Valid()
      reads this
    {
      if candidateValid then Some(packets[1 - active]) else None
    }

    constructor ()
      ensures Valid() && Published() == None && Candidate() == None
    {
      packets, active, frame, address, valid, candidateValid := [[], []], 0, 0, 0, false, false;
    }

    /** The address of the published upload if it is of this frame and byte for byte the same; 0 otherwise. */
    method Find(now: nat, bytes: Bytes) returns (r: nat)
      requires Valid()
      ensures r == if Published().Some? && Published().value.frame == now && Published().value.bytes == bytes
                   then Published().value.address else 0
    {
      return if valid && now == frame && bytes == packets[active] then address else 0;
    }

    method Publish(now: nat, bytes: Bytes, where: nat) returns (ok: bool)
      requires Valid()
      modifies this
      ensures Valid() && (ok <==> where != 0 && 0 < |bytes| <= CAPACITY)
      ensures ok ==> Published() == Some(Upload(now, bytes, where)) && Candidate() == None
      ensures !ok ==> Published() == old(Published()) && Candidate() == old(Candidate())
    {
      if where == 0 || bytes == [] || |bytes| > CAPACITY {
        return false;
      }
      packets := packets[active := bytes];
      frame, address, valid, candidateValid := now, where, true, false;
      return true;
    }

    /** Building, or failing to build, never touches what is published. */
    method BuildCandidate(p: Parts) returns (ok: bool)
      requires Valid() && p.Sized()
      modifies this
      ensures Valid() && Published() == old(Published()) && (ok <==> p.Buildable())
      ensures Candidate() == if ok then Some(p.Packet()) else None
    {
      var packet := new NativePixelConstantPacket();
      ok := packet.Build(p);
      packets := packets[1 - active := packet.bytes];
      candidateValid := ok;
    }

    /** Publishes the candidate by changing sides, without copying it. */
    method PublishCandidate(now: nat, where: nat) returns (ok: bool)
      requires Valid()
      modifies this
      ensures Valid() && (ok <==> where != 0 && old(Candidate()).Some?)
      ensures ok ==> Published() == Some(Upload(now, old(Candidate()).value, where)) && Candidate() == None
      ensures !ok ==> Published() == old(Published()) && Candidate() == old(Candidate())
    {
      if where == 0 || !candidateValid {
        return false;
      }
      active := 1 - active;
      frame, address, valid, candidateValid := now, where, true, false;
      return true;
    }

    method Reset()
      requires Valid()
      modifies this
      ensures Valid() && Published() == None && Candidate() == None
    {
      valid, candidateValid := false, false;
    }
  }
}
