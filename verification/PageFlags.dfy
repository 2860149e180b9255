/**
 The page flag vectors of shared memory and the lock-free mirror of the valid ones, and the
 critical sections that change them, written as lists of single word updates
 (src/gpu/vendored/src/graphics/shared_memory.cpp,
 src/gpu/native/native_shared_residency_mirror.h).

 A lock-free reader can look at the mirror between any two updates of a list.
 */
module PageFlags {

  import opened Bits

  /** `valid`, and the valid pages last written by the GPU, change under the lock; the mirror is read without it. */
  datatype Flags = Flags(valid: seq<bv64>, written: seq<bv64>, mirror: seq<bv64>, enabled: bool) {
    predicate Sized(n: nat) { |valid| == |written| == |mirror| == n }
  }

  /** One store, or one atomic read-modify-write, of one word. */
  datatype Update =
    | ClearMirror(i: nat, mask: bv64)
    | Promote(i: nat, mask: bv64)
    | OrValid(i: nat, mask: bv64)
    | ClearValid(i: nat, mask: bv64)
    | CopyWritten(i: nat)
    | OrWritten(i: nat, mask: bv64)
    | ClearWritten(i: nat, mask: bv64)
    | DisableMirror

  predicate InRange(u: Update, n: nat) {
    u.DisableMirror? || u.i < n
  }

  function Clear(words: seq<bv64>, i: nat, mask: bv64): seq<bv64>
    requires i < |words|
  {
    words[i := And(words[i], Not(mask))]
  }

  function Raise(words: seq<bv64>, i: nat, mask: bv64): seq<bv64>
    requires i < |words|
  {
    words[i := Or(words[i], mask)]
  }

  /** Promotion takes only the bits that are valid now, and nothing once the mirror is disabled. */
  function Apply(f: Flags, u: Update): (r: Flags)
    requires f.Sized(|f.valid|) && InRange(u, |f.valid|)
    ensures r.Sized(|f.valid|)
  {
    match u
    case ClearMirror(i, mask) => f.(mirror := Clear(f.mirror, i, mask))
    case Promote(i, mask) => if f.enabled then f.(mirror := Raise(f.mirror, i, And(f.valid[i], mask))) else f
    case OrValid(i, mask) => f.(valid := Raise(f.valid, i, mask))
    case ClearValid(i, mask) => f.(valid := Clear(f.valid, i, mask))
    case CopyWritten(i) => f.(valid := f.valid[i := f.written[i]])
    case OrWritten(i, mask) => f.(written := Raise(f.written, i, mask))
    case ClearWritten(i, mask) => f.(written := Clear(f.written, i, mask))
    case DisableMirror => f.(enabled := false)
  }

  predicate AllInRange(us: seq<Update>, n: nat) {
    forall u | u in us :: InRange(u, n)
  }

  function Execute(f: Flags, us: seq<Update>): (r: Flags)
    requires f.Sized(|f.valid|) && AllInRange(us, |f.valid|)
    ensures r.Sized(|f.valid|)
    decreases |us|
  {
    if us == [] then f else Execute(Apply(f, us[0]), us[1..])
  }

  lemma {:induction false} ExecuteConcat(f: Flags, a: seq<Update>, b: seq<Update>)
    requires f.Sized(|f.valid|) && AllInRange(a, |f.valid|) && AllInRange(b, |f.valid|)
    ensures AllInRange(a + b, |f.valid|) && Execute(f, a + b) == Execute(Execute(f, a), b)
    decreases |a|
  {
    if a == [] {
      assert a + b == b;
    } else {
      assert (a + b)[1..] == a[1..] + b;
      ExecuteConcat(Apply(f, a[0]), a[1..], b);
    }
  }

  // ----- the critical sections -----

  function ValidateWord(i: nat, mask: bv64, byGpu: bool): seq<Update> {
    [ClearMirror(i, mask), OrValid(i, mask), if byGpu then OrWritten(i, mask) else ClearWritten(i, mask)]
  }

  function InvalidateWord(i: nat, mask: bv64): seq<Update> {
    [ClearMirror(i, mask), ClearValid(i, mask), ClearWritten(i, mask)]
  }

  /** The update lists, word by word up to word `i`; the mirror bits go first. */
  function ValidatingTo(i: nat, first: nat, last: nat, byGpu: bool): (r: seq<Update>)
    requires first <= last && first / 64 <= i <= last / 64 + 1
    ensures AllInRange(r, i)
    decreases i
  {
    if i == first / 64 then []
    else
      ValidatingTo(i - 1, first, last, byGpu) + ValidateWord(i - 1, SpanMask(i - 1, first, last), byGpu)
  }

  function InvalidatingTo(i: nat, first: nat, last: nat): (r: seq<Update>)
    requires first <= last && first / 64 <= i <= last / 64 + 1
    ensures AllInRange(r, i)
    decreases i
  {
    if i == first / 64 then []
    else
      InvalidatingTo(i - 1, first, last) + InvalidateWord(i - 1, SpanMask(i - 1, first, last))
  }

  function MirrorZeros(n: nat): (r: seq<Update>)
    ensures AllInRange(r, n)
  {
    if n == 0 then [] else MirrorZeros(n - 1) + [ClearMirror(n - 1, ALL)]
  }

  function ValidZeros(n: nat): (r: seq<Update>)
    ensures AllInRange(r, n)
  {
    if n == 0 then [] else ValidZeros(n - 1) + [ClearValid(n - 1, ALL)]
  }

  function WrittenZeros(n: nat): (r: seq<Update>)
    ensures AllInRange(r, n)
  {
    if n == 0 then [] else WrittenZeros(n - 1) + [ClearWritten(n - 1, ALL)]
  }

  function WrittenCopies(n: nat): (r: seq<Update>)
    ensures AllInRange(r, n)
  {
    if n == 0 then [] else WrittenCopies(n - 1) + [CopyWritten(n - 1)]
  }

  /** What a thread may do while it holds the lock. */
  datatype Section =
    | MakeValid(first: nat, last: nat, byGpu: bool)
    | Invalidate(first: nat, last: nat)
    | InvalidateAll
    | FrameSweep
    | ResetMirror
    | Disable
    | PromoteWord(word: nat, requested: bv64)

  predicate Fits(s: Section, n: nat) {
    match s
    case MakeValid(first, last, _) => first <= last < 64 * n
    case Invalidate(first, last) => first <= last < 64 * n
    case PromoteWord(word, _) => word < n
    case _ => true
  }

  function Script(s: Section, n: nat): (r: seq<Update>)
    requires Fits(s, n)
    ensures AllInRange(r, n)
  {
    match s
    case MakeValid(first, last, byGpu) => ValidatingTo(last / 64 + 1, first, last, byGpu)
    case Invalidate(first, last) => InvalidatingTo(last / 64 + 1, first, last)
    case InvalidateAll => MirrorZeros(n) + (ValidZeros(n) + WrittenZeros(n))
    case FrameSweep => MirrorZeros(n) + WrittenCopies(n)
    case ResetMirror => MirrorZeros(n)
    case Disable => [DisableMirror] + MirrorZeros(n)
    case PromoteWord(word, requested) => [Promote(word, requested)]
  }

  // ----- what every update keeps -----

  predicate WordIn(a: bv64, b: bv64) {
    forall k | 0 <= k < 64 :: Bit(a, k) ==> Bit(b, k)
  }

  ghost predicate Inside(a: seq<bv64>, b: seq<bv64>)
    requires |a| == |b|
  {
    forall i | 0 <= i < |a| :: WordIn(a[i], b[i])
  }

  /** Every mirrored page and every GPU-written page is valid. */
  ghost predicate Consistent(f: Flags) {
    f.Sized(|f.valid|) && Inside(f.mirror, f.valid) && Inside(f.written, f.valid)
  }

  /** Between all the updates still to come the mirror stays inside the valid pages, and all is consistent at the end. */
  ghost predicate Steady(f: Flags, us: seq<Update>)
    requires f.Sized(|f.valid|) && AllInRange(us, |f.valid|)
    decreases |us|
  {
    Inside(f.mirror, f.valid)
    && if us == [] then Consistent(f) else Steady(Apply(f, us[0]), us[1..])
  }

  /** Like Steady, without asking anything of the GPU-written pages at the end. */
  ghost predicate Covered(f: Flags, us: seq<Update>)
    requires f.Sized(|f.valid|) && AllInRange(us, |f.valid|)
    decreases |us|
  {
    Inside(f.mirror, f.valid) && (us != [] ==> Covered(Apply(f, us[0]), us[1..]))
  }

  lemma {:induction false} CoveredConcat(f: Flags, a: seq<Update>, b: seq<Update>)
    requires f.Sized(|f.valid|) && AllInRange(a, |f.valid|) && AllInRange(b, |f.valid|)
    requires Covered(f, a) && Covered(Execute(f, a), b)
    ensures AllInRange(a + b, |f.valid|) && Covered(f, a + b)
    decreases |a|
  {
    if a == [] {
      assert a + b == b;
    } else {
      assert (a + b)[1..] == a[1..] + b;
      CoveredConcat(Apply(f, a[0]), a[1..], b);
    }
  }

  lemma {:induction false} SteadyFromCovered(f: Flags, us: seq<Update>)
    requires f.Sized(|f.valid|) && AllInRange(us, |f.valid|)
    requires Covered(f, us) && Consistent(Execute(f, us))
    ensures Steady(f, us)
    decreases |us|
  {
    if us != [] {
      SteadyFromCovered(Apply(f, us[0]), us[1..]);
    }
  }

  lemma CoveredThree(f: Flags, u: Update, v: Update, w: Update)
    requires f.Sized(|f.valid|) && InRange(u, |f.valid|) && InRange(v, |f.valid|) && InRange(w, |f.valid|)
    requires Inside(f.mirror, f.valid) && Inside(Apply(f, u).mirror, Apply(f, u).valid)
    requires Inside(Apply(Apply(f, u), v).mirror, Apply(Apply(f, u), v).valid)
    requires Inside(Apply(Apply(Apply(f, u), v), w).mirror, Apply(Apply(Apply(f, u), v), w).valid)
    ensures Covered(f, [u, v, w]) && Execute(f, [u, v, w]) == Apply(Apply(Apply(f, u), v), w)
  {
    hide Inside, Apply;
    assert [u, v, w][1..] == [v, w] && [v, w][1..] == [w] && [w][1..] == [];
    var f1 := Apply(f, u);
    var f2 := Apply(f1, v);
    var f3 := Apply(f2, w);
    assert Covered(f3, []) && Execute(f3, []) == f3;
    assert Covered(f2, [w]) && Execute(f2, [w]) == f3;
    assert Covered(f1, [v, w]) && Execute(f1, [v, w]) == f3;
  }

  /** The list can run from here, and leaves everything consistent. */
  ghost predicate Safe(f: Flags, us: seq<Update>) {
    && f.Sized(|f.valid|) && AllInRange(us, |f.valid|) && Covered(f, us) && Consistent(Execute(f, us))
  }

  lemma SafeConcat(f: Flags, a: seq<Update>, b: seq<Update>)
    requires Safe(f, a) && AllInRange(b, |f.valid|) && Safe(Execute(f, a), b)
    ensures Safe(f, a + b)
  {
    hide Consistent, Covered, Execute;
    CoveredConcat(f, a, b);
    ExecuteConcat(f, a, b);
  }

  lemma ChangedWord(a: seq<bv64>, b: seq<bv64>, i: nat, x: bv64, y: bv64)
    requires |a| == |b| && i < |a| && Inside(a, b) && WordIn(x, y)
    ensures Inside(a[i := x], b[i := y])
  {
    hide WordIn;
  }

  lemma MaskedWords(m: bv64, v: bv64, mask: bv64)
    requires WordIn(m, v)
    ensures WordIn(And(m, Not(mask)), v) && WordIn(And(m, Not(mask)), And(v, Not(mask)))
    ensures WordIn(And(m, Not(mask)), Or(v, mask)) && WordIn(Or(m, mask), Or(v, mask))
  {
    hide Bit, And, Or, Not;
  }

  lemma ClearedInside(a: seq<bv64>, b: seq<bv64>, i: nat, mask: bv64)
    requires |a| == |b| && i < |a| && Inside(a, b)
    ensures Inside(Clear(a, i, mask), b) && Inside(Clear(a, i, mask), Clear(b, i, mask))
    ensures Inside(Clear(a, i, mask), Raise(b, i, mask)) && Inside(Raise(a, i, mask), Raise(b, i, mask))
  {
    MaskedWords(a[i], b[i], mask);
    hide WordIn, And, Or, Not;
    assert b[i := b[i]] == b;
    ChangedWord(a, b, i, And(a[i], Not(mask)), b[i]);
    ChangedWord(a, b, i, And(a[i], Not(mask)), And(b[i], Not(mask)));
    ChangedWord(a, b, i, And(a[i], Not(mask)), Or(b[i], mask));
    ChangedWord(a, b, i, Or(a[i], mask), Or(b[i], mask));
  }

  lemma ValidateWordSafe(f: Flags, i: nat, mask: bv64, byGpu: bool)
    requires Consistent(f) && i < |f.valid|
    ensures Safe(f, ValidateWord(i, mask, byGpu))
  {
    hide Inside, Clear, Raise;
    ClearedInside(f.mirror, f.valid, i, mask);
    ClearedInside(f.written, f.valid, i, mask);
    CoveredThree(f, ClearMirror(i, mask), OrValid(i, mask), if byGpu then OrWritten(i, mask) else ClearWritten(i, mask));
  }

  lemma InvalidateWordSafe(f: Flags, i: nat, mask: bv64)
    requires Consistent(f) && i < |f.valid|
    ensures Safe(f, InvalidateWord(i, mask))
  {
    hide Inside, Clear, Raise;
    ClearedInside(f.mirror, f.valid, i, mask);
    ClearedInside(f.written, f.valid, i, mask);
    CoveredThree(f, ClearMirror(i, mask), ClearValid(i, mask), ClearWritten(i, mask));
  }

  lemma ValidatingNext(i: nat, first: nat, last: nat, byGpu: bool)
    requires first <= last && first / 64 < i <= last / 64 + 1
    ensures ValidatingTo(i, first, last, byGpu)
            == ValidatingTo(i - 1, first, last, byGpu) + ValidateWord(i - 1, SpanMask(i - 1, first, last), byGpu)
  {
    hide SpanMask, ValidateWord;
  }

  lemma InvalidatingNext(i: nat, first: nat, last: nat)
    requires first <= last && first / 64 < i <= last / 64 + 1
    ensures InvalidatingTo(i, first, last)
            == InvalidatingTo(i - 1, first, last) + InvalidateWord(i - 1, SpanMask(i - 1, first, last))
  {
    hide SpanMask, InvalidateWord;
  }

  lemma {:induction false} ValidatingSafe(f: Flags, i: nat, first: nat, last: nat, byGpu: bool)
    requires Consistent(f) && first <= last && first / 64 <= i <= last / 64 + 1 && i <= |f.valid|
    ensures Safe(f, ValidatingTo(i, first, last, byGpu))
    decreases i
  {
    hide *;
    if i > first / 64 {
      ValidatingNext(i, first, last, byGpu);
      ValidatingSafe(f, i - 1, first, last, byGpu);
      OneMoreValidated(f, ValidatingTo(i - 1, first, last, byGpu), i - 1, SpanMask(i - 1, first, last), byGpu);
    } else {
      NothingToDo(f, first, last, byGpu);
    }
  }

  lemma NothingToDo(f: Flags, first: nat, last: nat, byGpu: bool)
    requires Consistent(f) && first <= last
    ensures Safe(f, ValidatingTo(first / 64, first, last, byGpu)) && Safe(f, InvalidatingTo(first / 64, first, last))
  {
    hide SpanMask;
  }

  lemma OneMoreValidated(f: Flags, done: seq<Update>, i: nat, mask: bv64, byGpu: bool)
    requires Safe(f, done) && i < |f.valid|
    ensures Safe(f, done + ValidateWord(i, mask, byGpu))
  {
    hide Consistent, Covered, Execute;
    ValidateWordSafe(Execute(f, done), i, mask, byGpu);
    SafeConcat(f, done, ValidateWord(i, mask, byGpu));
  }

  lemma OneMoreInvalidated(f: Flags, done: seq<Update>, i: nat, mask: bv64)
    requires Safe(f, done) && i < |f.valid|
    ensures Safe(f, done + InvalidateWord(i, mask))
  {
    hide Consistent, Covered, Execute;
    InvalidateWordSafe(Execute(f, done), i, mask);
    SafeConcat(f, done, InvalidateWord(i, mask));
  }

  lemma {:induction false} InvalidatingSafe(f: Flags, i: nat, first: nat, last: nat)
    requires Consistent(f) && first <= last && first / 64 <= i <= last / 64 + 1 && i <= |f.valid|
    ensures Safe(f, InvalidatingTo(i, first, last))
    decreases i
  {
    hide *;
    if i > first / 64 {
      InvalidatingNext(i, first, last);
      InvalidatingSafe(f, i - 1, first, last);
      OneMoreInvalidated(f, InvalidatingTo(i - 1, first, last), i - 1, SpanMask(i - 1, first, last));
    } else {
      NothingToDo(f, first, last, false);
    }
  }

  // ----- the whole-vector sections -----

  ghost predicate ZeroTo(words: seq<bv64>, n: nat) {
    forall i | 0 <= i < n && i < |words| :: WordIn(words[i], 0)
  }

  lemma ZeroInside(a: seq<bv64>, b: seq<bv64>)
    requires |a| == |b| && ZeroTo(a, |a|)
    ensures Inside(a, b)
  {
    ZeroBits();
  }

  lemma ClearedWord(words: seq<bv64>, i: nat)
    requires i < |words| && ZeroTo(words, i)
    ensures ZeroTo(Clear(words, i, ALL), i + 1)
  {
    AllBits();
  }

  lemma CoveredOne(f: Flags, u: Update)
    requires f.Sized(|f.valid|) && InRange(u, |f.valid|)
    requires Inside(f.mirror, f.valid) && Inside(Apply(f, u).mirror, Apply(f, u).valid)
    ensures Covered(f, [u]) && Execute(f, [u]) == Apply(f, u)
  {
    hide Inside, Apply;
    assert [u][1..] == [];
    assert Covered(Apply(f, u), []) && Execute(Apply(f, u), []) == Apply(f, u);
  }

  lemma Snoc(f: Flags, us: seq<Update>, u: Update)
    requires f.Sized(|f.valid|) && AllInRange(us, |f.valid|) && InRange(u, |f.valid|) && Covered(f, us)
    requires var g := Apply(Execute(f, us), u); Inside(g.mirror, g.valid)
    ensures AllInRange(us + [u], |f.valid|) && Covered(f, us + [u]) && Execute(f, us + [u]) == Apply(Execute(f, us), u)
  {
    hide Apply, Inside;
    CoveredEnd(f, us);
    CoveredOne(Execute(f, us), u);
    CoveredConcat(f, us, [u]);
    ExecuteConcat(f, us, [u]);
  }

  lemma {:induction false} CoveredEnd(f: Flags, us: seq<Update>)
    requires f.Sized(|f.valid|) && AllInRange(us, |f.valid|) && Covered(f, us)
    ensures Inside(Execute(f, us).mirror, Execute(f, us).valid)
    decreases |us|
  {
    if us != [] { CoveredEnd(Apply(f, us[0]), us[1..]); }
  }

  /** Before the first update. */
  lemma NothingDone(f: Flags)
    requires f.Sized(|f.valid|) && Inside(f.mirror, f.valid)
    ensures Covered(f, []) && Execute(f, []) == f
    ensures ZeroTo(f.mirror, 0) && ZeroTo(f.valid, 0) && ZeroTo(f.written, 0)
  {}

  lemma {:induction false} MirrorZerosDone(f: Flags, n: nat)
    requires Consistent(f) && n <= |f.valid|
    ensures Covered(f, MirrorZeros(n)) && ZeroTo(Execute(f, MirrorZeros(n)).mirror, n)
    ensures Execute(f, MirrorZeros(n)) == f.(mirror := Execute(f, MirrorZeros(n)).mirror)
  {
    hide Execute, Covered, And, Not, WordIn, ZeroTo, Inside, Clear;
    if n == 0 {
      NothingDone(f);
    } else {
      MirrorZerosDone(f, n - 1);
      var before := Execute(f, MirrorZeros(n - 1));
      CoveredEnd(f, MirrorZeros(n - 1));
      ClearedWord(before.mirror, n - 1);
      ClearedInside(before.mirror, f.valid, n - 1, ALL);
      Snoc(f, MirrorZeros(n - 1), ClearMirror(n - 1, ALL));
    }
  }

  lemma {:induction false} ValidZerosDone(f: Flags, n: nat)
    requires f.Sized(|f.valid|) && ZeroTo(f.mirror, |f.valid|) && n <= |f.valid|
    ensures Covered(f, ValidZeros(n)) && ZeroTo(Execute(f, ValidZeros(n)).valid, n)
    ensures Execute(f, ValidZeros(n)) == f.(valid := Execute(f, ValidZeros(n)).valid)
  {
    hide Execute, Covered, And, Not, WordIn, ZeroTo, Inside;
    ZeroInside(f.mirror, f.valid);
    if n == 0 {
      NothingDone(f);
    } else {
      ValidZerosDone(f, n - 1);
      var before := Execute(f, ValidZeros(n - 1));
      ClearedWord(before.valid, n - 1);
      ZeroInside(f.mirror, Clear(before.valid, n - 1, ALL));
      Snoc(f, ValidZeros(n - 1), ClearValid(n - 1, ALL));
    }
  }

  lemma {:induction false} WrittenZerosDone(f: Flags, n: nat)
    requires f.Sized(|f.valid|) && ZeroTo(f.mirror, |f.valid|) && n <= |f.valid|
    ensures Covered(f, WrittenZeros(n)) && ZeroTo(Execute(f, WrittenZeros(n)).written, n)
    ensures Execute(f, WrittenZeros(n)) == f.(written := Execute(f, WrittenZeros(n)).written)
  {
    hide Execute, Covered, And, Not, WordIn, ZeroTo, Inside, Clear;
    ZeroInside(f.mirror, f.valid);
    if n == 0 {
      NothingDone(f);
    } else {
      WrittenZerosDone(f, n - 1);
      var before := Execute(f, WrittenZeros(n - 1));
      ClearedWord(before.written, n - 1);
      Snoc(f, WrittenZeros(n - 1), ClearWritten(n - 1, ALL));
    }
  }

  /** The valid vector after its first `n` words were overwritten. */
  function CopiedTo(f: Flags, n: nat): Flags
    requires f.Sized(|f.valid|) && n <= |f.valid|
  {
    f.(valid := f.written[..n] + f.valid[n..])
  }

  lemma {:induction false} WrittenCopiesDone(f: Flags, n: nat)
    requires f.Sized(|f.valid|) && ZeroTo(f.mirror, |f.valid|) && n <= |f.valid|
    ensures Covered(f, WrittenCopies(n))
    ensures Execute(f, WrittenCopies(n)) == CopiedTo(f, n)
  {
    hide Execute, Covered, And, Not, WordIn, ZeroTo, Inside, Apply, CopiedTo;
    if n == 0 {
      NothingCopied(f);
    } else {
      WrittenCopiesDone(f, n - 1);
      NextCopy(f, n - 1);
      Snoc(f, WrittenCopies(n - 1), CopyWritten(n - 1));
    }
  }

  lemma NothingCopied(f: Flags)
    requires f.Sized(|f.valid|) && ZeroTo(f.mirror, |f.valid|)
    ensures Covered(f, []) && Execute(f, []) == f == CopiedTo(f, 0)
  {
    ZeroInside(f.mirror, f.valid);
    assert f.valid == f.written[..0] + f.valid[0..];
  }

  lemma NextCopy(f: Flags, n: nat)
    requires f.Sized(|f.valid|) && ZeroTo(f.mirror, |f.valid|) && n < |f.valid|
    ensures CopiedTo(f, n).Sized(|f.valid|)
    ensures Apply(CopiedTo(f, n), CopyWritten(n)) == CopiedTo(f, n + 1)
    ensures Inside(CopiedTo(f, n + 1).mirror, CopiedTo(f, n + 1).valid)
  {
    hide And, Not, WordIn, ZeroTo, Inside;
    ZeroInside(f.mirror, f.written[..n + 1] + f.valid[n + 1..]);
  }

  /** What each whole-vector section leaves behind. */
  lemma InvalidateAllSafe(f: Flags)
    requires Consistent(f)
    ensures var n := |f.valid|; Safe(f, Script(InvalidateAll, n))
    ensures var g := Execute(f, Script(InvalidateAll, |f.valid|));
            ZeroTo(g.mirror, |f.valid|) && ZeroTo(g.valid, |f.valid|) && ZeroTo(g.written, |f.valid|)
  {
    var n := |f.valid|;
    MirrorZerosDone(f, n);
    var f1 := Execute(f, MirrorZeros(n));
    ValidZerosDone(f1, n);
    var f2 := Execute(f1, ValidZeros(n));
    WrittenZerosDone(f2, n);
    var f3 := Execute(f2, WrittenZeros(n));
    ZeroInside(f3.mirror, f3.valid);
    ZeroInside(f3.written, f3.valid);
    hide Covered, Execute;
    CoveredConcat(f1, ValidZeros(n), WrittenZeros(n));
    ExecuteConcat(f1, ValidZeros(n), WrittenZeros(n));
    CoveredConcat(f, MirrorZeros(n), ValidZeros(n) + WrittenZeros(n));
    ExecuteConcat(f, MirrorZeros(n), ValidZeros(n) + WrittenZeros(n));
  }

  lemma FrameSweepSafe(f: Flags)
    requires Consistent(f)
    ensures Safe(f, Script(FrameSweep, |f.valid|))
    ensures Execute(f, Script(FrameSweep, |f.valid|)).valid == f.written
            && Execute(f, Script(FrameSweep, |f.valid|)).written == f.written
            && ZeroTo(Execute(f, Script(FrameSweep, |f.valid|)).mirror, |f.valid|)
  {
    var n := |f.valid|;
    MirrorZerosDone(f, n);
    var f1 := Execute(f, MirrorZeros(n));
    WrittenCopiesDone(f1, n);
    var f2 := Execute(f1, WrittenCopies(n));
    assert f1.written[..n] + f1.valid[n..] == f.written;
    ZeroInside(f2.mirror, f2.valid);
    hide Covered, Execute;
    CoveredConcat(f, MirrorZeros(n), WrittenCopies(n));
    ExecuteConcat(f, MirrorZeros(n), WrittenCopies(n));
  }

  lemma MirrorSectionsSafe(f: Flags)
    requires Consistent(f)
    ensures Safe(f, Script(ResetMirror, |f.valid|)) && Safe(f, Script(Disable, |f.valid|))
  {
    var n := |f.valid|;
    MirrorZerosDone(f, n);
    ZeroInside(Execute(f, MirrorZeros(n)).mirror, f.valid);
    var off := f.(enabled := false);
    MirrorZerosDone(off, n);
    ZeroInside(Execute(off, MirrorZeros(n)).mirror, f.valid);
    hide Execute, Covered;
    CoveredOne(f, DisableMirror);
    CoveredConcat(f, [DisableMirror], MirrorZeros(n));
    ExecuteConcat(f, [DisableMirror], MirrorZeros(n));
  }

  lemma PromoteSafe(f: Flags, word: nat, requested: bv64)
    requires Consistent(f) && word < |f.valid|
    ensures Safe(f, Script(PromoteWord(word, requested), |f.valid|))
  {
    CoveredOne(f, Promote(word, requested));
  }

  /** Any section that starts from consistent flags keeps the mirror inside the valid pages at every single update. */
  lemma SectionSteady(f: Flags, s: Section)
    requires Consistent(f) && Fits(s, |f.valid|)
    ensures Steady(f, Script(s, |f.valid|))
  {
    hide Execute, Covered, Consistent, Safe, Steady, ValidatingTo, InvalidatingTo, MirrorZeros, ValidZeros, WrittenZeros,
         WrittenCopies;
    match s {
      case MakeValid(first, last, byGpu) => ValidatingSafe(f, last / 64 + 1, first, last, byGpu);
      case Invalidate(first, last) => InvalidatingSafe(f, last / 64 + 1, first, last);
      case InvalidateAll => InvalidateAllSafe(f);
      case FrameSweep => FrameSweepSafe(f);
      case ResetMirror => MirrorSectionsSafe(f);
      case Disable => MirrorSectionsSafe(f);
      case PromoteWord(word, requested) => PromoteSafe(f, word, requested);
    }
    SafeIsSteady(f, Script(s, |f.valid|));
  }

  lemma SafeIsSteady(f: Flags, us: seq<Update>)
    requires Safe(f, us)
    ensures Steady(f, us)
  {
    SteadyFromCovered(f, us);
  }
}
