/**
 Threads around the page flags: lock holders run their sections one update at a time, and the command
 thread may check a list of mirror words without the lock in between
 (src/gpu/native/native_shared_residency_mirror.h, `Contains`).

 Every load, store and read-modify-write is one step of a single order, as the sequentially consistent
 atomics of the mirror promise.
 */
module MirrorProtocol {

  import opened Bits
  import opened PageFlags

  /** One word of a check: the answer goes on only if all of the mask's bits are set in the mirror. */
  datatype Check = Check(word: nat, mask: bv64)

  /** `Begun` is a check that found the mirror in use and has read no word yet. */
  datatype Answer = Unasked | Begun | Reading | Hit | Miss

  /**
   `rest` is what the lock holder still has to do and `owner` whether it is the command thread. A check has
   `left` words to read; `atFirst` is what the flags were when it read its first word, which is later than its load
   of the disabled flag.
   */
  datatype System = System(flags: Flags, rest: seq<Update>, owner: bool,
                           answer: Answer, asked: seq<Check>, left: seq<Check>, atFirst: Flags)

  datatype Action =
    | Lock(section: Section, byOwner: bool)
    | NextUpdate
    | AskEnabled(checks: seq<Check>)
    | FirstRead
    | NextRead

  predicate Passes(f: Flags, c: Check)
    requires f.Sized(|f.valid|) && c.word < |f.valid|
  {
    And(f.mirror[c.word], c.mask) == c.mask
  }

  predicate ChecksFit(checks: seq<Check>, n: nat) {
    forall c | c in checks :: c.word < n
  }

  predicate Checking(s: System) {
    s.answer == Begun || s.answer == Reading
  }

  /** Only the command thread promotes, and it does not hold the lock while it checks. */
  ghost predicate Can(s: System, a: Action) {
    && s.flags.Sized(|s.flags.valid|) && AllInRange(s.rest, |s.flags.valid|)
    && match a
       case Lock(section, byOwner) =>
         s.rest == [] && Fits(section, |s.flags.valid|) && (section.PromoteWord? ==> byOwner)
         && (byOwner ==> !Checking(s))
       case NextUpdate => s.rest != []
       case AskEnabled(checks) =>
         !Checking(s) && !(s.rest != [] && s.owner) && checks != [] && ChecksFit(checks, |s.flags.valid|)
       case FirstRead => s.answer == Begun && s.asked != [] && ChecksFit(s.asked, |s.flags.valid|)
       case NextRead => s.answer == Reading && s.left != [] && ChecksFit(s.left, |s.flags.valid|)
  }

  function Read(s: System, checks: seq<Check>): System
    requires s.flags.Sized(|s.flags.valid|) && checks != [] && ChecksFit(checks, |s.flags.valid|)
  {
    if !Passes(s.flags, checks[0]) then s.(answer := Miss, left := [])
    else s.(answer := if |checks| == 1 then Hit else Reading, left := checks[1..])
  }

  function Step(s: System, a: Action): System
    requires Can(s, a)
  {
    match a
    case Lock(section, byOwner) => s.(rest := Script(section, |s.flags.valid|), owner := byOwner)
    case NextUpdate => s.(flags := Apply(s.flags, s.rest[0]), rest := s.rest[1..])
    case AskEnabled(checks) => s.(answer := if s.flags.enabled then Begun else Miss, asked := checks, left := [])
    case FirstRead => Read(s.(atFirst := s.flags), s.asked)
    case NextRead => Read(s, s.left)
  }

  /** The words of a check whose bits are all set. */
  ghost predicate Set(words: seq<bv64>, c: Check) {
    c.word < |words| && WordIn(c.mask, words[c.word])
  }

  /** What holds between any two steps of any two threads. */
  ghost predicate Inv(s: System) {
    && s.flags.Sized(|s.flags.valid|) && AllInRange(s.rest, |s.flags.valid|) && Steady(s.flags, s.rest)
    && (Checking(s) ==> NoPromotion(s.rest))
    && (s.answer == Begun ==> s.asked != [] && ChecksFit(s.asked, |s.flags.valid|))
    && (s.answer == Reading ==> Witnessed(s))
    && (s.answer == Hit ==> forall c | c in s.asked :: Set(s.atFirst.valid, c))
  }

  ghost predicate NoPromotion(us: seq<Update>) {
    forall u | u in us :: !u.Promote?
  }

  /** The mirror has only shrunk since the first read, and had then all of the bits read so far. */
  ghost predicate Witnessed(s: System)
    requires s.flags.Sized(|s.flags.valid|)
  {
    var n := |s.asked| - |s.left|;
    && s.left != [] && 0 <= n && s.left == s.asked[n..] && ChecksFit(s.asked, |s.flags.valid|)
    && |s.atFirst.mirror| == |s.atFirst.valid| == |s.flags.valid|
    && Inside(s.atFirst.mirror, s.atFirst.valid) && Inside(s.flags.mirror, s.atFirst.mirror)
    && forall c | c in s.asked[..n] :: Set(s.atFirst.mirror, c)
  }

  lemma PassesIff(f: Flags, c: Check)
    requires f.Sized(|f.valid|) && c.word < |f.valid|
    ensures Passes(f, c) <==> WordIn(c.mask, f.mirror[c.word])
  {
    if WordIn(c.mask, f.mirror[c.word]) {
      WordExt(And(f.mirror[c.word], c.mask), c.mask);
    }
  }

  lemma InsideSet(a: seq<bv64>, b: seq<bv64>, c: Check)
    requires |a| == |b| && Inside(a, b) && Set(a, c)
    ensures Set(b, c)
  {}

  /** Reading one more word of a check whose earlier words were all set at the first read. */
  lemma ReadKeeps(s: System, n: nat)
    requires s.flags.Sized(|s.flags.valid|) && AllInRange(s.rest, |s.flags.valid|) && Steady(s.flags, s.rest)
    requires n < |s.asked| && ChecksFit(s.asked, |s.flags.valid|) && NoPromotion(s.rest)
    requires |s.atFirst.mirror| == |s.atFirst.valid| == |s.flags.valid|
    requires Inside(s.atFirst.mirror, s.atFirst.valid) && Inside(s.flags.mirror, s.atFirst.mirror)
    requires forall c | c in s.asked[..n] :: Set(s.atFirst.mirror, c)
    requires ChecksFit(s.asked[n..], |s.flags.valid|)
    ensures Inv(Read(s, s.asked[n..]))
  {
    hide Inside, Steady, Set, WordIn;
    var c := s.asked[n];
    assert s.asked[n..][0] == c && c in s.asked;
    PassesIff(s.flags, c);
    if Passes(s.flags, c) {
      SetNow(s.flags.mirror, c);
      InsideSet(s.flags.mirror, s.atFirst.mirror, c);
      assert s.asked[..n + 1] == s.asked[..n] + [c];
      assert s.asked[n..][1..] == s.asked[n + 1..];
      if n + 1 == |s.asked| {
        forall d | d in s.asked ensures Set(s.atFirst.valid, d) {
          assert s.asked == s.asked[..n + 1];
          InsideSet(s.atFirst.mirror, s.atFirst.valid, d);
        }
      }
    }
  }

  lemma SetNow(words: seq<bv64>, c: Check)
    requires c.word < |words| && WordIn(c.mask, words[c.word])
    ensures Set(words, c)
  {}

  lemma UpdateKeeps(s: System)
    requires Inv(s) && s.rest != []
    ensures Inv(Step(s, NextUpdate))
  {
    hide Inside, Set;
    assert forall u | u in s.rest[1..] :: u in s.rest;
    if s.answer == Reading {
      MirrorShrinks(s.flags, s.rest[0]);
      InsideTransitive(Apply(s.flags, s.rest[0]).mirror, s.flags.mirror, s.atFirst.mirror);
    }
  }

  lemma MirrorShrinks(f: Flags, u: Update)
    requires f.Sized(|f.valid|) && InRange(u, |f.valid|) && !u.Promote?
    ensures Inside(Apply(f, u).mirror, f.mirror)
  {}

  lemma InsideTransitive(a: seq<bv64>, b: seq<bv64>, c: seq<bv64>)
    requires |a| == |b| == |c| && Inside(a, b) && Inside(b, c)
    ensures Inside(a, c)
  {
    forall i | 0 <= i < |a| ensures WordIn(a[i], c[i]) {
      assert WordIn(a[i], b[i]) && WordIn(b[i], c[i]);
    }
  }

  lemma InsideSelf(a: seq<bv64>)
    ensures Inside(a, a)
  {}

  lemma LockKeeps(s: System, section: Section, byOwner: bool)
    requires Inv(s) && Can(s, Lock(section, byOwner))
    ensures Inv(Step(s, Lock(section, byOwner)))
  {
    SteadyNow(s.flags, s.rest);
    hide Inside, Set, Steady, Script, Consistent, Witnessed, NoPromotion;
    SectionSteady(s.flags, section);
    if Checking(s) {
      ScriptPromotes(section, |s.flags.valid|);
    }
  }

  lemma ScriptPromotes(s: Section, n: nat)
    requires Fits(s, n) && !s.PromoteWord?
    ensures NoPromotion(Script(s, n))
  {
    hide NoPromotion, SpanMask, ValidatingTo, InvalidatingTo, MirrorZeros, ValidZeros, WrittenZeros, WrittenCopies;
    ZerosPromote(n);
    PromotesNone(ValidZeros(n), WrittenZeros(n));
    PromotesNone(MirrorZeros(n), ValidZeros(n) + WrittenZeros(n));
    PromotesNone(MirrorZeros(n), WrittenCopies(n));
    PromotesNone([DisableMirror], MirrorZeros(n));
    match s {
      case MakeValid(first, last, byGpu) => ValidatingPromotes(last / 64 + 1, first, last, byGpu);
      case Invalidate(first, last) => InvalidatingPromotes(last / 64 + 1, first, last);
      case _ =>
    }
  }

  lemma PromotesNone(a: seq<Update>, b: seq<Update>)
    ensures NoPromotion(a) && NoPromotion(b) ==> NoPromotion(a + b)
    ensures NoPromotion([DisableMirror])
  {}

  lemma {:induction false} ValidatingPromotes(i: nat, first: nat, last: nat, byGpu: bool)
    requires first <= last && first / 64 <= i <= last / 64 + 1
    ensures NoPromotion(ValidatingTo(i, first, last, byGpu))
    decreases i
  {
    hide SpanMask;
    if i > first / 64 {
      ValidatingPromotes(i - 1, first, last, byGpu);
    }
  }

  lemma {:induction false} InvalidatingPromotes(i: nat, first: nat, last: nat)
    requires first <= last && first / 64 <= i <= last / 64 + 1
    ensures NoPromotion(InvalidatingTo(i, first, last))
    decreases i
  {
    hide SpanMask;
    if i > first / 64 {
      InvalidatingPromotes(i - 1, first, last);
    }
  }

  lemma {:induction false} ZerosPromote(n: nat)
    ensures NoPromotion(MirrorZeros(n)) && NoPromotion(ValidZeros(n)) && NoPromotion(WrittenZeros(n))
    ensures NoPromotion(WrittenCopies(n))
  {
    if n > 0 { ZerosPromote(n - 1); }
  }

  lemma FirstReadKeeps(s: System)
    requires Inv(s) && Can(s, FirstRead)
    ensures Inv(Step(s, FirstRead))
  {
    hide Inside, Set;
    SteadyNow(s.flags, s.rest);
    InsideSelf(s.flags.mirror);
    assert s.asked[0..] == s.asked;
    ReadKeeps(s.(atFirst := s.flags), 0);
  }

  lemma SteadyNow(f: Flags, us: seq<Update>)
    requires f.Sized(|f.valid|) && AllInRange(us, |f.valid|) && Steady(f, us)
    ensures Inside(f.mirror, f.valid) && (us == [] ==> Consistent(f))
  {}

  /** A thread other than the command thread never has a promotion ahead of it. */
  ghost predicate Owned(s: System) {
    !s.owner ==> NoPromotion(s.rest)
  }

  lemma StepKeeps(s: System, a: Action)
    requires Inv(s) && Owned(s) && Can(s, a)
    ensures Inv(Step(s, a)) && Owned(Step(s, a))
  {
    hide Inside, Set, Steady, Apply;
    match a {
      case Lock(section, byOwner) =>
        LockKeeps(s, section, byOwner);
        if !byOwner { ScriptPromotes(section, |s.flags.valid|); }
      case NextUpdate => UpdateKeeps(s);
      case AskEnabled(checks) => assert s.rest != [] ==> NoPromotion(s.rest);
      case FirstRead => FirstReadKeeps(s);
      case NextRead => ReadKeeps(s, |s.asked| - |s.left|);
    }
  }

  ghost predicate Legal(s: System, actions: seq<Action>)
    decreases |actions|
  {
    actions == [] || (Can(s, actions[0]) && Legal(Step(s, actions[0]), actions[1..]))
  }

  function Run(s: System, actions: seq<Action>): System
    requires Legal(s, actions)
    decreases |actions|
  {
    if actions == [] then s else Run(Step(s, actions[0]), actions[1..])
  }

  ghost predicate Initial(s: System) {
    Consistent(s.flags) && s.rest == [] && s.answer == Unasked
  }

  lemma {:induction false} RunKeeps(s: System, actions: seq<Action>)
    requires Inv(s) && Owned(s) && Legal(s, actions)
    ensures Inv(Run(s, actions))
    decreases |actions|
  {
    if actions != [] {
      hide Inv, Owned;
      StepKeeps(s, actions[0]);
      RunKeeps(Step(s, actions[0]), actions[1..]);
    }
  }

  /**
   After any interleaving: every mirrored page is valid, even halfway through a section; every GPU-written page
   is valid whenever the lock is free; and a check that came back true was right when it read its first word.
   */
  lemma MirrorIsHonest(s: System, actions: seq<Action>)
    requires Initial(s) && Legal(s, actions)
    ensures var end := Run(s, actions);
            && end.flags.Sized(|end.flags.valid|)
            && Inside(end.flags.mirror, end.flags.valid)
            && (end.rest == [] ==> Inside(end.flags.written, end.flags.valid))
            && (end.answer == Hit ==> forall c | c in end.asked :: Set(end.atFirst.valid, c))
  {
    hide Inside, Set;
    assert Steady(s.flags, []);
    RunKeeps(s, actions);
    SteadyNow(Run(s, actions).flags, Run(s, actions).rest);
  }

  // ----- from checks to pages -----

  /** The words `Contains` reads for one page span, up to word `i`. */
  function SpanChecks(i: nat, first: nat, last: nat): (r: seq<Check>)
    requires first <= last && first / 64 <= i <= last / 64 + 1
    ensures ChecksFit(r, i)
    decreases i
  {
    if i == first / 64 then []
    else SpanChecks(i - 1, first, last) + [Check(i - 1, SpanMask(i - 1, first, last))]
  }

  lemma {:induction false} SpanCheckAt(i: nat, first: nat, last: nat, word: nat)
    requires first <= last && first / 64 <= word < i <= last / 64 + 1
    ensures Check(word, SpanMask(word, first, last)) in SpanChecks(i, first, last)
    decreases i
  {
    hide SpanMask;
    if word < i - 1 {
      SpanCheckAt(i - 1, first, last, word);
    }
  }

  /** A true answer for a page span means every page of it was valid at the first read. */
  lemma SpanAnswered(valid: seq<bv64>, checks: seq<Check>, first: nat, last: nat, p: nat)
    requires first <= p <= last < 64 * |valid|
    requires forall c | c in SpanChecks(last / 64 + 1, first, last) :: c in checks
    requires forall c | c in checks :: Set(valid, c)
    ensures Has(valid, p)
  {
    hide SpanChecks, Set, Has;
    var c := Check(p / 64, SpanMask(p / 64, first, last));
    SpanCheckAt(last / 64 + 1, first, last, p / 64);
    SetPage(valid, c, p);
  }

  lemma SetPage(valid: seq<bv64>, c: Check, p: nat)
    requires Set(valid, c) && c.word == p / 64 && Bit(c.mask, p % 64) && p < 64 * |valid|
    ensures Has(valid, p)
  {
  }
}
