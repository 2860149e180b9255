/**
 `Resolve` against other threads (src/gpu/native/native_asset_cache.cpp): it reads the page versions one by one
 without a lock, takes its snapshot under the lock, and reads the versions again.

 Other threads stamp the pages of an invalidation one by one, and only then can the pages be written. A page's
 contents are one value; it is guarded while valid, not GPU-written, and watched.
 */
module AssetProtocol {

  import opened Wrappers

  datatype Page = Page(version: nat, bytes: int, guarded: bool)

  /** An invalidation that has stored its stamp into the pages `first` up to `next`. */
  datatype Inflight = Inflight(stamp: nat, first: nat, next: nat, last: nat)

  datatype Key = Key(first: nat, last: nat)

  /** What was found for a range: the contents at the snapshot, and the version they were current for. */
  datatype Mapping = Mapping(version: nat, content: seq<int>, matched: bool)

  datatype Pc =
    | Resting
    | Looking(next: nat, max: nat)
    | Snapped(before: nat, content: seq<int>, next: nat, max: nat)

  datatype Answer = Nothing | Bound(content: seq<int>)

  /**
   `key` is the range being resolved. `seen` are the pages as they were when their versions were last read, and
   `answer` what the last resolution returned: an asset with certain contents, or nothing.
   */
  datatype System = System(pages: seq<Page>, sequence: nat, inflight: Option<Inflight>, mappings: map<Key, Mapping>,
                           frame: nat, cacheFrame: int, pc: Pc, key: Key, seen: seq<Page>, answer: Answer)

  datatype Action =
    | BeginStamp(first: nat, last: nat)
    | StoreStamp
    | EndStamp
    | WritePage(page: nat, bytes: int)
    | Guard(page: nat)
    | CloseFrame
    | Ask(key: Key, modeChanged: bool)
    | ReadVersion
    | UseMapping
    | Snapshot
    | Refuse
    | Conclude(matched: bool, stored: bool)

  predicate Can(s: System, a: Action) {
    match a
    case BeginStamp(first, last) => s.inflight.None? && first <= last < |s.pages|
    case StoreStamp => s.inflight.Some? && s.inflight.value.next <= s.inflight.value.last < |s.pages|
    case EndStamp => s.inflight.Some? && s.inflight.value.next == s.inflight.value.last + 1
    case WritePage(page, _) => page < |s.pages| && !s.pages[page].guarded
    case Guard(page) => s.inflight.None? && page < |s.pages| && s.pc.Resting?
    case CloseFrame => s.inflight.None? && s.pc.Resting?
    case Ask(key, _) => s.pc.Resting? && key.first <= key.last < |s.pages|
    case ReadVersion =>
      s.key.last < |s.pages| && (s.pc.Looking? || s.pc.Snapped?) && s.pc.next <= s.key.last
    case UseMapping =>
      s.pc.Looking? && s.pc.next == s.key.last + 1 && s.key in s.mappings && s.mappings[s.key].version == s.pc.max
    case Snapshot =>
      s.inflight.None? && s.key.first <= s.key.last < |s.pages| && s.pc.Looking? && s.pc.next == s.key.last + 1
      && forall p | s.key.first <= p <= s.key.last :: s.pages[p].guarded
    case Refuse => true
    case Conclude(_, _) => s.pc.Snapped? && s.pc.next == s.key.last + 1
  }

  function Contents(s: System): seq<int>
    requires s.key.first <= s.key.last < |s.pages|
  {
    seq(s.key.last + 1 - s.key.first, i requires 0 <= i < s.key.last + 1 - s.key.first => s.pages[s.key.first + i].bytes)
  }

  function Larger(a: nat, b: nat): nat { if a > b then a else b }

  function Step(s: System, a: Action): System
    requires Can(s, a)
  {
    match a
    case BeginStamp(first, last) =>
      s.(sequence := s.sequence + 1, inflight := Some(Inflight(s.sequence + 1, first, first, last)))
    case StoreStamp =>
      var i := s.inflight.value;
      s.(pages := s.pages[i.next := s.pages[i.next].(version := i.stamp)], inflight := Some(i.(next := i.next + 1)))
    case EndStamp =>
      var i := s.inflight.value;
      s.(inflight := None,
         pages := seq(|s.pages|, p requires 0 <= p < |s.pages| =>
           if i.first <= p <= i.last then s.pages[p].(guarded := false) else s.pages[p]))
    case WritePage(page, bytes) => s.(pages := s.pages[page := s.pages[page].(bytes := bytes)])
    case Guard(page) => s.(pages := s.pages[page := s.pages[page].(guarded := true)])
    case CloseFrame =>
      s.(frame := s.frame + 1,
         pages := seq(|s.pages|, p requires 0 <= p < |s.pages| => s.pages[p].(guarded := false)))
    case Ask(key, modeChanged) =>
      s.(key := key, pc := Looking(key.first, 0), seen := [], answer := Nothing, cacheFrame := s.frame,
         mappings := if s.cacheFrame != s.frame || modeChanged then map[] else s.mappings)
    case ReadVersion =>
      var page := s.pages[s.pc.next];
      s.(seen := s.seen + [page],
         pc := if s.pc.Looking? then Looking(s.pc.next + 1, Larger(s.pc.max, page.version))
               else Snapped(s.pc.before, s.pc.content, s.pc.next + 1, Larger(s.pc.max, page.version)))
    case UseMapping =>
      var m := s.mappings[s.key];
      s.(pc := Resting, answer := if m.matched then Bound(m.content) else Nothing)
    case Snapshot => s.(pc := Snapped(s.pc.max, Contents(s), s.key.first, 0), seen := [])
    case Refuse => s.(pc := Resting, answer := Nothing)
    case Conclude(matched, stored) =>
      if s.pc.max != s.pc.before then s.(pc := Resting, answer := Nothing)
      else s.(pc := Resting, answer := if matched then Bound(s.pc.content) else Nothing,
              mappings := if stored then s.mappings[s.key := Mapping(s.pc.before, s.pc.content, matched)] else s.mappings)
  }

  // ----- what versions vouch for -----

  /** A version no invalidation still to finish can produce. */
  predicate Settled(s: System, v: nat) {
    v <= s.sequence && (s.inflight.Some? ==> v < s.inflight.value.stamp)
  }

  /** A page whose version is not past `v` still holds the contents, and cannot be written silently. */
  predicate Fresh(p: Page, v: nat, content: int) {
    p.version <= v ==> p.guarded && p.bytes == content
  }

  ghost predicate Vouches(s: System, key: Key, v: nat, content: seq<int>) {
    && key.first <= key.last < |s.pages| && |content| == key.last + 1 - key.first && Settled(s, v)
    && forall p | key.first <= p <= key.last :: Fresh(s.pages[p], v, content[p - key.first])
  }

  /** Every page read so far held the contents and was guarded, when it was read. */
  predicate Held(seen: seq<Page>, content: seq<int>) {
    |seen| <= |content| && forall i | 0 <= i < |seen| :: seen[i].guarded && seen[i].bytes == content[i]
  }

  ghost predicate Reading(s: System, next: nat, max: nat) {
    s.key.first <= s.key.last < |s.pages| && s.key.first <= next <= s.key.last + 1 && |s.seen| == next - s.key.first
    && max <= s.sequence
  }

  ghost predicate PcOk(s: System) {
    match s.pc
    case Resting => s.answer.Bound? ==> |s.seen| == |s.answer.content| && Held(s.seen, s.answer.content)
    case Looking(next, max) =>
      s.cacheFrame == s.frame && Reading(s, next, max)
      && (s.key in s.mappings && max <= s.mappings[s.key].version ==> Held(s.seen, s.mappings[s.key].content))
    case Snapped(before, content, next, max) =>
      s.cacheFrame == s.frame && Reading(s, next, max) && Vouches(s, s.key, before, content)
      && (max <= before ==> Held(s.seen, content))
  }

  ghost predicate Inv(s: System) {
    && (forall p | 0 <= p < |s.pages| :: s.pages[p].version <= s.sequence)
    && (s.inflight.Some? ==>
          var i := s.inflight.value;
          i.stamp == s.sequence && i.first <= i.next <= i.last + 1 <= |s.pages|
          && forall p | i.first <= p < i.next :: s.pages[p].version == i.stamp)
    && s.cacheFrame <= s.frame
    && (s.cacheFrame == s.frame ==>
          forall k | k in s.mappings :: Vouches(s, k, s.mappings[k].version, s.mappings[k].content))
    && PcOk(s)
  }

  /** The steps of other threads keep what a version vouches for. */
  lemma OthersKeepVouching(s: System, a: Action, key: Key, v: nat, content: seq<int>)
    requires Inv(s) && Can(s, a) && Vouches(s, key, v, content)
    requires a.BeginStamp? || a.StoreStamp? || a.EndStamp? || a.WritePage? || a.Guard?
    ensures Vouches(Step(s, a), key, v, content)
  {}

  lemma OthersKeep(s: System, a: Action)
    requires Inv(s) && Can(s, a)
    requires a.BeginStamp? || a.StoreStamp? || a.EndStamp? || a.WritePage? || a.Guard?
    ensures Inv(Step(s, a))
  {
    var t := Step(s, a);
    VersionsStay(s, a);
    if s.pc.Snapped? {
      OthersKeepVouching(s, a, s.key, s.pc.before, s.pc.content);
    }
    if s.cacheFrame == s.frame {
      forall k | k in s.mappings ensures Vouches(t, k, s.mappings[k].version, s.mappings[k].content) {
        OthersKeepVouching(s, a, k, s.mappings[k].version, s.mappings[k].content);
      }
    }
    hide Vouches, Held;
  }

  lemma VersionsStay(s: System, a: Action)
    requires Inv(s) && Can(s, a)
    requires a.BeginStamp? || a.StoreStamp? || a.EndStamp? || a.WritePage? || a.Guard?
    ensures var t := Step(s, a);
            && |t.pages| == |s.pages| && (forall p | 0 <= p < |t.pages| :: t.pages[p].version <= t.sequence)
            && (t.inflight.Some? ==>
                  var i := t.inflight.value;
                  i.stamp == t.sequence && i.first <= i.next <= i.last + 1 <= |t.pages|
                  && forall p | i.first <= p < i.next :: t.pages[p].version == i.stamp)
  {
    hide PcOk, Vouches;
  }

  lemma HeldMore(seen: seq<Page>, page: Page, v: nat, content: seq<int>)
    requires Held(seen, content) && |seen| < |content| && page.version <= v && Fresh(page, v, content[|seen|])
    ensures Held(seen + [page], content)
  {}

  /** Reading one more version of the range. */
  lemma ReadKeeps(s: System)
    requires Inv(s) && Can(s, ReadVersion)
    ensures Inv(Step(s, ReadVersion))
  {
    var t, page := Step(s, ReadVersion), s.pages[s.pc.next];
    if s.pc.Looking? {
      if s.key in s.mappings && t.pc.max <= s.mappings[s.key].version {
        var m := s.mappings[s.key];
        assert Vouches(s, s.key, m.version, m.content);
        HeldMore(s.seen, page, m.version, m.content);
      }
    } else if t.pc.max <= s.pc.before {
      HeldMore(s.seen, page, s.pc.before, s.pc.content);
    }
    VouchesAlike(s, t);
  }

  /** What a version vouches for depends on the pages and the stamps only. */
  lemma VouchesAlike(s: System, t: System)
    requires t.pages == s.pages && t.sequence == s.sequence && t.inflight == s.inflight
    ensures forall k, v, c | Vouches(s, k, v, c) :: Vouches(t, k, v, c)
  {}

  lemma SnapshotKeeps(s: System)
    requires Inv(s) && Can(s, Snapshot)
    ensures Inv(Step(s, Snapshot))
  {
    VouchesAlike(s, Step(s, Snapshot));
  }

  lemma ConcludeKeeps(s: System, matched: bool, stored: bool)
    requires Inv(s) && Can(s, Conclude(matched, stored))
    ensures Inv(Step(s, Conclude(matched, stored)))
  {
    VouchesAlike(s, Step(s, Conclude(matched, stored)));
    hide Vouches;
  }

  lemma FrameKeeps(s: System, a: Action)
    requires Inv(s) && Can(s, a) && (a.CloseFrame? || a.Ask? || a.UseMapping? || a.Refuse?)
    ensures Inv(Step(s, a))
  {
    if !a.CloseFrame? {
      VouchesAlike(s, Step(s, a));
    }
  }

  lemma StepKeeps(s: System, a: Action)
    requires Inv(s) && Can(s, a)
    ensures Inv(Step(s, a))
  {
    hide Inv, Step;
    match a {
      case ReadVersion => ReadKeeps(s);
      case Snapshot => SnapshotKeeps(s);
      case Conclude(matched, stored) => ConcludeKeeps(s, matched, stored);
      case CloseFrame => FrameKeeps(s, a);
      case Ask(_, _) => FrameKeeps(s, a);
      case UseMapping => FrameKeeps(s, a);
      case Refuse => FrameKeeps(s, a);
      case _ => OthersKeep(s, a);
    }
  }

  ghost predicate Legal(s: System, actions: seq<Action>)
    decreases |actions|
  {
    actions == [] || (Can(s, actions[0]) && Legal(Step(s, actions[0]), actions[1..]))
  }

  function Run(s: System, actions: seq<Action>): System
    requires Legal(s, actions)
    decreases |actions|
  {
    if actions == [] then s else Run(Step(s, actions[0]), actions[1..])
  }

  lemma {:induction false} RunKeeps(s: System, actions: seq<Action>)
    requires Inv(s) && Legal(s, actions)
    ensures Inv(Run(s, actions))
    decreases |actions|
  {
    if actions != [] {
      StepKeeps(s, actions[0]);
      RunKeeps(Step(s, actions[0]), actions[1..]);
    }
  }

  ghost predicate Initial(s: System) {
    && (forall p | 0 <= p < |s.pages| :: s.pages[p].version == 0) && s.inflight.None? && s.mappings == map[]
    && s.cacheFrame == -1 && s.pc.Resting? && s.answer == Nothing
  }

  /**
   In every interleaving, a resolution that answers with an asset, fresh or remembered, saw each page of its range
   hold exactly the asset's contents, still guarded against unnoticed writes, when it read the page's version last.
   */
  lemma BindingIsCurrent(s: System, actions: seq<Action>)
    requires Initial(s) && Legal(s, actions)
    ensures var end := Run(s, actions);
            end.pc.Resting? && end.answer.Bound? ==>
              (|end.seen| == |end.answer.content|
               && forall i | 0 <= i < |end.seen| :: end.seen[i].guarded && end.seen[i].bytes == end.answer.content[i])
  {
    RunKeeps(s, actions);
  }

  /** The resolution under way cannot conclude: the page's version is past the first reading, and is or was read so. */
  predicate Doomed(s: System, p: nat) {
    && s.pc.Snapped? && s.key.first <= p <= s.key.last < |s.pages| && s.pages[p].version > s.pc.before
    && (s.pc.next <= p || s.pc.max > s.pc.before)
  }

  lemma StaysDoomed(s: System, a: Action, p: nat)
    requires Inv(s) && Can(s, a) && Doomed(s, p) && !a.Conclude? && !a.Refuse?
    ensures Doomed(Step(s, a), p)
  {
    hide Vouches, Held;
  }

  lemma {:induction false} RunsDoomed(s: System, actions: seq<Action>, p: nat)
    requires Inv(s) && Doomed(s, p) && Legal(s, actions) && forall a | a in actions :: !a.Conclude? && !a.Refuse?
    ensures Doomed(Run(s, actions), p)
    decreases |actions|
  {
    if actions != [] {
      hide Inv, Doomed, Step;
      assert actions[0] in actions;
      StepKeeps(s, actions[0]);
      StaysDoomed(s, actions[0], p);
      RunsDoomed(Step(s, actions[0]), actions[1..], p);
    }
  }

  /** The invalidation under way covers a page of the range that the second reading has not come to yet. */
  predicate EndsBeforeRead(s: System, p: nat) {
    && Can(s, EndStamp) && s.inflight.value.first <= p <= s.inflight.value.last
    && s.pc.Snapped? && s.key.first <= p <= s.key.last && s.pc.next <= p
  }

  /**
   In every interleaving, when an invalidation of a page of the range ends after the snapshot and before the page's
   version is read again, the resolution answers nothing, whatever happens before and after.
   */
  lemma InvalidatedNeverConcludes(s: System, before: seq<Action>, after: seq<Action>, p: nat, matched: bool, stored: bool)
    requires Initial(s) && Legal(s, before) && EndsBeforeRead(Run(s, before), p)
    requires Legal(Step(Run(s, before), EndStamp), after) && forall a | a in after :: !a.Conclude? && !a.Refuse?
    ensures var end := Run(Step(Run(s, before), EndStamp), after);
            Can(end, Conclude(matched, stored)) ==>
              Step(end, Conclude(matched, stored)).answer == Nothing
              && Step(end, Conclude(matched, stored)).mappings == end.mappings
  {
    RunKeeps(s, before);
    EndDooms(Run(s, before), p);
    StepKeeps(Run(s, before), EndStamp);
    RunsDoomed(Step(Run(s, before), EndStamp), after, p);
    hide Inv, Legal, Run;
  }

  lemma EndDooms(s: System, p: nat)
    requires Inv(s) && EndsBeforeRead(s, p)
    ensures Doomed(Step(s, EndStamp), p)
  {}

  // ----- what undisturbed threads get done -----

  lemma {:induction false} RunConcat(s: System, a: seq<Action>, b: seq<Action>)
    requires Legal(s, a) && Legal(Run(s, a), b)
    ensures Legal(s, a + b) && Run(s, a + b) == Run(Run(s, a), b)
    decreases |a|
  {
    if a == [] {
      assert a + b == b;
    } else {
      assert (a + b)[0] == a[0] && (a + b)[1..] == a[1..] + b;
      RunConcat(Step(s, a[0]), a[1..], b);
    }
  }

  lemma RunOne(s: System, a: Action)
    requires Can(s, a)
    ensures Legal(s, [a]) && Run(s, [a]) == Step(s, a)
  {
    assert [a][1..] == [];
  }

  lemma ThenOne(s: System, before: seq<Action>, a: Action)
    requires Legal(s, before) && Can(Run(s, before), a)
    ensures Legal(s, before + [a]) && Run(s, before + [a]) == Step(Run(s, before), a)
  {
    RunOne(Run(s, before), a);
    RunConcat(s, before, [a]);
  }

  function Times(a: Action, n: nat): seq<Action> {
    seq(n, _ => a)
  }

  lemma TimesNext(a: Action, n: nat)
    requires n > 0
    ensures Times(a, n)[0] == a && Times(a, n)[1..] == Times(a, n - 1)
  {}

  /** The largest of `max` and the versions of `n` pages. */
  function MaxOver(pages: seq<Page>, next: nat, n: nat, max: nat): nat
    requires next + n <= |pages|
    decreases n
  {
    if n == 0 then max else MaxOver(pages, next + 1, n - 1, Larger(max, pages[next].version))
  }

  function Moved(pc: Pc, next: nat, max: nat): Pc {
    match pc
    case Resting => pc
    case Looking(_, _) => Looking(next, max)
    case Snapped(before, content, _, _) => Snapped(before, content, next, max)
  }

  lemma OneRead(s: System)
    requires !s.pc.Resting? && s.pc.next <= s.key.last < |s.pages|
    ensures Can(s, ReadVersion)
    ensures Step(s, ReadVersion)
         == s.(seen := s.seen + [s.pages[s.pc.next]],
               pc := Moved(s.pc, s.pc.next + 1, Larger(s.pc.max, s.pages[s.pc.next].version)))
  {}

  lemma SeenMore(seen: seq<Page>, pages: seq<Page>, next: nat, n: nat)
    requires 0 < n && next + n <= |pages|
    ensures seen + [pages[next]] + pages[next + 1..next + n] == seen + pages[next..next + n]
  {}

  /** Reading `n` versions in a row. */
  lemma {:induction false} Reads(s: System, n: nat)
    requires !s.pc.Resting? && s.key.last < |s.pages| && s.pc.next + n <= s.key.last + 1
    ensures Legal(s, Times(ReadVersion, n))
    ensures Run(s, Times(ReadVersion, n))
         == s.(seen := s.seen + s.pages[s.pc.next..s.pc.next + n],
               pc := Moved(s.pc, s.pc.next + n, MaxOver(s.pages, s.pc.next, n, s.pc.max)))
    decreases n
  {
    if n == 0 {
      assert s.seen + s.pages[s.pc.next..s.pc.next] == s.seen;
    } else {
      hide Step, Can, Times;
      TimesNext(ReadVersion, n);
      OneRead(s);
      var t := Step(s, ReadVersion);
      Reads(t, n - 1);
      SeenMore(s.seen, s.pages, s.pc.next, n);
    }
  }

  function Resolving(key: Key, matched: bool): seq<Action>
    requires key.first <= key.last
  {
    [Ask(key, true)] + Times(ReadVersion, key.last + 1 - key.first) + [Snapshot]
    + Times(ReadVersion, key.last + 1 - key.first) + [Conclude(matched, true)]
  }

  function Remembering(key: Key): seq<Action>
    requires key.first <= key.last
  {
    [Ask(key, false)] + Times(ReadVersion, key.last + 1 - key.first) + [UseMapping]
  }

  ghost predicate Quiescent(s: System, key: Key) {
    && s.inflight.None? && s.pc.Resting? && key.first <= key.last < |s.pages|
    && forall p | key.first <= p <= key.last :: s.pages[p].guarded
  }

  /** After the range is asked for and its versions are read once. */
  lemma Looked(s: System, key: Key, mode: bool)
    requires s.pc.Resting? && key.first <= key.last < |s.pages|
    ensures var n := key.last + 1 - key.first;
            var actions := [Ask(key, mode)] + Times(ReadVersion, n);
            && Legal(s, actions)
            && Run(s, actions) == Step(s, Ask(key, mode)).(seen := s.pages[key.first..key.last + 1],
                 pc := Looking(key.last + 1, MaxOver(s.pages, key.first, n, 0)))
  {
    hide Legal, Run, MaxOver, Times;
    var n := key.last + 1 - key.first;
    RunOne(s, Ask(key, mode));
    var t := Step(s, Ask(key, mode));
    Reads(t, n);
    RunConcat(s, [Ask(key, mode)], Times(ReadVersion, n));
    assert [] + s.pages[key.first..key.last + 1] == s.pages[key.first..key.last + 1];
  }

  /** From there, with everything guarded: the snapshot, the second reading and the conclusion. */
  lemma Concluded(s: System, matched: bool)
    requires s.inflight.None? && s.pc.Looking? && s.key.first <= s.key.last < |s.pages| && s.pc.next == s.key.last + 1
    requires s.pc.max == MaxOver(s.pages, s.key.first, s.key.last + 1 - s.key.first, 0)
    requires forall p | s.key.first <= p <= s.key.last :: s.pages[p].guarded
    ensures var n := s.key.last + 1 - s.key.first;
            var actions := [Snapshot] + Times(ReadVersion, n) + [Conclude(matched, true)];
            && Legal(s, actions)
            && Run(s, actions) == s.(seen := s.pages[s.key.first..s.key.last + 1], pc := Resting,
                 answer := if matched then Bound(Contents(s)) else Nothing,
                 mappings := s.mappings[s.key := Mapping(s.pc.max, Contents(s), matched)])
  {
    hide Legal, Run, MaxOver, Times, Contents;
    var n := s.key.last + 1 - s.key.first;
    RunOne(s, Snapshot);
    var t := Step(s, Snapshot);
    Reads(t, n);
    RunConcat(s, [Snapshot], Times(ReadVersion, n));
    assert [] + s.pages[s.key.first..s.key.last + 1] == s.pages[s.key.first..s.key.last + 1];
    ThenOne(s, [Snapshot] + Times(ReadVersion, n), Conclude(matched, true));
  }

  /**
   A resolution nobody disturbs, of guarded pages, runs to its end, answers with the asset that matched the pages'
   contents, and remembers it.
   */
  lemma UndisturbedResolves(s: System, key: Key, matched: bool)
    requires Quiescent(s, key)
    ensures Legal(s, Resolving(key, matched))
    ensures var end, content := Run(s, Resolving(key, matched)), Contents(s.(key := key));
            && end.pc.Resting? && end.answer == (if matched then Bound(content) else Nothing)
            && end.pages == s.pages && end.inflight.None? && end.frame == end.cacheFrame
            && key in end.mappings && end.mappings[key].content == content && end.mappings[key].matched == matched
            && end.mappings[key].version == MaxOver(s.pages, key.first, key.last + 1 - key.first, 0)
  {
    hide Legal, Run, MaxOver, Times;
    var n := key.last + 1 - key.first;
    var first := [Ask(key, true)] + Times(ReadVersion, n);
    var second := [Snapshot] + Times(ReadVersion, n) + [Conclude(matched, true)];
    Looked(s, key, true);
    var t := Run(s, first);
    Concluded(t, matched);
    RunConcat(s, first, second);
    assert Resolving(key, matched) == first + second;
    assert Contents(t) == Contents(s.(key := key));
  }

  /** In the same frame, with the pages unchanged, the next resolution answers from memory, the same. */
  lemma UndisturbedRemembers(s: System, key: Key)
    requires Quiescent(s, key) && s.frame == s.cacheFrame && key in s.mappings
    requires s.mappings[key].version == MaxOver(s.pages, key.first, key.last + 1 - key.first, 0)
    ensures Legal(s, Remembering(key))
    ensures Run(s, Remembering(key)).answer
            == if s.mappings[key].matched then Bound(s.mappings[key].content) else Nothing
  {
    hide Legal, Run, MaxOver, Times;
    Looked(s, key, false);
    ThenOne(s, [Ask(key, false)] + Times(ReadVersion, key.last + 1 - key.first), UseMapping);
  }

  function Invalidating(first: nat, last: nat): seq<Action>
    requires first <= last
  {
    [BeginStamp(first, last)] + Times(StoreStamp, last + 1 - first) + [EndStamp]
  }

  /** Storing the stamp into the next `n` pages. */
  lemma {:induction false} Stores(s: System, n: nat)
    requires s.inflight.Some? && s.inflight.value.next + n <= s.inflight.value.last + 1 <= |s.pages|
    ensures Legal(s, Times(StoreStamp, n))
    ensures var i, t := s.inflight.value, Run(s, Times(StoreStamp, n));
            && t == s.(pages := t.pages, inflight := Some(i.(next := i.next + n))) && |t.pages| == |s.pages|
            && forall p | 0 <= p < |s.pages| ::
                 t.pages[p] == if i.next <= p < i.next + n then s.pages[p].(version := i.stamp) else s.pages[p]
    decreases n
  {
    if n > 0 {
      TimesNext(StoreStamp, n);
      Stores(Step(s, StoreStamp), n - 1);
    }
  }

  /** An invalidation runs to its end: its pages carry the new stamp and can be written, and no other page changed. */
  lemma InvalidationEnds(s: System, first: nat, last: nat)
    requires s.inflight.None? && first <= last < |s.pages|
    ensures Legal(s, Invalidating(first, last))
    ensures var t := Run(s, Invalidating(first, last));
            && t.inflight.None? && |t.pages| == |s.pages|
            && forall p | 0 <= p < |s.pages| ::
                 t.pages[p] == if first <= p <= last then Page(s.sequence + 1, s.pages[p].bytes, false) else s.pages[p]
  {
    hide Legal, Run;
    var n := last + 1 - first;
    RunOne(s, BeginStamp(first, last));
    Stores(Step(s, BeginStamp(first, last)), n);
    RunConcat(s, [BeginStamp(first, last)], Times(StoreStamp, n));
    ThenOne(s, [BeginStamp(first, last)] + Times(StoreStamp, n), EndStamp);
  }
}
