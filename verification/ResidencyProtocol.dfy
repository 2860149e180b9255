/**
 The residency bitmap against shared memory's valid pages, with invalidations on other threads
 (src/gpu/native/native_geometry_pass.cpp, `Record`).

 An invalidation clears valid pages and then queues them; both happen under shared memory's lock, but the command
 thread can read its bitmap in between. All sets are sets of pages.
 */
module ResidencyProtocol {

  import opened Wrappers

  const MAX_PENDING: nat := 256

  /**
   `marked` is the bitmap; `announcing` is an invalidation that has cleared its pages but not queued them yet.
   During a request `wanted` are the pages asked for and `granted` those already found or made valid. `frame` is the
   frame being recorded and `cacheFrame` the one the bitmap was last emptied for.
   */
  datatype System = System(valid: set<nat>, written: set<nat>, marked: set<nat>, pending: seq<set<nat>>, overflow: bool,
                           signal: bool, announcing: Option<set<nat>>, wanted: set<nat>, granted: set<nat>,
                           frame: nat, cacheFrame: int)

  datatype Action =
    | Invalidate(pages: set<nat>)
    | Announce
    | GpuWrite(pages: set<nat>)
    | BeginDraw
    | Drain
    | Scan(want: set<nat>)
    | Upload(pages: set<nat>)
    | Remember
    | GiveUp
    | CloseFrame
    | ClearCache(all: set<nat>)

  predicate Requesting(s: System) {
    s.wanted != {}
  }

  /**
   Sections under shared memory's lock exclude each other. Within a draw the command thread empties the bitmap for a
   new frame, drains, looks up, requests what is missing, remembers it and drains again; it closes frames and clears
   the cache between draws.
   */
  predicate Can(s: System, a: Action) {
    match a
    case Invalidate(_) => s.announcing.None?
    case Announce => s.announcing.Some?
    case GpuWrite(_) => s.announcing.None? && !Requesting(s)
    case BeginDraw => !Requesting(s)
    case Drain => !Requesting(s)
    case Scan(want) => s.announcing.None? && !Requesting(s) && s.cacheFrame == s.frame
    case Upload(pages) => s.announcing.None? && Requesting(s) && pages <= s.wanted
    case Remember => s.granted == s.wanted
    case GiveUp => true
    case CloseFrame => s.announcing.None? && !Requesting(s)
    case ClearCache(all) => s.announcing.None? && !Requesting(s) && s.valid <= all
  }

  function Push(s: System, pages: set<nat>): System {
    if |s.pending| < MAX_PENDING then s.(pending := s.pending + [pages], signal := true)
    else s.(overflow := true, signal := true)
  }

  function Union(pending: seq<set<nat>>): set<nat> {
    if pending == [] then {} else Union(pending[..|pending| - 1]) + pending[|pending| - 1]
  }

  function Step(s: System, a: Action): System
    requires Can(s, a)
  {
    match a
    case Invalidate(pages) => s.(valid := s.valid - pages, written := s.written - pages, announcing := Some(pages))
    case Announce => Push(s, s.announcing.value).(announcing := None)
    case GpuWrite(pages) =>
      var fired := Push(s, pages);
      fired.(valid := fired.valid + pages, written := fired.written + pages)
    case BeginDraw => if s.frame != s.cacheFrame then s.(marked := {}, cacheFrame := s.frame) else s
    case Drain =>
      if !s.signal then s
      else s.(marked := if s.overflow then {} else s.marked - Union(s.pending), pending := [], overflow := false, signal := false)
    case Scan(want) => s.(wanted := want, granted := want * s.valid)
    case Upload(pages) => s.(valid := s.valid + pages, granted := s.granted + pages)
    case Remember => s.(marked := s.marked + s.wanted, wanted := {}, granted := {})
    case GiveUp => s.(wanted := {}, granted := {})
    case CloseFrame => s.(frame := s.frame + 1, valid := s.written)
    case ClearCache(all) => Push(s, all).(valid := s.written)
  }

  /** The page is about to be dropped from the bitmap, or all are. */
  predicate Due(s: System, p: nat) {
    s.overflow || p in Union(s.pending) || (s.announcing.Some? && p in s.announcing.value)
  }

  /** The page is valid, or an invalidation of it has not reached the bitmap yet. */
  predicate Accounted(s: System, p: nat) {
    p in s.valid || Due(s, p)
  }

  ghost predicate Inv(s: System) {
    && |s.pending| <= MAX_PENDING && (s.pending != [] || s.overflow ==> s.signal)
    && s.written <= s.valid && s.granted <= s.wanted && s.cacheFrame <= s.frame
    && (Requesting(s) ==> s.cacheFrame == s.frame)
    && (s.cacheFrame == s.frame ==> forall p | p in s.marked :: Accounted(s, p))
    && (forall p | p in s.granted :: Accounted(s, p))
  }

  lemma PushDue(s: System, pages: set<nat>)
    ensures var t := Push(s, pages);
            t.signal && (|s.pending| <= MAX_PENDING ==> |t.pending| <= MAX_PENDING)
            && forall p | (s.overflow || p in Union(s.pending) || p in pages) :: t.overflow || p in Union(t.pending)
  {
    assert (s.pending + [pages])[..|s.pending|] == s.pending;
  }

  lemma StepKeeps(s: System, a: Action)
    requires Inv(s) && Can(s, a)
    ensures Inv(Step(s, a))
  {
    match a {
      case Announce => PushDue(s, s.announcing.value);
      case GpuWrite(pages) => PushDue(s, pages);
      case ClearCache(all) => ClearCacheKeeps(s, all);
      case _ =>
    }
  }

  lemma ClearCacheKeeps(s: System, all: set<nat>)
    requires Inv(s) && Can(s, ClearCache(all))
    ensures Inv(Step(s, ClearCache(all)))
  {
    PushDue(s, all);
  }

  ghost predicate Legal(s: System, actions: seq<Action>)
    decreases |actions|
  {
    actions == [] || (Can(s, actions[0]) && Legal(Step(s, actions[0]), actions[1..]))
  }

  function Run(s: System, actions: seq<Action>): System
    requires Legal(s, actions)
    decreases |actions|
  {
    if actions == [] then s else Run(Step(s, actions[0]), actions[1..])
  }

  lemma {:induction false} RunKeeps(s: System, actions: seq<Action>)
    requires Inv(s) && Legal(s, actions)
    ensures Inv(Run(s, actions))
    decreases |actions|
  {
    if actions != [] {
      StepKeeps(s, actions[0]);
      RunKeeps(Step(s, actions[0]), actions[1..]);
    }
  }

  /** Before the first draw the bitmap is empty; shared memory may hold anything. */
  ghost predicate Initial(s: System) {
    && s.written <= s.valid && s.marked == {} && s.pending == [] && !s.overflow && !s.signal && s.announcing.None?
    && !Requesting(s) && s.granted == {} && s.cacheFrame == -1
  }

  /**
   At every point of every run, once a draw has looked at its frame, a page the bitmap claims is valid or its
   invalidation is on the way; right after a drain with no invalidation under way it is valid.
   */
  lemma BitmapIsHonest(s: System, actions: seq<Action>)
    requires Initial(s) && Legal(s, actions)
    ensures var end := Run(s, actions);
            end.cacheFrame == end.frame ==> forall p | p in end.marked :: Accounted(end, p)
    ensures var end := Run(s, actions);
            end.cacheFrame == end.frame && Can(end, Drain) && end.announcing.None? ==>
              Step(end, Drain).marked <= Step(end, Drain).valid
  {
    RunKeeps(s, actions);
    StepKeepsDrain(Run(s, actions));
  }

  lemma StepKeepsDrain(s: System)
    requires Inv(s)
    ensures s.cacheFrame == s.frame && Can(s, Drain) && s.announcing.None? ==>
              Step(s, Drain).marked <= Step(s, Drain).valid
  {
    if s.cacheFrame == s.frame && Can(s, Drain) {
      StepKeeps(s, Drain);
    }
  }

  /**
   The sweep at the end of a frame tells no watch, so after it the bitmap is right exactly where the GPU wrote or an
   invalidation is on the way; that is why the next frame's first draw must empty it.
   */
  lemma SweepBreaksUnless(s: System)
    requires Inv(s) && Can(s, CloseFrame)
    ensures var after := Step(s, CloseFrame);
            && after.cacheFrame != after.frame
            && ((forall p | p in after.marked :: Accounted(after, p))
                <==> forall p | p in s.marked :: p in s.written || Due(s, p))
            && Step(after, BeginDraw).marked == {}
  {}

  /** The first draw of the first frame asks for page 0, uploads it and remembers it; then the frame ends. */
  const ONE_FRAME: seq<Action> := [BeginDraw, Scan({0}), Upload({0}), Remember, CloseFrame]

  /**
   A run from the start after which a marked page is neither valid nor on its way out: the upload's page was not
   written by the GPU, so the sweep took its validity and told nobody.
   */
  lemma SweepForgetsUploads()
    ensures var s := System({}, {}, {}, [], false, false, None, {}, {}, 0, -1);
            && Initial(s) && Legal(s, ONE_FRAME)
            && Run(s, ONE_FRAME).marked == {0} && !Accounted(Run(s, ONE_FRAME), 0)
  {
    var s0 := System({}, {}, {}, [], false, false, None, {}, {}, 0, -1);
    var s1 := s0.(cacheFrame := 0);
    var s2 := s1.(wanted := {0});
    var s3 := s2.(valid := {0}, granted := {0});
    var s4 := s1.(valid := {0}, marked := {0});
    var s5 := s4.(frame := 1, valid := {});
    OneStep(s4, CloseFrame, [], s5);
    OneStep(s3, Remember, [CloseFrame], s4);
    OneStep(s2, Upload({0}), [Remember] + [CloseFrame], s3);
    OneStep(s1, Scan({0}), [Upload({0})] + ([Remember] + [CloseFrame]), s2);
    OneStep(s0, BeginDraw, [Scan({0})] + ([Upload({0})] + ([Remember] + [CloseFrame])), s1);
    assert [CloseFrame] + [] == [CloseFrame];
    assert ONE_FRAME == [BeginDraw] + ([Scan({0})] + ([Upload({0})] + ([Remember] + [CloseFrame])));
  }

  lemma OneStep(s: System, a: Action, actions: seq<Action>, after: System)
    requires Can(s, a) && Step(s, a) == after && Legal(after, actions)
    ensures Legal(s, [a] + actions) && Run(s, [a] + actions) == Run(after, actions)
  {
    assert ([a] + actions)[1..] == actions;
  }

  // ----- what the bitmap is for -----

  /** A draw asks, uploads what it asked for and remembers it: then all of it is marked. */
  lemma RequestMarks(s: System, want: set<nat>)
    requires Can(s, Scan(want)) && want != {}
    ensures var actions := [Scan(want), Upload(want), Remember];
            Legal(s, actions) && Run(s, actions).marked == s.marked + want && Run(s, actions).cacheFrame == s.cacheFrame
  {
    var s1 := Step(s, Scan(want));
    var s2 := Step(s1, Upload(want));
    OneStep(s2, Remember, [], Step(s2, Remember));
    OneStep(s1, Upload(want), [Remember], s2);
    OneStep(s, Scan(want), [Upload(want)] + [Remember], s1);
    assert [Remember] + [] == [Remember];
    assert [Scan(want), Upload(want), Remember] == [Scan(want)] + ([Upload(want)] + [Remember]);
  }

  /** Nothing is waiting to be folded into the bitmap, which is of the current frame. */
  predicate Settled(s: System) {
    s.cacheFrame == s.frame && !s.signal && s.announcing.None?
  }

  predicate OwnStep(a: Action) {
    a.BeginDraw? || a.Drain? || a.Scan? || a.Upload? || a.Remember? || a.GiveUp?
  }

  /** Within a frame, as long as nobody invalidates, no draw takes a mark away. */
  lemma {:induction false} MarksStay(s: System, actions: seq<Action>)
    requires Settled(s) && Legal(s, actions) && forall a | a in actions :: OwnStep(a)
    ensures Settled(Run(s, actions)) && s.marked <= Run(s, actions).marked
    decreases |actions|
  {
    if actions != [] {
      assert actions[0] in actions;
      MarksStay(Step(s, actions[0]), actions[1..]);
    }
  }
}
