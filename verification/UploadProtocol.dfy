/**
 The upload loop that skips pages the shadow matches (src/gpu/vendored/src/graphics/d3d12/shared_memory.cpp).

 A run interleaves the command thread's captures, copies and publications with GPU writes and resets. `gpu` is what
 the skipping loop leaves in GPU memory and `reference` what copying every captured page would leave.
 */
module UploadProtocol {

  import opened Arithmetic
  import opened UploadShadow

  datatype Snap = Snap(page: nat, data: Bytes)

  /**
   `known` is what the shadow claims; `pending` is captured, `queued` copied but not yet published. A skipped page's
   copy takes effect in `reference` when it is captured.
   */
  datatype World = World(gate: Gate, known: map<nat, Bytes>, gpu: map<nat, Bytes>, reference: map<nat, Bytes>,
                         token: nat, pending: seq<Snap>, queued: seq<Snap>)

  /** `Overwrite` is a GPU write, or a copy whose source could not be captured: both invalidate first. */
  datatype Event =
    | Capture(chunk: seq<Snap>)
    | Copy
    | Publish(lost: set<nat>)
    | Overwrite(pages: set<nat>, data: map<nat, Bytes>)
    | Reset

  function PagesOf(snaps: seq<Snap>): (r: set<nat>)
    ensures forall s :: s in snaps ==> s.page in r
  {
    set s | s in snaps :: s.page
  }

  predicate Distinct(snaps: seq<Snap>) {
    forall i, j | 0 <= i < j < |snaps| :: snaps[i].page != snaps[j].page
  }

  predicate Matched(w: World, s: Snap) {
    s.page in w.known && w.known[s.page] == s.data
  }

  function Misses(w: World, chunk: seq<Snap>): (r: seq<Snap>)
    ensures forall s :: s in r <==> s in chunk && !Matched(w, s)
  {
    if chunk == [] then [] else
      var rest := Misses(w, chunk[1..]);
      if Matched(w, chunk[0]) then rest else [chunk[0]] + rest
  }

  function Put(m: map<nat, Bytes>, snaps: seq<Snap>): map<nat, Bytes>
    decreases |snaps|
  {
    if snaps == [] then m else Put(m[snaps[0].page := snaps[0].data], snaps[1..])
  }

  function Hits(w: World, chunk: seq<Snap>): (r: seq<Snap>)
    ensures forall s :: s in r <==> s in chunk && Matched(w, s)
  {
    if chunk == [] then [] else
      var rest := Hits(w, chunk[1..]);
      if Matched(w, chunk[0]) then [chunk[0]] + rest else rest
  }

  /** The command thread is between chunks. */
  predicate Quiet(w: World) {
    w.pending == [] && w.queued == []
  }

  predicate Can(w: World, e: Event) {
    match e
    case Capture(chunk) => Quiet(w) && Distinct(chunk)
    case Copy => w.pending != []
    case Publish(_) => w.queued != []
    case Overwrite(pages, data) => data.Keys <= pages
    case Reset => true
  }

  /** What an invalidation leaves; a gate that runs out of epochs claims nothing. */
  function Retire(w: World, pages: set<nat>): World {
    w.(gate := w.gate.Advance(), known := if w.gate.Advance().enabled then w.known - pages else map[])
  }

  function Step(w: World, e: Event): World
    requires Can(w, e)
  {
    match e
    case Capture(chunk) =>
      w.(token := w.gate.epoch, pending := Misses(w, chunk), reference := Put(w.reference, Hits(w, chunk)))
    case Copy =>
      var s := w.pending[0];
      w.(gpu := w.gpu[s.page := s.data], reference := w.reference[s.page := s.data],
         pending := w.pending[1..], queued := w.queued + [s])
    case Publish(lost) =>
      var s := w.queued[0];
      w.(queued := w.queued[1..],
         known := if w.gate.Admits(w.token) then (w.known - lost)[s.page := s.data] else w.known)
    case Overwrite(pages, data) =>
      Retire(w, pages).(gpu := w.gpu + data, reference := w.reference + data)
    case Reset =>
      Retire(w, {}).(known := map[])
  }

  // ----- what the shadow may be wrong about -----

  /** The pages whose claimed bytes are not the ones in GPU memory. */
  function Stale(w: World): (r: set<nat>)
    ensures forall p :: p in r <==> p in w.known && !(p in w.gpu && w.gpu[p] == w.known[p])
  {
    set p | p in w.known && !(p in w.gpu && w.gpu[p] == w.known[p])
  }

  /** An admitted token vouches for every queued copy. */
  ghost predicate Sound(w: World) {
    && w.token <= w.gate.epoch <= EPOCH_MAX
    && (!w.gate.enabled ==> w.known == map[])
    && Distinct(w.queued + w.pending)
    && (w.gate.Admits(w.token) ==> forall s | s in w.queued :: s.page in w.gpu && w.gpu[s.page] == s.data)
  }

  /** Right after a capture the two memories agree exactly when no matched page was stale. */
  lemma CaptureAgreesIff(w: World, chunk: seq<Snap>)
    requires Can(w, Capture(chunk)) && w.gpu == w.reference
    ensures Step(w, Capture(chunk)).gpu == Step(w, Capture(chunk)).reference
            <==> forall s | s in chunk && Matched(w, s) :: s.page !in Stale(w)
  {
    HitsDistinct(w, chunk);
    PutSame(w.reference, Hits(w, chunk));
  }

  lemma {:induction false} HitsDistinct(w: World, chunk: seq<Snap>)
    requires Distinct(chunk)
    ensures Distinct(Hits(w, chunk)) && Distinct(Misses(w, chunk))
  {
    if chunk != [] {
      HitsDistinct(w, chunk[1..]);
      forall s | s in chunk[1..] ensures s.page != chunk[0].page {}
    }
  }

  lemma {:induction false} PutKeeps(m: map<nat, Bytes>, snaps: seq<Snap>, p: nat)
    requires p !in PagesOf(snaps)
    ensures p in Put(m, snaps) <==> p in m
    ensures p in m ==> Put(m, snaps)[p] == m[p]
    decreases |snaps|
  {
    if snaps != [] {
      assert snaps[0] in snaps;
      assert p !in PagesOf(snaps[1..]);
      PutKeeps(m[snaps[0].page := snaps[0].data], snaps[1..], p);
    }
  }

  /** Writing distinct pages changes nothing exactly when each already holds its bytes. */
  lemma {:induction false} PutSame(m: map<nat, Bytes>, snaps: seq<Snap>)
    requires Distinct(snaps)
    ensures Put(m, snaps) == m <==> forall s | s in snaps :: s.page in m && m[s.page] == s.data
    decreases |snaps|
  {
    if snaps != [] {
      var s, rest := snaps[0], snaps[1..];
      var next := m[s.page := s.data];
      assert s in snaps;
      forall t | t in rest ensures t in snaps && t.page != s.page {}
      PutSame(next, rest);
      PutKeeps(next, rest, s.page);
      if s.page in m && m[s.page] == s.data {
        assert next == m;
      }
    }
  }

  lemma StepSound(w: World, e: Event)
    requires Sound(w) && Can(w, e)
    ensures Sound(Step(w, e)) && w.gate.epoch <= Step(w, e).gate.epoch
  {
    match e
    case Capture(chunk) => HitsDistinct(w, chunk);
    case Copy => CopySound(w);
    case Publish(lost) => PublishSound(w, lost);
    case Overwrite(pages, data) =>
    case Reset =>
  }

  lemma CopySound(w: World)
    requires Sound(w) && w.pending != []
    ensures Sound(Step(w, Copy))
  {
    var after := Step(w, Copy);
    assert after.queued + after.pending == w.queued + w.pending;
    forall s | s in w.queued ensures s.page != w.pending[0].page {
      var i :| 0 <= i < |w.queued| && w.queued[i] == s;
      assert (w.queued + w.pending)[i] == s && (w.queued + w.pending)[|w.queued|] == w.pending[0];
    }
  }

  lemma PublishSound(w: World, lost: set<nat>)
    requires Sound(w) && w.queued != []
    ensures Sound(Step(w, Publish(lost)))
  {
    assert (w.queued + w.pending)[1..] == w.queued[1..] + w.pending;
  }

  /** The shadow holds other bytes for the page than the ones about to be copied. */
  predicate Differs(w: World, s: Snap) {
    s.page in w.known && w.known[s.page] != s.data
  }

  /** The copy of a page the shadow holds other bytes for; it makes that claim wrong. */
  predicate Outdates(w: World, e: Event, p: nat)
    requires Can(w, e)
  {
    e.Copy? && w.pending[0].page == p && Differs(w, w.pending[0])
  }

  /**
   The claim about a page is dropped or made true: by an admitted publication of it or in its place, by an invalidation
   that covers it or exhausts the epochs, by a reset, or by a copy of the bytes already claimed.
   */
  predicate Settles(w: World, e: Event, p: nat)
    requires Can(w, e)
  {
    match e
    case Capture(_) => false
    case Copy => w.pending[0].page == p && !Differs(w, w.pending[0])
    case Publish(lost) => w.gate.Admits(w.token) && (p in lost || p == w.queued[0].page)
    case Overwrite(pages, _) => p in pages || !w.gate.Advance().enabled
    case Reset => true
  }

  /** Which claims are wrong after a step, exactly. */
  lemma StepStale(w: World, e: Event, p: nat)
    requires Sound(w) && Can(w, e)
    ensures p in Stale(Step(w, e)) <==> Outdates(w, e, p) || (p in Stale(w) && !Settles(w, e, p))
  {}

  /** The bound the whole-call arguments use. */
  lemma StepStaleWithin(w: World, e: Event)
    requires Sound(w) && Can(w, e)
    ensures Stale(Step(w, e)) <= match e
      case Capture(_) => Stale(w)
      case Copy => Stale(w) + {w.pending[0].page}
      case Publish(_) => if w.gate.Admits(w.token) then Stale(w) - {w.queued[0].page} else Stale(w)
      case Overwrite(pages, _) => Stale(w) - pages
      case Reset => {}
  {
    hide Step, Stale;
    forall p: nat ensures p in Stale(Step(w, e)) <==> Outdates(w, e, p) || (p in Stale(w) && !Settles(w, e, p)) {
      StepStale(w, e, p);
    }
  }

  // ----- whole calls -----

  /** The pages still to be captured after an event. */
  function Unseen(e: Event, unseen: set<nat>): set<nat> {
    if e.Capture? then unseen - PagesOf(e.chunk) else unseen
  }

  /** The events can happen in order, capturing only pages of `unseen`, each at most once. */
  ghost predicate Runs(w: World, events: seq<Event>, unseen: set<nat>)
    decreases |events|
  {
    events == [] ||
    (var e := events[0];
     Can(w, e) && (e.Capture? ==> PagesOf(e.chunk) <= unseen)
     && Runs(Step(w, e), events[1..], Unseen(e, unseen)))
  }

  function Run(w: World, events: seq<Event>, ghost unseen: set<nat>): World
    requires Runs(w, events, unseen)
    decreases |events|
  {
    if events == [] then w
    else Run(Step(w, events[0]), events[1..], Unseen(events[0], unseen))
  }

  lemma {:induction false} RunSound(w: World, events: seq<Event>, unseen: set<nat>)
    requires Sound(w) && Runs(w, events, unseen)
    ensures Sound(Run(w, events, unseen)) && w.gate.epoch <= Run(w, events, unseen).gate.epoch
    decreases |events|
  {
    if events != [] {
      StepSound(w, events[0]);
      RunSound(Step(w, events[0]), events[1..], Unseen(events[0], unseen));
    }
  }

  /** While the epoch stands still, nothing is rejected, so only queued pages can be stale. */
  lemma {:induction false} NoRejection(w: World, events: seq<Event>, unseen: set<nat>)
    requires Sound(w) && Runs(w, events, unseen) && Stale(w) <= PagesOf(w.queued)
    requires Quiet(w) || w.token == w.gate.epoch
    requires Run(w, events, unseen).gate.epoch == w.gate.epoch
    ensures Stale(Run(w, events, unseen)) <= PagesOf(Run(w, events, unseen).queued)
    decreases |events|
  {
    if events != [] {
      var e := events[0];
      var rest := Unseen(e, unseen);
      StepSound(w, e);
      RunSound(Step(w, e), events[1..], rest);
      StillWithin(w, e);
      NoRejection(Step(w, e), events[1..], rest);
    }
  }

  lemma StillWithin(w: World, e: Event)
    requires Sound(w) && Can(w, e) && Stale(w) <= PagesOf(w.queued)
    requires (Quiet(w) || w.token == w.gate.epoch) && Step(w, e).gate.epoch == w.gate.epoch
    ensures Stale(Step(w, e)) <= PagesOf(Step(w, e).queued)
  {
    StepStaleWithin(w, e);
    match e
    case Capture(_) =>
    case Copy =>
      assert w.pending[0] in Step(w, e).queued;
      assert forall s | s in w.queued :: s in Step(w, e).queued;
    case Publish(_) =>
      assert forall s | s in w.queued :: s == w.queued[0] || s in w.queued[1..];
    case Overwrite(_, _) =>
    case Reset =>
  }

  function Busy(w: World): set<nat> {
    PagesOf(w.pending) + PagesOf(w.queued)
  }

  /** Inside a call only pages it has captured can be stale, so no later capture of it skips one. */
  lemma {:induction false} CallRun(w: World, events: seq<Event>, unseen: set<nat>, seen: set<nat>)
    requires Sound(w) && Runs(w, events, unseen) && w.gpu == w.reference
    requires seen !! unseen && Stale(w) + Busy(w) <= seen
    ensures Run(w, events, unseen).gpu == Run(w, events, unseen).reference
    ensures Stale(Run(w, events, unseen)) <= seen + unseen
    decreases |events|
  {
    if events != [] {
      var e := events[0];
      var rest := Unseen(e, unseen);
      var seen' := if e.Capture? then seen + PagesOf(e.chunk) else seen;
      StepSound(w, e);
      CallStep(w, e, seen);
      CallRun(Step(w, e), events[1..], rest, seen');
    }
  }

  lemma CallStep(w: World, e: Event, seen: set<nat>)
    requires Sound(w) && Can(w, e) && w.gpu == w.reference && Stale(w) + Busy(w) <= seen
    requires e.Capture? ==> seen !! PagesOf(e.chunk)
    ensures Step(w, e).gpu == Step(w, e).reference
    ensures Stale(Step(w, e)) + Busy(Step(w, e)) <= if e.Capture? then seen + PagesOf(e.chunk) else seen
  {
    StepStaleWithin(w, e);
    match e
    case Capture(chunk) =>
      CaptureAgreesIff(w, chunk);
      assert forall s | s in chunk && Matched(w, s) :: s.page in PagesOf(chunk);
    case Copy =>
      assert w.pending[0] in w.pending;
      assert forall s | s in w.pending[1..] :: s in w.pending;
    case Publish(_) =>
      assert forall s | s in w.queued[1..] :: s in w.queued;
    case Overwrite(_, _) =>
    case Reset =>
  }

  /**
   How a call ends: on an allocation failure it returns at once; otherwise it compares epochs and, if any
   invalidation came in between, forgets all of its pages and uploads again without the shadow.
   */
  datatype Call = Call(pages: set<nat>, events: seq<Event>, failed: bool, again: map<nat, Bytes>)

  ghost predicate Callable(w: World, c: Call) {
    && Quiet(w) && Runs(w, c.events, c.pages) && c.again.Keys <= c.pages
    && Quiet(Run(w, c.events, c.pages))
  }

  function Finish(w: World, c: Call): World
    requires Callable(w, c)
  {
    var after := Run(w, c.events, c.pages);
    if c.failed || after.gate.epoch == w.gate.epoch then after
    else Step(after, Overwrite(c.pages, c.again))
  }

  /** Between calls the shadow is right about every page it knows, and nothing was lost by skipping. */
  ghost predicate Faithful(w: World) {
    Quiet(w) && Sound(w) && Stale(w) == {} && w.gpu == w.reference
  }

  /** A call that completes, or that fails before any invalidation, leaves the shadow right about every page. */
  lemma CallKeepsFaith(w: World, c: Call)
    requires Faithful(w) && Callable(w, c)
    requires c.failed ==> Run(w, c.events, c.pages).gate.epoch == w.gate.epoch
    ensures Faithful(Finish(w, c))
  {
    var after := Run(w, c.events, c.pages);
    RunSound(w, c.events, c.pages);
    CallRun(w, c.events, c.pages, {});
    if after.gate.epoch == w.gate.epoch {
      NoRejection(w, c.events, c.pages);
    } else {
      StepSound(after, Overwrite(c.pages, c.again));
      StepStaleWithin(after, Overwrite(c.pages, c.again));
    }
  }

  datatype Action = Uploading(call: Call) | Between(event: Event)

  ghost predicate Acts(w: World, a: Action) {
    match a
    case Uploading(c) => Callable(w, c)
    case Between(e) => (e.Overwrite? || e.Reset?) && Can(w, e)
  }

  function Act(w: World, a: Action): World
    requires Acts(w, a)
  {
    if a.Uploading? then Finish(w, a.call) else Step(w, a.event)
  }

  ghost predicate History(w: World, actions: seq<Action>)
    decreases |actions|
  {
    actions == [] || (Acts(w, actions[0]) && History(Act(w, actions[0]), actions[1..]))
  }

  function After(w: World, actions: seq<Action>): World
    requires History(w, actions)
    decreases |actions|
  {
    if actions == [] then w else After(Act(w, actions[0]), actions[1..])
  }

  // ----- exactly which histories keep the shadow right -----

  /** No event of the run settles the claim about the page. */
  ghost predicate Survives(w: World, events: seq<Event>, unseen: set<nat>, p: nat)
    requires Runs(w, events, unseen)
    decreases |events|
  {
    events == []
    || (!Settles(w, events[0], p) && Survives(Step(w, events[0]), events[1..], Unseen(events[0], unseen), p))
  }

  /**
   Some event of the run copies other bytes over the page than the shadow claims, and nothing later in the run settles
   that claim: neither an admitted publication nor an invalidation that covers the page.
   */
  ghost predicate LeavesOld(w: World, events: seq<Event>, unseen: set<nat>, p: nat)
    requires Runs(w, events, unseen)
    decreases |events|
  {
    events != []
    && ((Outdates(w, events[0], p) && Survives(Step(w, events[0]), events[1..], Unseen(events[0], unseen), p))
        || LeavesOld(Step(w, events[0]), events[1..], Unseen(events[0], unseen), p))
  }

  /** Which claims are wrong after a run, exactly: those wrong before that survived, and those the run left behind. */
  lemma {:induction false} RunStale(w: World, events: seq<Event>, unseen: set<nat>, p: nat)
    requires Sound(w) && Runs(w, events, unseen)
    ensures p in Stale(Run(w, events, unseen))
            <==> LeavesOld(w, events, unseen, p) || (p in Stale(w) && Survives(w, events, unseen, p))
    decreases |events|
  {
    hide Stale, Sound, Step, Outdates, Settles;
    if events != [] {
      StepSound(w, events[0]);
      StepStale(w, events[0], p);
      RunStale(Step(w, events[0]), events[1..], Unseen(events[0], unseen), p);
    }
  }

  /** The call gives up and leaves an old claim behind. */
  ghost predicate Harms(w: World, c: Call)
    requires Callable(w, c)
  {
    c.failed && exists p: nat :: LeavesOld(w, c.events, c.pages, p)
  }

  /** A call leaves the shadow right about every page exactly when it does not give up on an old claim. */
  lemma CallFaithfulIff(w: World, c: Call)
    requires Faithful(w) && Callable(w, c)
    ensures Faithful(Finish(w, c)) <==> !Harms(w, c)
  {
    hide LeavesOld;
    if c.failed {
      var after := Run(w, c.events, c.pages);
      RunSound(w, c.events, c.pages);
      CallRun(w, c.events, c.pages, {});
      forall p: nat ensures p in Stale(after) <==> LeavesOld(w, c.events, c.pages, p) {
        RunStale(w, c.events, c.pages, p);
      }
      hide Sound, Runs, Run, Stale;
      assert Faithful(after) <==> Stale(after) == {};
    } else {
      CallKeepsFaith(w, c);
    }
  }

  /** Whatever is captured next, skipping the pages that match changes nothing. */
  ghost predicate SafeToSkip(w: World) {
    Quiet(w) && forall chunk | Can(w, Capture(chunk)) :: Step(w, Capture(chunk)).gpu == Step(w, Capture(chunk)).reference
  }

  /** Skipping is safe exactly when both memories agree and no claim is wrong. */
  lemma SafeIffNothingStale(w: World)
    requires Quiet(w)
    ensures SafeToSkip(w) <==> w.gpu == w.reference && Stale(w) == {}
  {
    var none := Capture([]);
    assert Can(w, none) && Step(w, none).gpu == w.gpu && Step(w, none).reference == w.reference;
    if w.gpu == w.reference {
      if Stale(w) == {} {
        forall chunk | Can(w, Capture(chunk)) ensures Step(w, Capture(chunk)).gpu == Step(w, Capture(chunk)).reference {
          CaptureAgreesIff(w, chunk);
        }
      } else {
        var p :| p in Stale(w);
        var s := Snap(p, w.known[p]);
        assert Can(w, Capture([s])) && Matched(w, s) && s in [s];
        CaptureAgreesIff(w, [s]);
      }
    }
  }

  /** No call of the history gives up on an old claim. */
  ghost predicate NoHarm(w: World, actions: seq<Action>)
    requires History(w, actions)
    decreases |actions|
  {
    actions == []
    || ((actions[0].Uploading? ==> !Harms(w, actions[0].call)) && NoHarm(Act(w, actions[0]), actions[1..]))
  }

  /** Skipping is safe at the start, after every action, and at the end. */
  ghost predicate AlwaysSafe(w: World, actions: seq<Action>)
    requires History(w, actions)
    decreases |actions|
  {
    SafeToSkip(w) && (actions != [] ==> AlwaysSafe(Act(w, actions[0]), actions[1..]))
  }

  /**
   Over every history skipping matched pages leaves GPU memory as copying all of them, whatever is captured at any
   point of it, exactly when no call gives up on an old claim.
   */
  lemma {:induction false} SkippingLosesNothingIff(w: World, actions: seq<Action>)
    requires Faithful(w) && History(w, actions)
    ensures AlwaysSafe(w, actions) <==> NoHarm(w, actions)
    ensures NoHarm(w, actions) ==> Faithful(After(w, actions))
    decreases |actions|
  {
    hide Harms, SafeToSkip, Sound, Stale;
    SafeIffNothingStale(w);
    if actions != [] {
      var a := actions[0];
      ActFaithfulIff(w, a);
      if Faithful(Act(w, a)) {
        SkippingLosesNothingIff(Act(w, a), actions[1..]);
      } else {
        SafeIffNothingStale(Act(w, a));
        assert !SafeToSkip(Act(w, a));
      }
    }
  }

  /** One action: it ends quiet and sound, and faithful exactly when it does no harm. */
  lemma ActFaithfulIff(w: World, a: Action)
    requires Faithful(w) && Acts(w, a)
    ensures Quiet(Act(w, a)) && Sound(Act(w, a))
    ensures Faithful(Act(w, a)) <==> !(a.Uploading? && Harms(w, a.call))
  {
    if a.Uploading? {
      hide Harms;
      CallFaithfulIff(w, a.call);
      var after := Run(w, a.call.events, a.call.pages);
      RunSound(w, a.call.events, a.call.pages);
      if Finish(w, a.call) != after {
        StepSound(after, Overwrite(a.call.pages, a.call.again));
      }
    } else {
      StepSound(w, a.event);
      StepStaleWithin(w, a.event);
    }
  }

  // ----- one chunk -----

  /** Page `k` of a chunk at a page-aligned address is not the one the shadow knows. */
  ghost predicate Changed(known: map<nat, Bytes>, first: nat, source: seq<Bytes>, k: nat) {
    k < |source| && !(first + k in known && known[first + k] == source[k])
  }

  /**
   Sorts the pages of one captured chunk into those to copy and those to skip, given as whole pages. Direct
   mode also captures the changed ones, each at its own place; the rest of the scratch is left alone.
   */
  method ClassifyUploadPages(shadow: Shadow, address: nat, source: seq<Bytes>, scratch: seq<Bytes>, direct: bool)
    returns (changed: set<nat>, matched: nat, captured: seq<Bytes>)
    requires shadow.Valid() && shadow.pageBytes != 0 && |scratch| == |source|
    requires address % shadow.pageBytes == 0 && address + |source| * shadow.pageBytes <= PHYSICAL_BYTES
    requires forall k | 0 <= k < |source| :: |source[k]| == shadow.pageBytes
    ensures forall k: nat :: k in changed <==> Changed(shadow.Identity(), address / shadow.pageBytes, source, k)
    ensures matched + |changed| == |source| == |captured|
    ensures forall k | 0 <= k < |source| :: captured[k] == if direct && k in changed then source[k] else scratch[k]
  {
    hide Shadow.Valid, Shadow.Identity;
    ghost var first := address / shadow.pageBytes;
    changed, matched, captured := {}, 0, scratch;
    var page := 0;
    while page < |source|
      invariant 0 <= page <= |source| == |captured| && matched + |changed| == page
      invariant forall k: nat :: k in changed <==> k < page && Changed(shadow.Identity(), first, source, k)
      invariant forall k | 0 <= k < |source| :: captured[k] == if direct && k in changed then source[k] else scratch[k]
    {
      PageAt(address, page, |source|, shadow.pageBytes);
      var known := shadow.Matches(address + page * shadow.pageBytes, source[page]);
      assert known <==> !Changed(shadow.Identity(), first, source, page);
      if known {
        matched := matched + 1;
      } else {
        changed := changed + {page};
        if direct {
          captured := captured[page := source[page]];
        }
      }
      page := page + 1;
    }
  }

  lemma PageAt(address: nat, k: nat, count: nat, size: nat)
    requires size > 0 && address % size == 0 && k < count && address + count * size <= PHYSICAL_BYTES
    ensures (address + k * size) % size == 0 && (address + k * size) / size == address / size + k
    ensures address + k * size < PHYSICAL_BYTES && size <= PHYSICAL_BYTES - (address + k * size)
  {
    var q := address / size;
    assert address == q * size;
    assert address + k * size == (q + k) * size;
    Multiple(q + k, size);
    MulBelow(k, count, size);
  }

  lemma Multiple(q: nat, size: nat)
    requires size > 0
    ensures (q * size) % size == 0 && (q * size) / size == q
  {
    DivCompare(q * size, q, size);
    DivBounds(q * size, size);
  }

  /** Copies the changed pages in ascending runs, each as long as it can be; a run is its first page and length. */
  method CopyRuns(count: nat, changed: set<nat>) returns (runs: seq<(nat, nat)>)
    ensures forall i | 0 <= i < |runs| :: runs[i].1 > 0 && runs[i].0 + runs[i].1 <= count
    ensures forall i, j | 0 <= i < j < |runs| :: runs[i].0 + runs[i].1 < runs[j].0
    ensures forall k | 0 <= k < count :: k in changed <==> Inside(runs, k)
  {
    hide Inside;
    runs := [];
    var page := 0;
    NoneInside();
    while page < count
      invariant 0 <= page <= count
      invariant forall i | 0 <= i < |runs| :: runs[i].1 > 0 && runs[i].0 + runs[i].1 <= page
      invariant forall i, j | 0 <= i < j < |runs| :: runs[i].0 + runs[i].1 < runs[j].0
      invariant runs != [] && page < count && page in changed ==> runs[|runs| - 1].0 + runs[|runs| - 1].1 < page
      invariant forall k | 0 <= k < page :: k in changed <==> Inside(runs, k)
    {
      if page !in changed {
        NotInside(runs, page);
        page := page + 1;
        continue;
      }
      var first := page;
      page := page + 1;
      while page < count && page in changed
        invariant first < page <= count
        invariant forall k | first <= k < page :: k in changed
      {
        page := page + 1;
      }
      ghost var before := runs;
      runs := runs + [(first, page - first)];
      RunAppended(before, first, page, changed);
    }
  }

  lemma NotInside(runs: seq<(nat, nat)>, page: nat)
    requires forall i | 0 <= i < |runs| :: runs[i].0 + runs[i].1 <= page
    ensures !Inside(runs, page)
  {}

  lemma NoneInside()
    ensures forall k: nat :: !Inside([], k)
  {}

  lemma RunAppended(runs: seq<(nat, nat)>, first: nat, page: nat, changed: set<nat>)
    requires first < page && forall k: nat | k < first :: k in changed <==> Inside(runs, k)
    requires forall i | 0 <= i < |runs| :: runs[i].0 + runs[i].1 <= first
    requires forall k: nat | first <= k < page :: k in changed
    ensures forall k: nat | k < page :: k in changed <==> Inside(runs + [(first, page - first)], k)
  {
    forall k: nat | k < page ensures k in changed <==> Inside(runs + [(first, page - first)], k) {
      InsideAppend(runs, first, page - first, k);
    }
  }

  lemma InsideAppend(runs: seq<(nat, nat)>, first: nat, length: nat, k: nat)
    ensures Inside(runs + [(first, length)], k) <==> Inside(runs, k) || first <= k < first + length
  {
    var after := runs + [(first, length)];
    assert after[|runs|] == (first, length);
    assert forall i | 0 <= i < |runs| :: after[i] == runs[i];
  }

  ghost predicate Inside(runs: seq<(nat, nat)>, k: nat) {
    exists i :: 0 <= i < |runs| && runs[i].0 <= k < runs[i].0 + runs[i].1
  }

  // ----- the history that does lose bytes -----

  /** Page 0 holds `a`; a call replaces it by `b`, page 1 is written meanwhile, and the call runs out of memory. */
  function LateFailure(b: Bytes, c: Bytes): Call {
    Call({0}, [Capture([Snap(0, b)]), Copy, Overwrite({1}, map[1 := c]), Publish({})], true, map[])
  }

  function Started(a: Bytes, c: Bytes): World {
    World(Gate(1, true), map[0 := a], map[0 := a, 1 := c], map[0 := a, 1 := c], 1, [], [])
  }

  lemma RunsOne(w: World, e: Event, events: seq<Event>, unseen: set<nat>)
    requires Can(w, e) && (e.Capture? ==> PagesOf(e.chunk) <= unseen)
    requires Runs(Step(w, e), events, Unseen(e, unseen))
    ensures Runs(w, [e] + events, unseen)
    ensures Run(w, [e] + events, unseen)
            == Run(Step(w, e), events, Unseen(e, unseen))
  {
    assert ([e] + events)[1..] == events;
  }

  lemma LateFailureRuns(a: Bytes, b: Bytes, c: Bytes)
    requires a != b
    ensures Runs(Started(a, c), LateFailure(b, c).events, {0})
    ensures Run(Started(a, c), LateFailure(b, c).events, {0})
            == World(Gate(2, true), map[0 := a], map[0 := b, 1 := c], map[0 := b, 1 := c], 1, [], [])
  {
    hide Runs, Run, Step, Misses, Hits, Put, PagesOf;
    assert PagesOf([Snap(0, b)]) == {0} by { OnePage(Snap(0, b)); }
    var w, s := Started(a, c), Snap(0, b);
    var memory := map[0 := b, 1 := c];
    var w1 := World(Gate(1, true), map[0 := a], map[0 := a, 1 := c], map[0 := a, 1 := c], 1, [s], []);
    var w2 := World(Gate(1, true), map[0 := a], memory, memory, 1, [], [s]);
    var w3 := World(Gate(2, true), map[0 := a], memory, memory, 1, [], [s]);
    var w4 := World(Gate(2, true), map[0 := a], memory, memory, 1, [], []);
    LateFailureSteps(a, b, c);
    assert [Publish({})] + [] == [Publish({})];
    RunsNone(w4, {0} - PagesOf([s]));
    RunsOne(w3, Publish({}), [], {0} - PagesOf([s]));
    RunsOne(w2, Overwrite({1}, map[1 := c]), [Publish({})], {0} - PagesOf([s]));
    RunsOne(w1, Copy, [Overwrite({1}, map[1 := c])] + [Publish({})], {0} - PagesOf([s]));
    RunsOne(w, Capture([s]), [Copy] + ([Overwrite({1}, map[1 := c])] + [Publish({})]), {0});
    assert LateFailure(b, c).events == [Capture([s])] + ([Copy] + ([Overwrite({1}, map[1 := c])] + [Publish({})]));
  }

  lemma OnePage(s: Snap)
    ensures PagesOf([s]) == {s.page}
  {}

  lemma RunsNone(w: World, unseen: set<nat>)
    ensures Runs(w, [], unseen) && Run(w, [], unseen) == w
  {}

  lemma LateFailureSteps(a: Bytes, b: Bytes, c: Bytes)
    requires a != b
    ensures var memory, s := map[0 := b, 1 := c], Snap(0, b);
            var w1 := World(Gate(1, true), map[0 := a], map[0 := a, 1 := c], map[0 := a, 1 := c], 1, [s], []);
            var w2 := World(Gate(1, true), map[0 := a], memory, memory, 1, [], [s]);
            var w3 := World(Gate(2, true), map[0 := a], memory, memory, 1, [], [s]);
            var w4 := World(Gate(2, true), map[0 := a], memory, memory, 1, [], []);
            && Can(Started(a, c), Capture([s])) && Step(Started(a, c), Capture([s])) == w1
            && Step(w1, Copy) == w2 && Step(w2, Overwrite({1}, map[1 := c])) == w3 && Step(w3, Publish({})) == w4
  {
    var w, s := Started(a, c), Snap(0, b);
    assert Misses(w, [s]) == [s] && Hits(w, [s]) == [];
    assert map[0 := a, 1 := c][0 := b] == map[0 := b, 1 := c];
    assert map[0 := b, 1 := c] + map[1 := c] == map[0 := b, 1 := c];
    assert map[0 := a] - {1} == map[0 := a];
  }

  lemma StartedFaithful(a: Bytes, c: Bytes)
    ensures Faithful(Started(a, c))
  {}

  /**
   The failed call keeps the old identity of page 0, so the next call that captures those old bytes skips a
   page GPU memory does not hold.
   */
  lemma LateFailureLosesBytes(a: Bytes, b: Bytes, c: Bytes)
    requires a != b
    ensures Faithful(Started(a, c)) && Callable(Started(a, c), LateFailure(b, c))
    ensures var w := Finish(Started(a, c), LateFailure(b, c));
            var next := Capture([Snap(0, a)]);
            Stale(w) == {0} && Can(w, next) && Step(w, next).gpu == map[0 := b] + map[1 := c]
            && Step(w, next).reference == map[0 := a] + map[1 := c]
    ensures Harms(Started(a, c), LateFailure(b, c))
  {
    hide Runs, Run, Faithful, Harms;
    StartedFaithful(a, c);
    LateFailureRuns(a, b, c);
    var w := Finish(Started(a, c), LateFailure(b, c));
    assert Hits(w, [Snap(0, a)]) == [Snap(0, a)];
    assert Put(w.reference, [Snap(0, a)]) == w.reference[0 := a];
    CallFaithfulIff(Started(a, c), LateFailure(b, c));
    StaleIsUnfaithful(w, 0);
  }

  lemma StaleIsUnfaithful(w: World, p: nat)
    requires p in Stale(w)
    ensures !Faithful(w)
  {}
}
