/**
 The replay worker: a one-slot handoff of recorded command streams to a second thread
 (src/gpu/native/native_replay_worker.cpp).

 Every section under the mutex, every call into the graphics API and the atomic store of the result is one step; the
 steps of both threads interleave freely. `gpu` is what reached the queue.
 */
module ReplayWorker {

  import opened Wrappers

  type Command(==, 0, !new)

  type Stream = seq<Command>

  const NO_FENCE_VALUE: nat := 0xFFFF_FFFF_FFFF_FFFF

  datatype State = Idle | Queued | Running | Complete

  datatype Operation = Whole | Begin | Append | Finish

  /** Where the worker is inside the job it runs. */
  datatype Phase =
    | Resting
    | ResetAllocator
    | ResetList
    | Replay
    | Close
    | Submit
    | Signalling
    | Returning(ok: bool)
    | Reported(ok: bool)

  /** The queue and fence a session was started with. */
  datatype Target = Target(queue: nat, fence: nat, value: nat)

  datatype GpuCall = Execute(queue: nat, list: Stream) | Signal(queue: nat, fence: nat, value: nat)

  /** What the command thread has handed over under one fence value. */
  datatype Session = Session(target: Target, chunks: seq<Stream>, closed: bool)

  /**
   The worker's fields, the calls that reached the queue, and the sessions accepted so far. `job` holds the
   references of the session in progress and `failed` is the latched result.
   */
  datatype Worker = Worker(state: State, session: bool, operation: Operation, stream: Stream, job: Option<Target>,
                           ok: bool, failed: bool, list: Stream, phase: Phase, gpu: seq<GpuCall>, accepted: seq<Session>)

  // ----- the command thread -----

  predicate CanStart(w: Worker, value: nat) {
    value != 0 && value != NO_FENCE_VALUE && w.state == Idle && !w.session && !w.failed
  }

  function Start(w: Worker, source: Stream, target: Target, chunks: bool): Worker {
    if !CanStart(w, target.value) then w
    else w.(job := Some(target), operation := if chunks then Begin else Whole, stream := source, session := chunks,
            state := Queued, ok := true, accepted := w.accepted + [Session(target, [source], !chunks)])
  }

  predicate IsFinal(o: Operation) { o == Whole || o == Finish }

  /** Takes a completed job out of the slot; a final one also ends the session and drops its references. */
  function Reap(w: Worker): Worker {
    if w.state != Complete then w
    else if IsFinal(w.operation) then w.(job := None, session := false, state := Idle)
    else w.(state := Idle)
  }

  predicate CanContinue(w: Worker) {
    w.state == Idle && w.session && !w.failed
  }

  function AddChunk(w: Worker, source: Stream, last: bool): Worker {
    w.(operation := if last then Finish else Append, stream := source, state := Queued,
       accepted := Extended(w.accepted, source, last))
  }

  /** The chunk belongs to the session started last. */
  function Extended(sessions: seq<Session>, source: Stream, last: bool): seq<Session> {
    if sessions == [] then []
    else
      var n := |sessions| - 1;
      sessions[n := sessions[n].(chunks := sessions[n].chunks + [source], closed := last)]
  }

  function TryAppendChunk(w: Worker, source: Stream): Worker {
    var r := Reap(w);
    if CanContinue(r) then AddChunk(r, source, false) else r
  }

  function FinishChunks(w: Worker, source: Stream): Worker {
    if CanContinue(w) then AddChunk(w, source, true) else w
  }

  // ----- the worker thread -----

  function Pick(w: Worker): Worker
    requires w.state == Queued
  {
    w.(state := Running, phase := if w.operation == Whole || w.operation == Begin then ResetAllocator else Replay)
  }

  /** One call of the job; a failed replay may have recorded any part of the stream. */
  function Work(w: Worker, ok: bool, recorded: nat): Worker
    requires w.state == Running && w.job.Some? && recorded <= |w.stream|
  {
    match w.phase
    case ResetAllocator => w.(phase := if ok then ResetList else Returning(false))
    case ResetList => if ok then w.(phase := Replay, list := []) else w.(phase := Returning(false))
    case Replay =>
      if !ok then w.(phase := Returning(false), list := w.list + w.stream[..recorded])
      else w.(list := w.list + w.stream, phase := if IsFinal(w.operation) then Close else Returning(true))
    case Close => w.(phase := if ok then Submit else Returning(false))
    case Submit => w.(phase := Signalling, gpu := w.gpu + [Execute(w.job.value.queue, w.list)])
    case Signalling =>
      if !ok then w.(phase := Returning(false))
      else w.(phase := Returning(true), gpu := w.gpu + [Signal(w.job.value.queue, w.job.value.fence, w.job.value.value)])
    case Returning(r) => w.(phase := Reported(r), failed := w.failed || !r)
    case Reported(r) => w.(phase := Resting, ok := r, state := Complete)
    case Resting => w
  }

  datatype Action =
    | Starting(source: Stream, target: Target, chunks: bool)
    | Appending(source: Stream)
    | Finishing(source: Stream)
    | Reaping
    | Waiting
    | Picking
    | Working(ok: bool, recorded: nat)

  predicate Can(w: Worker, a: Action) {
    match a
    case Waiting => w.state == Idle || w.state == Complete
    case Picking => w.state == Queued
    case Working(_, recorded) => w.state == Running && w.job.Some? && recorded <= |w.stream|
    case _ => true
  }

  function Step(w: Worker, a: Action): Worker
    requires Can(w, a)
  {
    match a
    case Starting(source, target, chunks) => Start(w, source, target, chunks)
    case Appending(source) => TryAppendChunk(w, source)
    case Finishing(source) => FinishChunks(w, source)
    case Reaping => Reap(w)
    case Waiting => Reap(w)
    case Picking => Pick(w)
    case Working(ok, recorded) => Work(w, ok, recorded)
  }

  predicate Initial(w: Worker) {
    w.state == Idle && !w.session && !w.failed && w.phase == Resting && w.gpu == [] && w.accepted == []
  }

  // ----- what the sessions ask for -----

  function Joined(chunks: seq<Stream>): Stream {
    if chunks == [] then [] else Joined(chunks[..|chunks| - 1]) + chunks[|chunks| - 1]
  }

  function Calls(s: Session): seq<GpuCall> {
    [Execute(s.target.queue, Joined(s.chunks)), Signal(s.target.queue, s.target.fence, s.target.value)]
  }

  /** One list and one signal for each session, in the order they were started. */
  function AllCalls(sessions: seq<Session>): seq<GpuCall> {
    if sessions == [] then [] else AllCalls(sessions[..|sessions| - 1]) + Calls(sessions[|sessions| - 1])
  }

  /** The sessions before the last one are done; `calls` is what the last one has issued. */
  ghost predicate Issued(w: Worker, calls: nat)
    requires w.accepted != [] && calls <= 2
  {
    Reached(w.gpu, w.accepted, calls)
  }

  ghost predicate Reached(gpu: seq<GpuCall>, sessions: seq<Session>, calls: nat)
    requires sessions != [] && calls <= 2
  {
    var n := |sessions| - 1;
    gpu == AllCalls(sessions[..n]) + Calls(sessions[n])[..calls]
  }

  /** The chunk in the slot is the last of the session, and the list holds the ones before it. */
  ghost predicate Slotted(w: Worker)
    requires w.accepted != []
  {
    var s := w.accepted[|w.accepted| - 1];
    && s.chunks != [] && w.stream == s.chunks[|s.chunks| - 1]
    && w.job == Some(s.target) && s.closed == IsFinal(w.operation) && w.session == (w.operation != Whole)
    && (w.operation == Whole || w.operation == Begin ==> |s.chunks| == 1)
  }

  ghost predicate ListHolds(w: Worker, chunks: nat)
    requires w.accepted != []
  {
    var s := w.accepted[|w.accepted| - 1];
    chunks <= |s.chunks| && w.list == Joined(s.chunks[..chunks])
  }

  function Before(w: Worker): nat
    requires w.accepted != []
  {
    var chunks := w.accepted[|w.accepted| - 1].chunks;
    if chunks == [] then 0 else |chunks| - 1
  }

  /** The job at each point of the worker. */
  ghost predicate AtPhase(w: Worker)
    requires w.accepted != [] && Slotted(w)
  {
    var starts := w.operation == Whole || w.operation == Begin;
    match w.phase
    case Resting => false
    case ResetAllocator => starts && !w.failed && Issued(w, 0)
    case ResetList => starts && !w.failed && Issued(w, 0)
    case Replay => !w.failed && Issued(w, 0) && ListHolds(w, Before(w))
    case Close => IsFinal(w.operation) && !w.failed && Issued(w, 0) && ListHolds(w, Before(w) + 1)
    case Submit => IsFinal(w.operation) && !w.failed && Issued(w, 0) && ListHolds(w, Before(w) + 1)
    case Signalling => IsFinal(w.operation) && !w.failed && Issued(w, 1)
    case Returning(ok) => !w.failed && Returned(w, ok)
    case Reported(ok) => w.failed == !ok && Returned(w, ok)
  }

  /** A job that succeeded has recorded its chunk, and submitted the session if it was the last; one that failed never signalled. */
  ghost predicate Returned(w: Worker, ok: bool)
    requires w.accepted != [] && Slotted(w)
  {
    if ok then (if IsFinal(w.operation) then Issued(w, 2) else Issued(w, 0) && ListHolds(w, Before(w) + 1))
    else Issued(w, 0) || (IsFinal(w.operation) && Issued(w, 1))
  }

  ghost predicate Stuck(w: Worker) {
    w.accepted != [] && (Issued(w, 0) || (w.accepted[|w.accepted| - 1].closed && Issued(w, 1)))
  }

  ghost predicate Inv(w: Worker) {
    match w.state
    case Idle =>
      w.phase == Resting
      && if w.failed then Stuck(w)
         else if w.session then
           w.accepted != [] && Issued(w, 0) && ListHolds(w, Before(w) + 1) && w.accepted[|w.accepted| - 1].chunks != []
           && w.job == Some(w.accepted[|w.accepted| - 1].target)
         else w.gpu == AllCalls(w.accepted)
    case Queued =>
      w.phase == Resting && !w.failed && w.accepted != [] && Slotted(w) && Issued(w, 0)
      && (w.operation == Append || w.operation == Finish ==> ListHolds(w, Before(w)))
    case Running => w.accepted != [] && Slotted(w) && AtPhase(w)
    case Complete => w.phase == Resting && w.accepted != [] && Slotted(w) && w.failed == !w.ok && Returned(w, w.ok)
  }

  // ----- every step keeps it -----

  lemma StartKeeps(w: Worker, source: Stream, target: Target, chunks: bool)
    requires Inv(w)
    ensures Inv(Start(w, source, target, chunks))
  {
    if CanStart(w, target.value) {
      var after := Start(w, source, target, chunks);
      var n := |w.accepted|;
      assert after.accepted[..n] == w.accepted;
      assert Calls(after.accepted[n])[..0] == [];
    }
  }

  lemma JoinedOne(chunks: seq<Stream>, source: Stream)
    ensures Joined(chunks + [source]) == Joined(chunks) + source
    ensures (chunks + [source])[..|chunks|] == chunks
  {
    assert (chunks + [source])[..|chunks|] == chunks;
  }

  lemma AddChunkKeeps(w: Worker, source: Stream, last: bool)
    requires Inv(w) && CanContinue(w)
    ensures Inv(AddChunk(w, source, last))
  {
    var after, n := AddChunk(w, source, last), |w.accepted| - 1;
    var s, s' := w.accepted[n], after.accepted[n];
    JoinedOne(s.chunks, source);
    assert after.accepted[..n] == w.accepted[..n];
    assert Calls(s)[..0] == Calls(s')[..0] == [];
    assert s'.chunks[..|s.chunks|] == s.chunks && s.chunks[..|s.chunks|] == s.chunks;
  }

  lemma ReapKeeps(w: Worker)
    requires Inv(w)
    ensures Inv(Reap(w))
  {
    if w.state == Complete && w.ok && IsFinal(w.operation) {
      var n := |w.accepted| - 1;
      assert Calls(w.accepted[n])[..2] == Calls(w.accepted[n]);
    }
  }

  lemma PickKeeps(w: Worker)
    requires Inv(w) && w.state == Queued
    ensures Inv(Pick(w))
  {}

  lemma WorkKeeps(w: Worker, ok: bool, recorded: nat)
    requires Inv(w) && Can(w, Working(ok, recorded))
    ensures Inv(Work(w, ok, recorded))
  {
    hide Inv;
    match w.phase {
      case Replay => ReplayKeeps(w, ok, recorded);
      case Submit => SubmitKeeps(w);
      case Signalling => SignalKeeps(w, ok, recorded);
      case Returning(_) => ReportKeeps(w, ok, recorded);
      case Reported(_) => ReportKeeps(w, ok, recorded);
      case _ => PrepareKeeps(w, ok, recorded);
    }
  }

  lemma PrepareKeeps(w: Worker, ok: bool, recorded: nat)
    requires Inv(w) && Can(w, Working(ok, recorded))
    requires w.phase == ResetAllocator || w.phase == ResetList || w.phase == Close || w.phase == Resting
    ensures Inv(Work(w, ok, recorded))
  {
    hide Reached;
    var s := w.accepted[|w.accepted| - 1];
    assert s.chunks[..0] == [];
    assert w.phase == ResetList ==> Joined(s.chunks[..0]) == [];
  }

  lemma ReportKeeps(w: Worker, ok: bool, recorded: nat)
    requires Inv(w) && Can(w, Working(ok, recorded)) && (w.phase.Returning? || w.phase.Reported?)
    ensures Inv(Work(w, ok, recorded))
  {
    hide Reached, Joined;
  }

  lemma ReplayKeeps(w: Worker, ok: bool, recorded: nat)
    requires Inv(w) && Can(w, Working(ok, recorded)) && w.phase == Replay
    ensures Inv(Work(w, ok, recorded))
  {
    hide Reached, Joined;
    if ok {
      var s := w.accepted[|w.accepted| - 1];
      var n := |s.chunks| - 1;
      LastChunk(s.chunks);
      assert Work(w, ok, recorded).list == Joined(s.chunks[..n + 1]);
    }
  }

  lemma LastChunk(chunks: seq<Stream>)
    requires chunks != []
    ensures Joined(chunks[..|chunks| - 1 + 1]) == Joined(chunks[..|chunks| - 1]) + chunks[|chunks| - 1]
  {
    assert chunks[..|chunks|] == chunks;
  }

  lemma SubmitKeeps(w: Worker)
    requires Inv(w) && w.state == Running && w.job.Some? && w.phase == Submit
    ensures Inv(Work(w, true, 0))
    ensures Work(w, true, 0) == Work(w, false, 0)
  {
    var n := |w.accepted| - 1;
    var s := w.accepted[n];
    assert s.chunks[..|s.chunks|] == s.chunks;
    assert Calls(s)[..1] == Calls(s)[..0] + [Execute(s.target.queue, w.list)];
    Grows(AllCalls(w.accepted[..n]), Calls(s)[..0], [Execute(s.target.queue, w.list)]);
  }

  lemma SignalKeeps(w: Worker, ok: bool, recorded: nat)
    requires Inv(w) && Can(w, Working(ok, recorded)) && w.phase == Signalling
    ensures Inv(Work(w, ok, recorded))
  {
    var n := |w.accepted| - 1;
    var s := w.accepted[n];
    var signal := Signal(s.target.queue, s.target.fence, s.target.value);
    assert Calls(s)[..2] == Calls(s)[..1] + [signal];
    Grows(AllCalls(w.accepted[..n]), Calls(s)[..1], [signal]);
  }

  lemma Grows(a: seq<GpuCall>, b: seq<GpuCall>, c: seq<GpuCall>)
    ensures a + b + c == a + (b + c)
  {}

  lemma StepKeeps(w: Worker, a: Action)
    requires Inv(w) && Can(w, a)
    ensures Inv(Step(w, a))
  {
    hide Inv;
    match a {
      case Starting(source, target, chunks) => StartKeeps(w, source, target, chunks);
      case Appending(source) =>
        ReapKeeps(w);
        if CanContinue(Reap(w)) { AddChunkKeeps(Reap(w), source, false); }
      case Finishing(source) =>
        if CanContinue(w) { AddChunkKeeps(w, source, true); }
      case Reaping => ReapKeeps(w);
      case Waiting => ReapKeeps(w);
      case Picking => PickKeeps(w);
      case Working(ok, recorded) => WorkKeeps(w, ok, recorded);
    }
  }

  // ----- whole runs -----

  ghost predicate Legal(w: Worker, actions: seq<Action>)
    decreases |actions|
  {
    actions == [] || (Can(w, actions[0]) && Legal(Step(w, actions[0]), actions[1..]))
  }

  function Run(w: Worker, actions: seq<Action>): Worker
    requires Legal(w, actions)
    decreases |actions|
  {
    if actions == [] then w else Run(Step(w, actions[0]), actions[1..])
  }

  lemma {:induction false} RunKeeps(w: Worker, actions: seq<Action>)
    requires Inv(w) && Legal(w, actions)
    ensures Inv(Run(w, actions))
    decreases |actions|
  {
    if actions != [] {
      StepKeeps(w, actions[0]);
      RunKeeps(Step(w, actions[0]), actions[1..]);
    }
  }

  /**
   After any interleaving, what reached the queue is, for every session but the last, its chunks joined into one
   list and then its signal, in the order the sessions were started; the last has issued none of that, its list
   only, or both. An idle worker with no open session and no failure has issued everything.
   */
  lemma SessionsReachTheQueue(w: Worker, actions: seq<Action>)
    requires Initial(w) && Legal(w, actions)
    ensures var end := Run(w, actions);
            if end.accepted == [] then end.gpu == []
            else exists calls: nat | calls <= 2 :: Issued(end, calls)
    ensures var end := Run(w, actions);
            end.state == Idle && !end.session && !end.failed ==> end.gpu == AllCalls(end.accepted)
  {
    RunKeeps(w, actions);
    var end := Run(w, actions);
    if end.accepted != [] {
      var n := |end.accepted| - 1;
      assert Calls(end.accepted[n])[..2] == Calls(end.accepted[n]);
      assert end.gpu == AllCalls(end.accepted) ==> Issued(end, 2);
      assert Issued(end, 0) || Issued(end, 1) || Issued(end, 2);
    }
  }

  /** A session that failed was never signalled, and was submitted at most as a whole. */
  lemma FailedNeverSignals(w: Worker, actions: seq<Action>)
    requires Initial(w) && Legal(w, actions) && Run(w, actions).failed
    ensures var end := Run(w, actions);
            end.accepted != [] && (Issued(end, 0) || (end.accepted[|end.accepted| - 1].closed && Issued(end, 1)))
  {
    RunKeeps(w, actions);
  }

  /** Once a failure is latched nothing more is accepted, executed or signalled, whatever either thread does. */
  lemma {:induction false} FailureIsFinal(w: Worker, actions: seq<Action>)
    requires Inv(w) && w.failed && Legal(w, actions)
    ensures Run(w, actions).failed && Run(w, actions).gpu == w.gpu && Run(w, actions).accepted == w.accepted
    decreases |actions|
  {
    if actions != [] {
      StepKeeps(w, actions[0]);
      FailedStep(w, actions[0]);
      FailureIsFinal(Step(w, actions[0]), actions[1..]);
    }
  }

  lemma FailedStep(w: Worker, a: Action)
    requires Inv(w) && w.failed && Can(w, a)
    ensures Step(w, a).failed && Step(w, a).gpu == w.gpu && Step(w, a).accepted == w.accepted
  {}

  /** The stream and the session's references stay put from handing over until completion. */
  lemma SlotIsFrozen(w: Worker, a: Action)
    requires Can(w, a) && (w.state == Queued || w.state == Running)
    ensures Step(w, a).stream == w.stream && Step(w, a).job == w.job && Step(w, a).operation == w.operation
    ensures Step(w, a).accepted == w.accepted
  {
    match a {
      case Working(ok, recorded) => WorkIsLocal(w, ok, recorded);
      case _ =>
    }
  }

  lemma WorkIsLocal(w: Worker, ok: bool, recorded: nat)
    requires Can(w, Working(ok, recorded))
    ensures var after := Work(w, ok, recorded);
            after.stream == w.stream && after.job == w.job && after.operation == w.operation
            && after.accepted == w.accepted
  {}

  // ----- the object -----

  /** How the graphics API answers during one job; a failed replay records only part of the stream. */
  datatype Answers = Answers(allocatorReset: bool, listReset: bool, replay: bool, recorded: nat, close: bool, signal: bool)

  function Answer(a: Answers, phase: Phase): bool {
    match phase
    case ResetAllocator => a.allocatorReset
    case ResetList => a.listReset
    case Replay => a.replay
    case Close => a.close
    case Signalling => a.signal
    case _ => true
  }

  function CallsLeft(phase: Phase): nat {
    match phase
    case ResetAllocator => 6
    case ResetList => 5
    case Replay => 4
    case Close => 3
    case Submit => 2
    case Signalling => 1
    case _ => 0
  }

  /** The worker's own steps from picking a job to having its result. */
  function Drive(w: Worker, a: Answers): Worker
    requires w.state == Running && w.job.Some? && a.recorded <= |w.stream|
    decreases CallsLeft(w.phase)
  {
    if CallsLeft(w.phase) == 0 then w else Drive(Work(w, Answer(a, w.phase), a.recorded), a)
  }

  lemma DriveOnce(w: Worker, a: Answers) returns (next: Worker)
    requires w.state == Running && w.job.Some? && a.recorded <= |w.stream| && CallsLeft(w.phase) != 0
    ensures next == Work(w, Answer(a, w.phase), a.recorded)
    ensures next.state == Running && next.job.Some? && next.stream == w.stream
    ensures Drive(w, a) == Drive(next, a) && (CallsLeft(next.phase) == 0 ==> Drive(w, a) == next)
  {
    next := Work(w, Answer(a, w.phase), a.recorded);
  }

  class NativeReplayWorker {
    var state: State
    var session: bool
    var operation: Operation
    var stream: Stream
    var job: Option<Target>
    var ok: bool
    var failed: bool
    var list: Stream
    ghost var phase: Phase
    ghost var gpu: seq<GpuCall>
    ghost var accepted: seq<Session>

    ghost function Now(): Worker
      reads this
    {
      Worker(state, session, operation, stream, job, ok, failed, list, phase, gpu, accepted)
    }

    constructor ()
      ensures Initial(Now())
    {
      state, session, operation, stream, job, ok, failed, list := Idle, false, Whole, [], None, true, false, [];
      phase, gpu, accepted := Resting, [], [];
    }

    /** `source` is consumed only when the answer is true. */
    method StartJob(source: Stream, target: Target, chunks: bool) returns (started: bool)
      modifies this
      ensures Now() == Start(old(Now()), source, target, chunks)
      ensures started <==> CanStart(old(Now()), target.value)
    {
      if target.value == 0 || target.value == NO_FENCE_VALUE {
        return false;
      }
      if state != Idle || session || failed {
        return false;
      }
      job, ok := Some(target), true;
      operation := if chunks then Begin else Whole;
      stream := source;
      session, state := chunks, Queued;
      accepted := accepted + [Session(target, [source], !chunks)];
      return true;
    }

    method ReapCompletedLocked()
      modifies this
      ensures Now() == Reap(old(Now()))
    {
      if state != Complete {
        return;
      }
      if operation == Whole || operation == Finish {
        job, session := None, false;
      }
      state := Idle;
    }

    /** Never waits for a running chunk. */
    method ReadyForChunk() returns (ready: bool)
      modifies this
      ensures Now() == Reap(old(Now())) && (ready <==> Now().state == Idle && !Now().failed)
    {
      ReapCompletedLocked();
      return state == Idle && !failed;
    }

    method AppendChunk(source: Stream) returns (taken: bool)
      modifies this
      ensures Now() == TryAppendChunk(old(Now()), source) && (taken <==> CanContinue(Reap(old(Now()))))
    {
      ReapCompletedLocked();
      if state != Idle || !session || failed {
        return false;
      }
      operation, stream, state := Append, source, Queued;
      accepted := Extended(accepted, source, false);
      return true;
    }

    method FinishSession(source: Stream) returns (taken: bool)
      modifies this
      ensures Now() == FinishChunks(old(Now()), source) && (taken <==> CanContinue(old(Now())))
    {
      if state != Idle || !session || failed {
        return false;
      }
      operation, stream, state := Finish, source, Queued;
      accepted := Extended(accepted, source, true);
      return true;
    }

    method PickJob()
      requires state == Queued
      modifies this
      ensures Now() == Pick(old(Now()))
    {
      state := Running;
      phase := if operation == Whole || operation == Begin then ResetAllocator else Replay;
    }

    /** The job itself, outside the mutex; the result is whether every call succeeded. */
    method ExecuteJob(a: Answers) returns (succeeded: bool)
      requires state == Running && job.Some? && a.recorded <= |stream|
      requires phase == if operation == Whole || operation == Begin then ResetAllocator else Replay
      modifies this
      ensures Now() == Drive(old(Now()), a) && phase == Returning(succeeded)
    {
      if operation == Whole || operation == Begin {
        ghost var reset := DriveOnce(Now(), a);
        if a.allocatorReset {
          ghost var listed := DriveOnce(reset, a);
        }
        if !a.allocatorReset {
          phase := Returning(false);
          return false;
        }
        if !a.listReset {
          phase := Returning(false);
          return false;
        }
        list := [];
      }
      phase := Replay;
      succeeded := RecordAndSubmit(a);
    }

    method RecordAndSubmit(a: Answers) returns (succeeded: bool)
      requires state == Running && job.Some? && a.recorded <= |stream| && phase == Replay
      modifies this
      ensures Now() == Drive(old(Now()), a) && phase == Returning(succeeded)
    {
      if !a.replay {
        list, phase := list + stream[..a.recorded], Returning(false);
        return false;
      }
      list := list + stream;
      if operation == Begin || operation == Append {
        phase := Returning(true);
        return true;
      }
      phase := Close;
      succeeded := CloseAndSignal(a);
    }

    method CloseAndSignal(a: Answers) returns (succeeded: bool)
      requires state == Running && job.Some? && a.recorded <= |stream| && phase == Close
      modifies this
      ensures Now() == Drive(old(Now()), a) && phase == Returning(succeeded)
    {
      ghost var closed := DriveOnce(Now(), a);
      if a.close {
        ghost var submitted := DriveOnce(closed, a);
        ghost var signalled := DriveOnce(submitted, a);
      }
      if !a.close {
        phase := Returning(false);
        return false;
      }
      gpu := gpu + [Execute(job.value.queue, list)];
      if a.signal {
        gpu := gpu + [Signal(job.value.queue, job.value.fence, job.value.value)];
      }
      phase := Returning(a.signal);
      return a.signal;
    }
  }

  /** A job driven to its end keeps what every step keeps. */
  lemma {:induction false} DriveKeeps(w: Worker, a: Answers)
    requires Inv(w) && w.state == Running && w.job.Some? && a.recorded <= |w.stream|
    ensures Inv(Drive(w, a)) && Drive(w, a).state == Running
    decreases CallsLeft(w.phase)
  {
    hide Inv;
    if CallsLeft(w.phase) != 0 {
      WorkKeeps(w, Answer(a, w.phase), a.recorded);
      WorkIsLocal(w, Answer(a, w.phase), a.recorded);
      DriveKeeps(Work(w, Answer(a, w.phase), a.recorded), a);
    }
  }
}
