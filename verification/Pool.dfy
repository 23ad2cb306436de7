/** The worker pool as a step system: submitters, workers and shutdown callers take one
    statement at a time in any order.  A task is identified by its Submit call. */
module Pool {

  datatype Submitter =
    | Checking             // about to read isClosed
    | WaitingForMemory
    | Sending              // about to select on the task channel
    | Counting             // sent; about to bump submittedCount
    | Returned(ok: bool)

  datatype Worker =
    | Idle
    | Holding(task: nat)   // received, not started
    | Running(task: nat)
    | Exited

  datatype Closer =
    | Swapping             // about to compare-and-swap isClosed
    | Closing              // won the swap; about to close the channel
    | Waiting
    | Drained              // ShutdownContext returned nil
    | TimedOut

  datatype State = State(
    isClosed: bool, channelClosed: bool, done: bool, capacity: nat,
    queue: seq<nat>, workers: seq<Worker>,
    submitters: map<nat, Submitter>, nilTasks: set<nat>, closers: map<nat, Closer>,
    finished: multiset<nat>,   // one entry for each time a task was run to its end or panicked
    skipped: multiset<nat>,    // nil tasks passed over
    submittedCount: nat, executedCount: nat, failedCount: nat)

  datatype Step =
    | CallSubmit(s: nat, isNil: bool)
    | Advance(s: nat, to: Submitter)     // a Submit call's own tests and rejections
    | SendTask(s: nat)
    | CountSubmitted(s: nat)
    | ReceiveTask(w: nat)
    | LeaveLoop(w: nat)                  // the channel is closed and empty
    | PassOver(w: nat)                   // a nil task
    | StartTask(w: nat)
    | FinishTask(w: nat, panicked: bool)
    | AllDone
    | CallShutdown(c: nat)
    | WinSwap(c: nat)
    | CloseChannel(c: nat)
    | AdvanceCloser(c: nat, next: Closer)

  predicate AtSubmit(s: State, id: nat, at: Submitter) { id in s.submitters && s.submitters[id] == at }
  predicate AtClose(s: State, id: nat, at: Closer) { id in s.closers && s.closers[id] == at }

  /** Sending on a closed channel panics and is recovered into a rejection; a full queue is
      rejected by the select's default branch. */
  predicate CanSend(s: State) { !s.channelClosed && |s.queue| < s.capacity }

  predicate SubmitMoves(s: State, from: Submitter, to: Submitter) {
    match from
    case Checking => to == if s.isClosed then Returned(false) else WaitingForMemory
    case WaitingForMemory => to == Sending || to == Returned(false)
    case Sending => !CanSend(s) && to == Returned(false)
    case _ => false
  }

  /** The final select may take either branch when both are ready. */
  predicate CloserMoves(s: State, from: Closer, to: Closer) {
    match from
    case Swapping => s.isClosed && to == Waiting
    case Waiting => to == TimedOut || (s.done && to == Drained)
    case _ => false
  }

  predicate IsBusy(s: State, w: nat, running: bool) {
    w < |s.workers| && if running then s.workers[w].Running? else s.workers[w].Holding?
  }

  predicate IsIdle(s: State, w: nat) { w < |s.workers| && s.workers[w] == Idle }

  predicate Enabled(s: State, step: Step) {
    match step
    case CallSubmit(id, _) => id !in s.submitters
    case Advance(id, to) => id in s.submitters && SubmitMoves(s, s.submitters[id], to)
    case SendTask(id) => AtSubmit(s, id, Sending) && CanSend(s)
    case CountSubmitted(id) => AtSubmit(s, id, Counting)
    case ReceiveTask(w) => IsIdle(s, w) && s.queue != []
    case LeaveLoop(w) => IsIdle(s, w) && s.queue == [] && s.channelClosed
    case PassOver(w) => IsBusy(s, w, false) && s.workers[w].task in s.nilTasks
    case StartTask(w) => IsBusy(s, w, false) && s.workers[w].task !in s.nilTasks
    case FinishTask(w, _) => IsBusy(s, w, true)
    case AllDone => forall w :: 0 <= w < |s.workers| ==> s.workers[w] == Exited
    case CallShutdown(c) => c !in s.closers
    case WinSwap(c) => AtClose(s, c, Swapping) && !s.isClosed
    case CloseChannel(c) => AtClose(s, c, Closing)
    case AdvanceCloser(c, to) => c in s.closers && CloserMoves(s, s.closers[c], to)
  }

  function Apply(s: State, step: Step): State
    requires Enabled(s, step)
  {
    match step
    case CallSubmit(id, isNil) =>
      s.(submitters := s.submitters[id := Checking], nilTasks := s.nilTasks + if isNil then {id} else {})
    case Advance(id, to) => s.(submitters := s.submitters[id := to])
    case SendTask(id) => s.(submitters := s.submitters[id := Counting], queue := s.queue + [id])
    case CountSubmitted(id) =>
      s.(submitters := s.submitters[id := Returned(true)], submittedCount := s.submittedCount + 1)
    case ReceiveTask(w) => s.(workers := s.workers[w := Holding(s.queue[0])], queue := s.queue[1..])
    case LeaveLoop(w) => s.(workers := s.workers[w := Exited])
    case PassOver(w) =>
      s.(workers := s.workers[w := Idle], skipped := s.skipped + multiset{s.workers[w].task})
    case StartTask(w) =>
      s.(workers := s.workers[w := Running(s.workers[w].task)], executedCount := s.executedCount + 1)
    case FinishTask(w, panicked) =>
      s.(workers := s.workers[w := Idle], finished := s.finished + multiset{s.workers[w].task},
         failedCount := s.failedCount + (if panicked then 1 else 0))
    case AllDone => s.(done := true)
    case CallShutdown(c) => s.(closers := s.closers[c := Swapping])
    case WinSwap(c) => s.(isClosed := true, closers := s.closers[c := Closing])
    case CloseChannel(c) => s.(channelClosed := true, closers := s.closers[c := Waiting])
    case AdvanceCloser(c, to) => s.(closers := s.closers[c := to])
  }

  // ---------- accounting ----------

  /** The send of submission `id` succeeded. */
  predicate IsAccepted(s: State, id: nat) {
    id in s.submitters && (s.submitters[id] == Counting || s.submitters[id] == Returned(true))
  }

  function Accepted(s: State): set<nat> {
    set id | id in s.submitters && IsAccepted(s, id)
  }

  function Counted(s: State): set<nat> {
    set id | id in s.submitters && s.submitters[id] == Returned(true)
  }

  predicate Has(w: Worker, id: nat) {
    (w.Holding? || w.Running?) && w.task == id
  }

  /** How many workers have received `id` and not finished it. */
  function InHands(ws: seq<Worker>, id: nat): nat {
    if ws == [] then 0 else InHands(ws[..|ws| - 1], id) + if Has(ws[|ws| - 1], id) then 1 else 0
  }

  function BusyCount(ws: seq<Worker>): nat {
    if ws == [] then 0
    else BusyCount(ws[..|ws| - 1]) + if ws[|ws| - 1].Holding? || ws[|ws| - 1].Running? then 1 else 0
  }

  function RunningCount(ws: seq<Worker>): nat {
    if ws == [] then 0 else RunningCount(ws[..|ws| - 1]) + if ws[|ws| - 1].Running? then 1 else 0
  }

  lemma {:induction false} InHandsAfterUpdate(ws: seq<Worker>, i: nat, w: Worker, id: nat)
    requires i < |ws|
    ensures InHands(ws[i := w], id) ==
            InHands(ws, id) - (if Has(ws[i], id) then 1 else 0) + (if Has(w, id) then 1 else 0)
  {
    var n := |ws| - 1;
    if i == n {
      assert ws[i := w][..n] == ws[..n];
    } else {
      assert ws[i := w][..n] == ws[..n][i := w];
      InHandsAfterUpdate(ws[..n], i, w, id);
    }
  }

  lemma {:induction false} CountsAfterUpdate(ws: seq<Worker>, i: nat, w: Worker)
    requires i < |ws|
    ensures RunningCount(ws[i := w]) ==
            RunningCount(ws) - (if ws[i].Running? then 1 else 0) + (if w.Running? then 1 else 0)
    ensures BusyCount(ws[i := w]) == BusyCount(ws)
            - (if ws[i].Holding? || ws[i].Running? then 1 else 0) + (if w.Holding? || w.Running? then 1 else 0)
  {
    var n := |ws| - 1;
    if i == n {
      assert ws[i := w][..n] == ws[..n];
    } else {
      assert ws[i := w][..n] == ws[..n][i := w];
      CountsAfterUpdate(ws[..n], i, w);
    }
  }

  lemma {:induction false} NoneBusy(ws: seq<Worker>)
    requires forall w :: w in ws ==> !w.Holding? && !w.Running?
    ensures BusyCount(ws) == 0 && RunningCount(ws) == 0
  {
    if ws != [] {
      NoneBusy(ws[..|ws| - 1]);
    }
  }

  lemma {:induction false} NotInHands(ws: seq<Worker>, id: nat)
    requires forall w :: w in ws ==> !Has(w, id)
    ensures InHands(ws, id) == 0
  {
    if ws != [] {
      NotInHands(ws[..|ws| - 1], id);
    }
  }

  predicate AllExited(s: State) {
    forall w :: 0 <= w < |s.workers| ==> s.workers[w] == Exited
  }

  /** How often `id` is in the pool: queued, with a worker, finished, or passed over. */
  function Held(s: State, id: nat): nat {
    multiset(s.queue)[id] + InHands(s.workers, id) + s.finished[id] + s.skipped[id]
  }

  /** An accepted task is held exactly once, any other not at all. */
  ghost predicate Conserved(s: State) {
    forall id :: Held(s, id) == if IsAccepted(s, id) then 1 else 0
  }

  ghost predicate NilsApart(s: State) {
    && s.nilTasks <= s.submitters.Keys
    && (forall id :: id in s.finished ==> id in s.submitters && id !in s.nilTasks)
    && (forall id :: id in s.skipped ==> id in s.nilTasks)
    && (forall w :: w in s.workers && w.Running? ==> w.task in s.submitters && w.task !in s.nilTasks)
    && (forall w :: w in s.workers && w.Holding? ==> w.task in s.submitters)
    && (forall id :: id in s.queue ==> id in s.submitters)
  }

  ghost predicate Counters(s: State) {
    && |s.queue| <= s.capacity
    && s.submittedCount == |Counted(s)|
    && s.executedCount == |s.finished| + RunningCount(s.workers)
    && |Accepted(s)| == |s.queue| + BusyCount(s.workers) + |s.finished| + |s.skipped|
  }

  ghost predicate ClosersOk(s: State) {
    && (s.channelClosed ==> s.isClosed)
    && (forall c :: c in s.closers && s.closers[c] == Closing ==> s.isClosed && !s.channelClosed)
    && (forall c, d :: c in s.closers && d in s.closers && s.closers[c] == s.closers[d] == Closing ==> c == d)
    && (forall c :: c in s.closers && s.closers[c] == Drained ==> s.done)
    && (s.isClosed && !s.channelClosed ==> exists c :: AtClose(s, c, Closing))
  }

  ghost predicate WorkersOk(s: State) {
    && |s.workers| > 0
    && (Exited in s.workers ==> s.channelClosed && s.queue == [])
    && (s.done ==> AllExited(s))
  }

  ghost predicate Inv(s: State) {
    Conserved(s) && NilsApart(s) && Counters(s) && ClosersOk(s) && WorkersOk(s)
  }

  predicate Init(s: State) {
    && !s.isClosed && !s.channelClosed && !s.done
    && s.queue == [] && s.submitters == map[] && s.nilTasks == {} && s.closers == map[]
    && s.finished == s.skipped == multiset{}
    && s.submittedCount == s.executedCount == s.failedCount == 0
    && |s.workers| > 0 && forall w :: 0 <= w < |s.workers| ==> s.workers[w] == Idle
  }

  // ---------- preservation ----------

  predicate WorkerStep(step: Step) {
    step.ReceiveTask? || step.LeaveLoop? || step.PassOver? || step.StartTask? || step.FinishTask?
  }

  lemma AcceptedOnlyBySend(s: State, step: Step)
    requires Enabled(s, step)
    ensures Accepted(Apply(s, step)) == if step.SendTask? then Accepted(s) + {step.s} else Accepted(s)
    ensures Counted(Apply(s, step)) == if step.CountSubmitted? then Counted(s) + {step.s} else Counted(s)
  {
  }

  lemma SubmitStepHolds(s: State, step: Step, id: nat)
    requires Enabled(s, step) && !WorkerStep(step)
    ensures var s' := Apply(s, step);
      Held(s', id) - Held(s, id) ==
        (if IsAccepted(s', id) then 1 else 0) - (if IsAccepted(s, id) then 1 else 0)
  {
  }

  lemma ReceiveHolds(s: State, w: nat, id: nat)
    requires Enabled(s, ReceiveTask(w))
    ensures Held(Apply(s, ReceiveTask(w)), id) == Held(s, id)
  {
    InHandsAfterUpdate(s.workers, w, Holding(s.queue[0]), id);
    assert s.queue == [s.queue[0]] + s.queue[1..];
  }

  lemma WorkerStepHolds(s: State, step: Step, id: nat)
    requires Enabled(s, step) && WorkerStep(step)
    ensures Held(Apply(s, step), id) == Held(s, id)
  {
    if step.ReceiveTask? {
      ReceiveHolds(s, step.w, id);
    } else {
      InHandsAfterUpdate(s.workers, step.w, Apply(s, step).workers[step.w], id);
    }
  }

  lemma StepConserves(s: State, step: Step)
    requires Conserved(s) && Enabled(s, step)
    ensures Conserved(Apply(s, step))
  {
    var s' := Apply(s, step);
    forall id ensures Held(s', id) == if IsAccepted(s', id) then 1 else 0 {
      if WorkerStep(step) {
        WorkerStepHolds(s, step, id);
      } else {
        SubmitStepHolds(s, step, id);
      }
    }
  }

  lemma WorkerStepKeepsNilsApart(s: State, step: Step)
    requires NilsApart(s) && Enabled(s, step) && WorkerStep(step)
    ensures NilsApart(Apply(s, step))
  {
    var s' := Apply(s, step);
    assert s.workers[step.w] in s.workers;
    forall x | x in s'.workers ensures x in s.workers || x == s'.workers[step.w] {}
    assert step.ReceiveTask? ==> s.queue[0] in s.queue;
  }

  lemma StepKeepsNilsApart(s: State, step: Step)
    requires NilsApart(s) && Enabled(s, step)
    ensures NilsApart(Apply(s, step))
  {
    if WorkerStep(step) {
      WorkerStepKeepsNilsApart(s, step);
    }
  }

  lemma WorkerStepKeepsCounters(s: State, step: Step)
    requires Counters(s) && Enabled(s, step) && WorkerStep(step)
    ensures Counters(Apply(s, step))
  {
    AcceptedOnlyBySend(s, step);
    CountsAfterUpdate(s.workers, step.w, Apply(s, step).workers[step.w]);
  }

  lemma StepKeepsCounters(s: State, step: Step)
    requires Counters(s) && Enabled(s, step)
    ensures Counters(Apply(s, step))
  {
    if WorkerStep(step) {
      WorkerStepKeepsCounters(s, step);
    } else {
      AcceptedOnlyBySend(s, step);
    }
  }

  lemma StepKeepsClosersOk(s: State, step: Step)
    requires ClosersOk(s) && Enabled(s, step)
    ensures ClosersOk(Apply(s, step))
  {
    StepKeepsCloser(s, step);
  }

  /** Whoever has won the swap is there until the channel is closed. */
  lemma StepKeepsCloser(s: State, step: Step)
    requires ClosersOk(s) && Enabled(s, step)
    ensures var s' := Apply(s, step); s'.isClosed && !s'.channelClosed ==> exists c :: AtClose(s', c, Closing)
  {
    var s' := Apply(s, step);
    if s'.isClosed && !s'.channelClosed {
      if step.WinSwap? {
        assert AtClose(s', step.c, Closing);
      } else {
        var c :| AtClose(s, c, Closing);
        assert AtClose(s', c, Closing);
      }
    }
  }

  lemma StepKeepsWorkersOk(s: State, step: Step)
    requires WorkersOk(s) && ClosersOk(s) && Enabled(s, step)
    ensures WorkersOk(Apply(s, step))
  {
    if WorkerStep(step) {
      var s' := Apply(s, step);
      forall x | x in s'.workers ensures x in s.workers || x == s'.workers[step.w] {}
    }
    assert AllExited(s) ==> s.workers[0] == Exited;
  }

  lemma StepKeepsInv(s: State, step: Step)
    requires Inv(s) && Enabled(s, step)
    ensures Inv(Apply(s, step))
  {
    StepConserves(s, step);
    StepKeepsNilsApart(s, step);
    StepKeepsCounters(s, step);
    StepKeepsClosersOk(s, step);
    StepKeepsWorkersOk(s, step);
  }

  // ---------- whole runs ----------

  ghost predicate Reaches(s: State, steps: seq<Step>, end: State)
    decreases |steps|
  {
    if steps == [] then s == end
    else Enabled(s, steps[0]) && Reaches(Apply(s, steps[0]), steps[1..], end)
  }

  lemma {:induction false} RunKeepsInv(s: State, steps: seq<Step>, end: State)
    requires Inv(s) && Reaches(s, steps, end)
    ensures Inv(end)
    decreases |steps|
  {
    if steps != [] {
      StepKeepsInv(s, steps[0]);
      RunKeepsInv(Apply(s, steps[0]), steps[1..], end);
    }
  }

  lemma ReachableInv(s0: State, steps: seq<Step>, s: State)
    requires Init(s0) && Reaches(s0, steps, s)
    ensures Inv(s)
  {
    assert Accepted(s0) == {} && Counted(s0) == {};
    NoneBusy(s0.workers);
    forall id ensures Held(s0, id) == 0 { NotInHands(s0.workers, id); }
    RunKeepsInv(s0, steps, s);
  }

  /** Conservation in every reachable state: an accepted task is queued, in one worker's hands,
      finished or (if nil) passed over, in exactly one of these and once; any other is nowhere
      in the pool.  Hence the totals agree. */
  lemma EveryTaskAccounted(s0: State, steps: seq<Step>, s: State, id: nat)
    requires Init(s0) && Reaches(s0, steps, s)
    ensures multiset(s.queue)[id] + InHands(s.workers, id) + s.finished[id] + s.skipped[id] ==
            if id in Accepted(s) then 1 else 0
    ensures |Accepted(s)| == |s.queue| + BusyCount(s.workers) + |s.finished| + |s.skipped|
    ensures |s.queue| <= s.capacity
    ensures s.submittedCount == |Counted(s)| && s.executedCount == |s.finished| + RunningCount(s.workers)
  {
    ReachableInv(s0, steps, s);
    assert Held(s, id) == if IsAccepted(s, id) then 1 else 0;
  }

  /** Drain: once some ShutdownContext returned nil, every non-nil task whose send succeeded,
      in particular every one whose Submit returned true, has run exactly once, and nothing is
      queued or in hand; the send may have raced with the close.  A task whose Submit was turned
      down has not run at all. */
  lemma DrainedMeansRun(s0: State, steps: seq<Step>, s: State, c: nat, id: nat)
    requires Init(s0) && Reaches(s0, steps, s)
    requires AtClose(s, c, Drained) && id !in s.nilTasks
    ensures s.finished[id] == if id in Accepted(s) then 1 else 0
    ensures s.queue == [] && BusyCount(s.workers) == 0
  {
    ReachableInv(s0, steps, s);
    assert AllExited(s) && s.workers[0] == Exited;
    NoneBusy(s.workers);
    NotInHands(s.workers, id);
    assert Held(s, id) == if IsAccepted(s, id) then 1 else 0;
  }

  /** After the drain nothing more is ever accepted: a send still to come is turned down. */
  lemma NoSendAfterDrain(s0: State, steps: seq<Step>, s: State, c: nat, id: nat)
    requires Init(s0) && Reaches(s0, steps, s) && AtClose(s, c, Drained)
    ensures !Enabled(s, SendTask(id))
    ensures AtSubmit(s, id, Sending) ==> Enabled(s, Advance(id, Returned(false)))
  {
    ReachableInv(s0, steps, s);
    assert AllExited(s) && s.workers[0] == Exited;
  }

  /** The channel is closed at most once, however many callers shut the pool down. */
  lemma NoDoubleClose(s0: State, steps: seq<Step>, s: State, c: nat)
    requires Init(s0) && Reaches(s0, steps, s) && Enabled(s, CloseChannel(c))
    ensures !s.channelClosed
    ensures forall d :: AtClose(s, d, Closing) ==> d == c
  {
    ReachableInv(s0, steps, s);
  }

  // ---------- what is accepted, and that it gets done ----------

  /** A call that has come to the select is taken exactly when the channel is open with a slot free,
      and turned down exactly when it is closed or full; one that has just been made is turned down
      exactly when the pool is shut down; one that waits for memory may go either way. */
  lemma SendIsDecided(s0: State, steps: seq<Step>, s: State, id: nat)
    requires Init(s0) && Reaches(s0, steps, s)
    ensures AtSubmit(s, id, Sending) ==>
      && (Enabled(s, SendTask(id)) <==> !s.channelClosed && |s.queue| < s.capacity)
      && (Enabled(s, Advance(id, Returned(false))) <==> s.channelClosed || |s.queue| == s.capacity)
    ensures AtSubmit(s, id, Checking) ==>
      && (Enabled(s, Advance(id, WaitingForMemory)) <==> !s.isClosed)
      && (Enabled(s, Advance(id, Returned(false))) <==> s.isClosed)
    ensures AtSubmit(s, id, WaitingForMemory) ==>
      Enabled(s, Advance(id, Sending)) && Enabled(s, Advance(id, Returned(false)))
  {
    ReachableInv(s0, steps, s);
  }

  /** The same for a shutdown call: it closes the channel if it is the first, then waits for the
      workers or until its context is done. */
  lemma ShutdownIsDecided(s: State, c: nat)
    ensures c !in s.closers ==>
      Enabled(s, CallShutdown(c)) && AtClose(Apply(s, CallShutdown(c)), c, Swapping)
    ensures AtClose(s, c, Swapping) ==>
      && (Enabled(s, AdvanceCloser(c, Waiting)) <==> s.isClosed)
      && (!s.isClosed ==> Enabled(s, WinSwap(c)) && Apply(s, WinSwap(c)).isClosed
                          && AtClose(Apply(s, WinSwap(c)), c, Closing))
    ensures AtClose(s, c, Closing) ==>
      Enabled(s, CloseChannel(c)) && Apply(s, CloseChannel(c)).channelClosed
      && AtClose(Apply(s, CloseChannel(c)), c, Waiting)
    ensures AtClose(s, c, Waiting) ==>
      Enabled(s, AdvanceCloser(c, TimedOut)) && (Enabled(s, AdvanceCloser(c, Drained)) <==> s.done)
    ensures Enabled(s, AllDone) <==> (forall w :: 0 <= w < |s.workers| ==> s.workers[w] == Exited)
  {
  }

  /** The tasks handed over as nil, and the runs that panicked, along a run. */
  function NilCalls(steps: seq<Step>): set<nat> {
    if steps == [] then {}
    else (if steps[0].CallSubmit? && steps[0].isNil then {steps[0].s} else {}) + NilCalls(steps[1..])
  }

  function Failures(steps: seq<Step>): nat {
    if steps == [] then 0
    else (if steps[0].FinishTask? && steps[0].panicked then 1 else 0) + Failures(steps[1..])
  }

  /** `failedCount` counts the runs that panicked, and the nil tasks are those handed over as nil. */
  lemma {:induction false} FailuresAreCounted(s: State, steps: seq<Step>, end: State)
    requires Reaches(s, steps, end)
    ensures end.failedCount == s.failedCount + Failures(steps)
    ensures end.nilTasks == s.nilTasks + NilCalls(steps)
    decreases |steps|
  {
    if steps != [] {
      OneFailureMore(s, steps[0]);
      FailuresAreCounted(Apply(s, steps[0]), steps[1..], end);
    }
  }

  lemma OneFailureMore(s: State, step: Step)
    requires Enabled(s, step)
    ensures Apply(s, step).failedCount == s.failedCount + if step.FinishTask? && step.panicked then 1 else 0
    ensures Apply(s, step).nilTasks == s.nilTasks + if step.CallSubmit? && step.isNil then {step.s} else {}
  {
  }

  function Sends(ids: seq<nat>): seq<Step> {
    if ids == [] then [] else [SendTask(ids[0])] + Sends(ids[1..])
  }

  /** As many sends go through as there are slots free, with no receive in between, and they are
      queued in their order. */
  lemma {:induction false} FreeSlotsAreFilled(s: State, ids: seq<nat>) returns (end: State)
    requires !s.channelClosed && |s.queue| + |ids| <= s.capacity
    requires forall i :: 0 <= i < |ids| ==> AtSubmit(s, ids[i], Sending)
    requires forall i, j :: 0 <= i < j < |ids| ==> ids[i] != ids[j]
    ensures Reaches(s, Sends(ids), end) && end.queue == s.queue + ids && end.workers == s.workers
    ensures forall id :: id in ids ==> IsAccepted(end, id)
    decreases |ids|
  {
    if ids == [] {
      end := s;
    } else {
      var next := Apply(s, SendTask(ids[0]));
      end := FreeSlotsAreFilled(next, ids[1..]);
      assert next.queue + ids[1..] == s.queue + ids;
      assert Sends(ids)[1..] == Sends(ids[1..]);
      SendsKeepAccepted(next, Sends(ids[1..]), end, ids[0]);
    }
  }

  /** What is accepted stays accepted. */
  lemma {:induction false} SendsKeepAccepted(s: State, steps: seq<Step>, end: State, id: nat)
    requires Reaches(s, steps, end) && IsAccepted(s, id)
    ensures IsAccepted(end, id)
    decreases |steps|
  {
    if steps != [] {
      AcceptedOnlyBySend(s, steps[0]);
      assert id in Accepted(s) && id in Accepted(Apply(s, steps[0]));
      SendsKeepAccepted(Apply(s, steps[0]), steps[1..], end, id);
    }
  }

  /** Tasks are received in the order they were sent. */
  lemma QueueIsFirstInFirstOut(s: State, step: Step)
    requires Enabled(s, step)
    ensures var s' := Apply(s, step);
      match step
      case SendTask(id) => s'.queue == s.queue + [id]
      case ReceiveTask(w) => s.queue == [s'.workers[w].task] + s'.queue
      case _ => s'.queue == s.queue
  {
  }

  function Weight(w: Worker): nat {
    match w case Exited => 0 case Idle => 1 case Running(_) => 2 case Holding(_) => 3
  }

  function Weights(ws: seq<Worker>): nat {
    if ws == [] then 0 else Weights(ws[..|ws| - 1]) + Weight(ws[|ws| - 1])
  }

  /** What the workers still have to do. */
  function Work(s: State): nat { 4 * |s.queue| + Weights(s.workers) }

  lemma {:induction false} WeightsAfterUpdate(ws: seq<Worker>, i: nat, w: Worker)
    requires i < |ws|
    ensures Weights(ws[i := w]) == Weights(ws) - Weight(ws[i]) + Weight(w)
  {
    var n := |ws| - 1;
    if i == n {
      assert ws[i := w][..n] == ws[..n];
    } else {
      assert ws[i := w][..n] == ws[..n][i := w];
      WeightsAfterUpdate(ws[..n], i, w);
    }
  }

  /** Every step of a worker gets some of it done, and once the channel is closed no other step adds
      any, so a drain comes to its end. */
  lemma WorkGetsLess(s: State, step: Step)
    requires Enabled(s, step)
    ensures if WorkerStep(step) then Work(Apply(s, step)) < Work(s)
            else s.channelClosed ==> Work(Apply(s, step)) == Work(s)
  {
    if WorkerStep(step) {
      WeightsAfterUpdate(s.workers, step.w, Apply(s, step).workers[step.w]);
    }
  }

  /** A worker that has not left can always take its next step once the channel is closed. */
  function NextOf(s: State, w: nat): Step
    requires w < |s.workers|
  {
    match s.workers[w]
    case Idle => if s.queue == [] then LeaveLoop(w) else ReceiveTask(w)
    case Holding(task) => if task in s.nilTasks then PassOver(w) else StartTask(w)
    case _ => FinishTask(w, false)
  }

  lemma NobodyIsStuck(s: State, w: nat)
    requires s.channelClosed && w < |s.workers| && s.workers[w] != Exited
    ensures WorkerStep(NextOf(s, w)) && Enabled(s, NextOf(s, w))
  {
  }

  /** From every state with the channel closed the workers alone can drain the pool. */
  lemma {:induction false} DrainCanFinish(s: State) returns (steps: seq<Step>, end: State)
    requires s.channelClosed
    ensures Reaches(s, steps, end) && AllExited(end) && forall step :: step in steps ==> WorkerStep(step)
    decreases Work(s)
  {
    if AllExited(s) {
      steps, end := [], s;
    } else {
      var w: nat :| w < |s.workers| && s.workers[w] != Exited;
      NobodyIsStuck(s, w);
      WorkGetsLess(s, NextOf(s, w));
      var rest;
      rest, end := DrainCanFinish(Apply(s, NextOf(s, w)));
      steps := [NextOf(s, w)] + rest;
      assert steps[1..] == rest;
    }
  }

  lemma {:induction false} ReachesAppend(s: State, steps: seq<Step>, mid: State, more: seq<Step>, end: State)
    requires Reaches(s, steps, mid) && Reaches(mid, more, end)
    ensures Reaches(s, steps + more, end)
    decreases |steps|
  {
    if steps == [] {
      assert steps + more == more;
    } else {
      ReachesAppend(Apply(s, steps[0]), steps[1..], mid, more, end);
      assert (steps + more)[1..] == steps[1..] + more;
    }
  }

  lemma OneStep(s: State, step: Step)
    requires Enabled(s, step)
    ensures Reaches(s, [step], Apply(s, step))
  {
    assert [step][1..] == [];
  }

  /** A shutdown call gets the channel closed, by itself or by whoever came first. */
  lemma CloseCanHappen(s: State, c: nat) returns (steps: seq<Step>, end: State)
    requires ClosersOk(s) && AtClose(s, c, Swapping)
    ensures Reaches(s, steps, end) && end.channelClosed && AtClose(end, c, Waiting)
  {
    if !s.isClosed {
      var s1 := Apply(s, WinSwap(c));
      end := Apply(s1, CloseChannel(c));
      OneStep(s, WinSwap(c));
      OneStep(s1, CloseChannel(c));
      steps := [WinSwap(c)] + [CloseChannel(c)];
      ReachesAppend(s, [WinSwap(c)], s1, [CloseChannel(c)], end);
    } else {
      var s1 := Apply(s, AdvanceCloser(c, Waiting));
      OneStep(s, AdvanceCloser(c, Waiting));
      steps, end := [AdvanceCloser(c, Waiting)], s1;
      if !s.channelClosed {
        var d :| AtClose(s, d, Closing);
        assert Enabled(s1, CloseChannel(d));
        end := Apply(s1, CloseChannel(d));
        OneStep(s1, CloseChannel(d));
        ReachesAppend(s, steps, s1, [CloseChannel(d)], end);
        steps := steps + [CloseChannel(d)];
      }
    }
  }

  lemma {:induction false} WorkerStepsKeepClosers(s: State, steps: seq<Step>, end: State)
    requires Reaches(s, steps, end) && forall step :: step in steps ==> WorkerStep(step)
    ensures end.closers == s.closers
    decreases |steps|
  {
    if steps != [] {
      assert steps[0] in steps;
      WorkerStepsKeepClosers(Apply(s, steps[0]), steps[1..], end);
    }
  }

  /** From every reachable state a new shutdown call can run to its end with the pool drained. */
  lemma ShutdownCanFinish(s0: State, before: seq<Step>, s: State, c: nat) returns (steps: seq<Step>, end: State)
    requires Init(s0) && Reaches(s0, before, s) && c !in s.closers
    ensures Reaches(s, steps, end) && AtClose(end, c, Drained) && AllExited(end)
  {
    ReachableInv(s0, before, s);
    var s1 := Apply(s, CallShutdown(c));
    OneStep(s, CallShutdown(c));
    StepKeepsClosersOk(s, CallShutdown(c));
    var toClose, s2 := CloseCanHappen(s1, c);
    var toDrain, s3 := DrainCanFinish(s2);
    WorkerStepsKeepClosers(s2, toDrain, s3);
    var s4 := Apply(s3, AllDone);
    OneStep(s3, AllDone);
    OneStep(s4, AdvanceCloser(c, Drained));
    end := Apply(s4, AdvanceCloser(c, Drained));
    ReachesAppend(s, [CallShutdown(c)], s1, toClose, s2);
    ReachesAppend(s, [CallShutdown(c)] + toClose, s2, toDrain, s3);
    ReachesAppend(s, [CallShutdown(c)] + toClose + toDrain, s3, [AllDone], s4);
    ReachesAppend(s, [CallShutdown(c)] + toClose + toDrain + [AllDone], s4, [AdvanceCloser(c, Drained)], end);
    steps := [CallShutdown(c)] + toClose + toDrain + [AllDone] + [AdvanceCloser(c, Drained)];
  }
}
