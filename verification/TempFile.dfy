/** The staged file of one upload and the four parties that may dispose of it: the request
    handler, the write service, the converter job and the pipeline task.  The converter job and
    the pipeline task run on pool workers, concurrently with the two others. */
module TempFile {

  /** The three states of `tempFileHandle`, moved only by compare-and-swap. */
  datatype HandleState = RequestOwns | Released | CleanupCompleted

  function Release(h: HandleState): HandleState {
    if h == RequestOwns then Released else h
  }

  predicate CleanupRemoves(h: HandleState) { h == RequestOwns }

  function Cleanup(h: HandleState): HandleState {
    if h == RequestOwns then CleanupCompleted else h
  }

  /** The files in the temporary directory, by name; names are never reused. */
  class FileSystem {
    var files: set<nat>
    var next: nat

    ghost predicate Valid() reads this {
      forall f :: f in files ==> f < next
    }

    constructor ()
      ensures Valid() && files == {}
    {
      files, next := {}, 0;
    }

    method CreateTemp() returns (path: nat)
      requires Valid()
      modifies this
      ensures Valid() && path !in old(files) && files == old(files) + {path}
    {
      path := next;
      files, next := files + {path}, next + 1;
    }

    /** Removing a file that is gone is an error the callers ignore. */
    method Remove(path: nat)
      requires Valid()
      modifies this`files
      ensures Valid() && files == old(files) - {path}
    {
      files := files - {path};
    }
  }

  class TempFileHandle {
    const path: nat
    var state: HandleState

    constructor (path: nat)
      ensures this.path == path && state == RequestOwns
    {
      this.path, state := path, RequestOwns;
    }

    method ReleaseRequestCleanup()
      modifies this
      ensures state == Release(old(state))
    {
      if state == RequestOwns {
        state := Released;
      }
    }

    /** Removes the file at most once, and never after the release. */
    method CleanupIfRequestOwned(fs: FileSystem)
      requires fs.Valid()
      modifies this, fs`files
      ensures fs.Valid() && state == Cleanup(old(state))
      ensures fs.files == if CleanupRemoves(old(state)) then old(fs.files) - {path} else old(fs.files)
    {
      if state == RequestOwns {
        state := CleanupCompleted;
        fs.Remove(path);
      }
    }
  }

  // ---------- the protocol ----------

  datatype Party = Request | Writer | Converter | Pipeline

  datatype Write =
    | NotCalled
    | Working
    | Accepted        // the pool took the converter job; the local flag is not set yet
    | Consumed        // flag set; the handle is not released yet
    | Returning
    | WriteDone

  datatype Convert = NoJob | JobQueued | Preparing | TaskAccepted | Submitted | ConvertDone

  datatype Pipe =
    | NoTask
    | TaskQueued
    | Armed           // LocalFilePath still set: Execute's own defer would remove the file
    | Holding         // runPipeline's deferred cleanup will remove it
    | Dropped         // the stat failed: the path was forgotten
    | PipeDone

  datatype State = State(
    present: bool, handle: HandleState, requestDone: bool, write: Write, convert: Convert, pipe: Pipe,
    removals: seq<Party>,   // every os.Remove of the staged file so far
    forgotten: bool)        // a stat failed although the file was there

  datatype Step =
    | CallWriter
    | SaveMovesFile         // local storage renames the staged file into place
    | WriterGivesUp         // error, duplicate, no converter, rejected job, or panic
    | PoolTakesJob
    | SetConsumed
    | ReleaseHandle
    | WriterReturns
    | RequestCleans         // the handler's deferred cleanup
    | StartJob
    | JobGivesUp            // nothing to convert, error, rejected task, or panic
    | PoolTakesTask
    | SetSubmitted
    | JobReturns
    | StartTask
    | TaskQuitsEarly        // before the file is asked for: lost claim, timeout, panic
    | StatSucceeds
    | StatFails
    | TaskEnds              // normally or by panic

  const START := State(true, RequestOwns, false, NotCalled, NoJob, NoTask, [], false)

  predicate Enabled(s: State, step: Step) {
    match step
    case CallWriter => s.write == NotCalled && !s.requestDone
    case SaveMovesFile => s.write == Working && s.present
    case WriterGivesUp => s.write == Working
    case PoolTakesJob => s.write == Working
    case SetConsumed => s.write == Accepted
    case ReleaseHandle => s.write == Consumed
    case WriterReturns => s.write == Returning
    case RequestCleans => !s.requestDone && (s.write == NotCalled || s.write == WriteDone)
    case StartJob => s.convert == JobQueued
    case JobGivesUp => s.convert == Preparing
    case PoolTakesTask => s.convert == Preparing
    case SetSubmitted => s.convert == TaskAccepted
    case JobReturns => s.convert == Submitted
    case StartTask => s.pipe == TaskQueued
    case TaskQuitsEarly => s.pipe == Armed
    case StatSucceeds => s.pipe == Armed && s.present
    case StatFails => s.pipe == Armed
    case TaskEnds => s.pipe == Holding || s.pipe == Dropped
  }

  function Removed(s: State, who: Party): State {
    s.(present := false, removals := s.removals + [who])
  }

  function Apply(s: State, step: Step): State
    requires Enabled(s, step)
  {
    match step
    case CallWriter => s.(write := Working)
    case SaveMovesFile => s.(present := false)
    case WriterGivesUp => Removed(s.(write := WriteDone), Writer)
    case PoolTakesJob => s.(write := Accepted, convert := JobQueued)
    case SetConsumed => s.(write := Consumed)
    case ReleaseHandle => s.(write := Returning, handle := Release(s.handle))
    case WriterReturns => s.(write := WriteDone)
    case RequestCleans =>
      var s' := s.(requestDone := true, handle := Cleanup(s.handle));
      if CleanupRemoves(s.handle) then Removed(s', Request) else s'
    case StartJob => s.(convert := Preparing)
    case JobGivesUp => Removed(s.(convert := ConvertDone), Converter)
    case PoolTakesTask => s.(convert := TaskAccepted, pipe := TaskQueued)
    case SetSubmitted => s.(convert := Submitted)
    case JobReturns => s.(convert := ConvertDone)
    case StartTask => s.(pipe := Armed)
    case TaskQuitsEarly => Removed(s.(pipe := PipeDone), Pipeline)
    case StatSucceeds => s.(pipe := Holding)
    case StatFails => s.(pipe := Dropped, forgotten := s.forgotten || s.present)
    case TaskEnds => if s.pipe == Holding then Removed(s.(pipe := PipeDone), Pipeline) else s.(pipe := PipeDone)
  }

  ghost predicate Reaches(s: State, steps: seq<Step>, end: State)
    decreases |steps|
  {
    if steps == [] then s == end
    else Enabled(s, steps[0]) && Reaches(Apply(s, steps[0]), steps[1..], end)
  }

  // ---------- ownership ----------

  /** The one party answerable for the file. */
  function Owner(s: State): Party {
    if s.pipe != NoTask then Pipeline
    else if s.convert != NoJob then Converter
    else if s.write != NotCalled && s.write != WriteDone then Writer
    else Request
  }

  /** Some later step of its owner still removes the file. */
  predicate Pending(s: State) {
    match Owner(s)
    case Pipeline => s.pipe == TaskQueued || s.pipe == Armed || s.pipe == Holding
    case Converter => s.convert == JobQueued || s.convert == Preparing
    case Writer => s.write == Working
    case Request => !s.requestDone && s.handle == RequestOwns
  }

  predicate Inv(s: State) {
    && (s.present && !s.forgotten ==> Pending(s))
    && (s.forgotten ==> s.present && (s.pipe == Dropped || s.pipe == PipeDone))
    && (s.convert == NoJob || s.convert == JobQueued || s.convert == Preparing <==>
        s.pipe == NoTask && s.convert != ConvertDone)
    && (s.convert != NoJob ==> s.write == Accepted || s.write == Consumed || s.write == Returning
                               || (s.write == WriteDone && s.handle != RequestOwns))
    && (s.write == Returning ==> s.handle != RequestOwns)
    && (s.requestDone ==> s.write == NotCalled || s.write == WriteDone)
  }

  lemma StepKeepsInv(s: State, step: Step)
    requires Inv(s) && Enabled(s, step)
    ensures Inv(Apply(s, step))
  {
  }

  lemma {:induction false} RunKeepsInv(s: State, steps: seq<Step>, end: State)
    requires Inv(s) && Reaches(s, steps, end)
    ensures Inv(end)
    decreases |steps|
  {
    if steps != [] {
      StepKeepsInv(s, steps[0]);
      RunKeepsInv(Apply(s, steps[0]), steps[1..], end);
    }
  }

  predicate AllFinished(s: State) {
    && s.requestDone && (s.write == NotCalled || s.write == WriteDone)
    && (s.convert == NoJob || s.convert == ConvertDone)
    && (s.pipe == NoTask || s.pipe == PipeDone)
  }

  /** Once all parties are finished the staged file is gone, on every combination of failures
      and every interleaving, exactly unless the pipeline's stat failed on a file that was
      there: then nobody remembers the path and it stays. */
  lemma StagedFileDisposedOf(steps: seq<Step>, s: State)
    requires Reaches(START, steps, s) && AllFinished(s)
    ensures s.present <==> s.forgotten
  {
    RunKeepsInv(START, steps, s);
  }

  /** Finished means that nobody has anything left to do, and until then somebody can go on. */
  lemma FinishedMeansNothingToDo(steps: seq<Step>, s: State)
    requires Reaches(START, steps, s)
    ensures AllFinished(s) <==> forall step :: !Enabled(s, step)
  {
    RunKeepsInv(START, steps, s);
    if !AllFinished(s) {
      assert Enabled(s, NextStep(s));
    }
  }

  /** A step that some party can take next. */
  function NextStep(s: State): Step {
    match s.write
    case Working => WriterGivesUp
    case Accepted => SetConsumed
    case Consumed => ReleaseHandle
    case Returning => WriterReturns
    case _ =>
      if !s.requestDone then RequestCleans
      else match s.convert
        case JobQueued => StartJob
        case Preparing => JobGivesUp
        case TaskAccepted => SetSubmitted
        case Submitted => JobReturns
        case _ => match s.pipe
          case TaskQueued => StartTask
          case Armed => TaskQuitsEarly
          case _ => TaskEnds
  }

  /** The file never comes back, and it goes only by being moved into place or by a removal that is
      on record; the record keeps what it has. */
  lemma FileGoesOnRecord(s: State, step: Step)
    requires Enabled(s, step)
    ensures var s' := Apply(s, step);
      && (s'.present ==> s.present) && s.removals <= s'.removals
      && (step.SaveMovesFile? ==> !s'.present)
      && (s.present && !s'.present ==> step.SaveMovesFile? || |s'.removals| == |s.removals| + 1)
      && (|s'.removals| > |s.removals| ==> !s'.present)
  {
  }

  lemma ReachesCons(s: State, step: Step, steps: seq<Step>, end: State)
    requires Enabled(s, step) && Reaches(Apply(s, step), steps, end)
    ensures Reaches(s, [step] + steps, end)
  {
    assert ([step] + steps)[1..] == steps;
  }

  /** The pipeline task on its own, from the moment it is queued. */
  lemma FailedStat(s: State) returns (steps: seq<Step>, end: State)
    requires s.pipe == TaskQueued && s.present
    ensures Reaches(s, steps, end) && end == s.(pipe := PipeDone, forgotten := true)
  {
    var armed := Apply(s, StartTask);
    var dropped := Apply(armed, StatFails);
    end := Apply(dropped, TaskEnds);
    ReachesCons(dropped, TaskEnds, [], end);
    ReachesCons(armed, StatFails, [TaskEnds], end);
    ReachesCons(s, StartTask, [StatFails] + [TaskEnds], end);
    steps := [StartTask] + ([StatFails] + [TaskEnds]);
  }

  /** The converter job on its own, from the moment it is queued. */
  lemma JobThenFailedStat(s: State) returns (steps: seq<Step>, end: State)
    requires s.convert == JobQueued && s.pipe == NoTask && s.present
    ensures Reaches(s, steps, end) && end == s.(convert := ConvertDone, pipe := PipeDone, forgotten := true)
  {
    var s1 := Apply(s, StartJob);
    var s2 := Apply(s1, PoolTakesTask);
    var s3 := Apply(s2, SetSubmitted);
    steps, end := FailedStat(Apply(s3, JobReturns));
    ReachesCons(s3, JobReturns, steps, end); steps := [JobReturns] + steps;
    ReachesCons(s2, SetSubmitted, steps, end); steps := [SetSubmitted] + steps;
    ReachesCons(s1, PoolTakesTask, steps, end); steps := [PoolTakesTask] + steps;
    ReachesCons(s, StartJob, steps, end); steps := [StartJob] + steps;
  }

  /** The stat failure the code reads as "already gone" does lose the file. */
  lemma FailedStatLosesFile()
    ensures exists steps, end :: Reaches(START, steps, end) && AllFinished(end) && end.present
  {
    var steps, end := FailedStatRun();
  }

  lemma FailedStatRun() returns (steps: seq<Step>, end: State)
    ensures Reaches(START, steps, end) && AllFinished(end) && end.present
  {
    var s1 := Apply(START, CallWriter);
    var s2 := Apply(s1, PoolTakesJob);
    var s3 := Apply(s2, SetConsumed);
    var s4 := Apply(s3, ReleaseHandle);
    var s5 := Apply(s4, WriterReturns);
    steps, end := JobThenFailedStat(Apply(s5, RequestCleans));
    ReachesCons(s5, RequestCleans, steps, end); steps := [RequestCleans] + steps;
    ReachesCons(s4, WriterReturns, steps, end); steps := [WriterReturns] + steps;
    ReachesCons(s3, ReleaseHandle, steps, end); steps := [ReleaseHandle] + steps;
    ReachesCons(s2, SetConsumed, steps, end); steps := [SetConsumed] + steps;
    ReachesCons(s1, PoolTakesJob, steps, end); steps := [PoolTakesJob] + steps;
    ReachesCons(START, CallWriter, steps, end); steps := [CallWriter] + steps;
  }

  /** Only the owner of the moment removes: in particular, once the pipeline task is accepted
      no one but the pipeline does. */
  lemma OnlyTheOwnerRemoves(steps: seq<Step>, s: State, step: Step)
    requires Reaches(START, steps, s) && Enabled(s, step)
    ensures Apply(s, step).removals == s.removals || Apply(s, step).removals == s.removals + [Owner(s)]
    ensures s.pipe != NoTask ==> Owner(s) == Pipeline && Owner(Apply(s, step)) == Pipeline
  {
    RunKeepsInv(START, steps, s);
  }

  /** A file that is still needed is never pulled away: while it exists and the pipeline is about
      to open it or is using it, no other party has called remove. */
  lemma {:induction false} PipelineIsFirstRemover(steps: seq<Step>, s: State)
    requires Reaches(START, steps, s) && (s.pipe == TaskQueued || s.pipe == Armed || s.pipe == Holding)
    ensures s.removals == []
  {
    RunKeepsQuiet(START, steps, s);
  }

  /** Nothing is removed on the way to the pipeline. */
  predicate Quiet(s: State) {
    && Inv(s)
    && (Pending(s) && Owner(s) != Request ==> s.removals == [])
    && (s.write == NotCalled && !s.requestDone ==> s.removals == [])
    && (s.convert == TaskAccepted || s.convert == Submitted ==> s.pipe != NoTask)
  }

  lemma StepKeepsQuiet(s: State, step: Step)
    requires Quiet(s) && Enabled(s, step)
    ensures Quiet(Apply(s, step))
  {
    StepKeepsInv(s, step);
  }

  lemma {:induction false} RunKeepsQuiet(s: State, steps: seq<Step>, end: State)
    requires Quiet(s) && Reaches(s, steps, end)
    ensures Quiet(end)
    decreases |steps|
  {
    if steps != [] {
      StepKeepsQuiet(s, steps[0]);
      RunKeepsQuiet(Apply(s, steps[0]), steps[1..], end);
    }
  }
}
