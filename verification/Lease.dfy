/** The lease on a variant row: claim, heartbeat, roll back, sweep.  Any number of tasks run
    at once; the sweeper reads its stale rows once and updates them one statement at a time,
    interleaved with everything else; the process may crash and restart.

    Time only advances as far as the program's own deadlines let it: a task still claiming or
    waiting for its slot gives up at its ten-minute context deadline, a working task touches its
    rows every four minutes until that deadline, no task outlives `pace.limit`, and the writes
    that follow the last touch (or the giving up) take at most `pace.closing`. */
module Lease {
  import opened Options
  import opened VariantTable

  const CONTEXT_DEADLINE := 10 * MINUTE
  const HEARTBEAT := 4 * MINUTE

  datatype Pace = Pace(limit: nat, closing: nat)

  datatype Phase =
    | Claiming              // from Execute's entry until the processing slot is taken
    | Working               // heartbeat running
    | Closing(since: int)   // slot not taken, or heartbeat stopped: the remaining writes

  /** `last` is the time of the last heartbeat touch; before the first one, the start. */
  datatype Task = Task(start: int, last: int, phase: Phase, tracked: set<nat>)

  datatype State = State(now: int, table: Table, tasks: map<nat, Task>, snapshot: seq<(nat, nat)>)

  datatype Step =
    | Tick(now: int)
    | Start(tid: nat)
    | ClaimRow(tid: nat, id: nat)
    | BeginWork(tid: nat, touched: set<nat>)
    | Heartbeat(tid: nat, touched: set<nat>)
    | Settle(tid: nat, act: Action)
    | BeginClose(tid: nat)
    | LetGo(tid: nat, act: Action, refused: bool)
    | End(tid: nat)
    | BeginSweep(order: seq<(nat, nat)>)
    | RecoverNext
    | AbortSweep            // an update was refused: the rest of the snapshot is dropped
    | Crash(restartAt: int)
    | Outside(act: Action)
    | ShutdownRollback(ids: set<nat>)

  predicate MayReach(t: Task, now: int, pace: Pace) {
    match t.phase
    case Claiming => now <= t.start + CONTEXT_DEADLINE && now <= t.start + pace.limit
    case Working =>
      && now <= t.start + pace.limit
      && (t.last + HEARTBEAT < t.start + CONTEXT_DEADLINE ==> now <= t.last + HEARTBEAT)
    case Closing(since) => now <= since + pace.closing && now <= t.start + pace.limit
  }

  /** The row a task lets go of by a statement of its own. */
  function Target(act: Action): Option<nat> {
    match act
    case Completes(id, _) => Some(id)
    case Fails(id, _) => Some(id)
    case Deletes(id) => Some(id)
    case RollBack(id) => Some(id)
    case PanicFail(id, _) => Some(id)
    case _ => None
  }

  ghost predicate Enabled(s: State, step: Step, pace: Pace) {
    match step
    case Tick(now) => s.now <= now && forall tid :: tid in s.tasks ==> MayReach(s.tasks[tid], now, pace)
    case Start(tid) => tid !in s.tasks
    case ClaimRow(tid, id) => tid in s.tasks && s.tasks[tid].phase == Claiming && Hits(s.table, id, Pending)
    case BeginWork(tid, touched) => tid in s.tasks && s.tasks[tid].phase == Claiming && s.tasks[tid].tracked <= touched
    case Heartbeat(tid, touched) => tid in s.tasks && s.tasks[tid].phase == Working && s.tasks[tid].tracked <= touched
    case Settle(tid, act) =>
      tid in s.tasks && s.tasks[tid].phase != Claiming && (act.Completes? || act.Fails? || act.Deletes?)
    case BeginClose(tid) => tid in s.tasks && !s.tasks[tid].phase.Closing?
    case LetGo(tid, act, _) =>
      tid in s.tasks && s.tasks[tid].phase.Closing? && (act.RollBack? || act.PanicFail?)
      && Target(act).value in s.tasks[tid].tracked
    case End(tid) => tid in s.tasks && s.tasks[tid].phase.Closing? && s.tasks[tid].tracked == {}
    case BeginSweep(order) =>
      && s.snapshot == []
      && (forall i, j :: 0 <= i < j < |order| ==> order[i].0 != order[j].0)
      && forall e :: e in order ==>
        e.0 in s.table && Stale(s.table[e.0], s.now - STALE_THRESHOLD) && e.1 == s.table[e.0].retryCount
    case RecoverNext => s.snapshot != []
    case AbortSweep => true
    case Crash(restartAt) => s.now <= restartAt
    case Outside(act) =>
      VariantTable.Enabled(s.table, act)
      && (act.Upsert? || act.ForceFails? || act.DeletesImage? || act.Touches? || act.Fails?)
    case ShutdownRollback(ids) => true
  }

  /** `Settle` removes the id from tracking when its statement took effect, as
      markVariantFailed, deleteTrackedVariant and saveVariantResults do. */
  ghost function Apply(s: State, step: Step, pace: Pace): State
    requires Enabled(s, step, pace)
  {
    match step
    case Tick(now) => s.(now := now)
    case Start(tid) => s.(tasks := s.tasks[tid := Task(s.now, s.now, Claiming, {})])
    case ClaimRow(tid, id) =>
      s.(table := VariantTable.Apply(s.table, Claim(id), s.now),
         tasks := s.tasks[tid := s.tasks[tid].(tracked := s.tasks[tid].tracked + {id})])
    case BeginWork(tid, touched) =>
      s.(table := Touch(s.table, touched, s.now),
         tasks := s.tasks[tid := s.tasks[tid].(phase := Working, last := s.now)])
    case Heartbeat(tid, touched) =>
      s.(table := Touch(s.table, touched, s.now), tasks := s.tasks[tid := s.tasks[tid].(last := s.now)])
    case Settle(tid, act) =>
      var id := Target(act).value;
      if act.Deletes? || Hits(s.table, id, Processing) then
        s.(table := VariantTable.Apply(s.table, act, s.now),
           tasks := s.tasks[tid := s.tasks[tid].(tracked := s.tasks[tid].tracked - {id})])
      else s
    case BeginClose(tid) => s.(tasks := s.tasks[tid := s.tasks[tid].(phase := Closing(s.now))])
    case LetGo(tid, act, refused) =>
      s.(table := if refused then s.table else VariantTable.Apply(s.table, act, s.now),
         tasks := s.tasks[tid := s.tasks[tid].(tracked := s.tasks[tid].tracked - {Target(act).value})])
    case End(tid) => s.(tasks := map k | k in s.tasks && k != tid :: s.tasks[k])
    case BeginSweep(order) => s.(snapshot := order)
    case RecoverNext =>
      s.(table := Recover(s.table, s.snapshot[0].0, s.snapshot[0].1, STALE_MAX_RETRIES, s.now),
         snapshot := s.snapshot[1..])
    case AbortSweep => s.(snapshot := [])
    case Crash(restartAt) => State(restartAt, s.table, map[], [])
    case Outside(act) => s.(table := VariantTable.Apply(s.table, act, s.now))
    case ShutdownRollback(ids) => s.(table := ResetToPending(s.table, ids, s.now))
  }

  // ---------- safety ----------

  ghost predicate Exclusive(s: State) {
    forall a, b, id :: a in s.tasks && b in s.tasks && a != b && id in s.tasks[a].tracked ==> id !in s.tasks[b].tracked
  }

  /** The last touch is recent enough, whatever the task is doing. */
  predicate OnTime(t: Task, now: int) {
    && t.start <= t.last <= now
    && (t.phase == Claiming ==> t.last == t.start)
    && (t.phase.Closing? ==> t.phase.since <= now)
    && (t.phase.Closing? && t.last + CONTEXT_DEADLINE < t.phase.since ==>
          t.start + CONTEXT_DEADLINE <= t.last + HEARTBEAT)
  }

  ghost predicate OwnedRow(t: Table, id: nat, task: Task) {
    id in t && !Hits(t, id, Pending) && (Hits(t, id, Processing) ==> t[id].updatedAt >= task.last)
  }

  ghost predicate Tracked(s: State, id: nat) {
    exists tid :: tid in s.tasks && id in s.tasks[tid].tracked
  }

  ghost predicate Inv(s: State, pace: Pace) {
    && Exclusive(s)
    && (forall tid :: tid in s.tasks ==> MayReach(s.tasks[tid], s.now, pace) && OnTime(s.tasks[tid], s.now))
    && (forall tid, id :: tid in s.tasks && id in s.tasks[tid].tracked ==> OwnedRow(s.table, id, s.tasks[tid]))
    && (forall i, j :: 0 <= i < j < |s.snapshot| ==> s.snapshot[i].0 != s.snapshot[j].0)
    && (forall e :: e in s.snapshot && SendsBack(e) ==> NotHeld(s, e.0))
  }

  /** Recovering the snapshot's entry would send its row back to pending, not fail it. */
  predicate SendsBack(e: (nat, nat)) { !ExceedsRetries(e.1, STALE_MAX_RETRIES) }

  ghost predicate NotHeld(s: State, id: nat) {
    id in s.table && !Hits(s.table, id, Pending) && !Tracked(s, id)
  }

  /** The rollback resets no row that a task tracks, and none that the running sweep will send
      back again. */
  ghost predicate Spares(s: State, ids: set<nat>) {
    forall id :: id in ids && Hits(s.table, id, Processing) ==>
      !Tracked(s, id) && forall e :: e in s.snapshot && SendsBack(e) ==> e.0 != id
  }

  ghost predicate Disciplined(s: State, step: Step) {
    step.ShutdownRollback? ==> Spares(s, step.ids)
  }

  /** The exact condition: tasks end within the stale threshold, or within 21 minutes with
      closing writes of at most five. */
  predicate Calm(pace: Pace) {
    pace.limit <= 15 * MINUTE || (pace.limit <= 21 * MINUTE && pace.closing <= 5 * MINUTE)
  }

  /** The arithmetic of the constants: a live task's last touch is never older than the stale
      threshold. */
  lemma NeverStale(t: Task, now: int, pace: Pace)
    requires Calm(pace) && MayReach(t, now, pace) && OnTime(t, now)
    ensures now <= t.last + STALE_THRESHOLD
  {
  }

  // ---------- preservation, step by step ----------

  /** A row that is not pending stays so, and a row found processing was processing before. */
  ghost predicate Steady(t: Table, t': Table, id: nat, now: int) {
    && id in t' && !Hits(t', id, Pending)
    && (Hits(t', id, Processing) ==>
          id in t && Hits(t, id, Processing) && (t'[id].updatedAt == t[id].updatedAt || t'[id].updatedAt == now))
  }

  lemma StatementIsSteady(t: Table, act: Action, now: int, id: nat)
    requires VariantTable.Enabled(t, act) && id in t && !Hits(t, id, Pending)
    requires act.Recovers? && !ExceedsRetries(act.snapshotRetry, act.maxRetries) ==> act.id != id
    requires act.RollBack? ==> act.id != id
    requires act.Resets? && id in act.ids ==> !Hits(t, id, Processing)
    ensures Steady(t, VariantTable.Apply(t, act, now), id, now)
  {
  }

  /** Tasks other than `tid` keep what they track and their rows stay steady. */
  lemma TableMoveKeepsInv(s: State, t': Table, tid: nat, task: Task, pace: Pace)
    requires Inv(s, pace) && tid in s.tasks
    requires task.tracked <= s.tasks[tid].tracked
    requires MayReach(task, s.now, pace) && OnTime(task, s.now)
    requires forall id :: id in s.table && !Hits(s.table, id, Pending) && (Tracked(s, id) ==>
      id in task.tracked || id !in s.tasks[tid].tracked)
               ==> Steady(s.table, t', id, s.now)
    requires forall id :: id in task.tracked ==> OwnedRow(t', id, task)
    ensures Inv(s.(table := t', tasks := s.tasks[tid := task]), pace)
  {
    var s' := s.(table := t', tasks := s.tasks[tid := task]);
    forall k, id | k in s'.tasks && id in s'.tasks[k].tracked
      ensures OwnedRow(t', id, s'.tasks[k])
    {
      if k != tid {
        assert OwnedRow(s.table, id, s.tasks[k]);
        assert Steady(s.table, t', id, s.now);
      }
    }
    forall e | e in s.snapshot && SendsBack(e) ensures NotHeld(s', e.0) {
      assert NotHeld(s, e.0) && Steady(s.table, t', e.0, s.now);
    }
  }

  lemma TickKeepsInv(s: State, now: int, pace: Pace)
    requires Calm(pace) && Inv(s, pace) && Enabled(s, Tick(now), pace)
    ensures Inv(Apply(s, Tick(now), pace), pace)
  {
    var s' := Apply(s, Tick(now), pace);
    forall e | e in s'.snapshot && SendsBack(e) ensures NotHeld(s', e.0) { assert NotHeld(s, e.0); }
  }

  lemma ClaimKeepsInv(s: State, tid: nat, id: nat, pace: Pace)
    requires Inv(s, pace) && Enabled(s, ClaimRow(tid, id), pace)
    ensures Inv(Apply(s, ClaimRow(tid, id), pace), pace)
  {
    var s' := Apply(s, ClaimRow(tid, id), pace);
    forall k, i | k in s'.tasks && i in s'.tasks[k].tracked ensures OwnedRow(s'.table, i, s'.tasks[k]) {
      if i != id { assert OwnedRow(s.table, i, s.tasks[k]); }
    }
    forall k | k in s.tasks ensures id !in s.tasks[k].tracked {
      assert id in s.tasks[k].tracked ==> OwnedRow(s.table, id, s.tasks[k]);
    }
    forall e | e in s'.snapshot && SendsBack(e) ensures NotHeld(s', e.0) {
      assert NotHeld(s, e.0);
    }
  }

  lemma TouchKeepsInv(s: State, tid: nat, touched: set<nat>, task: Task, pace: Pace)
    requires Inv(s, pace) && tid in s.tasks && s.tasks[tid].tracked <= touched
    requires !s.tasks[tid].phase.Closing?
    requires task == s.tasks[tid].(phase := Working, last := s.now)
    requires MayReach(task, s.now, pace)
    ensures Inv(s.(table := Touch(s.table, touched, s.now), tasks := s.tasks[tid := task]), pace)
  {
    forall id | id in task.tracked ensures OwnedRow(Touch(s.table, touched, s.now), id, task) {
      assert OwnedRow(s.table, id, s.tasks[tid]);
    }
    TableMoveKeepsInv(s, Touch(s.table, touched, s.now), tid, task, pace);
  }

  lemma DropKeepsInv(s: State, tid: nat, act: Action, t': Table, pace: Pace)
    requires Inv(s, pace) && tid in s.tasks && VariantTable.Enabled(s.table, act) && Target(act).Some?
    requires t' == s.table || t' == VariantTable.Apply(s.table, act, s.now)
    requires act.RollBack? ==> act.id in s.tasks[tid].tracked
    ensures var task := s.tasks[tid].(tracked := s.tasks[tid].tracked - {Target(act).value});
      Inv(s.(table := t', tasks := s.tasks[tid := task]), pace)
  {
    var gone := Target(act).value;
    var task := s.tasks[tid].(tracked := s.tasks[tid].tracked - {gone});
    forall id | id in s.table && !Hits(s.table, id, Pending)
                && (Tracked(s, id) ==> id in task.tracked || id !in s.tasks[tid].tracked)
      ensures Steady(s.table, t', id, s.now)
    {
      if act.RollBack? { assert Tracked(s, gone); }
      if t' != s.table { StatementIsSteady(s.table, act, s.now, id); }
    }
    forall id | id in task.tracked ensures OwnedRow(t', id, task) {
      assert OwnedRow(s.table, id, s.tasks[tid]);
      assert Steady(s.table, t', id, s.now);
    }
    TableMoveKeepsInv(s, t', tid, task, pace);
  }

  lemma BeginSweepKeepsInv(s: State, order: seq<(nat, nat)>, pace: Pace)
    requires Calm(pace) && Inv(s, pace) && Enabled(s, BeginSweep(order), pace)
    ensures Inv(Apply(s, BeginSweep(order), pace), pace)
  {
    var s' := Apply(s, BeginSweep(order), pace);
    forall e | e in order ensures !Tracked(s', e.0) {
      forall tid | tid in s.tasks ensures e.0 !in s.tasks[tid].tracked {
        NeverStale(s.tasks[tid], s.now, pace);
        assert e.0 in s.tasks[tid].tracked ==> OwnedRow(s.table, e.0, s.tasks[tid]);
      }
    }
  }

  /** Any table change that is steady for every tracked row and every snapshot row left. */
  lemma ForeignMoveKeepsInv(s: State, t': Table, rest: seq<(nat, nat)>, pace: Pace)
    requires Inv(s, pace)
    requires forall i, j :: 0 <= i < j < |rest| ==> rest[i].0 != rest[j].0
    requires forall e :: e in rest ==> e in s.snapshot
    requires forall e :: e in rest && SendsBack(e) ==> Steady(s.table, t', e.0, s.now)
    requires forall id :: Tracked(s, id) ==> Steady(s.table, t', id, s.now)
    ensures Inv(s.(table := t', snapshot := rest), pace)
  {
    var s' := s.(table := t', snapshot := rest);
    forall tid, id | tid in s'.tasks && id in s'.tasks[tid].tracked ensures OwnedRow(t', id, s'.tasks[tid]) {
      assert Tracked(s, id);
      assert OwnedRow(s.table, id, s.tasks[tid]);
    }
    forall e | e in rest && SendsBack(e) ensures NotHeld(s', e.0) { assert NotHeld(s, e.0); }
  }

  /** A statement that spares what is tracked and what is left of the snapshot. */
  lemma StatementKeepsInv(s: State, act: Action, rest: seq<(nat, nat)>, pace: Pace)
    requires Inv(s, pace) && VariantTable.Enabled(s.table, act) && !act.RollBack?
    requires forall i, j :: 0 <= i < j < |rest| ==> rest[i].0 != rest[j].0
    requires forall e :: e in rest ==> e in s.snapshot
    requires act.Recovers? && !ExceedsRetries(act.snapshotRetry, act.maxRetries) ==> !Tracked(s, act.id)
    requires act.Recovers? ==> forall e :: e in rest ==> e.0 != act.id
    requires act.Resets? ==> Spares(s, act.ids)
    ensures Inv(s.(table := VariantTable.Apply(s.table, act, s.now), snapshot := rest), pace)
  {
    var t' := VariantTable.Apply(s.table, act, s.now);
    forall i | Tracked(s, i) ensures Steady(s.table, t', i, s.now) {
      var tid :| tid in s.tasks && i in s.tasks[tid].tracked;
      assert OwnedRow(s.table, i, s.tasks[tid]);
      StatementIsSteady(s.table, act, s.now, i);
    }
    forall e | e in rest && SendsBack(e) ensures Steady(s.table, t', e.0, s.now) {
      assert NotHeld(s, e.0);
      StatementIsSteady(s.table, act, s.now, e.0);
    }
    ForeignMoveKeepsInv(s, t', rest, pace);
  }

  /** What is left of a snapshot after its first entry. */
  lemma RestOfSnapshot(snapshot: seq<(nat, nat)>)
    requires snapshot != [] && forall i, j :: 0 <= i < j < |snapshot| ==> snapshot[i].0 != snapshot[j].0
    ensures forall e :: e in snapshot[1..] ==> e in snapshot && e.0 != snapshot[0].0
    ensures forall i, j :: 0 <= i < j < |snapshot[1..]| ==> snapshot[1..][i].0 != snapshot[1..][j].0
  {
    var rest := snapshot[1..];
    forall e | e in rest ensures e in snapshot && e.0 != snapshot[0].0 {
      var k :| 0 <= k < |rest| && rest[k] == e;
      assert snapshot[k + 1] == e;
    }
  }

  lemma RecoverKeepsInv(s: State, pace: Pace)
    requires Inv(s, pace) && s.snapshot != []
    ensures Inv(Apply(s, RecoverNext, pace), pace)
  {
    RestOfSnapshot(s.snapshot);
    var first := s.snapshot[0];
    assert first in s.snapshot && (SendsBack(first) ==> NotHeld(s, first.0));
    var act := Recovers(first.0, first.1, STALE_MAX_RETRIES);
    assert !act.RollBack? && !act.Resets? && VariantTable.Enabled(s.table, act);
    StatementKeepsInv(s, act, s.snapshot[1..], pace);
    assert Apply(s, RecoverNext, pace) ==
           s.(table := VariantTable.Apply(s.table, act, s.now), snapshot := s.snapshot[1..]);
  }

  /** Steps that only change who is running. */
  lemma TaskStepKeepsInv(s: State, step: Step, pace: Pace)
    requires Calm(pace) && Inv(s, pace) && Enabled(s, step, pace)
    requires step.Start? || step.BeginClose? || step.End? || step.AbortSweep? || step.Crash?
    ensures Inv(Apply(s, step, pace), pace)
  {
    var s' := Apply(s, step, pace);
    forall e | e in s'.snapshot && SendsBack(e) ensures NotHeld(s', e.0) { assert NotHeld(s, e.0); }
    forall tid, id | tid in s'.tasks && id in s'.tasks[tid].tracked ensures OwnedRow(s'.table, id, s'.tasks[tid]) {
      assert tid in s.tasks && OwnedRow(s.table, id, s.tasks[tid]);
    }
  }

  lemma StepKeepsInv(s: State, step: Step, pace: Pace)
    requires Calm(pace) && Inv(s, pace) && Enabled(s, step, pace) && Disciplined(s, step)
    ensures Inv(Apply(s, step, pace), pace)
  {
    match step
    case Tick(now) => TickKeepsInv(s, now, pace);
    case ClaimRow(tid, id) => ClaimKeepsInv(s, tid, id, pace);
    case BeginWork(tid, touched) =>
      TouchKeepsInv(s, tid, touched, s.tasks[tid].(phase := Working, last := s.now), pace);
    case Heartbeat(tid, touched) => TouchKeepsInv(s, tid, touched, s.tasks[tid].(last := s.now), pace);
    case Settle(tid, act) =>
      if act.Deletes? || Hits(s.table, Target(act).value, Processing) {
        DropKeepsInv(s, tid, act, VariantTable.Apply(s.table, act, s.now), pace);
      }
    case LetGo(tid, act, refused) =>
      DropKeepsInv(s, tid, act, if refused then s.table else VariantTable.Apply(s.table, act, s.now), pace);
    case BeginSweep(order) => BeginSweepKeepsInv(s, order, pace);
    case RecoverNext => RecoverKeepsInv(s, pace);
    case Outside(act) => StatementKeepsInv(s, act, s.snapshot, pace);
    case ShutdownRollback(ids) => StatementKeepsInv(s, Resets(ids), s.snapshot, pace);
    case _ => TaskStepKeepsInv(s, step, pace);
  }

  // ---------- the steps of the code ----------

  /** What a step of one task leaves alone, and when a row is let go: only after the statement about
      it has gone through, except by the closing writes, whose errors are ignored. */
  lemma StepsWrittenOut(s: State, step: Step, pace: Pace)
    requires Enabled(s, step, pace)
    ensures step.Settle? ==>
      var id := Target(step.act).value;
      var takesEffect := step.act.Deletes?
                         || (id in s.table && !s.table[id].deleted && s.table[id].status == Processing);
      var s' := Apply(s, step, pace);
      if takesEffect then
        s'.table == VariantTable.Apply(s.table, step.act, s.now)
        && s'.tasks[step.tid].tracked == s.tasks[step.tid].tracked - {id}
      else s' == s
    ensures step.LetGo? ==>
      var s' := Apply(s, step, pace);
      && s'.tasks[step.tid].tracked == s.tasks[step.tid].tracked - {Target(step.act).value}
      && (step.refused ==> s'.table == s.table)
      && (!step.refused ==> s'.table == VariantTable.Apply(s.table, step.act, s.now))
    ensures step.End? ==> Apply(s, step, pace).tasks.Keys == s.tasks.Keys - {step.tid}
    ensures forall k :: k in s.tasks && OtherTask(step, k) ==>
      k in Apply(s, step, pace).tasks && Apply(s, step, pace).tasks[k] == s.tasks[k]
  {
  }

  /** The step is not one of task `k`, nor the end of all. */
  predicate OtherTask(step: Step, k: nat) {
    match step
    case Start(tid) => tid != k
    case ClaimRow(tid, _) => tid != k
    case BeginWork(tid, _) => tid != k
    case Heartbeat(tid, _) => tid != k
    case Settle(tid, _) => tid != k
    case BeginClose(tid) => tid != k
    case LetGo(tid, _, _) => tid != k
    case End(tid) => tid != k
    case Crash(_) => false
    case _ => true
  }

  /** What is always possible: time may stand still, a process may crash at once, a sweep may begin
      when none is running and be broken off, and a task that is closing down may let go of whatever
      it tracks either way and end once it tracks nothing. */
  lemma AlwaysPossible(s: State, tid: nat, id: nat, pace: Pace)
    ensures (forall k :: k in s.tasks ==> MayReach(s.tasks[k], s.now, pace)) ==> Enabled(s, Tick(s.now), pace)
    ensures Enabled(s, Crash(s.now), pace) && Enabled(s, AbortSweep, pace)
    ensures Enabled(s, BeginSweep([]), pace) <==> s.snapshot == []
    ensures tid in s.tasks && s.tasks[tid].phase.Closing? && id in s.tasks[tid].tracked ==>
      Enabled(s, LetGo(tid, RollBack(id), false), pace) && Enabled(s, LetGo(tid, PanicFail(id, ""), true), pace)
    ensures tid in s.tasks && s.tasks[tid].phase.Closing? ==>
      (Enabled(s, End(tid), pace) <==> s.tasks[tid].tracked == {})
    ensures tid in s.tasks && s.tasks[tid].phase != Claiming && id in s.tasks[tid].tracked ==>
      Enabled(s, Settle(tid, Deletes(id)), pace) && Enabled(s, Settle(tid, Fails(id, "")), pace)
  {
  }

  // ---------- whole runs ----------

  /** `steps` leads from `s` to `end`; every shutdown rollback on the way spares held rows. */
  ghost predicate Runs(s: State, steps: seq<Step>, end: State, pace: Pace)
    decreases |steps|
  {
    if steps == [] then s == end
    else
      && Enabled(s, steps[0], pace)
      && Disciplined(s, steps[0])
      && Runs(Apply(s, steps[0], pace), steps[1..], end, pace)
  }

  /** A fresh process over whatever table earlier processes left behind. */
  function Boot(t: Table, now: int): State {
    State(now, t, map[], [])
  }

  lemma {:induction false} RunKeepsInv(s: State, steps: seq<Step>, end: State, pace: Pace)
    requires Calm(pace) && Inv(s, pace) && Runs(s, steps, end, pace)
    ensures Inv(end, pace)
    decreases |steps|
  {
    if steps != [] {
      StepKeepsInv(s, steps[0], pace);
      RunKeepsInv(Apply(s, steps[0], pace), steps[1..], end, pace);
    }
  }

  ghost predicate SafeWith(pace: Pace) {
    forall t: Table, now: int, steps: seq<Step>, end: State ::
      Runs(Boot(t, now), steps, end, pace) ==> Exclusive(end)
  }

  /** Two tasks that both hold row 1, at the end of a run from a table with row 1 pending. */
  ghost predicate DoubleHold(end: State) {
    0 in end.tasks && 1 in end.tasks && 1 in end.tasks[0].tracked && 1 in end.tasks[1].tracked
  }

  function OnePending(): Table {
    map[1 := FreshRow(7, "webp", 0)]
  }

  lemma RunsCons(s: State, step: Step, rest: seq<Step>, end: State, pace: Pace)
    requires Enabled(s, step, pace) && Disciplined(s, step)
    requires Runs(Apply(s, step, pace), rest, end, pace)
    ensures Runs(s, [step] + rest, end, pace)
  {
    assert ([step] + rest)[1..] == rest;
  }

  lemma {:induction false} RunsAppend(s: State, steps: seq<Step>, mid: State, more: seq<Step>, end: State,
                            pace: Pace)
    requires Runs(s, steps, mid, pace) && Runs(mid, more, end, pace)
    ensures Runs(s, steps + more, end, pace)
    decreases |steps|
  {
    if steps == [] {
      assert steps + more == more;
    } else {
      RunsAppend(Apply(s, steps[0], pace), steps[1..], mid, more, end, pace);
      assert (steps + more)[0] == steps[0] && (steps + more)[1..] == steps[1..] + more;
    }
  }

  lemma RunsStep(s: State, step: Step, pace: Pace)
    requires Enabled(s, step, pace) && Disciplined(s, step)
    ensures Runs(s, [step], Apply(s, step, pace), pace)
  {
    RunsCons(s, step, [], Apply(s, step, pace), pace);
  }

  function ProcessingRow(updatedAt: int): Table {
    map[1 := FreshRow(7, "webp", 0).(status := Processing, updatedAt := updatedAt)]
  }

  /** Task 0 starts at time 0 and claims row 1. */
  lemma FirstClaim(pace: Pace) returns (steps: seq<Step>, end: State)
    ensures Runs(Boot(OnePending(), 0), steps, end, pace)
    ensures end == State(0, ProcessingRow(0), map[0 := Task(0, 0, Claiming, {1})], [])
  {
    var s0 := Boot(OnePending(), 0);
    var s1 := State(0, OnePending(), map[0 := Task(0, 0, Claiming, {})], []);
    end := State(0, ProcessingRow(0), map[0 := Task(0, 0, Claiming, {1})], []);
    assert s1.tasks[0].tracked + {1} == {1} && OnePending()[1 := ProcessingRow(0)[1]] == ProcessingRow(0);
    assert Apply(s1, ClaimRow(0, 1), pace) == end;
    RunsStep(s1, ClaimRow(0, 1), pace);
    RunsCons(s0, Start(0), [ClaimRow(0, 1)], end, pace);
    steps := [Start(0)] + [ClaimRow(0, 1)];
  }

  /** Task 0 starts working at minute 2, touches at minute 6 and, its ten-minute context over,
      never again; it is still alive a nanosecond past minute 21. */
  lemma Overstay(s2: State, pace: Pace) returns (steps: seq<Step>, end: State)
    requires pace.limit > 21 * MINUTE
    requires s2 == State(0, ProcessingRow(0), map[0 := Task(0, 0, Claiming, {1})], [])
    ensures Runs(s2, steps, end, pace)
    ensures end == State(21 * MINUTE + 1, ProcessingRow(6 * MINUTE), map[0 := Task(0, 6 * MINUTE, Working, {1})], [])
  {
    var first, s4 := StartWork(s2, pace);
    var second;
    second, end := LastHeartbeat(s4, pace);
    RunsAppend(s2, first, s4, second, end, pace);
    steps := first + second;
  }

  lemma StartWork(s2: State, pace: Pace) returns (steps: seq<Step>, s4: State)
    requires pace.limit > 21 * MINUTE
    requires s2 == State(0, ProcessingRow(0), map[0 := Task(0, 0, Claiming, {1})], [])
    ensures Runs(s2, steps, s4, pace)
    ensures s4 == State(2 * MINUTE, ProcessingRow(2 * MINUTE), map[0 := Task(0, 2 * MINUTE, Working, {1})], [])
  {
    var s3 := s2.(now := 2 * MINUTE);
    s4 := State(2 * MINUTE, ProcessingRow(2 * MINUTE), map[0 := Task(0, 2 * MINUTE, Working, {1})], []);
    assert Apply(s3, BeginWork(0, {1}), pace) == s4;
    RunsStep(s3, BeginWork(0, {1}), pace);
    RunsCons(s2, Tick(2 * MINUTE), [BeginWork(0, {1})], s4, pace);
    steps := [Tick(2 * MINUTE)] + [BeginWork(0, {1})];
  }

  lemma LastHeartbeat(s4: State, pace: Pace) returns (steps: seq<Step>, end: State)
    requires pace.limit > 21 * MINUTE
    requires s4 == State(2 * MINUTE, ProcessingRow(2 * MINUTE), map[0 := Task(0, 2 * MINUTE, Working, {1})], [])
    ensures Runs(s4, steps, end, pace)
    ensures end == State(21 * MINUTE + 1, ProcessingRow(6 * MINUTE), map[0 := Task(0, 6 * MINUTE, Working, {1})], [])
  {
    var s5 := s4.(now := 6 * MINUTE);
    var s6 := State(6 * MINUTE, ProcessingRow(6 * MINUTE), map[0 := Task(0, 6 * MINUTE, Working, {1})], []);
    end := s6.(now := 21 * MINUTE + 1);
    assert Apply(s5, Heartbeat(0, {1}), pace) == s6;
    RunsStep(s6, Tick(21 * MINUTE + 1), pace);
    RunsCons(s5, Heartbeat(0, {1}), [Tick(21 * MINUTE + 1)], end, pace);
    steps := [Heartbeat(0, {1})] + [Tick(21 * MINUTE + 1)];
    RunsCons(s4, Tick(6 * MINUTE), steps, end, pace);
    steps := [Tick(6 * MINUTE)] + steps;
  }

  /** Task 0 gives up waiting at minute 10 and is still writing a nanosecond past minute 15. */
  lemma LingerClosing(s2: State, pace: Pace) returns (steps: seq<Step>, end: State)
    requires pace.limit > 15 * MINUTE && pace.closing > 5 * MINUTE
    requires s2 == State(0, ProcessingRow(0), map[0 := Task(0, 0, Claiming, {1})], [])
    ensures Runs(s2, steps, end, pace)
    ensures end == State(15 * MINUTE + 1, ProcessingRow(0), map[0 := Task(0, 0, Closing(10 * MINUTE), {1})], [])
  {
    var s3 := s2.(now := 10 * MINUTE);
    var s4 := s3.(tasks := map[0 := Task(0, 0, Closing(10 * MINUTE), {1})]);
    end := s4.(now := 15 * MINUTE + 1);
    assert Apply(s3, BeginClose(0), pace) == s4;
    RunsStep(s4, Tick(15 * MINUTE + 1), pace);
    RunsCons(s3, BeginClose(0), [Tick(15 * MINUTE + 1)], end, pace);
    RunsCons(s2, Tick(10 * MINUTE), [BeginClose(0)] + [Tick(15 * MINUTE + 1)], end, pace);
    steps := [Tick(10 * MINUTE)] + ([BeginClose(0)] + [Tick(15 * MINUTE + 1)]);
  }

  /** Once row 1 is pending while task 0 still tracks it, another task takes it. */
  lemma SecondClaim(s: State, pace: Pace) returns (steps: seq<Step>, end: State)
    requires Hits(s.table, 1, Pending)
    requires s.tasks.Keys == {0} && 1 in s.tasks[0].tracked
    ensures Runs(s, steps, end, pace) && DoubleHold(end)
  {
    var mid := Apply(s, Start(1), pace);
    end := Apply(mid, ClaimRow(1, 1), pace);
    RunsStep(mid, ClaimRow(1, 1), pace);
    RunsCons(s, Start(1), [ClaimRow(1, 1)], end, pace);
    steps := [Start(1)] + [ClaimRow(1, 1)];
  }

  /** A row that goes stale in its holder's hands is swept and claimed again. */
  lemma StaleInHand(s: State, pace: Pace) returns (steps: seq<Step>, end: State)
    requires s.tasks.Keys == {0} && 1 in s.tasks[0].tracked && s.snapshot == []
    requires 1 in s.table && Stale(s.table[1], s.now - STALE_THRESHOLD) && s.table[1].retryCount == 0
    ensures Runs(s, steps, end, pace) && DoubleHold(end)
  {
    var swept := Apply(s, BeginSweep([(1, 0)]), pace);
    var back := Apply(swept, RecoverNext, pace);
    var last;
    last, end := SecondClaim(back, pace);
    RunsCons(swept, RecoverNext, last, end, pace);
    RunsCons(s, BeginSweep([(1, 0)]), [RecoverNext] + last, end, pace);
    steps := [BeginSweep([(1, 0)])] + ([RecoverNext] + last);
  }

  lemma HastyPaceCollides(pace: Pace) returns (steps: seq<Step>, end: State)
    requires !Calm(pace)
    ensures Runs(Boot(OnePending(), 0), steps, end, pace) && DoubleHold(end)
  {
    var first, s2 := FirstClaim(pace);
    var second, held;
    if pace.limit > 21 * MINUTE {
      second, held := Overstay(s2, pace);
    } else {
      second, held := LingerClosing(s2, pace);
    }
    var last;
    last, end := StaleInHand(held, pace);
    RunsAppend(s2, second, held, last, end, pace);
    RunsAppend(Boot(OnePending(), 0), first, s2, second + last, end, pace);
    steps := first + (second + last);
  }

  /** The main result: no two live tasks ever hold the same row, in any run from any table, if
      and only if the tasks keep the pace; in particular when every task ends within 21 minutes
      of starting and its closing writes take at most five. */
  lemma LeaseSafety(pace: Pace)
    ensures SafeWith(pace) <==> Calm(pace)
  {
    if Calm(pace) {
      forall t: Table, now: int, steps: seq<Step>, end: State | Runs(Boot(t, now), steps, end, pace)
        ensures Exclusive(end)
      {
        RunKeepsInv(Boot(t, now), steps, end, pace);
      }
    } else {
      var steps, end := HastyPaceCollides(pace);
      assert !Exclusive(end);
    }
  }

  // ---------- the shutdown rollback ----------

  ghost predicate StaysExclusive(s: State, pace: Pace) {
    forall steps: seq<Step>, end: State :: Runs(s, steps, end, pace) ==> Exclusive(end)
  }

  lemma {:induction false} FreshTask(taken: set<nat>) returns (tid: nat)
    ensures tid !in taken && forall k :: k in taken ==> k < tid
    decreases |taken|
  {
    if taken == {} {
      tid := 0;
    } else {
      var k :| k in taken;
      var above := FreshTask(taken - {k});
      tid := if above > k then above else k + 1;
      assert forall x :: x in taken ==> x == k || x in taken - {k};
    }
  }

  /** Some task holds the row, and a new one claims it because it is pending. */
  lemma ClaimedTwice(s: State, tid: nat, id: nat, pace: Pace) returns (steps: seq<Step>, end: State)
    requires tid in s.tasks && id in s.tasks[tid].tracked && Hits(s.table, id, Pending)
    ensures Runs(s, steps, end, pace) && !Exclusive(end)
  {
    var other := FreshTask(s.tasks.Keys);
    var mid := Apply(s, Start(other), pace);
    end := Apply(mid, ClaimRow(other, id), pace);
    RunsStep(mid, ClaimRow(other, id), pace);
    RunsCons(s, Start(other), [ClaimRow(other, id)], end, pace);
    steps := [Start(other)] + [ClaimRow(other, id)];
    assert id in end.tasks[other].tracked && id in end.tasks[tid].tracked && other != tid;
  }

  /** The sweep comes to an entry of a row that a task holds by now. */
  lemma {:induction false} SweptInHand(s: State, tid: nat, e: (nat, nat), pace: Pace)
    returns (steps: seq<Step>, end: State)
    requires tid in s.tasks && e.0 in s.tasks[tid].tracked && Hits(s.table, e.0, Processing)
    requires e in s.snapshot && SendsBack(e)
    requires forall i, j :: 0 <= i < j < |s.snapshot| ==> s.snapshot[i].0 != s.snapshot[j].0
    ensures Runs(s, steps, end, pace) && !Exclusive(end)
    decreases |s.snapshot|
  {
    RestOfSnapshot(s.snapshot);
    var next := Apply(s, RecoverNext, pace);
    var rest;
    if s.snapshot[0] == e {
      rest, end := ClaimedTwice(next, tid, e.0, pace);
    } else {
      var k :| 0 <= k < |s.snapshot| && s.snapshot[k] == e;
      assert next.snapshot[k - 1] == e;
      rest, end := SweptInHand(next, tid, e, pace);
    }
    RunsCons(s, RecoverNext, rest, end, pace);
    steps := [RecoverNext] + rest;
  }

  /** A row that became pending under the running sweep is claimed, then sent back by it. */
  lemma ClaimedThenSwept(s: State, e: (nat, nat), pace: Pace) returns (steps: seq<Step>, end: State)
    requires Hits(s.table, e.0, Pending) && e in s.snapshot && SendsBack(e)
    requires forall i, j :: 0 <= i < j < |s.snapshot| ==> s.snapshot[i].0 != s.snapshot[j].0
    ensures Runs(s, steps, end, pace) && !Exclusive(end)
  {
    var tid := FreshTask(s.tasks.Keys);
    var started := Apply(s, Start(tid), pace);
    var claimed := Apply(started, ClaimRow(tid, e.0), pace);
    steps, end := SweptInHand(claimed, tid, e, pace);
    RunsCons(started, ClaimRow(tid, e.0), steps, end, pace);
    RunsCons(s, Start(tid), [ClaimRow(tid, e.0)] + steps, end, pace);
    steps := [Start(tid)] + ([ClaimRow(tid, e.0)] + steps);
  }

  /** A rollback that resets a held row, or one the running sweep will send back again. */
  lemma RoughRollbackCollides(s: State, ids: set<nat>, pace: Pace) returns (steps: seq<Step>, end: State)
    requires Inv(s, pace) && !Spares(s, ids)
    ensures Runs(Apply(s, ShutdownRollback(ids), pace), steps, end, pace) && !Exclusive(end)
  {
    var after := Apply(s, ShutdownRollback(ids), pace);
    var id :| id in ids && Hits(s.table, id, Processing)
              && (Tracked(s, id) || exists e :: e in s.snapshot && SendsBack(e) && e.0 == id);
    if Tracked(s, id) {
      var tid :| tid in s.tasks && id in s.tasks[tid].tracked;
      steps, end := ClaimedTwice(after, tid, id, pace);
    } else {
      var e :| e in s.snapshot && SendsBack(e) && e.0 == id;
      steps, end := ClaimedThenSwept(after, e, pace);
    }
  }

  /** Exactly which shutdown rollbacks keep the lease: in any reachable state, the row stays with
      one task in every continuation if and only if the rollback resets no row that a live task
      tracks and none that the running sweep will send back again. */
  lemma RollbackKeepsLease(t: Table, now: int, before: seq<Step>, s: State, ids: set<nat>, pace: Pace)
    requires Calm(pace) && Runs(Boot(t, now), before, s, pace)
    ensures StaysExclusive(Apply(s, ShutdownRollback(ids), pace), pace) <==> Spares(s, ids)
  {
    RunKeepsInv(Boot(t, now), before, s, pace);
    var after := Apply(s, ShutdownRollback(ids), pace);
    if Spares(s, ids) {
      StepKeepsInv(s, ShutdownRollback(ids), pace);
      forall steps: seq<Step>, end: State | Runs(after, steps, end, pace) ensures Exclusive(end) {
        RunKeepsInv(after, steps, end, pace);
      }
    } else {
      var steps, end := RoughRollbackCollides(s, ids, pace);
      assert !StaysExclusive(after, pace);
    }
  }

  /** With no sweep under way, as when the sweeper was stopped before the rollback: the lease is
      broken exactly if one of the listed rows is tracked by a live task and still processing. */
  lemma ShutdownRollbackBreaksLease(t: Table, now: int, before: seq<Step>, s: State, ids: set<nat>, pace: Pace)
    requires Calm(pace) && Runs(Boot(t, now), before, s, pace) && s.snapshot == []
    ensures !StaysExclusive(Apply(s, ShutdownRollback(ids), pace), pace) <==>
            exists id :: id in ids && Tracked(s, id) && Hits(s.table, id, Processing)
  {
    RollbackKeepsLease(t, now, before, s, ids, pace);
  }
}
