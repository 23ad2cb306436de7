/** The sweeper's retry budget over whole runs.  A sweep reads its stale rows once and then
    updates them one by one, with the snapshot's retry count, while any other statement may
    run in between.  `sent` counts how often the sweeper really sent a row back. */
module RetryBudget {
  import opened Options
  import opened VariantTable

  datatype State = State(table: Table, queue: seq<(nat, nat)>, sent: map<nat, nat>)

  datatype Step =
    | Statement(act: Action, now: int)
    | BeginSweep(cutoff: int, order: seq<(nat, nat)>)
    | RecoverNext(now: int)
    | AbortSweep

  function Sent(s: State, id: nat): nat {
    if id in s.sent then s.sent[id] else 0
  }

  ghost predicate ListsStale(t: Table, cutoff: int, order: seq<(nat, nat)>) {
    && (forall i, j :: 0 <= i < j < |order| ==> order[i].0 != order[j].0)
    && (forall e :: e in order ==> e.0 in t && Stale(t[e.0], cutoff) && e.1 == t[e.0].retryCount)
    && (forall id :: id in t && Stale(t[id], cutoff) ==> (id, t[id].retryCount) in order)
  }

  lemma {:induction false} ListOf(t: Table, ids: set<nat>) returns (order: seq<(nat, nat)>)
    requires ids <= t.Keys
    ensures forall i, j :: 0 <= i < j < |order| ==> order[i].0 != order[j].0
    ensures forall e :: e in order <==> e.0 in ids && e.1 == t[e.0].retryCount
    decreases |ids|
  {
    if ids == {} {
      order := [];
    } else {
      var id :| id in ids;
      var rest := ListOf(t, ids - {id});
      order := [(id, t[id].retryCount)] + rest;
      forall j | 0 < j < |order| ensures order[j].0 != id { assert order[j] in rest; }
    }
  }

  /** Between sweeps a sweep can always begin, with a list of exactly the live rows that have been
      processing since before the cutoff, and it can be broken off at any time. */
  lemma SweepCanBegin(s: State, cutoff: int) returns (order: seq<(nat, nat)>)
    ensures s.queue == [] <==> Enabled(s, BeginSweep(cutoff, order))
    ensures forall e :: e in order <==>
      && e.0 in s.table && !s.table[e.0].deleted && s.table[e.0].status == Processing
      && s.table[e.0].updatedAt < cutoff && e.1 == s.table[e.0].retryCount
    ensures Enabled(s, AbortSweep)
  {
    order := ListOf(s.table, set id | id in s.table && Stale(s.table[id], cutoff));
  }

  /** With one sweeper a sweep starts only when the previous one is over. */
  ghost predicate Enabled(s: State, step: Step) {
    match step
    case Statement(act, _) => !act.Recovers? && VariantTable.Enabled(s.table, act)
    case BeginSweep(cutoff, order) => s.queue == [] && ListsStale(s.table, cutoff, order)
    case RecoverNext(_) => s.queue != []
    case AbortSweep => true
  }

  ghost function Apply(s: State, step: Step, maxRetries: int): State
    requires Enabled(s, step)
  {
    match step
    case Statement(act, now) => s.(table := VariantTable.Apply(s.table, act, now))
    case BeginSweep(_, order) => s.(queue := order)
    case RecoverNext(now) =>
      var (id, retry) := s.queue[0];
      State(Recover(s.table, id, retry, maxRetries, now), s.queue[1..],
            if Hits(s.table, id, Processing) && !ExceedsRetries(retry, maxRetries)
            then s.sent[id := Sent(s, id) + 1] else s.sent)
    case AbortSweep => s.(queue := [])
  }

  predicate Unfinished(r: Row) {
    r.status == Pending || r.status == Processing
  }

  /** The snapshot entry agrees with the row, as long as the row is unfinished. */
  predicate InStep(t: Table, e: (nat, nat)) {
    e.0 in t && (Unfinished(t[e.0]) ==> t[e.0].retryCount == e.1)
  }

  ghost predicate Inv(s: State, maxRetries: int) {
    && s.sent.Keys <= s.table.Keys
    && (forall id :: id in s.table && Unfinished(s.table[id]) ==> s.table[id].retryCount == Sent(s, id))
    && (forall i, j :: 0 <= i < j < |s.queue| ==> s.queue[i].0 != s.queue[j].0)
    && (forall e :: e in s.queue ==> InStep(s.table, e))
    && (maxRetries > 0 ==> forall id :: id in s.sent ==> Sent(s, id) <= maxRetries - 1)
  }

  ghost predicate Reachable(trace: seq<State>, steps: seq<Step>, maxRetries: int) {
    && |trace| == |steps| + 1
    && trace[0] == State(map[], [], map[])
    && forall i :: 0 <= i < |steps| ==>
      Enabled(trace[i], steps[i]) && trace[i + 1] == Apply(trace[i], steps[i], maxRetries)
  }

  /** No statement but the sweeper's touches the retry count of a row that stays unfinished. */
  lemma StatementKeepsCounts(t: Table, act: Action, now: int, id: nat)
    requires VariantTable.Enabled(t, act) && !act.Recovers? && id in VariantTable.Apply(t, act, now)
    ensures var after := VariantTable.Apply(t, act, now)[id];
      if id in t then Unfinished(after) ==> Unfinished(t[id]) && after.retryCount == t[id].retryCount
      else after.retryCount == 0
  {
  }

  lemma StatementKeepsInv(s: State, act: Action, now: int, maxRetries: int)
    requires Inv(s, maxRetries) && Enabled(s, Statement(act, now))
    ensures Inv(Apply(s, Statement(act, now), maxRetries), maxRetries)
  {
    var t' := VariantTable.Apply(s.table, act, now);
    assert s.table.Keys <= t'.Keys;
    forall id | id in t' ensures Unfinished(t'[id]) ==> t'[id].retryCount == Sent(s, id) {
      StatementKeepsCounts(s.table, act, now, id);
    }
    forall e | e in s.queue ensures InStep(t', e) {
      StatementKeepsCounts(s.table, act, now, e.0);
    }
  }

  lemma RecoverNextKeepsInv(s: State, now: int, maxRetries: int)
    requires Inv(s, maxRetries) && s.queue != []
    ensures Inv(Apply(s, RecoverNext(now), maxRetries), maxRetries)
  {
    var s' := Apply(s, RecoverNext(now), maxRetries);
    assert s.queue[0] in s.queue;
    forall i, j | 0 <= i < j < |s'.queue| ensures s'.queue[i].0 != s'.queue[j].0 {
      assert s'.queue[i] == s.queue[i + 1] && s'.queue[j] == s.queue[j + 1];
    }
    forall e | e in s'.queue ensures e in s.queue && e.0 != s.queue[0].0 {
      var k :| 0 <= k < |s'.queue| && s'.queue[k] == e;
      assert s.queue[k + 1] == e;
    }
  }

  lemma StepKeepsInv(s: State, step: Step, maxRetries: int)
    requires Inv(s, maxRetries) && Enabled(s, step)
    ensures Inv(Apply(s, step, maxRetries), maxRetries)
  {
    match step
    case Statement(act, now) => StatementKeepsInv(s, act, now, maxRetries);
    case BeginSweep(_, _) =>
    case RecoverNext(now) => RecoverNextKeepsInv(s, now, maxRetries);
    case AbortSweep =>
  }

  lemma {:induction false} ReachableInv(trace: seq<State>, steps: seq<Step>, maxRetries: int, k: nat)
    requires Reachable(trace, steps, maxRetries) && k < |trace|
    ensures Inv(trace[k], maxRetries)
  {
    if k > 0 {
      ReachableInv(trace, steps, maxRetries, k - 1);
      StepKeepsInv(trace[k - 1], steps[k - 1], maxRetries);
    }
  }

  /** In every reachable state an unfinished row's retry_count is the number of times the
      sweeper sent it back, and with the configured limit of three that is at most twice. */
  lemma RetryCountIsExact(trace: seq<State>, steps: seq<Step>, k: nat, id: nat)
    requires Reachable(trace, steps, STALE_MAX_RETRIES) && k < |trace| && id in trace[k].table
    ensures Unfinished(trace[k].table[id]) ==> trace[k].table[id].retryCount == Sent(trace[k], id)
    ensures Sent(trace[k], id) <= 2
  {
    ReachableInv(trace, steps, STALE_MAX_RETRIES, k);
  }

  /** The update that recovers a row decides by that exact count: the first two recoveries
      send it back with the right delay, the third fails it. */
  lemma RecoveryVerdict(trace: seq<State>, steps: seq<Step>, k: nat)
    requires Reachable(trace, steps, STALE_MAX_RETRIES) && k < |steps| && steps[k].RecoverNext?
    ensures var (id, _) := trace[k].queue[0]; var now := steps[k].now;
      Hits(trace[k].table, id, Processing) ==>
        var n := Sent(trace[k], id); var row := trace[k + 1].table[id];
        if n < 2 then
          row.status == Pending && row.retryCount == n + 1
          && row.nextRetryAt == Some(now + (if n == 0 then 5 * MINUTE else 15 * MINUTE))
        else n == 2 && row.status == Failed && row.retryCount == 3 && row.nextRetryAt == None
  {
    ReachableInv(trace, steps, STALE_MAX_RETRIES, k);
    assert trace[k].queue[0] in trace[k].queue;
  }

  /** The window stays with the row: as long as nobody claims it, it keeps it until it fails or is
      deleted. */
  lemma {:induction false} WindowKept(trace: seq<State>, steps: seq<Step>, maxRetries: int, k: nat, j: nat, id: nat)
    requires Reachable(trace, steps, maxRetries) && k <= j < |trace|
    requires Hits(trace[k].table, id, Pending)
    requires forall m :: k <= m < j && steps[m].Statement? ==> steps[m].act != Claim(id)
    ensures id in trace[j].table
    ensures var row := trace[j].table[id];
      row.deleted || row.status == Failed
      || (row.status == Pending && row.nextRetryAt == trace[k].table[id].nextRetryAt)
    decreases j - k
  {
    if k < j {
      WindowKept(trace, steps, maxRetries, k, j - 1, id);
      if steps[j - 1].Statement? {
        StepIsLegal(trace[j - 1].table, steps[j - 1].act, steps[j - 1].now, id);
        ColumnByColumn(trace[j - 1].table, steps[j - 1].act, steps[j - 1].now, id);
      }
    }
  }

  /** The row the sweeper sent back at `steps[k].now` for the first time, as long as nobody claims it. */
  lemma FirstWindow(trace: seq<State>, steps: seq<Step>, k: nat, j: nat, id: nat)
    requires Reachable(trace, steps, STALE_MAX_RETRIES) && k < |steps| && steps[k].RecoverNext?
    requires id == trace[k].queue[0].0 && Hits(trace[k].table, id, Processing) && Sent(trace[k], id) == 0
    requires k < j < |trace|
    requires forall m :: k < m < j && steps[m].Statement? ==> steps[m].act != Claim(id)
    ensures id in trace[j].table
    ensures var row := trace[j].table[id];
      row.deleted || row.status == Failed
      || (row.status == Pending && row.nextRetryAt == Some(steps[k].now + 5 * MINUTE))
  {
    RecoveryVerdict(trace, steps, k);
    WindowKept(trace, steps, STALE_MAX_RETRIES, k + 1, j, id);
  }

  /** Why one sweeper is needed: two sweepers that both read retry count 0 send a row back
      twice, and the row says once. */
  lemma TwoSweepersLoseACount(t: Table, id: nat, now: int)
    requires Hits(t, id, Processing) && t[id].retryCount == 0
    ensures var firstBack := Recover(t, id, 0, STALE_MAX_RETRIES, now);
      var reclaimed := CasStatus(firstBack, id, Pending, Processing, "", now);
      var secondBack := Recover(reclaimed, id, 0, STALE_MAX_RETRIES, now);
      Hits(firstBack, id, Pending) && Hits(secondBack, id, Pending) && secondBack[id].retryCount == 1
  {
  }
}
