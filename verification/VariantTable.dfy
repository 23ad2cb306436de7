/** The `image_variants` table and every statement the program issues against it.
    One SQL statement is one function from table to table.  A soft delete sets `deleted`;
    every statement issued through the ORM model is scoped to the rows that are not deleted. */
module VariantTable {
  import opened Options

  datatype Status = Pending | Processing | Completed | Failed

  datatype Artifact = Artifact(identifier: string, storagePath: string, fileSize: int,
                               fileHash: string, width: int, height: int)

  const NO_ARTIFACT := Artifact("", "", 0, "", 0, 0)

  datatype Row = Row(imageID: nat, format: string, status: Status, artifact: Artifact,
                     errorMessage: string, retryCount: nat, nextRetryAt: Option<int>,
                     updatedAt: int, deleted: bool)

  type Table = map<nat, Row>

  function Elems(s: seq<nat>): set<nat> {
    set x | x in s
  }

  lemma ElemsSnoc(s: seq<nat>, x: nat)
    ensures Elems(s + [x]) == Elems(s) + {x}
  {
    assert (s + [x])[|s|] == x;
  }

  /** Times are in nanoseconds, as in Go's time.Duration. */
  const MINUTE: int := 60_000_000_000

  /** The sweeper's constants: how long a claimed row may go untouched, and how often it is
      recovered before it fails. */
  const STALE_THRESHOLD := 15 * MINUTE
  const STALE_MAX_RETRIES := 3

  /** The WHERE clause `id = ? AND status = ?`, with the ORM's soft-delete scope. */
  predicate Hits(t: Table, id: nat, status: Status) {
    id in t && !t[id].deleted && t[id].status == status
  }

  // ---------- statements ----------

  /** `UpdateStatusCAS`: entering processing also clears the retry window. */
  function CasStatus(t: Table, id: nat, expected: Status, newStatus: Status, errMsg: string, now: int): Table {
    if Hits(t, id, expected) then
      t[id := t[id].(
        status := newStatus,
        updatedAt := now,
        nextRetryAt := if newStatus == Processing then None else t[id].nextRetryAt,
        errorMessage := if errMsg != "" then errMsg else t[id].errorMessage)]
    else t
  }

  function Complete(t: Table, id: nat, a: Artifact, now: int): Table {
    if Hits(t, id, Processing) then
      t[id := t[id].(status := Completed, artifact := a, errorMessage := "", retryCount := 0,
                     nextRetryAt := None, updatedAt := now)]
    else t
  }

  function Fail(t: Table, id: nat, errMsg: string, now: int): Table {
    if Hits(t, id, Processing) then
      t[id := t[id].(status := Failed, errorMessage := errMsg, nextRetryAt := None, updatedAt := now)]
    else t
  }

  /** `ForceUpdateFailed` has no status guard. */
  function ForceFail(t: Table, id: nat, errMsg: string, now: int): Table {
    if id in t && !t[id].deleted then
      t[id := t[id].(status := Failed, errorMessage := errMsg, nextRetryAt := None, updatedAt := now)]
    else t
  }

  function Touch(t: Table, ids: set<nat>, now: int): Table {
    map id | id in t :: if id in ids && Hits(t, id, Processing) then t[id].(updatedAt := now) else t[id]
  }

  function ResetToPending(t: Table, ids: set<nat>, now: int): Table {
    map id | id in t ::
      if id in ids && Hits(t, id, Processing) then
        t[id].(status := Pending, errorMessage := "", nextRetryAt := None, updatedAt := now)
      else t[id]
  }

  function DeleteOne(t: Table, id: nat): Table {
    if id in t && !t[id].deleted then t[id := t[id].(deleted := true)] else t
  }

  function DeleteByImage(t: Table, imageID: nat): Table {
    map id | id in t :: if t[id].imageID == imageID then t[id].(deleted := true) else t[id]
  }

  function StaleRetryDelay(retryCount: int): int {
    match retryCount
    case 1 => 5 * MINUTE
    case 2 => 15 * MINUTE
    case _ => 60 * MINUTE
  }

  predicate ExceedsRetries(snapshotRetry: nat, maxRetries: int) {
    maxRetries > 0 && snapshotRetry + 1 >= maxRetries
  }

  /** One loop body of `RecoverStaleProcessing`: the new retry count comes from the
      snapshot read earlier, not from the row being updated. */
  function Recover(t: Table, id: nat, snapshotRetry: nat, maxRetries: int, now: int): Table {
    if !Hits(t, id, Processing) then t
    else if ExceedsRetries(snapshotRetry, maxRetries) then
      t[id := t[id].(status := Failed, errorMessage := "stale processing exceeded retry limit",
                     retryCount := snapshotRetry + 1, nextRetryAt := None, updatedAt := now)]
    else
      t[id := t[id].(status := Pending, errorMessage := "", retryCount := snapshotRetry + 1,
                     nextRetryAt := Some(now + StaleRetryDelay(snapshotRetry + 1)), updatedAt := now)]
  }

  predicate Stale(r: Row, cutoff: int) {
    !r.deleted && r.status == Processing && r.updatedAt < cutoff
  }

  predicate HasKey(t: Table, id: nat, imageID: nat, format: string) {
    id in t && t[id].imageID == imageID && t[id].format == format
  }

  ghost predicate KeyTaken(t: Table, imageID: nat, format: string) {
    exists id :: HasKey(t, id, imageID, format)
  }

  ghost predicate KeyLive(t: Table, imageID: nat, format: string) {
    exists id :: HasKey(t, id, imageID, format) && !t[id].deleted
  }

  function FreshRow(imageID: nat, format: string, now: int): Row {
    Row(imageID, format, Pending, NO_ARTIFACT, "", 0, None, now, false)
  }

  /** The insert of `UpsertPending`: ON CONFLICT (image_id, format) DO NOTHING, where the
      unique index also covers soft-deleted rows. */
  ghost function Insert(t: Table, newId: nat, imageID: nat, format: string, now: int): Table
    requires newId !in t
  {
    if KeyTaken(t, imageID, format) then t else t[newId := FreshRow(imageID, format, now)]
  }

  // ---------- runs ----------

  /** The statements as the program issues them.  The three compare-and-sets are the only
      (expected, new) pairs any caller passes. */
  datatype Action =
    | Upsert(newId: nat, imageID: nat, format: string)
    | Claim(id: nat)
    | RollBack(id: nat)
    | PanicFail(id: nat, errMsg: string)
    | Completes(id: nat, a: Artifact)
    | Fails(id: nat, errMsg: string)
    | ForceFails(id: nat, errMsg: string)
    | Touches(ids: set<nat>)
    | Recovers(id: nat, snapshotRetry: nat, maxRetries: int)
    | Resets(ids: set<nat>)
    | Deletes(id: nat)
    | DeletesImage(imageID: nat)

  predicate Enabled(t: Table, act: Action) {
    act.Upsert? ==> act.newId !in t
  }

  ghost function Apply(t: Table, act: Action, now: int): Table
    requires Enabled(t, act)
  {
    match act
    case Upsert(newId, imageID, format) => Insert(t, newId, imageID, format, now)
    case Claim(id) => CasStatus(t, id, Pending, Processing, "", now)
    case RollBack(id) => CasStatus(t, id, Processing, Pending, "", now)
    case PanicFail(id, errMsg) => CasStatus(t, id, Processing, Failed, errMsg, now)
    case Completes(id, a) => Complete(t, id, a, now)
    case Fails(id, errMsg) => Fail(t, id, errMsg, now)
    case ForceFails(id, errMsg) => ForceFail(t, id, errMsg, now)
    case Touches(ids) => Touch(t, ids, now)
    case Recovers(id, snapshotRetry, maxRetries) => Recover(t, id, snapshotRetry, maxRetries, now)
    case Resets(ids) => ResetToPending(t, ids, now)
    case Deletes(id) => DeleteOne(t, id)
    case DeletesImage(imageID) => DeleteByImage(t, imageID)
  }

  /** A run: the tables seen, one more than the actions between them. */
  datatype Run = Run(tables: seq<Table>, acts: seq<Action>, times: seq<int>)

  ghost predicate ValidRun(r: Run) {
    && |r.tables| == |r.acts| + 1 && |r.times| == |r.acts|
    && r.tables[0] == map[]
    && forall i :: 0 <= i < |r.acts| ==>
      Enabled(r.tables[i], r.acts[i]) && r.tables[i + 1] == Apply(r.tables[i], r.acts[i], r.times[i])
  }

  ghost predicate RowOk(r: Row) {
    && (r.nextRetryAt.Some? ==> r.status == Pending)
    && (r.status == Completed ==> r.retryCount == 0)
  }

  ghost predicate UniqueKeys(t: Table) {
    forall i, j :: i in t && j in t && t[i].imageID == t[j].imageID && t[i].format == t[j].format ==> i == j
  }

  ghost predicate TableOk(t: Table) {
    UniqueKeys(t) && forall id :: id in t ==> RowOk(t[id])
  }

  lemma StepKeepsRows(t: Table, act: Action, now: int)
    requires Enabled(t, act) && forall id :: id in t ==> RowOk(t[id])
    ensures var t' := Apply(t, act, now); forall id :: id in t' ==> RowOk(t'[id])
  {
  }

  /** No statement but the insert adds a row, and none moves a row to another key. */
  lemma StepKeepsColumns(t: Table, act: Action, now: int)
    requires Enabled(t, act) && !act.Upsert?
    ensures var t' := Apply(t, act, now);
      forall id ::
        (id in t' <==> id in t) && (id in t ==> t'[id].imageID == t[id].imageID && t'[id].format == t[id].format)
  {
  }

  lemma InsertKeepsKeys(t: Table, newId: nat, imageID: nat, format: string, now: int)
    requires UniqueKeys(t) && newId !in t
    ensures UniqueKeys(Insert(t, newId, imageID, format, now))
  {
    if !KeyTaken(t, imageID, format) {
      assert forall i :: i in t ==> !HasKey(t, i, imageID, format);
    }
  }

  lemma StepKeepsTableOk(t: Table, act: Action, now: int)
    requires TableOk(t) && Enabled(t, act)
    ensures TableOk(Apply(t, act, now))
  {
    StepKeepsRows(t, act, now);
    if act.Upsert? {
      InsertKeepsKeys(t, act.newId, act.imageID, act.format, now);
    } else {
      StepKeepsColumns(t, act, now);
    }
  }

  /** Every reachable table: (image, format) is unique even counting tombstones, a retry
      window implies a pending row, and a completed row carries retry count zero. */
  lemma {:induction false} ReachableTableOk(r: Run, k: nat)
    requires ValidRun(r) && k < |r.tables|
    ensures TableOk(r.tables[k])
  {
    if k > 0 {
      ReachableTableOk(r, k - 1);
      StepKeepsTableOk(r.tables[k - 1], r.acts[k - 1], r.times[k - 1]);
    }
  }

  /** What one statement may do to one existing row: nothing disappears, a tombstone never
      changes, failed stays failed, completed is left only by force-fail, and completed is
      entered only by UpdateCompleted on a processing row, which stores exactly its result. */
  ghost predicate LegalChange(before: Row, after: Row, act: Action, id: nat) {
    && after.imageID == before.imageID && after.format == before.format
    && (before.deleted ==> after == before)
    && (before.status == Failed ==> after.status == Failed)
    && (before.status == Completed ==>
          after == before
          || (act.ForceFails? && act.id == id && after.status == Failed)
          || ((act.Deletes? || act.DeletesImage?) && after == before.(deleted := true)))
    && (after.status == Completed && before.status != Completed ==>
          act.Completes? && act.id == id && before.status == Processing && !before.deleted
          && after.artifact == act.a && after.retryCount == 0 && after.nextRetryAt == None)
    && (after.status == Processing && before.status != Processing ==>
          act == Claim(id) && before.status == Pending && after.retryCount == before.retryCount)
  }

  lemma StepIsLegal(t: Table, act: Action, now: int, id: nat)
    requires Enabled(t, act) && id in t
    ensures id in Apply(t, act, now)
    ensures LegalChange(t[id], Apply(t, act, now)[id], act, id)
  {
  }

  /** The statements that meet a row, with their WHERE clauses written out. */
  predicate Affects(row: Row, id: nat, act: Action) {
    !row.deleted
    && match act
       case Upsert(_, _, _) => false
       case Claim(x) => x == id && row.status == Pending
       case RollBack(x) => x == id && row.status == Processing
       case PanicFail(x, _) => x == id && row.status == Processing
       case Completes(x, _) => x == id && row.status == Processing
       case Fails(x, _) => x == id && row.status == Processing
       case ForceFails(x, _) => x == id
       case Touches(ids) => id in ids && row.status == Processing
       case Recovers(x, _, _) => x == id && row.status == Processing
       case Resets(ids) => id in ids && row.status == Processing
       case Deletes(x) => x == id
       case DeletesImage(imageID) => row.imageID == imageID
  }

  /** Column by column: who writes it, and what.  A row that no statement meets stays as it is. */
  lemma ColumnByColumn(t: Table, act: Action, now: int, id: nat)
    requires Enabled(t, act) && id in t
    ensures id in Apply(t, act, now)
    ensures var row, after := t[id], Apply(t, act, now)[id];
      var spent := act.Recovers? && 0 < act.maxRetries <= act.snapshotRetry + 1;
      var marks := act.Deletes? || act.DeletesImage?;
      if !Affects(row, id, act) then after == row
      else
        && after.imageID == row.imageID && after.format == row.format
        && after.deleted == marks
        && after.updatedAt == (if marks then row.updatedAt else now)
        && after.artifact == (if act.Completes? then act.a else row.artifact)
        && after.retryCount == (if act.Completes? then 0 else if act.Recovers? then act.snapshotRetry + 1
                                else row.retryCount)
        && after.nextRetryAt == (if marks || act.Touches? || act.RollBack? || act.PanicFail? then row.nextRetryAt
                                 else if act.Recovers? && !spent then
                                   Some(now + (if act.snapshotRetry == 0 then 300_000_000_000
                                               else if act.snapshotRetry == 1 then 900_000_000_000
                                               else 3_600_000_000_000))
                                 else None)
        && after.status == (if act.Claim? then Processing
                            else if act.Completes? then Completed
                            else if act.RollBack? || act.Resets? || (act.Recovers? && !spent) then Pending
                            else if marks || act.Touches? then row.status
                            else Failed)
        && after.errorMessage == (if act.Completes? || act.Resets? || (act.Recovers? && !spent) then ""
                                  else if act.Fails? || act.ForceFails? then act.errMsg
                                  else if act.PanicFail? && act.errMsg != "" then act.errMsg
                                  else if spent then "stale processing exceeded retry limit"
                                  else row.errorMessage)
  {
  }

  /** The one statement that adds a row adds a pending one that can be claimed at once. */
  lemma InsertedRow(t: Table, newId: nat, imageID: nat, format: string, now: int)
    requires newId !in t
    ensures var t' := Insert(t, newId, imageID, format, now);
      if exists id :: id in t && t[id].imageID == imageID && t[id].format == format then t' == t
      else
        && t'.Keys == t.Keys + {newId} && (forall id :: id in t ==> t'[id] == t[id])
        && t'[newId].imageID == imageID && t'[newId].format == format && t'[newId].status == Pending
        && !t'[newId].deleted && t'[newId].retryCount == 0 && t'[newId].nextRetryAt == None
        && t'[newId].artifact == NO_ARTIFACT && t'[newId].updatedAt == now
  {
    assert KeyTaken(t, imageID, format) <==>
           exists id :: id in t && t[id].imageID == imageID && t[id].format == format by {
      forall id | id in t && t[id].imageID == imageID && t[id].format == format
        ensures HasKey(t, id, imageID, format) {}
    }
  }

  /** Failed is absorbing along a whole run, and tombstones are frozen. */
  lemma {:induction false} FailedForever(r: Run, i: nat, j: nat, id: nat)
    requires ValidRun(r) && i <= j < |r.tables| && id in r.tables[i]
    ensures id in r.tables[j]
    ensures r.tables[i][id].status == Failed ==> r.tables[j][id].status == Failed
    ensures r.tables[i][id].deleted ==> r.tables[j][id] == r.tables[i][id]
    decreases j - i
  {
    if i < j {
      FailedForever(r, i, j - 1, id);
      StepIsLegal(r.tables[j - 1], r.acts[j - 1], r.times[j - 1], id);
    }
  }

  /** A force-fail in between that found the row alive; on a tombstone it does nothing. */
  ghost predicate ForceFailedBetween(r: Run, i: nat, j: nat, id: nat)
    requires ValidRun(r)
  {
    exists k :: i <= k < j && k < |r.acts| && r.acts[k].ForceFails? && r.acts[k].id == id
                && id in r.tables[k] && !r.tables[k][id].deleted
  }

  /** A completed row keeps its result for the rest of the run, at most being tombstoned, if and
      only if no force-fail meets it alive; otherwise it ends up failed. */
  lemma {:induction false} CompletedKept(r: Run, i: nat, j: nat, id: nat)
    requires ValidRun(r) && i <= j < |r.tables| && id in r.tables[i]
    requires r.tables[i][id].status == Completed
    ensures id in r.tables[j]
    ensures r.tables[j][id] == r.tables[i][id].(deleted := r.tables[j][id].deleted) <==>
            !ForceFailedBetween(r, i, j, id)
    ensures ForceFailedBetween(r, i, j, id) ==> r.tables[j][id].status == Failed
    decreases j - i
  {
    if i < j {
      CompletedKept(r, i, j - 1, id);
      StepIsLegal(r.tables[j - 1], r.acts[j - 1], r.times[j - 1], id);
      var t, act := r.tables[j - 1], r.acts[j - 1];
      if !ForceFailedBetween(r, i, j - 1, id) {
        ForceFailDecides(t, act, r.times[j - 1], id);
      }
    }
  }

  /** Of all statements only a force-fail that hits it takes a completed row away. */
  lemma ForceFailDecides(t: Table, act: Action, now: int, id: nat)
    requires Enabled(t, act) && id in t && t[id].status == Completed
    ensures var row := Apply(t, act, now)[id];
      if act.ForceFails? && act.id == id && !t[id].deleted then row.status == Failed
      else row == t[id].(deleted := row.deleted)
  {
    StepIsLegal(t, act, now, id);
  }

  /** Wherever a completed row shows up, some earlier UpdateCompleted wrote its result. */
  lemma {:induction false} CompletedWasWritten(r: Run, j: nat, id: nat) returns (k: nat)
    requires ValidRun(r) && j < |r.tables| && id in r.tables[j] && r.tables[j][id].status == Completed
    ensures k < j && r.acts[k] == Completes(id, r.tables[j][id].artifact)
    ensures Hits(r.tables[k], id, Processing)
  {
    var p := r.tables[j - 1];
    if id in p {
      StepIsLegal(p, r.acts[j - 1], r.times[j - 1], id);
      if p[id].status == Completed {
        k := CompletedWasWritten(r, j - 1, id);
      } else {
        k := j - 1;
      }
    } else {
      assert false;
    }
  }

  /** Why force-fail has to be excepted: a completed row becomes failed. */
  lemma ForceFailOverwritesCompleted(t: Table, id: nat, msg: string, now: int)
    requires Hits(t, id, Completed)
    ensures Hits(ForceFail(t, id, msg, now), id, Failed)
    ensures ForceFail(t, id, msg, now)[id].artifact == t[id].artifact
  {
  }

  /** A skipped variant blocks its key for good: once the only row of (image, format) is a
      tombstone, no later state has a live row under that key, so UpsertPending keeps failing. */
  lemma {:induction false} TombstoneBlocksKey(r: Run, i: nat, j: nat, id: nat)
    requires ValidRun(r) && i <= j < |r.tables|
    requires id in r.tables[i] && r.tables[i][id].deleted
    ensures KeyTaken(r.tables[j], r.tables[i][id].imageID, r.tables[i][id].format)
    ensures !KeyLive(r.tables[j], r.tables[i][id].imageID, r.tables[i][id].format)
  {
    FailedForever(r, i, j, id);
    ReachableTableOk(r, j);
    assert HasKey(r.tables[j], id, r.tables[i][id].imageID, r.tables[i][id].format);
  }
}
