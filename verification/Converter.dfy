/** Creating the variant rows of an image and submitting its pipeline task. */
module Converter {
  import opened Options
  import opened VariantTable
  import opened VariantRepo
  import opened ImageRepo
  import RB = RetryBudget

  /** The enabled formats, after the settings were read; `thumbFormat` names one width. */
  datatype Settings = Settings(thumb: bool, webp: bool, avif: bool, thumbFormat: string)

  const WEBP := "webp"
  const AVIF := "avif"

  /** One call: thumbnail, WebP and AVIF are its blocks 0, 1 and 2. */
  datatype Call = Call(imageID: nat, settings: Settings, now: int, ignoreRetryWindow: bool) {
    predicate Enabled(block: nat) {
      if block == 0 then settings.thumb else if block == 1 then settings.webp else settings.avif
    }

    function Format(block: nat): string {
      if block == 0 then settings.thumbFormat else if block == 1 then WEBP else AVIF
    }

    /** The formats the block may insert a row for, and those of the first blocks together. */
    function FormatsAt(block: nat): set<string> {
      if Enabled(block) then {Format(block)} else {}
    }

    function Formats(blocks: nat): set<string> {
      if blocks == 0 then {}
      else if blocks == 1 then FormatsAt(0)
      else if blocks == 2 then FormatsAt(0) + FormatsAt(1)
      else FormatsAt(0) + FormatsAt(1) + FormatsAt(2)
    }

    predicate Distinct() { settings.thumbFormat != WEBP && settings.thumbFormat != AVIF }
  }

  /** A variant pointer: nil, or a row as it was read. */
  datatype Variant = Nil | Read(id: nat, row: Row)

  predicate VariantReadyForSubmit(row: Row, now: int, ignoreRetryWindow: bool) {
    row.status == Pending && (ignoreRetryWindow || row.nextRetryAt == None || row.nextRetryAt.value <= now)
  }

  /** The live row of a block's key, to be submitted now. */
  predicate Ready(t: Table, id: nat, c: Call, block: nat) {
    && c.Enabled(block) && HasKey(t, id, c.imageID, c.Format(block)) && !t[id].deleted
    && VariantReadyForSubmit(t[id], c.now, c.ignoreRetryWindow)
  }

  /** The block's key has a live row, which is not to be submitted now. */
  ghost predicate HasNotReady(t: Table, c: Call, block: nat) {
    exists id :: HasKey(t, id, c.imageID, c.Format(block)) && !t[id].deleted
                 && !VariantReadyForSubmit(t[id], c.now, c.ignoreRetryWindow)
  }

  predicate IsNew(row: Row) {
    && !row.deleted && row.status == Pending && row.nextRetryAt == None
    && row.retryCount == 0 && row.artifact == NO_ARTIFACT
  }

  /** Only rows of this image in these formats are new, pending and without a window, and no row that
      was there has changed. */
  ghost predicate OnlyInserts(t: Table, t': Table, imageID: nat, formats: set<string>) {
    && (forall id :: id in t ==> id in t' && t'[id] == t[id])
    && (forall id :: id in t' && id !in t ==> t'[id].imageID == imageID && t'[id].format in formats && IsNew(t'[id]))
    && (UniqueKeys(t) ==> UniqueKeys(t'))
  }

  lemma OnlyInsertsTrans(a: Table, b: Table, c: Table, imageID: nat, formats: set<string>, more: set<string>)
    requires OnlyInserts(a, b, imageID, formats) && OnlyInserts(b, c, imageID, more)
    ensures OnlyInserts(a, c, imageID, formats + more)
  {
  }

  lemma OnlyInsertsWider(a: Table, b: Table, imageID: nat, formats: set<string>, more: set<string>)
    requires OnlyInserts(a, b, imageID, formats) && formats <= more
    ensures OnlyInserts(a, b, imageID, more)
  {
  }

  lemma InsertIsOnlyInsert(t: Table, newId: nat, imageID: nat, format: string, now: int)
    requires newId !in t
    ensures OnlyInserts(t, Insert(t, newId, imageID, format, now), imageID, {format})
  {
    var t' := Insert(t, newId, imageID, format, now);
    if UniqueKeys(t) && !KeyTaken(t, imageID, format) {
      forall i, j | i in t' && j in t' && t'[i].imageID == t'[j].imageID && t'[i].format == t'[j].format
        ensures i == j
      {
        assert i in t ==> !HasKey(t, i, imageID, format);
        assert j in t ==> !HasKey(t, j, imageID, format);
      }
    }
  }

  /** A key held only by a tombstone. */
  ghost predicate Blocked(t: Table, imageID: nat, format: string) {
    KeyTaken(t, imageID, format) && !KeyLive(t, imageID, format)
  }

  /** The block is enabled and its key is blocked. */
  ghost predicate BlockedAt(t: Table, c: Call, block: nat) {
    c.Enabled(block) && Blocked(t, c.imageID, c.Format(block))
  }

  /** Rows in other formats do not matter to a key. */
  lemma SameBlocked(t: Table, t': Table, imageID: nat, formats: set<string>, format: string)
    requires OnlyInserts(t, t', imageID, formats) && format !in formats
    ensures Blocked(t', imageID, format) <==> Blocked(t, imageID, format)
  {
    forall id ensures HasKey(t', id, imageID, format) <==> HasKey(t, id, imageID, format) {}
    forall id | HasKey(t, id, imageID, format) ensures t'[id] == t[id] {}
  }

  // ---------- what a call may do ----------

  /** What a block has to say about the table: its ready row, or that there is none to submit. */
  ghost predicate Took(t: Table, v: Variant, c: Call, block: nat) {
    match v
    case Read(id, row) => Ready(t, id, c, block) && t[id] == row
    case Nil => c.Enabled(block) ==> HasNotReady(t, c, block)
  }

  lemma TookKept(t: Table, t': Table, v: Variant, c: Call, block: nat, formats: set<string>)
    requires Took(t, v, c, block) && OnlyInserts(t, t', c.imageID, formats)
    ensures Took(t', v, c, block)
  {
    if v == Nil && c.Enabled(block) {
      var id :| HasKey(t, id, c.imageID, c.Format(block)) && !t[id].deleted
                && !VariantReadyForSubmit(t[id], c.now, c.ignoreRetryWindow);
      assert HasKey(t', id, c.imageID, c.Format(block));
    }
  }

  /** One pointer for each block that came through, in order. */
  ghost predicate TookFirst(t: Table, read: seq<Variant>, c: Call) {
    && |read| <= 3
    && (|read| > 0 ==> Took(t, read[0], c, 0))
    && (|read| > 1 ==> Took(t, read[1], c, 1))
    && (|read| > 2 ==> Took(t, read[2], c, 2))
  }

  /** None of the first blocks is blocked. */
  ghost predicate Open(t: Table, c: Call, blocks: nat) {
    && (blocks > 0 ==> !BlockedAt(t, c, 0))
    && (blocks > 1 ==> !BlockedAt(t, c, 1))
    && (blocks > 2 ==> !BlockedAt(t, c, 2))
  }

  /** The rows of the read pointers, failed. */
  function FailRead(t: Table, variants: seq<Variant>, now: int): Table {
    if variants == [] then t
    else
      var rest, v := FailRead(t, variants[..|variants| - 1], now), variants[|variants| - 1];
      if v.Read? then ForceFail(rest, v.id, "aborted", now) else rest
  }

  predicate AnyRead(variants: seq<Variant>) { exists i :: 0 <= i < |variants| && variants[i].Read? }

  function IdOf(v: Variant): nat { if v.Read? then v.id else 0 }

  /** How a call ended; `read` are the pointers it had by then. */
  datatype Outcome =
    | NothingToDo
    | Aborted(read: seq<Variant>)
    | Submitted(thumb: nat, webp: nat, avif: nat)

  /** What the environment answers: pool and storage there, and the pool's verdict. */
  datatype World = World(settingsErr: bool, excluded: bool, hasPool: bool, hasStorage: bool, accepts: bool) {
    predicate Starts() { !settingsErr && !excluded }
    predicate Takes() { hasPool && hasStorage && accepts }
  }

  /** The tables around a call: before, with the rows it created, and after.  A statement was turned
      down while rows were prepared (`unprepared`), while they were failed (`unfailed`), or about
      the image (`refused`). */
  datatype Tables = Tables(before: Table, mid: Table, after: Table, images: Images, imagesAfter: Images,
                           unprepared: bool, unfailed: bool, refused: bool)

  /** The id the task gets for a block: its ready row, or zero. */
  ghost predicate Chosen(t: Table, id: nat, c: Call, block: nat) {
    if id != 0 then Ready(t, id, c, block) else c.Enabled(block) ==> HasNotReady(t, c, block)
  }

  /** Exactly the blocks before the failing one were read, and that one is blocked unless its
      statement was refused; or all three, and the task was not taken. */
  ghost predicate AbortedAt(ts: Tables, c: Call, world: World, read: seq<Variant>) {
    && TookFirst(ts.mid, read, c) && Open(ts.before, c, |read|)
    && (|read| < 3 ==> c.Enabled(|read|) && (ts.unprepared || BlockedAt(ts.before, c, |read|)))
    && (|read| == 3 ==> !world.Takes() && AnyRead(read))
  }

  predicate Points(read: seq<Variant>, id: nat) { exists i :: 0 <= i < |read| && read[i].Read? && read[i].id == id }

  /** Whatever is refused, nothing but the rows read can have failed. */
  ghost predicate AtMostFailed(t: Table, t': Table, read: seq<Variant>) {
    && t'.Keys == t.Keys
    && forall id :: id in t ==> t'[id] == t[id] || (Points(read, id) && Hits(t', id, Failed))
  }

  /** What was read fails, and the image with it if there was anything. */
  ghost predicate FailedRead(ts: Tables, c: Call, read: seq<Variant>) {
    && (!ts.unfailed ==> ts.after == FailRead(ts.mid, read, c.now))
    && AtMostFailed(ts.mid, ts.after, read)
    && (AnyRead(read) && !ts.refused ==> ts.imagesAfter == SetStatus(ts.images, c.imageID, ImgFailed, c.now))
    && (!AnyRead(read) ==> ts.imagesAfter == ts.images)
  }

  ghost predicate Allowed(ts: Tables, c: Call, world: World, alreadyProcessing: bool, outcome: Outcome) {
    && OnlyInserts(ts.before, ts.mid, c.imageID, c.Formats(3))
    && match outcome
       case NothingToDo =>
         && ts.after == ts.mid && ts.imagesAfter == ts.images
         && (!world.Starts() ==> ts.mid == ts.before)
         && (world.Starts() ==> Open(ts.before, c, 3) && TookFirst(ts.mid, [Nil, Nil, Nil], c))
       case Submitted(thumb, webp, avif) =>
         && world.Starts() && world.Takes() && Open(ts.before, c, 3) && ts.after == ts.mid
         && (thumb != 0 || webp != 0 || avif != 0)
         && Chosen(ts.mid, thumb, c, 0) && Chosen(ts.mid, webp, c, 1) && Chosen(ts.mid, avif, c, 2)
         && (!ts.refused ==>
               ts.imagesAfter == if alreadyProcessing then ts.images
                                 else SetStatus(ts.images, c.imageID, ImgProcessing, c.now))
       case Aborted(read) => world.Starts() && AbortedAt(ts, c, world, read) && FailedRead(ts, c, read)
  }

  // ---------- the code ----------

  class Converter {
    const variantRepo: VariantRepository
    const imageRepo: ImageRepository

    constructor (variantRepo: VariantRepository, imageRepo: ImageRepository)
      ensures this.variantRepo == variantRepo && this.imageRepo == imageRepo
    {
      this.variantRepo, this.imageRepo := variantRepo, imageRepo;
    }

    /** One of the three blocks that read or create a row. */
    method Prepare(c: Call, block: nat, newId: nat) returns (v: Variant, err: bool)
      requires newId !in variantRepo.rows
      modifies variantRepo`rows, variantRepo`faults
      ensures OnlyInserts(old(variantRepo.rows), variantRepo.rows, c.imageID, c.FormatsAt(block))
      ensures variantRepo.rows.Keys <= old(variantRepo.rows).Keys + {newId}
      ensures old(variantRepo.faults) <= variantRepo.faults && (!err ==> variantRepo.faults == old(variantRepo.faults))
      ensures !err ==> Took(variantRepo.rows, v, c, block) && !BlockedAt(old(variantRepo.rows), c, block)
      ensures err ==> c.Enabled(block)
                      && (variantRepo.faults > old(variantRepo.faults) || BlockedAt(old(variantRepo.rows), c, block))
    {
      if !c.Enabled(block) {
        return Nil, false;
      }
      ghost var t := variantRepo.rows;
      var id;
      id, err := variantRepo.UpsertPending(c.imageID, c.Format(block), newId, c.now);
      InsertIsOnlyInsert(t, newId, c.imageID, c.Format(block), c.now);
      if err || !VariantReadyForSubmit(variantRepo.rows[id], c.now, c.ignoreRetryWindow) {
        return Nil, err;
      }
      v := Read(id, variantRepo.rows[id]);
    }

    /** Fails the rows that were pending when read, whatever they are now, and with them the image. */
    method FailPendingVariantsOnSubmitFailure(c: Call, variants: seq<Variant>)
      requires forall i :: 0 <= i < |variants| && variants[i].Read? ==> variants[i].row.status == Pending
      modifies variantRepo`rows, variantRepo`forceFaults, imageRepo
      ensures variantRepo.forceFaults == old(variantRepo.forceFaults) ==>
        variantRepo.rows == FailRead(old(variantRepo.rows), variants, c.now)
      ensures AtMostFailed(old(variantRepo.rows), variantRepo.rows, variants)
      ensures old(variantRepo.forceFaults) <= variantRepo.forceFaults
      ensures !AnyRead(variants) ==>
        imageRepo.rows == old(imageRepo.rows) && imageRepo.refused == old(imageRepo.refused)
      ensures AnyRead(variants) && !imageRepo.refused ==>
        imageRepo.rows == SetStatus(old(imageRepo.rows), c.imageID, ImgFailed, c.now)
    {
      var hadPending := false;
      var i := 0;
      while i < |variants|
        invariant i <= |variants| && hadPending == AnyRead(variants[..i])
        invariant old(variantRepo.forceFaults) <= variantRepo.forceFaults
        invariant AtMostFailed(old(variantRepo.rows), variantRepo.rows, variants[..i])
        invariant imageRepo.rows == old(imageRepo.rows) && imageRepo.refused == old(imageRepo.refused)
        invariant variantRepo.forceFaults == old(variantRepo.forceFaults) ==>
          variantRepo.rows == FailRead(old(variantRepo.rows), variants[..i], c.now)
      {
        assert variants[..i + 1][..i] == variants[..i];
        ghost var rows := variantRepo.rows;
        var v := variants[i];
        if v.Read? && v.row.status == Pending {
          assert variants[..i + 1][i].Read?;
          hadPending := true;
          var _ := variantRepo.ForceUpdateFailed(v.id, "aborted", c.now);
        }
        assert forall k :: 0 <= k < i ==> variants[..i + 1][k] == variants[..i][k];
        OneMoreFailed(old(variantRepo.rows), rows, variantRepo.rows, variants, i, c.now);
        i := i + 1;
      }
      assert variants[..i] == variants;
      if !hadPending {
        return;
      }
      var _ := imageRepo.UpdateVariantStatus(c.imageID, ImgFailed, c.now);
    }

    ghost function TablesAround(before: Table, mid: Table, images: Images, faults: nat, forceFaults: nat): Tables
      reads variantRepo, imageRepo
    {
      Tables(before, mid, variantRepo.rows, images, imageRepo.rows, variantRepo.faults > faults,
             variantRepo.forceFaults > forceFaults, imageRepo.refused)
    }

    /** The next block, after those that gave `read`; `t0` is the table before the first. */
    method PrepareNext(c: Call, newId: nat, read: seq<Variant>, ghost t0: Table)
      returns (variants: seq<Variant>, err: bool)
      requires newId !in variantRepo.rows && c.Distinct()
      requires |read| < 3 && Prepared(t0, variantRepo.rows, c, read, false)
      modifies variantRepo`rows, variantRepo`faults
      ensures variantRepo.rows.Keys <= old(variantRepo.rows).Keys + {newId}
      ensures Prepared(t0, variantRepo.rows, c, variants, err)
      ensures |variants| == (if err then |read| else |read| + 1) && read <= variants
      ensures old(variantRepo.faults) <= variantRepo.faults && (!err ==> variantRepo.faults == old(variantRepo.faults))
      ensures err ==> c.Enabled(|read|)
                      && (variantRepo.faults > old(variantRepo.faults) || BlockedAt(t0, c, |read|))
    {
      ghost var t := variantRepo.rows;
      var v;
      v, err := Prepare(c, |read|, newId);
      OneBlockMore(t0, t, variantRepo.rows, c, read);
      variants := if err then read else read + [v];
    }

    /** The blocks in order; the first error ends them.  `variants` has one entry for each block
        that came through. */
    method PrepareAll(c: Call, ids: seq<nat>) returns (variants: seq<Variant>, err: bool)
      requires |ids| == 3 && ids[0] != ids[1] && ids[0] != ids[2] && ids[1] != ids[2] && c.Distinct()
      requires forall i :: 0 <= i < 3 ==> ids[i] !in variantRepo.rows
      modifies variantRepo`rows, variantRepo`faults
      ensures variantRepo.rows.Keys <= old(variantRepo.rows).Keys + {ids[0], ids[1], ids[2]}
      ensures Prepared(old(variantRepo.rows), variantRepo.rows, c, variants, err)
      ensures |variants| <= 3 && (err <==> |variants| < 3)
      ensures old(variantRepo.faults) <= variantRepo.faults && (!err ==> variantRepo.faults == old(variantRepo.faults))
      ensures err ==> c.Enabled(|variants|)
      ensures err ==> variantRepo.faults > old(variantRepo.faults) || BlockedAt(old(variantRepo.rows), c, |variants|)
    {
      ghost var t0 := variantRepo.rows;
      variants, err := PrepareNext(c, ids[0], [], t0);
      if !err {
        variants, err := PrepareNext(c, ids[1], variants, t0);
      }
      if !err {
        variants, err := PrepareNext(c, ids[2], variants, t0);
      }
    }

    /** `failPendingVariantsOnSubmitFailure`, as seen from a call that began with `faults` faults. */
    method Abort(c: Call, read: seq<Variant>, ghost before: Table, ghost faults: nat)
      requires TookFirst(variantRepo.rows, read, c)
      modifies variantRepo`rows, variantRepo`forceFaults, imageRepo
      ensures FailedRead(TablesAround(before, old(variantRepo.rows), old(imageRepo.rows), faults,
                                      old(variantRepo.forceFaults)), c, read)
    {
      FailPendingVariantsOnSubmitFailure(c, read);
    }

    /** From the prepared pointers to the pool's verdict. */
    method SubmitPrepared(c: Call, world: World, alreadyProcessing: bool, read: seq<Variant>, ghost before: Table,
                          ghost faults: nat) returns (outcome: Outcome)
      requires |read| == 3 && TookFirst(variantRepo.rows, read, c) && Open(before, c, 3) && 0 !in variantRepo.rows
      requires OnlyInserts(before, variantRepo.rows, c.imageID, c.Formats(3)) && world.Starts()
      requires faults == variantRepo.faults
      modifies variantRepo`rows, variantRepo`forceFaults, imageRepo
      ensures Allowed(TablesAround(before, old(variantRepo.rows), old(imageRepo.rows), faults,
                                   old(variantRepo.forceFaults)), c, world, alreadyProcessing, outcome)
    {
      if read[0] == Nil && read[1] == Nil && read[2] == Nil {
        assert read == [Nil, Nil, Nil];
        return NothingToDo;
      }
      if !world.hasPool || !world.hasStorage || !world.accepts {
        Abort(c, read, before, faults);
        return Aborted(read);
      }
      SubmitReady(c, alreadyProcessing);
      outcome := Submitted(IdOf(read[0]), IdOf(read[1]), IdOf(read[2]));
      ChosenIsTaken(variantRepo.rows, read, c);
    }

    /** `markImageProcessing`, after the pool took the task. */
    method SubmitReady(c: Call, alreadyProcessing: bool)
      modifies imageRepo
      ensures !imageRepo.refused ==>
        imageRepo.rows == if alreadyProcessing then old(imageRepo.rows)
                          else SetStatus(old(imageRepo.rows), c.imageID, ImgProcessing, c.now)
    {
      if !alreadyProcessing {
        var _ := imageRepo.UpdateVariantStatus(c.imageID, ImgProcessing, c.now);
      }
    }

    /** `triggerConversion`.  A submitted task gets exactly the ready rows, and no row is changed; an
        aborted call fails every row it had found ready, and the image with them. */
    method TriggerConversion(c: Call, world: World, alreadyProcessing: bool, ids: seq<nat>)
      returns (outcome: Outcome, ghost mid: Table)
      requires |ids| == 3 && ids[0] != ids[1] && ids[0] != ids[2] && ids[1] != ids[2] && c.Distinct()
      requires 0 !in variantRepo.rows && forall i :: 0 <= i < 3 ==> ids[i] !in variantRepo.rows && ids[i] != 0
      modifies variantRepo, imageRepo
      ensures Allowed(TablesAround(old(variantRepo.rows), mid, old(imageRepo.rows), old(variantRepo.faults),
                                   old(variantRepo.forceFaults)), c, world, alreadyProcessing, outcome)
    {
      mid := variantRepo.rows;
      if world.settingsErr {
        return NothingToDo, mid;
      }
      if !(c.settings.thumb || c.settings.webp || c.settings.avif) || world.excluded {
        return NothingToDo, mid;
      }
      var variants, err := PrepareAll(c, ids);
      mid := variantRepo.rows;
      OnlyInsertsWider(old(variantRepo.rows), mid, c.imageID, c.Formats(if err then |variants| + 1 else |variants|),
                       c.Formats(3));
      if err {
        // the first block returns at once, with nothing read
        if |variants| > 0 {
          Abort(c, variants, old(variantRepo.rows), old(variantRepo.faults));
        }
        return Aborted(variants), mid;
      }
      outcome := SubmitPrepared(c, world, alreadyProcessing, variants, old(variantRepo.rows), old(variantRepo.faults));
    }
  }

  lemma OneMoreFailed(t: Table, before: Table, after: Table, variants: seq<Variant>, i: nat, now: int)
    requires i < |variants| && AtMostFailed(t, before, variants[..i])
    requires after == before || (variants[i].Read? && after == ForceFail(before, variants[i].id, "aborted", now))
    ensures AtMostFailed(t, after, variants[..i + 1])
  {
    forall id | Points(variants[..i], id) ensures Points(variants[..i + 1], id) {
      var k :| 0 <= k < i && variants[..i][k].Read? && variants[..i][k].id == id;
      assert variants[..i + 1][k] == variants[k];
    }
    assert variants[i].Read? ==> Points(variants[..i + 1], variants[i].id) by {
      assert variants[..i + 1][i] == variants[i];
    }
  }

  lemma ChosenIsTaken(t: Table, read: seq<Variant>, c: Call)
    requires |read| == 3 && TookFirst(t, read, c) && 0 !in t
    ensures Chosen(t, IdOf(read[0]), c, 0) && Chosen(t, IdOf(read[1]), c, 1) && Chosen(t, IdOf(read[2]), c, 2)
    ensures read[0] != Nil || read[1] != Nil || read[2] != Nil ==>
      AnyRead(read) && (IdOf(read[0]) != 0 || IdOf(read[1]) != 0 || IdOf(read[2]) != 0)
  {
  }

  /** The first blocks gave `read`, and the next one has failed if `err`; only they have inserted. */
  ghost predicate Prepared(t0: Table, t: Table, c: Call, read: seq<Variant>, err: bool) {
    && OnlyInserts(t0, t, c.imageID, c.Formats(if err then |read| + 1 else |read|))
    && TookFirst(t, read, c) && Open(t0, c, |read|)
  }

  lemma OneBlockMore(t0: Table, t: Table, t': Table, c: Call, read: seq<Variant>)
    requires c.Distinct() && |read| < 3 && Prepared(t0, t, c, read, false)
    requires OnlyInserts(t, t', c.imageID, c.FormatsAt(|read|))
    ensures OnlyInserts(t0, t', c.imageID, c.Formats(|read| + 1))
    ensures TookFirst(t', read, c)
    ensures BlockedAt(t, c, |read|) <==> BlockedAt(t0, c, |read|)
  {
    var k := |read|;
    OnlyInsertsTrans(t0, t, t', c.imageID, c.Formats(k), c.FormatsAt(k));
    OnlyInsertsWider(t0, t', c.imageID, c.Formats(k) + c.FormatsAt(k), c.Formats(k + 1));
    assert AVIF != WEBP;
    SameBlocked(t0, t, c.imageID, c.Formats(k), c.Format(k));
    if k > 0 { TookKept(t, t', read[0], c, 0, c.FormatsAt(k)); }
    if k > 1 { TookKept(t, t', read[1], c, 1, c.FormatsAt(k)); }
  }

  // ---------- what an abort means ----------

  /** The rows behind the pointers end up failed, all others stay as they are. */
  lemma {:induction false} FailReadIsExact(t: Table, variants: seq<Variant>, now: int, id: nat)
    requires id in t
    ensures var after := FailRead(t, variants, now);
      && id in after && after[id].deleted == t[id].deleted
      && (after[id].status == Failed || after[id] == t[id])
      && ((exists i :: 0 <= i < |variants| && variants[i].Read? && variants[i].id == id) && !t[id].deleted ==>
            Hits(after, id, Failed))
      && ((forall i :: 0 <= i < |variants| && variants[i].Read? ==> variants[i].id != id) ==> after[id] == t[id])
  {
    if variants != [] {
      var n := |variants| - 1;
      FailReadIsExact(t, variants[..n], now, id);
      assert forall i :: 0 <= i < n ==> variants[..n][i] == variants[i];
    }
  }

  /** Some block before the failing one found the row ready. */
  predicate ReadyBefore(t: Table, id: nat, c: Call, blocks: nat) {
    || (blocks > 0 && Ready(t, id, c, 0))
    || (blocks > 1 && Ready(t, id, c, 1))
    || (blocks > 2 && Ready(t, id, c, 2))
  }

  /** Keys being unique, a pointer tells exactly which row is ready. */
  lemma PointerIsTheReadyRow(t: Table, v: Variant, c: Call, block: nat, id: nat)
    requires UniqueKeys(t) && Took(t, v, c, block)
    ensures Ready(t, id, c, block) <==> v.Read? && v.id == id
  {
    if v == Nil && c.Enabled(block) {
      var other :| HasKey(t, other, c.imageID, c.Format(block)) && !t[other].deleted
                   && !VariantReadyForSubmit(t[other], c.now, c.ignoreRetryWindow);
      assert HasKey(t, id, c.imageID, c.Format(block)) ==> id == other;
    }
  }

  lemma PointersAreTheReadyRows(t: Table, read: seq<Variant>, c: Call, id: nat)
    requires UniqueKeys(t) && TookFirst(t, read, c)
    ensures ReadyBefore(t, id, c, |read|) <==> Points(read, id)
  {
    if |read| > 0 { PointerIsTheReadyRow(t, read[0], c, 0, id); }
    if |read| > 1 { PointerIsTheReadyRow(t, read[1], c, 1, id); }
    if |read| > 2 { PointerIsTheReadyRow(t, read[2], c, 2, id); }
  }

  /** An abort, for whatever reason, fails exactly the rows that the blocks before the failing one
      found ready, leaves every other row as it was, and fails the image exactly if there was such a
      row, unless the database refuses these very updates. */
  lemma AbortIsExact(ts: Tables, c: Call, world: World, already: bool, outcome: Outcome, id: nat)
    requires Allowed(ts, c, world, already, outcome) && outcome.Aborted? && !ts.unfailed && !ts.refused
    requires UniqueKeys(ts.before)
    ensures id in ts.mid ==> id in ts.after
    ensures id in ts.mid && ReadyBefore(ts.mid, id, c, |outcome.read|) ==> Hits(ts.after, id, Failed)
    ensures id in ts.mid && !ReadyBefore(ts.mid, id, c, |outcome.read|) ==> ts.after[id] == ts.mid[id]
    ensures ts.imagesAfter == if exists k :: ReadyBefore(ts.mid, k, c, |outcome.read|)
                              then SetStatus(ts.images, c.imageID, ImgFailed, c.now) else ts.images
  {
    PointersAreTheReadyRows(ts.mid, outcome.read, c, id);
    if id in ts.mid {
      FailReadIsExact(ts.mid, outcome.read, c.now, id);
    }
    SomethingReadIsReady(ts.mid, outcome.read, c);
  }

  lemma SomethingReadIsReady(t: Table, read: seq<Variant>, c: Call)
    requires UniqueKeys(t) && TookFirst(t, read, c)
    ensures AnyRead(read) <==> exists k :: ReadyBefore(t, k, c, |read|)
  {
    forall k ensures ReadyBefore(t, k, c, |read|) <==> Points(read, k) {
      PointersAreTheReadyRows(t, read, c, k);
    }
    if AnyRead(read) {
      var i :| 0 <= i < |read| && read[i].Read?;
      assert Points(read, read[i].id);
    }
  }

  /** A skipped AVIF poisons the image.  Once its row is a tombstone, then in every later state of any
      run a trigger with AVIF enabled aborts; and unless an earlier format is blocked too, every
      thumbnail and WebP row it finds ready fails, with the image, and nothing else does. */
  lemma SkippedAvifAborts(r: Run, i: nat, j: nat, tomb: nat, ts: Tables, c: Call, world: World, already: bool,
                          outcome: Outcome, id: nat)
    requires ValidRun(r) && i <= j < |r.tables| && ts.before == r.tables[j]
    requires tomb in r.tables[i] && r.tables[i][tomb].deleted && r.tables[i][tomb].format == AVIF
    requires c.imageID == r.tables[i][tomb].imageID && c.settings.avif && world.Starts()
    requires Allowed(ts, c, world, already, outcome)
    ensures outcome.Aborted? && |outcome.read| < 3
    ensures !ts.unprepared && !ts.unfailed && !ts.refused && Open(ts.before, c, 2) && id in ts.mid ==>
      && id in ts.after
      && (Ready(ts.mid, id, c, 0) || Ready(ts.mid, id, c, 1) ==>
            Hits(ts.after, id, Failed) && ts.imagesAfter == SetStatus(ts.images, c.imageID, ImgFailed, c.now))
      && (!Ready(ts.mid, id, c, 0) && !Ready(ts.mid, id, c, 1) ==> ts.after[id] == ts.mid[id])
  {
    TombstoneBlocksKey(r, i, j, tomb);
    ReachableTableOk(r, j);
    assert BlockedAt(ts.before, c, 2);
    if !ts.unprepared && !ts.unfailed && !ts.refused && Open(ts.before, c, 2) && id in ts.mid {
      AbortIsExact(ts, c, world, already, outcome, id);
    }
  }

  // ---------- which rows a trigger submits ----------

  predicate Due(row: Row, c: Call) {
    row.status == Pending
    && match row.nextRetryAt
       case None => true
       case Some(w) => c.ignoreRetryWindow || w <= c.now
  }

  function SubmittedAt(outcome: Outcome, block: nat): nat {
    if !outcome.Submitted? then 0
    else if block == 0 then outcome.thumb else if block == 1 then outcome.webp else outcome.avif
  }

  /** With nothing refused or blocked and the pool taking the task, a live row under an enabled key
      is submitted exactly when it is pending and has no retry window, or one that is over or to be
      ignored. */
  lemma SubmittedExactlyWhenDue(ts: Tables, c: Call, world: World, already: bool, outcome: Outcome, block: nat, id: nat)
    requires Allowed(ts, c, world, already, outcome) && UniqueKeys(ts.before)
    requires world.Starts() && world.Takes() && Open(ts.before, c, 3) && !ts.unprepared
    requires block < 3 && id != 0 && id in ts.before && !ts.before[id].deleted && ts.before[id].imageID == c.imageID
    requires block == 0 ==> c.settings.thumb && ts.before[id].format == c.settings.thumbFormat
    requires block == 1 ==> c.settings.webp && ts.before[id].format == "webp"
    requires block == 2 ==> c.settings.avif && ts.before[id].format == "avif"
    ensures SubmittedAt(outcome, block) == id <==> Due(ts.before[id], c)
  {
    assert HasKey(ts.mid, id, c.imageID, c.Format(block));
    if outcome.NothingToDo? {
      PointerIsTheReadyRow(ts.mid, Nil, c, block, id);
      assert Took(ts.mid, Nil, c, block);
    }
  }

  /** An enabled format without any row gets a new one, and it is submitted. */
  lemma NewRowIsSubmitted(ts: Tables, c: Call, world: World, already: bool, outcome: Outcome, block: nat)
    requires Allowed(ts, c, world, already, outcome) && UniqueKeys(ts.before) && 0 !in ts.mid
    requires world.Starts() && world.Takes() && Open(ts.before, c, 3) && !ts.unprepared
    requires block < 3 && c.Enabled(block) && !KeyTaken(ts.before, c.imageID, c.Format(block))
    ensures var id := SubmittedAt(outcome, block);
      id in ts.mid && id !in ts.before && HasKey(ts.mid, id, c.imageID, c.Format(block)) && IsNew(ts.mid[id])
  {
    if outcome.NothingToDo? {
      assert Took(ts.mid, Nil, c, block);
    }
    forall id | HasKey(ts.mid, id, c.imageID, c.Format(block)) ensures id !in ts.before && IsNew(ts.mid[id]) {
      assert id in ts.before ==> HasKey(ts.before, id, c.imageID, c.Format(block));
    }
  }

  /** A row that the sweeper has sent back for the first time waits five minutes: as long as nobody
      has claimed, failed or deleted it, an ordinary trigger submits it from then on and not before. */
  lemma SentBackRowWaits(trace: seq<RB.State>, steps: seq<RB.Step>, k: nat, j: nat, ts: Tables, c: Call, world: World,
                         already: bool, outcome: Outcome, block: nat, id: nat)
    requires RB.Reachable(trace, steps, STALE_MAX_RETRIES) && k < |steps| && steps[k].RecoverNext?
    requires id == trace[k].queue[0].0 && Hits(trace[k].table, id, Processing) && RB.Sent(trace[k], id) == 0
    requires k < j < |trace| && forall m :: k < m < j && steps[m].Statement? ==> steps[m].act != Claim(id)
    requires ts.before == trace[j].table && UniqueKeys(ts.before) && id != 0
    requires id in ts.before && !ts.before[id].deleted && ts.before[id].status != VariantTable.Failed
    requires Allowed(ts, c, world, already, outcome) && world.Starts() && world.Takes()
    requires Open(ts.before, c, 3) && !ts.unprepared && !c.ignoreRetryWindow
    requires block < 3 && c.Enabled(block)
    requires ts.before[id].imageID == c.imageID && ts.before[id].format == c.Format(block)
    ensures SubmittedAt(outcome, block) == id <==> steps[k].now + 5 * MINUTE <= c.now
  {
    RB.FirstWindow(trace, steps, k, j, id);
    SubmittedExactlyWhenDue(ts, c, world, already, outcome, block, id);
  }
}
