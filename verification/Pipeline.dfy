/** One run of an image task: claim the rows, take a slot, generate, persist, and clean up on
    every way out, with the list of held ids, the registry entry and the rows kept in step.
    Any database statement may be refused. */
module Pipeline {
  import opened Options
  import opened VariantTable
  import opened VariantRepo
  import opened ImageRepo
  import opened Tracking
  import opened InFlight
  import opened Outcome

  /** Held and tracked are the same thing: among the claimed rows, the list has exactly those
      still processing. */
  ghost predicate InStep(rows: Table, ids: seq<nat>, claimed: set<nat>) {
    && Distinct(ids)
    && (forall x :: x in ids ==> x in claimed)
    && (forall x :: x in claimed ==> (x in ids <==> Hits(rows, x, Processing)))
  }

  /** The two tables agree outside `except`. */
  ghost predicate Untouched(before: Table, after: Table, except: set<nat>) {
    before - except == after - except
  }

  lemma UntouchedChain(before: Table, mid: Table, after: Table, first: set<nat>, second: set<nat>, all: set<nat>)
    requires Untouched(before, mid, first) && Untouched(mid, after, second) && first <= all && second <= all
    ensures Untouched(before, after, all)
  {
    assert before - all == (before - first) - all && mid - all == (mid - first) - all;
    assert mid - all == (mid - second) - all && after - all == (after - second) - all;
  }

  class ImagePipelineTask {
    const thumbVariantID: nat
    const webPVariantID: nat
    const avifVariantID: nat
    const imageID: nat
    const variantRepo: VariantRepository
    const imageRepo: ImageRepository
    const registry: InFlightRegistry
    var lease: Option<nat>

    constructor (thumb: nat, webp: nat, avif: nat, imageID: nat,
                 variantRepo: VariantRepository, imageRepo: ImageRepository, registry: InFlightRegistry)
      ensures thumbVariantID == thumb && webPVariantID == webp && avifVariantID == avif
      ensures this.imageID == imageID && lease == None
      ensures this.variantRepo == variantRepo && this.imageRepo == imageRepo && this.registry == registry
    {
      thumbVariantID, webPVariantID, avifVariantID, this.imageID := thumb, webp, avif, imageID;
      this.variantRepo, this.imageRepo, this.registry := variantRepo, imageRepo, registry;
      lease := None;
    }

    /** The entries of the other tasks. */
    ghost function Others(): map<nat, Snapshot> reads this, registry {
      if lease.Some? then registry.tasks - {lease.value} else registry.tasks
    }

    /** The array of this task's registry entry. */
    ghost function Entry(): set<object> reads this, registry {
      if lease.Some? && lease.value in registry.tasks then {registry.tasks[lease.value].variantIDs} else {}
    }

    /** The registry entry of this task is exactly its list, in storage of its own. */
    ghost predicate LeaseAgrees(tr: TrackedIds)
      requires tr.Valid()
      reads this, tr, tr.backing, registry, Entry()
    {
      && registry.Valid()
      && tr.backing !in Entry()
      && (lease.Some? ==>
            && lease.value in registry.tasks
            && registry.tasks[lease.value].imageID == imageID
            && registry.tasks[lease.value].variantIDs[..] == tr.Ids())
    }

    /** What every step keeps: a well-formed list in storage of its own, in step with the
        registry and with the rows. */
    ghost predicate Good(tr: TrackedIds, claimed: set<nat>)
      reads this, tr, tr.backing, registry, Entry(), variantRepo
    {
      tr.Valid() && LeaseAgrees(tr) && InStep(variantRepo.rows, tr.Ids(), claimed)
    }

    /** A task with anything to its name has a registry entry. */
    ghost predicate Registered(claimed: set<nat>) reads this {
      imageID != 0 || claimed != {} ==> lease.Some?
    }

    function Want(): Wanted {
      Wanted(thumbVariantID > 0, webPVariantID > 0, avifVariantID > 0)
    }

    /** `releaseTrackedVariant` and `syncInFlightTracking`. */
    method ReleaseTrackedVariant(tr: TrackedIds, id: nat)
      requires tr.Valid() && LeaseAgrees(tr)
      modifies tr`len, tr.backing, registry`tasks
      ensures tr.Valid() && LeaseAgrees(tr) && tr.backing == old(tr.backing)
      ensures tr.Ids() == if id == 0 then old(tr.Ids()) else Without(old(tr.Ids()), id)
      ensures Others() == old(Others())
    {
      if tr.len == 0 || id == 0 {
        return;
      }
      ghost var seen := tr.Release(id);
      if lease.Some? {
        registry.Update(lease.value, imageID, tr.backing, tr.len);
      }
    }

    method MarkVariantFailed(tr: TrackedIds, id: nat, errMsg: string, ghost claimed: set<nat>)
      requires Good(tr, claimed) && (id != 0 ==> id in claimed)
      modifies variantRepo, tr`len, tr.backing, registry`tasks
      ensures Good(tr, claimed) && tr.backing == old(tr.backing)
      ensures Untouched(old(variantRepo.rows), variantRepo.rows, {id})
      ensures old(variantRepo.faults) <= variantRepo.faults
      ensures variantRepo.faults == old(variantRepo.faults) && id != 0 ==>
        FateOf(variantRepo.rows, id) == AfterFailing(FateOf(old(variantRepo.rows), id))
      ensures Others() == old(Others())
    {
      if id == 0 {
        return;
      }
      var now := *;
      var err := variantRepo.UpdateFailed(id, errMsg, now);
      if err {
        return;
      }
      WithoutElems(tr.Ids(), id);
      ReleaseTrackedVariant(tr, id);
    }

    method DeleteTrackedVariant(tr: TrackedIds, id: nat, ghost claimed: set<nat>)
      requires Good(tr, claimed) && (id != 0 ==> id in claimed)
      modifies variantRepo, tr`len, tr.backing, registry`tasks
      ensures Good(tr, claimed) && tr.backing == old(tr.backing)
      ensures Untouched(old(variantRepo.rows), variantRepo.rows, {id})
      ensures old(variantRepo.faults) <= variantRepo.faults
      ensures variantRepo.faults == old(variantRepo.faults)
                && id != 0 && FateOf(old(variantRepo.rows), id) != Absent ==>
        FateOf(variantRepo.rows, id) == Skipped
      ensures Others() == old(Others())
    {
      if id == 0 {
        return;
      }
      var err := variantRepo.DeleteVariant(id);
      if err {
        return;
      }
      WithoutElems(tr.Ids(), id);
      ReleaseTrackedVariant(tr, id);
    }

    /** The switch after each generator: an error fails the row, no result deletes it, and a
        result is kept for later. */
    method SettleVariant(tr: TrackedIds, id: nat, gen: Gen, ghost claimed: set<nat>)
      returns (result: Option<Artifact>, skipped: bool, failed: bool)
      requires Good(tr, claimed) && id != 0 && id in claimed && gen != GenPanic
      modifies variantRepo, tr`len, tr.backing, registry`tasks
      ensures Good(tr, claimed) && tr.backing == old(tr.backing)
      ensures Untouched(old(variantRepo.rows), variantRepo.rows, {id})
      ensures old(variantRepo.faults) <= variantRepo.faults
      ensures result == (if gen.GenMade? then Some(gen.a) else None) && skipped == gen.GenSkip? && failed == gen.GenErr?
      ensures variantRepo.faults == old(variantRepo.faults) && FateOf(old(variantRepo.rows), id) != Absent ==>
        FateOf(variantRepo.rows, id) == AfterGen(FateOf(old(variantRepo.rows), id), gen)
      ensures Others() == old(Others())
    {
      result, skipped, failed := None, false, false;
      match gen
      case GenErr =>
        MarkVariantFailed(tr, id, "generate", claimed);
        failed := true;
      case GenSkip =>
        DeleteTrackedVariant(tr, id, claimed);
        skipped := true;
      case GenMade(a) =>
        result := Some(a);
    }

    /** One block of `saveVariantResults`: when the result cannot be stored, the row is failed. */
    method SaveResult(tr: TrackedIds, id: nat, result: Option<Artifact>, ghost claimed: set<nat>) returns (err: bool)
      requires Good(tr, claimed) && (id != 0 ==> id in claimed)
      modifies variantRepo, tr`len, tr.backing, registry`tasks
      ensures Good(tr, claimed) && tr.backing == old(tr.backing)
      ensures Untouched(old(variantRepo.rows), variantRepo.rows, {id})
      ensures old(variantRepo.faults) <= variantRepo.faults
      ensures variantRepo.faults == old(variantRepo.faults) && id != 0 ==>
        FateOf(variantRepo.rows, id) == AfterSave(FateOf(old(variantRepo.rows), id), result)
      ensures variantRepo.faults == old(variantRepo.faults) ==> err == CannotStore(old(variantRepo.rows), id, result)
      ensures Others() == old(Others())
    {
      if id == 0 || result == None {
        return false;
      }
      var now := *;
      err := variantRepo.UpdateCompleted(id, result.value, now);
      if err {
        MarkVariantFailed(tr, id, "failed to persist result", claimed);
      } else {
        WithoutElems(tr.Ids(), id);
        ReleaseTrackedVariant(tr, id);
      }
    }

    /** The ids the task was created with; two of them coincide only when both are 0. */
    ghost predicate SeparateIds() {
      && (thumbVariantID == webPVariantID ==> thumbVariantID == 0)
      && (thumbVariantID == avifVariantID ==> thumbVariantID == 0)
      && (webPVariantID == avifVariantID ==> webPVariantID == 0)
    }

    ghost function AllIds(): set<nat> {
      {thumbVariantID, webPVariantID, avifVariantID}
    }

    ghost predicate Requested(id: nat) {
      id != 0 && (id == thumbVariantID || id == webPVariantID || id == avifVariantID)
    }

    /** Every row asked for is among `claimed`. */
    ghost predicate Covers(claimed: set<nat>) {
      && (thumbVariantID > 0 ==> thumbVariantID in claimed)
      && (webPVariantID > 0 ==> webPVariantID in claimed)
      && (avifVariantID > 0 ==> avifVariantID in claimed)
    }

    function IdOf(f: Format): nat {
      match f case Thumb => thumbVariantID case WebP => webPVariantID case AVIF => avifVariantID
    }

    /** The fates of the three rows, for the formats that were requested. */
    ghost predicate Fates(rows: Table, fs: Trio) {
      && (thumbVariantID > 0 ==> FateOf(rows, thumbVariantID) == fs.thumb)
      && (webPVariantID > 0 ==> FateOf(rows, webPVariantID) == fs.webp)
      && (avifVariantID > 0 ==> FateOf(rows, avifVariantID) == fs.avif)
    }

    /** A row fails if it was asked for, unless the run panics before that. */
    method FailBlock(tr: TrackedIds, f: Format, errMsg: string, cut: Option<nat>, ghost claimed: set<nat>,
                     ghost rows0: Table, ghost fs: Trio) returns (panicked: bool)
      requires SeparateIds() && Good(tr, claimed) && Covers(claimed)
      requires Untouched(rows0, variantRepo.rows, AllIds())
      modifies variantRepo, tr`len, tr.backing, registry`tasks
      ensures Good(tr, claimed) && tr.backing == old(tr.backing)
      ensures Untouched(rows0, variantRepo.rows, AllIds())
      ensures old(variantRepo.faults) <= variantRepo.faults
      ensures Others() == old(Others())
      ensures panicked <==> CutBefore(cut, Place(f))
      ensures panicked ==> variantRepo.rows == old(variantRepo.rows)
      ensures !panicked && variantRepo.faults == old(variantRepo.faults) && Fates(old(variantRepo.rows), fs) ==>
        Fates(variantRepo.rows, fs.With(f, AfterFailing(fs.At(f))))
    {
      if cut.Some? && cut.value <= Place(f) {
        return true;
      }
      panicked := false;
      FormatFacts(f, claimed);
      ghost var rows1 := variantRepo.rows;
      if IdOf(f) > 0 {
        MarkVariantFailed(tr, IdOf(f), errMsg, claimed);
      }
      UntouchedChain(rows0, rows1, variantRepo.rows, AllIds(), {IdOf(f)}, AllIds());
      if variantRepo.faults == old(variantRepo.faults) && Fates(rows1, fs) {
        FateAt(rows1, f, fs);
        FatesStep(rows1, variantRepo.rows, f, fs, AfterFailing(fs.At(f)));
      }
    }

    /** Every requested row fails: no slot, or no file to work on. */
    method FailAll(tr: TrackedIds, errMsg: string, cut: Option<nat>, ghost claimed: set<nat>)
      returns (panicked: bool)
      requires SeparateIds() && Good(tr, claimed) && Covers(claimed)
      modifies variantRepo, tr`len, tr.backing, registry`tasks
      ensures Good(tr, claimed) && tr.backing == old(tr.backing)
      ensures Untouched(old(variantRepo.rows), variantRepo.rows, AllIds())
      ensures old(variantRepo.faults) <= variantRepo.faults
      ensures Others() == old(Others())
      ensures panicked <==> CutBefore(cut, 2)
      ensures variantRepo.faults == old(variantRepo.faults) && Fates(old(variantRepo.rows), AllFates(Held)) ==>
        Fates(variantRepo.rows, GivenUp(cut))
    {
      ghost var rows0 := variantRepo.rows;
      ghost var fs1, fs2 := Trio(Broken, Held, Held), Trio(Broken, Broken, Held);
      panicked := FailBlock(tr, Thumb, errMsg, cut, claimed, rows0, AllFates(Held));
      if panicked {
        return;
      }
      panicked := FailBlock(tr, WebP, errMsg, cut, claimed, rows0, fs1);
      if panicked {
        return;
      }
      panicked := FailBlock(tr, AVIF, errMsg, cut, claimed, rows0, fs2);
    }

    /** WebP and AVIF fail together when the image cannot be decoded for them. */
    method FailConversions(tr: TrackedIds, errMsg: string, ghost claimed: set<nat>, ghost t: Fate)
      requires SeparateIds() && Good(tr, claimed) && Covers(claimed)
      modifies variantRepo, tr`len, tr.backing, registry`tasks
      ensures Good(tr, claimed) && tr.backing == old(tr.backing)
      ensures Untouched(old(variantRepo.rows), variantRepo.rows, {webPVariantID, avifVariantID})
      ensures old(variantRepo.faults) <= variantRepo.faults
      ensures variantRepo.faults == old(variantRepo.faults) && Fates(old(variantRepo.rows), Trio(t, Held, Held)) ==>
        Fates(variantRepo.rows, Trio(t, Broken, Broken))
      ensures Others() == old(Others())
    {
      ghost var rows0 := variantRepo.rows;
      if webPVariantID > 0 {
        MarkVariantFailed(tr, webPVariantID, errMsg, claimed);
      }
      ghost var rows1 := variantRepo.rows;
      if avifVariantID > 0 {
        MarkVariantFailed(tr, avifVariantID, errMsg, claimed);
      }
      UntouchedChain(rows0, rows1, variantRepo.rows, {webPVariantID}, {avifVariantID}, {webPVariantID, avifVariantID});
      if variantRepo.faults == old(variantRepo.faults) && Fates(rows0, Trio(t, Held, Held)) {
        FatesStep(rows0, rows1, WebP, Trio(t, Held, Held), Broken);
        FatesStep(rows1, variantRepo.rows, AVIF, Trio(t, Broken, Held), Broken);
      }
    }

    /** A statement about one format's row moves that row's fate and no other. */
    lemma FatesStep(before: Table, after: Table, f: Format, fs: Trio, now: Fate)
      requires SeparateIds() && Fates(before, fs)
      requires Untouched(before, after, {IdOf(f)})
      requires IdOf(f) != 0 ==> FateOf(after, IdOf(f)) == now
      ensures Fates(after, fs.With(f, now))
    {
      SameFates(before, after, IdOf(f));
    }

    lemma FateAt(rows: Table, f: Format, fs: Trio)
      requires Fates(rows, fs)
      ensures IdOf(f) != 0 ==> FateOf(rows, IdOf(f)) == fs.At(f)
    {
    }

    /** One save moves one fate, and errs exactly when the row is not held. */
    lemma SaveComposes(before: Table, after: Table, f: Format, result: Option<Artifact>, fs: Trio)
      requires SeparateIds() && Untouched(before, after, {IdOf(f)}) && Fates(before, fs)
      requires IdOf(f) != 0 ==> FateOf(after, IdOf(f)) == AfterSave(FateOf(before, IdOf(f)), result)
      ensures Fates(after, fs.Save(f, result))
      ensures CannotStore(before, IdOf(f), result) == (IdOf(f) != 0 && result.Some? && fs.At(f) != Held)
    {
      FateAt(before, f, fs);
      FatesStep(before, after, f, fs, AfterSave(fs.At(f), result));
    }

    /** A block of `saveVariantResults`, unless the run panics before it. */
    method SaveBlock(tr: TrackedIds, f: Format, result: Option<Artifact>, cut: Option<nat>, ghost claimed: set<nat>,
                     ghost rows0: Table, ghost fs: Trio) returns (err: bool, panicked: bool)
      requires SeparateIds() && Good(tr, claimed) && Covers(claimed)
      requires Untouched(rows0, variantRepo.rows, AllIds())
      modifies variantRepo, tr`len, tr.backing, registry`tasks
      ensures Good(tr, claimed) && tr.backing == old(tr.backing)
      ensures Untouched(rows0, variantRepo.rows, AllIds())
      ensures old(variantRepo.faults) <= variantRepo.faults
      ensures Others() == old(Others())
      ensures panicked <==> CutBefore(cut, Place(f))
      ensures panicked ==> variantRepo.rows == old(variantRepo.rows)
      ensures !panicked && variantRepo.faults == old(variantRepo.faults) && Fates(old(variantRepo.rows), fs) ==>
        && Fates(variantRepo.rows, fs.Save(f, result))
        && err == (IdOf(f) != 0 && result.Some? && fs.At(f) != Held)
    {
      if cut.Some? && cut.value <= Place(f) {
        return false, true;
      }
      panicked := false;
      FormatFacts(f, claimed);
      ghost var rows1 := variantRepo.rows;
      err := SaveResult(tr, IdOf(f), result, claimed);
      UntouchedChain(rows0, rows1, variantRepo.rows, AllIds(), {IdOf(f)}, AllIds());
      if variantRepo.faults == old(variantRepo.faults) && Fates(rows1, fs) {
        SaveComposes(rows1, variantRepo.rows, f, result, fs);
      }
    }

    /** `saveVariantResults`: an AVIF result that cannot be stored counts only without a WebP. */
    method SaveVariantResults(tr: TrackedIds, made: Results, cut: Option<nat>, ghost claimed: set<nat>, ghost fs: Trio)
      returns (failed: bool, panicked: bool)
      requires SeparateIds() && Good(tr, claimed) && Covers(claimed)
      modifies variantRepo, tr`len, tr.backing, registry`tasks
      ensures Good(tr, claimed) && tr.backing == old(tr.backing)
      ensures Untouched(old(variantRepo.rows), variantRepo.rows, AllIds())
      ensures old(variantRepo.faults) <= variantRepo.faults
      ensures Others() == old(Others())
      ensures panicked <==> CutBefore(cut, 2)
      ensures variantRepo.faults == old(variantRepo.faults) && Fates(old(variantRepo.rows), fs) ==>
        && Fates(variantRepo.rows, SavedFates(cut, fs, made))
        && (!panicked ==> failed == SomeUnstored(made, fs))
    {
      failed := false;
      ghost var rows0 := variantRepo.rows;
      SavedInTurn(cut, fs, made);
      ghost var fs1 := fs.Save(Thumb, made.thumb);
      ghost var fs2 := fs1.Save(WebP, made.webp);
      var thumbErr, webpErr, avifErr;
      thumbErr, panicked := SaveBlock(tr, Thumb, made.thumb, cut, claimed, rows0, fs);
      if panicked {
        return;
      }
      webpErr, panicked := SaveBlock(tr, WebP, made.webp, cut, claimed, rows0, fs1);
      if panicked {
        return;
      }
      avifErr, panicked := SaveBlock(tr, AVIF, made.avif, cut, claimed, rows0, fs2);
      failed := thumbErr || webpErr || (avifErr && webPVariantID == 0);
    }

    ghost predicate SomeUnstored(made: Results, fs: Trio) {
      || (thumbVariantID > 0 && made.thumb.Some? && fs.thumb != Held)
      || (webPVariantID > 0 && made.webp.Some? && fs.webp != Held)
      || (webPVariantID == 0 && avifVariantID > 0 && made.avif.Some? && fs.avif != Held)
    }

    /** A generator stage, a no-op when the format was not asked for; `fs` are the fates before it. */
    method Stage(tr: TrackedIds, f: Format, gen: Gen, ghost claimed: set<nat>, ghost rows0: Table,
                 ghost fs: Trio)
      returns (result: Option<Artifact>, skipped: bool, failed: bool)
      requires SeparateIds() && Good(tr, claimed) && Covers(claimed)
      requires Untouched(rows0, variantRepo.rows, AllIds())
      requires Wants(Want(), f) ==> gen != GenPanic
      modifies variantRepo, tr`len, tr.backing, registry`tasks
      ensures Good(tr, claimed) && tr.backing == old(tr.backing)
      ensures Untouched(rows0, variantRepo.rows, AllIds())
      ensures old(variantRepo.faults) <= variantRepo.faults
      ensures result == ResultOf(Wants(Want(), f), gen)
      ensures skipped == (Wants(Want(), f) && gen.GenSkip?) && failed == (Wants(Want(), f) && gen.GenErr?)
      ensures variantRepo.faults == old(variantRepo.faults) && Fates(old(variantRepo.rows), fs) && fs.Present() ==>
        Fates(variantRepo.rows, fs.Generate(f, gen))
      ensures Others() == old(Others())
    {
      result, skipped, failed := None, false, false;
      FormatFacts(f, claimed);
      ghost var rows1 := variantRepo.rows;
      if IdOf(f) == 0 {
        StageCompose(rows1, rows1, f, gen, fs);
        return;
      }
      result, skipped, failed := SettleVariant(tr, IdOf(f), gen, claimed);
      UntouchedChain(rows0, rows1, variantRepo.rows, AllIds(), {IdOf(f)}, AllIds());
      if variantRepo.faults == old(variantRepo.faults) {
        StageCompose(rows1, variantRepo.rows, f, gen, fs);
      }
    }

    lemma FormatFacts(f: Format, claimed: set<nat>)
      ensures Wants(Want(), f) <==> IdOf(f) != 0
      ensures {IdOf(f)} <= AllIds()
      ensures Covers(claimed) && IdOf(f) != 0 ==> IdOf(f) in claimed
    {
    }

    lemma StageCompose(before: Table, after: Table, f: Format, gen: Gen, fs: Trio)
      requires SeparateIds() && Untouched(before, after, {IdOf(f)})
      requires IdOf(f) != 0 && FateOf(before, IdOf(f)) != Absent ==>
        FateOf(after, IdOf(f)) == AfterGen(FateOf(before, IdOf(f)), gen)
      ensures Fates(before, fs) && fs.Present() ==> Fates(after, fs.Generate(f, gen))
    {
      if Fates(before, fs) && fs.Present() {
        FateAt(before, f, fs);
        FatesStep(before, after, f, fs, AfterGen(fs.At(f), gen));
      }
    }

    /** The WebP and AVIF generators, after the image was loaded for them or failed to load. */
    method GenerateConversions(tr: TrackedIds, env: Env, ghost claimed: set<nat>, ghost rows0: Table,
                               ghost t: Fate, ghost loaded: Fate)
      returns (panicked: bool, webp: Option<Artifact>, avif: Option<Artifact>,
               webpSkipped: bool, avifSkipped: bool, hasFailed: bool)
      requires SeparateIds() && Good(tr, claimed) && Covers(claimed)
      requires Untouched(rows0, variantRepo.rows, AllIds())
      requires t != Absent && loaded != Absent
      modifies variantRepo, tr`len, tr.backing, registry`tasks
      ensures Good(tr, claimed) && tr.backing == old(tr.backing)
      ensures Untouched(rows0, variantRepo.rows, AllIds())
      ensures old(variantRepo.faults) <= variantRepo.faults
      ensures Others() == old(Others())
      ensures panicked <==> ConversionPanics(env, Want())
      ensures !panicked ==> webp == ResultOf(Want().webp, env.webp) && avif == ResultOf(Want().avif, env.avif)
      ensures !panicked ==>
        webpSkipped == (Want().webp && env.webp.GenSkip?) && avifSkipped == (Want().avif && env.avif.GenSkip?)
      ensures !panicked ==>
        hasFailed == ((Want().webp && env.webp.GenErr?) || (Want().avif && !Want().webp && env.avif.GenErr?))
      ensures variantRepo.faults == old(variantRepo.faults) && Fates(old(variantRepo.rows), Trio(t, loaded, loaded)) ==>
        Fates(variantRepo.rows,
              Trio(t, AfterGen(loaded, env.webp),
                   if Want().webp && env.webp == GenPanic then loaded else AfterGen(loaded, env.avif)))
    {
      panicked, webp, avif, webpSkipped, avifSkipped, hasFailed := true, None, None, false, false, false;
      if webPVariantID > 0 && env.webp == GenPanic {
        return;
      }
      var webpFailed;
      webp, webpSkipped, webpFailed := Stage(tr, WebP, env.webp, claimed, rows0, Trio(t, loaded, loaded));
      if avifVariantID > 0 && env.avif == GenPanic {
        return;
      }
      var avifFailed;
      avif, avifSkipped, avifFailed :=
        Stage(tr, AVIF, env.avif, claimed, rows0, Trio(t, AfterGen(loaded, env.webp), loaded));
      panicked := false;
      hasFailed := webpFailed || (avifFailed && webPVariantID == 0);
    }

    /** The generator part of `runPipeline`, from a file at hand to the results. */
    method GenerateAll(tr: TrackedIds, env: Env, ghost claimed: set<nat>)
      returns (panicked: bool, made: Results, hasFailed: bool)
      requires SeparateIds() && Good(tr, claimed) && Covers(claimed) && env.fetch == PrepOk
      modifies variantRepo, tr`len, tr.backing, registry`tasks
      ensures Good(tr, claimed) && tr.backing == old(tr.backing)
      ensures Untouched(old(variantRepo.rows), variantRepo.rows, AllIds())
      ensures old(variantRepo.faults) <= variantRepo.faults
      ensures Others() == old(Others())
      ensures panicked <==> Panics(env, Want())
      ensures !panicked ==> made == ResultsOf(env, Want()) && hasFailed == Breaks(env, Want())
      ensures variantRepo.faults == old(variantRepo.faults) && Fates(old(variantRepo.rows), AllFates(Held)) ==>
        Fates(variantRepo.rows, MadeFates(env, Want()))
    {
      panicked, made, hasFailed := true, Results(None, None, None, false, false, false), false;
      BeforeSaveCases(env, Want());
      if thumbVariantID > 0 && env.thumb == GenPanic {
        return;
      }
      ghost var t := AfterGen(Held, env.thumb);
      ghost var rows0 := variantRepo.rows;
      var thumb, thumbSkipped, thumbFailed := Stage(tr, Thumb, env.thumb, claimed, rows0, AllFates(Held));
      ghost var rows1 := variantRepo.rows;
      var loadFailed := false;
      if webPVariantID > 0 || avifVariantID > 0 {
        if env.load == PrepPanic {
          return;
        }
        if env.load == PrepErr {
          FailConversions(tr, "load image", claimed, t);
          loadFailed := true;
          UntouchedChain(rows0, rows1, variantRepo.rows, AllIds(), {webPVariantID, avifVariantID}, AllIds());
        }
      }
      var webp, avif, webpSkipped, avifSkipped;
      panicked, webp, avif, webpSkipped, avifSkipped, hasFailed :=
        GenerateConversions(tr, env, claimed, rows0, t, if env.load == PrepErr then Broken else Held);
      made := Results(thumb, webp, avif, thumbSkipped, webpSkipped, avifSkipped);
      hasFailed := hasFailed || thumbFailed || loadFailed;
    }

    /** Stores what was made, if anything was. */
    method SaveMade(tr: TrackedIds, made: Results, env: Env, ghost claimed: set<nat>)
      returns (err: bool, panicked: bool)
      requires SeparateIds() && Good(tr, claimed) && Covers(claimed)
      requires env.fetch == PrepOk && !Panics(env, Want()) && made == ResultsOf(env, Want())
      modifies variantRepo, tr`len, tr.backing, registry`tasks
      ensures Good(tr, claimed) && tr.backing == old(tr.backing)
      ensures Untouched(old(variantRepo.rows), variantRepo.rows, AllIds())
      ensures old(variantRepo.faults) <= variantRepo.faults
      ensures Others() == old(Others())
      ensures panicked <==> SaveCut(env, Want())
      ensures variantRepo.faults == old(variantRepo.faults) && Fates(old(variantRepo.rows), MadeFates(env, Want())) ==>
        (err && !panicked ==> Breaks(env, Want())) && Fates(variantRepo.rows, ExitFates(env, Want()))
    {
      SaveCases(env, Want());
      err, panicked := false, false;
      if made.thumb.Some? || made.webp.Some? || made.avif.Some? {
        err, panicked := SaveVariantResults(tr, made, env.save, claimed, MadeFates(env, Want()));
      }
    }

    /** The status at the end of `runPipeline`, and the cache deletion after it. */
    method Classify(made: Results, env: Env) returns (ended: Ended)
      requires made == ResultsOf(env, Want())
      modifies imageRepo
      ensures ended == if CutBefore(env.save, 2) || env.save == None then Fine else Panicked
      ensures old(imageRepo.refused) ==> imageRepo.refused
      ensures ended == Fine && !imageRepo.refused ==>
        StatusSet(old(imageRepo.rows), imageRepo.rows, imageID, Classified(env, Want()))
      ensures OnlyImage(old(imageRepo.rows), imageRepo.rows, imageID)
    {
      if env.save == Some(3) {
        return Panicked;
      }
      var now := *;
      var refused := imageRepo.UpdateVariantStatus(imageID,
        ResolveImageVariantStatus(thumbVariantID > 0, webPVariantID > 0, avifVariantID > 0,
                                  made.thumb.Some?, made.webp.Some?, made.avif.Some?,
                                  made.thumbSkipped, made.webpSkipped, made.avifSkipped), now);
      return if env.save.Some? && env.save.value > 3 then Panicked else Fine;
    }

    /** The end of `runPipeline`: store the results, then classify the image. */
    method Persist(tr: TrackedIds, made: Results, broken: bool, env: Env, ghost claimed: set<nat>)
      returns (ended: Ended)
      requires SeparateIds() && Good(tr, claimed) && Covers(claimed) && env.fetch == PrepOk && !Panics(env, Want())
      requires made == ResultsOf(env, Want()) && broken == Breaks(env, Want())
      modifies variantRepo, imageRepo, tr`len, tr.backing, registry`tasks
      ensures Good(tr, claimed) && tr.backing == old(tr.backing)
      ensures Untouched(old(variantRepo.rows), variantRepo.rows, AllIds())
      ensures old(variantRepo.faults) <= variantRepo.faults
      ensures Others() == old(Others())
      ensures variantRepo.faults == old(variantRepo.faults) && Fates(old(variantRepo.rows), MadeFates(env, Want())) ==>
        ended == EndsAs(env, Want()) && Fates(variantRepo.rows, ExitFates(env, Want()))
      ensures ended == Errored ==> imageRepo.rows == old(imageRepo.rows) && imageRepo.refused == old(imageRepo.refused)
      ensures ended == Fine && !imageRepo.refused ==>
        StatusSet(old(imageRepo.rows), imageRepo.rows, imageID, Classified(env, Want()))
      ensures OnlyImage(old(imageRepo.rows), imageRepo.rows, imageID)
      ensures old(imageRepo.refused) ==> imageRepo.refused
    {
      var err, panicked := SaveMade(tr, made, env, claimed);
      if panicked {
        return Panicked;
      }
      if broken || err {
        return Errored;
      }
      ended := Classify(made, env);
    }

    /** `runPipeline`: fetch, generate in order, persist together at the end. */
    method RunPipeline(tr: TrackedIds, env: Env, ghost claimed: set<nat>) returns (ended: Ended)
      requires SeparateIds() && Good(tr, claimed) && Covers(claimed)
      modifies variantRepo, imageRepo, tr`len, tr.backing, registry`tasks
      ensures Good(tr, claimed) && tr.backing == old(tr.backing)
      ensures Untouched(old(variantRepo.rows), variantRepo.rows, AllIds())
      ensures old(variantRepo.faults) <= variantRepo.faults
      ensures Others() == old(Others())
      ensures variantRepo.faults == old(variantRepo.faults) && Fates(old(variantRepo.rows), AllFates(Held)) ==>
        ended == EndsAs(env, Want()) && Fates(variantRepo.rows, ExitFates(env, Want()))
      ensures ended == Errored ==> imageRepo.rows == old(imageRepo.rows) && imageRepo.refused == old(imageRepo.refused)
      ensures OnlyImage(old(imageRepo.rows), imageRepo.rows, imageID)
      ensures ended == Fine && !imageRepo.refused ==>
        StatusSet(old(imageRepo.rows), imageRepo.rows, imageID, Classified(env, Want()))
      ensures old(imageRepo.refused) ==> imageRepo.refused
    {
      if env.fetch == PrepPanic {
        return Panicked;
      }
      if env.fetch == PrepErr {
        var _ := FailAll(tr, "get file", None, claimed);
        return Errored;
      }
      var panicked, made, hasFailed := GenerateAll(tr, env, claimed);
      if panicked {
        return Panicked;
      }
      ended := Persist(tr, made, hasFailed, env, claimed);
    }

    /** The compare-and-set of a claim block and the append after it. */
    method TakeRow(tr: TrackedIds, id: nat, ghost rows0: Table, ghost held: set<nat>) returns (ours: bool)
      requires id != 0 && HeldIs(tr, rows0, held)
      modifies variantRepo, tr, tr.backing
      ensures HeldIs(tr, rows0, if ours then held + {id} else held)
      ensures tr.backing == old(tr.backing) || fresh(tr.backing)
      ensures old(variantRepo.faults) <= variantRepo.faults
      ensures ours ==> CanClaim(rows0, id, held)
      ensures variantRepo.faults == old(variantRepo.faults) ==> ours == CanClaim(rows0, id, held)
    {
      ghost var before := variantRepo.rows;
      StillPending(rows0, before, held, id);
      var time := *;
      var acquired, err := variantRepo.UpdateStatusCAS(id, Pending, Processing, "", time);
      if err || !acquired {
        return false;
      }
      OneMoreClaimed(rows0, before, variantRepo.rows, held, id);
      tr.Append(id);
      return true;
    }

    /** One claim block of `Execute`; `rows0` is the table before the first one. */
    method ClaimVariant(tr: TrackedIds, f: Format, cut: Option<nat>, ghost rows0: Table) returns (claim: Claim)
      requires lease == None && Holding(tr, rows0, Place(f))
      modifies variantRepo, tr, tr.backing
      ensures Holding(tr, rows0, if claim == Won then Place(f) + 1 else Place(f))
      ensures tr.backing == old(tr.backing) || fresh(tr.backing)
      ensures old(variantRepo.faults) <= variantRepo.faults
      ensures claim == Blown <==> cut == Some(Place(f)) && IdOf(f) != 0
      ensures variantRepo.faults == old(variantRepo.faults) ==> claim == ClaimAt(rows0, f, cut)
    {
      OneMoreClaim(rows0, f);
      if IdOf(f) == 0 {
        return Won;
      }
      if cut == Some(Place(f)) {
        return Blown;
      }
      var ours := TakeRow(tr, IdOf(f), rows0, FirstIds(Place(f)));
      return if ours then Won else NotOurs;
    }

    /** Exactly the rows of `held` are held and tracked, and only they have changed since `rows0`. */
    ghost predicate HeldIs(tr: TrackedIds, rows0: Table, held: set<nat>)
      reads tr, tr.backing, variantRepo
    {
      && tr.Valid() && InStep(variantRepo.rows, tr.Ids(), held) && (forall x :: x in held ==> x in tr.Ids())
      && Untouched(rows0, variantRepo.rows, held)
      && (forall x :: x in held ==> ClaimedIn(rows0, variantRepo.rows, x))
    }

    /** The first `k` claims succeeded. */
    ghost predicate Holding(tr: TrackedIds, rows0: Table, k: nat)
      reads tr, tr.backing, variantRepo
    {
      HeldIs(tr, rows0, FirstIds(k)) && Claimable(rows0, k)
    }

    lemma OneMoreClaim(rows: Table, f: Format)
      ensures FirstIds(Place(f) + 1) == if IdOf(f) == 0 then FirstIds(Place(f)) else FirstIds(Place(f)) + {IdOf(f)}
      ensures Claimable(rows, Place(f) + 1) <==>
        Claimable(rows, Place(f)) && CanClaim(rows, IdOf(f), FirstIds(Place(f)))
    {
    }

    /** One compare-and-set of `finalize`; its error is ignored. */
    method LetGo(id: nat, panicked: bool)
      modifies variantRepo
      ensures Untouched(old(variantRepo.rows), variantRepo.rows, {id})
      ensures old(variantRepo.faults) <= variantRepo.faults
      ensures Hits(old(variantRepo.rows), id, Processing) && variantRepo.faults == old(variantRepo.faults) ==>
        LetGoIn(old(variantRepo.rows), variantRepo.rows, id, panicked)
    {
      var now := *;
      var ok, err := variantRepo.UpdateStatusCAS(id, Processing, if panicked then Failed else Pending,
                                                 if panicked then "panic" else "", now);
    }

    /** `finalize`: whatever is still tracked goes back to pending, or to failed after a panic;
        each row left processing stands for one refused statement. */
    method Finalize(tr: TrackedIds, panicked: bool, ghost claimed: set<nat>)
      requires tr.Valid() && InStep(variantRepo.rows, tr.Ids(), claimed)
      modifies variantRepo, imageRepo
      ensures Untouched(old(variantRepo.rows), variantRepo.rows, claimed)
      ensures old(variantRepo.faults) + |Stuck(variantRepo.rows, claimed)| <= variantRepo.faults
      ensures variantRepo.faults == old(variantRepo.faults) ==> forall x :: x in claimed ==>
        FateOf(variantRepo.rows, x) == AfterExit(FateOf(old(variantRepo.rows), x), panicked)
      ensures variantRepo.faults == old(variantRepo.faults) ==> forall x :: x in tr.Ids() ==>
        LetGoIn(old(variantRepo.rows), variantRepo.rows, x, panicked)
      ensures !panicked ==> imageRepo.rows == old(imageRepo.rows) && imageRepo.refused == old(imageRepo.refused)
      ensures panicked && !imageRepo.refused ==> StatusSet(old(imageRepo.rows), imageRepo.rows, imageID, ImgFailed)
      ensures old(imageRepo.refused) ==> imageRepo.refused
    {
      ghost var rows0 := variantRepo.rows;
      ghost var ids := tr.Ids();
      ghost var lost: set<nat> := {};
      assert forall k :: 0 <= k < |ids| ==> ids[k] in ids && Hits(rows0, ids[k], Processing);
      var i := 0;
      while i < tr.len
        invariant i <= tr.len && tr.Valid() && tr.Ids() == ids
        invariant old(variantRepo.faults) + |lost| <= variantRepo.faults
        invariant Releasing(rows0, variantRepo.rows, ids, i, lost, panicked)
        modifies variantRepo
      {
        ghost var before, faults := variantRepo.rows, variantRepo.faults;
        assert tr.backing[i] == ids[i];
        LetGo(tr.backing[i], panicked);
        OneMoreReleased(rows0, before, variantRepo.rows, ids, i, lost, panicked, variantRepo.faults == faults);
        if variantRepo.faults > faults {
          lost := lost + {ids[i]};
        }
        i := i + 1;
      }
      FinalizedFates(rows0, variantRepo.rows, ids, claimed, lost, panicked);
      if panicked {
        var now := *;
        var err := imageRepo.UpdateVariantStatus(imageID, ImgFailed, now);
      }
    }

    /** All three claims in order, up to the first one that is lost or panics. */
    method ClaimAll(tr: TrackedIds, cut: Option<nat>) returns (claim: Claim, ghost claimed: set<nat>)
      requires lease == None && tr.Valid() && tr.Ids() == []
      modifies variantRepo, tr, tr.backing
      ensures tr.Valid() && InStep(variantRepo.rows, tr.Ids(), claimed) && forall x :: x in claimed ==> x in tr.Ids()
      ensures tr.backing == old(tr.backing) || fresh(tr.backing)
      ensures forall x :: x in claimed ==> Requested(x) && Hits(old(variantRepo.rows), x, Pending)
      ensures Untouched(old(variantRepo.rows), variantRepo.rows, claimed)
      ensures forall x :: x in claimed ==> ClaimedIn(old(variantRepo.rows), variantRepo.rows, x)
      ensures old(variantRepo.faults) <= variantRepo.faults
      ensures claim == Won ==> Claimable(old(variantRepo.rows), 3) && claimed == FirstIds(3)
      ensures claim == Blown ==> cut.Some? && claimed == FirstIds(cut.value)
      ensures variantRepo.faults == old(variantRepo.faults) ==> claim == ClaimOf(old(variantRepo.rows), cut)
    {
      ghost var k: nat;
      claim, k := ClaimInOrder(tr, cut);
      claimed := FirstIds(k);
      FirstWerePending(old(variantRepo.rows), k);
    }

    method ClaimInOrder(tr: TrackedIds, cut: Option<nat>) returns (claim: Claim, ghost k: nat)
      requires lease == None && tr.Valid() && tr.Ids() == []
      modifies variantRepo, tr, tr.backing
      ensures k <= 3 && Holding(tr, old(variantRepo.rows), k) && (claim == Won ==> k == 3)
      ensures tr.backing == old(tr.backing) || fresh(tr.backing)
      ensures old(variantRepo.faults) <= variantRepo.faults
      ensures claim == Blown ==> cut == Some(k)
      ensures variantRepo.faults == old(variantRepo.faults) ==> claim == ClaimOf(old(variantRepo.rows), cut)
    {
      ghost var rows0 := variantRepo.rows;
      ClaimsInTurn(rows0, cut);
      k := 0;
      claim := ClaimVariant(tr, Thumb, cut, rows0);
      if claim != Won {
        return;
      }
      k := 1;
      claim := ClaimVariant(tr, WebP, cut, rows0);
      if claim != Won {
        return;
      }
      k := 2;
      claim := ClaimVariant(tr, AVIF, cut, rows0);
      if claim == Won {
        k := 3;
      }
    }

    /** The ids the first `k` claim blocks claim. */
    ghost function FirstIds(k: nat): set<nat> {
      (if k > 0 then {thumbVariantID} else {}) + (if k > 1 then {webPVariantID} else {})
      + (if k > 2 then {avifVariantID} else {}) - {0}
    }

    /** The first `k` claims succeed: the rows asked for are pending, and none is asked for twice. */
    ghost predicate Claimable(rows: Table, k: nat) {
      && (k > 0 ==> CanClaim(rows, thumbVariantID, FirstIds(0)))
      && (k > 1 ==> CanClaim(rows, webPVariantID, FirstIds(1)))
      && (k > 2 ==> CanClaim(rows, avifVariantID, FirstIds(2)))
    }

    lemma FirstWerePending(rows: Table, k: nat)
      requires Claimable(rows, k)
      ensures forall x :: x in FirstIds(k) ==> Requested(x) && Hits(rows, x, Pending)
    {
    }

    /** How the claims go from the table before them. */
    ghost function ClaimOf(rows: Table, cut: Option<nat>): Claim {
      if cut.Some? && cut.value < 3 && IdOf(FormatAt(cut.value)) != 0 && Claimable(rows, cut.value) then Blown
      else if Claimable(rows, 3) then Won
      else NotOurs
    }

    /** How the claim of one format goes when those before it succeeded. */
    ghost function ClaimAt(rows: Table, f: Format, cut: Option<nat>): Claim {
      if cut == Some(Place(f)) && IdOf(f) != 0 then Blown
      else if CanClaim(rows, IdOf(f), FirstIds(Place(f))) then Won
      else NotOurs
    }

    lemma ClaimsInTurn(rows: Table, cut: Option<nat>)
      ensures ClaimOf(rows, cut) ==
        if ClaimAt(rows, Thumb, cut) != Won then ClaimAt(rows, Thumb, cut)
        else if ClaimAt(rows, WebP, cut) != Won then ClaimAt(rows, WebP, cut)
        else ClaimAt(rows, AVIF, cut)
    {
    }

    /** No slot before the deadline: every row and the image fail. */
    method GiveUp(tr: TrackedIds, cut: Option<nat>, ghost claimed: set<nat>) returns (panicked: bool)
      requires SeparateIds() && Good(tr, claimed) && Covers(claimed) && Registered(claimed)
      modifies variantRepo, imageRepo, tr`len, tr.backing, registry`tasks
      ensures Good(tr, claimed) && tr.backing == old(tr.backing)
      ensures Untouched(old(variantRepo.rows), variantRepo.rows, AllIds())
      ensures old(variantRepo.faults) <= variantRepo.faults
      ensures Others() == old(Others())
      ensures panicked <==> cut.Some?
      ensures variantRepo.faults == old(variantRepo.faults) && Fates(old(variantRepo.rows), AllFates(Held)) ==>
        Fates(variantRepo.rows, GivenUp(cut))
      ensures !panicked && !imageRepo.refused ==>
        StatusSet(old(imageRepo.rows), imageRepo.rows, imageID, ImgFailed)
      ensures OnlyImage(old(imageRepo.rows), imageRepo.rows, imageID)
      ensures old(imageRepo.refused) ==> imageRepo.refused
    {
      panicked := FailAll(tr, "semaphore", cut, claimed);
      if panicked || cut == Some(3) {
        return true;
      }
      var now := *;
      var err := imageRepo.UpdateVariantStatus(imageID, ImgFailed, now);
      // a cut past 3 is in the cache deletion
      return cut.Some?;
    }

    /** With a slot: run the pipeline and mark the image failed when it reports an error. */
    method Process(tr: TrackedIds, env: Env, ghost claimed: set<nat>) returns (panicked: bool)
      requires SeparateIds() && Good(tr, claimed) && Covers(claimed)
      modifies variantRepo, imageRepo, tr`len, tr.backing, registry`tasks
      ensures Good(tr, claimed) && tr.backing == old(tr.backing)
      ensures Untouched(old(variantRepo.rows), variantRepo.rows, AllIds())
      ensures old(variantRepo.faults) <= variantRepo.faults
      ensures Others() == old(Others())
      ensures variantRepo.faults == old(variantRepo.faults) && Fates(old(variantRepo.rows), AllFates(Held)) ==>
        && (panicked <==> CutShort(env, Want()))
        && Fates(variantRepo.rows, ExitFates(env, Want()))
        && (!panicked && !imageRepo.refused ==>
              StatusSet(old(imageRepo.rows), imageRepo.rows, imageID, Verdict(env, Want())))
      ensures panicked ==> OnlyImage(old(imageRepo.rows), imageRepo.rows, imageID)
      ensures old(imageRepo.refused) ==> imageRepo.refused
    {
      VerdictIsClassified(env, Want());
      var ended := RunPipeline(tr, env, claimed);
      panicked := ended == Panicked;
      if ended == Errored {
        var now := *;
        var err := imageRepo.UpdateVariantStatus(imageID, ImgFailed, now);
      }
    }

    /** The touch made before the heartbeat goroutine starts: unless it is refused, every tracked row
        and the image carry its time. */
    method StartHeartbeat(tr: TrackedIds, ghost claimed: set<nat>) returns (now: int)
      requires Good(tr, claimed) && claimed <= AllIds()
      modifies variantRepo, imageRepo
      ensures Good(tr, claimed)
      ensures Untouched(old(variantRepo.rows), variantRepo.rows, AllIds())
      ensures variantRepo.faults == old(variantRepo.faults)
      ensures forall fs :: Fates(old(variantRepo.rows), fs) ==> Fates(variantRepo.rows, fs)
      ensures OnlyImage(old(imageRepo.rows), imageRepo.rows, imageID) && imageRepo.refused == old(imageRepo.refused)
      ensures variantRepo.touchFaults == old(variantRepo.touchFaults) ==>
        forall id :: id in tr.Ids() ==> id in variantRepo.rows && variantRepo.rows[id].updatedAt == now
      ensures imageRepo.touchFaults == old(imageRepo.touchFaults) ==>
        imageRepo.rows == if imageID > 0 then TouchImage(old(imageRepo.rows), imageID, now) else old(imageRepo.rows)
    {
      now := *;
      if tr.len == 0 && imageID == 0 {
        return;
      }
      ghost var rows0 := variantRepo.rows;
      var err := variantRepo.TouchProcessing(tr.backing[..tr.len], now);
      TouchKeepsFates(rows0, Elems(tr.Ids()), now, AllIds());
      if imageID > 0 {
        err := imageRepo.TouchVariantProcessingStatus(imageID, now);
      }
    }

    /** With a slot: the first touch, then the pipeline. */
    method HeartbeatAndProcess(tr: TrackedIds, env: Env, ghost claimed: set<nat>) returns (panicked: bool)
      requires SeparateIds() && Good(tr, claimed) && Covers(claimed) && claimed <= AllIds()
      requires Registered(claimed)
      modifies variantRepo, imageRepo, tr`len, tr.backing, registry`tasks
      ensures Good(tr, claimed) && tr.backing == old(tr.backing)
      ensures Untouched(old(variantRepo.rows), variantRepo.rows, AllIds())
      ensures old(variantRepo.faults) <= variantRepo.faults
      ensures Others() == old(Others())
      ensures variantRepo.faults == old(variantRepo.faults) && Fates(old(variantRepo.rows), AllFates(Held)) ==>
        && (panicked <==> CutShort(env, Want()))
        && Fates(variantRepo.rows, ExitFates(env, Want()))
        && (!panicked && !imageRepo.refused ==>
              StatusSet(old(imageRepo.rows), imageRepo.rows, imageID, Verdict(env, Want())))
      ensures panicked ==> OnlyImage(old(imageRepo.rows), imageRepo.rows, imageID)
      ensures old(imageRepo.refused) ==> imageRepo.refused
    {
      ghost var rows0, images0 := variantRepo.rows, imageRepo.rows;
      var _ := StartHeartbeat(tr, claimed);
      ghost var rows1, images1 := variantRepo.rows, imageRepo.rows;
      panicked := Process(tr, env, claimed);
      UntouchedChain(rows0, rows1, variantRepo.rows, AllIds(), AllIds(), AllIds());
      ChangedThenSet(images0, images1, imageRepo.rows, imageID, Verdict(env, Want()));
      OnlyImageChain(images0, images1, imageRepo.rows, imageID);
    }

    /** From the registration of the claimed rows to its removal. */
    method RunLeased(tr: TrackedIds, slot: bool, env: Env, ghost claimed: set<nat>) returns (panicked: bool)
      requires lease == None && registry.Valid()
      requires SeparateIds() && tr.Valid() && InStep(variantRepo.rows, tr.Ids(), claimed)
      requires Covers(claimed) && claimed <= AllIds() && forall x :: x in claimed ==> x in tr.Ids()
      modifies this`lease, variantRepo, imageRepo, registry, tr`len, tr.backing
      ensures registry.Valid() && registry.tasks == old(registry.tasks)
      ensures tr.Valid() && InStep(variantRepo.rows, tr.Ids(), claimed)
      ensures Untouched(old(variantRepo.rows), variantRepo.rows, AllIds())
      ensures old(variantRepo.faults) <= variantRepo.faults
      ensures variantRepo.faults == old(variantRepo.faults) && Fates(old(variantRepo.rows), AllFates(Held)) ==>
        && (panicked <==> CutOff(slot, env, Want()))
        && Fates(variantRepo.rows, Leaving(slot, env, Want()))
        && (!panicked && !imageRepo.refused ==>
              StatusSet(old(imageRepo.rows), imageRepo.rows, imageID, if slot then Verdict(env, Want()) else ImgFailed))
      ensures panicked ==> OnlyImage(old(imageRepo.rows), imageRepo.rows, imageID)
      ensures old(imageRepo.refused) ==> imageRepo.refused
    {
      if imageID != 0 || tr.len != 0 {
        var id := registry.Begin(imageID, tr.backing, tr.len);
        lease := Some(id);
      }
      assert Others() == old(registry.tasks);
      if slot {
        panicked := HeartbeatAndProcess(tr, env, claimed);
      } else {
        panicked := GiveUp(tr, env.giveUp, claimed);
      }
      if lease.Some? {
        assert Others() == registry.tasks - {lease.value};
        registry.Release(lease.value);
      }
    }

    /** From a full claim to the return, with the deferred clean-up. */
    method RunClaimed(tr: TrackedIds, slot: bool, env: Env, ghost claimed: set<nat>)
      requires lease == None && registry.Valid() && SeparateIds()
      requires tr.Valid() && InStep(variantRepo.rows, tr.Ids(), claimed) && claimed == FirstIds(3)
      requires forall x :: x in claimed ==> x in tr.Ids()
      modifies this`lease, variantRepo, imageRepo, registry, tr`len, tr.backing
      ensures registry.Valid() && registry.tasks == old(registry.tasks)
      ensures Untouched(old(variantRepo.rows), variantRepo.rows, AllIds())
      ensures old(variantRepo.faults) + |Stuck(variantRepo.rows, claimed)| <= variantRepo.faults
      ensures variantRepo.faults == old(variantRepo.faults) ==>
        RanThrough(slot, env, variantRepo.rows, old(imageRepo.rows), imageRepo.rows, imageRepo.refused)
    {
      ghost var rows0, images0 := variantRepo.rows, imageRepo.rows;
      AllHeld(rows0, tr.Ids(), claimed);
      var panicked := RunLeased(tr, slot, env, claimed);
      ghost var rows1, images1 := variantRepo.rows, imageRepo.rows;
      Finalize(tr, panicked, claimed);
      UntouchedChain(rows0, rows1, variantRepo.rows, AllIds(), claimed, AllIds());
      if variantRepo.faults == old(variantRepo.faults) {
        FatesAtReturn(rows1, variantRepo.rows, slot, env, claimed);
        if panicked {
          ChangedThenSet(images0, images1, imageRepo.rows, imageID, ImgFailed);
        }
      }
    }

    /** Every row meets its fate, and the image its verdict. */
    ghost predicate RanThrough(slot: bool, env: Env, rows: Table, images0: Images, images: Images, refused: bool) {
      && Fates(rows, Intended(slot, env, Want()))
      && (!refused ==> StatusSet(images0, images, imageID, if slot then Verdict(env, Want()) else ImgFailed))
    }

    /** The deferred clean-up when the claims did not all succeed. */
    method GiveBack(tr: TrackedIds, panicked: bool, ghost claimed: set<nat>)
      requires tr.Valid() && InStep(variantRepo.rows, tr.Ids(), claimed) && forall x :: x in claimed ==> x in tr.Ids()
      modifies variantRepo, imageRepo
      ensures Untouched(old(variantRepo.rows), variantRepo.rows, claimed)
      ensures old(variantRepo.faults) + |Stuck(variantRepo.rows, claimed)| <= variantRepo.faults
      ensures variantRepo.faults == old(variantRepo.faults) ==> forall x :: x in claimed ==>
        LetGoIn(old(variantRepo.rows), variantRepo.rows, x, panicked)
      ensures !panicked ==> imageRepo.rows == old(imageRepo.rows)
      ensures panicked && !imageRepo.refused ==> StatusSet(old(imageRepo.rows), imageRepo.rows, imageID, ImgFailed)
    {
      assert forall x :: x in claimed ==> Hits(variantRepo.rows, x, Processing);
      Finalize(tr, panicked, claimed);
    }

    /** `Execute`.  `slot`: the semaphore was acquired before the deadline; `claimed`: the rows
        this call moved from pending to processing.  Id 0 stands for no row. */
    method Execute(slot: bool, env: Env) returns (ghost claimed: set<nat>)
      requires lease == None && registry.Valid()
      modifies this`lease, variantRepo, imageRepo, registry
      ensures registry.Valid() && registry.tasks == old(registry.tasks)
      ensures forall x :: x in claimed ==> Requested(x) && Hits(old(variantRepo.rows), x, Pending)
      ensures Untouched(old(variantRepo.rows), variantRepo.rows, claimed + {0})
      // a row is left processing only by a refused statement
      ensures old(variantRepo.faults) + |Stuck(variantRepo.rows, claimed)| <= variantRepo.faults
      // a lost claim: everything claimed so far goes back, the image is not touched
      ensures variantRepo.faults == old(variantRepo.faults) && ClaimOf(old(variantRepo.rows), env.claim) == NotOurs ==>
        && (forall x :: x in claimed ==> ReadyAgain(old(variantRepo.rows), variantRepo.rows, x))
        && imageRepo.rows == old(imageRepo.rows)
      // a claim that panics: everything claimed before it fails, and so does the image
      ensures variantRepo.faults == old(variantRepo.faults) && ClaimOf(old(variantRepo.rows), env.claim) == Blown ==>
        && claimed == FirstIds(env.claim.value)
        && (forall x :: x in claimed ==> FateOf(variantRepo.rows, x) == Broken)
        && (!imageRepo.refused ==> StatusSet(old(imageRepo.rows), imageRepo.rows, imageID, ImgFailed))
      // otherwise every row meets its fate, and the image its verdict
      ensures variantRepo.faults == old(variantRepo.faults) && ClaimOf(old(variantRepo.rows), env.claim) == Won ==>
        RanThrough(slot, env, variantRepo.rows, old(imageRepo.rows), imageRepo.rows, imageRepo.refused)
    {
      var tr := new TrackedIds();
      ghost var rows0 := variantRepo.rows;
      var claim;
      claim, claimed := ClaimAll(tr, env.claim);
      ghost var rows1 := variantRepo.rows;
      ghost var all := claimed + {0};
      if claim == Won {
        RunClaimed(tr, slot, env, claimed);
        UntouchedChain(rows0, rows1, variantRepo.rows, claimed, AllIds(), all);
      } else {
        GiveBack(tr, claim == Blown, claimed);
        GivenBackRows(rows0, rows1, variantRepo.rows, claimed);
        UntouchedChain(rows0, rows1, variantRepo.rows, claimed, claimed, all);
      }
    }

    lemma FatesAtReturn(before: Table, after: Table, slot: bool, env: Env, claimed: set<nat>)
      requires Covers(claimed)
      requires Fates(before, Leaving(slot, env, Want()))
      requires forall x :: x in claimed ==>
        FateOf(after, x) == AfterExit(FateOf(before, x), CutOff(slot, env, Want()))
      ensures Fates(after, Intended(slot, env, Want()))
    {
    }

    /** After a run of the pipeline that was not cut short nothing is left tracked. */
    lemma FullRunTracksNothing(rows: Table, ids: seq<nat>, claimed: set<nat>, env: Env)
      requires InStep(rows, ids, claimed) && claimed <= AllIds() - {0}
      requires Fates(rows, FinalFates(env, Want()))
      ensures ids == []
    {
      assert ids != [] ==> ids[0] in ids && FateOf(rows, ids[0]) == Held;
    }

    lemma AllHeld(rows: Table, ids: seq<nat>, claimed: set<nat>)
      requires InStep(rows, ids, claimed) && Covers(claimed) && forall x :: x in claimed ==> x in ids
      ensures Fates(rows, AllFates(Held))
    {
    }
  }

  /** How a claim ends: the row is ours, it is not, or the claim panicked. */
  datatype Claim = Won | NotOurs | Blown

  function FormatAt(k: nat): Format { if k == 0 then Thumb else if k == 1 then WebP else AVIF }

  ghost predicate CanClaim(rows: Table, id: nat, claimed: set<nat>) {
    id == 0 || (id !in claimed && Hits(rows, id, Pending))
  }

  /** The claimed rows still processing. */
  function Stuck(rows: Table, claimed: set<nat>): set<nat> {
    set x | x in claimed && Hits(rows, x, Processing)
  }

  /** A claim writes nothing but these three columns. */
  predicate ClaimedRow(before: Row, after: Row) {
    after == before.(status := Processing, nextRetryAt := None, updatedAt := after.updatedAt)
  }

  /** Nor does `finalize`, except for the message of a panic. */
  predicate LetGoRow(before: Row, after: Row, panicked: bool) {
    if panicked then
      after == before.(status := Failed, errorMessage := after.errorMessage, updatedAt := after.updatedAt)
    else after == before.(status := Pending, updatedAt := after.updatedAt)
  }

  predicate LetGoIn(before: Table, after: Table, id: nat, panicked: bool) {
    Hits(before, id, Processing) && id in after && LetGoRow(before[id], after[id], panicked)
  }

  /** The row is as it was before the task, pending and without a retry window to wait for. */
  predicate ReadyAgain(before: Table, after: Table, id: nat) {
    && Hits(before, id, Pending) && Hits(after, id, Pending) && after[id].nextRetryAt == None
    && after[id].imageID == before[id].imageID && after[id].format == before[id].format
    && after[id].artifact == before[id].artifact && after[id].errorMessage == before[id].errorMessage
    && after[id].retryCount == before[id].retryCount
  }

  predicate ClaimedIn(before: Table, after: Table, id: nat) {
    id in before && id in after && ClaimedRow(before[id], after[id])
  }

  /** Claimed and let go again. */
  lemma GivenBackRows(rows0: Table, rows1: Table, rows2: Table, claimed: set<nat>)
    requires forall x :: x in claimed ==> Hits(rows0, x, Pending) && ClaimedIn(rows0, rows1, x)
    ensures (forall x :: x in claimed ==> LetGoIn(rows1, rows2, x, false)) ==>
            forall x :: x in claimed ==> ReadyAgain(rows0, rows2, x)
    ensures (forall x :: x in claimed ==> LetGoIn(rows1, rows2, x, true)) ==>
            forall x :: x in claimed ==> FateOf(rows2, x) == Broken
  {
  }

  lemma OneMoreClaimed(rows0: Table, before: Table, after: Table, held: set<nat>, id: nat)
    requires Untouched(rows0, before, held) && forall x :: x in held ==> ClaimedIn(rows0, before, x)
    requires Hits(before, id, Pending) && Untouched(before, after, {id}) && ClaimedIn(before, after, id)
    ensures Untouched(rows0, after, held + {id}) && forall x :: x in held + {id} ==> ClaimedIn(rows0, after, x)
  {
    UntouchedChain(rows0, before, after, held, {id}, held + {id});
    UntouchedRows(rows0, before, held);
    UntouchedRows(before, after, {id});
  }

  lemma UntouchedRows(before: Table, after: Table, except: set<nat>)
    requires Untouched(before, after, except)
    ensures forall x :: x !in except ==> (x in before <==> x in after) && (x in before ==> before[x] == after[x])
  {
    forall x | x !in except ensures (x in before <==> x in after) && (x in before ==> before[x] == after[x]) {
      assert x in before <==> x in before - except;
      assert x in after <==> x in after - except;
      assert x in before - except ==> (before - except)[x] == (after - except)[x];
    }
  }

  /** The loop of `finalize` after `i` rounds; the statements about the rows in `lost` were refused. */
  ghost predicate Releasing(rows0: Table, rows: Table, ids: seq<nat>, i: nat, lost: set<nat>, panicked: bool) {
    && Untouched(rows0, rows, Elems(ids))
    && (forall k :: i <= k < |ids| ==> ids[k] in rows0 && ids[k] in rows && rows[ids[k]] == rows0[ids[k]])
    && (forall k :: 0 <= k < i <= |ids| && ids[k] !in lost ==> LetGoIn(rows0, rows, ids[k], panicked))
  }

  lemma OneMoreReleased(rows0: Table, before: Table, after: Table, ids: seq<nat>, i: nat, lost: set<nat>,
                        panicked: bool, went: bool)
    requires i < |ids| && Distinct(ids) && Releasing(rows0, before, ids, i, lost, panicked)
    requires Untouched(before, after, {ids[i]}) && (went ==> LetGoIn(before, after, ids[i], panicked))
    ensures Releasing(rows0, after, ids, i + 1, if went then lost else lost + {ids[i]}, panicked)
  {
    assert ids[i] in Elems(ids);
    UntouchedChain(rows0, before, after, Elems(ids), {ids[i]}, Elems(ids));
    UntouchedRows(before, after, {ids[i]});
  }

  lemma FinalizedFates(before: Table, after: Table, ids: seq<nat>, claimed: set<nat>, lost: set<nat>, panicked: bool)
    requires InStep(before, ids, claimed) && Releasing(before, after, ids, |ids|, lost, panicked)
    ensures Untouched(before, after, claimed)
    ensures |Stuck(after, claimed)| <= |lost|
    ensures lost == {} ==> forall x :: x in claimed ==> FateOf(after, x) == AfterExit(FateOf(before, x), panicked)
    ensures lost == {} ==> forall x :: x in ids ==> LetGoIn(before, after, x, panicked)
  {
    assert Elems(ids) <= claimed;
    UntouchedChain(before, after, after, Elems(ids), {}, claimed);
    UntouchedRows(before, after, Elems(ids));
    forall x | x in ids && x !in lost ensures LetGoIn(before, after, x, panicked) {
      var k :| 0 <= k < |ids| && ids[k] == x;
    }
    assert Stuck(after, claimed) <= lost;
    SubsetSize(Stuck(after, claimed), lost);
  }

  lemma SubsetSize(a: set<nat>, b: set<nat>)
    requires a <= b
    ensures |a| <= |b|
  {
    assert b == a + (b - a);
  }

  lemma StillPending(before: Table, after: Table, changed: set<nat>, id: nat)
    requires Untouched(before, after, changed)
    ensures id !in changed ==> Hits(after, id, Pending) == Hits(before, id, Pending)
  {
    assert id !in changed ==> (id in before <==> id in before - changed);
    assert id !in changed ==> (id in after <==> id in after - changed);
    assert id in before && id !in changed ==> (before - changed)[id] == (after - changed)[id];
  }

  lemma SameFates(before: Table, after: Table, id: nat)
    requires Untouched(before, after, {id})
    ensures forall k :: k != id ==> FateOf(after, k) == FateOf(before, k)
  {
    forall k | k != id ensures FateOf(after, k) == FateOf(before, k) {
      assert k in before <==> k in before - {id};
      assert k in after <==> k in after - {id};
      assert k in before - {id} ==> (before - {id})[k] == (after - {id})[k];
    }
  }

  ghost predicate StatusSet(before: Images, after: Images, id: nat, status: ImageStatus) {
    && (forall k :: k != id ==> (k in before <==> k in after) && (k in before ==> before[k] == after[k]))
    && (Live(before, id) ==> Live(after, id) && after[id].status == status)
    && (!Live(before, id) ==> after == before)
  }

  /** One fate for each format. */
  datatype Trio = Trio(thumb: Fate, webp: Fate, avif: Fate) {
    function At(f: Format): Fate {
      match f case Thumb => thumb case WebP => webp case AVIF => avif
    }

    function With(f: Format, now: Fate): Trio {
      match f case Thumb => this.(thumb := now) case WebP => this.(webp := now) case AVIF => this.(avif := now)
    }

    function Save(f: Format, result: Option<Artifact>): Trio { With(f, AfterSave(At(f), result)) }

    function Generate(f: Format, gen: Gen): Trio { With(f, AfterGen(At(f), gen)) }

    predicate Present() { thumb != Absent && webp != Absent && avif != Absent }
  }

  function AllFates(f: Fate): Trio { Trio(f, f, f) }

  /** The fates once everything is generated, when `runPipeline` is left, and at the end. */
  function MadeFates(env: Env, w: Wanted): Trio {
    Trio(BeforeSave(env, w, Thumb), BeforeSave(env, w, WebP), BeforeSave(env, w, AVIF))
  }

  function ExitFates(env: Env, w: Wanted): Trio {
    Trio(BeforeExit(env, w, Thumb), BeforeExit(env, w, WebP), BeforeExit(env, w, AVIF))
  }

  function FinalFates(env: Env, w: Wanted): Trio {
    Trio(FinalFate(env, w, Thumb), FinalFate(env, w, WebP), FinalFate(env, w, AVIF))
  }

  datatype Ended = Fine | Errored | Panicked

  /** How `runPipeline` is left. */
  function EndsAs(env: Env, w: Wanted): Ended {
    if CutShort(env, w) then Panicked else if Breaks(env, w) then Errored else Fine
  }

  /** At most the row of image `id` differs, and it keeps its place. */
  ghost predicate OnlyImage(before: Images, after: Images, id: nat) {
    && (forall k :: k != id ==> (k in before <==> k in after) && (k in before ==> before[k] == after[k]))
    && (Live(before, id) ==> Live(after, id))
    && (!Live(before, id) ==> after == before)
  }

  /** The end of the run panics before block `k`, or before an earlier one. */
  predicate CutBefore(cut: Option<nat>, k: nat) { cut.Some? && cut.value <= k }

  function Saved(cut: Option<nat>, k: nat, f: Fate, result: Option<Artifact>): Fate {
    if CutBefore(cut, k) then f else AfterSave(f, result)
  }

  /** The fates after `saveVariantResults`, when it panics at `cut`. */
  function SavedFates(cut: Option<nat>, fs: Trio, made: Results): Trio {
    Trio(Saved(cut, 0, fs.thumb, made.thumb), Saved(cut, 1, fs.webp, made.webp), Saved(cut, 2, fs.avif, made.avif))
  }

  lemma SavedInTurn(cut: Option<nat>, fs: Trio, made: Results)
    ensures var fs1 := fs.Save(Thumb, made.thumb);
      var fs2 := fs1.Save(WebP, made.webp);
      && (CutBefore(cut, 0) ==> SavedFates(cut, fs, made) == fs)
      && (!CutBefore(cut, 0) && CutBefore(cut, 1) ==> SavedFates(cut, fs, made) == fs1)
      && (!CutBefore(cut, 1) && CutBefore(cut, 2) ==> SavedFates(cut, fs, made) == fs2)
      && (!CutBefore(cut, 2) ==> SavedFates(cut, fs, made) == fs2.Save(AVIF, made.avif))
      && fs1.webp == fs.webp && fs2.avif == fs.avif
  {
  }

  /** The status `runPipeline` writes when nothing failed. */
  function Classified(env: Env, w: Wanted): ImageStatus {
    ResolveImageVariantStatus(w.thumb, w.webp, w.avif,
                              w.thumb && env.thumb.GenMade?, w.webp && env.webp.GenMade?, w.avif && env.avif.GenMade?,
                              w.thumb && env.thumb.GenSkip?, w.webp && env.webp.GenSkip?, w.avif && env.avif.GenSkip?)
  }

  datatype Results = Results(thumb: Option<Artifact>, webp: Option<Artifact>, avif: Option<Artifact>,
                             thumbSkipped: bool, webpSkipped: bool, avifSkipped: bool)

  function ResultOf(wanted: bool, gen: Gen): Option<Artifact> {
    if wanted && gen.GenMade? then Some(gen.a) else None
  }

  function ResultsOf(env: Env, w: Wanted): Results {
    Results(ResultOf(w.thumb, env.thumb), ResultOf(w.webp, env.webp), ResultOf(w.avif, env.avif),
            w.thumb && env.thumb.GenSkip?, w.webp && env.webp.GenSkip?, w.avif && env.avif.GenSkip?)
  }

  /** The row's fate once the generators are through, or one panicked; nothing is saved yet. */
  function BeforeSave(env: Env, w: Wanted, f: Format): Fate {
    if Started(env, w, f) && GenOf(env, f) == GenSkip then Skipped
    else if Started(env, w, f) && GenOf(env, f) == GenErr then Broken
    else if f != Thumb && LoadReached(env, w) && env.load == PrepErr then Broken
    else Held
  }

  /** The fates of the claimed rows before `finalize`, and when `Execute` returns. */
  function Leaving(slot: bool, env: Env, w: Wanted): Trio {
    if slot then ExitFates(env, w) else GivenUp(env.giveUp)
  }

  /** The fates when a run without a slot panics at `cut`, and whether a run panics at all. */
  function GivenUp(cut: Option<nat>): Trio {
    Trio(if CutBefore(cut, 0) then Held else Broken, if CutBefore(cut, 1) then Held else Broken,
         if CutBefore(cut, 2) then Held else Broken)
  }

  predicate CutOff(slot: bool, env: Env, w: Wanted) { if slot then CutShort(env, w) else env.giveUp.Some? }

  function Intended(slot: bool, env: Env, w: Wanted): Trio {
    if slot then FinalFates(env, w) else AllFates(Broken)
  }

  /** The code's classification agrees with the verdict read off the rows' final fates. */
  lemma VerdictIsClassified(env: Env, w: Wanted)
    ensures Verdict(env, w) == if ImageBreaks(env, w) then ImgFailed else Classified(env, w)
  {
  }

  lemma TouchKeepsFates(t: Table, ids: set<nat>, now: int, all: set<nat>)
    requires ids <= all
    ensures Untouched(t, Touch(t, ids, now), all)
    ensures forall id :: FateOf(Touch(t, ids, now), id) == FateOf(t, id)
    ensures forall id, status :: Hits(Touch(t, ids, now), id, status) == Hits(t, id, status)
  {
  }

  lemma ChangedThenSet(before: Images, mid: Images, after: Images, id: nat, status: ImageStatus)
    requires OnlyImage(before, mid, id)
    ensures StatusSet(mid, after, id, status) ==> StatusSet(before, after, id, status)
  {
  }

  lemma OnlyImageChain(before: Images, mid: Images, after: Images, id: nat)
    requires OnlyImage(before, mid, id)
    ensures OnlyImage(mid, after, id) ==> OnlyImage(before, after, id)
  {
  }

  predicate ConversionPanics(env: Env, w: Wanted) {
    (w.webp && env.webp == GenPanic) || (w.avif && env.avif == GenPanic)
  }

  /** `BeforeSave`, read off the order in which the generators run. */
  lemma BeforeSaveCases(env: Env, w: Wanted)
    requires env.fetch == PrepOk
    ensures var loaded := if env.load == PrepErr then Broken else Held;
      var cut := w.thumb && env.thumb == GenPanic;
      && (w.thumb ==> BeforeSave(env, w, Thumb) == AfterGen(Held, env.thumb))
      && (w.webp && cut ==> BeforeSave(env, w, WebP) == Held)
      && (w.avif && cut ==> BeforeSave(env, w, AVIF) == Held)
      && (w.webp && !cut && env.load == PrepPanic ==> BeforeSave(env, w, WebP) == Held)
      && (w.avif && !cut && env.load == PrepPanic ==> BeforeSave(env, w, AVIF) == Held)
      && (w.webp && !cut && env.load != PrepPanic ==> BeforeSave(env, w, WebP) == AfterGen(loaded, env.webp))
      && (w.avif && !cut && env.load != PrepPanic ==>
            BeforeSave(env, w, AVIF) == if w.webp && env.webp == GenPanic then loaded else AfterGen(loaded, env.avif))
      && (Panics(env, w) <==> cut || (NeedsLoad(w) && (env.load == PrepPanic || ConversionPanics(env, w))))
  {
  }

  /** Saving turns the fates before it into those at the exit, and what cannot be stored belongs
      to a run that failed anyway. */
  lemma SaveCases(env: Env, w: Wanted)
    requires env.fetch == PrepOk && !Panics(env, w)
    ensures var made := ResultsOf(env, w);
      var any := made.thumb.Some? || made.webp.Some? || made.avif.Some?;
      && (SaveCut(env, w) <==> any && CutBefore(env.save, 2))
      && (w.thumb && any ==> Saved(env.save, 0, BeforeSave(env, w, Thumb), made.thumb) == BeforeExit(env, w, Thumb))
      && (w.webp && any ==> Saved(env.save, 1, BeforeSave(env, w, WebP), made.webp) == BeforeExit(env, w, WebP))
      && (w.avif && any ==> Saved(env.save, 2, BeforeSave(env, w, AVIF), made.avif) == BeforeExit(env, w, AVIF))
      && (w.thumb && !any ==> BeforeSave(env, w, Thumb) == BeforeExit(env, w, Thumb))
      && (w.webp && !any ==> BeforeSave(env, w, WebP) == BeforeExit(env, w, WebP))
      && (w.avif && !any ==> BeforeSave(env, w, AVIF) == BeforeExit(env, w, AVIF))
    ensures w.thumb && env.thumb.GenMade? && BeforeSave(env, w, Thumb) != Held ==> Breaks(env, w)
    ensures w.webp && env.webp.GenMade? && BeforeSave(env, w, WebP) != Held ==> Breaks(env, w)
    ensures w.avif && env.avif.GenMade? && BeforeSave(env, w, AVIF) != Held ==> Breaks(env, w)
  {
  }

  /** The row's fate when `runPipeline` is left, before `finalize` fails what a panic left held. */
  function BeforeExit(env: Env, w: Wanted, f: Format): Fate {
    if Panics(env, w) || Lost(env, w, f) then BeforeSave(env, w, f) else FinalFate(env, w, f)
  }

  predicate LoadReached(env: Env, w: Wanted) {
    env.fetch == PrepOk && !(w.thumb && env.thumb == GenPanic) && NeedsLoad(w)
  }

  function AfterFailing(f: Fate): Fate {
    if f == Held then Broken else f
  }

  function AfterGen(f: Fate, gen: Gen): Fate {
    match gen
    case GenErr => AfterFailing(f)
    case GenSkip => Skipped
    case _ => f
  }

  /** `finalize` moves only what is still held. */
  function AfterExit(f: Fate, panicked: bool): Fate {
    if f != Held then f else if panicked then Broken else Back
  }

  function AfterSave(f: Fate, result: Option<Artifact>): Fate {
    if f == Held && result.Some? then Done(result.value) else f
  }

  ghost predicate CannotStore(rows: Table, id: nat, result: Option<Artifact>) {
    id != 0 && result.Some? && FateOf(rows, id) != Held
  }
}
