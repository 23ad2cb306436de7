/** One pass of the sweeper over variants and images. */
module Sweep {
  import opened VariantTable
  import opened VariantRepo
  import opened ImageRepo

  // ---------- the two image updates ----------

  function Swept(t: Images, variants: Table, cutoff: int, exclude: set<nat>, now: int): Images {
    ResetStaleToNone(MarkStaleFailed(t, variants, cutoff, exclude, now), variants, cutoff, exclude, now)
  }

  /** The partition: a stale image with no processing row that was not re-triggered becomes
      failed if it has a failed row and none otherwise; every other image is left as it was. */
  lemma SweepPartition(t: Images, variants: Table, cutoff: int, exclude: set<nat>, now: int, id: nat)
    requires id in t
    ensures id in Swept(t, variants, cutoff, exclude, now)
    ensures var after := Swept(t, variants, cutoff, exclude, now)[id];
      if StaleImage(t, variants, id, cutoff, exclude) then
        after == t[id].(status := if HasVariant(variants, id, Failed) then ImgFailed else ImgNone, updatedAt := now)
      else after == t[id]
  {
  }

  /** Why the order matters: the other way round no image is ever marked failed. */
  lemma SwappedOrderLosesFailed(t: Images, variants: Table, cutoff: int, exclude: set<nat>, now: int)
    ensures var reset := ResetStaleToNone(t, variants, cutoff, exclude, now);
      MarkStaleFailed(reset, variants, cutoff, exclude, now) == reset
  {
    var reset := ResetStaleToNone(t, variants, cutoff, exclude, now);
    forall id | id in reset ensures !StaleAndFailed(reset, variants, id, cutoff, exclude) {
      assert Live(reset, id) <==> Live(t, id);
    }
  }

  // ---------- after a complete recovery ----------

  /** Live stale rows of an image that no longer have retries left. */
  predicate GivesUp(t: Table, imageID: nat, cutoff: int, maxRetries: int) {
    exists v :: v in t && t[v].imageID == imageID && Stale(t[v], cutoff) && ExceedsRetries(t[v].retryCount, maxRetries)
  }

  /** A processing row the recovery does not touch: a fresh one, or a tombstone. */
  predicate StillProcessing(t: Table, imageID: nat, cutoff: int) {
    exists v :: v in t && t[v].imageID == imageID && t[v].status == Processing && !Stale(t[v], cutoff)
  }

  function Retried(t: Table, cutoff: int, maxRetries: int): set<nat> {
    ImagesOf(t, ResetIds(t, StaleIds(t, cutoff), maxRetries))
  }

  /** What the EXISTS subqueries see after the recovery, in terms of the table before it. */
  lemma RecoveredRows(t: Table, imageID: nat, cutoff: int, maxRetries: int, now: int)
    requires imageID !in Retried(t, cutoff, maxRetries)
    ensures var after := RecoverSet(t, StaleIds(t, cutoff), maxRetries, now);
      && (HasVariant(after, imageID, Processing) <==> StillProcessing(t, imageID, cutoff))
      && (HasVariant(after, imageID, Failed) <==>
            (HasVariant(t, imageID, Failed) || GivesUp(t, imageID, cutoff, maxRetries)))
  {
    var stale := StaleIds(t, cutoff);
    var after := RecoverSet(t, stale, maxRetries, now);
    forall v | v in t && t[v].imageID == imageID
      ensures after[v].imageID == imageID
      ensures after[v].status == if Stale(t[v], cutoff) then Failed else t[v].status
      ensures Stale(t[v], cutoff) ==> ExceedsRetries(t[v].retryCount, maxRetries)
    {
      assert Stale(t[v], cutoff) && !ExceedsRetries(t[v].retryCount, maxRetries) ==>
        v in ResetIds(t, stale, maxRetries);
    }
    forall v | v in after ensures after[v].imageID == t[v].imageID {}
  }

  /** The fault-free sweep, from the tables before it: what happens to an image that is not
      re-triggered.  `variantCutoff` and `imageCutoff` are the two clock readings' cutoffs. */
  lemma SweepVerdict(images: Images, t: Table, variantCutoff: int, imageCutoff: int, maxRetries: int, now: int, id: nat)
    requires Live(images, id) && id !in Retried(t, variantCutoff, maxRetries)
    ensures var after := Swept(images, RecoverSet(t, StaleIds(t, variantCutoff), maxRetries, now), imageCutoff,
                               Retried(t, variantCutoff, maxRetries), now);
      id in after
      && (images[id].status != ImgProcessing || images[id].updatedAt >= imageCutoff
          || StillProcessing(t, id, variantCutoff)
          ==> after[id] == images[id])
      && (images[id].status == ImgProcessing && images[id].updatedAt < imageCutoff
          && !StillProcessing(t, id, variantCutoff)
          ==> after[id].status ==
                if HasVariant(t, id, Failed) || GivesUp(t, id, variantCutoff, maxRetries) then ImgFailed
                                  else ImgNone)
  {
    RecoveredRows(t, id, variantCutoff, maxRetries, now);
    SweepPartition(images, RecoverSet(t, StaleIds(t, variantCutoff), maxRetries, now), imageCutoff,
                   Retried(t, variantCutoff, maxRetries), now, id);
  }

  /** A skipped variant's tombstone keeps status processing, and tombstones never change: for
      the rest of any run no sweep touches that image's status again. */
  lemma TombstoneShieldsImage(r: Run, i: nat, j: nat, v: nat, images: Images, id: nat, cutoff: int,
                            exclude: set<nat>, now: int)
    requires ValidRun(r) && i <= j < |r.tables|
    requires v in r.tables[i] && r.tables[i][v].deleted && r.tables[i][v].status == Processing
    requires id == r.tables[i][v].imageID && id in images
    ensures id in Swept(images, r.tables[j], cutoff, exclude, now)
    ensures Swept(images, r.tables[j], cutoff, exclude, now)[id] == images[id]
  {
    FailedForever(r, i, j, v);
    assert HasVariant(r.tables[j], id, Processing);
    SweepPartition(images, r.tables[j], cutoff, exclude, now, id);
  }

  // ---------- the pass ----------

  /** The tables agree on everything but the rows of some images. */
  predicate SameVariantsOutside(a: Table, b: Table, images: set<nat>) {
    && (forall v :: v in a && a[v].imageID !in images ==> v in b && b[v] == a[v])
    && (forall v :: v in b && b[v].imageID !in images ==> v in a && a[v] == b[v])
  }

  /** The image updates that went through: a refused one is logged and the other still runs. */
  function SweptPartly(t: Images, variants: Table, cutoff: int, exclude: set<nat>, now: int, marked: bool,
                       reset: bool): Images {
    var t' := if marked then MarkStaleFailed(t, variants, cutoff, exclude, now) else t;
    if reset then ResetStaleToNone(t', variants, cutoff, exclude, now) else t'
  }

  predicate SameImagesOutside(a: Images, b: Images, ids: set<nat>) {
    a - ids == b - ids
  }

  function StaleSet(t: Images, variants: Table, cutoff: int, exclude: set<nat>): set<nat> {
    set id | id in t && StaleImage(t, variants, id, cutoff, exclude)
  }

  function FailedSet(t: Images, variants: Table, cutoff: int, exclude: set<nat>): set<nat> {
    set id | id in t && StaleAndFailed(t, variants, id, cutoff, exclude)
  }

  /** The two row counts, from the tables before the triggers. */
  lemma CountsSameOutside(t: Images, t': Images, variants: Table, variants': Table, cutoff: int, exclude: set<nat>,
                          now: int)
    requires t - exclude == t' - exclude && SameVariantsOutside(variants, variants', exclude)
    ensures FailedSet(t', variants', cutoff, exclude) == FailedSet(t, variants, cutoff, exclude)
    ensures StaleSet(MarkStaleFailed(t', variants', cutoff, exclude, now), variants', cutoff, exclude)
         == StaleSet(t, variants, cutoff, exclude) - FailedSet(t, variants, cutoff, exclude)
    ensures FailedSet(t, variants, cutoff, exclude) <= StaleSet(t, variants, cutoff, exclude)
  {
    forall id | id !in exclude
      ensures id in t <==> id in t'
      ensures id in t ==> t[id] == t'[id]
      ensures forall status :: HasVariant(variants, id, status) <==> HasVariant(variants', id, status)
    {
      assert id in t <==> id in t - exclude;
      assert id in t' <==> id in t' - exclude;
      assert id in t - exclude ==> (t - exclude)[id] == (t' - exclude)[id];
    }
  }

  /** Triggers change only excluded images, so the two updates cannot tell. */
  lemma SweptSameOutside(t: Images, t': Images, variants: Table, variants': Table, cutoff: int, exclude: set<nat>,
                         now: int,
                         marked: bool, reset: bool)
    requires t - exclude == t' - exclude && SameVariantsOutside(variants, variants', exclude)
    ensures SameImagesOutside(SweptPartly(t', variants', cutoff, exclude, now, marked, reset),
                              SweptPartly(t, variants, cutoff, exclude, now, marked, reset), exclude)
  {
    forall id | id !in exclude
      ensures id in t <==> id in t'
      ensures id in t ==> t[id] == t'[id]
      ensures forall status :: HasVariant(variants, id, status) <==> HasVariant(variants', id, status)
    {
      assert id in t <==> id in t - exclude;
      assert id in t' <==> id in t' - exclude;
      assert id in t - exclude ==> (t - exclude)[id] == (t' - exclude)[id];
    }
  }

  function Fetched(retried: seq<nat>, missing: set<nat>): seq<nat> {
    if retried == [] then []
    else
      var rest, last := Fetched(retried[..|retried| - 1], missing), retried[|retried| - 1];
      if last in missing then rest else rest + [last]
  }

  lemma {:induction false} FetchedElems(retried: seq<nat>, missing: set<nat>)
    ensures Elems(Fetched(retried, missing)) == Elems(retried) - missing
  {
    if retried != [] {
      var front, last := retried[..|retried| - 1], retried[|retried| - 1];
      FetchedElems(front, missing);
      assert retried == front + [last];
      ElemsSnoc(front, last);
      ElemsSnoc(Fetched(front, missing), last);
    }
  }

  /** What the sweep has counted. */
  datatype Counts = Counts(resetVariants: nat, failedVariants: nat, retriggered: nat,
                           failedImages: nat, resetImages: nat)

  class Sweeper {
    const variantRepo: VariantRepository
    const imageRepo: ImageRepository
    var triggered: seq<nat>   // the images re-submitted, in order

    constructor (variantRepo: VariantRepository, imageRepo: ImageRepository)
      ensures this.variantRepo == variantRepo && this.imageRepo == imageRepo && triggered == []
    {
      this.variantRepo, this.imageRepo, triggered := variantRepo, imageRepo, [];
    }

    /** Re-submitting an image may rewrite its own row and its own variant rows, nothing else. */
    method Trigger(imageID: nat)
      modifies variantRepo`rows, imageRepo`rows, this`triggered
      ensures triggered == old(triggered) + [imageID]
      ensures SameVariantsOutside(old(variantRepo.rows), variantRepo.rows, {imageID})
      ensures imageRepo.rows - {imageID} == old(imageRepo.rows) - {imageID}
    {
      assert SameVariantsOutside(variantRepo.rows, variantRepo.rows, {imageID});
      var variants: Table :| SameVariantsOutside(variantRepo.rows, variants, {imageID});
      var images: Images :| images - {imageID} == imageRepo.rows - {imageID};
      variantRepo.rows := variants;
      imageRepo.rows := images;
      triggered := triggered + [imageID];
    }

    /** An image that cannot be fetched, one in `missing`, is skipped, but stays in the exclude
        list; all others are re-submitted in order. */
    method TriggerAll(retried: seq<nat>, missing: set<nat>) returns (retriggered: nat)
      modifies variantRepo`rows, imageRepo`rows, this`triggered
      ensures SameVariantsOutside(old(variantRepo.rows), variantRepo.rows, Elems(retried))
      ensures imageRepo.rows - Elems(retried) == old(imageRepo.rows) - Elems(retried)
      ensures triggered == old(triggered) + Fetched(retried, missing) && retriggered == |Fetched(retried, missing)|
    {
      retriggered := 0;
      var i := 0;
      while i < |retried|
        invariant i <= |retried| && retriggered == |Fetched(retried[..i], missing)|
        invariant triggered == old(triggered) + Fetched(retried[..i], missing)
        invariant SameVariantsOutside(old(variantRepo.rows), variantRepo.rows, Elems(retried))
        invariant imageRepo.rows - Elems(retried) == old(imageRepo.rows) - Elems(retried)
      {
        assert retried[..i + 1][..i] == retried[..i];
        if retried[i] !in missing {
          ghost var before := imageRepo.rows;
          Trigger(retried[i]);
          WiderOutside(before, imageRepo.rows, retried[i], Elems(retried));
          retriggered := retriggered + 1;
        }
        i := i + 1;
      }
      assert retried[..i] == retried;
    }

    /** Afterwards every image outside `retried` is as the partition says, from the tables at
        the start, whatever the triggers did to the retried ones; `retried` are the images with
        a row sent back.  A failed recovery leaves the images alone. */
    method SweepOnce(start: int, now: int, hasTrigger: bool, missing: set<nat>)
      returns (counts: Counts, recovered: bool, marked: bool, reset: bool, ghost retried: set<nat>)
      modifies variantRepo, imageRepo, this`triggered
      ensures variantRepo.faults == old(variantRepo.faults) && !imageRepo.refused ==> recovered && marked && reset
      ensures recovered && hasTrigger ==>
        |triggered| == |old(triggered)| + counts.retriggered && old(triggered) <= triggered
      ensures recovered && hasTrigger ==> Elems(triggered[|old(triggered)|..]) == retried - missing
      ensures !recovered ==> imageRepo.rows == old(imageRepo.rows) && !marked && !reset
      ensures recovered ==> retried == Retried(old(variantRepo.rows), now - STALE_THRESHOLD, STALE_MAX_RETRIES)
      // only an image with a row stuck in processing and a retry left is re-triggered or excluded
      ensures recovered ==> forall imageID ::
        (imageID in retried <==> ImageDue(old(variantRepo.rows), imageID, now - 15 * MINUTE, 3))
      ensures recovered ==> (
          counts.resetVariants + counts.failedVariants ==
          |set id | id in old(variantRepo.rows) && !old(variantRepo.rows)[id].deleted
                    && old(variantRepo.rows)[id].status == Processing
                    && old(variantRepo.rows)[id].updatedAt < now - 15 * MINUTE|)
      ensures recovered ==> SameImagesOutside(imageRepo.rows,
          SweptPartly(old(imageRepo.rows), Recovered(old(variantRepo.rows), now), start - STALE_THRESHOLD, retried, now,
                      marked, reset), retried)
      ensures recovered ==> counts.resetVariants + counts.failedVariants ==
                            |StaleIds(old(variantRepo.rows), now - STALE_THRESHOLD)|
      ensures recovered && marked && reset ==> (
          counts.failedImages + counts.resetImages ==
          |StaleSet(old(imageRepo.rows), Recovered(old(variantRepo.rows), now), start - STALE_THRESHOLD, retried)|)
      ensures recovered && marked ==> (
          counts.failedImages ==
          |FailedSet(old(imageRepo.rows), Recovered(old(variantRepo.rows), now), start - STALE_THRESHOLD, retried)|)
      ensures recovered ==>
        SameVariantsOutside(Recovered(old(variantRepo.rows), now), variantRepo.rows, retried)
    {
      counts := Counts(0, 0, 0, 0, 0);
      marked, reset, retried := false, false, {};
      var resetVariants, failedVariants, retriedIDs, err, done :=
        variantRepo.RecoverStaleProcessing(now - STALE_THRESHOLD, now, STALE_MAX_RETRIES);
      recovered := !err;
      if err {
        return;
      }
      retried := Elems(retriedIDs);
      counts := counts.(resetVariants := resetVariants, failedVariants := failedVariants);
      ghost var images, variants := imageRepo.rows, variantRepo.rows;
      if hasTrigger {
        var retriggered := TriggerAll(retriedIDs, missing);
        FetchedElems(retriedIDs, missing);
        counts := counts.(retriggered := retriggered);
      }
      ghost var images', variants' := imageRepo.rows, variantRepo.rows;
      var failedImages, markErr :=
        imageRepo.MarkStaleProcessingAsFailed(variantRepo.rows, start - STALE_THRESHOLD, retriedIDs, now);
      var resetImages, resetErr :=
        imageRepo.ResetStaleProcessingToNone(variantRepo.rows, start - STALE_THRESHOLD, retriedIDs, now);
      marked, reset := !markErr, !resetErr;
      counts := counts.(failedImages := failedImages, resetImages := resetImages);
      CountsSameOutside(images, images', variants, variants', start - STALE_THRESHOLD, retried, now);
      SweptSameOutside(images, images', variants, variants', start - STALE_THRESHOLD, retried, now, marked, reset);
    }
  }

  function Recovered(t: Table, now: int): Table {
    RecoverSet(t, StaleIds(t, now - STALE_THRESHOLD), STALE_MAX_RETRIES, now)
  }

  lemma WiderOutside(a: Images, b: Images, id: nat, ids: set<nat>)
    requires a - {id} == b - {id} && id in ids
    ensures a - ids == b - ids
  {
    assert a - ids == (a - {id}) - ids;
    assert b - ids == (b - {id}) - ids;
  }

  /** When the first update is refused and the second is not, images that should surface as
      failed go back to none. */
  lemma RefusedMarkLosesFailed(t: Images, variants: Table, cutoff: int, exclude: set<nat>, now: int, id: nat)
    requires id in t && StaleAndFailed(t, variants, id, cutoff, exclude)
    ensures SweptPartly(t, variants, cutoff, exclude, now, false, true)[id].status == ImgNone
    ensures SweptPartly(t, variants, cutoff, exclude, now, true, true)[id].status == ImgFailed
  {
  }
}
