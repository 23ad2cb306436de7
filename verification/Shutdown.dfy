/** The rollback of in-flight work when the worker pool does not drain before the shutdown deadline. */
module Shutdown {
  import opened Options
  import opened VariantTable
  import opened VariantRepo
  import opened ImageRepo
  import opened Tracking
  import opened InFlight

  /** The id lists held by the snapshots that the in-flight registry hands out. */
  ghost function Lists(snapshots: seq<Snapshot>): (lists: seq<seq<nat>>)
    reads set i | 0 <= i < |snapshots| :: snapshots[i].variantIDs
    ensures |lists| == |snapshots|
    ensures forall i :: 0 <= i < |snapshots| ==> lists[i] == snapshots[i].variantIDs[..]
  {
    if |snapshots| == 0 then []
    else Lists(snapshots[..|snapshots| - 1]) + [snapshots[|snapshots| - 1].variantIDs[..]]
  }

  function AllOf(lists: seq<seq<nat>>): set<nat> {
    set i, x | 0 <= i < |lists| && x in lists[i] :: x
  }

  function ImageIDs(snapshots: seq<Snapshot>): set<nat> {
    set i | 0 <= i < |snapshots| :: snapshots[i].imageID
  }

  lemma AllOfOneMore(lists: seq<seq<nat>>, i: nat)
    requires i < |lists|
    ensures AllOf(lists[..i + 1]) == AllOf(lists[..i]) + Elems(lists[i])
  {
    var before, after := lists[..i], lists[..i + 1];
    assert after == before + [lists[i]];
    forall x | x in AllOf(before) + Elems(lists[i]) ensures x in AllOf(after) {
      if x in AllOf(before) {
        var k :| 0 <= k < |before| && x in before[k];
        assert x in after[k];
      } else {
        assert x in after[i];
      }
    }
  }

  lemma ImageIDsOneMore(snapshots: seq<Snapshot>, i: nat)
    requires i < |snapshots|
    ensures ImageIDs(snapshots[..i + 1]) == ImageIDs(snapshots[..i]) + {snapshots[i].imageID}
  {
    var before, after := snapshots[..i], snapshots[..i + 1];
    assert after == before + [snapshots[i]];
    forall x | x in ImageIDs(before) + {snapshots[i].imageID} ensures x in ImageIDs(after) {
      if x in ImageIDs(before) {
        var k :| 0 <= k < |before| && x == before[k].imageID;
        assert x == after[k].imageID;
      } else {
        assert x == after[i].imageID;
      }
    }
  }

  lemma DistinctSnoc(ids: seq<nat>, x: nat)
    requires Distinct(ids) && x !in Elems(ids)
    ensures Distinct(ids + [x]) && Elems(ids + [x]) == Elems(ids) + {x}
  {
    assert forall k :: 0 <= k < |ids| ==> ids[k] in Elems(ids);
    ElemsSnoc(ids, x);
  }

  /** The inner loop: appends the ids of one snapshot that were not seen yet. */
  method CollectVariants(ids: array<nat>, variantIDs0: seq<nat>, seen0: set<nat>)
    returns (variantIDs: seq<nat>, seen: set<nat>)
    requires Distinct(variantIDs0) && Elems(variantIDs0) == seen0 && 0 !in seen0
    ensures Distinct(variantIDs) && Elems(variantIDs) == seen && variantIDs0 <= variantIDs
    ensures seen == seen0 + (Elems(ids[..]) - {0})
  {
    variantIDs, seen := variantIDs0, seen0;
    var j := 0;
    while j < ids.Length
      invariant j <= ids.Length && variantIDs0 <= variantIDs
      invariant Distinct(variantIDs) && Elems(variantIDs) == seen
      invariant seen == seen0 + (Elems(ids[..j]) - {0})
    {
      assert Elems(ids[..j + 1]) == Elems(ids[..j]) + {ids[j]} by {
        assert ids[..j + 1] == ids[..j] + [ids[j]];
      }
      if ids[j] != 0 && ids[j] !in seen {
        DistinctSnoc(variantIDs, ids[j]);
        seen := seen + {ids[j]};
        variantIDs := variantIDs + [ids[j]];
      }
      j := j + 1;
    }
    assert ids[..ids.Length] == ids[..];
  }

  /** Both loops: the ids passed on are free of duplicates and are the union of the snapshots
      without the zero id. */
  method Collect(snapshots: seq<Snapshot>) returns (variantIDs: seq<nat>, imageIDs: seq<nat>)
    ensures Distinct(variantIDs) && Elems(variantIDs) == AllOf(Lists(snapshots)) - {0}
    ensures Distinct(imageIDs) && Elems(imageIDs) == ImageIDs(snapshots) - {0}
  {
    variantIDs, imageIDs := [], [];
    var seenVariants: set<nat>, seenImages: set<nat> := {}, {};
    ghost var lists := Lists(snapshots);
    var i := 0;
    while i < |snapshots|
      invariant i <= |snapshots|
      invariant Distinct(variantIDs) && Elems(variantIDs) == seenVariants == AllOf(lists[..i]) - {0}
      invariant Distinct(imageIDs) && Elems(imageIDs) == seenImages == ImageIDs(snapshots[..i]) - {0}
    {
      var snapshot := snapshots[i];
      AllOfOneMore(lists, i);
      ImageIDsOneMore(snapshots, i);
      if snapshot.imageID > 0 && snapshot.imageID !in seenImages {
        DistinctSnoc(imageIDs, snapshot.imageID);
        seenImages := seenImages + {snapshot.imageID};
        imageIDs := imageIDs + [snapshot.imageID];
      }
      variantIDs, seenVariants := CollectVariants(snapshot.variantIDs, variantIDs, seenVariants);
      i := i + 1;
    }
    assert lists[..|snapshots|] == lists == Lists(snapshots) && snapshots[..|snapshots|] == snapshots;
  }

  /** The variants first, the images only if that went through. */
  method ResetVariantWorkSnapshots(variantRepo: VariantRepository, imageRepo: ImageRepository,
                                   snapshots: seq<Snapshot>, now: int)
    returns (err: bool)
    modifies variantRepo, imageRepo
    ensures err ==> variantRepo.faults == old(variantRepo.faults) + 1 || imageRepo.refused
    ensures !err ==> variantRepo.rows == ResetToPending(old(variantRepo.rows), AllOf(old(Lists(snapshots))) - {0}, now)
    ensures !err ==> imageRepo.rows == ResetProcessing(old(imageRepo.rows), ImageIDs(snapshots) - {0}, ImgNone, now)
    ensures err ==> imageRepo.rows == old(imageRepo.rows)
    ensures err ==>
      || variantRepo.rows == old(variantRepo.rows)
      || variantRepo.rows == ResetToPending(old(variantRepo.rows), AllOf(old(Lists(snapshots))) - {0}, now)
  {
    if |snapshots| == 0 {
      assert AllOf(Lists(snapshots)) == {} && ImageIDs(snapshots) == {};
      return false;
    }
    var variantIDs, imageIDs := Collect(snapshots);
    var _, variantErr := variantRepo.ResetVariantsToPending(variantIDs, now);
    if variantErr {
      return true;
    }
    err := imageRepo.ResetProcessingVariantStatus(imageIDs, ImgNone, now);
  }

  /** The variants and the images the running tasks are registered with. */
  ghost function Registered(registry: InFlightRegistry): set<nat>
    reads registry, set lease | lease in registry.tasks :: registry.tasks[lease].variantIDs
  {
    set lease, x | lease in registry.tasks && x in registry.tasks[lease].variantIDs[..] :: x
  }

  ghost function RegisteredImages(registry: InFlightRegistry): set<nat> reads registry {
    set lease | lease in registry.tasks :: registry.tasks[lease].imageID
  }

  /** The snapshots hold what the registry holds, in whatever order they were taken. */
  lemma SnapshotsHoldTheRegistry(registry: InFlightRegistry, snapshots: seq<Snapshot>, order: seq<nat>)
    requires |snapshots| == |order| && Elems(order) == registry.tasks.Keys
    requires forall i :: 0 <= i < |snapshots| ==>
      order[i] in registry.tasks && SameContents(snapshots[i], registry.tasks[order[i]])
    ensures AllOf(Lists(snapshots)) == Registered(registry)
    ensures ImageIDs(snapshots) == RegisteredImages(registry)
  {
    var lists := Lists(snapshots);
    forall x | x in AllOf(lists) ensures x in Registered(registry) {
      var i :| 0 <= i < |lists| && x in lists[i];
      assert x in registry.tasks[order[i]].variantIDs[..];
    }
    forall lease | lease in registry.tasks
      ensures registry.tasks[lease].imageID in ImageIDs(snapshots)
      ensures Elems(registry.tasks[lease].variantIDs[..]) <= AllOf(lists)
    {
      assert lease in Elems(order);
      var i :| 0 <= i < |order| && order[i] == lease;
      assert lists[i] == registry.tasks[lease].variantIDs[..];
    }
    forall x | x in Registered(registry) ensures x in AllOf(lists) {
      var lease :| lease in registry.tasks && x in registry.tasks[lease].variantIDs[..];
      assert x in Elems(registry.tasks[lease].variantIDs[..]);
    }
  }

  /** `resetInFlightVariantWork`: exactly what running tasks are registered with is rolled back. */
  method ResetInFlightVariantWork(registry: InFlightRegistry, variantRepo: VariantRepository,
                                  imageRepo: ImageRepository, now: int)
    returns (err: bool)
    requires registry.Valid()
    modifies variantRepo, imageRepo
    ensures !err ==>
      && variantRepo.rows == ResetToPending(old(variantRepo.rows), old(Registered(registry)) - {0}, now)
      && imageRepo.rows == ResetProcessing(old(imageRepo.rows), RegisteredImages(registry) - {0}, ImgNone, now)
    ensures err ==> imageRepo.rows == old(imageRepo.rows)
    ensures err ==> variantRepo.faults == old(variantRepo.faults) + 1 || imageRepo.refused
  {
    var snapshots, order := registry.Snapshots();
    SnapshotsHoldTheRegistry(registry, snapshots, order);
    err := ResetVariantWorkSnapshots(variantRepo, imageRepo, snapshots, now);
  }

  /** Exactly the listed processing rows go to pending; all other rows are as they were. */
  lemma RollbackIsExact(t: Table, ids: set<nat>, now: int, id: nat)
    requires id in t
    ensures var after := ResetToPending(t, ids, now);
      && id in after && after[id].retryCount == t[id].retryCount && after[id].artifact == t[id].artifact
      && (id in ids && Hits(t, id, Processing) ==> Hits(after, id, Pending) && after[id].nextRetryAt == None)
      && (id !in ids || !Hits(t, id, Processing) ==> after[id] == t[id])
  {
  }

  /** Rolling back twice, at whatever times, is the same as once: nothing that was sent back
      is touched again. */
  lemma RollbackIsIdempotent(t: Table, images: Images, ids: set<nat>, imageIDs: set<nat>, now: int, later: int)
    ensures ResetToPending(ResetToPending(t, ids, now), ids, later) == ResetToPending(t, ids, now)
    ensures ResetProcessing(ResetProcessing(images, imageIDs, ImgNone, now), imageIDs, ImgNone, later)
         == ResetProcessing(images, imageIDs, ImgNone, now)
  {
    var t', images' := ResetToPending(t, ids, now), ResetProcessing(images, imageIDs, ImgNone, now);
    forall id | id in t ensures id in ids ==> !Hits(t', id, Processing) {}
    forall id | id in images ensures id in imageIDs && Live(images', id) ==> images'[id].status != ImgProcessing {}
  }
}
