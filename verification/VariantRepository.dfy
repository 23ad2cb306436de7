/** The repository object over the `image_variants` table.  Any statement may be refused by
    the database; `faults` counts the refused statements about single rows. */
module VariantRepo {
  import opened Options
  import opened VariantTable

  /** The table after the sweeper's updates for the rows in `done`. */
  function RecoverSet(t: Table, done: set<nat>, maxRetries: int, now: int): Table {
    map id | id in t :: if id in done then Recover(t, id, t[id].retryCount, maxRetries, now)[id] else t[id]
  }

  function StaleIds(t: Table, cutoff: int): set<nat> {
    set id | id in t && Stale(t[id], cutoff)
  }

  function ResetIds(t: Table, done: set<nat>, maxRetries: int): set<nat> {
    set id | id in done && id in t && !ExceedsRetries(t[id].retryCount, maxRetries)
  }

  function ImagesOf(t: Table, ids: set<nat>): set<nat> {
    set id | id in ids && id in t :: t[id].imageID
  }

  /** A live row of the image that has been processing since before `cutoff`, with a retry left. */
  predicate RetryDue(t: Table, id: nat, imageID: nat, cutoff: int, maxRetries: int) {
    && id in t && t[id].imageID == imageID && !t[id].deleted
    && t[id].status == Processing && t[id].updatedAt < cutoff
    && (maxRetries <= 0 || t[id].retryCount + 1 < maxRetries)
  }

  ghost predicate ImageDue(t: Table, imageID: nat, cutoff: int, maxRetries: int) {
    exists id :: RetryDue(t, id, imageID, cutoff, maxRetries)
  }

  lemma StaleWrittenOut(t: Table, cutoff: int, maxRetries: int)
    ensures StaleIds(t, cutoff) ==
            set id | id in t && !t[id].deleted && t[id].status == Processing && t[id].updatedAt < cutoff
    ensures |ResetIds(t, StaleIds(t, cutoff), maxRetries)|
            + |StaleIds(t, cutoff) - ResetIds(t, StaleIds(t, cutoff), maxRetries)| == |StaleIds(t, cutoff)|
    ensures forall imageID ::
      imageID in ImagesOf(t, ResetIds(t, StaleIds(t, cutoff), maxRetries)) <==> ImageDue(t, imageID, cutoff, maxRetries)
  {
    var stale, back := StaleIds(t, cutoff), ResetIds(t, StaleIds(t, cutoff), maxRetries);
    assert stale == back + (stale - back);
    forall imageID | ImageDue(t, imageID, cutoff, maxRetries) ensures imageID in ImagesOf(t, back) {
      var id :| RetryDue(t, id, imageID, cutoff, maxRetries);
      assert id in back;
    }
    forall imageID | imageID in ImagesOf(t, back) ensures ImageDue(t, imageID, cutoff, maxRetries) {
      var id :| id in back && id in t && t[id].imageID == imageID;
      assert RetryDue(t, id, imageID, cutoff, maxRetries);
    }
  }

  lemma RecoverSetExtends(t: Table, done: set<nat>, id: nat, maxRetries: int, now: int)
    requires id in t && id !in done
    ensures Recover(RecoverSet(t, done, maxRetries, now), id, t[id].retryCount, maxRetries, now)
         == RecoverSet(t, done + {id}, maxRetries, now)
  {
  }

  /** The counters and the image set after the rows in `done` were handled. */
  ghost predicate Tally(t: Table, done: set<nat>, maxRetries: int, resetCount: int, failedCount: int,
                        images: set<nat>) {
    && resetCount == |ResetIds(t, done, maxRetries)|
    && failedCount == |done - ResetIds(t, done, maxRetries)|
    && images == ImagesOf(t, ResetIds(t, done, maxRetries))
  }

  lemma TallyExtends(t: Table, done: set<nat>, id: nat, maxRetries: int, resetCount: int, failedCount: int,
                     images: set<nat>)
    requires id in t && id !in done && Tally(t, done, maxRetries, resetCount, failedCount, images)
    ensures if ExceedsRetries(t[id].retryCount, maxRetries)
            then Tally(t, done + {id}, maxRetries, resetCount, failedCount + 1, images)
            else Tally(t, done + {id}, maxRetries, resetCount + 1, failedCount, images + {t[id].imageID})
  {
    var before, after := ResetIds(t, done, maxRetries), ResetIds(t, done + {id}, maxRetries);
    if ExceedsRetries(t[id].retryCount, maxRetries) {
      assert after == before;
      assert done + {id} - after == (done - before) + {id};
    } else {
      assert after == before + {id};
      assert done + {id} - after == done - before;
    }
  }

  class VariantRepository {
    var rows: Table
    ghost var faults: nat       // refused statements, other than
    ghost var forceFaults: nat  // refused force-fails and
    ghost var touchFaults: nat  // refused touches

    constructor (initial: Table)
      ensures rows == initial && faults == forceFaults == touchFaults == 0
    {
      rows := initial;
      faults, forceFaults, touchFaults := 0, 0, 0;
    }

    /** Returns the live row of (imageID, format), inserting a pending one when the key is
        free.  A key held only by a tombstone is reported as not found. */
    method UpsertPending(imageID: nat, format: string, newId: nat, now: int) returns (id: nat, err: bool)
      requires newId !in rows
      modifies this`rows, this`faults
      ensures !err ==> HasKey(rows, id, imageID, format) && !rows[id].deleted
      ensures !err && KeyLive(old(rows), imageID, format) ==> rows == old(rows)
      ensures !err && !KeyLive(old(rows), imageID, format) ==>
        !KeyTaken(old(rows), imageID, format) && id == newId
        && rows == old(rows)[newId := FreshRow(imageID, format, now)]
      ensures rows == old(rows) || rows == Insert(old(rows), newId, imageID, format, now)
      ensures faults == old(faults) ==>
        (err <==> KeyTaken(old(rows), imageID, format) && !KeyLive(old(rows), imageID, format))
      ensures KeyTaken(old(rows), imageID, format) && !KeyLive(old(rows), imageID, format) ==> err
      ensures old(faults) <= faults && (!err ==> faults == old(faults))
    {
      var queryFault := *;
      if queryFault {
        faults := faults + 1;
        return 0, true;
      }
      var found := set i | i in rows && HasKey(rows, i, imageID, format) && !rows[i].deleted;
      if found != {} {
        id :| id in found;
        assert HasKey(rows, id, imageID, format);
        return id, false;
      }
      assert !KeyLive(rows, imageID, format) by {
        forall i | HasKey(rows, i, imageID, format) ensures rows[i].deleted { assert i !in found; }
      }
      var insertFault := *;
      if insertFault {
        faults := faults + 1;
        return 0, true;
      }
      var taken := set i | i in rows && HasKey(rows, i, imageID, format);
      if taken != {} {
        var i :| i in taken;
        assert HasKey(rows, i, imageID, format);
        // ON CONFLICT DO NOTHING, then the second read finds no live row
        return 0, true;
      }
      assert !KeyTaken(rows, imageID, format) by {
        forall i | i in rows ensures !HasKey(rows, i, imageID, format) { assert i !in taken; }
      }
      rows := rows[newId := FreshRow(imageID, format, now)];
      var rereadFault := *;
      if rereadFault {
        faults := faults + 1;
      }
      return newId, rereadFault;
    }

    method UpdateStatusCAS(id: nat, expected: Status, newStatus: Status, errMsg: string, now: int)
      returns (acquired: bool, err: bool)
      modifies this
      ensures err ==> !acquired && rows == old(rows) && faults == old(faults) + 1
      ensures !err ==> faults == old(faults)
      ensures !err ==> (acquired <==> id in old(rows) && !old(rows)[id].deleted && old(rows)[id].status == expected)
      ensures !err ==> rows == CasStatus(old(rows), id, expected, newStatus, errMsg, now)
      // every other row, and every column but these four, stays as it was
      ensures !acquired ==> rows == old(rows)
      ensures acquired ==> id in rows && rows == old(rows)[id := rows[id]]
      ensures acquired ==>
        && rows[id].status == newStatus && rows[id].updatedAt == now
        && rows[id].nextRetryAt == (if newStatus == Processing then None else old(rows)[id].nextRetryAt)
        && rows[id].errorMessage == (if errMsg == "" then old(rows)[id].errorMessage else errMsg)
        && rows[id].imageID == old(rows)[id].imageID && rows[id].format == old(rows)[id].format
        && rows[id].artifact == old(rows)[id].artifact && rows[id].retryCount == old(rows)[id].retryCount
        && !rows[id].deleted
    {
      err := *;
      if err {
        faults := faults + 1;
        return false, true;
      }
      acquired := Hits(rows, id, expected);
      rows := CasStatus(rows, id, expected, newStatus, errMsg, now);
    }

    /** `err` also when the row is not processing. */
    method UpdateCompleted(id: nat, a: Artifact, now: int) returns (err: bool)
      modifies this
      ensures !err ==>
        Hits(old(rows), id, Processing) && rows == Complete(old(rows), id, a, now) && faults == old(faults)
      ensures err ==> rows == old(rows)
      ensures err && Hits(old(rows), id, Processing) ==> faults == old(faults) + 1
      ensures old(faults) <= faults
    {
      var fault := *;
      if fault {
        faults := faults + 1;
        return true;
      }
      err := !Hits(rows, id, Processing);
      rows := Complete(rows, id, a, now);
    }

    method UpdateFailed(id: nat, errMsg: string, now: int) returns (err: bool)
      modifies this
      ensures !err ==>
        Hits(old(rows), id, Processing) && rows == Fail(old(rows), id, errMsg, now) && faults == old(faults)
      ensures err ==> rows == old(rows)
      ensures err && Hits(old(rows), id, Processing) ==> faults == old(faults) + 1
      ensures old(faults) <= faults
    {
      var fault := *;
      if fault {
        faults := faults + 1;
        return true;
      }
      err := !Hits(rows, id, Processing);
      rows := Fail(rows, id, errMsg, now);
    }

    method ForceUpdateFailed(id: nat, errMsg: string, now: int) returns (err: bool)
      modifies this`rows, this`forceFaults
      ensures !err ==> rows == ForceFail(old(rows), id, errMsg, now) && forceFaults == old(forceFaults)
      ensures err ==> rows == old(rows) && forceFaults == old(forceFaults) + 1
    {
      err := *;
      if err {
        forceFaults := forceFaults + 1;
      } else {
        rows := ForceFail(rows, id, errMsg, now);
      }
    }

    method DeleteVariant(id: nat) returns (err: bool)
      modifies this
      ensures !err ==> rows == DeleteOne(old(rows), id) && faults == old(faults)
      ensures err ==> rows == old(rows) && faults == old(faults) + 1
    {
      err := *;
      if err {
        faults := faults + 1;
      } else {
        rows := DeleteOne(rows, id);
      }
    }

    /** `TouchProcessing`: a refused touch is only logged by its caller. */
    method TouchProcessing(ids: seq<nat>, now: int) returns (err: bool)
      modifies this`rows, this`touchFaults
      ensures rows == if err then old(rows) else Touch(old(rows), Elems(ids), now)
      ensures touchFaults == if err then old(touchFaults) + 1 else old(touchFaults)
    {
      if |ids| == 0 {
        assert Touch(rows, Elems(ids), now) == rows;
        return false;
      }
      err := *;
      if err {
        touchFaults := touchFaults + 1;
      } else {
        rows := Touch(rows, Elems(ids), now);
      }
    }

    method ResetVariantsToPending(ids: seq<nat>, now: int) returns (affected: nat, err: bool)
      modifies this
      ensures err ==> rows == old(rows) && faults == old(faults) + 1
      ensures !err ==> faults == old(faults) && rows == ResetToPending(old(rows), Elems(ids), now)
      ensures !err ==> affected == |set i | i in old(rows) && i in ids && Hits(old(rows), i, Processing)|
    {
      if |ids| == 0 {
        assert ResetToPending(rows, Elems(ids), now) == rows;
        assert (set i | i in rows && i in ids && Hits(rows, i, Processing)) == {};
        return 0, false;
      }
      err := *;
      if err {
        faults := faults + 1;
        return 0, true;
      }
      affected := |set i | i in rows && i in ids && Hits(rows, i, Processing)|;
      rows := ResetToPending(rows, Elems(ids), now);
    }

    /** The guarded update of one stale row, decided by the snapshot's retry count. */
    method RecoverRow(id: nat, snapshotRetry: nat, maxRetries: int, now: int) returns (err: bool)
      modifies this
      ensures rows == if err then old(rows) else Recover(old(rows), id, snapshotRetry, maxRetries, now)
      ensures faults == if err then old(faults) + 1 else old(faults)
    {
      err := *;
      if err {
        faults := faults + 1;
      } else {
        rows := Recover(rows, id, snapshotRetry, maxRetries, now);
      }
    }

    /** The loop over the rows read before, in whatever order; an error ends it early. */
    method RecoverRows(snapshot: Table, stale: set<nat>, maxRetries: int, now: int)
      returns (resetCount: nat, failedCount: nat, retriedSet: set<nat>, err: bool, ghost done: set<nat>)
      requires rows == snapshot && stale <= snapshot.Keys
      modifies this
      ensures faults == if err then old(faults) + 1 else old(faults)
      ensures done <= stale && (!err ==> done == stale)
      ensures rows == RecoverSet(snapshot, done, maxRetries, now)
      ensures Tally(snapshot, done, maxRetries, resetCount, failedCount, retriedSet)
    {
      resetCount, failedCount, retriedSet, err, done := 0, 0, {}, false, {};
      NothingDone(snapshot, maxRetries, now);
      var staleVariants := stale;
      while staleVariants != {}
        invariant done <= stale && staleVariants == stale - done
        invariant rows == RecoverSet(snapshot, done, maxRetries, now) && faults == old(faults) && !err
        invariant Tally(snapshot, done, maxRetries, resetCount, failedCount, retriedSet)
        decreases staleVariants
      {
        var id :| id in staleVariants;
        var variant := snapshot[id];
        err := RecoverRow(id, variant.retryCount, maxRetries, now);
        if err {
          return;
        }
        RecoverSetExtends(snapshot, done, id, maxRetries, now);
        TallyExtends(snapshot, done, id, maxRetries, resetCount, failedCount, retriedSet);
        if ExceedsRetries(variant.retryCount, maxRetries) {
          failedCount := failedCount + 1;
        } else {
          resetCount := resetCount + 1;
          retriedSet := retriedSet + {variant.imageID};
        }
        assert stale - (done + {id}) == staleVariants - {id};
        staleVariants, done := staleVariants - {id}, done + {id};
      }
    }

    /** The sweep over stale rows.  `cutoff` and `now` are two clock readings. */
    method RecoverStaleProcessing(cutoff: int, now: int, maxRetries: int)
      returns (resetCount: nat, failedCount: nat, retried: seq<nat>, err: bool, ghost done: set<nat>)
      modifies this
      ensures faults == if err then old(faults) + 1 else old(faults)
      ensures done <= StaleIds(old(rows), cutoff)
      ensures rows == RecoverSet(old(rows), done, maxRetries, now)
      ensures !err ==> done == StaleIds(old(rows), cutoff)
      ensures forall i, j :: 0 <= i < j < |retried| ==> retried[i] != retried[j]
      ensures resetCount == |ResetIds(old(rows), done, maxRetries)|
      ensures failedCount == |done - ResetIds(old(rows), done, maxRetries)|
      ensures !err ==> Elems(retried) == ImagesOf(old(rows), ResetIds(old(rows), done, maxRetries))
      // the rows handled, and the images with a retry left, with the conditions written out
      ensures !err ==> (
          resetCount + failedCount ==
          |set id | id in old(rows) && !old(rows)[id].deleted && old(rows)[id].status == Processing
                    && old(rows)[id].updatedAt < cutoff|)
      ensures !err ==> forall imageID ::
        (imageID in retried <==> ImageDue(old(rows), imageID, cutoff, maxRetries))
    {
      resetCount, failedCount, retried, done, err := 0, 0, [], {}, true;
      NothingDone(rows, maxRetries, now);
      var queryFault := *;
      if queryFault {
        faults := faults + 1;
        return;
      }
      var retriedSet;
      resetCount, failedCount, retriedSet, err, done := RecoverRows(rows, StaleIds(rows, cutoff), maxRetries, now);
      StaleWrittenOut(old(rows), cutoff, maxRetries);
      if !err {
        retried := SetToSeq(retriedSet);
        assert forall imageID :: imageID in retried <==> imageID in Elems(retried);
      }
    }
  }

  lemma NothingDone(t: Table, maxRetries: int, now: int)
    ensures RecoverSet(t, {}, maxRetries, now) == t && Tally(t, {}, maxRetries, 0, 0, {})
  {
  }

  /** Go's map iteration: the elements once each, in no particular order. */
  method SetToSeq(s: set<nat>) returns (q: seq<nat>)
    ensures Elems(q) == s
    ensures forall i, j :: 0 <= i < j < |q| ==> q[i] != q[j]
  {
    q := [];
    var rest := s;
    while rest != {}
      invariant rest <= s && Elems(q) == s - rest
      invariant forall i, j :: 0 <= i < j < |q| ==> q[i] != q[j]
      decreases rest
    {
      var x :| x in rest;
      assert x !in Elems(q);
      assert Elems(q + [x]) == Elems(q) + {x};
      q := q + [x];
      rest := rest - {x};
    }
  }
}
