/** The columns of the `images` table that variant processing reads and writes. */
module ImageRepo {
  import VT = VariantTable

  datatype ImageStatus = ImgNone | ImgProcessing | ImgThumbnailCompleted | ImgCompleted | ImgFailed

  datatype ImageRow = ImageRow(status: ImageStatus, updatedAt: int, deleted: bool)

  type Images = map<nat, ImageRow>

  predicate Live(t: Images, id: nat) {
    id in t && !t[id].deleted
  }

  function SetStatus(t: Images, id: nat, status: ImageStatus, now: int): Images {
    if Live(t, id) then t[id := t[id].(status := status, updatedAt := now)] else t
  }

  function TouchImage(t: Images, id: nat, now: int): Images {
    if Live(t, id) && t[id].status == ImgProcessing then t[id := t[id].(updatedAt := now)] else t
  }

  /** `ResetProcessingVariantStatus` for shutdown. */
  function ResetProcessing(t: Images, ids: set<nat>, status: ImageStatus, now: int): Images {
    map id | id in t ::
      if id in ids && Live(t, id) && t[id].status == ImgProcessing then t[id].(status := status, updatedAt := now)
      else t[id]
  }

  /** The EXISTS subqueries read the raw variant table, tombstones included. */
  predicate HasVariant(variants: VT.Table, imageID: nat, status: VT.Status) {
    exists v :: v in variants && variants[v].imageID == imageID && variants[v].status == status
  }

  /** The WHERE clause the two stale-image updates share. */
  predicate StaleImage(t: Images, variants: VT.Table, id: nat, cutoff: int, exclude: set<nat>) {
    && Live(t, id) && t[id].status == ImgProcessing && t[id].updatedAt < cutoff
    && !HasVariant(variants, id, VT.Processing)
    && id !in exclude
  }

  predicate StaleAndFailed(t: Images, variants: VT.Table, id: nat, cutoff: int, exclude: set<nat>) {
    StaleImage(t, variants, id, cutoff, exclude) && HasVariant(variants, id, VT.Failed)
  }

  function MarkStaleFailed(t: Images, variants: VT.Table, cutoff: int, exclude: set<nat>, now: int): Images {
    map id | id in t ::
      if StaleAndFailed(t, variants, id, cutoff, exclude) then t[id].(status := ImgFailed, updatedAt := now)
      else t[id]
  }

  function ResetStaleToNone(t: Images, variants: VT.Table, cutoff: int, exclude: set<nat>, now: int): Images {
    map id | id in t ::
      if StaleImage(t, variants, id, cutoff, exclude) then t[id].(status := ImgNone, updatedAt := now)
      else t[id]
  }

  /** The statements with their WHERE clauses written out: the rows they meet get the status and the
      time; every other row and every other column stays. */
  lemma StatementsWrittenOut(t: Images, id: nat, ids: set<nat>, status: ImageStatus, now: int, k: nat)
    requires k in t
    ensures var after := SetStatus(t, id, status, now);
      after.Keys == t.Keys && after[k] == if k == id && !t[k].deleted then ImageRow(status, now, false) else t[k]
    ensures var after := TouchImage(t, id, now);
      after.Keys == t.Keys
      && after[k] == if k == id && !t[k].deleted && t[k].status == ImgProcessing
                     then ImageRow(ImgProcessing, now, false) else t[k]
    ensures var after := ResetProcessing(t, ids, status, now);
      after.Keys == t.Keys
      && after[k] == if k in ids && !t[k].deleted && t[k].status == ImgProcessing
                     then ImageRow(status, now, false) else t[k]
  {
  }

  /** Processing for too long, not excluded, and none of its variants is processing. */
  predicate Overdue(row: ImageRow, variants: VT.Table, id: nat, cutoff: int, exclude: set<nat>) {
    && !row.deleted && row.status == ImgProcessing && row.updatedAt < cutoff && id !in exclude
    && forall v :: v in variants && variants[v].imageID == id ==> variants[v].status != VT.Processing
  }

  lemma SweepsWrittenOut(t: Images, variants: VT.Table, cutoff: int, exclude: set<nat>, now: int, k: nat)
    requires k in t
    ensures var after := MarkStaleFailed(t, variants, cutoff, exclude, now);
      after.Keys == t.Keys
      && after[k] == if Overdue(t[k], variants, k, cutoff, exclude)
                        && exists v :: v in variants && variants[v].imageID == k && variants[v].status == VT.Failed
                     then ImageRow(ImgFailed, now, false) else t[k]
    ensures var after := ResetStaleToNone(t, variants, cutoff, exclude, now);
      after.Keys == t.Keys
      && after[k] == if Overdue(t[k], variants, k, cutoff, exclude) then ImageRow(ImgNone, now, false) else t[k]
  {
  }

  /** `refused` records that the database turned down a statement. */
  class ImageRepository {
    var rows: Images
    ghost var refused: bool     // some statement, other than
    ghost var touchFaults: nat  // refused touches

    constructor (initial: Images)
      ensures rows == initial && !refused && touchFaults == 0
    {
      rows := initial;
      refused, touchFaults := false, 0;
    }

    method UpdateVariantStatus(id: nat, status: ImageStatus, now: int) returns (err: bool)
      modifies this
      ensures !err ==> rows == SetStatus(old(rows), id, status, now) && refused == old(refused)
      ensures err ==> rows == old(rows) && refused
    {
      err := *;
      if err {
        refused := true;
      } else {
        rows := SetStatus(rows, id, status, now);
      }
    }

    /** Only refreshes `updated_at` of an image still processing; failure is only logged. */
    method TouchVariantProcessingStatus(id: nat, now: int) returns (err: bool)
      modifies this`rows, this`touchFaults
      ensures rows == if err then old(rows) else TouchImage(old(rows), id, now)
      ensures touchFaults == if err then old(touchFaults) + 1 else old(touchFaults)
    {
      err := *;
      if err {
        touchFaults := touchFaults + 1;
      } else if Live(rows, id) && rows[id].status == ImgProcessing {
        rows := rows[id := rows[id].(updatedAt := now)];
      }
    }

    method MarkStaleProcessingAsFailed(variants: VT.Table, cutoff: int, excludeIDs: seq<nat>, now: int)
      returns (affected: nat, err: bool)
      modifies this
      ensures err ==> rows == old(rows) && refused
      ensures !err ==>
        refused == old(refused) && rows == MarkStaleFailed(old(rows), variants, cutoff, VT.Elems(excludeIDs), now)
      ensures !err ==> affected == |set id | id in old(rows)
                                    && StaleAndFailed(old(rows), variants, id, cutoff, VT.Elems(excludeIDs))|
    {
      err := *;
      if err {
        refused := true;
        return 0, true;
      }
      var exclude := VT.Elems(excludeIDs);
      affected := |set id | id in rows && StaleAndFailed(rows, variants, id, cutoff, exclude)|;
      rows := MarkStaleFailed(rows, variants, cutoff, exclude, now);
    }

    method ResetStaleProcessingToNone(variants: VT.Table, cutoff: int, excludeIDs: seq<nat>, now: int)
      returns (affected: nat, err: bool)
      modifies this
      ensures err ==> rows == old(rows) && refused
      ensures !err ==>
        refused == old(refused) && rows == ResetStaleToNone(old(rows), variants, cutoff, VT.Elems(excludeIDs), now)
      ensures !err ==> affected == |set id | id in old(rows)
                                    && StaleImage(old(rows), variants, id, cutoff, VT.Elems(excludeIDs))|
    {
      err := *;
      if err {
        refused := true;
        return 0, true;
      }
      var exclude := VT.Elems(excludeIDs);
      affected := |set id | id in rows && StaleImage(rows, variants, id, cutoff, exclude)|;
      rows := ResetStaleToNone(rows, variants, cutoff, exclude, now);
    }

    method ResetProcessingVariantStatus(ids: seq<nat>, status: ImageStatus, now: int) returns (err: bool)
      modifies this
      ensures rows == if err then old(rows) else ResetProcessing(old(rows), VT.Elems(ids), status, now)
      ensures if err then refused else refused == old(refused)
    {
      if |ids| == 0 {
        assert ResetProcessing(rows, VT.Elems(ids), status, now) == rows;
        return false;
      }
      err := *;
      if err {
        refused := true;
      } else {
        rows := ResetProcessing(rows, VT.Elems(ids), status, now);
      }
    }
  }
}
