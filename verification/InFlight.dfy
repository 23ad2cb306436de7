/** The process-wide registry of running tasks.  Every list it stores or hands out is a copy in
    a new array, so it shares no storage with a task's own list or with an earlier snapshot. */
module InFlight {

  datatype Snapshot = Snapshot(imageID: nat, variantIDs: array<nat>)

  predicate SameContents(a: Snapshot, b: Snapshot)
    reads a.variantIDs, b.variantIDs
  {
    a.imageID == b.imageID && a.variantIDs[..] == b.variantIDs[..]
  }

  method CopyOf(src: array<nat>, len: nat) returns (copy: array<nat>)
    requires len <= src.Length
    ensures fresh(copy) && copy[..] == src[..len]
  {
    copy := new nat[len];
    var i := 0;
    while i < len
      invariant i <= len && copy[..i] == src[..i]
    {
      copy[i] := src[i];
      i := i + 1;
    }
    assert copy[..] == copy[..len];
  }

  class InFlightRegistry {
    var nextID: nat
    var tasks: map<nat, Snapshot>

    ghost predicate Valid() reads this {
      forall id :: id in tasks ==> 0 < id <= nextID
    }

    constructor ()
      ensures Valid() && tasks == map[] && nextID == 0
    {
      nextID := 0;
      tasks := map[];
    }

    method Begin(imageID: nat, src: array<nat>, len: nat) returns (lease: nat)
      requires Valid() && len <= src.Length
      modifies this
      ensures Valid() && lease !in old(tasks) && lease == nextID == old(nextID) + 1
      ensures lease in tasks && tasks == old(tasks)[lease := tasks[lease]]
      ensures tasks[lease].imageID == imageID && fresh(tasks[lease].variantIDs)
      ensures tasks[lease].variantIDs[..] == src[..len]
    {
      var copy := CopyOf(src, len);
      nextID := nextID + 1;
      lease := nextID;
      tasks := tasks[lease := Snapshot(imageID, copy)];
    }

    /** Replaces the entry of a lease that is still registered; otherwise does nothing. */
    method Update(lease: nat, imageID: nat, src: array<nat>, len: nat)
      requires Valid() && len <= src.Length
      modifies this`tasks
      ensures Valid()
      ensures lease !in old(tasks) ==> tasks == old(tasks)
      ensures lease in old(tasks) ==> lease in tasks && tasks == old(tasks)[lease := tasks[lease]]
      ensures lease in old(tasks) ==> tasks[lease].imageID == imageID && fresh(tasks[lease].variantIDs)
      ensures lease in old(tasks) ==> tasks[lease].variantIDs[..] == src[..len]
    {
      if lease !in tasks {
        return;
      }
      var copy := CopyOf(src, len);
      tasks := tasks[lease := Snapshot(imageID, copy)];
    }

    method Release(lease: nat)
      requires Valid()
      modifies this`tasks
      ensures Valid() && tasks == old(tasks) - {lease}
    {
      tasks := tasks - {lease};
    }

    /** One snapshot per task, in map-iteration order; `order` says which lease each one is. */
    method Snapshots() returns (out: seq<Snapshot>, ghost order: seq<nat>)
      requires Valid()
      ensures |out| == |order| && (set k | k in order) == tasks.Keys
      ensures forall i, j :: 0 <= i < j < |order| ==> order[i] != order[j]
      ensures forall i :: 0 <= i < |out| ==> fresh(out[i].variantIDs)
      ensures forall i :: 0 <= i < |out| ==> order[i] in tasks && SameContents(out[i], tasks[order[i]])
    {
      out, order := [], [];
      var rest := tasks.Keys;
      while rest != {}
        invariant rest <= tasks.Keys && |out| == |order|
        invariant forall k :: k in order <==> k in tasks.Keys - rest
        invariant forall i, j :: 0 <= i < j < |order| ==> order[i] != order[j]
        invariant forall i :: 0 <= i < |out| ==> fresh(out[i].variantIDs)
        invariant forall i :: 0 <= i < |out| ==> order[i] in tasks && SameContents(out[i], tasks[order[i]])
        decreases rest
      {
        var lease :| lease in rest;
        assert forall i :: 0 <= i < |order| ==> order[i] in order && order[i] != lease;
        var snapshot := tasks[lease];
        var copy := CopyOf(snapshot.variantIDs, snapshot.variantIDs.Length);
        out := out + [Snapshot(snapshot.imageID, copy)];
        order := order + [lease];
        rest := rest - {lease};
      }
    }
  }
}
