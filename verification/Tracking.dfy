/** The list of variant ids a task holds, compacted in place while the heartbeat keeps reading
    the array it was started with. */
module Tracking {

  function Without(s: seq<nat>, id: nat): (r: seq<nat>)
    ensures |r| <= |s|
  {
    if s == [] then []
    else if s[0] == id then Without(s[1..], id)
    else [s[0]] + Without(s[1..], id)
  }

  lemma {:induction false} WithoutSnoc(s: seq<nat>, x: nat, id: nat)
    ensures Without(s + [x], id) == Without(s, id) + (if x == id then [] else [x])
  {
    if s == [] {
    } else {
      assert (s + [x])[0] == s[0] && (s + [x])[1..] == s[1..] + [x];
      WithoutSnoc(s[1..], x, id);
    }
  }

  /** The filtered list: the same ids in the same order, `id` gone. */
  lemma {:induction false} WithoutElems(s: seq<nat>, id: nat)
    ensures forall x :: x in Without(s, id) <==> x in s && x != id
    ensures Distinct(s) ==> Distinct(Without(s, id))
    ensures id !in s ==> Without(s, id) == s
  {
    if s != [] {
      assert s == [s[0]] + s[1..];
      assert Distinct(s) ==> s[0] !in s[1..] && Distinct(s[1..]);
      WithoutElems(s[1..], id);
    }
  }

  predicate Distinct(s: seq<nat>) {
    forall i, j :: 0 <= i < j < |s| ==> s[i] != s[j]
  }

  /** What a reader of the first `n` cells must find: every id still tracked except the one
      being removed, and nothing that was never acquired. */
  ghost predicate GoodView(view: seq<nat>, tracked: seq<nat>, removed: nat, acquired: seq<nat>) {
    && (forall x :: x in tracked && x != removed ==> x in view)
    && (forall x :: x in view ==> x in acquired)
  }

  /** The backing array after the loop of releaseTrackedVariant handled `i` elements. */
  function Compacted(orig: seq<nat>, id: nat, i: nat): (now: seq<nat>)
    requires i <= |orig|
    ensures |now| == |orig|
  {
    Without(orig[..i], id) + orig[|Without(orig[..i], id)|..]
  }

  /** Its contents before the first and after each write so far. */
  function Trace(orig: seq<nat>, id: nat, i: nat): (seen: seq<seq<nat>>)
    requires i <= |orig|
    ensures |seen| > 0
    ensures forall k :: 0 <= k < |seen| ==> |seen[k]| == |orig|
  {
    if i == 0 then [orig]
    else if orig[i - 1] == id then Trace(orig, id, i - 1)
    else Trace(orig, id, i - 1) + [Compacted(orig, id, i)]
  }

  ghost predicate GoodTrace(seen: seq<seq<nat>>, n: nat, tracked: seq<nat>, removed: nat, acquired: seq<nat>) {
    forall k :: 0 <= k < |seen| ==> n <= |seen[k]| && GoodView(seen[k][..n], tracked, removed, acquired)
  }

  lemma CompactedStep(orig: seq<nat>, id: nat, i: nat)
    requires i < |orig|
    ensures |Without(orig[..i], id)| <= i && Compacted(orig, id, i)[i] == orig[i]
    ensures orig[i] == id ==>
      Compacted(orig, id, i + 1) == Compacted(orig, id, i) && |Without(orig[..i + 1], id)| == |Without(orig[..i], id)|
    ensures orig[i] != id ==>
      Compacted(orig, id, i + 1) == Compacted(orig, id, i)[|Without(orig[..i], id)| := orig[i]]
    ensures orig[i] != id ==> |Without(orig[..i + 1], id)| == |Without(orig[..i], id)| + 1
  {
    WithoutElems(orig[..i], id);
    assert orig[..i + 1] == orig[..i] + [orig[i]];
    WithoutSnoc(orig[..i], orig[i], id);
  }

  lemma CompactedView(orig: seq<nat>, id: nat, i: nat, len: nat, n: nat)
    requires i <= len <= n <= |orig|
    ensures GoodView(Compacted(orig, id, i)[..n], orig[..len], id, orig[..n])
  {
    var kept, now := |Without(orig[..i], id)|, Compacted(orig, id, i);
    WithoutElems(orig[..i], id);
    forall x | x in orig[..len] && x != id ensures x in now[..n] {
      var p :| 0 <= p < len && orig[p] == x;
      if p < i {
        assert x in orig[..i];
        var q :| 0 <= q < kept && Without(orig[..i], id)[q] == x;
        assert now[..n][q] == x;
      } else {
        assert now[..n][p] == x;
      }
    }
    forall x | x in now[..n] ensures x in orig[..n] {
      var p :| 0 <= p < n && now[p] == x;
      if p < kept {
        assert x in orig[..i];
        assert orig[..i] <= orig[..n];
      } else {
        assert orig[..n][p] == x;
      }
    }
  }

  /** At every intermediate write the heartbeat still finds every id that stays tracked. */
  lemma {:induction false} TraceViews(orig: seq<nat>, id: nat, i: nat, len: nat, n: nat)
    requires i <= len <= n <= |orig|
    ensures GoodTrace(Trace(orig, id, i), n, orig[..len], id, orig[..n])
  {
    if i > 0 {
      TraceViews(orig, id, i - 1, len, n);
      CompactedView(orig, id, i, len, n);
    }
  }

  datatype Slice = Slice(arr: seq<nat>, len: nat)

  predicate Fits(s: Slice) { s.len <= |s.arr| }

  function Released(s: Slice, id: nat): (r: Slice)
    requires Fits(s)
    ensures Fits(r) && |r.arr| == |s.arr| && r.len <= s.len
  {
    if id == 0 then s else Slice(Compacted(s.arr, id, s.len), |Without(s.arr[..s.len], id)|)
  }

  function ReleasedAll(s: Slice, ids: seq<nat>): (r: Slice)
    requires Fits(s)
    ensures Fits(r) && |r.arr| == |s.arr| && r.len <= s.len
    decreases |ids|
  {
    if ids == [] then s else ReleasedAll(Released(s, ids[0]), ids[1..])
  }

  /** Over a whole task: after any releases, at every write of the next one, a heartbeat that
      still reads the first `n` cells sees all ids that stay tracked and only acquired ids. */
  lemma {:induction false} HeartbeatSeesTracked(s: Slice, ids: seq<nat>, id: nat, n: nat)
    requires s.len <= n <= |s.arr|
    ensures var now := ReleasedAll(s, ids);
      GoodTrace(Trace(now.arr, id, now.len), n, now.arr[..now.len], id, s.arr[..n])
    decreases |ids|
  {
    if ids == [] {
      TraceViews(s.arr, id, s.len, s.len, n);
    } else {
      var next := Released(s, ids[0]);
      CompactedView(s.arr, ids[0], s.len, s.len, n);
      HeartbeatSeesTracked(next, ids[1..], id, n);
      var now := ReleasedAll(next, ids[1..]);
      var seen := Trace(now.arr, id, now.len);
      forall k | 0 <= k < |seen| ensures GoodView(seen[k][..n], now.arr[..now.len], id, s.arr[..n]) {
        assert GoodView(seen[k][..n], now.arr[..now.len], id, next.arr[..n]);
      }
    }
  }

  /** The array after `k` writes when the id at position `r` of a duplicate-free list goes. */
  function AfterWrites(orig: seq<nat>, r: nat, k: nat): seq<nat> {
    seq(|orig|, c requires 0 <= c < |orig| => if r <= c < k && c + 1 < |orig| then orig[c + 1] else orig[c])
  }

  lemma AfterWritesStep(orig: seq<nat>, r: nat, k: nat)
    requires k < |orig|
    ensures k < r ==> AfterWrites(orig, r, k + 1) == AfterWrites(orig, r, k) == orig
    ensures r <= k && k + 1 < |orig| ==> AfterWrites(orig, r, k + 1) == AfterWrites(orig, r, k)[k := orig[k + 1]]
  {
  }

  lemma {:induction false} CompactedIsShift(orig: seq<nat>, id: nat, i: nat, r: nat)
    requires i <= |orig| && r < |orig| && orig[r] == id
    requires forall c :: 0 <= c < i && c != r ==> orig[c] != id
    ensures |Without(orig[..i], id)| == if i <= r then i else i - 1
    ensures Compacted(orig, id, i) == AfterWrites(orig, r, if i <= r then i else i - 1)
  {
    if i > 0 {
      CompactedIsShift(orig, id, i - 1, r);
      CompactedStep(orig, id, i - 1);
      if i - 1 < r {
        AfterWritesStep(orig, r, i - 1);
      } else if i - 1 > r {
        AfterWritesStep(orig, r, i - 2);
      }
    }
  }

  /** For a duplicate-free list the writes are a plain shift, one write per id kept. */
  lemma {:induction false} TraceIsShift(orig: seq<nat>, id: nat, i: nat, r: nat)
    requires i <= |orig| && r < |orig| && orig[r] == id
    requires forall c :: 0 <= c < i && c != r ==> orig[c] != id
    ensures |Trace(orig, id, i)| == 1 + if i <= r then i else i - 1
    ensures forall k :: 0 <= k < |Trace(orig, id, i)| ==> Trace(orig, id, i)[k] == AfterWrites(orig, r, k)
  {
    if i > 0 {
      TraceIsShift(orig, id, i - 1, r);
      CompactedIsShift(orig, id, i, r);
    }
  }

  /** The loop after `i` rounds, one cell at a time: the array, the ids kept, the contents seen. */
  datatype Filter = Filter(arr: seq<nat>, kept: nat, seen: seq<seq<nat>>)

  function Filtered(orig: seq<nat>, id: nat, i: nat): (f: Filter)
    requires i <= |orig|
    ensures |f.arr| == |orig| && f.kept <= i && f.seen != []
  {
    if i == 0 then Filter(orig, 0, [orig])
    else
      var f := Filtered(orig, id, i - 1);
      if f.arr[i - 1] == id then f
      else
        var arr := f.arr[f.kept := f.arr[i - 1]];
        Filter(arr, f.kept + 1, f.seen + [arr])
  }

  /** The rounds compact the array: filtering in place reads what was there at the start. */
  lemma {:induction false} FilteredIs(orig: seq<nat>, id: nat, i: nat)
    requires i <= |orig|
    ensures Filtered(orig, id, i) == Filter(Compacted(orig, id, i), |Without(orig[..i], id)|, Trace(orig, id, i))
    ensures Filtered(orig, id, i).seen[|Filtered(orig, id, i).seen| - 1] == Filtered(orig, id, i).arr
  {
    if i > 0 {
      FilteredIs(orig, id, i - 1);
      CompactedStep(orig, id, i - 1);
    }
  }

  /** A Go slice header: the backing array may be shared, `len` is this header's own. */
  class TrackedIds {
    var backing: array<nat>
    var len: nat

    ghost predicate Valid() reads this {
      len <= backing.Length
    }

    ghost function Ids(): (s: seq<nat>)
      requires Valid()
      reads this, backing
      ensures |s| == len
    {
      backing[..len]
    }

    constructor ()
      ensures Valid() && Ids() == [] && fresh(backing)
    {
      backing := new nat[0];
      len := 0;
    }

    /** `append`: past the capacity the ids move to a new array of twice the size. */
    method Append(id: nat)
      requires Valid()
      modifies this, backing
      ensures Valid() && Ids() == old(Ids()) + [id]
      ensures backing == old(backing) || fresh(backing)
    {
      if len == backing.Length {
        var bigger := new nat[if len == 0 then 1 else 2 * len];
        var i := 0;
        while i < len
          invariant 0 <= i <= len <= backing.Length && len < bigger.Length
          invariant bigger[..i] == backing[..i]
          invariant unchanged(this) && unchanged(backing)
        {
          bigger[i] := backing[i];
          i := i + 1;
        }
        backing := bigger;
      }
      backing[len] := id;
      len := len + 1;
    }

    /** One write to the backing array. */
    method Write(i: nat, id: nat)
      requires Valid() && i < backing.Length
      modifies backing
      ensures backing[..] == old(backing[..])[i := id]
    {
      backing[i] := id;
    }

    /** The loop: copies down every id but the one to go. */
    method FilterInPlace(id: nat) returns (kept: nat, ghost seen: seq<seq<nat>>)
      requires Valid()
      modifies backing
      ensures Filter(backing[..], kept, seen) == Filtered(old(backing[..]), id, len)
    {
      ghost var orig := backing[..];
      kept, seen := 0, [orig];
      var i := 0;
      while i < len
        invariant i <= len && Filter(backing[..], kept, seen) == Filtered(orig, id, i)
      {
        var variantID := backing[i];
        assert variantID == backing[..][i];
        if variantID != id {
          Write(kept, variantID);
          seen := seen + [backing[..]];
          kept := kept + 1;
        }
        i := i + 1;
      }
    }

    /** `releaseTrackedVariant`: filters into the same backing array.  `seen` lists the contents
        of the whole array before the first and after each write. */
    method Release(id: nat) returns (ghost seen: seq<seq<nat>>)
      requires Valid()
      modifies this`len, backing
      ensures Valid() && backing == old(backing)
      ensures Ids() == if id == 0 then old(Ids()) else Without(old(Ids()), id)
      ensures seen == if id == 0 then [old(backing[..])] else Trace(old(backing[..]), id, old(len))
      ensures seen[|seen| - 1] == backing[..]
    {
      ghost var orig := backing[..];
      if len == 0 || id == 0 {
        return [orig];
      }
      var kept;
      kept, seen := FilterInPlace(id);
      FilteredIs(orig, id, len);
      CompactedPrefix(orig, id, len);
      assert backing[..kept] == backing[..][..kept];
      len := kept;
    }
  }

  lemma CompactedPrefix(orig: seq<nat>, id: nat, i: nat)
    requires i <= |orig|
    ensures |Without(orig[..i], id)| <= i
    ensures Compacted(orig, id, i)[..|Without(orig[..i], id)|] == Without(orig[..i], id)
  {
  }

  /** A read cell by cell, cell `c` being read when `times[c]` writes had happened. */
  function TornRead(orig: seq<nat>, r: nat, times: seq<nat>): (view: seq<nat>)
    requires |times| <= |orig|
    ensures |view| == |times|
  {
    seq(|times|, c requires 0 <= c < |times| => AfterWrites(orig, r, times[c])[c])
  }

  /** Exactly which still-tracked id a read of the heartbeat's stretch that overlaps a removal misses: the one that was
      copied down past the reader and overwritten before the reader reached its old cell. */
  lemma TornReadMisses(orig: seq<nat>, len: nat, r: nat, times: seq<nat>, p: nat)
    requires Distinct(orig) && r < len <= |times| <= |orig| && p < len && p != r
    requires forall c :: 0 <= c < |times| ==> times[c] < len
    ensures orig[p] !in TornRead(orig, r, times) <==> r < p && times[p - 1] < p < times[p]
  {
    var view := TornRead(orig, r, times);
    forall c | 0 <= c < |view|
      ensures view[c] == if r <= c < times[c] then orig[c + 1] else orig[c]
    {
    }
    if r < p && times[p - 1] < p < times[p] {
      forall c | 0 <= c < |view| ensures view[c] != orig[p] {
      }
    } else if r < p && times[p - 1] >= p {
      assert view[p - 1] == orig[p];
    } else {
      assert view[p] == orig[p];
    }
  }

  /** Such a read exists: while id 1 leaves [1, 2, 3], one heartbeat can read [1, 3, 3]. */
  lemma TornReadExample()
    ensures TornRead([1, 2, 3], 0, [0, 2, 2]) == [1, 3, 3]
  {
  }
}
