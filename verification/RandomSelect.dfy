/** The random public image: draw a number between the smallest and the largest matching id and
    take the first matching id from there on. */
module RandomSelect {
  import opened Options
  import opened ImageRepo

  datatype Picture = Picture(isPublic: bool, albums: set<nat>, width: int, height: int, fileSize: int,
                             status: ImageStatus, deleted: bool)

  /** Zero means no bound. */
  datatype Filter = Filter(albumID: Option<nat>, includeAllPublic: bool, minWidth: int, minHeight: int, maxWidth: int,
                           maxHeight: int, maxFileSize: int, requireWebP: bool)

  predicate Matches(p: Picture, f: Filter) {
    && p.isPublic && !p.deleted
    && (f.albumID.Some? && !f.includeAllPublic ==> f.albumID.value in p.albums)
    && (f.minWidth > 0 ==> p.width >= f.minWidth) && (f.minHeight > 0 ==> p.height >= f.minHeight)
    && (f.maxWidth > 0 ==> p.width <= f.maxWidth) && (f.maxHeight > 0 ==> p.height <= f.maxHeight)
    && (f.maxFileSize > 0 ==> p.fileSize <= f.maxFileSize)
    && (f.requireWebP ==> p.status == ImgCompleted)
  }

  /** The ways to be ruled out. */
  predicate RuledOut(p: Picture, f: Filter) {
    || !p.isPublic || p.deleted
    || (f.albumID.Some? && !f.includeAllPublic && f.albumID.value !in p.albums)
    || (0 < f.minWidth && p.width < f.minWidth) || (0 < f.minHeight && p.height < f.minHeight)
    || (0 < f.maxWidth < p.width) || (0 < f.maxHeight < p.height) || (0 < f.maxFileSize < p.fileSize)
    || (f.requireWebP && p.status != ImgCompleted)
  }

  function MatchingIds(pictures: map<int, Picture>, f: Filter): set<int> {
    set id | id in pictures && Matches(pictures[id], f)
  }

  lemma MatchingIsNotRuledOut(pictures: map<int, Picture>, f: Filter)
    ensures forall id :: id in pictures ==> (id in MatchingIds(pictures, f) <==> !RuledOut(pictures[id], f))
    ensures MatchingIds(pictures, f) == {} <==> forall id :: id in pictures ==> RuledOut(pictures[id], f)
  {
    var ids := MatchingIds(pictures, f);
    if forall id :: id in pictures ==> RuledOut(pictures[id], f) {
      assert forall id :: id !in ids;
      assert ids == {};
    } else {
      var id :| id in pictures && !RuledOut(pictures[id], f);
      assert id in ids;
    }
  }

  // ---------- least and greatest ----------

  predicate IsMin(s: set<int>, m: int) { m in s && forall x :: x in s ==> m <= x }
  predicate IsMax(s: set<int>, m: int) { m in s && forall x :: x in s ==> x <= m }

  lemma {:induction false} Bounded(s: set<int>) returns (least: int, greatest: int)
    requires s != {}
    ensures IsMin(s, least) && IsMax(s, greatest)
    decreases |s|
  {
    assert exists x :: x in s by {
      assert (forall x :: x !in s) ==> s == {};
    }
    var x :| x in s;
    if s == {x} {
      least, greatest := x, x;
    } else {
      var rest := s - {x};
      assert forall y :: y in s ==> y == x || y in rest;
      var a, b := Bounded(rest);
      least, greatest := if x < a then x else a, if x > b then x else b;
    }
  }

  lemma HasMin(s: set<int>)
    requires s != {}
    ensures exists m :: IsMin(s, m)
    ensures exists m :: IsMax(s, m)
  {
    var least, greatest := Bounded(s);
  }

  // ---------- the selection ----------

  /** The least id from `target` on. */
  predicate Selects(ids: set<int>, target: int, id: int) {
    id in ids && target <= id && forall x :: x in ids && target <= x ==> id <= x
  }

  const MAX_INT64: int := 0x7fff_ffff_ffff_ffff

  function Max(a: int, b: int): int { if a < b then b else a }

  /** A random source: asked for a width, it fails or gives a number below it. */
  ghost predicate SourceOk(source: int -> Option<int>) {
    forall width :: width > 0 && source(width).Some? ==> 0 <= source(width).value < width
  }

  /** Always within the bounds; which target it is tells which number was drawn, so each target is
      hit by exactly one.  The width is computed in 64 bits, and ids are small enough for that. */
  method RandomUint(minID: int, maxID: int, source: int -> Option<int>) returns (target: int, err: bool)
    requires SourceOk(source) && maxID - minID < MAX_INT64
    ensures err <==> minID < maxID && source(maxID - minID + 1) == None
    ensures !err ==> minID <= target <= Max(minID, maxID)
    ensures !err && minID < maxID ==> source(maxID - minID + 1) == Some(target - minID)
  {
    if maxID <= minID {
      return minID, false;
    }
    var n := source(maxID - minID + 1);
    if n == None {
      return 0, true;
    }
    return minID + n.value, false;
  }

  /** Which of the queries fail. */
  datatype Queries = Queries(boundsErr: bool, aboveErr: bool, fetchErr: bool)

  datatype Found = Failed | NotFound | Image(id: int)

  /** The drawn target, when there is more than one id to choose from. */
  function TargetOf(low: int, high: int, source: int -> Option<int>): Option<int> {
    if low >= high then Some(low)
    else match source(high - low + 1)
      case None => None
      case Some(n) => Some(low + n)
  }

  /** What a call that matches something is to find, given the least and the greatest id. */
  ghost predicate FoundFrom(ids: set<int>, low: int, high: int, source: int -> Option<int>, q: Queries, found: Found) {
    var target := TargetOf(low, high, source);
    if q.boundsErr || target == None || q.aboveErr || q.fetchErr then found == Failed
    else found.Image? && Selects(ids, target.value, found.id)
  }

  /** The query from the target on never comes back empty, so the one below the target is never
      asked. */
  method GetRandomPublicImage(pictures: map<int, Picture>, f: Filter, source: int -> Option<int>, q: Queries)
    returns (found: Found)
    requires SourceOk(source) && forall id :: id in pictures ==> 0 < id <= MAX_INT64
    ensures var ids := MatchingIds(pictures, f);
      && (ids == {} ==> found == if q.boundsErr then Failed else NotFound)
      && (forall low, high :: IsMin(ids, low) && IsMax(ids, high) ==> FoundFrom(ids, low, high, source, q, found))
    ensures found.Image? ==> found.id in pictures && !RuledOut(pictures[found.id], f)
    ensures found == NotFound <==> (!q.boundsErr && forall id :: id in pictures ==> RuledOut(pictures[id], f))
  {
    MatchingIsNotRuledOut(pictures, f);
    var ids := MatchingIds(pictures, f);
    if q.boundsErr {
      return Failed;
    }
    if ids == {} {
      return NotFound;
    }
    HasMin(ids);
    var minID: int :| minID in ids && IsMin(ids, minID);
    var maxID: int :| maxID in ids && IsMax(ids, maxID);
    assert forall low, high :: IsMin(ids, low) && IsMax(ids, high) ==> low == minID && high == maxID;
    var targetID, err := RandomUint(minID, maxID, source);
    if err || q.aboveErr {
      return Failed;
    }
    var above := set x | x in ids && targetID <= x;
    assert maxID in above;
    if above == {} {
      // the query below the target
      assert false;
    }
    HasMin(above);
    var id: int :| id in above && IsMin(above, id);
    assert forall x :: x in ids && targetID <= x ==> x in above;
    return if q.fetchErr then Failed else Image(id);
  }

  // ---------- how often each id is drawn ----------

  predicate Between(low: int, t: int, high: int) { low < t <= high }

  function Range(low: int, high: int): set<int> { set t | low < t <= high && Between(low, t, high) }

  lemma {:induction false} RangeSize(low: int, high: int)
    requires low <= high
    ensures |Range(low, high)| == high - low
    decreases high - low
  {
    if low < high {
      RangeSize(low, high - 1);
      assert Range(low, high) == Range(low, high - 1) + {high};
    } else {
      assert Range(low, high) == {};
    }
  }

  /** The targets between the bounds that lead to `id`. */
  function TargetsOf(ids: set<int>, low: int, high: int, id: int): set<int> {
    set t: int | low <= t <= high && Selects(ids, t, id)
  }

  function Below(ids: set<int>, id: int): set<int> { set x | x in ids && x < id }

  /** The greatest id below `id`. */
  predicate IsPredecessor(ids: set<int>, id: int, before: int) {
    IsMax(Below(ids, id), before)
  }

  /** Every target between the bounds selects exactly one id. */
  lemma EveryTargetSelects(ids: set<int>, low: int, high: int, target: int)
    requires IsMin(ids, low) && IsMax(ids, high) && low <= target <= high
    ensures exists id :: Selects(ids, target, id)
    ensures forall id, other :: Selects(ids, target, id) && Selects(ids, target, other) ==> id == other
  {
    var above := set x | x in ids && target <= x;
    assert high in above;
    HasMin(above);
    var id :| IsMin(above, id);
    assert forall x :: x in ids && target <= x ==> x in above;
    assert Selects(ids, target, id);
  }

  /** An id is selected by as many targets as its distance from its predecessor, and the least
      id by one: the draw is uniform over targets, not over images. */
  lemma TimesSelected(ids: set<int>, low: int, high: int, id: int)
    requires IsMin(ids, low) && IsMax(ids, high) && id in ids
    ensures id == low ==> |TargetsOf(ids, low, high, id)| == 1
    ensures forall before :: IsPredecessor(ids, id, before) ==> |TargetsOf(ids, low, high, id)| == id - before
  {
    if id == low {
      assert TargetsOf(ids, low, high, id) == {low};
    }
    forall before | IsPredecessor(ids, id, before) ensures |TargetsOf(ids, low, high, id)| == id - before {
      var smaller := Below(ids, id);
      assert forall x :: x in ids && x < id ==> x in smaller;
      assert before in smaller;
      forall t: int ensures t in TargetsOf(ids, low, high, id) <==> t in Range(before, id) {
        if before < t <= id {
          assert forall x :: x in ids && t <= x ==> x !in smaller;
        }
      }
      assert TargetsOf(ids, low, high, id) == Range(before, id);
      RangeSize(before, id);
    }
  }

  /** The times of the ids in `some`, added up from the greatest down. */
  ghost function Sum(some: set<int>, ids: set<int>, low: int, high: int): nat
    decreases |some|
  {
    if some == {} then 0
    else
      HasMin(some);
      var top :| IsMax(some, top);
      Sum(some - {top}, ids, low, high) + |TargetsOf(ids, low, high, top)|
  }

  lemma {:induction false} SumUpTo(some: set<int>, ids: set<int>, low: int, high: int, top: int)
    requires IsMin(ids, low) && IsMax(ids, high) && top in ids && some == set x | x in ids && x <= top
    ensures Sum(some, ids, low, high) == top - low + 1
    decreases |some|
  {
    HasMin(some);
    assert top in some;
    assert forall m :: IsMax(some, m) ==> m == top;
    TimesSelected(ids, low, high, top);
    var rest := some - {top};
    if top == low {
      assert rest == {};
    } else {
      assert low in rest;
      HasMin(rest);
      var before :| IsMax(rest, before);
      assert rest == Below(ids, top);
      assert IsPredecessor(ids, top, before);
      assert rest == set x | x in ids && x <= before;
      SumUpTo(rest, ids, low, high, before);
    }
  }

  /** Over all ids the times add up to the number of targets: every draw is accounted for. */
  lemma TimesAddUp(ids: set<int>, low: int, high: int)
    requires IsMin(ids, low) && IsMax(ids, high)
    ensures Sum(ids, ids, low, high) == high - low + 1
  {
    assert ids == set x | x in ids && x <= high;
    SumUpTo(ids, ids, low, high, high);
  }

  /** The number `d`, drawn above `low`, leads to `id`. */
  predicate DrawSelects(ids: set<int>, low: int, d: int, id: int) { Selects(ids, low + d, id) }

  function DrawsOf(ids: set<int>, low: int, high: int, id: int): set<int> {
    set d: int | 0 <= d <= high - low && DrawSelects(ids, low, d, id)
  }

  /** In terms of the numbers drawn: as many lead to an id as its distance from its predecessor. */
  lemma DrawsSelecting(ids: set<int>, low: int, high: int, id: int)
    requires IsMin(ids, low) && IsMax(ids, high) && id in ids
    ensures id == low ==> DrawsOf(ids, low, high, id) == {0}
    ensures forall before :: IsPredecessor(ids, id, before) ==> |DrawsOf(ids, low, high, id)| == id - before
  {
    if id == low {
      forall d: int ensures d in DrawsOf(ids, low, high, id) <==> d == 0 {}
    }
    forall before | IsPredecessor(ids, id, before) ensures |DrawsOf(ids, low, high, id)| == id - before {
      var smaller := Below(ids, id);
      assert before in smaller && forall x :: x in ids && x < id ==> x in smaller;
      forall d: int ensures d in DrawsOf(ids, low, high, id) <==> d in Range(before - low, id - low) {
        if before - low < d <= id - low {
          assert forall x :: x in ids && low + d <= x ==> x !in smaller;
        }
      }
      assert DrawsOf(ids, low, high, id) == Range(before - low, id - low);
      RangeSize(before - low, id - low);
    }
  }
}
