/** Original image files, shared by the records that were deduplicated onto them: uploads and
    deletions as whole operations, over the image table and the files of all storage providers. */
module Originals {
  import opened Paths

  datatype Img = Img(identifier: string, path: string, config: nat, hash: string, user: nat, deleted: bool)

  type Images = map<nat, Img>

  datatype File = File(provider: nat, path: string)

  datatype Store = Store(images: Images, files: set<File>)

  /** Which provider serves a storage configuration: fixed, otherwise arbitrary. */
  type Providers = nat -> nat

  function FileOf(img: Img, where: Providers): File { File(where(img.config), img.path) }

  predicate LiveHash(images: Images, id: nat, hash: string) {
    id in images && !images[id].deleted && images[id].hash == hash
  }

  predicate LivePath(images: Images, id: nat, path: string) {
    id in images && !images[id].deleted && images[id].path == path
  }

  /** CountImagesByStoragePath > 0: counted by path alone, over all storage configurations. */
  predicate Referenced(images: Images, path: string) { exists id :: id in images && LivePath(images, id, path) }

  predicate HashLive(images: Images, hash: string) { exists id :: id in images && LiveHash(images, id, hash) }

  // ---------- uploads ----------

  datatype Request = Request(user: nat, hash: string, ext: string, date: Date, config: nat)

  predicate RequestOk(r: Request) {
    |r.hash| >= PREFIX && HashOk(r.hash[..PREFIX]) && ExtOk(r.ext) && DateOk(r.date)
  }

  function NewIds(r: Request): Identifiers
    requires RequestOk(r)
  {
    GenerateOriginal(r.hash, r.ext, DatePath(r.date))
  }

  function NewImg(r: Request): Img
    requires RequestOk(r)
  {
    Img(NewIds(r).identifier, NewIds(r).storagePath, r.config, r.hash, r.user, false)
  }

  /** A record for another user on an existing file: the user suffix the code appends to the hash
      is cut off again with everything after the prefix. */
  function DedupedImg(src: Img, r: Request): Img
    requires RequestOk(r) && |src.hash| >= PREFIX
  {
    Img(GenerateOriginal(src.hash + "_" + Itoa(r.user), r.ext, DatePath(r.date)).identifier,
        src.path, src.config, src.hash, r.user, false)
  }

  datatype Result =
    Rejected | Existing(id: nat) | Linked(id: nat, src: nat) | Restored(id: nat, src: nat) | Stored(id: nat)

  // ---------- which record an upload meets ----------

  predicate GoneHash(images: Images, id: nat, hash: string) {
    id in images && images[id].deleted && images[id].hash == hash
  }

  predicate IdentifierLive(images: Images, identifier: string) {
    exists id :: id in images && LiveUnder(images, id, identifier)
  }

  predicate LiveUnder(images: Images, id: nat, identifier: string) {
    id in images && !images[id].deleted && images[id].identifier == identifier
  }

  /** The ORM's `First` goes by primary key. */
  predicate FirstLive(images: Images, id: nat, hash: string) {
    LiveHash(images, id, hash) && forall other :: other in images && LiveHash(images, other, hash) ==> id <= other
  }

  predicate FirstGone(images: Images, id: nat, hash: string) {
    GoneHash(images, id, hash) && forall other :: other in images && GoneHash(images, other, hash) ==> id <= other
  }

  predicate FirstUnder(images: Images, id: nat, identifier: string) {
    LiveUnder(images, id, identifier)
    && forall other :: other in images && LiveUnder(images, other, identifier) ==> id <= other
  }

  /** No live record has the hash, and the first deleted one with it can be reused. */
  predicate Reuses(s: Store, r: Request, id: nat, where: Providers) {
    !HashLive(s.images, r.hash) && FirstGone(s.images, id, r.hash) && Reusable(s, s.images[id], where)
  }

  /** That record is the user's own, and no live record has its identifier: restoring it, by an
      update that leaves deleted records alone, finds nothing. */
  predicate TurnedAway(s: Store, r: Request, where: Providers) {
    exists id :: id in s.images && Reuses(s, r, id, where) && s.images[id].user == r.user
                 && !IdentifierLive(s.images, s.images[id].identifier)
  }

  /** The record whose file an upload is put on. */
  predicate Source(s: Store, r: Request, id: nat, where: Providers) {
    FirstLive(s.images, id, r.hash) || Reuses(s, r, id, where)
  }

  /** The record an upload leaves with its user, column by column. */
  predicate BelongsTo(images: Images, id: nat, r: Request) {
    id in images && !images[id].deleted && images[id].user == r.user && images[id].hash == r.hash
  }

  predicate NewRecord(before: Images, after: Images, r: Request, result: Result)
    requires RequestOk(r)
  {
    match result
    case Stored(id) =>
      id !in before && BelongsTo(after, id, r)
      && after[id].config == r.config && after[id].path == NewIds(r).storagePath
    case Linked(id, src) =>
      && id !in before && src in before && BelongsTo(after, id, r)
      && after[id].path == before[src].path && after[id].config == before[src].config
    case Existing(id) => after == before && BelongsTo(after, id, r)
    case _ => after == before
  }

  /** Whoever uploads has the image afterwards, whoever had it before; every other record stays. */
  lemma UploaderHasTheImage(s: Store, s': Store, r: Request, result: Result, where: Providers)
    requires RequestOk(r) && UploadStep(s, s', r, result, where)
    ensures result.Stored? || result.Linked? || result.Existing? ==>
      exists id :: id in s'.images && BelongsTo(s'.images, id, r)
    ensures NewRecord(s.images, s'.images, r, result)
    ensures forall id :: id in s.images ==> id in s'.images && s'.images[id] == s.images[id]
  {
    if result.Stored? || result.Linked? || result.Existing? {
      assert BelongsTo(s'.images, result.id, r);
    }
  }

  /** What an upload ends in when nothing fails. */
  predicate Expected(s: Store, r: Request, result: Result, where: Providers) {
    match result
    case Rejected => TurnedAway(s, r, where)
    case Existing(id) => FirstLive(s.images, id, r.hash) && s.images[id].user == r.user
    case Linked(_, src) => Source(s, r, src, where) && s.images[src].user != r.user
    case Restored(id, src) =>
      Reuses(s, r, src, where) && s.images[src].user == r.user && FirstUnder(s.images, id, s.images[src].identifier)
    case Stored(_) => forall id :: id in s.images ==> !Source(s, r, id, where)
  }

  /** These cases exclude each other, so each of them is exact. */
  lemma ExpectedIsExact(s: Store, r: Request, result: Result, where: Providers)
    requires Expected(s, r, result, where)
    ensures result == Rejected <==> TurnedAway(s, r, where)
    ensures result.Stored? <==> forall id :: id in s.images ==> !Source(s, r, id, where)
    ensures result.Existing? <==>
      exists id :: id in s.images && FirstLive(s.images, id, r.hash) && s.images[id].user == r.user
    ensures result.Linked? <==>
      exists id :: id in s.images && Source(s, r, id, where) && s.images[id].user != r.user
  {
    forall id, other | id in s.images && other in s.images && Source(s, r, id, where) && Source(s, r, other, where)
      ensures id == other {}
  }

  predicate ChangedOnlyAt(files: set<File>, files': set<File>, f: File) {
    files' == files || files' == files + {f} || files' == files - {f}
  }

  /** `canReuseSoftDeletedImage`, when its queries go through. */
  predicate Reusable(s: Store, img: Img, where: Providers) {
    img.path != "" && (Referenced(s.images, img.path) || FileOf(img, where) in s.files)
  }

  /** What one upload may do.  Restoring a soft-deleted record updates by identifier, and the
      ORM scopes that update to records that are not deleted. */
  predicate UploadStep(s: Store, s': Store, r: Request, result: Result, where: Providers)
    requires RequestOk(r)
  {
    match result
    case Rejected =>
      s'.images == s.images && (HashLive(s.images, r.hash) ==> s'.files == s.files)
      && ChangedOnlyAt(s.files, s'.files, FileOf(NewImg(r), where))
    case Existing(id) => s' == s && LiveHash(s.images, id, r.hash) && s.images[id].user == r.user
    case Linked(id, src) =>
      && id !in s.images && src in s.images && s.images[src].hash == r.hash && s.images[src].user != r.user
      && (s.images[src].deleted ==> !HashLive(s.images, r.hash) && Reusable(s, s.images[src], where))
      && s'.files == s.files && |s.images[src].hash| >= PREFIX
      && s'.images == s.images[id := DedupedImg(s.images[src], r)]
    case Restored(id, src) =>
      && src in s.images && s.images[src].deleted && s.images[src].hash == r.hash && s.images[src].user == r.user
      && !HashLive(s.images, r.hash) && s' == s
      && id in s.images && !s.images[id].deleted && s.images[id].identifier == s.images[src].identifier
    case Stored(id) =>
      && id !in s.images && !HashLive(s.images, r.hash)
      && s'.files == s.files + {FileOf(NewImg(r), where)} && s'.images == s.images[id := NewImg(r)]
  }

  // ---------- deletions ----------

  predicate Selected(img: Img, identifiers: seq<string>, user: nat) {
    !img.deleted && img.identifier in identifiers && img.user == user
  }

  function Deleted(images: Images, identifiers: seq<string>, user: nat): Images {
    map id | id in images ::
      if Selected(images[id], identifiers, user) then images[id].(deleted := true) else images[id]
  }

  /** The files nobody references any more because of this deletion. */
  function Orphans(images: Images, identifiers: seq<string>, user: nat, where: Providers): set<File> {
    set id | id in images && Selected(images[id], identifiers, user) && images[id].path != ""
             && !Referenced(Deleted(images, identifiers, user), images[id].path) :: FileOf(images[id], where)
  }

  /** A user deletes only what is the user's own: records under one of the identifiers. */
  predicate OwnRecordsGo(before: Images, after: Images, identifiers: seq<string>, user: nat) {
    before.Keys == after.Keys
    && forall id :: id in before ==>
      after[id] == before[id].(deleted := before[id].deleted
                                          || (before[id].user == user && before[id].identifier in identifiers))
  }

  /** The file of a record that was deleted stays exactly if some live record still has its path. */
  predicate OnlySharedFilesStay(before: Images, files: set<File>, after: Images, left: set<File>, where: Providers) {
    forall id :: id in before && id in after && !before[id].deleted && after[id].deleted && before[id].path != ""
                 && File(where(before[id].config), before[id].path) in files ==>
      (File(where(before[id].config), before[id].path) in left <==>
       exists other :: other in after && !after[other].deleted && after[other].path == before[id].path)
  }

  lemma DeletionWrittenOut(images: Images, identifiers: seq<string>, user: nat, where: Providers, files: set<File>)
    ensures OwnRecordsGo(images, Deleted(images, identifiers, user), identifiers, user)
    ensures OnlySharedFilesStay(images, files, Deleted(images, identifiers, user),
                                files - Orphans(images, identifiers, user, where), where)
  {
    var after := Deleted(images, identifiers, user);
    forall path ensures Referenced(after, path) <==>
                        exists other :: other in after && !after[other].deleted && after[other].path == path {
      forall other | other in after && !after[other].deleted && after[other].path == path
        ensures LivePath(after, other, path) {}
    }
    forall id | id in images && !images[id].deleted && after[id].deleted && images[id].path != ""
      ensures FileOf(images[id], where) in Orphans(images, identifiers, user, where) <==>
              !Referenced(after, images[id].path)
    {
      assert Selected(images[id], identifiers, user);
    }
  }

  predicate DeleteStep(s: Store, s': Store, identifiers: seq<string>, user: nat, where: Providers) {
    || s' == s
    || (s'.images == Deleted(s.images, identifiers, user) && s'.files <= s.files
        && s.files - s'.files <= Orphans(s.images, identifiers, user, where))
  }

  // ---------- runs ----------

  datatype Event = Upload(r: Request, result: Result) | Delete(identifiers: seq<string>, user: nat)

  datatype Run = Run(stores: seq<Store>, events: seq<Event>)

  predicate Step(s: Store, s': Store, e: Event, hashes: iset<string>, where: Providers) {
    match e
    case Upload(r, result) => RequestOk(r) && r.hash in hashes && UploadStep(s, s', r, result, where)
    case Delete(identifiers, user) => DeleteStep(s, s', identifiers, user, where)
  }

  ghost predicate ValidRun(run: Run, hashes: iset<string>, where: Providers) {
    && |run.stores| == |run.events| + 1 && run.stores[0] == Store(map[], {})
    && forall i :: 0 <= i < |run.events| ==> Step(run.stores[i], run.stores[i + 1], run.events[i], hashes, where)
  }

  // ---------- the claim ----------

  /** Every live record's file is there, where its configuration says. */
  ghost predicate NoneDangling(s: Store, where: Providers) {
    forall id :: id in s.images && !s.images[id].deleted ==> FileOf(s.images[id], where) in s.files
  }

  /** A way to read a hash's prefix back from a stored path. */
  ghost predicate ReadsPrefix(key: string -> string) {
    forall r: Request :: RequestOk(r) ==> key(NewIds(r).storagePath) == r.hash[..PREFIX]
  }

  lemma ExtractHashReadsPrefix()
    ensures ReadsPrefix(p => ExtractHash(p))
  {
    var key := p => ExtractHash(p);
    forall r: Request | RequestOk(r) ensures key(NewIds(r).storagePath) == r.hash[..PREFIX] {
      OriginalRoundTrip(r.hash, r.ext, r.date, "");
    }
  }

  /** Every record's path and identifier carry the prefix of its hash. */
  ghost predicate PathsOk(s: Store, hashes: iset<string>, key: string -> string) {
    forall id :: id in s.images ==>
      s.images[id].hash in hashes && |s.images[id].hash| >= PREFIX
      && s.images[id].identifier == s.images[id].hash[..PREFIX] == key(s.images[id].path)
  }

  ghost predicate PrefixesDiffer(hashes: iset<string>) {
    forall h, k :: h in hashes && k in hashes && |h| >= PREFIX && |k| >= PREFIX && h[..PREFIX] == k[..PREFIX] ==> h == k
  }

  lemma SamePathSameHash(s: Store, hashes: iset<string>, key: string -> string, id: nat, other: nat)
    requires PathsOk(s, hashes, key) && PrefixesDiffer(hashes) && id in s.images && other in s.images
    requires s.images[id].path == s.images[other].path
    ensures s.images[id].hash == s.images[other].hash
  {
  }

  lemma UploadKeepsPaths(s: Store, s': Store, r: Request, result: Result, hashes: iset<string>,
                         key: string -> string, where: Providers)
    requires RequestOk(r) && r.hash in hashes && UploadStep(s, s', r, result, where)
    requires PathsOk(s, hashes, key) && ReadsPrefix(key)
    ensures PathsOk(s', hashes, key)
  {
    if result.Stored? {
      assert key(NewIds(r).storagePath) == r.hash[..PREFIX];
    }
  }

  lemma UploadKeepsFiles(s: Store, s': Store, r: Request, result: Result, hashes: iset<string>,
                         key: string -> string, where: Providers)
    requires RequestOk(r) && r.hash in hashes && UploadStep(s, s', r, result, where)
    requires PathsOk(s, hashes, key) && PrefixesDiffer(hashes) && NoneDangling(s, where) && ReadsPrefix(key)
    ensures NoneDangling(s', where)
  {
    if result.Rejected? {
      assert key(NewIds(r).storagePath) == r.hash[..PREFIX];
      forall id | id in s.images && !s.images[id].deleted ensures FileOf(s.images[id], where) in s'.files {
        assert s.images[id].path == NewIds(r).storagePath ==> LiveHash(s.images, id, r.hash);
      }
    } else if result.Linked? && Referenced(s.images, s.images[result.src].path) {
      ReferencedHashIsLive(s, hashes, key, result.src);
    }
  }

  lemma ReferencedHashIsLive(s: Store, hashes: iset<string>, key: string -> string, src: nat)
    requires PathsOk(s, hashes, key) && PrefixesDiffer(hashes)
    requires src in s.images && Referenced(s.images, s.images[src].path)
    ensures HashLive(s.images, s.images[src].hash)
  {
    var other :| other in s.images && LivePath(s.images, other, s.images[src].path);
    SamePathSameHash(s, hashes, key, src, other);
    assert LiveHash(s.images, other, s.images[src].hash);
  }

  lemma IdentifierHashIsLive(s: Store, hashes: iset<string>, key: string -> string, id: nat)
    requires PathsOk(s, hashes, key) && PrefixesDiffer(hashes)
    requires id in s.images && IdentifierLive(s.images, s.images[id].identifier)
    ensures HashLive(s.images, s.images[id].hash)
  {
    var other :| other in s.images && LiveUnder(s.images, other, s.images[id].identifier);
    assert s.images[other].hash in hashes && s.images[id].hash in hashes;
    assert LiveHash(s.images, other, s.images[id].hash);
  }

  lemma OrphanIsUnreferenced(images: Images, identifiers: seq<string>, user: nat, where: Providers, f: File)
    requires f in Orphans(images, identifiers, user, where)
    ensures !Referenced(Deleted(images, identifiers, user), f.path)
  {
  }

  lemma DeleteKeepsFiles(s: Store, s': Store, identifiers: seq<string>, user: nat, hashes: iset<string>,
                         key: string -> string, where: Providers)
    requires DeleteStep(s, s', identifiers, user, where) && PathsOk(s, hashes, key) && NoneDangling(s, where)
    ensures PathsOk(s', hashes, key) && NoneDangling(s', where)
  {
    forall f | f in Orphans(s.images, identifiers, user, where)
      ensures !Referenced(Deleted(s.images, identifiers, user), f.path)
    {
      OrphanIsUnreferenced(s.images, identifiers, user, where, f);
    }
    forall id | id in s'.images && !s'.images[id].deleted ensures FileOf(s'.images[id], where) in s'.files {
      assert s'.images[id] == s.images[id];
      assert LivePath(s'.images, id, s'.images[id].path);
    }
  }

  lemma StepIsSafe(s: Store, s': Store, e: Event, hashes: iset<string>, key: string -> string, where: Providers)
    requires Step(s, s', e, hashes, where) && PrefixesDiffer(hashes)
    requires PathsOk(s, hashes, key) && NoneDangling(s, where) && ReadsPrefix(key)
    ensures PathsOk(s', hashes, key) && NoneDangling(s', where)
  {
    match e
    case Upload(r, result) =>
      UploadKeepsPaths(s, s', r, result, hashes, key, where);
      UploadKeepsFiles(s, s', r, result, hashes, key, where);
    case Delete(identifiers, user) => DeleteKeepsFiles(s, s', identifiers, user, hashes, key, where);
  }

  lemma {:induction false} RunIsSafe(run: Run, hashes: iset<string>, key: string -> string, where: Providers, k: nat)
    requires ValidRun(run, hashes, where) && PrefixesDiffer(hashes) && ReadsPrefix(key) && k < |run.stores|
    ensures PathsOk(run.stores[k], hashes, key) && NoneDangling(run.stores[k], where)
  {
    if k > 0 {
      RunIsSafe(run, hashes, key, where, k - 1);
      StepIsSafe(run.stores[k - 1], run.stores[k], run.events[k - 1], hashes, key, where);
    }
  }

  /** The live records of a hash share one file. */
  ghost predicate Shared(s: Store) {
    forall i, j :: i in s.images && j in s.images && !s.images[i].deleted && !s.images[j].deleted
                   && s.images[i].hash == s.images[j].hash ==>
      s.images[i].path == s.images[j].path && s.images[i].config == s.images[j].config
  }

  lemma StepKeepsShared(s: Store, s': Store, e: Event, hashes: iset<string>, where: Providers)
    requires Step(s, s', e, hashes, where) && Shared(s)
    ensures Shared(s')
  {
    if e.Upload? && (e.result.Linked? || e.result.Stored?) {
      forall i | i in s.images && !s.images[i].deleted && s.images[i].hash == e.r.hash
        ensures LiveHash(s.images, i, e.r.hash) && HashLive(s.images, e.r.hash) {}
    }
  }

  lemma {:induction false} RunKeepsShared(run: Run, hashes: iset<string>, where: Providers, k: nat)
    requires ValidRun(run, hashes, where) && k < |run.stores|
    ensures Shared(run.stores[k])
  {
    if k > 0 {
      RunKeepsShared(run, hashes, where, k - 1);
      StepKeepsShared(run.stores[k - 1], run.stores[k], run.events[k - 1], hashes, where);
    }
  }

  /** Without prefix collisions the live records under one identifier share one file in every
      reachable state, so looking at the first of them when deleting by identifier is enough. */
  lemma IdentifierHasOneFile(run: Run, hashes: iset<string>, where: Providers, k: nat, identifier: string)
    requires ValidRun(run, hashes, where) && PrefixesDiffer(hashes) && k < |run.stores|
    ensures OneFile(run.stores[k].images, identifier)
  {
    var key := p => ExtractHash(p);
    ExtractHashReadsPrefix();
    RunIsSafe(run, hashes, key, where, k);
    RunKeepsShared(run, hashes, where, k);
    SameIdentifierSameFile(run.stores[k], hashes, key, identifier);
  }

  lemma SameIdentifierSameFile(s: Store, hashes: iset<string>, key: string -> string, identifier: string)
    requires PathsOk(s, hashes, key) && PrefixesDiffer(hashes) && Shared(s)
    ensures OneFile(s.images, identifier)
  {
    forall i, j | i in s.images && j in s.images && s.images[i].identifier == identifier == s.images[j].identifier
      ensures s.images[i].hash == s.images[j].hash
    {
      assert s.images[i].hash in hashes && s.images[j].hash in hashes;
    }
  }

  ghost predicate Safe(hashes: iset<string>, where: Providers) {
    forall run, k: nat :: ValidRun(run, hashes, where) && k < |run.stores| ==> NoneDangling(run.stores[k], where)
  }

  const SOME_DAY := Date("2024", "01", "02")

  /** Two hashes with a common prefix: the second upload overwrites the first one's file, fails to
      save its metadata, and its compensating delete takes the file away. */
  lemma CollisionDangles(h: string, k: string, hashes: iset<string>, where: Providers) returns (run: Run)
    requires h in hashes && k in hashes && h != k && |h| >= PREFIX && |k| >= PREFIX && h[..PREFIX] == k[..PREFIX]
    requires HashOk(h[..PREFIX])
    ensures ValidRun(run, hashes, where) && |run.stores| == 3 && !NoneDangling(run.stores[2], where)
  {
    var first, second := Request(0, h, "", SOME_DAY, 0), Request(0, k, "", SOME_DAY, 0);
    var f := FileOf(NewImg(first), where);
    assert f == FileOf(NewImg(second), where);
    var s1 := Store(map[0 := NewImg(first)], {f});
    var s2 := Store(map[0 := NewImg(first)], {});
    run := Run([Store(map[], {}), s1, s2], [Upload(first, Stored(0)), Upload(second, Rejected)]);
    assert UploadStep(Store(map[], {}), s1, first, Stored(0), where) by {
      assert forall id :: !LiveHash(map[], id, h);
    }
    assert UploadStep(s1, s2, second, Rejected, where) by {
      assert forall id :: !LiveHash(s1.images, id, k);
    }
    assert !NoneDangling(s2, where) by {
      assert 0 in s2.images && FileOf(s2.images[0], where) !in s2.files;
    }
  }

  /** No live image is ever left without its original file, on every run of uploads and deletions
      with whatever failures, exactly when no two different hashes share their first 12 digits. */
  lemma NoDanglingOriginal(hashes: iset<string>, where: Providers)
    requires forall h :: h in hashes ==> |h| >= PREFIX && HashOk(h[..PREFIX])
    ensures Safe(hashes, where) <==> PrefixesDiffer(hashes)
  {
    if PrefixesDiffer(hashes) {
      ExtractHashReadsPrefix();
      forall run, k: nat | ValidRun(run, hashes, where) && k < |run.stores| ensures NoneDangling(run.stores[k], where) {
        RunIsSafe(run, hashes, p => ExtractHash(p), where, k);
      }
    } else {
      var h, k :| h in hashes && k in hashes && |h| >= PREFIX && |k| >= PREFIX && h[..PREFIX] == k[..PREFIX] && h != k;
      var run := CollisionDangles(h, k, hashes, where);
      assert !Safe(hashes, where);
    }
  }

  /** The restore branch never succeeds: without prefix collisions, no upload in any run ends in
      it.  Which uploads it turns away instead is `TurnedAway`. */
  lemma RestoreNeverSucceeds(run: Run, hashes: iset<string>, where: Providers, k: nat)
    requires ValidRun(run, hashes, where) && PrefixesDiffer(hashes) && k < |run.events| && run.events[k].Upload?
    ensures !run.events[k].result.Restored?
  {
    var key := p => ExtractHash(p);
    ExtractHashReadsPrefix();
    RunIsSafe(run, hashes, key, where, k);
    RestoreFindsNothing(run.stores[k], run.stores[k + 1], run.events[k].r, run.events[k].result, hashes, key, where);
  }

  /** Without prefix collisions, in every reachable state: an upload that meets no failure is
      turned away exactly when its hash survives only in deleted records, the first of which is
      the user's own and still has its file. */
  lemma OwnDeletedFileTurnsAway(run: Run, hashes: iset<string>, where: Providers, k: nat, r: Request)
    requires ValidRun(run, hashes, where) && PrefixesDiffer(hashes) && k < |run.stores| && r.hash in hashes
    ensures var s := run.stores[k];
      TurnedAway(s, r, where) <==>
      !HashLive(s.images, r.hash)
      && exists id :: id in s.images && FirstGone(s.images, id, r.hash) && s.images[id].user == r.user
                      && FileOf(s.images[id], where) in s.files
  {
    var key := p => ExtractHash(p);
    ExtractHashReadsPrefix();
    RunIsSafe(run, hashes, key, where, k);
    EmptyPathHasNoHash();
    var s := run.stores[k];
    if !HashLive(s.images, r.hash) {
      forall id | id in s.images && FirstGone(s.images, id, r.hash)
        ensures !IdentifierLive(s.images, s.images[id].identifier)
        ensures Reuses(s, r, id, where) <==> FileOf(s.images[id], where) in s.files
      {
        OnlyDeletedLeft(s, hashes, key, id, where);
      }
    }
  }

  lemma EmptyPathHasNoHash()
    ensures ExtractHash("") == ""
  {
  }

  /** When the hash of a record is not live, neither is its identifier, nor its path. */
  lemma OnlyDeletedLeft(s: Store, hashes: iset<string>, key: string -> string, id: nat, where: Providers)
    requires PathsOk(s, hashes, key) && key("") == "" && PrefixesDiffer(hashes) && id in s.images
    requires !HashLive(s.images, s.images[id].hash)
    ensures !IdentifierLive(s.images, s.images[id].identifier)
    ensures Reusable(s, s.images[id], where) <==> FileOf(s.images[id], where) in s.files
  {
    if Referenced(s.images, s.images[id].path) {
      ReferencedHashIsLive(s, hashes, key, id);
    }
    if IdentifierLive(s.images, s.images[id].identifier) {
      IdentifierHashIsLive(s, hashes, key, id);
    }
    assert key(s.images[id].path) == s.images[id].hash[..PREFIX];
  }

  /** Such a state is reached by deleting an image when the removal of its file fails. */
  lemma RefusedAfterFailedRemoval(r: Request, hashes: iset<string>, where: Providers) returns (run: Run)
    requires RequestOk(r) && r.hash in hashes
    ensures ValidRun(run, hashes, where) && |run.stores| == 3
    ensures run.events == [Upload(r, Stored(0)), Delete([NewImg(r).identifier], r.user)]
    ensures TurnedAway(run.stores[2], r, where)
  {
    var img, f := NewImg(r), FileOf(NewImg(r), where);
    var s0 := Store(map[], {});
    var s1, s2 := Store(map[0 := img], {f}), Store(map[0 := img.(deleted := true)], {f});
    run := Run([s0, s1, s2], [Upload(r, Stored(0)), Delete([img.identifier], r.user)]);
    assert UploadStep(s0, s1, r, Stored(0), where) by {
      assert forall id :: !LiveHash(map[], id, r.hash);
    }
    assert Deleted(s1.images, [img.identifier], r.user) == s2.images;
    assert TurnedAway(s2, r, where) by {
      assert img.path != "";
      assert 0 in s2.images && Reuses(s2, r, 0, where);
    }
  }

  lemma RestoreFindsNothing(s: Store, s': Store, r: Request, result: Result, hashes: iset<string>,
                            key: string -> string,
                            where: Providers)
    requires RequestOk(r) && UploadStep(s, s', r, result, where) && PathsOk(s, hashes, key) && PrefixesDiffer(hashes)
    ensures !result.Restored?
  {
    assert result.Restored? ==> LiveHash(s.images, result.id, r.hash) by {
      if result.Restored? {
        assert s.images[result.id].hash in hashes && s.images[result.src].hash in hashes;
      }
    }
  }

  lemma NotReusable(s: Store, r: Request, first: nat, where: Providers)
    requires !HashLive(s.images, r.hash) && FirstGone(s.images, first, r.hash) && !Reusable(s, s.images[first], where)
    ensures forall id :: id in s.images ==> !Source(s, r, id, where)
  {
    assert forall id :: id in s.images && FirstGone(s.images, id, r.hash) ==> id == first;
  }

  lemma ExpectedUnlessFaulty(s: Store, r: Request, result: Result, where: Providers, faulty: bool)
    requires !faulty ==> Expected(s, r, result, where)
    ensures !faulty ==> (result == Rejected <==> TurnedAway(s, r, where))
  {
    if !faulty {
      ExpectedIsExact(s, r, result, where);
    }
  }

  // ---------- the code ----------

  /** The error an upload of a new file ends with. */
  datatype Failure = NoFailure | SaveFailed | SizeUnknown | MetadataFailed

  lemma {:induction false} HasLeast(ids: set<nat>) returns (least: nat)
    requires ids != {}
    ensures least in ids && forall id :: id in ids ==> least <= id
    decreases |ids|
  {
    least :| least in ids;
    if ids != {least} {
      var rest := ids - {least};
      var other := HasLeast(rest);
      assert forall id :: id in ids ==> id == least || id in rest;
      least := if other < least then other else least;
    }
  }

  /** `faults` counts the statements and file operations that failed. */
  class ImageLibrary {
    const where: Providers
    var images: Images
    var files: set<File>
    ghost var faults: nat

    constructor (where: Providers)
      ensures this.where == where && images == map[] && files == {} && faults == 0
    {
      this.where := where;
      images, files, faults := map[], {}, 0;
    }

    ghost function Current(): Store reads this { Store(images, files) }

    /** A failed save may leave the file as it was, write it, or spoil it. */
    method SaveFile(f: File) returns (err: bool)
      modifies this`files, this`faults
      ensures !err ==> files == old(files) + {f} && faults == old(faults)
      ensures err ==> ChangedOnlyAt(old(files), files, f) && faults == old(faults) + 1
    {
      err := *;
      if err {
        var partial, lost := *, *;
        files := if partial then files + {f} else if lost then files - {f} else files;
        faults := faults + 1;
      } else {
        files := files + {f};
      }
    }

    method DeleteFile(f: File) returns (err: bool)
      modifies this`files, this`faults
      ensures files == if err then old(files) else old(files) - {f}
      ensures faults == if err then old(faults) + 1 else old(faults)
    {
      err := *;
      if err {
        faults := faults + 1;
      } else {
        files := files - {f};
      }
    }

    method SaveImage(img: Img, newId: nat) returns (err: bool)
      modifies this`images, this`faults
      ensures images == if err then old(images) else old(images)[newId := img]
      ensures faults == if err then old(faults) + 1 else old(faults)
    {
      err := *;
      if err {
        faults := faults + 1;
      } else {
        images := images[newId := img];
      }
    }

    /** `First` on the ids a query matches. */
    method First(ids: set<nat>) returns (first: nat)
      requires ids != {}
      ensures first in ids && forall id :: id in ids ==> first <= id
    {
      var least := HasLeast(ids);
      first :| first in ids && forall id :: id in ids ==> first <= id;
    }

    /** A query that only reads. */
    method Query() returns (err: bool)
      modifies this`faults
      ensures faults == if err then old(faults) + 1 else old(faults)
    {
      err := *;
      if err {
        faults := faults + 1;
      }
    }

    method CanReuseSoftDeletedImage(img: Img) returns (reusable: bool, err: bool)
      modifies this`faults
      ensures faults == if err then old(faults) + 1 else old(faults)
      ensures !err ==> reusable == Reusable(Current(), img, where)
    {
      if img.path == "" {
        return false, false;
      }
      err := Query();
      reusable := Referenced(images, img.path) || FileOf(img, where) in files;
    }

    /** The branch for a hash nobody holds live: save the file, then the record; a failed record
        is compensated by deleting the file, which may itself fail. */
    method StoreNew(r: Request, newId: nat) returns (result: Result, failure: Failure)
      requires RequestOk(r) && newId !in images && !HashLive(images, r.hash)
      modifies this`images, this`files, this`faults
      ensures UploadStep(old(Current()), Current(), r, result, where)
      ensures if failure == NoFailure then result == Stored(newId) && faults == old(faults)
              else result == Rejected && faults > old(faults)
      ensures failure == MetadataFailed && faults == old(faults) + 1 ==>
        files == old(files) - {FileOf(NewImg(r), where)}
    {
      var f := FileOf(NewImg(r), where);
      var saveErr := SaveFile(f);
      if saveErr {
        return Rejected, SaveFailed;
      }
      var sizeErr := Query();
      if sizeErr {
        return Rejected, SizeUnknown;
      }
      var metadataErr := SaveImage(NewImg(r), newId);
      if metadataErr {
        var _ := DeleteFile(f);
        return Rejected, MetadataFailed;
      }
      return Stored(newId), NoFailure;
    }

    /** A record of this user on the file of `src`. */
    method LinkTo(src: nat, r: Request, newId: nat) returns (result: Result)
      requires RequestOk(r) && src in images && |images[src].hash| >= PREFIX
      modifies this`images, this`faults
      ensures result == Rejected || result == Linked(newId, src)
      ensures if result == Rejected then images == old(images) && faults == old(faults) + 1
              else images == old(images)[newId := DedupedImg(old(images)[src], r)] && faults == old(faults)
      ensures result != Rejected ==>
        && images[newId].user == r.user && !images[newId].deleted && images[newId].hash == old(images)[src].hash
        && images[newId].path == old(images)[src].path && images[newId].config == old(images)[src].config
    {
      var err := SaveImage(DedupedImg(images[src], r), newId);
      result := if err then Rejected else Linked(newId, src);
    }

    /** The branch for a hash some live record has. */
    method UseLive(img: nat, r: Request, newId: nat) returns (result: Result)
      requires RequestOk(r) && newId !in images && FirstLive(images, img, r.hash)
      modifies this`images, this`faults
      ensures UploadStep(old(Current()), Current(), r, result, where)
      ensures if faults == old(faults) then Expected(old(Current()), r, result, where)
              else result == Rejected && faults > old(faults)
    {
      if images[img].user == r.user {
        return Existing(img);
      }
      result := LinkTo(img, r, newId);
    }

    /** The branch for a reusable record that only survives deleted. */
    method UseDeleted(img: nat, r: Request, newId: nat) returns (result: Result)
      requires RequestOk(r) && newId !in images && Reuses(Current(), r, img, where)
      modifies this`images, this`faults
      ensures UploadStep(old(Current()), Current(), r, result, where)
      ensures if faults == old(faults) then Expected(old(Current()), r, result, where)
              else result == Rejected && faults > old(faults)
      ensures faults == old(faults) && result == Rejected ==> images == old(images)
    {
      if images[img].user != r.user {
        result := LinkTo(img, r, newId);
      } else {
        result := Restore(img, r);
      }
    }

    /** `processAndSaveImage` from the hash lookup on.  Without faults the records decide how it
        ends, and the only uploads turned away are those whose restore finds nothing. */
    method ProcessAndSaveImage(r: Request, newId: nat) returns (result: Result)
      requires RequestOk(r) && newId !in images
      modifies this`images, this`files, this`faults
      ensures UploadStep(old(Current()), Current(), r, result, where)
      ensures faults == old(faults) ==>
        Expected(old(Current()), r, result, where) && (result == Rejected <==> TurnedAway(old(Current()), r, where))
      ensures faults == old(faults) && result == Rejected ==> Current() == old(Current())
      ensures NewRecord(old(images), images, r, result)
      ensures old(faults) <= faults
    {
      var lookupErr := Query();
      if lookupErr {
        return Rejected;
      }
      var live := set id | id in images && LiveHash(images, id, r.hash);
      assert forall id :: id in images && LiveHash(images, id, r.hash) ==> id in live;
      if live != {} {
        var img := First(live);
        assert FirstLive(images, img, r.hash);
        result := UseLive(img, r, newId);
        ExpectedUnlessFaulty(old(Current()), r, result, where, faults > old(faults));
        return;
      }
      result := UploadUnheld(r, newId);
      ExpectedUnlessFaulty(old(Current()), r, result, where, faults > old(faults));
    }

    /** The rest of it, for a hash that no live record has. */
    method UploadUnheld(r: Request, newId: nat) returns (result: Result)
      requires RequestOk(r) && newId !in images && !HashLive(images, r.hash)
      modifies this`images, this`files, this`faults
      ensures UploadStep(old(Current()), Current(), r, result, where)
      ensures faults == old(faults) ==> Expected(old(Current()), r, result, where)
      ensures faults == old(faults) && result == Rejected ==> Current() == old(Current())
      ensures old(faults) <= faults
    {
      var deletedErr := Query();
      if deletedErr {
        return Rejected;
      }
      var gone := set id | id in images && GoneHash(images, id, r.hash);
      assert forall id :: id in images && GoneHash(images, id, r.hash) ==> id in gone;
      if gone != {} {
        var img := First(gone);
        assert FirstGone(images, img, r.hash);
        var reusable, reuseErr := CanReuseSoftDeletedImage(images[img]);
        if !reuseErr && reusable {
          result := UseDeleted(img, r, newId);
          return;
        }
        if !reuseErr {
          NotReusable(Current(), r, img, where);
        }
      }
      var failure;
      result, failure := StoreNew(r, newId);
    }

    /** The update of the restore branch, by identifier and scoped to records that are not deleted. */
    method Restore(src: nat, r: Request) returns (result: Result)
      requires src in images
      ensures match result
        case Restored(id, from) => from == src && FirstUnder(images, id, images[src].identifier)
        case Rejected => !IdentifierLive(images, images[src].identifier)
        case _ => false
    {
      var identifier := images[src].identifier;
      var updated := set id | id in images && LiveUnder(images, id, identifier);
      assert forall id :: id in images && LiveUnder(images, id, identifier) ==> id in updated;
      if updated == {} {
        return Rejected;
      }
      var id := First(updated);
      return Restored(id, src);
    }

    /** The file of one deleted record, removed if no live record has its path. */
    method RemoveOriginal(img: Img)
      modifies this`files, this`faults
      ensures files == old(files) || files == old(files) - {FileOf(img, where)}
      ensures img.path == "" || Referenced(images, img.path) ==> files == old(files)
      ensures faults == old(faults) && img.path != "" && !Referenced(images, img.path) ==>
        files == old(files) - {FileOf(img, where)}
      ensures old(faults) <= faults
    {
      if img.path == "" {
        return;
      }
      var countErr := Query();
      if countErr {
        return;
      }
      if !Referenced(images, img.path) {
        var providerErr := Query();
        if !providerErr {
          var _ := DeleteFile(FileOf(img, where));
        }
      }
    }

    /** Deletes the selected records in one transaction, then their files one by one.  Without
        faults exactly the orphaned files go. */
    method DeleteBatch(identifiers: seq<string>, user: nat) returns (err: bool)
      modifies this`images, this`files, this`faults
      ensures DeleteStep(old(Current()), Current(), identifiers, user, where)
      ensures err ==> Current() == old(Current()) && faults > old(faults)
      ensures !err ==> images == Deleted(old(images), identifiers, user)
      ensures faults == old(faults) ==> files == old(files) - Orphans(old(images), identifiers, user, where)
      // written out: whose records go, and which of their files stay
      ensures !err ==> OwnRecordsGo(old(images), images, identifiers, user)
      ensures faults == old(faults) ==> OnlySharedFilesStay(old(images), old(files), images, files, where)
    {
      if |identifiers| == 0 {
        assert Deleted(images, identifiers, user) == images;
        return false;
      }
      err := Query();
      if err {
        return;
      }
      ghost var before := images;
      var selected := map id | id in images && Selected(images[id], identifiers, user) :: images[id];
      images := Deleted(images, identifiers, user);
      RemoveOriginals(selected);
      DeletionWrittenOut(before, identifiers, user, where, old(files));
      AllOrphans(before, selected, identifiers, user, where);
    }

    /** Checks the owner of the first matching record, deletes all records under the identifier that
        belong to the user, and removes at most the file of one of them.  Without faults it goes
        through exactly when that first record exists and is the user's. */
    method DeleteSingle(identifier: string, user: nat) returns (deleted: bool)
      modifies this`images, this`files, this`faults
      ensures DeleteStep(old(Current()), Current(), [identifier], user, where)
      ensures deleted ==> images == Deleted(old(images), [identifier], user) != old(images)
      ensures deleted ==> OwnRecordsGo(old(images), images, [identifier], user)
      ensures !deleted ==> Current() == old(Current())
      ensures deleted || faults == old(faults) ==>
        (deleted <==>
           exists id :: id in old(images) && FirstUnder(old(images), id, identifier) && old(images)[id].user == user)
      ensures deleted && faults == old(faults) && OneFile(old(images), identifier) ==>
        files == old(files) - Orphans(old(images), [identifier], user, where)
        && OnlySharedFilesStay(old(images), old(files), images, files, where)
    {
      var found := set id | id in images && LiveUnder(images, id, identifier);
      assert forall id :: id in images && LiveUnder(images, id, identifier) ==> id in found;
      var lookupErr := Query();
      if lookupErr {
        return false;
      }
      if found == {} {
        return false;
      }
      var looked := First(found);
      assert FirstUnder(images, looked, identifier);
      if images[looked].user != user {
        return false;
      }
      var transactionErr := Query();
      if transactionErr {
        return false;
      }
      DeleteUnder(identifier, user, looked);
      DeletionWrittenOut(old(images), [identifier], user, where, old(files));
      deleted := true;
    }

    method DeleteUnder(identifier: string, user: nat, looked: nat)
      requires looked in images && Selected(images[looked], [identifier], user)
      modifies this`images, this`files, this`faults
      ensures DeleteStep(old(Current()), Current(), [identifier], user, where)
      ensures images == Deleted(old(images), [identifier], user) != old(images)
      ensures old(faults) <= faults
      ensures faults == old(faults) && OneFile(old(images), identifier) ==>
        files == old(files) - Orphans(old(images), [identifier], user, where)
    {
      var selected := map id | id in images && Selected(images[id], [identifier], user) :: images[id];
      assert looked in selected;
      ghost var before := images;
      images := Deleted(images, [identifier], user);
      assert before[looked] != images[looked];
      AllOrphans(before, selected, [identifier], user, where);
      var first :| first in selected;
      OneMoreOrphan(selected, {}, first, images, where);
      assert OrphansOf(selected, {first}, images, where) <= OrphansOf(selected, selected.Keys, images, where);
      assert {} + {first} == {first};
      if OneFile(before, identifier) {
        OneOrphan(before, selected, first, identifier, user, images, where);
      }
      RemoveOriginal(selected[first]);
    }

    method RemoveOriginals(selected: Images)
      modifies this`files, this`faults
      ensures files <= old(files) && old(files) - files <= OrphansOf(selected, selected.Keys, images, where)
      ensures old(faults) <= faults
      ensures faults == old(faults) ==> files == old(files) - OrphansOf(selected, selected.Keys, images, where)
    {
      var rest := selected.Keys;
      ghost var done: set<nat> := {};
      while rest != {}
        invariant done + rest == selected.Keys && done !! rest && old(faults) <= faults
        invariant files <= old(files) && old(files) - files <= OrphansOf(selected, done, images, where)
        invariant faults == old(faults) ==> files == old(files) - OrphansOf(selected, done, images, where)
        decreases rest
      {
        var id :| id in rest;
        OneMoreOrphan(selected, done, id, images, where);
        RemoveOriginal(selected[id]);
        rest, done := rest - {id}, done + {id};
      }
    }
  }

  /** The live records under the identifier share one file. */
  predicate OneFile(images: Images, identifier: string) {
    forall i, j :: i in images && j in images && !images[i].deleted && !images[j].deleted
                   && images[i].identifier == identifier == images[j].identifier ==>
      images[i].path == images[j].path && images[i].config == images[j].config
  }

  /** Then the file of the first selected record is the only one that can be orphaned. */
  lemma OneOrphan(before: Images, selected: Images, first: nat, identifier: string, user: nat, after: Images,
                  where: Providers)
    requires selected == map id | id in before && Selected(before[id], [identifier], user) :: before[id]
    requires first in selected && OneFile(before, identifier)
    ensures OrphansOf(selected, selected.Keys, after, where) == OrphansOf(selected, {first}, after, where)
  {
    forall id | id in selected
      ensures selected[id].path == selected[first].path && selected[id].config == selected[first].config
    {
      assert before[id].identifier == identifier == before[first].identifier;
    }
  }

  /** The orphaned files among those of the records `ids`. */
  function OrphansOf(before: Images, ids: set<nat>, after: Images, where: Providers): set<File> {
    set id | id in ids && id in before && before[id].path != "" && !Referenced(after, before[id].path) ::
      FileOf(before[id], where)
  }

  lemma OneMoreOrphan(before: Images, ids: set<nat>, id: nat, after: Images, where: Providers)
    requires id in before
    ensures OrphansOf(before, ids + {id}, after, where) == OrphansOf(before, ids, after, where) +
            if before[id].path != "" && !Referenced(after, before[id].path) then {FileOf(before[id], where)} else {}
  {
  }

  lemma AllOrphans(before: Images, selected: Images, identifiers: seq<string>, user: nat, where: Providers)
    requires selected == map id | id in before && Selected(before[id], identifiers, user) :: before[id]
    ensures OrphansOf(selected, selected.Keys, Deleted(before, identifiers, user), where) ==
            Orphans(before, identifiers, user, where)
  {
    var after := Deleted(before, identifiers, user);
    forall f | f in Orphans(before, identifiers, user, where)
      ensures f in OrphansOf(selected, selected.Keys, after, where)
    {
      var id :| id in before && Selected(before[id], identifiers, user) && before[id].path != ""
                && !Referenced(after, before[id].path) && FileOf(before[id], where) == f;
      assert selected[id] == before[id];
    }
  }
}
