/** Reading a multipart upload: limits, and who cleans up the staged files. */
module UploadParse {
  import opened TempFile

  /** What the part stream yields; `io` says which of the file operations on a file part fails. */
  datatype IoFault = NoFault | CreateFails | CopyFails | CloseFails

  datatype Part =
    | Broken                                             // NextPart returned an error
    | Field(name: string, size: nat, readErr: bool)      // no file name
    | FilePart(name: string, size: nat, io: IoFault)

  datatype Settings = Settings(maxFileSizeMB: int, maxBatchTotalMB: int)

  const MB := 1024 * 1024
  const MAX_FILES := 10
  const MAX_FIELD := 4096

  /** Zero or less means no limit. */
  function FileLimit(settings: Settings): int {
    if settings.maxFileSizeMB > 0 then settings.maxFileSizeMB * MB else 0
  }

  /** Zero means the default of 500 MB. */
  function TotalLimit(settings: Settings): int {
    (if settings.maxBatchTotalMB == 0 then 500 else settings.maxBatchTotalMB) * MB
  }

  datatype Error = InvalidForm | TooManyFiles | FileTooLarge | TotalTooLarge | IoError

  // ---------- what is to be accepted ----------

  predicate IsUpload(p: Part) { p.FilePart? && p.name == "files" }

  /** The sizes of the uploaded files, in order. */
  function Uploads(parts: seq<Part>): seq<nat> {
    if parts == [] then []
    else Uploads(parts[..|parts| - 1]) + if IsUpload(parts[|parts| - 1]) then [parts[|parts| - 1].size] else []
  }

  function Sum(sizes: seq<nat>): nat {
    if sizes == [] then 0 else Sum(sizes[..|sizes| - 1]) + sizes[|sizes| - 1]
  }

  /** The part by itself is acceptable. */
  predicate PartOk(p: Part, settings: Settings) {
    match p
    case Broken => false
    case Field(_, size, readErr) => !readErr && size <= 4096
    case FilePart(name, size, io) =>
      name == "files" ==> io == NoFault && (settings.maxFileSizeMB > 0 ==> size <= settings.maxFileSizeMB * 1_048_576)
  }

  /** In bytes: 500 MB by default. */
  function TotalAllowed(settings: Settings): int {
    if settings.maxBatchTotalMB == 0 then 524_288_000 else settings.maxBatchTotalMB * 1_048_576
  }

  /** The whole request is acceptable: every part is, there are at most ten files, and their
      total size is within the limit. */
  ghost predicate Acceptable(parts: seq<Part>, settings: Settings) {
    && (forall p :: p in parts ==> PartOk(p, settings))
    && |Uploads(parts)| <= 10
    && (Uploads(parts) != [] ==> Sum(Uploads(parts)) <= TotalAllowed(settings))
  }

  /** A prefix has no more files and no larger total. */
  lemma {:induction false} UploadsGrow(parts: seq<Part>, i: nat)
    requires i <= |parts|
    ensures |Uploads(parts[..i])| <= |Uploads(parts)| && Sum(Uploads(parts[..i])) <= Sum(Uploads(parts))
    decreases |parts| - i
  {
    if i == |parts| {
      assert parts[..i] == parts;
    } else {
      UploadsGrow(parts, i + 1);
      OnePartMore(parts, i);
    }
  }

  lemma OnePartMore(parts: seq<Part>, i: nat)
    requires i < |parts|
    ensures Uploads(parts[..i + 1]) == Uploads(parts[..i]) + if IsUpload(parts[i]) then [parts[i].size] else []
    ensures Sum(Uploads(parts[..i + 1])) == Sum(Uploads(parts[..i])) + if IsUpload(parts[i]) then parts[i].size else 0
  {
    assert parts[..i + 1][..i] == parts[..i];
    assert Uploads(parts[..i]) + [] == Uploads(parts[..i]);
    if IsUpload(parts[i]) {
      assert Uploads(parts[..i + 1])[..|Uploads(parts[..i])|] == Uploads(parts[..i]);
    }
  }

  // ---------- the code ----------

  datatype Source = Source(size: nat, handle: TempFileHandle)

  function Paths(files: seq<Source>): set<nat> {
    set i | 0 <= i < |files| :: files[i].handle.path
  }

  function Handles(files: seq<Source>): set<TempFileHandle> {
    set i | 0 <= i < |files| :: files[i].handle
  }

  lemma PathsOfOneMore(files: seq<Source>, file: Source)
    ensures Paths(files + [file]) == Paths(files) + {file.handle.path}
    ensures Handles(files + [file]) == Handles(files) + {file.handle}
  {
    assert forall i :: 0 <= i < |files| ==> (files + [file])[i] == files[i];
    assert (files + [file])[|files|] == file;
  }

  ghost predicate Owned(files: seq<Source>)
    reads set i | 0 <= i < |files| :: files[i].handle
  {
    && (forall i :: 0 <= i < |files| ==> files[i].handle.state == RequestOwns)
    && (forall i, j :: 0 <= i < j < |files| ==>
          files[i].handle != files[j].handle && files[i].handle.path != files[j].handle.path)
  }

  /** The closure `cleanup`: disposes of every file the request still owns. */
  method CleanUp(files: seq<Source>, fs: FileSystem)
    requires fs.Valid()
    requires forall i, j :: 0 <= i < j < |files| ==> files[i].handle != files[j].handle
    modifies Handles(files), fs`files
    ensures fs.Valid() && fs.files <= old(fs.files)
    ensures forall i :: 0 <= i < |files| ==> files[i].handle.state == Cleanup(old(files[i].handle.state))
    ensures fs.files ==
      old(fs.files) - set i | 0 <= i < |files| && old(files[i].handle.state) == RequestOwns :: files[i].handle.path
  {
    var k := 0;
    while k < |files|
      invariant k <= |files| && fs.Valid()
      invariant forall i :: 0 <= i < k ==> files[i].handle.state == Cleanup(old(files[i].handle.state))
      invariant forall i :: k <= i < |files| ==> files[i].handle.state == old(files[i].handle.state)
      invariant fs.files ==
        old(fs.files) - set i | 0 <= i < k && old(files[i].handle.state) == RequestOwns :: files[i].handle.path
    {
      files[k].handle.CleanupIfRequestOwned(fs);
      k := k + 1;
    }
  }

  /** Copies one part to a new temporary file, reading one byte past the limit at most; no file
      is left behind on an error. */
  method WritePartToTempFile(p: Part, maxFileSize: int, fs: FileSystem) returns (path: nat, written: nat, err: bool,
                            error: Error)
    requires p.FilePart? && fs.Valid()
    modifies fs
    ensures fs.Valid()
    ensures err ==> fs.files == old(fs.files)
    ensures !err ==> path !in old(fs.files) && fs.files == old(fs.files) + {path} && written == p.size
    ensures !err <==> p.io == NoFault && (maxFileSize > 0 ==> p.size <= maxFileSize)
    ensures err ==> error == if p.io == NoFault then FileTooLarge else IoError
  {
    path, written, error := 0, 0, IoError;
    if p.io == CreateFails {
      return path, written, true, error;
    }
    path := fs.CreateTemp();
    written := if maxFileSize > 0 && p.size > maxFileSize + 1 then maxFileSize + 1 else p.size;
    if p.io == CopyFails || p.io == CloseFails {
      fs.Remove(path);
      return path, written, true, error;
    }
    if maxFileSize > 0 && written > maxFileSize {
      fs.Remove(path);
      return path, written, true, FileTooLarge;
    }
    err := false;
  }

  /** Cleaning up while every file is still the request's leaves none of them. */
  method Discard(files: seq<Source>, fs: FileSystem, ghost before: set<nat>)
    requires fs.Valid() && Owned(files) && fs.files == before + Paths(files) && Paths(files) !! before
    modifies Handles(files), fs`files
    ensures fs.Valid() && fs.files == before
  {
    CleanUp(files, fs);
  }

  /** The files staged for the parts read so far. */
  ghost predicate Staged(files: seq<Source>, read: seq<Part>, fs: FileSystem, before: set<nat>)
    reads fs, set i | 0 <= i < |files| :: files[i].handle
  {
    && fs.Valid() && Owned(files)
    && fs.files == before + Paths(files) && Paths(files) !! before
    && |files| == |Uploads(read)|
    && (forall i :: 0 <= i < |files| ==> files[i].size == Uploads(read)[i])
  }

  /** The next part is fine, given those before it. */
  predicate Fits(parts: seq<Part>, k: nat, settings: Settings)
    requires k < |parts|
  {
    && PartOk(parts[k], settings)
    && (IsUpload(parts[k]) ==>
          |Uploads(parts[..k])| < 10 && Sum(Uploads(parts[..k])) + parts[k].size <= TotalAllowed(settings))
  }

  predicate FitUpTo(parts: seq<Part>, k: nat, settings: Settings)
    requires k <= |parts|
  {
    k == 0 || (FitUpTo(parts, k - 1, settings) && Fits(parts, k - 1, settings))
  }

  /** What a part that does not fit is answered with. */
  function ErrorAt(parts: seq<Part>, k: nat, settings: Settings): Error
    requires k < |parts|
  {
    var p := parts[k];
    if !IsUpload(p) then InvalidForm
    else if |Uploads(parts[..k])| >= 10 then TooManyFiles
    else if p.io != NoFault then IoError
    else if !PartOk(p, settings) then FileTooLarge
    else TotalTooLarge
  }

  lemma MisfitSpoilsAll(parts: seq<Part>, k: nat, settings: Settings)
    requires k < |parts| && !Fits(parts, k, settings)
    ensures !Acceptable(parts, settings)
  {
    assert parts[k] in parts;
    OnePartMore(parts, k);
    UploadsGrow(parts, k + 1);
  }

  /** All parts fitting one after the other is the same as the whole request being acceptable. */
  lemma {:induction false} AllFit(parts: seq<Part>, k: nat, settings: Settings)
    requires k <= |parts| && FitUpTo(parts, k, settings)
    ensures Acceptable(parts[..k], settings)
  {
    if k > 0 {
      AllFit(parts, k - 1, settings);
      OneMoreFits(parts, k - 1, settings);
    }
  }

  lemma OneMoreFits(parts: seq<Part>, k: nat, settings: Settings)
    requires k < |parts| && Acceptable(parts[..k], settings) && Fits(parts, k, settings)
    ensures Acceptable(parts[..k + 1], settings)
  {
    OnePartMore(parts, k);
    forall p | p in parts[..k + 1] ensures PartOk(p, settings) {
      assert p in parts[..k] || p == parts[k];
    }
  }

  /** Stages one part, or says why not and leaves nothing. */
  method TakePart(parts: seq<Part>, k: nat, count: nat, totalSize: nat, settings: Settings, fs: FileSystem)
    returns (path: nat, err: bool, error: Error)
    requires k < |parts| && IsUpload(parts[k]) && fs.Valid()
    requires count == |Uploads(parts[..k])| && totalSize == Sum(Uploads(parts[..k]))
    modifies fs
    ensures fs.Valid() && (!err <==> Fits(parts, k, settings))
    ensures err ==> fs.files == old(fs.files) && error == ErrorAt(parts, k, settings)
    ensures !err ==> path !in old(fs.files) && fs.files == old(fs.files) + {path}
  {
    path, err, error := 0, true, TooManyFiles;
    if count >= MAX_FILES {
      return;
    }
    var size;
    path, size, err, error := WritePartToTempFile(parts[k], FileLimit(settings), fs);
    if !err && totalSize + size > TotalLimit(settings) {
      fs.Remove(path);
      err, error := true, TotalTooLarge;
    }
  }

  /** One part named `files`: staged and appended, or everything is given up. */
  method StageFile(parts: seq<Part>, k: nat, files0: seq<Source>, settings: Settings, fs: FileSystem, totalSize0: nat,
                   ghost before: set<nat>)
    returns (files: seq<Source>, totalSize: nat, err: bool, error: Error)
    requires k < |parts| && IsUpload(parts[k]) && Staged(files0, parts[..k], fs, before)
    requires totalSize0 == Sum(Uploads(parts[..k]))
    modifies fs, Handles(files0)
    ensures fs.Valid() && (!err <==> Fits(parts, k, settings))
    ensures err ==> fs.files == before && error == ErrorAt(parts, k, settings)
    ensures !err ==> Staged(files, parts[..k + 1], fs, before) && totalSize == Sum(Uploads(parts[..k + 1]))
    ensures !err ==> |files| == |files0| + 1 && files[..|files0|] == files0 && fresh(files[|files0|].handle)
  {
    files, totalSize := files0, totalSize0;
    OnePartMore(parts, k);
    var path;
    path, err, error := TakePart(parts, k, |files|, totalSize, settings, fs);
    if err {
      Discard(files, fs, before);
      return;
    }
    totalSize := totalSize + parts[k].size;
    var handle := new TempFileHandle(path);
    PathsOfOneMore(files, Source(parts[k].size, handle));
    files := files + [Source(parts[k].size, handle)];
  }

  /** One round of the loop. */
  method ReadPart(parts: seq<Part>, k: nat, files0: seq<Source>, settings: Settings, fs: FileSystem, totalSize0: nat,
                  ghost before: set<nat>)
    returns (files: seq<Source>, totalSize: nat, err: bool, error: Error)
    requires k < |parts| && Staged(files0, parts[..k], fs, before)
    requires totalSize0 == Sum(Uploads(parts[..k]))
    modifies fs, Handles(files0)
    ensures fs.Valid() && (!err <==> Fits(parts, k, settings))
    ensures err ==> fs.files == before && error == ErrorAt(parts, k, settings)
    ensures !err ==> Staged(files, parts[..k + 1], fs, before) && totalSize == Sum(Uploads(parts[..k + 1]))
    ensures !err ==> fresh(Handles(files) - Handles(files0))
  {
    var p := parts[k];
    if IsUpload(p) {
      files, totalSize, err, error := StageFile(parts, k, files0, settings, fs, totalSize0, before);
      if !err {
        HandlesOfOneMore(files0, files);
      }
      return;
    }
    files, totalSize, error := files0, totalSize0, InvalidForm;
    OnePartMore(parts, k);
    err := p.Broken? || (p.Field? && (p.readErr || p.size > MAX_FIELD));
    if err {
      Discard(files, fs, before);
    }
  }

  /** Accepts exactly the acceptable requests.  A rejected one leaves no staged file, and is
      answered for its first misfit; an accepted one leaves exactly one new file per upload,
      owned by the request, sizes in order. */
  method ParseMultipartUploadRequest(parts: seq<Part>, settings: Settings, fs: FileSystem)
    returns (files: seq<Source>, err: bool, error: Error, at: nat)
    requires fs.Valid()
    modifies fs
    ensures fs.Valid() && (!err <==> Acceptable(parts, settings))
    ensures err ==> fs.files == old(fs.files)
    ensures err ==> at < |parts| && FitUpTo(parts, at, settings) && !Fits(parts, at, settings)
                    && error == ErrorAt(parts, at, settings)
    ensures !err ==> Staged(files, parts, fs, old(fs.files)) && fresh(Handles(files))
  {
    files, err, error, at := [], false, InvalidForm, 0;
    var totalSize := 0;
    while at < |parts|
      invariant at <= |parts| && FitUpTo(parts, at, settings) && fresh(Handles(files))
      invariant Staged(files, parts[..at], fs, old(fs.files)) && totalSize == Sum(Uploads(parts[..at]))
    {
      files, totalSize, err, error := ReadPart(parts, at, files, settings, fs, totalSize, old(fs.files));
      if err {
        MisfitSpoilsAll(parts, at, settings);
        return;
      }
      at := at + 1;
    }
    assert parts[..|parts|] == parts;
    AllFit(parts, |parts|, settings);
    err := false;
  }

  lemma HandlesOfOneMore(had: seq<Source>, files: seq<Source>)
    requires |files| == |had| + 1 && files[..|had|] == had
    ensures Handles(files) == Handles(had) + {files[|had|].handle}
  {
    assert files == had + [files[|had|]];
    PathsOfOneMore(had, files[|had|]);
  }
}
