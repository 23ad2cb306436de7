/** The storage path generator: printing identifiers and paths, and reading hash, date and kind
    back from a path.  Strings are sequences of characters; the library functions the code calls
    are defined here as Go documents them. */
module Paths {
  import opened Options

  // ---------- strings, strconv, path/filepath ----------

  /** strings.Split with a one-character separator. */
  function Split(s: string, sep: char): (parts: seq<string>)
    ensures |parts| > 0
  {
    if s == "" then [""]
    else if s[0] == sep then [""] + Split(s[1..], sep)
    else var rest := Split(s[1..], sep); [[s[0]] + rest[0]] + rest[1..]
  }

  function Join(parts: seq<string>, sep: char): string {
    if parts == [] then ""
    else if |parts| == 1 then parts[0]
    else parts[0] + [sep] + Join(parts[1..], sep)
  }

  lemma {:induction false} SplitAtom(a: string, sep: char)
    requires sep !in a
    ensures Split(a, sep) == [a]
  {
    if a != "" {
      SplitAtom(a[1..], sep);
      assert [a[0]] + a[1..] == a;
    }
  }

  lemma {:induction false} SplitCons(a: string, b: string, sep: char)
    requires sep !in a
    ensures Split(a + [sep] + b, sep) == [a] + Split(b, sep)
  {
    var s := a + [sep] + b;
    if a == "" {
      assert s[1..] == b;
    } else {
      assert s[1..] == a[1..] + [sep] + b;
      SplitCons(a[1..], b, sep);
      assert [a[0]] + a[1..] == a;
    }
  }

  lemma {:induction false} JoinSplit(s: string, sep: char)
    ensures Join(Split(s, sep), sep) == s
  {
    if s != "" {
      JoinSplit(s[1..], sep);
      var rest := Split(s[1..], sep);
      if s[0] == sep {
        assert Split(s, sep)[1..] == rest;
      } else {
        assert Split(s, sep)[1..] == rest[1..];
      }
    }
  }

  /** strings.LastIndex of one character; -1 when absent. */
  function LastIndex(s: string, c: char): (i: int)
    ensures -1 <= i < |s|
  {
    if s == "" then -1
    else if s[|s| - 1] == c then |s| - 1
    else LastIndex(s[..|s| - 1], c)
  }

  lemma {:induction false} LastIndexNone(s: string, c: char)
    requires c !in s
    ensures LastIndex(s, c) == -1
  {
    if s != "" {
      LastIndexNone(s[..|s| - 1], c);
    }
  }

  /** The last occurrence is where nothing after it matches. */
  lemma {:induction false} LastIndexAt(a: string, c: char, b: string)
    requires c !in b
    ensures LastIndex(a + [c] + b, c) == |a|
  {
    var s := a + [c] + b;
    if b != "" {
      assert s[..|s| - 1] == a + [c] + b[..|b| - 1];
      LastIndexAt(a, c, b[..|b| - 1]);
    }
  }

  function TrimSlashes(s: string): string {
    if s != "" && s[|s| - 1] == '/' then TrimSlashes(s[..|s| - 1]) else s
  }

  /** filepath.Base */
  function Base(path: string): string {
    if path == "" then "."
    else
      var trimmed := TrimSlashes(path);
      if trimmed == "" then "/" else trimmed[LastIndex(trimmed, '/') + 1..]
  }

  /** filepath.Ext: from the last dot of the last element. */
  function Ext(path: string): string {
    var dot := LastIndex(path, '.');
    if dot >= 0 && dot > LastIndex(path, '/') then path[dot..] else ""
  }

  function TrimSuffix(s: string, suffix: string): string {
    if |suffix| <= |s| && s[|s| - |suffix|..] == suffix then s[..|s| - |suffix|] else s
  }

  predicate IsDigit(c: char) { '0' <= c <= '9' }

  function DigitOf(n: nat): (c: char)
    requires n < 10
    ensures IsDigit(c)
  {
    '0' + n as char
  }

  function ValueOf(c: char): nat
    requires IsDigit(c)
  {
    (c - '0') as int
  }

  function Digits(n: nat): (s: string)
    ensures s != "" && forall c :: c in s ==> IsDigit(c)
  {
    if n < 10 then [DigitOf(n)] else Digits(n / 10) + [DigitOf(n % 10)]
  }

  /** The verb %d. */
  function Itoa(n: int): (s: string)
    ensures s != "" && forall c :: c in s ==> IsDigit(c) || c == '-'
  {
    if n < 0 then ['-'] + Digits(-n) else Digits(n)
  }

  predicate AllDigits(s: string) {
    s != "" && forall c :: c in s ==> IsDigit(c)
  }

  function ParseDigits(s: string): nat
    requires forall c :: c in s ==> IsDigit(c)
  {
    if s == "" then 0 else 10 * ParseDigits(s[..|s| - 1]) + ValueOf(s[|s| - 1])
  }

  const MIN_INT: int := -0x8000_0000_0000_0000
  const MAX_INT: int := 0x7fff_ffff_ffff_ffff

  predicate InRange(n: int) { MIN_INT <= n <= MAX_INT }

  /** strconv.Atoi: an optional sign, then digits, in the range of a 64-bit int. */
  function Atoi(s: string): Option<int> {
    if s == "" then None
    else
      var body := if s[0] == '-' || s[0] == '+' then s[1..] else s;
      if !AllDigits(body) then None
      else
        var n: int := if s[0] == '-' then -(ParseDigits(body) as int) else ParseDigits(body);
        if InRange(n) then Some(n) else None
  }

  lemma {:induction false} DigitsRoundTrip(n: nat)
    ensures ParseDigits(Digits(n)) == n
  {
    if n < 10 {
      assert Digits(n)[..0] == "";
    } else {
      DigitsRoundTrip(n / 10);
      assert Digits(n)[..|Digits(n)| - 1] == Digits(n / 10);
    }
  }

  lemma AtoiItoa(n: int)
    requires InRange(n)
    ensures Atoi(Itoa(n)) == Some(n)
  {
    if n < 0 {
      DigitsRoundTrip(-n);
      assert Itoa(n)[1..] == Digits(-n);
    } else {
      DigitsRoundTrip(n);
      assert Itoa(n)[0] in Itoa(n);
    }
  }

  // ---------- the generator ----------

  datatype Identifiers = Identifiers(identifier: string, storagePath: string)

  const PREFIX := 12

  /** A calendar date as its layout prints it: three slash-free parts. */
  datatype Date = Date(year: string, month: string, day: string)

  predicate DateOk(d: Date) { '/' !in d.year && '/' !in d.month && '/' !in d.day }

  function DatePath(d: Date): string { d.year + "/" + d.month + "/" + d.day }

  /** The layout dir/date/file. */
  function InDir(dir: string, date: string, file: string): string { dir + "/" + date + "/" + file }

  const ORIGINAL := "original"
  const THUMBNAILS := "thumbnails"
  const CONVERTED := "converted"

  function GenerateOriginal(fileHash: string, ext: string, date: string): Identifiers
    requires |fileHash| >= PREFIX
  {
    var hash := fileHash[..PREFIX];
    Identifiers(hash, InDir(ORIGINAL, date, hash + ext))
  }

  function ThumbnailName(hash: string, width: int): string { hash + "_" + Itoa(width) }

  function ThumbnailPath(date: string, hash: string, width: int): string {
    InDir(THUMBNAILS, date, ThumbnailName(hash, width) + ".webp")
  }

  function GenerateThumbnail(path: string, width: int, today: string): Identifiers {
    var hash := ExtractHash(path);
    Identifiers(ThumbnailName(hash, width), ThumbnailPath(ExtractDate(path, today), hash, width))
  }

  /** JPEG XL has two names; every other format names its own directory and extension. */
  function FormatDir(format: string): string { if format == "jxl" then "jpegxl" else format }
  function FormatExt(format: string): string { if format == "jpegxl" then "jxl" else format }

  function ConvertedPath(date: string, hash: string, format: string): string {
    CONVERTED + "/" + InDir(FormatDir(format), date, hash + "." + FormatExt(format))
  }

  function GenerateConverted(path: string, format: string, today: string): Identifiers {
    var hash := ExtractHash(path);
    Identifiers(hash, ConvertedPath(ExtractDate(path, today), hash, format))
  }

  function ExtractHash(path: string): string {
    var base := Base(path);
    var hash := TrimSuffix(base, Ext(base));
    var idx := LastIndex(hash, '_');
    if idx > 0 && Atoi(hash[idx + 1..]).Some? then hash[..idx] else hash
  }

  function ExtractDate(path: string, today: string): string {
    var parts := Split(path, '/');
    if |parts| >= 5 then Join(parts[1..4], '/') else today
  }

  function FormatOf(parts: seq<string>): string
    requires parts != []
  {
    if parts[0] == ORIGINAL then ORIGINAL
    else if parts[0] == THUMBNAILS then "thumbnail"
    else if parts[0] == CONVERTED && |parts| >= 2 then parts[1]
    else parts[0]
  }

  function ParseFormat(path: string): string { FormatOf(Split(path, '/')) }

  // ---------- reading back ----------

  /** What the program puts in: a hexadecimal prefix of twelve characters, and an extension that
      is empty or has one dot, at the front. */
  predicate HashOk(hash: string) {
    |hash| == PREFIX && '/' !in hash && '.' !in hash && '_' !in hash
  }

  predicate ExtOk(ext: string) {
    '/' !in ext && (ext == "" || (ext[0] == '.' && '.' !in ext[1..]))
  }

  /** The segments of a path whose parts have no slash in them. */
  lemma PathSegments(dir: string, d: Date, file: string)
    requires '/' !in dir && DateOk(d) && '/' !in file
    ensures Split(InDir(dir, DatePath(d), file), '/') == [dir, d.year, d.month, d.day, file]
  {
    var p := InDir(dir, DatePath(d), file);
    assert p == dir + "/" + (d.year + "/" + (d.month + "/" + (d.day + "/" + file)));
    SplitCons(dir, d.year + "/" + (d.month + "/" + (d.day + "/" + file)), '/');
    SplitCons(d.year, d.month + "/" + (d.day + "/" + file), '/');
    SplitCons(d.month, d.day + "/" + file, '/');
    SplitCons(d.day, file, '/');
    SplitAtom(file, '/');
  }

  lemma DateIsJoined(parts: seq<string>, d: Date)
    requires parts == [d.year, d.month, d.day]
    ensures Join(parts, '/') == DatePath(d)
  {
    assert parts[1..] == [d.month, d.day] && parts[1..][1..] == [d.day];
    assert Join([d.month, d.day], '/') == d.month + "/" + d.day;
    assert DatePath(d) == d.year + "/" + (d.month + "/" + d.day);
  }

  lemma DateOfPath(dir: string, d: Date, file: string, today: string)
    requires '/' !in dir && DateOk(d) && '/' !in file
    ensures ExtractDate(InDir(dir, DatePath(d), file), today) == DatePath(d)
  {
    PathSegments(dir, d, file);
    DateIsJoined([dir, d.year, d.month, d.day, file][1..4], d);
  }

  lemma BaseOf(dir: string, date: string, file: string)
    requires file != "" && '/' !in file
    ensures Base(InDir(dir, date, file)) == file
  {
    var p := InDir(dir, date, file);
    assert p == dir + "/" + date + ['/'] + file && p[|p| - 1] == file[|file| - 1];
    assert file[|file| - 1] in file;
    LastIndexAt(dir + "/" + date, '/', file);
  }

  lemma StemOf(stem: string, ext: string)
    requires '/' !in stem && ExtOk(ext) && (ext == "" ==> '.' !in stem)
    ensures TrimSuffix(stem + ext, Ext(stem + ext)) == stem
  {
    var s := stem + ext;
    LastIndexNone(s, '/');
    if ext == "" {
      assert s == stem;
      LastIndexNone(s, '.');
    } else {
      assert s == stem + ['.'] + ext[1..];
      LastIndexAt(stem, '.', ext[1..]);
      assert s[|stem|..] == ext;
    }
  }

  lemma HashOfPlain(dir: string, date: string, hash: string, ext: string)
    requires HashOk(hash) && ExtOk(ext)
    ensures ExtractHash(InDir(dir, date, hash + ext)) == hash
  {
    BaseOf(dir, date, hash + ext);
    StemOf(hash, ext);
    LastIndexNone(hash, '_');
  }

  lemma HashOfSized(dir: string, date: string, hash: string, width: int, ext: string)
    requires HashOk(hash) && ExtOk(ext) && ext != "" && InRange(width)
    ensures ExtractHash(InDir(dir, date, hash + "_" + Itoa(width) + ext)) == hash
  {
    var stem := hash + ['_'] + Itoa(width);
    assert hash + "_" + Itoa(width) == stem;
    BaseOf(dir, date, stem + ext);
    StemOf(stem, ext);
    assert TrimSuffix(stem + ext, Ext(stem + ext)) == stem;
    HashOfStem(hash, width);
  }

  lemma HashOfStem(hash: string, width: int)
    requires HashOk(hash) && InRange(width)
    ensures var stem := hash + ['_'] + Itoa(width); var idx := LastIndex(stem, '_');
      idx == |hash| > 0 && Atoi(stem[idx + 1..]).Some? && stem[..idx] == hash
  {
    var stem := hash + ['_'] + Itoa(width);
    LastIndexAt(hash, '_', Itoa(width));
    AtoiItoa(width);
    assert stem[|hash| + 1..] == Itoa(width) && stem[..|hash|] == hash;
  }

  /** From an original's path, the printed hash and date come back. */
  lemma OriginalRoundTrip(fileHash: string, ext: string, d: Date, today: string)
    requires |fileHash| >= PREFIX && HashOk(fileHash[..PREFIX]) && ExtOk(ext) && DateOk(d)
    ensures var p := GenerateOriginal(fileHash, ext, DatePath(d)).storagePath;
      ExtractHash(p) == fileHash[..PREFIX] && ExtractDate(p, today) == DatePath(d)
  {
    HashOfPlain(ORIGINAL, DatePath(d), fileHash[..PREFIX], ext);
    DateOfPath(ORIGINAL, d, fileHash[..PREFIX] + ext, today);
  }

  lemma ThumbnailHash(path: string, width: int, today: string)
    requires HashOk(ExtractHash(path)) && InRange(width)
    ensures ExtractHash(GenerateThumbnail(path, width, today).storagePath) == ExtractHash(path)
  {
    HashOfSized(THUMBNAILS, ExtractDate(path, today), ExtractHash(path), width, ".webp");
  }

  lemma ThumbnailDate(path: string, d: Date, width: int, today: string, later: string)
    requires HashOk(ExtractHash(path)) && ExtractDate(path, today) == DatePath(d) && DateOk(d)
    ensures ExtractDate(GenerateThumbnail(path, width, today).storagePath, later) == DatePath(d)
  {
    DateOfPath(THUMBNAILS, d, ExtractHash(path) + "_" + Itoa(width) + ".webp", later);
  }

  /** From a thumbnail's path, the hash and date printed into it come back. */
  lemma ThumbnailRoundTrip(fileHash: string, ext: string, d: Date, width: int, today: string, later: string)
    requires |fileHash| >= PREFIX && HashOk(fileHash[..PREFIX]) && ExtOk(ext) && DateOk(d) && InRange(width)
    ensures var p :=
        GenerateThumbnail(GenerateOriginal(fileHash, ext, DatePath(d)).storagePath, width, today).storagePath;
      ExtractHash(p) == fileHash[..PREFIX] && ExtractDate(p, later) == DatePath(d)
  {
    var original := GenerateOriginal(fileHash, ext, DatePath(d)).storagePath;
    OriginalRoundTrip(fileHash, ext, d, today);
    ThumbnailHash(original, width, today);
    ThumbnailDate(original, d, width, today, later);
  }

  /** Deriving a thumbnail from a thumbnail is the same as deriving it from the original. */
  lemma ThumbnailIsStable(fileHash: string, ext: string, d: Date, width: int, width2: int, today: string, later: string)
    requires |fileHash| >= PREFIX && HashOk(fileHash[..PREFIX]) && ExtOk(ext) && DateOk(d) && InRange(width)
    ensures var original := GenerateOriginal(fileHash, ext, DatePath(d)).storagePath;
      var thumbnail := GenerateThumbnail(original, width, today).storagePath;
      GenerateThumbnail(thumbnail, width2, later) == GenerateThumbnail(original, width2, later)
  {
    OriginalRoundTrip(fileHash, ext, d, later);
    ThumbnailRoundTrip(fileHash, ext, d, width, today, later);
  }

  // ---------- kinds and injectivity ----------

  datatype Kind = Original(ext: string) | Thumbnail(width: int) | Converted(format: string)

  predicate KindOk(kind: Kind) {
    match kind
    case Original(ext) => ExtOk(ext)
    case Thumbnail(width) => InRange(width)
    case Converted(format) => '/' !in format
  }

  /** The path the program stores this kind of file under. */
  function PathOf(kind: Kind, d: Date, hash: string): string
    requires |hash| >= PREFIX
  {
    match kind
    case Original(ext) => GenerateOriginal(hash, ext, DatePath(d)).storagePath
    case Thumbnail(width) =>
      GenerateThumbnail(GenerateOriginal(hash, "", DatePath(d)).storagePath, width, "").storagePath
    case Converted(format) =>
      GenerateConverted(GenerateOriginal(hash, "", DatePath(d)).storagePath, format, "").storagePath
  }

  function KindName(kind: Kind): string {
    match kind
    case Original(_) => ORIGINAL
    case Thumbnail(_) => "thumbnail"
    case Converted(format) => FormatDir(format)
  }

  function FileName(kind: Kind, hash: string): string {
    match kind
    case Original(ext) => hash + ext
    case Thumbnail(width) => hash + "_" + Itoa(width) + ".webp"
    case Converted(format) => hash + "." + if format == "jpegxl" || format == "jxl" then "jxl" else format
  }

  /** The segments of every path the program stores. */
  function Segments(kind: Kind, d: Date, hash: string): seq<string> {
    match kind
    case Original(_) => ["original", d.year, d.month, d.day, FileName(kind, hash)]
    case Thumbnail(_) => ["thumbnails", d.year, d.month, d.day, FileName(kind, hash)]
    case Converted(format) =>
      ["converted", if format == "jpegxl" || format == "jxl" then "jpegxl" else format, d.year, d.month, d.day,
       FileName(kind, hash)]
  }

  /** The identifiers: the first twelve digits of the hash, and for a thumbnail its width. */
  lemma IdentifiersPrinted(fileHash: string, ext: string, d: Date, width: int, format: string, today: string)
    requires |fileHash| >= 12 && ExtOk(ext) && DateOk(d)
    requires '/' !in fileHash[..12] && '.' !in fileHash[..12] && '_' !in fileHash[..12]
    ensures var original := GenerateOriginal(fileHash, ext, DatePath(d));
      && original.identifier == fileHash[..12]
      && GenerateThumbnail(original.storagePath, width, today).identifier == fileHash[..12] + "_" + Itoa(width)
      && GenerateConverted(original.storagePath, format, today).identifier == fileHash[..12]
  {
    OriginalRoundTrip(fileHash, ext, d, today);
  }

  /** Of a converted path even the bare folder tells the format. */
  lemma FolderTellsFormat(format: string)
    requires '/' !in format
    ensures ParseFormat("converted/" + format) == format
  {
    assert "converted/" + format == "converted" + ['/'] + format;
    SplitCons("converted", format, '/');
    SplitAtom(format, '/');
  }

  lemma ThumbnailFromOriginal(width: int, d: Date, hash: string)
    requires DateOk(d) && HashOk(hash)
    ensures PathOf(Thumbnail(width), d, hash) == ThumbnailPath(DatePath(d), hash, width)
  {
    assert hash[..PREFIX] == hash;
    OriginalRoundTrip(hash, "", d, "");
  }

  lemma ThumbnailPathSegments(width: int, d: Date, hash: string)
    requires DateOk(d) && HashOk(hash)
    ensures Split(ThumbnailPath(DatePath(d), hash, width), '/') == Segments(Thumbnail(width), d, hash)
  {
    PathSegments(THUMBNAILS, d, FileName(Thumbnail(width), hash));
  }

  lemma ThumbnailHasSegments(width: int, d: Date, hash: string)
    requires InRange(width) && DateOk(d) && HashOk(hash)
    ensures Split(PathOf(Thumbnail(width), d, hash), '/') == Segments(Thumbnail(width), d, hash)
  {
    ThumbnailFromOriginal(width, d, hash);
    ThumbnailPathSegments(width, d, hash);
  }

  lemma ConvertedFromOriginal(format: string, d: Date, hash: string)
    requires DateOk(d) && HashOk(hash)
    ensures PathOf(Converted(format), d, hash) == ConvertedPath(DatePath(d), hash, format)
  {
    assert hash[..PREFIX] == hash;
    OriginalRoundTrip(hash, "", d, "");
  }

  lemma ConvertedPathSegments(format: string, d: Date, hash: string)
    requires '/' !in format && DateOk(d) && HashOk(hash)
    ensures Split(ConvertedPath(DatePath(d), hash, format), '/') == Segments(Converted(format), d, hash)
  {
    var file := FileName(Converted(format), hash);
    SplitCons(CONVERTED, InDir(FormatDir(format), DatePath(d), file), '/');
    PathSegments(FormatDir(format), d, file);
  }

  lemma ConvertedHasSegments(format: string, d: Date, hash: string)
    requires '/' !in format && DateOk(d) && HashOk(hash)
    ensures Split(PathOf(Converted(format), d, hash), '/') == Segments(Converted(format), d, hash)
  {
    ConvertedFromOriginal(format, d, hash);
    ConvertedPathSegments(format, d, hash);
  }

  lemma PathHasSegments(kind: Kind, d: Date, hash: string)
    requires KindOk(kind) && DateOk(d) && HashOk(hash)
    ensures Split(PathOf(kind, d, hash), '/') == Segments(kind, d, hash)
  {
    match kind
    case Original(ext) =>
      assert hash[..PREFIX] == hash;
      PathSegments(ORIGINAL, d, FileName(kind, hash));
    case Thumbnail(width) => ThumbnailHasSegments(width, d, hash);
    case Converted(format) => ConvertedHasSegments(format, d, hash);
  }

  lemma SegmentsNameKind(kind: Kind, d: Date, hash: string)
    ensures FormatOf(Segments(kind, d, hash)) == KindName(kind)
  {
    assert ORIGINAL != CONVERTED && THUMBNAILS != CONVERTED && ORIGINAL != THUMBNAILS;
  }

  /** The kind is read back from the path; the two names of JPEG XL are one kind. */
  lemma KindRecovered(kind: Kind, d: Date, hash: string)
    requires KindOk(kind) && DateOk(d) && HashOk(hash)
    ensures ParseFormat(PathOf(kind, d, hash)) == KindName(kind)
  {
    PathHasSegments(kind, d, hash);
    SegmentsNameKind(kind, d, hash);
  }

  predicate SameKind(a: Kind, b: Kind) {
    if a.Converted? && b.Converted? then FormatDir(a.format) == FormatDir(b.format) else a == b
  }

  lemma CutAt(h: string, x: string, h2: string, y: string)
    requires |h| == |h2| && h + x == h2 + y
    ensures h == h2 && x == y
  {
    assert h == (h + x)[..|h|] && h2 == (h2 + y)[..|h2|];
    assert x == (h + x)[|h|..] && y == (h2 + y)[|h2|..];
  }

  lemma CutEnd(x: string, y: string, end: string)
    requires x + end == y + end
    ensures x == y
  {
    assert |x + end| == |x| + |end| && |y + end| == |y| + |end|;
    assert x == (x + end)[..|x|] && y == (y + end)[..|y|];
  }

  lemma SizedNamesDiffer(h: string, width: int, k: string, width2: int)
    requires |h| == |k| && InRange(width) && InRange(width2)
    requires h + "_" + Itoa(width) + ".webp" == k + "_" + Itoa(width2) + ".webp"
    ensures h == k && width == width2
  {
    CutEnd(h + "_" + Itoa(width), k + "_" + Itoa(width2), ".webp");
    CutAt(h + "_", Itoa(width), k + "_", Itoa(width2));
    CutAt(h, "_", k, "_");
    AtoiItoa(width);
    AtoiItoa(width2);
  }

  lemma SegmentsAreInjective(a: Kind, d: Date, h: string, b: Kind, e: Date, k: string)
    requires KindOk(a) && DateOk(d) && HashOk(h) && KindOk(b) && DateOk(e) && HashOk(k)
    requires Segments(a, d, h) == Segments(b, e, k)
    ensures SameKind(a, b) && d == e && h == k
  {
    var s, t := Segments(a, d, h), Segments(b, e, k);
    assert ORIGINAL != THUMBNAILS && ORIGINAL != CONVERTED && THUMBNAILS != CONVERTED;
    assert s[0] == t[0] && s[1] == t[1] && s[2] == t[2] && s[3] == t[3] && s[4] == t[4];
    match a
    case Original(ext) => CutAt(h, ext, k, b.ext);
    case Thumbnail(width) => SizedNamesDiffer(h, width, k, b.width);
    case Converted(format) =>
      assert s[5] == t[5];
      assert h + "." + FormatExt(format) == h + ("." + FormatExt(format));
      assert k + "." + FormatExt(b.format) == k + ("." + FormatExt(b.format));
      CutAt(h, "." + FormatExt(format), k, "." + FormatExt(b.format));
  }

  lemma SameSegments(a: Kind, b: Kind, d: Date, h: string)
    requires SameKind(a, b)
    ensures Segments(a, d, h) == Segments(b, d, h)
  {
  }

  /** Two stored files share a path exactly when kind, date and hash agree (up to the two names
      of JPEG XL). */
  lemma PathsAreInjective(a: Kind, d: Date, h: string, b: Kind, e: Date, k: string)
    requires KindOk(a) && DateOk(d) && HashOk(h) && KindOk(b) && DateOk(e) && HashOk(k)
    ensures PathOf(a, d, h) == PathOf(b, e, k) <==> SameKind(a, b) && d == e && h == k
  {
    PathHasSegments(a, d, h);
    PathHasSegments(b, e, k);
    JoinSplit(PathOf(a, d, h), '/');
    JoinSplit(PathOf(b, e, k), '/');
    if PathOf(a, d, h) == PathOf(b, e, k) {
      SegmentsAreInjective(a, d, h, b, e, k);
    }
    if SameKind(a, b) && d == e && h == k {
      SameSegments(a, b, d, h);
    }
  }

  lemma DatePathsDiffer(d: Date, e: Date)
    requires DateOk(d) && DateOk(e)
    ensures DatePath(d) == DatePath(e) <==> d == e
  {
    PathSegments("", d, "");
    PathSegments("", e, "");
    var s, t := ["", d.year, d.month, d.day, ""], ["", e.year, e.month, e.day, ""];
    assert s == t ==> s[1] == t[1] && s[2] == t[2] && s[3] == t[3];
  }

  lemma ShiftedDate(path: string, segments: seq<string>, shifted: Date, today: string)
    requires Split(path, '/') == segments && |segments| >= 5
    requires segments[1..4] == [shifted.year, shifted.month, shifted.day]
    ensures ExtractDate(path, today) == DatePath(shifted)
  {
    DateIsJoined(segments[1..4], shifted);
  }

  /** A converted path has one segment more, so the date read from it is not its date but the
      format followed by year and month; it is the date only when all of them happen to agree. */
  lemma ConvertedDateIsShifted(format: string, d: Date, hash: string, today: string)
    requires HashOk(hash) && DateOk(d) && '/' !in format
    ensures var read := ExtractDate(ConvertedPath(DatePath(d), hash, format), today);
      read == DatePath(Date(FormatDir(format), d.year, d.month))
      && (read == DatePath(d) <==> FormatDir(format) == d.year == d.month == d.day)
  {
    ConvertedPathSegments(format, d, hash);
    var shifted := Date(FormatDir(format), d.year, d.month);
    ShiftedDate(ConvertedPath(DatePath(d), hash, format), Segments(Converted(format), d, hash), shifted, today);
    DatePathsDiffer(shifted, d);
  }
}
