/**
 * Upload normalisation (apps/web/lib/storage/scaffoldNormalize.ts): drop junk, strip wrapper folders, repack.
 * Compression is an inverse pair: an upload that gunzip accepts is represented by the tar inside it.
 */
module ScaffoldNormalize {
  import opened Wrappers
  import opened Bytes
  import opened Paths
  import opened TarPack
  import TgzPreview
  import ZipExtract

  /** `Gzipped(tar)` stands for gzip(tar); `Raw` is every byte string that is not a gzip stream. */
  datatype Upload = Gzipped(tar: bytes) | Raw(content: bytes)

  datatype Summary = Summary(fileCount: nat, flattened: nat, droppedJunk: nat)

  datatype Normalized = Normalized(tar: bytes, summary: Summary)

  datatype NormalizeError =
    | UnsupportedFormat | BadGzip | UnpackedTooLarge | BadZip(zip: ZipExtract.ZipError) | NoFiles | NameTooLong

  /** __MACOSX, .DS_Store, Thumbs.db, desktop.ini */
  const JUNK_NAMES: set<bytes> := {
    [0x5f, 0x5f, 0x4d, 0x41, 0x43, 0x4f, 0x53, 0x58],
    [0x2e, 0x44, 0x53, 0x5f, 0x53, 0x74, 0x6f, 0x72, 0x65],
    [0x54, 0x68, 0x75, 0x6d, 0x62, 0x73, 0x2e, 0x64, 0x62],
    [0x64, 0x65, 0x73, 0x6b, 0x74, 0x6f, 0x70, 0x2e, 0x69, 0x6e, 0x69]
  }

  const MAX_FLATTEN: nat := 16

  predicate IsJunk(path: bytes) {
    exists c :: c in Split(path) && c in JUNK_NAMES
  }

  predicate Wanted(f: PackFile) {
    f.path != [] && !IsJunk(f.path)
  }

  function Clean(files: seq<PackFile>): seq<PackFile> {
    if files == [] then []
    else if Wanted(files[0]) then [files[0]] + Clean(files[1..])
    else Clean(files[1..])
  }

  function FileCount(files: seq<PackFile>): (r: nat)
    ensures r == 0 <==> forall f :: f in files ==> f.isDir
  {
    if files == [] then 0 else (if files[0].isDir then 0 else 1) + FileCount(files[1..])
  }

  // ---- stripping one wrapper folder ----

  /** Everything sits under one top-level name, which is a directory. */
  predicate Wrapped(files: seq<PackFile>) {
    && files != []
    && forall f :: f in files ==> First(f.path) == First(files[0].path) && (f.path == First(f.path) ==> f.isDir)
  }

  /** Drop the wrapper's own entries and cut its name and slash off all other paths. */
  function Unwrap(files: seq<PackFile>, root: bytes): seq<PackFile> {
    if files == [] then []
    else
      var rest := Unwrap(files[1..], root);
      if files[0].path == root then rest
      else [files[0].(path := DropUpTo(files[0].path, |root| + 1))] + rest
  }

  /** Total path length plus entry count: the measure of the loop without its guard. */
  function Weight(files: seq<PackFile>): nat {
    if files == [] then 0 else |files[0].path| + 1 + Weight(files[1..])
  }

  lemma {:induction false} UnwrapWeight(files: seq<PackFile>, root: bytes)
    ensures Weight(Unwrap(files, root)) <= Weight(files)
    ensures files != [] && First(files[0].path) == root ==> Weight(Unwrap(files, root)) < Weight(files)
  {
    if files != [] {
      UnwrapWeight(files[1..], root);
      var f := files[0];
      if f.path != root {
        var g := f.(path := DropUpTo(f.path, |root| + 1));
        assert ([g] + Unwrap(files[1..], root))[1..] == Unwrap(files[1..], root);
        assert First(f.path) == root ==> |root| < |f.path|;
      }
    }
  }

  /** Flattening with no limit on the depth: it terminates on every input. */
  function FlattenAll(files: seq<PackFile>): (seq<PackFile>, nat)
    decreases Weight(files)
  {
    if !Wrapped(files) then (files, 0)
    else
      UnwrapWeight(files, First(files[0].path));
      var (inner, n) := FlattenAll(Unwrap(files, First(files[0].path)));
      (inner, n + 1)
  }

  /** The loop of the source, with its nesting guard. */
  function Flatten(files: seq<PackFile>, flattened: nat): (r: (seq<PackFile>, nat))
    requires flattened <= MAX_FLATTEN
    ensures flattened <= r.1 <= MAX_FLATTEN + 1
    ensures r.1 <= MAX_FLATTEN ==> !Wrapped(r.0)
    decreases MAX_FLATTEN - flattened
  {
    if !Wrapped(files) then (files, flattened)
    else
      var inner := Unwrap(files, First(files[0].path));
      if flattened + 1 > MAX_FLATTEN then (inner, flattened + 1) else Flatten(inner, flattened + 1)
  }

  /** The guard only cuts the unlimited process short: the depth is the same up to 17 levels, and so is the result. */
  lemma {:induction false} GuardOnlyCuts(files: seq<PackFile>, flattened: nat)
    requires flattened <= MAX_FLATTEN
    ensures var (all, depth) := FlattenAll(files);
      var (some, n) := Flatten(files, flattened);
      if flattened + depth <= MAX_FLATTEN + 1 then n == flattened + depth && some == all else n == MAX_FLATTEN + 1
    decreases MAX_FLATTEN - flattened
  {
    hide Wrapped, Unwrap, First;
    if Wrapped(files) {
      NotEmpty(files);
      var root := First(files[0].path);
      UnwrapWeight(files, root);
      var inner := Unwrap(files, root);
      if flattened < MAX_FLATTEN {
        GuardOnlyCuts(inner, flattened + 1);
      }
    }
  }

  lemma NotEmpty(files: seq<PackFile>)
    requires Wrapped(files)
    ensures files != []
  {
  }

  lemma SingleRoot(files: seq<PackFile>, roots: set<bytes>)
    requires roots == set f | f in files :: First(f.path)
    ensures |roots| == 1 <==> files != [] && forall f :: f in files ==> First(f.path) == First(files[0].path)
  {
    if files != [] {
      var root := First(files[0].path);
      assert files[0] in files && root in roots;
      if |roots| == 1 {
        OneElement(roots, root);
        assert forall f :: f in files ==> First(f.path) in roots;
      }
      if forall f :: f in files ==> First(f.path) == root {
        assert roots == {root};
      }
    } else {
      assert roots == {};
    }
  }

  lemma OneElement<T>(s: set<T>, x: T)
    requires |s| == 1 && x in s
    ensures s == {x}
  {
    var rest := s - {x};
    assert |rest| == 0;
    assert s == {x} + rest;
  }

  method FlattenWrappers(entries: seq<PackFile>) returns (files: seq<PackFile>, flattened: nat)
    ensures (files, flattened) == Flatten(entries, 0)
  {
    hide Unwrap, First;
    files, flattened := entries, 0;
    while true
      invariant flattened <= MAX_FLATTEN
      invariant Flatten(files, flattened) == Flatten(entries, 0)
      decreases MAX_FLATTEN - flattened
    {
      var roots := set f | f in files :: First(f.path);
      SingleRoot(files, roots);
      if |roots| != 1 {
        break;
      }
      var root := First(files[0].path);
      assert root in roots;
      var isWrapper := forall f :: f in files ==> if f.path == root then f.isDir else root + [SLASH] <= f.path;
      WrapperCheck(files, root);
      if !isWrapper {
        break;
      }
      files := Unwrap(files, root);
      flattened := flattened + 1;
      if flattened > MAX_FLATTEN {
        break;
      }
    }
  }

  /** With a single first component, the prefix test of the source can only fail on a file named like it. */
  lemma WrapperCheck(files: seq<PackFile>, root: bytes)
    requires files != [] && forall f :: f in files ==> First(f.path) == root
    ensures Wrapped(files) <==>
      forall f :: f in files ==> if f.path == root then f.isDir else root + [SLASH] <= f.path
  {
    assert files[0] in files;
    forall f | f in files && f.path != root
      ensures root + [SLASH] <= f.path
    {
      UnderFirst(f.path);
    }
  }

  lemma UnderFirst(p: bytes)
    requires p != First(p)
    ensures First(p) + [SLASH] <= p && p == First(p) + [SLASH] + DropUpTo(p, |First(p)| + 1)
  {
    var i := FirstSlash(p);
    assert p[..i + 1] == p[..i] + [SLASH];
  }

  // ---- the whole operation ----

  function Repack(entries: seq<PackFile>): Result<Normalized, NormalizeError> {
    var clean := Clean(entries);
    var (files, flattened) := Flatten(clean, 0);
    CleanShrinks(entries);
    if FileCount(files) == 0 then Failure(NoFiles)
    else if !AllNameable(files) then Failure(NameTooLong)
    else Success(Normalized(Tar(files), Summary(FileCount(files), flattened, |entries| - |clean|)))
  }

  lemma {:induction false} CleanShrinks(files: seq<PackFile>)
    ensures |Clean(files)| <= |files|
  {
    if files != [] {
      CleanShrinks(files[1..]);
    }
  }

  predicate Readable(u: Upload) {
    u.Gzipped? ==> TgzPreview.Walkable(u.tar)
  }

  function IsZip(b: bytes): bool {
    |b| >= 4 && b[0] == 0x50 && b[1] == 0x4b && (b[2] == 0x03 || b[2] == 0x05)
  }

  function IsGzip(b: bytes): bool {
    |b| >= 2 && b[0] == 0x1f && b[1] == 0x8b
  }

  function Unpack(u: Upload, inflate: ZipExtract.Inflate): Result<seq<PackFile>, NormalizeError>
    requires Readable(u)
  {
    match u
    case Gzipped(tar) =>
      if |tar| > TgzPreview.MAX_UNPACKED_BYTES then Failure(UnpackedTooLarge) else Success(TgzPreview.ExtractTar(tar))
    case Raw(content) =>
      if IsZip(content) then
        var r := ZipExtract.ExtractZip(content, inflate);
        if r.Success? then Success(r.value) else Failure(BadZip(r.error))
      else if IsGzip(content) then Failure(BadGzip)
      else Failure(UnsupportedFormat)
  }

  function Normalize(u: Upload, inflate: ZipExtract.Inflate): Result<Normalized, NormalizeError>
    requires Readable(u)
  {
    var entries := Unpack(u, inflate);
    if entries.Failure? then Failure(entries.error) else Repack(entries.value)
  }

  /** Extracted entries: no trailing slash, and data that fits a Buffer. */
  ghost predicate Extracted(files: seq<PackFile>) {
    forall f :: f in files ==> !EndsWithSlash(f.path) && BufferSized(f)
  }

  lemma {:induction false} TarExtracted(ms: seq<TgzPreview.Member>)
    requires forall m :: m in ms ==> |m.data| <= MAX_BUFFER
    ensures Extracted(TgzPreview.KeepAll(ms))
  {
    hide HasDotDot;
    if ms != [] {
      TarExtracted(ms[1..]);
    }
  }

  lemma {:induction false} MemberSizes(tar: bytes, offset: int, longName: Option<bytes>, n: nat)
    ensures forall m :: m in TgzPreview.Walk(tar, offset, longName, n) ==> |m.data| <= |tar|
    decreases n
  {
    hide TgzPreview.LongNameOr, TgzPreview.IsPax, TgzPreview.SizeOf, TgzPreview.Next, TgzPreview.TypeOf, TgzPreview.Ended,
         TgzPreview.HeaderAt, StripTrailing, SubArray;
    if n > 0 {
      var h := TgzPreview.HeaderAt(tar, offset);
      var data := SubArray(tar, offset + 512, offset + 512 + TgzPreview.SizeOf(h));
      MemberSizes(tar, TgzPreview.Next(tar, offset), None, n - 1);
      MemberSizes(tar, TgzPreview.Next(tar, offset), longName, n - 1);
      MemberSizes(tar, TgzPreview.Next(tar, offset), Some(StripTrailing(data, NUL)), n - 1);
    }
  }

  lemma {:induction false} ZipExtracted(zip: bytes, off: nat, left: nat, unpacked: nat, inflate: ZipExtract.Inflate)
    ensures var r := ZipExtract.Entries(zip, off, left, unpacked, inflate);
      r.Success? ==> Extracted(r.value)
    decreases left
  {
    hide ZipExtract.EntryAt;
    if left > 0 {
      var e := ZipExtract.EntryAt(zip, off, unpacked, inflate);
      if e.Success? {
        ZipEntryExtracted(zip, off, unpacked, inflate);
        ZipExtracted(zip, ZipExtract.NextCentral(zip, off), left - 1, unpacked + ZipExtract.U32(zip, off + 24), inflate);
      }
    }
  }

  lemma ZipEntryExtracted(zip: bytes, off: nat, unpacked: nat, inflate: ZipExtract.Inflate)
    ensures var e := ZipExtract.EntryAt(zip, off, unpacked, inflate);
      e.Success? ==> ZipExtract.CentralAt(zip, off) && !EndsWithSlash(e.value.path) && BufferSized(e.value)
  {
  }

  lemma UnpackExtracted(u: Upload, inflate: ZipExtract.Inflate)
    requires Readable(u)
    ensures Unpack(u, inflate).Success? ==> Extracted(Unpack(u, inflate).value)
  {
    hide ZipExtract.Eocd, ZipExtract.Entries, ZipExtract.U16, ZipExtract.U32, TgzPreview.Walk, TgzPreview.KeepAll;
    match u
    case Gzipped(tar) =>
      if |tar| <= TgzPreview.MAX_UNPACKED_BYTES {
        MemberSizes(tar, 0, None, TgzPreview.Turns(tar));
        TarExtracted(TgzPreview.Listed(tar));
      }
    case Raw(content) =>
      var eocd := ZipExtract.Eocd(content);
      if eocd.Some? {
        ZipExtracted(content, ZipExtract.U32(content, eocd.value + 16), ZipExtract.U16(content, eocd.value + 10), 0, inflate);
      }
  }

  method UnpackUpload(u: Upload, inflate: ZipExtract.Inflate) returns (r: Result<seq<PackFile>, NormalizeError>)
    requires Readable(u)
    ensures r == Unpack(u, inflate)
  {
    hide ZipExtract.ExtractZip, TgzPreview.ExtractTar;
    match u
    case Gzipped(tar) =>
      var entries := TgzPreview.ExtractTgzEntries(tar);
      return if entries.Success? then Success(entries.value) else Failure(UnpackedTooLarge);
    case Raw(content) =>
      if IsZip(content) {
        var entries := ZipExtract.ExtractZipEntries(content, inflate);
        return if entries.Success? then Success(entries.value) else Failure(BadZip(entries.error));
      }
      return if IsGzip(content) then Failure(BadGzip) else Failure(UnsupportedFormat);
  }

  method NormalizeScaffoldArchive(u: Upload, inflate: ZipExtract.Inflate)
    returns (r: Result<Normalized, NormalizeError>)
    requires Readable(u)
    ensures r == Normalize(u, inflate)
  {
    hide Unpack, Clean, Flatten, FileCount, AllNameable, Tar, Extracted, AllBufferSized;
    var entries := UnpackUpload(u, inflate);
    if entries.Failure? {
      return Failure(entries.error);
    }
    var clean := Clean(entries.value);
    CleanShrinks(entries.value);
    var droppedJunk := |entries.value| - |clean|;
    var files, flattened := FlattenWrappers(clean);
    var fileCount := FileCount(files);
    if fileCount == 0 {
      return Failure(NoFiles);
    }
    UnpackExtracted(u, inflate);
    FilesFit(entries.value);
    var tar := CreateTar(files);
    r := if tar.Success? then Success(Normalized(tar.value, Summary(fileCount, flattened, droppedJunk)))
         else Failure(NameTooLong);
  }

  /** Filtering and flattening leave the data alone, so it still fits. */
  lemma FilesFit(entries: seq<PackFile>)
    requires Extracted(entries)
    ensures AllBufferSized(Flatten(Clean(entries), 0).0)
  {
    CleanFits(entries);
    FlattenFits(Clean(entries), 0);
  }

  lemma {:induction false} CleanFits(files: seq<PackFile>)
    requires AllBufferSized(files)
    ensures AllBufferSized(Clean(files))
  {
    hide Wanted;
    if files != [] {
      CleanFits(files[1..]);
    }
  }

  lemma {:induction false} UnwrapFits(files: seq<PackFile>, root: bytes)
    requires AllBufferSized(files)
    ensures AllBufferSized(Unwrap(files, root))
  {
    if files != [] {
      UnwrapFits(files[1..], root);
      assert BufferSized(files[0]) by {
        assert files[0] in files;
      }
    }
  }

  lemma {:induction false} FlattenFits(files: seq<PackFile>, flattened: nat)
    requires AllBufferSized(files) && flattened <= MAX_FLATTEN
    ensures AllBufferSized(Flatten(files, flattened).0)
    decreases MAX_FLATTEN - flattened
  {
    hide Wrapped, Unwrap, AllBufferSized;
    if Wrapped(files) {
      NotEmpty(files);
      UnwrapFits(files, First(files[0].path));
      if flattened < MAX_FLATTEN {
        FlattenFits(Unwrap(files, First(files[0].path)), flattened + 1);
      }
    }
  }
}
