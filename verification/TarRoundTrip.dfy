/** Writing an archive and reading it back: what survives, exactly, and when everything does. */
module TarRoundTrip {
  import opened Wrappers
  import opened Bytes
  import opened Octal
  import opened Paths
  import opened TarPack
  import opened TgzPreview

  predicate NulFree(f: PackFile) {
    NUL !in f.path
  }

  ghost predicate AllNulFree(files: seq<PackFile>) {
    forall f :: f in files ==> NulFree(f)
  }

  function StoredData(f: PackFile): bytes {
    if f.isDir then [] else f.data
  }

  /** An entry as the container will see it: directories without data, permissions granted. */
  function Canonical(f: PackFile): PackFile {
    PackFile(f.path, StoredData(f), f.isDir, StoredMode(f))
  }

  function Canonicals(files: seq<PackFile>): (r: seq<PackFile>)
    ensures |r| == |files| && forall i :: 0 <= i < |files| ==> r[i] == Canonical(files[i])
  {
    if files == [] then [] else [Canonical(files[0])] + Canonicals(files[1..])
  }

  /** Each part of a stored name reads up to its first NUL. */
  function Legible(n: TarName): TarName {
    TarName(UpToNul(n.name), UpToNul(n.prefix))
  }

  function ReadName(f: PackFile): bytes
    requires Nameable(f)
  {
    Rejoin(Legible(NameSplit(StoredName(f)).value))
  }

  /** What the reader makes of an entry under this name. */
  function ReadAs(name: bytes, f: PackFile): Option<PackFile> {
    var p := CleanPath(name);
    if p == [] || HasDotDot(p) then None
    else
      var isDir := f.isDir || EndsWithSlash(p);
      Some(PackFile(StripTrailing(p, SLASH), if isDir then [] else f.data, isDir, StoredMode(f)))
  }

  /** What the reader makes of a written entry. */
  function ReadBack(f: PackFile): Option<PackFile>
    requires Nameable(f)
  {
    ReadAs(ReadName(f), f)
  }

  function Survivors(files: seq<PackFile>): seq<PackFile>
    requires AllNameable(files)
  {
    if files == [] then []
    else
      var rest := Survivors(files[1..]);
      if ReadBack(files[0]).Some? then [ReadBack(files[0]).value] + rest else rest
  }

  // ---- one block ----

  /** The reader gets every field of a written header back, the name up to the NULs in its parts. */
  lemma HeaderReadBack(f: PackFile)
    requires Nameable(f) && BufferSized(f)
    ensures var h := Header(f);
      && |h| == 512 && TypeOf(h) == (if f.isDir then TYPE_DIR else TYPE_FILE)
      && SizeOf(h) == StoredSize(f) && ModeOf(h) == StoredMode(f) && EntryName(h) == ReadName(f)
  {
    hide Header, ParseField, OctalField, NameSplit, StoredMode, Rejoin;
    var n := NameSplit(StoredName(f)).value;
    HeaderFields(f);
    OctalWidths(f);
    UpToNulStops(n.name, Fill(100 - |n.name|, NUL));
    UpToNulStops(n.prefix, Fill(155 - |n.prefix|, NUL));
  }

  /** Without NULs that is the stored name. */
  lemma NulFreeName(f: PackFile)
    requires Nameable(f) && NulFree(f)
    ensures ReadName(f) == StoredName(f)
  {
    hide NameSplit;
    var n := NameSplit(StoredName(f)).value;
    NameWithoutNul(n);
    UpToNulStops(n.name, []);
    UpToNulStops(n.prefix, []);
  }

  lemma NameWithoutNul(n: TarName)
    requires NUL !in Rejoin(n)
    ensures NUL !in n.name && NUL !in n.prefix
  {
    if n.prefix != [] {
      assert forall b :: b in n.name || b in n.prefix ==> b in Rejoin(n);
    }
  }

  /** A block takes exactly the space the reader advances by. */
  lemma BlockSpace(f: PackFile, rest: bytes)
    requires Nameable(f) && |Header(f)| == 512
    ensures var t := Block(f) + rest;
      && |t| >= 512 && t[..512] == Header(f)
      && Clip(t, 512, 512 + StoredSize(f)) == StoredData(f)
      && Advance(StoredSize(f)) >= 512 && DropUpTo(t, Advance(StoredSize(f))) == rest
  {
    hide Header, Nameable;
    var size := StoredSize(f);
    var t := Block(f) + rest;
    if size == 0 {
      assert Advance(0) == 512;
      assert t[512..] == rest;
    } else {
      PaddedLength(size);
      var pad := Padding(size);
      assert t == Header(f) + (f.data + (pad + rest));
      assert t[512..512 + size] == f.data;
      assert t[512 + size + |pad|..] == rest;
    }
  }

  lemma PaddedLength(size: nat)
    ensures Advance(size) == 512 + size + |Padding(size)|
  {
  }

  lemma BlockRead(f: PackFile, rest: bytes)
    requires Nameable(f) && BufferSized(f) && Advancing(rest)
    ensures |Header(f)| == 512 && Advancing(Block(f) + rest)
    ensures Members(Block(f) + rest, None) ==
      [Member(Header(f), CleanPath(ReadName(f)), StoredData(f))] + Members(rest, None)
  {
    hide Header, Nameable, Block, EntryName, ReadName, SizeOf, ModeOf, TypeOf, Clip, DropUpTo, Advance, StoredSize, StoredData,
         IsZero;
    HeaderReadBack(f);
    BlockSpace(f, rest);
    TypeIsByte(Header(f));
  }

  lemma TypeIsByte(h: bytes)
    ensures TypeOf(h) != NUL ==> !IsZero(h)
  {
  }

  lemma KeptIsReadBack(f: PackFile)
    requires Nameable(f) && BufferSized(f)
    ensures |Header(f)| == 512
    ensures Kept(Member(Header(f), CleanPath(ReadName(f)), StoredData(f))) == ReadBack(f)
  {
    hide Header, StripTrailing, HasDotDot, ModeOf, TypeOf, CleanPath, ReadName, StoredMode;
    HeaderReadBack(f);
  }

  // ---- the archive ----

  lemma {:induction false} BlocksRead(files: seq<PackFile>)
    requires AllNameable(files) && AllBufferSized(files)
    ensures var t := Blocks(files) + Fill(1024, NUL);
      Advancing(t) && KeepAll(Members(t, None)) == Survivors(files)
  {
    hide Block, Nameable, KeepAll, Members, Advancing, BufferSized, ReadBack;
    var t := Blocks(files) + Fill(1024, NUL);
    if files == [] {
      assert t == Fill(1024, NUL);
      ZerosRead();
    } else {
      var f := files[0];
      var rest := Blocks(files[1..]) + Fill(1024, NUL);
      BlocksRead(files[1..]);
      OneMore(f, files[1..], rest);
      assert t == Block(f) + rest;
      assert [f] + files[1..] == files;
    }
  }

  lemma ZerosRead()
    ensures Advancing(Fill(1024, NUL)) && KeepAll(Members(Fill(1024, NUL), None)) == []
  {
  }

  lemma OneMore(f: PackFile, files: seq<PackFile>, rest: bytes)
    requires Nameable(f) && BufferSized(f) && AllNameable(files)
    requires Advancing(rest) && KeepAll(Members(rest, None)) == Survivors(files)
    ensures Advancing(Block(f) + rest) && KeepAll(Members(Block(f) + rest, None)) == Survivors([f] + files)
  {
    hide Header, Nameable, Block, Members, Advancing, Kept, ReadBack, CleanPath, StoredData;
    BlockRead(f, rest);
    KeptIsReadBack(f);
    var m := Member(Header(f), CleanPath(ReadName(f)), StoredData(f));
    assert ([m] + Members(rest, None))[1..] == Members(rest, None);
    assert ([f] + files)[1..] == files;
  }

  /** Reading a written archive gives each entry's reading, in order: zero blocks in the data end nothing early. */
  lemma ReadsBack(files: seq<PackFile>)
    requires AllNameable(files) && AllBufferSized(files)
    ensures Halts(Tar(files)) && ExtractTar(Tar(files)) == Survivors(files)
  {
    hide Advancing, Halts, Members, KeepAll, Listed, Survivors, AllNameable;
    BlocksRead(files);
    AdvancingHalts(Tar(files));
  }

  // ---- when everything comes back ----

  /** No ".." component, no leading "./", no trailing slash; a file has a path and a directory is not ".". */
  predicate Portable(f: PackFile) {
    && !HasDotDot(f.path) && !LeadingDotSlash(f.path) && !EndsWithSlash(f.path)
    && f.path != if f.isDir then [DOT] else []
  }

  ghost predicate AllPortable(files: seq<PackFile>) {
    forall f :: f in files ==> Portable(f)
  }

  /** Read under its stored name, an entry comes back as it is exactly if its path is portable. */
  lemma PortableReads(f: PackFile)
    ensures ReadAs(StoredName(f), f) == Some(Canonical(f)) <==> Portable(f)
  {
    if f.isDir { PortableDir(f); } else { PortableFile(f); }
  }

  lemma PortableFile(f: PackFile)
    requires !f.isDir
    ensures ReadAs(StoredName(f), f) == Some(Canonical(f)) <==> Portable(f)
  {
    hide HasDotDot, StoredMode;
    if !LeadingDotSlash(f.path) && !EndsWithSlash(f.path) {
      assert StripTrailing(f.path, SLASH) == f.path;
    }
  }

  lemma PortableDir(f: PackFile)
    requires f.isDir
    ensures ReadAs(StoredName(f), f) == Some(Canonical(f)) <==> Portable(f)
  {
    hide StoredMode;
    var w := f.path + [SLASH];
    SplitTrailingSlash(f.path);
    assert LeadingDotSlash(w) <==> LeadingDotSlash(f.path) || f.path == [DOT];
    assert HasDotDot(w) <==> HasDotDot(f.path);
    assert w[..|w| - 1] == f.path;
    if !EndsWithSlash(f.path) {
      assert StripTrailing(w, SLASH) == f.path;
    } else {
      assert |StripTrailing(w, SLASH)| < |f.path|;
    }
  }

  lemma {:induction false} StripLeadingFrom(s: bytes, b: byte)
    ensures forall x :: x in StripLeading(s, b) ==> x in s
  {
    if s != [] {
      StripLeadingFrom(s[1..], b);
    }
  }

  /** No byte of a read path is new; in particular it has no NUL. */
  lemma ReadAsFrom(name: bytes, f: PackFile)
    ensures var r := ReadAs(name, f); r.Some? ==> forall x :: x in r.value.path ==> x in name
  {
    hide HasDotDot, StoredMode;
    if LeadingDotSlash(name) {
      StripLeadingFrom(name[2..], SLASH);
    }
    assert forall x :: x in CleanPath(name) ==> x in name;
  }

  lemma ReadNameNulFree(f: PackFile)
    requires Nameable(f)
    ensures NUL !in ReadName(f)
  {
    hide NameSplit;
    var n := Legible(NameSplit(StoredName(f)).value);
    assert forall x :: x in Rejoin(n) ==> x in n.name || x in n.prefix || x == SLASH;
  }

  /** Exactly when one entry comes back as it is. */
  lemma EntrySurvives(f: PackFile)
    requires Nameable(f)
    ensures ReadBack(f) == Some(Canonical(f)) <==> Portable(f) && NulFree(f)
  {
    hide ReadAs, ReadName, Portable, Nameable;
    if NulFree(f) {
      NulFreeName(f);
      PortableReads(f);
    } else {
      ReadNameNulFree(f);
      ReadAsFrom(ReadName(f), f);
    }
  }

  lemma {:induction false} SurvivorsCount(files: seq<PackFile>)
    requires AllNameable(files)
    ensures |Survivors(files)| <= |files|
  {
    hide Nameable, ReadBack;
    if files != [] {
      SurvivorsCount(files[1..]);
    }
  }

  lemma {:induction false} AllSurvive(files: seq<PackFile>)
    requires AllNameable(files)
    ensures Survivors(files) == Canonicals(files) <==> AllPortable(files) && AllNulFree(files)
  {
    hide ReadBack, Canonical, Portable, NulFree, Nameable;
    if files != [] {
      var f, rest := files[0], files[1..];
      AllSurvive(rest);
      SurvivorsCount(rest);
      EntrySurvives(f);
      assert files == [f] + rest;
      assert AllPortable(files) && AllNulFree(files) <==>
        Portable(f) && NulFree(f) && AllPortable(rest) && AllNulFree(rest);
      if ReadBack(f).Some? {
        HeadTail(ReadBack(f).value, Survivors(rest), Canonical(f), Canonicals(rest));
      } else {
        assert |Survivors(files)| < |Canonicals(files)|;
      }
    }
  }

  lemma HeadTail<T>(x: T, xs: seq<T>, y: T, ys: seq<T>)
    ensures [x] + xs == [y] + ys <==> x == y && xs == ys
  {
    if [x] + xs == [y] + ys {
      assert x == ([x] + xs)[0] == ([y] + ys)[0] == y;
      assert xs == ([x] + xs)[1..] == ([y] + ys)[1..] == ys;
    }
  }

  /**
   * The tar round trip. Reading what was written gives the same entries in the same order, with equal path,
   * kind and data and with at least the default permissions, if and only if every path is portable and free of NULs.
   */
  lemma TarRoundTrip(files: seq<PackFile>)
    requires AllNameable(files) && AllBufferSized(files)
    ensures Halts(Tar(files))
    ensures ExtractTar(Tar(files)) == Canonicals(files) <==> AllPortable(files) && AllNulFree(files)
  {
    hide Tar, Halts, ExtractTar, AllNameable, AllPortable, AllNulFree, Survivors;
    ReadsBack(files);
    AllSurvive(files);
  }

  lemma LeadingDotComponent(p: bytes)
    requires LeadingDotSlash(p)
    ensures [DOT] in Split(p)
  {
    assert p == [DOT] + [SLASH] + p[2..];
    SplitJoin([DOT], p[2..]);
    SplitPlain([DOT]);
    assert Split(p)[0] == [DOT];
  }

  lemma TrailingEmptyComponent(p: bytes)
    requires EndsWithSlash(p)
    ensures [] in Split(p)
  {
    var q := p[..|p| - 1];
    assert p == q + [SLASH];
    SplitTrailingSlash(q);
    assert Split(p)[|Split(q)|] == [];
  }

  /** A path with only named components, none of them "." or "..", is portable. */
  lemma PlainIsPortable(f: PackFile)
    requires [] !in Split(f.path) && [DOT] !in Split(f.path) && DOTDOT !in Split(f.path)
    ensures Portable(f)
  {
    if LeadingDotSlash(f.path) { LeadingDotComponent(f.path); }
    if EndsWithSlash(f.path) { TrailingEmptyComponent(f.path); }
    SplitPlain([DOT]);
  }
}
