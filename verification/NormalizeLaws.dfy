/** What normalisation keeps, and why doing it twice is doing it once. */
module NormalizeLaws {
  import opened Wrappers
  import opened Bytes
  import opened Paths
  import opened TarPack
  import opened TarRoundTrip
  import opened ScaffoldNormalize
  import opened Octal
  import TgzPreview
  import ZipExtract
  import ZipLayout

  ghost predicate Rooted(files: seq<PackFile>) {
    forall f :: f in files ==> f.path != [] && !EndsWithSlash(f.path)
  }

  /** The entries under `lead`, in order, with `lead` cut off their paths. */
  function Below(files: seq<PackFile>, lead: bytes): seq<PackFile> {
    if files == [] then []
    else
      var rest := Below(files[1..], lead);
      if lead <= files[0].path then [files[0].(path := files[0].path[|lead|..])] + rest else rest
  }

  /** `after` is `before` with one common lead of `depth` components removed; the only entries without it
      are directories that the lead itself passes through. */
  ghost predicate Conserved(before: seq<PackFile>, after: seq<PackFile>, lead: bytes, depth: nat) {
    && after == Below(before, lead)
    && |Split(lead)| == depth + 1 && (lead == [] || EndsWithSlash(lead))
    && forall f :: f in before ==> lead <= f.path || (f.isDir && f.path + [SLASH] <= lead)
  }

  // ---- one level ----

  lemma {:induction false} BelowNothing(files: seq<PackFile>)
    ensures Below(files, []) == files
  {
    if files != [] {
      BelowNothing(files[1..]);
      assert files[0].path[0..] == files[0].path;
    }
  }

  ghost predicate UnderRoot(files: seq<PackFile>, root: bytes) {
    forall f :: f in files ==> First(f.path) == root
  }

  lemma PathBelow(p: bytes, root: bytes, lead: bytes)
    requires First(p) == root && p != root
    ensures var q, long := DropUpTo(p, |root| + 1), root + [SLASH] + lead;
      && p == root + [SLASH] + q && (long <= p <==> lead <= q) && (lead <= q ==> q[|lead|..] == p[|long|..])
  {
    hide DropUpTo, First;
    var q := DropUpTo(p, |root| + 1);
    UnderFirst(p);
    PrefixUnder(root + [SLASH], lead, q);
  }

  lemma PrefixUnder(front: bytes, a: bytes, b: bytes)
    ensures front + a <= front + b <==> a <= b
    ensures a <= b ==> (front + b)[|front + a|..] == b[|a|..]
  {
    assert (front + b)[|front|..] == b;
    if front + a <= front + b {
      assert (front + a)[|front|..] == a;
      assert b[..|a|] == (front + b)[|front|..][..|a|] == (front + b)[..|front + a|][|front|..];
    }
  }

  lemma {:induction false} UnwrapBelow(files: seq<PackFile>, root: bytes, lead: bytes)
    requires UnderRoot(files, root)
    ensures Below(Unwrap(files, root), lead) == Below(files, root + [SLASH] + lead)
  {
    if files != [] {
      var f := files[0];
      assert f in files;
      UnwrapBelow(files[1..], root, lead);
      if f.path != root {
        PathBelow(f.path, root, lead);
        var g := f.(path := DropUpTo(f.path, |root| + 1));
        assert ([g] + Unwrap(files[1..], root))[1..] == Unwrap(files[1..], root);
      }
    }
  }

  lemma {:induction false} UnwrapMembers(files: seq<PackFile>, root: bytes, f: PackFile)
    requires f in files && f.path != root
    ensures f.(path := DropUpTo(f.path, |root| + 1)) in Unwrap(files, root)
  {
    if f != files[0] {
      UnwrapMembers(files[1..], root, f);
    }
  }

  lemma {:induction false} UnwrapRooted(files: seq<PackFile>, root: bytes)
    requires UnderRoot(files, root) && Rooted(files)
    ensures Rooted(Unwrap(files, root))
  {
    if files != [] {
      var f := files[0];
      assert f in files;
      UnwrapRooted(files[1..], root);
      if f.path != root {
        PathBelow(f.path, root, []);
        var q := DropUpTo(f.path, |root| + 1);
        assert q != [] ==> q[|q| - 1] == f.path[|f.path| - 1];
        assert EndsWithSlash(root + [SLASH]) && root + [SLASH] + [] == root + [SLASH];
      }
    }
  }

  lemma LeadDepth(root: bytes, lead: bytes)
    requires SLASH !in root
    ensures |Split(root + [SLASH] + lead)| == 1 + |Split(lead)|
    ensures EndsWithSlash(root + [SLASH]) && (EndsWithSlash(lead) ==> EndsWithSlash(root + [SLASH] + lead))
  {
    SplitJoin(root, lead);
    SplitPlain(root);
  }

  lemma OneLevel(files: seq<PackFile>, after: seq<PackFile>, root: bytes, lead: bytes, depth: nat)
    requires UnderRoot(files, root) && Conserved(Unwrap(files, root), after, lead, depth)
    requires forall f :: f in files && f.path == root ==> f.isDir
    requires SLASH !in root
    ensures Conserved(files, after, root + [SLASH] + lead, depth + 1)
  {
    hide Unwrap, Below, Split, First;
    var long := root + [SLASH] + lead;
    UnwrapBelow(files, root, lead);
    LeadDepth(root, lead);
    assert lead == [] ==> long == root + [SLASH];
    forall f | f in files
      ensures long <= f.path || (f.isDir && f.path + [SLASH] <= long)
    {
      if f.path == root {
        assert long[..|root| + 1] == root + [SLASH];
      } else {
        UnwrapMembers(files, root, f);
        PathBelow(f.path, root, lead);
        var q := DropUpTo(f.path, |root| + 1);
        if !(lead <= q) {
          PrefixUnder(root + [SLASH], q + [SLASH], lead);
          assert f.path + [SLASH] == root + [SLASH] + (q + [SLASH]);
        }
      }
    }
  }

  // ---- the loop ----

  /** Flattening conserves content, at any depth. */
  lemma {:induction false} FlattenConserves(files: seq<PackFile>, flattened: nat) returns (lead: bytes)
    requires Rooted(files) && flattened <= MAX_FLATTEN
    ensures var (after, n) := Flatten(files, flattened);
      n >= flattened && Conserved(files, after, lead, n - flattened) && Rooted(after)
    decreases MAX_FLATTEN - flattened
  {
    hide Wrapped, Unwrap, Rooted, Conserved, First;
    if Wrapped(files) {
      var root := WrapperRoot(files);
      var inner := Unwrap(files, root);
      UnwrapRooted(files, root);
      if flattened < MAX_FLATTEN {
        lead := FlattenConserves(inner, flattened + 1);
        OneLevel(files, Flatten(inner, flattened + 1).0, root, lead, Flatten(inner, flattened + 1).1 - flattened - 1);
      } else {
        lead := [];
        NothingStripped(inner);
        OneLevel(files, inner, root, [], 0);
      }
      lead := root + [SLASH] + lead;
    } else {
      lead := [];
      NothingStripped(files);
    }
  }

  lemma WrapperRoot(files: seq<PackFile>) returns (root: bytes)
    requires Wrapped(files)
    ensures files != [] && root == First(files[0].path) && SLASH !in root && UnderRoot(files, root)
    ensures forall f :: f in files && f.path == root ==> f.isDir
  {
    root := First(files[0].path);
  }

  lemma NothingStripped(files: seq<PackFile>)
    ensures Conserved(files, files, [], 0)
  {
    BelowNothing(files);
    assert forall f :: f in files ==> [] <= f.path;
  }

  // ---- reading the conservation statement ----

  /** Nothing is invented: every result is an input entry with the lead cut off its path. */
  lemma {:induction false} BelowFrom(files: seq<PackFile>, lead: bytes, g: PackFile) returns (f: PackFile)
    requires g in Below(files, lead)
    ensures f in files && f.path == lead + g.path && g == f.(path := g.path)
  {
    f := files[0];
    if !(lead <= f.path && g == f.(path := f.path[|lead|..])) {
      f := BelowFrom(files[1..], lead, g);
    }
  }

  ghost predicate DistinctPaths(files: seq<PackFile>) {
    forall i, j :: 0 <= i < j < |files| ==> files[i].path != files[j].path
  }

  /** Distinct paths stay distinct. */
  lemma {:induction false} BelowDistinct(files: seq<PackFile>, lead: bytes)
    requires DistinctPaths(files)
    ensures DistinctPaths(Below(files, lead))
  {
    if files != [] {
      var rest := Below(files[1..], lead);
      BelowDistinct(files[1..], lead);
      if lead <= files[0].path {
        var head := files[0].path[|lead|..];
        assert files[0].path == lead + head;
        forall g | g in rest
          ensures g.path != head
        {
          var f := BelowFrom(files[1..], lead, g);
          var k :| 0 <= k < |files[1..]| && files[1..][k] == f;
          assert files[k + 1].path != files[0].path;
        }
      }
    }
  }

  /** No component appears that was not in the input: cutting a lead only removes components. */
  lemma ComponentsKept(lead: bytes, p: bytes)
    requires lead == [] || EndsWithSlash(lead)
    ensures forall c :: c in Split(p) ==> c in Split(lead + p)
  {
    if lead == [] {
      assert lead + p == p;
    } else {
      var front := lead[..|lead| - 1];
      assert lead + p == front + [SLASH] + p;
      SplitJoin(front, p);
    }
  }

  lemma {:induction false} CleanFrom(files: seq<PackFile>, f: PackFile)
    ensures f in Clean(files) <==> f in files && Wanted(f)
  {
    hide Wanted;
    if files != [] {
      CleanFrom(files[1..], f);
      if Wanted(files[0]) {
        assert Clean(files) == [files[0]] + Clean(files[1..]);
      }
    }
  }

  /** Everything a maintainer asks of flattening, for the junk-free entries of an archive. */
  lemma NormalizeConserves(entries: seq<PackFile>) returns (lead: bytes)
    requires Extracted(entries)
    ensures var clean := Clean(entries);
      var (files, flattened) := Flatten(clean, 0);
      && Conserved(clean, files, lead, flattened)
      && Rooted(files) && (forall f :: f in files ==> Wanted(f))
      && (DistinctPaths(clean) ==> DistinctPaths(files))
  {
    hide Clean, Flatten, IsJunk, Below;
    var clean := Clean(entries);
    forall f | f in clean
      ensures f.path != [] && !EndsWithSlash(f.path) && Wanted(f)
    {
      CleanFrom(entries, f);
    }
    lead := FlattenConserves(clean, 0);
    var files := Flatten(clean, 0).0;
    forall g | g in files
      ensures Wanted(g)
    {
      var f := BelowFrom(clean, lead, g);
      StillWanted(f, g, lead);
    }
    if DistinctPaths(clean) {
      BelowDistinct(clean, lead);
    }
  }

  lemma StillWanted(f: PackFile, g: PackFile, lead: bytes)
    requires lead == [] || EndsWithSlash(lead)
    requires f.path == lead + g.path && g.path != [] && Wanted(f)
    ensures Wanted(g)
  {
    ComponentsKept(lead, g.path);
  }

  // ---- reading a normalised archive back ----

  /** What a container finds in a normalised archive. */
  lemma NormalizedContents(files: seq<PackFile>)
    requires AllNameable(files) && AllBufferSized(files) && AllNulFree(files) && AllPortable(files)
    ensures TgzPreview.Halts(Tar(files)) && TgzPreview.ExtractTar(Tar(files)) == Canonicals(files)
  {
    TarRoundTrip.TarRoundTrip(files);
  }

  /** In a header, a name is followed by NULs: names that differ only in NULs at the end are written alike. */
  predicate SameFields(n: TarName, m: TarName) {
    && |n.name| <= 100 && |m.name| <= 100 && |n.prefix| <= 155 && |m.prefix| <= 155
    && PadRight(n.name, 100) == PadRight(m.name, 100) && PadRight(n.prefix, 155) == PadRight(m.prefix, 155)
  }

  predicate WrittenAlike(f: PackFile, g: PackFile)
    requires Nameable(f) && Nameable(g)
  {
    f.isDir == g.isDir && SameFields(NameSplit(StoredName(f)).value, NameSplit(StoredName(g)).value)
  }

  /** The entry reads back as one that is written alike. */
  predicate Steady(f: PackFile)
    requires Nameable(f)
  {
    var r := ReadBack(f);
    r.Some? && Nameable(r.value) && WrittenAlike(r.value, f)
  }

  ghost predicate AllSteady(files: seq<PackFile>)
    requires AllNameable(files)
  {
    forall f :: f in files ==> Steady(f)
  }

  /** A steady entry repacks to the same block. */
  lemma SteadyBlock(f: PackFile)
    requires Nameable(f) && Steady(f)
    ensures Block(ReadBack(f).value) == Block(f)
  {
    hide NameSplit, OctalField, MaskedOr, CheckField, Sum, Padding, ReadName;
    var r := ReadBack(f).value;
    MaskedOrIdempotent(f.mode, if f.isDir then 0x1ed else 0x1a4, 12);
    assert StoredMode(r) == StoredMode(f) && StoredSize(r) == StoredSize(f);
    assert forall c :: LayoutOf(r, c) == LayoutOf(f, c);
  }

  lemma {:induction false} SteadyTar(files: seq<PackFile>)
    requires AllNameable(files) && AllSteady(files)
    ensures var read := Survivors(files);
      AllNameable(read) && Blocks(read) == Blocks(files) && FileCount(read) == FileCount(files)
  {
    hide Block, Nameable, ReadBack, SameFields;
    if files != [] {
      var f, rest := files[0], Survivors(files[1..]);
      assert files == [f] + files[1..] && Steady(f);
      SteadyBlock(f);
      SteadyTar(files[1..]);
      assert ([ReadBack(f).value] + rest)[1..] == rest;
    }
  }

  lemma {:induction false} CleanKeepsWanted(files: seq<PackFile>)
    requires forall f :: f in files ==> Wanted(f)
    ensures Clean(files) == files
  {
    hide Wanted;
    if files != [] {
      assert files[0] in files;
      CleanKeepsWanted(files[1..]);
    }
  }

  // ---- when the written names tell entries apart ----

  ghost predicate AllWrittenAlike(a: seq<PackFile>, b: seq<PackFile>)
    requires AllNameable(a) && AllNameable(b)
  {
    |a| == |b| && forall i :: 0 <= i < |a| ==> WrittenAlike(a[i], b[i])
  }

  lemma FirstBlock(f: PackFile, rest: bytes)
    requires Nameable(f) && BufferSized(f)
    ensures var t, n := Block(f) + rest, NameSplit(StoredName(f)).value;
      && |t| >= 512 && t[156] != NUL && (t[156] == TYPE_DIR <==> f.isDir)
      && t[..100] == PadRight(n.name, 100) && t[345..500] == PadRight(n.prefix, 155)
      && TgzPreview.SizeOf(t[..512]) == StoredSize(f) && DropUpTo(t, TgzPreview.Advance(StoredSize(f))) == rest
  {
    hide Header, NameSplit, Block, StoredSize, StoredName, ReadName, TgzPreview.EntryName, TgzPreview.SizeOf,
         TgzPreview.ModeOf, TgzPreview.TypeOf, TgzPreview.Advance, DropUpTo, PadRight, OctalField;
    HeaderReadBack(f);
    HeaderFields(f);
    BlockSpace(f, rest);
    var t := Block(f) + rest;
    assert t[156] == t[..512][156] && t[..100] == t[..512][..100] && t[345..500] == t[..512][345..500];
  }

  /** Equal archives come from entries that are written alike, one by one. */
  lemma {:induction false} TarInjective(a: seq<PackFile>, b: seq<PackFile>)
    requires AllNameable(a) && AllBufferSized(a) && AllNameable(b) && AllBufferSized(b)
    requires Tar(a) == Tar(b)
    ensures AllWrittenAlike(a, b)
    decreases |a| + |b|
  {
    hide Block, NameSplit, BufferSized, StoredSize, StoredName, TgzPreview.SizeOf, TgzPreview.Advance, DropUpTo, PadRight;
    var t := Tar(a);
    if a != [] {
      FirstBlock(a[0], Tar(a[1..]));
      assert t == Block(a[0]) + Tar(a[1..]);
    }
    if b != [] {
      FirstBlock(b[0], Tar(b[1..]));
      assert t == Block(b[0]) + Tar(b[1..]);
    }
    assert a == [] || b == [] ==> t[156] == NUL;
    if a != [] && b != [] {
      SplitFits(a[0]);
      SplitFits(b[0]);
      TarInjective(a[1..], b[1..]);
      assert a == [a[0]] + a[1..] && b == [b[0]] + b[1..];
    }
  }

  lemma SplitFits(f: PackFile)
    requires Nameable(f)
    ensures var n := NameSplit(StoredName(f)).value; |n.name| <= 100 && |n.prefix| <= 155
  {
  }

  lemma {:induction false} SurvivorsFit(files: seq<PackFile>)
    requires AllNameable(files) && AllBufferSized(files)
    ensures AllBufferSized(Survivors(files))
  {
    hide Nameable, ReadName, HasDotDot;
    if files != [] {
      SurvivorsFit(files[1..]);
      assert files[0] in files;
    }
  }

  /** If as many entries are read as were written, and alike, all of them are steady. */
  lemma {:induction false} AlikeAreSteady(files: seq<PackFile>)
    requires AllNameable(files) && AllNameable(Survivors(files)) && AllWrittenAlike(Survivors(files), files)
    ensures AllSteady(files)
  {
    hide ReadBack, Nameable, SameFields, StoredName, NameSplit;
    if files != [] {
      var f, rest, read := files[0], Survivors(files[1..]), Survivors(files);
      SurvivorsCount(files[1..]);
      assert read == [ReadBack(f).value] + rest && read[0] == ReadBack(f).value;
      forall i | 0 <= i < |rest|
        ensures rest[i] == read[i + 1] && WrittenAlike(rest[i], files[1..][i])
      {
        assert WrittenAlike(read[i + 1], files[i + 1]);
      }
      assert forall g :: g in rest ==> g in read;
      AlikeAreSteady(files[1..]);
      assert files == [f] + files[1..];
    }
  }

  lemma {:induction false} CleanShorter(files: seq<PackFile>)
    requires |Clean(files)| == |files|
    ensures Clean(files) == files && forall f :: f in files ==> Wanted(f)
  {
    hide Wanted;
    if files != [] {
      CleanShrinks(files[1..]);
      CleanShorter(files[1..]);
    }
  }

  lemma FlattenedNone(files: seq<PackFile>)
    ensures Flatten(files, 0).1 == 0 <==> !Wrapped(files)
    ensures !Wrapped(files) ==> Flatten(files, 0).0 == files
  {
    hide Wrapped, Unwrap;
  }

  // ---- normalising twice ----

  /** The entries read back are written alike, none is junk, and they have no wrapper folder. */
  ghost predicate Repeatable(files: seq<PackFile>)
    requires AllNameable(files)
  {
    AllSteady(files) && (forall f :: f in Survivors(files) ==> Wanted(f)) && !Wrapped(Survivors(files))
  }

  /** Packing, reading and packing again: the same bytes, and a summary that found nothing to do, exactly if
      the entries are repeatable. */
  lemma RepackAgain(files: seq<PackFile>)
    requires AllNameable(files) && AllBufferSized(files) && FileCount(files) > 0
    ensures Repack(Survivors(files)) == Success(Normalized(Tar(files), Summary(FileCount(files), 0, 0))) <==>
      Repeatable(files)
  {
    hide Clean, Flatten, FileCount, Wrapped, Tar, AllNameable, AllBufferSized, Survivors, AllWrittenAlike, Wanted, AllSteady;
    var read := Survivors(files);
    CleanShrinks(read);
    FlattenedNone(read);
    if Repeatable(files) {
      CleanKeepsWanted(read);
      SteadyTar(files);
      TarOfBlocks(read, files);
    }
    if Repack(read) == Success(Normalized(Tar(files), Summary(FileCount(files), 0, 0))) {
      CleanShorter(read);
      SurvivorsFit(files);
      TarInjective(read, files);
      AlikeAreSteady(files);
    }
  }

  lemma TarOfBlocks(a: seq<PackFile>, b: seq<PackFile>)
    requires AllNameable(a) && AllNameable(b) && Blocks(a) == Blocks(b)
    ensures Tar(a) == Tar(b)
  {
  }

  /** The entries that the first pass packs. */
  function Packed(u: Upload, inflate: ZipExtract.Inflate): seq<PackFile>
    requires Readable(u) && Unpack(u, inflate).Success?
  {
    Flatten(Clean(Unpack(u, inflate).value), 0).0
  }

  /**
   * Exactly when a second pass repeats the first, byte for byte, with nothing flattened or dropped and the same
   * file count: for every upload that is accepted.
   */
  lemma RepeatsExactly(u: Upload, inflate: ZipExtract.Inflate, again: ZipExtract.Inflate)
    requires Readable(u) && Normalize(u, inflate).Success?
    ensures var n, files := Normalize(u, inflate).value, Packed(u, inflate);
      && Readable(Gzipped(n.tar)) && AllNameable(files)
      && (Normalize(Gzipped(n.tar), again) == Success(Normalized(n.tar, Summary(n.summary.fileCount, 0, 0))) <==>
          |n.tar| <= TgzPreview.MAX_UNPACKED_BYTES && Repeatable(files))
  {
    hide Clean, Flatten, Tar, TgzPreview.Halts, TgzPreview.ExtractTar, AllNameable, FileCount, Extracted,
         AllBufferSized, ZipExtract.ExtractZip, Survivors, Repack, Repeatable;
    var entries := Unpack(u, inflate).value;
    var files := Packed(u, inflate);
    RepackGives(entries);
    UnpackExtracted(u, inflate);
    FilesFit(entries);
    ReadsBack(files);
    RepackAgain(files);
  }

  lemma RepackGives(entries: seq<PackFile>)
    requires Repack(entries).Success?
    ensures var files := Flatten(Clean(entries), 0).0;
      && AllNameable(files) && FileCount(files) > 0
      && Repack(entries).value.tar == Tar(files) && Repack(entries).value.summary.fileCount == FileCount(files)
  {
    hide Clean, Flatten, Tar, FileCount, AllNameable;
  }

  lemma CanonicalsLookAlike(files: seq<PackFile>)
    ensures Wrapped(Canonicals(files)) <==> Wrapped(files)
    ensures (forall f :: f in Canonicals(files) ==> Wanted(f)) <==> (forall f :: f in files ==> Wanted(f))
  {
    hide First, IsJunk;
    var cs := Canonicals(files);
    assert forall i :: 0 <= i < |files| ==> cs[i].path == files[i].path && cs[i].isDir == files[i].isDir;
    assert forall i :: 0 <= i < |files| ==> cs[i] in cs && files[i] in files;
  }

  /** Without NULs the condition is about the paths alone. */
  lemma RepeatablePaths(files: seq<PackFile>)
    requires AllNameable(files) && AllNulFree(files) && forall f :: f in files ==> Wanted(f)
    ensures Repeatable(files) <==> AllPortable(files) && !Wrapped(files)
  {
    hide ReadBack, Portable, Wanted, Wrapped, Canonical, Survivors, NulFree, Nameable, WrittenAlike, Canonicals;
    AllSurvive(files);
    CanonicalsLookAlike(files);
    forall f | f in files
      ensures Steady(f) <==> Portable(f)
    {
      SteadyPath(f);
    }
  }

  // ---- which entries are steady ----

  predicate NulsAtEnd(s: bytes) {
    NUL !in StripTrailing(s, NUL)
  }

  lemma PadAlike(s: bytes, k: bytes, n: nat)
    requires |s| <= n && |k| <= n && NUL !in k
    ensures PadRight(k, n) == PadRight(s, n) <==> NulsAtEnd(s) && k == UpToNul(s)
  {
    hide StripTrailing, UpToNul, PadRight, NulsAtEnd;
    UpToNulPadded(k, n);
    UpToNulPadded(s, n);
    UpToNulStops(k, []);
    if PadRight(k, n) == PadRight(s, n) {
      PadEnds(s, k, n);
    }
    if NulsAtEnd(s) {
      NulTail(s);
      StripPads(s, n);
    }
  }

  lemma UpToNulPadded(s: bytes, n: nat)
    requires |s| <= n
    ensures UpToNul(PadRight(s, n)) == UpToNul(s)
  {
    UpToNulStops(s, Fill(n - |s|, NUL));
  }

  lemma PadEnds(s: bytes, k: bytes, n: nat)
    requires |s| <= n && |k| <= n && NUL !in k && PadRight(k, n) == PadRight(s, n)
    ensures NulsAtEnd(s)
  {
    hide StripTrailing;
    var t := StripTrailing(s, NUL);
    assert t != [] ==> PadRight(k, n)[|t| - 1] == t[|t| - 1];
    forall i | 0 <= i < |t|
      ensures t[i] != NUL
    {
      assert t[i] == PadRight(s, n)[i] == k[i] && k[i] in k;
    }
  }

  lemma NulTail(s: bytes)
    requires NulsAtEnd(s)
    ensures UpToNul(s) == StripTrailing(s, NUL)
  {
    hide StripTrailing;
    var t := StripTrailing(s, NUL);
    assert s == t + s[|t|..];
    UpToNulStops(t, s[|t|..]);
  }

  lemma StripPads(s: bytes, n: nat)
    requires |s| <= n
    ensures PadRight(StripTrailing(s, NUL), n) == PadRight(s, n)
  {
    hide StripTrailing;
  }

  function Unslashed(f: PackFile, name: bytes): bytes {
    if f.isDir && name != [] then name[..|name| - 1] else name
  }

  /**
   * An entry is steady exactly if its written name has NULs only at the end of its two parts, what is legible of
   * them splits in the same way again, and is the name of an entry of the same kind with a portable path.
   */
  lemma SteadyMeans(f: PackFile)
    requires Nameable(f)
    ensures var n := NameSplit(StoredName(f)).value;
      Steady(f) <==>
        && NulsAtEnd(n.name) && NulsAtEnd(n.prefix) && NameSplit(ReadName(f)) == Some(Legible(n))
        && (f.isDir ==> EndsWithSlash(ReadName(f))) && Portable(f.(path := Unslashed(f, ReadName(f))))
  {
    hide NameSplit, PadRight, NulsAtEnd, Portable, ReadAs, UpToNul;
    var n, shown := NameSplit(StoredName(f)).value, ReadName(f);
    SplitFits(f);
    var g := f.(path := Unslashed(f, shown));
    SameReading(shown, f, g);
    if f.isDir ==> EndsWithSlash(shown) {
      assert StoredName(g) == shown;
      PortableReads(g);
    }
    LegibleFields(n);
    if Steady(f) {
      SteadyName(f);
    }
  }

  /** Only the kind, data and mode of the entry matter for how it is read under a name. */
  lemma SameReading(name: bytes, f: PackFile, g: PackFile)
    requires g == f.(path := g.path)
    ensures ReadAs(name, f) == ReadAs(name, g)
  {
    hide HasDotDot, CleanPath, StripTrailing, MaskedOr;
    assert StoredMode(f) == StoredMode(g);
  }

  lemma LegibleFields(n: TarName)
    requires |n.name| <= 100 && |n.prefix| <= 155
    ensures SameFields(Legible(n), n) <==> NulsAtEnd(n.name) && NulsAtEnd(n.prefix)
  {
    hide PadRight, NulsAtEnd;
    PadAlike(n.name, UpToNul(n.name), 100);
    PadAlike(n.prefix, UpToNul(n.prefix), 155);
  }

  /** What a steady entry reads as is stored under the legible name. */
  lemma SteadyName(f: PackFile)
    requires Nameable(f) && Steady(f)
    ensures var n, r := NameSplit(StoredName(f)).value, ReadBack(f).value;
      && NameSplit(StoredName(r)) == Some(Legible(n)) && StoredName(r) == ReadName(f) && SameFields(Legible(n), n)
      && r == Canonical(f.(path := r.path)) && r.path == Unslashed(f, ReadName(f))
  {
    hide NameSplit, PadRight, NulsAtEnd, HasDotDot, MaskedOr, UpToNul;
    var n, r := NameSplit(StoredName(f)).value, ReadBack(f).value;
    var m := NameSplit(StoredName(r)).value;
    ReadNameNulFree(f);
    ReadAsFrom(ReadName(f), f);
    assert NUL !in StoredName(r);
    SplitRejoins(r);
    NameWithoutNul(m);
    PadAlike(n.name, m.name, 100);
    PadAlike(n.prefix, m.prefix, 155);
    assert r.isDir ==> StoredName(r)[..|StoredName(r)| - 1] == r.path;
  }

  lemma SplitRejoins(f: PackFile)
    requires Nameable(f)
    ensures Rejoin(NameSplit(StoredName(f)).value) == StoredName(f)
  {
  }

  lemma SteadyPath(f: PackFile)
    requires Nameable(f) && NulFree(f)
    ensures Steady(f) <==> Portable(f)
  {
    hide NameSplit, Portable, StripTrailing;
    NulFreeName(f);
    SteadyMeans(f);
    SplitRejoins(f);
    var n := NameSplit(StoredName(f)).value;
    NameWithoutNul(n);
    UpToNulStops(n.name, []);
    UpToNulStops(n.prefix, []);
    assert forall x :: x in StripTrailing(n.name, NUL) ==> x in n.name;
    assert forall x :: x in StripTrailing(n.prefix, NUL) ==> x in n.prefix;
    assert Unslashed(f, StoredName(f)) == f.path;
  }

  /**
   * Normalising is idempotent. When the first pass stopped before its nesting guard and left portable paths,
   * a second pass gives the byte-identical tar with nothing flattened, nothing dropped and the same file count,
   * provided gunzip accepts the size; otherwise the second pass refuses the archive.
   */
  lemma NormalizeIdempotent(u: Upload, inflate: ZipExtract.Inflate, again: ZipExtract.Inflate)
    requires Readable(u) && Normalize(u, inflate).Success?
    requires Normalize(u, inflate).value.summary.flattened <= MAX_FLATTEN
    requires AllNulFree(Packed(u, inflate)) && AllPortable(Packed(u, inflate))
    ensures var n := Normalize(u, inflate).value;
      && Readable(Gzipped(n.tar))
      && Normalize(Gzipped(n.tar), again) ==
          if |n.tar| > TgzPreview.MAX_UNPACKED_BYTES then Failure(UnpackedTooLarge)
          else Success(Normalized(n.tar, Summary(n.summary.fileCount, 0, 0)))
  {
    hide Clean, Flatten, Tar, TgzPreview.Halts, TgzPreview.ExtractTar, Wrapped, AllPortable, AllNulFree,
         AllNameable, FileCount, Wanted, Conserved, Rooted, Extracted, DistinctPaths, ZipExtract.ExtractZip, Repeatable;
    var entries := Unpack(u, inflate).value;
    UnpackExtracted(u, inflate);
    var lead := NormalizeConserves(entries);
    RepeatsExactly(u, inflate, again);
    RepeatablePaths(Packed(u, inflate));
  }

  /** Only named components, none of them "." or "..", and no NUL. */
  predicate Plain(path: bytes) {
    NUL !in path && [] !in Split(path) && [DOT] !in Split(path) && DOTDOT !in Split(path)
  }

  /** Plain input paths stay plain, so that normalising plain archives is always repeatable. */
  lemma PlainStaysPortable(entries: seq<PackFile>)
    requires Extracted(entries) && forall f :: f in entries && Wanted(f) ==> Plain(f.path)
    ensures var files := Flatten(Clean(entries), 0).0; AllNulFree(files) && AllPortable(files)
  {
    hide Clean, Flatten, Wanted, Portable, Below, Rooted, DistinctPaths, Extracted, Split;
    var lead := NormalizeConserves(entries);
    var clean, files := Clean(entries), Flatten(Clean(entries), 0).0;
    forall g | g in files
      ensures NulFree(g) && Portable(g)
    {
      var f := BelowFrom(clean, lead, g);
      CleanFrom(entries, f);
      ComponentsKept(lead, g.path);
      assert forall b :: b in g.path ==> b in lead + g.path;
      PlainIsPortable(g);
    }
  }

  /**
   * From a ZIP upload to the container: the normalised archive of a well-formed ZIP unpacks to the listed
   * entries, without junk and without the common wrapper folders, in their order.
   */
  lemma ZipToContainer(body: bytes, ps: seq<ZipLayout.Placed>, disks: bytes, comment: bytes,
                       inflate: ZipExtract.Inflate) returns (lead: bytes)
    requires |ps| <= 2000 && ZipLayout.Unpacked(ps) <= 134217728
    requires |body| < 0xffffffff && |disks| == 4 && |comment| < 0x1_0000
    requires forall p :: p in ps ==>
      ZipLayout.Fits(p.m) && ZipLayout.Encodes(p.m, inflate) && ZipLayout.StandsIn(body, p)
    requires ZipLayout.LastEocd(ZipLayout.Archive(body, ps, disks, comment), |body| + |ZipLayout.CentralDirectory(ps)|)
    requires IsZip(ZipLayout.Archive(body, ps, disks, comment))
    requires forall f :: f in ZipLayout.ExpectedAll(ps) && Wanted(f) ==> Plain(f.path)
    ensures var r := Normalize(Raw(ZipLayout.Archive(body, ps, disks, comment)), inflate);
      r.Success? ==>
        && TgzPreview.Halts(r.value.tar)
        && Conserved(Clean(ZipLayout.ExpectedAll(ps)), Below(Clean(ZipLayout.ExpectedAll(ps)), lead), lead,
                     r.value.summary.flattened)
        && TgzPreview.ExtractTar(r.value.tar) == Canonicals(Below(Clean(ZipLayout.ExpectedAll(ps)), lead))
  {
    hide Clean, Flatten, Tar, TgzPreview.Halts, TgzPreview.ExtractTar, Wrapped, AllPortable, AllNulFree, Plain,
         AllNameable, FileCount, Wanted, Rooted, Extracted, AllBufferSized, DistinctPaths, ZipLayout.Archive, IsZip,
         ZipExtract.ExtractZip, Canonicals, ZipLayout.ExpectedAll, ZipLayout.LastEocd, ZipLayout.StandsIn, Below;
    var u := Raw(ZipLayout.Archive(body, ps, disks, comment));
    ZipLayout.ZipReads(body, ps, disks, comment, inflate);
    var entries := ZipLayout.ExpectedAll(ps);
    UnpackExtracted(u, inflate);
    lead := NormalizeConserves(entries);
    if Normalize(u, inflate).Success? {
      PlainStaysPortable(entries);
      FilesFit(entries);
      NormalizedContents(Flatten(Clean(entries), 0).0);
    }
  }
}
