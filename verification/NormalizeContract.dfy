/** What normalising an upload does, told by positions, bytes and numbers alone. */
module NormalizeContract {
  import opened Wrappers
  import opened Bytes
  import opened Paths
  import opened TarPack
  import opened ScaffoldNormalize
  import opened NormalizeLaws
  import TgzPreview
  import ZipExtract

  // ---- what is dropped ----

  /** __MACOSX, .DS_Store, Thumbs.db or desktop.ini stands in the path between slashes or the ends. */
  ghost predicate JunkPath(path: bytes) {
    || HasName(path, [0x5f, 0x5f, 0x4d, 0x41, 0x43, 0x4f, 0x53, 0x58])
    || HasName(path, [0x2e, 0x44, 0x53, 0x5f, 0x53, 0x74, 0x6f, 0x72, 0x65])
    || HasName(path, [0x54, 0x68, 0x75, 0x6d, 0x62, 0x73, 0x2e, 0x64, 0x62])
    || HasName(path, [0x64, 0x65, 0x73, 0x6b, 0x74, 0x6f, 0x70, 0x2e, 0x69, 0x6e, 0x69])
  }

  lemma JunkByPosition(path: bytes)
    ensures IsJunk(path) <==> JunkPath(path)
  {
    hide Split, HasName;
    var a: bytes := [0x5f, 0x5f, 0x4d, 0x41, 0x43, 0x4f, 0x53, 0x58];
    var b: bytes := [0x2e, 0x44, 0x53, 0x5f, 0x53, 0x74, 0x6f, 0x72, 0x65];
    var c: bytes := [0x54, 0x68, 0x75, 0x6d, 0x62, 0x73, 0x2e, 0x64, 0x62];
    var d: bytes := [0x64, 0x65, 0x73, 0x6b, 0x74, 0x6f, 0x70, 0x2e, 0x69, 0x6e, 0x69];
    ComponentsByPosition(path, a);
    ComponentsByPosition(path, b);
    ComponentsByPosition(path, c);
    ComponentsByPosition(path, d);
    assert a in JUNK_NAMES && b in JUNK_NAMES && c in JUNK_NAMES && d in JUNK_NAMES;
    assert forall x :: x in JUNK_NAMES ==> x == a || x == b || x == c || x == d;
  }

  /** Positions in a list of length n, in order. */
  ghost predicate Picks(ix: seq<nat>, n: nat) {
    && (forall m :: 0 <= m < |ix| ==> ix[m] < n)
    && (forall l, m :: 0 <= l < m < |ix| ==> ix[l] < ix[m])
  }

  /** The next position may be taken or not. */
  lemma NextPick(ix: seq<nat>, n: nat)
    requires Picks(ix, n)
    ensures Picks(ix, n + 1) && Picks(ix + [n], n + 1)
    ensures forall k: nat :: k in ix + [n] <==> k in ix || k == n
    ensures n !in ix
  {
  }

  ghost predicate CleanAt(files: seq<PackFile>, ix: seq<nat>) {
    && Picks(ix, |files|)
    && (forall k: nat :: k in ix <==> k < |files| && Wanted(files[k]))
    && |Clean(files)| == |ix| && forall m :: 0 <= m < |ix| ==> Clean(files)[m] == files[ix[m]]
  }

  lemma {:induction false} CleanAppend(files: seq<PackFile>, f: PackFile)
    ensures Clean(files + [f]) == Clean(files) + if Wanted(f) then [f] else []
  {
    hide Wanted;
    if files == [] {
      assert files + [f] == [f] && [f][1..] == [];
    } else {
      assert (files + [f])[1..] == files[1..] + [f];
      CleanAppend(files[1..], f);
    }
  }

  lemma {:induction false} CleanPicks(files: seq<PackFile>) returns (ix: seq<nat>)
    ensures CleanAt(files, ix)
    decreases |files|
  {
    hide Wanted, Clean;
    if files == [] {
      ix := [];
      NothingPicked();
    } else {
      var n := |files| - 1;
      ix := CleanPicks(files[..n]);
      assert files == files[..n] + [files[n]];
      CleanMore(files[..n], ix, files[n]);
      ix := if Wanted(files[n]) then ix + [n] else ix;
    }
  }

  lemma CleanMore(files: seq<PackFile>, ix: seq<nat>, f: PackFile)
    requires CleanAt(files, ix)
    ensures CleanAt(files + [f], if Wanted(f) then ix + [|files|] else ix)
  {
    hide Wanted, Clean, Picks;
    CleanAppend(files, f);
    NextPick(ix, |files|);
    PicksBelow(ix, |files|);
  }

  lemma PicksBelow(ix: seq<nat>, n: nat)
    requires Picks(ix, n)
    ensures forall k :: k in ix ==> k < n
    ensures forall m :: 0 <= m < |ix| ==> ix[m] < n
  {
  }

  lemma NothingPicked()
    ensures CleanAt([], [])
    ensures forall lead :: BelowAt([], lead, [])
  {
  }

  ghost predicate BelowAt(files: seq<PackFile>, lead: bytes, ix: seq<nat>) {
    && Picks(ix, |files|)
    && (forall k: nat :: k in ix <==> k < |files| && lead <= files[k].path)
    && |Below(files, lead)| == |ix|
    && forall m :: 0 <= m < |ix| ==> lead <= files[ix[m]].path && Below(files, lead)[m] == Cut(files[ix[m]], lead)
  }

  /** The entry with the lead cut off its path. */
  function Cut(f: PackFile, lead: bytes): PackFile
    requires lead <= f.path
  {
    PackFile(f.path[|lead|..], f.data, f.isDir, f.mode)
  }

  lemma {:induction false} BelowAppend(files: seq<PackFile>, f: PackFile, lead: bytes)
    ensures Below(files + [f], lead) == Below(files, lead) + if lead <= f.path then [Cut(f, lead)] else []
  {
    if files == [] {
      assert files + [f] == [f] && [f][1..] == [];
    } else {
      assert (files + [f])[1..] == files[1..] + [f];
      BelowAppend(files[1..], f, lead);
    }
  }

  lemma {:induction false} BelowPicks(files: seq<PackFile>, lead: bytes) returns (ix: seq<nat>)
    ensures BelowAt(files, lead, ix)
    decreases |files|
  {
    hide Below;
    if files == [] {
      ix := [];
      NothingPicked();
    } else {
      var n := |files| - 1;
      ix := BelowPicks(files[..n], lead);
      assert files == files[..n] + [files[n]];
      BelowMore(files[..n], lead, ix, files[n]);
      ix := if lead <= files[n].path then ix + [n] else ix;
    }
  }

  lemma BelowMore(files: seq<PackFile>, lead: bytes, ix: seq<nat>, f: PackFile)
    requires BelowAt(files, lead, ix)
    ensures BelowAt(files + [f], lead, if lead <= f.path then ix + [|files|] else ix)
  {
    hide Below, Picks, Cut;
    BelowAppend(files, f, lead);
    NextPick(ix, |files|);
    PicksBelow(ix, |files|);
  }

  ghost function Through(ix: seq<nat>, jx: seq<nat>): (r: seq<nat>)
    requires Picks(jx, |ix|)
    ensures |r| == |jx| && forall m :: 0 <= m < |jx| ==> r[m] == ix[jx[m]]
  {
    seq(|jx|, m requires 0 <= m < |jx| && Picks(jx, |ix|) => ix[jx[m]])
  }

  // ---- when flattening goes on ----

  /** One folder that holds everything else. */
  ghost predicate OneFolder(files: seq<PackFile>, root: bytes) {
    files != [] && SLASH !in root && forall f :: f in files ==> (f.path == root && f.isDir) || root + [0x2f] <= f.path
  }

  lemma RootFirst(p: bytes, root: bytes)
    requires SLASH !in root && (p == root || root + [SLASH] <= p)
    ensures First(p) == root
  {
    var rest := p[|root|..];
    if p != root {
      assert p[|root|] == (root + [SLASH])[|root|] == SLASH;
      assert root == (root + [SLASH])[..|root|];
    }
    assert p == root + rest;
    FirstOf(root, rest);
  }

  lemma WrappedMeans(files: seq<PackFile>)
    ensures Wrapped(files) <==> exists root :: OneFolder(files, root)
  {
    hide First;
    if root :| OneFolder(files, root) {
      forall f | f in files
        ensures First(f.path) == root
      {
        RootFirst(f.path, root);
      }
      assert files[0] in files;
      WrapperCheck(files, root);
      forall f | f in files
        ensures if f.path == root then f.isDir else root + [SLASH] <= f.path
      {
        assert |root + [SLASH]| > |root|;
      }
    }
    if Wrapped(files) {
      var root := First(files[0].path);
      WrapperCheck(files, root);
      assert OneFolder(files, root);
    }
  }

  lemma {:induction false} CountAppend(files: seq<PackFile>, f: PackFile)
    ensures FileCount(files + [f]) == FileCount(files) + if f.isDir then 0 else 1
  {
    if files == [] {
      assert files + [f] == [f] && [f][1..] == [];
    } else {
      assert (files + [f])[1..] == files[1..] + [f];
      CountAppend(files[1..], f);
    }
  }

  function FilePositions(files: seq<PackFile>): set<nat> {
    set k: nat | k < |files| && !files[k].isDir
  }

  lemma {:induction false} CountFiles(files: seq<PackFile>)
    ensures FileCount(files) == |FilePositions(files)|
    decreases |files|
  {
    hide FileCount;
    if files == [] {
      assert FilePositions(files) == {};
      CountNone();
    } else {
      var n := |files| - 1;
      CountFiles(files[..n]);
      CountAppend(files[..n], files[n]);
      assert files == files[..n] + [files[n]];
      assert FilePositions(files) == FilePositions(files[..n]) + if files[n].isDir then {} else {n};
    }
  }

  lemma CountNone()
    ensures FileCount([]) == 0
  {
  }

  // ---- the whole operation ----

  /** The packed entries `files` come from the unpacked `entries` by dropping all but those at `kept`, and cutting
      `lead` off those at `under`. */
  ghost predicate Packs(entries: seq<PackFile>, files: seq<PackFile>, kept: seq<nat>, under: seq<nat>, lead: bytes) {
    && Picks(kept, |entries|) && Picks(under, |entries|)
    && (forall k: nat :: k in kept <==> k < |entries| && entries[k].path != [] && !JunkPath(entries[k].path))
    && (forall k: nat :: k in under <==> k in kept && lead <= entries[k].path)
    && (forall k: nat :: k in kept && k !in under ==> entries[k].isDir && entries[k].path + [0x2f] <= lead)
    && (lead == [] || lead[|lead| - 1] == 0x2f)
    && |files| == |under|
    && forall m :: 0 <= m < |under| ==> lead <= entries[under[m]].path && files[m] == Cut(entries[under[m]], lead)
  }

  lemma UnderIs(entries: seq<PackFile>, clean: seq<PackFile>, kept: seq<nat>, lead: bytes, jx: seq<nat>, k: nat)
    requires |clean| == |kept| && Picks(kept, |entries|)
    requires forall m :: 0 <= m < |kept| ==> clean[m] == entries[kept[m]]
    requires Picks(jx, |clean|) && forall m: nat :: m in jx <==> m < |clean| && lead <= clean[m].path
    ensures k in Through(kept, jx) <==> k in kept && lead <= entries[k].path
  {
    var under := Through(kept, jx);
    if k in kept && lead <= entries[k].path {
      var m: nat :| m < |kept| && kept[m] == k;
      assert m in jx;
      var l :| 0 <= l < |jx| && jx[l] == m;
      assert under[l] == k;
    }
    if k in under {
      var l :| 0 <= l < |under| && under[l] == k;
      assert jx[l] in jx && kept[jx[l]] == k;
    }
  }

  lemma ThroughPicks(kept: seq<nat>, n: nat, jx: seq<nat>)
    requires Picks(kept, n) && Picks(jx, |kept|)
    ensures Picks(Through(kept, jx), n)
  {
  }

  lemma KeptIs(entries: seq<PackFile>, kept: seq<nat>)
    requires CleanAt(entries, kept)
    ensures forall k: nat :: k in kept <==> k < |entries| && entries[k].path != [] && !JunkPath(entries[k].path)
  {
    hide Clean, Picks, IsJunk, JunkPath;
    forall k: nat | k < |entries|
      ensures Wanted(entries[k]) <==> entries[k].path != [] && !JunkPath(entries[k].path)
    {
      JunkByPosition(entries[k].path);
    }
  }

  lemma KeptCompose(entries: seq<PackFile>, kept: seq<nat>, lead: bytes, jx: seq<nat>)
    requires CleanAt(entries, kept) && BelowAt(Clean(entries), lead, jx)
    requires forall f :: f in Clean(entries) ==> lead <= f.path || (f.isDir && f.path + [SLASH] <= lead)
    requires lead == [] || EndsWithSlash(lead)
    ensures Packs(entries, Below(Clean(entries), lead), kept, Through(kept, jx), lead)
  {
    hide Clean, Below, JunkPath, IsJunk, Wanted, Picks;
    var clean, under := Clean(entries), Through(kept, jx);
    KeptIs(entries, kept);
    ThroughPicks(kept, |entries|, jx);
    PicksBelow(kept, |entries|);
    forall k: nat
      ensures k in under <==> k in kept && lead <= entries[k].path
    {
      UnderIs(entries, clean, kept, lead, jx, k);
    }
    forall k: nat | k in kept && k !in under
      ensures entries[k].isDir && entries[k].path + [0x2f] <= lead
    {
      var m: nat :| m < |kept| && kept[m] == k;
      assert clean[m] == entries[k] && clean[m] in clean;
    }
  }

  /**
   * Everything that a normalisation packs, and its summary. Of the unpacked entries exactly those are dropped whose
   * path is empty or has a junk name between slashes; the others keep their order, data, kind and mode. One lead with
   * `flattened` slashes, at most 17, is cut off; what is lost with it are folders that the lead passes through.
   * Below 17, no folder is left that holds everything.
   */
  lemma NormalizePacks(u: Upload, inflate: ZipExtract.Inflate) returns (kept: seq<nat>, under: seq<nat>, lead: bytes)
    requires Readable(u) && Normalize(u, inflate).Success?
    ensures var n, entries, files := Normalize(u, inflate).value, Unpack(u, inflate).value, Packed(u, inflate);
      && AllNameable(files) && n.tar == Tar(files)
      && Packs(entries, files, kept, under, lead)
      && n.summary.droppedJunk == |entries| - |kept|
      && n.summary.flattened == |Slashes(lead)| <= 17
      && n.summary.fileCount == |FilePositions(files)| > 0
      && (n.summary.flattened <= 16 ==> !exists root :: OneFolder(files, root))
  {
    hide Clean, Flatten, Tar, FileCount, AllNameable, Extracted, Rooted, DistinctPaths, Below, Split, Packs, Picks,
         CleanAt, BelowAt, Wrapped, ZipExtract.ExtractZip, TgzPreview.ExtractTar;
    var entries := Unpack(u, inflate).value;
    var clean := Clean(entries);
    UnpackExtracted(u, inflate);
    RepackGives(entries);
    CleanShrinks(entries);
    lead := NormalizeConserves(entries);
    kept := CleanPicks(entries);
    var jx := BelowPicks(clean, lead);
    PicksWithin(entries, kept, clean, lead, jx);
    under := Through(kept, jx);
    KeptCompose(entries, kept, lead, jx);
    ComponentCount(lead);
    CountFiles(Packed(u, inflate));
    WrappedMeans(Packed(u, inflate));
    assert |kept| == |clean|;
  }

  lemma PicksWithin(entries: seq<PackFile>, kept: seq<nat>, clean: seq<PackFile>, lead: bytes, jx: seq<nat>)
    requires CleanAt(entries, kept) && clean == Clean(entries) && BelowAt(clean, lead, jx)
    ensures |kept| == |clean| && Picks(jx, |kept|)
  {
    hide Clean, Below, Wanted;
  }

  // ---- which reader ----

  /** The first bytes decide: PK and 3 or 5 is a ZIP, 1f 8b a gzip stream; else the upload is refused. */
  lemma UploadKinds(content: bytes, inflate: ZipExtract.Inflate)
    ensures var r := Unpack(Raw(content), inflate);
      var zip := |content| >= 4 && content[0] == 0x50 && content[1] == 0x4b && content[2] in {0x03, 0x05};
      && (zip && ZipExtract.ExtractZip(content, inflate).Success? ==>
            r == Success(ZipExtract.ExtractZip(content, inflate).value))
      && (zip && ZipExtract.ExtractZip(content, inflate).Failure? ==>
            r == Failure(BadZip(ZipExtract.ExtractZip(content, inflate).error)))
      && (!zip ==> r == Failure(
            if |content| >= 2 && content[0] == 0x1f && content[1] == 0x8b then BadGzip else UnsupportedFormat))
  {
    hide ZipExtract.ExtractZip;
  }

  /** A gzip stream is refused exactly if it unpacks to more than 128 MiB. */
  lemma GzipLimit(tar: bytes, inflate: ZipExtract.Inflate)
    requires Readable(Gzipped(tar))
    ensures Unpack(Gzipped(tar), inflate) ==
      if |tar| > 134217728 then Failure(UnpackedTooLarge) else Success(TgzPreview.ExtractTar(tar))
  {
    hide TgzPreview.ExtractTar;
  }

  /** What is refused after unpacking: an upload without files, or with a name that no header can hold. */
  lemma RefusedAfterUnpacking(u: Upload, inflate: ZipExtract.Inflate)
    requires Readable(u) && Unpack(u, inflate).Success?
    ensures var r, files := Normalize(u, inflate), Packed(u, inflate);
      && (r == Failure(NoFiles) <==> forall f :: f in files ==> f.isDir)
      && (r == Failure(NameTooLong) <==> (exists f :: f in files && !f.isDir) && exists f :: f in files && !Nameable(f))
      && (r.Failure? ==> r.error.NoFiles? || r.error.NameTooLong?)
  {
    hide Clean, Flatten, Tar, Nameable, ZipExtract.ExtractZip, TgzPreview.ExtractTar, Unpack;
  }
}
