/** An upload that is accepted, and whose normalised archive normalises to another one. */
module NormalizeExample {
  import opened Wrappers
  import opened Bytes
  import opened Paths
  import opened TarPack
  import opened TarRoundTrip
  import opened ScaffoldNormalize
  import opened NormalizeLaws
  import opened ZipLayout
  import ZipExtract

  /** "./b" and "c" */
  const DOT_B: bytes := [DOT, SLASH, 0x62]
  const C: bytes := [0x63]

  /** An empty, stored file. */
  function EmptyFile(name: bytes): ZipMember {
    ZipMember(name, [], [], ZipExtract.STORED, 0, 0, 0, [], [], Fill(2, NUL), Fill(8, NUL), Fill(4, NUL),
              Fill(22, NUL), name, [])
  }

  function Body(): bytes {
    LocalRecord(EmptyFile(DOT_B)) + LocalRecord(EmptyFile(C))
  }

  function Entries(): seq<Placed> {
    [Placed(EmptyFile(DOT_B), 0), Placed(EmptyFile(C), |LocalRecord(EmptyFile(DOT_B))|)]
  }

  function Zip(): bytes {
    Archive(Body(), Entries(), Fill(4, NUL), [])
  }

  function File(path: bytes): PackFile {
    PackFile(path, [], false, 0)
  }

  lemma ZipContents(inflate: ZipExtract.Inflate)
    ensures IsZip(Zip()) && ZipExtract.ExtractZip(Zip(), inflate) == Success([File(DOT_B), File(C)])
  {
    hide Archive, LocalRecord, ZipExtract.ExtractZip, CentralDirectory, StandsIn, LastEocd;
    LocalStarts(EmptyFile(DOT_B));
    LocalStarts(EmptyFile(C));
    ArchiveStarts();
    assert Unpacked(Entries()) == 0 by {
      assert Entries()[1..] == [Placed(EmptyFile(C), |LocalRecord(EmptyFile(DOT_B))|)];
    }
    NoCommentIsLast(Body(), Entries(), Fill(4, NUL));
    LocalsStand();
    ZipReads(Body(), Entries(), Fill(4, NUL), [], inflate);
    assert ExpectedAll(Entries()) == [File(DOT_B), File(C)];
  }

  lemma LocalStarts(m: ZipMember)
    requires Fits(m) && m.payload == [] && |m.localName| < 100 && m.localExtra == []
    ensures var l := LocalRecord(m); |l| == 30 + |m.localName| && l[0..4] == [0x50, 0x4b, 0x03, 0x04]
  {
    LocalShape(m);
  }

  lemma ArchiveStarts()
    requires var l := LocalRecord(EmptyFile(DOT_B)); |l| == 33 && l[0..4] == [0x50, 0x4b, 0x03, 0x04]
    ensures IsZip(Zip())
  {
    hide LocalRecord, CentralDirectory, EndRecord;
    assert Zip()[..4] == LocalRecord(EmptyFile(DOT_B))[0..4];
  }

  lemma LocalsStand()
    ensures forall p :: p in Entries() ==> StandsIn(Body(), p)
  {
    hide LocalRecord;
  }

  lemma NotJunk(c: bytes)
    requires |c| == 1
    ensures c !in JUNK_NAMES
  {
  }

  lemma BothWanted()
    ensures Wanted(File(DOT_B)) && Wanted(File(C))
  {
    assert DOT_B == [DOT] + [SLASH] + [0x62];
    SplitJoin([DOT], [0x62]);
    SplitPlain([DOT]);
    SplitPlain([0x62]);
    SplitPlain(C);
    NotJunk([DOT]);
    NotJunk([0x62]);
    NotJunk(C);
  }

  lemma NoWrapper()
    ensures !Wrapped([File(DOT_B), File(C)])
  {
    FirstOf([DOT], [SLASH, 0x62]);
    FirstOf(C, []);
    assert DOT_B == [DOT] + [SLASH, 0x62] && C == C + [];
    assert [File(DOT_B), File(C)][1].path == C;
  }

  /** The first pass packs "./b" and "c" as they are. */
  lemma FirstPass(inflate: ZipExtract.Inflate)
    ensures var files := [File(DOT_B), File(C)];
      && AllNameable(files)
      && Normalize(Raw(Zip()), inflate) == Success(Normalized(Tar(files), Summary(2, 0, 0)))
      && Packed(Raw(Zip()), inflate) == files
  {
    hide ZipExtract.ExtractZip, Wanted, Wrapped, IsZip, Zip;
    var files := [File(DOT_B), File(C)];
    ZipContents(inflate);
    BothWanted();
    CleanKeepsWanted(files);
    NoWrapper();
    FlattenedNone(files);
    assert files[1..] == [File(C)];
    assert FileCount(files) == 2;
  }

  /** The second pass reads "./b" as "b", so it does not repeat the archive. */
  lemma SecondPassDiffers(inflate: ZipExtract.Inflate, again: ZipExtract.Inflate)
    ensures Normalize(Raw(Zip()), inflate).Success?
    ensures var n := Normalize(Raw(Zip()), inflate).value;
      && n.summary == Summary(2, 0, 0) && ScaffoldNormalize.Readable(Gzipped(n.tar))
      && Normalize(Gzipped(n.tar), again) != Success(Normalized(n.tar, Summary(2, 0, 0)))
  {
    hide Normalize, Zip, Wanted, Nameable, Tar, Repeatable, ReadBack, Wrapped;
    var files := [File(DOT_B), File(C)];
    FirstPass(inflate);
    RepeatsExactly(Raw(Zip()), inflate, again);
    BothWanted();
    assert forall f :: f in files ==> NulFree(f) && Wanted(f);
    RepeatablePaths(files);
    assert files[0] in files && !Portable(files[0]);
    assert !Repeatable(files);
  }
}
