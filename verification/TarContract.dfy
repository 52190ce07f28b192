/** What the tar writer writes and the tar reader reads, told by bytes, bits and positions alone. */
module TarContract {
  import opened Wrappers
  import opened Bytes
  import opened Octal
  import opened Paths
  import opened TarPack
  import opened TgzPreview
  import opened TarRoundTrip

  // ---- modes ----

  /** The low 12 bits of the given mode, and rwxr-xr-x for directories or rw-r--r-- for files. */
  ghost predicate ModeBits(mode: int, given: int, isDir: bool) {
    forall j: nat :: Bit(mode, j) <==>
      j < 12 && (Bit(given, j) || (isDir && j in {0, 2, 3, 5, 6, 7, 8}) || (!isDir && j in {2, 5, 7, 8}))
  }

  lemma Defaults(j: nat)
    requires j < 12
    ensures Bit(0x1ed, j) <==> j in {0, 2, 3, 5, 6, 7, 8}
    ensures Bit(0x1a4, j) <==> j in {2, 5, 7, 8}
  {
    assert Bit(0x1ed, 0) && !Bit(0x1ed, 1) && Bit(0x1ed, 2) && Bit(0x1ed, 3) && !Bit(0x1ed, 4) && Bit(0x1ed, 5);
    assert Bit(0x1ed, 6) && Bit(0x1ed, 7) && Bit(0x1ed, 8) && !Bit(0x1ed, 9) && !Bit(0x1ed, 10) && !Bit(0x1ed, 11);
    assert !Bit(0x1a4, 0) && !Bit(0x1a4, 1) && Bit(0x1a4, 2) && !Bit(0x1a4, 3) && !Bit(0x1a4, 4) && Bit(0x1a4, 5);
    assert !Bit(0x1a4, 6) && Bit(0x1a4, 7) && Bit(0x1a4, 8) && !Bit(0x1a4, 9) && !Bit(0x1a4, 10) && !Bit(0x1a4, 11);
  }

  lemma StoredModeBits(f: PackFile)
    ensures ModeBits(StoredMode(f), f.mode, f.isDir)
  {
    hide MaskedOr, Bit;
    forall j: nat
      ensures Bit(StoredMode(f), j) <==>
        j < 12 && (Bit(f.mode, j) || (f.isDir && j in {0, 2, 3, 5, 6, 7, 8}) || (!f.isDir && j in {2, 5, 7, 8}))
    {
      MaskedOrBits(f.mode, if f.isDir then 0x1ed else 0x1a4, 12, j);
      if j < 12 {
        Defaults(j);
      }
    }
  }

  lemma {:induction false} SurvivorFrom(files: seq<PackFile>, g: PackFile) returns (f: PackFile)
    requires AllNameable(files) && g in Survivors(files)
    ensures f in files && ReadBack(f) == Some(g)
  {
    hide Nameable, ReadBack;
    f := files[0];
    if ReadBack(f) != Some(g) {
      f := SurvivorFrom(files[1..], g);
    }
  }

  /** Every entry of a written archive is read back with the mode of the entry it was written for. */
  lemma ArchiveModes(files: seq<PackFile>)
    requires AllNameable(files) && AllBufferSized(files)
    ensures forall g :: g in ExtractTar(Tar(files)) ==> exists f :: f in files && ModeBits(g.mode, f.mode, f.isDir)
  {
    hide ExtractTar, Tar, Halts, Survivors, AllNameable, ModeBits, ReadName, StoredMode;
    ReadsBack(files);
    forall g | g in ExtractTar(Tar(files))
      ensures exists f :: f in files && ModeBits(g.mode, f.mode, f.isDir)
    {
      var f := SurvivorFrom(files, g);
      NameableOf(files, f);
      StoredModeBits(f);
      assert ReadBack(f).value.mode == StoredMode(f);
    }
  }

  lemma NameableOf(files: seq<PackFile>, f: PackFile)
    requires AllNameable(files) && f in files
    ensures Nameable(f)
  {
  }

  /**
   * The round trip, entry by entry: with portable paths free of NULs, the i-th entry read has the path and kind of the
   * i-th written, its data (none for directories), and its mode with the default permissions.
   */
  lemma ArchiveContents(files: seq<PackFile>)
    requires AllNameable(files) && AllBufferSized(files) && AllPortable(files) && AllNulFree(files)
    ensures var read := ExtractTar(Tar(files));
      |read| == |files| && forall i :: 0 <= i < |files| ==>
        && read[i].path == files[i].path && read[i].isDir == files[i].isDir
        && read[i].data == (if files[i].isDir then [] else files[i].data)
        && ModeBits(read[i].mode, files[i].mode, files[i].isDir)
  {
    hide ExtractTar, Tar, Halts, AllNameable, AllPortable, AllNulFree, ModeBits, StoredMode;
    TarRoundTrip.TarRoundTrip(files);
    forall i | 0 <= i < |files|
      ensures ModeBits(Canonicals(files)[i].mode, files[i].mode, files[i].isDir)
    {
      StoredModeBits(files[i]);
    }
  }

  /** Which paths come back: no ".." between slashes, no leading "./", no trailing slash, and a file has a path. */
  lemma PortableByPosition(f: PackFile)
    ensures Portable(f) <==>
      && !HasName(f.path, [0x2e, 0x2e]) && !(|f.path| >= 2 && f.path[0] == 0x2e && f.path[1] == 0x2f)
      && !(|f.path| >= 1 && f.path[|f.path| - 1] == 0x2f) && f.path != if f.isDir then [0x2e] else []
  {
    hide Split, HasName;
    ComponentsByPosition(f.path, DOTDOT);
  }

  // ---- a header, field by field ----

  /** `width` - 1 octal digits that denote v, and a NUL. */
  ghost predicate IsOctalField(s: bytes, v: int) {
    && |s| >= 2 && s[|s| - 1] == 0
    && (forall i :: 0 <= i < |s| - 1 ==> 0x30 <= s[i] <= 0x37) && DigitsValue(s[..|s| - 1]) == v
  }

  lemma OctalFieldIs(v: nat, width: nat)
    requires width >= 2 && v < Pow8(width - 1)
    ensures |OctalField(v, width)| == width && IsOctalField(OctalField(v, width), v)
  {
    hide ToOctal, PadStart, DigitsValue;
    ToOctalWidth(v, width - 1);
    ToOctalValue(v);
    PadStartValue(ToOctal(v), width - 1);
    var s := PadStart(ToOctal(v), width - 1);
    assert OctalField(v, width) == s + [NUL] && (s + [NUL])[..width - 1] == s;
  }

  /** The stored name: a directory's path ends with a slash there. */
  ghost predicate NameParts(f: PackFile, name: bytes, prefix: bytes) {
    && |name| <= 100 && |prefix| <= 155
    && (if prefix == [] then name else prefix + [0x2f] + name) == (if f.isDir then f.path + [0x2f] else f.path)
  }

  /** The fields of a written header, byte by byte, as the ustar Interchange Format has them. */
  lemma HeaderBytes(f: PackFile) returns (name: bytes, prefix: bytes)
    requires Nameable(f) && BufferSized(f)
    ensures NameParts(f, name, prefix)
    ensures var h := Header(f);
      && |h| == 512
      && h[..100] == name + Fill(100 - |name|, 0) && h[345..500] == prefix + Fill(155 - |prefix|, 0)
      && IsOctalField(h[100..108], StoredMode(f)) && ModeBits(StoredMode(f), f.mode, f.isDir)
      && IsOctalField(h[108..116], 0) && IsOctalField(h[116..124], 0)
      && IsOctalField(h[124..136], if f.isDir then 0 else |f.data|) && IsOctalField(h[136..148], 0)
      && h[156] == (if f.isDir then 0x35 else 0x30) && h[157..257] == Fill(100, 0)
      && h[257..265] == [0x75, 0x73, 0x74, 0x61, 0x72, 0, 0x30, 0x30]
      && h[265..345] == Fill(80, 0) && h[500..512] == Fill(12, 0)
  {
    hide NameSplit, OctalField, IsOctalField, ModeBits, StoredMode, CheckField, Sum, Layout;
    var n := NameSplit(StoredName(f)).value;
    name, prefix := n.name, n.prefix;
    SizesFit(f);
    StoredModeBits(f);
    OctalFieldIs(StoredMode(f), 8);
    OctalFieldIs(0, 8);
    OctalFieldIs(StoredSize(f), 12);
    OctalFieldIs(0, 12);
    ChecksumParses(f);
    LayoutBytes(n, OctalField(StoredMode(f), 8), OctalField(StoredSize(f), 12),
                CheckField(Sum(LayoutOf(f, Fill(8, SPACE)))), if f.isDir then TYPE_DIR else TYPE_FILE);
  }

  lemma SizesFit(f: PackFile)
    requires BufferSized(f)
    ensures StoredMode(f) < Pow8(7) && StoredSize(f) < Pow8(11) && Pow8(7) > 0 && Pow8(11) > 0
  {
    Powers();
    OctalWidths(f);
  }

  lemma LayoutBytes(n: TarName, mode: bytes, size: bytes, chksum: bytes, typeflag: byte)
    requires |n.name| <= 100 && |n.prefix| <= 155
    requires |mode| == 8 && |size| == 12 && |chksum| == 8
    requires |OctalField(0, 8)| == 8 && |OctalField(0, 12)| == 12
    ensures var h := Layout(n, mode, size, chksum, typeflag);
      && |h| == 512 && h[..100] == n.name + Fill(100 - |n.name|, 0) && h[345..500] == n.prefix + Fill(155 - |n.prefix|, 0)
      && h[100..108] == mode && h[108..116] == OctalField(0, 8) && h[116..124] == OctalField(0, 8)
      && h[124..136] == size && h[136..148] == OctalField(0, 12) && h[156] == typeflag
      && h[157..257] == Fill(100, 0) && h[257..265] == [0x75, 0x73, 0x74, 0x61, 0x72, 0, 0x30, 0x30]
      && h[265..345] == Fill(80, 0) && h[500..512] == Fill(12, 0)
  {
    hide OctalField, LayoutBack;
    BackBytes(typeflag, n.prefix);
    var h, back := Layout(n, mode, size, chksum, typeflag), LayoutBack(typeflag, n.prefix);
    assert |PadRight(n.name, 100)| == 100;
    assert h[156..] == back;
    assert h[157..257] == back[1..101] && h[257..265] == back[101..109] && h[265..345] == back[109..189];
    assert h[345..500] == back[189..344] && h[500..512] == back[344..356];
  }

  lemma BackBytes(typeflag: byte, prefix: bytes)
    requires |prefix| <= 155
    ensures var b := LayoutBack(typeflag, prefix);
      && |b| == 356 && b[0] == typeflag && b[1..101] == Fill(100, 0)
      && b[101..109] == [0x75, 0x73, 0x74, 0x61, 0x72, 0, 0x30, 0x30] && b[109..189] == Fill(80, 0)
      && b[189..344] == prefix + Fill(155 - |prefix|, 0) && b[344..356] == Fill(12, 0)
  {
    var b := LayoutBack(typeflag, prefix);
    assert b[101..109] == USTAR + VERSION;
  }

  /** The checksum field is six octal digits, NUL and space, and denotes the sum of the bytes around it and of eight
      spaces. */
  lemma ChecksumBytes(f: PackFile)
    requires Nameable(f) && BufferSized(f)
    ensures var h := Header(f);
      && |h| == 512 && (forall i :: 148 <= i < 154 ==> 0x30 <= h[i] <= 0x37) && h[154] == 0 && h[155] == 0x20
      && DigitsValue(h[148..154]) == ByteSum(h[..148]) + 8 * 0x20 + ByteSum(h[156..])
  {
    hide Header, LayoutOf, ToOctal, Sum, ByteSum, ParseField, PadStart, DigitsValue;
    ChecksumParses(f);
    var spaced := LayoutOf(f, Fill(8, SPACE));
    SumIs(spaced[..148], Fill(8, SPACE), spaced[156..]);
    assert spaced == spaced[..148] + Fill(8, SPACE) + spaced[156..];
    CheckFieldIs(Sum(spaced));
    var h := Header(f);
    assert h[148..154] == h[148..156][..6] && h[154] == h[148..156][6] && h[155] == h[148..156][7];
    assert h[156..] == spaced[156..];
    assert forall i :: 148 <= i < 154 ==> h[i] == h[148..156][i - 148];
  }

  lemma CheckFieldIs(sum: nat)
    requires sum < Pow8(6)
    ensures var c := CheckField(sum);
      |c| == 8 && (forall i :: 0 <= i < 6 ==> 0x30 <= c[i] <= 0x37) && c[6] == 0 && c[7] == 0x20 && DigitsValue(c[..6]) == sum
  {
    hide ToOctal, PadStart, DigitsValue;
    ToOctalWidth(sum, 6);
    ToOctalValue(sum);
    PadStartValue(ToOctal(sum), 6);
    assert CheckField(sum)[..6] == PadStart(ToOctal(sum), 6);
  }

  /** The sum from the front. */
  function ByteSum(s: bytes): nat {
    if s == [] then 0 else s[0] as int + ByteSum(s[1..])
  }

  lemma {:induction false} ByteSumAppend(s: bytes, b: byte)
    ensures ByteSum(s + [b]) == ByteSum(s) + b as int
  {
    if s == [] {
      assert s + [b] == [b] && [b][1..] == [];
    } else {
      assert (s + [b])[1..] == s[1..] + [b];
      ByteSumAppend(s[1..], b);
    }
  }

  lemma {:induction false} SumIsByteSum(s: bytes)
    ensures Sum(s) == ByteSum(s)
    decreases |s|
  {
    hide ByteSum;
    if s == [] {
      assert ByteSum([]) == 0 by { ByteSumNone(); }
    } else {
      SumIsByteSum(s[..|s| - 1]);
      ByteSumAppend(s[..|s| - 1], s[|s| - 1]);
      assert s == s[..|s| - 1] + [s[|s| - 1]];
    }
  }

  lemma ByteSumNone()
    ensures ByteSum([]) == 0
  {
  }

  lemma {:induction false} ByteSumConcat(s: bytes, t: bytes)
    ensures ByteSum(s + t) == ByteSum(s) + ByteSum(t)
  {
    if s == [] {
      assert s + t == t;
    } else {
      assert (s + t)[1..] == s[1..] + t;
      ByteSumConcat(s[1..], t);
    }
  }

  lemma {:induction false} SpacesSum(n: nat)
    ensures ByteSum(Fill(n, SPACE)) == n * 0x20
  {
    if n > 0 {
      assert Fill(n, SPACE)[1..] == Fill(n - 1, SPACE);
      SpacesSum(n - 1);
    }
  }

  lemma SumIs(a: bytes, spaces: bytes, b: bytes)
    requires spaces == Fill(8, SPACE)
    ensures Sum(a + spaces + b) == ByteSum(a) + 8 * 0x20 + ByteSum(b)
  {
    hide Sum, ByteSum;
    SumIsByteSum(a + spaces + b);
    ByteSumConcat(a + spaces, b);
    ByteSumConcat(a, spaces);
    SpacesSum(8);
  }

  // ---- the archive ----

  /** One entry after the other, each a header, its data and zeros up to the next 512 bytes, then 1024 zeros. */
  lemma ArchiveBytes(files: seq<PackFile>)
    requires AllNameable(files) && AllBufferSized(files)
    ensures files == [] ==> Tar(files) == Fill(1024, 0)
    ensures files != [] ==>
      var f := files[0];
      var data := if f.isDir then [] else f.data;
      var zeros := (512 - |data| % 512) % 512;
      (|data| + zeros) % 512 == 0 && Tar(files) == Header(f) + data + Fill(zeros, 0) + Tar(files[1..])
  {
    hide Block, Header, Nameable;
    if files != [] {
      BlockBytes(files[0]);
      assert Tar(files) == Block(files[0]) + Tar(files[1..]);
    } else {
      assert [] + Fill(1024, NUL) == Fill(1024, NUL);
    }
  }

  lemma BlockBytes(f: PackFile)
    requires Nameable(f)
    ensures var data := if f.isDir then [] else f.data;
      var zeros := (512 - |data| % 512) % 512;
      (|data| + zeros) % 512 == 0 && Block(f) == Header(f) + data + Fill(zeros, 0)
  {
    hide Header, Nameable;
    if f.isDir || f.data == [] {
      assert Header(f) + [] + Fill(0, NUL) == Header(f);
    }
  }

  // ---- the reader ----

  lemma {:induction false} SpacesSkipped(k: nat, s: bytes)
    requires s != [] && !IsSpace(s[0])
    ensures SkipSpace(Fill(k, SPACE) + s) == s
  {
    var t := Fill(k, SPACE) + s;
    if k == 0 {
      assert t == s;
    } else {
      assert t[0] == SPACE && t[1..] == Fill(k - 1, SPACE) + s;
      SpacesSkipped(k - 1, s);
    }
  }

  lemma {:induction false} UpToNulKeeps(s: bytes, t: bytes)
    requires NUL !in s
    ensures UpToNul(s + t) == s + UpToNul(t)
  {
    if s == [] {
      assert s + t == t;
    } else {
      assert (s + t)[0] == s[0] && s[0] in s && (s + t)[1..] == s[1..] + t;
      UpToNulKeeps(s[1..], t);
    }
  }

  lemma PlainParse(s: bytes, digits: bytes, tail: bytes)
    requires digits != [] && AllDigits(digits) && (tail == [] || !IsDigit(tail[0]))
    requires SkipSpace(s) == digits + tail
    ensures ParseInt8(s) == DigitsValue(digits)
  {
    hide DigitsValue, LeadingDigits, SkipSpace;
    LeadingDigitsStop(digits, tail);
    assert (digits + tail)[0] == digits[0];
  }

  lemma SignedParse(s: bytes, sign: byte, digits: bytes, tail: bytes)
    requires sign == 0x2d || sign == 0x2b
    requires digits != [] && AllDigits(digits) && (tail == [] || !IsDigit(tail[0]))
    requires SkipSpace(s) == ([sign] + digits) + tail
    ensures ParseInt8(s) == if sign == 0x2d then -DigitsValue(digits) else DigitsValue(digits)
  {
    hide DigitsValue, LeadingDigits, SkipSpace;
    LeadingDigitsStop(digits, tail);
    assert SkipSpace(s)[1..] == digits + tail;
  }

  lemma FieldText(k: nat, text: bytes, tail: bytes)
    requires text != [] && NUL !in text && !IsSpace(text[0])
    ensures var s := UpToNul(Fill(k, SPACE) + text + tail); SkipSpace(s) == text + UpToNul(tail)
  {
    hide UpToNul, SkipSpace, IsSpace;
    var front := Fill(k, SPACE) + text;
    assert NUL !in front;
    UpToNulKeeps(front, tail);
    assert front + UpToNul(tail) == Fill(k, SPACE) + (text + UpToNul(tail));
    assert (text + UpToNul(tail))[0] == text[0];
    SpacesSkipped(k, text + UpToNul(tail));
  }

  /** A number field: leading spaces, then octal digits up to anything else. */
  lemma NumberField(k: nat, digits: bytes, tail: bytes)
    requires digits != [] && (forall i :: 0 <= i < |digits| ==> 0x30 <= digits[i] <= 0x37)
    requires tail == [] || !(0x30 <= tail[0] <= 0x37)
    ensures ParseField(Fill(k, 0x20) + digits + tail) == DigitsValue(digits)
  {
    hide DigitsValue, ParseInt8, SkipSpace, UpToNul;
    FieldText(k, digits, tail);
    PlainParse(UpToNul(Fill(k, SPACE) + digits + tail), digits, UpToNul(tail));
  }

  lemma SignText(sign: byte, digits: bytes)
    requires sign == 0x2d || sign == 0x2b
    requires forall i :: 0 <= i < |digits| ==> 0x30 <= digits[i] <= 0x37
    ensures var text := [sign] + digits; NUL !in text && !IsSpace(text[0])
  {
  }

  /** With a sign before the digits, which negates if it is a minus. */
  lemma SignedField(k: nat, sign: byte, digits: bytes, tail: bytes)
    requires sign == 0x2d || sign == 0x2b
    requires digits != [] && (forall i :: 0 <= i < |digits| ==> 0x30 <= digits[i] <= 0x37)
    requires tail == [] || !(0x30 <= tail[0] <= 0x37)
    ensures ParseField(Fill(k, 0x20) + ([sign] + digits) + tail) ==
      if sign == 0x2d then -DigitsValue(digits) else DigitsValue(digits)
  {
    hide DigitsValue, ParseInt8, SkipSpace, UpToNul, IsSpace;
    var text := [sign] + digits;
    SignText(sign, digits);
    FieldText(k, text, tail);
    SignedParse(UpToNul(Fill(k, SPACE) + text + tail), sign, digits, UpToNul(tail));
  }

  /** A field without digits counts as 0. */
  lemma EmptyField(n: nat)
    ensures ParseField(Fill(n, 0)) == 0
  {
  }

  /** One turn of the walk at a whole header, by the byte of its type. */
  lemma TurnByType(tar: bytes, offset: nat, longName: Option<bytes>, n: nat, size: nat, next: nat)
    requires offset + 512 <= |tar| && n > 0 && (exists i :: offset <= i < offset + 512 && tar[i] != 0)
    requires size == ParseField(tar[offset + 124..offset + 136])
    requires next % 512 == offset % 512 && offset + 512 + size <= next < offset + 512 + size + 512
    ensures var end := if offset + 512 + size <= |tar| then offset + 512 + size else |tar|;
      var data := tar[offset + 512..end];
      var t, h := tar[offset + 156], tar[offset..offset + 512];
      Walk(tar, offset, longName, n) ==
        if t == 0x4c then Walk(tar, next, Some(StripTrailing(data, 0)), n - 1)
        else if t == 0x78 || t == 0x67 then Walk(tar, next, longName, n - 1)
        else [Member(h, CleanPath(NameAt(h, longName)), data)] + Walk(tar, next, None, n - 1)
  {
    hide ParseField, CleanPath, StripTrailing, SizeOf, TypeOf, EntryName, HeaderAt, Ended, Next, NameAt, SubArray;
    HeaderInside(tar, offset, longName, size, next);
    DataInside(tar, offset + 512, size);
  }

  lemma DataInside(tar: bytes, start: nat, size: nat)
    requires start <= |tar|
    ensures SubArray(tar, start, start + size) == tar[start..if start + size <= |tar| then start + size else |tar|]
  {
    SubArrayIsClip(tar, start, start + size);
  }

  lemma HeaderInside(tar: bytes, offset: nat, longName: Option<bytes>, size: nat, next: nat)
    requires offset + 512 <= |tar| && (exists i :: offset <= i < offset + 512 && tar[i] != 0)
    requires size == ParseField(tar[offset + 124..offset + 136])
    requires next % 512 == offset % 512 && offset + 512 + size <= next < offset + 512 + size + 512
    ensures var h := tar[offset..offset + 512];
      && HeaderAt(tar, offset) == h && !Ended(tar, offset) && SizeOf(h) == size && Next(tar, offset) == next
      && TypeOf(h) == tar[offset + 156] && LongNameOr(longName, h) == CleanPath(NameAt(h, longName))
  {
    hide ParseField, CleanPath, UpToNul, Advance, SubArray, Clip;
    var h := tar[offset..offset + 512];
    SubArrayIsClip(tar, offset, offset + 512);
    ClipInside(tar, offset, offset + 512);
    ClipInside(h, 124, 136);
    ClipInside(h, 0, 100);
    ClipInside(h, 345, 500);
    SliceInside(tar, offset, 124, 136);
    var i :| offset <= i < offset + 512 && tar[i] != 0;
    assert h[i - offset] == tar[i];
    NextIs(offset, size, next);
  }

  lemma ClipInside(s: bytes, lo: nat, hi: nat)
    requires lo < hi <= |s|
    ensures Clip(s, lo, hi) == s[lo..hi]
  {
  }

  lemma SliceInside(s: bytes, offset: nat, lo: nat, hi: nat)
    requires offset + 512 <= |s| && lo <= hi <= 512
    ensures s[offset..offset + 512][lo..hi] == s[offset + lo..offset + hi]
  {
    var t := s[offset..offset + 512];
    forall k | 0 <= k < hi - lo
      ensures t[lo..hi][k] == s[offset + lo..offset + hi][k]
    {
      assert t[lo + k] == s[offset + lo + k];
    }
  }

  lemma NextIs(offset: nat, size: nat, next: nat)
    requires next % 512 == offset % 512 && offset + 512 + size <= next < offset + 512 + size + 512
    ensures offset + Advance(size) == next
  {
  }

  /** The long name if there is one, else prefix, slash and name, or the name alone if the prefix is empty. */
  function NameAt(h: bytes, longName: Option<bytes>): bytes
    requires |h| == 512
  {
    if longName.Some? then longName.value
    else if UpToNul(h[345..500]) == [] then UpToNul(h[..100])
    else UpToNul(h[345..500]) + [0x2f] + UpToNul(h[..100])
  }

  /** So a member after a long-name header has the name in that header's data, up to the NULs at its end. */
  lemma LongNameUsed(tar: bytes, offset: nat, n: nat, size: nat, next: nat, size': nat, next': nat)
    requires offset + 512 <= |tar| && tar[offset + 156] == 0x4c
    requires size == ParseField(tar[offset + 124..offset + 136])
    requires next % 512 == offset % 512 && offset + 512 + size <= next < offset + 512 + size + 512
    requires next + 512 <= |tar| && n > 1 && tar[next + 156] !in {0x4c, 0x78, 0x67, 0}
    requires size' == ParseField(tar[next + 124..next + 136])
    requires next' % 512 == next % 512 && next + 512 + size' <= next' < next + 512 + size' + 512
    ensures var ms := Walk(tar, offset, None, n);
      ms != [] && ms[0].path == CleanPath(StripTrailing(tar[offset + 512..offset + 512 + size], 0))
  {
    hide ParseField, CleanPath, StripTrailing, UpToNul, Walk;
    TurnByType(tar, offset, None, n, size, next);
    TurnByType(tar, next, Some(StripTrailing(tar[offset + 512..offset + 512 + size], 0)), n - 1, size', next');
  }

  /** What extraction makes of a member: kept unless its path is empty, has ".." between slashes, or it is neither a
      regular file nor a directory; a trailing slash makes a directory. */
  lemma KeptByBytes(m: Member) returns (k: nat)
    requires |m.header| == 512
    ensures k <= |m.path| && forall i :: k <= i < |m.path| ==> m.path[i] == 0x2f
    ensures k > 0 ==> m.path[k - 1] != 0x2f
    ensures var t, slashed := m.header[156], m.path != [] && m.path[|m.path| - 1] == 0x2f;
      && (Kept(m).Some? <==> m.path != [] && !HasName(m.path, [0x2e, 0x2e]) && (slashed || t in {0x35, 0x30, 0}))
      && (Kept(m).Some? ==>
            var g := Kept(m).value;
            && g.path == m.path[..k] && (g.isDir <==> slashed || t == 0x35)
            && g.data == (if g.isDir then [] else m.data)
            && 0 <= g.mode < 4096 && (ParseField(m.header[100..108]) - g.mode) % 4096 == 0)
  {
    hide Split, HasName, ParseField, StripTrailing;
    ComponentsByPosition(m.path, DOTDOT);
    k := |StripTrailing(m.path, SLASH)|;
    assert Clip(m.header, 100, 108) == m.header[100..108];
  }
}
