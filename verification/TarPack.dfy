/**
 * The ustar writer (apps/web/lib/storage/tarPack.ts).
 * The specification is the header layout of the ustar Interchange Format (IEEE Std 1003.1, pax);
 * the methods write a 512-byte buffer field by field, as the source does.
 */
module TarPack {
  import opened Wrappers
  import opened Bytes
  import opened Octal

  /** `mode` is any integer: the bit operators only look at its low bits. */
  datatype PackFile = PackFile(path: bytes, data: bytes, isDir: bool, mode: int)

  datatype TarName = TarName(name: bytes, prefix: bytes)

  datatype PackError = PathTooLong

  /** `buffer.constants.MAX_LENGTH` of Node 18: no Buffer is longer. */
  const MAX_BUFFER: nat := 0x1_0000_0000

  predicate BufferSized(f: PackFile) {
    |f.data| <= MAX_BUFFER
  }

  // ---- name splitting ----

  /** The reader's way of putting name and prefix together again. */
  function Rejoin(n: TarName): bytes {
    if n.prefix == [] then n.name else n.prefix + [SLASH] + n.name
  }

  /** The slash at position i > 0 leaves at most 155 bytes before it and at most 100 after it. */
  predicate SplitsAt(path: bytes, i: nat) {
    0 < i < |path| && path[i] == SLASH && |path| - i - 1 <= 100 && i <= 155
  }

  function ScanBack(path: bytes, i: nat): (r: Option<TarName>)
    requires i < |path|
    ensures r.Some? ==> Rejoin(r.value) == path && |r.value.name| <= 100 && |r.value.prefix| <= 155
    ensures r.None? <==> forall j :: 0 < j <= i ==> !SplitsAt(path, j)
  {
    if i == 0 then None
    else if SplitsAt(path, i) then
      assert path == path[..i] + [SLASH] + path[i + 1..];
      Some(TarName(path[i + 1..], path[..i]))
    else ScanBack(path, i - 1)
  }

  /** Sound and complete: an answer rejoins to the path, and only paths without any admissible split are refused. */
  function NameSplit(path: bytes): (r: Option<TarName>)
    ensures r.Some? ==> Rejoin(r.value) == path && |r.value.name| <= 100 && |r.value.prefix| <= 155
    ensures r.None? <==> |path| > 100 && forall i :: 0 < i < |path| ==> !SplitsAt(path, i)
  {
    if |path| <= 100 then Some(TarName(path, [])) else ScanBack(path, |path| - 1)
  }

  /** The refused paths, by their shape alone: a long last component, or no slash in the window. */
  lemma SplitWindow(path: bytes)
    ensures NameSplit(path).None? <==>
      |path| > 100 && forall i :: 0 < i < |path| && path[i] == SLASH ==> i < |path| - 101 || i > 155
  {
    assert forall i :: 0 < i < |path| && path[i] == SLASH ==>
      (SplitsAt(path, i) <==> !(i < |path| - 101 || i > 155));
  }

  method SplitName(path: bytes) returns (r: Option<TarName>)
    ensures r == NameSplit(path)
  {
    hide Rejoin;
    if |path| <= 100 {
      return Some(TarName(path, []));
    }
    var i := |path| - 1;
    while i > 0
      invariant 0 <= i < |path|
      invariant ScanBack(path, i) == ScanBack(path, |path| - 1)
    {
      if path[i] == SLASH {
        var name := path[i + 1..];
        var prefix := path[..i];
        if |name| <= 100 && |prefix| <= 155 {
          return Some(TarName(name, prefix));
        }
      }
      i := i - 1;
    }
    return None;
  }

  // ---- one header block ----

  const USTAR: bytes := [0x75, 0x73, 0x74, 0x61, 0x72, NUL]
  const VERSION: bytes := [0x30, 0x30]
  const TYPE_FILE: byte := 0x30
  const TYPE_DIR: byte := 0x35

  /** Directories are stored with a trailing slash. */
  function StoredName(f: PackFile): bytes {
    if f.isDir then f.path + [SLASH] else f.path
  }

  predicate Nameable(f: PackFile) {
    NameSplit(StoredName(f)).Some?
  }

  /** At least rw-r--r-- for files, rwxr-xr-x for directories. */
  function StoredMode(f: PackFile): nat {
    MaskedOr(f.mode, if f.isDir then 0x1ed else 0x1a4, 12)
  }

  function StoredSize(f: PackFile): nat {
    if f.isDir then 0 else |f.data|
  }

  /** name(100) mode(8) uid(8) gid(8) size(12) mtime(12) chksum(8), then the rest. */
  function Layout(n: TarName, mode: bytes, size: bytes, chksum: bytes, typeflag: byte): bytes
    requires |n.name| <= 100 && |n.prefix| <= 155
  {
    PadRight(n.name, 100) + mode + OctalField(0, 8) + OctalField(0, 8) + size + OctalField(0, 12) + chksum
    + LayoutBack(typeflag, n.prefix)
  }

  /** typeflag(1) linkname(100) magic(6) version(2), then uname, gname, devmajor and devminor(80),
      prefix(155) and 12 unused bytes. */
  function LayoutBack(typeflag: byte, prefix: bytes): bytes
    requires |prefix| <= 155
  {
    [typeflag] + Fill(100, NUL) + USTAR + VERSION + Fill(80, NUL) + PadRight(prefix, 155) + Fill(12, NUL)
  }

  function CheckField(sum: nat): bytes {
    PadStart(ToOctal(sum), 6) + [NUL, SPACE]
  }

  function LayoutOf(f: PackFile, chksum: bytes): bytes
    requires Nameable(f)
  {
    Layout(NameSplit(StoredName(f)).value, OctalField(StoredMode(f), 8), OctalField(StoredSize(f), 12),
           chksum, if f.isDir then TYPE_DIR else TYPE_FILE)
  }

  /** The checksum is the byte sum of the header with its own field read as spaces. */
  function Header(f: PackFile): bytes
    requires Nameable(f)
  {
    LayoutOf(f, CheckField(Sum(LayoutOf(f, Fill(8, SPACE)))))
  }

  // ---- the fields of a header ----

  lemma OctalWidths(f: PackFile)
    requires BufferSized(f)
    ensures StoredMode(f) < 4096
    ensures |OctalField(StoredMode(f), 8)| == 8 && |OctalField(StoredSize(f), 12)| == 12
    ensures |OctalField(0, 8)| == 8 && |OctalField(0, 12)| == 12
    ensures ParseField(OctalField(StoredMode(f), 8)) == StoredMode(f)
    ensures ParseField(OctalField(StoredSize(f), 12)) == StoredSize(f)
  {
    MaskedOrBound(f.mode, if f.isDir then 0x1ed else 0x1a4, 12);
    Powers();
    OctalFieldRoundTrip(StoredMode(f), 8);
    OctalFieldRoundTrip(StoredSize(f), 12);
    OctalFieldRoundTrip(0, 8);
    OctalFieldRoundTrip(0, 12);
  }

  lemma Powers()
    ensures Pow2(12) == 4096 && Pow8(6) == 262144 && Pow8(7) == 2097152 && Pow8(11) == 8589934592
  {
    assert Pow2(6) == 64;
    assert Pow8(3) == 512;
    assert Pow8(7) == 2097152;
  }

  lemma LayoutFields(n: TarName, mode: bytes, size: bytes, chksum: bytes, typeflag: byte)
    requires |n.name| <= 100 && |n.prefix| <= 155
    requires |mode| == 8 && |size| == 12 && |chksum| == 8
    requires |OctalField(0, 8)| == 8 && |OctalField(0, 12)| == 12
    ensures var h := Layout(n, mode, size, chksum, typeflag);
      && |h| == 512
      && h[..100] == PadRight(n.name, 100) && h[100..108] == mode && h[124..136] == size
      && h[148..156] == chksum && h[156] == typeflag && h[345..500] == PadRight(n.prefix, 155)
  {
    hide OctalField, LayoutBack;
    BackFields(typeflag, n.prefix);
    var h, back := Layout(n, mode, size, chksum, typeflag), LayoutBack(typeflag, n.prefix);
    assert h[156..] == back;
    assert h[345..500] == back[189..344];
  }

  lemma BackFields(typeflag: byte, prefix: bytes)
    requires |prefix| <= 155
    ensures var b := LayoutBack(typeflag, prefix);
      |b| == 356 && b[0] == typeflag && b[189..344] == PadRight(prefix, 155)
  {
  }

  /** The checksum field is 8 bytes and parses to the byte sum of the header around it. */
  lemma ChecksumParses(f: PackFile)
    requires Nameable(f) && BufferSized(f)
    ensures var spaced := LayoutOf(f, Fill(8, SPACE));
      && |spaced| == |Header(f)| == 512
      && Header(f)[..148] == spaced[..148] && Header(f)[156..] == spaced[156..]
      && spaced[148..156] == Fill(8, SPACE)
      && Header(f)[148..156] == CheckField(Sum(spaced)) && |CheckField(Sum(spaced))| == 8
      && ParseField(Header(f)[148..156]) == Sum(spaced)
      && Sum(spaced) < Pow8(6)
  {
    var n := NameSplit(StoredName(f)).value;
    var mode, size := OctalField(StoredMode(f), 8), OctalField(StoredSize(f), 12);
    var typeflag := if f.isDir then TYPE_DIR else TYPE_FILE;
    var spaced := LayoutOf(f, Fill(8, SPACE));
    OctalWidths(f);
    LayoutFields(n, mode, size, Fill(8, SPACE), typeflag);
    Powers();
    CheckFieldParses(Sum(spaced));
    LayoutFields(n, mode, size, CheckField(Sum(spaced)), typeflag);
    SameAround(n, mode, size, Fill(8, SPACE), CheckField(Sum(spaced)), typeflag);
  }

  lemma HeaderFields(f: PackFile)
    requires Nameable(f) && BufferSized(f)
    ensures var n, h := NameSplit(StoredName(f)).value, Header(f);
      && |h| == 512 && h[156] == (if f.isDir then TYPE_DIR else TYPE_FILE)
      && h[..100] == PadRight(n.name, 100) && h[345..500] == PadRight(n.prefix, 155)
      && h[100..108] == OctalField(StoredMode(f), 8) && h[124..136] == OctalField(StoredSize(f), 12)
  {
    hide ParseField, NameSplit, OctalField, CheckField, StoredMode, StoredSize;
    OctalWidths(f);
    ChecksumParses(f);
    LayoutFields(NameSplit(StoredName(f)).value, OctalField(StoredMode(f), 8), OctalField(StoredSize(f), 12),
                 CheckField(Sum(LayoutOf(f, Fill(8, SPACE)))), if f.isDir then TYPE_DIR else TYPE_FILE);
  }

  lemma CheckFieldParses(sum: nat)
    requires sum < Pow8(6)
    ensures |CheckField(sum)| == 8 && ParseField(CheckField(sum)) == sum
  {
    ToOctalWidth(sum, 6);
    ToOctalValue(sum);
    PadStartValue(ToOctal(sum), 6);
    DigitsParse(PadStart(ToOctal(sum), 6), [NUL, SPACE]);
  }

  lemma SameAround(n: TarName, mode: bytes, size: bytes, c: bytes, d: bytes, typeflag: byte)
    requires |n.name| <= 100 && |n.prefix| <= 155
    requires |mode| == 8 && |size| == 12 && |c| == 8 && |d| == 8
    requires |OctalField(0, 8)| == 8 && |OctalField(0, 12)| == 12
    ensures var x, y := Layout(n, mode, size, c, typeflag), Layout(n, mode, size, d, typeflag);
      |x| == |y| == 512 && x[..148] == y[..148] && x[156..] == y[156..]
  {
    hide OctalField, LayoutBack;
    BackFields(typeflag, n.prefix);
  }

  // ---- writing one header ----

  /** `h.write(s, off)` and `h.fill(b, off, off + n)`. */
  method WriteAt(h: array<byte>, off: nat, s: bytes)
    requires off + |s| <= h.Length
    modifies h
    ensures h[..] == old(h[..off]) + s + old(h[off + |s|..])
  {
    forall i | 0 <= i < |s| {
      h[off + i] := s[i];
    }
  }

  /** Write the next field after a gap of bytes that stay zero. */
  method PutField(h: array<byte>, off: nat, s: bytes, ghost done: bytes)
    requires |done| <= off && off + |s| <= h.Length
    requires h[..] == done + Fill(h.Length - |done|, NUL)
    modifies h
    ensures h[..] == (done + Fill(off - |done|, NUL) + s) + Fill(h.Length - off - |s|, NUL)
  {
    WriteAt(h, off, s);
  }

  method WriteHeader(f: PackFile) returns (r: Result<bytes, PackError>)
    requires BufferSized(f)
    ensures r == if Nameable(f) then Success(Header(f)) else Failure(PathTooLong)
  {
    var split := SplitName(if f.isDir then f.path + [SLASH] else f.path);
    if split.None? {
      return Failure(PathTooLong);
    }
    var h := new byte[512](_ => NUL);
    FillHeader(h, f, split.value);
    ChecksumParses(f);
    SealHeader(h, LayoutOf(f, Fill(8, SPACE)));
    r := Success(h[..]);
    HeaderAround(LayoutOf(f, Fill(8, SPACE)), Header(f));
  }

  /** Sum the bytes, then overwrite the spaces of the checksum field. */
  method SealHeader(h: array<byte>, ghost spaced: bytes)
    requires h.Length == 512 && h[..] == spaced && Sum(spaced) < Pow8(6)
    modifies h
    ensures h[..] == spaced[..148] + CheckField(Sum(spaced)) + spaced[156..]
  {
    var sum: nat := 0;
    for i := 0 to h.Length
      invariant sum == Sum(h[..i])
    {
      sum := sum + h[i] as int;
      assert h[..i + 1][..i] == h[..i];
    }
    assert h[..h.Length] == h[..];
    CheckFieldParses(sum);
    WriteAt(h, 148, PadStart(ToOctal(sum), 6) + [NUL, SPACE]);
  }

  lemma HeaderAround(spaced: bytes, h: bytes)
    requires |spaced| == |h| == 512 && h[..148] == spaced[..148] && h[156..] == spaced[156..]
    ensures h == spaced[..148] + h[148..156] + spaced[156..]
  {
  }

  /** Every field but the checksum, in the order of the source; the checksum field is left as spaces. */
  method FillHeader(h: array<byte>, f: PackFile, n: TarName)
    requires BufferSized(f) && h.Length == 512 && h[..] == Fill(512, NUL)
    requires NameSplit(StoredName(f)) == Some(n)
    modifies h
    ensures h[..] == LayoutOf(f, Fill(8, SPACE))
  {
    OctalWidths(f);
    var mode := MaskedOr(f.mode, if f.isDir then 0x1ed else 0x1a4, 12);
    ghost var d := FillOwner(h, n.name, mode);
    d := FillNumbers(h, if f.isDir then 0 else |f.data|, d);
    FillHeaderEnd(h, f, n, d);
  }

  method FillOwner(h: array<byte>, name: bytes, mode: nat) returns (ghost d: bytes)
    requires h.Length == 512 && h[..] == Fill(512, NUL) && |name| <= 100
    requires |OctalField(mode, 8)| == |OctalField(0, 8)| == 8
    modifies h
    ensures d == PadRight(name, 100) + OctalField(mode, 8) + OctalField(0, 8) + OctalField(0, 8)
    ensures h[..] == d + Fill(388, NUL)
  {
    WriteAt(h, 0, name);
    assert h[..] == name + Fill(512 - |name|, NUL);
    d := name;
    PutField(h, 100, OctalField(mode, 8), d);
    d := Close(d, 100 - |name|, OctalField(mode, 8));
    PutField(h, 108, OctalField(0, 8), d);
    d := Close(d, 0, OctalField(0, 8));
    PutField(h, 116, OctalField(0, 8), d);
    d := Close(d, 0, OctalField(0, 8));
  }

  method FillNumbers(h: array<byte>, size: nat, ghost owner: bytes) returns (ghost d: bytes)
    requires h.Length == 512 && |owner| == 124 && h[..] == owner + Fill(388, NUL)
    requires |OctalField(size, 12)| == |OctalField(0, 12)| == 12
    modifies h
    ensures d == owner + OctalField(size, 12) + OctalField(0, 12) + Fill(8, SPACE)
    ensures h[..] == d + Fill(356, NUL)
  {
    PutField(h, 124, OctalField(size, 12), owner);
    d := Close(owner, 0, OctalField(size, 12));
    PutField(h, 136, OctalField(0, 12), d);
    d := Close(d, 0, OctalField(0, 12));
    PutField(h, 148, Fill(8, SPACE), d);
    d := Close(d, 0, Fill(8, SPACE));
  }

  ghost function Close(done: bytes, gap: nat, s: bytes): (r: bytes)
    ensures r == done + Fill(gap, NUL) + s
    ensures gap == 0 ==> r == done + s
  {
    assert Fill(0, NUL) == [];
    assert done + [] == done;
    done + Fill(gap, NUL) + s
  }

  method FillHeaderEnd(h: array<byte>, f: PackFile, n: TarName, ghost front: bytes)
    requires h.Length == 512 && |front| == 156 && h[..] == front + Fill(356, NUL)
    requires |n.name| <= 100 && |n.prefix| <= 155
    modifies h
    ensures h[..] == front + LayoutBack(if f.isDir then TYPE_DIR else TYPE_FILE, n.prefix)
  {
    hide LayoutBack;
    var typeflag := if f.isDir then TYPE_DIR else TYPE_FILE;
    PutField(h, 156, [typeflag], front);
    ghost var d := Close(front, 0, [typeflag]);
    PutField(h, 257, USTAR, d);
    d := Close(d, 100, USTAR);
    PutField(h, 263, VERSION, d);
    d := Close(d, 0, VERSION);
    PutField(h, 345, n.prefix, d);
    assert Fill(512 - 345 - |n.prefix|, NUL) == Fill(155 - |n.prefix|, NUL) + Fill(12, NUL);
    BackJoins(front, typeflag, n.prefix);
  }

  lemma BackJoins(front: bytes, typeflag: byte, prefix: bytes)
    requires |prefix| <= 155
    ensures front + [typeflag] + Fill(100, NUL) + USTAR + VERSION + Fill(80, NUL) + PadRight(prefix, 155)
            + Fill(12, NUL) == front + LayoutBack(typeflag, prefix)
  {
  }

  // ---- the archive ----

  /** Zero bytes up to the next 512-byte boundary. */
  function Padding(size: nat): (r: bytes)
    ensures |r| < 512 && (size + |r|) % 512 == 0
  {
    Fill((512 - size % 512) % 512, NUL)
  }

  /** Header, data and padding of one entry; directories have no data. */
  function Block(f: PackFile): bytes
    requires Nameable(f)
  {
    if f.isDir || f.data == [] then Header(f) else Header(f) + f.data + Padding(|f.data|)
  }

  predicate AllNameable(files: seq<PackFile>) {
    forall f :: f in files ==> Nameable(f)
  }

  predicate AllBufferSized(files: seq<PackFile>) {
    forall f :: f in files ==> BufferSized(f)
  }

  function Blocks(files: seq<PackFile>): bytes
    requires AllNameable(files)
  {
    if files == [] then [] else Block(files[0]) + Blocks(files[1..])
  }

  /** The tar: the entries in order, then two zero blocks. */
  function Tar(files: seq<PackFile>): bytes
    requires AllNameable(files)
  {
    Blocks(files) + Fill(1024, NUL)
  }

  lemma {:induction false} BlocksAppend(files: seq<PackFile>, f: PackFile)
    requires AllNameable(files) && Nameable(f)
    ensures Blocks(files + [f]) == Blocks(files) + Block(f)
  {
    hide Block, Nameable;
    if files == [] {
      assert [f][1..] == [];
      assert files + [f] == [f];
    } else {
      assert (files + [f])[1..] == files[1..] + [f];
      BlocksAppend(files[1..], f);
    }
  }

  /** Push the blocks of one entry, as one turn of the loop in `createTgz` does. */
  method AddEntry(blocks: bytes, f: PackFile) returns (r: Result<bytes, PackError>)
    requires BufferSized(f)
    ensures r == if Nameable(f) then Success(blocks + Block(f)) else Failure(PathTooLong)
  {
    hide Header, Nameable;
    var header := WriteHeader(f);
    if header.Failure? {
      return Failure(PathTooLong);
    }
    var out := blocks + header.value;
    if !f.isDir && |f.data| > 0 {
      out := out + f.data;
      var pad := (512 - |f.data| % 512) % 512;
      if pad > 0 {
        out := out + Fill(pad, NUL);
      }
      assert out == blocks + (header.value + f.data + Padding(|f.data|));
    }
    r := Success(out);
  }

  /** `createTgz` before compression. One entry without an admissible name refuses the whole archive. */
  method CreateTar(files: seq<PackFile>) returns (r: Result<bytes, PackError>)
    requires AllBufferSized(files)
    ensures r == if AllNameable(files) then Success(Tar(files)) else Failure(PathTooLong)
  {
    hide Block, Nameable;
    var blocks: bytes := [];
    for i := 0 to |files|
      invariant AllNameable(files[..i]) && blocks == Blocks(files[..i])
    {
      var added := AddEntry(blocks, files[i]);
      if added.Failure? {
        return Failure(PathTooLong);
      }
      blocks := added.value;
      assert files[..i + 1] == files[..i] + [files[i]];
      BlocksAppend(files[..i], files[i]);
    }
    assert files[..|files|] == files;
    r := Success(blocks + Fill(1024, NUL));
  }
}
