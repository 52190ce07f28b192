/**
 * The tar reader (apps/web/lib/storage/tgzPreview.ts).
 * `Walk` follows the offsets of the source on any bytes; `Members` reads an archive from the front.
 */
module TgzPreview {
  import opened Wrappers
  import opened Bytes
  import opened Octal
  import opened Paths
  import opened TarPack

  /** `dataStart` is negative when the walk went back beyond the front. */
  datatype RawEntry = RawEntry(path: bytes, size: int, typeflag: byte, dataStart: int)

  /** What a raw entry gives its consumers: its header block, its path and the bytes of its data range. */
  datatype Member = Member(header: bytes, path: bytes, data: bytes)

  datatype ReadError = UnpackedTooLarge

  /** The output limit of gunzip, 128 MiB. */
  const MAX_UNPACKED_BYTES: nat := 0x800_0000

  const TYPE_LONG_NAME: byte := 0x4c
  const TYPE_PAX: byte := 0x78
  const TYPE_PAX_GLOBAL: byte := 0x67

  // ---- reading one header ----
  // A header has 512 bytes, but fewer at the front of the buffer when an offset is negative.

  function SizeOf(h: bytes): int {
    ParseField(Clip(h, 124, 136))
  }

  function ModeOf(h: bytes): nat {
    ParseField(Clip(h, 100, 108)) % 4096
  }

  function EntryName(h: bytes): bytes {
    Rejoin(TarName(UpToNul(Clip(h, 0, 100)), UpToNul(Clip(h, 345, 500))))
  }

  function TypeOf(h: bytes): byte {
    if |h| > 156 then h[156] else NUL
  }

  /** `512 + Math.ceil(size / 512) * 512` */
  function Advance(size: int): int {
    512 + (size + 511) / 512 * 512
  }

  /** A block and the data, filled up to whole blocks. The walk moves forward exactly for sizes above -512, stays down
      to -1023, and goes back from -1024 on. */
  lemma AdvanceSign(size: int)
    ensures Advance(size) % 512 == 0 && size <= Advance(size) - 512 < size + 512
    ensures Advance(size) >= 512 <==> size > -512
    ensures Advance(size) == 0 <==> -1024 < size <= -512
    ensures Advance(size) <= -512 <==> size <= -1024
  {
  }

  // ---- the walk over offsets ----

  predicate IsZero(h: bytes) {
    forall i :: 0 <= i < |h| ==> h[i] == NUL
  }

  function HeaderAt(tar: bytes, offset: int): bytes {
    SubArray(tar, offset, offset + 512)
  }

  /** The loop stops at the end of the buffer, or at a header of zeros. */
  predicate Ended(tar: bytes, offset: int) {
    offset + 512 > |tar| || IsZero(HeaderAt(tar, offset))
  }

  function Next(tar: bytes, offset: int): int {
    offset + Advance(SizeOf(HeaderAt(tar, offset)))
  }

  /** Where the walk is n turns after `offset`. */
  function After(tar: bytes, offset: int, n: nat): int
    decreases n
  {
    if n == 0 || Ended(tar, offset) then offset else After(tar, Next(tar, offset), n - 1)
  }

  predicate EndsWithin(tar: bytes, n: nat) {
    Ended(tar, After(tar, 0, n))
  }

  /** As many turns as there are offsets at which the walk can go on. */
  function Turns(tar: bytes): nat {
    2 * (|tar| / 512) + 1
  }

  /** The walk from the front ends; see `HaltsExactly`. */
  predicate Halts(tar: bytes) {
    EndsWithin(tar, Turns(tar))
  }

  lemma {:induction false} AfterAdd(tar: bytes, offset: int, m: nat, n: nat)
    ensures After(tar, offset, m + n) == After(tar, After(tar, offset, m), n)
    decreases m
  {
    hide Ended, Next;
    if m > 0 && !Ended(tar, offset) {
      AfterAdd(tar, Next(tar, offset), m - 1, n);
    }
  }

  /** Once ended, the walk stays ended. */
  lemma EndStays(tar: bytes, m: nat, n: nat)
    requires EndsWithin(tar, m) && m <= n
    ensures EndsWithin(tar, n)
  {
    hide Ended, Next;
    AfterAdd(tar, 0, m, n - m);
  }

  /** An offset that is met twice is met forever. */
  lemma {:induction false} RevisitRepeats(tar: bytes, i: nat, j: nat, n: nat)
    requires i < j && After(tar, 0, i) == After(tar, 0, j) && !EndsWithin(tar, j)
    ensures !EndsWithin(tar, n)
    decreases n
  {
    hide Ended, Next, After;
    if n <= j {
      if EndsWithin(tar, n) {
        EndStays(tar, n, j);
      }
    } else {
      AfterAdd(tar, 0, j, n - j);
      AfterAdd(tar, 0, i, n - j);
      RevisitRepeats(tar, i, j, i + (n - j));
    }
  }

  lemma {:induction false} OffsetsAligned(tar: bytes, offset: int, n: nat)
    requires offset % 512 == 0
    ensures After(tar, offset, n) % 512 == 0
    decreases n
  {
    hide Ended, SizeOf;
    if n > 0 && !Ended(tar, offset) {
      AdvanceSign(SizeOf(HeaderAt(tar, offset)));
      OffsetsAligned(tar, Next(tar, offset), n - 1);
    }
  }

  /** The walk goes on only within the buffer, or as far before its front. */
  lemma GoesOnWithin(tar: bytes, offset: int)
    requires !Ended(tar, offset) && offset % 512 == 0
    ensures -(|tar| / 512) - 1 <= offset / 512 < |tar| / 512
  {
    assert HeaderAt(tar, offset) != [];
  }

  function Range(lo: int, n: nat): (r: set<int>)
    ensures |r| == n && forall x :: x in r <==> lo <= x < lo + n
  {
    if n == 0 then {} else Range(lo, n - 1) + {lo + n - 1}
  }

  /** The number of the block met after n turns. */
  function BlockAfter(tar: bytes, n: nat): int {
    After(tar, 0, n) / 512
  }

  function Met(tar: bytes, n: nat): set<int> {
    set i: nat | i < n :: BlockAfter(tar, i)
  }

  ghost predicate Revisits(tar: bytes) {
    exists i: nat, j: nat :: i < j && After(tar, 0, i) == After(tar, 0, j) && !EndsWithin(tar, j)
  }

  lemma {:induction false} MetCount(tar: bytes, n: nat)
    requires !Revisits(tar) && (n == 0 || !EndsWithin(tar, n - 1))
    ensures |Met(tar, n)| == n
  {
    hide Ended, Next, After;
    if n == 0 {
      assert Met(tar, 0) == {};
    } else {
      if n > 1 && EndsWithin(tar, n - 2) {
        EndStays(tar, n - 2, n - 1);
      }
      MetCount(tar, n - 1);
      forall i: nat | i < n - 1
        ensures BlockAfter(tar, i) != BlockAfter(tar, n - 1)
      {
        OffsetsAligned(tar, 0, i);
        OffsetsAligned(tar, 0, n - 1);
      }
      MetMore(tar, n - 1);
    }
  }

  lemma MetMore(tar: bytes, n: nat)
    ensures Met(tar, n + 1) == Met(tar, n) + {BlockAfter(tar, n)}
  {
    hide BlockAfter;
    assert BlockAfter(tar, n) in Met(tar, n + 1);
  }

  /** A walk that does not end in as many turns as there are blocks to meet comes to one of them again. */
  lemma LongWalkRevisits(tar: bytes)
    requires !Halts(tar)
    ensures Revisits(tar)
  {
    hide Ended, Next, After;
    if !Revisits(tar) {
      var n := Turns(tar) + 1;
      var blocks := Range(-(|tar| / 512) - 1, 2 * (|tar| / 512) + 1);
      MetCount(tar, n);
      forall x | x in Met(tar, n)
        ensures x in blocks
      {
        var i: nat :| i < n && BlockAfter(tar, i) == x;
        if EndsWithin(tar, i) {
          EndStays(tar, i, n - 1);
        }
        OffsetsAligned(tar, 0, i);
        GoesOnWithin(tar, After(tar, 0, i));
      }
      SubsetSize(Met(tar, n), blocks);
    }
  }

  lemma {:induction false} SubsetSize(a: set<int>, b: set<int>)
    requires a <= b
    ensures |a| <= |b|
  {
    assert b == a + (b - a);
  }

  /**
   * Exactly when the reader terminates: the walk ends if and only if it ends within 2 * (length / 512) + 1 turns,
   * and if and only if it never meets an offset twice.
   */
  lemma HaltsExactly(tar: bytes)
    ensures (exists n: nat :: EndsWithin(tar, n)) <==> Halts(tar)
    ensures Halts(tar) <==> !Revisits(tar)
  {
    hide Ended, Next, After;
    if Revisits(tar) {
      var i: nat, j: nat :| i < j && After(tar, 0, i) == After(tar, 0, j) && !EndsWithin(tar, j);
      forall n: nat
        ensures !EndsWithin(tar, n)
      {
        RevisitRepeats(tar, i, j, n);
      }
    }
    if !Halts(tar) {
      LongWalkRevisits(tar);
    }
  }

  // ---- sizes that send the walk back ----

  /** A header whose walk stays where it is: the reader never gets past it. */
  lemma StaysPut(tar: bytes, n: nat)
    requires !EndsWithin(tar, n) && Advance(SizeOf(HeaderAt(tar, After(tar, 0, n)))) == 0
    ensures forall m: nat :: n <= m ==> After(tar, 0, m) == After(tar, 0, n)
    ensures !Halts(tar)
  {
    hide Ended, SizeOf, Advance;
    forall m: nat | n <= m
      ensures After(tar, 0, m) == After(tar, 0, n)
    {
      AfterAdd(tar, 0, n, m - n);
      Fixed(tar, After(tar, 0, n), m - n);
    }
    assert After(tar, 0, n) == After(tar, 0, n + 1);
    assert Revisits(tar);
    HaltsExactly(tar);
  }

  lemma {:induction false} Fixed(tar: bytes, offset: int, n: nat)
    requires !Ended(tar, offset) && Advance(SizeOf(HeaderAt(tar, offset))) == 0
    ensures After(tar, offset, n) == offset
    decreases n
  {
    if n > 0 {
      Fixed(tar, offset, n - 1);
    }
  }

  /** A header block with this text in its size field. */
  function Sized(text: bytes): (r: bytes)
    requires |text| < 12
    ensures |r| == 512
  {
    Fill(124, 0x61) + text + Fill(388 - |text|, NUL)
  }

  /** Octal 1000 times a digit, with a sign or without: a whole number of blocks. */
  function Blocks512(d: byte): bytes {
    [d, 0x30, 0x30, 0x30]
  }

  lemma SizedAt(tar: bytes, offset: nat, text: bytes)
    requires |text| < 12 && NUL !in text
    requires offset + 512 <= |tar| && tar[offset..offset + 512] == Sized(text)
    ensures !Ended(tar, offset) && SizeOf(HeaderAt(tar, offset)) == ParseInt8(text)
    ensures After(tar, offset, 1) == offset + Advance(ParseInt8(text))
  {
    hide ParseInt8, Advance;
    var h := Sized(text);
    SubArrayIsClip(tar, offset, offset + 512);
    assert HeaderAt(tar, offset) == h && h[0] == 0x61;
    assert Clip(h, 124, 136) == h[124..136] == text + Fill(12 - |text|, NUL);
    UpToNulStops(text, Fill(12 - |text|, NUL));
  }

  lemma BlockSizes(d: byte)
    requires IsDigit(d)
    ensures ParseInt8(Blocks512(d)) == 512 * (d as int - 0x30)
    ensures ParseInt8([MINUS] + Blocks512(d)) == -512 * (d as int - 0x30)
  {
    var s := Blocks512(d);
    LeadingDigitsStop(s, []);
    assert s + [] == s && ([MINUS] + s)[1..] == s;
    assert s[..3] == [d, 0x30, 0x30] && s[..3][..2] == [d, 0x30] && [d, 0x30][..1] == [d];
    assert DigitsValue([d]) == d as int - 0x30;
    assert DigitsValue([d, 0x30]) == 8 * DigitsValue([d]);
    assert DigitsValue(s[..3]) == 64 * DigitsValue([d]);
  }

  /** The reader does not terminate on every input: a first size field of "-1000" holds it at offset 0 forever. */
  lemma NegativeSizeStalls(rest: bytes)
    ensures var tar := Sized([MINUS] + Blocks512(0x31)) + rest;
      !Halts(tar) && forall n: nat :: After(tar, 0, n) == 0
  {
    var tar := Sized([MINUS] + Blocks512(0x31)) + rest;
    BlockSizes(0x31);
    SizedAt(tar, 0, [MINUS] + Blocks512(0x31));
    StaysPut(tar, 0);
  }

  /** "-2000" sends the walk a block back. It loops if that block leads to the same header again ... */
  lemma GoingBackMayLoop(rest: bytes)
    ensures !Halts(Sized(Blocks512(0x30)) + Sized([MINUS] + Blocks512(0x32)) + rest)
  {
    hide Sized, ParseInt8, Ended, After, SizeOf, HeaderAt;
    var first, second := Sized(Blocks512(0x30)), Sized([MINUS] + Blocks512(0x32));
    var tar := first + second + rest;
    BlockSizes(0x30);
    BlockSizes(0x32);
    assert tar[0..512] == first && tar[512..1024] == second;
    SizedAt(tar, 0, Blocks512(0x30));
    SizedAt(tar, 512, [MINUS] + Blocks512(0x32));
    AfterAdd(tar, 0, 1, 1);
    Met0(tar);
    assert Revisits(tar) by {
      assert After(tar, 0, 0) == After(tar, 0, 2);
    }
    HaltsExactly(tar);
  }

  lemma Met0(tar: bytes)
    ensures After(tar, 0, 0) == 0
  {
  }

  /** ... and ends if it is a block of zeros, the data of the member before. */
  lemma GoingBackMayEnd(rest: bytes)
    ensures Halts(Sized(Blocks512(0x31)) + Fill(512, NUL) + Sized([MINUS] + Blocks512(0x32)) + rest)
  {
    hide Sized, ParseInt8, After, SizeOf, HeaderAt, Ended;
    var first, second := Sized(Blocks512(0x31)), Sized([MINUS] + Blocks512(0x32));
    var tar := first + Fill(512, NUL) + second + rest;
    BlockSizes(0x31);
    BlockSizes(0x32);
    assert tar[0..512] == first && tar[512..1024] == Fill(512, NUL) && tar[1024..1536] == second;
    SizedAt(tar, 0, Blocks512(0x31));
    SizedAt(tar, 1024, [MINUS] + Blocks512(0x32));
    AfterAdd(tar, 0, 1, 1);
    ZerosAt(tar, 512);
    assert EndsWithin(tar, 2);
    HaltsExactly(tar);
  }

  lemma ZerosAt(tar: bytes, offset: nat)
    requires offset + 512 <= |tar| && tar[offset..offset + 512] == Fill(512, NUL)
    ensures Ended(tar, offset)
  {
    SubArrayIsClip(tar, offset, offset + 512);
  }

  // ---- what the walk yields ----

  predicate IsPax(typeflag: byte) {
    typeflag == TYPE_PAX || typeflag == TYPE_PAX_GLOBAL
  }

  function LongNameOr(longName: Option<bytes>, h: bytes): bytes {
    CleanPath(if longName.Some? then longName.value else EntryName(h))
  }

  /** All entries that are not extension headers, in the first n turns. A GNU long name applies to the next such entry. */
  function Walk(tar: bytes, offset: int, longName: Option<bytes>, n: nat): seq<Member>
    decreases n
  {
    if n == 0 || Ended(tar, offset) then []
    else
      var h := HeaderAt(tar, offset);
      var data := SubArray(tar, offset + 512, offset + 512 + SizeOf(h));
      if TypeOf(h) == TYPE_LONG_NAME then Walk(tar, Next(tar, offset), Some(StripTrailing(data, NUL)), n - 1)
      else if IsPax(TypeOf(h)) then Walk(tar, Next(tar, offset), longName, n - 1)
      else [Member(h, LongNameOr(longName, h), data)] + Walk(tar, Next(tar, offset), None, n - 1)
  }

  /** What the reader lists; all there is, if its walk ends. */
  function Listed(tar: bytes): seq<Member> {
    Walk(tar, 0, None, Turns(tar))
  }

  function Resolve(tar: bytes, e: RawEntry): Member {
    Member(SubArray(tar, e.dataStart - 512, e.dataStart), e.path, SubArray(tar, e.dataStart, e.dataStart + e.size))
  }

  /** The raw entries point at these members. */
  ghost predicate Points(tar: bytes, es: seq<RawEntry>, ms: seq<Member>) {
    && |es| == |ms|
    && forall i :: 0 <= i < |es| ==> Resolve(tar, es[i]) == ms[i] && es[i].typeflag == TypeOf(ms[i].header)
  }

  /** The loop body of the generator, from a header block that is not all zero. */
  method NextHeader(tar: bytes, offset: int, longName: Option<bytes>, ghost n: nat)
    returns (next: int, nextName: Option<bytes>, yielded: Option<RawEntry>)
    requires !Ended(tar, offset) && n > 0
    ensures next == Next(tar, offset)
    ensures yielded.None? ==> Walk(tar, offset, longName, n) == Walk(tar, next, nextName, n - 1)
    ensures yielded.Some? ==>
      var m := Resolve(tar, yielded.value);
      yielded.value.typeflag == TypeOf(m.header) && Walk(tar, offset, longName, n) == [m] + Walk(tar, next, nextName, n - 1)
  {
    hide Ended, LongNameOr, SizeOf, Advance, StripTrailing, IsPax, SubArray;
    var header := HeaderAt(tar, offset);
    var size := SizeOf(header);
    var typeflag := TypeOf(header);
    var dataStart := offset + 512;
    next := offset + Advance(size);
    if typeflag == TYPE_LONG_NAME {
      return next, Some(StripTrailing(SubArray(tar, dataStart, dataStart + size), NUL)), None;
    }
    if IsPax(typeflag) {
      return next, longName, None;
    }
    var path := LongNameOr(longName, header);
    return next, None, Some(RawEntry(path, size, typeflag, dataStart));
  }

  lemma WalkEnds(tar: bytes, offset: int, longName: Option<bytes>, n: nat)
    ensures Ended(tar, offset) ==> Walk(tar, offset, longName, n) == []
    ensures Ended(tar, After(tar, offset, n)) && !Ended(tar, offset) ==>
      n > 0 && Ended(tar, After(tar, Next(tar, offset), n - 1))
  {
  }

  lemma PointsAppend(tar: bytes, es: seq<RawEntry>, ms: seq<Member>, e: RawEntry)
    requires Points(tar, es, ms) && e.typeflag == TypeOf(Resolve(tar, e).header)
    ensures Points(tar, es + [e], ms + [Resolve(tar, e)])
  {
    hide TypeOf, SubArray;
  }

  lemma PointsNothing(tar: bytes)
    ensures Points(tar, [], [])
  {
  }

  /** The generator, run to its end, on every input on which it ends. */
  method IterateTar(tar: bytes) returns (out: seq<RawEntry>)
    requires Halts(tar)
    ensures Points(tar, out, Listed(tar))
  {
    hide IsZero, Resolve, HeaderAt, Next, Walk, After, Points, TypeOf;
    PointsNothing(tar);
    out := [];
    var offset := 0;
    var longName: Option<bytes> := None;
    ghost var seen: seq<Member> := [];
    ghost var n := Turns(tar);
    while offset + 512 <= |tar|
      invariant Ended(tar, After(tar, offset, n))
      invariant seen + Walk(tar, offset, longName, n) == Listed(tar)
      invariant Points(tar, out, seen)
      decreases n
    {
      WalkEnds(tar, offset, longName, n);
      if IsZero(HeaderAt(tar, offset)) {
        break;
      }
      var yielded: Option<RawEntry>;
      offset, longName, yielded := NextHeader(tar, offset, longName, n);
      n := n - 1;
      if yielded.Some? {
        PointsAppend(tar, out, seen, yielded.value);
        out := out + [yielded.value];
        seen := seen + [Resolve(tar, yielded.value)];
      }
    }
    WalkEnds(tar, offset, longName, n);
    assert seen + [] == seen;
  }

  // ---- archives read from the front ----

  /** Fewer than 512 bytes left, or a block of zeros. */
  predicate AtEnd(t: bytes) {
    |t| < 512 || IsZero(t[..512])
  }

  /** Every header the walk reaches moves it forward. Sizes that are not negative always do. */
  predicate Advancing(t: bytes)
    decreases |t|
  {
    AtEnd(t) || (SizeOf(t[..512]) > -512 && Advancing(DropUpTo(t, Advance(SizeOf(t[..512])))))
  }

  function Members(t: bytes, longName: Option<bytes>): seq<Member>
    requires Advancing(t)
    decreases |t|
  {
    if AtEnd(t) then []
    else
      var h := t[..512];
      var data := Clip(t, 512, 512 + SizeOf(h));
      var rest := DropUpTo(t, Advance(SizeOf(h)));
      if TypeOf(h) == TYPE_LONG_NAME then Members(rest, Some(StripTrailing(data, NUL)))
      else if IsPax(TypeOf(h)) then Members(rest, longName)
      else [Member(h, LongNameOr(longName, h), data)] + Members(rest, None)
  }

  lemma DropTwice(s: bytes, m: nat, n: nat)
    ensures DropUpTo(DropUpTo(s, m), n) == DropUpTo(s, m + n)
  {
  }

  lemma ClipDropped(s: bytes, m: nat, lo: nat, hi: nat)
    requires m <= |s|
    ensures Clip(DropUpTo(s, m), lo, hi) == SubArray(s, m + lo, m + hi)
  {
    SubArrayIsClip(s, m + lo, m + hi);
    if lo < |s| - m && lo < hi {
      if hi <= |s| - m {
        assert s[m..][lo..hi] == s[m + lo..m + hi];
      } else {
        assert s[m..][lo..] == s[m + lo..];
      }
    }
  }

  lemma FrontAt(tar: bytes, offset: nat)
    ensures AtEnd(DropUpTo(tar, offset)) <==> Ended(tar, offset)
    ensures offset + 512 <= |tar| ==> DropUpTo(tar, offset)[..512] == HeaderAt(tar, offset)
  {
    SubArrayIsClip(tar, offset, offset + 512);
    if offset + 512 <= |tar| {
      assert DropUpTo(tar, offset)[..512] == tar[offset..offset + 512];
    }
  }

  /** From any offset of an archive that advances there, the walk ends and yields what is read from the front. */
  lemma {:induction false} WalkAdvances(tar: bytes, offset: nat, longName: Option<bytes>, n: nat)
    requires Advancing(DropUpTo(tar, offset)) && 512 * n + 512 > |tar| - offset
    ensures Ended(tar, After(tar, offset, n))
    ensures Walk(tar, offset, longName, n) == Members(DropUpTo(tar, offset), longName)
    decreases n
  {
    hide SizeOf, LongNameOr, IsPax, StripTrailing, HeaderAt, Ended, AtEnd, Clip, SubArray, DropUpTo;
    FrontAt(tar, offset);
    TooShort(tar, offset);
    if !Ended(tar, offset) {
      var h := HeaderAt(tar, offset);
      var t, size := DropUpTo(tar, offset), SizeOf(h);
      AdvanceSign(size);
      DropTwice(tar, offset, Advance(size));
      ClipDropped(tar, offset, 512, 512 + size);
      WalkAdvances(tar, offset + Advance(size), None, n - 1);
      WalkAdvances(tar, offset + Advance(size), longName, n - 1);
      WalkAdvances(tar, offset + Advance(size), Some(StripTrailing(Clip(t, 512, 512 + size), NUL)), n - 1);
    }
  }

  lemma TooShort(tar: bytes, offset: nat)
    ensures !Ended(tar, offset) ==> offset + 512 <= |tar|
  {
  }

  /** An archive that only advances is walked to its end, and listed as it reads from the front. */
  lemma AdvancingHalts(tar: bytes)
    requires Advancing(tar)
    ensures Halts(tar) && Listed(tar) == Members(tar, None)
  {
    hide Advancing, Members, Walk, After, Ended;
    assert DropUpTo(tar, 0) == tar;
    WalkAdvances(tar, 0, None, Turns(tar));
  }

  // ---- consumers ----

  predicate IsRegular(typeflag: byte) {
    typeflag == TYPE_FILE || typeflag == NUL
  }

  /** What full extraction makes of one member: links, special files and unsafe or empty paths are dropped. */
  function Kept(m: Member): Option<PackFile> {
    if m.path == [] || HasDotDot(m.path) then None
    else
      var isDir := TypeOf(m.header) == TYPE_DIR || EndsWithSlash(m.path);
      if !isDir && !IsRegular(TypeOf(m.header)) then None
      else Some(PackFile(StripTrailing(m.path, SLASH), if isDir then [] else m.data, isDir, ModeOf(m.header)))
  }

  function KeepAll(ms: seq<Member>): seq<PackFile> {
    if ms == [] then []
    else
      var rest := KeepAll(ms[1..]);
      if Kept(ms[0]).Some? then [Kept(ms[0]).value] + rest else rest
  }

  function ExtractTar(tar: bytes): seq<PackFile> {
    KeepAll(Listed(tar))
  }

  lemma {:induction false} KeepAllAppend(ms: seq<Member>, m: Member)
    ensures KeepAll(ms + [m]) == KeepAll(ms) + if Kept(m).Some? then [Kept(m).value] else []
  {
    hide Kept;
    if ms == [] {
      assert ms + [m] == [m] && [m][1..] == [];
    } else {
      assert (ms + [m])[1..] == ms[1..] + [m];
      KeepAllAppend(ms[1..], m);
    }
  }

  /** gunzip refuses first; what it accepts must be an archive on which the walk ends. */
  predicate Walkable(tar: bytes) {
    |tar| <= MAX_UNPACKED_BYTES ==> Halts(tar)
  }

  /** `extractTgzEntries`, from the bytes gunzip would give. */
  method ExtractTgzEntries(tar: bytes) returns (r: Result<seq<PackFile>, ReadError>)
    requires Walkable(tar)
    ensures r == if |tar| > 134217728 then Failure(UnpackedTooLarge) else Success(ExtractTar(tar))
  {
    hide Halts, Listed, HasDotDot, StripTrailing, ModeOf, Kept, SubArray;
    if |tar| > MAX_UNPACKED_BYTES {
      return Failure(UnpackedTooLarge);
    }
    ghost var ms := Listed(tar);
    var entries := IterateTar(tar);
    var out: seq<PackFile> := [];
    for i := 0 to |entries|
      invariant out == KeepAll(ms[..i])
    {
      assert ms[..i + 1] == ms[..i] + [ms[i]];
      KeepAllAppend(ms[..i], ms[i]);
      var kept := KeepEntry(tar, entries[i]);
      if kept.Some? {
        out := out + [kept.value];
      }
    }
    assert ms[..|entries|] == ms;
    r := Success(out);
  }

  /** The body of the extraction loop, for one raw entry. */
  method KeepEntry(tar: bytes, e: RawEntry) returns (r: Option<PackFile>)
    requires e.typeflag == TypeOf(Resolve(tar, e).header)
    ensures r == Kept(Resolve(tar, e))
  {
    hide HasDotDot, StripTrailing, SubArray, TypeOf, Clip, ParseField, EndsWithSlash;
    if e.path == [] || HasDotDot(e.path) {
      return None;
    }
    var isDir := e.typeflag == TYPE_DIR || EndsWithSlash(e.path);
    if !isDir && !IsRegular(e.typeflag) {
      return None;
    }
    var header := SubArray(tar, e.dataStart - 512, e.dataStart);
    var data := if isDir then [] else SubArray(tar, e.dataStart, e.dataStart + e.size);
    r := Some(PackFile(StripTrailing(e.path, SLASH), data, isDir, ParseField(Clip(header, 100, 108)) % 4096));
  }

  // ---- reading a single file ----

  function FirstRegular(ms: seq<Member>, path: bytes): Option<bytes> {
    if ms == [] then None
    else if IsRegular(TypeOf(ms[0].header)) && ms[0].path == path then Some(ms[0].data)
    else FirstRegular(ms[1..], path)
  }

  /** `readTgzEntry`, from the bytes gunzip would give. */
  method ReadTgzEntry(tar: bytes, path: bytes) returns (r: Result<Option<bytes>, ReadError>)
    requires Walkable(tar)
    ensures r == if |tar| > 134217728 then Failure(UnpackedTooLarge)
      else Success(FirstRegular(Listed(tar), path))
  {
    hide Halts, Listed, SubArray;
    if |tar| > MAX_UNPACKED_BYTES {
      return Failure(UnpackedTooLarge);
    }
    ghost var ms := Listed(tar);
    var entries := IterateTar(tar);
    for i := 0 to |entries|
      invariant FirstRegular(ms[i..], path) == FirstRegular(ms, path)
    {
      var e := entries[i];
      assert ms[i..][0] == Resolve(tar, e) && ms[i..][1..] == ms[i + 1..];
      if IsRegular(e.typeflag) && e.path == path {
        return Success(Some(SubArray(tar, e.dataStart, e.dataStart + e.size)));
      }
    }
    assert ms[|entries|..] == [];
    r := Success(None);
  }

  /** The first extracted file (not directory) with this path. */
  function FirstFile(files: seq<PackFile>, path: bytes): Option<bytes> {
    if files == [] then None
    else if !files[0].isDir && files[0].path == path then Some(files[0].data)
    else FirstFile(files[1..], path)
  }

  predicate Servable(path: bytes) {
    path != [] && !HasDotDot(path) && !EndsWithSlash(path)
  }

  lemma KeptAt(m: Member, path: bytes)
    ensures var k := Kept(m);
      (k.Some? && !k.value.isDir && k.value.path == path) <==>
      (IsRegular(TypeOf(m.header)) && m.path == path && Servable(path))
    ensures Kept(m).Some? && !Kept(m).value.isDir ==> Kept(m).value.data == m.data
  {
    hide HasDotDot, ModeOf;
    var stripped := StripTrailing(m.path, SLASH);
    if !EndsWithSlash(m.path) {
      assert stripped == m.path;
    }
  }

  /** Reading one file agrees with extracting everything; for every other path extraction has no file at all. */
  lemma {:induction false} ReadAgreesWithExtract(ms: seq<Member>, path: bytes)
    ensures FirstFile(KeepAll(ms), path) == if Servable(path) then FirstRegular(ms, path) else None
  {
    hide Kept, HasDotDot;
    if ms != [] {
      KeptAt(ms[0], path);
      ReadAgreesWithExtract(ms[1..], path);
      var rest := KeepAll(ms[1..]);
      if Kept(ms[0]).Some? {
        var k := Kept(ms[0]).value;
        assert ([k] + rest)[1..] == rest;
      }
    }
  }
}
