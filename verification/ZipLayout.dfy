/**
 * ZIP archives as PKWARE's APPNOTE.TXT lays them out (sections 4.3.7, 4.3.12 and 4.3.16),
 * and the proof that the reader returns exactly the listed entries.
 */
module ZipLayout {
  import opened Wrappers
  import opened Bytes
  import opened TarPack
  import opened ZipExtract

  /** One entry. `stamp` is modification time, date and CRC-32; `disk` is disk number and internal
      attributes; `localFixed` is bytes 4 to 26 of the local header, which the reader never looks at.
      The name and extra field of the local header may differ from the central ones. */
  datatype ZipMember = ZipMember(
    name: bytes, data: bytes, payload: bytes, compression: nat, flags: nat, madeBy: nat, attrs: nat,
    extra: bytes, comment: bytes, needed: bytes, stamp: bytes, disk: bytes,
    localFixed: bytes, localName: bytes, localExtra: bytes)

  /** A member and the position of its local record. */
  datatype Placed = Placed(m: ZipMember, at: nat)

  predicate Encodes(m: ZipMember, inflate: Inflate) {
    (m.compression == 0 && m.payload == m.data) ||
    (m.compression == 8 && inflate(m.payload) == Some(m.data))
  }

  /** The fields fit their widths and the entry is not encrypted. */
  predicate Fits(m: ZipMember) {
    && m.flags < 0x1_0000 && m.flags % 2 == 0 && m.compression < 0x1_0000 && m.madeBy < 0x1_0000
    && m.attrs < 0x1_0000_0000 && |m.payload| < 0x1_0000_0000 && |m.data| < 0x1_0000_0000
    && |m.name| < 0x1_0000 && |m.extra| < 0x1_0000 && |m.comment| < 0x1_0000
    && |m.localName| < 0x1_0000 && |m.localExtra| < 0x1_0000
    && |m.needed| == 2 && |m.stamp| == 8 && |m.disk| == 4 && |m.localFixed| == 22
  }

  function LE16(v: nat): (r: bytes)
    ensures |r| == 2
  {
    [v % 256, v / 256 % 256]
  }

  function LE32(v: nat): (r: bytes)
    ensures |r| == 4
  {
    LE16(v % 0x1_0000) + LE16(v / 0x1_0000)
  }

  /** APPNOTE 4.3.7, with the file data. */
  function LocalRecord(m: ZipMember): bytes {
    [0x50, 0x4b, 0x03, 0x04] + m.localFixed + LE16(|m.localName|) + LE16(|m.localExtra|)
    + m.localName + m.localExtra + m.payload
  }

  /** APPNOTE 4.3.12: versions, flags, method, stamp, sizes and lengths; then the rest. */
  function CentralRecord(p: Placed): bytes {
    CentralFront(p.m) + CentralBack(p)
  }

  function CentralFront(m: ZipMember): bytes {
    [0x50, 0x4b, 0x01, 0x02] + LE16(m.madeBy) + m.needed + LE16(m.flags) + LE16(m.compression) + m.stamp
    + LE32(|m.payload|) + LE32(|m.data|) + LE16(|m.name|) + LE16(|m.extra|) + LE16(|m.comment|)
  }

  function CentralBack(p: Placed): bytes {
    p.m.disk + LE32(p.m.attrs) + LE32(p.at) + p.m.name + p.m.extra + p.m.comment
  }

  function CentralDirectory(ps: seq<Placed>): bytes {
    if ps == [] then [] else CentralRecord(ps[0]) + CentralDirectory(ps[1..])
  }

  /** APPNOTE 4.3.16. */
  function EndRecord(count: nat, cdSize: nat, cdOffset: nat, disks: bytes, comment: bytes): bytes {
    [0x50, 0x4b, 0x05, 0x06] + disks + LE16(count) + LE16(count) + LE32(cdSize) + LE32(cdOffset)
    + LE16(|comment|) + comment
  }

  /** The local record stands in the part of the archive before the central directory. */
  predicate StandsIn(body: bytes, p: Placed) {
    p.at + |LocalRecord(p.m)| <= |body| && body[p.at..p.at + |LocalRecord(p.m)|] == LocalRecord(p.m)
  }

  function Archive(body: bytes, ps: seq<Placed>, disks: bytes, comment: bytes): bytes {
    var cd := CentralDirectory(ps);
    body + cd + EndRecord(|ps|, |cd|, |body|, disks, comment)
  }

  function Unpacked(ps: seq<Placed>): nat {
    if ps == [] then 0 else |ps[0].m.data| + Unpacked(ps[1..])
  }

  /** What an entry should come out as. */
  function Expected(m: ZipMember): PackFile {
    var isDir := IsDirEntry(m.name, m.attrs);
    PackFile(StripTrailing(m.name, SLASH), if isDir then [] else m.data, isDir, UnixMode(m.madeBy, m.attrs))
  }

  function ExpectedAll(ps: seq<Placed>): (r: seq<PackFile>)
    ensures |r| == |ps| && forall i :: 0 <= i < |ps| ==> r[i] == Expected(ps[i].m)
  {
    if ps == [] then [] else [Expected(ps[0].m)] + ExpectedAll(ps[1..])
  }

  // ---- little-endian fields ----

  lemma LE16RoundTrip(v: nat)
    requires v < 0x1_0000
    ensures U16(LE16(v), 0) == v
  {
  }

  lemma LE32RoundTrip(v: nat)
    requires v < 0x1_0000_0000
    ensures U32(LE32(v), 0) == v
  {
    var lo, hi := v % 0x1_0000, v / 0x1_0000;
    assert hi < 0x1_0000;
    LE16RoundTrip(lo);
    LE16RoundTrip(hi);
    assert LE32(v)[..2] == LE16(lo) && LE32(v)[2..] == LE16(hi);
  }

  lemma Signatures()
    ensures LE32(SIG_LOCAL) == [0x50, 0x4b, 0x03, 0x04]
    ensures LE32(SIG_CENTRAL) == [0x50, 0x4b, 0x01, 0x02]
    ensures LE32(SIG_EOCD) == [0x50, 0x4b, 0x05, 0x06]
  {
  }

  /** `rec` stands in `zip` at `off`. */
  ghost predicate At(zip: bytes, off: nat, rec: bytes) {
    off + |rec| <= |zip| && zip[off..off + |rec|] == rec
  }

  lemma U16In(zip: bytes, off: nat, rec: bytes, k: nat, v: nat)
    requires At(zip, off, rec) && k + 2 <= |rec| && rec[k..k + 2] == LE16(v) && v < 0x1_0000
    ensures U16(zip, off + k) == v
  {
    LE16RoundTrip(v);
    assert zip[off + k] == rec[k] == rec[k..k + 2][0];
    assert zip[off + k + 1] == rec[k + 1] == rec[k..k + 2][1];
  }

  lemma U32In(zip: bytes, off: nat, rec: bytes, k: nat, v: nat)
    requires At(zip, off, rec) && k + 4 <= |rec| && rec[k..k + 4] == LE32(v) && v < 0x1_0000_0000
    ensures U32(zip, off + k) == v
  {
    LE32RoundTrip(v);
    forall i | 0 <= i < 4
      ensures zip[off + k + i] == LE32(v)[i]
    {
      assert zip[off + k + i] == rec[k + i] == rec[k..k + 4][i];
    }
  }

  // ---- records ----

  lemma CentralFrontShape(m: ZipMember)
    requires Fits(m)
    ensures var c := CentralFront(m);
      && |c| == 34
      && c[0..4] == [0x50, 0x4b, 0x01, 0x02] && c[4..6] == LE16(m.madeBy) && c[8..10] == LE16(m.flags)
      && c[10..12] == LE16(m.compression) && c[20..24] == LE32(|m.payload|) && c[24..28] == LE32(|m.data|)
      && c[28..30] == LE16(|m.name|) && c[30..32] == LE16(|m.extra|) && c[32..34] == LE16(|m.comment|)
  {
    hide LE16, LE32;
  }

  lemma CentralBackShape(p: Placed)
    requires Fits(p.m)
    ensures var c, m := CentralBack(p), p.m;
      && |c| == 12 + |m.name| + |m.extra| + |m.comment|
      && c[4..8] == LE32(m.attrs) && c[8..12] == LE32(p.at) && c[12..12 + |m.name|] == m.name
  {
    hide LE16, LE32;
  }

  lemma LocalShape(m: ZipMember)
    requires Fits(m)
    ensures var l, start := LocalRecord(m), 30 + |m.localName| + |m.localExtra|;
      && |l| == start + |m.payload|
      && l[0..4] == [0x50, 0x4b, 0x03, 0x04] && l[26..28] == LE16(|m.localName|) && l[28..30] == LE16(|m.localExtra|)
      && l[start..start + |m.payload|] == m.payload
  {
    hide LE16, LE32;
  }

  lemma EndShape(count: nat, cdSize: nat, cdOffset: nat, disks: bytes, comment: bytes)
    requires |disks| == 4
    ensures var e := EndRecord(count, cdSize, cdOffset, disks, comment);
      |e| == 22 + |comment| && e[0..4] == [0x50, 0x4b, 0x05, 0x06] && e[10..12] == LE16(count) && e[16..20] == LE32(cdOffset)
  {
    hide LE16, LE32;
  }

  lemma CentralFields(zip: bytes, off: nat, p: Placed)
    requires Fits(p.m) && p.at < 0x1_0000_0000 && At(zip, off, CentralRecord(p))
    ensures CentralAt(zip, off) && NextCentral(zip, off) == off + |CentralRecord(p)|
    ensures U16(zip, off + 4) == p.m.madeBy && U16(zip, off + 8) == p.m.flags
    ensures U16(zip, off + 10) == p.m.compression && U32(zip, off + 20) == |p.m.payload|
    ensures U32(zip, off + 24) == |p.m.data| && U32(zip, off + 38) == p.m.attrs && U32(zip, off + 42) == p.at
    ensures CentralName(zip, off) == p.m.name
  {
    hide LE16, LE32, U16, U32, CentralFront, CentralBack, At, Clip;
    CentralFrontShape(p.m);
    CentralBackShape(p);
    AtSplit(zip, off, CentralFront(p.m), CentralBack(p));
    FrontFields(zip, off, p.m);
    var c := CentralBack(p);
    U32In(zip, off + 34, c, 4, p.m.attrs);
    U32In(zip, off + 34, c, 8, p.at);
    ClipIn(zip, off + 34, c, 12, p.m.name);
    assert off + 34 + |c| <= |zip| by {
      AtFits(zip, off + 34, c);
    }
  }

  lemma AtFits(zip: bytes, off: nat, rec: bytes)
    requires At(zip, off, rec)
    ensures off + |rec| <= |zip|
  {
  }

  lemma FrontFields(zip: bytes, off: nat, m: ZipMember)
    requires Fits(m) && At(zip, off, CentralFront(m)) && |CentralFront(m)| == 34
    ensures U32(zip, off) == SIG_CENTRAL
    ensures U16(zip, off + 4) == m.madeBy && U16(zip, off + 8) == m.flags
    ensures U16(zip, off + 10) == m.compression && U32(zip, off + 20) == |m.payload|
    ensures U32(zip, off + 24) == |m.data|
    ensures U16(zip, off + 28) == |m.name| && U16(zip, off + 30) == |m.extra| && U16(zip, off + 32) == |m.comment|
  {
    hide LE16, LE32, U16, U32, CentralFront;
    CentralFrontShape(m);
    var c := CentralFront(m);
    Signatures();
    U32In(zip, off, c, 0, SIG_CENTRAL);
    U16In(zip, off, c, 4, m.madeBy);
    U16In(zip, off, c, 8, m.flags);
    U16In(zip, off, c, 10, m.compression);
    U32In(zip, off, c, 20, |m.payload|);
    U32In(zip, off, c, 24, |m.data|);
    U16In(zip, off, c, 28, |m.name|);
    U16In(zip, off, c, 30, |m.extra|);
    U16In(zip, off, c, 32, |m.comment|);
  }

  lemma ClipIn(zip: bytes, off: nat, rec: bytes, k: nat, s: bytes)
    requires At(zip, off, rec) && k + |s| <= |rec| && rec[k..k + |s|] == s
    ensures Clip(zip, off + k, off + k + |s|) == s
  {
    forall i | 0 <= i < |s|
      ensures zip[off + k + i] == s[i]
    {
      assert zip[off + k + i] == rec[k + i] == rec[k..k + |s|][i];
    }
    assert zip[off + k..off + k + |s|] == s;
  }

  lemma LocalFields(zip: bytes, m: ZipMember, at: nat)
    requires Fits(m) && At(zip, at, LocalRecord(m))
    ensures LocalAt(zip, at) && LocalData(zip, at, |m.payload|) == m.payload
  {
    hide LE16, LE32, U16, U32, LocalRecord, Clip;
    LocalShape(m);
    var l := LocalRecord(m);
    Signatures();
    U32In(zip, at, l, 0, SIG_LOCAL);
    U16In(zip, at, l, 26, |m.localName|);
    U16In(zip, at, l, 28, |m.localExtra|);
    ClipIn(zip, at, l, 30 + |m.localName| + |m.localExtra|, m.payload);
  }

  lemma EntryReads(zip: bytes, off: nat, p: Placed, unpacked: nat, inflate: Inflate)
    requires Fits(p.m) && Encodes(p.m, inflate) && p.at < 0x1_0000_0000
    requires At(zip, off, CentralRecord(p)) && At(zip, p.at, LocalRecord(p.m))
    requires unpacked + |p.m.data| <= MAX_TOTAL_UNPACKED
    ensures EntryAt(zip, off, unpacked, inflate) == Success(Expected(p.m))
  {
    hide LE16, LE32, U16, U32, CentralRecord, LocalRecord, At, LocalAt, CentralAt, LocalData, CentralName,
         StripTrailing, IsDirEntry, UnixMode;
    CentralFields(zip, off, p);
    LocalFields(zip, p.m, p.at);
  }

  // ---- the central directory and the archive ----

  ghost predicate Readable(zip: bytes, ps: seq<Placed>, inflate: Inflate) {
    forall p :: p in ps ==>
      Fits(p.m) && Encodes(p.m, inflate) && p.at < 0x1_0000_0000 && At(zip, p.at, LocalRecord(p.m))
  }

  lemma {:induction false} EntriesRead(zip: bytes, off: nat, ps: seq<Placed>, unpacked: nat, inflate: Inflate)
    requires At(zip, off, CentralDirectory(ps)) && Readable(zip, ps, inflate)
    requires unpacked + Unpacked(ps) <= MAX_TOTAL_UNPACKED
    ensures Entries(zip, off, |ps|, unpacked, inflate) == Success(ExpectedAll(ps))
    decreases |ps|
  {
    hide CentralRecord, LocalRecord, EntryAt, Expected, Fits, Encodes, U16, U32, NextCentral, CentralAt;
    if ps != [] {
      var p, c, rest := ps[0], CentralRecord(ps[0]), CentralDirectory(ps[1..]);
      assert CentralDirectory(ps) == c + rest;
      AtSplit(zip, off, c, rest);
      EntryReads(zip, off, p, unpacked, inflate);
      CentralFields(zip, off, p);
      EntriesRead(zip, off + |c|, ps[1..], unpacked + |p.m.data|, inflate);
    }
  }

  lemma AtSplit(zip: bytes, off: nat, a: bytes, b: bytes)
    requires At(zip, off, a + b)
    ensures At(zip, off, a) && At(zip, off + |a|, b)
  {
    var r := zip[off..off + |a + b|];
    assert zip[off..off + |a|] == r[..|a|] == a;
    assert zip[off + |a|..off + |a| + |b|] == r[|a|..] == b;
  }

  /** No end-of-directory signature after the real one: a comment could otherwise imitate it. */
  ghost predicate LastEocd(zip: bytes, at: nat) {
    forall i :: at < i ==> !EocdAt(zip, i)
  }

  lemma EndFound(zip: bytes, at: nat, e: bytes, count: nat, cdSize: nat, cdOffset: nat, disks: bytes, comment: bytes)
    requires |disks| == 4 && |comment| < 0x1_0000 && count < 0x1_0000 && cdOffset < 0x1_0000_0000
    requires e == EndRecord(count, cdSize, cdOffset, disks, comment)
    requires At(zip, at, e) && |zip| == at + |e| && LastEocd(zip, at)
    ensures |e| == 22 + |comment|
    ensures Eocd(zip) == Some(at) && U16(zip, at + 10) == count && U32(zip, at + 16) == cdOffset
  {
    hide LE16, LE32, U16, U32, EndRecord;
    EndShape(count, cdSize, cdOffset, disks, comment);
    Signatures();
    U32In(zip, at, e, 0, SIG_EOCD);
    U16In(zip, at, e, 10, count);
    U32In(zip, at, e, 16, cdOffset);
    assert EocdAt(zip, at);
    var r := Eocd(zip);
    assert r.Some? && !(r.value < at);
  }

  /** Without an archive comment there is nothing after the end record that could hold a signature. */
  lemma NoCommentIsLast(body: bytes, ps: seq<Placed>, disks: bytes)
    requires |disks| == 4
    ensures LastEocd(Archive(body, ps, disks, []), |body| + |CentralDirectory(ps)|)
  {
    hide CentralDirectory, EndRecord, U32;
    EndShape(|ps|, |CentralDirectory(ps)|, |body|, disks, []);
  }

  /**
   * ZIP reader correctness. `body` holds the local records, in any order, with anything between them;
   * the central directory lists them. Within the limits of the reader, extraction returns exactly the
   * listed entries, in central-directory order.
   */
  lemma ZipReads(body: bytes, ps: seq<Placed>, disks: bytes, comment: bytes, inflate: Inflate)
    requires |ps| <= 2000 && Unpacked(ps) <= 134217728 && |body| < 0xffffffff
    requires |disks| == 4 && |comment| < 0x1_0000
    requires forall p :: p in ps ==> Fits(p.m) && Encodes(p.m, inflate) && StandsIn(body, p)
    requires LastEocd(Archive(body, ps, disks, comment), |body| + |CentralDirectory(ps)|)
    ensures ExtractZip(Archive(body, ps, disks, comment), inflate) == Success(ExpectedAll(ps))
  {
    hide CentralDirectory, LocalRecord, EndRecord, Entries, Eocd, U16, U32, Fits, Encodes, ExpectedAll, LastEocd, At,
         StandsIn;
    var zip, cd := Archive(body, ps, disks, comment), CentralDirectory(ps);
    var e := EndRecord(|ps|, |cd|, |body|, disks, comment);
    PartsStand(body, cd, e);
    EndFound(zip, |body| + |cd|, e, |ps|, |cd|, |body|, disks, comment);
    forall p | p in ps
      ensures p.at < 0x1_0000_0000 && At(zip, p.at, LocalRecord(p.m))
    {
      LocalStands(body, cd + e, p);
      assert body + (cd + e) == zip;
    }
    EntriesRead(zip, |body|, ps, 0, inflate);
  }

  lemma PartsStand(body: bytes, cd: bytes, e: bytes)
    ensures At(body + cd + e, |body|, cd) && At(body + cd + e, |body| + |cd|, e)
  {
  }

  lemma LocalStands(body: bytes, rest: bytes, p: Placed)
    requires StandsIn(body, p)
    ensures p.at <= |body| && At(body + rest, p.at, LocalRecord(p.m))
  {
    hide LocalRecord;
    var n := |LocalRecord(p.m)|;
    assert (body + rest)[p.at..p.at + n] == body[p.at..p.at + n];
  }
}
