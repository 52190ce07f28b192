/** What the ZIP reader returns and refuses, told by bytes, bits and numbers alone. */
module ZipContract {
  import opened Wrappers
  import opened Bytes
  import opened Octal
  import opened Paths
  import opened TarPack
  import opened ZipExtract
  import opened ZipLayout

  // ---- one listed entry ----

  /** Kind, path, data and mode of what a listed member comes out as. */
  ghost predicate ComesOutAs(m: ZipMember, g: PackFile) {
    && (g.isDir <==> (m.name != [] && m.name[|m.name| - 1] == 0x2f) || 0x4000_0000 <= m.attrs < 0x5000_0000)
    && g.data == (if g.isDir then [] else m.data)
    && g.path <= m.name && (g.path == [] || g.path[|g.path| - 1] != 0x2f)
    && (forall i :: |g.path| <= i < |m.name| ==> m.name[i] == 0x2f)
    && (forall j: nat :: Bit(g.mode, j) <==> j < 12 && 0x300 <= m.madeBy < 0x400 && Bit(m.attrs, 16 + j))
  }

  lemma UnixModeBits(madeBy: nat, attrs: nat, j: nat)
    ensures Bit(UnixMode(madeBy, attrs), j) <==> j < 12 && 0x300 <= madeBy < 0x400 && Bit(attrs, 16 + j)
  {
    hide Bit;
    Powers16();
    if madeBy / 256 == 3 {
      LowBits(attrs / 0x1_0000, 12, j);
      BitUp(attrs, 16, j);
    } else {
      ZeroBits(j);
    }
  }

  lemma Powers16()
    ensures Pow2(12) == 4096 && Pow2(16) == 0x1_0000
  {
    assert Pow2(6) == 64;
    assert Pow2(12) == 4096;
  }

  lemma ExpectedIs(m: ZipMember)
    ensures ComesOutAs(m, Expected(m))
  {
    hide UnixMode, Bit;
    forall j: nat
      ensures Bit(Expected(m).mode, j) <==> j < 12 && 0x300 <= m.madeBy < 0x400 && Bit(m.attrs, 16 + j)
    {
      UnixModeBits(m.madeBy, m.attrs, j);
    }
  }

  /**
   * ZIP reader correctness, entry by entry: of every archive laid out per APPNOTE within the limits, the i-th entry
   * is a directory exactly if its name ends with a slash or its external attributes say so; else its data is the data
   * listed. Its mode is the low twelve bits of the upper half of the attributes, if the archive was made on Unix.
   */
  lemma ZipYields(body: bytes, ps: seq<Placed>, disks: bytes, comment: bytes, inflate: Inflate)
    requires |ps| <= 2000 && Unpacked(ps) <= 134217728 && |body| < 0xffffffff
    requires |disks| == 4 && |comment| < 0x1_0000
    requires forall p :: p in ps ==> Fits(p.m) && Encodes(p.m, inflate) && StandsIn(body, p)
    requires LastEocd(Archive(body, ps, disks, comment), |body| + |CentralDirectory(ps)|)
    ensures var r := ExtractZip(Archive(body, ps, disks, comment), inflate);
      r.Success? && |r.value| == |ps| && forall i :: 0 <= i < |ps| ==> ComesOutAs(ps[i].m, r.value[i])
  {
    hide CentralDirectory, Archive, ExtractZip, Fits, Encodes, StandsIn, LastEocd, ComesOutAs, Expected, ExpectedAll;
    ZipReads(body, ps, disks, comment, inflate);
    forall i | 0 <= i < |ps|
      ensures ComesOutAs(ps[i].m, ExpectedAll(ps)[i])
    {
      ExpectedIs(ps[i].m);
    }
  }

  // ---- numbers ----

  function Number2(s: bytes): int
    requires |s| == 2
  {
    s[0] as int + 0x100 * s[1] as int
  }

  function Number4(s: bytes): int
    requires |s| == 4
  {
    s[0] as int + 0x100 * s[1] as int + 0x1_0000 * s[2] as int + 0x100_0000 * s[3] as int
  }

  /** Little-endian. */
  lemma U16Is(zip: bytes, off: nat)
    requires off + 2 <= |zip|
    ensures U16(zip, off) == Number2(zip[off..off + 2])
  {
  }

  lemma U32Is(zip: bytes, off: nat)
    requires off + 4 <= |zip|
    ensures U32(zip, off) == Number4(zip[off..off + 4])
  {
  }

  lemma SignatureIs(zip: bytes, off: nat)
    requires off + 4 <= |zip|
    ensures U32(zip, off) == SIG_EOCD <==> zip[off..off + 4] == [0x50, 0x4b, 0x05, 0x06]
    ensures U32(zip, off) == SIG_CENTRAL <==> zip[off..off + 4] == [0x50, 0x4b, 0x01, 0x02]
    ensures U32(zip, off) == SIG_LOCAL <==> zip[off..off + 4] == [0x50, 0x4b, 0x03, 0x04]
    ensures U32(zip, off) == 0xffffffff <==> zip[off..off + 4] == [0xff, 0xff, 0xff, 0xff]
  {
    hide U32;
    U32Is(zip, off);
    var s := zip[off..off + 4];
    Digits256(s, [0x50, 0x4b, 0x05, 0x06]);
    Digits256(s, [0x50, 0x4b, 0x01, 0x02]);
    Digits256(s, [0x50, 0x4b, 0x03, 0x04]);
    Digits256(s, [0xff, 0xff, 0xff, 0xff]);
  }

  lemma Digits256(s: bytes, t: bytes)
    requires |s| == 4 && |t| == 4
    ensures Number4(s) == Number4(t) <==> s == t
  {
    if Number4(s) == Number4(t) {
      DigitStep(s[0], s[1] as int + 0x100 * s[2] as int + 0x1_0000 * s[3] as int,
                t[0], t[1] as int + 0x100 * t[2] as int + 0x1_0000 * t[3] as int);
      DigitStep(s[1], s[2] as int + 0x100 * s[3] as int, t[1], t[2] as int + 0x100 * t[3] as int);
      DigitStep(s[2], s[3] as int, t[2], t[3] as int);
      assert s == [s[0], s[1], s[2], s[3]] && t == [t[0], t[1], t[2], t[3]];
    }
  }

  lemma DigitStep(x: byte, p: nat, y: byte, q: nat)
    requires x as int + 0x100 * p == y as int + 0x100 * q
    ensures x == y && p == q
  {
  }

  // ---- what is refused ----

  ghost predicate EndSignature(zip: bytes, i: nat) {
    i + 22 <= |zip| && zip[i..i + 4] == [0x50, 0x4b, 0x05, 0x06]
  }

  lemma EocdIs(zip: bytes, i: nat)
    ensures EocdAt(zip, i) <==> EndSignature(zip, i)
  {
    hide U32;
    if i + 22 <= |zip| {
      SignatureIs(zip, i);
    }
  }

  /** Without an end signature in the last 65557 bytes the archive is refused. */
  lemma NoEndRefused(zip: bytes, inflate: Inflate)
    ensures ExtractZip(zip, inflate) == Failure(NoEocd) <==> forall i: nat :: |zip| <= i + 65557 ==> !EndSignature(zip, i)
  {
    hide U16, U32, EocdAt, EndSignature, Entries;
    forall i: nat
      ensures EocdAt(zip, i) <==> EndSignature(zip, i)
    {
      EocdIs(zip, i);
    }
    NeverNoEocd(zip, inflate);
  }

  /** Else the last one counts: the number of entries and the start of the directory stand there. */
  lemma LastEndCounts(zip: bytes, i: nat, inflate: Inflate)
    requires |zip| <= i + 65557 && EndSignature(zip, i) && forall k: nat :: i < k ==> !EndSignature(zip, k)
    ensures var r, count := ExtractZip(zip, inflate), Number2(zip[i + 10..i + 12]);
      r == if count > 2000 then Failure(TooManyEntries)
           else if zip[i + 16..i + 20] == [0xff, 0xff, 0xff, 0xff] then Failure(Zip64)
           else Entries(zip, Number4(zip[i + 16..i + 20]), count, 0, inflate)
  {
    hide U16, U32, Entries, Eocd, Number2, Number4;
    EocdIsLast(zip, i);
    U16Is(zip, i + 10);
    U32Is(zip, i + 16);
    SignatureIs(zip, i + 16);
  }

  lemma EocdIsLast(zip: bytes, i: nat)
    requires |zip| <= i + 65557 && EndSignature(zip, i) && forall k: nat :: i < k ==> !EndSignature(zip, k)
    ensures Eocd(zip) == Some(i)
  {
    hide U32, EocdAt, EndSignature;
    forall k: nat
      ensures EocdAt(zip, k) <==> EndSignature(zip, k)
    {
      EocdIs(zip, k);
    }
    var e := Eocd(zip);
    assert EocdAt(zip, i);
    assert e.Some? && !(e.value < i) && !(i < e.value);
  }

  /** The walk itself never says that the end record is missing. */
  lemma NeverNoEocd(zip: bytes, inflate: Inflate)
    ensures forall off: nat, left: nat, unpacked: nat :: Entries(zip, off, left, unpacked, inflate) != Failure(NoEocd)
  {
    hide EntryAt;
    forall off: nat, left: nat, unpacked: nat
      ensures Entries(zip, off, left, unpacked, inflate) != Failure(NoEocd)
    {
      NeverNoEocdAt(zip, off, left, unpacked, inflate);
    }
  }

  lemma {:induction false} NeverNoEocdAt(zip: bytes, off: nat, left: nat, unpacked: nat, inflate: Inflate)
    ensures Entries(zip, off, left, unpacked, inflate) != Failure(NoEocd)
    decreases left
  {
    hide U16, U32, LocalData, CentralName, IsDirEntry, UnixMode, StripTrailing;
    if left > 0 && EntryAt(zip, off, unpacked, inflate).Success? {
      NeverNoEocdAt(zip, NextCentral(zip, off), left - 1, unpacked + U32(zip, off + 24), inflate);
    }
  }

  /** The checks of one entry, in their order, and where its fields stand. */
  lemma EntryRefusals(zip: bytes, off: nat, unpacked: nat, inflate: Inflate)
    ensures var r := EntryAt(zip, off, unpacked, inflate);
      if off + 46 > |zip| || zip[off..off + 4] != [0x50, 0x4b, 0x01, 0x02] then r == Failure(BadCentral)
      else if zip[off + 8] % 2 == 1 then r == Failure(Encrypted)
      else
        var at := Number4(zip[off + 42..off + 46]);
        if at + 30 > |zip| || zip[at..at + 4] != [0x50, 0x4b, 0x03, 0x04] then r == Failure(BadLocal)
        else if unpacked + Number4(zip[off + 24..off + 28]) > 134217728 then r == Failure(UnpackedTooLarge)
        else DataRead(zip, off, at, inflate, r)
  {
    hide U16, U32, IsDirEntry, UnixMode, StripTrailing, Clip, Unpack, DataRead;
    if off + 46 <= |zip| {
      SignatureIs(zip, off);
      U16Is(zip, off + 8);
      U32Is(zip, off + 42);
      U32Is(zip, off + 24);
      U32Is(zip, off + 38);
      OddByte(zip, off + 8);
      var at := U32(zip, off + 42);
      if at + 30 <= |zip| {
        SignatureIs(zip, at);
        if U32(zip, off) == SIG_CENTRAL && U16(zip, off + 8) % 2 == 0 && U32(zip, at) == SIG_LOCAL {
          DataReads(zip, off, at, inflate);
        }
      }
    }
  }

  lemma OddByte(zip: bytes, off: nat)
    requires off + 2 <= |zip|
    ensures U16(zip, off) % 2 == zip[off] % 2
  {
  }

  /** A directory has no data; else method 0 is the bytes in the archive and method 8 what they inflate to, at most
      128 MiB. */
  ghost predicate DataRead(zip: bytes, off: nat, at: nat, inflate: Inflate, r: Result<PackFile, ZipError>)
    requires off + 46 <= |zip| && at + 30 <= |zip|
  {
    var start := at + 30 + Number2(zip[at + 26..at + 28]) + Number2(zip[at + 28..at + 30]);
    var raw := Clip(zip, start, start + Number4(zip[off + 20..off + 24]));
    var name := Clip(zip, off + 46, off + 46 + Number2(zip[off + 28..off + 30]));
    var how := Number2(zip[off + 10..off + 12]);
    var attrs := Number4(zip[off + 38..off + 42]);
    if (name != [] && name[|name| - 1] == 0x2f) || 0x4000_0000 <= attrs < 0x5000_0000
    then r.Success? && r.value.isDir && r.value.data == []
    else if how == 0 then r.Success? && !r.value.isDir && r.value.data == raw
    else if how == 8 then
      if inflate(raw).Some? && |inflate(raw).value| <= 134217728
      then r.Success? && !r.value.isDir && r.value.data == inflate(raw).value
      else r == Failure(BadData)
    else r == Failure(BadMethod)
  }

  lemma DataReads(zip: bytes, off: nat, at: nat, inflate: Inflate)
    requires CentralAt(zip, off) && LocalAt(zip, at)
    ensures var attrs, name := U32(zip, off + 38), CentralName(zip, off);
      var isDir := IsDirEntry(name, attrs);
      var data := if isDir then Success([])
                  else Unpack(U16(zip, off + 10), LocalData(zip, at, U32(zip, off + 20)), inflate);
      DataRead(zip, off, at, inflate,
        if data.Failure? then Failure(data.error)
        else Success(PackFile(StripTrailing(name, SLASH), data.value, isDir, UnixMode(U16(zip, off + 4), attrs))))
  {
    hide U16, U32, UnixMode, StripTrailing, Clip;
    U16Is(zip, at + 26);
    U16Is(zip, at + 28);
    U32Is(zip, off + 20);
    U32Is(zip, off + 38);
    U16Is(zip, off + 28);
    U16Is(zip, off + 10);
  }
}
