/**
 * The ZIP reader (apps/web/lib/storage/zipExtract.ts).
 * Every read below carries its bounds as a precondition, so accepting this file shows that no read
 * leaves the buffer, whatever its bytes. Inflation is a parameter.
 */
module ZipExtract {
  import opened Wrappers
  import opened Bytes
  import opened Paths
  import opened TarPack

  datatype ZipError =
    | NoEocd | TooManyEntries | Zip64 | BadCentral | Encrypted | BadLocal | UnpackedTooLarge | BadMethod | BadData

  /** `inflateRawSync` without its output limit: None when the data is not a deflate stream. */
  type Inflate = bytes -> Option<bytes>

  const MAX_ENTRIES: nat := 2000
  const MAX_TOTAL_UNPACKED: nat := 0x800_0000

  const SIG_EOCD: nat := 0x06054b50
  const SIG_CENTRAL: nat := 0x02014b50
  const SIG_LOCAL: nat := 0x04034b50

  const STORED: nat := 0
  const DEFLATED: nat := 8

  function U16(buf: bytes, off: nat): (r: nat)
    requires off + 2 <= |buf|
    ensures r < 0x1_0000
  {
    buf[off] as int + 256 * buf[off + 1] as int
  }

  function U32(buf: bytes, off: nat): (r: nat)
    requires off + 4 <= |buf|
    ensures r < 0x1_0000_0000
  {
    U16(buf, off) + 0x1_0000 * U16(buf, off + 2)
  }

  // ---- end of central directory ----

  predicate EocdAt(buf: bytes, i: nat) {
    i + 22 <= |buf| && U32(buf, i) == SIG_EOCD
  }

  /** The lowest position searched: a comment has at most 65535 bytes. */
  function ScanStart(buf: bytes): nat {
    if |buf| <= 65557 then 0 else |buf| - 65557
  }

  /** The last end record in the searched range, if there is one. */
  function Eocd(buf: bytes): (r: Option<nat>)
    ensures r.Some? ==> ScanStart(buf) <= r.value && EocdAt(buf, r.value)
    ensures r.Some? ==> forall i :: r.value < i ==> !EocdAt(buf, i)
    ensures r.None? ==> forall i :: ScanStart(buf) <= i ==> !EocdAt(buf, i)
  {
    if |buf| < 22 then None else EocdFrom(buf, |buf| - 22)
  }

  function EocdFrom(buf: bytes, i: int): (r: Option<nat>)
    requires ScanStart(buf) - 1 <= i <= |buf| - 22
    ensures r.Some? ==> ScanStart(buf) <= r.value <= i && EocdAt(buf, r.value)
    ensures r.Some? ==> forall j :: r.value < j <= i ==> !EocdAt(buf, j)
    ensures r.None? ==> forall j :: ScanStart(buf) <= j <= i ==> !EocdAt(buf, j)
    decreases i + 1
  {
    if i < ScanStart(buf) then None
    else if U32(buf, i) == SIG_EOCD then Some(i)
    else EocdFrom(buf, i - 1)
  }

  method FindEocd(buf: bytes) returns (r: Option<nat>)
    ensures r == Eocd(buf)
  {
    var start := ScanStart(buf);
    var i := |buf| - 22;
    while i >= start
      invariant |buf| >= 22 ==> start - 1 <= i <= |buf| - 22 && EocdFrom(buf, i) == Eocd(buf)
      invariant |buf| < 22 ==> i < 0
    {
      if U32(buf, i) == SIG_EOCD {
        return Some(i);
      }
      i := i - 1;
    }
    return None;
  }

  // ---- one entry ----

  predicate CentralAt(zip: bytes, off: nat) {
    off + 46 <= |zip| && U32(zip, off) == SIG_CENTRAL
  }

  predicate LocalAt(zip: bytes, off: nat) {
    off + 30 <= |zip| && U32(zip, off) == SIG_LOCAL
  }

  /** Where the central record after this one starts. */
  function NextCentral(zip: bytes, off: nat): (r: nat)
    requires CentralAt(zip, off)
    ensures r >= off + 46
  {
    off + 46 + U16(zip, off + 28) + U16(zip, off + 30) + U16(zip, off + 32)
  }

  function CentralName(zip: bytes, off: nat): bytes
    requires CentralAt(zip, off)
  {
    Clip(zip, off + 46, off + 46 + U16(zip, off + 28))
  }

  /** The lengths of the local record decide where the data starts, not those of the central one. */
  function LocalData(zip: bytes, off: nat, size: nat): bytes
    requires LocalAt(zip, off)
  {
    var start := off + 30 + U16(zip, off + 26) + U16(zip, off + 28);
    Clip(zip, start, start + size)
  }

  /** A name with a trailing slash, or the directory bits of a Unix mode. */
  predicate IsDirEntry(name: bytes, extAttrs: nat) {
    EndsWithSlash(name) || extAttrs / 0x1000_0000 == 4
  }

  /** Permission bits, when the entry was made on Unix. */
  function UnixMode(madeBy: nat, extAttrs: nat): nat {
    if madeBy / 256 == 3 then extAttrs / 0x1_0000 % 4096 else 0
  }

  function Unpack(method_: nat, raw: bytes, inflate: Inflate): Result<bytes, ZipError> {
    if method_ == STORED then Success(raw)
    else if method_ == DEFLATED then
      var data := inflate(raw);
      if data.Some? && |data.value| <= MAX_TOTAL_UNPACKED then Success(data.value) else Failure(BadData)
    else Failure(BadMethod)
  }

  /** The file of one central record, or the first reason to refuse the archive. */
  function EntryAt(zip: bytes, off: nat, unpacked: nat, inflate: Inflate): Result<PackFile, ZipError> {
    if !CentralAt(zip, off) then Failure(BadCentral)
    else if U16(zip, off + 8) % 2 == 1 then Failure(Encrypted)
    else
      var localOff := U32(zip, off + 42);
      if !LocalAt(zip, localOff) then Failure(BadLocal)
      else if unpacked + U32(zip, off + 24) > MAX_TOTAL_UNPACKED then Failure(UnpackedTooLarge)
      else
        var name, attrs := CentralName(zip, off), U32(zip, off + 38);
        var isDir := IsDirEntry(name, attrs);
        var data := if isDir then Success([])
                    else Unpack(U16(zip, off + 10), LocalData(zip, localOff, U32(zip, off + 20)), inflate);
        if data.Failure? then Failure(data.error)
        else Success(PackFile(StripTrailing(name, SLASH), data.value, isDir, UnixMode(U16(zip, off + 4), attrs)))
  }

  // ---- the central directory ----

  function Prepend(es: seq<PackFile>, r: Result<seq<PackFile>, ZipError>): Result<seq<PackFile>, ZipError> {
    if r.Success? then Success(es + r.value) else r
  }

  /** `left` records from `off` on, `unpacked` bytes having been announced before. */
  function Entries(zip: bytes, off: nat, left: nat, unpacked: nat, inflate: Inflate): Result<seq<PackFile>, ZipError>
    decreases left
  {
    if left == 0 then Success([])
    else
      var e := EntryAt(zip, off, unpacked, inflate);
      if e.Failure? then Failure(e.error)
      else Prepend([e.value], Entries(zip, NextCentral(zip, off), left - 1, unpacked + U32(zip, off + 24), inflate))
  }

  function ExtractZip(zip: bytes, inflate: Inflate): Result<seq<PackFile>, ZipError> {
    var eocd := Eocd(zip);
    if eocd.None? then Failure(NoEocd)
    else
      var total, cdOffset := U16(zip, eocd.value + 10), U32(zip, eocd.value + 16);
      if total > MAX_ENTRIES then Failure(TooManyEntries)
      else if cdOffset == 0xffffffff then Failure(Zip64)
      else Entries(zip, cdOffset, total, 0, inflate)
  }

  lemma PrependNothing(r: Result<seq<PackFile>, ZipError>)
    ensures Prepend([], r) == r
  {
    if r.Success? {
      assert [] + r.value == r.value;
    }
  }

  lemma PrependTwice(xs: seq<PackFile>, e: PackFile, r: Result<seq<PackFile>, ZipError>)
    ensures Prepend(xs, Prepend([e], r)) == Prepend(xs + [e], r)
  {
    if r.Success? {
      assert xs + ([e] + r.value) == (xs + [e]) + r.value;
    }
  }

  /** The loop body: one central record, with its checks in the order of the source. */
  method ReadEntry(zip: bytes, off: nat, unpacked: nat, inflate: Inflate)
    returns (r: Result<PackFile, ZipError>, next: nat, total: nat)
    ensures r == EntryAt(zip, off, unpacked, inflate)
    ensures r.Success? ==> next == NextCentral(zip, off) && total == unpacked + U32(zip, off + 24)
  {
    hide StripTrailing, EndsWithSlash, Clip;
    next, total := off, unpacked;
    if off + 46 > |zip| || U32(zip, off) != SIG_CENTRAL {
      return Failure(BadCentral), next, total;
    }
    var madeBy, gpFlag, method_ := U16(zip, off + 4), U16(zip, off + 8), U16(zip, off + 10);
    var compSize, uncompSize := U32(zip, off + 20), U32(zip, off + 24);
    var nameLen, extraLen, commentLen := U16(zip, off + 28), U16(zip, off + 30), U16(zip, off + 32);
    var extAttrs, localOff := U32(zip, off + 38), U32(zip, off + 42);
    var path := Clip(zip, off + 46, off + 46 + nameLen);
    next := off + 46 + nameLen + extraLen + commentLen;
    if gpFlag % 2 == 1 {
      return Failure(Encrypted), next, total;
    }
    if localOff + 30 > |zip| || U32(zip, localOff) != SIG_LOCAL {
      return Failure(BadLocal), next, total;
    }
    var raw := LocalData(zip, localOff, compSize);
    var isDir := IsDirEntry(path, extAttrs);
    total := total + uncompSize;
    if total > MAX_TOTAL_UNPACKED {
      return Failure(UnpackedTooLarge), next, total;
    }
    var data := if isDir then Success([]) else Unpack(method_, raw, inflate);
    if data.Failure? {
      return Failure(data.error), next, total;
    }
    r := Success(PackFile(StripTrailing(path, SLASH), data.value, isDir, UnixMode(madeBy, extAttrs)));
  }

  method ExtractZipEntries(zip: bytes, inflate: Inflate) returns (r: Result<seq<PackFile>, ZipError>)
    ensures r == ExtractZip(zip, inflate)
  {
    hide EntryAt;
    var eocd := FindEocd(zip);
    if eocd.None? {
      return Failure(NoEocd);
    }
    var total, cdOffset := U16(zip, eocd.value + 10), U32(zip, eocd.value + 16);
    if total > MAX_ENTRIES {
      return Failure(TooManyEntries);
    }
    if cdOffset == 0xffffffff {
      return Failure(Zip64);
    }
    var out: seq<PackFile> := [];
    var off, unpacked := cdOffset, 0;
    PrependNothing(Entries(zip, cdOffset, total, 0, inflate));
    for i := 0 to total
      invariant Prepend(out, Entries(zip, off, total - i, unpacked, inflate))
             == Entries(zip, cdOffset, total, 0, inflate)
    {
      var e, next, sum := ReadEntry(zip, off, unpacked, inflate);
      if e.Failure? {
        return Failure(e.error);
      }
      PrependTwice(out, e.value, Entries(zip, next, total - i - 1, sum, inflate));
      out, off, unpacked := out + [e.value], next, sum;
    }
    assert out + [] == out;
    r := Success(out);
  }
}
