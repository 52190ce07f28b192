/** Bytes, and the few Buffer and String operations the archive code uses. */
module Bytes {

  type byte = b: int | 0 <= b < 256
  type bytes = seq<byte>

  const NUL: byte := 0
  const SPACE: byte := 0x20
  const DOT: byte := 0x2e
  const SLASH: byte := 0x2f

  function Fill(n: nat, b: byte): (r: bytes)
    ensures |r| == n && forall i :: 0 <= i < n ==> r[i] == b
  {
    seq(n, i => b)
  }

  /** The bytes from `lo` up to `hi`, as far as there are any. */
  function Clip(s: bytes, lo: nat, hi: int): bytes {
    if |s| <= lo || hi <= lo then [] else if hi <= |s| then s[lo..hi] else s[lo..]
  }

  /** A position as `subarray` takes it: from the back if it is negative, and within the buffer. */
  function Position(n: nat, i: int): (r: nat)
    ensures r <= n
  {
    if i > n then n else if i >= 0 then i else if n + i >= 0 then n + i else 0
  }

  /** `Buffer.subarray(lo, hi)` */
  function SubArray(s: bytes, lo: int, hi: int): (r: bytes)
    ensures |r| <= |s|
  {
    var a, b := Position(|s|, lo), Position(|s|, hi);
    if a < b then s[a..b] else []
  }

  lemma SubArrayIsClip(s: bytes, lo: nat, hi: nat)
    ensures SubArray(s, lo, hi) == Clip(s, lo, hi)
  {
  }

  /** Negative positions count from the back, and those before the front are the front. */
  lemma SubArrayFromBack(s: bytes, lo: int, hi: int)
    requires lo < 0 && hi < 0
    ensures SubArray(s, lo, hi) ==
      if hi <= lo || |s| + hi <= 0 then [] else if |s| + lo <= 0 then s[..|s| + hi] else s[|s| + lo..|s| + hi]
  {
  }

  function DropUpTo(s: bytes, n: nat): bytes {
    if n <= |s| then s[n..] else []
  }

  function PadRight(s: bytes, n: nat): (r: bytes)
    requires |s| <= n
    ensures |r| == n && s <= r && forall i :: |s| <= i < n ==> r[i] == NUL
  {
    s + Fill(n - |s|, NUL)
  }

  /** The part of a fixed-width field before its first NUL. */
  function UpToNul(s: bytes): (r: bytes)
    ensures r <= s && NUL !in r
    ensures |r| < |s| ==> s[|r|] == NUL
  {
    if s == [] || s[0] == NUL then [] else [s[0]] + UpToNul(s[1..])
  }

  /** Whatever follows a NUL does not count. */
  lemma {:induction false} UpToNulStops(s: bytes, t: bytes)
    requires t == [] || t[0] == NUL
    ensures UpToNul(s + t) == UpToNul(s) && (NUL !in s ==> UpToNul(s) == s)
  {
    if s == [] {
      assert s + t == t;
    } else {
      assert (s + t)[1..] == s[1..] + t;
      UpToNulStops(s[1..], t);
    }
  }

  /** `s` without the run of `b` at its end: `.replace(/b+$/, '')`. */
  function StripTrailing(s: bytes, b: byte): (r: bytes)
    ensures r <= s && (r == [] || r[|r| - 1] != b)
    ensures forall i :: |r| <= i < |s| ==> s[i] == b
  {
    if s == [] || s[|s| - 1] != b then s else StripTrailing(s[..|s| - 1], b)
  }

  function StripLeading(s: bytes, b: byte): (r: bytes)
    ensures |r| <= |s| && (r == [] || r[0] != b)
  {
    if s == [] || s[0] != b then s else StripLeading(s[1..], b)
  }

  function Sum(s: bytes): (r: nat)
    ensures r <= 255 * |s|
  {
    if s == [] then 0 else Sum(s[..|s| - 1]) + s[|s| - 1]
  }
}
