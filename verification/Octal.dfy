/** Octal number fields of a ustar header, and the permission-bit arithmetic around them. */
module Octal {
  import opened Bytes

  const ZERO: byte := 0x30
  const MINUS: byte := 0x2d
  const PLUS: byte := 0x2b

  function Pow8(k: nat): (r: nat)
    ensures r >= 1
  {
    if k == 0 then 1 else 8 * Pow8(k - 1)
  }

  predicate IsDigit(b: byte) {
    0x30 <= b <= 0x37
  }

  ghost predicate AllDigits(s: bytes) {
    forall i :: 0 <= i < |s| ==> IsDigit(s[i])
  }

  /** `v.toString(8)`. */
  function ToOctal(v: nat): (r: bytes)
    ensures r != [] && AllDigits(r)
  {
    if v < 8 then [0x30 + v] else ToOctal(v / 8) + [0x30 + v % 8]
  }

  /** `s.padStart(n, '0')`. */
  function PadStart(s: bytes, n: nat): (r: bytes)
    ensures |r| == if |s| < n then n else |s|
    ensures AllDigits(s) ==> AllDigits(r)
  {
    if |s| >= n then s else Fill(n - |s|, ZERO) + s
  }

  /** The number a run of octal digits denotes. */
  function DigitsValue(s: bytes): int {
    if s == [] then 0 else 8 * DigitsValue(s[..|s| - 1]) + (s[|s| - 1] as int - 0x30)
  }

  /** What `writeOctal(header, offset, width, v)` puts into the header. */
  function OctalField(v: nat, width: nat): (r: bytes)
    requires width >= 2
    ensures |r| >= width
  {
    PadStart(ToOctal(v), width - 1) + [NUL]
  }

  // ---- reading ----

  /** ASCII white space, as skipped by `trim` and by `parseInt`. */
  predicate IsSpace(b: byte) {
    b == SPACE || 9 <= b <= 13
  }

  function SkipSpace(s: bytes): (r: bytes)
    ensures r == [] || !IsSpace(r[0])
  {
    if s == [] || !IsSpace(s[0]) then s else SkipSpace(s[1..])
  }

  function LeadingDigits(s: bytes): (r: bytes)
    ensures r <= s && AllDigits(r)
    ensures |r| < |s| ==> !IsDigit(s[|r|])
  {
    if s == [] || !IsDigit(s[0]) then [] else [s[0]] + LeadingDigits(s[1..])
  }

  /** `parseInt(s.trim(), 8)`, with 0 for NaN. A sign is accepted. */
  function ParseInt8(s: bytes): int {
    var t := SkipSpace(s);
    if t != [] && t[0] == MINUS then -DigitsValue(LeadingDigits(t[1..]))
    else if t != [] && t[0] == PLUS then DigitsValue(LeadingDigits(t[1..]))
    else DigitsValue(LeadingDigits(t))
  }

  /** `parseOctal` on the bytes of one field. */
  function ParseField(field: bytes): int {
    ParseInt8(UpToNul(field))
  }

  // ---- printing and parsing undo each other ----

  lemma {:induction false} ToOctalValue(v: nat)
    ensures DigitsValue(ToOctal(v)) == v
  {
    if v >= 8 {
      ToOctalValue(v / 8);
      var head, last := ToOctal(v / 8), [(0x30 + v % 8) as byte];
      assert (head + last)[..|head + last| - 1] == head;
    }
  }

  lemma {:induction false} ToOctalWidth(v: nat, k: nat)
    requires k >= 1 && v < Pow8(k)
    ensures |ToOctal(v)| <= k
  {
    if v >= 8 {
      assert k >= 2;
      ToOctalWidth(v / 8, k - 1);
    }
  }

  lemma {:induction false} PadStartValue(s: bytes, n: nat)
    ensures DigitsValue(PadStart(s, n)) == DigitsValue(s)
    decreases |s|
  {
    if |s| < n {
      if s == [] {
        ZerosValue(n);
        assert Fill(n, ZERO) + s == Fill(n, ZERO);
      } else {
        var init := s[..|s| - 1];
        PadStartValue(init, n - 1);
        assert PadStart(s, n)[..n - 1] == Fill(n - |s|, ZERO) + init;
      }
    }
  }

  lemma {:induction false} ZerosValue(n: nat)
    ensures DigitsValue(Fill(n, ZERO)) == 0
  {
    if n > 0 {
      ZerosValue(n - 1);
      assert Fill(n, ZERO)[..n - 1] == Fill(n - 1, ZERO);
    }
  }

  lemma {:induction false} LeadingDigitsStop(s: bytes, t: bytes)
    requires AllDigits(s) && (t == [] || !IsDigit(t[0]))
    ensures LeadingDigits(s + t) == s
  {
    if s == [] {
      assert s + t == t;
    } else {
      assert (s + t)[1..] == s[1..] + t;
      LeadingDigitsStop(s[1..], t);
    }
  }

  /** A run of digits ended by NUL reads as its value, whatever follows. */
  lemma DigitsParse(s: bytes, t: bytes)
    requires s != [] && AllDigits(s) && t != [] && t[0] == NUL
    ensures ParseField(s + t) == DigitsValue(s)
  {
    UpToNulStops(s, t);
    LeadingDigitsStop(s, []);
    assert s + [] == s;
  }

  /** Header arithmetic: a field of `width` bytes holds every v below 8^(width-1), exactly. */
  lemma OctalFieldRoundTrip(v: nat, width: nat)
    requires width >= 2 && v < Pow8(width - 1)
    ensures |OctalField(v, width)| == width
    ensures ParseField(OctalField(v, width)) == v
  {
    ToOctalWidth(v, width - 1);
    ToOctalValue(v);
    PadStartValue(ToOctal(v), width - 1);
    DigitsParse(PadStart(ToOctal(v), width - 1), [NUL]);
  }

  // ---- permission bits ----

  function Bit(v: int, j: nat): bool
    decreases j
  {
    if j == 0 then v % 2 == 1 else Bit(v / 2, j - 1)
  }

  /** `(a | b) & (2^k - 1)`, for the two's complement numbers of JavaScript's bit operators. */
  function MaskedOr(a: int, b: int, k: nat): (r: nat)
    decreases k
  {
    if k == 0 then 0
    else (if a % 2 == 1 || b % 2 == 1 then 1 else 0) + 2 * MaskedOr(a / 2, b / 2, k - 1)
  }

  lemma BitStep(v: int, j: nat)
    ensures Bit(v, 0) <==> v % 2 == 1
    ensures Bit(v, j + 1) <==> Bit(v / 2, j)
  {
  }

  lemma {:induction false} MaskedOrBits(a: int, b: int, k: nat, j: nat)
    ensures Bit(MaskedOr(a, b, k), j) <==> j < k && (Bit(a, j) || Bit(b, j))
    decreases k, j
  {
    hide Bit;
    var r := MaskedOr(a, b, k);
    if k == 0 {
      ZeroBits(j);
    } else if j == 0 {
      BitStep(r, 0);
      BitStep(a, 0);
      BitStep(b, 0);
    } else {
      assert r / 2 == MaskedOr(a / 2, b / 2, k - 1);
      MaskedOrBits(a / 2, b / 2, k - 1, j - 1);
      BitStep(r, j - 1);
      BitStep(a, j - 1);
      BitStep(b, j - 1);
    }
  }

  lemma {:induction false} ZeroBits(j: nat)
    ensures !Bit(0, j)
  {
    if j > 0 {
      ZeroBits(j - 1);
    }
  }

  function Pow2(k: nat): (r: nat)
    ensures r >= 1
  {
    if k == 0 then 1 else 2 * Pow2(k - 1)
  }

  lemma {:induction false} MaskedOrBound(a: int, b: int, k: nat)
    ensures MaskedOr(a, b, k) < Pow2(k)
    decreases k
  {
    if k > 0 {
      MaskedOrBound(a / 2, b / 2, k - 1);
    }
  }

  /** Granting the same permissions twice changes nothing. */
  lemma {:induction false} MaskedOrIdempotent(a: int, b: int, k: nat)
    ensures MaskedOr(MaskedOr(a, b, k), b, k) == MaskedOr(a, b, k)
    decreases k
  {
    if k > 0 {
      assert MaskedOr(a, b, k) / 2 == MaskedOr(a / 2, b / 2, k - 1);
      MaskedOrIdempotent(a / 2, b / 2, k - 1);
    }
  }

  // ---- bits by division ----

  /** Bit k + j is bit j after k halvings. */
  lemma {:induction false} BitUp(v: int, k: nat, j: nat)
    ensures Bit(v, k + j) <==> Bit(v / Pow2(k), j)
    decreases k
  {
    if k > 0 {
      BitStep(v, k - 1 + j);
      BitUp(v / 2, k - 1, j);
      DivTwice(v, Pow2(k - 1));
    }
  }

  /** Bit j of a number, by division. */
  lemma BitIs(v: int, j: nat)
    ensures Bit(v, j) <==> v / Pow2(j) % 2 == 1
  {
    BitUp(v, j, 0);
  }

  lemma DivTwice(v: int, m: nat)
    requires m > 0
    ensures v / 2 / m == v / (2 * m)
  {
    var q, r := v / 2 / m, v / 2 % m;
    assert v / 2 == q * m + r;
    assert v == (2 * m) * q + (2 * r + v % 2);
    DivUnique(v, 2 * m, q, 2 * r + v % 2);
  }

  lemma DivUnique(v: int, m: nat, q: int, r: int)
    requires m > 0 && v == m * q + r && 0 <= r < m
    ensures v / m == q
  {
    var d := v / m - q;
    assert m * (v / m) == v - v % m;
    assert m * d == m * (v / m) - m * q;
    if d >= 1 { AtLeast(m, d); }
    if d <= -1 { AtLeast(m, -d); }
  }

  lemma AtLeast(m: nat, d: int)
    requires d >= 1
    ensures m * d >= m && m * -d == -(m * d)
  {
  }

  /** The low k bits of a number. */
  lemma {:induction false} LowBits(v: int, k: nat, j: nat)
    ensures Bit(v % Pow2(k), j) <==> j < k && Bit(v, j)
    decreases k
  {
    hide Bit;
    var m := Pow2(k);
    if k == 0 {
      ZeroBits(j);
    } else {
      HalfOfRest(v, Pow2(k - 1));
      if j == 0 {
        BitStep(v % m, 0);
        BitStep(v, 0);
      } else {
        LowBits(v / 2, k - 1, j - 1);
        BitStep(v % m, j - 1);
        BitStep(v, j - 1);
      }
    }
  }

  lemma HalfOfRest(v: int, m: nat)
    requires m > 0
    ensures v % (2 * m) / 2 == v / 2 % m && v % (2 * m) % 2 == v % 2
  {
    DivTwice(v, m);
    var q := v / (2 * m);
    assert v == (2 * m) * q + v % (2 * m);
    assert v / 2 == m * q + v / 2 % m;
    assert v % (2 * m) == v - 2 * (m * q);
  }
}
