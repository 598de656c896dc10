/**
 * Bytes, ASCII constants, byte sums and the zero-padded octal text that the
 * header encoder writes with Python's `format(n, '0<width>o')`.
 */
module Bytes {

  type byte = x: int | 0 <= x < 256

  const NUL: byte := 0
  const SPACE: byte := 32
  /** The ASCII digit '0'; the digit d is written as ZERO + d. */
  const ZERO: byte := 48

  /** `n` copies of `b` (Python `bytes([b]) * n`). */
  function Repeat(b: byte, n: nat): (r: seq<byte>)
    ensures |r| == n
  {
    seq(n, _ => b)
  }

  function Zeros(n: nat): (r: seq<byte>)
    ensures |r| == n
  {
    Repeat(NUL, n)
  }

  /** Python `sum(h)` over a byte string. */
  function Sum(s: seq<byte>): nat
  {
    if s == [] then 0 else Sum(s[..|s| - 1]) + s[|s| - 1]
  }

  lemma {:induction false} SumAppend(a: seq<byte>, b: seq<byte>)
    ensures Sum(a + b) == Sum(a) + Sum(b)
    decreases |b|
  {
    if b == [] {
      assert a + b == a;
    } else {
      assert (a + b)[..|a + b| - 1] == a + b[..|b| - 1];
      SumAppend(a, b[..|b| - 1]);
    }
  }

  /** No byte exceeds 255, so a sum is at most 255 per byte. */
  lemma {:induction false} SumBound(s: seq<byte>)
    ensures Sum(s) <= 255 * |s|
  {
    if s != [] {
      SumBound(s[..|s| - 1]);
    }
  }

  function Pow8(k: nat): (r: nat)
    ensures r >= 1
  {
    if k == 0 then 1 else 8 * Pow8(k - 1)
  }

  predicate IsOctalDigit(b: byte)
  {
    ZERO <= b < ZERO + 8
  }

  predicate IsOctal(s: seq<byte>)
  {
    forall i | 0 <= i < |s| :: IsOctalDigit(s[i])
  }

  /** The shortest octal numeral for `n` ("0" for zero). */
  function OctalDigits(n: nat): (r: seq<byte>)
    ensures 1 <= |r|
    ensures IsOctal(r)
  {
    if n < 8 then [ZERO + n] else OctalDigits(n / 8) + [ZERO + n % 8]
  }

  /**
   * Python `format(n, '0<width>o')`: the octal numeral of `n`, left-padded
   * with '0' up to `width` characters and never truncated.
   */
  function Octal(n: nat, width: nat): seq<byte>
  {
    var d := OctalDigits(n);
    (if |d| < width then Repeat(ZERO, width - |d|) else []) + d
  }

  /** The value of a numeral of octal digits, as a tar reader parses it. */
  function OctalValue(s: seq<byte>): nat
    requires IsOctal(s)
  {
    if s == [] then 0 else OctalValue(s[..|s| - 1]) * 8 + (s[|s| - 1] - ZERO)
  }

  /** The shortest numeral of `n` fits in `width` digits exactly when n < 8^width. */
  lemma {:induction false} OctalDigitsFit(n: nat, width: nat)
    requires 1 <= width
    ensures |OctalDigits(n)| <= width <==> n < Pow8(width)
    decreases n
  {
    if n >= 8 {
      if width == 1 {
        assert Pow8(1) == 8;
        assert |OctalDigits(n)| == |OctalDigits(n / 8)| + 1;
      } else {
        OctalDigitsFit(n / 8, width - 1);
        assert n < Pow8(width) <==> n / 8 < Pow8(width - 1);
      }
    } else {
      assert Pow8(width) >= 8 by { Pow8AtLeast8(width); }
    }
  }

  lemma {:induction false} Pow8AtLeast8(k: nat)
    requires 1 <= k
    ensures Pow8(k) >= 8
  {
    if k > 1 {
      Pow8AtLeast8(k - 1);
    }
  }

  /**
   * The formatted field is never shorter than `width`, and it is exactly
   * `width` characters long if and only if n < 8^width.
   */
  lemma OctalWidth(n: nat, width: nat)
    requires 1 <= width
    ensures |Octal(n, width)| >= width
    ensures |Octal(n, width)| == width <==> n < Pow8(width)
  {
    OctalDigitsFit(n, width);
  }

  lemma {:induction false} OctalDigitsValue(n: nat)
    ensures OctalValue(OctalDigits(n)) == n
    decreases n
  {
    if n >= 8 {
      var d := OctalDigits(n / 8);
      assert (d + [ZERO + n % 8])[..|d|] == d;
      OctalDigitsValue(n / 8);
    }
  }

  lemma {:induction false} LeadingZerosValue(k: nat, d: seq<byte>)
    requires IsOctal(d)
    ensures IsOctal(Repeat(ZERO, k) + d)
    ensures OctalValue(Repeat(ZERO, k) + d) == OctalValue(d)
    decreases |d|
  {
    var z := Repeat(ZERO, k);
    if d == [] {
      assert z + d == z;
      AllZerosValue(k);
    } else {
      assert (z + d)[..|z + d| - 1] == z + d[..|d| - 1];
      LeadingZerosValue(k, d[..|d| - 1]);
    }
  }

  lemma {:induction false} AllZerosValue(k: nat)
    ensures IsOctal(Repeat(ZERO, k))
    ensures OctalValue(Repeat(ZERO, k)) == 0
  {
    if k > 0 {
      assert Repeat(ZERO, k)[..k - 1] == Repeat(ZERO, k - 1);
      AllZerosValue(k - 1);
    }
  }

  /** A reader parsing the formatted field gets `n` back, whatever the width. */
  lemma OctalRoundTrip(n: nat, width: nat)
    ensures IsOctal(Octal(n, width))
    ensures OctalValue(Octal(n, width)) == n
  {
    var d := OctalDigits(n);
    OctalDigitsValue(n);
    if |d| < width {
      LeadingZerosValue(width - |d|, d);
    } else {
      assert Octal(n, width) == d;
    }
  }
}
