/** Decimal text of version numbers: Python's `str(v)` and `s.rjust(width, "0")`,
    with a reading-back function used to show that padded numbers stay distinct. */
module Decimal {

  predicate IsDigit(c: char) {
    '0' <= c <= '9'
  }

  predicate AllDigits(s: string) {
    forall k :: 0 <= k < |s| ==> IsDigit(s[k])
  }

  function DigitChar(d: nat): (c: char)
    requires d < 10
    ensures IsDigit(c) && c as int - '0' as int == d
  {
    (d + '0' as int) as char
  }

  /** Python's `str(n)` for a non-negative integer: no sign, no leading zeros. */
  function Str(n: nat): (r: string)
    ensures r != [] && AllDigits(r)
    ensures n > 0 ==> r[0] != '0'
    ensures n < 10 <==> |r| == 1
  {
    if n < 10 then [DigitChar(n)] else Str(n / 10) + [DigitChar(n % 10)]
  }

  /** Python's `s.rjust(width, fill)`: pads on the left up to `width`, never truncates. */
  function RJust(s: string, width: int, fill: char): (r: string)
    ensures |r| == if |s| >= width then |s| else width
    ensures r[|r| - |s|..] == s
    ensures forall k :: 0 <= k < |r| - |s| ==> r[k] == fill
  {
    if |s| >= width then s else Fill(fill, width - |s|) + s
  }

  function Fill(c: char, n: nat): (r: string)
    ensures |r| == n && forall k :: 0 <= k < n ==> r[k] == c
  {
    if n == 0 then [] else Fill(c, n - 1) + [c]
  }

  /** The number a string of decimal digits denotes. */
  function Value(s: string): nat
    requires AllDigits(s)
  {
    if s == [] then 0 else Value(s[..|s| - 1]) * 10 + (s[|s| - 1] as int - '0' as int)
  }

  /** The zero-padded version text of `v`, as the namer writes it. */
  function Padded(v: nat, width: int): (r: string)
    ensures AllDigits(r)
  {
    RJust(Str(v), width, '0')
  }

  // ---------------------------------------------------------------------------
  // Lemmas

  /** `str` reads back as the number it was made from. */
  lemma {:induction false} ValueStr(n: nat)
    ensures Value(Str(n)) == n
  {
    if n >= 10 {
      var s := Str(n);
      assert s[..|s| - 1] == Str(n / 10);
      ValueStr(n / 10);
    }
  }

  /** Leading zeros do not change the value. */
  lemma {:induction false} ValueZeros(k: nat, s: string)
    requires AllDigits(s)
    ensures AllDigits(Fill('0', k) + s) && Value(Fill('0', k) + s) == Value(s)
    decreases |s|
  {
    var z := Fill('0', k);
    if s == [] {
      assert z + s == z;
      ValueFill(k);
    } else {
      var t := z + s;
      assert t[..|t| - 1] == z + s[..|s| - 1];
      ValueZeros(k, s[..|s| - 1]);
    }
  }

  lemma {:induction false} ValueFill(k: nat)
    ensures Value(Fill('0', k)) == 0
  {
    if k > 0 {
      assert Fill('0', k)[..k - 1] == Fill('0', k - 1);
      ValueFill(k - 1);
    }
  }

  /** The padded text of `v` reads back as `v`, whatever the width. */
  lemma PaddedValue(v: nat, width: int)
    ensures Value(Padded(v, width)) == v
  {
    ValueStr(v);
    var s := Str(v);
    if |s| < width {
      ValueZeros(width - |s|, s);
    }
  }

  /** Padding keeps version numbers apart: distinct versions get distinct texts. */
  lemma PaddedInjective(v: nat, u: nat, width: int)
    requires Padded(v, width) == Padded(u, width)
    ensures v == u
  {
    PaddedValue(v, width);
    PaddedValue(u, width);
  }
}
