// Decimal text of natural numbers, as `String(n)` prints it and `Number(text)` reads it,
// and the zero padding of `padStart(width, "0")`.
module Decimal {

  predicate IsDigit(c: char) {
    '0' <= c <= '9'
  }

  predicate AllDigits(s: string) {
    forall i :: 0 <= i < |s| ==> IsDigit(s[i])
  }

  function Digit(d: nat): (c: char)
    requires d < 10
    ensures IsDigit(c) && DigitValue(c) == d
  {
    ('0' as int + d) as char
  }

  function DigitValue(c: char): (d: nat)
    requires IsDigit(c)
    ensures d < 10
  {
    c as int - '0' as int
  }

  /** `String(n)` for a natural number: no sign, no leading zero. */
  function Print(n: nat): (s: string)
    ensures |s| >= 1 && AllDigits(s)
  {
    if n < 10 then [Digit(n)] else Print(n / 10) + [Digit(n % 10)]
  }

  /** `Number(s)` for a digit string; the empty string reads as zero. */
  function Value(s: string): nat
    requires AllDigits(s)
  {
    if s == [] then 0 else Value(s[..|s| - 1]) * 10 + DigitValue(s[|s| - 1])
  }

  function Zeros(n: nat): (s: string)
    ensures |s| == n && forall i :: 0 <= i < n ==> s[i] == '0'
  {
    if n == 0 then [] else Zeros(n - 1) + ['0']
  }

  /** `s.padStart(width, "0")`: never truncates. */
  function PadStart(s: string, width: nat): (p: string)
    ensures |p| == if |s| >= width then |s| else width
  {
    if |s| >= width then s else Zeros(width - |s|) + s
  }

  lemma {:induction false} ValueOfPrint(n: nat)
    ensures Value(Print(n)) == n
  {
    if n >= 10 {
      ValueOfPrint(n / 10);
      assert Print(n)[..|Print(n)| - 1] == Print(n / 10);
    }
  }

  lemma {:induction false} ValueOfZeros(n: nat)
    ensures Value(Zeros(n)) == 0
  {
    if n > 0 {
      ValueOfZeros(n - 1);
      assert Zeros(n)[..n - 1] == Zeros(n - 1);
    }
  }

  lemma {:induction false} ValueOfConcat(n: nat, s: string)
    requires AllDigits(s)
    ensures AllDigits(Zeros(n) + s)
    ensures Value(Zeros(n) + s) == Value(s)
  {
    if s == [] {
      ValueOfZeros(n);
      assert Zeros(n) + s == Zeros(n);
    } else {
      ValueOfConcat(n, s[..|s| - 1]);
      assert (Zeros(n) + s)[..n + |s| - 1] == Zeros(n) + s[..|s| - 1];
    }
  }

  /** Padding never changes the number, so padded keys of different numbers differ. */
  lemma {:induction false} ValueOfPadded(n: nat, width: nat)
    ensures AllDigits(PadStart(Print(n), width))
    ensures Value(PadStart(Print(n), width)) == n
  {
    ValueOfPrint(n);
    var s := Print(n);
    if |s| < width {
      ValueOfConcat(width - |s|, s);
    }
  }

  lemma {:induction false} PadStartInjective(m: nat, n: nat, width: nat)
    requires PadStart(Print(m), width) == PadStart(Print(n), width)
    ensures m == n
  {
    ValueOfPadded(m, width);
    ValueOfPadded(n, width);
  }

  lemma {:induction false} PrintLengthMonotone(m: nat, n: nat)
    requires m <= n
    ensures |Print(m)| <= |Print(n)|
  {
    if m >= 10 {
      PrintLengthMonotone(m / 10, n / 10);
    }
  }
}
