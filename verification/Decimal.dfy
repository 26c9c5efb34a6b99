/** Decimal text, as Python's `str(int)` prints it and `int(str)` reads it back.
    Generations, game ids and page bounds all reach Redis through this printer,
    so its invertibility is what keeps cache keys apart. */
module Decimal {
  predicate IsDigit(c: char) { '0' <= c <= '9' }

  /** Python's `value.isascii() and value.isdigit()`, without its rejection of "". */
  predicate AllDigits(s: string) { forall i :: 0 <= i < |s| ==> IsDigit(s[i]) }

  function DigitValue(c: char): (d: nat)
    requires IsDigit(c)
    ensures d < 10
  {
    c as int - '0' as int
  }

  function DigitChar(d: nat): (c: char)
    requires d < 10
    ensures IsDigit(c) && DigitValue(c) == d
  {
    ('0' as int + d) as char
  }

  /** `int(s)` for a run of ASCII digits. */
  function Value(s: string): nat
    requires AllDigits(s)
  {
    if s == [] then 0 else 10 * Value(s[..|s| - 1]) + DigitValue(s[|s| - 1])
  }

  /** `str(n)` for a natural number. */
  function Dec(n: nat): string {
    if n < 10 then [DigitChar(n)] else Dec(n / 10) + [DigitChar(n % 10)]
  }

  /** `str(n)` for any integer. */
  function DecInt(n: int): string { if n < 0 then "-" + Dec(-n) else Dec(n) }

  /** The shape of everything `Dec` prints. */
  predicate Canonical(s: string) {
    s != [] && AllDigits(s) && (s[0] == '0' ==> |s| == 1)
  }

  lemma {:induction false} ValueOfDec(n: nat)
    ensures Canonical(Dec(n))
    ensures Value(Dec(n)) == n
    ensures n > 0 ==> Dec(n)[0] != '0'
  {
    if n >= 10 {
      ValueOfDec(n / 10);
      var s := Dec(n);
      assert s[..|s| - 1] == Dec(n / 10);
    }
  }

  lemma {:induction false} ValuePositive(s: string)
    requires s != [] && AllDigits(s) && s[0] != '0'
    ensures Value(s) > 0
  {
    if |s| > 1 { ValuePositive(s[..|s| - 1]); }
  }

  lemma {:induction false} DecOfValue(s: string)
    requires Canonical(s)
    ensures Dec(Value(s)) == s
  {
    if |s| > 1 {
      var front := s[..|s| - 1];
      DecOfValue(front);
      ValuePositive(front);
      assert Value(s) / 10 == Value(front) && Value(s) % 10 == DigitValue(s[|s| - 1]);
      assert DigitChar(DigitValue(s[|s| - 1])) == s[|s| - 1];
    }
  }

  lemma DecInjective(m: nat, n: nat)
    ensures Dec(m) == Dec(n) <==> m == n
  {
    ValueOfDec(m);
    ValueOfDec(n);
  }

  lemma DecIntInjective(m: int, n: int)
    ensures DecInt(m) == DecInt(n) <==> m == n
  {
    ValueOfDec(if m < 0 then -m else m);
    ValueOfDec(if n < 0 then -n else n);
    if (m < 0) != (n < 0) {
      assert (DecInt(m)[0] == '-') != (DecInt(n)[0] == '-');
    } else if m < 0 {
      assert DecInt(m)[1..] == Dec(-m) && DecInt(n)[1..] == Dec(-n);
    }
  }

  lemma ShiftDigit(a: nat, p: nat, b: nat, d: nat)
    ensures 10 * (a * p + b) + d == a * (10 * p) + (10 * b + d)
  {
  }

  /** Reading two texts one after another is place-value arithmetic. */
  lemma {:induction false} ValueConcat(a: string, b: string)
    requires AllDigits(a) && AllDigits(b)
    ensures AllDigits(a + b)
    ensures Value(a + b) == Value(a) * Pow10(|b|) + Value(b)
  {
    if b == [] {
      assert a + b == a;
    } else {
      var front := b[..|b| - 1];
      ValueConcat(a, front);
      assert (a + b)[..|a + b| - 1] == a + front;
      assert (a + b)[|a + b| - 1] == b[|b| - 1];
      ShiftDigit(Value(a), Pow10(|front|), Value(front), DigitValue(b[|b| - 1]));
    }
  }

  function Pow10(n: nat): (p: nat)
    ensures p > 0
  {
    if n == 0 then 1 else 10 * Pow10(n - 1)
  }

  lemma {:induction false} ValueBelowPow10(s: string)
    requires AllDigits(s)
    ensures Value(s) < Pow10(|s|)
  {
    if s != [] { ValueBelowPow10(s[..|s| - 1]); }
  }
}
