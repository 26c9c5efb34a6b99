/** The `prepared_statement_cache_size` bound of the DATABASE_URL check. The value
    stays text: it is accepted by comparing lengths and then characters, never
    by converting it to a number. */
module PreparedCacheSize {
  import opened Decimal

  const MAX_PREPARED_STATEMENT_CACHE_SIZE := 1000

  /** Python's `a <= b` on strings: lexicographic by code point. */
  predicate TextAtMost(a: string, b: string) {
    a == [] || (b != [] && (a[0] < b[0] || (a[0] == b[0] && TextAtMost(a[1..], b[1..]))))
  }

  /** `value.lstrip("0")`. */
  function StripZeros(value: string): string {
    if value != [] && value[0] == '0' then StripZeros(value[1..]) else value
  }

  function Normalized(value: string): string {
    if StripZeros(value) == [] then "0" else StripZeros(value)
  }

  /** Shorter, or as long and not lexicographically greater. */
  predicate ShorterOrAtMost(a: string, b: string) {
    |a| < |b| || (|a| == |b| && TextAtMost(a, b))
  }

  predicate SizeValid(value: string) {
    var maximum := Dec(MAX_PREPARED_STATEMENT_CACHE_SIZE);
    && |value| <= |maximum|
    && value != [] && AllDigits(value)
    && ShorterOrAtMost(Normalized(value), maximum)
  }

  /** The option may occur once; `prepared_cache_values` collects every spelling of its name. */
  predicate OptionValid(values: seq<string>) { |values| == 1 && SizeValid(values[0]) }

  lemma SplitFirst(s: string)
    requires s != [] && AllDigits(s)
    ensures Value(s) == DigitValue(s[0]) * Pow10(|s| - 1) + Value(s[1..])
    ensures Value(s[1..]) < Pow10(|s| - 1)
  {
    ValueConcat(s[..1], s[1..]);
    ValueBelowPow10(s[1..]);
    assert s == s[..1] + s[1..];
    assert Value(s[..1]) == 10 * Value(s[..1][..0]) + DigitValue(s[0]);
  }

  lemma {:induction false} StripKeepsValue(value: string)
    requires AllDigits(value)
    ensures AllDigits(StripZeros(value)) && Value(StripZeros(value)) == Value(value)
    ensures StripZeros(value) != [] ==> StripZeros(value)[0] != '0'
  {
    if value != [] && value[0] == '0' {
      SplitFirst(value);
      StripKeepsValue(value[1..]);
    }
  }

  lemma DigitOutweighs(x: nat, y: nat, p: nat)
    requires x < y
    ensures x * p + p <= y * p
  {
    assert (x + 1) * p <= y * p;
  }

  lemma {:induction false} SameLengthCompares(a: string, b: string)
    requires AllDigits(a) && AllDigits(b) && |a| == |b|
    ensures TextAtMost(a, b) <==> Value(a) <= Value(b)
  {
    if a != [] {
      SplitFirst(a);
      SplitFirst(b);
      SameLengthCompares(a[1..], b[1..]);
      var p := Pow10(|a| - 1);
      var x, y := DigitValue(a[0]), DigitValue(b[0]);
      if x < y { DigitOutweighs(x, y, p); } else if y < x { DigitOutweighs(y, x, p); }
    }
  }

  lemma {:induction false} Pow10Monotone(m: nat, n: nat)
    requires m <= n
    ensures Pow10(m) <= Pow10(n)
  {
    if m < n { Pow10Monotone(m, n - 1); }
  }

  lemma LongerIsGreater(a: string, b: string)
    requires AllDigits(a) && AllDigits(b) && |a| < |b| && b[0] != '0'
    ensures Value(a) < Value(b)
  {
    ValueBelowPow10(a);
    Pow10Monotone(|a|, |b| - 1);
    SplitFirst(b);
    DigitOutweighs(0, DigitValue(b[0]), Pow10(|b| - 1));
  }

  /** Comparing text decides the numeric order, for every digit string and every
      maximum written without leading zeros, of any length. */
  lemma TextOrderIsNumericOrder(value: string, maximum: string)
    requires value != [] && AllDigits(value)
    requires maximum != [] && AllDigits(maximum) && maximum[0] != '0'
    ensures ShorterOrAtMost(Normalized(value), maximum) <==> Value(value) <= Value(maximum)
  {
    StripKeepsValue(value);
    var n := Normalized(value);
    assert Value("0") == 0;
    assert AllDigits(n) && Value(n) == Value(value);
    if |n| < |maximum| {
      LongerIsGreater(n, maximum);
    } else if |n| == |maximum| {
      SameLengthCompares(n, maximum);
    } else {
      LongerIsGreater(maximum, n);
    }
  }

  /** The accepted option values are exactly one to four digits with value at most 1000. */
  lemma AcceptedSizes(values: seq<string>)
    ensures OptionValid(values) <==>
            && |values| == 1
            && 1 <= |values[0]| <= 4 && AllDigits(values[0])
            && Value(values[0]) <= MAX_PREPARED_STATEMENT_CACHE_SIZE
  {
    assert Dec(1000) == Dec(100) + "0" && Dec(100) == Dec(10) + "0" && Dec(10) == "10";
    ValueOfDec(1000);
    if |values| == 1 && values[0] != [] && AllDigits(values[0]) {
      TextOrderIsNumericOrder(values[0], Dec(1000));
    }
  }
}
