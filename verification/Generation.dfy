/** The shared generation number: how its text is drawn, parsed, incremented and
    read through a bounded window. */
module Generation {
  import opened Prelude
  import opened Decimal

  const MAX_GENERATION: nat := 9223372036854775807
  const MAX_GENERATION_DIGITS: nat := 19
  const MAX_CACHE_PAYLOAD_BYTES: nat := 2 * 1024 * 1024

  /** What `new_generation` can return: one of 1 .. MAX_GENERATION - 1. */
  type Draw = n: nat | 1 <= n < MAX_GENERATION witness 1

  /** GETRANGE name 0 `last`: both ends included, clipped to the stored value. */
  function Window<T>(stored: seq<T>, last: nat): seq<T> { stored[..Min(last + 1, |stored|)] }

  /** `_parse_generation` on text; the result stands for its canonical text. */
  function ParseGeneration(text: string): Option<nat> {
    if text == [] || !AllDigits(text) || |text| > MAX_GENERATION_DIGITS then None
    else if Value(text) <= MAX_GENERATION then Some(Value(text))
    else None
  }

  /** Redis INCR of a stored text: only the canonical text of a signed 64-bit
      integer below the maximum can be incremented; anything else is an error. */
  function Incremented(text: string): Option<string> {
    if Canonical(text) then
      if Value(text) < MAX_GENERATION then Some(Dec(Value(text) + 1)) else None
    else if |text| > 1 && text[0] == '-' && Canonical(text[1..]) && text[1] != '0' then
      if Value(text[1..]) <= MAX_GENERATION + 1 then Some(DecInt(1 - Value(text[1..]))) else None
    else None
  }

  /** `_parse_generation` on raw bytes: ASCII decoding first, then the text rules. */
  function ParseBytes(raw: seq<bv8>): Option<nat> {
    if forall i :: 0 <= i < |raw| ==> raw[i] < 128
    then ParseGeneration(seq(|raw|, i requires 0 <= i < |raw| => raw[i] as int as char))
    else None
  }

  lemma DecLength(n: nat, digits: nat)
    requires n < Pow10(digits) && digits > 0
    ensures |Dec(n)| <= digits
  {
    if n >= 10 { DecLength(n / 10, digits - 1); }
  }

  lemma MaxGenerationDigits()
    ensures MAX_GENERATION < Pow10(MAX_GENERATION_DIGITS)
  {
    assert Pow10(4) == 10000;
    assert Pow10(8) == 100000000;
    assert Pow10(12) == 1000000000000;
    assert Pow10(16) == 10000000000000000;
    assert Pow10(19) == 10000000000000000000;
  }

  /** Every generation in range survives printing and parsing. */
  lemma ParseOfDec(g: nat)
    requires g <= MAX_GENERATION
    ensures ParseGeneration(Dec(g)) == Some(g)
    ensures |Dec(g)| <= MAX_GENERATION_DIGITS
    ensures Window(Dec(g), MAX_GENERATION_DIGITS) == Dec(g)
  {
    MaxGenerationDigits();
    DecLength(g, MAX_GENERATION_DIGITS);
    ValueOfDec(g);
  }

  /** Parsing is idempotent on its canonical text, and every accepted number is in range. */
  lemma ParseIsIdempotent(text: string)
    requires ParseGeneration(text).Some?
    ensures ParseGeneration(text).value <= MAX_GENERATION
    ensures ParseGeneration(Dec(ParseGeneration(text).value)) == ParseGeneration(text)
    ensures Canonical(Dec(ParseGeneration(text).value))
  {
    ParseOfDec(Value(text));
    ValueOfDec(Value(text));
  }

  function Zeros(k: nat): string { seq(k, i => '0') }

  lemma {:induction false} ZerosAreNothing(k: nat)
    ensures AllDigits(Zeros(k)) && Value(Zeros(k)) == 0
  {
    if k > 0 {
      ZerosAreNothing(k - 1);
      assert Zeros(k)[..k - 1] == Zeros(k - 1);
    }
  }

  lemma LeadingZero(text: string)
    requires text != [] && AllDigits(text) && text[0] == '0'
    ensures AllDigits(text[1..]) && Value(text) == Value(text[1..]) && text == "0" + text[1..]
  {
    assert text == "0" + text[1..];
    assert Value("0") == 0;
    ValueConcat("0", text[1..]);
  }

  lemma OneMoreZero(k: nat, rest: string)
    ensures "0" + (Zeros(k) + rest) == Zeros(k + 1) + rest
  {
    assert "0" + Zeros(k) == Zeros(k + 1);
    assert "0" + (Zeros(k) + rest) == ("0" + Zeros(k)) + rest;
  }

  /** A run of digits is zeros before the canonical text of its value. */
  lemma {:induction false} SplitZeros(text: string) returns (k: nat)
    requires text != [] && AllDigits(text)
    ensures text == Zeros(k) + Dec(Value(text))
  {
    if |text| == 1 || text[0] != '0' {
      DecOfValue(text);
      k := 0;
      assert Zeros(0) + text == text;
    } else {
      LeadingZero(text);
      var rest := SplitZeros(text[1..]);
      OneMoreZero(rest, Dec(Value(text)));
      k := rest + 1;
    }
  }

  /** `text` is `g` in decimal, possibly after zeros, in at most 19 digits. */
  predicate Padded(text: string, k: nat, g: nat) {
    text == Zeros(k) + Dec(g) && |text| <= 19 && g <= 9223372036854775807
  }

  /** Exactly the decimal texts of numbers up to the maximum are accepted, with
      leading zeros as far as 19 digits go, and each as its number. */
  lemma ParseAcceptsExactly(text: string, g: nat)
    ensures ParseGeneration(text) == Some(g) <==> exists k :: Padded(text, k, g)
  {
    if ParseGeneration(text) == Some(g) {
      var k := SplitZeros(text);
      assert Padded(text, k, g);
    }
    if k: nat :| Padded(text, k, g) {
      ZerosAreNothing(k);
      ValueOfDec(g);
      ValueConcat(Zeros(k), Dec(g));
    }
  }

  /** A drawn generation always parses, and one INCR of it parses as its successor. */
  lemma DrawLeavesRoom(g: Draw)
    ensures ParseGeneration(Dec(g)) == Some(g)
    ensures Incremented(Dec(g)) == Some(Dec(g + 1))
    ensures ParseGeneration(Incremented(Dec(g)).value) == Some(g + 1)
  {
    ParseOfDec(g);
    ParseOfDec(g + 1);
    IncrementedDec(g);
  }

  /** INCR of a canonical generation is its successor, and fails only at the 64-bit maximum. */
  lemma IncrementedDec(g: nat)
    requires g <= MAX_GENERATION
    ensures Incremented(Dec(g)) == if g < MAX_GENERATION then Some(Dec(g + 1)) else None
  {
    ValueOfDec(g);
  }

  /** `after` is the text Redis stores when it increments the integer `n` printed in `text`. */
  ghost predicate Increments(n: int, text: string, after: string) {
    -(MAX_GENERATION as int) - 1 <= n < MAX_GENERATION && text == DecInt(n) && after == DecInt(n + 1)
  }

  /** INCR succeeds exactly on the printed text of a signed 64-bit integer below
      the maximum, and then stores the printed successor. */
  lemma IncrementedExactly(text: string, after: string)
    ensures Incremented(text) == Some(after) <==> exists n :: Increments(n, text, after)
  {
    if Incremented(text) == Some(after) {
      if Canonical(text) {
        DecOfValue(text);
        assert Increments(Value(text), text, after);
      } else {
        var n: int := Value(text[1..]);
        DecOfValue(text[1..]);
        ValuePositive(text[1..]);
        assert text == "-" + text[1..];
        assert Increments(-n, text, after);
      }
    }
    forall n | Increments(n, text, after) ensures Incremented(text) == Some(after) {
      ValueOfDec(if n < 0 then -n else n);
      if n < 0 {
        assert text[1..] == Dec(-n) && text[0] == '-';
        assert !IsDigit(text[0]);
      }
    }
  }

  /** Reading only the first 20 bytes, or characters, gives the same verdict as reading all of them. */
  lemma BoundedGenerationRead(raw: seq<bv8>, text: string)
    ensures ParseBytes(Window(raw, MAX_GENERATION_DIGITS)) == ParseBytes(raw)
    ensures ParseGeneration(Window(text, MAX_GENERATION_DIGITS)) == ParseGeneration(text)
  {
    if |raw| <= MAX_GENERATION_DIGITS + 1 { assert Window(raw, MAX_GENERATION_DIGITS) == raw; }
    if |text| <= MAX_GENERATION_DIGITS + 1 { assert Window(text, MAX_GENERATION_DIGITS) == text; }
  }

  /** A UTF-8 codec: decoding is partial, and encoding undoes it. */
  datatype Codec = Codec(decode: seq<bv8> -> Option<string>, encode: string -> seq<bv8>)

  ghost predicate Faithful(c: Codec) {
    forall b :: c.decode(b).Some? ==> c.encode(c.decode(b).value) == b
  }

  /** `_payload_text` of a client that returns bytes: measured, then decoded. */
  function PayloadText(payload: seq<bv8>, c: Codec): Option<string> {
    if |payload| > MAX_CACHE_PAYLOAD_BYTES then None else c.decode(payload)
  }

  /** The same for a client that decodes replies itself: a reply that is not
      text is a miss, and the text is measured by encoding it again. */
  function DecodedPayloadText(payload: seq<bv8>, c: Codec): Option<string> {
    var text :- c.decode(payload);
    if |c.encode(text)| > MAX_CACHE_PAYLOAD_BYTES then None else Some(text)
  }

  /** The MAX + 1 byte window gives either client the verdict of the whole stored
      payload, and what it accepts is the whole stored payload. */
  lemma BoundedPayloadRead(stored: seq<bv8>, c: Codec)
    requires Faithful(c)
    ensures var seen := Window(stored, MAX_CACHE_PAYLOAD_BYTES);
            && PayloadText(seen, c) == PayloadText(stored, c)
            && DecodedPayloadText(seen, c) == DecodedPayloadText(stored, c) == PayloadText(stored, c)
            && (PayloadText(seen, c).Some? ==> seen == stored)
  {
    if |stored| <= MAX_CACHE_PAYLOAD_BYTES {
      assert Window(stored, MAX_CACHE_PAYLOAD_BYTES) == stored;
    }
  }

  /** A payload of any size that a set measures and writes is read back by the
      matching get, through the window, exactly when the set accepts its size. */
  lemma WrittenPayloadReadsBack(text: string, c: Codec)
    requires Faithful(c) && c.decode(c.encode(text)) == Some(text)
    ensures var seen := Window(c.encode(text), MAX_CACHE_PAYLOAD_BYTES);
            var verdict := if |c.encode(text)| <= 2097152 then Some(text) else None;
            PayloadText(seen, c) == verdict && DecodedPayloadText(seen, c) == verdict
  {
    BoundedPayloadRead(c.encode(text), c);
  }
}
