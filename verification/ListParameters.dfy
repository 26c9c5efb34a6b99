/** List parameters and the canonical JSON text whose digest names a cached list:
    `json.dumps(params, sort_keys=True, separators=(",", ":"))` with ASCII escapes. */
module ListParameters {
  import opened Prelude
  import opened Decimal

  datatype Sort = ByName | ByQuality | ByGameId

  datatype Order = Ascending | Descending

  datatype Filters = Filters(
    search: Option<string>,
    quality: Option<nat>,
    itemType: Option<string>,
    version: Option<string>)

  datatype ListParams = ListParams(filters: Filters, sort: Sort, order: Order, limit: nat, offset: nat)

  // ---------------------------------------------------------------- printer

  function HexChar(d: nat): (c: char)
    requires d < 16
    ensures HexValue(c) == Some(d)
  {
    if d < 10 then (48 + d) as char else (87 + d) as char
  }

  function HexValue(c: char): (r: Option<nat>)
    ensures r.Some? ==> r.value < 16
  {
    if '0' <= c <= '9' then Some(c as int - 48)
    else if 'a' <= c <= 'f' then Some(c as int - 87)
    else None
  }

  /** `\uXXXX` with four lower-case hexadecimal digits. */
  function UnicodeEscape(n: nat): string
    requires n < 0x10000
  {
    ['\\', 'u', HexChar(n / 4096), HexChar(n / 256 % 16), HexChar(n / 16 % 16), HexChar(n % 16)]
  }

  function EscapeChar(c: char): string {
    if c == '\"' then ['\\', '\"']
    else if c == '\\' then ['\\', '\\']
    else if c == '\n' then ['\\', 'n']
    else if c == '\r' then ['\\', 'r']
    else if c == '\t' then ['\\', 't']
    else if c as int == 0x0C then ['\\', 'f']
    else if c as int == 0x08 then ['\\', 'b']
    else if ' ' <= c <= '~' then [c]
    else if c as int < 0x10000 then UnicodeEscape(c as int)
    else
      var n := c as int - 0x10000;
      UnicodeEscape(0xD800 + n / 0x400) + UnicodeEscape(0xDC00 + n % 0x400)
  }

  function Escaped(s: string): string { if s == [] then [] else EscapeChar(s[0]) + Escaped(s[1..]) }

  function StringThen(s: string, rest: string): string { "\"" + (Escaped(s) + ("\"" + rest)) }

  function OptStringThen(s: Option<string>, rest: string): string {
    if s.None? then "null" + rest else StringThen(s.value, rest)
  }

  function NatThen(n: nat, rest: string): string { Dec(n) + rest }

  function OptNatThen(n: Option<nat>, rest: string): string {
    if n.None? then "null" + rest else NatThen(n.value, rest)
  }

  function SortText(s: Sort): string {
    match s case ByName => "name" case ByQuality => "quality" case ByGameId => "game_id"
  }

  function OrderText(o: Order): string { match o case Ascending => "asc" case Descending => "desc" }

  function TagsThen(p: ListParams): string {
    ",\"type\":" + OptStringThen(p.filters.itemType,
    ",\"version\":" + OptStringThen(p.filters.version, "}"))
  }

  function SortThen(p: ListParams): string { ",\"sort\":" + StringThen(SortText(p.sort), TagsThen(p)) }

  function SearchThen(p: ListParams): string { ",\"search\":" + OptStringThen(p.filters.search, SortThen(p)) }

  function QualityThen(p: ListParams): string { ",\"quality\":" + OptNatThen(p.filters.quality, SearchThen(p)) }

  function OrderThen(p: ListParams): string { ",\"order\":" + StringThen(OrderText(p.order), QualityThen(p)) }

  function OffsetThen(p: ListParams): string { ",\"offset\":" + NatThen(p.offset, OrderThen(p)) }

  /** The canonical text: keys in sorted order, no spaces, absent values as null. */
  function CanonicalJson(p: ListParams): string { "{\"limit\":" + NatThen(p.limit, OffsetThen(p)) }

  // ----------------------------------------------------------------- parser

  /** What remains of `s` after the literal text `lit`. */
  function Expect(lit: string, s: string): Option<string> {
    if lit <= s then Some(s[|lit|..]) else None
  }

  function ReadHex4(s: string): (r: Option<(nat, string)>)
    ensures r.Some? ==> r.value.0 < 0x10000 && |r.value.1| == |s| - 4
  {
    if |s| < 4 then None
    else
      var a :- HexValue(s[0]);
      var b :- HexValue(s[1]);
      var c :- HexValue(s[2]);
      var d :- HexValue(s[3]);
      Some((4096 * a + 256 * b + 16 * c + d, s[4..]))
  }

  /** One code unit escape, or a surrogate pair of them, read as one scalar. */
  function ReadUnicode(s: string): (r: Option<(char, string)>)
    ensures r.Some? ==> |r.value.1| < |s|
  {
    var (hi, rest) :- ReadHex4(s);
    if hi < 0xD800 || hi > 0xDFFF then Some((hi as char, rest))
    else
      var low :- Expect(['\\', 'u'], rest);
      var (lo, after) :- ReadHex4(low);
      if hi < 0xDC00 && 0xDC00 <= lo <= 0xDFFF
      then Some(((0x10000 + (hi - 0xD800) * 0x400 + (lo - 0xDC00)) as char, after))
      else None
  }

  function ReadChar(s: string): (r: Option<(char, string)>)
    ensures r.Some? ==> |r.value.1| < |s|
  {
    if s == [] then None
    else if s[0] != '\\' then Some((s[0], s[1..]))
    else if |s| == 1 then None
    else if s[1] == 'u' then ReadUnicode(s[2..])
    else if s[1] == '\"' then Some(('\"', s[2..]))
    else if s[1] == '\\' then Some(('\\', s[2..]))
    else if s[1] == 'n' then Some(('\n', s[2..]))
    else if s[1] == 'r' then Some(('\r', s[2..]))
    else if s[1] == 't' then Some(('\t', s[2..]))
    else if s[1] == 'f' then Some((0x0C as char, s[2..]))
    else if s[1] == 'b' then Some((0x08 as char, s[2..]))
    else None
  }

  /** The characters up to the closing quote. */
  function ReadBody(s: string): Option<(string, string)>
    decreases |s|
  {
    if s == [] then None
    else if s[0] == '\"' then Some(([], s[1..]))
    else
      var (c, rest) :- ReadChar(s);
      var (tail, after) :- ReadBody(rest);
      Some(([c] + tail, after))
  }

  function ReadString(s: string): Option<(string, string)> {
    var body :- Expect("\"", s);
    ReadBody(body)
  }

  function ReadOptString(s: string): Option<(Option<string>, string)> {
    if "null" <= s then Some((None, s[4..]))
    else
      var (t, rest) :- ReadString(s);
      Some((Some(t), rest))
  }

  function DigitRun(s: string): (n: nat)
    ensures n <= |s| && AllDigits(s[..n])
  {
    if s == [] || !IsDigit(s[0]) then 0
    else
      var n := DigitRun(s[1..]);
      assert s[..n + 1] == [s[0]] + s[1..][..n];
      n + 1
  }

  function ReadNat(s: string): Option<(nat, string)> {
    if DigitRun(s) == 0 then None else Some((Value(s[..DigitRun(s)]), s[DigitRun(s)..]))
  }

  function ReadOptNat(s: string): Option<(Option<nat>, string)> {
    if "null" <= s then Some((None, s[4..]))
    else
      var (n, rest) :- ReadNat(s);
      Some((Some(n), rest))
  }

  function SortOf(t: string): Option<Sort> {
    if t == "name" then Some(ByName) else if t == "quality" then Some(ByQuality)
    else if t == "game_id" then Some(ByGameId) else None
  }

  function OrderOf(t: string): Option<Order> {
    if t == "asc" then Some(Ascending) else if t == "desc" then Some(Descending) else None
  }

  function ParseLimit(s: string): Option<(nat, string)> {
    var s1 :- Expect("{\"limit\":", s);
    ReadNat(s1)
  }

  function ParseOffset(s: string): Option<(nat, string)> {
    var s3 :- Expect(",\"offset\":", s);
    ReadNat(s3)
  }

  function ParseOrder(s: string): Option<(Order, string)> {
    var s5 :- Expect(",\"order\":", s);
    var (orderText, s6) :- ReadString(s5);
    var order :- OrderOf(orderText);
    Some((order, s6))
  }

  function ParseQuality(s: string): Option<(Option<nat>, string)> {
    var s1 :- Expect(",\"quality\":", s);
    ReadOptNat(s1)
  }

  function ParseSearch(s: string): Option<(Option<string>, string)> {
    var s1 :- Expect(",\"search\":", s);
    ReadOptString(s1)
  }

  function ParseSort(s: string): Option<(Sort, string)> {
    var s1 :- Expect(",\"sort\":", s);
    var (sortText, s2) :- ReadString(s1);
    var sort :- SortOf(sortText);
    Some((sort, s2))
  }

  function ParseTags(s: string): Option<((Option<string>, Option<string>), string)> {
    var s1 :- Expect(",\"type\":", s);
    var (itemType, s2) :- ReadOptString(s1);
    var s3 :- Expect(",\"version\":", s2);
    var (version, s4) :- ReadOptString(s3);
    Some(((itemType, version), s4))
  }

  function ParseParams(s: string): Option<ListParams> {
    var (limit, s0) :- ParseLimit(s);
    var (offset, s1) :- ParseOffset(s0);
    var (order, s2) :- ParseOrder(s1);
    var (quality, s3) :- ParseQuality(s2);
    var (search, s4) :- ParseSearch(s3);
    var (sort, s5) :- ParseSort(s4);
    var ((itemType, version), s6) :- ParseTags(s5);
    if s6 == "}"
    then Some(ListParams(Filters(search, quality, itemType, version), sort, order, limit, offset))
    else None
  }

  // ----------------------------------------------------------------- proofs

  lemma Associates(a: string, b: string, c: string)
    ensures (a + b) + c == a + (b + c)
  {
  }

  lemma ExpectLiteral(lit: string, rest: string)
    ensures Expect(lit, lit + rest) == Some(rest)
  {
    assert (lit + rest)[|lit|..] == rest;
  }

  lemma HexDigits(n: nat)
    requires n < 0x10000
    ensures n / 4096 < 16
    ensures 4096 * (n / 4096) + 256 * (n / 256 % 16) + 16 * (n / 16 % 16) + n % 16 == n
  {
  }

  lemma Hex4RoundTrip(n: nat, rest: string)
    requires n < 0x10000
    ensures ReadHex4((UnicodeEscape(n) + rest)[2..]) == Some((n, rest))
  {
    HexDigits(n);
    var s := (UnicodeEscape(n) + rest)[2..];
    assert s[4..] == rest;
    assert s[0] == HexChar(n / 4096) && s[1] == HexChar(n / 256 % 16);
    assert s[2] == HexChar(n / 16 % 16) && s[3] == HexChar(n % 16);
  }

  lemma SurrogatePair(n: nat)
    requires n < 0x100000
    ensures 0xD800 + n / 0x400 < 0xDC00 && 0xDC00 + n % 0x400 < 0xE000
    ensures 0x10000 + (n / 0x400) * 0x400 + n % 0x400 == 0x10000 + n
  {
  }

  lemma PairReads(c: char, hi: nat, lo: nat, rest: string)
    requires 0xD800 <= hi < 0xDC00 <= lo < 0xE000
    requires c as int == 0x10000 + (hi - 0xD800) * 0x400 + (lo - 0xDC00)
    ensures ReadChar(UnicodeEscape(hi) + (UnicodeEscape(lo) + rest)) == Some((c, rest))
  {
    Hex4RoundTrip(hi, UnicodeEscape(lo) + rest);
    Hex4RoundTrip(lo, rest);
    var low := UnicodeEscape(lo) + rest;
    assert ['\\', 'u'] <= low;
    var s := UnicodeEscape(hi) + low;
    assert s[0] == '\\' && s[1] == 'u';
  }

  lemma AstralRoundTrip(c: char, rest: string)
    requires c as int >= 0x10000
    ensures ReadChar(EscapeChar(c) + rest) == Some((c, rest))
  {
    var n := c as int - 0x10000;
    SurrogatePair(n);
    var hi, lo := 0xD800 + n / 0x400, 0xDC00 + n % 0x400;
    PairReads(c, hi, lo, rest);
    Associates(UnicodeEscape(hi), UnicodeEscape(lo), rest);
  }

  lemma CharRoundTrip(c: char, rest: string)
    ensures ReadChar(EscapeChar(c) + rest) == Some((c, rest))
    ensures EscapeChar(c) != [] && EscapeChar(c)[0] != '\"'
  {
    var e := EscapeChar(c);
    var s := e + rest;
    if c as int >= 0x10000 {
      AstralRoundTrip(c, rest);
    } else if |e| == 6 {
      Hex4RoundTrip(c as int, rest);
      assert s[0] == '\\' && s[1] == 'u';
    } else {
      assert s[|e|..] == rest;
      assert s[0] == e[0];
      if |e| == 2 { assert s[1] == e[1]; }
    }
  }

  lemma BodyStep(c: char, tail: string, t: string, rest: string)
    requires ReadBody(tail) == Some((t, rest))
    ensures ReadBody(EscapeChar(c) + tail) == Some(([c] + t, rest))
  {
    CharRoundTrip(c, tail);
  }

  lemma {:induction false} BodyRoundTrip(t: string, rest: string)
    ensures ReadBody(Escaped(t) + ("\"" + rest)) == Some((t, rest))
    decreases |t|
  {
    if t == [] {
      assert Escaped(t) + ("\"" + rest) == "\"" + rest;
      assert ("\"" + rest)[1..] == rest;
    } else {
      var tail := Escaped(t[1..]) + ("\"" + rest);
      BodyRoundTrip(t[1..], rest);
      BodyStep(t[0], tail, t[1..], rest);
      Associates(EscapeChar(t[0]), Escaped(t[1..]), "\"" + rest);
      assert [t[0]] + t[1..] == t;
    }
  }

  lemma StringRoundTrip(t: string, rest: string)
    ensures ReadString(StringThen(t, rest)) == Some((t, rest))
    ensures ReadOptString(StringThen(t, rest)) == Some((Some(t), rest))
  {
    ExpectLiteral("\"", Escaped(t) + ("\"" + rest));
    BodyRoundTrip(t, rest);
    assert StringThen(t, rest)[0] == '\"' && "null"[0] == 'n';
  }

  lemma OptStringRoundTrip(t: Option<string>, rest: string)
    ensures ReadOptString(OptStringThen(t, rest)) == Some((t, rest))
  {
    if t.Some? { StringRoundTrip(t.value, rest); } else { assert ("null" + rest)[4..] == rest; }
  }

  lemma {:induction false} DigitRunStops(digits: string, rest: string)
    requires AllDigits(digits) && (rest == [] || !IsDigit(rest[0]))
    ensures DigitRun(digits + rest) == |digits|
  {
    if digits == [] {
      assert digits + rest == rest;
    } else {
      assert (digits + rest)[1..] == digits[1..] + rest;
      DigitRunStops(digits[1..], rest);
    }
  }

  lemma NatRoundTrip(n: nat, rest: string)
    requires rest == [] || !IsDigit(rest[0])
    ensures ReadNat(NatThen(n, rest)) == Some((n, rest))
    ensures ReadOptNat(NatThen(n, rest)) == Some((Some(n), rest))
  {
    ValueOfDec(n);
    DigitRunStops(Dec(n), rest);
    var s := NatThen(n, rest);
    assert s[..|Dec(n)|] == Dec(n) && s[|Dec(n)|..] == rest;
    assert s[0] == Dec(n)[0] && "null"[0] == 'n';
  }

  lemma OptNatRoundTrip(n: Option<nat>, rest: string)
    requires rest == [] || !IsDigit(rest[0])
    ensures ReadOptNat(OptNatThen(n, rest)) == Some((n, rest))
  {
    if n.Some? { NatRoundTrip(n.value, rest); } else { assert ("null" + rest)[4..] == rest; }
  }

  lemma LimitRoundTrip(p: ListParams)
    ensures ParseLimit(CanonicalJson(p)) == Some((p.limit, OffsetThen(p)))
  {
    ExpectLiteral("{\"limit\":", NatThen(p.limit, OffsetThen(p)));
    assert OffsetThen(p)[0] == ',';
    NatRoundTrip(p.limit, OffsetThen(p));
  }

  lemma OffsetRoundTrip(p: ListParams)
    ensures ParseOffset(OffsetThen(p)) == Some((p.offset, OrderThen(p)))
  {
    ExpectLiteral(",\"offset\":", NatThen(p.offset, OrderThen(p)));
    assert OrderThen(p)[0] == ',';
    NatRoundTrip(p.offset, OrderThen(p));
  }

  lemma OrderRoundTrip(p: ListParams)
    ensures ParseOrder(OrderThen(p)) == Some((p.order, QualityThen(p)))
  {
    ExpectLiteral(",\"order\":", StringThen(OrderText(p.order), QualityThen(p)));
    StringRoundTrip(OrderText(p.order), QualityThen(p));
  }

  lemma QualityRoundTrip(p: ListParams)
    ensures ParseQuality(QualityThen(p)) == Some((p.filters.quality, SearchThen(p)))
  {
    ExpectLiteral(",\"quality\":", OptNatThen(p.filters.quality, SearchThen(p)));
    assert SearchThen(p)[0] == ',';
    OptNatRoundTrip(p.filters.quality, SearchThen(p));
  }

  lemma SearchRoundTrip(p: ListParams)
    ensures ParseSearch(SearchThen(p)) == Some((p.filters.search, SortThen(p)))
  {
    ExpectLiteral(",\"search\":", OptStringThen(p.filters.search, SortThen(p)));
    OptStringRoundTrip(p.filters.search, SortThen(p));
  }

  lemma SortRoundTrip(p: ListParams)
    ensures ParseSort(SortThen(p)) == Some((p.sort, TagsThen(p)))
  {
    ExpectLiteral(",\"sort\":", StringThen(SortText(p.sort), TagsThen(p)));
    StringRoundTrip(SortText(p.sort), TagsThen(p));
  }

  lemma TagsRoundTrip(p: ListParams)
    ensures ParseTags(TagsThen(p)) == Some(((p.filters.itemType, p.filters.version), "}"))
  {
    var s3 := OptStringThen(p.filters.version, "}");
    var s2 := ",\"version\":" + s3;
    var s1 := OptStringThen(p.filters.itemType, s2);
    ExpectLiteral(",\"type\":", s1);
    OptStringRoundTrip(p.filters.itemType, s2);
    ExpectLiteral(",\"version\":", s3);
    OptStringRoundTrip(p.filters.version, "}");
  }

  /** The parser undoes the printer, for every parameter record. */
  lemma ParamsRoundTrip(p: ListParams)
    ensures ParseParams(CanonicalJson(p)) == Some(p)
  {
    LimitRoundTrip(p);
    OffsetRoundTrip(p);
    OrderRoundTrip(p);
    QualityRoundTrip(p);
    SearchRoundTrip(p);
    SortRoundTrip(p);
    TagsRoundTrip(p);
  }

  /** Two parameter records share their canonical text only when they are equal. */
  lemma CanonicalJsonInjective(p: ListParams, q: ListParams)
    ensures CanonicalJson(p) == CanonicalJson(q) <==> p == q
  {
    ParamsRoundTrip(p);
    ParamsRoundTrip(q);
  }
}
