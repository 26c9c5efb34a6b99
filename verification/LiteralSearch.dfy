/** The search filter: three successive text replacements turn a search text into
    a LIKE pattern, which the database matches without regard to case. The
    matcher here is LIKE with escape character `\` (section 8.5 of ISO/IEC
    9075-2; section 9.7.1 of the PostgreSQL manual). */
module LiteralSearch {
  import opened Prelude

  datatype Token = Literal(c: char) | AnyOne | AnyRun

  /** The pattern's tokens; None where the database reports a dangling escape. */
  function Tokens(p: string): Option<seq<Token>> {
    if p == [] then Some([])
    else if p[0] == '\\' then
      if |p| == 1 then None
      else
        var rest :- Tokens(p[2..]);
        Some([Literal(p[1])] + rest)
    else
      var rest :- Tokens(p[1..]);
      Some([if p[0] == '%' then AnyRun else if p[0] == '_' then AnyOne else Literal(p[0])] + rest)
  }

  predicate Matches(ts: seq<Token>, t: string)
    decreases |ts| + |t|
  {
    if ts == [] then t == []
    else match ts[0]
      case AnyRun => Matches(ts[1..], t) || (t != [] && Matches(ts, t[1..]))
      case AnyOne => t != [] && Matches(ts[1..], t[1..])
      case Literal(c) => t != [] && t[0] == c && Matches(ts[1..], t[1..])
  }

  function Folded(fold: char -> char, s: string): (r: string)
    ensures |r| == |s| && forall i :: 0 <= i < |s| ==> r[i] == fold(s[i])
  {
    seq(|s|, i requires 0 <= i < |s| => fold(s[i]))
  }

  /** Lower-casing neither produces nor loses a pattern mark. */
  ghost predicate KeepsMarks(fold: char -> char) {
    forall c :: (fold(c) == '\\' <==> c == '\\') && (fold(c) == '%' <==> c == '%') && (fold(c) == '_' <==> c == '_')
  }

  /** `name ILIKE pattern ESCAPE '\'`: both sides folded, then LIKE. */
  function ILike(fold: char -> char, pattern: string, name: string): Option<bool> {
    var ts :- Tokens(Folded(fold, pattern));
    Some(Matches(ts, Folded(fold, name)))
  }

  /** `s.replace(c, with)` for a one-character `c`. */
  function Replace(s: string, c: char, with: string): string {
    if s == [] then [] else (if s[0] == c then with else [s[0]]) + Replace(s[1..], c, with)
  }

  function EscapedSearch(search: string): string {
    Replace(Replace(Replace(search, '\\', "\\\\"), '%', "\\%"), '_', "\\_")
  }

  function SearchPattern(search: string): string { "%" + EscapedSearch(search) + "%" }

  ghost predicate ContainsFolded(fold: char -> char, name: string, search: string) {
    exists i :: 0 <= i <= |name| - |search| && OccursAt(Folded(fold, name), Folded(fold, search), i)
  }

  predicate OccursAt(t: string, s: string, i: nat)
    requires i + |s| <= |t|
  {
    t[i..i + |s|] == s
  }

  // ------------------------------------------- one escape per character

  predicate Mark(c: char) { c == '\\' || c == '%' || c == '_' }

  function EscapedOne(c: char): string { if Mark(c) then ['\\', c] else [c] }

  function EscapedEach(s: string): string { if s == [] then [] else EscapedOne(s[0]) + EscapedEach(s[1..]) }

  lemma {:induction false} ReplaceConcat(a: string, b: string, c: char, with: string)
    ensures Replace(a + b, c, with) == Replace(a, c, with) + Replace(b, c, with)
  {
    if a == [] {
      assert a + b == b;
    } else {
      assert (a + b)[1..] == a[1..] + b;
      ReplaceConcat(a[1..], b, c, with);
    }
  }

  /** A replacement of one or two characters, computed outright. */
  lemma ReplaceShort(s: string, c: char, with: string)
    requires 1 <= |s| <= 2
    ensures |s| == 1 ==> Replace(s, c, with) == if s[0] == c then with else s
    ensures |s| == 2 && s[0] != c ==> Replace(s, c, with) == [s[0]] + (if s[1] == c then with else [s[1]])
  {
    assert Replace(s[1..], c, with) == if |s| == 1 then [] else (if s[1] == c then with else [s[1]]) + Replace(s[2..], c, with);
  }

  /** The three passes are one escape per character. */
  lemma {:induction false} ThreePasses(search: string)
    ensures EscapedSearch(search) == EscapedEach(search)
  {
    if search != [] {
      var head, tail := search[..1], search[1..];
      assert search == head + tail;
      ReplaceConcat(head, tail, '\\', "\\\\");
      var h1, t1 := Replace(head, '\\', "\\\\"), Replace(tail, '\\', "\\\\");
      ReplaceConcat(h1, t1, '%', "\\%");
      var h2, t2 := Replace(h1, '%', "\\%"), Replace(t1, '%', "\\%");
      ReplaceConcat(h2, t2, '_', "\\_");
      ReplaceShort(head, '\\', "\\\\");
      ReplaceShort(h1, '%', "\\%");
      ReplaceShort(h2, '_', "\\_");
      ThreePasses(tail);
    }
  }

  // ------------------------------------------------------- exactness

  function Literals(s: string): seq<Token> { seq(|s|, i requires 0 <= i < |s| => Literal(s[i])) }

  /** The pattern reads back as the literal search text between two wildcards. */
  lemma {:induction false} EscapedTokens(fold: char -> char, s: string)
    requires KeepsMarks(fold)
    ensures Tokens(Folded(fold, EscapedEach(s) + "%")) == Some(Literals(Folded(fold, s)) + [AnyRun])
  {
    var p := Folded(fold, EscapedEach(s) + "%");
    if s == [] {
      assert p == ['%'];
      assert Tokens(p[1..]) == Some([]);
      assert [AnyRun] + [] == Literals(Folded(fold, s)) + [AnyRun];
    } else {
      EscapedTokens(fold, s[1..]);
      var rest := Folded(fold, EscapedEach(s[1..]) + "%");
      var n := |EscapedOne(s[0])|;
      assert p[n..] == rest;
      assert p[n - 1] == fold(s[0]);
      assert n == 2 ==> p[0] == '\\';
      assert Tokens(p) == Some([Literal(fold(s[0]))] + Tokens(rest).value);
      assert [Literal(fold(s[0]))] + Literals(Folded(fold, s[1..])) == Literals(Folded(fold, s));
      assert [Literal(fold(s[0]))] + (Literals(Folded(fold, s[1..])) + [AnyRun])
          == ([Literal(fold(s[0]))] + Literals(Folded(fold, s[1..]))) + [AnyRun];
    }
  }

  lemma {:induction false} TrailingRunMatchesAll(t: string)
    ensures Matches([AnyRun], t)
  {
    if t != [] {
      TrailingRunMatchesAll(t[1..]);
    } else {
      assert [AnyRun][1..] == [];
    }
  }

  lemma {:induction false} LiteralsMatchPrefix(s: string, t: string)
    ensures Matches(Literals(s) + [AnyRun], t) <==> s <= t
  {
    var ts := Literals(s) + [AnyRun];
    if s == [] {
      assert ts == [AnyRun];
      TrailingRunMatchesAll(t);
    } else {
      assert ts[0] == Literal(s[0]);
      assert ts[1..] == Literals(s[1..]) + [AnyRun];
      if t != [] {
        LiteralsMatchPrefix(s[1..], t[1..]);
        assert s <= t <==> s[0] == t[0] && s[1..] <= t[1..];
      }
    }
  }

  lemma {:induction false} WildcardSlides(s: string, t: string)
    ensures Matches([AnyRun] + (Literals(s) + [AnyRun]), t) <==>
            exists i :: 0 <= i <= |t| - |s| && OccursAt(t, s, i)
  {
    var rest := Literals(s) + [AnyRun];
    var ts := [AnyRun] + rest;
    assert ts[1..] == rest;
    LiteralsMatchPrefix(s, t);
    assert s <= t <==> (|s| <= |t| && OccursAt(t, s, 0));
    if t != [] {
      WildcardSlides(s, t[1..]);
      forall i | 0 <= i <= |t| - 1 - |s|
        ensures OccursAt(t[1..], s, i) == OccursAt(t, s, i + 1)
      {
        assert t[1..][i..i + |s|] == t[i + 1..i + 1 + |s|];
      }
      if i :| 0 <= i <= |t| - |s| && OccursAt(t, s, i) && i > 0 {
        assert OccursAt(t[1..], s, i - 1);
      }
    }
  }

  /** A search never fails to parse, and it selects exactly the names that
      contain the search text, every character taken literally. */
  lemma LiteralSearchExact(fold: char -> char, search: string, name: string)
    requires KeepsMarks(fold)
    ensures ILike(fold, SearchPattern(search), name) == Some(ContainsFolded(fold, name, search))
  {
    ThreePasses(search);
    EscapedTokens(fold, search);
    var p := Folded(fold, SearchPattern(search));
    assert p[1..] == Folded(fold, EscapedEach(search) + "%");
    assert p[0] == '%';
    WildcardSlides(Folded(fold, search), Folded(fold, name));
  }

  // ------------------------------------------- why the backslash goes first

  function BackslashLast(search: string): string {
    Replace(Replace(Replace(search, '%', "\\%"), '_', "\\_"), '\\', "\\\\")
  }

  function BackslashLastEach(s: string): string {
    if s == [] then []
    else (if s[0] == '\\' then ['\\', '\\']
          else if Mark(s[0]) then ['\\', '\\', s[0]] else [s[0]]) + BackslashLastEach(s[1..])
  }

  lemma {:induction false} ReplaceAbsent(s: string, c: char, with: string)
    requires c !in s
    ensures Replace(s, c, with) == s
  {
    if s != [] { ReplaceAbsent(s[1..], c, with); }
  }

  lemma {:induction false} BackslashLastPasses(search: string)
    ensures BackslashLast(search) == BackslashLastEach(search)
  {
    if search != [] {
      var head, tail := search[..1], search[1..];
      assert search == head + tail;
      ReplaceConcat(head, tail, '%', "\\%");
      var h1, t1 := Replace(head, '%', "\\%"), Replace(tail, '%', "\\%");
      ReplaceConcat(h1, t1, '_', "\\_");
      var h2, t2 := Replace(h1, '_', "\\_"), Replace(t1, '_', "\\_");
      ReplaceConcat(h2, t2, '\\', "\\\\");
      ReplaceShort(head, '%', "\\%");
      ReplaceShort(h1, '_', "\\_");
      assert |h2| == 2 ==> h2 == ['\\'] + h2[1..];
      ReplaceConcat(h2[..1], h2[1..], '\\', "\\\\");
      assert h2 == h2[..1] + h2[1..];
      ReplaceShort(h2[..1], '\\', "\\\\");
      if |h2| == 2 { ReplaceShort(h2[1..], '\\', "\\\\"); }
      BackslashLastPasses(tail);
    }
  }

  function Backslashes(t: string): nat {
    if t == [] then 0 else (if t[0] == '\\' then 1 else 0) + Backslashes(t[1..])
  }

  function LiteralBackslashes(ts: seq<Token>): nat {
    if ts == [] then 0 else (if ts[0] == Literal('\\') then 1 else 0) + LiteralBackslashes(ts[1..])
  }

  function Marks(t: string): nat { if t == [] then 0 else (if Mark(t[0]) then 1 else 0) + Marks(t[1..]) }

  /** A text that matches has at least as many backslashes as its pattern asks for. */
  lemma {:induction false} MatchNeedsBackslashes(ts: seq<Token>, t: string)
    requires Matches(ts, t)
    ensures LiteralBackslashes(ts) <= Backslashes(t)
    decreases |ts| + |t|
  {
    if ts != [] {
      if ts[0] == AnyRun && !Matches(ts[1..], t) {
        MatchNeedsBackslashes(ts, t[1..]);
      } else {
        MatchNeedsBackslashes(ts[1..], if ts[0] == AnyRun then t else t[1..]);
      }
    }
  }

  lemma {:induction false} BackslashLastTokens(fold: char -> char, s: string)
    requires KeepsMarks(fold)
    ensures Tokens(Folded(fold, BackslashLastEach(s) + "%")).Some?
    ensures LiteralBackslashes(Tokens(Folded(fold, BackslashLastEach(s) + "%")).value) == Marks(s)
  {
    var p := Folded(fold, BackslashLastEach(s) + "%");
    if s == [] {
      assert p == ['%'] && p[1..] == [];
      assert Tokens(p) == Some([AnyRun] + []);
    } else {
      BackslashLastTokens(fold, s[1..]);
      var rest := Folded(fold, BackslashLastEach(s[1..]) + "%");
      if Mark(s[0]) {
        assert p[0] == '\\' && p[1] == '\\';
        if s[0] == '\\' {
          assert p[2..] == rest;
          assert Tokens(p) == Some([Literal('\\')] + Tokens(rest).value);
        } else {
          assert p[2..][1..] == rest && p[2] == s[0];
          assert Tokens(p) == Some([Literal('\\')] + Tokens(p[2..]).value);
        }
      } else {
        assert p[1..] == rest && !Mark(p[0]);
        assert Tokens(p) == Some([Literal(p[0])] + Tokens(rest).value);
      }
    }
  }

  lemma {:induction false} FoldKeepsBackslashes(fold: char -> char, s: string)
    requires KeepsMarks(fold)
    ensures Backslashes(Folded(fold, s)) == Backslashes(s)
    ensures Backslashes(s) <= Marks(s)
    ensures '%' in s || '_' in s ==> Backslashes(s) < Marks(s)
  {
    if s != [] {
      assert Folded(fold, s)[1..] == Folded(fold, s[1..]);
      FoldKeepsBackslashes(fold, s[1..]);
    }
  }

  /** Escaping the backslash last is exact only for search texts without a
      wildcard: any other text then fails to find even a name equal to itself. */
  lemma BackslashMustGoFirst(fold: char -> char, search: string)
    requires KeepsMarks(fold)
    ensures '%' !in search && '_' !in search <==>
            forall name :: ILike(fold, "%" + BackslashLast(search) + "%", name)
                        == Some(ContainsFolded(fold, name, search))
  {
    if '%' !in search && '_' !in search {
      ReplaceAbsent(search, '%', "\\%");
      ReplaceAbsent(search, '_', "\\_");
      ThreePasses(search);
      BackslashLastPasses(search);
      SameWithoutWildcards(search);
      forall name
        ensures ILike(fold, "%" + BackslashLast(search) + "%", name) == Some(ContainsFolded(fold, name, search))
      {
        LiteralSearchExact(fold, search, name);
      }
    } else {
      BackslashLastPasses(search);
      BackslashLastTokens(fold, search);
      FoldKeepsBackslashes(fold, search);
      var p := Folded(fold, "%" + BackslashLast(search) + "%");
      assert p[1..] == Folded(fold, BackslashLastEach(search) + "%") && p[0] == '%';
      var rest := Tokens(p[1..]).value;
      var ts := [AnyRun] + rest;
      assert Tokens(p) == Some(ts) && ts[1..] == rest;
      if Matches(ts, Folded(fold, search)) { MatchNeedsBackslashes(ts, Folded(fold, search)); }
      assert OccursAt(Folded(fold, search), Folded(fold, search), 0);
      assert ContainsFolded(fold, search, search);
    }
  }

  lemma {:induction false} SameWithoutWildcards(s: string)
    requires '%' !in s && '_' !in s
    ensures BackslashLastEach(s) == EscapedEach(s)
  {
    if s != [] { SameWithoutWildcards(s[1..]); }
  }
}
