/** The Redis key scheme. A data key is `cache:v1:{generation}:{suffix}` and the
    suffix names one item, one digest of list parameters, or one API version. */
module CacheKeys {
  import opened Decimal

  const CACHE_GENERATION_KEY := "cache:items:generation"

  datatype Suffix = ItemSuffix(gameId: int) | ListSuffix(digest: string) | MetaSuffix(apiVersion: string)

  function SuffixText(s: Suffix): string {
    match s
    case ItemSuffix(gameId) => "item:" + DecInt(gameId)
    case ListSuffix(digest) => "list:" + digest
    case MetaSuffix(apiVersion) => "meta:" + apiVersion
  }

  function Key(generation: nat, s: Suffix): string {
    "cache:v1:" + Dec(generation) + ":" + SuffixText(s)
  }

  /** The three suffix families are disjoint and each is injective. */
  lemma SuffixInjective(a: Suffix, b: Suffix)
    ensures SuffixText(a) == SuffixText(b) <==> a == b
  {
    if SuffixText(a) == SuffixText(b) {
      var t := SuffixText(a);
      assert t[0] == SuffixText(b)[0];
      match a
      case ItemSuffix(x) =>
        assert t[5..] == DecInt(x);
        assert b.ItemSuffix? && t[5..] == DecInt(b.gameId);
        DecIntInjective(x, b.gameId);
      case ListSuffix(x) => assert t[5..] == x; assert b.ListSuffix? && t[5..] == b.digest;
      case MetaSuffix(x) => assert t[5..] == x; assert b.MetaSuffix? && t[5..] == b.apiVersion;
    }
  }

  /** The first ':' ends a run of digits, so the text splits in only one way. */
  lemma SplitAtColon(d1: string, rest1: string, d2: string, rest2: string)
    requires AllDigits(d1) && AllDigits(d2)
    requires d1 + ":" + rest1 == d2 + ":" + rest2
    ensures d1 == d2 && rest1 == rest2
  {
    var t := d1 + ":" + rest1;
    assert t[|d1|] == ':' && t[|d2|] == ':';
    assert forall i :: 0 <= i < |d2| ==> t[i] == d2[i];
    assert forall i :: 0 <= i < |d1| ==> t[i] == d1[i];
    assert |d1| == |d2|;
    assert t[..|d1|] == d1 && t[..|d2|] == d2;
    assert t[|d1| + 1..] == rest1 && t[|d2| + 1..] == rest2;
  }

  lemma DropText(prefix: string, a: string, b: string)
    ensures (prefix + a + ":" + b)[|prefix|..] == a + ":" + b
  {
  }

  lemma DropPrefix(g: nat, s: Suffix)
    ensures Key(g, s)[9..] == Dec(g) + ":" + SuffixText(s)
  {
    DropText("cache:v1:", Dec(g), SuffixText(s));
  }

  /** Two data keys are the same text only for the same generation and resource. */
  lemma KeyInjective(g1: nat, s1: Suffix, g2: nat, s2: Suffix)
    ensures Key(g1, s1) == Key(g2, s2) <==> g1 == g2 && s1 == s2
  {
    if Key(g1, s1) == Key(g2, s2) {
      ValueOfDec(g1);
      ValueOfDec(g2);
      DropPrefix(g1, s1);
      DropPrefix(g2, s2);
      SplitAtColon(Dec(g1), SuffixText(s1), Dec(g2), SuffixText(s2));
      DecInjective(g1, g2);
      SuffixInjective(s1, s2);
    }
  }

  /** No data key is the generation pointer's own key. */
  lemma DataKeyIsNotPointer(g: nat, s: Suffix)
    ensures Key(g, s) != CACHE_GENERATION_KEY
  {
    assert Key(g, s)[6] == 'v' && CACHE_GENERATION_KEY[6] == 'i';
  }

  lemma DecExamples()
    ensures Dec(100) == "100" && Dec(118) == "118"
  {
    assert Dec(10) == "10" && Dec(11) == "11";
  }

  /** The key of item 118 and of the metadata of version 0.1.0 under generation 100. */
  lemma KeyExamples()
    ensures Key(100, ItemSuffix(118)) == "cache:v1:100:item:118"
    ensures Key(100, MetaSuffix("0.1.0")) == "cache:v1:100:meta:0.1.0"
  {
    DecExamples();
  }
}
