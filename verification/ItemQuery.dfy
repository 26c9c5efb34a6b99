/** The read queries over the items table: filters, ordering with a unique
    tie-break, paging and counting. A table is seen here as the sequence of its
    rows in some physical order, each reduced to the fields a response carries. */
module ItemQuery {
  import opened Prelude
  import opened ListParameters
  import opened LiteralSearch

  /** The business fields of one item: what a snapshot supplies, what a row
      stores, and what a record or response repeats. */
  datatype GameItem = GameItem(
    gameId: int,
    name: string,
    description: string,
    quality: Option<nat>,
    itemType: Option<string>,
    rechargeTime: Option<string>,
    imageUrl: string,
    introducedIn: Option<string>)

  /** What the database brings: its lower-casing and its text collation. */
  datatype Locale = Locale(fold: char -> char, collates: (string, string) -> bool)

  /** The collation is a total order; equal texts are the same text. */
  ghost predicate GoodLocale(loc: Locale) {
    && KeepsMarks(loc.fold)
    && (forall a, b :: loc.collates(a, b) || loc.collates(b, a))
    && (forall a, b :: loc.collates(a, b) && loc.collates(b, a) ==> a == b)
    && (forall a, b, c :: loc.collates(a, b) && loc.collates(b, c) ==> loc.collates(a, c))
  }

  // ---------------------------------------------------------------- filters

  predicate Selects(loc: Locale, f: Filters, x: GameItem) {
    && (f.search.Some? ==> ILike(loc.fold, SearchPattern(f.search.value), x.name) == Some(true))
    && (f.quality.Some? ==> x.quality == f.quality)
    && (f.itemType.Some? ==> x.itemType == f.itemType)
    && (f.version.Some? ==> x.introducedIn == f.version)
  }

  /** The search filter never errs and takes every character of the search literally. */
  lemma SearchIsLiteral(loc: Locale, f: Filters, x: GameItem)
    requires KeepsMarks(loc.fold) && f.search.Some?
    ensures Selects(loc, f, x) <==>
            ContainsFolded(loc.fold, x.name, f.search.value) && Selects(loc, f.(search := None), x)
  {
    LiteralSearchExact(loc.fold, f.search.value, x.name);
  }

  function Selected(loc: Locale, f: Filters, heap: seq<GameItem>): seq<GameItem> {
    if heap == [] then []
    else (if Selects(loc, f, heap[0]) then [heap[0]] else []) + Selected(loc, f, heap[1..])
  }

  /** `SELECT count(*)` under the same filters. */
  function CountItems(loc: Locale, f: Filters, heap: seq<GameItem>): nat {
    if heap == [] then 0
    else (if Selects(loc, f, heap[0]) then 1 else 0) + CountItems(loc, f, heap[1..])
  }

  // --------------------------------------------------------------- ordering

  /** `a` does not come after `b` in ascending column order; null sorts as the largest quality. */
  predicate KeyAtMost(loc: Locale, s: Sort, a: GameItem, b: GameItem) {
    match s
    case ByName => loc.collates(a.name, b.name)
    case ByQuality => b.quality.None? || (a.quality.Some? && a.quality.value <= b.quality.value)
    case ByGameId => a.gameId <= b.gameId
  }

  /** `ORDER BY column [ASC|DESC], game_id ASC`. */
  predicate Precedes(loc: Locale, s: Sort, o: Order, a: GameItem, b: GameItem) {
    if KeyAtMost(loc, s, a, b) && KeyAtMost(loc, s, b, a) then a.gameId <= b.gameId
    else if o.Ascending? then KeyAtMost(loc, s, a, b)
    else KeyAtMost(loc, s, b, a)
  }

  function Insert(loc: Locale, s: Sort, o: Order, x: GameItem, sorted: seq<GameItem>): seq<GameItem> {
    if sorted == [] || Precedes(loc, s, o, x, sorted[0]) then [x] + sorted
    else [sorted[0]] + Insert(loc, s, o, x, sorted[1..])
  }

  function Ordered(loc: Locale, s: Sort, o: Order, rows: seq<GameItem>): seq<GameItem> {
    if rows == [] then [] else Insert(loc, s, o, rows[0], Ordered(loc, s, o, rows[1..]))
  }

  /** `OFFSET offset LIMIT limit`. */
  function Page(rows: seq<GameItem>, limit: nat, offset: nat): (page: seq<GameItem>)
    ensures |page| == Max(0, Min(limit, |rows| - offset))
  {
    rows[Min(offset, |rows|)..Min(offset + limit, |rows|)]
  }

  function FullResult(loc: Locale, p: ListParams, heap: seq<GameItem>): seq<GameItem> {
    Ordered(loc, p.sort, p.order, Selected(loc, p.filters, heap))
  }

  function ListItems(loc: Locale, p: ListParams, heap: seq<GameItem>): seq<GameItem> {
    Page(FullResult(loc, p, heap), p.limit, p.offset)
  }

  // ---------------------------------------------- the order is a total order

  lemma PrecedesIsTotal(loc: Locale, s: Sort, o: Order, a: GameItem, b: GameItem)
    requires GoodLocale(loc)
    ensures Precedes(loc, s, o, a, b) || Precedes(loc, s, o, b, a)
    ensures Precedes(loc, s, o, a, b) && Precedes(loc, s, o, b, a) ==> a.gameId == b.gameId
  {
    assert loc.collates(a.name, b.name) || loc.collates(b.name, a.name);
  }

  lemma KeyTransitive(loc: Locale, s: Sort, a: GameItem, b: GameItem, c: GameItem)
    requires GoodLocale(loc)
    requires KeyAtMost(loc, s, a, b) && KeyAtMost(loc, s, b, c)
    ensures KeyAtMost(loc, s, a, c)
  {
  }

  lemma PrecedesIsTransitive(loc: Locale, s: Sort, o: Order, a: GameItem, b: GameItem, c: GameItem)
    requires GoodLocale(loc)
    requires Precedes(loc, s, o, a, b) && Precedes(loc, s, o, b, c)
    ensures Precedes(loc, s, o, a, c)
  {
    assert KeyAtMost(loc, s, a, b) || KeyAtMost(loc, s, b, a);
    assert KeyAtMost(loc, s, b, c) || KeyAtMost(loc, s, c, b);
    if KeyAtMost(loc, s, a, b) && KeyAtMost(loc, s, b, c) { KeyTransitive(loc, s, a, b, c); }
    if KeyAtMost(loc, s, c, b) && KeyAtMost(loc, s, b, a) { KeyTransitive(loc, s, c, b, a); }
    if KeyAtMost(loc, s, c, a) && KeyAtMost(loc, s, a, b) { KeyTransitive(loc, s, c, a, b); }
    if KeyAtMost(loc, s, a, c) && KeyAtMost(loc, s, c, b) { KeyTransitive(loc, s, a, c, b); }
    if KeyAtMost(loc, s, b, c) && KeyAtMost(loc, s, c, a) { KeyTransitive(loc, s, b, c, a); }
    if KeyAtMost(loc, s, b, a) && KeyAtMost(loc, s, a, c) { KeyTransitive(loc, s, b, a, c); }
  }

  // ------------------------------------------------------------ sorted output

  predicate InOrder(loc: Locale, s: Sort, o: Order, rows: seq<GameItem>) {
    forall i, j :: 0 <= i < j < |rows| ==> Precedes(loc, s, o, rows[i], rows[j])
  }

  lemma {:induction false} InsertAddsOne(loc: Locale, s: Sort, o: Order, x: GameItem, sorted: seq<GameItem>)
    ensures multiset(Insert(loc, s, o, x, sorted)) == multiset(sorted) + multiset{x}
  {
    if !(sorted == [] || Precedes(loc, s, o, x, sorted[0])) {
      InsertAddsOne(loc, s, o, x, sorted[1..]);
      assert sorted == [sorted[0]] + sorted[1..];
    }
  }

  lemma InsertMembers(loc: Locale, s: Sort, o: Order, x: GameItem, sorted: seq<GameItem>, y: GameItem)
    requires y in Insert(loc, s, o, x, sorted)
    ensures y == x || y in sorted
  {
    InsertAddsOne(loc, s, o, x, sorted);
    assert y in multiset(Insert(loc, s, o, x, sorted));
  }

  lemma {:induction false} InsertKeepsOrder(loc: Locale, s: Sort, o: Order, x: GameItem, sorted: seq<GameItem>)
    requires GoodLocale(loc) && InOrder(loc, s, o, sorted)
    ensures InOrder(loc, s, o, Insert(loc, s, o, x, sorted))
  {
    if sorted == [] {
    } else if Precedes(loc, s, o, x, sorted[0]) {
      forall j | 0 <= j < |sorted| ensures Precedes(loc, s, o, x, sorted[j]) {
        if j > 0 { PrecedesIsTransitive(loc, s, o, x, sorted[0], sorted[j]); }
      }
    } else {
      var tail := Insert(loc, s, o, x, sorted[1..]);
      InsertKeepsOrder(loc, s, o, x, sorted[1..]);
      PrecedesIsTotal(loc, s, o, x, sorted[0]);
      forall y | y in tail ensures Precedes(loc, s, o, sorted[0], y) {
        InsertMembers(loc, s, o, x, sorted[1..], y);
      }
    }
  }

  lemma {:induction false} OrderedIsSorted(loc: Locale, s: Sort, o: Order, rows: seq<GameItem>)
    requires GoodLocale(loc)
    ensures InOrder(loc, s, o, Ordered(loc, s, o, rows))
    ensures multiset(Ordered(loc, s, o, rows)) == multiset(rows)
  {
    if rows != [] {
      OrderedIsSorted(loc, s, o, rows[1..]);
      InsertKeepsOrder(loc, s, o, rows[0], Ordered(loc, s, o, rows[1..]));
      InsertAddsOne(loc, s, o, rows[0], Ordered(loc, s, o, rows[1..]));
      assert rows == [rows[0]] + rows[1..];
    }
  }

  /** The unique index on game_id: an id names one row. */
  predicate IdsIdentify(rows: seq<GameItem>) {
    forall a, b :: a in rows && b in rows && a.gameId == b.gameId ==> a == b
  }

  lemma SameHead(loc: Locale, s: Sort, o: Order, x: seq<GameItem>, y: seq<GameItem>)
    requires GoodLocale(loc) && IdsIdentify(x) && x != [] && y != []
    requires InOrder(loc, s, o, x) && InOrder(loc, s, o, y)
    requires x[0] in y && y[0] in x
    ensures x[0] == y[0]
  {
    PrecedesIsTotal(loc, s, o, x[0], x[0]);
    PrecedesIsTotal(loc, s, o, x[0], y[0]);
    assert Precedes(loc, s, o, x[0], y[0]);
    assert Precedes(loc, s, o, y[0], x[0]);
  }

  lemma TailMultiset(x: seq<GameItem>)
    requires x != []
    ensures multiset(x[1..]) == multiset(x) - multiset{x[0]}
    ensures x[0] in multiset(x)
  {
    assert x == [x[0]] + x[1..];
  }

  lemma TailInOrder(loc: Locale, s: Sort, o: Order, x: seq<GameItem>)
    requires x != [] && InOrder(loc, s, o, x)
    ensures InOrder(loc, s, o, x[1..])
  {
    forall i, j | 0 <= i < j < |x[1..]| ensures Precedes(loc, s, o, x[1..][i], x[1..][j]) {
      assert Precedes(loc, s, o, x[i + 1], x[j + 1]);
    }
  }

  lemma {:induction false} SortedIsUnique(loc: Locale, s: Sort, o: Order, x: seq<GameItem>, y: seq<GameItem>)
    requires GoodLocale(loc) && IdsIdentify(x)
    requires InOrder(loc, s, o, x) && InOrder(loc, s, o, y)
    requires multiset(x) == multiset(y)
    ensures x == y
  {
    SameSize(x, y);
    if x != [] {
      SameHead(loc, s, o, x, y);
      SameTails(x, y);
      TailInOrder(loc, s, o, x);
      TailInOrder(loc, s, o, y);
      SortedIsUnique(loc, s, o, x[1..], y[1..]);
      assert x == [x[0]] + x[1..] && y == [y[0]] + y[1..];
    }
  }

  lemma SameSize(x: seq<GameItem>, y: seq<GameItem>)
    requires multiset(x) == multiset(y)
    ensures |x| == |y|
    ensures x != [] ==> x[0] in y && y[0] in x
  {
    assert |multiset(x)| == |x| && |multiset(y)| == |y|;
    if x != [] { assert x[0] in multiset(y) && y[0] in multiset(x); }
  }

  lemma SameTails(x: seq<GameItem>, y: seq<GameItem>)
    requires x != [] && y != [] && x[0] == y[0] && multiset(x) == multiset(y)
    ensures multiset(x[1..]) == multiset(y[1..])
  {
    TailMultiset(x);
    TailMultiset(y);
  }

  lemma {:induction false} SelectedCount(loc: Locale, f: Filters, heap: seq<GameItem>, x: GameItem)
    ensures multiset(Selected(loc, f, heap))[x] == if Selects(loc, f, x) then multiset(heap)[x] else 0
    ensures CountItems(loc, f, heap) == |Selected(loc, f, heap)|
  {
    if heap != [] {
      SelectedCount(loc, f, heap[1..], x);
      assert heap == [heap[0]] + heap[1..];
    }
  }

  // ------------------------------------------------------------ main results

  /** The answer does not depend on the order in which the table stores its rows. */
  lemma PhysicalOrderIrrelevant(loc: Locale, p: ListParams, heap1: seq<GameItem>, heap2: seq<GameItem>)
    requires GoodLocale(loc) && IdsIdentify(heap1)
    requires multiset(heap1) == multiset(heap2)
    ensures FullResult(loc, p, heap1) == FullResult(loc, p, heap2)
    ensures ListItems(loc, p, heap1) == ListItems(loc, p, heap2)
    ensures CountItems(loc, p.filters, heap1) == CountItems(loc, p.filters, heap2)
  {
    var s1, s2 := Selected(loc, p.filters, heap1), Selected(loc, p.filters, heap2);
    forall x ensures multiset(s1)[x] == multiset(s2)[x] {
      SelectedCount(loc, p.filters, heap1, x);
      SelectedCount(loc, p.filters, heap2, x);
    }
    assert multiset(s1) == multiset(s2);
    OrderedIsSorted(loc, p.sort, p.order, s1);
    OrderedIsSorted(loc, p.sort, p.order, s2);
    var r1 := FullResult(loc, p, heap1);
    forall x | x in r1 ensures x in heap1 {
      assert x in multiset(r1);
      SelectedCount(loc, p.filters, heap1, x);
    }
    SortedIsUnique(loc, p.sort, p.order, r1, FullResult(loc, p, heap2));
    assert |multiset(s1)| == |s1| && |multiset(s2)| == |s2|;
    if heap1 != [] { SelectedCount(loc, p.filters, heap1, heap1[0]); }
    if heap2 != [] { SelectedCount(loc, p.filters, heap2, heap2[0]); }
  }

  /** `k` consecutive pages of size `limit`, requested one after another from `p.offset` on. */
  function PagesFrom(loc: Locale, p: ListParams, heap: seq<GameItem>, k: nat): seq<GameItem>
    decreases k
  {
    if k == 0 then []
    else ListItems(loc, p, heap) + PagesFrom(loc, p.(offset := p.offset + p.limit), heap, k - 1)
  }

  lemma JoinPages(full: seq<GameItem>, a: nat, b: nat, c: nat)
    requires a <= b <= c
    ensures Between(full, a, b) + Between(full, b, c) == Between(full, a, c)
  {
  }

  /** How far `k` pages reach. */
  function Reach(limit: nat, k: nat): nat { if k == 0 then 0 else limit + Reach(limit, k - 1) }

  lemma {:induction false} ReachIsProduct(limit: nat, k: nat)
    ensures Reach(limit, k) == limit * k
  {
    if k > 0 { ReachIsProduct(limit, k - 1); }
  }

  lemma SameResult(loc: Locale, p: ListParams, heap: seq<GameItem>)
    ensures FullResult(loc, p.(offset := p.offset + p.limit), heap) == FullResult(loc, p, heap)
    ensures ListItems(loc, p, heap) == Page(FullResult(loc, p, heap), p.limit, p.offset)
  {
  }

  /** The rows of `full` from position `from` up to `upto`, as far as there are any. */
  function Between(full: seq<GameItem>, from: nat, upto: nat): seq<GameItem>
    requires from <= upto
  {
    full[Min(from, |full|)..Min(upto, |full|)]
  }

  /** `k` consecutive slices of a sequence. */
  function Slices(full: seq<GameItem>, limit: nat, from: nat, k: nat): seq<GameItem>
    decreases k
  {
    if k == 0 then [] else Between(full, from, from + limit) + Slices(full, limit, from + limit, k - 1)
  }

  lemma {:induction false} SlicesJoin(full: seq<GameItem>, limit: nat, from: nat, k: nat)
    ensures Slices(full, limit, from, k) == Between(full, from, from + Reach(limit, k))
    decreases k
  {
    if k > 0 {
      SlicesJoin(full, limit, from + limit, k - 1);
      JoinPages(full, from, from + limit, from + Reach(limit, k));
    }
  }

  lemma NextPages(loc: Locale, p: ListParams, heap: seq<GameItem>, k: nat)
    requires k > 0
    ensures PagesFrom(loc, p, heap, k)
         == Between(FullResult(loc, p, heap), p.offset, p.offset + p.limit)
          + PagesFrom(loc, p.(offset := p.offset + p.limit), heap, k - 1)
  {
    SameResult(loc, p, heap);
  }

  lemma {:induction false} PagesAreSlices(loc: Locale, p: ListParams, heap: seq<GameItem>, full: seq<GameItem>, k: nat)
    requires full == FullResult(loc, p, heap)
    ensures PagesFrom(loc, p, heap, k) == Slices(full, p.limit, p.offset, k)
    decreases k
  {
    hide FullResult, ListItems, Between;
    if k > 0 {
      SameResult(loc, p, heap);
      NextPages(loc, p, heap, k);
      PagesAreSlices(loc, p.(offset := p.offset + p.limit), heap, full, k - 1);
    }
  }

  lemma ResultContents(loc: Locale, p: ListParams, heap: seq<GameItem>)
    requires GoodLocale(loc)
    ensures InOrder(loc, p.sort, p.order, FullResult(loc, p, heap))
    ensures |FullResult(loc, p, heap)| == CountItems(loc, p.filters, heap)
    ensures forall x :: multiset(FullResult(loc, p, heap))[x]
                     == if Selects(loc, p.filters, x) then multiset(heap)[x] else 0
  {
    var s := Selected(loc, p.filters, heap);
    OrderedIsSorted(loc, p.sort, p.order, s);
    forall x ensures multiset(s)[x] == if Selects(loc, p.filters, x) then multiset(heap)[x] else 0 {
      SelectedCount(loc, p.filters, heap, x);
    }
    assert |s| == CountItems(loc, p.filters, heap) by {
      if heap != [] { SelectedCount(loc, p.filters, heap, heap[0]); }
    }
    assert |multiset(s)| == |s| && |multiset(FullResult(loc, p, heap))| == |FullResult(loc, p, heap)|;
  }

  lemma ResultLength(loc: Locale, p: ListParams, heap: seq<GameItem>)
    requires GoodLocale(loc)
    ensures |FullResult(loc, p, heap)| == CountItems(loc, p.filters, heap)
  {
    ResultContents(loc, p, heap);
  }

  lemma PagesReachEnd(loc: Locale, p: ListParams, heap: seq<GameItem>, full: seq<GameItem>, k: nat)
    requires full == FullResult(loc, p, heap) && |full| <= Reach(p.limit, k)
    ensures PagesFrom(loc, p.(offset := 0), heap, k) == full
  {
    PagesAreSlices(loc, p.(offset := 0), heap, full, k);
    SlicesJoin(full, p.limit, 0, k);
  }

  /** Pages at offsets 0, L, 2L, ... put together are the whole result: the
      selected rows, each as often as the table holds it, in the requested
      order, with no gap and no repeat. */
  lemma PagesPartitionResult(loc: Locale, p: ListParams, heap: seq<GameItem>, k: nat)
    requires GoodLocale(loc)
    requires CountItems(loc, p.filters, heap) <= p.limit * k
    ensures PagesFrom(loc, p.(offset := 0), heap, k) == FullResult(loc, p, heap)
    ensures InOrder(loc, p.sort, p.order, FullResult(loc, p, heap))
    ensures forall x :: multiset(FullResult(loc, p, heap))[x]
                     == if Selects(loc, p.filters, x) then multiset(heap)[x] else 0
  {
    ReachIsProduct(p.limit, k);
    ResultContents(loc, p, heap);
    PagesReachEnd(loc, p, heap, FullResult(loc, p, heap), k);
  }

  /** Each page is exactly as long as the separately computed count says. */
  lemma PageLength(loc: Locale, p: ListParams, heap: seq<GameItem>)
    requires GoodLocale(loc)
    ensures |ListItems(loc, p, heap)| == Max(0, Min(p.limit, CountItems(loc, p.filters, heap) - p.offset))
  {
    ResultLength(loc, p, heap);
    PageSize(FullResult(loc, p, heap), CountItems(loc, p.filters, heap), p.limit, p.offset);
  }

  lemma PageSize(full: seq<GameItem>, count: nat, limit: nat, offset: nat)
    requires |full| == count
    ensures |Page(full, limit, offset)| == Max(0, Min(limit, count - offset))
  {
  }

  // -------------------------------------------------- what the results mean

  /** What the filters ask of an item: a given search is contained in the name,
      letter case aside; a given value is that field's value, which null never is. */
  ghost predicate Matches(loc: Locale, f: Filters, x: GameItem) {
    && (f.search.Some? ==> ContainsFolded(loc.fold, x.name, f.search.value))
    && (f.quality.Some? ==> x.quality.Some? && x.quality.value == f.quality.value)
    && (f.itemType.Some? ==> x.itemType.Some? && x.itemType.value == f.itemType.value)
    && (f.version.Some? ==> x.introducedIn.Some? && x.introducedIn.value == f.version.value)
  }

  lemma SelectsExactly(loc: Locale, f: Filters, x: GameItem)
    requires KeepsMarks(loc.fold)
    ensures Selects(loc, f, x) <==> Matches(loc, f, x)
  {
    if f.search.Some? { SearchIsLiteral(loc, f, x); }
  }

  /** The full result holds exactly the table's rows that match, each as often
      as the table does. */
  lemma ResultExactly(loc: Locale, p: ListParams, heap: seq<GameItem>)
    requires GoodLocale(loc)
    ensures forall x :: x in FullResult(loc, p, heap) <==> x in heap && Matches(loc, p.filters, x)
    ensures forall x :: Matches(loc, p.filters, x) ==> multiset(FullResult(loc, p, heap))[x] == multiset(heap)[x]
  {
    ResultContents(loc, p, heap);
    var full := FullResult(loc, p, heap);
    forall x ensures x in full <==> x in heap && Matches(loc, p.filters, x)
      ensures Matches(loc, p.filters, x) ==> multiset(full)[x] == multiset(heap)[x]
    {
      SelectsExactly(loc, p.filters, x);
      assert multiset(full)[x] == if Selects(loc, p.filters, x) then multiset(heap)[x] else 0;
      assert x in full <==> x in multiset(full);
      assert x in heap <==> x in multiset(heap);
    }
  }

  /** The table's rows have distinct game_ids. */
  predicate UniqueIds(rows: seq<GameItem>) {
    forall i, j :: 0 <= i < j < |rows| ==> rows[i].gameId != rows[j].gameId
  }

  ghost function Matching(loc: Locale, f: Filters, heap: seq<GameItem>): set<GameItem> {
    set x | x in heap && Matches(loc, f, x)
  }

  lemma MatchingStep(loc: Locale, f: Filters, first: GameItem, rest: seq<GameItem>)
    requires first !in rest
    ensures first !in Matching(loc, f, rest)
    ensures Matching(loc, f, [first] + rest) == Matching(loc, f, rest) + if Matches(loc, f, first) then {first} else {}
  {
    assert forall x :: x in [first] + rest <==> x == first || x in rest;
  }

  /** The count is the number of exactly the rows that match. */
  lemma {:induction false} CountIsCardinality(loc: Locale, f: Filters, heap: seq<GameItem>)
    requires KeepsMarks(loc.fold) && UniqueIds(heap)
    ensures CountItems(loc, f, heap) == |Matching(loc, f, heap)|
  {
    if heap != [] {
      assert heap[0] !in heap[1..];
      CountIsCardinality(loc, f, heap[1..]);
      SelectsExactly(loc, f, heap[0]);
      MatchingStep(loc, f, heap[0], heap[1..]);
      assert heap == [heap[0]] + heap[1..];
    }
  }

  /** Where the requested order lets `a` stand before `b`: names in the order of
      the collation, qualities by value with null as the largest, ids by value,
      each turned round for descending; equal keys by ascending game_id in both. */
  predicate StandsBefore(loc: Locale, s: Sort, o: Order, a: GameItem, b: GameItem) {
    match s
    case ByName =>
      && (o.Ascending? ==> loc.collates(a.name, b.name))
      && (o.Descending? ==> loc.collates(b.name, a.name))
      && (a.name == b.name ==> a.gameId < b.gameId)
    case ByQuality =>
      && (o.Ascending? ==> (a.quality.None? ==> b.quality.None?))
      && (o.Descending? ==> (b.quality.None? ==> a.quality.None?))
      && (a.quality.Some? && b.quality.Some? ==>
            && (o.Ascending? ==> a.quality.value <= b.quality.value)
            && (o.Descending? ==> b.quality.value <= a.quality.value))
      && (a.quality == b.quality ==> a.gameId < b.gameId)
    case ByGameId =>
      && (o.Ascending? ==> a.gameId < b.gameId)
      && (o.Descending? ==> b.gameId < a.gameId)
  }

  lemma PrecedesMeans(loc: Locale, s: Sort, o: Order, a: GameItem, b: GameItem)
    requires GoodLocale(loc) && Precedes(loc, s, o, a, b) && a.gameId != b.gameId
    ensures StandsBefore(loc, s, o, a, b)
  {
    assert loc.collates(a.name, a.name);
    assert loc.collates(a.name, b.name) || loc.collates(b.name, a.name);
  }

  lemma UniqueMultiset(rows: seq<GameItem>, x: GameItem)
    requires UniqueIds(rows)
    ensures multiset(rows)[x] <= 1
    decreases |rows|
  {
    if rows != [] {
      UniqueMultiset(rows[1..], x);
      assert rows == [rows[0]] + rows[1..];
      assert rows[0] !in rows[1..];
    }
  }

  lemma TwoPlaces(rows: seq<GameItem>, i: nat, j: nat)
    requires i < j < |rows| && rows[i] == rows[j]
    ensures multiset(rows)[rows[i]] >= 2
  {
    assert rows == rows[..i] + [rows[i]] + rows[i + 1..j] + [rows[j]] + rows[j + 1..];
  }

  /** Of any two rows of the full result the earlier one stands before the later
      in the requested order. */
  lemma OrderMeaning(loc: Locale, p: ListParams, heap: seq<GameItem>, i: nat, j: nat)
    requires GoodLocale(loc) && UniqueIds(heap) && i < j < |FullResult(loc, p, heap)|
    ensures var full := FullResult(loc, p, heap); StandsBefore(loc, p.sort, p.order, full[i], full[j])
  {
    var full := FullResult(loc, p, heap);
    var a, b := full[i], full[j];
    ResultContents(loc, p, heap);
    ResultExactly(loc, p, heap);
    assert a in full && b in full;
    if a.gameId == b.gameId {
      assert a == b;
      TwoPlaces(full, i, j);
      UniqueMultiset(heap, a);
      assert false;
    }
    PrecedesMeans(loc, p.sort, p.order, a, b);
  }

  /** A page holds only matching rows of the table, in the requested order. */
  lemma PageMeaning(loc: Locale, p: ListParams, heap: seq<GameItem>)
    requires GoodLocale(loc) && UniqueIds(heap)
    ensures forall x :: x in ListItems(loc, p, heap) ==> x in heap && Matches(loc, p.filters, x)
    ensures var page := ListItems(loc, p, heap);
            forall i, j :: 0 <= i < j < |page| ==> StandsBefore(loc, p.sort, p.order, page[i], page[j])
  {
    var full, page := FullResult(loc, p, heap), ListItems(loc, p, heap);
    var start := Min(p.offset, |full|);
    ResultExactly(loc, p, heap);
    assert forall i :: 0 <= i < |page| ==> page[i] == full[start + i];
    forall i, j | 0 <= i < j < |page| ensures StandsBefore(loc, p.sort, p.order, page[i], page[j]) {
      OrderMeaning(loc, p, heap, start + i, start + j);
    }
  }
}
