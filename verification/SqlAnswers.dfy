/** The protocol's results for the real queries and the real keys. */
module SqlAnswers {
  import opened Prelude
  import opened ListParameters
  import opened ItemQuery
  import opened Catalog
  import opened Protocol
  import opened ProtocolInvariant
  import opened ReadGuarantees
  import CacheKeys

  // -------------------------------------------------------- physical order

  /** One way to lay the rows out; which one is unspecified. */
  ghost function HeapOf(rows: map<int, Row>): seq<GameItem>
    decreases |rows|
  {
    if exists g :: g in rows then
      var g :| g in rows;
      [rows[g].item] + HeapOf(rows - {g})
    else []
  }

  /** `heap` holds each row of the table exactly once, in any order. */
  ghost predicate Stores(heap: seq<GameItem>, rows: map<int, Row>) {
    forall x :: multiset(heap)[x] == Stored(rows, x)
  }

  function Stored(rows: map<int, Row>, x: GameItem): nat {
    if x.gameId in rows && rows[x.gameId].item == x then 1 else 0
  }

  ghost predicate Keyed(rows: map<int, Row>) { forall g :: g in rows ==> rows[g].item.gameId == g }

  lemma {:induction false} HeapStores(rows: map<int, Row>, x: GameItem)
    requires Keyed(rows)
    ensures multiset(HeapOf(rows))[x] == Stored(rows, x)
    decreases |rows|
  {
    if exists g :: g in rows {
      var g :| g in rows && HeapOf(rows) == [rows[g].item] + HeapOf(rows - {g});
      HeapStores(rows - {g}, x);
    }
  }

  lemma HeapIdsIdentify(heap: seq<GameItem>, rows: map<int, Row>)
    requires Stores(heap, rows)
    ensures IdsIdentify(heap)
  {
    forall a, b | a in heap && b in heap && a.gameId == b.gameId ensures a == b {
      assert multiset(heap)[a] == Stored(rows, a) && multiset(heap)[b] == Stored(rows, b);
      assert a in multiset(heap) && b in multiset(heap);
    }
  }

  /** The list and count statements, on whatever layout the table has. */
  ghost function SqlQueries(loc: Locale): Queries {
    Queries((v: Version, p: ListParams) => ListItems(loc, p, HeapOf(v.rows)), (v: Version, f: Filters) => CountItems(loc, f, HeapOf(v.rows)))
  }

  /** Any layout of the committed rows gives the same page and count. */
  lemma AnyLayout(loc: Locale, v: Version, p: ListParams, heap: seq<GameItem>)
    requires GoodLocale(loc) && Keyed(v.rows) && Stores(heap, v.rows)
    ensures SqlQueries(loc).list(v, p) == ListItems(loc, p, heap)
    ensures SqlQueries(loc).count(v, p.filters) == CountItems(loc, p.filters, heap)
  {
    var other := HeapOf(v.rows);
    forall x ensures multiset(heap)[x] == multiset(other)[x] { HeapStores(v.rows, x); }
    assert multiset(heap) == multiset(other);
    HeapIdsIdentify(heap, v.rows);
    PhysicalOrderIrrelevant(loc, p, heap, other);
  }

  /** The uncached list answer is the requested page and the matching count of
      the table, however it is laid out. */
  lemma UncachedList(loc: Locale, q: Queries, v: Version, p: ListParams, heap: seq<GameItem>, a: Answer)
    requires GoodLocale(loc) && q == SqlQueries(loc) && Keyed(v.rows) && Stores(heap, v.rows)
    requires Direct(q, ListOf(p), v, v) == Some(a)
    ensures a == ListAnswer(ListItems(loc, p, heap), CountItems(loc, p.filters, heap), p.limit, p.offset)
  {
    AnyLayout(loc, v, p, heap);
  }

  lemma LatestIsKeyed(q: Queries, es: seq<Event>)
    ensures Keyed(Latest(Run(q, es).shared).rows)
  {
    Reachable(q, es);
    var s := Run(q, es).shared;
    assert WellFormed(Table(s.history[|s.history| - 1].rows, s.nextId));
  }

  /** While the database is as it was when the generation was created, a list
      hit is the requested page and the matching count of the current table. */
  lemma QuiescentListHits(
    loc: Locale, q: Queries, es: seq<Event>, e: Event, r: nat, o: Outcome, p: ListParams, heap: seq<GameItem>)
    requires GoodLocale(loc) && q == SqlQueries(loc)
    requires var y := Run(q, es); r in y.readers && !y.readers[r].pc.Done? && y.readers[r].resource == ListOf(p)
    requires TrustedAnswer(Run(q, es + [e]), r, o) && o.Hit?
    requires var s := Run(q, es + [e]).shared; Quiescent(s) && Stores(heap, Latest(s).rows)
    ensures o.answer == ListAnswer(ListItems(loc, p, heap), CountItems(loc, p.filters, heap), p.limit, p.offset)
  {
    QuiescentHits(q, es, e, r, o);
    LatestIsKeyed(q, es + [e]);
    UncachedList(loc, q, Latest(Run(q, es + [e]).shared), p, heap, o.answer);
  }

  // --------------------------------------------------- what a list read says

  lemma AnyVersionIsKeyed(q: Queries, es: seq<Event>, v: nat)
    requires v < |Run(q, es).shared.history|
    ensures Keyed(Run(q, es).shared.history[v].rows)
  {
    Reachable(q, es);
    var s := Run(q, es).shared;
    assert WellFormed(Table(s.history[v].rows, s.nextId));
  }

  /** Every finished list read that is not a forged hit, hit or not, is the page of
      the rows one version has and the count of those a version not earlier has. */
  lemma ListAnswers(
    loc: Locale, q: Queries, es: seq<Event>, r: nat, o: Outcome, p: ListParams, heap1: seq<GameItem>, heap2: seq<GameItem>)
    requires GoodLocale(loc) && q == SqlQueries(loc)
    requires Finished(Run(q, es), r, o) && !o.Unavailable? && Run(q, es).readers[r].resource == ListOf(p)
    requires var s := Run(q, es).shared;
             && Genuine(s, ListOf(p), o) && From(o) <= Upto(o) <= Current(s)
             && Stores(heap1, s.history[From(o)].rows) && Stores(heap2, s.history[Upto(o)].rows)
    ensures Response(o) == Some(ListAnswer(ListItems(loc, p, heap1), CountItems(loc, p.filters, heap2), p.limit, p.offset))
  {
    FailOpen(q, es, r, o);
    var s := Run(q, es).shared;
    AnyVersionIsKeyed(q, es, From(o));
    AnyVersionIsKeyed(q, es, Upto(o));
    AnyLayout(loc, s.history[From(o)], p, heap1);
    AnyLayout(loc, s.history[Upto(o)], p, heap2);
  }

  lemma StoredAreUnique(heap: seq<GameItem>, rows: map<int, Row>)
    requires Stores(heap, rows)
    ensures UniqueIds(heap)
  {
    forall i, j | 0 <= i < j < |heap| ensures heap[i].gameId != heap[j].gameId {
      HeapIdsIdentify(heap, rows);
      if heap[i].gameId == heap[j].gameId {
        assert heap[i] in heap && heap[j] in heap;
        TwoPlaces(heap, i, j);
        assert false;
      }
    }
  }

  /** In the words of the request: the items are rows of that version that match
      the filters, in the requested order, and the total is the number of rows of
      the other version that match. */
  lemma ListAnswersMean(
    loc: Locale, q: Queries, es: seq<Event>, r: nat, o: Outcome, p: ListParams, heap1: seq<GameItem>, heap2: seq<GameItem>)
    requires GoodLocale(loc) && q == SqlQueries(loc)
    requires Finished(Run(q, es), r, o) && !o.Unavailable? && Run(q, es).readers[r].resource == ListOf(p)
    requires var s := Run(q, es).shared;
             && Genuine(s, ListOf(p), o) && From(o) <= Upto(o) <= Current(s)
             && Stores(heap1, s.history[From(o)].rows) && Stores(heap2, s.history[Upto(o)].rows)
    ensures Response(o).Some? && Response(o).value.ListAnswer?
    ensures var a := Response(o).value;
            && (forall x :: x in a.items ==> x in heap1 && Matches(loc, p.filters, x))
            && (forall i, j :: 0 <= i < j < |a.items| ==> StandsBefore(loc, p.sort, p.order, a.items[i], a.items[j]))
            && a.total == |Matching(loc, p.filters, heap2)| && a.limit == p.limit && a.offset == p.offset
  {
    ListAnswers(loc, q, es, r, o, p, heap1, heap2);
    StoredAreUnique(heap1, Run(q, es).shared.history[From(o)].rows);
    StoredAreUnique(heap2, Run(q, es).shared.history[Upto(o)].rows);
    PageMeaning(loc, p, heap1);
    CountIsCardinality(loc, p.filters, heap2);
  }

  // -------------------------------------------------------------------- keys

  function SuffixOf(digest: string -> string, r: Resource): CacheKeys.Suffix {
    match r
    case ItemOf(g) => CacheKeys.ItemSuffix(g)
    case ListOf(p) => CacheKeys.ListSuffix(digest(CanonicalJson(p)))
    case MetaOf(a) => CacheKeys.MetaSuffix(a)
  }

  function KeyText(digest: string -> string, k: DataKey): string {
    CacheKeys.Key(k.generation, SuffixOf(digest, k.resource))
  }

  /** Redis key texts distinguish generation and resource exactly, as long as
      the digest distinguishes the two canonical parameter texts involved. */
  lemma KeysNeverAlias(digest: string -> string, a: DataKey, b: DataKey)
    requires a.resource.ListOf? && b.resource.ListOf? ==>
               var x, y := CanonicalJson(a.resource.params), CanonicalJson(b.resource.params);
               digest(x) == digest(y) ==> x == y
    ensures KeyText(digest, a) == KeyText(digest, b) <==> a == b
    ensures KeyText(digest, a) != CacheKeys.CACHE_GENERATION_KEY
  {
    CacheKeys.KeyInjective(a.generation, SuffixOf(digest, a.resource), b.generation, SuffixOf(digest, b.resource));
    CacheKeys.DataKeyIsNotPointer(a.generation, SuffixOf(digest, a.resource));
    if a.resource.ListOf? && b.resource.ListOf? {
      CanonicalJsonInjective(a.resource.params, b.resource.params);
    }
  }
}
