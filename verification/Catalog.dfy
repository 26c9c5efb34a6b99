/** The write model: the items table with its surrogate ids, the metadata row,
    and what INSERT ... ON CONFLICT DO UPDATE does to them. */
module Catalog {
  import opened Prelude
  import opened ItemQuery

  const MAX_GAME_ID := 2147483647
  const MAX_SNAPSHOT_ITEMS := 10000

  datatype Row = Row(id: nat, item: GameItem, createdAt: int, updatedAt: int)

  datatype Metadata = Metadata(datasetVersion: string, gameVersion: Option<string>, lastSync: int)

  /** The rows by their unique game_id, and the next value of the id sequence. */
  datatype Table = Table(rows: map<int, Row>, nextId: nat)

  datatype Snapshot = Snapshot(datasetVersion: string, gameVersion: Option<string>, items: seq<GameItem>)

  // --------------------------------------------------------------- snapshots

  function IdSet(items: seq<GameItem>): set<int> { set x | x in items :: x.gameId }

  predicate DistinctIds(items: seq<GameItem>) {
    forall i, j :: 0 <= i < j < |items| ==> items[i].gameId != items[j].gameId
  }

  /** The bounds a validated snapshot meets; uniqueness is checked by comparing sizes. */
  predicate ValidSnapshot(s: Snapshot) {
    && 1 <= |s.items| <= MAX_SNAPSHOT_ITEMS
    && (forall x :: x in s.items ==> 0 < x.gameId <= MAX_GAME_ID && (x.quality.Some? ==> x.quality.value <= 4))
    && |s.items| == |IdSet(s.items)|
  }

  lemma DistinctStep(front: seq<GameItem>, last: GameItem)
    ensures IdSet(front + [last]) == IdSet(front) + {last.gameId}
    ensures DistinctIds(front + [last]) <==> DistinctIds(front) && last.gameId !in IdSet(front)
  {
    var items := front + [last];
    assert forall x :: x in items <==> x in front || x == last;
    assert forall i :: 0 <= i < |front| ==> items[i] == front[i] && front[i] in front;
    if DistinctIds(items) {
      forall i | 0 <= i < |front| ensures front[i].gameId != last.gameId {
        assert items[i].gameId != items[|front|].gameId;
      }
      assert forall i, j :: 0 <= i < j < |front| ==> items[i].gameId != items[j].gameId;
    }
  }

  /** Comparing the list's length with the set's size decides uniqueness exactly. */
  lemma {:induction false} SetSizeDecidesUniqueness(items: seq<GameItem>)
    ensures |IdSet(items)| <= |items|
    ensures |items| == |IdSet(items)| <==> DistinctIds(items)
  {
    if items != [] {
      var front, last := items[..|items| - 1], items[|items| - 1];
      SetSizeDecidesUniqueness(front);
      DistinctStep(front, last);
      assert items == front + [last];
    }
  }

  // -------------------------------------------------------------- statements

  /** One proposed row. The id default is drawn before the conflict is seen, so
      the sequence advances either way; on conflict id and created_at stay. */
  function UpsertRow(t: Table, x: GameItem, now: int): Table {
    var row := if x.gameId in t.rows then t.rows[x.gameId].(item := x, updatedAt := now)
               else Row(t.nextId, x, now, now);
    Table(t.rows[x.gameId := row], t.nextId + 1)
  }

  function UpsertAll(t: Table, items: seq<GameItem>, now: int): Table {
    if items == [] then t
    else UpsertRow(UpsertAll(t, items[..|items| - 1], now), items[|items| - 1], now)
  }

  /** One INSERT ... ON CONFLICT statement. The database rejects it when it
      would affect a row a second time. */
  function Statement(t: Table, batch: seq<GameItem>, now: int): Option<Table> {
    if DistinctIds(batch) then Some(UpsertAll(t, batch, now)) else None
  }

  /** The singleton metadata upsert with its guard `excluded.last_sync > last_sync`. */
  function UpsertMetadata(stored: Option<Metadata>, m: Metadata): Option<Metadata> {
    if stored.None? || m.lastSync > stored.value.lastSync then Some(m) else stored
  }

  // ----------------------------------------------------------------- batches

  /** `range(0, len(items), size)` and its slices. */
  function Batches(items: seq<GameItem>, size: nat): seq<seq<GameItem>>
    requires size > 0
  {
    if items == [] then []
    else [items[..Min(size, |items|)]] + Batches(items[Min(size, |items|)..], size)
  }

  function Joined(batches: seq<seq<GameItem>>): seq<GameItem> {
    if batches == [] then [] else batches[0] + Joined(batches[1..])
  }

  /** Whether the n-th statement of a transaction reaches the database. */
  type Connection = nat -> bool

  /** The batches executed one after another from statement `n` on; None where one fails. */
  function Executed(t: Table, batches: seq<seq<GameItem>>, now: int, c: Connection, n: nat): Option<Table>
    decreases |batches|
  {
    if batches == [] then Some(t)
    else if !c(n) then None
    else
      var after :- Statement(t, batches[0], now);
      Executed(after, batches[1..], now, c, n + 1)
  }

  lemma {:induction false} UpsertAllConcat(t: Table, a: seq<GameItem>, b: seq<GameItem>, now: int)
    ensures UpsertAll(t, a + b, now) == UpsertAll(UpsertAll(t, a, now), b, now)
  {
    if b == [] {
      assert a + b == a;
    } else {
      assert (a + b)[..|a + b| - 1] == a + b[..|b| - 1];
      UpsertAllConcat(t, a, b[..|b| - 1], now);
    }
  }

  /** The slices cover every item exactly once, in order, and none exceeds the batch size. */
  lemma {:induction false} BatchesCover(items: seq<GameItem>, size: nat)
    requires size > 0
    ensures Joined(Batches(items, size)) == items
    ensures forall b :: b in Batches(items, size) ==> 1 <= |b| <= size
  {
    if items != [] {
      var n := Min(size, |items|);
      BatchesCover(items[n..], size);
      assert items == items[..n] + items[n..];
      var rest := Batches(items[n..], size);
      assert Batches(items, size)[1..] == rest;
    }
  }

  /** When every statement lands, the batches have done one whole upsert. */
  lemma {:induction false} ExecutedMeaning(
    t: Table, items: seq<GameItem>, size: nat, now: int, c: Connection, n: nat)
    requires size > 0 && Executed(t, Batches(items, size), now, c, n).Some?
    ensures Executed(t, Batches(items, size), now, c, n) == Some(UpsertAll(t, items, now))
    decreases |items|
  {
    if items != [] {
      var k := Min(size, |items|);
      var head, tail := items[..k], items[k..];
      assert Batches(items, size)[1..] == Batches(tail, size);
      ExecutedMeaning(UpsertAll(t, head, now), tail, size, now, c, n + 1);
      UpsertAllConcat(t, head, tail, now);
      assert head + tail == items;
    }
  }

  /** The batches fail only for a lost connection or a batch that names an id twice. */
  lemma {:induction false} ExecutedExactly(t: Table, batches: seq<seq<GameItem>>, now: int, c: Connection, n: nat)
    ensures Executed(t, batches, now, c, n).Some? <==>
            && (forall b :: b in batches ==> DistinctIds(b))
            && (forall k :: n <= k < n + |batches| ==> c(k))
    decreases |batches|
  {
    if batches != [] {
      assert forall b :: b in batches <==> b == batches[0] || b in batches[1..];
      if c(n) && DistinctIds(batches[0]) {
        ExecutedExactly(UpsertAll(t, batches[0], now), batches[1..], now, c, n + 1);
      }
    }
  }

  lemma {:induction false} SlicesAreDistinct(items: seq<GameItem>, size: nat)
    requires size > 0 && DistinctIds(items)
    ensures forall b :: b in Batches(items, size) ==> DistinctIds(b)
    decreases |items|
  {
    if items != [] {
      var n := Min(size, |items|);
      SlicesAreDistinct(items[n..], size);
      assert DistinctIds(items[..n]);
      assert Batches(items, size)[1..] == Batches(items[n..], size);
    }
  }

  /** Batching is invisible: for a validated snapshot and any batch size, no
      statement touches a row twice, and together they are one whole upsert. */
  lemma BatchingIsInvisible(t: Table, s: Snapshot, size: nat, now: int, c: Connection, n: nat)
    requires size > 0 && ValidSnapshot(s)
    requires forall k :: n <= k < n + |Batches(s.items, size)| ==> c(k)
    ensures Executed(t, Batches(s.items, size), now, c, n) == Some(UpsertAll(t, s.items, now))
  {
    SetSizeDecidesUniqueness(s.items);
    SlicesAreDistinct(s.items, size);
    ExecutedExactly(t, Batches(s.items, size), now, c, n);
    ExecutedMeaning(t, s.items, size, now, c, n);
  }

  // --------------------------------------------------- what an upsert means

  /** The table's business content, without surrogate ids and timestamps. */
  function Business(rows: map<int, Row>): map<int, GameItem> { map g | g in rows :: rows[g].item }

  /** Writing items over earlier content, later ones last. */
  function Overlay(m: map<int, GameItem>, items: seq<GameItem>): map<int, GameItem> {
    if items == [] then m
    else Overlay(m, items[..|items| - 1])[items[|items| - 1].gameId := items[|items| - 1]]
  }

  /** Rows persist: nothing disappears and surrogate ids and creation times stay. */
  ghost predicate Persists(before: map<int, Row>, after: map<int, Row>) {
    forall g :: g in before ==> g in after && after[g].id == before[g].id && after[g].createdAt == before[g].createdAt
  }

  /** Each row is stored under its own game_id and surrogate ids are unique and already drawn. */
  ghost predicate WellFormed(t: Table) {
    && (forall g :: g in t.rows ==> t.rows[g].item.gameId == g && t.rows[g].id < t.nextId)
    && (forall g, h :: g in t.rows && h in t.rows && t.rows[g].id == t.rows[h].id ==> g == h)
  }

  /** Exactly what writing items with distinct ids at time `now` does to the rows:
      a row not proposed is untouched as a whole; a proposed one has the given
      item and is updated now; an old one keeps its id and creation time, a new
      one is created now, under an id above every earlier one. */
  ghost predicate Upserted(before: map<int, Row>, after: map<int, Row>, items: seq<GameItem>, now: int) {
    && after.Keys == before.Keys + IdSet(items)
    && (forall g :: g in before && g !in IdSet(items) ==> after[g] == before[g])
    && (forall x :: x in items ==> x.gameId in after && after[x.gameId].item == x && after[x.gameId].updatedAt == now)
    && (forall g :: g in before ==> after[g].id == before[g].id && after[g].createdAt == before[g].createdAt)
    && (forall g :: g in after && g !in before ==> after[g].createdAt == now)
    && (forall g, h :: g in after && g !in before && h in before ==> before[h].id < after[g].id)
  }

  lemma UpsertedStep(a: map<int, Row>, b: Table, front: seq<GameItem>, x: GameItem, now: int)
    requires Upserted(a, b.rows, front, now) && x.gameId !in IdSet(front)
    requires forall h :: h in a ==> a[h].id < b.nextId
    ensures Upserted(a, UpsertRow(b, x, now).rows, front + [x], now)
  {
    var after := UpsertRow(b, x, now).rows;
    DistinctStep(front, x);
    assert after.Keys == b.rows.Keys + {x.gameId};
    forall y | y in front + [x]
      ensures y.gameId in after && after[y.gameId].item == y && after[y.gameId].updatedAt == now
    {
      if y in front { assert y.gameId in IdSet(front); }
    }
    assert x.gameId in b.rows <==> x.gameId in a;
  }

  /** `UpsertAll` does exactly that, and gives new rows ids of its own range of the sequence. */
  lemma {:induction false} UpsertExactly(t: Table, items: seq<GameItem>, now: int)
    requires WellFormed(t) && DistinctIds(items)
    ensures var after := UpsertAll(t, items, now);
            && Upserted(t.rows, after.rows, items, now) && after.nextId == t.nextId + |items|
            && (forall g :: g in after.rows && g !in t.rows ==> t.nextId <= after.rows[g].id < after.nextId)
  {
    if items != [] {
      var front, last := items[..|items| - 1], items[|items| - 1];
      assert items == front + [last];
      DistinctStep(front, last);
      UpsertExactly(t, front, now);
      UpsertedStep(t.rows, UpsertAll(t, front, now), front, last, now);
    }
  }

  /** `after` is what the upsert makes of well-formed rows when the id sequence stands at `n`. */
  ghost predicate AppliedFrom(before: map<int, Row>, after: map<int, Row>, items: seq<GameItem>, now: int, n: nat) {
    WellFormed(Table(before, n)) && UpsertAll(Table(before, n), items, now).rows == after
  }

  ghost predicate Applied(before: map<int, Row>, after: map<int, Row>, items: seq<GameItem>, now: int) {
    exists n: nat :: AppliedFrom(before, after, items, now, n)
  }

  lemma AppliedExactly(before: map<int, Row>, after: map<int, Row>, items: seq<GameItem>, now: int)
    requires Applied(before, after, items, now) && DistinctIds(items)
    ensures Upserted(before, after, items, now)
  {
    var n: nat :| AppliedFrom(before, after, items, now, n);
    UpsertExactly(Table(before, n), items, now);
  }

  lemma UpsertRowMeaning(t: Table, x: GameItem, now: int)
    requires WellFormed(t)
    ensures WellFormed(UpsertRow(t, x, now))
    ensures Business(UpsertRow(t, x, now).rows) == Business(t.rows)[x.gameId := x]
    ensures Persists(t.rows, UpsertRow(t, x, now).rows)
  {
  }

  /** A run of upserts overlays the business content, keeps every earlier row's
      id and creation time, and draws one id per proposed row. */
  lemma {:induction false} UpsertMeaning(t: Table, items: seq<GameItem>, now: int)
    requires WellFormed(t)
    ensures WellFormed(UpsertAll(t, items, now))
    ensures Business(UpsertAll(t, items, now).rows) == Overlay(Business(t.rows), items)
    ensures Persists(t.rows, UpsertAll(t, items, now).rows)
    ensures UpsertAll(t, items, now).nextId == t.nextId + |items|
  {
    if items != [] {
      var front := items[..|items| - 1];
      UpsertMeaning(t, front, now);
      UpsertRowMeaning(UpsertAll(t, front, now), items[|items| - 1], now);
    }
  }

  lemma {:induction false} OverlayConcat(m: map<int, GameItem>, a: seq<GameItem>, b: seq<GameItem>)
    ensures Overlay(m, a + b) == Overlay(Overlay(m, a), b)
  {
    if b == [] {
      assert a + b == a;
    } else {
      assert (a + b)[..|a + b| - 1] == a + b[..|b| - 1];
      OverlayConcat(m, a, b[..|b| - 1]);
    }
  }

  /** With distinct ids the overlay holds exactly the given item under each given
      id and the earlier content everywhere else. */
  lemma {:induction false} OverlayContent(m: map<int, GameItem>, items: seq<GameItem>)
    requires DistinctIds(items)
    ensures Overlay(m, items).Keys == m.Keys + IdSet(items)
    ensures forall x :: x in items ==> Overlay(m, items)[x.gameId] == x
    ensures forall g :: g in m && g !in IdSet(items) ==> Overlay(m, items)[g] == m[g]
  {
    if items != [] {
      var front, last := items[..|items| - 1], items[|items| - 1];
      assert items == front + [last];
      DistinctStep(front, last);
      OverlayContent(m, front);
      forall x | x in items ensures Overlay(m, items)[x.gameId] == x {
        if x in front { assert x.gameId in IdSet(front); }
      }
    }
  }

  lemma OverlayValue(m: map<int, GameItem>, items: seq<GameItem>, g: int) returns (x: GameItem)
    requires DistinctIds(items) && g in IdSet(items)
    ensures x in items && x.gameId == g && g in Overlay(m, items) && Overlay(m, items)[g] == x
  {
    OverlayContent(m, items);
    x :| x in items && x.gameId == g;
  }

  /** The order of a snapshot's items does not matter. */
  lemma OverlayOrderFree(m: map<int, GameItem>, a: seq<GameItem>, b: seq<GameItem>)
    requires DistinctIds(a) && DistinctIds(b)
    requires forall x :: x in a <==> x in b
    ensures Overlay(m, a) == Overlay(m, b)
  {
    assert IdSet(a) == IdSet(b);
    OverlayContent(m, a);
    OverlayContent(m, b);
    forall g | g in Overlay(m, a) ensures Overlay(m, a)[g] == Overlay(m, b)[g] {
      if g in IdSet(a) { var x := OverlayValue(m, a, g); }
    }
  }

  lemma OverlayTwice(m: map<int, GameItem>, items: seq<GameItem>)
    requires DistinctIds(items)
    ensures Overlay(Overlay(m, items), items) == Overlay(m, items)
    ensures Overlay(m, items).Keys == m.Keys + IdSet(items)
  {
    var once := Overlay(m, items);
    OverlayContent(m, items);
    OverlayContent(once, items);
    forall g | g in once ensures Overlay(once, items)[g] == once[g] {
      if g in IdSet(items) { var x :| x in items && x.gameId == g; }
    }
  }

  /** Publishing the same items again changes no business field, row, id or creation time. */
  lemma RepeatingIsIdempotent(t: Table, items: seq<GameItem>, first: int, second: int)
    requires WellFormed(t) && DistinctIds(items)
    ensures var once := UpsertAll(t, items, first);
            var twice := UpsertAll(once, items, second);
            Business(twice.rows) == Business(once.rows) && Persists(once.rows, twice.rows)
  {
    UpsertMeaning(t, items, first);
    UpsertMeaning(UpsertAll(t, items, first), items, second);
    OverlayTwice(Business(t.rows), items);
  }

  // --------------------------------------------------------- the metadata row

  /** The singleton row after any writes of it, one after another. */
  function MetadataAfter(writes: seq<Metadata>): Option<Metadata> {
    if writes == [] then None else UpsertMetadata(MetadataAfter(writes[..|writes| - 1]), writes[|writes| - 1])
  }

  /** `k` is the first of the writes with the greatest timestamp. */
  predicate FirstNewest(writes: seq<Metadata>, k: nat) {
    && k < |writes|
    && (forall j :: 0 <= j < k ==> writes[j].lastSync < writes[k].lastSync)
    && (forall j :: k <= j < |writes| ==> writes[j].lastSync <= writes[k].lastSync)
  }

  /** Whatever is written in whatever order, the guard leaves the row as a whole
      at the first of the writes with the greatest timestamp: it never goes back,
      and a write with an equal timestamp changes nothing. */
  lemma {:induction false} MetadataIsNewest(writes: seq<Metadata>) returns (k: nat)
    requires writes != []
    ensures FirstNewest(writes, k) && MetadataAfter(writes) == Some(writes[k])
  {
    var n := |writes| - 1;
    if n == 0 {
      k := 0;
    } else {
      k := MetadataIsNewest(writes[..n]);
      if writes[k].lastSync < writes[n].lastSync { k := n; }
    }
  }
}
