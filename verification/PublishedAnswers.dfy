/** What readers are told, in terms of the rows that were committed and of the
    snapshots that were published. */
module PublishedAnswers {
  import opened Prelude
  import opened ItemQuery
  import opened Catalog
  import opened Protocol
  import opened ProtocolInvariant
  import opened ReadGuarantees
  import opened IngestionGuarantees

  // ------------------------------------------------------- published items

  predicate Names(p: Publication, g: int) { g in IdSet(p.snapshot.items) }

  /** Publication `k` is the last one to name `g`, and gives it as `x`. */
  ghost predicate NamedLast(log: seq<Publication>, k: nat, g: int, x: GameItem) {
    && k < |log| && x in log[k].snapshot.items && x.gameId == g
    && forall j :: k < j < |log| ==> !Names(log[j], g)
  }

  ghost predicate PublishedItem(log: seq<Publication>, g: int, x: GameItem) { exists k :: NamedLast(log, k, g, x) }

  ghost predicate NeverNamed(log: seq<Publication>, g: int) { forall j :: 0 <= j < |log| ==> !Names(log[j], g) }

  lemma {:induction false} FoldItems(log: seq<Publication>, g: int)
    requires forall k :: 0 <= k < |log| ==> DistinctIds(log[k].snapshot.items)
    ensures g in Fold(log) ==> PublishedItem(log, g, Fold(log)[g])
    ensures g !in Fold(log) ==> NeverNamed(log, g)
  {
    if log != [] {
      var n := |log| - 1;
      var front, items := log[..n], log[n].snapshot.items;
      FoldItems(front, g);
      OverlayContent(Fold(front), items);
      if Names(log[n], g) {
        var x :| x in items && x.gameId == g;
        assert NamedLast(log, n, g, x);
      } else if g in Fold(front) {
        var k: nat :| NamedLast(front, k, g, Fold(front)[g]);
        assert log[k] == front[k];
        assert NamedLast(log, k, g, Fold(log)[g]);
      }
    }
  }

  // ------------------------------------------------- what a version answers

  /** The item read at version `v`: the committed row of the id with every field
      as it was last published, or the absence of any publication that names it. */
  ghost predicate ItemAt(s: Shared, g: int, response: Option<Answer>, v: nat)
    requires v < |s.history|
  {
    && v <= |s.log|
    && match response
       case None => g !in s.history[v].rows && NeverNamed(s.log[..v], g)
       case Some(a) =>
         && a.ItemAnswer? && a.item.gameId == g
         && g in s.history[v].rows && a.item == s.history[v].rows[g].item
         && g in Fold(s.log[..v]) && a.item == Fold(s.log[..v])[g] && PublishedItem(s.log[..v], g, a.item)
  }

  /** The metadata read at version `v`: the texts and the stamp of the last
      publication, if any, and the number of items published by then. */
  ghost predicate MetaAt(s: Shared, apiVersion: string, response: Option<Answer>, v: nat)
    requires v < |s.history|
  {
    && v <= |s.log| && response.Some? && response.value.MetaAnswer?
    && var a := response.value;
    && a.apiVersion == apiVersion && a.count == |Fold(s.log[..v])| == |s.history[v].rows|
    && (if v == 0 then a.dataset == None else
          var p := s.log[v - 1];
          a.dataset == Some(Metadata(p.snapshot.datasetVersion, p.snapshot.gameVersion, p.stamp)))
  }

  lemma FoldAt(s: Shared, v: nat, g: int)
    requires HistoryInv(s) && v < |s.history|
    ensures g in s.history[v].rows <==> g in Fold(s.log[..v])
    ensures g in s.history[v].rows ==> s.history[v].rows[g].item == Fold(s.log[..v])[g]
  {
    HistoryIsFold(s, v);
    assert Business(s.history[v].rows).Keys == s.history[v].rows.Keys;
    if g in s.history[v].rows { assert Business(s.history[v].rows)[g] == s.history[v].rows[g].item; }
  }

  lemma SnapshotsDistinct(s: Shared)
    requires HistoryInv(s)
    ensures forall k :: 0 <= k < |s.log| ==> DistinctIds(s.log[k].snapshot.items)
  {
    forall k | 0 <= k < |s.log| ensures DistinctIds(s.log[k].snapshot.items) {
      assert Follows(s.history[k], s.log[k], s.history[k + 1]);
      SetSizeDecidesUniqueness(s.log[k].snapshot.items);
    }
  }

  lemma ItemOfVersion(q: Queries, s: Shared, g: int, v: nat)
    requires HistoryInv(s) && v < |s.history|
    ensures ItemAt(s, g, Direct(q, ItemOf(g), s.history[v], s.history[v]), v)
  {
    SnapshotsDistinct(s);
    FoldAt(s, v, g);
    FoldItems(s.log[..v], g);
    assert WellFormed(Table(s.history[v].rows, s.nextId));
  }

  lemma MetaOfVersion(q: Queries, s: Shared, apiVersion: string, v: nat)
    requires HistoryInv(s) && v < |s.history|
    ensures MetaAt(s, apiVersion, Direct(q, MetaOf(apiVersion), s.history[v], s.history[v]), v)
  {
    HistoryIsFold(s, v);
    assert Business(s.history[v].rows).Keys == s.history[v].rows.Keys;
    BusinessSize(s.history[v].rows);
    if v > 0 { assert Follows(s.history[v - 1], s.log[v - 1], s.history[v]); }
  }

  lemma {:induction false} BusinessSize(rows: map<int, Row>)
    ensures |Business(rows)| == |rows|
  {
    assert Business(rows).Keys == rows.Keys;
    assert |Business(rows)| == |Business(rows).Keys| && |rows| == |rows.Keys|;
  }

  // ------------------------------------------------------ answers over runs

  lemma DirectIgnoresSecond(q: Queries, r: Resource, v1: Version, v2: Version)
    requires !r.ListOf?
    ensures Direct(q, r, v1, v2) == Direct(q, r, v1, v1)
  {
  }

  /** Every finished item read, hit or not, that is not a forged hit answers with
      the row its version holds and with the item of the last publication that
      names the id; ITEM_NOT_FOUND means that none had named it. */
  lemma ItemAnswers(q: Queries, es: seq<Event>, r: nat, o: Outcome, g: int)
    requires Finished(Run(q, es), r, o) && !o.Unavailable? && Run(q, es).readers[r].resource == ItemOf(g)
    requires Genuine(Run(q, es).shared, ItemOf(g), o)
    ensures From(o) <= Current(Run(q, es).shared) && ItemAt(Run(q, es).shared, g, Response(o), From(o))
  {
    FailOpen(q, es, r, o);
    Reachable(q, es);
    var s := Run(q, es).shared;
    DirectIgnoresSecond(q, ItemOf(g), s.history[From(o)], s.history[Upto(o)]);
    ItemOfVersion(q, s, g, From(o));
  }

  /** The same for the metadata read. */
  lemma MetaAnswers(q: Queries, es: seq<Event>, r: nat, o: Outcome, apiVersion: string)
    requires Finished(Run(q, es), r, o) && !o.Unavailable? && Run(q, es).readers[r].resource == MetaOf(apiVersion)
    requires Genuine(Run(q, es).shared, MetaOf(apiVersion), o)
    ensures From(o) <= Current(Run(q, es).shared) && MetaAt(Run(q, es).shared, apiVersion, Response(o), From(o))
  {
    FailOpen(q, es, r, o);
    Reachable(q, es);
    var s := Run(q, es).shared;
    DirectIgnoresSecond(q, MetaOf(apiVersion), s.history[From(o)], s.history[Upto(o)]);
    MetaOfVersion(q, s, apiVersion, From(o));
  }
}
