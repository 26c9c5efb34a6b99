/** What ingestion guarantees, over every run: commits in timestamp order,
    each the fold of what was published before it. */
module IngestionGuarantees {
  import opened Prelude
  import opened Generation
  import opened ItemQuery
  import opened Catalog
  import opened Protocol
  import opened ProtocolInvariant
  import opened ReadGuarantees

  /** The business content after publishing snapshots one after another on an empty table. */
  function Fold(log: seq<Publication>): map<int, GameItem> {
    if log == [] then map[] else Overlay(Fold(log[..|log| - 1]), log[|log| - 1].snapshot.items)
  }

  lemma {:induction false} HistoryIsFold(s: Shared, k: nat)
    requires HistoryInv(s) && k <= |s.log|
    ensures Business(s.history[k].rows) == Fold(s.log[..k])
  {
    if k > 0 {
      HistoryIsFold(s, k - 1);
      assert Follows(s.history[k - 1], s.log[k - 1], s.history[k]);
      assert s.log[..k][..k - 1] == s.log[..k - 1];
    }
  }

  lemma {:induction false} StampsIncrease(s: Shared, i: nat, j: nat)
    requires HistoryInv(s) && i < j < |s.log|
    ensures s.log[i].stamp < s.log[j].stamp
    decreases j
  {
    assert Follows(s.history[j - 1], s.log[j - 1], s.history[j]);
    assert Follows(s.history[j], s.log[j], s.history[j + 1]);
    if i < j - 1 { StampsIncrease(s, i, j - 1); }
  }

  /** Whatever the interleaving and the failures, published timestamps strictly
      increase and each committed table is the fold of exactly the snapshots
      published so far, in that order. */
  lemma SerialInTimestampOrder(q: Queries, es: seq<Event>)
    ensures var s := Run(q, es).shared;
            && |s.history| == |s.log| + 1
            && (forall k :: 0 <= k < |s.history| ==> Business(s.history[k].rows) == Fold(s.log[..k]))
            && (forall i, j :: 0 <= i < j < |s.log| ==> s.log[i].stamp < s.log[j].stamp)
  {
    Reachable(q, es);
    var s := Run(q, es).shared;
    forall k | 0 <= k < |s.history| ensures Business(s.history[k].rows) == Fold(s.log[..k]) { HistoryIsFold(s, k); }
    forall i, j | 0 <= i < j < |s.log| ensures s.log[i].stamp < s.log[j].stamp { StampsIncrease(s, i, j); }
  }

  /** In every committed state the metadata names the snapshot whose items were
      applied last; items and metadata change together or not at all. */
  lemma MetadataDescribesItems(q: Queries, es: seq<Event>, k: nat)
    requires k < |Run(q, es).shared.history|
    ensures var s := Run(q, es).shared;
            && |s.history| == |s.log| + 1
            && (k == 0 ==> s.history[k] == Version(map[], None))
            && (k > 0 ==>
                  var p := s.log[k - 1];
                  && s.history[k].metadata == Some(Metadata(p.snapshot.datasetVersion, p.snapshot.gameVersion, p.stamp))
                  && (forall x :: x in p.snapshot.items ==>
                        x.gameId in s.history[k].rows && s.history[k].rows[x.gameId].item == x)
                  && (forall g :: g in s.history[k].rows && g !in IdSet(p.snapshot.items) ==>
                        g in s.history[k - 1].rows && s.history[k].rows[g].item == s.history[k - 1].rows[g].item))
  {
    Reachable(q, es);
    var s := Run(q, es).shared;
    if k > 0 {
      var p := s.log[k - 1];
      assert Follows(s.history[k - 1], p, s.history[k]);
      SetSizeDecidesUniqueness(p.snapshot.items);
      AppliedContent(s.history[k - 1].rows, s.history[k].rows, p.snapshot.items);
    }
  }

  lemma AppliedContent(before: map<int, Row>, after: map<int, Row>, items: seq<GameItem>)
    requires DistinctIds(items) && Business(after) == Overlay(Business(before), items)
    ensures forall x :: x in items ==> x.gameId in after && after[x.gameId].item == x
    ensures forall g :: g in after && g !in IdSet(items) ==> g in before && after[g].item == before[g].item
  {
    OverlayContent(Business(before), items);
    assert Business(after).Keys == after.Keys;
    forall g | g in after ensures after[g].item == Business(after)[g] {}
    forall x | x in items ensures x.gameId in after && after[x.gameId].item == x {
      assert x.gameId in IdSet(items);
      assert Business(after)[x.gameId] == x;
    }
    forall g | g in after && g !in IdSet(items) ensures g in before && after[g].item == before[g].item {
      assert g in Business(before);
    }
  }

  /** No row ever disappears, and its surrogate id and creation time never
      change; surrogate ids are unique although aborted runs burn sequence values.
      Each commit touches exactly the rows of its snapshot: they are updated at
      the time of its transaction, the new ones among them also created then,
      under ids above all earlier ones, and every other row stays as it was. */
  lemma IdentityIsStable(q: Queries, es: seq<Event>, i: nat, j: nat)
    requires i <= j < |Run(q, es).shared.history|
    ensures var s := Run(q, es).shared;
            Persists(s.history[i].rows, s.history[j].rows) && WellFormed(Table(s.history[j].rows, s.nextId))
    ensures var s := Run(q, es).shared;
            |s.history| == |s.log| + 1 &&
            (j > 0 ==> Upserted(s.history[j - 1].rows, s.history[j].rows, s.log[j - 1].snapshot.items, s.log[j - 1].now))
  {
    Reachable(q, es);
    var s := Run(q, es).shared;
    RowsPersist(s, i, j);
    if j > 0 { CommitUpserts(s, j); }
  }

  lemma CommitUpserts(s: Shared, j: nat)
    requires HistoryInv(s) && 0 < j <= |s.log|
    ensures Upserted(s.history[j - 1].rows, s.history[j].rows, s.log[j - 1].snapshot.items, s.log[j - 1].now)
  {
    var p := s.log[j - 1];
    assert Follows(s.history[j - 1], p, s.history[j]);
    SetSizeDecidesUniqueness(p.snapshot.items);
    AppliedExactly(s.history[j - 1].rows, s.history[j].rows, p.snapshot.items, p.now);
  }

  // ------------------------------------------------- one publication per run

  predicate AfterCommit(pc: IngesterPc) { pc.Checking? || pc.Bumping? || pc.Exited? || pc.Failed? }

  /** Each publication belongs to a run that has committed, carries that run's
      snapshot, and is that run's only one. */
  ghost predicate LogInv(y: System) {
    && (forall k :: 0 <= k < |y.shared.log| ==>
          var p := y.shared.log[k].run;
          p in y.ingesters && AfterCommit(y.ingesters[p].pc) && y.shared.log[k].snapshot == y.ingesters[p].snapshot)
    && (forall i, j :: 0 <= i < j < |y.shared.log| ==> y.shared.log[i].run != y.shared.log[j].run)
  }

  lemma IngestLog(s: Shared, p: nat, ing: Ingester, c: Choice)
    ensures var (t, pc) := IngestStepOf(s, p, ing, c);
            t.log != s.log ==>
              ing.pc.Described? && AfterCommit(pc) && t.log == s.log + [Publication(p, ing.snapshot, ing.pc.stamp, ing.pc.now)]
  {
    if ing.pc.Bumping? { BumpLog(s, ing.pc.ended, c.luck); }
  }

  lemma BumpLog(s: Shared, ended: nat, luck: Luck)
    ensures BumpStepOf(s, ended, luck).0.log == s.log
  {
  }

  lemma CacheLog(s: Shared, rd: Reader, luck: Luck, draw: Draw, fits: bool)
    ensures SameDatabase(s, CacheStepOf(s, rd, luck, draw, fits).0)
  {
  }

  /** Only a commit of the run that takes the step extends the log. */
  lemma LogStep(q: Queries, y: System, e: Event)
    ensures var z := Step(q, y, e);
            z.shared.log != y.shared.log ==>
              && e.Ingest? && e.ingester in y.ingesters && y.ingesters[e.ingester].pc.Described?
              && AfterCommit(z.ingesters[e.ingester].pc)
              && z.ingesters[e.ingester].snapshot == y.ingesters[e.ingester].snapshot
              && z.shared.log == y.shared.log
                   + [Publication(e.ingester, y.ingesters[e.ingester].snapshot, y.ingesters[e.ingester].pc.stamp,
                                  y.ingesters[e.ingester].pc.now)]
  {
    if e.Ingest? && e.ingester in y.ingesters {
      IngestLog(y.shared, e.ingester, y.ingesters[e.ingester], e.choice);
    } else if e.ReadCache? && e.reader in y.readers {
      CacheLog(y.shared, y.readers[e.reader], e.luck, e.draw, e.fits);
    }
  }

  lemma AfterCommitStays(s: Shared, p: nat, ing: Ingester, c: Choice)
    requires AfterCommit(ing.pc)
    ensures AfterCommit(IngestStepOf(s, p, ing, c).1)
  {
  }

  lemma IngestersStay(q: Queries, y: System, e: Event, p: nat)
    requires p in y.ingesters
    ensures var z := Step(q, y, e);
            p in z.ingesters && z.ingesters[p].snapshot == y.ingesters[p].snapshot
            && (AfterCommit(y.ingesters[p].pc) ==> AfterCommit(z.ingesters[p].pc))
  {
    if e.Ingest? && e.ingester == p && AfterCommit(y.ingesters[p].pc) {
      AfterCommitStays(y.shared, p, y.ingesters[p], e.choice);
    }
  }

  lemma LogStepKeeps(q: Queries, y: System, e: Event)
    requires LogInv(y)
    ensures LogInv(Step(q, y, e))
  {
    LogStep(q, y, e);
    var z := Step(q, y, e);
    forall k | 0 <= k < |y.shared.log|
      ensures var p := y.shared.log[k].run;
              p in z.ingesters && AfterCommit(z.ingesters[p].pc) && y.shared.log[k].snapshot == z.ingesters[p].snapshot
    {
      IngestersStay(q, y, e, y.shared.log[k].run);
    }
  }

  /** Every commit is one run's own snapshot, and no run commits twice. */
  lemma {:induction false} OnePublicationPerRun(q: Queries, es: seq<Event>)
    ensures LogInv(Run(q, es))
  {
    hide Step;
    if es != [] {
      OnePublicationPerRun(q, es[..|es| - 1]);
      LogStepKeeps(q, Run(q, es[..|es| - 1]), es[|es| - 1]);
    }
  }

  // ------------------------------------------- what a transaction publishes

  /** The transaction's stamp and time, from the lock to the commit. */
  predicate Carries(pc: IngesterPc, stamp: int, now: int) {
    match pc
    case Locked(st, n) => st == stamp && n == now
    case Writing(st, n, _, _) => st == stamp && n == now
    case Described(st, n, _) => st == stamp && n == now
    case _ => pc.Unchanged? || AfterCommit(pc)
  }

  ghost predicate PublishesOnly(y: System, p: nat, snapshot: Snapshot, stamp: int, now: int) {
    && p in y.ingesters && y.ingesters[p].snapshot == snapshot && Carries(y.ingesters[p].pc, stamp, now)
    && forall k :: 0 <= k < |y.shared.log| && y.shared.log[k].run == p ==> y.shared.log[k] == Publication(p, snapshot, stamp, now)
  }

  lemma CarriesStep(s: Shared, p: nat, ing: Ingester, c: Choice, stamp: int, now: int)
    requires Carries(ing.pc, stamp, now)
    ensures Carries(IngestStepOf(s, p, ing, c).1, stamp, now)
  {
    if AfterCommit(ing.pc) { AfterCommitStays(s, p, ing, c); }
  }

  lemma PublishesOnlyStep(q: Queries, y: System, e: Event, p: nat, snapshot: Snapshot, stamp: int, now: int)
    requires PublishesOnly(y, p, snapshot, stamp, now)
    ensures PublishesOnly(Step(q, y, e), p, snapshot, stamp, now)
  {
    LogStep(q, y, e);
    IngestersStay(q, y, e, p);
    if e.Ingest? && e.ingester == p { CarriesStep(y.shared, p, y.ingesters[p], e.choice, stamp, now); }
  }

  /** A run that holds the lock publishes, if it ever does, its own snapshot with
      the stamp it took before the lock, at its transaction's time. */
  lemma {:induction false} PublishesOwnTransaction(
    q: Queries, es: seq<Event>, more: seq<Event>, p: nat, snapshot: Snapshot, stamp: int, now: int)
    requires p in Run(q, es).ingesters && Run(q, es).ingesters[p] == Ingester(snapshot, Locked(stamp, now))
    ensures PublishesOnly(Run(q, es + more), p, snapshot, stamp, now)
    decreases |more|
  {
    hide Step;
    if more == [] {
      assert es + more == es;
      OnePublicationPerRun(q, es);
    } else {
      var front, e := more[..|more| - 1], more[|more| - 1];
      assert es + more == es + front + [e];
      PublishesOwnTransaction(q, es, front, p, snapshot, stamp, now);
      PublishesOnlyStep(q, Run(q, es + front), e, p, snapshot, stamp, now);
      RunExtend(q, es + front, e);
    }
  }

  // ------------------------------------------------------------- stale runs

  /** The run holds the lock with a timestamp not later than the recorded one, or has moved on from there. */
  ghost predicate Stale(y: System, p: nat) {
    && p in y.ingesters && StalePc(y.shared, y.ingesters[p].pc)
    && (forall k :: 0 <= k < |y.shared.log| ==> y.shared.log[k].run != p)
  }

  predicate StalePc(s: Shared, pc: IngesterPc) {
    match pc
    case Locked(stamp, _) => Latest(s).metadata.Some? && stamp <= Latest(s).metadata.value.lastSync
    case _ => pc.Unchanged? || AfterCommit(pc)
  }

  lemma OwnStaleStep(s: Shared, p: nat, ing: Ingester, c: Choice)
    requires StalePc(s, ing.pc)
    ensures var (t, pc) := IngestStepOf(s, p, ing, c); StalePc(t, pc) && !pc.Locked?
  {
    if AfterCommit(ing.pc) { AfterCommitStays(s, p, ing, c); }
  }

  /** While a run holds the lock, no event but its own touches the database. */
  lemma OthersLeaveDatabase(q: Queries, y: System, e: Event, p: nat)
    requires Inv(q, y) && p in y.ingesters && InTransaction(y.ingesters[p].pc)
    requires !(e.Ingest? && e.ingester == p)
    ensures SameDatabase(y.shared, Step(q, y, e).shared)
  {
    if e.Ingest? && e.ingester in y.ingesters {
      LockExcludes(y.shared, e.ingester, y.ingesters[e.ingester], e.choice, p, y.ingesters[p]);
    } else if e.ReadCache? && e.reader in y.readers {
      CacheLog(y.shared, y.readers[e.reader], e.luck, e.draw, e.fits);
    }
  }

  lemma StaleLog(q: Queries, y: System, e: Event, p: nat)
    requires p in y.ingesters && !y.ingesters[p].pc.Described?
    requires forall k :: 0 <= k < |y.shared.log| ==> y.shared.log[k].run != p
    ensures forall k :: 0 <= k < |Step(q, y, e).shared.log| ==> Step(q, y, e).shared.log[k].run != p
  {
    LogStep(q, y, e);
  }

  lemma OtherStaleStep(q: Queries, y: System, e: Event, p: nat)
    requires Inv(q, y) && p in y.ingesters && StalePc(y.shared, y.ingesters[p].pc)
    requires !(e.Ingest? && e.ingester == p)
    ensures var z := Step(q, y, e); p in z.ingesters && StalePc(z.shared, z.ingesters[p].pc)
  {
    if y.ingesters[p].pc.Locked? { OthersLeaveDatabase(q, y, e, p); }
  }

  lemma StaleStep(q: Queries, y: System, e: Event, p: nat)
    requires Inv(q, y) && Stale(y, p)
    ensures Stale(Step(q, y, e), p)
  {
    StaleLog(q, y, e, p);
    if e.Ingest? && e.ingester == p {
      OwnStaleStep(y.shared, p, y.ingesters[p], e.choice);
    } else {
      OtherStaleStep(q, y, e, p);
    }
  }

  /** A run that reaches the lock with a timestamp not later than the recorded
      one never publishes: nothing in the log will ever be its own. */
  lemma {:induction false} StaleRunChangesNothing(q: Queries, es: seq<Event>, more: seq<Event>, p: nat, stamp: int, now: int)
    requires var y := Run(q, es);
             && p in y.ingesters && y.ingesters[p].pc == Locked(stamp, now)
             && Latest(y.shared).metadata.Some? && stamp <= Latest(y.shared).metadata.value.lastSync
    ensures Stale(Run(q, es + more), p)
    decreases |more|
  {
    hide Step;
    if more == [] {
      assert es + more == es;
      OnePublicationPerRun(q, es);
    } else {
      var front, e := more[..|more| - 1], more[|more| - 1];
      assert es + more == es + front + [e];
      StaleRunChangesNothing(q, es, front, p, stamp, now);
      Reachable(q, es + front);
      StaleStep(q, Run(q, es + front), e, p);
      RunExtend(q, es + front, e);
    }
  }
}
