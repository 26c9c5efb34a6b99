/** The offline ingestion command: one locked, timestamp-ordered transaction,
    then the cache invalidation, amid every other actor. */
module IngestionService {
  import opened Prelude
  import opened Catalog
  import opened Protocol
  import opened ProtocolInvariant
  import opened IngestionGuarantees
  import opened Deployment
  import opened ItemCache

  /** How the transaction ended: an error (possibly after an unseen commit), a
      no-op that returns the recorded timestamp, or a publication with its own. */
  datatype Ingested = IngestFailed | AlreadyNewer(lastSync: int) | Published(lastSync: int)

  ghost predicate Stands(y: System, p: nat, snapshot: Snapshot, pc: IngesterPc) {
    p in y.ingesters && y.ingesters[p] == Ingester(snapshot, pc)
  }

  /** Version `ended` carries the returned timestamp, and for a publication it
      is this run's own snapshot. */
  ghost predicate Reflects(s: Shared, p: nat, snapshot: Snapshot, result: Ingested, ended: nat) {
    && ended <= Current(s)
    && (!result.IngestFailed? ==>
          s.history[ended].metadata.Some? && s.history[ended].metadata.value.lastSync == result.lastSync)
    && (result.Published? ==>
          && 0 < ended <= |s.log|
          && s.log[ended - 1] == Publication(p, snapshot, result.lastSync, s.log[ended - 1].now)
          && s.history[ended].metadata
               == Some(Metadata(snapshot.datasetVersion, snapshot.gameVersion, result.lastSync)))
  }

  /** The run published exactly when its stamp was later than the one recorded in
      the version it saw under the lock: the one before its own, or the unchanged one. */
  ghost predicate Decided(s: Shared, stamp: int, result: Ingested, ended: nat) {
    && !result.IngestFailed? && ended <= Current(s) && (result.Published? ==> 0 < ended && result.lastSync == stamp)
    && var seen := s.history[if result.Published? then ended - 1 else ended].metadata;
    (result.Published? <==> seen.None? || seen.value.lastSync < stamp)
  }

  lemma ReflectsLater(q: Queries, es: seq<Event>, fs: seq<Event>, p: nat, snapshot: Snapshot, result: Ingested, ended: nat)
    requires es <= fs && Reflects(Run(q, es).shared, p, snapshot, result, ended)
    ensures Reflects(Run(q, fs).shared, p, snapshot, result, ended)
    ensures forall stamp :: Decided(Run(q, es).shared, stamp, result, ended) ==> Decided(Run(q, fs).shared, stamp, result, ended)
  {
    assert fs == es + fs[|es|..];
    RunGrows(q, es, fs[|es|..]);
    LogGrows(q, es, fs[|es|..]);
  }

  lemma {:induction false} LogGrows(q: Queries, es: seq<Event>, more: seq<Event>)
    ensures Run(q, es).shared.log <= Run(q, es + more).shared.log
    decreases |more|
  {
    if more == [] {
      assert es + more == es;
    } else {
      var front, e := more[..|more| - 1], more[|more| - 1];
      LogGrows(q, es, front);
      assert es + more == es + front + [e];
      RunExtend(q, es + front, e);
      LogStep(q, Run(q, es + front), e);
    }
  }

  /** While a run is inside its transaction, whatever the others do leaves the
      tables, the id sequence and the lock as they are. */
  lemma {:induction false} HeldLockFreezes(q: Queries, p: nat, es: seq<Event>, fs: seq<Event>)
    requires OthersOnly(IngesterActor(p), es, fs)
    requires p in Run(q, es).ingesters && InTransaction(Run(q, es).ingesters[p].pc)
    ensures SameDatabase(Run(q, es).shared, Run(q, fs).shared)
    decreases |fs|
  {
    if |es| < |fs| {
      var front := fs[..|fs| - 1];
      HeldLockFreezes(q, p, es, front);
      OthersKeepLocal(q, IngesterActor(p), es, front);
      Reachable(q, front);
      assert !ByActor(IngesterActor(p), fs[|fs| - 1]);
      OthersLeaveDatabase(q, Run(q, front), fs[|fs| - 1], p);
    } else {
      assert es == fs;
    }
  }

  /** What a run that has written all its items holds, as the invariant has it. */
  lemma UpsertsExactly(q: Queries, es: seq<Event>, p: nat, snapshot: Snapshot, stamp: int, now: int, work: Version)
    requires Stands(Run(q, es), p, snapshot, Writing(stamp, now, |snapshot.items|, work))
    ensures Upserted(Latest(Run(q, es).shared).rows, work.rows, snapshot.items, now)
  {
    Reachable(q, es);
    assert IngesterInv(Run(q, es).shared, p, Run(q, es).ingesters[p]);
    assert snapshot.items[..|snapshot.items|] == snapshot.items;
    SetSizeDecidesUniqueness(snapshot.items);
    AppliedExactly(Latest(Run(q, es).shared).rows, work.rows, snapshot.items, now);
  }

  class Command {
    const servers: Servers
    const cache: RedisItemCache

    constructor (servers: Servers, cache: RedisItemCache)
      requires cache.servers == servers
      ensures this.servers == servers && this.cache == cache
    {
      this.servers, this.cache := servers, cache;
    }

    /** The others' turn, inside this run's transaction. */
    method Meanwhile(ghost p: nat)
      requires servers.Valid() && p in servers.ingesters && InTransaction(servers.ingesters[p].pc)
      modifies servers
      ensures servers.Valid() && old(servers.trace) <= servers.trace
      ensures p in servers.ingesters && servers.ingesters[p] == old(servers.ingesters[p])
      ensures SameDatabase(old(servers.shared), servers.shared)
    {
      servers.Others(IngesterActor(p));
      HeldLockFreezes(servers.q, p, old(servers.trace), servers.trace);
    }

    /** A step that ends the run with an error. */
    method Abort(ghost p: nat, ghost snapshot: Snapshot, ghost c: Choice, after: Shared)
      requires servers.Valid() && p in servers.ingesters && servers.ingesters[p].snapshot == snapshot
      requires IngestStepOf(servers.shared, p, servers.ingesters[p], c) == (after, Failed)
      modifies servers
      ensures servers.Valid() && old(servers.trace) <= servers.trace
      ensures Stands(servers.State(), p, snapshot, Failed)
    {
      servers.Update(after, Ingest(p, c));
    }

    /** `acquire_lock`: waiting is what the others do meanwhile; a lock still
        held when the command times out is a failure. */
    method AcquireLock(p: nat, ghost snapshot: Snapshot, ghost stamp: int, now: int) returns (ok: bool)
      requires servers.Valid() && Stands(servers.State(), p, snapshot, Stamped(stamp))
      modifies servers
      ensures servers.Valid() && old(servers.trace) <= servers.trace
      ensures Stands(servers.State(), p, snapshot, if ok then Locked(stamp, now) else Failed)
    {
      servers.Others(IngesterActor(p));
      ok := *;
      if ok && servers.shared.lock.None? {
        servers.Update(servers.shared.(lock := Some(p)), Ingest(p, Choice(Works, 0, now, 1)));
      } else {
        ok := false;
        Abort(p, snapshot, Choice(FailsBefore, 0, now, 1), servers.shared);
      }
    }

    /** One INSERT ... ON CONFLICT statement of the batch loop. */
    method UpsertBatch(p: nat, snapshot: Snapshot, stamp: int, now: int, done: nat, work: Version)
      returns (ok: bool, stop: nat, after: Version)
      requires servers.Valid() && done < |snapshot.items|
      requires Stands(servers.State(), p, snapshot, Writing(stamp, now, done, work))
      requires done == 0 ==> work == Latest(servers.shared)
      modifies servers
      ensures servers.Valid() && old(servers.trace) <= servers.trace
      ensures !ok ==> Stands(servers.State(), p, snapshot, Failed)
      ensures stop == Min(done + ITEM_BATCH_SIZE, |snapshot.items|)
      ensures ok ==>
                && Stands(servers.State(), p, snapshot, Writing(stamp, now, stop, after))
                && Latest(servers.shared) == Latest(old(servers.shared)) && after.metadata == work.metadata
                && Statement(Table(work.rows, old(servers.shared).nextId), snapshot.items[done..stop], now)
                   == Some(Table(after.rows, servers.shared.nextId))
    {
      stop, after := Min(done + ITEM_BATCH_SIZE, |snapshot.items|), work;
      Meanwhile(p);
      var luck: Luck := *;
      ghost var choice := Choice(luck, 0, 0, 1);
      var table := Statement(Table(work.rows, servers.shared.nextId), snapshot.items[done..stop], now);
      if luck == FailsBefore || table.None? {
        Abort(p, snapshot, choice, Release(servers.shared));
        return false, stop, work;
      }
      if luck == FailsAfter {
        Abort(p, snapshot, choice, Release(servers.shared.(nextId := table.value.nextId)));
        return false, stop, work;
      }
      servers.Update(servers.shared.(nextId := table.value.nextId), Ingest(p, choice));
      ok, after := true, Version(table.value.rows, work.metadata);
    }

    /** `upsert_items` within the transaction: the batch loop, each statement an
        atomic step amid the others. When it succeeds, the transaction's rows and
        the id sequence are those of one whole upsert on the committed rows. */
    method UpsertItems(p: nat, snapshot: Snapshot, stamp: int, now: int) returns (ok: bool, work: Version)
      requires servers.Valid()
      requires Stands(servers.State(), p, snapshot, Writing(stamp, now, 0, Latest(servers.shared)))
      modifies servers
      ensures servers.Valid() && old(servers.trace) <= servers.trace
      ensures !ok ==> Stands(servers.State(), p, snapshot, Failed)
      ensures ok ==>
                && Stands(servers.State(), p, snapshot, Writing(stamp, now, |snapshot.items|, work))
                && Latest(servers.shared) == Latest(old(servers.shared))
                && work.metadata == Latest(servers.shared).metadata
                && Table(work.rows, servers.shared.nextId)
                   == UpsertAll(Table(Latest(old(servers.shared)).rows, old(servers.shared).nextId), snapshot.items, now)
                && Upserted(Latest(old(servers.shared)).rows, work.rows, snapshot.items, now)
    {
      work := Latest(servers.shared);
      var done := 0;
      ghost var latest, start := work, Table(work.rows, servers.shared.nextId);
      while done < |snapshot.items|
        invariant servers.Valid() && old(servers.trace) <= servers.trace
        invariant done <= |snapshot.items|
        invariant Stands(servers.State(), p, snapshot, Writing(stamp, now, done, work))
        invariant Latest(servers.shared) == latest && work.metadata == latest.metadata
        invariant done == 0 ==> work == latest
        invariant Table(work.rows, servers.shared.nextId) == UpsertAll(start, snapshot.items[..done], now)
      {
        var stop;
        ok, stop, work := UpsertBatch(p, snapshot, stamp, now, done, work);
        if !ok { return; }
        UpsertAllConcat(start, snapshot.items[..done], snapshot.items[done..stop], now);
        assert snapshot.items[..done] + snapshot.items[done..stop] == snapshot.items[..stop];
        done := stop;
      }
      assert snapshot.items[..done] == snapshot.items;
      UpsertsExactly(servers.q, servers.trace, p, snapshot, stamp, now, work);
      ok := true;
    }

    /** `upsert_metadata` and the commit that follows it. */
    method DescribeAndCommit(p: nat, snapshot: Snapshot, stamp: int, now: int, work: Version)
      returns (result: Ingested, ghost ended: nat)
      requires servers.Valid()
      requires Stands(servers.State(), p, snapshot, Writing(stamp, now, |snapshot.items|, work))
      modifies servers
      ensures servers.Valid() && old(servers.trace) <= servers.trace
      ensures result.IngestFailed? ==> Stands(servers.State(), p, snapshot, Failed)
      ensures !result.IngestFailed? ==> result == Published(stamp) && Stands(servers.State(), p, snapshot, Checking(Look, ended))
      ensures !result.IngestFailed? ==> Reflects(servers.shared, p, snapshot, result, ended)
      ensures !result.IngestFailed? ==> Decided(servers.shared, stamp, result, ended)
    {
      Meanwhile(p);
      var luck: Luck := *;
      if luck != Works {
        Abort(p, snapshot, Choice(luck, 0, 0, 1), Release(servers.shared));
        return IngestFailed, 0;
      }
      var m := Metadata(snapshot.datasetVersion, snapshot.gameVersion, stamp);
      var described := work.(metadata := UpsertMetadata(work.metadata, m));
      servers.Record(Ingest(p, Choice(Works, 0, 0, 1)));
      result, ended := Commit(p, snapshot, stamp, now, described);
    }

    method Commit(p: nat, snapshot: Snapshot, stamp: int, now: int, work: Version)
      returns (result: Ingested, ghost ended: nat)
      requires servers.Valid() && Stands(servers.State(), p, snapshot, Described(stamp, now, work))
      modifies servers
      ensures servers.Valid() && old(servers.trace) <= servers.trace
      ensures result.IngestFailed? ==> Stands(servers.State(), p, snapshot, Failed)
      ensures !result.IngestFailed? ==> result == Published(stamp) && Stands(servers.State(), p, snapshot, Checking(Look, ended))
      ensures !result.IngestFailed? ==> Reflects(servers.shared, p, snapshot, result, ended)
      ensures !result.IngestFailed? ==> Decided(servers.shared, stamp, result, ended)
    {
      Meanwhile(p);
      var luck: Luck := *;
      ghost var choice := Choice(luck, 0, 0, 1);
      if luck == FailsBefore {
        Abort(p, snapshot, choice, Release(servers.shared));
        return IngestFailed, 0;
      }
      Reachable(servers.q, servers.trace);
      assert IngesterInv(servers.shared, p, servers.ingesters[p]);
      var s := servers.shared;
      servers.Update(
        s.(history := s.history + [work], log := s.log + [Publication(p, snapshot, stamp, now)], lock := None),
        Ingest(p, choice));
      if luck == FailsAfter { return IngestFailed, 0; }
      result, ended := Published(stamp), Current(servers.shared);
    }

    /** The no-op: the transaction ends without a write. */
    method EndUnchanged(p: nat, snapshot: Snapshot, lastSync: int) returns (result: Ingested, ghost ended: nat)
      requires servers.Valid() && Stands(servers.State(), p, snapshot, Unchanged)
      requires Latest(servers.shared).metadata.Some? && Latest(servers.shared).metadata.value.lastSync == lastSync
      modifies servers
      ensures servers.Valid() && old(servers.trace) <= servers.trace
      ensures result.IngestFailed? ==> Stands(servers.State(), p, snapshot, Failed)
      ensures !result.IngestFailed? ==> result == AlreadyNewer(lastSync) && Stands(servers.State(), p, snapshot, Checking(Look, ended))
      ensures !result.IngestFailed? ==> Reflects(servers.shared, p, snapshot, result, ended)
    {
      Meanwhile(p);
      var luck: Luck := *;
      servers.Update(Release(servers.shared), Ingest(p, Choice(luck, 0, 0, 1)));
      if luck != Works { return IngestFailed, 0; }
      result, ended := AlreadyNewer(lastSync), Current(servers.shared);
    }

    /** `ingest`: the clock is read before the lock is asked for; the run publishes
        exactly when that stamp is later than the one recorded under the lock. */
    method IngestSnapshot(p: nat, snapshot: Snapshot) returns (result: Ingested, stamp: int, ghost ended: nat)
      requires servers.Valid() && p !in servers.ingesters && ValidSnapshot(snapshot)
      modifies servers
      ensures servers.Valid() && old(servers.trace) <= servers.trace
      ensures result.IngestFailed? ==> Stands(servers.State(), p, snapshot, Failed)
      ensures !result.IngestFailed? ==> Stands(servers.State(), p, snapshot, Checking(Look, ended))
      ensures !result.IngestFailed? ==> Reflects(servers.shared, p, snapshot, result, ended)
      ensures !result.IngestFailed? ==> Decided(servers.shared, stamp, result, ended)
    {
      servers.Record(Publish(p, snapshot));
      stamp := *;
      var now: int := *;
      servers.Record(Ingest(p, Choice(Works, stamp, 0, 1)));
      var ok := AcquireLock(p, snapshot, stamp, now);
      if !ok { return IngestFailed, stamp, 0; }
      result, ended := UnderLock(p, snapshot, stamp, now);
    }

    /** The transaction's body: a stamp not later than the recorded one is a no-op. */
    method UnderLock(p: nat, snapshot: Snapshot, stamp: int, now: int) returns (result: Ingested, ghost ended: nat)
      requires servers.Valid() && Stands(servers.State(), p, snapshot, Locked(stamp, now))
      modifies servers
      ensures servers.Valid() && old(servers.trace) <= servers.trace
      ensures result.IngestFailed? ==> Stands(servers.State(), p, snapshot, Failed)
      ensures !result.IngestFailed? ==> Stands(servers.State(), p, snapshot, Checking(Look, ended))
      ensures !result.IngestFailed? ==> Reflects(servers.shared, p, snapshot, result, ended)
      ensures !result.IngestFailed? ==> Decided(servers.shared, stamp, result, ended)
    {
      Meanwhile(p);
      var luck: Luck := *;
      var recorded := Latest(servers.shared).metadata;
      if luck != Works {
        Abort(p, snapshot, Choice(luck, 0, 0, 1), Release(servers.shared));
        return IngestFailed, 0;
      }
      servers.Record(Ingest(p, Choice(Works, 0, 0, 1)));
      if recorded.Some? && stamp <= recorded.value.lastSync {
        result, ended := EndUnchanged(p, snapshot, recorded.value.lastSync);
        return;
      }
      var ok, work := UpsertItems(p, snapshot, stamp, now);
      if !ok { return IngestFailed, 0; }
      result, ended := DescribeAndCommit(p, snapshot, stamp, now, work);
    }

    /** `run_ingestion`: commit, then invalidate. Exit code 0 means that the
        version this run ended with lies at or before the latest INCR, so that
        every read begun afterwards reflects it; a publication is then in the
        history for good. Any failure exits 1. */
    method RunIngestion(p: nat, snapshot: Snapshot)
      returns (code: nat, stamp: int, ghost result: Ingested, ghost ended: nat)
      requires servers.Valid() && cache.servers == servers && p !in servers.ingesters && ValidSnapshot(snapshot)
      modifies servers
      ensures servers.Valid() && old(servers.trace) <= servers.trace
      ensures code <= 1 && p in servers.ingesters
      ensures code == 0 <==> servers.ingesters[p].pc.Exited?
      ensures code == 1 <==> servers.ingesters[p].pc.Failed?
      ensures code == 0 ==> !result.IngestFailed? && Reflects(servers.shared, p, snapshot, result, ended)
      ensures code == 0 ==> Decided(servers.shared, stamp, result, ended)
      ensures code == 0 ==> ended <= servers.shared.published
    {
      var ingested;
      ingested, stamp, ended := IngestSnapshot(p, snapshot);
      result := ingested;
      if ingested.IngestFailed? { return 1, stamp, result, ended; }
      ghost var committed := servers.trace;
      var ok := cache.Invalidate(p, snapshot, ended);
      ReflectsLater(servers.q, committed, servers.trace, p, snapshot, result, ended);
      Reachable(servers.q, servers.trace);
      assert IngesterInv(servers.shared, p, servers.ingesters[p]);
      code := if ok then 0 else 1;
    }
  }
}
