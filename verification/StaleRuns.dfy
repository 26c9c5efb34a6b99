/** Two runs of the whole system, from the empty database on, in which a read
    answers with something that the promises at first sight seem to exclude. */
module StaleRuns {
  import opened Prelude
  import opened Decimal
  import opened ItemQuery
  import opened Catalog
  import opened Protocol
  import opened ProtocolInvariant
  import opened ReadGuarantees
  import opened StaleReads

  const SWORD := GameItem(7, "Sword", "", None, None, None, "", None)
  const META := MetaOf("1.0")
  const FIRST := Snapshot("first", None, [SWORD])
  const SECOND := Snapshot("second", None, [SWORD])

  lemma SamplesAreValid()
    ensures ValidSnapshot(FIRST) && ValidSnapshot(SECOND)
  {
    SetSizeDecidesUniqueness([SWORD]);
  }

  function MetaAt(v: Version): Answer { MetaAnswer("1.0", v.metadata, |v.rows|) }

  // ------------------------------------------------------------ read phases

  /** The rest of a metadata read up to its write-back, when the cache has nothing. */
  function RestEvents(r: nat): seq<Event> { [Read(r), Read(r), ReadDatabase(r, true)] }

  /** All of it, when there is a pointer; and when the read has to claim it, with the number 5. */
  function MissEvents(r: nat): seq<Event> { [Begin(r, META), Read(r)] + RestEvents(r) }

  function ColdMissEvents(r: nat): seq<Event> { [Begin(r, META), ReadCache(r, Works, 5, true), Read(r)] + RestEvents(r) }

  lemma Queried(q: Queries, es: seq<Event>, r: nat, g: nat)
    requires r in Run(q, es).readers && Run(q, es).readers[r] == Reader(META, Query(Missed(Some(g))))
    ensures var y := Run(q, es);
            var at := Current(y.shared);
            Run(q, es + [ReadDatabase(r, true)])
            == y.(readers := y.readers[r := Reader(META, Store(g, MetaAt(Latest(y.shared)), at, at))])
  {
    RunExtend(q, es, ReadDatabase(r, true));
  }

  /** The system with the read about to write back what the latest version gives. */
  function AboutToStore(y: System, r: nat, g: nat): System {
    var at := Current(y.shared);
    y.(readers := y.readers[r := Reader(META, Store(g, MetaAt(Latest(y.shared)), at, at))])
  }

  lemma RestFollows(q: Queries, es: seq<Event>, r: nat, g: nat)
    requires var y := Run(q, es);
             && r in y.readers && y.readers[r] == Reader(META, Fetch(g))
             && PointerGeneration(y.shared) == Some(g) && DataKey(g, META) !in y.shared.entries
    ensures Run(q, es + RestEvents(r)) == AboutToStore(Run(q, es), r, g)
  {
    hide Run;
    var d := [Read(r)];
    assert !PointerReadsEmpty(Run(q, es).shared);
    Reads(q, es, r, META, Fetch(g), SecondGeneration(g, None, Look));
    Reads(q, es + d, r, META, SecondGeneration(g, None, Look), Query(Missed(Some(g))));
    Queried(q, es + d + d, r, g);
    assert es + d + d + [ReadDatabase(r, true)] == es + RestEvents(r);
  }

  lemma MissFollows(q: Queries, es: seq<Event>, r: nat, g: nat)
    requires var y := Run(q, es);
             r !in y.readers && PointerGeneration(y.shared) == Some(g) && DataKey(g, META) !in y.shared.entries
    ensures Run(q, es + MissEvents(r)) == AboutToStore(Run(q, es), r, g)
  {
    hide Run;
    var b, d := [Begin(r, META)], [Read(r)];
    assert !PointerReadsEmpty(Run(q, es).shared);
    Begins(q, es, r, META);
    Reads(q, es + b, r, META, FirstGeneration(Look), Fetch(g));
    RestFollows(q, es + b + d, r, g);
    Overtakes(Run(q, es), r, Fetch(g), g);
    assert es + b + d + RestEvents(r) == es + MissEvents(r);
  }

  /** The write-back. */
  lemma StoreFollows(q: Queries, es: seq<Event>, r: nat, g: nat, v: Version, at: nat)
    requires var y := Run(q, es); r in y.readers && y.readers[r] == Reader(META, Store(g, MetaAt(v), at, at))
    ensures var y := Run(q, es);
            Run(q, es + [Read(r)])
            == y.(shared := y.shared.(entries := y.shared.entries[DataKey(g, META) := Entry(Plain(MetaAt(v)), at, at)]),
                  readers := y.readers[r := Reader(META, Done(Loaded(MetaAt(v), at, at)))])
  {
    RunExtend(q, es, Read(r));
  }

  lemma Claimed(q: Queries, es: seq<Event>, r: nat)
    requires var y := Run(q, es);
             r in y.readers && y.readers[r] == Reader(META, FirstGeneration(Look)) && y.shared.pointer.None?
    ensures var y := Run(q, es);
            Run(q, es + [ReadCache(r, Works, 5, true)] + [Read(r)])
            == y.(shared := WritePointer(y.shared, Dec(5)), readers := y.readers[r := Reader(META, Fetch(5))])
  {
    RunExtend(q, es, ReadCache(r, Works, 5, true));
    RunExtend(q, es + [ReadCache(r, Works, 5, true)], Read(r));
  }

  lemma ClaimFollows(q: Queries, es: seq<Event>, r: nat)
    requires var y := Run(q, es); r !in y.readers && y.shared.pointer.None?
    ensures var y, z := Run(q, es), Run(q, es + [Begin(r, META), ReadCache(r, Works, 5, true), Read(r)]);
            z == y.(shared := WritePointer(y.shared, Dec(5)), readers := y.readers[r := Reader(META, Fetch(5))])
  {
    var b, l, d := [Begin(r, META)], [ReadCache(r, Works, 5, true)], [Read(r)];
    Begins(q, es, r, META);
    Claimed(q, es + b, r);
    assert es + b + l + d == es + [Begin(r, META), ReadCache(r, Works, 5, true), Read(r)];
  }

  lemma ColdMissFollows(q: Queries, es: seq<Event>, r: nat)
    requires var y := Run(q, es);
             r !in y.readers && y.shared.pointer.None? && DataKey(5, META) !in y.shared.entries
    ensures var y := Run(q, es);
            Run(q, es + ColdMissEvents(r)) == AboutToStore(y.(shared := WritePointer(y.shared, Dec(5))), r, 5)
    ensures PointerGeneration(WritePointer(Run(q, es).shared, Dec(5))) == Some(5)
  {
    hide Run;
    var claiming := [Begin(r, META), ReadCache(r, Works, 5, true), Read(r)];
    TextOfDec(5);
    ClaimFollows(q, es, r);
    RestFollows(q, es + claiming, r, 5);
    Overtakes(Run(q, es).(shared := WritePointer(Run(q, es).shared, Dec(5))), r, Fetch(5), 5);
    assert es + claiming + RestEvents(r) == es + ColdMissEvents(r);
  }

  lemma Overtakes(y: System, r: nat, pc: ReaderPc, g: nat)
    ensures AboutToStore(y.(readers := y.readers[r := Reader(META, pc)]), r, g) == AboutToStore(y, r, g)
  {
  }

  // -------------------------------------------------------- ingestion phases

  function Do(p: nat, stamp: int): Event { Ingest(p, Choice(Works, stamp, 0, 5)) }

  /** A run of one batch, up to its commit. */
  function PublishEvents(p: nat, sn: Snapshot, stamp: int): seq<Event> {
    [Publish(p, sn)] + seq(6, i => Do(p, stamp))
  }

  lemma StartStep(q: Queries, y: System, p: nat, sn: Snapshot)
    requires p !in y.ingesters && ValidSnapshot(sn)
    ensures Step(q, y, Publish(p, sn)) == y.(ingesters := y.ingesters[p := Ingester(sn, Started)])
  {
  }

  lemma Starts(q: Queries, es: seq<Event>, p: nat, sn: Snapshot)
    requires p !in Run(q, es).ingesters && ValidSnapshot(sn)
    ensures var y := Run(q, es);
            Run(q, es + [Publish(p, sn)]) == y.(ingesters := y.ingesters[p := Ingester(sn, Started)])
  {
    StartStep(q, Run(q, es), p, sn);
    RunExtend(q, es, Publish(p, sn));
  }

  /** One working step of an ingestion run. */
  lemma Does(q: Queries, es: seq<Event>, p: nat, sn: Snapshot, stamp: int, pc: IngesterPc, s: Shared, next: IngesterPc)
    requires var y := Run(q, es);
             && p in y.ingesters && y.ingesters[p] == Ingester(sn, pc)
             && IngestStepOf(y.shared, p, y.ingesters[p], Choice(Works, stamp, 0, 5)) == (s, next)
    ensures var y := Run(q, es);
            Run(q, es + [Do(p, stamp)]) == System(s, y.readers, y.ingesters[p := Ingester(sn, next)])
  {
    RunExtend(q, es, Do(p, stamp));
  }

  /** The version that publishing `sn` on the latest one leads to, and the state after the commit. */
  function Work(s: Shared, sn: Snapshot, stamp: int): Version {
    Version(UpsertAll(Table(Latest(s).rows, s.nextId), sn.items, 0).rows, Some(Metadata(sn.datasetVersion, sn.gameVersion, stamp)))
  }

  function Committed(s: Shared, p: nat, sn: Snapshot, stamp: int): Shared {
    s.(history := s.history + [Work(s, sn, stamp)], log := s.log + [Publication(p, sn, stamp, 0)],
       nextId := UpsertAll(Table(Latest(s).rows, s.nextId), sn.items, 0).nextId)
  }

  lemma StampFollows(q: Queries, es: seq<Event>, p: nat, sn: Snapshot, stamp: int)
    requires p !in Run(q, es).ingesters && ValidSnapshot(sn)
    ensures var y := Run(q, es);
            Run(q, es + [Publish(p, sn), Do(p, stamp)])
            == System(y.shared, y.readers, y.ingesters[p := Ingester(sn, Stamped(stamp))])
  {
    Starts(q, es, p, sn);
    Does(q, es + [Publish(p, sn)], p, sn, stamp, Started, Run(q, es).shared, Stamped(stamp));
    assert es + [Publish(p, sn)] + [Do(p, stamp)] == es + [Publish(p, sn), Do(p, stamp)];
  }

  lemma LockSteps(s: Shared, p: nat, sn: Snapshot, stamp: int)
    requires s.lock.None? && (Latest(s).metadata.Some? ==> Latest(s).metadata.value.lastSync < stamp)
    ensures var c, held := Choice(Works, stamp, 0, 5), s.(lock := Some(p));
            && IngestStepOf(s, p, Ingester(sn, Stamped(stamp)), c) == (held, Locked(stamp, 0))
            && IngestStepOf(held, p, Ingester(sn, Locked(stamp, 0)), c) == (held, Writing(stamp, 0, 0, Latest(s)))
  {
  }

  lemma LockFollows(q: Queries, es: seq<Event>, p: nat, sn: Snapshot, stamp: int)
    requires var y := Run(q, es);
             && p !in y.ingesters && y.shared.lock.None? && ValidSnapshot(sn)
             && (Latest(y.shared).metadata.Some? ==> Latest(y.shared).metadata.value.lastSync < stamp)
    ensures var y := Run(q, es);
            Run(q, es + [Publish(p, sn), Do(p, stamp), Do(p, stamp), Do(p, stamp)])
            == System(y.shared.(lock := Some(p)), y.readers,
                      y.ingesters[p := Ingester(sn, Writing(stamp, 0, 0, Latest(y.shared)))])
  {
    hide Run;
    var s := Run(q, es).shared;
    var b, d := [Publish(p, sn), Do(p, stamp)], [Do(p, stamp)];
    var held := s.(lock := Some(p));
    StampFollows(q, es, p, sn, stamp);
    LockSteps(s, p, sn, stamp);
    Does(q, es + b, p, sn, stamp, Stamped(stamp), held, Locked(stamp, 0));
    Does(q, es + b + d, p, sn, stamp, Locked(stamp, 0), held, Writing(stamp, 0, 0, Latest(s)));
    assert es + b + d + d == es + [Publish(p, sn), Do(p, stamp), Do(p, stamp), Do(p, stamp)];
  }

  lemma BatchFollows(s: Shared, p: nat, sn: Snapshot, stamp: int)
    requires ValidSnapshot(sn) && |sn.items| <= ITEM_BATCH_SIZE
    ensures var table := UpsertAll(Table(Latest(s).rows, s.nextId), sn.items, 0);
            IngestStepOf(s, p, Ingester(sn, Writing(stamp, 0, 0, Latest(s))), Choice(Works, stamp, 0, 5))
            == (s.(nextId := table.nextId), Writing(stamp, 0, |sn.items|, Version(table.rows, Latest(s).metadata)))
  {
    SetSizeDecidesUniqueness(sn.items);
    assert sn.items[0..|sn.items|] == sn.items;
  }

  lemma CommitFollows(q: Queries, es: seq<Event>, s: Shared, p: nat, sn: Snapshot, stamp: int)
    requires var y := Run(q, es);
             && y.shared == s.(lock := Some(p)) && p in y.ingesters && s.lock.None?
             && y.ingesters[p] == Ingester(sn, Writing(stamp, 0, 0, Latest(s)))
             && ValidSnapshot(sn) && |sn.items| <= ITEM_BATCH_SIZE
             && (Latest(s).metadata.Some? ==> Latest(s).metadata.value.lastSync < stamp)
    ensures var t := Committed(s, p, sn, stamp);
            Run(q, es + [Do(p, stamp), Do(p, stamp), Do(p, stamp)])
            == System(t, Run(q, es).readers, Run(q, es).ingesters[p := Ingester(sn, Checking(Look, Current(t)))])
  {
    hide Run;
    var d := [Do(p, stamp)];
    var held := s.(lock := Some(p));
    var table := UpsertAll(Table(Latest(s).rows, s.nextId), sn.items, 0);
    var applied := held.(nextId := table.nextId);
    var written := Writing(stamp, 0, |sn.items|, Version(table.rows, Latest(s).metadata));
    var described := Described(stamp, 0, Work(s, sn, stamp));
    var t := Committed(s, p, sn, stamp);
    BatchFollows(held, p, sn, stamp);
    Does(q, es, p, sn, stamp, Writing(stamp, 0, 0, Latest(s)), applied, written);
    Does(q, es + d, p, sn, stamp, written, applied, described);
    Does(q, es + d + d, p, sn, stamp, described, t, Checking(Look, Current(t)));
    assert es + d + d + d == es + [Do(p, stamp), Do(p, stamp), Do(p, stamp)];
  }

  lemma PublishFollows(q: Queries, es: seq<Event>, p: nat, sn: Snapshot, stamp: int)
    requires var y := Run(q, es);
             && p !in y.ingesters && y.shared.lock.None? && ValidSnapshot(sn) && |sn.items| <= ITEM_BATCH_SIZE
             && (Latest(y.shared).metadata.Some? ==> Latest(y.shared).metadata.value.lastSync < stamp)
    ensures var y := Run(q, es);
            var t := Committed(y.shared, p, sn, stamp);
            Run(q, es + PublishEvents(p, sn, stamp))
            == System(t, y.readers, y.ingesters[p := Ingester(sn, Checking(Look, Current(t)))])
  {
    hide Run;
    var locking := [Publish(p, sn), Do(p, stamp), Do(p, stamp), Do(p, stamp)];
    var committing := [Do(p, stamp), Do(p, stamp), Do(p, stamp)];
    LockFollows(q, es, p, sn, stamp);
    CommitFollows(q, es + locking, Run(q, es).shared, p, sn, stamp);
    assert es + locking + committing == es + PublishEvents(p, sn, stamp);
  }

  // ---------------------------------------------- going back within a generation

  /** Reader 0 loads the empty catalog and is slow; a publication commits, its
      INCR still to come; reader 1 loads and returns the new catalog. */
  function AnsweredNew(): seq<Event> {
    ColdMissEvents(0) + PublishEvents(0, FIRST, 1) + MissEvents(1) + [Read(1)]
  }

  /** Then reader 0 writes back, over the newer entry, and reader 2 begins. */
  function AnsweredOld(): seq<Event> { AnsweredNew() + [Read(0)] + HitEvents(2, META) }

  lemma SlowReaderWaits(q: Queries, es: seq<Event>)
    requires es == ColdMissEvents(0) + PublishEvents(0, FIRST, 1)
    ensures var y := Run(q, es);
            && y.readers == map[0 := Reader(META, Store(5, MetaAt(Version(map[], None)), 0, 0))]
            && PointerGeneration(y.shared) == Some(5) && y.shared.entries == map[]
            && y.shared.reused == {} && y.shared.forged == {}
            && Current(y.shared) == 1 && Latest(y.shared).metadata == Some(Metadata("first", None, 1))
  {
    hide Step;
    SamplesAreValid();
    assert [] + ColdMissEvents(0) == ColdMissEvents(0);
    ColdMissFollows(q, [], 0);
    PublishFollows(q, ColdMissEvents(0), 0, FIRST, 1);
  }

  /** Between a commit and its INCR reads do go back, without any loss, reuse or
      foreign write: reader 1 answers from version 1, reader 2, begun afterwards,
      from version 0. */
  lemma ReadsCanGoBack(q: Queries)
    ensures exists a :: Finished(Run(q, AnsweredNew()), 1, Loaded(a, 1, 1)) && a.MetaAnswer? && a.dataset.Some?
    ensures 2 !in Run(q, AnsweredNew()).readers
    ensures Finished(Run(q, AnsweredOld()), 2, Hit(5, MetaAnswer("1.0", None, 0), 0, 0))
    ensures var s := Run(q, AnsweredOld()).shared; s.reused == {} && s.forged == {}
  {
    hide Run;
    var es := ColdMissEvents(0) + PublishEvents(0, FIRST, 1);
    SlowReaderWaits(q, es);
    var y := Run(q, es);
    MissFollows(q, es, 1, 5);
    StoreFollows(q, es + MissEvents(1), 1, 5, Latest(y.shared), 1);
    StoreFollows(q, AnsweredNew(), 0, 5, Version(map[], None), 0);
    HitFollows(q, AnsweredNew() + [Read(0)], 2, META, 5);
    assert Finished(Run(q, AnsweredNew()), 1, Loaded(MetaAt(Latest(y.shared)), 1, 1));
  }

  // ------------------------------------------------- old entries coming back

  /** The pointer is lost between a run's generation check and its INCR. */
  function LossEvents(p: nat, stamp: int): seq<Event> { [LosePointer, Do(p, stamp)] }

  function Restarted(s: Shared): Shared { WritePointer(s.(pointer := None), "1").(published := Current(s)) }

  lemma LossFollows(q: Queries, es: seq<Event>, p: nat, sn: Snapshot, stamp: int, ended: nat)
    requires var y := Run(q, es); p in y.ingesters && y.ingesters[p] == Ingester(sn, Bumping(ended))
    ensures var y := Run(q, es);
            Run(q, es + LossEvents(p, stamp))
            == System(Restarted(y.shared), y.readers, y.ingesters[p := Ingester(sn, Exited(ended, Current(y.shared)))])
    ensures PointerGeneration(Restarted(Run(q, es).shared)) == Some(1)
  {
    var s := Run(q, es).shared;
    assert Dec(1) == "1";
    TextOfDec(1);
    RunExtend(q, es, LosePointer);
    Does(q, es + [LosePointer], p, sn, stamp, Bumping(ended), Restarted(s), Exited(ended, Current(s)));
    assert es + [LosePointer] + [Do(p, stamp)] == es + LossEvents(p, stamp);
  }

  /** `_generation` of `invalidate`, without and with a pointer. */
  lemma ColdCheckFollows(q: Queries, es: seq<Event>, p: nat, sn: Snapshot, stamp: int, ended: nat)
    requires var y := Run(q, es);
             p in y.ingesters && y.ingesters[p] == Ingester(sn, Checking(Look, ended)) && y.shared.pointer.None?
    ensures var y := Run(q, es);
            Run(q, es + [Do(p, stamp), Do(p, stamp)])
            == System(WritePointer(y.shared, Dec(5)), y.readers, y.ingesters[p := Ingester(sn, Bumping(ended))])
  {
    var s := Run(q, es).shared;
    Does(q, es, p, sn, stamp, Checking(Look, ended), s, Checking(Claim(5), ended));
    Does(q, es + [Do(p, stamp)], p, sn, stamp, Checking(Claim(5), ended), WritePointer(s, Dec(5)), Bumping(ended));
    assert es + [Do(p, stamp)] + [Do(p, stamp)] == es + [Do(p, stamp), Do(p, stamp)];
  }

  lemma CheckFollows(q: Queries, es: seq<Event>, p: nat, sn: Snapshot, stamp: int, ended: nat)
    requires var y := Run(q, es);
             && p in y.ingesters && y.ingesters[p] == Ingester(sn, Checking(Look, ended))
             && PointerGeneration(y.shared).Some?
    ensures var y := Run(q, es);
            Run(q, es + [Do(p, stamp)]) == y.(ingesters := y.ingesters[p := Ingester(sn, Bumping(ended))])
  {
    assert !PointerReadsEmpty(Run(q, es).shared);
    Does(q, es, p, sn, stamp, Checking(Look, ended), Run(q, es).shared, Bumping(ended));
  }

  /** The first run publishes and starts the numbers again at 1; reader 0 fills the cache under 1. */
  function FirstPublished(): seq<Event> { PublishEvents(1, FIRST, 1) + [Do(1, 1), Do(1, 1)] + LossEvents(1, 1) }

  function Filled(): seq<Event> { FirstPublished() + MissEvents(0) + [Read(0)] }

  /** The second run publishes, loses the pointer in the same place, and exits 0. */
  function SecondPublished(): seq<Event> {
    Filled() + PublishEvents(2, SECOND, 2) + [Do(2, 2)] + LossEvents(2, 2)
  }

  lemma FirstExits(q: Queries)
    ensures var y := Run(q, FirstPublished());
            && PointerGeneration(y.shared) == Some(1) && 1 in y.shared.floor && y.shared.entries == map[]
            && y.shared.lock.None? && y.shared.reused == {} && y.shared.forged == {}
            && Current(y.shared) == 1 && Latest(y.shared).metadata == Some(Metadata("first", None, 1))
            && 2 !in y.ingesters && y.readers == map[]
  {
    hide Step;
    SamplesAreValid();
    var es := PublishEvents(1, FIRST, 1);
    assert [] + es == es;
    PublishFollows(q, [], 1, FIRST, 1);
    ColdCheckFollows(q, es, 1, FIRST, 1, 1);
    TextOfDec(5);
    assert Dec(5) == "5" && Dec(1) == "1";
    TextOfDec(1);
    LossFollows(q, es + [Do(1, 1), Do(1, 1)], 1, FIRST, 1, 1);
  }

  lemma CacheFills(q: Queries)
    ensures var y := Run(q, Filled());
            && PointerGeneration(y.shared) == Some(1) && 1 in y.shared.floor && y.shared.lock.None?
            && DataKey(1, META) in y.shared.entries
            && y.shared.entries[DataKey(1, META)] == Entry(Plain(MetaAt(Latest(y.shared))), 1, 1)
            && y.shared.reused == {} && y.shared.forged == {}
            && Current(y.shared) == 1 && Latest(y.shared).metadata == Some(Metadata("first", None, 1))
            && 2 !in y.ingesters && 3 !in y.readers
  {
    hide Run;
    FirstExits(q);
    MissFollows(q, FirstPublished(), 0, 1);
    StoreFollows(q, FirstPublished() + MissEvents(0), 0, 1, Latest(Run(q, FirstPublished()).shared), 1);
  }

  lemma SecondCommits(q: Queries)
    ensures var y, z := Run(q, Filled()), Run(q, Filled() + PublishEvents(2, SECOND, 2));
            && PointerGeneration(z.shared) == Some(1) && 1 in z.shared.floor
            && z.readers == y.readers && z.shared.entries == y.shared.entries
            && 2 in z.ingesters && z.ingesters[2] == Ingester(SECOND, Checking(Look, 2)) && Current(z.shared) == 2
            && Latest(z.shared).metadata == Some(Metadata("second", None, 2))
            && z.shared.reused == {} && z.shared.forged == {}
  {
    hide Run;
    SamplesAreValid();
    CacheFills(q);
    PublishFollows(q, Filled(), 2, SECOND, 2);
  }

  lemma SecondExits(q: Queries)
    ensures var y, z := Run(q, Filled()), Run(q, SecondPublished());
            && PointerGeneration(z.shared) == Some(1) && z.readers == y.readers && z.shared.entries == y.shared.entries
            && 2 in z.ingesters && z.ingesters[2].pc == Exited(2, 2) && z.shared.published == 2
            && Latest(z.shared).metadata == Some(Metadata("second", None, 2))
            && z.shared.reused == {1} && z.shared.forged == {}
  {
    hide Run;
    SecondCommits(q);
    CheckFollows(q, Filled() + PublishEvents(2, SECOND, 2), 2, SECOND, 2, 2);
    LossFollows(q, Filled() + PublishEvents(2, SECOND, 2) + [Do(2, 2)], 2, SECOND, 2, 2);
  }

  /** The random first number does not keep old entries from coming back when the
      pointer alone is lost: the second run exits 0 with version 2 invalidated,
      and reader 3, begun after that, is answered from version 1. Nothing was
      overwritten or forged, and the only number drawn was drawn once. */
  lemma OldEntriesComeBack(q: Queries)
    ensures var y := Run(q, SecondPublished());
            && 2 in y.ingesters && y.ingesters[2].pc == Exited(2, 2) && y.shared.published == 2
            && Latest(y.shared).metadata == Some(Metadata("second", None, 2))
            && y.shared.reused == {1} && y.shared.forged == {} && 3 !in y.readers
    ensures exists a :: Finished(Run(q, SecondPublished() + HitEvents(3, META)), 3, Hit(1, a, 1, 1))
                        && a.MetaAnswer? && a.dataset == Some(Metadata("first", None, 1))
  {
    hide Run;
    CacheFills(q);
    SecondExits(q);
    var stale := MetaAt(Latest(Run(q, Filled()).shared));
    HitFollows(q, SecondPublished(), 3, META, 1);
    assert Finished(Run(q, SecondPublished() + HitEvents(3, META)), 3, Hit(1, stale, 1, 1));
  }
}
