/** What every step of the protocol keeps. Shared state only grows in the sense
    of `Grows`; each reader's and ingester's own invariant survives such growth,
    so a step only has to re-establish its own actor's invariant. */
module ProtocolInvariant {
  import opened Prelude
  import opened Decimal
  import opened Generation
  import opened ItemQuery
  import opened Catalog
  import opened Protocol

  // ------------------------------------------------------------ invariants

  /** `b` is exactly what publishing `p` on `a` leads to. */
  ghost predicate Follows(a: Version, p: Publication, b: Version) {
    && ValidSnapshot(p.snapshot)
    && Business(b.rows) == Overlay(Business(a.rows), p.snapshot.items)
    && Persists(a.rows, b.rows)
    && Applied(a.rows, b.rows, p.snapshot.items, p.now)
    && b.metadata == Some(Metadata(p.snapshot.datasetVersion, p.snapshot.gameVersion, p.stamp))
    && (a.metadata.Some? ==> a.metadata.value.lastSync < p.stamp)
  }

  ghost predicate HistoryInv(s: Shared) {
    && |s.history| == |s.log| + 1
    && s.history[0] == Version(map[], None)
    && (forall k :: 0 <= k < |s.log| ==> Follows(s.history[k], s.log[k], s.history[k + 1]))
    && (forall k :: 0 <= k < |s.history| ==> WellFormed(Table(s.history[k].rows, s.nextId)))
  }

  /** The pointer's generation was created no earlier than the latest INCR. */
  ghost predicate PointerInv(s: Shared) {
    && s.published <= Current(s)
    && (forall g :: g in s.floor ==> s.floor[g] <= Current(s))
    && (PointerGeneration(s).Some? ==>
          PointerGeneration(s).value in s.floor && s.published <= s.floor[PointerGeneration(s).value])
  }

  /** The answer was computed from these versions, in this order. */
  ghost predicate Computed(q: Queries, s: Shared, r: Resource, a: Answer, v1: nat, v2: nat) {
    v1 <= v2 <= Current(s) && Direct(q, r, s.history[v1], s.history[v2]) == Some(a)
  }

  /** Work done under generation `g` is no older than the generation itself,
      unless that very number was created more than once. */
  ghost predicate NotBefore(s: Shared, g: nat, v: nat) {
    g in s.floor && (g !in s.reused ==> s.floor[g] <= v)
  }

  ghost predicate EntryInv(q: Queries, s: Shared, g: nat, r: Resource, e: Entry) {
    (e.doc.Plain? || e.doc.Envelope?) && DataKey(g, r) !in s.forged ==>
      Computed(q, s, r, e.doc.answer, e.itemsFrom, e.totalFrom) && NotBefore(s, g, e.itemsFrom)
  }

  ghost predicate EntriesInv(q: Queries, s: Shared) {
    forall key :: key in s.entries ==> EntryInv(q, s, key.generation, key.resource, s.entries[key])
  }

  ghost predicate SharedInv(q: Queries, s: Shared) { HistoryInv(s) && PointerInv(s) && EntriesInv(q, s) }

  ghost predicate LookupInv(s: Shared, l: Lookup) {
    l.Missed? && l.generation.Some? ==> l.generation.value in s.floor
  }

  ghost predicate ReaderInv(q: Queries, s: Shared, rd: Reader) {
    match rd.pc
    case FirstGeneration(_) => true
    case Fetch(g) => g in s.floor
    case SecondGeneration(g, found, _) => g in s.floor && (found.Some? ==> EntryInv(q, s, g, rd.resource, found.value))
    case Query(l) => LookupInv(s, l)
    case Count(l, items, v) =>
      && rd.resource.ListOf? && LookupInv(s, l)
      && v <= Current(s) && items == q.list(s.history[v], rd.resource.params)
      && (l.Missed? && l.generation.Some? ==> NotBefore(s, l.generation.value, v))
    case Store(g, a, v1, v2) => Computed(q, s, rd.resource, a, v1, v2) && NotBefore(s, g, v1)
    case Done(o) => OutcomeInv(q, s, rd.resource, o)
  }

  ghost predicate OutcomeInv(q: Queries, s: Shared, r: Resource, o: Outcome) {
    match o
    case Hit(g, a, v1, v2) =>
      DataKey(g, r) !in s.forged ==> Computed(q, s, r, a, v1, v2) && NotBefore(s, g, v1)
    case Loaded(a, v1, v2) => Computed(q, s, r, a, v1, v2)
    case NotFound(at) => at <= Current(s) && Direct(q, r, s.history[at], s.history[at]) == None
    case Unavailable => true
  }

  /** `base` is what writing the first `done` items on the rows `start` makes of them. */
  ghost predicate Written(start: map<int, Row>, base: Table, items: seq<GameItem>, done: nat, now: int) {
    && done <= |items| && done <= base.nextId
    && WellFormed(base) && Persists(start, base.rows)
    && Business(base.rows) == Overlay(Business(start), items[..done])
    && AppliedFrom(start, base.rows, items[..done], now, base.nextId - done)
  }

  ghost predicate WorkInv(s: Shared, sn: Snapshot, stamp: int, now: int, done: nat, work: Version) {
    && done <= |sn.items|
    && (Latest(s).metadata.Some? ==> Latest(s).metadata.value.lastSync < stamp)
    && (done > 0 ==>
          && Written(Latest(s).rows, Table(work.rows, s.nextId), sn.items, done, now)
          && work.metadata == Latest(s).metadata)
  }

  predicate InTransaction(pc: IngesterPc) {
    pc.Locked? || pc.Writing? || pc.Described? || pc.Unchanged?
  }

  ghost predicate IngesterInv(s: Shared, p: nat, ing: Ingester) {
    && ValidSnapshot(ing.snapshot)
    && (InTransaction(ing.pc) ==> s.lock == Some(p))
    && match ing.pc
       case Writing(stamp, now, done, work) => WorkInv(s, ing.snapshot, stamp, now, done, work)
       case Described(stamp, now, work) =>
         Follows(Latest(s), Publication(p, ing.snapshot, stamp, now), work) && WellFormed(Table(work.rows, s.nextId))
       case Checking(_, ended) => ended <= Current(s)
       case Bumping(ended) => ended <= Current(s)
       case Exited(ended, bumped) => ended <= bumped <= s.published
       case _ => true
  }

  ghost predicate Inv(q: Queries, y: System) {
    && SharedInv(q, y.shared)
    && (forall r :: r in y.readers ==> ReaderInv(q, y.shared, y.readers[r]))
    && (forall p :: p in y.ingesters ==> IngesterInv(y.shared, p, y.ingesters[p]))
  }

  // ---------------------------------------------------------------- growth

  /** How shared state may change behind an actor's back. */
  ghost predicate Grows(s: Shared, t: Shared) {
    && s.history <= t.history
    && s.reused <= t.reused && s.forged <= t.forged
    && (forall g :: g in s.floor ==> g in t.floor && (g !in t.reused ==> t.floor[g] == s.floor[g]))
    && s.published <= t.published
  }

  predicate SameDatabase(s: Shared, t: Shared) {
    s.history == t.history && s.log == t.log && s.nextId == t.nextId && s.lock == t.lock
  }

  lemma GrowsTransitive(s: Shared, t: Shared, u: Shared)
    requires Grows(s, t) && Grows(t, u)
    ensures Grows(s, u)
  {
  }

  lemma EntryStable(q: Queries, s: Shared, t: Shared, g: nat, r: Resource, e: Entry)
    requires Grows(s, t) && EntryInv(q, s, g, r, e)
    ensures EntryInv(q, t, g, r, e)
  {
  }

  lemma ReaderStable(q: Queries, s: Shared, t: Shared, rd: Reader)
    requires Grows(s, t) && ReaderInv(q, s, rd)
    ensures ReaderInv(q, t, rd)
  {
    match rd.pc
    case SecondGeneration(g, found, _) =>
      if found.Some? { EntryStable(q, s, t, g, rd.resource, found.value); }
    case _ =>
  }

  lemma IngesterStable(s: Shared, t: Shared, p: nat, ing: Ingester)
    requires Grows(s, t) && IngesterInv(s, p, ing)
    requires SameDatabase(s, t) || !InTransaction(ing.pc)
    ensures IngesterInv(t, p, ing)
  {
  }

  // ----------------------------------------------------- generation steps

  lemma TextOfDec(g: nat)
    requires g <= MAX_GENERATION
    ensures TextGeneration(Dec(g)) == Some(g)
  {
    ParseOfDec(g);
  }

  lemma WritePointerKeeps(q: Queries, s: Shared, text: string)
    requires SharedInv(q, s)
    ensures SharedInv(q, WritePointer(s, text))
    ensures Grows(s, WritePointer(s, text)) && SameDatabase(s, WritePointer(s, text))
    ensures s.entries == WritePointer(s, text).entries && s.published == WritePointer(s, text).published
    ensures PointerGeneration(WritePointer(s, text)) == TextGeneration(text)
  {
    var t := WritePointer(s, text);
    assert Grows(s, t);
    forall key | key in t.entries ensures EntryInv(q, t, key.generation, key.resource, t.entries[key]) {
      EntryStable(q, s, t, key.generation, key.resource, s.entries[key]);
    }
  }

  /** Every step of `_generation` keeps the shared invariant; a generation it
      returns is the one the pointer holds at that very step. */
  lemma GenerationStepKeeps(q: Queries, s: Shared, step: GenerationStep, luck: Luck, draw: Draw)
    requires SharedInv(q, s)
    ensures var (t, result) := GenerationStepOf(s, step, luck, draw);
            && SharedInv(q, t) && Grows(s, t) && SameDatabase(s, t)
            && s.entries == t.entries && s.published == t.published
            && (result.Gave? && result.generation.Some? ==> PointerGeneration(t) == result.generation)
  {
    if step.Claim? && s.pointer.None? {
      WritePointerKeeps(q, s, Dec(step.candidate));
      TextOfDec(step.candidate);
    }
  }

  // --------------------------------------------------------- reader steps

  lemma AfterSecondKeeps(q: Queries, s: Shared, rd: Reader, result: GenerationResult)
    requires rd.pc.SecondGeneration? && ReaderInv(q, s, rd) && PointerInv(s)
    requires result.Gave? && result.generation.Some? ==> PointerGeneration(s) == result.generation
    ensures ReaderInv(q, s, Reader(rd.resource, AfterSecond(rd.resource, rd.pc.generation, rd.pc.found, result)))
  {
  }

  lemma StoreKeeps(q: Queries, s: Shared, rd: Reader, fits: bool, luck: Luck, draw: Draw)
    requires rd.pc.Store? && ReaderInv(q, s, rd) && SharedInv(q, s)
    ensures SharedInv(q, CacheStepOf(s, rd, luck, draw, fits).0)
  {
    var t := CacheStepOf(s, rd, luck, draw, fits).0;
    if t != s {
      var a := rd.pc.answer;
      assert KeyedBy(rd.resource, a) == rd.resource by {
        AnswerNamesResource(q, s, rd.resource, a, rd.pc.itemsFrom, rd.pc.totalFrom);
      }
      assert PointerInv(t) && HistoryInv(t);
      forall key | key in t.entries ensures EntryInv(q, t, key.generation, key.resource, t.entries[key]) {
        if key in s.entries { EntryStable(q, s, t, key.generation, key.resource, s.entries[key]); }
      }
    }
  }

  /** A row is stored under its own id, so an answer is keyed by the resource asked for. */
  lemma AnswerNamesResource(q: Queries, s: Shared, r: Resource, a: Answer, v1: nat, v2: nat)
    requires HistoryInv(s) && Computed(q, s, r, a, v1, v2)
    ensures KeyedBy(r, a) == r
  {
    assert WellFormed(Table(s.history[v1].rows, s.nextId));
  }

  lemma CacheStepKeeps(q: Queries, s: Shared, rd: Reader, luck: Luck, draw: Draw, fits: bool)
    requires SharedInv(q, s) && ReaderInv(q, s, rd)
    ensures var (t, pc) := CacheStepOf(s, rd, luck, draw, fits);
            SharedInv(q, t) && Grows(s, t) && SameDatabase(s, t) && ReaderInv(q, t, Reader(rd.resource, pc))
  {
    match rd.pc
    case FirstGeneration(step) => GenerationStepKeeps(q, s, step, luck, draw);
    case SecondGeneration(g, found, step) =>
      GenerationStepKeeps(q, s, step, luck, draw);
      var (t, result) := GenerationStepOf(s, step, luck, draw);
      ReaderStable(q, s, t, rd);
      AfterSecondKeeps(q, t, rd, result);
    case Store(g, a, v1, v2) =>
      StoreKeeps(q, s, rd, fits, luck, draw);
      ReaderStable(q, s, CacheStepOf(s, rd, luck, draw, fits).0, rd);
    case Fetch(g) =>
      var key := DataKey(g, rd.resource);
      if key in s.entries { assert EntryInv(q, s, key.generation, key.resource, s.entries[key]); }
    case _ =>
  }

  lemma QueryKeeps(q: Queries, s: Shared, rd: Reader, works: bool)
    requires rd.pc.Query? && SharedInv(q, s) && ReaderInv(q, s, rd)
    ensures ReaderInv(q, s, Reader(rd.resource, QueryStepOf(q, s, rd, works)))
  {
  }

  lemma CountKeeps(q: Queries, s: Shared, rd: Reader, works: bool)
    requires rd.pc.Count? && SharedInv(q, s) && ReaderInv(q, s, rd)
    ensures ReaderInv(q, s, Reader(rd.resource, QueryStepOf(q, s, rd, works)))
  {
  }

  lemma QueryStepKeeps(q: Queries, s: Shared, rd: Reader, works: bool)
    requires SharedInv(q, s) && ReaderInv(q, s, rd)
    ensures ReaderInv(q, s, Reader(rd.resource, QueryStepOf(q, s, rd, works)))
  {
    if rd.pc.Query? { QueryKeeps(q, s, rd, works); } else if rd.pc.Count? { CountKeeps(q, s, rd, works); }
  }

  // -------------------------------------------------------- ingester steps

  lemma WellFormedLater(rows: map<int, Row>, m: nat, n: nat)
    requires WellFormed(Table(rows, m)) && m <= n
    ensures WellFormed(Table(rows, n))
  {
  }

  lemma NextIdKeeps(q: Queries, s: Shared, n: nat)
    requires SharedInv(q, s) && s.nextId <= n
    ensures SharedInv(q, s.(nextId := n)) && Grows(s, s.(nextId := n))
  {
    var t := s.(nextId := n);
    forall k | 0 <= k < |t.history| ensures WellFormed(Table(t.history[k].rows, t.nextId)) {
      WellFormedLater(s.history[k].rows, s.nextId, n);
    }
    forall key | key in t.entries ensures EntryInv(q, t, key.generation, key.resource, t.entries[key]) {
      EntryStable(q, s, t, key.generation, key.resource, s.entries[key]);
    }
  }

  lemma ReleaseKeeps(q: Queries, s: Shared)
    requires SharedInv(q, s)
    ensures SharedInv(q, Release(s)) && Grows(s, Release(s))
  {
    forall key | key in s.entries ensures EntryInv(q, Release(s), key.generation, key.resource, s.entries[key]) {
      EntryStable(q, s, Release(s), key.generation, key.resource, s.entries[key]);
    }
  }

  lemma NothingWritten(t: Table, items: seq<GameItem>, now: int)
    requires WellFormed(t)
    ensures Written(t.rows, t, items, 0, now)
  {
    assert items[..0] == [];
  }

  /** Applying the slice at `done` to rows that hold the prefix gives rows that hold the longer prefix. */
  lemma ExtendPrefix(start: map<int, Row>, base: Table, items: seq<GameItem>, done: nat, stop: nat, now: int)
    requires done <= stop <= |items| && DistinctIds(items) && Written(start, base, items, done, now)
    ensures Statement(base, items[done..stop], now).Some?
    ensures var t := Statement(base, items[done..stop], now).value;
            Written(start, t, items, stop, now) && base.nextId <= t.nextId
  {
    var batch := items[done..stop];
    assert DistinctIds(batch);
    assert items[..done] + batch == items[..stop];
    UpsertMeaning(base, batch, now);
    OverlayConcat(Business(start), items[..done], batch);
    ExtendApplied(start, base, items[..done], batch, now);
  }

  lemma ExtendApplied(start: map<int, Row>, base: Table, first: seq<GameItem>, second: seq<GameItem>, now: int)
    requires |first| <= base.nextId && AppliedFrom(start, base.rows, first, now, base.nextId - |first|)
    requires WellFormed(base)
    ensures AppliedFrom(start, UpsertAll(base, second, now).rows, first + second, now, base.nextId - |first|)
  {
    var from := Table(start, base.nextId - |first|);
    UpsertMeaning(from, first, now);
    UpsertAllConcat(from, first, second, now);
  }

  /** One batch extends the applied prefix; distinct ids mean the statement cannot fail. */
  lemma BatchKeeps(s: Shared, sn: Snapshot, pc: IngesterPc)
    requires pc.Writing? && pc.done < |sn.items| && HistoryInv(s)
    requires ValidSnapshot(sn) && WorkInv(s, sn, pc.stamp, pc.now, pc.done, pc.work)
    ensures var (t, after) := WriteStepOf(s, sn, pc);
            && after.Writing? && after.stamp == pc.stamp && s.nextId <= t.nextId && t == s.(nextId := t.nextId)
            && after.now == pc.now && WorkInv(t, sn, after.stamp, after.now, after.done, after.work) && after.done > pc.done
  {
    var latest := Latest(s);
    var base := if pc.done == 0 then latest else pc.work;
    var stop := Min(pc.done + ITEM_BATCH_SIZE, |sn.items|);
    SetSizeDecidesUniqueness(sn.items);
    if pc.done == 0 {
      assert WellFormed(Table(s.history[|s.history| - 1].rows, s.nextId));
      NothingWritten(Table(latest.rows, s.nextId), sn.items, pc.now);
    }
    ExtendPrefix(latest.rows, Table(base.rows, s.nextId), sn.items, pc.done, stop, pc.now);
  }

  /** On the publish path the stamp is newer, so the metadata guard lets it through. */
  lemma DescribeKeeps(s: Shared, p: nat, sn: Snapshot, pc: IngesterPc)
    requires pc.Writing? && pc.done == |sn.items|
    requires ValidSnapshot(sn) && WorkInv(s, sn, pc.stamp, pc.now, pc.done, pc.work)
    ensures var (t, after) := WriteStepOf(s, sn, pc);
            && t == s && after.Described?
            && Follows(Latest(s), Publication(p, sn, after.stamp, after.now), after.work)
            && WellFormed(Table(after.work.rows, s.nextId))
  {
    assert sn.items[..pc.done] == sn.items;
  }

  lemma CommitKeeps(q: Queries, s: Shared, p: nat, ing: Ingester, c: Choice)
    requires ing.pc.Described? && c.luck != FailsBefore
    requires SharedInv(q, s) && IngesterInv(s, p, ing)
    ensures var (t, pc) := IngestStepOf(s, p, ing, c);
            SharedInv(q, t) && Grows(s, t) && IngesterInv(t, p, Ingester(ing.snapshot, pc))
  {
    var t := IngestStepOf(s, p, ing, c).0;
    assert t.history[..|s.history|] == s.history;
    forall k | 0 <= k < |t.log| ensures Follows(t.history[k], t.log[k], t.history[k + 1]) {
      if k < |s.log| { assert t.log[k] == s.log[k]; }
    }
    forall key | key in t.entries ensures EntryInv(q, t, key.generation, key.resource, t.entries[key]) {
      EntryStable(q, s, t, key.generation, key.resource, s.entries[key]);
    }
  }

  lemma BumpKeeps(q: Queries, s: Shared, ended: nat, luck: Luck)
    requires SharedInv(q, s) && ended <= Current(s)
    ensures var (t, pc) := BumpStepOf(s, ended, luck);
            && SharedInv(q, t) && Grows(s, t) && SameDatabase(s, t)
            && (pc.Exited? ==> pc.ended <= pc.bumped == t.published)
            && (pc.Failed? || pc.Exited?)
  {
    var text := if s.pointer.None? then Some("1") else Incremented(s.pointer.value);
    if luck != FailsBefore && text.Some? {
      WritePointerKeeps(q, s, text.value);
      var w := WritePointer(s, text.value);
      var t := w.(published := Current(s));
      forall key | key in t.entries ensures EntryInv(q, t, key.generation, key.resource, t.entries[key]) {
        EntryStable(q, w, t, key.generation, key.resource, w.entries[key]);
      }
    }
  }

  lemma WriteStepKeeps(q: Queries, s: Shared, p: nat, ing: Ingester)
    requires ing.pc.Writing? && SharedInv(q, s) && IngesterInv(s, p, ing)
    ensures var (t, pc) := WriteStepOf(s, ing.snapshot, ing.pc);
            && SharedInv(q, t) && Grows(s, t) && t.lock == s.lock
            && IngesterInv(t, p, Ingester(ing.snapshot, pc))
  {
    if ing.pc.done < |ing.snapshot.items| {
      BatchKeeps(s, ing.snapshot, ing.pc);
      NextIdKeeps(q, s, WriteStepOf(s, ing.snapshot, ing.pc).0.nextId);
    } else {
      DescribeKeeps(s, p, ing.snapshot, ing.pc);
    }
  }

  lemma WritingKeeps(q: Queries, s: Shared, p: nat, ing: Ingester, c: Choice)
    requires ing.pc.Writing? && SharedInv(q, s) && IngesterInv(s, p, ing)
    ensures var (t, pc) := IngestStepOf(s, p, ing, c);
            SharedInv(q, t) && Grows(s, t) && IngesterInv(t, p, Ingester(ing.snapshot, pc))
  {
    if c.luck == FailsBefore {
      ReleaseKeeps(q, s);
    } else {
      WriteStepKeeps(q, s, p, ing);
      if c.luck == FailsAfter {
        var t := WriteStepOf(s, ing.snapshot, ing.pc).0;
        ReleaseKeeps(q, t);
        GrowsTransitive(s, t, Release(t));
      }
    }
  }

  lemma TransactionKeeps(q: Queries, s: Shared, p: nat, ing: Ingester, c: Choice)
    requires SharedInv(q, s) && IngesterInv(s, p, ing) && InTransaction(ing.pc)
    ensures var (t, pc) := IngestStepOf(s, p, ing, c);
            SharedInv(q, t) && Grows(s, t) && IngesterInv(t, p, Ingester(ing.snapshot, pc))
  {
    if ing.pc.Writing? {
      WritingKeeps(q, s, p, ing, c);
    } else if ing.pc.Described? && c.luck != FailsBefore {
      CommitKeeps(q, s, p, ing, c);
    } else {
      ReleaseKeeps(q, s);
    }
  }

  lemma IngestStepKeeps(q: Queries, s: Shared, p: nat, ing: Ingester, c: Choice)
    requires SharedInv(q, s) && IngesterInv(s, p, ing)
    ensures var (t, pc) := IngestStepOf(s, p, ing, c);
            SharedInv(q, t) && Grows(s, t) && IngesterInv(t, p, Ingester(ing.snapshot, pc))
  {
    match ing.pc
    case Stamped(_) => LockKeeps(q, s, p);
    case Checking(step, _) => GenerationStepKeeps(q, s, step, c.luck, c.draw);
    case Bumping(ended) => BumpKeeps(q, s, ended, c.luck);
    case _ => if InTransaction(ing.pc) { TransactionKeeps(q, s, p, ing, c); }
  }

  lemma LockKeeps(q: Queries, s: Shared, p: nat)
    requires SharedInv(q, s)
    ensures SharedInv(q, s.(lock := Some(p))) && Grows(s, s.(lock := Some(p)))
  {
    var t := s.(lock := Some(p));
    forall key | key in t.entries ensures EntryInv(q, t, key.generation, key.resource, t.entries[key]) {
      EntryStable(q, s, t, key.generation, key.resource, s.entries[key]);
    }
  }

  /** A step by one ingester leaves the database alone while another is inside its transaction. */
  lemma LockExcludes(s: Shared, p: nat, ing: Ingester, c: Choice, other: nat, otherIng: Ingester)
    requires p != other && IngesterInv(s, p, ing) && IngesterInv(s, other, otherIng)
    requires InTransaction(otherIng.pc)
    ensures SameDatabase(s, IngestStepOf(s, p, ing, c).0)
  {
  }

  // ------------------------------------------------------------- all steps

  lemma OthersKeep(q: Queries, y: System, t: Shared)
    requires Inv(q, y) && Grows(y.shared, t)
    ensures forall r :: r in y.readers ==> ReaderInv(q, t, y.readers[r])
    ensures forall p :: p in y.ingesters && (SameDatabase(y.shared, t) || !InTransaction(y.ingesters[p].pc))
                        ==> IngesterInv(t, p, y.ingesters[p])
  {
    forall r | r in y.readers ensures ReaderInv(q, t, y.readers[r]) { ReaderStable(q, y.shared, t, y.readers[r]); }
    forall p | p in y.ingesters && (SameDatabase(y.shared, t) || !InTransaction(y.ingesters[p].pc))
      ensures IngesterInv(t, p, y.ingesters[p])
    {
      IngesterStable(y.shared, t, p, y.ingesters[p]);
    }
  }

  lemma EnvironmentKeeps(q: Queries, s: Shared, e: Event)
    requires SharedInv(q, s)
    requires e.Expire? || e.ForeignWrite? || e.LosePointer? || e.OverwritePointer?
    ensures var t := Step(q, System(s, map[], map[]), e).shared;
            SharedInv(q, t) && Grows(s, t) && SameDatabase(s, t)
  {
    var t := Step(q, System(s, map[], map[]), e).shared;
    if e.OverwritePointer? {
      WritePointerKeeps(q, s, e.text);
    } else {
      forall key | key in t.entries ensures EntryInv(q, t, key.generation, key.resource, t.entries[key]) {
        if key in s.entries { EntryStable(q, s, t, key.generation, key.resource, s.entries[key]); }
      }
    }
  }

  lemma ReadEventKeeps(q: Queries, y: System, e: Event)
    requires Inv(q, y) && (e.ReadCache? || e.ReadDatabase?)
    ensures Inv(q, Step(q, y, e)) && Grows(y.shared, Step(q, y, e).shared)
  {
    if e.reader in y.readers {
      var rd := y.readers[e.reader];
      if e.ReadCache? {
        CacheStepKeeps(q, y.shared, rd, e.luck, e.draw, e.fits);
        OthersKeep(q, y, Step(q, y, e).shared);
      } else {
        QueryStepKeeps(q, y.shared, rd, e.works);
      }
    }
  }

  lemma IngestEventKeeps(q: Queries, y: System, p: nat, c: Choice)
    requires Inv(q, y)
    ensures Inv(q, Step(q, y, Ingest(p, c))) && Grows(y.shared, Step(q, y, Ingest(p, c)).shared)
  {
    if p in y.ingesters {
      var z := Step(q, y, Ingest(p, c));
      IngestStepKeeps(q, y.shared, p, y.ingesters[p], c);
      OthersKeep(q, y, z.shared);
      forall o | o in z.ingesters ensures IngesterInv(z.shared, o, z.ingesters[o]) {
        if o != p && InTransaction(y.ingesters[o].pc) {
          LockExcludes(y.shared, p, y.ingesters[p], c, o, y.ingesters[o]);
        }
      }
    }
  }

  /** Every event keeps the whole invariant, and shared state only grows. */
  lemma StepKeeps(q: Queries, y: System, e: Event)
    requires Inv(q, y)
    ensures Inv(q, Step(q, y, e)) && Grows(y.shared, Step(q, y, e).shared)
  {
    if e.ReadCache? || e.ReadDatabase? {
      ReadEventKeeps(q, y, e);
    } else if e.Ingest? {
      IngestEventKeeps(q, y, e.ingester, e.choice);
    } else if !e.Begin? && !e.Publish? {
      EnvironmentKeeps(q, y.shared, e);
      OthersKeep(q, y, Step(q, y, e).shared);
    }
  }

  /** The invariant holds in every reachable state, for all interleavings and failures. */
  lemma {:induction false} Reachable(q: Queries, es: seq<Event>)
    ensures Inv(q, Run(q, es))
  {
    hide Step;
    if es != [] {
      Reachable(q, es[..|es| - 1]);
      StepKeeps(q, Run(q, es[..|es| - 1]), es[|es| - 1]);
    }
  }

  /** Everything shared grows along any continuation of a run. */
  lemma {:induction false} RunGrows(q: Queries, es: seq<Event>, more: seq<Event>)
    ensures Grows(Run(q, es).shared, Run(q, es + more).shared)
    decreases |more|
  {
    hide Step;
    if more == [] {
      assert es + more == es;
    } else {
      var front := more[..|more| - 1];
      RunGrows(q, es, front);
      Reachable(q, es + front);
      StepKeeps(q, Run(q, es + front), more[|more| - 1]);
      RunExtend(q, es + front, more[|more| - 1]);
      assert es + more == es + front + [more[|more| - 1]];
    }
  }
}
