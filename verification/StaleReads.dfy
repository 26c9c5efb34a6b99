/** When a read can answer with something older than a given version: exactly
    which leftovers in the cache, or in the hands of a slow reader, make it so. */
module StaleReads {
  import opened Prelude
  import opened Generation
  import opened Protocol
  import opened ProtocolInvariant
  import opened GenerationGuarantees
  import opened ReadGuarantees
  import opened StoredAnswers

  /** The event creates a generation number that had been created before. */
  ghost predicate Reuses(y: System, e: Event) { Created(y, e).Some? && Created(y, e).value in y.shared.floor }

  ghost predicate ReusesAt(q: Queries, fs: seq<Event>, k: nat)
    requires k < |fs|
  {
    Reuses(Run(q, fs[..k]), fs[k])
  }

  /** The run was continued without creating any number again. */
  ghost predicate NoReuse(q: Queries, es: seq<Event>, fs: seq<Event>) {
    es <= fs && forall k :: |es| <= k < |fs| ==> !ReusesAt(q, fs, k)
  }

  // ------------------------------------------------------ old things to hit

  /** The key holds an acceptable payload from before version `c`. */
  predicate OldEntry(s: Shared, key: DataKey, c: nat) {
    key in s.entries && s.entries[key].itemsFrom < c && Decoded(key.resource, s.entries[key].doc).Some?
  }

  /** A reader has such a payload in hand, to return it or to write it under `g`. */
  predicate HoldsOld(rd: Reader, g: nat, c: nat) {
    match rd.pc
    case Store(h, a, v, _) => h == g && v < c && Encoded(rd.resource, a).Some?
    case Count(Missed(Some(h)), items, v) => h == g && v < c && |items| <= MAX_CACHED_LIST_ITEMS
    case SecondGeneration(h, Some(e), _) => h == g && e.itemsFrom < c && Decoded(rd.resource, e.doc).Some?
    case _ => false
  }

  ghost predicate ReaderHoldsOld(y: System, r: nat, resource: Resource, g: nat, c: nat) {
    r in y.readers && y.readers[r].resource == resource && HoldsOld(y.readers[r], g, c)
  }

  ghost predicate OldUnder(y: System, resource: Resource, g: nat, c: nat) {
    OldEntry(y.shared, DataKey(g, resource), c) || exists r :: ReaderHoldsOld(y, r, resource, g, c)
  }

  /** Something old under the generation that the pointer holds now. */
  ghost predicate OldSource(y: System, resource: Resource, c: nat) {
    var g := PointerGeneration(y.shared);
    g.Some? && DataKey(g.value, resource) !in y.shared.forged && OldUnder(y, resource, g.value, c)
  }

  // --------------------------------------------- nothing old comes from nothing

  lemma CacheStepOld(s: Shared, rd: Reader, luck: Luck, draw: Draw, fits: bool, g: nat, c: nat)
    requires HoldsOld(Reader(rd.resource, CacheStepOf(s, rd, luck, draw, fits).1), g, c)
    ensures HoldsOld(rd, g, c) || OldEntry(s, DataKey(g, rd.resource), c)
  {
  }

  lemma QueryStepOld(q: Queries, s: Shared, rd: Reader, works: bool, g: nat, c: nat)
    requires c <= Current(s) && HoldsOld(Reader(rd.resource, QueryStepOf(q, s, rd, works)), g, c)
    ensures HoldsOld(rd, g, c)
  {
  }

  lemma CacheStepEntry(q: Queries, s: Shared, rd: Reader, luck: Luck, draw: Draw, fits: bool, key: DataKey, c: nat)
    requires SharedInv(q, s) && ReaderInv(q, s, rd)
    requires OldEntry(CacheStepOf(s, rd, luck, draw, fits).0, key, c)
    ensures OldEntry(s, key, c) || (rd.resource == key.resource && HoldsOld(rd, key.generation, c))
  {
    if rd.pc.Store? {
      AnswerNamesResource(q, s, rd.resource, rd.pc.answer, rd.pc.itemsFrom, rd.pc.totalFrom);
    }
  }

  lemma IngestKeepsEntries(s: Shared, p: nat, ing: Ingester, c: Choice)
    ensures IngestStepOf(s, p, ing, c).0.entries == s.entries
  {
  }

  lemma OldEntryBackwards(q: Queries, y: System, e: Event, key: DataKey, c: nat)
    requires Inv(q, y) && key !in Step(q, y, e).shared.forged && OldEntry(Step(q, y, e).shared, key, c)
    ensures OldUnder(y, key.resource, key.generation, c)
  {
    if e.ReadCache? && e.reader in y.readers {
      CacheStepEntry(q, y.shared, y.readers[e.reader], e.luck, e.draw, e.fits, key, c);
      assert OldEntry(y.shared, key, c) || ReaderHoldsOld(y, e.reader, key.resource, key.generation, c);
    } else if e.Ingest? && e.ingester in y.ingesters {
      IngestKeepsEntries(y.shared, e.ingester, y.ingesters[e.ingester], e.choice);
    }
  }

  lemma OldReaderBackwards(q: Queries, y: System, e: Event, r: nat, resource: Resource, g: nat, c: nat)
    requires c <= Current(y.shared) && ReaderHoldsOld(Step(q, y, e), r, resource, g, c)
    ensures OldUnder(y, resource, g, c)
  {
    assert r in y.readers;
    if e.ReadCache? && e.reader == r {
      CacheStepOld(y.shared, y.readers[r], e.luck, e.draw, e.fits, g, c);
    } else if e.ReadDatabase? && e.reader == r {
      QueryStepOld(q, y.shared, y.readers[r], e.works, g, c);
    }
    assert ReaderHoldsOld(y, r, resource, g, c) || OldEntry(y.shared, DataKey(g, resource), c);
  }

  /** What is old was computed under a generation that had been created. */
  lemma OldNeedsFloor(q: Queries, y: System, resource: Resource, g: nat, c: nat)
    requires Inv(q, y) && DataKey(g, resource) !in y.shared.forged && OldUnder(y, resource, g, c)
    ensures g in y.shared.floor
  {
    if !OldEntry(y.shared, DataKey(g, resource), c) {
      var r: nat :| ReaderHoldsOld(y, r, resource, g, c);
      assert ReaderInv(q, y.shared, y.readers[r]);
    } else {
      assert EntryInv(q, y.shared, g, resource, y.shared.entries[DataKey(g, resource)]);
    }
  }

  lemma OldSourceBackwards(q: Queries, y: System, e: Event, resource: Resource, c: nat)
    requires Inv(q, y) && c <= Current(y.shared) && !Reuses(y, e)
    requires OldSource(Step(q, y, e), resource, c)
    ensures OldSource(y, resource, c)
  {
    var z := Step(q, y, e);
    var g := PointerGeneration(z.shared).value;
    StepKeeps(q, y, e);
    StepCreates(q, y, e);
    if OldEntry(z.shared, DataKey(g, resource), c) {
      OldEntryBackwards(q, y, e, DataKey(g, resource), c);
    } else {
      var r: nat :| ReaderHoldsOld(z, r, resource, g, c);
      OldReaderBackwards(q, y, e, r, resource, g, c);
    }
    OldNeedsFloor(q, y, resource, g, c);
  }

  // ------------------------------------------------- only old things are hit

  /** The reader has not answered with, and is not about to load, anything older than `c`. */
  ghost predicate NotOlder(s: Shared, rd: Reader, c: nat) {
    match rd.pc
    case Count(_, _, v) => c <= v
    case Store(_, _, v, _) => c <= v
    case Done(o) => !o.Unavailable? && Genuine(s, rd.resource, o) ==> c <= From(o)
    case _ => true
  }

  lemma OwnStepNotOlder(q: Queries, y: System, e: Event, r: nat, c: nat)
    requires Inv(q, y) && c <= Current(y.shared) && !Reuses(y, e) && e.ReadCache? && e.reader == r && r in y.readers
    requires NotOlder(y.shared, y.readers[r], c) && !OldSource(y, y.readers[r].resource, c)
    ensures NotOlder(Step(q, y, e).shared, Step(q, y, e).readers[r], c)
  {
    var z := Step(q, y, e);
    var rd := y.readers[r];
    if rd.pc.SecondGeneration? && z.readers[r].pc.Done? {
      StepKeeps(q, y, e);
      StepCreates(q, y, e);
      HitStep(q, y, e, r, z.readers[r].pc.outcome);
      assert ReaderInv(q, y.shared, rd);
      assert rd.pc.found.value.itemsFrom < c ==> ReaderHoldsOld(y, r, rd.resource, rd.pc.generation, c);
    }
  }

  lemma QueryNotOlder(q: Queries, s: Shared, rd: Reader, works: bool, c: nat)
    requires c <= Current(s) && NotOlder(s, rd, c)
    ensures NotOlder(s, Reader(rd.resource, QueryStepOf(q, s, rd, works)), c)
  {
  }

  lemma NotOlderStable(s: Shared, t: Shared, rd: Reader, c: nat)
    requires Grows(s, t) && NotOlder(s, rd, c)
    ensures NotOlder(t, rd, c)
  {
  }

  lemma StepNotOlder(q: Queries, y: System, e: Event, r: nat, c: nat)
    requires Inv(q, y) && c <= Current(y.shared) && !Reuses(y, e) && r in y.readers
    requires NotOlder(y.shared, y.readers[r], c) && !OldSource(y, y.readers[r].resource, c)
    ensures NotOlder(Step(q, y, e).shared, Step(q, y, e).readers[r], c)
  {
    if e.ReadCache? && e.reader == r {
      OwnStepNotOlder(q, y, e, r, c);
    } else if e.ReadDatabase? && e.reader == r {
      QueryNotOlder(q, y.shared, y.readers[r], e.works, c);
    } else {
      StepKeeps(q, y, e);
      NotOlderStable(y.shared, Step(q, y, e).shared, y.readers[r], c);
    }
  }

  /** No old source, and reader `r`, if it reads this resource, is on nothing old either. */
  ghost predicate AllRecent(y: System, r: nat, resource: Resource, c: nat) {
    && c <= Current(y.shared) && !OldSource(y, resource, c)
    && (r in y.readers && y.readers[r].resource == resource ==> NotOlder(y.shared, y.readers[r], c))
  }

  lemma NoOldSourceLater(q: Queries, y: System, e: Event, resource: Resource, c: nat)
    requires Inv(q, y) && c <= Current(y.shared) && !Reuses(y, e) && !OldSource(y, resource, c)
    ensures !OldSource(Step(q, y, e), resource, c)
  {
    if OldSource(Step(q, y, e), resource, c) { OldSourceBackwards(q, y, e, resource, c); }
  }

  lemma ReaderRecentLater(q: Queries, y: System, e: Event, r: nat, resource: Resource, c: nat)
    requires Inv(q, y) && !Reuses(y, e) && AllRecent(y, r, resource, c)
    ensures var z := Step(q, y, e);
            r in z.readers && z.readers[r].resource == resource ==> NotOlder(z.shared, z.readers[r], c)
  {
    if r in y.readers && y.readers[r].resource == resource { StepNotOlder(q, y, e, r, c); }
  }

  lemma StepAllRecent(q: Queries, y: System, e: Event, r: nat, resource: Resource, c: nat)
    requires Inv(q, y) && !Reuses(y, e) && AllRecent(y, r, resource, c)
    ensures AllRecent(Step(q, y, e), r, resource, c)
  {
    hide Step;
    StepKeeps(q, y, e);
    NoOldSourceLater(q, y, e, resource, c);
    ReaderRecentLater(q, y, e, r, resource, c);
  }

  lemma NoReusePrefix(q: Queries, es: seq<Event>, fs: seq<Event>)
    requires NoReuse(q, es, fs) && |es| < |fs|
    ensures NoReuse(q, es, fs[..|fs| - 1]) && !Reuses(Run(q, fs[..|fs| - 1]), fs[|fs| - 1])
  {
    var front := fs[..|fs| - 1];
    forall k | |es| <= k < |front| ensures !ReusesAt(q, front, k) {
      assert front[..k] == fs[..k];
      assert !ReusesAt(q, fs, k);
    }
    assert !ReusesAt(q, fs, |fs| - 1);
  }

  lemma {:induction false} RunAllRecent(q: Queries, es: seq<Event>, fs: seq<Event>, r: nat, resource: Resource, c: nat)
    requires AllRecent(Run(q, es), r, resource, c) && NoReuse(q, es, fs)
    ensures AllRecent(Run(q, fs), r, resource, c)
    decreases |fs|
  {
    hide Step;
    if |es| < |fs| {
      var front := fs[..|fs| - 1];
      NoReusePrefix(q, es, fs);
      RunAllRecent(q, es, front, r, resource, c);
      Reachable(q, front);
      StepAllRecent(q, Run(q, front), fs[|fs| - 1], r, resource, c);
    } else {
      assert es == fs;
    }
  }

  // ------------------------------------------------ whatever is old can be hit

  /** `r`, which has still to check or to query, answers a genuine answer from
      before version `c`, and no generation number is created again on the way. */
  ghost predicate AnswersOlder(
    q: Queries, es: seq<Event>, fs: seq<Event>, r: nat, resource: Resource, o: Outcome, c: nat)
  {
    && NoReuse(q, es, fs) && Open(Run(q, es), r)
    && var z := Run(q, fs);
    && Finished(z, r, o) && z.readers[r].resource == resource
    && !o.Unavailable? && Genuine(z.shared, resource, o) && From(o) < c
  }

  ghost predicate CanAnswerOlder(q: Queries, es: seq<Event>, resource: Resource, c: nat) {
    exists fs, r, o :: AnswersOlder(q, es, fs, r, resource, o, c)
  }

  /** A Redis command of reader `r` that works. */
  function Read(r: nat): Event { ReadCache(r, Works, 1, true) }

  /** A whole read that the cache answers. */
  function HitEvents(r: nat, resource: Resource): seq<Event> { [Begin(r, resource), Read(r), Read(r), Read(r)] }

  lemma Begins(q: Queries, es: seq<Event>, r: nat, resource: Resource)
    requires r !in Run(q, es).readers
    ensures var y := Run(q, es);
            Run(q, es + [Begin(r, resource)]) == y.(readers := y.readers[r := Reader(resource, FirstGeneration(Look))])
    ensures NoReuse(q, es, es + [Begin(r, resource)])
  {
    RunExtend(q, es, Begin(r, resource));
  }

  /** One working step of a reader that leaves the shared state alone. */
  lemma Reads(q: Queries, es: seq<Event>, r: nat, resource: Resource, pc: ReaderPc, next: ReaderPc)
    requires var y := Run(q, es);
             && r in y.readers && y.readers[r] == Reader(resource, pc)
             && CacheStepOf(y.shared, y.readers[r], Works, 1, true) == (y.shared, next)
             && (pc.FirstGeneration? || pc.SecondGeneration? ==> y.shared.pointer.Some?)
    ensures var y := Run(q, es);
            Run(q, es + [Read(r)]) == y.(readers := y.readers[r := Reader(resource, next)])
    ensures NoReuse(q, es, es + [Read(r)])
  {
    RunExtend(q, es, Read(r));
    assert Created(Run(q, es), Read(r)).None?;
  }

  lemma NoReuseJoin(q: Queries, es: seq<Event>, fs: seq<Event>, gs: seq<Event>)
    requires NoReuse(q, es, fs) && NoReuse(q, fs, gs)
    ensures NoReuse(q, es, gs)
  {
    forall k | |es| <= k < |gs| ensures !ReusesAt(q, gs, k) {
      if k < |fs| {
        assert gs[..k] == fs[..k];
        assert !ReusesAt(q, fs, k);
      }
    }
  }

  /** A reader that begins while the pointer's generation holds an acceptable
      payload, and is not interfered with, ends with that payload. */
  lemma HitFollows(q: Queries, es: seq<Event>, r: nat, resource: Resource, g: nat)
    requires var y := Run(q, es);
             && r !in y.readers && PointerGeneration(y.shared) == Some(g) && DataKey(g, resource) in y.shared.entries
             && Decoded(resource, y.shared.entries[DataKey(g, resource)].doc).Some?
    ensures var y, z := Run(q, es), Run(q, es + HitEvents(r, resource));
            var e := y.shared.entries[DataKey(g, resource)];
            var hit := Hit(g, Decoded(resource, e.doc).value, e.itemsFrom, e.totalFrom);
            z == y.(readers := y.readers[r := Reader(resource, Done(hit))])
    ensures NoReuse(q, es, es + HitEvents(r, resource))
  {
    hide Run;
    var y := Run(q, es);
    var e := y.shared.entries[DataKey(g, resource)];
    var hit := Hit(g, Decoded(resource, e.doc).value, e.itemsFrom, e.totalFrom);
    var b, d := [Begin(r, resource)], [Read(r)];
    assert !PointerReadsEmpty(y.shared);
    Begins(q, es, r, resource);
    Reads(q, es + b, r, resource, FirstGeneration(Look), Fetch(g));
    NoReuseJoin(q, es, es + b, es + b + d);
    Reads(q, es + b + d, r, resource, Fetch(g), AfterFetch(g, Some(e)));
    NoReuseJoin(q, es, es + b + d, es + b + d + d);
    Reads(q, es + b + d + d, r, resource, SecondGeneration(g, Some(e), Look), Done(hit));
    NoReuseJoin(q, es, es + b + d + d, es + b + d + d + d);
    assert es + b + d + d + d == es + HitEvents(r, resource);
  }

  lemma {:induction false} FreshReader(ids: set<nat>) returns (r: nat)
    ensures forall x :: x in ids ==> x < r
  {
    if ids == {} {
      r := 0;
    } else {
      var x :| x in ids;
      var other := FreshReader(ids - {x});
      r := Max(other, x + 1);
      forall y | y in ids ensures y < r { assert y == x || y in ids - {x}; }
    }
  }

  lemma EntryIsHit(q: Queries, es: seq<Event>, resource: Resource, c: nat, g: nat)
    requires var y := Run(q, es);
             && PointerGeneration(y.shared) == Some(g) && DataKey(g, resource) !in y.shared.forged
             && OldEntry(y.shared, DataKey(g, resource), c)
    ensures CanAnswerOlder(q, es, resource, c)
  {
    var y := Run(q, es);
    var r := FreshReader(y.readers.Keys);
    assert r !in y.readers.Keys;
    HitFollows(q, es, r, resource, g);
    var z := Run(q, es + HitEvents(r, resource));
    assert AnswersOlder(q, es, es + HitEvents(r, resource), r, resource, z.readers[r].pc.outcome, c);
  }

  lemma OpenBefore(q: Queries, y: System, e: Event, r: nat)
    requires Open(Step(q, y, e), r)
    ensures Open(y, r)
  {
  }

  /** An event that creates nothing, put in front. */
  lemma CanPrepend(q: Queries, es: seq<Event>, e: Event, resource: Resource, c: nat)
    requires Created(Run(q, es), e).None? && CanAnswerOlder(q, es + [e], resource, c)
    ensures CanAnswerOlder(q, es, resource, c)
  {
    var fs, r: nat, o :| AnswersOlder(q, es + [e], fs, r, resource, o, c);
    OneStepNoReuse(q, es, e);
    NoReuseJoin(q, es, es + [e], fs);
    RunExtend(q, es, e);
    OpenBefore(q, Run(q, es), e, r);
    assert AnswersOlder(q, es, fs, r, resource, o, c);
  }

  lemma OneStepNoReuse(q: Queries, es: seq<Event>, e: Event)
    requires Created(Run(q, es), e).None?
    ensures NoReuse(q, es, es + [e])
  {
    assert (es + [e])[..|es|] == es;
  }

  lemma StoredIsHit(q: Queries, es: seq<Event>, w: nat, resource: Resource, c: nat, g: nat)
    requires var y := Run(q, es);
             && PointerGeneration(y.shared) == Some(g) && DataKey(g, resource) !in y.shared.forged
             && ReaderHoldsOld(y, w, resource, g, c) && y.readers[w].pc.Store?
    ensures CanAnswerOlder(q, es, resource, c)
  {
    var y := Run(q, es);
    var pc := y.readers[w].pc;
    Reachable(q, es);
    assert ReaderInv(q, y.shared, y.readers[w]);
    AnswerNamesResource(q, y.shared, resource, pc.answer, pc.itemsFrom, pc.totalFrom);
    SetAndGetAgree(resource, Encoded(resource, pc.answer).value, pc.answer);
    RunExtend(q, es, Read(w));
    EntryIsHit(q, es + [Read(w)], resource, c, g);
    CanPrepend(q, es, Read(w), resource, c);
  }

  lemma CountedIsHit(q: Queries, es: seq<Event>, w: nat, resource: Resource, c: nat, g: nat)
    requires var y := Run(q, es);
             && PointerGeneration(y.shared) == Some(g) && DataKey(g, resource) !in y.shared.forged
             && ReaderHoldsOld(y, w, resource, g, c) && y.readers[w].pc.Count?
    ensures CanAnswerOlder(q, es, resource, c)
  {
    var e := ReadDatabase(w, true);
    Reachable(q, es);
    assert ReaderInv(q, Run(q, es).shared, Run(q, es).readers[w]);
    RunExtend(q, es, e);
    StoredIsHit(q, es + [e], w, resource, c, g);
    CanPrepend(q, es, e, resource, c);
  }

  lemma FetchedIsHit(q: Queries, es: seq<Event>, w: nat, resource: Resource, c: nat, g: nat)
    requires var y := Run(q, es);
             && PointerGeneration(y.shared) == Some(g) && DataKey(g, resource) !in y.shared.forged
             && ReaderHoldsOld(y, w, resource, g, c) && y.readers[w].pc.SecondGeneration?
    ensures CanAnswerOlder(q, es, resource, c)
    decreases Run(q, es).readers[w].pc.step.Claim?
  {
    var y := Run(q, es);
    assert !PointerReadsEmpty(y.shared);
    RunExtend(q, es, Read(w));
    if y.readers[w].pc.step.Claim? {
      FetchedIsHit(q, es + [Read(w)], w, resource, c, g);
      CanPrepend(q, es, Read(w), resource, c);
    } else {
      OneStepNoReuse(q, es, Read(w));
      assert AnswersOlder(q, es, es + [Read(w)], w, resource, Run(q, es + [Read(w)]).readers[w].pc.outcome, c);
    }
  }

  /** Reads can go back behind version `c` exactly when, under the generation the
      pointer holds, an acceptable payload from before `c` is stored, or is in the
      hands of a reader that has still to return it, to complete it or to write
      it back. This is for every reachable state, after any mishap; only the way
      on is taken to create no number again, which `ReusedExactly` covers. */
  lemma OlderAnswersExactly(q: Queries, es: seq<Event>, resource: Resource, c: nat)
    requires c <= Current(Run(q, es).shared)
    ensures CanAnswerOlder(q, es, resource, c) <==> OldSource(Run(q, es), resource, c)
  {
    var y := Run(q, es);
    if CanAnswerOlder(q, es, resource, c) && !OldSource(y, resource, c) {
      var fs, r: nat, o :| AnswersOlder(q, es, fs, r, resource, o, c);
      RunAllRecent(q, es, fs, r, resource, c);
      assert false;
    }
    if OldSource(y, resource, c) {
      var g := PointerGeneration(y.shared).value;
      if OldEntry(y.shared, DataKey(g, resource), c) {
        EntryIsHit(q, es, resource, c, g);
      } else {
        var w: nat :| ReaderHoldsOld(y, w, resource, g, c);
        match y.readers[w].pc
        case Store(_, _, _, _) => StoredIsHit(q, es, w, resource, c, g);
        case Count(_, _, _) => CountedIsHit(q, es, w, resource, c, g);
        case _ => FetchedIsHit(q, es, w, resource, c, g);
      }
    }
  }

  /** An answer from before the pointer's generation was created, an entry come
      back from an earlier life of the number, is possible only for a number that
      two events of the run created. */
  lemma RevivalNeedsReuse(q: Queries, es: seq<Event>, resource: Resource, g: nat)
    requires PointerGeneration(Run(q, es).shared) == Some(g)
    ensures g in Run(q, es).shared.floor
    ensures CanAnswerOlder(q, es, resource, Run(q, es).shared.floor[g]) ==>
              exists i, j :: CreatedTwice(q, es, i, j, g)
  {
    Reachable(q, es);
    var y := Run(q, es);
    var c := y.shared.floor[g];
    if CanAnswerOlder(q, es, resource, c) {
      OlderAnswersExactly(q, es, resource, c);
      OldBeforeFloor(q, y, resource, g);
      ReusedExactly(q, es, g);
    }
  }

  /** After a trusted answer, a read of the same resource that is still open can
      go back behind it exactly when something older than it is left under the
      pointer's generation; and then, unless that number was reused, the answer
      reflected a commit that no INCR has followed. */
  lemma MonotonicExactly(q: Queries, es: seq<Event>, r: nat, o: Outcome)
    requires TrustedAnswer(Run(q, es), r, o)
    ensures var y := Run(q, es);
            var resource := y.readers[r].resource;
            && (CanAnswerOlder(q, es, resource, From(o)) <==> OldSource(y, resource, From(o)))
            && (OldSource(y, resource, From(o)) && PointerGeneration(y.shared).value !in y.shared.reused ==>
                  y.shared.published < From(o) <= Current(y.shared))
  {
    var y := Run(q, es);
    var resource := y.readers[r].resource;
    FailOpen(q, es, r, o);
    OlderAnswersExactly(q, es, resource, From(o));
    Reachable(q, es);
    if OldSource(y, resource, From(o)) {
      var g := PointerGeneration(y.shared).value;
      if y.shared.floor[g] >= From(o) {
        OldUnderLater(y, resource, g, From(o), y.shared.floor[g]);
        OldBeforeFloor(q, y, resource, g);
      }
    }
  }

  lemma OldUnderLater(y: System, resource: Resource, g: nat, c: nat, d: nat)
    requires OldUnder(y, resource, g, c) && c <= d
    ensures OldUnder(y, resource, g, d)
  {
    if !OldEntry(y.shared, DataKey(g, resource), c) {
      var r: nat :| ReaderHoldsOld(y, r, resource, g, c);
      assert ReaderHoldsOld(y, r, resource, g, d);
    }
  }

  lemma OldBeforeFloor(q: Queries, y: System, resource: Resource, g: nat)
    requires Inv(q, y) && g in y.shared.floor && DataKey(g, resource) !in y.shared.forged
    requires OldUnder(y, resource, g, y.shared.floor[g])
    ensures g in y.shared.reused
  {
    if OldEntry(y.shared, DataKey(g, resource), y.shared.floor[g]) {
      assert EntryInv(q, y.shared, g, resource, y.shared.entries[DataKey(g, resource)]);
    } else {
      var r: nat :| ReaderHoldsOld(y, r, resource, g, y.shared.floor[g]);
      assert ReaderInv(q, y.shared, y.readers[r]);
    }
  }
}
