/** What readers get from the protocol, over every run. */
module ReadGuarantees {
  import opened Prelude
  import opened Generation
  import opened Catalog
  import opened Protocol
  import opened ProtocolInvariant

  /** The oldest version an answer was computed from. */
  function From(o: Outcome): nat
    requires !o.Unavailable?
  {
    match o case Hit(_, _, v, _) => v case Loaded(_, v, _) => v case NotFound(at) => at
  }

  /** The newest version an answer was computed from. */
  function Upto(o: Outcome): nat
    requires !o.Unavailable?
  {
    match o case Hit(_, _, _, v) => v case Loaded(_, _, v) => v case NotFound(at) => at
  }

  /** The response body, or None for ITEM_NOT_FOUND. */
  function Response(o: Outcome): Option<Answer>
    requires !o.Unavailable?
  {
    match o case Hit(_, a, _, _) => Some(a) case Loaded(a, _, _) => Some(a) case NotFound(_) => None
  }

  ghost predicate Finished(y: System, r: nat, o: Outcome) { r in y.readers && y.readers[r].pc == Done(o) }

  // ------------------------------------------------------------- freshness

  /** The answer is not a payload that came from outside. */
  ghost predicate Genuine(s: Shared, r: Resource, o: Outcome) {
    o.Hit? ==> DataKey(o.generation, r) !in s.forged
  }

  /** Nor did it come under a generation number that was created more than once. */
  ghost predicate Trusted(s: Shared, r: Resource, o: Outcome) {
    Genuine(s, r, o) && (o.Hit? ==> o.generation !in s.reused)
  }

  ghost predicate TrustedAnswer(y: System, r: nat, o: Outcome) {
    Finished(y, r, o) && !o.Unavailable? && Trusted(y.shared, y.readers[r].resource, o)
  }

  /** Every cached hit was computed from versions no older than the one current
      when its generation was created, and is exactly what the database held then. */
  lemma FreshHits(q: Queries, es: seq<Event>, r: nat, o: Outcome)
    requires TrustedAnswer(Run(q, es), r, o) && o.Hit?
    ensures var s := Run(q, es).shared;
            && o.generation in s.floor
            && s.floor[o.generation] <= o.itemsFrom <= o.totalFrom <= Current(s)
            && Direct(q, Run(q, es).readers[r].resource, s.history[o.itemsFrom], s.history[o.totalFrom]) == Some(o.answer)
  {
    Reachable(q, es);
    assert ReaderInv(q, Run(q, es).shared, Run(q, es).readers[r]);
  }

  // -------------------------------------------------------- read after publish

  /** The read has neither passed its final generation check nor queried. */
  predicate Open(y: System, r: nat) {
    r in y.readers ==> y.readers[r].pc.FirstGeneration? || y.readers[r].pc.Fetch?
                       || y.readers[r].pc.SecondGeneration? || y.readers[r].pc.Query?
  }

  /** From here on reader `r` cannot end with a trusted answer older than `c`. */
  ghost predicate AtLeast(y: System, r: nat, c: nat) {
    c <= y.shared.published && (r in y.readers ==> ReaderAtLeast(y.shared, y.readers[r], c))
  }

  ghost predicate ReaderAtLeast(s: Shared, rd: Reader, c: nat) {
    match rd.pc
    case Count(_, _, v) => c <= v
    case Store(_, _, v, _) => c <= v
    case Done(o) => !o.Unavailable? && Trusted(s, rd.resource, o) ==> c <= From(o)
    case _ => true
  }

  lemma SecondCheckAtLeast(q: Queries, s: Shared, rd: Reader, result: GenerationResult, c: nat)
    requires rd.pc.SecondGeneration? && ReaderInv(q, s, rd) && PointerInv(s) && c <= s.published
    requires result.Gave? && result.generation.Some? ==> PointerGeneration(s) == result.generation
    ensures var pc := AfterSecond(rd.resource, rd.pc.generation, rd.pc.found, result);
            pc.Done? ==> pc.outcome.Hit? && (Trusted(s, rd.resource, pc.outcome) ==> c <= pc.outcome.itemsFrom)
  {
  }

  lemma CacheStepAtLeast(q: Queries, s: Shared, rd: Reader, luck: Luck, draw: Draw, fits: bool, c: nat)
    requires SharedInv(q, s) && ReaderInv(q, s, rd) && c <= s.published && ReaderAtLeast(s, rd, c)
    ensures var (t, pc) := CacheStepOf(s, rd, luck, draw, fits); ReaderAtLeast(t, Reader(rd.resource, pc), c)
  {
    if rd.pc.SecondGeneration? {
      GenerationStepKeeps(q, s, rd.pc.step, luck, draw);
      var (t, result) := GenerationStepOf(s, rd.pc.step, luck, draw);
      ReaderStable(q, s, t, rd);
      SecondCheckAtLeast(q, t, rd, result, c);
    }
  }

  lemma QueryStepAtLeast(q: Queries, s: Shared, rd: Reader, works: bool, c: nat)
    requires ReaderAtLeast(s, rd, c) && c <= s.published <= Current(s)
    ensures ReaderAtLeast(s, Reader(rd.resource, QueryStepOf(q, s, rd, works)), c)
  {
  }

  lemma StepAtLeast(q: Queries, y: System, e: Event, r: nat, c: nat)
    requires Inv(q, y) && AtLeast(y, r, c)
    ensures AtLeast(Step(q, y, e), r, c)
  {
    StepKeeps(q, y, e);
    if r in y.readers {
      if e.ReadCache? && e.reader == r {
        CacheStepAtLeast(q, y.shared, y.readers[r], e.luck, e.draw, e.fits, c);
      } else if e.ReadDatabase? && e.reader == r {
        QueryStepAtLeast(q, y.shared, y.readers[r], e.works, c);
      }
    }
  }

  lemma {:induction false} RunAtLeast(q: Queries, es: seq<Event>, more: seq<Event>, r: nat, c: nat)
    requires AtLeast(Run(q, es), r, c)
    ensures AtLeast(Run(q, es + more), r, c)
    decreases |more|
  {
    hide Step;
    if more == [] {
      assert es + more == es;
    } else {
      var front, e := more[..|more| - 1], more[|more| - 1];
      assert es + more == es + front + [e];
      RunExtend(q, es + front, e);
      Reachable(q, es + front);
      RunAtLeast(q, es, front, r, c);
      StepAtLeast(q, Run(q, es + front), e, r, c);
    }
  }

  /** Every read that is still open answers from the version current at the
      latest INCR or later, whatever happens afterwards. */
  lemma ReadAfterInvalidation(q: Queries, es: seq<Event>, more: seq<Event>, r: nat, o: Outcome)
    requires Open(Run(q, es), r)
    requires TrustedAnswer(Run(q, es + more), r, o)
    ensures Run(q, es).shared.published <= From(o)
  {
    RunAtLeast(q, es, more, r, Run(q, es).shared.published);
  }

  /** After a run that exits 0, a no-op or a retry included, every read still
      open reflects every commit made before that run's INCR, its own among them. */
  lemma ReadAfterPublish(q: Queries, es: seq<Event>, more: seq<Event>, p: nat, ended: nat, bumped: nat, r: nat, o: Outcome)
    requires p in Run(q, es).ingesters && Run(q, es).ingesters[p].pc == Exited(ended, bumped)
    requires Open(Run(q, es), r)
    requires TrustedAnswer(Run(q, es + more), r, o)
    ensures ended <= bumped <= From(o)
  {
    Reachable(q, es);
    assert IngesterInv(Run(q, es).shared, p, Run(q, es).ingesters[p]);
    ReadAfterInvalidation(q, es, more, r, o);
  }

  /** Reads never go back past an invalidated version: staleness relative to an
      earlier answer needs a commit that no INCR has followed. */
  lemma MonotonicOnceInvalidated(q: Queries, es: seq<Event>, more: seq<Event>, r1: nat, o1: Outcome, r2: nat, o2: Outcome)
    requires TrustedAnswer(Run(q, es), r1, o1)
    requires Open(Run(q, es), r2) && TrustedAnswer(Run(q, es + more), r2, o2)
    ensures From(o2) < From(o1) ==> Run(q, es).shared.published < Current(Run(q, es).shared)
    ensures From(o2) < From(o1) ==> Run(q, es).shared.published < From(o1)
  {
    ReadAfterInvalidation(q, es, more, r2, o2);
    Reachable(q, es);
    assert ReaderInv(q, Run(q, es).shared, Run(q, es).readers[r1]);
  }

  // ------------------------------------------------------------- coherence

  /** No commit since the pointer's generation was created. */
  ghost predicate Quiescent(s: Shared) {
    PointerGeneration(s).Some? && PointerGeneration(s).value in s.floor
    && s.floor[PointerGeneration(s).value] == Current(s)
  }

  lemma ComputedAtCurrent(q: Queries, s: Shared, r: Resource, a: Answer, v1: nat, v2: nat, g: nat)
    requires Quiescent(s) && g !in s.reused && Some(g) == PointerGeneration(s)
    requires Computed(q, s, r, a, v1, v2) && NotBefore(s, g, v1)
    ensures v1 == v2 == Current(s) && Direct(q, r, Latest(s), Latest(s)) == Some(a)
  {
  }

  /** A read that ends in a hit ends at its second generation check, while the
      pointer holds its generation. */
  lemma HitStep(q: Queries, y: System, e: Event, r: nat, o: Outcome)
    requires r in y.readers && !y.readers[r].pc.Done?
    requires Finished(Step(q, y, e), r, o) && o.Hit?
    ensures PointerGeneration(Step(q, y, e).shared) == Some(o.generation)
    ensures Step(q, y, e).readers[r].resource == y.readers[r].resource
  {
    assert (e.ReadCache? || e.ReadDatabase?) && e.reader == r;
    if e.ReadCache? {
      var rd := y.readers[r];
      assert rd.pc.SecondGeneration?;
      if rd.pc.step.Claim? { TextOfDec(rd.pc.step.candidate); }
    } else {
      assert false;
    }
  }

  /** While the database is as it was when the generation was created, a hit is
      exactly the answer of the uncached service on the current tables, and a
      list's items and total come from one version. */
  lemma QuiescentHits(q: Queries, es: seq<Event>, e: Event, r: nat, o: Outcome)
    requires var y := Run(q, es); r in y.readers && !y.readers[r].pc.Done?
    requires TrustedAnswer(Run(q, es + [e]), r, o) && o.Hit?
    requires Quiescent(Run(q, es + [e]).shared)
    ensures var s := Run(q, es + [e]).shared;
            && o.itemsFrom == o.totalFrom == Current(s)
            && Direct(q, Run(q, es).readers[r].resource, Latest(s), Latest(s)) == Some(o.answer)
  {
    RunExtend(q, es, e);
    Reachable(q, es + [e]);
    var z := Run(q, es + [e]);
    HitStep(q, Run(q, es), e, r, o);
    assert ReaderInv(q, z.shared, z.readers[r]);
    ComputedAtCurrent(q, z.shared, z.readers[r].resource, o.answer, o.itemsFrom, o.totalFrom, o.generation);
  }

  /** The same for every payload a reader could accept under the current generation. */
  lemma QuiescentEntries(q: Queries, es: seq<Event>, key: DataKey)
    requires var s := Run(q, es).shared;
             && Quiescent(s) && Some(key.generation) == PointerGeneration(s) && key.generation !in s.reused
             && key in s.entries && key !in s.forged
    ensures var s := Run(q, es).shared;
            var a := Decoded(key.resource, s.entries[key].doc);
            a.Some? ==> a == Direct(q, key.resource, Latest(s), Latest(s))
  {
    Reachable(q, es);
    var s := Run(q, es).shared;
    var entry := s.entries[key];
    assert EntryInv(q, s, key.generation, key.resource, entry);
    if Decoded(key.resource, entry.doc).Some? {
      ComputedAtCurrent(q, s, key.resource, entry.doc.answer, entry.itemsFrom, entry.totalFrom, key.generation);
    }
  }

  // -------------------------------------------------------------- fail-open

  /** Every genuine response is one the service without a cache gives at versions the
      database really had, in the order its statements would read them. */
  lemma FailOpen(q: Queries, es: seq<Event>, r: nat, o: Outcome)
    requires Finished(Run(q, es), r, o) && !o.Unavailable?
    requires Genuine(Run(q, es).shared, Run(q, es).readers[r].resource, o)
    ensures var s := Run(q, es).shared;
            && From(o) <= Upto(o) <= Current(s)
            && Response(o) == Direct(q, Run(q, es).readers[r].resource, s.history[From(o)], s.history[Upto(o)])
  {
    Reachable(q, es);
    assert ReaderInv(q, Run(q, es).shared, Run(q, es).readers[r]);
  }

  /** Only a failed statement of its own makes a read unavailable: no pattern of
      Redis failures, losses or foreign writes does. */
  lemma {:induction false} CacheNeverBreaksReads(q: Queries, es: seq<Event>, r: nat)
    requires forall e :: e in es && e.ReadDatabase? && e.reader == r ==> e.works
    ensures !Finished(Run(q, es), r, Unavailable)
  {
    if es != [] {
      var front, e := es[..|es| - 1], es[|es| - 1];
      CacheNeverBreaksReads(q, front, r);
      var y := Run(q, front);
      if e.ReadDatabase? && e.reader == r && r in y.readers {
        assert e.works;
      }
    }
  }

  /** A write-back, failed or not, never changes the answer. */
  lemma {:induction false} WriteBackKeepsAnswer(q: Queries, es: seq<Event>, more: seq<Event>, r: nat, g: nat, a: Answer, v1: nat, v2: nat)
    requires var y := Run(q, es); r in y.readers && y.readers[r].pc == Store(g, a, v1, v2)
    ensures var z := Run(q, es + more);
            r in z.readers && (z.readers[r].pc == Store(g, a, v1, v2) || z.readers[r].pc == Done(Loaded(a, v1, v2)))
    decreases |more|
  {
    if more == [] {
      assert es + more == es;
    } else {
      var front, e := more[..|more| - 1], more[|more| - 1];
      assert es + more == es + front + [e];
      RunExtend(q, es + front, e);
      WriteBackKeepsAnswer(q, es, front, r, g, a, v1, v2);
    }
  }

  // -------------------------------------------------------------- existence

  /** Rows persist from any version to any later one. */
  lemma {:induction false} RowsPersist(s: Shared, i: nat, j: nat)
    requires HistoryInv(s) && i <= j <= Current(s)
    ensures Persists(s.history[i].rows, s.history[j].rows)
    decreases j
  {
    if i < j {
      RowsPersist(s, i, j - 1);
      assert Follows(s.history[j - 1], s.log[j - 1], s.history[j]);
    }
  }

  /** A read that has not queried yet can only report absence as of now or later. */
  lemma {:induction false} NotFoundIsRecent(q: Queries, es: seq<Event>, more: seq<Event>, r: nat, at: nat)
    requires Open(Run(q, es), r) && Finished(Run(q, es + more), r, NotFound(at))
    ensures Current(Run(q, es).shared) <= at
    decreases |more|
  {
    assert more == [] ==> es + more == es;
    if more != [] {
      var front, e := more[..|more| - 1], more[|more| - 1];
      assert es + more == es + front + [e];
      RunExtend(q, es + front, e);
      var y := Run(q, es + front);
      if Finished(y, r, NotFound(at)) {
        NotFoundIsRecent(q, es, front, r, at);
      } else {
        RunGrows(q, es, front);
      }
    }
  }

  /** Once any read of an id has returned an item, no read of it that still has
      to ask can report ITEM_NOT_FOUND, whatever the cache holds or loses. */
  lemma ExistenceIsStable(q: Queries, es: seq<Event>, more: seq<Event>, g: int, r1: nat, o1: Outcome, r2: nat)
    requires Finished(Run(q, es), r1, o1) && Run(q, es).readers[r1].resource == ItemOf(g)
    requires !o1.Unavailable? && !o1.NotFound? && Genuine(Run(q, es).shared, ItemOf(g), o1)
    requires Open(Run(q, es), r2)
    requires r2 in Run(q, es + more).readers && Run(q, es + more).readers[r2].resource == ItemOf(g)
    ensures !(Run(q, es + more).readers[r2].pc.Done? && Run(q, es + more).readers[r2].pc.outcome.NotFound?)
  {
    var z := Run(q, es + more);
    if z.readers[r2].pc.Done? && z.readers[r2].pc.outcome.NotFound? {
      var at := z.readers[r2].pc.outcome.at;
      FailOpen(q, es, r1, o1);
      FailOpen(q, es + more, r2, NotFound(at));
      NotFoundIsRecent(q, es, more, r2, at);
      RunGrows(q, es, more);
      Reachable(q, es + more);
      RowsPersist(z.shared, From(o1), at);
      assert false;
    }
  }
}
