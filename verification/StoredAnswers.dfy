/** How a lookup ends, what a hit has to do with the payload its key held, and
    where a loaded response is stored, over every run. */
module StoredAnswers {
  import opened Prelude
  import opened Generation
  import opened Protocol
  import opened ProtocolInvariant
  import opened GenerationGuarantees
  import opened ReadGuarantees

  // ------------------------------------------------------------ bound hits

  /** The payload answers the question asked: its id, its api version, or the
      list's parameters, page bounds and size. */
  predicate Binds(r: Resource, d: Doc, a: Answer) {
    match r
    case ItemOf(g) => d == Plain(a) && a.ItemAnswer? && a.item.gameId == g
    case MetaOf(v) => d == Plain(a) && a.MetaAnswer? && a.apiVersion == v
    case ListOf(p) =>
      && d == Envelope(p, a) && a.ListAnswer?
      && a.limit == p.limit && a.offset == p.offset && |a.items| <= MAX_CACHED_LIST_ITEMS
  }

  /** After the first `k` events the data key held this entry. */
  ghost predicate HeldAt(q: Queries, es: seq<Event>, k: nat, key: DataKey, e: Entry) {
    k <= |es| && key in Run(q, es[..k]).shared.entries && Run(q, es[..k]).shared.entries[key] == e
  }

  ghost predicate WasHeld(q: Queries, es: seq<Event>, key: DataKey, e: Entry) {
    exists k :: HeldAt(q, es, k, key, e)
  }

  /** The hit is a bound payload that its own key held at some moment of the run. */
  ghost predicate BoundHit(q: Queries, es: seq<Event>, r: Resource, o: Outcome)
    requires o.Hit?
  {
    exists d :: WasHeld(q, es, DataKey(o.generation, r), Entry(d, o.itemsFrom, o.totalFrom)) && Binds(r, d, o.answer)
  }

  ghost predicate HoldsStored(q: Queries, es: seq<Event>, rd: Reader) {
    match rd.pc
    case SecondGeneration(g, Some(e), _) => WasHeld(q, es, DataKey(g, rd.resource), e)
    case Done(o) => o.Hit? ==> BoundHit(q, es, rd.resource, o)
    case _ => true
  }

  lemma WasHeldLater(q: Queries, es: seq<Event>, e: Event, key: DataKey, entry: Entry)
    requires WasHeld(q, es, key, entry)
    ensures WasHeld(q, es + [e], key, entry)
  {
    var k: nat :| HeldAt(q, es, k, key, entry);
    assert (es + [e])[..k] == es[..k];
    assert HeldAt(q, es + [e], k, key, entry);
  }

  lemma HeldNow(q: Queries, es: seq<Event>, e: Event, key: DataKey)
    requires key in Run(q, es).shared.entries
    ensures WasHeld(q, es + [e], key, Run(q, es).shared.entries[key])
  {
    assert (es + [e])[..|es|] == es;
    assert HeldAt(q, es + [e], |es|, key, Run(q, es).shared.entries[key]);
  }

  lemma HoldsStoredLater(q: Queries, es: seq<Event>, e: Event, rd: Reader)
    requires HoldsStored(q, es, rd)
    ensures HoldsStored(q, es + [e], rd)
  {
    match rd.pc
    case SecondGeneration(g, Some(entry), _) => WasHeldLater(q, es, e, DataKey(g, rd.resource), entry);
    case Done(o) =>
      if o.Hit? {
        var d :| WasHeld(q, es, DataKey(o.generation, rd.resource), Entry(d, o.itemsFrom, o.totalFrom))
                 && Binds(rd.resource, d, o.answer);
        WasHeldLater(q, es, e, DataKey(o.generation, rd.resource), Entry(d, o.itemsFrom, o.totalFrom));
      }
    case _ =>
  }

  lemma OwnStep(q: Queries, es: seq<Event>, e: Event, rd: Reader)
    requires e.ReadCache? && HoldsStored(q, es, rd)
    ensures var pc := CacheStepOf(Run(q, es).shared, rd, e.luck, e.draw, e.fits).1;
            HoldsStored(q, es + [e], Reader(rd.resource, pc))
  {
    match rd.pc
    case Fetch(g) =>
      var key := DataKey(g, rd.resource);
      if key in Run(q, es).shared.entries { HeldNow(q, es, e, key); }
    case SecondGeneration(g, Some(entry), _) =>
      var key := DataKey(g, rd.resource);
      WasHeldLater(q, es, e, key, entry);
      if Decoded(rd.resource, entry.doc).Some? {
        var a := Decoded(rd.resource, entry.doc).value;
        assert entry == Entry(entry.doc, entry.itemsFrom, entry.totalFrom) && Binds(rd.resource, entry.doc, a);
        assert BoundHit(q, es + [e], rd.resource, Hit(g, a, entry.itemsFrom, entry.totalFrom));
      }
    case _ => HoldsStoredLater(q, es, e, rd);
  }

  lemma {:induction false} ReadersHoldStored(q: Queries, es: seq<Event>, r: nat)
    requires r in Run(q, es).readers
    ensures HoldsStored(q, es, Run(q, es).readers[r])
  {
    if es != [] {
      var front, e := es[..|es| - 1], es[|es| - 1];
      assert es == front + [e];
      var y := Run(q, front);
      if r in y.readers {
        ReadersHoldStored(q, front, r);
        HoldsStoredLater(q, front, e, y.readers[r]);
        if e.ReadCache? && e.reader == r { OwnStep(q, front, e, y.readers[r]); }
      }
    }
  }

  /** Whatever anybody writes to Redis, forged payloads included, a hit carries
      the id, the api version, or the parameters, page bounds and size that its
      reader asked for, and is what its own key held at some moment. */
  lemma AnswersAreBound(q: Queries, es: seq<Event>, r: nat, o: Outcome)
    requires Finished(Run(q, es), r, o) && o.Hit?
    ensures BoundHit(q, es, Run(q, es).readers[r].resource, o)
    ensures match Run(q, es).readers[r].resource
            case ItemOf(g) => o.answer.ItemAnswer? && o.answer.item.gameId == g
            case MetaOf(v) => o.answer.MetaAnswer? && o.answer.apiVersion == v
            case ListOf(p) =>
              && o.answer.ListAnswer? && o.answer.limit == p.limit && o.answer.offset == p.offset
              && |o.answer.items| <= MAX_CACHED_LIST_ITEMS
  {
    ReadersHoldStored(q, es, r);
  }

  // ----------------------------------------------------- how a lookup ends

  predicate Looking(pc: ReaderPc) { pc.FirstGeneration? || pc.Fetch? || pc.SecondGeneration? }

  ghost predicate Acceptable(r: Resource, d: Doc) { exists a :: Binds(r, d, a) }

  /** Where one Redis command of its own takes a reader that is looking up. A
      failure ends the lookup and nothing will be written. Otherwise the reader
      works, and after a miss will write, under the generation the pointer holds
      at this very step, or under none if it holds none; only after undecodable
      bytes is it still the one first seen. It is a hit exactly when the pointer
      holds the generation first seen and the payload is bound to the question. */
  ghost predicate LookupStep(s: Shared, t: Shared, r: Resource, before: ReaderPc, after: ReaderPc, luck: Luck) {
    && (luck != Works <==> after == Query(CacheDown))
    && (luck == Works && after.Query? ==>
          after.lookup == Missed(if before.Fetch? then Some(before.generation) else PointerGeneration(t)))
    && (after.Fetch? ==> before.FirstGeneration? && Some(after.generation) == PointerGeneration(t))
    && (before.Fetch? && luck == Works ==>
          var key := DataKey(before.generation, r);
          if key in s.entries && s.entries[key].doc.Undecodable? then after.Query?
          else after == SecondGeneration(before.generation, if key in s.entries then Some(s.entries[key]) else None, Look))
    && (before.SecondGeneration? && luck == Works && !after.SecondGeneration? ==>
          (after.Done? <==> PointerGeneration(t) == Some(before.generation) && before.found.Some?
                            && Acceptable(r, before.found.value.doc)))
    && (after.Done? ==>
          && before.SecondGeneration? && before.found.Some? && after.outcome.Hit?
          && after.outcome.generation == before.generation && Binds(r, before.found.value.doc, after.outcome.answer))
  }

  lemma BindsDecoded(r: Resource, d: Doc)
    ensures Decoded(r, d).Some? <==> Acceptable(r, d)
    ensures Decoded(r, d).Some? ==> Binds(r, d, Decoded(r, d).value)
  {
    if Decoded(r, d).Some? { assert Binds(r, d, Decoded(r, d).value); }
  }

  lemma CheckStep(s: Shared, rd: Reader, luck: Luck, draw: Draw, fits: bool)
    requires rd.pc.FirstGeneration? || rd.pc.SecondGeneration?
    ensures var (t, pc) := CacheStepOf(s, rd, luck, draw, fits); LookupStep(s, t, rd.resource, rd.pc, pc, luck)
  {
    ReturnedGenerationIsHeld(s, rd.pc.step, luck, draw);
    if rd.pc.SecondGeneration? && rd.pc.found.Some? { BindsDecoded(rd.resource, rd.pc.found.value.doc); }
  }

  lemma LookupEnds(q: Queries, es: seq<Event>, e: Event, r: nat)
    requires e.ReadCache? && e.reader == r && r in Run(q, es).readers && Looking(Run(q, es).readers[r].pc)
    ensures r in Run(q, es + [e]).readers
    ensures var y, z := Run(q, es), Run(q, es + [e]);
            && z.readers[r].resource == y.readers[r].resource
            && LookupStep(y.shared, z.shared, y.readers[r].resource, y.readers[r].pc, z.readers[r].pc, e.luck)
  {
    RunExtend(q, es, e);
    if !Run(q, es).readers[r].pc.Fetch? {
      CheckStep(Run(q, es).shared, Run(q, es).readers[r], e.luck, e.draw, e.fits);
    }
  }

  // ------------------------------------------- where a miss leaves its answer

  /** The reader's own commands and statements work, and its payload fits. */
  predicate OwnWorks(r: nat, e: Event) {
    && (e.ReadCache? && e.reader == r ==> e.luck == Works && e.fits)
    && (e.ReadDatabase? && e.reader == r ==> e.works)
  }

  predicate Ended(y: System, r: nat) { r in y.readers && y.readers[r].pc.Done? }

  ghost predicate WritesUnder(y: System, r: nat, resource: Resource, h: nat) {
    && r in y.readers && y.readers[r].resource == resource
    && match y.readers[r].pc
       case Query(l) => l == Missed(Some(h))
       case Count(l, _, _) => l == Missed(Some(h))
       case Store(g, _, _, _) => g == h
       case Done(o) => o.NotFound? || o.Loaded?
       case _ => false
  }

  lemma WritesUnderStep(q: Queries, y: System, e: Event, r: nat, resource: Resource, h: nat)
    requires WritesUnder(y, r, resource, h) && OwnWorks(r, e)
    ensures WritesUnder(Step(q, y, e), r, resource, h)
  {
  }

  lemma {:induction false} KeepsWritingUnder(q: Queries, es: seq<Event>, more: seq<Event>, r: nat, resource: Resource, h: nat)
    requires WritesUnder(Run(q, es), r, resource, h) && forall e :: e in more ==> OwnWorks(r, e)
    ensures WritesUnder(Run(q, es + more), r, resource, h)
    decreases |more|
  {
    if more == [] {
      assert es + more == es;
    } else {
      var front, e := more[..|more| - 1], more[|more| - 1];
      assert es + more == es + front + [e];
      KeepsWritingUnder(q, es, front, r, resource, h);
      assert e in more;
      RunExtend(q, es + front, e);
      WritesUnderStep(q, Run(q, es + front), e, r, resource, h);
    }
  }

  /** Everything but a list of more than the maximum of items is cached. */
  predicate Cacheable(a: Answer) { a.ListAnswer? ==> |a.items| <= MAX_CACHED_LIST_ITEMS }

  /** The key holds this very answer, with the versions it is from. */
  ghost predicate HoldsAnswer(s: Shared, key: DataKey, o: Outcome)
    requires o.Loaded?
  {
    && key in s.entries && Binds(key.resource, s.entries[key].doc, o.answer)
    && s.entries[key].itemsFrom == o.itemsFrom && s.entries[key].totalFrom == o.totalFrom
  }

  lemma StoreLeaves(q: Queries, es: seq<Event>, last: Event, r: nat, resource: Resource, h: nat)
    requires var y := Run(q, es); WritesUnder(y, r, resource, h) && !Ended(y, r)
    requires OwnWorks(r, last) && Ended(Run(q, es + [last]), r)
    ensures var o := Run(q, es + [last]).readers[r].pc.outcome;
            o.NotFound? || (o.Loaded? && (Cacheable(o.answer) ==>
                                            HoldsAnswer(Run(q, es + [last]).shared, DataKey(h, resource), o)))
  {
    RunExtend(q, es, last);
    var y := Run(q, es);
    var pc := y.readers[r].pc;
    if pc.Store? {
      Reachable(q, es);
      assert ReaderInv(q, y.shared, y.readers[r]);
      AnswerNamesResource(q, y.shared, resource, pc.answer, pc.itemsFrom, pc.totalFrom);
    }
  }

  /** A read that misses stores what it then loads under the generation the
      pointer held when its lookup ended, whichever it had begun under: after the
      second check in `e`, with working commands and amid anything else, its last
      step leaves the very answer it returns at that generation's key. */
  lemma MissIsStoredUnder(
    q: Queries, es: seq<Event>, e: Event, more: seq<Event>, last: Event, r: nat, h: nat)
    requires e.ReadCache? && e.reader == r && r in Run(q, es).readers && Run(q, es).readers[r].pc.SecondGeneration?
    requires var z := Run(q, es + [e]);
             e.luck == Works && z.readers[r].pc.Query? && PointerGeneration(z.shared) == Some(h)
    requires forall x :: x in more + [last] ==> OwnWorks(r, x)
    requires !Ended(Run(q, es + [e] + more), r) && Ended(Run(q, es + [e] + more + [last]), r)
    ensures var z := Run(q, es + [e] + more + [last]);
            var o := z.readers[r].pc.outcome;
            o.NotFound? || (o.Loaded? && (Cacheable(o.answer) ==>
                                            HoldsAnswer(z.shared, DataKey(h, Run(q, es).readers[r].resource), o)))
  {
    var resource := Run(q, es).readers[r].resource;
    LookupEnds(q, es, e, r);
    assert WritesUnder(Run(q, es + [e]), r, resource, h);
    assert forall x :: x in more ==> x in more + [last];
    KeepsWritingUnder(q, es + [e], more, r, resource, h);
    assert last in more + [last];
    StoreLeaves(q, es + [e] + more, last, r, resource, h);
  }

  // ------------------------------------------------------- stored answers

  /** What a set accepts for a resource is what the get of that resource
      accepts, unchanged; and a get accepts nothing else. */
  lemma SetAndGetAgree(r: Resource, d: Doc, a: Answer)
    requires KeyedBy(r, a) == r
    ensures Encoded(r, a) == Some(d) <==> Decoded(r, d) == Some(a)
  {
  }

  /** The key's content is as it was, and the pointer holds the key's generation. */
  predicate Kept(s: Shared, t: Shared, key: DataKey) {
    && PointerGeneration(t) == Some(key.generation)
    && (key in s.entries ==> key in t.entries && t.entries[key] == s.entries[key])
  }

  ghost predicate Undisturbed(q: Queries, es: seq<Event>, more: seq<Event>, key: DataKey) {
    forall k :: 0 <= k <= |more| ==> Kept(Run(q, es).shared, Run(q, es + more[..k]).shared, key)
  }

  predicate CacheWorksFor(r: nat, more: seq<Event>) {
    forall e :: e in more && e.ReadCache? && e.reader == r ==> e.luck == Works
  }

  /** The reader is on its way to the hit, or has it. */
  ghost predicate TowardsHit(y: System, r: nat, resource: Resource, g: nat, e: Entry, a: Answer) {
    r in y.readers && y.readers[r].resource == resource ==>
      || y.readers[r].pc == FirstGeneration(Look)
      || y.readers[r].pc == Fetch(g)
      || y.readers[r].pc == SecondGeneration(g, Some(e), Look)
      || y.readers[r].pc == Done(Hit(g, a, e.itemsFrom, e.totalFrom))
  }

  lemma TowardsHitStep(q: Queries, y: System, event: Event, r: nat, resource: Resource, g: nat, e: Entry, a: Answer)
    requires TowardsHit(y, r, resource, g, e, a) && Decoded(resource, e.doc) == Some(a)
    requires PointerGeneration(y.shared) == Some(g)
    requires DataKey(g, resource) in y.shared.entries && y.shared.entries[DataKey(g, resource)] == e
    requires event.ReadCache? && event.reader == r ==> event.luck == Works
    ensures TowardsHit(Step(q, y, event), r, resource, g, e, a)
  {
    assert !PointerReadsEmpty(y.shared);
  }

  lemma {:induction false} UndisturbedHit(
    q: Queries, es: seq<Event>, more: seq<Event>, r: nat, resource: Resource, g: nat, e: Entry, a: Answer)
    requires DataKey(g, resource) in Run(q, es).shared.entries && Run(q, es).shared.entries[DataKey(g, resource)] == e
    requires Decoded(resource, e.doc) == Some(a) && r !in Run(q, es).readers
    requires Undisturbed(q, es, more, DataKey(g, resource)) && CacheWorksFor(r, more)
    ensures TowardsHit(Run(q, es + more), r, resource, g, e, a)
    decreases |more|
  {
    if more == [] {
      assert es + more == es;
    } else {
      var front, event := more[..|more| - 1], more[|more| - 1];
      forall k | 0 <= k <= |front| ensures Kept(Run(q, es).shared, Run(q, es + front[..k]).shared, DataKey(g, resource)) {
        assert front[..k] == more[..k];
      }
      UndisturbedHit(q, es, front, r, resource, g, e, a);
      assert es + more == es + front + [event];
      RunExtend(q, es + front, event);
      assert front[..|front|] == front;
      TowardsHitStep(q, Run(q, es + front), event, r, resource, g, e, a);
    }
  }

  /** A response that was written back is, unchanged, what every read of the same
      resource begun afterwards returns, amid any interleaving that leaves the
      key's content and the pointer's generation alone, when the reads the reader
      itself makes of Redis work. */
  lemma StoredAnswerIsHit(
    q: Queries, es: seq<Event>, writer: nat, resource: Resource, g: nat, a: Answer, v1: nat, v2: nat, draw: Draw,
    more: seq<Event>, r: nat, o: Outcome)
    requires writer in Run(q, es).readers && Run(q, es).readers[writer] == Reader(resource, Store(g, a, v1, v2))
    requires Encoded(resource, a).Some?
    requires var stored := es + [ReadCache(writer, Works, draw, true)];
             && r !in Run(q, stored).readers
             && Undisturbed(q, stored, more, DataKey(g, resource)) && CacheWorksFor(r, more)
             && Finished(Run(q, stored + more), r, o) && Run(q, stored + more).readers[r].resource == resource
    ensures o == Hit(g, a, v1, v2)
  {
    var write := ReadCache(writer, Works, draw, true);
    Reachable(q, es);
    var s := Run(q, es).shared;
    assert ReaderInv(q, s, Run(q, es).readers[writer]);
    AnswerNamesResource(q, s, resource, a, v1, v2);
    SetAndGetAgree(resource, Encoded(resource, a).value, a);
    RunExtend(q, es, write);
    UndisturbedHit(q, es + [write], more, r, resource, g, Entry(Encoded(resource, a).value, v1, v2), a);
  }
}
