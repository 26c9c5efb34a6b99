/** The Redis cache client, command by command, amid interference. Each method
    is proved to follow the protocol: its local state in the recorded run is
    what its return value says. */
module ItemCache {
  import opened Prelude
  import opened Decimal
  import opened Generation
  import opened Catalog
  import opened Protocol
  import opened Deployment
  import opened GenerationGuarantees
  import opened StoredAnswers

  /** Where `_generation` is called from. */
  datatype Caller =
    | FirstRead(reader: nat, resource: Resource)
    | SecondRead(reader: nat, resource: Resource, generation: nat, found: Option<Entry>)
    | Invalidation(ingester: nat, snapshot: Snapshot, ended: nat)

  function ActorOf(c: Caller): Actor {
    match c
    case FirstRead(r, _) => ReaderActor(r)
    case SecondRead(r, _, _, _) => ReaderActor(r)
    case Invalidation(p, _, _) => IngesterActor(p)
  }

  function EventOf(c: Caller, luck: Luck, draw: Draw): Event {
    match c
    case FirstRead(r, _) => ReadCache(r, luck, draw, true)
    case SecondRead(r, _, _, _) => ReadCache(r, luck, draw, true)
    case Invalidation(p, _, _) => Ingest(p, Choice(luck, 0, 0, draw))
  }

  /** The calling actor stands where `_generation` with this result leaves it. */
  predicate At(y: System, c: Caller, result: GenerationResult) {
    match c
    case FirstRead(r, resource) =>
      r in y.readers && y.readers[r] == Reader(resource, AfterFirst(result))
    case SecondRead(r, resource, g, found) =>
      r in y.readers && y.readers[r] == Reader(resource, AfterSecond(resource, g, found, result))
    case Invalidation(p, snapshot, ended) =>
      p in y.ingesters && y.ingesters[p] == Ingester(snapshot, AfterCheck(ended, result))
  }

  lemma AtStep(q: Queries, y: System, c: Caller, step: GenerationStep, luck: Luck, draw: Draw)
    requires At(y, c, More(step))
    ensures var (t, result) := GenerationStepOf(y.shared, step, luck, draw);
            var z := Step(q, y, EventOf(c, luck, draw));
            z.shared == t && At(z, c, result)
  {
  }

  lemma BumpStep(q: Queries, y: System, p: nat, snapshot: Snapshot, ended: nat, luck: Luck)
    requires p in y.ingesters && y.ingesters[p] == Ingester(snapshot, Bumping(ended))
    ensures var z := Step(q, y, Ingest(p, Choice(luck, 0, 0, 1)));
            && z.shared == IncrOf(y.shared, luck) && p in z.ingesters && z.ingesters[p].snapshot == snapshot
            && (if luck == Works && IncrTextOf(y.shared).Some?
                then z.ingesters[p].pc == Exited(ended, Current(y.shared)) else z.ingesters[p].pc == Failed)
  {
  }

  /** The last recorded event is the caller's own command of `_generation`. */
  ghost predicate JustStepped(q: Queries, es: seq<Event>, c: Caller) {
    && es != [] && OwnCommand(c, es[|es| - 1])
    && exists step :: At(Run(q, es[..|es| - 1]), c, More(step))
  }

  predicate OwnCommand(c: Caller, e: Event) {
    match c
    case FirstRead(r, _) => e.ReadCache? && e.reader == r
    case SecondRead(r, _, _, _) => e.ReadCache? && e.reader == r
    case Invalidation(p, _, _) => e.Ingest? && e.ingester == p
  }

  lemma Stepped(q: Queries, es: seq<Event>, c: Caller, step: GenerationStep, e: Event)
    requires At(Run(q, es), c, More(step)) && OwnCommand(c, e)
    ensures JustStepped(q, es + [e], c)
  {
    assert (es + [e])[..|es|] == es;
  }

  /** What a cache read hands to the service: a failure, or a lookup with the
      generation to write back under. */
  datatype CacheRead = ReadFailed | Lookup(value: Option<Answer>, generation: Option<nat>)

  /** The local state that a finished cache read stands for. */
  ghost predicate AfterRead(y: System, r: nat, resource: Resource, result: CacheRead) {
    r in y.readers && y.readers[r].resource == resource &&
    match result
    case ReadFailed => y.readers[r].pc == Query(CacheDown)
    case Lookup(None, g) => y.readers[r].pc == Query(Missed(g))
    case Lookup(Some(a), g) => IsHit(y.readers[r].pc, a) && g == Some(y.readers[r].pc.outcome.generation)
  }

  predicate IsHit(pc: ReaderPc, a: Answer) { pc.Done? && pc.outcome.Hit? && pc.outcome.answer == a }

  /** The last recorded event is a command of the reader's lookup. */
  ghost predicate JustLooked(q: Queries, es: seq<Event>, r: nat) {
    es != [] && var last := |es| - 1;
    && es[last].ReadCache? && es[last].reader == r && r in Run(q, es[..last]).readers
    && Looking(Run(q, es[..last]).readers[r].pc)
  }

  lemma SteppedLooked(q: Queries, es: seq<Event>, c: Caller)
    requires JustStepped(q, es, c) && !c.Invalidation?
    ensures JustLooked(q, es, c.reader)
  {
  }

  lemma FetchedLooked(q: Queries, es: seq<Event>, e: Event, r: nat, resource: Resource, g: nat)
    requires r in Run(q, es).readers && Run(q, es).readers[r] == Reader(resource, Fetch(g))
    requires e.ReadCache? && e.reader == r
    ensures JustLooked(q, es + [e], r)
  {
    assert (es + [e])[..|es|] == es;
  }

  /** The cache read ended with its reader's own command, the last event, as
      `LookupStep` says: it failed exactly when that command did, and a miss hands
      on the generation the pointer holds now, except after undecodable bytes. */
  ghost predicate LookupEnded(q: Queries, es: seq<Event>, r: nat, result: CacheRead) {
    JustLooked(q, es, r) && var last := |es| - 1;
    && var before := Run(q, es[..last]).readers[r].pc;
    && (result.ReadFailed? <==> es[last].luck != Works)
    && (result.Lookup? && result.value.None? ==>
          result.generation
          == if before.Fetch? then Some(before.generation) else PointerGeneration(Run(q, es).shared))
    && (result.Lookup? && result.value.Some? ==>
          before.SecondGeneration? && PointerGeneration(Run(q, es).shared) == Some(before.generation) == result.generation)
  }

  lemma EndsLookup(q: Queries, es: seq<Event>, r: nat, resource: Resource, result: CacheRead)
    requires JustLooked(q, es, r) && AfterRead(Run(q, es), r, resource, result)
    ensures LookupEnded(q, es, r, result)
  {
    var last := |es| - 1;
    assert es == es[..last] + [es[last]];
    LookupEnds(q, es[..last], es[last], r);
  }

  /** What one SET of the payload under the generation does to the shared state:
      this key gets this payload, or, when the payload is declined or too large
      or the command fails first, nothing happens. */
  predicate Stored(s: Shared, t: Shared, resource: Resource, answer: Answer, g: nat, itemsFrom: nat, totalFrom: nat, sent: bool) {
    if sent then
      && Encoded(resource, answer).Some?
      && t == s.(entries := s.entries[DataKey(g, KeyedBy(resource, answer)) :=
                   Entry(Encoded(resource, answer).value, itemsFrom, totalFrom)])
    else t == s
  }

  /** The run was continued by others and then, last of all, by one own event:
      the single SET, or none when it was not sent. */
  ghost predicate OneSet(
    q: Queries, before: seq<Event>, after: seq<Event>, r: nat, resource: Resource, answer: Answer,
    g: nat, itemsFrom: nat, totalFrom: nat)
  {
    after != [] && var last := |after| - 1;
    && OthersOnly(ReaderActor(r), before, after[..last]) && after[last].ReadCache? && after[last].reader == r
    && Stored(Run(q, after[..last]).shared, Run(q, after).shared, resource, answer, g, itemsFrom, totalFrom,
              Encoded(resource, answer).Some? && after[last].fits && after[last].luck != FailsBefore)
  }

  lemma StoreIsOneSet(
    q: Queries, before: seq<Event>, after: seq<Event>, r: nat, resource: Resource, answer: Answer,
    g: nat, itemsFrom: nat, totalFrom: nat)
    requires after != [] && OthersOnly(ReaderActor(r), before, after[..|after| - 1])
    requires after[|after| - 1].ReadCache? && after[|after| - 1].reader == r
    requires var y := Run(q, after[..|after| - 1]);
             r in y.readers && y.readers[r] == Reader(resource, Store(g, answer, itemsFrom, totalFrom))
    ensures OneSet(q, before, after, r, resource, answer, g, itemsFrom, totalFrom)
  {
  }

  class RedisItemCache {
    const servers: Servers

    constructor (servers: Servers)
      ensures this.servers == servers
    {
      this.servers := servers;
    }

    /** `_generation`: read the pointer; when it is absent, try to claim it with
        a drawn number; when the claim is lost, read what the winner left. */
    method Generation(ghost c: Caller) returns (result: GenerationResult)
      requires servers.Valid() && At(servers.State(), c, More(Look))
      modifies servers
      ensures servers.Valid() && old(servers.trace) <= servers.trace
      ensures !result.More? && At(servers.State(), c, result) && JustStepped(servers.q, servers.trace, c)
      ensures result.Gave? ==> result.generation == PointerGeneration(servers.shared)
    {
      servers.Others(ActorOf(c));
      var luck: Luck := *;
      var draw: Draw := *;
      AtStep(servers.q, servers.State(), c, Look, luck, draw);
      ReturnedGenerationIsHeld(servers.shared, Look, luck, draw);
      Stepped(servers.q, servers.trace, c, Look, EventOf(c, luck, draw));
      var text := servers.GetRangePointer(luck, EventOf(c, luck, draw));
      if text.None? { return Raised; }
      if text.value == "" {
        result := Claim(c, draw);
      } else {
        result := Gave(ParseGeneration(text.value));
      }
    }

    method Claim(ghost c: Caller, candidate: Draw) returns (result: GenerationResult)
      requires servers.Valid() && At(servers.State(), c, More(GenerationStep.Claim(candidate)))
      modifies servers
      ensures servers.Valid() && old(servers.trace) <= servers.trace
      ensures !result.More? && At(servers.State(), c, result) && JustStepped(servers.q, servers.trace, c)
      ensures result.Gave? ==> result.generation == PointerGeneration(servers.shared)
    {
      servers.Others(ActorOf(c));
      var luck: Luck := *;
      AtStep(servers.q, servers.State(), c, GenerationStep.Claim(candidate), luck, candidate);
      ReturnedGenerationIsHeld(servers.shared, GenerationStep.Claim(candidate), luck, candidate);
      Stepped(servers.q, servers.trace, c, GenerationStep.Claim(candidate), EventOf(c, luck, candidate));
      var won := servers.SetNxPointer(Dec(candidate), luck, EventOf(c, luck, candidate));
      if won.None? { return Raised; }
      if won.value { return Gave(Some(candidate)); }
      result := ReadAgain(c);
    }

    /** The second read of the pointer, after the claim was lost. */
    method ReadAgain(ghost c: Caller) returns (result: GenerationResult)
      requires servers.Valid() && At(servers.State(), c, More(LookAgain))
      modifies servers
      ensures servers.Valid() && old(servers.trace) <= servers.trace
      ensures !result.More? && At(servers.State(), c, result) && JustStepped(servers.q, servers.trace, c)
      ensures result.Gave? ==> result.generation == PointerGeneration(servers.shared)
    {
      servers.Others(ActorOf(c));
      var luck: Luck := *;
      AtStep(servers.q, servers.State(), c, LookAgain, luck, 1);
      ReturnedGenerationIsHeld(servers.shared, LookAgain, luck, 1);
      Stepped(servers.q, servers.trace, c, LookAgain, EventOf(c, luck, 1));
      var text := servers.GetRangePointer(luck, EventOf(c, luck, 1));
      if text.None? { return Raised; }
      if text.value == "" { return Gave(None); }
      result := Gave(ParseGeneration(text.value));
    }

    /** `_get`: generation, payload under it, generation again, validation. */
    method Get(ghost r: nat, resource: Resource) returns (result: CacheRead)
      requires servers.Valid() && At(servers.State(), FirstRead(r, resource), More(Look))
      modifies servers
      ensures servers.Valid() && old(servers.trace) <= servers.trace
      ensures AfterRead(servers.State(), r, resource, result)
      ensures LookupEnded(servers.q, servers.trace, r, result)
    {
      result := LookUp(r, resource);
      EndsLookup(servers.q, servers.trace, r, resource, result);
    }

    method LookUp(ghost r: nat, resource: Resource) returns (result: CacheRead)
      requires servers.Valid() && At(servers.State(), FirstRead(r, resource), More(Look))
      modifies servers
      ensures servers.Valid() && old(servers.trace) <= servers.trace
      ensures AfterRead(servers.State(), r, resource, result) && JustLooked(servers.q, servers.trace, r)
    {
      var first := Generation(FirstRead(r, resource));
      SteppedLooked(servers.q, servers.trace, FirstRead(r, resource));
      if first == Raised { return ReadFailed; }
      if first.generation.None? { return Lookup(None, None); }
      result := FetchAndCheck(r, resource, first.generation.value);
    }

    /** The payload under generation `g`, and whether that is still the generation. */
    method FetchAndCheck(ghost r: nat, resource: Resource, g: nat) returns (result: CacheRead)
      requires servers.Valid() && r in servers.readers && servers.readers[r] == Reader(resource, Fetch(g))
      modifies servers
      ensures servers.Valid() && old(servers.trace) <= servers.trace
      ensures AfterRead(servers.State(), r, resource, result) && JustLooked(servers.q, servers.trace, r)
    {
      servers.Others(ReaderActor(r));
      var luck: Luck := *;
      ghost var fetch := ReadCache(r, luck, 1, true);
      FetchedLooked(servers.q, servers.trace, fetch, r, resource, g);
      var ok, found := servers.GetRangeData(DataKey(g, resource), luck, fetch);
      if !ok { return ReadFailed; }
      if found.Some? && found.value.doc.Undecodable? { return Lookup(None, Some(g)); }

      var second := Generation(SecondRead(r, resource, g, found));
      SteppedLooked(servers.q, servers.trace, SecondRead(r, resource, g, found));
      if second == Raised { return ReadFailed; }
      if second.generation != Some(g) { return Lookup(None, second.generation); }
      if found.None? { return Lookup(None, Some(g)); }
      result := Lookup(Decoded(resource, found.value.doc), Some(g));
    }

    /** `_set`: one SET, unless the generation is unknown or the payload is declined. */
    method Set(ghost r: nat, resource: Resource, answer: Answer, generation: Option<nat>, itemsFrom: nat, totalFrom: nat)
      requires servers.Valid() && r in servers.readers
      requires servers.readers[r] == Reader(resource, AfterRows(Missed(generation), answer, itemsFrom, totalFrom))
      modifies servers
      ensures servers.Valid() && old(servers.trace) <= servers.trace
      ensures r in servers.readers && servers.readers[r] == Reader(resource, Done(Loaded(answer, itemsFrom, totalFrom)))
      ensures generation.None? ==> servers.trace == old(servers.trace) && servers.shared == old(servers.shared)
      ensures generation.Some? ==>
                OneSet(servers.q, old(servers.trace), servers.trace, r, resource, answer, generation.value, itemsFrom, totalFrom)
    {
      if generation.None? { return; }
      servers.Others(ReaderActor(r));
      var luck: Luck := *;
      var fits: bool := *;
      var doc := Encoded(resource, answer);
      ghost var store := ReadCache(r, luck, 1, fits);
      if doc.None? || !fits {
        servers.Record(store);
      } else {
        var key := DataKey(generation.value, KeyedBy(resource, answer));
        servers.SetData(key, Entry(doc.value, itemsFrom, totalFrom), luck, store);
      }
      StoreIsOneSet(servers.q, old(servers.trace), servers.trace, r, resource, answer, generation.value, itemsFrom, totalFrom);
    }

    /** `invalidate`: check the generation, then INCR. False is any failure. */
    method Invalidate(ghost p: nat, ghost snapshot: Snapshot, ghost ended: nat) returns (ok: bool)
      requires servers.Valid() && At(servers.State(), Invalidation(p, snapshot, ended), More(Look))
      modifies servers
      ensures servers.Valid() && old(servers.trace) <= servers.trace
      ensures p in servers.ingesters && servers.ingesters[p].snapshot == snapshot
      ensures ok ==> servers.ingesters[p].pc.Exited? && servers.ingesters[p].pc.ended == ended
      ensures !ok ==> servers.ingesters[p].pc.Failed?
    {
      var check := Generation(Invalidation(p, snapshot, ended));
      if check == Raised || check.generation.None? { return false; }
      servers.Others(IngesterActor(p));
      var luck: Luck := *;
      ghost var bump := Ingest(p, Choice(luck, 0, 0, 1));
      BumpStep(servers.q, servers.State(), p, snapshot, ended, luck);
      ok := servers.IncrPointer(luck, bump);
    }
  }
}
