/** The cache-aside protocol and ingestion as one transition system.

    Every Redis command, SQL statement and commit is one atomic step. Any number
    of readers and ingesters take their steps in any order; any Redis or
    database step may fail, before or after it took effect; any data key may
    expire or be written from outside, and the generation pointer may be lost or
    overwritten.

    `history`, `log`, `floor`, `published`, `reused` and `forged` are history
    variables: no step's choice depends on them. */
module Protocol {
  import opened Prelude
  import opened Decimal
  import opened Generation
  import opened ListParameters
  import opened ItemQuery
  import opened Catalog

  const ITEM_BATCH_SIZE: nat := 1000
  const MAX_CACHED_LIST_ITEMS: nat := 100

  // ------------------------------------------------ questions and answers

  /** One committed state of the database, as a statement sees it. */
  datatype Version = Version(rows: map<int, Row>, metadata: Option<Metadata>)

  type History = h: seq<Version> | |h| > 0 witness [Version(map[], None)]

  datatype Resource = ItemOf(gameId: int) | ListOf(params: ListParams) | MetaOf(apiVersion: string)

  datatype Answer =
    | ItemAnswer(item: GameItem)
    | ListAnswer(items: seq<GameItem>, total: nat, limit: nat, offset: nat)
    | MetaAnswer(apiVersion: string, dataset: Option<Metadata>, count: nat)

  /** The two list statements, as functions of the committed state they read. */
  datatype Queries = Queries(list: (Version, ListParams) -> seq<GameItem>, count: (Version, Filters) -> nat)

  /** What a service without a cache answers when its (first) statement reads
      `v1` and, for a list, the count reads `v2`; None is ITEM_NOT_FOUND. */
  function Direct(q: Queries, r: Resource, v1: Version, v2: Version): Option<Answer> {
    match r
    case ItemOf(g) => if g in v1.rows then Some(ItemAnswer(v1.rows[g].item)) else None
    case ListOf(p) => Some(ListAnswer(q.list(v1, p), q.count(v2, p.filters), p.limit, p.offset))
    case MetaOf(a) => Some(MetaAnswer(a, v1.metadata, |v1.rows|))
  }

  // ------------------------------------------------------- stored payloads

  /** What a data key may hold: bytes that are not text, text that does not
      validate, a bare response, or a list response in its envelope. */
  datatype Doc = Undecodable | Malformed | Plain(answer: Answer) | Envelope(cacheKey: ListParams, answer: Answer)

  /** Payload validation: the schema of the resource asked for, the list
      envelope's key and size, and the binding of the answer to the question. */
  function Decoded(r: Resource, d: Doc): Option<Answer> {
    match r
    case ItemOf(g) =>
      if d.Plain? && d.answer.ItemAnswer? && d.answer.item.gameId == g then Some(d.answer) else None
    case ListOf(p) =>
      if d.Envelope? && d.answer.ListAnswer? && |d.answer.items| <= MAX_CACHED_LIST_ITEMS
         && d.cacheKey == p && d.answer.limit == p.limit && d.answer.offset == p.offset
      then Some(d.answer) else None
    case MetaOf(a) =>
      if d.Plain? && d.answer.MetaAnswer? && d.answer.apiVersion == a then Some(d.answer) else None
  }

  /** What a set stores, before its size check; None where it declines. */
  function Encoded(r: Resource, a: Answer): Option<Doc> {
    match r
    case ItemOf(_) => if a.ItemAnswer? then Some(Plain(a)) else None
    case ListOf(p) =>
      if a.ListAnswer? && a.limit == p.limit && a.offset == p.offset && |a.items| <= MAX_CACHED_LIST_ITEMS
      then Some(Envelope(p, a)) else None
    case MetaOf(_) => if a.MetaAnswer? then Some(Plain(a)) else None
  }

  /** The resource whose key a set uses: items and metadata are keyed by the answer itself. */
  function KeyedBy(r: Resource, a: Answer): Resource {
    match a
    case ItemAnswer(item) => ItemOf(item.gameId)
    case MetaAnswer(v, _, _) => MetaOf(v)
    case ListAnswer(_, _, _, _) => r
  }

  datatype DataKey = DataKey(generation: nat, resource: Resource)

  /** A stored payload with the versions it was computed from (0 for a foreign one). */
  datatype Entry = Entry(doc: Doc, itemsFrom: nat, totalFrom: nat)

  // ---------------------------------------------------------- shared state

  /** One commit of the publish path: the run that made it, what it published,
      its stamp, and its transaction's time. */
  datatype Publication = Publication(run: nat, snapshot: Snapshot, stamp: int, now: int)

  datatype Shared = Shared(
    history: History,            // committed versions; the last one is current
    log: seq<Publication>,       // what each commit published
    nextId: nat,                 // the surrogate id sequence, outside transactions
    lock: Option<nat>,           // holder of the transaction-scoped advisory lock
    pointer: Option<string>,     // the generation key
    entries: map<DataKey, Entry>,
    floor: map<nat, nat>,        // generation -> version current when it was (last) created
    published: nat,              // version current at the latest INCR
    reused: set<nat>,            // generation numbers created more than once
    forged: set<DataKey>)        // keys given a well-formed payload from outside

  function Current(s: Shared): nat { |s.history| - 1 }

  function Latest(s: Shared): Version { s.history[|s.history| - 1] }

  // -------------------------------------------------- the generation key

  /** How a step that talks to a server ends. */
  datatype Luck = Works | FailsBefore | FailsAfter

  datatype GenerationStep = Look | Claim(candidate: Draw) | LookAgain

  datatype GenerationResult = More(step: GenerationStep) | Gave(generation: Option<nat>) | Raised

  /** The generation a stored text stands for, read through the bounded window. */
  function TextGeneration(text: string): Option<nat> { ParseGeneration(Window(text, MAX_GENERATION_DIGITS)) }

  function PointerGeneration(s: Shared): Option<nat> {
    if s.pointer.None? then None else TextGeneration(s.pointer.value)
  }

  /** GETRANGE answers "" for an absent key. */
  predicate PointerReadsEmpty(s: Shared) { s.pointer.None? || s.pointer.value == "" }

  /** Any write of the pointer; a text that parses creates that generation now. */
  function WritePointer(s: Shared, text: string): Shared {
    match TextGeneration(text)
    case None => s.(pointer := Some(text))
    case Some(g) =>
      var again := if g in s.floor then {g} else {};
      s.(pointer := Some(text), floor := s.floor[g := Current(s)], reused := s.reused + again)
  }

  /** Somebody else writes a data key: garbage, or a payload that may validate. */
  function WriteForeign(s: Shared, key: DataKey, doc: Doc): Shared {
    var fake := if doc.Plain? || doc.Envelope? then {key} else {};
    s.(entries := s.entries[key := Entry(doc, 0, 0)], forged := s.forged + fake)
  }

  /** One step of `_generation`. */
  function GenerationStepOf(s: Shared, step: GenerationStep, luck: Luck, draw: Draw): (Shared, GenerationResult) {
    match step
    case Look =>
      if luck != Works then (s, Raised)
      else if PointerReadsEmpty(s) then (s, More(Claim(draw)))
      else (s, Gave(PointerGeneration(s)))
    case Claim(candidate) =>
      if luck == FailsBefore then (s, Raised)
      else
        var after := if s.pointer.None? then WritePointer(s, Dec(candidate)) else s;
        if luck == FailsAfter then (after, Raised)
        else if s.pointer.None? then (after, Gave(Some(candidate)))
        else (after, More(LookAgain))
    case LookAgain =>
      if luck != Works then (s, Raised)
      else if PointerReadsEmpty(s) then (s, Gave(None))
      else (s, Gave(PointerGeneration(s)))
  }

  // ---------------------------------------------------------------- readers

  /** What the cache read left behind: a failure, or a miss and the generation to write back under. */
  datatype Lookup = CacheDown | Missed(generation: Option<nat>)

  datatype Outcome =
    | Hit(generation: nat, answer: Answer, itemsFrom: nat, totalFrom: nat)
    | Loaded(answer: Answer, itemsFrom: nat, totalFrom: nat)
    | NotFound(at: nat)
    | Unavailable

  datatype ReaderPc =
    | FirstGeneration(step: GenerationStep)
    | Fetch(generation: nat)
    | SecondGeneration(generation: nat, found: Option<Entry>, step: GenerationStep)
    | Query(lookup: Lookup)
    | Count(lookup: Lookup, items: seq<GameItem>, itemsFrom: nat)
    | Store(generation: nat, answer: Answer, itemsFrom: nat, totalFrom: nat)
    | Done(outcome: Outcome)

  datatype Reader = Reader(resource: Resource, pc: ReaderPc)

  function AfterFirst(r: GenerationResult): ReaderPc {
    match r
    case More(step) => FirstGeneration(step)
    case Raised => Query(CacheDown)
    case Gave(None) => Query(Missed(None))
    case Gave(Some(g)) => Fetch(g)
  }

  /** Undecodable bytes end the lookup at once, before the second generation check. */
  function AfterFetch(g: nat, found: Option<Entry>): ReaderPc {
    if found.Some? && found.value.doc.Undecodable? then Query(Missed(Some(g)))
    else SecondGeneration(g, found, Look)
  }

  function AfterSecond(r: Resource, g: nat, found: Option<Entry>, result: GenerationResult): ReaderPc {
    match result
    case More(step) => SecondGeneration(g, found, step)
    case Raised => Query(CacheDown)
    case Gave(current) =>
      if current != Some(g) then Query(Missed(current))
      else if found.Some? && Decoded(r, found.value.doc).Some?
      then Done(Hit(g, Decoded(r, found.value.doc).value, found.value.itemsFrom, found.value.totalFrom))
      else Query(Missed(Some(g)))
  }

  function AfterRows(lookup: Lookup, a: Answer, itemsFrom: nat, totalFrom: nat): ReaderPc {
    match lookup
    case Missed(Some(g)) => Store(g, a, itemsFrom, totalFrom)
    case _ => Done(Loaded(a, itemsFrom, totalFrom))
  }

  /** One Redis step of a read; `fits` says whether a payload is within the size bound. */
  function CacheStepOf(s: Shared, rd: Reader, luck: Luck, draw: Draw, fits: bool): (Shared, ReaderPc) {
    match rd.pc
    case FirstGeneration(step) =>
      var (after, result) := GenerationStepOf(s, step, luck, draw);
      (after, AfterFirst(result))
    case Fetch(g) =>
      if luck != Works then (s, Query(CacheDown))
      else
        var key := DataKey(g, rd.resource);
        (s, AfterFetch(g, if key in s.entries then Some(s.entries[key]) else None))
    case SecondGeneration(g, found, step) =>
      var (after, result) := GenerationStepOf(s, step, luck, draw);
      (after, AfterSecond(rd.resource, g, found, result))
    case Store(g, a, v1, v2) =>
      var doc := Encoded(rd.resource, a);
      var written := if doc.None? || !fits || luck == FailsBefore then s
                     else s.(entries := s.entries[DataKey(g, KeyedBy(rd.resource, a)) := Entry(doc.value, v1, v2)]);
      (written, Done(Loaded(a, v1, v2)))
    case _ => (s, rd.pc)
  }

  /** One SQL statement of a read. It changes nothing but the reader. */
  function QueryStepOf(q: Queries, s: Shared, rd: Reader, works: bool): ReaderPc {
    match rd.pc
    case Query(lookup) =>
      if !works then Done(Unavailable)
      else (match rd.resource
        case ListOf(p) => Count(lookup, q.list(Latest(s), p), Current(s))
        case _ =>
          var a := Direct(q, rd.resource, Latest(s), Latest(s));
          if a.None? then Done(NotFound(Current(s))) else AfterRows(lookup, a.value, Current(s), Current(s)))
    case Count(lookup, items, itemsFrom) =>
      if !works then Done(Unavailable)
      else (match rd.resource
        case ListOf(p) =>
          AfterRows(lookup, ListAnswer(items, q.count(Latest(s), p.filters), p.limit, p.offset), itemsFrom, Current(s))
        case _ => rd.pc)
    case _ => rd.pc
  }

  // -------------------------------------------------------------- ingesters

  datatype IngesterPc =
    | Started
    | Stamped(stamp: int)
    | Locked(stamp: int, now: int)
    | Writing(stamp: int, now: int, done: nat, work: Version)
    | Described(stamp: int, now: int, work: Version)
    | Unchanged
    | Checking(step: GenerationStep, ended: nat)
    | Bumping(ended: nat)
    | Exited(ended: nat, bumped: nat)
    | Failed

  datatype Ingester = Ingester(snapshot: Snapshot, pc: IngesterPc)

  /** What the environment chooses for one ingester step. */
  datatype Choice = Choice(luck: Luck, clock: int, now: int, draw: Draw)

  function Release(s: Shared): Shared { s.(lock := None) }

  /** The batch statement at `done`, or, past the last item, the metadata statement. */
  function WriteStepOf(s: Shared, sn: Snapshot, pc: IngesterPc): (Shared, IngesterPc)
    requires pc.Writing?
  {
    if pc.done < |sn.items| then
      var base := if pc.done == 0 then Latest(s) else pc.work;
      var stop := Min(pc.done + ITEM_BATCH_SIZE, |sn.items|);
      match Statement(Table(base.rows, s.nextId), sn.items[pc.done..stop], pc.now)
      case None => (Release(s), Failed)
      case Some(t) => (s.(nextId := t.nextId), Writing(pc.stamp, pc.now, stop, Version(t.rows, base.metadata)))
    else
      var m := Metadata(sn.datasetVersion, sn.gameVersion, pc.stamp);
      (s, Described(pc.stamp, pc.now, pc.work.(metadata := UpsertMetadata(pc.work.metadata, m))))
  }

  /** `invalidate` gives up on an invalid or unreadable generation. */
  function AfterCheck(ended: nat, result: GenerationResult): IngesterPc {
    match result
    case More(next) => Checking(next, ended)
    case Gave(Some(_)) => Bumping(ended)
    case _ => Failed
  }

  function BumpStepOf(s: Shared, ended: nat, luck: Luck): (Shared, IngesterPc) {
    var text := if s.pointer.None? then Some("1") else Incremented(s.pointer.value);
    if luck == FailsBefore || text.None? then (s, Failed)
    else
      var after := WritePointer(s, text.value).(published := Current(s));
      (after, if luck == FailsAfter then Failed else Exited(ended, Current(s)))
  }

  /** One step of an ingestion run. Inside the transaction a failure rolls back
      and releases the lock; a commit may take effect although the client sees a failure. */
  function IngestStepOf(s: Shared, p: nat, ing: Ingester, c: Choice): (Shared, IngesterPc) {
    match ing.pc
    case Started => (s, Stamped(c.clock))
    case Stamped(stamp) =>
      if c.luck != Works then (s, Failed)
      else if s.lock.Some? then (s, ing.pc)
      else (s.(lock := Some(p)), Locked(stamp, c.now))
    case Locked(stamp, now) =>
      if c.luck != Works then (Release(s), Failed)
      else if Latest(s).metadata.Some? && stamp <= Latest(s).metadata.value.lastSync then (s, Unchanged)
      else (s, Writing(stamp, now, 0, Latest(s)))
    case Writing(_, _, _, _) =>
      if c.luck == FailsBefore then (Release(s), Failed)
      else
        var (after, pc) := WriteStepOf(s, ing.snapshot, ing.pc);
        if c.luck == FailsAfter then (Release(after), Failed) else (after, pc)
    case Described(stamp, now, work) =>
      if c.luck == FailsBefore then (Release(s), Failed)
      else
        var after := s.(history := s.history + [work], log := s.log + [Publication(p, ing.snapshot, stamp, now)], lock := None);
        (after, if c.luck == FailsAfter then Failed else Checking(Look, Current(after)))
    case Unchanged => (Release(s), if c.luck != Works then Failed else Checking(Look, Current(s)))
    case Checking(step, ended) =>
      var (after, result) := GenerationStepOf(s, step, c.luck, c.draw);
      (after, AfterCheck(ended, result))
    case Bumping(ended) => BumpStepOf(s, ended, c.luck)
    case _ => (s, ing.pc)
  }

  // ----------------------------------------------------------- whole system

  datatype System = System(shared: Shared, readers: map<nat, Reader>, ingesters: map<nat, Ingester>)

  datatype Event =
    | Begin(reader: nat, resource: Resource)
    | ReadCache(reader: nat, luck: Luck, draw: Draw, fits: bool)
    | ReadDatabase(reader: nat, works: bool)
    | Publish(ingester: nat, snapshot: Snapshot)
    | Ingest(ingester: nat, choice: Choice)
    | Expire(key: DataKey)
    | ForeignWrite(key: DataKey, doc: Doc)
    | LosePointer
    | OverwritePointer(text: string)

  const INITIAL := System(
    Shared([Version(map[], None)], [], 1, None, None, map[], map[], 0, {}, {}), map[], map[])

  /** One event. An event that is not enabled changes nothing. */
  function Step(q: Queries, y: System, e: Event): System {
    match e
    case Begin(r, resource) =>
      if r in y.readers then y else y.(readers := y.readers[r := Reader(resource, FirstGeneration(Look))])
    case ReadCache(r, luck, draw, fits) =>
      if r !in y.readers then y
      else
        var (s, pc) := CacheStepOf(y.shared, y.readers[r], luck, draw, fits);
        y.(shared := s, readers := y.readers[r := Reader(y.readers[r].resource, pc)])
    case ReadDatabase(r, works) =>
      if r !in y.readers then y
      else y.(readers := y.readers[r := Reader(y.readers[r].resource, QueryStepOf(q, y.shared, y.readers[r], works))])
    case Publish(p, snapshot) =>
      if p in y.ingesters || !ValidSnapshot(snapshot) then y
      else y.(ingesters := y.ingesters[p := Ingester(snapshot, Started)])
    case Ingest(p, choice) =>
      if p !in y.ingesters then y
      else
        var (s, pc) := IngestStepOf(y.shared, p, y.ingesters[p], choice);
        y.(shared := s, ingesters := y.ingesters[p := Ingester(y.ingesters[p].snapshot, pc)])
    case Expire(key) => y.(shared := y.shared.(entries := y.shared.entries - {key}))
    case ForeignWrite(key, doc) => y.(shared := WriteForeign(y.shared, key, doc))
    case LosePointer => y.(shared := y.shared.(pointer := None))
    case OverwritePointer(text) => y.(shared := WritePointer(y.shared, text))
  }

  /** The state after a whole run. */
  function Run(q: Queries, es: seq<Event>): System {
    if es == [] then INITIAL else Step(q, Run(q, es[..|es| - 1]), es[|es| - 1])
  }

  /** A run continued by one event. */
  lemma RunExtend(q: Queries, es: seq<Event>, e: Event)
    ensures Run(q, es + [e]) == Step(q, Run(q, es), e)
  {
    assert (es + [e])[..|es|] == es;
  }
}
