/** The generation pointer over whole runs: which events create a generation,
    when a number is created twice, and how the pointer is initialised. */
module GenerationGuarantees {
  import opened Prelude
  import opened Decimal
  import opened Generation
  import opened Protocol
  import opened ProtocolInvariant

  // --------------------------------------------------- creating generations

  /** SET NX creates its candidate when the pointer is absent. */
  function Initialised(s: Shared, step: GenerationStep, luck: Luck): Option<nat> {
    if step.Claim? && s.pointer.None? && luck != FailsBefore then Some(step.candidate) else None
  }

  /** INCR creates 1 on an absent pointer, and otherwise the successor of what it holds. */
  function Bumped(s: Shared, luck: Luck): Option<nat> {
    if luck == FailsBefore then None
    else if s.pointer.None? then Some(1)
    else
      var text :- Incremented(s.pointer.value);
      TextGeneration(text)
  }

  /** The generation an event is about to create. */
  function Created(y: System, e: Event): Option<nat> {
    match e
    case ReadCache(r, luck, _, _) =>
      if r in y.readers && (y.readers[r].pc.FirstGeneration? || y.readers[r].pc.SecondGeneration?)
      then Initialised(y.shared, y.readers[r].pc.step, luck) else None
    case Ingest(p, c) =>
      if p !in y.ingesters then None
      else (match y.ingesters[p].pc
        case Checking(step, _) => Initialised(y.shared, step, c.luck)
        case Bumping(_) => Bumped(y.shared, c.luck)
        case _ => None)
    case OverwritePointer(text) => TextGeneration(text)
    case _ => None
  }

  /** What creating `g`, or nothing, does to the pointer's history. */
  ghost predicate Creates(s: Shared, t: Shared, created: Option<nat>) {
    match created
    case None => t.floor == s.floor && t.reused == s.reused && (t.pointer == s.pointer || PointerGeneration(t).None?)
    case Some(g) =>
      && PointerGeneration(t) == Some(g) && Current(t) == Current(s) && t.floor == s.floor[g := Current(s)]
      && t.reused == s.reused + if g in s.floor then {g} else {}
  }

  lemma WriteCreates(s: Shared, text: string)
    ensures Creates(s, WritePointer(s, text), TextGeneration(text))
  {
  }

  lemma InitialiseCreates(s: Shared, step: GenerationStep, luck: Luck, draw: Draw)
    ensures Creates(s, GenerationStepOf(s, step, luck, draw).0, Initialised(s, step, luck))
  {
    if step.Claim? {
      TextOfDec(step.candidate);
      WriteCreates(s, Dec(step.candidate));
    }
  }

  lemma BumpCreates(s: Shared, ended: nat, luck: Luck)
    ensures Creates(s, BumpStepOf(s, ended, luck).0, Bumped(s, luck))
  {
    var text := if s.pointer.None? then Some("1") else Incremented(s.pointer.value);
    if luck != FailsBefore && text.Some? {
      assert Dec(1) == "1";
      TextOfDec(1);
      WriteCreates(s, text.value);
    }
  }

  lemma IngestCreates(s: Shared, p: nat, ing: Ingester, c: Choice)
    requires !ing.pc.Checking? && !ing.pc.Bumping?
    ensures Creates(s, IngestStepOf(s, p, ing, c).0, None)
  {
  }

  /** An event creates exactly the generation that `Created` reads off the state
      before it, at the version current then; it is a reuse exactly when that
      number had been created before. */
  lemma StepCreates(q: Queries, y: System, e: Event)
    ensures Creates(y.shared, Step(q, y, e).shared, Created(y, e))
  {
    if e.ReadCache? && e.reader in y.readers {
      var pc := y.readers[e.reader].pc;
      if pc.FirstGeneration? || pc.SecondGeneration? { InitialiseCreates(y.shared, pc.step, e.luck, e.draw); }
    } else if e.Ingest? && e.ingester in y.ingesters {
      var ing := y.ingesters[e.ingester];
      match ing.pc
      case Checking(step, _) => InitialiseCreates(y.shared, step, e.choice.luck, e.choice.draw);
      case Bumping(ended) => BumpCreates(y.shared, ended, e.choice.luck);
      case _ => IngestCreates(y.shared, e.ingester, ing, e.choice);
    } else if e.OverwritePointer? {
      WriteCreates(y.shared, e.text);
    }
  }

  /** The k-th event of the run creates `g`. */
  ghost predicate CreatedAt(q: Queries, es: seq<Event>, k: nat, g: nat) {
    k < |es| && Created(Run(q, es[..k]), es[k]) == Some(g)
  }

  lemma CreatedBefore(q: Queries, es: seq<Event>, k: nat, g: nat)
    requires k + 1 < |es|
    ensures CreatedAt(q, es[..|es| - 1], k, g) <==> CreatedAt(q, es, k, g)
  {
    assert es[..|es| - 1][..k] == es[..k];
  }

  lemma LastCreation(q: Queries, es: seq<Event>, g: nat)
    requires es != []
    ensures var n := |es| - 1;
            var s, t := Run(q, es[..n]).shared, Run(q, es).shared;
            && (g in t.floor <==> g in s.floor || CreatedAt(q, es, n, g))
            && (g in t.reused <==> g in s.reused || (g in s.floor && CreatedAt(q, es, n, g)))
  {
    var n := |es| - 1;
    StepCreates(q, Run(q, es[..n]), es[n]);
  }

  /** `floor` knows exactly the generations that some event created. */
  lemma {:induction false} UsedExactly(q: Queries, es: seq<Event>, g: nat)
    ensures g in Run(q, es).shared.floor <==> exists k :: CreatedAt(q, es, k, g)
  {
    if es != [] {
      var n := |es| - 1;
      UsedExactly(q, es[..n], g);
      LastCreation(q, es, g);
      forall k | 0 <= k < n ensures CreatedAt(q, es[..n], k, g) <==> CreatedAt(q, es, k, g) { CreatedBefore(q, es, k, g); }
    }
  }

  ghost predicate CreatedTwice(q: Queries, es: seq<Event>, i: nat, j: nat, g: nat) {
    i < j && CreatedAt(q, es, i, g) && CreatedAt(q, es, j, g)
  }

  lemma TwiceInPrefix(q: Queries, es: seq<Event>, i: nat, j: nat, g: nat)
    requires j + 1 < |es|
    ensures CreatedTwice(q, es[..|es| - 1], i, j, g) <==> CreatedTwice(q, es, i, j, g)
  {
    if i < j {
      CreatedBefore(q, es, i, g);
      CreatedBefore(q, es, j, g);
    }
  }

  lemma TwiceFromLast(q: Queries, es: seq<Event>, i: nat, g: nat)
    requires i + 1 < |es|
    ensures CreatedTwice(q, es, i, |es| - 1, g) <==> CreatedAt(q, es[..|es| - 1], i, g) && CreatedAt(q, es, |es| - 1, g)
  {
    CreatedBefore(q, es, i, g);
  }

  lemma ReuseOfPrefix(q: Queries, es: seq<Event>, i: nat, j: nat, g: nat)
    requires CreatedTwice(q, es, i, j, g)
    ensures CreatedTwice(q, es[..|es| - 1], i, j, g)
            || (CreatedAt(q, es, |es| - 1, g) && CreatedAt(q, es[..|es| - 1], i, g))
  {
    if j < |es| - 1 { TwiceInPrefix(q, es, i, j, g); } else { TwiceFromLast(q, es, i, g); }
  }

  lemma LastReuse(q: Queries, es: seq<Event>, g: nat)
    requires es != []
    ensures var n := |es| - 1;
            (exists i, j :: CreatedTwice(q, es, i, j, g)) <==>
              (exists i, j :: CreatedTwice(q, es[..n], i, j, g))
              || (CreatedAt(q, es, n, g) && exists k :: CreatedAt(q, es[..n], k, g))
  {
    var n := |es| - 1;
    if i: nat, j: nat :| CreatedTwice(q, es, i, j, g) { ReuseOfPrefix(q, es, i, j, g); }
    if i: nat, j: nat :| CreatedTwice(q, es[..n], i, j, g) { TwiceInPrefix(q, es, i, j, g); }
    if k: nat :| CreatedAt(q, es[..n], k, g) { TwiceFromLast(q, es, k, g); }
  }

  /** A number is reused exactly when two events of the run create it: a SET NX
      of it on an absent pointer, an INCR of an absent pointer for 1, an INCR of
      its predecessor, or an overwrite with it. */
  lemma {:induction false} ReusedExactly(q: Queries, es: seq<Event>, g: nat)
    ensures g in Run(q, es).shared.reused <==> exists i, j :: CreatedTwice(q, es, i, j, g)
  {
    if es != [] {
      ReusedExactly(q, es[..|es| - 1], g);
      UsedExactly(q, es[..|es| - 1], g);
      LastCreation(q, es, g);
      LastReuse(q, es, g);
    }
  }

  /** `floor` means what it says: to the end of any run that does not create the
      number again, it holds the version current at the event that created it. */
  lemma FloorIsCreationVersion(q: Queries, es: seq<Event>, e: Event, more: seq<Event>, g: nat)
    requires Created(Run(q, es), e) == Some(g) && g !in Run(q, es + [e] + more).shared.reused
    ensures PointerGeneration(Run(q, es + [e]).shared) == Some(g)
    ensures g in Run(q, es + [e] + more).shared.floor
    ensures Run(q, es + [e] + more).shared.floor[g] == Current(Run(q, es + [e]).shared)
  {
    RunExtend(q, es, e);
    StepCreates(q, Run(q, es), e);
    RunGrows(q, es + [e], more);
  }

  // --------------------------------------------- no loss means no reuse

  predicate PointerUntouched(es: seq<Event>) {
    forall e :: e in es ==> !e.LosePointer? && !e.OverwritePointer?
  }

  /** Without loss the pointer is the printed text of the newest generation ever created. */
  ghost predicate Newest(s: Shared) {
    && s.reused == {}
    && (s.pointer.None? ==> s.floor == map[])
    && (s.pointer.Some? ==>
          exists g :: 0 <= g <= MAX_GENERATION && s.pointer == Some(Dec(g)) && NewestIs(s, g))
  }

  ghost predicate NewestIs(s: Shared, g: nat) { forall h :: h in s.floor ==> h <= g }

  lemma WriteNewest(s: Shared, g: nat)
    requires s.reused == {} && g <= MAX_GENERATION && forall h :: h in s.floor ==> h < g
    ensures Newest(WritePointer(s, Dec(g)))
  {
    TextOfDec(g);
    assert NewestIs(WritePointer(s, Dec(g)), g);
  }

  lemma GenerationStepNewest(s: Shared, step: GenerationStep, luck: Luck, draw: Draw)
    requires Newest(s)
    ensures Newest(GenerationStepOf(s, step, luck, draw).0)
  {
    if step.Claim? && s.pointer.None? { WriteNewest(s, step.candidate); }
  }

  lemma NewestSame(s: Shared, t: Shared)
    requires Newest(s) && t.pointer == s.pointer && t.floor == s.floor && t.reused == s.reused
    ensures Newest(t)
  {
    if s.pointer.Some? {
      var g :| 0 <= g <= MAX_GENERATION && s.pointer == Some(Dec(g)) && NewestIs(s, g);
      assert NewestIs(t, g);
    }
  }

  lemma BumpNewest(s: Shared, ended: nat, luck: Luck)
    requires Newest(s)
    ensures Newest(BumpStepOf(s, ended, luck).0)
  {
    if luck != FailsBefore {
      if s.pointer.None? {
        assert Dec(1) == "1";
        BumpedTo(s, 1);
      } else {
        var g :| 0 <= g <= MAX_GENERATION && s.pointer == Some(Dec(g)) && NewestIs(s, g);
        BumpFrom(s, ended, luck, g);
      }
    }
  }

  lemma BumpFrom(s: Shared, ended: nat, luck: Luck, g: nat)
    requires Newest(s) && luck != FailsBefore
    requires g <= MAX_GENERATION && s.pointer == Some(Dec(g)) && NewestIs(s, g)
    ensures Newest(BumpStepOf(s, ended, luck).0)
  {
    IncrementedDec(g);
    BumpWrites(s, ended, luck);
    if g < MAX_GENERATION { BumpedTo(s, g + 1); }
  }

  lemma BumpWrites(s: Shared, ended: nat, luck: Luck)
    requires luck != FailsBefore && s.pointer.Some?
    ensures BumpStepOf(s, ended, luck).0 ==
            match Incremented(s.pointer.value)
            case None => s
            case Some(text) => WritePointer(s, text).(published := Current(s))
  {
  }

  lemma BumpedTo(s: Shared, g: nat)
    requires s.reused == {} && g <= MAX_GENERATION && forall h :: h in s.floor ==> h < g
    ensures Newest(WritePointer(s, Dec(g)).(published := Current(s)))
  {
    WriteNewest(s, g);
    NewestSame(WritePointer(s, Dec(g)), WritePointer(s, Dec(g)).(published := Current(s)));
  }

  lemma StepNewest(q: Queries, y: System, e: Event)
    requires Newest(y.shared) && !e.LosePointer? && !e.OverwritePointer?
    ensures Newest(Step(q, y, e).shared)
  {
    var s, t := y.shared, Step(q, y, e).shared;
    if e.ReadCache? && e.reader in y.readers {
      var pc := y.readers[e.reader].pc;
      if pc.FirstGeneration? || pc.SecondGeneration? {
        GenerationStepNewest(s, pc.step, e.luck, e.draw);
      } else {
        NewestSame(s, t);
      }
    } else if e.Ingest? && e.ingester in y.ingesters {
      IngestNewest(s, e.ingester, y.ingesters[e.ingester], e.choice);
    } else {
      NewestSame(s, t);
    }
  }

  lemma IngestNewest(s: Shared, p: nat, ing: Ingester, c: Choice)
    requires Newest(s)
    ensures Newest(IngestStepOf(s, p, ing, c).0)
  {
    match ing.pc
    case Checking(step, _) => GenerationStepNewest(s, step, c.luck, c.draw);
    case Bumping(ended) => BumpNewest(s, ended, c.luck);
    case _ => NewestSame(s, IngestStepOf(s, p, ing, c).0);
  }

  /** As long as the pointer is neither lost nor overwritten from outside, no
      generation number is ever created twice. */
  lemma {:induction false} NoLossNoReuse(q: Queries, es: seq<Event>)
    requires PointerUntouched(es)
    ensures Newest(Run(q, es).shared) && Run(q, es).shared.reused == {}
  {
    hide Step;
    if es != [] {
      NoLossNoReuse(q, es[..|es| - 1]);
      StepNewest(q, Run(q, es[..|es| - 1]), es[|es| - 1]);
    }
  }

  /** Creating a used number other than by an overwrite, be it a SET NX or an
      INCR of an absent or a present pointer, needs an earlier loss or overwrite. */
  lemma ReuseNeedsLoss(q: Queries, es: seq<Event>, e: Event, g: nat)
    requires Created(Run(q, es), e) == Some(g) && g in Run(q, es).shared.floor
    ensures !PointerUntouched(es) || e.OverwritePointer?
  {
    if PointerUntouched(es) && !e.OverwritePointer? {
      NoLossNoReuse(q, es);
      StepNewest(q, Run(q, es), e);
      StepCreates(q, Run(q, es), e);
      assert false;
    }
  }

  // ------------------------------------------------------- initialisation

  /** The event in which a SET NX of the pointer takes effect. */
  ghost predicate Claims(q: Queries, y: System, e: Event) {
    y.shared.pointer.None? && Step(q, y, e).shared.pointer.Some? && (e.ReadCache? || IngesterClaims(y, e))
  }

  ghost predicate IngesterClaims(y: System, e: Event) {
    e.Ingest? && e.ingester in y.ingesters && y.ingesters[e.ingester].pc.Checking?
  }

  lemma PointerKept(q: Queries, y: System, e: Event)
    requires y.shared.pointer.Some? && !e.LosePointer?
    ensures Step(q, y, e).shared.pointer.Some?
  {
    if e.Ingest? && e.ingester in y.ingesters && y.ingesters[e.ingester].pc.Bumping? {
      BumpKeepsPointer(y.shared, y.ingesters[e.ingester].pc.ended, e.choice.luck);
    }
  }

  lemma BumpKeepsPointer(s: Shared, ended: nat, luck: Luck)
    requires s.pointer.Some?
    ensures BumpStepOf(s, ended, luck).0.pointer.Some?
  {
  }

  lemma {:induction false} PointerStays(q: Queries, es: seq<Event>, more: seq<Event>)
    requires Run(q, es).shared.pointer.Some? && LosePointer !in more
    ensures Run(q, es + more).shared.pointer.Some?
    decreases |more|
  {
    hide Step;
    if more == [] {
      assert es + more == es;
    } else {
      var front, e := more[..|more| - 1], more[|more| - 1];
      PointerStays(q, es, front);
      assert es + more == es + front + [e];
      RunExtend(q, es + front, e);
      assert e in more;
      PointerKept(q, Run(q, es + front), e);
    }
  }

  /** At most one SET NX takes effect per absence period: between two of them the pointer was lost. */
  lemma OneClaimPerAbsence(q: Queries, es: seq<Event>, e1: Event, more: seq<Event>, e2: Event)
    requires Claims(q, Run(q, es), e1)
    requires Claims(q, Run(q, es + [e1] + more), e2)
    ensures LosePointer in more
  {
    RunExtend(q, es, e1);
    if LosePointer !in more { PointerStays(q, es + [e1], more); }
  }

  /** Whatever `_generation` returns is the pointer's generation, or its lack of
      one, at the step that returns it: the step's own linearization point; and a
      generation returned is canonical. It fails exactly when a command of its
      own does, and goes on only after finding nothing or losing the claim. */
  lemma ReturnedGenerationIsHeld(s: Shared, step: GenerationStep, luck: Luck, draw: Draw)
    ensures var (t, result) := GenerationStepOf(s, step, luck, draw);
            && (result.Gave? ==> result.generation == PointerGeneration(t))
            && (result.Gave? && result.generation.Some? ==>
                  t.pointer.Some? && TextGeneration(Dec(result.generation.value)) == result.generation)
            && (result.Raised? <==> luck != Works)
            && (result.More? ==> if step.Look? then PointerReadsEmpty(s) else step.Claim? && s.pointer.Some?)
  {
    if step.Claim? { TextOfDec(step.candidate); }
    var (t, result) := GenerationStepOf(s, step, luck, draw);
    if result.Gave? && result.generation.Some? {
      ParseIsIdempotent(Window(t.pointer.value, MAX_GENERATION_DIGITS));
      TextOfDec(result.generation.value);
    }
  }

  // ---------------------------------------------------------- invalidation

  /** The pointer's text, or its absence, counts as the integer `n`. */
  ghost predicate CountsAs(pointer: Option<string>, n: int) {
    if pointer.None? then n == 0 else pointer.value == DecInt(n)
  }

  /** INCR on this pointer stores the successor of `n`. */
  ghost predicate Bumps(pointer: Option<string>, n: int) {
    -(MAX_GENERATION as int) - 1 <= n < MAX_GENERATION && CountsAs(pointer, n)
  }

  /** Where one command of its own takes a run that is invalidating. While it
      checks, a failed command, or a pointer that holds no generation, ends the run
      with an error before any INCR. The INCR succeeds exactly on an absent pointer
      or the text of an integer below the maximum, and leaves its successor. */
  ghost predicate InvalidationStep(s: Shared, t: Shared, before: IngesterPc, after: IngesterPc, luck: Luck)
    requires before.Checking? || before.Bumping?
  {
    && (before.Checking? ==>
          && (luck != Works ==> after == Failed)
          && (after.Checking? ==> after.ended == before.ended)
          && (luck == Works && !after.Checking? ==>
                after == if PointerGeneration(t).Some? then Bumping(before.ended) else Failed))
    && (before.Bumping? ==>
          && (after == Failed || after == Exited(before.ended, Current(s)))
          && (after.Exited? <==> luck == Works && exists n :: Bumps(s.pointer, n))
          && (forall n :: Bumps(s.pointer, n) && luck != FailsBefore ==> t.pointer == Some(DecInt(n + 1)))
          && (luck == FailsBefore || !(exists n :: Bumps(s.pointer, n)) ==> t.pointer == s.pointer))
  }

  lemma BumpsExactly(pointer: Option<string>, text: string)
    ensures (if pointer.None? then Some("1") else Incremented(pointer.value)) == Some(text)
            <==> exists n :: Bumps(pointer, n) && text == DecInt(n + 1)
  {
    assert DecInt(1) == "1";
    if pointer.None? {
      if text == "1" { assert Bumps(pointer, 0) && text == DecInt(0 + 1); }
    } else {
      IncrementedExactly(pointer.value, text);
      if n :| Increments(n, pointer.value, text) { assert Bumps(pointer, n) && text == DecInt(n + 1); }
      if n :| Bumps(pointer, n) && text == DecInt(n + 1) { assert Increments(n, pointer.value, text); }
    }
  }

  lemma BumpStepExactly(s: Shared, ended: nat, luck: Luck)
    ensures var (t, pc) := BumpStepOf(s, ended, luck); InvalidationStep(s, t, Bumping(ended), pc, luck)
  {
    var text := if s.pointer.None? then Some("1") else Incremented(s.pointer.value);
    if text.Some? {
      BumpsExactly(s.pointer, text.value);
      var n :| Bumps(s.pointer, n) && text.value == DecInt(n + 1);
    }
    forall n | Bumps(s.pointer, n) ensures text == Some(DecInt(n + 1)) { BumpsExactly(s.pointer, DecInt(n + 1)); }
  }

  lemma CheckStepExactly(s: Shared, p: nat, ing: Ingester, c: Choice)
    requires ing.pc.Checking?
    ensures var (t, pc) := IngestStepOf(s, p, ing, c); InvalidationStep(s, t, ing.pc, pc, c.luck)
  {
    ReturnedGenerationIsHeld(s, ing.pc.step, c.luck, c.draw);
  }

  lemma InvalidationOfStep(q: Queries, y: System, p: nat, c: Choice)
    requires p in y.ingesters && (y.ingesters[p].pc.Checking? || y.ingesters[p].pc.Bumping?)
    ensures var z := Step(q, y, Ingest(p, c));
            p in z.ingesters && InvalidationStep(y.shared, z.shared, y.ingesters[p].pc, z.ingesters[p].pc, c.luck)
  {
    if y.ingesters[p].pc.Checking? {
      CheckStepExactly(y.shared, p, y.ingesters[p], c);
    } else {
      BumpStepExactly(y.shared, y.ingesters[p].pc.ended, c.luck);
    }
  }

  /** This is what happens at every step of an invalidation in every run. */
  lemma InvalidationExactly(q: Queries, es: seq<Event>, p: nat, c: Choice)
    requires p in Run(q, es).ingesters
    requires var pc := Run(q, es).ingesters[p].pc; pc.Checking? || pc.Bumping?
    ensures p in Run(q, es + [Ingest(p, c)]).ingesters
    ensures var y, z := Run(q, es), Run(q, es + [Ingest(p, c)]);
            InvalidationStep(y.shared, z.shared, y.ingesters[p].pc, z.ingesters[p].pc, c.luck)
  {
    InvalidationOfStep(q, Run(q, es), p, c);
    RunExtend(q, es, Ingest(p, c));
  }

  /** Neither loss, nor overwriting, nor INCR. */
  predicate OnlyInitialisers(y: System, e: Event) {
    && !e.LosePointer? && !e.OverwritePointer?
    && (e.Ingest? && e.ingester in y.ingesters ==> !y.ingesters[e.ingester].pc.Bumping?)
  }

  /** The generation a reader currently works under. */
  function Holding(pc: ReaderPc): Option<nat> {
    match pc
    case Fetch(g) => Some(g)
    case SecondGeneration(g, _, _) => Some(g)
    case Query(Missed(g)) => g
    case Count(Missed(g), _, _) => g
    case Store(g, _, _, _) => Some(g)
    case Done(Hit(g, _, _, _)) => Some(g)
    case _ => None
  }

  /** The readers that began after `since` hold nothing but the pointer's generation. */
  ghost predicate Agreed(since: set<nat>, y: System) {
    forall r :: r in y.readers && r !in since && Holding(y.readers[r].pc).Some? ==>
      Holding(y.readers[r].pc) == PointerGeneration(y.shared)
  }

  /** No event of `more` is a loss, an overwrite or an INCR. */
  ghost predicate Quiet(q: Queries, es: seq<Event>, more: seq<Event>) {
    forall k :: 0 <= k < |more| ==> OnlyInitialisers(Run(q, es + more[..k]), more[k])
  }

  lemma PointerFixed(q: Queries, y: System, e: Event)
    requires OnlyInitialisers(y, e) && y.shared.pointer.Some?
    ensures Step(q, y, e).shared.pointer == y.shared.pointer
  {
  }

  lemma ReaderAgrees(q: Queries, y: System, e: Event)
    requires (e.ReadCache? || e.ReadDatabase?) && e.reader in y.readers
    requires Holding(y.readers[e.reader].pc).Some? ==> Holding(y.readers[e.reader].pc) == PointerGeneration(y.shared)
    ensures var z := Step(q, y, e);
            var pc := z.readers[e.reader].pc;
            Holding(pc).Some? ==> Holding(pc) == PointerGeneration(z.shared)
  {
    if e.ReadCache? {
      var pc := y.readers[e.reader].pc;
      if pc.FirstGeneration? || pc.SecondGeneration? {
        ReturnedGenerationIsHeld(y.shared, pc.step, e.luck, e.draw);
      }
    }
  }

  lemma StepAgrees(q: Queries, since: set<nat>, y: System, e: Event)
    requires OnlyInitialisers(y, e) && Agreed(since, y)
    ensures Agreed(since, Step(q, y, e))
  {
    var z := Step(q, y, e);
    if y.shared.pointer.Some? { PointerFixed(q, y, e); }
    forall r | r in z.readers && r !in since && Holding(z.readers[r].pc).Some?
      ensures Holding(z.readers[r].pc) == PointerGeneration(z.shared)
    {
      if (e.ReadCache? || e.ReadDatabase?) && e.reader == r { ReaderAgrees(q, y, e); }
    }
  }

  lemma QuietPrefix(q: Queries, es: seq<Event>, more: seq<Event>)
    requires Quiet(q, es, more) && more != []
    ensures Quiet(q, es, more[..|more| - 1])
    ensures OnlyInitialisers(Run(q, es + more[..|more| - 1]), more[|more| - 1])
  {
    var front := more[..|more| - 1];
    forall k | 0 <= k < |front| ensures OnlyInitialisers(Run(q, es + front[..k]), front[k]) {
      assert front[..k] == more[..k];
      assert OnlyInitialisers(Run(q, es + more[..k]), more[k]);
    }
  }

  /** From any moment on, as long as there is no loss, overwriting or INCR, all
      readers that begin agree: whichever hold a generation, drawn by themselves
      or by somebody else, hold the pointer's. */
  lemma {:induction false} InitialisersAgree(q: Queries, es: seq<Event>, more: seq<Event>)
    requires Quiet(q, es, more)
    ensures Agreed(Run(q, es).readers.Keys, Run(q, es + more))
    decreases |more|
  {
    hide Step;
    if more == [] {
      assert es + more == es;
    } else {
      var front, e := more[..|more| - 1], more[|more| - 1];
      QuietPrefix(q, es, more);
      InitialisersAgree(q, es, front);
      assert es + more == es + front + [e];
      RunExtend(q, es + front, e);
      StepAgrees(q, Run(q, es).readers.Keys, Run(q, es + front), e);
    }
  }
}
