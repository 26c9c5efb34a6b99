/** The two servers as the code meets them. `Deployment` holds the shared state;
    its methods are the single Redis commands and SQL statements. Each one
    records the protocol event it stands for, so that the state always is the
    state of the recorded run. Between two of its own commands an actor calls
    `Others`, whose contract lets every other actor do anything the protocol
    allows; callers know only that contract. */
module Deployment {
  import opened Prelude
  import opened Generation
  import opened Protocol

  datatype Actor = ReaderActor(reader: nat) | IngesterActor(ingester: nat)

  predicate ByActor(a: Actor, e: Event) {
    match a
    case ReaderActor(r) => (e.Begin? || e.ReadCache? || e.ReadDatabase?) && e.reader == r
    case IngesterActor(p) => (e.Publish? || e.Ingest?) && e.ingester == p
  }

  /** The actor's local state within the system. */
  predicate SameLocal(a: Actor, y: System, z: System) {
    match a
    case ReaderActor(r) =>
      (r in y.readers <==> r in z.readers) && (r in y.readers ==> y.readers[r] == z.readers[r])
    case IngesterActor(p) =>
      (p in y.ingesters <==> p in z.ingesters) && (p in y.ingesters ==> y.ingesters[p] == z.ingesters[p])
  }

  /** The run continued, by others only. */
  ghost predicate OthersOnly(a: Actor, es: seq<Event>, fs: seq<Event>) {
    es <= fs && forall k :: |es| <= k < |fs| ==> !ByActor(a, fs[k])
  }

  lemma OtherKeepsLocal(q: Queries, a: Actor, y: System, e: Event)
    requires !ByActor(a, e)
    ensures SameLocal(a, y, Step(q, y, e))
  {
  }

  lemma {:induction false} OthersKeepLocal(q: Queries, a: Actor, es: seq<Event>, fs: seq<Event>)
    requires OthersOnly(a, es, fs)
    ensures SameLocal(a, Run(q, es), Run(q, fs))
    decreases |fs|
  {
    if |es| < |fs| {
      OthersKeepLocal(q, a, es, fs[..|fs| - 1]);
      OtherKeepsLocal(q, a, Run(q, fs[..|fs| - 1]), fs[|fs| - 1]);
    } else {
      assert es == fs;
    }
  }

  /** SET name value NX, on the generation key. */
  function SetNxOf(s: Shared, text: string, luck: Luck): Shared {
    if luck != FailsBefore && s.pointer.None? then WritePointer(s, text) else s
  }

  /** SET name value, on a data key. */
  function SetOf(s: Shared, key: DataKey, entry: Entry, luck: Luck): Shared {
    if luck == FailsBefore then s else s.(entries := s.entries[key := entry])
  }

  /** INCR name, on the generation key; None is Redis's own error. */
  function IncrTextOf(s: Shared): Option<string> {
    if s.pointer.None? then Some("1") else Incremented(s.pointer.value)
  }

  function IncrOf(s: Shared, luck: Luck): Shared {
    if luck == FailsBefore || IncrTextOf(s).None? then s
    else WritePointer(s, IncrTextOf(s).value).(published := Current(s))
  }

  function PointerText(s: Shared): string { if s.pointer.None? then "" else s.pointer.value }

  /** The state that one more recorded event leads to. */
  lemma NextState(q: Queries, trace: seq<Event>, y: System, e: Event) returns (z: System)
    requires y == Run(q, trace)
    ensures z == Step(q, y, e) == Run(q, trace + [e])
  {
    RunExtend(q, trace, e);
    z := Step(q, y, e);
  }

  class Servers {
    const q: Queries
    var shared: Shared
    ghost var readers: map<nat, Reader>
    ghost var ingesters: map<nat, Ingester>
    ghost var trace: seq<Event>

    ghost function State(): System
      reads this
    {
      System(shared, readers, ingesters)
    }

    ghost predicate Valid()
      reads this
    {
      State() == Run(q, trace)
    }

    constructor (q: Queries)
      ensures Valid() && this.q == q && trace == []
    {
      this.q, shared, readers, ingesters, trace := q, INITIAL.shared, INITIAL.readers, INITIAL.ingesters, [];
    }

    /** Everything the other actors, expiry and losses may do between two steps of
        `me`. The body is the shortest such behaviour; only the contract is used. */
    method Others(ghost me: Actor)
      requires Valid()
      modifies this
      ensures Valid() && OthersOnly(me, old(trace), trace)
      ensures SameLocal(me, old(State()), State())
    {
      OthersKeepLocal(q, me, trace, trace);
    }

    /** An event that leaves shared state alone: a local step or a read. */
    ghost method Record(e: Event)
      requires Valid() && Step(q, State(), e).shared == shared
      modifies this`readers, this`ingesters, this`trace
      ensures Valid() && trace == old(trace) + [e] && State() == Step(q, old(State()), e)
    {
      var after := NextState(q, trace, State(), e);
      trace, readers, ingesters := trace + [e], after.readers, after.ingesters;
    }

    method Update(after: Shared, ghost e: Event)
      requires Valid() && Step(q, State(), e).shared == after
      modifies this
      ensures Valid() && trace == old(trace) + [e] && State() == Step(q, old(State()), e)
    {
      ghost var z := NextState(q, trace, State(), e);
      shared := after;
      trace, readers, ingesters := trace + [e], z.readers, z.ingesters;
    }

    /** GETRANGE of the generation key; None is a failure. */
    method GetRangePointer(luck: Luck, ghost e: Event) returns (text: Option<string>)
      requires Valid() && Step(q, State(), e).shared == shared
      modifies this`readers, this`ingesters, this`trace
      ensures Valid() && trace == old(trace) + [e] && State() == Step(q, old(State()), e)
      ensures text == if luck == Works then Some(Window(PointerText(shared), MAX_GENERATION_DIGITS)) else None
    {
      Record(e);
      text := if luck == Works then Some(Window(PointerText(shared), MAX_GENERATION_DIGITS)) else None;
    }

    /** SET NX of the generation key; the answer says whether the key was set. */
    method SetNxPointer(text: string, luck: Luck, ghost e: Event) returns (won: Option<bool>)
      requires Valid() && Step(q, State(), e).shared == SetNxOf(shared, text, luck)
      modifies this
      ensures Valid() && trace == old(trace) + [e] && State() == Step(q, old(State()), e)
      ensures won == if luck == Works then Some(old(shared).pointer.None?) else None
    {
      won := if luck == Works then Some(shared.pointer.None?) else None;
      Update(SetNxOf(shared, text, luck), e);
    }

    method IncrPointer(luck: Luck, ghost e: Event) returns (ok: bool)
      requires Valid() && Step(q, State(), e).shared == IncrOf(shared, luck)
      modifies this
      ensures Valid() && trace == old(trace) + [e] && State() == Step(q, old(State()), e)
      ensures ok <==> luck == Works && IncrTextOf(old(shared)).Some?
    {
      ok := luck == Works && IncrTextOf(shared).Some?;
      Update(IncrOf(shared, luck), e);
    }

    /** GETRANGE of a data key. */
    method GetRangeData(key: DataKey, luck: Luck, ghost e: Event) returns (ok: bool, found: Option<Entry>)
      requires Valid() && Step(q, State(), e).shared == shared
      modifies this`readers, this`ingesters, this`trace
      ensures Valid() && trace == old(trace) + [e] && State() == Step(q, old(State()), e)
      ensures ok <==> luck == Works
      ensures ok ==> found == if key in shared.entries then Some(shared.entries[key]) else None
    {
      Record(e);
      ok := luck == Works;
      found := if key in shared.entries then Some(shared.entries[key]) else None;
    }

    method SetData(key: DataKey, entry: Entry, luck: Luck, ghost e: Event)
      requires Valid() && Step(q, State(), e).shared == SetOf(shared, key, entry, luck)
      modifies this
      ensures Valid() && trace == old(trace) + [e] && State() == Step(q, old(State()), e)
    {
      Update(SetOf(shared, key, entry, luck), e);
    }
  }
}
