/** The read service over cache and database. Each method runs amid every other
    actor; its contract says what its caller gets in terms of the database. */
module ItemService {
  import opened Prelude
  import opened ListParameters
  import opened Protocol
  import opened ProtocolInvariant
  import opened ReadGuarantees
  import opened PublishedAnswers
  import opened Deployment
  import opened ItemCache

  datatype Reply = Found(answer: Answer) | ItemNotFound | ServiceUnavailable

  ghost predicate Finishes(y: System, r: nat, resource: Resource, reply: Reply) {
    r in y.readers && y.readers[r].resource == resource && y.readers[r].pc.Done? &&
    match y.readers[r].pc.outcome
    case Unavailable => reply == ServiceUnavailable
    case NotFound(_) => reply == ItemNotFound
    case Hit(_, a, _, _) => reply == Found(a)
    case Loaded(a, _, _) => reply == Found(a)
  }

  /** The reply is the cache-free service's reply at two versions the database
      had, in this order, neither older than `oldest`. */
  ghost predicate TrueSince(q: Queries, s: Shared, resource: Resource, reply: Reply, oldest: nat) {
    exists v1: nat, v2: nat :: oldest <= v1 <= v2 <= Current(s) && TrueAt(q, s, resource, reply, v1, v2)
  }

  ghost predicate TrueAt(q: Queries, s: Shared, resource: Resource, reply: Reply, v1: nat, v2: nat)
    requires v1 <= Current(s) && v2 <= Current(s)
  {
    Direct(q, resource, s.history[v1], s.history[v2]) == (if reply.Found? then Some(reply.answer) else None)
  }

  /** The finished read returned no payload from outside; and, further, none
      under a generation number that was created more than once. */
  ghost predicate GenuineReply(y: System, r: nat) {
    r in y.readers && y.readers[r].pc.Done? && Genuine(y.shared, y.readers[r].resource, y.readers[r].pc.outcome)
  }

  ghost predicate TrustedReply(y: System, r: nat) {
    r in y.readers && y.readers[r].pc.Done? && Trusted(y.shared, y.readers[r].resource, y.readers[r].pc.outcome)
  }

  /** What a call by reader `r` gives its caller: a true answer of the database,
      and one that reflects everything that had been invalidated by `oldest`. */
  ghost predicate Guaranteed(q: Queries, y: System, r: nat, resource: Resource, reply: Reply, oldest: nat) {
    && (GenuineReply(y, r) ==> TrueSince(q, y.shared, resource, reply, 0))
    && (TrustedReply(y, r) ==> TrueSince(q, y.shared, resource, reply, oldest))
  }

  /** A finished call's genuine reply is always a true answer of the database,
      and, unless its hit's own generation number was reused, one that reflects
      everything invalidated before the call began. */
  lemma CallGuarantee(q: Queries, before: seq<Event>, after: seq<Event>, r: nat, resource: Resource, reply: Reply)
    requires before <= after && r !in Run(q, before).readers
    requires Finishes(Run(q, after), r, resource, reply) && !reply.ServiceUnavailable?
    ensures Guaranteed(q, Run(q, after), r, resource, reply, Run(q, before).shared.published)
  {
    var y := Run(q, after);
    var o := y.readers[r].pc.outcome;
    if GenuineReply(y, r) {
      FailOpen(q, after, r, o);
      assert TrueAt(q, y.shared, resource, reply, From(o), Upto(o));
    }
    if TrustedReply(y, r) {
      var more := after[|before|..];
      assert after == before + more;
      ReadAfterInvalidation(q, before, more, r, o);
    }
  }

  function ResponseOf(reply: Reply): Option<Answer> { if reply.Found? then Some(reply.answer) else None }

  /** The reply is what the item, or the metadata, is at a version not older than `oldest`. */
  ghost predicate ItemSince(s: Shared, gameId: int, reply: Reply, oldest: nat) {
    exists v: nat :: oldest <= v <= Current(s) && ItemAt(s, gameId, ResponseOf(reply), v)
  }

  ghost predicate MetaSince(s: Shared, apiVersion: string, reply: Reply, oldest: nat) {
    exists v: nat :: oldest <= v <= Current(s) && MetaAt(s, apiVersion, ResponseOf(reply), v)
  }

  /** The reply is the page at one version and the count at the same or a later one. */
  ghost predicate ListSince(q: Queries, s: Shared, p: ListParams, reply: Reply, oldest: nat) {
    exists v1: nat, v2: nat :: oldest <= v1 <= v2 <= Current(s) && ListAt(q, s, p, reply, v1, v2)
  }

  ghost predicate ListAt(q: Queries, s: Shared, p: ListParams, reply: Reply, v1: nat, v2: nat)
    requires v1 <= Current(s) && v2 <= Current(s)
  {
    reply == Found(ListAnswer(q.list(s.history[v1], p), q.count(s.history[v2], p.filters), p.limit, p.offset))
  }

  /** A resource read by one statement is answered from one version. */
  lemma TrueOnce(q: Queries, s: Shared, resource: Resource, reply: Reply, oldest: nat) returns (v: nat)
    requires !resource.ListOf? && TrueSince(q, s, resource, reply, oldest)
    ensures oldest <= v <= Current(s) && Direct(q, resource, s.history[v], s.history[v]) == ResponseOf(reply)
  {
    var v1: nat, v2: nat :| oldest <= v1 <= v2 <= Current(s) && TrueAt(q, s, resource, reply, v1, v2);
    DirectIgnoresSecond(q, resource, s.history[v1], s.history[v2]);
    v := v1;
  }

  lemma TrueItem(q: Queries, es: seq<Event>, gameId: int, reply: Reply, oldest: nat)
    requires TrueSince(q, Run(q, es).shared, ItemOf(gameId), reply, oldest)
    ensures ItemSince(Run(q, es).shared, gameId, reply, oldest)
  {
    Reachable(q, es);
    var s := Run(q, es).shared;
    var v := TrueOnce(q, s, ItemOf(gameId), reply, oldest);
    ItemOfVersion(q, s, gameId, v);
    assert ItemAt(s, gameId, ResponseOf(reply), v);
  }

  lemma TrueMeta(q: Queries, es: seq<Event>, apiVersion: string, reply: Reply, oldest: nat)
    requires TrueSince(q, Run(q, es).shared, MetaOf(apiVersion), reply, oldest)
    ensures MetaSince(Run(q, es).shared, apiVersion, reply, oldest)
  {
    Reachable(q, es);
    var s := Run(q, es).shared;
    var v := TrueOnce(q, s, MetaOf(apiVersion), reply, oldest);
    MetaOfVersion(q, s, apiVersion, v);
    assert MetaAt(s, apiVersion, ResponseOf(reply), v);
  }

  lemma TrueList(q: Queries, s: Shared, p: ListParams, reply: Reply, oldest: nat)
    requires reply.Found? && TrueSince(q, s, ListOf(p), reply, oldest)
    ensures ListSince(q, s, p, reply, oldest)
  {
    var v1: nat, v2: nat :| oldest <= v1 <= v2 <= Current(s) && TrueAt(q, s, ListOf(p), reply, v1, v2);
    assert ListAt(q, s, p, reply, v1, v2);
  }

  class Service {
    const servers: Servers
    const cache: RedisItemCache

    constructor (servers: Servers, cache: RedisItemCache)
      requires cache.servers == servers
      ensures this.servers == servers && this.cache == cache
    {
      this.servers, this.cache := servers, cache;
    }

    /** The request arrives: a new reader starts. */
    ghost method Arrive(r: nat, resource: Resource)
      requires servers.Valid() && r !in servers.readers
      modifies servers`readers, servers`ingesters, servers`trace
      ensures servers.Valid() && old(servers.trace) <= servers.trace
      ensures At(servers.State(), FirstRead(r, resource), More(Look))
    {
      servers.Record(Begin(r, resource));
    }

    /** One SELECT of the read path: the committed state it sees, or a failure. */
    method Select(ghost r: nat) returns (ok: bool, seen: Version, at: nat)
      requires servers.Valid() && r in servers.readers
      modifies servers
      ensures servers.Valid() && old(servers.trace) <= servers.trace
      ensures at == Current(servers.shared) && seen == Latest(servers.shared)
      ensures r in servers.readers
      ensures servers.readers[r] == Reader(old(servers.readers[r]).resource,
                QueryStepOf(servers.q, servers.shared, old(servers.readers[r]), ok))
    {
      servers.Others(ReaderActor(r));
      ok := *;
      at, seen := Current(servers.shared), Latest(servers.shared);
      servers.Record(ReadDatabase(r, ok));
    }

    /** Give the response, writing it back first when the lookup allows it. */
    method Respond(ghost r: nat, resource: Resource, looked: CacheRead, answer: Answer, itemsFrom: nat, totalFrom: nat)
      requires servers.Valid() && cache.servers == servers && r in servers.readers
      requires looked.Lookup? ==>
                 servers.readers[r] == Reader(resource, AfterRows(Missed(looked.generation), answer, itemsFrom, totalFrom))
      requires looked.ReadFailed? ==> servers.readers[r] == Reader(resource, Done(Loaded(answer, itemsFrom, totalFrom)))
      modifies servers
      ensures servers.Valid() && old(servers.trace) <= servers.trace
      ensures Finishes(servers.State(), r, resource, Found(answer))
    {
      if looked.Lookup? { cache.Set(r, resource, answer, looked.generation, itemsFrom, totalFrom); }
    }

    method GetByGameId(ghost r: nat, gameId: int) returns (reply: Reply)
      requires servers.Valid() && cache.servers == servers && r !in servers.readers
      modifies servers
      ensures servers.Valid() && Finishes(servers.State(), r, ItemOf(gameId), reply)
      ensures !reply.ServiceUnavailable? ==>
                Guaranteed(servers.q, servers.State(), r, ItemOf(gameId), reply, old(servers.shared.published))
      ensures !reply.ServiceUnavailable? && GenuineReply(servers.State(), r) ==> ItemSince(servers.shared, gameId, reply, 0)
      ensures !reply.ServiceUnavailable? && TrustedReply(servers.State(), r) ==>
                ItemSince(servers.shared, gameId, reply, old(servers.shared.published))
    {
      reply := LookUpItem(r, gameId);
      if !reply.ServiceUnavailable? {
        CallGuarantee(servers.q, old(servers.trace), servers.trace, r, ItemOf(gameId), reply);
        if GenuineReply(servers.State(), r) { TrueItem(servers.q, servers.trace, gameId, reply, 0); }
        if TrustedReply(servers.State(), r) { TrueItem(servers.q, servers.trace, gameId, reply, old(servers.shared.published)); }
      }
    }

    method LookUpItem(ghost r: nat, gameId: int) returns (reply: Reply)
      requires servers.Valid() && cache.servers == servers && r !in servers.readers
      modifies servers
      ensures servers.Valid() && old(servers.trace) <= servers.trace
      ensures Finishes(servers.State(), r, ItemOf(gameId), reply)
    {
      Arrive(r, ItemOf(gameId));
      var looked := cache.Get(r, ItemOf(gameId));
      if looked.Lookup? && looked.value.Some? { return Found(looked.value.value); }
      var ok, seen, at := Select(r);
      if !ok { return ServiceUnavailable; }
      if gameId !in seen.rows { return ItemNotFound; }
      var answer := ItemAnswer(seen.rows[gameId].item);
      Respond(r, ItemOf(gameId), looked, answer, at, at);
      reply := Found(answer);
    }

    method ListItems(ghost r: nat, p: ListParams) returns (reply: Reply)
      requires servers.Valid() && cache.servers == servers && r !in servers.readers
      modifies servers
      ensures servers.Valid() && Finishes(servers.State(), r, ListOf(p), reply)
      ensures !reply.ServiceUnavailable? ==>
                && reply.Found?
                && Guaranteed(servers.q, servers.State(), r, ListOf(p), reply, old(servers.shared.published))
      ensures !reply.ServiceUnavailable? && GenuineReply(servers.State(), r) ==> ListSince(servers.q, servers.shared, p, reply, 0)
      ensures !reply.ServiceUnavailable? && TrustedReply(servers.State(), r) ==>
                ListSince(servers.q, servers.shared, p, reply, old(servers.shared.published))
    {
      reply := LookUpList(r, p);
      if !reply.ServiceUnavailable? {
        CallGuarantee(servers.q, old(servers.trace), servers.trace, r, ListOf(p), reply);
        if GenuineReply(servers.State(), r) { TrueList(servers.q, servers.shared, p, reply, 0); }
        if TrustedReply(servers.State(), r) { TrueList(servers.q, servers.shared, p, reply, old(servers.shared.published)); }
      }
    }

    method LookUpList(ghost r: nat, p: ListParams) returns (reply: Reply)
      requires servers.Valid() && cache.servers == servers && r !in servers.readers
      modifies servers
      ensures servers.Valid() && old(servers.trace) <= servers.trace
      ensures Finishes(servers.State(), r, ListOf(p), reply) && !reply.ItemNotFound?
    {
      Arrive(r, ListOf(p));
      var looked := cache.Get(r, ListOf(p));
      if looked.Lookup? && looked.value.Some? { return Found(looked.value.value); }
      reply := LoadList(r, p, looked);
    }

    /** The two statements of a list read; other commits may fall between them. */
    method LoadList(ghost r: nat, p: ListParams, looked: CacheRead) returns (reply: Reply)
      requires servers.Valid() && cache.servers == servers
      requires AfterRead(servers.State(), r, ListOf(p), looked)
      requires looked.Lookup? ==> looked.value.None?
      modifies servers
      ensures servers.Valid() && old(servers.trace) <= servers.trace
      ensures Finishes(servers.State(), r, ListOf(p), reply) && !reply.ItemNotFound?
    {
      var ok, seen, itemsFrom := Select(r);
      if !ok { return ServiceUnavailable; }
      var items := servers.q.list(seen, p);
      var totalFrom: nat;
      ok, seen, totalFrom := Select(r);
      if !ok { return ServiceUnavailable; }
      var answer := ListAnswer(items, servers.q.count(seen, p.filters), p.limit, p.offset);
      Respond(r, ListOf(p), looked, answer, itemsFrom, totalFrom);
      reply := Found(answer);
    }

    method GetMeta(ghost r: nat, apiVersion: string) returns (reply: Reply)
      requires servers.Valid() && cache.servers == servers && r !in servers.readers
      modifies servers
      ensures servers.Valid() && Finishes(servers.State(), r, MetaOf(apiVersion), reply)
      ensures !reply.ServiceUnavailable? ==>
                && reply.Found?
                && Guaranteed(servers.q, servers.State(), r, MetaOf(apiVersion), reply, old(servers.shared.published))
      ensures !reply.ServiceUnavailable? && GenuineReply(servers.State(), r) ==> MetaSince(servers.shared, apiVersion, reply, 0)
      ensures !reply.ServiceUnavailable? && TrustedReply(servers.State(), r) ==>
                MetaSince(servers.shared, apiVersion, reply, old(servers.shared.published))
    {
      reply := LookUpMeta(r, apiVersion);
      if !reply.ServiceUnavailable? {
        CallGuarantee(servers.q, old(servers.trace), servers.trace, r, MetaOf(apiVersion), reply);
        if GenuineReply(servers.State(), r) { TrueMeta(servers.q, servers.trace, apiVersion, reply, 0); }
        if TrustedReply(servers.State(), r) { TrueMeta(servers.q, servers.trace, apiVersion, reply, old(servers.shared.published)); }
      }
    }

    method LookUpMeta(ghost r: nat, apiVersion: string) returns (reply: Reply)
      requires servers.Valid() && cache.servers == servers && r !in servers.readers
      modifies servers
      ensures servers.Valid() && old(servers.trace) <= servers.trace
      ensures Finishes(servers.State(), r, MetaOf(apiVersion), reply) && !reply.ItemNotFound?
    {
      Arrive(r, MetaOf(apiVersion));
      var looked := cache.Get(r, MetaOf(apiVersion));
      if looked.Lookup? && looked.value.Some? { return Found(looked.value.value); }
      var ok, seen, at := Select(r);
      if !ok { return ServiceUnavailable; }
      var answer := MetaAnswer(apiVersion, seen.metadata, |seen.rows|);
      Respond(r, MetaOf(apiVersion), looked, answer, at, at);
      reply := Found(answer);
    }
  }
}
