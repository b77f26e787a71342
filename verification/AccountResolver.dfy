/** The account resolvers: the one that reads a configured map, and the expiring cache
    in front of a slower one. */
module AccountResolver {
  import opened Domain

  // ----- The configured resolver -----

  datatype ClientEntry = ClientEntry(account: AccountId, org: OrgId, error: string)

  datatype ResolverConfig = ResolverConfig(
    entries: map<ClientId, ClientEntry>,
    defaultAccount: AccountId,
    defaultOrg: OrgId,
    identityOf: (AccountId, OrgId) -> string)

  function ConfiguredAnswer(cfg: ResolverConfig, client: ClientId): Answer {
    if client in cfg.entries && cfg.entries[client].org != "" then
      var e := cfg.entries[client];
      Answer(cfg.identityOf(e.account, e.org), e.account, e.org, None)
    else if client in cfg.entries && cfg.entries[client].error != "" then
      Answer("", "", "", Some(cfg.entries[client].error))
    else Answer(cfg.identityOf(cfg.defaultAccount, cfg.defaultOrg), cfg.defaultAccount, cfg.defaultOrg, None)
  }

  /** Each listed client gets its own tenant or its own error, and the default goes to the
      clients that are not listed or listed with neither. */
  lemma WhoGetsWhichTenant(cfg: ResolverConfig, c: ClientId)
    ensures var a := ConfiguredAnswer(cfg, c);
            var listed := c in cfg.entries;
            && (a.error.Some? <==> listed && cfg.entries[c].error != "" && cfg.entries[c].org == "")
            && (a.error.Some? ==> a.error.value == cfg.entries[c].error)
            && (listed && cfg.entries[c].org != "" ==>
                  a.account == cfg.entries[c].account && a.org == cfg.entries[c].org)
            && (!listed || (cfg.entries[c].org == "" && cfg.entries[c].error == "") ==>
                  a.account == cfg.defaultAccount && a.org == cfg.defaultOrg)
            && (a.error.None? ==> a.identity == cfg.identityOf(a.account, a.org))
  {
  }

  /** No client gets the organization of another one's entry, unless it is its own or the default. */
  lemma NoForeignTenant(cfg: ResolverConfig, c: ClientId)
    ensures var a := ConfiguredAnswer(cfg, c);
            a.error.None? && (a.account, a.org) != (cfg.defaultAccount, cfg.defaultOrg) ==>
              c in cfg.entries && (a.account, a.org) == (cfg.entries[c].account, cfg.entries[c].org) && a.org != ""
  {
  }

  lemma {:induction false} LongerThanAll(clients: set<ClientId>) returns (n: nat)
    ensures forall c :: c in clients ==> |c| < n
  {
    n := 0;
    if clients != {} {
      var c :| c in clients;
      n := LongerThanAll(clients - {c});
      n := if |c| < n then n else |c| + 1;
    }
  }

  /** A failure carries nothing but its error; a success names an organization for every
      client exactly when the default organization is set. */
  lemma ConfiguredContract(cfg: ResolverConfig)
    ensures forall c :: ConfiguredAnswer(cfg, c).error.Some? ==>
                          ConfiguredAnswer(cfg, c) == Answer("", "", "", ConfiguredAnswer(cfg, c).error)
    ensures (forall c :: ConfiguredAnswer(cfg, c).error.None? ==> ConfiguredAnswer(cfg, c).org != "")
            <==> cfg.defaultOrg != ""
  {
    var n := LongerThanAll(cfg.entries.Keys);
    var unknown := seq(n, i => 'x');
    assert unknown !in cfg.entries;
    assert ConfiguredAnswer(cfg, unknown).error.None? && ConfiguredAnswer(cfg, unknown).org == cfg.defaultOrg;
  }

  // ----- The cached resolver -----

  /** A cached result, and when it was cached. */
  datatype Cached = Cached(answer: Answer, time: int)

  datatype BaseCall = BaseCall(client: ClientId, time: int, answer: Answer)

  datatype Reply = Reply(client: ClientId, time: int, answer: Answer, hit: bool)

  /** The times to live, and the wrapped resolver: its answer for a client at a time. */
  datatype Setup = Setup(cacheTTL: nat, errorTTL: int, base: (ClientId, int) -> Answer)

  /** The LRU's entries, the two metrics, the clock, and what has happened so far. */
  datatype Cache = Cache(
    entries: map<ClientId, Cached>,
    hits: nat,
    misses: nat,
    now: int,
    calls: seq<BaseCall>,
    replies: seq<Reply>)

  const EMPTY := Cache(map[], 0, 0, 0, [], [])

  /** What an entry answers at a time, if it may: the LRU drops it after its time to live. */
  function FromEntry(setup: Setup, e: Cached, now: int): Option<Answer> {
    if now > e.time + setup.cacheTTL then None
    else if e.answer.error.None? then Some(e.answer)
    else if now - e.time < setup.errorTTL then Some(Answer("", "", "", e.answer.error))
    else None
  }

  function FromCache(setup: Setup, cache: Cache, client: ClientId, now: int): Option<Answer> {
    if client in cache.entries then FromEntry(setup, cache.entries[client], now) else None
  }

  /** A call for a client some time after the previous event; adding its result may push
      other entries out. Expired entries may also be swept at any time. */
  datatype Request = Ask(client: ClientId, delay: nat, evicted: set<ClientId>) | Sweep(clients: set<ClientId>)

  function Serve(setup: Setup, cache: Cache, req: Request): Cache {
    match req
    case Sweep(clients) => cache.(entries := cache.entries - clients)
    case Ask(client, delay, evicted) =>
      var now := cache.now + delay;
      var served := FromCache(setup, cache, client, now);
      if served.Some? then
        cache.(now := now, hits := cache.hits + 1,
        replies := cache.replies + [Reply(client, now, served.value, true)])
      else
        var answer := setup.base(client, now);
        cache.(now := now, misses := cache.misses + 1,
        entries := (cache.entries - evicted)[client := Cached(answer, now)],
        calls := cache.calls + [BaseCall(client, now, answer)],
        replies := cache.replies + [Reply(client, now, answer, false)])
  }

  function ServeAll(setup: Setup, reqs: seq<Request>): Cache {
    if reqs == [] then EMPTY else Serve(setup, ServeAll(setup, reqs[..|reqs| - 1]), reqs[|reqs| - 1])
  }

  /** The answer of an earlier call that a hit may repeat: a success at most `cacheTTL`
      old, or an error younger than `errorTTL` and at most `cacheTTL` old. */
  predicate Repeats(setup: Setup, r: Reply, call: BaseCall) {
    && call.client == r.client
    && 0 <= r.time - call.time <= setup.cacheTTL
    && if call.answer.error.None? then r.answer == call.answer
       else r.answer == Answer("", "", "", call.answer.error) && r.time - call.time < setup.errorTTL
  }

  ghost predicate Explained(setup: Setup, calls: seq<BaseCall>, r: Reply) {
    r.hit ==> exists k :: 0 <= k < |calls| && Repeats(setup, r, calls[k])
  }

  /** Entries are results of base calls, calls are answered by the base, the metrics add
      up, and every hit repeats a recent enough call. */
  ghost predicate Sound(setup: Setup, cache: Cache) {
    && cache.misses == |cache.calls|
    && cache.hits + cache.misses == |cache.replies|
    && (forall c :: c in cache.entries ==>
          BaseCall(c, cache.entries[c].time, cache.entries[c].answer) in cache.calls)
    && (forall k :: 0 <= k < |cache.calls| ==>
          cache.calls[k].time <= cache.now
          && cache.calls[k].answer == setup.base(cache.calls[k].client, cache.calls[k].time))
    && (forall i :: 0 <= i < |cache.replies| ==> Explained(setup, cache.calls, cache.replies[i]))
  }

  lemma MoreCallsExplain(setup: Setup, calls: seq<BaseCall>, call: BaseCall, r: Reply)
    requires Explained(setup, calls, r)
    ensures Explained(setup, calls + [call], r)
  {
    if r.hit {
      var k :| 0 <= k < |calls| && Repeats(setup, r, calls[k]);
      assert (calls + [call])[k] == calls[k];
    }
  }

  lemma ServeKeepsSound(setup: Setup, cache: Cache, req: Request)
    requires Sound(setup, cache)
    ensures Sound(setup, Serve(setup, cache, req))
  {
    var after := Serve(setup, cache, req);
    if req.Ask? {
      var served := FromCache(setup, cache, req.client, after.now);
      if served.Some? {
        var e := cache.entries[req.client];
        var call := BaseCall(req.client, e.time, e.answer);
        var k :| 0 <= k < |cache.calls| && cache.calls[k] == call;
        assert Repeats(setup, Reply(req.client, after.now, served.value, true), cache.calls[k]);
      } else {
        forall i | 0 <= i < |cache.replies| ensures Explained(setup, after.calls, cache.replies[i]) {
          MoreCallsExplain(setup, cache.calls, after.calls[|cache.calls|], cache.replies[i]);
        }
        assert after.calls[|cache.calls|] in after.calls;
      }
    }
  }

  /** Bounded staleness and accounting, over all sequences of calls and evictions. */
  lemma {:induction false} ServeAllIsSound(setup: Setup, reqs: seq<Request>)
    ensures Sound(setup, ServeAll(setup, reqs))
  {
    if reqs != [] {
      ServeAllIsSound(setup, reqs[..|reqs| - 1]);
      ServeKeepsSound(setup, ServeAll(setup, reqs[..|reqs| - 1]), reqs[|reqs| - 1]);
    }
  }

  /** A cached resolver cannot be told from its base by a call over whose preceding
      `cacheTTL` the base's answer for the client has not changed, if the base returns
      nothing but the error on failure. */
  lemma CacheIsTransparent(setup: Setup, reqs: seq<Request>, client: ClientId, delay: nat, evicted: set<ClientId>)
    requires var now := ServeAll(setup, reqs).now + delay;
             && (forall t :: now - setup.cacheTTL <= t <= now ==> setup.base(client, t) == setup.base(client, now))
             && (setup.base(client, now).error.Some? ==>
                   setup.base(client, now) == Answer("", "", "", setup.base(client, now).error))
    ensures var after := Serve(setup, ServeAll(setup, reqs), Ask(client, delay, evicted));
            after.replies[|after.replies| - 1].answer == setup.base(client, after.now)
  {
    ServeAllIsSound(setup, reqs);
    var cache := ServeAll(setup, reqs);
    var served := FromCache(setup, cache, client, cache.now + delay);
    if served.Some? {
      var e := cache.entries[client];
      var k :| 0 <= k < |cache.calls| && cache.calls[k] == BaseCall(client, e.time, e.answer);
    }
  }

  // ----- How often the base is called -----

  /** How long after a call the next one for its client may come. */
  predicate Spaced(setup: Setup, call: BaseCall, time: int) {
    if call.answer.error.None? then time - call.time > setup.cacheTTL
    else time - call.time >= (if setup.errorTTL < setup.cacheTTL then setup.errorTTL else setup.cacheTTL)
  }

  /** No eviction or sweep concerns the client. */
  predicate Spares(req: Request, client: ClientId) {
    match req case Ask(_, _, evicted) => client !in evicted case Sweep(clients) => client !in clients
  }

  /** The last call for the client is the one in the cache. */
  ghost predicate LastCallIsCached(setup: Setup, cache: Cache, client: ClientId) {
    && (forall k :: 0 <= k < |cache.calls| && cache.calls[k].client == client ==>
          && client in cache.entries
          && (Spaced(setup, cache.calls[k], cache.entries[client].time)
              || (cache.calls[k].time == cache.entries[client].time
                  && cache.calls[k].answer == cache.entries[client].answer)))
    && (client in cache.entries ==> cache.entries[client].time <= cache.now)
  }

  lemma ServeKeepsSpacing(setup: Setup, cache: Cache, req: Request, client: ClientId)
    requires LastCallIsCached(setup, cache, client) && Spares(req, client)
    requires forall i, j :: 0 <= i < j < |cache.calls| && cache.calls[i].client == client == cache.calls[j].client ==>
                              Spaced(setup, cache.calls[i], cache.calls[j].time)
    ensures var after := Serve(setup, cache, req);
            && LastCallIsCached(setup, after, client)
            && forall i, j :: 0 <= i < j < |after.calls| && after.calls[i].client == client == after.calls[j].client ==>
                                Spaced(setup, after.calls[i], after.calls[j].time)
  {
    var after := Serve(setup, cache, req);
    if req.Ask? && req.client == client && FromCache(setup, cache, client, after.now).None? {
      forall i | 0 <= i < |cache.calls| && cache.calls[i].client == client
        ensures Spaced(setup, cache.calls[i], after.now)
      {
      }
    }
  }

  /** Without evictions of a client, two calls of the base for it are more than `cacheTTL`
      apart after a success, and at least the smaller of the two times after an error. */
  lemma {:induction false} BaseCallsAreSpaced(setup: Setup, reqs: seq<Request>, client: ClientId)
    requires forall i :: 0 <= i < |reqs| ==> Spares(reqs[i], client)
    ensures var cache := ServeAll(setup, reqs);
            && LastCallIsCached(setup, cache, client)
            && forall i, j :: 0 <= i < j < |cache.calls| && cache.calls[i].client == client == cache.calls[j].client ==>
                                Spaced(setup, cache.calls[i], cache.calls[j].time)
  {
    if reqs != [] {
      BaseCallsAreSpaced(setup, reqs[..|reqs| - 1], client);
      ServeKeepsSpacing(setup, ServeAll(setup, reqs[..|reqs| - 1]), reqs[|reqs| - 1], client);
    }
  }

  // ----- The resolver itself -----

  class ExpirableCachedAccountIdResolver {
    const setup: Setup
    var cache: map<ClientId, Cached>
    var hits: nat
    var misses: nat
    var clock: int
    ghost var calls: seq<BaseCall>
    ghost var replies: seq<Reply>

    ghost function State(): Cache
      reads this
    {
      Cache(cache, hits, misses, clock, calls, replies)
    }

    constructor (setup: Setup)
      ensures this.setup == setup && State() == EMPTY
    {
      this.setup := setup;
      cache := map[];
      hits, misses, clock := 0, 0, 0;
      calls, replies := [], [];
    }

    method MapClientIdToAccountId(client: ClientId, delay: nat, evicted: set<ClientId>) returns (answer: Answer)
      modifies this
      ensures State() == Serve(setup, old(State()), Ask(client, delay, evicted))
      ensures |replies| == |old(replies)| + 1 && replies[|old(replies)|].answer == answer
    {
      clock := clock + delay;
      if client in cache && clock <= cache[client].time + setup.cacheTTL {
        var result := cache[client];
        if result.answer.error.None? {
          hits := hits + 1;
          replies := replies + [Reply(client, clock, result.answer, true)];
          return result.answer;
        }
        if clock - result.time < setup.errorTTL {
          hits := hits + 1;
          answer := Answer("", "", "", result.answer.error);
          replies := replies + [Reply(client, clock, answer, true)];
          return answer;
        }
      }
      misses := misses + 1;
      answer := setup.base(client, clock);
      cache := (cache - evicted)[client := Cached(answer, clock)];
      calls := calls + [BaseCall(client, clock, answer)];
      replies := replies + [Reply(client, clock, answer, false)];
    }
  }
}
