/** The bookkeeping of `getFeatures`, `freeResources` and the auto-refresh
    timer, as a sequential state machine. The asynchronous adapter interleaves
    requests and fetch completions; here each of those is an explicit event
    carrying the clock reading at which it happens. A request either is served
    from a fresh cache entry, joins the fetch already in flight for its key, or
    starts the one fetch for that key. A fetch completion answers everyone who
    waited on it, clears the in-flight entry and, on success, may fill the
    cache. */
module CacheCoordinator {
  import opened Options
  import opened JsonValue
  import opened AlignmentParser
  import opened CacheView

  /** A caller waiting for features: its request id and its own region. */
  datatype Waiter = Waiter(id: nat, region: Region)

  /** The fetch in flight for one key: the region it was started for and every
      caller waiting on it, the starter first. */
  datatype Pending = Pending(origin: Region, waiters: seq<Waiter>)

  /** The adapter's mutable state, as a value. */
  datatype Adapter = Adapter(
    config: AdapterConfig,
    cache: map<string, CacheEntry>,
    inFlight: map<string, Pending>,
    timerArmed: bool)

  /** What the network returned: a decoded body, or any failure (no URL,
      a bad status, an undecodable body, an abort). */
  datatype FetchOutcome = Fetched(body: Json) | FetchFailed

  /** The inputs of the machine. */
  datatype Event =
    | Request(id: nat, region: Region, now: int)
    | FetchDone(key: string, outcome: FetchOutcome, now: int)
    | RefreshTick
    | Free(released: Option<Region>)

  /** What a caller's observer receives: its features, then completion; or
      an error. */
  datatype Reply = Served(id: nat, features: seq<Feature>) | Failed(id: nat)

  /** A fetch the machine asks the network to perform. */
  datatype FetchStart = FetchStart(key: string, region: Region)

  /** A transition: the next state, the replies sent and the fetches started. */
  datatype Outcome = Outcome(next: Adapter, replies: seq<Reply>, fetches: seq<FetchStart>)

  /** The constructor: empty tables, and the timer armed only for a positive
      refresh interval. */
  function Init(config: AdapterConfig): (a: Adapter)
    ensures a.cache == map[] && a.inFlight == map[]
    ensures a.timerArmed <==> config.refreshInterval > 0
  {
    Adapter(config, map[], map[], config.refreshInterval > 0)
  }

  /** The key a region is cached and deduplicated under in this adapter. */
  function KeyOf(a: Adapter, region: Region): string {
    CacheKey(a.config.clientSideFilter, region)
  }

  /** A cache hit: an entry under the key that is still fresh at `now`. */
  predicate Hit(a: Adapter, key: string, now: int) {
    key in a.cache && Fresh(a.config.cacheTimeout, a.cache[key], now)
  }

  /** `getFeatures` up to its first await. */
  function OnRequest(a: Adapter, id: nat, region: Region, now: int): (r: Outcome)
    ensures r.next.config == a.config && r.next.cache == a.cache && r.next.timerArmed == a.timerArmed
    ensures Hit(a, KeyOf(a, region), now) ==>
      && r.next == a && r.fetches == []
      && r.replies == [Served(id, View(a.config.clientSideFilter, a.cache[KeyOf(a, region)].features, region))]
    ensures !Hit(a, KeyOf(a, region), now) ==>
      var key := KeyOf(a, region);
      && r.replies == []
      && key in r.next.inFlight
      && r.next.inFlight - {key} == a.inFlight - {key}
      && r.next.inFlight[key].waiters
         == (if key in a.inFlight then a.inFlight[key].waiters else []) + [Waiter(id, region)]
      && (key in a.inFlight ==> r.next.inFlight[key].origin == a.inFlight[key].origin && r.fetches == [])
      && (key !in a.inFlight ==> r.next.inFlight[key].origin == region && r.fetches == [FetchStart(key, region)])
  {
    var key := KeyOf(a, region);
    if Hit(a, key, now) then
      Outcome(a, [Served(id, View(a.config.clientSideFilter, a.cache[key].features, region))], [])
    else if key in a.inFlight then
      var p := a.inFlight[key];
      Outcome(a.(inFlight := a.inFlight[key := Pending(p.origin, p.waiters + [Waiter(id, region)])]), [], [])
    else
      Outcome(a.(inFlight := a.inFlight[key := Pending(region, [Waiter(id, region)])]), [], [FetchStart(key, region)])
  }

  /** The replies to every waiter once the shared fetch produced `fs`: each
      waiter, in arrival order, is served its own view of the same list, that
      is the features overlapping its own region under client-side filtering
      and the whole list otherwise. */
  function Deliver(csf: bool, fs: seq<Feature>, ws: seq<Waiter>): (rs: seq<Reply>)
    ensures |rs| == |ws|
    ensures forall i :: 0 <= i < |ws| ==>
      rs[i].Served? && rs[i].id == ws[i].id && rs[i].features == View(csf, fs, ws[i].region)
    ensures forall i, f :: 0 <= i < |ws| ==>
      (f in rs[i].features <==> f in fs && (csf ==> Overlaps(f, ws[i].region)))
  {
    ViewMembership(csf, fs);
    seq(|ws|, i requires 0 <= i < |ws| => Served(ws[i].id, View(csf, fs, ws[i].region)))
  }

  /** The replies to every waiter when the shared fetch failed. */
  function FailAll(ws: seq<Waiter>): (rs: seq<Reply>)
    ensures |rs| == |ws|
    ensures forall i :: 0 <= i < |ws| ==> rs[i] == Failed(ws[i].id)
  {
    seq(|ws|, i requires 0 <= i < |ws| => Failed(ws[i].id))
  }

  /** The features a successful fetch yields: the body parsed for the region
      the fetch was started for. */
  function FetchedFeatures(a: Adapter, p: Pending, body: Json): seq<Feature> {
    ParseAlignments(body, p.origin, a.config.mapping, a.config.assemblyNames)
  }

  /** `getFeatures` after its await: the in-flight entry goes in every case;
      the cache is written only on success and only for a positive timeout;
      every waiter is answered, in arrival order. */
  function OnFetchDone(a: Adapter, key: string, outcome: FetchOutcome, now: int): (r: Outcome)
    ensures r.next.config == a.config && r.next.timerArmed == a.timerArmed && r.fetches == []
    ensures r.next.inFlight == a.inFlight - {key}
    ensures key !in a.inFlight ==> r.next == a && r.replies == []
    ensures key in a.inFlight && outcome.FetchFailed? ==>
      r.next.cache == a.cache && r.replies == FailAll(a.inFlight[key].waiters)
    ensures key in a.inFlight && outcome.Fetched? ==>
      var fs := FetchedFeatures(a, a.inFlight[key], outcome.body);
      && r.replies == Deliver(a.config.clientSideFilter, fs, a.inFlight[key].waiters)
      && r.next.cache == (if a.config.cacheTimeout > 0 then a.cache[key := CacheEntry(fs, now)] else a.cache)
  {
    if key !in a.inFlight then Outcome(a, [], [])
    else
      var p := a.inFlight[key];
      var rest := a.inFlight - {key};
      match outcome
      case FetchFailed => Outcome(a.(inFlight := rest), FailAll(p.waiters), [])
      case Fetched(body) =>
        var fs := FetchedFeatures(a, p, body);
        var cache := if a.config.cacheTimeout > 0 then a.cache[key := CacheEntry(fs, now)] else a.cache;
        Outcome(Adapter(a.config, cache, rest, a.timerArmed),
                Deliver(a.config.clientSideFilter, fs, p.waiters), [])
  }

  /** The `setInterval` callback: it runs only while the timer is armed, and
      then empties the cache (fetches in flight are untouched). */
  function OnRefreshTick(a: Adapter): (r: Adapter)
    ensures r.config == a.config && r.inFlight == a.inFlight && r.timerArmed == a.timerArmed
    ensures a.timerArmed ==> r.cache == map[]
    ensures !a.timerArmed ==> r == a
  {
    if a.timerArmed then a.(cache := map[]) else a
  }

  /** `freeResources`: drop one region's entry, or the whole cache, and disarm
      the timer either way. Fetches in flight are not cancelled. */
  function OnFree(a: Adapter, region: Option<Region>): (r: Adapter)
    ensures r.config == a.config && r.inFlight == a.inFlight && !r.timerArmed
    ensures region.Some? ==> r.cache == a.cache - {KeyOf(a, region.value)}
    ensures region.None? ==> r.cache == map[]
  {
    var cache := if region.Some? then a.cache - {KeyOf(a, region.value)} else map[];
    Adapter(a.config, cache, a.inFlight, false)
  }

  /** One event. */
  function Step(a: Adapter, e: Event): (r: Outcome)
    ensures r.next.config == a.config
    ensures |r.fetches| <= 1
  {
    match e
    case Request(id, region, now) => OnRequest(a, id, region, now)
    case FetchDone(key, outcome, now) => OnFetchDone(a, key, outcome, now)
    case RefreshTick => Outcome(OnRefreshTick(a), [], [])
    case Free(released) => Outcome(OnFree(a, released), [], [])
  }

  /** A sequence of events, with all replies and fetch starts in order. */
  function Run(a: Adapter, es: seq<Event>): (r: Outcome)
    ensures r.next.config == a.config
    decreases |es|
  {
    if |es| == 0 then Outcome(a, [], [])
    else
      var s := Step(a, es[0]);
      var t := Run(s.next, es[1..]);
      Outcome(t.next, s.replies + t.replies, s.fetches + t.fetches)
  }

  /** How many of the fetch starts are for `key`. */
  function Starts(fs: seq<FetchStart>, key: string): nat {
    if |fs| == 0 then 0
    else (if fs[0].key == key then 1 else 0) + Starts(fs[1..], key)
  }

  lemma {:induction false} StartsAppend(fs: seq<FetchStart>, gs: seq<FetchStart>, key: string)
    ensures Starts(fs + gs, key) == Starts(fs, key) + Starts(gs, key)
  {
    if |fs| == 0 {
      assert fs + gs == gs;
    } else {
      assert (fs + gs)[0] == fs[0];
      assert (fs + gs)[1..] == fs[1..] + gs;
      StartsAppend(fs[1..], gs, key);
    }
  }

  function Indicator(b: bool): nat {
    if b then 1 else 0
  }

  /** Apart from its own completion, no event removes a key from the in-flight
      table, and a fetch for the key starts exactly when the key enters it. */
  lemma StepStarts(a: Adapter, e: Event, key: string)
    requires !(e.FetchDone? && e.key == key)
    ensures key in a.inFlight ==> key in Step(a, e).next.inFlight
    ensures Starts(Step(a, e).fetches, key)
            == Indicator(key in Step(a, e).next.inFlight) - Indicator(key in a.inFlight)
  {
    var r := Step(a, e);
    if e.Request? && !Hit(a, KeyOf(a, e.region), e.now) && KeyOf(a, e.region) !in a.inFlight {
      assert r.fetches == [FetchStart(KeyOf(a, e.region), e.region)];
      assert Starts(r.fetches, key) == Indicator(KeyOf(a, e.region) == key) + Starts([], key);
      if KeyOf(a, e.region) != key {
        assert key in r.next.inFlight <==> key in a.inFlight;
      }
    } else {
      assert r.fetches == [];
    }
  }

  /** Deduplication over any run: while the fetch for `key` has not completed,
      at most one fetch for it is started, none if one was already in flight,
      and the one started is still in flight at the end. */
  lemma {:induction false} RunStarts(a: Adapter, es: seq<Event>, key: string)
    requires forall i :: 0 <= i < |es| ==> !(es[i].FetchDone? && es[i].key == key)
    ensures key in a.inFlight ==> key in Run(a, es).next.inFlight
    ensures Starts(Run(a, es).fetches, key)
            == Indicator(key in Run(a, es).next.inFlight) - Indicator(key in a.inFlight)
    decreases |es|
  {
    if |es| > 0 {
      var s := Step(a, es[0]);
      StepStarts(a, es[0], key);
      assert forall i :: 0 <= i < |es[1..]| ==> es[1..][i] == es[i + 1];
      RunStarts(s.next, es[1..], key);
      StartsAppend(s.fetches, Run(s.next, es[1..]).fetches, key);
    }
  }

  /** The dedup guarantee in its plain form. */
  lemma AtMostOneFetchPerKey(a: Adapter, es: seq<Event>, key: string)
    requires forall i :: 0 <= i < |es| ==> !(es[i].FetchDone? && es[i].key == key)
    ensures Starts(Run(a, es).fetches, key) <= 1
    ensures key in a.inFlight ==> Starts(Run(a, es).fetches, key) == 0
  {
    RunStarts(a, es, key);
  }

  /** Everything waiting on a key's fetch is a caller whose region maps to that
      key, the starter first. */
  predicate PendingOk(a: Adapter, key: string, p: Pending) {
    && |p.waiters| > 0
    && p.waiters[0].region == p.origin
    && KeyOf(a, p.origin) == key
    && forall i :: 0 <= i < |p.waiters| ==> KeyOf(a, p.waiters[i].region) == key
  }

  /** Every cached list holds only well formed features. */
  predicate CacheWellFormed(cache: map<string, CacheEntry>) {
    forall key :: key in cache ==> AllWellFormed(cache[key].features)
  }

  /** The state invariant: in-flight entries are well formed, cached lists
      hold only well formed features, nothing is cached unless caching is on,
      and the timer is armed only for a positive interval. */
  predicate Inv(a: Adapter) {
    && (forall key :: key in a.inFlight ==> PendingOk(a, key, a.inFlight[key]))
    && CacheWellFormed(a.cache)
    && (a.cache != map[] ==> a.config.cacheTimeout > 0)
    && (a.timerArmed ==> a.config.refreshInterval > 0)
  }

  lemma InitInv(config: AdapterConfig)
    ensures Inv(Init(config))
  {
  }

  /** Entries other than `key` are untouched, so they stay well formed. */
  lemma OthersKeepPendingOk(a: Adapter, b: Adapter, key: string)
    requires Inv(a) && b.config == a.config
    requires b.inFlight - {key} == a.inFlight - {key}
    ensures forall k :: k in b.inFlight && k != key ==> PendingOk(b, k, b.inFlight[k])
  {
    forall k | k in b.inFlight && k != key
      ensures PendingOk(b, k, b.inFlight[k])
    {
      assert k in (b.inFlight - {key}).Keys;
      assert k in a.inFlight && b.inFlight[k] == a.inFlight[k];
    }
  }

  lemma RequestKeepsInv(a: Adapter, id: nat, region: Region, now: int)
    requires Inv(a)
    ensures Inv(OnRequest(a, id, region, now).next)
  {
    var r := OnRequest(a, id, region, now);
    var key := KeyOf(a, region);
    if !Hit(a, key, now) {
      OthersKeepPendingOk(a, r.next, key);
      var p := r.next.inFlight[key];
      if key in a.inFlight {
        var q := a.inFlight[key];
        assert PendingOk(a, key, q);
        assert p.waiters == q.waiters + [Waiter(id, region)];
        assert forall i :: 0 <= i < |q.waiters| ==> p.waiters[i] == q.waiters[i];
      }
      assert PendingOk(r.next, key, p);
    }
  }

  /** A cache written with well formed features at one key stays well formed. */
  lemma CacheWriteKeepsWellFormed(cache: map<string, CacheEntry>, key: string, e: CacheEntry)
    requires CacheWellFormed(cache) && AllWellFormed(e.features)
    ensures CacheWellFormed(cache[key := e])
  {
  }

  lemma FetchDoneKeepsInv(a: Adapter, key: string, outcome: FetchOutcome, now: int)
    requires Inv(a)
    ensures Inv(OnFetchDone(a, key, outcome, now).next)
  {
    var r := OnFetchDone(a, key, outcome, now);
    OthersKeepPendingOk(a, r.next, key);
    if key in a.inFlight && outcome.Fetched? && a.config.cacheTimeout > 0 {
      var fs := FetchedFeatures(a, a.inFlight[key], outcome.body);
      assert AllWellFormed(fs);
      CacheWriteKeepsWellFormed(a.cache, key, CacheEntry(fs, now));
    }
  }

  /** Every transition keeps the invariant. */
  lemma StepKeepsInv(a: Adapter, e: Event)
    requires Inv(a)
    ensures Inv(Step(a, e).next)
  {
    match e
    case Request(id, region, now) => RequestKeepsInv(a, id, region, now);
    case FetchDone(key, outcome, now) => FetchDoneKeepsInv(a, key, outcome, now);
    case RefreshTick =>
    case Free(released) =>
  }

  /** Under the invariant every reply carries only well formed features. */
  lemma StepRepliesWellFormed(a: Adapter, e: Event)
    requires Inv(a)
    ensures forall i :: 0 <= i < |Step(a, e).replies| && Step(a, e).replies[i].Served? ==>
      AllWellFormed(Step(a, e).replies[i].features)
  {
    var r := Step(a, e);
    if e.Request? && Hit(a, KeyOf(a, e.region), e.now) {
      ViewWellFormed(a.config.clientSideFilter, a.cache[KeyOf(a, e.region)].features, e.region);
    } else if e.FetchDone? && e.key in a.inFlight && e.outcome.Fetched? {
      var p := a.inFlight[e.key];
      var fs := FetchedFeatures(a, p, e.outcome.body);
      forall i | 0 <= i < |r.replies|
        ensures AllWellFormed(r.replies[i].features)
      {
        ViewWellFormed(a.config.clientSideFilter, fs, p.waiters[i].region);
      }
    }
  }

  /** With caching off (a timeout of zero or less) no request is ever served
      from the cache: every request waits for a fetch. */
  lemma NoCacheWithoutTimeout(a: Adapter, id: nat, region: Region, now: int)
    requires Inv(a) && a.config.cacheTimeout <= 0
    ensures OnRequest(a, id, region, now).replies == []
  {
  }

  /** Freshness over time, for any positive timeout: once a fetch for `key`
      completes at `t` and fills the cache, a request for the same key at `now`
      is answered from the cache with the fetched features (in its own view)
      exactly while `now < t + cacheTimeout`; from then on it starts a new
      fetch and waits. */
  lemma ExpiryRule(a: Adapter, key: string, body: Json, t: int, id: nat, region: Region, now: int)
    requires a.config.cacheTimeout > 0 && key in a.inFlight && KeyOf(a, region) == key
    ensures
      var b := OnFetchDone(a, key, Fetched(body), t).next;
      var r := OnRequest(b, id, region, now);
      var fs := FetchedFeatures(a, a.inFlight[key], body);
      if now < t + a.config.cacheTimeout then
        r.replies == [Served(id, View(a.config.clientSideFilter, fs, region))] && r.fetches == []
      else
        r.replies == [] && r.fetches == [FetchStart(key, region)]
  {
  }

  /** Freshness over time: an entry stored at `t` with a timeout of 1000 ms is
      served at `t + 999` and refetched at `t + 1000`. */
  lemma ExpiryExample(a: Adapter, region: Region, t: int)
    requires a.config.cacheTimeout == 1000 && region.refName == "chr1"
    requires a.config.clientSideFilter == false
    requires a.inFlight == map[]
    requires a.cache == map[KeyOf(a, region) := CacheEntry([], t)]
    ensures OnRequest(a, 1, region, t + 999).replies == [Served(1, [])]
    ensures OnRequest(a, 2, region, t + 1000).fetches == [FetchStart(KeyOf(a, region), region)]
  {
  }

  /** A refresh tick while a fetch is in flight does not stop that fetch from
      filling the cache when it completes. */
  lemma TickThenFetchStillCaches(a: Adapter, key: string, body: Json, now: int)
    requires key in a.inFlight && a.config.cacheTimeout > 0
    ensures
      var b := OnRefreshTick(a);
      key in OnFetchDone(b, key, Fetched(body), now).next.cache
  {
  }

  /** Releasing resources does not cancel a fetch: it still completes, answers
      its waiters and fills the cache. */
  lemma FreeThenFetchStillCaches(a: Adapter, region: Option<Region>, key: string, body: Json, now: int)
    requires key in a.inFlight && a.config.cacheTimeout > 0
    ensures
      var b := OnFree(a, region);
      && key in OnFetchDone(b, key, Fetched(body), now).next.cache
      && |OnFetchDone(b, key, Fetched(body), now).replies| == |a.inFlight[key].waiters|
  {
  }
}
