/** What the decorator's reads and writes do to the cache, stated per
    operation and across sequences of operations. */
module CacheLaws {
  import opened Wrappers
  import opened Text
  import opened MovieEntity
  import opened SearchCriteria
  import opened MongoMovieRepository
  import opened CacheKeys
  import opened CachedMovieRepository

  /** A list read that succeeded is a hit the next time, with the same value. */
  lemma ReadManyAgain(cache: Cache, store: Store, key: string, ttl: int, inner: Result<seq<Movie>, RepoError>)
    ensures var r := ReadMany(cache, store, key, ttl, inner);
            r.result.Success? ==> var r2 := ReadMany(r.cache, r.store, key, ttl, inner);
                                  !r2.consulted && r2.result == r.result && r2.cache == r.cache
  {
  }

  lemma ReadOneAgain(cache: Cache, store: Store, key: string, ttl: int, inner: Result<Option<Movie>, RepoError>)
    ensures var r := ReadOne(cache, store, key, ttl, inner);
            r.result.Success? && r.result.value.Some? ==>
              var r2 := ReadOne(r.cache, r.store, key, ttl, inner);
              !r2.consulted && r2.result == r.result && r2.cache == r.cache
  {
  }

  /** A read that succeeded from the store is answered from the cache the next
      time, with the same value, when nothing is written in between. A by-id
      read is cached only when it found a movie. */
  lemma RepeatedReadIsHit(cfg: CacheConfig, cache: Cache, store: Store, id: string, c: Criteria,
                          limit: int, currentYear: int)
    ensures var r := CachedGetAll(cfg, cache, store, currentYear);
            r.result.Success? ==> var r2 := CachedGetAll(cfg, r.cache, r.store, currentYear);
                                  !r2.consulted && r2.result == r.result && r2.cache == r.cache
    ensures var r := CachedSearch(cfg, cache, store, c, currentYear);
            r.result.Success? ==> var r2 := CachedSearch(cfg, r.cache, r.store, c, currentYear);
                                  !r2.consulted && r2.result == r.result && r2.cache == r.cache
    ensures var r := CachedGetPopular(cfg, cache, store, limit, currentYear);
            r.result.Success? ==> var r2 := CachedGetPopular(cfg, r.cache, r.store, limit, currentYear);
                                  !r2.consulted && r2.result == r.result && r2.cache == r.cache
    ensures var r := CachedGetRecommendations(cfg, cache, store, limit, currentYear);
            r.result.Success? ==> var r2 := CachedGetRecommendations(cfg, r.cache, r.store, limit, currentYear);
                                  !r2.consulted && r2.result == r.result && r2.cache == r.cache
    ensures var r := CachedGetById(cfg, cache, store, id, currentYear);
            r.result.Success? && r.result.value.Some? ==>
              var r2 := CachedGetById(cfg, r.cache, r.store, id, currentYear);
              !r2.consulted && r2.result == r.result && r2.cache == r.cache
  {
    ReadManyAgain(cache, store, AllEntryKey(cfg), cfg.popularTtlMinutes, GetAll(store, currentYear));
    ReadManyAgain(cache, store, SearchEntryKey(cfg, c), cfg.popularTtlMinutes, Search(store, c, currentYear));
    ReadManyAgain(cache, store, PopularEntryKey(cfg, limit), cfg.popularTtlMinutes,
                  GetPopular(store, limit, currentYear));
    ReadManyAgain(cache, store, RecoEntryKey(cfg, limit), cfg.recommendationsTtlMinutes,
                  GetRecommendations(store, limit, currentYear));
    ReadOneAgain(cache, store, IdEntryKey(cfg, id), cfg.popularTtlMinutes, GetById(store, id, currentYear));
  }

  /** A by-id read that finds nothing in the store leaves the cache as it was,
      so the next identical read asks the store again. */
  lemma MissingByIdIsNotCached(cfg: CacheConfig, cache: Cache, store: Store, id: string, currentYear: int)
    requires GetById(store, id, currentYear) == Success(None)
    ensures var r := CachedGetById(cfg, cache, store, id, currentYear);
            r.consulted ==> r.cache == cache && r.result == Success(None)
                            && CachedGetById(cfg, r.cache, r.store, id, currentYear).consulted
  {
  }

  /** On a miss that succeeds the new entry carries the TTL of its category:
      recommendations the recommendations TTL, every other read the popular TTL. */
  lemma AllReadTtl(cfg: CacheConfig, cache: Cache, store: Store, currentYear: int)
    ensures var r := CachedGetAll(cfg, cache, store, currentYear);
            r.consulted && r.result.Success? ==>
              AllEntryKey(cfg) in r.cache && r.cache[AllEntryKey(cfg)].ttlMinutes == cfg.popularTtlMinutes
  {
    ReadManyTtl(cache, store, AllEntryKey(cfg), cfg.popularTtlMinutes, GetAll(store, currentYear));
  }

  lemma ByIdReadTtl(cfg: CacheConfig, cache: Cache, store: Store, id: string, currentYear: int)
    ensures var r := CachedGetById(cfg, cache, store, id, currentYear);
            r.consulted && r.result.Success? && r.result.value.Some? ==>
              IdEntryKey(cfg, id) in r.cache && r.cache[IdEntryKey(cfg, id)].ttlMinutes == cfg.popularTtlMinutes
  {
    ReadOneTtl(cache, store, IdEntryKey(cfg, id), cfg.popularTtlMinutes, GetById(store, id, currentYear));
  }

  lemma SearchReadTtl(cfg: CacheConfig, cache: Cache, store: Store, c: Criteria, currentYear: int)
    ensures var r := CachedSearch(cfg, cache, store, c, currentYear);
            r.consulted && r.result.Success? ==>
              SearchEntryKey(cfg, c) in r.cache && r.cache[SearchEntryKey(cfg, c)].ttlMinutes == cfg.popularTtlMinutes
  {
    ReadManyTtl(cache, store, SearchEntryKey(cfg, c), cfg.popularTtlMinutes, Search(store, c, currentYear));
  }

  lemma PopularReadTtl(cfg: CacheConfig, cache: Cache, store: Store, limit: int, currentYear: int)
    ensures var r := CachedGetPopular(cfg, cache, store, limit, currentYear);
            r.consulted && r.result.Success? ==>
              PopularEntryKey(cfg, limit) in r.cache && r.cache[PopularEntryKey(cfg, limit)].ttlMinutes == cfg.popularTtlMinutes
  {
    ReadManyTtl(cache, store, PopularEntryKey(cfg, limit), cfg.popularTtlMinutes,
                GetPopular(store, limit, currentYear));
  }

  lemma RecoReadTtl(cfg: CacheConfig, cache: Cache, store: Store, limit: int, currentYear: int)
    ensures var r := CachedGetRecommendations(cfg, cache, store, limit, currentYear);
            r.consulted && r.result.Success? ==>
              RecoEntryKey(cfg, limit) in r.cache && r.cache[RecoEntryKey(cfg, limit)].ttlMinutes == cfg.recommendationsTtlMinutes
  {
    ReadManyTtl(cache, store, RecoEntryKey(cfg, limit), cfg.recommendationsTtlMinutes,
                GetRecommendations(store, limit, currentYear));
  }

  /** Helper for the TTL lemmas above: what a list read-through writes. */
  lemma ReadManyTtl(cache: Cache, store: Store, key: string, ttl: int, inner: Result<seq<Movie>, RepoError>)
    ensures var r := ReadMany(cache, store, key, ttl, inner);
            r.consulted && r.result.Success? ==> key in r.cache && r.cache[key].ttlMinutes == ttl
  {
  }

  /** Helper for the TTL lemmas above: what the by-id read-through writes. */
  lemma ReadOneTtl(cache: Cache, store: Store, key: string, ttl: int, inner: Result<Option<Movie>, RepoError>)
    ensures var r := ReadOne(cache, store, key, ttl, inner);
            r.consulted && r.result.Success? && r.result.value.Some? ==>
              key in r.cache && r.cache[key].ttlMinutes == ttl
  {
  }

  /** With the default configuration the TTLs are 60 and 120 minutes, so no
      read fails for want of a positive TTL. */
  lemma DefaultTtls()
    ensures DefaultConfig.popularTtlMinutes == 60 && DefaultConfig.recommendationsTtlMinutes == 120
    ensures PositiveTtls(DefaultConfig)
  {
  }

  /** The default instance prefix is "movieapi:", the prefix of the sweep pattern. */
  lemma DefaultInstancePrefix()
    ensures DefaultConfig.instance == "movieapi:"
    ensures SweepPrefix == DefaultConfig.instance + SearchPrefix
  {
  }

  /** A TTL that is not positive cannot be given to a cache entry: a miss whose
      store read succeeds then fails after the store was read, and nothing is
      cached. A hit, or a by-id miss that finds nothing, never needs the TTL. */
  lemma NonPositiveTtlFailsOnMiss(cfg: CacheConfig, cache: Cache, store: Store, id: string, c: Criteria,
                                  limit: int, currentYear: int)
    ensures var r, p := CachedGetAll(cfg, cache, store, currentYear), cfg.popularTtlMinutes;
            r.consulted && p <= 0 && GetAll(store, currentYear).Success? ==>
              r.result == Failure(InvalidTtl(p)) && r.cache == cache
    ensures var r, p := CachedGetById(cfg, cache, store, id, currentYear), cfg.popularTtlMinutes;
            var inner := GetById(store, id, currentYear);
            r.consulted && p <= 0 && inner.Success? && inner.value.Some? ==>
              r.result == Failure(InvalidTtl(p)) && r.cache == cache
    ensures var r, p := CachedSearch(cfg, cache, store, c, currentYear), cfg.popularTtlMinutes;
            r.consulted && p <= 0 && Search(store, c, currentYear).Success? ==>
              r.result == Failure(InvalidTtl(p)) && r.cache == cache
    ensures var r, p := CachedGetPopular(cfg, cache, store, limit, currentYear), cfg.popularTtlMinutes;
            r.consulted && p <= 0 && GetPopular(store, limit, currentYear).Success? ==>
              r.result == Failure(InvalidTtl(p)) && r.cache == cache
    ensures var r, q := CachedGetRecommendations(cfg, cache, store, limit, currentYear), cfg.recommendationsTtlMinutes;
            r.consulted && q <= 0 && GetRecommendations(store, limit, currentYear).Success? ==>
              r.result == Failure(InvalidTtl(q)) && r.cache == cache
  {
  }

  /** Under the default instance prefix the sweep removes exactly the search
      entries: every search key goes, every other entry stays as it was. */
  lemma SweepRemovesExactlySearchEntries(cache: Cache, key: string)
    ensures Physical(DefaultInstance, key) in Sweep(cache) <==>
              Physical(DefaultInstance, key) in cache && !HasPrefix(key, SearchPrefix)
  {
    SweepMatchesSearchKeys(key);
  }

  /** The entries that no write touches under the default instance prefix: the
      all entry, and every popular and recommendation entry. */
  ghost predicate KeepsListEntries(cache: Cache, cache': Cache) {
    var all := AllEntryKey(DefaultConfig);
    && (all in cache ==> all in cache' && cache'[all] == cache[all])
    && (forall limit: int | PopularEntryKey(DefaultConfig, limit) in cache ::
          PopularEntryKey(DefaultConfig, limit) in cache'
          && cache'[PopularEntryKey(DefaultConfig, limit)] == cache[PopularEntryKey(DefaultConfig, limit)])
    && (forall limit: int | RecoEntryKey(DefaultConfig, limit) in cache ::
          RecoEntryKey(DefaultConfig, limit) in cache'
          && cache'[RecoEntryKey(DefaultConfig, limit)] == cache[RecoEntryKey(DefaultConfig, limit)])
  }

  /** A sweep never removes the all, popular or recommendation entries. */
  lemma SweepKeepsListEntries(cache: Cache)
    ensures KeepsListEntries(cache, Sweep(cache))
  {
    KeyKinds("", Criteria(None, None, None, None, None, None, None, None, 0), 0);
    SweepMatchesSearchKeys(AllKey);
    forall limit: int
      ensures !HasPrefix(PopularEntryKey(DefaultConfig, limit), SweepPrefix)
      ensures !HasPrefix(RecoEntryKey(DefaultConfig, limit), SweepPrefix)
    {
      KeyKinds("", Criteria(None, None, None, None, None, None, None, None, 0), limit);
      SweepMatchesSearchKeys(PopularKey(limit));
      SweepMatchesSearchKeys(RecoKey(limit));
    }
  }

  /** Dropping an id entry after the sweep keeps the list entries too. */
  lemma DroppingIdKeepsListEntries(cache: Cache, id: string)
    ensures KeepsListEntries(cache, Sweep(cache) - {IdEntryKey(DefaultConfig, id)})
  {
    SweepKeepsListEntries(cache);
    IdKeyIsNoListKey(id, 0);
    forall limit: int
      ensures IdEntryKey(DefaultConfig, id) != PopularEntryKey(DefaultConfig, limit)
      ensures IdEntryKey(DefaultConfig, id) != RecoEntryKey(DefaultConfig, limit)
    {
      IdKeyIsNoListKey(id, limit);
    }
  }

  /** An id entry is never a list entry. */
  lemma IdKeyIsNoListKey(id: string, limit: int)
    ensures IdEntryKey(DefaultConfig, id) != AllEntryKey(DefaultConfig)
    ensures IdEntryKey(DefaultConfig, id) != PopularEntryKey(DefaultConfig, limit)
    ensures IdEntryKey(DefaultConfig, id) != RecoEntryKey(DefaultConfig, limit)
  {
    KeyKinds(id, Criteria(None, None, None, None, None, None, None, None, 0), limit);
    PhysicalInjective(DefaultInstance, IdKey(id), AllKey);
    PhysicalInjective(DefaultInstance, IdKey(id), PopularKey(limit));
    PhysicalInjective(DefaultInstance, IdKey(id), RecoKey(limit));
  }

  /** Under the default configuration no write touches the all, popular or
      recommendation entries, and every write that reaches the sweep removes
      every search entry. */
  lemma WritesInvalidateOnlySearch(cache: Cache, store: Store, m: Movie, id: string, newId: ObjectIdText,
                                   c: Criteria)
    ensures KeepsListEntries(cache, CachedCreate(cache, store, m, newId).cache)
    ensures KeepsListEntries(cache, CachedUpdate(DefaultConfig, cache, store, m).cache)
    ensures KeepsListEntries(cache, CachedDelete(cache, store, id).cache)
    ensures CachedCreate(cache, store, m, newId).result.Success? ==>
              SearchEntryKey(DefaultConfig, c) !in CachedCreate(cache, store, m, newId).cache
    ensures CachedUpdate(DefaultConfig, cache, store, m).result.Success? ==>
              SearchEntryKey(DefaultConfig, c) !in CachedUpdate(DefaultConfig, cache, store, m).cache
    ensures CachedDelete(cache, store, id).result.Success? ==>
              SearchEntryKey(DefaultConfig, c) !in CachedDelete(cache, store, id).cache
  {
    SweepKeepsListEntries(cache);
    if m.id.Some? {
      DroppingIdKeepsListEntries(cache, m.id.value);
    }
    KeyKinds("", c, 0);
    SweepMatchesSearchKeys(SearchKey(c));
  }

  /** An update that reaches the store also drops the updated id's entry; a
      delete keeps it. */
  lemma UpdateDropsIdDeleteKeepsIt(cfg: CacheConfig, cache: Cache, store: Store, m: Movie, id: string)
    requires cfg.instance == DefaultInstance
    ensures m.id.Some? && CachedUpdate(cfg, cache, store, m).result.Success? ==>
              IdEntryKey(cfg, m.id.value) !in CachedUpdate(cfg, cache, store, m).cache
    ensures IdEntryKey(cfg, id) in cache ==>
              IdEntryKey(cfg, id) in CachedDelete(cache, store, id).cache
              && CachedDelete(cache, store, id).cache[IdEntryKey(cfg, id)] == cache[IdEntryKey(cfg, id)]
  {
    KeyKinds(id, Criteria(None, None, None, None, None, None, None, None, 0), 0);
    SweepMatchesSearchKeys(IdKey(id));
  }

  /** With an instance prefix that differs from the sweep pattern within its
      length, the sweep reaches no search entry: every write leaves the search
      entries in place, and with them stale search results. */
  lemma OtherInstanceKeepsSearchEntries(cfg: CacheConfig, cache: Cache, store: Store, c: Criteria, i: nat,
                                        id: string, m: Movie, newId: ObjectIdText)
    requires i < |cfg.instance| && i < |SweepPrefix| && cfg.instance[i] != SweepPrefix[i]
    requires SearchEntryKey(cfg, c) in cache
    ensures var r := CachedCreate(cache, store, m, newId);
            SearchEntryKey(cfg, c) in r.cache && r.cache[SearchEntryKey(cfg, c)] == cache[SearchEntryKey(cfg, c)]
    ensures var r := CachedUpdate(cfg, cache, store, m);
            SearchEntryKey(cfg, c) in r.cache && r.cache[SearchEntryKey(cfg, c)] == cache[SearchEntryKey(cfg, c)]
    ensures var r := CachedDelete(cache, store, id);
            SearchEntryKey(cfg, c) in r.cache && r.cache[SearchEntryKey(cfg, c)] == cache[SearchEntryKey(cfg, c)]
  {
    OtherInstanceEscapesSweep(cfg.instance, SearchKey(c), i);
    if m.id.Some? {
      KeyKinds(m.id.value, c, 0);
      PhysicalInjective(cfg.instance, IdKey(m.id.value), SearchKey(c));
    }
  }

  /** A by-id entry outlives the delete of its movie: the next by-id read
      returns the deleted movie from the cache while the store no longer has it. */
  lemma StaleByIdAfterDelete(cache: Cache, store: Store, id: string, m: Movie, currentYear: int)
    requires ValidStore(store) && IsObjectId(id)
    requires IdEntryKey(DefaultConfig, id) in cache
    requires cache[IdEntryKey(DefaultConfig, id)].payload == One(m)
    ensures var d := CachedDelete(cache, store, id);
            var r := CachedGetById(DefaultConfig, d.cache, d.store, id, currentYear);
            d.result.Success? && !r.consulted && r.result == Success(Some(m))
            && GetById(d.store, id, currentYear) == Success(None)
  {
    UpdateDropsIdDeleteKeepsIt(DefaultConfig, cache, store, m, id);
    DeleteForgetsId(store, id, currentYear);
  }
}
