/** The cache-aside decorator over the document store. Each read looks up its
    key; a non-empty entry is decoded and returned without touching the store,
    otherwise the store is asked and its answer is written back with the TTL of
    the read's category. Each write goes to the store first, then sweeps every
    search entry (and, for an update, the entry of the updated id).

    Serialisation is the identity: an entry holds the values themselves.
 */
module CachedMovieRepository {
  import opened Wrappers
  import opened Text
  import opened MovieEntity
  import opened SearchCriteria
  import opened MongoMovieRepository
  import opened CacheKeys

  /** A cached string: empty, a serialised list, or a serialised single movie. */
  datatype Payload = Blank | Many(movies: seq<Movie>) | One(movie: Movie)

  /** A cache entry; the TTL is recorded, never counted down. */
  datatype Entry = Entry(payload: Payload, ttlMinutes: int)

  /** The distributed cache, by physical key. */
  type Cache = map<string, Entry>

  /** TTLs for the two classes of entry, and the instance prefix of the cache. */
  datatype CacheConfig = CacheConfig(popularTtlMinutes: int, recommendationsTtlMinutes: int, instance: string)

  const DefaultConfig: CacheConfig := CacheConfig(60, 120, DefaultInstance)

  /** Both TTLs are positive: an entry's expiry must be a positive span, and a
      read that has to write an entry with any other TTL fails instead. */
  predicate PositiveTtls(cfg: CacheConfig) {
    cfg.popularTtlMinutes > 0 && cfg.recommendationsTtlMinutes > 0
  }

  /** What one operation of the decorator yields: its result, the cache and
      store it leaves behind, and whether it consulted the store. */
  datatype Step<T> = Step(result: Result<T, RepoError>, cache: Cache, store: Store, consulted: bool)

  /** The entry under `key` exists and its string is not empty. */
  predicate IsHit(cache: Cache, key: string) {
    key in cache && cache[key].payload != Blank
  }

  /** Read-through for a list-valued read: `inner` is what the store answers.
      A hit is decoded without asking the store; a miss asks it and writes a
      successful answer back with `ttl`, which fails when `ttl` is not positive. */
  function ReadMany(cache: Cache, store: Store, key: string, ttl: int,
                    inner: Result<seq<Movie>, RepoError>): (r: Step<seq<Movie>>)
    ensures r.store == store
    ensures r.consulted <==> !IsHit(cache, key)
    ensures !r.consulted ==> r.cache == cache
    ensures !r.consulted ==> (r.result.Success? <==> cache[key].payload.Many?)
    ensures !r.consulted && r.result.Success? ==> r.result.value == cache[key].payload.movies
    ensures r.consulted && (inner.Failure? || ttl > 0) ==> r.result == inner
    ensures r.consulted && inner.Success? && ttl <= 0 ==> r.result == Failure(InvalidTtl(ttl))
    ensures r.consulted && r.result.Failure? ==> r.cache == cache
    ensures r.consulted && r.result.Success? ==> r.cache == cache[key := Entry(Many(inner.value), ttl)]
  {
    if IsHit(cache, key) then
      match cache[key].payload
      case Many(ms) => Step(Success(ms), cache, store, false)
      case _ => Step(Failure(Undecodable), cache, store, false)
    else
      match inner
      case Failure(e) => Step(Failure(e), cache, store, true)
      case Success(ms) =>
        if ttl <= 0 then Step(Failure(InvalidTtl(ttl)), cache, store, true)
        else Step(Success(ms), cache[key := Entry(Many(ms), ttl)], store, true)
  }

  /** Read-through for `GetById`: an absent record is returned but not cached. */
  function ReadOne(cache: Cache, store: Store, key: string, ttl: int,
                   inner: Result<Option<Movie>, RepoError>): (r: Step<Option<Movie>>)
    ensures r.store == store
    ensures r.consulted <==> !IsHit(cache, key)
    ensures !r.consulted ==> r.cache == cache
    ensures !r.consulted ==> (r.result.Success? <==> cache[key].payload.One?)
    ensures !r.consulted && r.result.Success? ==> r.result.value == Some(cache[key].payload.movie)
    ensures r.consulted && !(inner.Success? && inner.value.Some? && ttl <= 0) ==> r.result == inner
    ensures r.consulted && inner.Success? && inner.value.Some? && ttl <= 0 ==>
              r.result == Failure(InvalidTtl(ttl))
    ensures r.consulted && !(r.result.Success? && r.result.value.Some?) ==> r.cache == cache
    ensures r.consulted && r.result.Success? && r.result.value.Some? ==>
              r.cache == cache[key := Entry(One(inner.value.value), ttl)]
  {
    if IsHit(cache, key) then
      match cache[key].payload
      case One(m) => Step(Success(Some(m)), cache, store, false)
      case _ => Step(Failure(Undecodable), cache, store, false)
    else
      match inner
      case Success(Some(m)) =>
        if ttl <= 0 then Step(Failure(InvalidTtl(ttl)), cache, store, true)
        else Step(Success(Some(m)), cache[key := Entry(One(m), ttl)], store, true)
      case _ => Step(inner, cache, store, true)
  }

  function AllEntryKey(cfg: CacheConfig): string {
    Physical(cfg.instance, AllKey)
  }

  function IdEntryKey(cfg: CacheConfig, id: string): string {
    Physical(cfg.instance, IdKey(id))
  }

  function SearchEntryKey(cfg: CacheConfig, c: Criteria): string {
    Physical(cfg.instance, SearchKey(c))
  }

  function PopularEntryKey(cfg: CacheConfig, limit: int): string {
    Physical(cfg.instance, PopularKey(limit))
  }

  function RecoEntryKey(cfg: CacheConfig, limit: int): string {
    Physical(cfg.instance, RecoKey(limit))
  }

  /** `GetAllAsync`: the all entry on a hit; on a miss the store's list,
      written back with the popular TTL. */
  function CachedGetAll(cfg: CacheConfig, cache: Cache, store: Store, currentYear: int): (r: Step<seq<Movie>>)
    ensures r.store == store
    ensures r.consulted <==> !IsHit(cache, AllEntryKey(cfg))
    ensures !r.consulted ==> r.cache == cache
    ensures r.consulted && cfg.popularTtlMinutes > 0 ==> r.result == GetAll(store, currentYear)
    ensures r.consulted && r.result.Success? ==>
              r.cache == cache[AllEntryKey(cfg) := Entry(Many(r.result.value), cfg.popularTtlMinutes)]
    ensures r.consulted && r.result.Failure? ==> r.cache == cache
  {
    ReadMany(cache, store, AllEntryKey(cfg), cfg.popularTtlMinutes, GetAll(store, currentYear))
  }

  /** `GetByIdAsync`: the id entry on a hit; on a miss the store's answer, and
      only a movie found is written back, with the popular TTL. An id that is
      not ObjectId text fails on a miss and leaves the cache alone. */
  function CachedGetById(cfg: CacheConfig, cache: Cache, store: Store, id: string, currentYear: int)
    : (r: Step<Option<Movie>>)
    ensures r.store == store
    ensures r.consulted <==> !IsHit(cache, IdEntryKey(cfg, id))
    ensures !r.consulted ==> r.cache == cache
    ensures r.consulted && cfg.popularTtlMinutes > 0 ==> r.result == GetById(store, id, currentYear)
    ensures r.consulted && !IsObjectId(id) ==> r.result == Failure(MalformedId(id))
    ensures r.consulted && r.result.Success? && r.result.value.Some? ==>
              r.cache == cache[IdEntryKey(cfg, id) := Entry(One(r.result.value.value), cfg.popularTtlMinutes)]
    ensures r.consulted && !(r.result.Success? && r.result.value.Some?) ==> r.cache == cache
  {
    ReadOne(cache, store, IdEntryKey(cfg, id), cfg.popularTtlMinutes, GetById(store, id, currentYear))
  }

  /** `SearchAsync`: the entry under the search key on a hit; on a miss the
      store's answer, written back with the popular TTL. */
  function CachedSearch(cfg: CacheConfig, cache: Cache, store: Store, c: Criteria, currentYear: int)
    : (r: Step<seq<Movie>>)
    ensures r.store == store
    ensures r.consulted <==> !IsHit(cache, SearchEntryKey(cfg, c))
    ensures !r.consulted ==> r.cache == cache
    ensures r.consulted && cfg.popularTtlMinutes > 0 ==> r.result == Search(store, c, currentYear)
    ensures r.consulted && r.result.Success? ==>
              r.cache == cache[SearchEntryKey(cfg, c) := Entry(Many(r.result.value), cfg.popularTtlMinutes)]
    ensures r.consulted && r.result.Failure? ==> r.cache == cache
  {
    ReadMany(cache, store, SearchEntryKey(cfg, c), cfg.popularTtlMinutes, Search(store, c, currentYear))
  }

  /** `GetPopularAsync`: the popular entry for `limit` on a hit; on a miss the
      store's answer, written back with the popular TTL. */
  function CachedGetPopular(cfg: CacheConfig, cache: Cache, store: Store, limit: int, currentYear: int)
    : (r: Step<seq<Movie>>)
    ensures r.store == store
    ensures r.consulted <==> !IsHit(cache, PopularEntryKey(cfg, limit))
    ensures !r.consulted ==> r.cache == cache
    ensures r.consulted && cfg.popularTtlMinutes > 0 ==> r.result == GetPopular(store, limit, currentYear)
    ensures r.consulted && r.result.Success? ==>
              r.cache == cache[PopularEntryKey(cfg, limit) := Entry(Many(r.result.value), cfg.popularTtlMinutes)]
    ensures r.consulted && r.result.Failure? ==> r.cache == cache
  {
    ReadMany(cache, store, PopularEntryKey(cfg, limit), cfg.popularTtlMinutes,
             GetPopular(store, limit, currentYear))
  }

  /** `GetRecommendationsAsync`: the recommendation entry for `limit` on a hit;
      on a miss the store's answer, written back with the recommendations TTL. */
  function CachedGetRecommendations(cfg: CacheConfig, cache: Cache, store: Store, limit: int,
                                    currentYear: int): (r: Step<seq<Movie>>)
    ensures r.store == store
    ensures r.consulted <==> !IsHit(cache, RecoEntryKey(cfg, limit))
    ensures !r.consulted ==> r.cache == cache
    ensures r.consulted && cfg.recommendationsTtlMinutes > 0 ==>
              r.result == GetRecommendations(store, limit, currentYear)
    ensures r.consulted && r.result.Success? ==>
              r.cache == cache[RecoEntryKey(cfg, limit) := Entry(Many(r.result.value), cfg.recommendationsTtlMinutes)]
    ensures r.consulted && r.result.Failure? ==> r.cache == cache
  {
    ReadMany(cache, store, RecoEntryKey(cfg, limit), cfg.recommendationsTtlMinutes,
             GetRecommendations(store, limit, currentYear))
  }

  /** `RemoveAllSearchCacheAsync`: deletes every key matching the sweep pattern
      and keeps every other entry as it was. */
  function Sweep(cache: Cache): (r: Cache)
    ensures forall k :: k in r <==> k in cache && !HasPrefix(k, SweepPrefix)
    ensures forall k | k in r :: r[k] == cache[k]
  {
    map k | k in cache && !HasPrefix(k, SweepPrefix) :: cache[k]
  }

  /** Create: the store first; when it throws nothing else happens, otherwise
      the search entries are swept and the store's movie returned. */
  function CachedCreate(cache: Cache, store: Store, m: Movie, newId: ObjectIdText): (r: Step<Movie>)
    ensures r.consulted
    ensures r.result.Failure? <==> Create(store, m, newId).Failure?
    ensures r.result.Failure? ==> r.result == Failure(Create(store, m, newId).error) && r.cache == cache
                                  && r.store == store
    ensures r.result.Success? ==> r.result.value == Create(store, m, newId).value.value
                                  && r.store == Create(store, m, newId).value.store && r.cache == Sweep(cache)
  {
    match Create(store, m, newId)
    case Failure(e) => Step(Failure(e), cache, store, true)
    case Success(w) => Step(Success(w.value), Sweep(cache), w.store, true)
  }

  /** Update: the store first; when it throws nothing else happens, otherwise
      the sweep whatever the store answered, then the removal of the id entry
      when the movie has an id. */
  function CachedUpdate(cfg: CacheConfig, cache: Cache, store: Store, m: Movie): (r: Step<Option<Movie>>)
    ensures r.consulted
    ensures r.result.Failure? <==> Update(store, m).Failure?
    ensures r.result.Failure? ==> r.result == Failure(Update(store, m).error) && r.cache == cache
                                  && r.store == store
    ensures r.result.Success? ==> r.result.value == Update(store, m).value.value
                                  && r.store == Update(store, m).value.store
    ensures r.result.Success? && m.id.None? ==> r.cache == Sweep(cache)
    ensures r.result.Success? && m.id.Some? ==> r.cache == Sweep(cache) - {IdEntryKey(cfg, m.id.value)}
  {
    match Update(store, m)
    case Failure(e) => Step(Failure(e), cache, store, true)
    case Success(w) =>
      var swept := Sweep(cache);
      var cache' := if m.id.Some? then swept - {IdEntryKey(cfg, m.id.value)} else swept;
      Step(Success(w.value), cache', w.store, true)
  }

  /** Delete: the store first; when it throws nothing else happens, otherwise
      the sweep whatever the store answered. The id entry is left in place. */
  function CachedDelete(cache: Cache, store: Store, id: string): (r: Step<bool>)
    ensures r.consulted
    ensures r.result.Failure? <==> Delete(store, id).Failure?
    ensures r.result.Failure? ==> r.result == Failure(Delete(store, id).error) && r.cache == cache
                                  && r.store == store
    ensures r.result.Success? ==> r.result.value == Delete(store, id).value.value
                                  && r.store == Delete(store, id).value.store && r.cache == Sweep(cache)
  {
    match Delete(store, id)
    case Failure(e) => Step(Failure(e), cache, store, true)
    case Success(w) => Step(Success(w.value), Sweep(cache), w.store, true)
  }
}
