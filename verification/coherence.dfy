/** When the decorator answers like the store it decorates.

    A cache is coherent with a store when every entry the decorator reads holds
    exactly what the store would answer for that read. Reads keep a cache
    coherent, except that a search key shared by criteria with different
    answers can serve one criteria's answer to the other; writes do not keep it
    coherent, because they leave the all, by-id, popular and recommendation
    entries alone. What every operation does keep, under the default instance
    prefix, is that each search entry holds the current answer of some criteria
    with its key. Under an instance prefix that differs from the sweep pattern
    within its length, the sweep misses the search entries, so every write
    leaves them stale.
 */
module CacheCoherence {
  import opened Wrappers
  import opened Text
  import opened MovieEntity
  import opened MovieMappings
  import opened SearchCriteria
  import opened MongoMovieRepository
  import opened CacheKeys
  import opened CachedMovieRepository
  import opened CacheLaws
  import R = MovieRepository

  /** An empty entry (a miss), or a list entry holding exactly `v`'s value. */
  predicate ManyHolds(e: Entry, v: Result<seq<Movie>, RepoError>) {
    e.payload == Blank || (e.payload.Many? && v == Success(e.payload.movies))
  }

  /** An empty entry, or a single-movie entry holding exactly the movie `v` found. */
  predicate OneHolds(e: Entry, v: Result<Option<Movie>, RepoError>) {
    e.payload == Blank || (e.payload.One? && v == Success(Some(e.payload.movie)))
  }

  /** What a store answers to each read, as a table. */
  datatype Answers = Answers(
    all: Result<seq<Movie>, RepoError>,
    byId: string -> Result<Option<Movie>, RepoError>,
    search: Criteria -> Result<seq<Movie>, RepoError>,
    popular: int -> Result<seq<Movie>, RepoError>,
    reco: int -> Result<seq<Movie>, RepoError>)

  /** The table of the store's answers, which the coherence predicates below
      compare cache entries with. */
  function StoreAnswers(store: Store, currentYear: int): (a: Answers)
    ensures a.all == GetAll(store, currentYear)
    ensures forall id :: a.byId(id) == GetById(store, id, currentYear)
    ensures forall c :: a.search(c) == Search(store, c, currentYear)
    ensures forall limit :: a.popular(limit) == GetPopular(store, limit, currentYear)
    ensures forall limit :: a.reco(limit) == GetRecommendations(store, limit, currentYear)
  {
    Answers(GetAll(store, currentYear),
            id => GetById(store, id, currentYear),
            c => Search(store, c, currentYear),
            limit => GetPopular(store, limit, currentYear),
            limit => GetRecommendations(store, limit, currentYear))
  }

  /** The entry `e` under `key` holds the answer to every read whose entry key
      is `key`. */
  ghost predicate EntryFits(cfg: CacheConfig, key: string, e: Entry, a: Answers) {
    && (key == AllEntryKey(cfg) ==> ManyHolds(e, a.all))
    && (forall id: string | key == IdEntryKey(cfg, id) :: OneHolds(e, a.byId(id)))
    && (forall c: Criteria | key == SearchEntryKey(cfg, c) :: ManyHolds(e, a.search(c)))
    && (forall limit: int | key == PopularEntryKey(cfg, limit) :: ManyHolds(e, a.popular(limit)))
    && (forall limit: int | key == RecoEntryKey(cfg, limit) :: ManyHolds(e, a.reco(limit)))
  }

  ghost predicate Coherent(cfg: CacheConfig, cache: Cache, a: Answers) {
    forall key | key in cache :: EntryFits(cfg, key, cache[key], a)
  }

  /** Every criteria that shares `c`'s search key gets the same answer. */
  ghost predicate KeyFaithful(a: Answers, c: Criteria) {
    forall c': Criteria | SearchKey(c') == SearchKey(c) :: a.search(c') == a.search(c)
  }

  /** Criteria with every argument absent, used where a lemma needs some criteria. */
  const AnyCriteria: Criteria := Criteria(None, None, None, None, None, None, None, None, 0)

  /** Keys of entries of different kinds never coincide, whatever the instance
      prefix; within a kind the key determines the argument (up to search-key
      collisions). */
  lemma EntryKeysApart(cfg: CacheConfig, id: string, id': string, c: Criteria, c': Criteria,
                       limit: int, limit': int)
    ensures AllEntryKey(cfg) != IdEntryKey(cfg, id) && AllEntryKey(cfg) != SearchEntryKey(cfg, c)
    ensures AllEntryKey(cfg) != PopularEntryKey(cfg, limit) && AllEntryKey(cfg) != RecoEntryKey(cfg, limit)
    ensures IdEntryKey(cfg, id) != SearchEntryKey(cfg, c) && IdEntryKey(cfg, id) != PopularEntryKey(cfg, limit)
    ensures IdEntryKey(cfg, id) != RecoEntryKey(cfg, limit)
    ensures SearchEntryKey(cfg, c) != PopularEntryKey(cfg, limit)
    ensures SearchEntryKey(cfg, c) != RecoEntryKey(cfg, limit)
    ensures PopularEntryKey(cfg, limit) != RecoEntryKey(cfg, limit')
    ensures IdEntryKey(cfg, id) == IdEntryKey(cfg, id') <==> id == id'
    ensures SearchEntryKey(cfg, c) == SearchEntryKey(cfg, c') <==> SearchKey(c) == SearchKey(c')
    ensures PopularEntryKey(cfg, limit) == PopularEntryKey(cfg, limit') <==> limit == limit'
    ensures RecoEntryKey(cfg, limit) == RecoEntryKey(cfg, limit') <==> limit == limit'
  {
    var i := cfg.instance;
    KeyKinds(id, c, limit);
    KeyKinds(id', c', limit');
    PhysicalInjective(i, AllKey, IdKey(id));
    PhysicalInjective(i, AllKey, SearchKey(c));
    PhysicalInjective(i, AllKey, PopularKey(limit));
    PhysicalInjective(i, AllKey, RecoKey(limit));
    PhysicalInjective(i, IdKey(id), SearchKey(c));
    PhysicalInjective(i, IdKey(id), PopularKey(limit));
    PhysicalInjective(i, IdKey(id), RecoKey(limit));
    PhysicalInjective(i, SearchKey(c), PopularKey(limit));
    PhysicalInjective(i, SearchKey(c), RecoKey(limit));
    PhysicalInjective(i, PopularKey(limit), RecoKey(limit'));
    PhysicalInjective(i, IdKey(id), IdKey(id'));
    PhysicalInjective(i, SearchKey(c), SearchKey(c'));
    PhysicalInjective(i, PopularKey(limit), PopularKey(limit'));
    PhysicalInjective(i, RecoKey(limit), RecoKey(limit'));
    LimitKeysInjective(limit, limit');
    if IdKey(id) == IdKey(id') {
      assert id == IdKey(id)[|IdPrefix|..] && id' == IdKey(id')[|IdPrefix|..];
    }
  }

  /** A list read whose entry fits answers what the store answers, when the
      entry it may write has a positive TTL. */
  lemma ReadManyAgrees(cache: Cache, store: Store, key: string, ttl: int, inner: Result<seq<Movie>, RepoError>)
    requires key in cache ==> ManyHolds(cache[key], inner)
    requires ttl > 0
    ensures ReadMany(cache, store, key, ttl, inner).result == inner
  {
  }

  lemma ReadOneAgrees(cache: Cache, store: Store, key: string, ttl: int, inner: Result<Option<Movie>, RepoError>)
    requires key in cache ==> OneHolds(cache[key], inner)
    requires ttl > 0
    ensures ReadOne(cache, store, key, ttl, inner).result == inner
  {
  }

  /** A coherent cache with positive TTLs makes every decorator read answer
      exactly as the bare store does. */
  lemma CoherentReadsAgree(cfg: CacheConfig, cache: Cache, store: Store, id: string, c: Criteria, limit: int,
                           currentYear: int)
    requires Coherent(cfg, cache, StoreAnswers(store, currentYear)) && PositiveTtls(cfg)
    ensures CachedGetAll(cfg, cache, store, currentYear).result == GetAll(store, currentYear)
    ensures CachedGetById(cfg, cache, store, id, currentYear).result == GetById(store, id, currentYear)
    ensures CachedSearch(cfg, cache, store, c, currentYear).result == Search(store, c, currentYear)
    ensures CachedGetPopular(cfg, cache, store, limit, currentYear).result == GetPopular(store, limit, currentYear)
    ensures CachedGetRecommendations(cfg, cache, store, limit, currentYear).result
            == GetRecommendations(store, limit, currentYear)
  {
    AllReadAgrees(cfg, cache, store, currentYear);
    ByIdReadAgrees(cfg, cache, store, id, currentYear);
    SearchReadAgrees(cfg, cache, store, c, currentYear);
    PopularReadAgrees(cfg, cache, store, limit, currentYear);
    RecoReadAgrees(cfg, cache, store, limit, currentYear);
  }

  lemma AllReadAgrees(cfg: CacheConfig, cache: Cache, store: Store, currentYear: int)
    requires Coherent(cfg, cache, StoreAnswers(store, currentYear)) && PositiveTtls(cfg)
    ensures CachedGetAll(cfg, cache, store, currentYear).result == GetAll(store, currentYear)
  {
    var a, k := StoreAnswers(store, currentYear), AllEntryKey(cfg);
    if k in cache { assert EntryFits(cfg, k, cache[k], a); }
    ReadManyAgrees(cache, store, k, cfg.popularTtlMinutes, a.all);
  }

  lemma ByIdReadAgrees(cfg: CacheConfig, cache: Cache, store: Store, id: string, currentYear: int)
    requires Coherent(cfg, cache, StoreAnswers(store, currentYear)) && PositiveTtls(cfg)
    ensures CachedGetById(cfg, cache, store, id, currentYear).result == GetById(store, id, currentYear)
  {
    var a, k := StoreAnswers(store, currentYear), IdEntryKey(cfg, id);
    if k in cache { assert EntryFits(cfg, k, cache[k], a); }
    ReadOneAgrees(cache, store, k, cfg.popularTtlMinutes, a.byId(id));
  }

  lemma SearchReadAgrees(cfg: CacheConfig, cache: Cache, store: Store, c: Criteria, currentYear: int)
    requires Coherent(cfg, cache, StoreAnswers(store, currentYear)) && PositiveTtls(cfg)
    ensures CachedSearch(cfg, cache, store, c, currentYear).result == Search(store, c, currentYear)
  {
    var a, k := StoreAnswers(store, currentYear), SearchEntryKey(cfg, c);
    if k in cache { assert EntryFits(cfg, k, cache[k], a); }
    ReadManyAgrees(cache, store, k, cfg.popularTtlMinutes, a.search(c));
  }

  lemma PopularReadAgrees(cfg: CacheConfig, cache: Cache, store: Store, limit: int, currentYear: int)
    requires Coherent(cfg, cache, StoreAnswers(store, currentYear)) && PositiveTtls(cfg)
    ensures CachedGetPopular(cfg, cache, store, limit, currentYear).result == GetPopular(store, limit, currentYear)
  {
    var a, k := StoreAnswers(store, currentYear), PopularEntryKey(cfg, limit);
    if k in cache { assert EntryFits(cfg, k, cache[k], a); }
    ReadManyAgrees(cache, store, k, cfg.popularTtlMinutes, a.popular(limit));
  }

  lemma RecoReadAgrees(cfg: CacheConfig, cache: Cache, store: Store, limit: int, currentYear: int)
    requires Coherent(cfg, cache, StoreAnswers(store, currentYear)) && PositiveTtls(cfg)
    ensures CachedGetRecommendations(cfg, cache, store, limit, currentYear).result
            == GetRecommendations(store, limit, currentYear)
  {
    var a, k := StoreAnswers(store, currentYear), RecoEntryKey(cfg, limit);
    if k in cache { assert EntryFits(cfg, k, cache[k], a); }
    ReadManyAgrees(cache, store, k, cfg.recommendationsTtlMinutes, a.reco(limit));
  }

  /** Through the repository interface: a coherent cache with positive TTLs
      makes the decorated repository answer every read as the bare store does. */
  lemma CoherentCacheAnswersLikeStore(cfg: CacheConfig, cache: Cache, store: Store, id: string,
                                      c: Criteria, limit: int, currentYear: int)
    requires Coherent(cfg, cache, StoreAnswers(store, currentYear)) && PositiveTtls(cfg)
    ensures R.GetAll(R.Cached(store, cache, cfg), currentYear).result
            == R.GetAll(R.Direct(store), currentYear).result
    ensures R.GetById(R.Cached(store, cache, cfg), id, currentYear).result
            == R.GetById(R.Direct(store), id, currentYear).result
    ensures R.Search(R.Cached(store, cache, cfg), c, currentYear).result
            == R.Search(R.Direct(store), c, currentYear).result
    ensures R.GetPopular(R.Cached(store, cache, cfg), limit, currentYear).result
            == R.GetPopular(R.Direct(store), limit, currentYear).result
    ensures R.GetRecommendations(R.Cached(store, cache, cfg), limit, currentYear).result
            == R.GetRecommendations(R.Direct(store), limit, currentYear).result
  {
    AllReadAgrees(cfg, cache, store, currentYear);
    ByIdReadAgrees(cfg, cache, store, id, currentYear);
    SearchReadAgrees(cfg, cache, store, c, currentYear);
    PopularReadAgrees(cfg, cache, store, limit, currentYear);
    RecoReadAgrees(cfg, cache, store, limit, currentYear);
  }

  /** The empty cache is coherent with every store: the first read of anything
      answers like the store. */
  lemma EmptyCacheIsCoherent(cfg: CacheConfig, a: Answers)
    ensures Coherent(cfg, map[], a)
  {
  }

  /** Writing one fitting entry keeps a cache coherent. */
  lemma PutKeepsCoherent(cfg: CacheConfig, cache: Cache, a: Answers, key: string, e: Entry)
    requires Coherent(cfg, cache, a)
    requires EntryFits(cfg, key, e, a)
    ensures Coherent(cfg, cache[key := e], a)
  {
    var cache' := cache[key := e];
    forall k | k in cache'
      ensures EntryFits(cfg, k, cache'[k], a)
    {
      if k != key { assert cache'[k] == cache[k]; }
    }
  }

  /** The entry each read writes on a miss fits its key: no read of another
      kind shares the key, and within a kind only the same argument does. */
  lemma AllEntryFits(cfg: CacheConfig, a: Answers, ttl: int)
    requires a.all.Success?
    ensures EntryFits(cfg, AllEntryKey(cfg), Entry(Many(a.all.value), ttl), a)
  {
    forall id: string ensures AllEntryKey(cfg) != IdEntryKey(cfg, id) {
      EntryKeysApart(cfg, id, id, AnyCriteria, AnyCriteria, 0, 0);
    }
    forall c: Criteria ensures AllEntryKey(cfg) != SearchEntryKey(cfg, c) {
      EntryKeysApart(cfg, "", "", c, c, 0, 0);
    }
    forall limit: int ensures AllEntryKey(cfg) != PopularEntryKey(cfg, limit) && AllEntryKey(cfg) != RecoEntryKey(cfg, limit) {
      EntryKeysApart(cfg, "", "", AnyCriteria, AnyCriteria, limit, limit);
    }
  }

  lemma IdEntryFits(cfg: CacheConfig, a: Answers, id: string, ttl: int)
    requires a.byId(id).Success? && a.byId(id).value.Some?
    ensures EntryFits(cfg, IdEntryKey(cfg, id), Entry(One(a.byId(id).value.value), ttl), a)
  {
    EntryKeysApart(cfg, id, id, AnyCriteria, AnyCriteria, 0, 0);
    forall id': string ensures IdEntryKey(cfg, id) == IdEntryKey(cfg, id') ==> id == id' {
      EntryKeysApart(cfg, id, id', AnyCriteria, AnyCriteria, 0, 0);
    }
    forall c: Criteria ensures IdEntryKey(cfg, id) != SearchEntryKey(cfg, c) {
      EntryKeysApart(cfg, id, id, c, c, 0, 0);
    }
    forall limit: int
      ensures IdEntryKey(cfg, id) != PopularEntryKey(cfg, limit) && IdEntryKey(cfg, id) != RecoEntryKey(cfg, limit)
    {
      EntryKeysApart(cfg, id, id, AnyCriteria, AnyCriteria, limit, limit);
    }
  }

  lemma PopularEntryFits(cfg: CacheConfig, a: Answers, limit: int, ttl: int)
    requires a.popular(limit).Success?
    ensures EntryFits(cfg, PopularEntryKey(cfg, limit), Entry(Many(a.popular(limit).value), ttl), a)
  {
    EntryKeysApart(cfg, "", "", AnyCriteria, AnyCriteria, limit, limit);
    forall id: string ensures PopularEntryKey(cfg, limit) != IdEntryKey(cfg, id) {
      EntryKeysApart(cfg, id, id, AnyCriteria, AnyCriteria, limit, limit);
    }
    forall c: Criteria ensures PopularEntryKey(cfg, limit) != SearchEntryKey(cfg, c) {
      EntryKeysApart(cfg, "", "", c, c, limit, limit);
    }
    forall limit': int
      ensures PopularEntryKey(cfg, limit) != RecoEntryKey(cfg, limit')
      ensures PopularEntryKey(cfg, limit) == PopularEntryKey(cfg, limit') ==> limit == limit'
    {
      EntryKeysApart(cfg, "", "", AnyCriteria, AnyCriteria, limit, limit');
    }
  }

  lemma RecoEntryFits(cfg: CacheConfig, a: Answers, limit: int, ttl: int)
    requires a.reco(limit).Success?
    ensures EntryFits(cfg, RecoEntryKey(cfg, limit), Entry(Many(a.reco(limit).value), ttl), a)
  {
    EntryKeysApart(cfg, "", "", AnyCriteria, AnyCriteria, limit, limit);
    forall id: string ensures RecoEntryKey(cfg, limit) != IdEntryKey(cfg, id) {
      EntryKeysApart(cfg, id, id, AnyCriteria, AnyCriteria, limit, limit);
    }
    forall c: Criteria ensures RecoEntryKey(cfg, limit) != SearchEntryKey(cfg, c) {
      EntryKeysApart(cfg, "", "", c, c, limit, limit);
    }
    forall limit': int
      ensures RecoEntryKey(cfg, limit) != PopularEntryKey(cfg, limit')
      ensures RecoEntryKey(cfg, limit) == RecoEntryKey(cfg, limit') ==> limit == limit'
    {
      EntryKeysApart(cfg, "", "", AnyCriteria, AnyCriteria, limit', limit);
      EntryKeysApart(cfg, "", "", AnyCriteria, AnyCriteria, limit, limit');
    }
  }

  /** A search read's entry fits its key only when the key is faithful. */
  lemma SearchEntryFits(cfg: CacheConfig, a: Answers, c: Criteria, ttl: int)
    requires a.search(c).Success?
    requires KeyFaithful(a, c)
    ensures EntryFits(cfg, SearchEntryKey(cfg, c), Entry(Many(a.search(c).value), ttl), a)
  {
    EntryKeysApart(cfg, "", "", c, c, 0, 0);
    forall id: string ensures SearchEntryKey(cfg, c) != IdEntryKey(cfg, id) {
      EntryKeysApart(cfg, id, id, c, c, 0, 0);
    }
    forall c': Criteria ensures SearchEntryKey(cfg, c) == SearchEntryKey(cfg, c') ==> SearchKey(c) == SearchKey(c') {
      EntryKeysApart(cfg, "", "", c, c', 0, 0);
    }
    forall limit: int
      ensures SearchEntryKey(cfg, c) != PopularEntryKey(cfg, limit) && SearchEntryKey(cfg, c) != RecoEntryKey(cfg, limit)
    {
      EntryKeysApart(cfg, "", "", c, c, limit, limit);
    }
  }

  /** A list read keeps a coherent cache coherent when the entry it may write fits. */
  lemma ReadManyKeepsCoherent(cfg: CacheConfig, cache: Cache, store: Store, a: Answers, key: string, ttl: int,
                              inner: Result<seq<Movie>, RepoError>)
    requires Coherent(cfg, cache, a)
    requires inner.Success? ==> EntryFits(cfg, key, Entry(Many(inner.value), ttl), a)
    ensures Coherent(cfg, ReadMany(cache, store, key, ttl, inner).cache, a)
  {
    if inner.Success? { PutKeepsCoherent(cfg, cache, a, key, Entry(Many(inner.value), ttl)); }
  }

  lemma ReadOneKeepsCoherent(cfg: CacheConfig, cache: Cache, store: Store, a: Answers, key: string, ttl: int,
                             inner: Result<Option<Movie>, RepoError>)
    requires Coherent(cfg, cache, a)
    requires inner.Success? && inner.value.Some? ==> EntryFits(cfg, key, Entry(One(inner.value.value), ttl), a)
    ensures Coherent(cfg, ReadOne(cache, store, key, ttl, inner).cache, a)
  {
    if inner.Success? && inner.value.Some? { PutKeepsCoherent(cfg, cache, a, key, Entry(One(inner.value.value), ttl)); }
  }

  /** Every read other than search keeps a coherent cache coherent. */
  lemma ListReadsKeepCoherent(cfg: CacheConfig, cache: Cache, store: Store, id: string, limit: int,
                              currentYear: int)
    requires Coherent(cfg, cache, StoreAnswers(store, currentYear))
    ensures Coherent(cfg, CachedGetAll(cfg, cache, store, currentYear).cache, StoreAnswers(store, currentYear))
    ensures Coherent(cfg, CachedGetById(cfg, cache, store, id, currentYear).cache, StoreAnswers(store, currentYear))
    ensures Coherent(cfg, CachedGetPopular(cfg, cache, store, limit, currentYear).cache,
                     StoreAnswers(store, currentYear))
    ensures Coherent(cfg, CachedGetRecommendations(cfg, cache, store, limit, currentYear).cache,
                     StoreAnswers(store, currentYear))
  {
    AllReadKeepsCoherent(cfg, cache, store, currentYear);
    ByIdReadKeepsCoherent(cfg, cache, store, id, currentYear);
    PopularReadKeepsCoherent(cfg, cache, store, limit, currentYear);
    RecoReadKeepsCoherent(cfg, cache, store, limit, currentYear);
  }

  lemma AllReadKeepsCoherent(cfg: CacheConfig, cache: Cache, store: Store, currentYear: int)
    requires Coherent(cfg, cache, StoreAnswers(store, currentYear))
    ensures Coherent(cfg, CachedGetAll(cfg, cache, store, currentYear).cache, StoreAnswers(store, currentYear))
  {
    var a := StoreAnswers(store, currentYear);
    if a.all.Success? { AllEntryFits(cfg, a, cfg.popularTtlMinutes); }
    ReadManyKeepsCoherent(cfg, cache, store, a, AllEntryKey(cfg), cfg.popularTtlMinutes, a.all);
  }

  lemma ByIdReadKeepsCoherent(cfg: CacheConfig, cache: Cache, store: Store, id: string, currentYear: int)
    requires Coherent(cfg, cache, StoreAnswers(store, currentYear))
    ensures Coherent(cfg, CachedGetById(cfg, cache, store, id, currentYear).cache, StoreAnswers(store, currentYear))
  {
    var a := StoreAnswers(store, currentYear);
    if a.byId(id).Success? && a.byId(id).value.Some? { IdEntryFits(cfg, a, id, cfg.popularTtlMinutes); }
    ReadOneKeepsCoherent(cfg, cache, store, a, IdEntryKey(cfg, id), cfg.popularTtlMinutes, a.byId(id));
  }

  lemma PopularReadKeepsCoherent(cfg: CacheConfig, cache: Cache, store: Store, limit: int, currentYear: int)
    requires Coherent(cfg, cache, StoreAnswers(store, currentYear))
    ensures Coherent(cfg, CachedGetPopular(cfg, cache, store, limit, currentYear).cache,
                     StoreAnswers(store, currentYear))
  {
    var a := StoreAnswers(store, currentYear);
    if a.popular(limit).Success? { PopularEntryFits(cfg, a, limit, cfg.popularTtlMinutes); }
    ReadManyKeepsCoherent(cfg, cache, store, a, PopularEntryKey(cfg, limit), cfg.popularTtlMinutes, a.popular(limit));
  }

  lemma RecoReadKeepsCoherent(cfg: CacheConfig, cache: Cache, store: Store, limit: int, currentYear: int)
    requires Coherent(cfg, cache, StoreAnswers(store, currentYear))
    ensures Coherent(cfg, CachedGetRecommendations(cfg, cache, store, limit, currentYear).cache,
                     StoreAnswers(store, currentYear))
  {
    var a := StoreAnswers(store, currentYear);
    var q := cfg.recommendationsTtlMinutes;
    if a.reco(limit).Success? { RecoEntryFits(cfg, a, limit, q); }
    ReadManyKeepsCoherent(cfg, cache, store, a, RecoEntryKey(cfg, limit), q, a.reco(limit));
  }

  /** A search read keeps a coherent cache coherent when no other criteria with
      the same key would get a different answer. */
  lemma SearchReadKeepsCoherent(cfg: CacheConfig, cache: Cache, store: Store, c: Criteria, currentYear: int)
    requires Coherent(cfg, cache, StoreAnswers(store, currentYear))
    requires KeyFaithful(StoreAnswers(store, currentYear), c)
    ensures Coherent(cfg, CachedSearch(cfg, cache, store, c, currentYear).cache, StoreAnswers(store, currentYear))
  {
    var a := StoreAnswers(store, currentYear);
    if a.search(c).Success? { SearchEntryFits(cfg, a, c, cfg.popularTtlMinutes); }
    ReadManyKeepsCoherent(cfg, cache, store, a, SearchEntryKey(cfg, c), cfg.popularTtlMinutes, a.search(c));
  }

  /** Each search entry holds the current answer for some criteria that render
      to its key. */
  ghost predicate SearchSound(cfg: CacheConfig, cache: Cache, a: Answers) {
    forall c: Criteria | SearchEntryKey(cfg, c) in cache ::
      exists c': Criteria | SearchKey(c') == SearchKey(c) :: ManyHolds(cache[SearchEntryKey(cfg, c)], a.search(c'))
  }

  /** A read whose key is not a search key keeps search entries sound. */
  lemma OtherReadKeepsSearchSound(cfg: CacheConfig, cache: Cache, a: Answers, key: string, e: Entry)
    requires SearchSound(cfg, cache, a)
    requires forall c: Criteria :: key != SearchEntryKey(cfg, c)
    ensures SearchSound(cfg, cache[key := e], a)
  {
    var cache' := cache[key := e];
    forall c: Criteria | SearchEntryKey(cfg, c) in cache'
      ensures exists c': Criteria | SearchKey(c') == SearchKey(c) ::
                ManyHolds(cache'[SearchEntryKey(cfg, c)], a.search(c'))
    {
      assert cache'[SearchEntryKey(cfg, c)] == cache[SearchEntryKey(cfg, c)];
    }
  }

  /** A search read keeps search entries sound, faithful key or not. */
  lemma SearchReadKeepsSearchSound(cfg: CacheConfig, cache: Cache, a: Answers, c: Criteria, ttl: int)
    requires SearchSound(cfg, cache, a)
    requires a.search(c).Success?
    ensures SearchSound(cfg, cache[SearchEntryKey(cfg, c) := Entry(Many(a.search(c).value), ttl)], a)
  {
    var key := SearchEntryKey(cfg, c);
    var cache' := cache[key := Entry(Many(a.search(c).value), ttl)];
    forall c': Criteria | SearchEntryKey(cfg, c') in cache'
      ensures exists c'': Criteria | SearchKey(c'') == SearchKey(c') ::
                ManyHolds(cache'[SearchEntryKey(cfg, c')], a.search(c''))
    {
      EntryKeysApart(cfg, "", "", c, c', 0, 0);
      if SearchEntryKey(cfg, c') == key {
        assert ManyHolds(cache'[SearchEntryKey(cfg, c')], a.search(c));
      } else {
        assert cache'[SearchEntryKey(cfg, c')] == cache[SearchEntryKey(cfg, c')];
      }
    }
  }

  /** Read-through at a key that is no search key keeps search entries sound. */
  lemma ReadManyKeepsSearchSound(cfg: CacheConfig, cache: Cache, store: Store, a: Answers, key: string, ttl: int,
                                 inner: Result<seq<Movie>, RepoError>)
    requires SearchSound(cfg, cache, a)
    requires forall c: Criteria :: key != SearchEntryKey(cfg, c)
    ensures SearchSound(cfg, ReadMany(cache, store, key, ttl, inner).cache, a)
  {
    if inner.Success? { OtherReadKeepsSearchSound(cfg, cache, a, key, Entry(Many(inner.value), ttl)); }
  }

  lemma ReadOneKeepsSearchSound(cfg: CacheConfig, cache: Cache, store: Store, a: Answers, key: string, ttl: int,
                                inner: Result<Option<Movie>, RepoError>)
    requires SearchSound(cfg, cache, a)
    requires forall c: Criteria :: key != SearchEntryKey(cfg, c)
    ensures SearchSound(cfg, ReadOne(cache, store, key, ttl, inner).cache, a)
  {
    if inner.Success? && inner.value.Some? {
      OtherReadKeepsSearchSound(cfg, cache, a, key, Entry(One(inner.value.value), ttl));
    }
  }

  /** Every read keeps search entries sound. */
  lemma ReadsKeepSearchSound(cfg: CacheConfig, cache: Cache, store: Store, id: string, c: Criteria,
                             limit: int, currentYear: int)
    requires SearchSound(cfg, cache, StoreAnswers(store, currentYear))
    ensures SearchSound(cfg, CachedGetAll(cfg, cache, store, currentYear).cache, StoreAnswers(store, currentYear))
    ensures SearchSound(cfg, CachedGetById(cfg, cache, store, id, currentYear).cache,
                        StoreAnswers(store, currentYear))
    ensures SearchSound(cfg, CachedSearch(cfg, cache, store, c, currentYear).cache,
                        StoreAnswers(store, currentYear))
    ensures SearchSound(cfg, CachedGetPopular(cfg, cache, store, limit, currentYear).cache,
                        StoreAnswers(store, currentYear))
    ensures SearchSound(cfg, CachedGetRecommendations(cfg, cache, store, limit, currentYear).cache,
                        StoreAnswers(store, currentYear))
  {
    AllReadKeepsSearchSound(cfg, cache, store, currentYear);
    ByIdReadKeepsSearchSound(cfg, cache, store, id, currentYear);
    ListReadsKeepSearchSound(cfg, cache, store, limit, currentYear);
    OwnReadKeepsSearchSound(cfg, cache, store, c, currentYear);
  }

  lemma AllReadKeepsSearchSound(cfg: CacheConfig, cache: Cache, store: Store, currentYear: int)
    requires SearchSound(cfg, cache, StoreAnswers(store, currentYear))
    ensures SearchSound(cfg, CachedGetAll(cfg, cache, store, currentYear).cache, StoreAnswers(store, currentYear))
  {
    var a := StoreAnswers(store, currentYear);
    forall c': Criteria ensures SearchEntryKey(cfg, c') != AllEntryKey(cfg) {
      EntryKeysApart(cfg, "", "", c', c', 0, 0);
    }
    ReadManyKeepsSearchSound(cfg, cache, store, a, AllEntryKey(cfg), cfg.popularTtlMinutes, a.all);
  }

  lemma OwnReadKeepsSearchSound(cfg: CacheConfig, cache: Cache, store: Store, c: Criteria, currentYear: int)
    requires SearchSound(cfg, cache, StoreAnswers(store, currentYear))
    ensures SearchSound(cfg, CachedSearch(cfg, cache, store, c, currentYear).cache,
                        StoreAnswers(store, currentYear))
  {
    var a := StoreAnswers(store, currentYear);
    if a.search(c).Success? && !IsHit(cache, SearchEntryKey(cfg, c)) {
      SearchReadKeepsSearchSound(cfg, cache, a, c, cfg.popularTtlMinutes);
    }
  }

  lemma ByIdReadKeepsSearchSound(cfg: CacheConfig, cache: Cache, store: Store, id: string, currentYear: int)
    requires SearchSound(cfg, cache, StoreAnswers(store, currentYear))
    ensures SearchSound(cfg, CachedGetById(cfg, cache, store, id, currentYear).cache,
                        StoreAnswers(store, currentYear))
  {
    var a := StoreAnswers(store, currentYear);
    forall c': Criteria ensures SearchEntryKey(cfg, c') != IdEntryKey(cfg, id) {
      EntryKeysApart(cfg, id, id, c', c', 0, 0);
    }
    ReadOneKeepsSearchSound(cfg, cache, store, a, IdEntryKey(cfg, id), cfg.popularTtlMinutes, a.byId(id));
  }

  lemma ListReadsKeepSearchSound(cfg: CacheConfig, cache: Cache, store: Store, limit: int, currentYear: int)
    requires SearchSound(cfg, cache, StoreAnswers(store, currentYear))
    ensures SearchSound(cfg, CachedGetPopular(cfg, cache, store, limit, currentYear).cache,
                        StoreAnswers(store, currentYear))
    ensures SearchSound(cfg, CachedGetRecommendations(cfg, cache, store, limit, currentYear).cache,
                        StoreAnswers(store, currentYear))
  {
    var a := StoreAnswers(store, currentYear);
    forall c': Criteria
      ensures SearchEntryKey(cfg, c') != PopularEntryKey(cfg, limit)
      ensures SearchEntryKey(cfg, c') != RecoEntryKey(cfg, limit)
    {
      EntryKeysApart(cfg, "", "", c', c', limit, limit);
    }
    ReadManyKeepsSearchSound(cfg, cache, store, a, PopularEntryKey(cfg, limit), cfg.popularTtlMinutes,
                             a.popular(limit));
    ReadManyKeepsSearchSound(cfg, cache, store, a, RecoEntryKey(cfg, limit), cfg.recommendationsTtlMinutes,
                             a.reco(limit));
  }

  /** Every write keeps search entries sound under the default configuration:
      it sweeps them all, so none is left to go stale. */
  lemma WritesKeepSearchSound(cache: Cache, store: Store, m: Movie, id: string, newId: ObjectIdText,
                              currentYear: int)
    requires SearchSound(DefaultConfig, cache, StoreAnswers(store, currentYear))
    ensures var r := CachedCreate(cache, store, m, newId);
            SearchSound(DefaultConfig, r.cache, StoreAnswers(r.store, currentYear))
    ensures var r := CachedUpdate(DefaultConfig, cache, store, m);
            SearchSound(DefaultConfig, r.cache, StoreAnswers(r.store, currentYear))
    ensures var r := CachedDelete(cache, store, id);
            SearchSound(DefaultConfig, r.cache, StoreAnswers(r.store, currentYear))
  {
    forall c: Criteria
      ensures CachedCreate(cache, store, m, newId).result.Success? ==>
                SearchEntryKey(DefaultConfig, c) !in CachedCreate(cache, store, m, newId).cache
      ensures CachedUpdate(DefaultConfig, cache, store, m).result.Success? ==>
                SearchEntryKey(DefaultConfig, c) !in CachedUpdate(DefaultConfig, cache, store, m).cache
      ensures CachedDelete(cache, store, id).result.Success? ==>
                SearchEntryKey(DefaultConfig, c) !in CachedDelete(cache, store, id).cache
    {
      WritesInvalidateOnlySearch(cache, store, m, id, newId, c);
    }
  }

  /** The sample record of the collision below: title "a", one genre ":b". */
  const CollisionDoc: MovieDocument := MovieDocument(Some("0123456789abcdef01234567"), "a", [":b"], 0.0, 2000, 0, None)

  /** A record whose title is the query and whose first genre is the genre
      filter matches both, when neither has whitespace at its ends. */
  lemma EqualFieldsMatch(d: MovieDocument, q: string, g: string)
    requires IsTrimmed(q) && IsTrimmed(g) && d.title == q && |d.genre| > 0 && d.genre[0] == g
    ensures TextMatches(d, q) && GenreMatches(d, g)
  {
    TrimOfTrimmed(q);
    TrimOfTrimmed(g);
    ContainsItself(Lower(q));
    ContainsItself(Lower(g));
    assert ContainsIgnoreCase(d.title, Trim(q));
    assert ContainsIgnoreCase(d.genre[0], Trim(g));
  }

  /** Helper: every string occurs in itself. */
  lemma ContainsItself(s: string)
    ensures Contains(s, s)
  {
    assert HasPrefix(s, s);
  }

  /** A query longer than a record's title misses a record without description. */
  lemma LongQueryMisses(d: MovieDocument, q: string)
    requires IsTrimmed(q) && d.description.None? && |d.title| < |q|
    ensures !TextMatches(d, q)
  {
    assert !ContainsIgnoreCase(d.title, Trim(q)) by {
      TrimOfTrimmed(q);
      LongerNeverContained(Lower(d.title), Lower(q));
    }
  }

  /** Criteria with only a text and a genre filter, both non-blank. */
  lemma TextAndGenreOnly(d: MovieDocument, c: Criteria)
    requires c.yearFrom.None? && c.yearTo.None? && c.popularity.None? && c.rating.None?
    requires c.query.Some? && !IsBlank(c.query.value) && c.genre.Some? && !IsBlank(c.genre.value)
    ensures Matches(d, c) <==> TextMatches(d, c.query.value) && GenreMatches(d, c.genre.value)
  {
  }

  /** The sample record matches query "a" with genre ":b". */
  lemma CollisionDocMatches()
    ensures Matches(CollisionDoc, AnyCriteria.(query := Some("a"), genre := Some(":b")))
  {
    assert !IsWhiteSpace("a"[0]) && !IsWhiteSpace(":b"[0]) && !IsWhiteSpace(":b"[1]);
    EqualFieldsMatch(CollisionDoc, "a", ":b");
    TextAndGenreOnly(CollisionDoc, AnyCriteria.(query := Some("a"), genre := Some(":b")));
  }

  /** The sample record misses query "a:", whatever the genre. */
  lemma CollisionDocMisses()
    ensures !Matches(CollisionDoc, AnyCriteria.(query := Some("a:"), genre := Some("b")))
  {
    assert !IsWhiteSpace("a:"[0]) && !IsWhiteSpace("a:"[1]) && !IsWhiteSpace("b"[0]);
    LongQueryMisses(CollisionDoc, "a:");
    TextAndGenreOnly(CollisionDoc, AnyCriteria.(query := Some("a:"), genre := Some("b")));
  }

  /** The sample record is a valid movie. */
  lemma CollisionDocLoads()
    ensures ToDomain(CollisionDoc, 2024).Success?
  {
    var d := CollisionDoc;
    assert !IsBlank(d.title) by { assert !IsWhiteSpace(d.title[0]); }
    assert !IsBlank(d.genre[0]) by { assert !IsWhiteSpace(d.genre[0][0]); }
  }

  /** A store of one record finds it exactly when it matches. */
  lemma SearchOfOne(d: MovieDocument, c: Criteria, currentYear: int)
    ensures !Matches(d, c) ==> Search([d], c, currentYear) == Success([])
    ensures Matches(d, c) && ToDomain(d, currentYear).Success? ==>
              var r := Search([d], c, currentYear); r.Success? && |r.value| == 1
  {
    var s := [d];
    assert s[1..] == [];
    if Matches(d, c) {
      assert Filter(s, c) == s;
      assert forall x | x in s && Matches(x, c) :: x == d;
    } else {
      assert Filter(s, c) == [];
      SearchDocsShape(s, c);
      assert SearchDocs(s, c) == [];
    }
  }

  /** What the store answers the two sample criteria. */
  lemma CollisionSearches()
    ensures Search([CollisionDoc], AnyCriteria.(query := Some("a:"), genre := Some("b")), 2024) == Success([])
    ensures var r := Search([CollisionDoc], AnyCriteria.(query := Some("a"), genre := Some(":b")), 2024);
            r.Success? && |r.value| == 1
  {
    CollisionDocMatches();
    CollisionDocMisses();
    CollisionDocLoads();
    SearchOfOne(CollisionDoc, AnyCriteria.(query := Some("a:"), genre := Some("b")), 2024);
    SearchOfOne(CollisionDoc, AnyCriteria.(query := Some("a"), genre := Some(":b")), 2024);
  }

  /** A shared search key serves one criteria's answer to another. With one
      record stored, query "a" with genre ":b" finds it and query "a:" with
      genre "b" does not; both render the same key, so once the first is cached
      the second is answered from the cache with the first's movie. */
  lemma ColonCollisionServesForeignAnswer()
    ensures var c1 := AnyCriteria.(query := Some("a:"), genre := Some("b"));
            var c2 := AnyCriteria.(query := Some("a"), genre := Some(":b"));
            var first := CachedSearch(DefaultConfig, map[], [CollisionDoc], c2, 2024);
            var second := CachedSearch(DefaultConfig, first.cache, [CollisionDoc], c1, 2024);
            && Search([CollisionDoc], c1, 2024) == Success([])
            && first.result.Success? && |first.result.value| == 1
            && !second.consulted && second.result == first.result
  {
    var c1 := AnyCriteria.(query := Some("a:"), genre := Some("b"));
    var c2 := AnyCriteria.(query := Some("a"), genre := Some(":b"));
    var key := SearchEntryKey(DefaultConfig, c2);
    ColonShiftCollides(AnyCriteria, "a", "b");
    assert "a" + ":" == "a:" && ":" + "b" == ":b";
    assert SearchEntryKey(DefaultConfig, c1) == key;
    CollisionSearches();
    var first := CachedSearch(DefaultConfig, map[], [CollisionDoc], c2, 2024);
    assert first.consulted && first.result == Search([CollisionDoc], c2, 2024);
    assert first.cache == map[][key := Entry(Many(first.result.value), 60)];
    assert IsHit(first.cache, key);
  }
}
