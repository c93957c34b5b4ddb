/** The repository interface: the eight operations every movie repository
    offers, for the two implementations the system composes — the document
    store on its own, and the cache-aside decorator in front of it.
 */
module MovieRepository {
  import opened Wrappers
  import opened MovieEntity
  import opened SearchCriteria
  import M = MongoMovieRepository
  import C = CachedMovieRepository

  /** A repository value: the bare store, or the store behind the cache. */
  datatype Repository =
    | Direct(store: M.Store)
    | Cached(store: M.Store, cache: C.Cache, config: C.CacheConfig)

  /** What a call yields: its result, the repository after the call, and
      whether the document store was consulted. */
  datatype Reply<T> = Reply(result: Result<T, M.RepoError>, repo: Repository, consulted: bool)

  /** The repository after a decorator step. */
  function Resume<T>(r: Repository, s: C.Step<T>): Reply<T>
    requires r.Cached?
  {
    Reply(s.result, Cached(s.store, s.cache, r.config), s.consulted)
  }

  function GetAll(r: Repository, currentYear: int): Reply<seq<Movie>> {
    match r
    case Direct(s) => Reply(M.GetAll(s, currentYear), r, true)
    case Cached(s, c, cfg) => Resume(r, C.CachedGetAll(cfg, c, s, currentYear))
  }

  function GetById(r: Repository, id: string, currentYear: int): Reply<Option<Movie>> {
    match r
    case Direct(s) => Reply(M.GetById(s, id, currentYear), r, true)
    case Cached(s, c, cfg) => Resume(r, C.CachedGetById(cfg, c, s, id, currentYear))
  }

  function Search(r: Repository, c: Criteria, currentYear: int): Reply<seq<Movie>> {
    match r
    case Direct(s) => Reply(M.Search(s, c, currentYear), r, true)
    case Cached(s, cache, cfg) => Resume(r, C.CachedSearch(cfg, cache, s, c, currentYear))
  }

  function GetPopular(r: Repository, limit: int, currentYear: int): Reply<seq<Movie>> {
    match r
    case Direct(s) => Reply(M.GetPopular(s, limit, currentYear), r, true)
    case Cached(s, c, cfg) => Resume(r, C.CachedGetPopular(cfg, c, s, limit, currentYear))
  }

  function GetRecommendations(r: Repository, limit: int, currentYear: int): Reply<seq<Movie>> {
    match r
    case Direct(s) => Reply(M.GetRecommendations(s, limit, currentYear), r, true)
    case Cached(s, c, cfg) => Resume(r, C.CachedGetRecommendations(cfg, c, s, limit, currentYear))
  }

  /** Create; `newId` is the id the store generates when the movie has none. */
  function Create(r: Repository, m: Movie, newId: M.ObjectIdText): Reply<Movie> {
    match r
    case Direct(s) =>
      (match M.Create(s, m, newId)
       case Failure(e) => Reply(Failure(e), r, true)
       case Success(w) => Reply(Success(w.value), Direct(w.store), true))
    case Cached(s, c, cfg) => Resume(r, C.CachedCreate(c, s, m, newId))
  }

  function Update(r: Repository, m: Movie): Reply<Option<Movie>> {
    match r
    case Direct(s) =>
      (match M.Update(s, m)
       case Failure(e) => Reply(Failure(e), r, true)
       case Success(w) => Reply(Success(w.value), Direct(w.store), true))
    case Cached(s, c, cfg) => Resume(r, C.CachedUpdate(cfg, c, s, m))
  }

  function Delete(r: Repository, id: string): Reply<bool> {
    match r
    case Direct(s) =>
      (match M.Delete(s, id)
       case Failure(e) => Reply(Failure(e), r, true)
       case Success(w) => Reply(Success(w.value), Direct(w.store), true))
    case Cached(s, c, cfg) => Resume(r, C.CachedDelete(c, s, id))
  }

  /** Writes behave the same through either implementation: every write reaches
      the store, with the same result and the same store afterwards. The
      decorator only adds the invalidation. */
  lemma WritesAgree(s: M.Store, cache: C.Cache, cfg: C.CacheConfig, m: Movie, id: string, newId: M.ObjectIdText)
    ensures Create(Cached(s, cache, cfg), m, newId).result == Create(Direct(s), m, newId).result
    ensures Create(Cached(s, cache, cfg), m, newId).repo.store == Create(Direct(s), m, newId).repo.store
    ensures Update(Cached(s, cache, cfg), m).result == Update(Direct(s), m).result
    ensures Update(Cached(s, cache, cfg), m).repo.store == Update(Direct(s), m).repo.store
    ensures Delete(Cached(s, cache, cfg), id).result == Delete(Direct(s), id).result
    ensures Delete(Cached(s, cache, cfg), id).repo.store == Delete(Direct(s), id).repo.store
    ensures Create(Cached(s, cache, cfg), m, newId).consulted && Update(Cached(s, cache, cfg), m).consulted
            && Delete(Cached(s, cache, cfg), id).consulted
  {
  }

  /** A read through the repository interface: the bare store answers with the
      store function itself; the decorator answers like the store on a miss
      (given positive TTLs) and from the cache without the store on a hit.
      Either way the store is left as it was. */
  lemma ReadsDispatch(r: Repository, id: string, c: Criteria, limit: int, currentYear: int)
    ensures r.Direct? ==> GetAll(r, currentYear) == Reply(M.GetAll(r.store, currentYear), r, true)
    ensures r.Direct? ==> GetById(r, id, currentYear) == Reply(M.GetById(r.store, id, currentYear), r, true)
    ensures r.Direct? ==> Search(r, c, currentYear) == Reply(M.Search(r.store, c, currentYear), r, true)
    ensures r.Direct? ==> GetPopular(r, limit, currentYear) == Reply(M.GetPopular(r.store, limit, currentYear), r, true)
    ensures r.Direct? ==>
              GetRecommendations(r, limit, currentYear) == Reply(M.GetRecommendations(r.store, limit, currentYear), r, true)
    ensures GetAll(r, currentYear).repo.store == r.store && GetById(r, id, currentYear).repo.store == r.store
    ensures Search(r, c, currentYear).repo.store == r.store
    ensures GetPopular(r, limit, currentYear).repo.store == r.store
    ensures GetRecommendations(r, limit, currentYear).repo.store == r.store
    ensures r.Cached? && C.PositiveTtls(r.config) && GetAll(r, currentYear).consulted ==>
              GetAll(r, currentYear).result == M.GetAll(r.store, currentYear)
    ensures r.Cached? && C.PositiveTtls(r.config) && GetById(r, id, currentYear).consulted ==>
              GetById(r, id, currentYear).result == M.GetById(r.store, id, currentYear)
    ensures r.Cached? && C.PositiveTtls(r.config) && Search(r, c, currentYear).consulted ==>
              Search(r, c, currentYear).result == M.Search(r.store, c, currentYear)
    ensures r.Cached? && C.PositiveTtls(r.config) && GetPopular(r, limit, currentYear).consulted ==>
              GetPopular(r, limit, currentYear).result == M.GetPopular(r.store, limit, currentYear)
    ensures r.Cached? && C.PositiveTtls(r.config) && GetRecommendations(r, limit, currentYear).consulted ==>
              GetRecommendations(r, limit, currentYear).result == M.GetRecommendations(r.store, limit, currentYear)
  {
  }
}
