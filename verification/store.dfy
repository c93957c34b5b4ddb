/** The document-store repository: the collection is a sequence of documents,
    every read maps the selected documents through the validating `ToDomain`,
    and every write returns the new collection.
 */
module MongoMovieRepository {
  import opened Wrappers
  import opened Text
  import opened MovieEntity
  import opened MovieMappings
  import opened Ordering
  import opened SearchCriteria

  /** Why a repository call fails: a stored document that the entity
      constructor rejects, an id that is not ObjectId text, an insert whose id
      is already taken, a cached value of the wrong shape, or a cache entry
      given an expiry that is not positive. */
  datatype RepoError =
    | Invalid(reason: DomainError)
    | MalformedId(id: string)
    | DuplicateKey(id: string)
    | Undecodable
    | InvalidTtl(minutes: int)

  predicate IsHexDigit(c: char) {
    '0' <= c <= '9' || 'a' <= c <= 'f' || 'A' <= c <= 'F'
  }

  /** The text form of an ObjectId: exactly 24 hexadecimal digits, in either
      case. The document id is stored with the ObjectId representation, so any
      other id text is refused as soon as a filter on it, or a document
      carrying it, is serialised. */
  predicate IsObjectId(s: string) {
    |s| == 24 && forall i | 0 <= i < |s| :: IsHexDigit(s[i])
  }

  /** An id the store generates on insert. */
  type ObjectIdText = s: string | IsObjectId(s) witness "000000000000000000000000"

  /** ObjectId text is never blank. */
  lemma ObjectIdNotBlank(s: string)
    requires IsObjectId(s)
    ensures !IsBlank(s)
  {
    assert !IsWhiteSpace(s[0]);
  }

  /** The collection, in natural (insertion) order. */
  type Store = seq<MovieDocument>

  /** The result of a write together with the collection it leaves behind. */
  datatype Written<T> = Written(value: T, store: Store)

  /** Limit used by the popular and recommendation queries when given 0 or less. */
  const DefaultTopLimit: nat := 20

  /** How many of the most popular records the recommendations skip. */
  const RecommendationSkip: nat := 5

  /** Every record has an ObjectId and no two records share one: what the id
      representation and the store's unique `_id` index guarantee. */
  ghost predicate ValidStore(s: Store) {
    && (forall k | 0 <= k < |s| :: s[k].id.Some? && IsObjectId(s[k].id.value))
    && (forall i, j | 0 <= i < j < |s| :: s[i].id != s[j].id)
  }

  /** One document to an entity, with the constructor's failure as a repository error. */
  function Load(d: MovieDocument, currentYear: int): (r: Result<Movie, RepoError>)
    ensures r.Success? <==> ToDomain(d, currentYear).Success?
    ensures r.Success? ==> r.value == ToDomain(d, currentYear).value
    ensures r.Failure? ==> r.error == Invalid(ToDomain(d, currentYear).error)
  {
    match ToDomain(d, currentYear)
    case Success(m) => Success(m)
    case Failure(e) => Failure(Invalid(e))
  }

  /** `docs.Select(ToDomain)`, enumerated. */
  function LoadAll(docs: seq<MovieDocument>, currentYear: int): Result<seq<Movie>, RepoError> {
    MapAll(docs, d => Load(d, currentYear))
  }

  /** Loading keeps each record's id, popularity, year and rating, in order. */
  lemma LoadAllKeepsFields(docs: seq<MovieDocument>, currentYear: int, ms: seq<Movie>)
    requires LoadAll(docs, currentYear) == Success(ms)
    ensures |ms| == |docs|
    ensures forall i | 0 <= i < |ms| :: ms[i].id == docs[i].id && ms[i].popularity == docs[i].popularity
                                       && ms[i].year == docs[i].year && ms[i].rating == docs[i].rating
  {
    forall i | 0 <= i < |ms|
      ensures ms[i].id == docs[i].id && ms[i].popularity == docs[i].popularity
              && ms[i].year == docs[i].year && ms[i].rating == docs[i].rating
    {
      assert Load(docs[i], currentYear) == Success(ms[i]);
    }
  }

  /** The position of the first record whose id is `id`, if any. */
  function FindId(s: Store, id: Option<string>): (r: Option<nat>)
    ensures r.None? <==> forall k | 0 <= k < |s| :: s[k].id != id
    ensures r.Some? ==> r.value < |s| && s[r.value].id == id
    ensures r.Some? ==> forall j | 0 <= j < r.value :: s[j].id != id
    decreases |s|
  {
    if s == [] then None
    else if s[0].id == id then Some(0)
    else
      match FindId(s[1..], id)
      case None =>
        assert forall k | 1 <= k < |s| :: s[k] == s[1..][k - 1];
        None
      case Some(k) => Some(k + 1)
  }

  /** In a valid store an id names at most one record. */
  lemma FindIdUnique(s: Store, k: nat)
    requires ValidStore(s) && k < |s|
    ensures FindId(s, s[k].id) == Some(k)
  {
  }

  /** All records, in store order; fails as soon as one record does not map,
      with that record's error. */
  function GetAll(s: Store, currentYear: int): (r: Result<seq<Movie>, RepoError>)
    ensures r.Success? <==> forall k | 0 <= k < |s| :: ToDomain(s[k], currentYear).Success?
    ensures r.Success? ==> |r.value| == |s|
    ensures r.Success? ==> forall k | 0 <= k < |s| :: ToDomain(s[k], currentYear) == Success(r.value[k])
    ensures r.Failure? ==> exists k | 0 <= k < |s| :: ToDomain(s[k], currentYear).Failure?
                                                     && r.error == Invalid(ToDomain(s[k], currentYear).error)
  {
    LoadAll(s, currentYear)
  }

  /** The record with id `id`, or none; fails when `id` is not ObjectId text
      and when the record found does not map. */
  function GetById(s: Store, id: string, currentYear: int): (r: Result<Option<Movie>, RepoError>)
    ensures r == Failure(MalformedId(id)) <==> !IsObjectId(id)
    ensures r == Success(None) <==> IsObjectId(id) && forall k | 0 <= k < |s| :: s[k].id != Some(id)
    ensures r.Success? && r.value.Some? ==>
              r.value.value.id == Some(id)
              && exists k | 0 <= k < |s| :: s[k].id == Some(id)
                                            && ToDomain(s[k], currentYear) == Success(r.value.value)
    ensures r.Failure? && IsObjectId(id) ==>
              exists k | 0 <= k < |s| :: s[k].id == Some(id) && ToDomain(s[k], currentYear).Failure?
  {
    if !IsObjectId(id) then Failure(MalformedId(id))
    else
      match FindId(s, Some(id))
      case None => Success(None)
      case Some(k) =>
        var m :- Load(s[k], currentYear);
        Success(Some(m))
  }

  /** Search: the selected documents, mapped to entities. Every result is the
      entity of a stored record that satisfies every present predicate, and
      there are no more of them than the effective limit. */
  function Search(s: Store, c: Criteria, currentYear: int): (r: Result<seq<Movie>, RepoError>)
    ensures r.Success? ==> |r.value| <= EffectiveLimit(c.limit, DefaultSearchLimit)
    ensures r.Success? ==> forall k | 0 <= k < |r.value| ::
                             exists d | d in s :: Matches(d, c) && Load(d, currentYear) == Success(r.value[k])
    ensures (forall d | d in s && Matches(d, c) :: ToDomain(d, currentYear).Success?) ==> r.Success?
    ensures r.Success? ==> var n := EffectiveLimit(c.limit, DefaultSearchLimit);
                           |r.value| == if n < |Filter(s, c)| then n else |Filter(s, c)|
  {
    var r := LoadAll(SearchDocs(s, c), currentYear);
    SearchLoadsValidMatches(s, c, currentYear);
    if r.Success? then
      SearchResultsAreMatches(s, c, currentYear, r.value);
      r
    else r
  }

  lemma SearchLoadsValidMatches(s: Store, c: Criteria, currentYear: int)
    ensures (forall d | d in s && Matches(d, c) :: ToDomain(d, currentYear).Success?) ==>
              LoadAll(SearchDocs(s, c), currentYear).Success?
  {
    if forall d | d in s && Matches(d, c) :: ToDomain(d, currentYear).Success? {
      var docs := SearchDocs(s, c);
      SearchSelectsMatches(s, c);
      forall k | 0 <= k < |docs|
        ensures Load(docs[k], currentYear).Success?
      {
        assert docs[k] in docs;
      }
    }
  }

  lemma SearchResultsAreMatches(s: Store, c: Criteria, currentYear: int, ms: seq<Movie>)
    requires LoadAll(SearchDocs(s, c), currentYear) == Success(ms)
    ensures forall k | 0 <= k < |ms| ::
              exists d | d in s :: Matches(d, c) && Load(d, currentYear) == Success(ms[k])
  {
    var docs := SearchDocs(s, c);
    SearchSelectsMatches(s, c);
    forall k | 0 <= k < |ms|
      ensures exists d | d in s :: Matches(d, c) && Load(d, currentYear) == Success(ms[k])
    {
      var d := docs[k];
      assert d in docs;
      assert Matches(d, c) && d in s;
      assert Load(d, currentYear) == Success(ms[k]);
    }
  }

  /** The most popular records: popularity-descending, at most `limit` (20 when
      `limit` is 0 or less), and none left out is more popular than one kept. */
  function PopularDocs(s: Store, limit: int): (r: seq<MovieDocument>)
    ensures var n := EffectiveLimit(limit, DefaultTopLimit);
            |r| == if n < |s| then n else |s|
    ensures forall i, j | 0 <= i < j < |r| :: r[i].popularity >= r[j].popularity
    ensures IsTopOf(r, s, ByPopularity, false)
  {
    var sorted := Sort(s, ByPopularity, false);
    var r := Take(sorted, EffectiveLimit(limit, DefaultTopLimit));
    PopularPrefix(s, |r|);
    r
  }

  /** Any prefix of the popularity-descending order is ordered and is the top
      part of the store. */
  lemma PopularPrefix(s: Store, n: nat)
    requires n <= |s|
    ensures var r := Sort(s, ByPopularity, false)[..n];
            && (forall i, j | 0 <= i < j < |r| :: r[i].popularity >= r[j].popularity)
            && IsTopOf(r, s, ByPopularity, false)
  {
    var sorted := Sort(s, ByPopularity, false);
    var r := sorted[..n];
    SortedPrefixIsTop(sorted, n, ByPopularity, false);
    forall i, j | 0 <= i < j < |r| ensures r[i].popularity >= r[j].popularity {
      assert r[i] == sorted[i] && r[j] == sorted[j];
    }
    assert IsTopOf(r, sorted, ByPopularity, false);
  }

  /** Popular movies: the selected documents, mapped, in popularity-descending order. */
  function GetPopular(s: Store, limit: int, currentYear: int): (r: Result<seq<Movie>, RepoError>)
    ensures r.Success? ==> var n := EffectiveLimit(limit, DefaultTopLimit);
                           |r.value| == if n < |s| then n else |s|
    ensures r.Success? ==> forall i, j | 0 <= i < j < |r.value| :: r.value[i].popularity >= r.value[j].popularity
  {
    var docs := PopularDocs(s, limit);
    var r := LoadAll(docs, currentYear);
    if r.Success? then
      LoadAllKeepsFields(docs, currentYear, r.value);
      r
    else r
  }

  /** The recommendations: the popularity-descending order with its first five
      records skipped, then at most `limit` (20 when `limit` is 0 or less). */
  function RecommendationDocs(s: Store, limit: int): (r: seq<MovieDocument>)
    ensures var n := EffectiveLimit(limit, DefaultTopLimit);
            var rest := if |s| <= RecommendationSkip then 0 else |s| - RecommendationSkip;
            |r| == if n < rest then n else rest
    ensures |s| <= RecommendationSkip ==> r == []
    ensures forall i, j | 0 <= i < j < |r| :: r[i].popularity >= r[j].popularity
    ensures multiset(r) <= multiset(s)
  {
    var r := Take(Drop(Sort(s, ByPopularity, false), RecommendationSkip), EffectiveLimit(limit, DefaultTopLimit));
    PopularSlice(s, RecommendationSkip, EffectiveLimit(limit, DefaultTopLimit));
    r
  }

  /** Any slice of the popularity-descending order is ordered and drawn from the store. */
  lemma PopularSlice(s: Store, skip: nat, n: nat)
    ensures var r := Take(Drop(Sort(s, ByPopularity, false), skip), n);
            && (forall i, j | 0 <= i < j < |r| :: r[i].popularity >= r[j].popularity)
            && multiset(r) <= multiset(s)
  {
    var sorted := Sort(s, ByPopularity, false);
    var rest := Drop(sorted, skip);
    var r := Take(rest, n);
    var off := |sorted| - |rest|;
    forall i, j | 0 <= i < j < |r| ensures r[i].popularity >= r[j].popularity {
      assert r[i] == sorted[off + i] && r[j] == sorted[off + j];
    }
    assert sorted == sorted[..off] + rest;
    PrefixSubMultiset(rest, |r|);
  }

  /** Recommended movies: the selected documents, mapped, in popularity-descending order. */
  function GetRecommendations(s: Store, limit: int, currentYear: int): (r: Result<seq<Movie>, RepoError>)
    ensures r.Success? ==> var n := EffectiveLimit(limit, DefaultTopLimit);
                           var rest := if |s| <= RecommendationSkip then 0 else |s| - RecommendationSkip;
                           |r.value| == if n < rest then n else rest
    ensures |s| <= RecommendationSkip ==> r == Success([])
    ensures r.Success? ==> forall i, j | 0 <= i < j < |r.value| :: r.value[i].popularity >= r.value[j].popularity
  {
    var docs := RecommendationDocs(s, limit);
    var r := LoadAll(docs, currentYear);
    if r.Success? then
      LoadAllKeepsFields(docs, currentYear, r.value);
      r
    else r
  }

  /** For a positive limit the recommendations are exactly the records that the
      popular list ranks sixth to (5 + limit)-th. */
  lemma PopularThenRecommendations(s: Store, limit: int)
    requires limit > 0
    ensures PopularDocs(s, RecommendationSkip + limit)
            == PopularDocs(s, RecommendationSkip) + RecommendationDocs(s, limit)
  {
    var sorted := Sort(s, ByPopularity, false);
    TakeSplit(sorted, RecommendationSkip, limit);
  }

  /** Taking `a + b` elements is taking `a`, then `b` of the rest. */
  lemma TakeSplit<T>(s: seq<T>, a: nat, b: nat)
    ensures Take(s, a + b) == Take(s, a) + Take(Drop(s, a), b)
  {
    if a < |s| {
      assert Drop(s, a) == s[a..];
      if a + b < |s| {
        assert s[..a + b] == s[..a] + s[a..][..b];
      } else {
        assert s == s[..a] + s[a..];
      }
    }
  }

  /** No recommended record is more popular than any of the five it skips. */
  lemma RecommendationsRankBelowTopFive(s: Store, limit: int)
    requires limit > 0
    ensures forall x, y | x in PopularDocs(s, RecommendationSkip) && y in RecommendationDocs(s, limit) ::
              x.popularity >= y.popularity
  {
    PopularThenRecommendations(s, limit);
    var top, reco := PopularDocs(s, RecommendationSkip), RecommendationDocs(s, limit);
    var all := PopularDocs(s, RecommendationSkip + limit);
    forall x, y | x in top && y in reco
      ensures x.popularity >= y.popularity
    {
      var i :| 0 <= i < |top| && top[i] == x;
      var j :| 0 <= j < |reco| && reco[j] == y;
      assert all[i] == x && all[|top| + j] == y;
    }
  }

  /** Insert. A movie without a real id gets the id the store generates
      (`newId`); any other id must be ObjectId text. An id already in use is
      rejected by the unique index and the store is left alone. The returned
      movie is the input with the assigned id, and the new last document is
      its image. */
  function Create(s: Store, m: Movie, newId: ObjectIdText): (r: Result<Written<Movie>, RepoError>)
    ensures !IsNullOrWhiteSpace(m.id) && !IsObjectId(m.id.value) ==> r == Failure(MalformedId(m.id.value))
    ensures !IsNullOrWhiteSpace(m.id) && IsObjectId(m.id.value) ==>
              (r.Failure? <==> exists k | 0 <= k < |s| :: s[k].id == m.id)
              && (r.Failure? ==> r.error == DuplicateKey(m.id.value))
    ensures IsNullOrWhiteSpace(m.id) ==>
              (r.Failure? <==> exists k | 0 <= k < |s| :: s[k].id == Some(newId))
              && (r.Failure? ==> r.error == DuplicateKey(newId))
    ensures r.Success? ==>
              var v, s' := r.value.value, r.value.store;
              && v == m.(id := v.id)
              && v.id.Some? && IsObjectId(v.id.value)
              && (!IsNullOrWhiteSpace(m.id) ==> v.id == m.id)
              && (IsNullOrWhiteSpace(m.id) ==> v.id == Some(newId))
              && (forall k | 0 <= k < |s| :: s[k].id != v.id)
              && s' == s + [ToDocument(v)]
  {
    var doc := ToDocument(m);
    if doc.id.Some? then
      if !IsObjectId(doc.id.value) then Failure(MalformedId(doc.id.value))
      else if FindId(s, doc.id).Some? then Failure(DuplicateKey(doc.id.value))
      else Success(Written(m, s + [doc]))
    else
      var v := m.(id := Some(newId));
      if FindId(s, v.id).Some? then Failure(DuplicateKey(newId))
      else
        ObjectIdNotBlank(newId);
        Success(Written(v, s + [ToDocument(v)]))
  }

  /** Replace the record whose id equals the movie's id with the movie's
      document, keeping the stored id; with no such record, nothing changes.
      An id that is not ObjectId text is refused. */
  function Update(s: Store, m: Movie): (r: Result<Written<Option<Movie>>, RepoError>)
    ensures r.Failure? <==> m.id.Some? && !IsObjectId(m.id.value)
    ensures r.Failure? ==> r.error == MalformedId(m.id.value)
    ensures r.Success? ==> (r.value.value.None? <==> forall k | 0 <= k < |s| :: s[k].id != m.id)
    ensures r.Success? && r.value.value.None? ==> r.value.store == s
    ensures r.Success? && r.value.value.Some? ==> r.value.value.value == m
    ensures r.Success? ==> |r.value.store| == |s|
    ensures r.Success? ==> forall k | 0 <= k < |s| :: r.value.store[k].id == s[k].id
    ensures r.Success? && r.value.value.Some? ==>
              exists k | 0 <= k < |s| :: s[k].id == m.id
                                         && r.value.store[k] == ToDocument(m).(id := m.id)
                                         && forall j | 0 <= j < |s| && j != k :: r.value.store[j] == s[j]
  {
    if m.id.Some? && !IsObjectId(m.id.value) then Failure(MalformedId(m.id.value))
    else
      match FindId(s, m.id)
      case None => Success(Written(None, s))
      case Some(k) => Success(Written(Some(m), s[k := ToDocument(m).(id := s[k].id)]))
  }

  /** Remove the first record with id `id`; report whether there was one. An
      id that is not ObjectId text is refused. */
  function Delete(s: Store, id: string): (r: Result<Written<bool>, RepoError>)
    ensures r.Failure? <==> !IsObjectId(id)
    ensures r.Failure? ==> r.error == MalformedId(id)
    ensures r.Success? ==> (r.value.value <==> exists k | 0 <= k < |s| :: s[k].id == Some(id))
    ensures r.Success? && !r.value.value ==> r.value.store == s
    ensures r.Success? && r.value.value ==>
              exists k | 0 <= k < |s| :: s[k].id == Some(id) && r.value.store == s[..k] + s[k + 1..]
  {
    if !IsObjectId(id) then Failure(MalformedId(id))
    else
      match FindId(s, Some(id))
      case None => Success(Written(false, s))
      case Some(k) => Success(Written(true, s[..k] + s[k + 1..]))
  }

  lemma CreatePreservesValid(s: Store, m: Movie, newId: ObjectIdText)
    requires ValidStore(s) && Create(s, m, newId).Success?
    ensures ValidStore(Create(s, m, newId).value.store)
  {
    var v := Create(s, m, newId).value.value;
    ObjectIdNotBlank(v.id.value);
    assert ToDocument(v).id == v.id;
  }

  lemma UpdatePreservesValid(s: Store, m: Movie)
    requires ValidStore(s) && Update(s, m).Success?
    ensures ValidStore(Update(s, m).value.store)
  {
  }

  lemma DeletePreservesValid(s: Store, id: string)
    requires ValidStore(s) && Delete(s, id).Success?
    ensures ValidStore(Delete(s, id).value.store)
  {
    if FindId(s, Some(id)).Some? {
      var k, t := FindId(s, Some(id)).value, Delete(s, id).value.store;
      DeletedPositions(s, id);
      forall i | 0 <= i < |t| ensures t[i].id.Some? && IsObjectId(t[i].id.value) {
        assert t[i] == s[if i < k then i else i + 1];
      }
      forall i, j | 0 <= i < j < |t| ensures t[i].id != t[j].id {
        assert t[i] == s[if i < k then i else i + 1] && t[j] == s[if j < k then j else j + 1];
      }
    }
  }

  /** Where each record left by a delete stood before it. */
  lemma DeletedPositions(s: Store, id: string)
    requires IsObjectId(id) && FindId(s, Some(id)).Some?
    ensures var k, t := FindId(s, Some(id)).value, Delete(s, id).value.store;
            |t| == |s| - 1 && forall i | 0 <= i < |t| :: t[i] == s[if i < k then i else i + 1]
  {
    var k, t := FindId(s, Some(id)).value, Delete(s, id).value.store;
    var pre, post := s[..k], s[k + 1..];
    assert Delete(s, id) == Success(Written(true, pre + post));
    assert t == pre + post && |pre| == k;
    forall i | 0 <= i < k ensures t[i] == s[i] {
      assert t[i] == pre[i];
    }
    forall i | k <= i < |t| ensures t[i] == s[i + 1] {
      assert t[i] == post[i - k];
    }
  }

  /** A created valid movie reads back unchanged under its assigned id. */
  lemma CreateThenGetById(s: Store, m: Movie, newId: ObjectIdText, currentYear: int)
    requires ValidStore(s) && IsValid(m, currentYear) && Create(s, m, newId).Success?
    ensures var w := Create(s, m, newId).value;
            GetById(w.store, w.value.id.value, currentYear) == Success(Some(w.value))
  {
    var w := Create(s, m, newId).value;
    CreatePreservesValid(s, m, newId);
    ObjectIdNotBlank(w.value.id.value);
    assert w.store[|s|] == ToDocument(w.value);
    FindIdUnique(w.store, |s|);
    RoundTrip(w.value, currentYear);
  }

  /** After a successful update, reading the id gives back what the written
      document maps to. */
  lemma UpdatedRecordReadsBack(s: Store, m: Movie, currentYear: int)
    requires ValidStore(s) && Update(s, m).Success? && Update(s, m).value.value.Some?
    ensures m.id.Some? && IsObjectId(m.id.value)
    ensures var d, s' := ToDocument(m).(id := m.id), Update(s, m).value.store;
            && (Load(d, currentYear).Success? ==>
                  GetById(s', m.id.value, currentYear) == Success(Some(Load(d, currentYear).value)))
            && (Load(d, currentYear).Failure? ==> GetById(s', m.id.value, currentYear).Failure?)
  {
    var k := FindId(s, m.id).value;
    var s' := Update(s, m).value.store;
    assert s' == s[k := ToDocument(m).(id := m.id)];
    UpdatePreservesValid(s, m);
    FindIdUnique(s', k);
  }

  /** After a successful update of a valid movie, reading its id gives it back. */
  lemma UpdateThenGetById(s: Store, m: Movie, currentYear: int)
    requires ValidStore(s) && IsValid(m, currentYear)
    requires Update(s, m).Success? && Update(s, m).value.value.Some?
    ensures GetById(Update(s, m).value.store, m.id.value, currentYear) == Success(Some(m))
  {
    UpdatedRecordReadsBack(s, m, currentYear);
    ObjectIdNotBlank(m.id.value);
    RoundTrip(m, currentYear);
    assert ToDocument(m).(id := m.id) == ToDocument(m);
  }

  /** Update writes without validating: a movie the constructor would refuse is
      stored, and reading its id back then fails. */
  lemma UpdateUnreadableThenGetByIdFails(s: Store, m: Movie, currentYear: int)
    requires ValidStore(s) && Update(s, m).Success? && Update(s, m).value.value.Some?
    requires ToDomain(ToDocument(m), currentYear).Failure?
    ensures m.id.Some? && GetById(Update(s, m).value.store, m.id.value, currentYear).Failure?
  {
    UpdatedRecordReadsBack(s, m, currentYear);
    ObjectIdNotBlank(m.id.value);
    assert ToDocument(m).(id := m.id) == ToDocument(m);
  }

  /** After a delete the id reads as absent. */
  lemma DeleteForgetsId(s: Store, id: string, currentYear: int)
    requires ValidStore(s) && Delete(s, id).Success?
    ensures GetById(Delete(s, id).value.store, id, currentYear) == Success(None)
  {
    if FindId(s, Some(id)).Some? {
      var k, t := FindId(s, Some(id)).value, Delete(s, id).value.store;
      DeletedPositions(s, id);
      forall i | 0 <= i < |t|
        ensures t[i].id != Some(id)
      {
        var i' := if i < k then i else i + 1;
        assert t[i] == s[i'] && i' != k;
      }
    }
  }

  /** A delete keeps every record with another id. */
  lemma DeleteKeepsOthers(s: Store, id: string)
    requires Delete(s, id).Success?
    ensures forall d | d in s && d.id != Some(id) :: d in Delete(s, id).value.store
  {
    var r := Delete(s, id).value;
    if r.value {
      var k := FindId(s, Some(id)).value;
      var t := r.store;
      assert t == s[..k] + s[k + 1..];
      forall d | d in s && d.id != Some(id)
        ensures d in t
      {
        var i :| 0 <= i < |s| && s[i] == d;
        assert i != k;
        var j := if i < k then i else i - 1;
        assert t[j] == s[i];
      }
    }
  }

  /** Every id operation refuses text that is not an ObjectId, and none of them
      touches the store when it does. */
  lemma MalformedIdRefused(s: Store, id: string, m: Movie, newId: ObjectIdText, currentYear: int)
    requires !IsObjectId(id)
    ensures GetById(s, id, currentYear) == Failure(MalformedId(id))
    ensures Delete(s, id) == Failure(MalformedId(id))
    ensures Update(s, m.(id := Some(id))) == Failure(MalformedId(id))
    ensures !IsBlank(id) ==> Create(s, m.(id := Some(id)), newId) == Failure(MalformedId(id))
  {
  }
}
