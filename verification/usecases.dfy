/** The two use cases with logic of their own: creating a movie (validate, then
    hand the entity to the repository) and patching one (read it, overwrite the
    fields given, write it back). Both work against either repository.
 */
module MovieUseCases {
  import opened Wrappers
  import opened Text
  import opened MovieEntity
  import opened MovieMappings
  import M = MongoMovieRepository
  import R = MovieRepository

  /** A use case fails with the constructor's exception or with the repository's. */
  datatype UseCaseError = Rejected(reason: DomainError) | Repository(error: M.RepoError)

  /** What a use case yields: its result, the repository afterwards, and whether
      it reached the repository write it exists for. */
  datatype Outcome<T> = Outcome(result: Result<T, UseCaseError>, repo: R.Repository, wrote: bool)

  /** A repository result as a use-case result, unchanged. */
  function Lift<T>(r: Result<T, M.RepoError>): (l: Result<T, UseCaseError>)
    ensures l.Success? <==> r.Success?
    ensures r.Success? ==> l.value == r.value
    ensures r.Failure? ==> l.error == Repository(r.error)
  {
    match r
    case Success(v) => Success(v)
    case Failure(e) => Failure(Repository(e))
  }

  /** `CreateMovieUseCase.ExecuteAsync`: build the entity with the validating
      constructor; when it throws the repository is never called, otherwise its
      create result is returned as it is. The entity handed over has the trimmed
      title and every other input verbatim; `newId` is the id the store
      generates for it. */
  function CreateMovie(repo: R.Repository, title: string, genre: seq<string>, year: int, rating: real,
                       popularity: int, description: Option<string>, currentYear: int,
                       newId: M.ObjectIdText): (o: Outcome<Movie>)
    ensures o.wrote <==> !IsBlank(title) && HasNonBlankGenre(genre) && YearInRange(year, currentYear)
    ensures !o.wrote ==> o.repo == repo && o.result.Failure? && o.result.error.Rejected?
    ensures !o.wrote ==> (o.result.error.reason == TitleRequired <==> IsBlank(title))
    ensures o.wrote ==>
              var reply := R.Create(repo, Movie(None, Trim(title), genre, rating, year, popularity, description), newId);
              o.result == Lift(reply.result) && o.repo == reply.repo
  {
    match NewMovie(title, Some(genre), year, rating, popularity, description, currentYear)
    case Failure(e) => Outcome(Failure(Rejected(e)), repo, false)
    case Success(m) =>
      var reply := R.Create(repo, m, newId);
      Outcome(Lift(reply.result), reply.repo, true)
  }

  /** Against the store, a valid creation with an unused generated id comes
      back with the inputs in its fields (the title trimmed) and that id. */
  lemma CreateReturnsInputs(s: M.Store, title: string, genre: seq<string>, year: int, rating: real,
                            popularity: int, description: Option<string>, currentYear: int,
                            newId: M.ObjectIdText)
    requires !IsBlank(title) && HasNonBlankGenre(genre) && YearInRange(year, currentYear)
    requires forall k | 0 <= k < |s| :: s[k].id != Some(newId)
    ensures var o := CreateMovie(R.Direct(s), title, genre, year, rating, popularity, description, currentYear,
                                 newId);
            && o.result.Success?
            && o.result.value.title == Trim(title) && o.result.value.genre == genre
            && o.result.value.year == year && o.result.value.rating == rating
            && o.result.value.popularity == popularity && o.result.value.description == description
            && o.result.value.id == Some(newId)
  {
    var m := Movie(None, Trim(title), genre, rating, year, popularity, description);
    assert M.Create(s, m, newId).Success?;
  }

  /** The optional arguments of a patch; `None` means "leave as it is". */
  datatype Patch = Patch(
    title: Option<string>,
    genre: Option<seq<string>>,
    year: Option<int>,
    rating: Option<real>,
    popularity: Option<int>,
    description: Option<string>)

  const NoChange: Patch := Patch(None, None, None, None, None, None)

  /** The field assignments of the patch, done directly on the entity: no
      validation and no trimming. */
  function Apply(m: Movie, p: Patch): (r: Movie)
    ensures r.id == m.id
    ensures p.title.Some? ==> r.title == p.title.value
    ensures p.title.None? ==> r.title == m.title
    ensures p.genre.Some? ==> r.genre == p.genre.value
    ensures p.genre.None? ==> r.genre == m.genre
    ensures p.year.Some? ==> r.year == p.year.value
    ensures p.year.None? ==> r.year == m.year
    ensures p.rating.Some? ==> r.rating == p.rating.value
    ensures p.rating.None? ==> r.rating == m.rating
    ensures p.popularity.Some? ==> r.popularity == p.popularity.value
    ensures p.popularity.None? ==> r.popularity == m.popularity
    ensures p.description.Some? ==> r.description == p.description
    ensures p.description.None? ==> r.description == m.description
  {
    m.(title := p.title.GetOr(m.title),
       genre := p.genre.GetOr(m.genre),
       year := p.year.GetOr(m.year),
       rating := p.rating.GetOr(m.rating),
       popularity := p.popularity.GetOr(m.popularity),
       description := if p.description.Some? then p.description else m.description)
  }

  /** An empty patch changes nothing, and applying a patch twice is applying it once. */
  lemma PatchLaws(m: Movie, p: Patch)
    ensures Apply(m, NoChange) == m
    ensures Apply(Apply(m, p), p) == Apply(m, p)
  {
  }

  /** A description can be replaced but never removed: null means "keep". */
  lemma DescriptionCannotBeCleared(m: Movie, p: Patch)
    requires m.description.Some?
    ensures Apply(m, p).description.Some?
  {
  }

  /** The patch bypasses the constructor: an empty title, or a year before 1900,
      yields a movie the constructor would have refused. */
  lemma PatchBypassesValidation(m: Movie, p: Patch, currentYear: int)
    requires p.title == Some("") || (p.year.Some? && p.year.value < MinYear)
    ensures !IsValid(Apply(m, p), currentYear)
    ensures CopyMovie(Apply(m, p), currentYear).Failure?
  {
    if p.title == Some("") {
      assert IsBlank(Apply(m, p).title);
    }
  }

  /** `UpdateMovieUseCase.ExecutePatchAsync`: read the movie; when there is
      none, return none without writing; otherwise overwrite the fields the
      patch gives and return what the repository's update returns. */
  function PatchMovie(repo: R.Repository, id: string, p: Patch, currentYear: int): (o: Outcome<Option<Movie>>)
    ensures var found := R.GetById(repo, id, currentYear);
            && (o.wrote <==> found.result.Success? && found.result.value.Some?)
            && (found.result == Success(None) ==> o.result == Success(None) && o.repo == found.repo)
            && (found.result.Failure? ==> o.result == Lift(found.result) && o.repo == found.repo)
            && (o.wrote ==>
                  var reply := R.Update(found.repo, Apply(found.result.value.value, p));
                  o.result == Lift(reply.result) && o.repo == reply.repo)
  {
    var found := R.GetById(repo, id, currentYear);
    match found.result
    case Failure(e) => Outcome(Failure(Repository(e)), found.repo, false)
    case Success(None) => Outcome(Success(None), found.repo, false)
    case Success(Some(existing)) =>
      var reply := R.Update(found.repo, Apply(existing, p));
      Outcome(Lift(reply.result), reply.repo, true)
  }

  /** Against the store, patching a record that exists under an ObjectId
      returns the patched movie with its id unchanged. */
  lemma PatchReturnsPatched(s: M.Store, id: string, p: Patch, currentYear: int)
    requires M.IsObjectId(id)
    requires exists k | 0 <= k < |s| :: s[k].id == Some(id)
    requires forall k | 0 <= k < |s| && s[k].id == Some(id) :: ToDomain(s[k], currentYear).Success?
    ensures var o := PatchMovie(R.Direct(s), id, p, currentYear);
            o.wrote && o.result == Success(Some(Apply(M.GetById(s, id, currentYear).value.value, p)))
            && o.result.value.value.id == Some(id)
  {
    var j := M.FindId(s, Some(id)).value;
    assert M.GetById(s, id, currentYear) == Success(Some(ToDomain(s[j], currentYear).value));
    var m := M.GetById(s, id, currentYear).value.value;
    var k :| 0 <= k < |s| && s[k].id == Some(id) && ToDomain(s[k], currentYear) == Success(m);
    assert s[k].id == Apply(m, p).id;
  }

  /** The store can be left with a record it cannot read back: once a patch
      sets a year before 1900, reading that id fails. */
  lemma PatchedInvalidBreaksLaterRead(s: M.Store, id: string, p: Patch, currentYear: int)
    requires M.ValidStore(s)
    requires M.GetById(s, id, currentYear).Success? && M.GetById(s, id, currentYear).value.Some?
    requires p.year.Some? && p.year.value < MinYear
    ensures var o := PatchMovie(R.Direct(s), id, p, currentYear);
            o.wrote && o.result.Success? && M.GetById(o.repo.store, id, currentYear).Failure?
  {
    var m := M.GetById(s, id, currentYear).value.value;
    var patched := Apply(m, p);
    var k :| 0 <= k < |s| && s[k].id == Some(id) && ToDomain(s[k], currentYear) == Success(m);
    assert M.Update(s, patched).Success? && M.Update(s, patched).value.value.Some? by {
      assert s[k].id == patched.id;
    }
    M.UpdateUnreadableThenGetByIdFails(s, patched, currentYear);
  }
}
