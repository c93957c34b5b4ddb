/** The movie entity and its validating constructors. */
module MovieEntity {
  import opened Wrappers
  import opened Text

  /** A movie. `id` is `None` until the store assigns one; `description` is
      nullable. */
  datatype Movie = Movie(
    id: Option<string>,
    title: string,
    genre: seq<string>,
    rating: real,
    year: int,
    popularity: int,
    description: Option<string>)

  /** The three ways construction can fail (each a `DomainException`). */
  datatype DomainError = TitleRequired | GenreRequired | YearInvalid

  const MinYear: int := 1900

  /** At least one genre entry that is not null, empty or whitespace. */
  predicate HasNonBlankGenre(genre: seq<string>) {
    exists k | 0 <= k < |genre| :: !IsBlank(genre[k])
  }

  predicate YearInRange(year: int, currentYear: int) {
    MinYear <= year <= currentYear + 1
  }

  /** What the constructor guarantees of every movie it builds. */
  predicate IsValid(m: Movie, currentYear: int) {
    && m.title != []
    && IsTrimmed(m.title)
    && HasNonBlankGenre(m.genre)
    && YearInRange(m.year, currentYear)
  }

  /** The validating constructor. `genre` is nullable; `currentYear` stands for
      `DateTime.UtcNow.Year`. Checks run in the order title, genre, year, and all
      of them come before any field is set, so a failure yields no movie at all. */
  function NewMovie(title: string, genre: Option<seq<string>>, year: int, rating: real,
                    popularity: int, description: Option<string>, currentYear: int)
    : (r: Result<Movie, DomainError>)
    ensures r == Failure(TitleRequired) <==> IsBlank(title)
    ensures r == Failure(GenreRequired) <==>
              !IsBlank(title) && !(genre.Some? && HasNonBlankGenre(genre.value))
    ensures r == Failure(YearInvalid) <==>
              !IsBlank(title) && genre.Some? && HasNonBlankGenre(genre.value)
              && !YearInRange(year, currentYear)
    ensures r.Success? ==> IsValid(r.value, currentYear) && r.value.id.None?
    ensures r.Success? ==> r.value.title == Trim(title) && Some(r.value.genre) == genre
                           && r.value.year == year && r.value.rating == rating
                           && r.value.popularity == popularity
                           && r.value.description == description
  {
    if IsBlank(title) then Failure(TitleRequired)
    else if genre.None? || !HasNonBlankGenre(genre.value) then Failure(GenreRequired)
    else if year < MinYear || year > currentYear + 1 then Failure(YearInvalid)
    else Success(Movie(None, Trim(title), genre.value, rating, year, popularity, description))
  }

  /** The copy constructor: re-runs the validating constructor on `m`'s fields,
      so the copy has no id. */
  function CopyMovie(m: Movie, currentYear: int): (r: Result<Movie, DomainError>)
    ensures r.Success? <==> !IsBlank(m.title) && HasNonBlankGenre(m.genre)
                            && YearInRange(m.year, currentYear)
    ensures r.Success? ==> r.value == m.(id := None, title := Trim(m.title))
  {
    NewMovie(m.title, Some(m.genre), m.year, m.rating, m.popularity, m.description, currentYear)
  }

  /** The constructor builds exactly the valid movies: a valid movie is what the
      constructor returns for its own fields, up to the id. */
  lemma ConstructorImageIsValid(m: Movie, currentYear: int)
    requires IsValid(m, currentYear)
    ensures NewMovie(m.title, Some(m.genre), m.year, m.rating, m.popularity,
                     m.description, currentYear) == Success(m.(id := None))
  {
    TrimOfTrimmed(m.title);
  }

  /** Copying a valid movie changes nothing but the id, which is dropped. */
  lemma CopyOfValid(m: Movie, currentYear: int)
    requires IsValid(m, currentYear)
    ensures CopyMovie(m, currentYear) == Success(m.(id := None))
  {
    ConstructorImageIsValid(m, currentYear);
  }

  /** Copying is idempotent on the result: a copy of a copy is the copy. */
  lemma CopyIdempotent(m: Movie, currentYear: int)
    requires !IsBlank(m.title) && HasNonBlankGenre(m.genre) && YearInRange(m.year, currentYear)
    ensures CopyMovie(CopyMovie(m, currentYear).value, currentYear)
            == CopyMovie(m, currentYear)
  {
    CopyOfValid(CopyMovie(m, currentYear).value, currentYear);
  }
}
