/** The stored form of a movie and the two mappings between it and the entity. */
module MovieMappings {
  import opened Wrappers
  import opened Text
  import opened MovieEntity

  /** A movie as the document store holds it; `id` is the document key. */
  datatype MovieDocument = MovieDocument(
    id: Option<string>,
    title: string,
    genre: seq<string>,
    rating: real,
    year: int,
    popularity: int,
    description: Option<string>)

  /** Entity to document: every field copied, except that a null, empty or
      whitespace id becomes null so that the store assigns a fresh one. */
  function ToDocument(m: Movie): (d: MovieDocument)
    ensures d.id.Some? <==> !IsNullOrWhiteSpace(m.id)
    ensures d.id.Some? ==> d.id == m.id
    ensures d.title == m.title && d.genre == m.genre && d.rating == m.rating
            && d.year == m.year && d.popularity == m.popularity
            && d.description == m.description
  {
    MovieDocument(if IsNullOrWhiteSpace(m.id) then None else m.id,
                  m.title, m.genre, m.rating, m.year, m.popularity, m.description)
  }

  /** Document to entity: goes through the validating constructor (so it fails
      exactly when the document breaks the title, genre or year rule), then takes
      the id from the document. */
  function ToDomain(d: MovieDocument, currentYear: int): (r: Result<Movie, DomainError>)
    ensures r.Success? <==> !IsBlank(d.title) && HasNonBlankGenre(d.genre)
                            && YearInRange(d.year, currentYear)
    ensures r.Success? ==> IsValid(r.value, currentYear)
    ensures r.Success? ==> r.value.id == d.id && r.value.title == Trim(d.title)
                           && r.value.genre == d.genre && r.value.rating == d.rating
                           && r.value.year == d.year && r.value.popularity == d.popularity
                           && r.value.description == d.description
  {
    var m :- NewMovie(d.title, Some(d.genre), d.year, d.rating, d.popularity,
                      d.description, currentYear);
    Success(m.(id := d.id))
  }

  /** A valid movie with a real id survives the trip to the store and back
      unchanged, because trimming an already trimmed title does nothing. */
  lemma RoundTrip(m: Movie, currentYear: int)
    requires IsValid(m, currentYear)
    requires !IsNullOrWhiteSpace(m.id)
    ensures ToDomain(ToDocument(m), currentYear) == Success(m)
  {
    TrimOfTrimmed(m.title);
  }

  /** A valid movie without a real id comes back with no id. */
  lemma RoundTripDropsBlankId(m: Movie, currentYear: int)
    requires IsValid(m, currentYear)
    requires IsNullOrWhiteSpace(m.id)
    ensures ToDomain(ToDocument(m), currentYear) == Success(m.(id := None))
  {
    TrimOfTrimmed(m.title);
  }

  /** The reverse trip: a document that maps to an entity maps back to itself,
      except that its title comes back trimmed. */
  lemma DocumentRoundTrip(d: MovieDocument, currentYear: int)
    requires ToDomain(d, currentYear).Success?
    requires !IsNullOrWhiteSpace(d.id)
    ensures ToDocument(ToDomain(d, currentYear).value) == d.(title := Trim(d.title))
  {
  }
}
