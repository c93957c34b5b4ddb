/** The response shape the HTTP layer returns for a movie, and the mapping from
    entities to it. The mapping copies every field; nothing is lost, so the
    entity can be read back from its response.
 */
module MovieResponses {
  import opened Wrappers
  import opened MovieEntity

  /** A movie as returned to clients; `description` stays nullable. */
  datatype MovieResponse = MovieResponse(
    id: Option<string>,
    title: string,
    genre: seq<string>,
    rating: real,
    year: int,
    popularity: int,
    description: Option<string>)

  /** `ToResponse` for one movie. */
  function ToResponse(m: Movie): (r: MovieResponse)
    ensures r.id == m.id && r.title == m.title && r.genre == m.genre && r.rating == m.rating
            && r.year == m.year && r.popularity == m.popularity && r.description == m.description
  {
    MovieResponse(m.id, m.title, m.genre, m.rating, m.year, m.popularity, m.description)
  }

  /** The entity a response describes: the inverse of `ToResponse`. */
  function FromResponse(r: MovieResponse): Movie {
    Movie(r.id, r.title, r.genre, r.rating, r.year, r.popularity, r.description)
  }

  /** `ToResponse` over a sequence: one response per movie, in order. */
  function ToResponses(ms: seq<Movie>): (rs: seq<MovieResponse>)
    ensures |rs| == |ms|
    ensures forall i | 0 <= i < |ms| :: rs[i] == ToResponse(ms[i])
    decreases |ms|
  {
    if ms == [] then [] else [ToResponse(ms[0])] + ToResponses(ms[1..])
  }

  /** No field is lost: the movie is recovered from its response, and every
      response is the response of the movie it describes. */
  lemma ResponseRoundTrip(m: Movie, r: MovieResponse)
    ensures FromResponse(ToResponse(m)) == m
    ensures ToResponse(FromResponse(r)) == r
  {
  }

  /** Distinct movies get distinct responses. */
  lemma ToResponseInjective(a: Movie, b: Movie)
    ensures ToResponse(a) == ToResponse(b) <==> a == b
  {
    ResponseRoundTrip(a, ToResponse(a));
    ResponseRoundTrip(b, ToResponse(b));
  }

  /** A movie without a description gets a response without one. */
  lemma NullDescriptionStaysNull(m: Movie)
    ensures ToResponse(m).description.None? <==> m.description.None?
  {
  }

  /** Mapping a sequence distributes over concatenation, as a lazy `Select` does. */
  lemma {:induction false} ToResponsesAppend(a: seq<Movie>, b: seq<Movie>)
    ensures ToResponses(a + b) == ToResponses(a) + ToResponses(b)
  {
    var l, r := ToResponses(a + b), ToResponses(a) + ToResponses(b);
    assert |l| == |r|;
    forall i | 0 <= i < |l| ensures l[i] == r[i] {
      if i < |a| {
        assert (a + b)[i] == a[i];
      } else {
        assert (a + b)[i] == b[i - |a|];
      }
    }
  }

  /** The movies are recovered, in order, from their responses. */
  lemma ResponsesRecoverMovies(ms: seq<Movie>)
    ensures forall i | 0 <= i < |ms| :: FromResponse(ToResponses(ms)[i]) == ms[i]
  {
  }
}
