/** Search criteria and how the store turns them into a filter, an order and a
    limit. Everything here works on stored documents; mapping the selected
    documents to entities is the repository's job.
 */
module SearchCriteria {
  import opened Wrappers
  import opened Text
  import opened MovieMappings
  import opened Ordering

  /** The arguments of a search, each optional except the limit. */
  datatype Criteria = Criteria(
    query: Option<string>,
    genre: Option<string>,
    yearFrom: Option<int>,
    yearTo: Option<int>,
    popularity: Option<int>,
    rating: Option<real>,
    orderBy: Option<string>,
    orderDirection: Option<string>,
    limit: int)

  const DefaultSearchLimit: nat := 50

  /** A limit of 0 or less is replaced by the operation's default. */
  function EffectiveLimit(limit: int, default: nat): nat
    requires default > 0
  {
    if limit <= 0 then default else limit
  }

  /** The first `n` elements, or all of them when there are fewer. */
  function Take<T>(s: seq<T>, n: nat): (r: seq<T>)
    ensures |r| == if n < |s| then n else |s|
    ensures r == s[..|r|]
  {
    if n < |s| then s[..n] else s
  }

  /** Everything after the first `n` elements. */
  function Drop<T>(s: seq<T>, n: nat): (r: seq<T>)
    ensures |r| == if n < |s| then |s| - n else 0
    ensures r == s[|s| - |r|..]
  {
    if n < |s| then s[n..] else []
  }

  /** Text predicate: the trimmed query occurs, ignoring case, in the title or in
      the description. A missing description never matches. */
  predicate TextMatches(d: MovieDocument, query: string) {
    var q := Trim(query);
    ContainsIgnoreCase(d.title, q)
      || (d.description.Some? && ContainsIgnoreCase(d.description.value, q))
  }

  /** Genre predicate: some genre entry contains the trimmed genre, ignoring case. */
  predicate GenreMatches(d: MovieDocument, genre: string) {
    exists k | 0 <= k < |d.genre| :: ContainsIgnoreCase(d.genre[k], Trim(genre))
  }

  /** Year predicate, built the way the store builds it: a closed range when both
      bounds are given, otherwise a one-sided bound, otherwise nothing. */
  predicate YearMatches(d: MovieDocument, yearFrom: Option<int>, yearTo: Option<int>) {
    if yearFrom.Some? && yearTo.Some? then yearFrom.value <= d.year <= yearTo.value
    else if yearFrom.Some? then d.year >= yearFrom.value
    else if yearTo.Some? then d.year <= yearTo.value
    else true
  }

  /** The conjunction of every predicate whose argument is present. A null or
      whitespace query or genre adds no predicate, nor does an absent bound. */
  predicate Matches(d: MovieDocument, c: Criteria) {
    && (IsNullOrWhiteSpace(c.query) || TextMatches(d, c.query.value))
    && (IsNullOrWhiteSpace(c.genre) || GenreMatches(d, c.genre.value))
    && YearMatches(d, c.yearFrom, c.yearTo)
    && (c.popularity.None? || d.popularity >= c.popularity.value)
    && (c.rating.None? || d.rating >= c.rating.value)
  }

  /** Criteria that add no predicate at all. */
  predicate NoPredicates(c: Criteria) {
    && IsNullOrWhiteSpace(c.query) && IsNullOrWhiteSpace(c.genre)
    && c.yearFrom.None? && c.yearTo.None? && c.popularity.None? && c.rating.None?
  }

  /** The matching records, in store order. */
  function Filter(s: seq<MovieDocument>, c: Criteria): (r: seq<MovieDocument>)
    ensures multiset(r) <= multiset(s)
    ensures forall k | 0 <= k < |r| :: Matches(r[k], c)
    decreases |s|
  {
    if s == [] then []
    else
      assert s == [s[0]] + s[1..];
      var rest := Filter(s[1..], c);
      if Matches(s[0], c) then [s[0]] + rest else rest
  }

  /** The filter keeps every matching record, as often as it is stored, and
      nothing else. */
  lemma {:induction false} FilterCounts(s: seq<MovieDocument>, c: Criteria)
    ensures forall x :: multiset(Filter(s, c))[x] == if Matches(x, c) then multiset(s)[x] else 0
    decreases |s|
  {
    if s != [] {
      FilterCounts(s[1..], c);
      assert s == [s[0]] + s[1..];
    }
  }

  /** Filtering keeps store order: it distributes over concatenation. */
  lemma {:induction false} FilterConcat(a: seq<MovieDocument>, b: seq<MovieDocument>, c: Criteria)
    ensures Filter(a + b, c) == Filter(a, c) + Filter(b, c)
    decreases |a|
  {
    if a != [] {
      assert (a + b)[0] == a[0] && (a + b)[1..] == a[1..] + b;
      FilterConcat(a[1..], b, c);
      var head := if Matches(a[0], c) then [a[0]] else [];
      assert Filter(a + b, c) == head + Filter(a[1..] + b, c);
      assert Filter(a, c) == head + Filter(a[1..], c);
    } else {
      assert a + b == b;
    }
  }

  /** With no predicate every record qualifies, in store order. */
  lemma {:induction false} FilterNoPredicates(s: seq<MovieDocument>, c: Criteria)
    requires NoPredicates(c)
    ensures Filter(s, c) == s
    decreases |s|
  {
    if s != [] {
      FilterNoPredicates(s[1..], c);
      assert s == [s[0]] + s[1..];
    }
  }

  /** The year predicate is the conjunction of two independent inclusive bounds. */
  lemma YearBoundsIndependent(d: MovieDocument, yearFrom: Option<int>, yearTo: Option<int>)
    ensures YearMatches(d, yearFrom, yearTo) <==>
              (yearFrom.Some? ==> yearFrom.value <= d.year)
              && (yearTo.Some? ==> d.year <= yearTo.value)
  {
  }

  /** An inverted year range selects nothing. */
  lemma InvertedYearRangeIsEmpty(s: seq<MovieDocument>, c: Criteria)
    requires c.yearFrom.Some? && c.yearTo.Some? && c.yearFrom.value > c.yearTo.value
    ensures Filter(s, c) == []
  {
  }

  /** The query and the genre are trimmed before matching, so padding them
      with whitespace changes nothing. */
  lemma TrimmedArgumentsMatchAlike(d: MovieDocument, query: string, genre: string)
    ensures TextMatches(d, query) <==> TextMatches(d, Trim(query))
    ensures GenreMatches(d, genre) <==> GenreMatches(d, Trim(genre))
  {
  }

  /** A title or description holding the trimmed query verbatim matches; a
      record with no genre never passes a genre predicate. */
  lemma ExactOccurrenceMatches(d: MovieDocument, query: string, genre: string)
    ensures Contains(d.title, Trim(query)) ==> TextMatches(d, query)
    ensures d.description.Some? && Contains(d.description.value, Trim(query))
            ==> TextMatches(d, query)
    ensures d.genre == [] ==> !GenreMatches(d, genre)
    ensures forall k | 0 <= k < |d.genre| ::
              Contains(d.genre[k], Trim(genre)) ==> GenreMatches(d, genre)
  {
    if Contains(d.title, Trim(query)) {
      ContainsIgnoresCase(d.title, Trim(query));
    }
    if d.description.Some? && Contains(d.description.value, Trim(query)) {
      ContainsIgnoresCase(d.description.value, Trim(query));
    }
    forall k | 0 <= k < |d.genre| && Contains(d.genre[k], Trim(genre))
      ensures GenreMatches(d, genre)
    {
      ContainsIgnoresCase(d.genre[k], Trim(genre));
    }
  }

  /** A record matches exactly when it satisfies each argument that is present on
      its own: the text and genre predicates for non-blank arguments, and each
      year, popularity and rating bound as an independent inclusive bound. */
  lemma MatchesEachArgument(d: MovieDocument, c: Criteria)
    ensures Matches(d, c) <==>
              && (c.query.Some? && !IsBlank(c.query.value) ==> TextMatches(d, c.query.value))
              && (c.genre.Some? && !IsBlank(c.genre.value) ==> GenreMatches(d, c.genre.value))
              && (c.yearFrom.Some? ==> c.yearFrom.value <= d.year)
              && (c.yearTo.Some? ==> d.year <= c.yearTo.value)
              && (c.popularity.Some? ==> c.popularity.value <= d.popularity)
              && (c.rating.Some? ==> c.rating.value <= d.rating)
  {
  }

  /** How to order a search result. */
  datatype SortSpec = SortSpec(field: SortField, ascending: bool)

  /** The lower-case name under which a field may be requested. */
  function FieldName(f: SortField): string {
    match f
    case ByTitle => "title"
    case ByYear => "year"
    case ByPopularity => "popularity"
    case ByRating => "rating"
  }

  lemma LowerOfBlankIsNoFieldName(s: string)
    requires IsBlank(s)
    ensures forall f: SortField :: Lower(s) != FieldName(f)
  {
    if s != [] {
      assert Lower(s)[0] == s[0];
    }
  }

  /** The sort field is taken only when the lower-cased `orderBy` is one of the
      four field names; the direction is ascending only for a lower-cased
      `orderDirection` equal to "asc", and descending otherwise. */
  function SortOrder(c: Criteria): (r: Option<SortSpec>)
    ensures r.Some? <==> c.orderBy.Some? && exists f: SortField :: Lower(c.orderBy.value) == FieldName(f)
    ensures r.Some? ==> Lower(c.orderBy.value) == FieldName(r.value.field)
    ensures r.Some? ==> (r.value.ascending <==>
                           c.orderDirection.Some? && Lower(c.orderDirection.value) == "asc")
  {
    if IsNullOrWhiteSpace(c.orderBy) then
      if c.orderBy.Some? then
        LowerOfBlankIsNoFieldName(c.orderBy.value);
        None
      else None
    else
      var asc := c.orderDirection.Some? && Lower(c.orderDirection.value) == "asc";
      var key := Lower(c.orderBy.value);
      if key == FieldName(ByTitle) then Some(SortSpec(ByTitle, asc))
      else if key == FieldName(ByYear) then Some(SortSpec(ByYear, asc))
      else if key == FieldName(ByPopularity) then Some(SortSpec(ByPopularity, asc))
      else if key == FieldName(ByRating) then Some(SortSpec(ByRating, asc))
      else
        assert forall f: SortField :: key != FieldName(f);
        None
  }

  function Arrange(s: seq<MovieDocument>, order: Option<SortSpec>): (r: seq<MovieDocument>)
    ensures multiset(r) == multiset(s) && |r| == |s|
    ensures order.None? ==> r == s
    ensures order.Some? ==> SortedBy(r, order.value.field, order.value.ascending)
  {
    match order
    case None => s
    case Some(spec) => Sort(s, spec.field, spec.ascending)
  }

  /** `r` is made of the leading records of `all` under the order: it is a
      sub-multiset of `all`, and each of its records precedes each record left out. */
  ghost predicate IsTopOf(r: seq<MovieDocument>, all: seq<MovieDocument>, f: SortField, asc: bool) {
    && multiset(r) <= multiset(all)
    && forall x, y | x in multiset(r) && y in multiset(all) - multiset(r) :: Precedes(x, y, f, asc)
  }

  /** A prefix of a sorted sequence is its top part. */
  lemma SortedPrefixIsTop(s: seq<MovieDocument>, n: nat, f: SortField, asc: bool)
    requires SortedBy(s, f, asc) && n <= |s|
    ensures IsTopOf(s[..n], s, f, asc)
  {
    PrefixSubMultiset(s, n);
    PrefixRest(s, n);
    SortedAcross(s, n, f, asc);
    forall x, y | x in multiset(s[..n]) && y in multiset(s) - multiset(s[..n])
      ensures Precedes(x, y, f, asc)
    {
      assert x in s[..n] && y in s[n..];
    }
  }

  lemma PrefixRest<T>(s: seq<T>, n: nat)
    requires n <= |s|
    ensures multiset(s) - multiset(s[..n]) == multiset(s[n..])
  {
    assert s == s[..n] + s[n..];
  }

  /** In a sorted sequence everything before position `n` precedes everything after. */
  lemma SortedAcross(s: seq<MovieDocument>, n: nat, f: SortField, asc: bool)
    requires SortedBy(s, f, asc) && n <= |s|
    ensures forall x, y | x in s[..n] && y in s[n..] :: Precedes(x, y, f, asc)
  {
    forall x, y | x in s[..n] && y in s[n..]
      ensures Precedes(x, y, f, asc)
    {
      var i :| 0 <= i < n && s[..n][i] == x;
      var j :| 0 <= j < |s| - n && s[n..][j] == y;
      assert s[i] == x && s[n + j] == y;
    }
  }

  lemma ArrangedPrefixIsTop(s: seq<MovieDocument>, order: Option<SortSpec>, n: nat)
    ensures order.Some? ==>
              IsTopOf(Take(Arrange(s, order), n), s, order.value.field, order.value.ascending)
  {
    if order.Some? {
      var a := Arrange(s, order);
      SortedPrefixIsTop(a, |Take(a, n)|, order.value.field, order.value.ascending);
    }
  }

  lemma PrefixSubMultiset<T>(s: seq<T>, n: nat)
    requires n <= |s|
    ensures multiset(s[..n]) <= multiset(s)
  {
    assert s == s[..n] + s[n..];
  }

  /** The documents a search selects: filter, then order, then truncate. */
  function SearchDocs(s: seq<MovieDocument>, c: Criteria): (r: seq<MovieDocument>)
    ensures var n := EffectiveLimit(c.limit, DefaultSearchLimit);
            |r| == if n < |Filter(s, c)| then n else |Filter(s, c)|
    ensures multiset(r) <= multiset(Filter(s, c))
  {
    var matches := Filter(s, c);
    var arranged := Arrange(matches, SortOrder(c));
    var r := Take(arranged, EffectiveLimit(c.limit, DefaultSearchLimit));
    PrefixSubMultiset(arranged, |r|);
    r
  }

  /** Search results are exactly the stored records that satisfy every present
      predicate, as many as the limit allows: all of them when they fit. */
  lemma SearchSelectsMatches(s: seq<MovieDocument>, c: Criteria)
    ensures forall x | x in SearchDocs(s, c) :: Matches(x, c) && x in s
    ensures |Filter(s, c)| <= EffectiveLimit(c.limit, DefaultSearchLimit) ==>
              multiset(SearchDocs(s, c)) == multiset(Filter(s, c))
  {
    var r, m := SearchDocs(s, c), Filter(s, c);
    forall x | x in r
      ensures Matches(x, c) && x in s
    {
      assert x in multiset(r);
      assert multiset(m)[x] > 0;
    }
    if |m| <= EffectiveLimit(c.limit, DefaultSearchLimit) {
      assert |r| == |m|;
      assert Arrange(m, SortOrder(c)) == r;
    }
  }

  /** The order of a search result: store order when no known field is asked
      for; otherwise sorted, and sorted before truncation, so that the result is
      the leading part of all the matches. */
  lemma SearchOrder(s: seq<MovieDocument>, c: Criteria)
    ensures SortOrder(c).None? ==> SearchDocs(s, c) == Filter(s, c)[..|SearchDocs(s, c)|]
    ensures SortOrder(c).Some? ==>
              var spec := SortOrder(c).value;
              SortedBy(SearchDocs(s, c), spec.field, spec.ascending)
              && IsTopOf(SearchDocs(s, c), Filter(s, c), spec.field, spec.ascending)
  {
    var n := EffectiveLimit(c.limit, DefaultSearchLimit);
    ArrangedPrefixIsTop(Filter(s, c), SortOrder(c), n);
    if SortOrder(c).Some? {
      var spec := SortOrder(c).value;
      var a := Arrange(Filter(s, c), SortOrder(c));
      assert SortedBy(a, spec.field, spec.ascending);
      assert SearchDocs(s, c) == a[..|SearchDocs(s, c)|];
    }
  }

  /** The filter depends on the criteria only through the predicate they build. */
  lemma {:induction false} FilterSamePredicate(s: seq<MovieDocument>, c1: Criteria, c2: Criteria)
    requires forall x :: Matches(x, c1) == Matches(x, c2)
    ensures Filter(s, c1) == Filter(s, c2)
    decreases |s|
  {
    if s != [] {
      FilterSamePredicate(s[1..], c1, c2);
    }
  }

  /** A limit of 0 or less behaves exactly like the default limit of 50. */
  lemma NonPositiveLimitIsDefault(s: seq<MovieDocument>, c: Criteria)
    requires c.limit <= 0
    ensures SearchDocs(s, c) == SearchDocs(s, c.(limit := DefaultSearchLimit))
  {
    var c' := c.(limit := DefaultSearchLimit);
    SearchDocsShape(s, c);
    SearchDocsShape(s, c');
    forall x ensures Matches(x, c) == Matches(x, c') {
    }
    FilterSamePredicate(s, c, c');
    SortOrderReadsOrderOnly(c, c');
  }

  /** The order depends only on the order-by and direction fields. */
  lemma SortOrderReadsOrderOnly(c: Criteria, c': Criteria)
    requires c.orderBy == c'.orderBy && c.orderDirection == c'.orderDirection
    ensures SortOrder(c) == SortOrder(c')
  {
  }

  lemma SearchDocsShape(s: seq<MovieDocument>, c: Criteria)
    ensures SearchDocs(s, c) == Take(Arrange(Filter(s, c), SortOrder(c)), EffectiveLimit(c.limit, DefaultSearchLimit))
  {
  }
}
