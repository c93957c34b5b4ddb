/** Cache keys. Every read of the decorator has a logical key built from its
    arguments; the distributed cache stores it under the instance prefix
    followed by that key, and the search sweep matches physical keys.
 */
module CacheKeys {
  import opened Wrappers
  import opened Text
  import opened SearchCriteria

  const AllKey: string := "movies:all"
  const IdPrefix: string := "movies:id:"
  const SearchPrefix: string := "movies:search:"
  const PopularPrefix: string := "movies:popular:"
  const RecoPrefix: string := "movies:reco:"

  /** The instance prefix the cache is configured with by default. */
  const DefaultInstance: string := "movieapi:"

  /** The physical prefix of the search sweep's pattern `movieapi:movies:search:*`,
      written out in full rather than derived from the configured instance. */
  const SweepPrefix: string := "movieapi:movies:search:"

  /** `movies:id:{id}`: the id follows the prefix unchanged. */
  function IdKey(id: string): (r: string)
    ensures HasPrefix(r, IdPrefix) && r[|IdPrefix|..] == id
  {
    IdPrefix + id
  }

  /** `movies:popular:{limit}`: the limit follows the prefix as decimal text. */
  function PopularKey(limit: int): (r: string)
    ensures HasPrefix(r, PopularPrefix) && r[|PopularPrefix|..] == IntText(limit)
  {
    PopularPrefix + IntText(limit)
  }

  /** `movies:reco:{limit}`: the limit follows the prefix as decimal text. */
  function RecoKey(limit: int): (r: string)
    ensures HasPrefix(r, RecoPrefix) && r[|RecoPrefix|..] == IntText(limit)
  {
    RecoPrefix + IntText(limit)
  }

  /** String interpolation of a nullable string: null renders as nothing. */
  function OptText(s: Option<string>): string {
    match s
    case None => ""
    case Some(v) => v
  }

  function OptIntText(i: Option<int>): string {
    match i
    case None => ""
    case Some(v) => IntText(v)
  }

  function OptRealText(x: Option<real>): string {
    match x
    case None => ""
    case Some(v) => RealText(v)
  }

  /** The nine rendered search arguments, in key order. */
  function SearchFields(c: Criteria): (r: seq<string>)
    ensures |r| == 9
  {
    [OptText(c.query), OptText(c.genre), OptIntText(c.yearFrom), OptIntText(c.yearTo),
     OptIntText(c.popularity), OptRealText(c.rating), OptText(c.orderBy),
     OptText(c.orderDirection), IntText(c.limit)]
  }

  /** `movies:search:{query}:{genre}:...:{limit}`, with the raw (not the
      effective) limit: the nine fields follow the prefix, colon-separated. */
  function SearchKey(c: Criteria): (r: string)
    ensures HasPrefix(r, SearchPrefix) && r[|SearchPrefix|..] == Join(SearchFields(c), ':')
  {
    SearchPrefix + Join(SearchFields(c), ':')
  }

  /** The numeric fields of a search key never hold a colon; a text field holds
      one exactly when its argument does. */
  lemma SearchFieldColons(c: Criteria)
    ensures var f := SearchFields(c);
            && (':' in f[0] <==> ':' in OptText(c.query)) && (':' in f[1] <==> ':' in OptText(c.genre))
            && (':' in f[6] <==> ':' in OptText(c.orderBy))
            && (':' in f[7] <==> ':' in OptText(c.orderDirection))
            && ':' !in f[2] && ':' !in f[3] && ':' !in f[4] && ':' !in f[5] && ':' !in f[8]
  {
  }

  /** Splitting a search key after its prefix on colons gives back its nine
      fields, in order, exactly when the query, genre, orderBy and
      orderDirection contain no colon: nothing in the key is escaped. */
  lemma SearchKeyRecoverable(c: Criteria)
    ensures Split(SearchKey(c)[|SearchPrefix|..], ':') == SearchFields(c)
            <==> && ':' !in OptText(c.query) && ':' !in OptText(c.genre)
                 && ':' !in OptText(c.orderBy) && ':' !in OptText(c.orderDirection)
  {
    var f := SearchFields(c);
    SplitJoinIff(f, ':');
    SearchFieldColons(c);
    assert (forall k | 0 <= k < |f| :: ':' !in f[k])
           <==> ':' !in f[0] && ':' !in f[1] && ':' !in f[6] && ':' !in f[7];
  }

  /** Without colons in the text arguments, equal search keys have equal
      fields: only null against empty text can then collide. */
  lemma SearchKeyInjectiveWithoutColons(c: Criteria, c': Criteria)
    requires ':' !in OptText(c.query) && ':' !in OptText(c.genre)
    requires ':' !in OptText(c.orderBy) && ':' !in OptText(c.orderDirection)
    requires ':' !in OptText(c'.query) && ':' !in OptText(c'.genre)
    requires ':' !in OptText(c'.orderBy) && ':' !in OptText(c'.orderDirection)
    ensures SearchKey(c) == SearchKey(c') <==> SearchFields(c) == SearchFields(c')
  {
    SearchKeyRecoverable(c);
    SearchKeyRecoverable(c');
  }

  /** The cache key under which a logical key is physically stored. */
  function Physical(instance: string, key: string): string {
    instance + key
  }

  /** One instance prefix keeps distinct logical keys distinct. */
  lemma PhysicalInjective(instance: string, a: string, b: string)
    ensures Physical(instance, a) == Physical(instance, b) <==> a == b
  {
    if Physical(instance, a) == Physical(instance, b) {
      assert a == Physical(instance, a)[|instance|..];
      assert b == Physical(instance, b)[|instance|..];
    }
  }

  /** The five kinds of entry the decorator writes. */
  datatype KeyKind = AllKind | IdKind | SearchKind | PopularKind | RecoKind

  /** The kind of a logical key, read off its prefix. */
  function KindOf(key: string): Option<KeyKind> {
    if key == AllKey then Some(AllKind)
    else if HasPrefix(key, IdPrefix) then Some(IdKind)
    else if HasPrefix(key, SearchPrefix) then Some(SearchKind)
    else if HasPrefix(key, PopularPrefix) then Some(PopularKind)
    else if HasPrefix(key, RecoPrefix) then Some(RecoKind)
    else None
  }

  /** Each key function produces keys of its own kind, so keys of different
      operations never coincide. */
  lemma KeyKinds(id: string, c: Criteria, limit: int)
    ensures KindOf(AllKey) == Some(AllKind)
    ensures KindOf(IdKey(id)) == Some(IdKind)
    ensures KindOf(SearchKey(c)) == Some(SearchKind)
    ensures KindOf(PopularKey(limit)) == Some(PopularKind)
    ensures KindOf(RecoKey(limit)) == Some(RecoKind)
  {
    assert IdKey(id)[..|IdPrefix|] == IdPrefix;
    assert SearchKey(c)[..|SearchPrefix|] == SearchPrefix;
    assert PopularKey(limit)[..|PopularPrefix|] == PopularPrefix;
    assert RecoKey(limit)[..|RecoPrefix|] == RecoPrefix;
    assert IdKey(id)[7] == 'i' && SearchKey(c)[7] == 's' && PopularKey(limit)[7] == 'p';
  }

  /** Distinct limits give distinct popular keys and distinct recommendation keys. */
  lemma LimitKeysInjective(a: int, b: int)
    ensures PopularKey(a) == PopularKey(b) <==> a == b
    ensures RecoKey(a) == RecoKey(b) <==> a == b
  {
    if PopularKey(a) == PopularKey(b) {
      assert IntText(a) == PopularKey(a)[|PopularPrefix|..] == PopularKey(b)[|PopularPrefix|..] == IntText(b);
      IntTextInjective(a, b);
    }
    if RecoKey(a) == RecoKey(b) {
      assert IntText(a) == RecoKey(a)[|RecoPrefix|..] == RecoKey(b)[|RecoPrefix|..] == IntText(b);
      IntTextInjective(a, b);
    }
  }

  /** A null text argument and an empty one give the same search key. */
  lemma NullAndEmptyCollide(c: Criteria)
    ensures SearchKey(c.(query := None)) == SearchKey(c.(query := Some("")))
    ensures SearchKey(c.(genre := None)) == SearchKey(c.(genre := Some("")))
    ensures SearchKey(c.(orderBy := None)) == SearchKey(c.(orderBy := Some("")))
    ensures SearchKey(c.(orderDirection := None)) == SearchKey(c.(orderDirection := Some("")))
  {
    assert SearchFields(c.(query := None)) == SearchFields(c.(query := Some("")));
    assert SearchFields(c.(genre := None)) == SearchFields(c.(genre := Some("")));
    assert SearchFields(c.(orderBy := None)) == SearchFields(c.(orderBy := Some("")));
    assert SearchFields(c.(orderDirection := None)) == SearchFields(c.(orderDirection := Some("")));
  }

  /** The separator is not escaped: moving a colon from the end of the query to
      the start of the genre leaves the key unchanged. */
  lemma {:induction false} ColonShiftCollides(c: Criteria, q: string, g: string)
    ensures SearchKey(c.(query := Some(q + ":"), genre := Some(g)))
            == SearchKey(c.(query := Some(q), genre := Some(":" + g)))
  {
    var c1 := c.(query := Some(q + ":"), genre := Some(g));
    var c2 := c.(query := Some(q), genre := Some(":" + g));
    var f1, f2 := SearchFields(c1), SearchFields(c2);
    var tail := Join(f1[2..], ':');
    assert f1[2..] == f2[2..];
    assert Join(f1, ':') == f1[0] + [':'] + Join(f1[1..], ':');
    assert Join(f1[1..], ':') == f1[1] + [':'] + tail by {
      assert f1[1..][1..] == f1[2..];
    }
    assert Join(f2, ':') == f2[0] + [':'] + Join(f2[1..], ':');
    assert Join(f2[1..], ':') == f2[1] + [':'] + tail by {
      assert f2[1..][1..] == f2[2..];
    }
    assert (q + ":") + [':'] + (g + [':'] + tail) == q + [':'] + ((":" + g) + [':'] + tail);
  }

  /** With the default instance prefix the sweep pattern matches exactly the
      physical keys of search entries. */
  lemma SweepMatchesSearchKeys(key: string)
    ensures HasPrefix(Physical(DefaultInstance, key), SweepPrefix) <==> HasPrefix(key, SearchPrefix)
  {
    var p := Physical(DefaultInstance, key);
    assert SweepPrefix == DefaultInstance + SearchPrefix;
    if HasPrefix(key, SearchPrefix) {
      assert p[..|SweepPrefix|] == DefaultInstance + key[..|SearchPrefix|];
    }
    if HasPrefix(p, SweepPrefix) {
      assert key[..|SearchPrefix|] == p[|DefaultInstance|..|SweepPrefix|];
    }
  }

  /** An instance prefix that differs from the sweep pattern at some position
      within both their lengths puts every entry out of the sweep's reach. */
  lemma OtherInstanceEscapesSweep(instance: string, key: string, i: nat)
    requires i < |instance| && i < |SweepPrefix| && instance[i] != SweepPrefix[i]
    ensures !HasPrefix(Physical(instance, key), SweepPrefix)
  {
    assert Physical(instance, key)[i] == instance[i];
  }
}
