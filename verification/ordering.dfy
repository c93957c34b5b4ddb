/** Sorting documents by one of the four sortable fields, in either direction.

    The store sorts with a stable insertion sort: records whose keys tie keep
    their store order, so every query result is a deterministic function of the
    stored sequence. Titles compare by character code, as the store's default
    binary string comparison does.
 */
module Ordering {
  import opened MovieMappings

  datatype SortField = ByTitle | ByYear | ByPopularity | ByRating

  /** Lexicographic order on strings by character code. */
  predicate StrLe(a: string, b: string)
    decreases |a|
  {
    a == [] || (b != [] && (a[0] < b[0] || (a[0] == b[0] && StrLe(a[1..], b[1..]))))
  }

  lemma {:induction false} StrLeTotal(a: string, b: string)
    ensures StrLe(a, b) || StrLe(b, a)
    decreases |a|
  {
    if a != [] && b != [] && a[0] == b[0] {
      StrLeTotal(a[1..], b[1..]);
    }
  }

  lemma {:induction false} StrLeTransitive(a: string, b: string, c: string)
    requires StrLe(a, b) && StrLe(b, c)
    ensures StrLe(a, c)
    decreases |a|
  {
    if a != [] && b != [] && c != [] && a[0] == b[0] == c[0] {
      StrLeTransitive(a[1..], b[1..], c[1..]);
    }
  }

  /** `a`'s key is at most `b`'s key. */
  predicate KeyLe(a: MovieDocument, b: MovieDocument, f: SortField) {
    match f
    case ByTitle => StrLe(a.title, b.title)
    case ByYear => a.year <= b.year
    case ByPopularity => a.popularity <= b.popularity
    case ByRating => a.rating <= b.rating
  }

  /** `a` may come before `b` in an ascending (`asc`) or descending sort on `f`. */
  predicate Precedes(a: MovieDocument, b: MovieDocument, f: SortField, asc: bool) {
    if asc then KeyLe(a, b, f) else KeyLe(b, a, f)
  }

  lemma PrecedesTotal(a: MovieDocument, b: MovieDocument, f: SortField, asc: bool)
    ensures Precedes(a, b, f, asc) || Precedes(b, a, f, asc)
  {
    if f == ByTitle {
      StrLeTotal(a.title, b.title);
    }
  }

  lemma PrecedesTransitive(a: MovieDocument, b: MovieDocument, c: MovieDocument,
                           f: SortField, asc: bool)
    requires Precedes(a, b, f, asc) && Precedes(b, c, f, asc)
    ensures Precedes(a, c, f, asc)
  {
    if f == ByTitle {
      if asc {
        StrLeTransitive(a.title, b.title, c.title);
      } else {
        StrLeTransitive(c.title, b.title, a.title);
      }
    }
  }

  ghost predicate SortedBy(s: seq<MovieDocument>, f: SortField, asc: bool) {
    forall i, j | 0 <= i < j < |s| :: Precedes(s[i], s[j], f, asc)
  }

  /** `x` precedes every element of `s`. */
  ghost predicate PrecedesAll(x: MovieDocument, s: seq<MovieDocument>, f: SortField, asc: bool) {
    forall j | 0 <= j < |s| :: Precedes(x, s[j], f, asc)
  }

  lemma PrecedesAllOfPermutation(x: MovieDocument, s: seq<MovieDocument>,
                                 t: seq<MovieDocument>, f: SortField, asc: bool)
    requires PrecedesAll(x, s, f, asc)
    requires multiset(t) == multiset(s)
    ensures PrecedesAll(x, t, f, asc)
  {
    forall j | 0 <= j < |t|
      ensures Precedes(x, t[j], f, asc)
    {
      assert t[j] in multiset(s);
      var k :| 0 <= k < |s| && s[k] == t[j];
    }
  }

  /** Inserts `x` before the first element it precedes. */
  function Insert(x: MovieDocument, s: seq<MovieDocument>, f: SortField, asc: bool)
    : (r: seq<MovieDocument>)
    requires SortedBy(s, f, asc)
    ensures SortedBy(r, f, asc)
    ensures multiset(r) == multiset(s) + multiset{x}
    decreases |s|
  {
    if s == [] then [x]
    else if Precedes(x, s[0], f, asc) then
      InsertFront(x, s, f, asc);
      [x] + s
    else
      PrecedesTotal(x, s[0], f, asc);
      var rest := Insert(x, s[1..], f, asc);
      InsertBehind(s[0], x, s[1..], rest, f, asc);
      assert s == [s[0]] + s[1..];
      [s[0]] + rest
  }

  lemma InsertFront(x: MovieDocument, s: seq<MovieDocument>, f: SortField, asc: bool)
    requires SortedBy(s, f, asc) && s != [] && Precedes(x, s[0], f, asc)
    ensures SortedBy([x] + s, f, asc)
  {
    forall j | 0 <= j < |s|
      ensures Precedes(x, s[j], f, asc)
    {
      if j > 0 {
        PrecedesTransitive(x, s[0], s[j], f, asc);
      }
    }
  }

  lemma InsertBehind(h: MovieDocument, x: MovieDocument, tail: seq<MovieDocument>,
                     rest: seq<MovieDocument>, f: SortField, asc: bool)
    requires SortedBy([h] + tail, f, asc) && Precedes(h, x, f, asc)
    requires SortedBy(rest, f, asc)
    requires multiset(rest) == multiset(tail) + multiset{x}
    ensures SortedBy([h] + rest, f, asc)
  {
    assert PrecedesAll(h, tail + [x], f, asc) by {
      forall j | 0 <= j < |tail| + 1
        ensures Precedes(h, (tail + [x])[j], f, asc)
      {
        if j < |tail| {
          assert ([h] + tail)[0] == h && ([h] + tail)[j + 1] == tail[j];
          assert (tail + [x])[j] == tail[j];
        } else {
          assert (tail + [x])[j] == x;
        }
      }
    }
    PrecedesAllOfPermutation(h, tail + [x], rest, f, asc);
  }

  /** Stable insertion sort: the result is ordered and a permutation of `s`. */
  function Sort(s: seq<MovieDocument>, f: SortField, asc: bool): (r: seq<MovieDocument>)
    ensures SortedBy(r, f, asc)
    ensures multiset(r) == multiset(s)
    ensures |r| == |s|
    decreases |s|
  {
    if s == [] then []
    else
      assert s == [s[0]] + s[1..];
      Insert(s[0], Sort(s[1..], f, asc), f, asc)
  }

  /** `a` and `b` have equal keys under the order: each may precede the other. */
  predicate Tied(a: MovieDocument, b: MovieDocument, f: SortField, asc: bool) {
    Precedes(a, b, f, asc) && Precedes(b, a, f, asc)
  }

  /** The elements of `s` that pass `keep`, in their order in `s`. */
  function Select<T>(s: seq<T>, keep: T -> bool): (r: seq<T>)
    ensures |r| <= |s|
  {
    if s == [] then []
    else (if keep(s[0]) then [s[0]] else []) + Select(s[1..], keep)
  }

  lemma {:induction false} SelectAppend<T>(a: seq<T>, b: seq<T>, keep: T -> bool)
    ensures Select(a + b, keep) == Select(a, keep) + Select(b, keep)
    decreases |a|
  {
    if a != [] {
      assert (a + b)[0] == a[0] && (a + b)[1..] == a[1..] + b;
      SelectAppend(a[1..], b, keep);
    } else {
      assert a + b == b;
    }
  }

  /** Moving an element in front of one that `keep` rejects, or in front of any
      element when it is itself rejected, does not change the selection. */
  lemma SelectSwapFront<T>(y: T, x: T, rest: seq<T>, tail: seq<T>, keep: T -> bool)
    requires Select(rest, keep) == Select([x], keep) + Select(tail, keep)
    requires !(keep(x) && keep(y))
    ensures Select([y] + rest, keep) == Select([x], keep) + Select([y] + tail, keep)
  {
    SelectCons(y, rest, keep);
    SelectCons(y, tail, keep);
    SelectSingle(x, keep);
    var hy, sx, st := if keep(y) then [y] else [], Select([x], keep), Select(tail, keep);
    assert Select([y] + rest, keep) == hy + (sx + st);
    assert Select([y] + tail, keep) == hy + st;
    assert hy == [] || sx == [];
  }

  lemma SelectCons<T>(y: T, s: seq<T>, keep: T -> bool)
    ensures Select([y] + s, keep) == (if keep(y) then [y] else []) + Select(s, keep)
  {
    assert ([y] + s)[0] == y && ([y] + s)[1..] == s;
  }

  lemma SelectSingle<T>(x: T, keep: T -> bool)
    ensures Select([x], keep) == if keep(x) then [x] else []
  {
    assert [x][1..] == [];
  }

  /** The test "ties with `p`" on the order given by `f` and `asc`. */
  function TiesWith(p: MovieDocument, f: SortField, asc: bool): MovieDocument -> bool {
    d => Tied(d, p, f, asc)
  }

  /** The records of `s` whose key ties with `p`'s, in their order in `s`. */
  function TiedWith(s: seq<MovieDocument>, p: MovieDocument, f: SortField, asc: bool)
    : seq<MovieDocument>
  {
    Select(s, TiesWith(p, f, asc))
  }

  /** An element that may not go first is inserted into the tail. */
  lemma InsertBehindUnfolds(x: MovieDocument, s: seq<MovieDocument>, f: SortField, asc: bool)
    requires SortedBy(s, f, asc) && s != [] && !Precedes(x, s[0], f, asc)
    ensures SortedBy(s[1..], f, asc)
    ensures Insert(x, s, f, asc) == [s[0]] + Insert(x, s[1..], f, asc)
  {
    assert SortedBy(s[1..], f, asc);
  }

  /** If `x` may not precede `y`, the two cannot both tie with the same record. */
  lemma TiesNotSplit(x: MovieDocument, y: MovieDocument, p: MovieDocument,
                     f: SortField, asc: bool)
    requires !Precedes(x, y, f, asc)
    ensures !(TiesWith(p, f, asc)(x) && TiesWith(p, f, asc)(y))
  {
    if Tied(x, p, f, asc) && Tied(y, p, f, asc) {
      PrecedesTransitive(x, p, y, f, asc);
      assert false;
    }
  }

  /** Inserting `x` places it in front of every record it ties with. */
  lemma {:induction false} InsertKeepsTieOrder(x: MovieDocument, s: seq<MovieDocument>,
                                              p: MovieDocument, f: SortField, asc: bool)
    requires SortedBy(s, f, asc)
    ensures TiedWith(Insert(x, s, f, asc), p, f, asc)
            == TiedWith([x], p, f, asc) + TiedWith(s, p, f, asc)
    decreases |s|
  {
    if s == [] || Precedes(x, s[0], f, asc) {
      SelectAppend([x], s, TiesWith(p, f, asc));
    } else {
      InsertBehindUnfolds(x, s, f, asc);
      InsertKeepsTieOrder(x, s[1..], p, f, asc);
      TiesNotSplit(x, s[0], p, f, asc);
      SelectSwapFront(s[0], x, Insert(x, s[1..], f, asc), s[1..], TiesWith(p, f, asc));
      assert s == [s[0]] + s[1..];
    }
  }

  /** The sort is stable: for every key, the records with that key come out in
      the order they had in `s`. */
  lemma {:induction false} SortIsStable(s: seq<MovieDocument>, p: MovieDocument,
                                       f: SortField, asc: bool)
    ensures TiedWith(Sort(s, f, asc), p, f, asc) == TiedWith(s, p, f, asc)
    decreases |s|
  {
    if s != [] {
      SortIsStable(s[1..], p, f, asc);
      InsertKeepsTieOrder(s[0], Sort(s[1..], f, asc), p, f, asc);
      assert s == [s[0]] + s[1..];
      SelectAppend([s[0]], s[1..], TiesWith(p, f, asc));
    }
  }
}
