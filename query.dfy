/**
 * The query building blocks every listing of the site is made of: a `where`
 * filter, an `orderBy`/`latest` sort on one key, `take(n)`, `paginate(size)`
 * and the lookups route-model binding performs. Each is a function on a
 * sequence of records, proved to return a filtered, sorted and bounded
 * subsequence of its input.
 */
module Query {
  import opened Common

  // ---------------------------------------------------------------------
  // where(...)
  // ---------------------------------------------------------------------

  /** The records of `s` that satisfy `p`, in their stored order. */
  function Filter<T(!new)>(s: seq<T>, p: T -> bool): (r: seq<T>)
    ensures |r| <= |s|
    ensures forall x :: multiset(r)[x] == if p(x) then multiset(s)[x] else 0
    ensures forall x :: x in r <==> x in s && p(x)
    decreases |s|
  {
    if s == [] then []
    else
      assert s == [s[0]] + s[1..];
      if p(s[0]) then [s[0]] + Filter(s[1..], p) else Filter(s[1..], p)
  }

  /** `count()` of a filtered query. */
  function Count<T(!new)>(s: seq<T>, p: T -> bool): (n: nat)
    ensures n <= |s|
  {
    |Filter(s, p)|
  }

  /** Filtering distributes over concatenation: records are judged one at a time. */
  lemma {:induction false} FilterAppend<T(!new)>(a: seq<T>, b: seq<T>, p: T -> bool)
    ensures Filter(a + b, p) == Filter(a, p) + Filter(b, p)
    decreases |a|
  {
    if a == [] {
      assert a + b == b;
    } else {
      assert (a + b)[1..] == a[1..] + b;
      assert (a + b)[0] == a[0];
      FilterAppend(a[1..], b, p);
    }
  }

  /** Filtering a prefix one record longer keeps that record exactly when it satisfies the filter. */
  lemma FilterPrefixStep<T(!new)>(s: seq<T>, i: nat, p: T -> bool)
    requires i < |s|
    ensures Filter(s[..i + 1], p) == if p(s[i]) then Filter(s[..i], p) + [s[i]] else Filter(s[..i], p)
  {
    assert s[..i + 1] == s[..i] + [s[i]];
    FilterAppend(s[..i], [s[i]], p);
    assert Filter([s[i]], p) == if p(s[i]) then [s[i]] else [];
  }

  /** Two filters that no record satisfies together count at most the whole table. */
  lemma {:induction false} CountDisjoint<T(!new)>(s: seq<T>, p: T -> bool, q: T -> bool)
    requires forall x :: !(p(x) && q(x))
    ensures Count(s, p) + Count(s, q) <= |s|
    decreases |s|
  {
    if s != [] {
      CountDisjoint(s[1..], p, q);
    }
  }

  /** A filter and its complement together count the whole table. */
  lemma {:induction false} CountComplement<T(!new)>(s: seq<T>, p: T -> bool, q: T -> bool)
    requires forall x :: q(x) == !p(x)
    ensures Count(s, p) + Count(s, q) == |s|
    decreases |s|
  {
    if s != [] {
      CountComplement(s[1..], p, q);
    }
  }

  /** A weaker filter counts at least as many records. */
  lemma {:induction false} CountMonotone<T(!new)>(s: seq<T>, p: T -> bool, q: T -> bool)
    requires forall x :: p(x) ==> q(x)
    ensures Count(s, p) <= Count(s, q)
    decreases |s|
  {
    if s != [] {
      CountMonotone(s[1..], p, q);
    }
  }

  /** Chained `where` clauses may be applied in either order. */
  lemma {:induction false} FilterCommutes<T(!new)>(s: seq<T>, p: T -> bool, q: T -> bool)
    ensures Filter(Filter(s, p), q) == Filter(Filter(s, q), p)
    decreases |s|
  {
    if s != [] {
      FilterCommutes(s[1..], p, q);
    }
  }

  /** Repeating a `where` clause changes nothing. */
  lemma {:induction false} FilterIdempotent<T(!new)>(s: seq<T>, p: T -> bool)
    ensures Filter(Filter(s, p), p) == Filter(s, p)
    decreases |s|
  {
    if s != [] {
      FilterIdempotent(s[1..], p);
    }
  }

  /** A filter keeps every record when all of them satisfy it. */
  lemma {:induction false} FilterKeepsAll<T(!new)>(s: seq<T>, p: T -> bool)
    requires forall i :: 0 <= i < |s| ==> p(s[i])
    ensures Filter(s, p) == s
    decreases |s|
  {
    if s != [] {
      FilterKeepsAll(s[1..], p);
      assert s == [s[0]] + s[1..];
    }
  }

  // ---------------------------------------------------------------------
  // orderBy(...) / latest(...)
  // ---------------------------------------------------------------------

  predicate SortedDesc<T(!new)>(s: seq<T>, key: T -> int)
  {
    forall i, j :: 0 <= i < j < |s| ==> key(s[i]) >= key(s[j])
  }

  predicate SortedAsc<T(!new)>(s: seq<T>, key: T -> int)
  {
    forall i, j :: 0 <= i < j < |s| ==> key(s[i]) <= key(s[j])
  }

  /** Inserts `x` into the descending sequence `s`, ahead of the records whose key ties with it. */
  function Insert<T(!new)>(x: T, s: seq<T>, key: T -> int): (r: seq<T>)
    ensures |r| == |s| + 1
    ensures multiset(r) == multiset(s) + multiset{x}
    ensures r[0] == x || (|s| > 0 && r[0] == s[0])
    decreases |s|
  {
    if s == [] || key(x) >= key(s[0]) then [x] + s
    else
      assert s == [s[0]] + s[1..];
      [s[0]] + Insert(x, s[1..], key)
  }

  lemma {:induction false} InsertSorted<T(!new)>(x: T, s: seq<T>, key: T -> int)
    requires SortedDesc(s, key)
    ensures SortedDesc(Insert(x, s, key), key)
    decreases |s|
  {
    if s != [] && key(x) < key(s[0]) {
      var t := Insert(x, s[1..], key);
      InsertSorted(x, s[1..], key);
      var r := [s[0]] + t;
      assert r == Insert(x, s, key);
      forall i, j | 0 <= i < j < |r| ensures key(r[i]) >= key(r[j]) {
        if i == 0 {
          assert key(s[0]) >= key(t[0]);
          assert key(t[0]) >= key(t[j - 1]) || j == 1;
        } else {
          assert r[i] == t[i - 1] && r[j] == t[j - 1];
        }
      }
    }
  }

  /** A stable sort of `s` on descending `key`: the `latest(column)` ordering. */
  function SortDesc<T(!new)>(s: seq<T>, key: T -> int): (r: seq<T>)
    ensures |r| == |s|
    ensures multiset(r) == multiset(s)
    ensures SortedDesc(r, key)
    decreases |s|
  {
    if s == [] then []
    else
      assert s == [s[0]] + s[1..];
      InsertSorted(s[0], SortDesc(s[1..], key), key);
      Insert(s[0], SortDesc(s[1..], key), key)
  }

  function Negated<T(!new)>(key: T -> int): T -> int
  {
    x => -key(x)
  }

  /** A stable sort of `s` on ascending `key`: the `orderBy(column)` ordering. */
  function SortAsc<T(!new)>(s: seq<T>, key: T -> int): (r: seq<T>)
    ensures |r| == |s|
    ensures multiset(r) == multiset(s)
    ensures SortedAsc(r, key)
  {
    var t := SortDesc(s, Negated(key));
    assert forall i, j :: 0 <= i < j < |t| ==> Negated(key)(t[i]) >= Negated(key)(t[j]);
    t
  }

  // ---------------------------------------------------------------------
  // take(n) and paginate(size)
  // ---------------------------------------------------------------------

  /** The first `n` records, or all of them when there are fewer. */
  function Take<T(!new)>(s: seq<T>, n: nat): (r: seq<T>)
    ensures |r| == Min(n, |s|)
    ensures r == s[..|r|]
  {
    s[..Min(n, |s|)]
  }

  lemma {:induction false} PrefixDominates<T(!new)>(t: seq<T>, key: T -> int, m: nat)
    requires m <= |t| && SortedDesc(t, key)
    ensures multiset(t[..m]) <= multiset(t)
    ensures forall x, y :: x in t[..m] && y in multiset(t) - multiset(t[..m]) ==> key(y) <= key(x)
  {
    assert t == t[..m] + t[m..];
    assert multiset(t) - multiset(t[..m]) == multiset(t[m..]);
    forall x, y | x in t[..m] && y in multiset(t) - multiset(t[..m])
      ensures key(y) <= key(x)
    {
      var i :| 0 <= i < m && t[..m][i] == x;
      assert y in t[m..];
      var j :| 0 <= j < |t| - m && t[m..][j] == y;
      assert t[i] == x && t[m + j] == y;
    }
  }

  /**
   * `latest(key)->take(n)`: the `n` records of highest key. Nothing left out
   * ranks above anything shown, and fewer than `n` records means all of them.
   */
  function Top<T(!new)>(s: seq<T>, key: T -> int, n: nat): (r: seq<T>)
    ensures |r| == Min(n, |s|)
    ensures multiset(r) <= multiset(s)
    ensures SortedDesc(r, key)
    ensures forall x, y :: x in r && y in multiset(s) - multiset(r) ==> key(y) <= key(x)
  {
    var t := SortDesc(s, key);
    var m := Min(n, |s|);
    PrefixDominates(t, key, m);
    t[..m]
  }

  /** Every record `Top` keeps is a stored record. */
  lemma TopIn<T(!new)>(s: seq<T>, key: T -> int, n: nat)
    ensures forall x :: x in Top(s, key, n) ==> x in s
  {
    var r := Top(s, key, n);
    forall x | x in r ensures x in s {
      assert multiset(r)[x] > 0;
    }
  }

  /** The page number the paginator uses: anything below 1 reads as page 1. */
  function PageNumber(page: int): (r: nat)
    ensures r >= 1
    ensures page >= 1 ==> r == page
  {
    if page < 1 then 1 else page
  }

  /** Index of the first record on `page`. */
  function PageStart(page: int, size: nat): nat
  {
    (PageNumber(page) - 1) * size
  }

  /**
   * One page of `paginate(size)`: a contiguous run of at most `size` records;
   * a page past the last one is empty, not an error.
   */
  function Paginate<T(!new)>(s: seq<T>, page: int, size: nat): (r: seq<T>)
    requires size > 0
    ensures |r| <= size
    ensures multiset(r) <= multiset(s)
    ensures forall x :: x in r ==> x in s
    ensures PageStart(page, size) >= |s| <==> r == []
    ensures PageStart(page, size) < |s| ==> |r| == Min(size, |s| - PageStart(page, size))
  {
    var start := PageStart(page, size);
    if start >= |s| then []
    else
      var end := Min(start + size, |s|);
      assert s == s[..start] + s[start..end] + s[end..];
      s[start..end]
  }

  lemma PaginateAt<T(!new)>(s: seq<T>, page: int, size: nat, k: nat)
    requires size > 0 && k < |Paginate(s, page, size)|
    ensures PageStart(page, size) + k < |s|
    ensures Paginate(s, page, size)[k] == s[PageStart(page, size) + k]
  {
  }

  /** A page of a sorted listing is itself sorted. */
  lemma {:induction false} PaginateSortedDesc<T(!new)>(s: seq<T>, page: int, size: nat, key: T -> int)
    requires size > 0 && SortedDesc(s, key)
    ensures SortedDesc(Paginate(s, page, size), key)
  {
    var r := Paginate(s, page, size);
    forall i, j | 0 <= i < j < |r| ensures key(r[i]) >= key(r[j]) {
      PaginateAt(s, page, size, i);
      PaginateAt(s, page, size, j);
    }
  }

  lemma {:induction false} PaginateSortedAsc<T(!new)>(s: seq<T>, page: int, size: nat, key: T -> int)
    requires size > 0 && SortedAsc(s, key)
    ensures SortedAsc(Paginate(s, page, size), key)
  {
    var r := Paginate(s, page, size);
    forall i, j | 0 <= i < j < |r| ensures key(r[i]) <= key(r[j]) {
      PaginateAt(s, page, size, i);
      PaginateAt(s, page, size, j);
    }
  }

  /** The page that record `i` falls on: the page whose run of `size` records contains index `i`. */
  function PageOf(i: nat, size: nat): (page: nat)
    requires size > 0
    ensures page >= 1
    ensures PageStart(page, size) <= i < PageStart(page, size) + size
    decreases i
  {
    if i < size then 1
    else
      var pg := PageOf(i - size, size);
      assert PageStart(pg + 1, size) == PageStart(pg, size) + size;
      pg + 1
  }

  /** Every record of a listing appears on its page, at its offset from the start of that page. */
  lemma PaginateCovers<T(!new)>(s: seq<T>, size: nat, i: nat)
    requires size > 0 && i < |s|
    ensures i - PageStart(PageOf(i, size), size) < |Paginate(s, PageOf(i, size), size)|
    ensures Paginate(s, PageOf(i, size), size)[i - PageStart(PageOf(i, size), size)] == s[i]
  {
  }

  /** Pages follow one another: a later page starts at or after the end of an earlier one. */
  lemma PageStartsApart(p1: int, p2: int, size: nat)
    requires 1 <= p1 < p2
    ensures PageStart(p1, size) + size <= PageStart(p2, size)
  {
    assert PageStart(p1, size) + size == p1 * size;
    assert p1 * size <= (p2 - 1) * size;
  }

  /** On a descending listing, every record of an earlier page ranks at or above every record of a later one. */
  lemma PaginateOrderedDesc<T(!new)>(t: seq<T>, key: T -> int, size: nat, p1: int, p2: int, x: T, y: T)
    requires size > 0 && SortedDesc(t, key) && 1 <= p1 < p2
    requires x in Paginate(t, p1, size) && y in Paginate(t, p2, size)
    ensures key(y) <= key(x)
  {
    var r1 := Paginate(t, p1, size);
    var r2 := Paginate(t, p2, size);
    var i :| 0 <= i < |r1| && r1[i] == x;
    var j :| 0 <= j < |r2| && r2[j] == y;
    PaginateAt(t, p1, size, i);
    PaginateAt(t, p2, size, j);
    PageStartsApart(p1, p2, size);
  }

  /** On an ascending listing, every record of an earlier page ranks at or below every record of a later one. */
  lemma PaginateOrderedAsc<T(!new)>(t: seq<T>, key: T -> int, size: nat, p1: int, p2: int, x: T, y: T)
    requires size > 0 && SortedAsc(t, key) && 1 <= p1 < p2
    requires x in Paginate(t, p1, size) && y in Paginate(t, p2, size)
    ensures key(x) <= key(y)
  {
    var r1 := Paginate(t, p1, size);
    var r2 := Paginate(t, p2, size);
    var i :| 0 <= i < |r1| && r1[i] == x;
    var j :| 0 <= j < |r2| && r2[j] == y;
    PaginateAt(t, p1, size, i);
    PaginateAt(t, p2, size, j);
    PageStartsApart(p1, p2, size);
  }

  /** The first page of a listing is its first `size` records. */
  lemma PaginateFirst<T(!new)>(t: seq<T>, size: nat)
    requires size > 0
    ensures Paginate(t, 1, size) == t[..Min(size, |t|)]
  {
    assert PageStart(1, size) == 0;
  }

  // ---------------------------------------------------------------------
  // Whole listings: where(...) then latest(...) then take(n) / paginate(size)
  // ---------------------------------------------------------------------

  /**
   * `where(p)->latest(key)->take(n)`: at most `n` records of `s` that satisfy
   * `p`, newest first; when fewer than `n` qualify all of them are shown, and
   * no qualifying record left out ranks above one that is shown.
   */
  function TopWhere<T(!new)>(s: seq<T>, p: T -> bool, key: T -> int, n: nat): (r: seq<T>)
    ensures |r| == Min(n, Count(s, p))
    ensures forall x :: x in r ==> x in s && p(x)
    ensures multiset(r) <= multiset(s)
    ensures SortedDesc(r, key)
    ensures forall x, y :: x in r && y in s && p(y) && y !in r ==> key(y) <= key(x)
  {
    var f := Filter(s, p);
    var r := Top(f, key, n);
    assert forall x :: x in r ==> x in f by {
      forall x | x in r ensures x in f {
        assert multiset(r)[x] > 0;
      }
    }
    assert forall y :: y in s && p(y) && y !in r ==> y in multiset(f) - multiset(r) by {
      forall y | y in s && p(y) && y !in r ensures y in multiset(f) - multiset(r) {
        assert multiset(f)[y] == multiset(s)[y] > 0;
        assert multiset(r)[y] == 0;
      }
    }
    r
  }

  /** `where(p)->orderBy(key)->get()`: every record satisfying `p`, in ascending `key`. */
  function WhereAsc<T(!new)>(s: seq<T>, p: T -> bool, key: T -> int): (r: seq<T>)
    ensures |r| == Count(s, p)
    ensures forall x :: x in r <==> x in s && p(x)
    ensures forall i :: 0 <= i < |r| ==> r[i] in s && p(r[i])
    ensures forall x :: multiset(r)[x] == if p(x) then multiset(s)[x] else 0
    ensures SortedAsc(r, key)
  {
    var f := Filter(s, p);
    var r := SortAsc(f, key);
    assert forall x :: x in r <==> x in f by {
      forall x ensures x in r <==> x in f {
        assert x in r <==> multiset(r)[x] > 0;
        assert x in f <==> multiset(f)[x] > 0;
      }
    }
    r
  }

  /**
   * `where(p)->latest(key)->paginate(size)` at page `page`: a run of at most
   * `size` qualifying records, newest first; empty exactly when the page
   * starts past the last qualifying record.
   */
  function PageWhere<T(!new)>(s: seq<T>, p: T -> bool, key: T -> int, page: int, size: nat): (r: seq<T>)
    requires size > 0
    ensures |r| <= size
    ensures forall x :: x in r ==> x in s && p(x)
    ensures multiset(r) <= multiset(s)
    ensures SortedDesc(r, key)
    ensures r == [] <==> PageStart(page, size) >= Count(s, p)
    ensures PageStart(page, size) < Count(s, p) ==> |r| == Min(size, Count(s, p) - PageStart(page, size))
  {
    var t := SortDesc(Filter(s, p), key);
    PaginateSortedDesc(t, page, size, key);
    var r := Paginate(t, page, size);
    assert forall x :: x in r ==> x in Filter(s, p) by {
      forall x | x in r ensures x in Filter(s, p) {
        assert x in t;
        assert multiset(t)[x] > 0;
      }
    }
    r
  }

  /** Every qualifying record is on some page of `PageWhere`. */
  lemma {:induction false} PageWhereCovers<T(!new)>(s: seq<T>, p: T -> bool, key: T -> int, size: nat, x: T)
    requires size > 0 && x in s && p(x)
    ensures exists page :: page >= 1 && x in PageWhere(s, p, key, page, size)
  {
    var f := Filter(s, p);
    var t := SortDesc(f, key);
    assert multiset(f)[x] == multiset(s)[x] > 0;
    assert x in t by { assert multiset(t)[x] > 0; }
    var i :| 0 <= i < |t| && t[i] == x;
    PaginateCovers(t, size, i);
    var page := PageOf(i, size);
    assert Paginate(t, page, size)[i - PageStart(page, size)] == x;
    assert x in PageWhere(s, p, key, page, size);
  }

  /**
   * No qualifying record on a later page of `PageWhere` ranks above one on an
   * earlier page.
   */
  lemma PageWhereOrdered<T(!new)>(s: seq<T>, p: T -> bool, key: T -> int, size: nat, p1: int, p2: int, x: T, y: T)
    requires size > 0 && 1 <= p1 < p2
    requires x in PageWhere(s, p, key, p1, size) && y in PageWhere(s, p, key, p2, size)
    ensures key(y) <= key(x)
  {
    PaginateOrderedDesc(SortDesc(Filter(s, p), key), key, size, p1, p2, x, y);
  }

  /**
   * The first page of `PageWhere` is `TopWhere` with the page size: the
   * `size` newest qualifying records, none left out newer than one shown.
   */
  lemma PageWhereFirst<T(!new)>(s: seq<T>, p: T -> bool, key: T -> int, size: nat)
    requires size > 0
    ensures PageWhere(s, p, key, 1, size) == TopWhere(s, p, key, size)
    ensures forall x, y :: x in PageWhere(s, p, key, 1, size) && y in s && p(y) && y !in PageWhere(s, p, key, 1, size) ==>
              key(y) <= key(x)
  {
    PaginateFirst(SortDesc(Filter(s, p), key), size);
  }

  /** `latest(key)->paginate(size)` over a whole table, at page `page`. */
  function PageDesc<T(!new)>(s: seq<T>, key: T -> int, page: int, size: nat): (r: seq<T>)
    requires size > 0
    ensures |r| <= size
    ensures multiset(r) <= multiset(s)
    ensures forall x :: x in r ==> x in s
    ensures SortedDesc(r, key)
    ensures r == [] <==> PageStart(page, size) >= |s|
    ensures PageStart(page, size) < |s| ==> |r| == Min(size, |s| - PageStart(page, size))
  {
    var t := SortDesc(s, key);
    PaginateSortedDesc(t, page, size, key);
    assert forall x :: x in t ==> x in s by {
      forall x | x in t ensures x in s {
        assert multiset(t)[x] > 0;
      }
    }
    Paginate(t, page, size)
  }

  /** Every record of the table is on some page of `PageDesc`. */
  lemma {:induction false} PageDescCovers<T(!new)>(s: seq<T>, key: T -> int, size: nat, x: T)
    requires size > 0 && x in s
    ensures exists page :: page >= 1 && x in PageDesc(s, key, page, size)
  {
    var t := SortDesc(s, key);
    assert x in t by { assert multiset(t)[x] > 0; }
    var i :| 0 <= i < |t| && t[i] == x;
    PaginateCovers(t, size, i);
    var page := PageOf(i, size);
    assert Paginate(t, page, size)[i - PageStart(page, size)] == x;
    assert x in PageDesc(s, key, page, size);
  }

  /** No record on a later page of `PageDesc` ranks above one on an earlier page. */
  lemma PageDescOrdered<T(!new)>(s: seq<T>, key: T -> int, size: nat, p1: int, p2: int, x: T, y: T)
    requires size > 0 && 1 <= p1 < p2
    requires x in PageDesc(s, key, p1, size) && y in PageDesc(s, key, p2, size)
    ensures key(y) <= key(x)
  {
    PaginateOrderedDesc(SortDesc(s, key), key, size, p1, p2, x, y);
  }

  /** The first page of `PageDesc` is `Top` with the page size: nothing left out ranks above a record shown. */
  lemma PageDescFirst<T(!new)>(s: seq<T>, key: T -> int, size: nat)
    requires size > 0
    ensures PageDesc(s, key, 1, size) == Top(s, key, size)
    ensures forall x, y :: x in PageDesc(s, key, 1, size) && y in multiset(s) - multiset(PageDesc(s, key, 1, size)) ==>
              key(y) <= key(x)
  {
    PaginateFirst(SortDesc(s, key), size);
  }

  /** `orderBy(key)->paginate(size)` over a whole table, at page `page`. */
  function PageAsc<T(!new)>(s: seq<T>, key: T -> int, page: int, size: nat): (r: seq<T>)
    requires size > 0
    ensures |r| <= size
    ensures multiset(r) <= multiset(s)
    ensures forall x :: x in r ==> x in s
    ensures SortedAsc(r, key)
    ensures r == [] <==> PageStart(page, size) >= |s|
    ensures PageStart(page, size) < |s| ==> |r| == Min(size, |s| - PageStart(page, size))
  {
    var t := SortAsc(s, key);
    PaginateSortedAsc(t, page, size, key);
    assert forall x :: x in t ==> x in s by {
      forall x | x in t ensures x in s {
        assert multiset(t)[x] > 0;
      }
    }
    Paginate(t, page, size)
  }

  /** Every record of the table is on some page of `PageAsc`. */
  lemma {:induction false} PageAscCovers<T(!new)>(s: seq<T>, key: T -> int, size: nat, x: T)
    requires size > 0 && x in s
    ensures exists page :: page >= 1 && x in PageAsc(s, key, page, size)
  {
    var t := SortAsc(s, key);
    assert x in t by { assert multiset(t)[x] > 0; }
    var i :| 0 <= i < |t| && t[i] == x;
    PaginateCovers(t, size, i);
    var page := PageOf(i, size);
    assert Paginate(t, page, size)[i - PageStart(page, size)] == x;
    assert x in PageAsc(s, key, page, size);
  }

  /** No record on a later page of `PageAsc` ranks below one on an earlier page. */
  lemma PageAscOrdered<T(!new)>(s: seq<T>, key: T -> int, size: nat, p1: int, p2: int, x: T, y: T)
    requires size > 0 && 1 <= p1 < p2
    requires x in PageAsc(s, key, p1, size) && y in PageAsc(s, key, p2, size)
    ensures key(x) <= key(y)
  {
    PaginateOrderedAsc(SortAsc(s, key), key, size, p1, p2, x, y);
  }

  /**
   * The first page of `PageAsc` holds the `size` records of lowest key:
   * nothing left out ranks below a record shown.
   */
  lemma PageAscFirst<T(!new)>(s: seq<T>, key: T -> int, size: nat)
    requires size > 0
    ensures PageAsc(s, key, 1, size) == Top(s, Negated(key), size)
    ensures forall x, y :: x in PageAsc(s, key, 1, size) && y in multiset(s) - multiset(PageAsc(s, key, 1, size)) ==>
              key(x) <= key(y)
  {
    PaginateFirst(SortAsc(s, key), size);
    var r := Top(s, Negated(key), size);
    forall x, y | x in r && y in multiset(s) - multiset(r) ensures key(x) <= key(y) {
      assert Negated(key)(y) <= Negated(key)(x);
    }
  }

  // ---------------------------------------------------------------------
  // Lookups and table edits
  // ---------------------------------------------------------------------

  /** The position of the first record satisfying `p`, as `where(...)->first()` finds it. */
  function IndexWhere<T(!new)>(s: seq<T>, p: T -> bool): (r: Option<nat>)
    ensures r.Some? ==> r.value < |s| && p(s[r.value])
    ensures r.Some? ==> forall j :: 0 <= j < r.value ==> !p(s[j])
    ensures r.None? <==> forall j :: 0 <= j < |s| ==> !p(s[j])
    decreases |s|
  {
    if s == [] then None
    else if p(s[0]) then Some(0)
    else
      match IndexWhere(s[1..], p)
      case None => None
      case Some(k) => Some(k + 1)
  }

  /** The records whose `key` column equals `k`: `where(column, k)`. */
  function Is<T, K(==)>(key: T -> K, k: K): T -> bool
  {
    (x: T) => key(x) == k
  }

  /**
   * Route-model binding: the first record whose `key` column equals `k`, or
   * nothing, which the controller answers with "not found".
   */
  function FindBy<T(!new), K(==)>(s: seq<T>, key: T -> K, k: K): (r: Option<T>)
    ensures r.Some? ==> r.value in s && key(r.value) == k
    ensures r.None? <==> forall x :: x in s ==> key(x) != k
  {
    match IndexWhere(s, Is(key, k))
    case None => None
    case Some(i) => Some(s[i])
  }

  /** On a unique column the lookup finds exactly the record holding the value. */
  lemma FindByUnique<T(!new), K>(s: seq<T>, key: T -> K, x: T)
    requires DistinctBy(s, key) && x in s
    ensures FindBy(s, key, key(x)) == Some(x)
  {
    var r := FindBy(s, key, key(x));
    var i :| 0 <= i < |s| && s[i] == x;
    var j :| 0 <= j < |s| && s[j] == r.value;
    assert !(i < j) && !(j < i);
  }

  /** The table without the record at position `k`. */
  function RemoveAt<T(!new)>(s: seq<T>, k: nat): (r: seq<T>)
    requires k < |s|
    ensures |r| == |s| - 1
    ensures forall i :: 0 <= i < k ==> r[i] == s[i]
    ensures forall i :: k <= i < |r| ==> r[i] == s[i + 1]
    ensures multiset(r) == multiset(s) - multiset{s[k]}
  {
    assert s == s[..k] + [s[k]] + s[k + 1..];
    s[..k] + s[k + 1..]
  }

  lemma RemoveAtKeeps<T(!new)>(s: seq<T>, k: nat, x: T)
    requires k < |s| && x in s && x != s[k]
    ensures x in RemoveAt(s, k)
  {
    var i :| 0 <= i < |s| && s[i] == x;
    if i < k {
      assert RemoveAt(s, k)[i] == x;
    } else {
      assert RemoveAt(s, k)[i - 1] == x;
    }
  }

  /** No two records of `s` share a `key` value (a unique column). */
  predicate DistinctBy<T, K(==)>(s: seq<T>, key: T -> K)
  {
    forall i, j :: 0 <= i < j < |s| ==> key(s[i]) != key(s[j])
  }

  lemma DistinctAppend<T(!new), K>(s: seq<T>, x: T, key: T -> K)
    requires DistinctBy(s, key)
    requires forall i :: 0 <= i < |s| ==> key(s[i]) != key(x)
    ensures DistinctBy(s + [x], key)
  {
  }

  lemma DistinctRemove<T(!new), K>(s: seq<T>, k: nat, key: T -> K)
    requires k < |s| && DistinctBy(s, key)
    ensures DistinctBy(RemoveAt(s, k), key)
  {
    var r := RemoveAt(s, k);
    forall i, j | 0 <= i < j < |r| ensures key(r[i]) != key(r[j]) {
      var i', j' := if i < k then i else i + 1, if j < k then j else j + 1;
      assert r[i] == s[i'] && r[j] == s[j'];
    }
  }

  lemma DistinctReplace<T(!new), K>(s: seq<T>, k: nat, x: T, key: T -> K)
    requires k < |s| && DistinctBy(s, key)
    requires forall j :: 0 <= j < |s| && j != k ==> key(s[j]) != key(x)
    ensures DistinctBy(s[k := x], key)
  {
  }
}
