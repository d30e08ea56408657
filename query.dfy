// The SQL the mappers issue, read as operations on a table held as a
// sequence of rows: WHERE, COUNT(*), ORDER BY and LIMIT/OFFSET, plus the
// page-number arithmetic the services perform before calling them.

module Query {
  import opened Common
  import opened JavaText

  // ---------------------------------------------------------------- WHERE

  /** The rows satisfying p, in table order. */
  function Where<T(!new)>(rows: seq<T>, p: T -> bool): (r: seq<T>)
    ensures |r| <= |rows|
    ensures forall x :: x in r <==> x in rows && p(x)
  {
    if rows == [] then []
    else if p(rows[0]) then [rows[0]] + Where(rows[1..], p)
    else Where(rows[1..], p)
  }

  /** SELECT COUNT(*) under the same condition. */
  function CountWhere<T>(rows: seq<T>, p: T -> bool): nat {
    if rows == [] then 0 else (if p(rows[0]) then 1 else 0) + CountWhere(rows[1..], p)
  }

  /** A count query agrees with the length of its unpaged list twin. */
  lemma {:induction false} CountIsWhereLength<T(!new)>(rows: seq<T>, p: T -> bool)
    ensures CountWhere(rows, p) == |Where(rows, p)|
  {
    if rows != [] {
      CountIsWhereLength(rows[1..], p);
    }
  }

  /** With a condition every row meets, the count is the table size. */
  lemma {:induction false} CountAll<T(!new)>(rows: seq<T>, p: T -> bool)
    requires forall x :: x in rows ==> p(x)
    ensures CountWhere(rows, p) == |rows|
  {
    if rows != [] {
      assert forall x :: x in rows[1..] ==> x in rows;
      CountAll(rows[1..], p);
    }
  }

  /** A row failing the condition leaves the selection shorter than the table. */
  lemma {:induction false} WhereDropsRow<T(!new)>(rows: seq<T>, p: T -> bool, x: T)
    requires x in rows && !p(x)
    ensures |Where(rows, p)| < |rows|
  {
    if rows[0] != x {
      WhereDropsRow(rows[1..], p, x);
    }
  }

  /** A condition every row meets selects the whole table. */
  lemma {:induction false} WhereKeepsAll<T(!new)>(rows: seq<T>, p: T -> bool)
    requires forall x :: x in rows ==> p(x)
    ensures Where(rows, p) == rows
  {
    if rows != [] {
      assert forall x :: x in rows[1..] ==> x in rows;
      WhereKeepsAll(rows[1..], p);
      assert [rows[0]] + rows[1..] == rows;
    }
  }

  /** Selecting from two tables one after the other selects from each. */
  lemma {:induction false} WhereConcat<T(!new)>(a: seq<T>, b: seq<T>, p: T -> bool)
    ensures Where(a + b, p) == Where(a, p) + Where(b, p)
  {
    if a != [] {
      assert (a + b)[1..] == a[1..] + b;
      WhereConcat(a[1..], b, p);
    } else {
      assert a + b == b;
    }
  }

  /** The message of MyBatis' TooManyResultsException. */
  function TooManyResults(n: int): string {
    "Expected one result (or null) to be returned by selectOne(), but found: " + IntToString(n)
  }

  /** selectOne: no matching row is null, one is that row, more throw. */
  function SelectOne<T(!new)>(rows: seq<T>, p: T -> bool): (r: Except<Option<T>>)
    ensures r == Value(None) <==> forall x :: x in rows ==> !p(x)
    ensures r.Value? && r.v.Some? ==> r.v.value in rows && p(r.v.value)
    ensures r.Throws? <==> CountWhere(rows, p) >= 2
  {
    var matches := Where(rows, p);
    CountIsWhereLength(rows, p);
    if |matches| == 0 then Value(None)
    else if |matches| == 1 then
      assert matches[0] in matches;
      Value(Some(matches[0]))
    else Throws(TooManyResults(|matches|))
  }

  /** Two conditions that agree on every row select the same rows. */
  lemma {:induction false} WhereExt<T(!new)>(rows: seq<T>, p: T -> bool, q: T -> bool)
    requires forall x :: p(x) == q(x)
    ensures Where(rows, p) == Where(rows, q)
  {
    if rows != [] {
      WhereExt(rows[1..], p, q);
    }
  }

  /** A condition implied by another counts at least as many rows. */
  lemma {:induction false} CountWhereMono<T(!new)>(rows: seq<T>, p: T -> bool, q: T -> bool)
    requires forall x :: x in rows && p(x) ==> q(x)
    ensures CountWhere(rows, p) <= CountWhere(rows, q)
  {
    if rows != [] {
      assert forall x :: x in rows[1..] ==> x in rows;
      CountWhereMono(rows[1..], p, q);
    }
  }

  /** A condition no row meets counts nothing. */
  lemma {:induction false} CountNoMatch<T(!new)>(rows: seq<T>, p: T -> bool)
    requires forall x :: x in rows ==> !p(x)
    ensures CountWhere(rows, p) == 0
  {
    if rows != [] {
      assert forall x :: x in rows[1..] ==> x in rows;
      CountNoMatch(rows[1..], p);
    }
  }

  /** A condition met at one position only counts one row. */
  lemma {:induction false} CountOneMatch<T(!new)>(rows: seq<T>, p: T -> bool, k: nat)
    requires k < |rows| && p(rows[k])
    requires forall i :: 0 <= i < |rows| && p(rows[i]) ==> i == k
    ensures CountWhere(rows, p) == 1
  {
    var rest := rows[1..];
    if k == 0 {
      forall x | x in rest ensures !p(x) {
        var i :| 0 <= i < |rest| && rest[i] == x;
        assert rows[i + 1] == x;
      }
      CountNoMatch(rest, p);
    } else {
      forall i | 0 <= i < |rest| && p(rest[i]) ensures i == k - 1 {
        assert rows[i + 1] == rest[i];
      }
      CountOneMatch(rest, p, k - 1);
    }
  }

  /** selectOne finds the row that alone meets the condition. */
  lemma SelectOneOfOnlyMatch<T(!new)>(rows: seq<T>, p: T -> bool, k: nat)
    requires k < |rows| && p(rows[k])
    requires forall i :: 0 <= i < |rows| && p(rows[i]) ==> i == k
    ensures SelectOne(rows, p) == Value(Some(rows[k]))
  {
    CountOneMatch(rows, p, k);
    CountIsWhereLength(rows, p);
    assert rows[k] in Where(rows, p);
  }

  // ---------------------------------------------------------------- ORDER BY

  predicate SortedBy<T>(s: seq<T>, key: T -> int) {
    forall i, j :: 0 <= i < j < |s| ==> key(s[i]) <= key(s[j])
  }

  function InsertBy<T>(x: T, s: seq<T>, key: T -> int): (r: seq<T>)
    requires SortedBy(s, key)
    ensures SortedBy(r, key)
    ensures forall y :: y in r ==> y == x || y in s
    ensures multiset(r) == multiset(s) + multiset([x])
  {
    if s == [] then [x]
    else if key(x) <= key(s[0]) then [x] + s
    else
      var tail := InsertBy(x, s[1..], key);
      assert [s[0]] + s[1..] == s;
      assert forall y :: y in s[1..] ==> key(s[0]) <= key(y);
      ConsSorted(s[0], tail, key);
      [s[0]] + tail
  }

  /** A head no greater than anything in a sorted tail keeps it sorted. */
  lemma ConsSorted<T>(h: T, t: seq<T>, key: T -> int)
    requires SortedBy(t, key) && forall y :: y in t ==> key(h) <= key(y)
    ensures SortedBy([h] + t, key)
  {
    var r := [h] + t;
    forall i, j | 0 <= i < j < |r| ensures key(r[i]) <= key(r[j]) {
      assert r[j] == t[j - 1];
      if i > 0 {
        assert r[i] == t[i - 1];
      } else {
        assert t[j - 1] in t;
      }
    }
  }

  /** ORDER BY key ascending: a sorted permutation of the rows. SQL leaves the
    * order of equal keys open; the model fixes one. */
  function OrderBy<T>(s: seq<T>, key: T -> int): (r: seq<T>)
    ensures SortedBy(r, key)
    ensures multiset(r) == multiset(s)
  {
    if s == [] then []
    else
      assert [s[0]] + s[1..] == s;
      InsertBy(s[0], OrderBy(s[1..], key), key)
  }

  /** ORDER BY key DESC. */
  function OrderByDesc<T>(s: seq<T>, key: T -> int): (r: seq<T>)
    ensures forall i, j :: 0 <= i < j < |r| ==> key(r[i]) >= key(r[j])
    ensures multiset(r) == multiset(s)
    ensures |r| == |s|
    ensures forall i :: 0 <= i < |r| ==> r[i] in s
  {
    var r := OrderBy(s, x => -key(x));
    assert forall i, j :: 0 <= i < j < |r| ==> -key(r[i]) <= -key(r[j]);
    assert |r| == |s| by {
      assert |multiset(r)| == |multiset(s)|;
    }
    assert forall i :: 0 <= i < |r| ==> r[i] in s by {
      forall i | 0 <= i < |r| ensures r[i] in s {
        assert r[i] in multiset(r);
      }
    }
    r
  }

  // ---------------------------------------------------------------- DISTINCT

  predicate NoDuplicates<T(==)>(s: seq<T>) {
    forall i, j :: 0 <= i < j < |s| ==> s[i] != s[j]
  }

  /** The position of the first occurrence of x in s. */
  function FirstIndex<T(==)>(s: seq<T>, x: T): (k: nat)
    requires x in s
    ensures k < |s| && s[k] == x && x !in s[..k]
  {
    if s[0] == x then 0 else 1 + FirstIndex(s[1..], x)
  }

  lemma {:induction false} FirstIndexPrefix<T>(s: seq<T>, n: nat, x: T)
    requires n <= |s| && x in s[..n]
    ensures FirstIndex(s, x) == FirstIndex(s[..n], x)
  {
    if s[0] != x {
      assert s[1..][..n - 1] == s[..n][1..];
      FirstIndexPrefix(s[1..], n - 1, x);
    }
  }

  /** Each value once, in the order of its first appearance (SELECT DISTINCT,
    * Stream.distinct). */
  function Distinct<T(==)>(s: seq<T>): (r: seq<T>)
    ensures NoDuplicates(r)
    ensures forall x :: x in r ==> x in s
    ensures forall x :: x in s ==> x in r
    ensures r == [] <==> s == []
  {
    if s == [] then []
    else
      var d := Distinct(s[..|s| - 1]);
      assert s == s[..|s| - 1] + [s[|s| - 1]];
      if s[|s| - 1] in d then d else d + [s[|s| - 1]]
  }

  /** Distinct keeps first-appearance order. */
  lemma {:induction false} DistinctKeepsFirstAppearanceOrder<T(!new)>(s: seq<T>)
    ensures forall i, j :: 0 <= i < j < |Distinct(s)| ==> FirstIndex(s, Distinct(s)[i]) < FirstIndex(s, Distinct(s)[j])
  {
    if s != [] {
      var n := |s| - 1;
      var prefix := s[..n];
      var d := Distinct(prefix);
      DistinctKeepsFirstAppearanceOrder(prefix);
      forall k | 0 <= k < |d| ensures d[k] in prefix && d[k] in s {
        var m := FirstIndex(prefix, d[k]);
        assert s[m] == prefix[m];
      }
      if s[n] !in d {
        assert s[n] !in prefix;
        NewLastKeepsOrder(s, d, Distinct(s));
      } else {
        RepeatedLastKeepsOrder(s, d, Distinct(s));
      }
    }
  }

  /** The step of Distinct that appends a last element not seen before. */
  lemma NewLastKeepsOrder<T>(s: seq<T>, d: seq<T>, r: seq<T>)
    requires s != [] && (forall k :: 0 <= k < |d| ==> d[k] in s[..|s| - 1] && d[k] in s) && s[|s| - 1] !in s[..|s| - 1]
    requires forall i, j :: 0 <= i < j < |d| ==> FirstIndex(s[..|s| - 1], d[i]) < FirstIndex(s[..|s| - 1], d[j])
    requires r == d + [s[|s| - 1]]
    ensures forall k :: 0 <= k < |r| ==> r[k] in s
    ensures forall i, j :: 0 <= i < j < |r| ==> FirstIndex(s, r[i]) < FirstIndex(s, r[j])
  {
    var n := |s| - 1;
    var prefix := s[..n];
    forall k | 0 <= k < n ensures s[k] != s[n] {
      assert prefix[k] == s[k];
    }
    assert FirstIndex(s, s[n]) == n;
    forall k | 0 <= k < |r| ensures r[k] in s {
      if k < |d| {
        assert r[k] == d[k];
      }
    }
    forall i, j | 0 <= i < j < |r| ensures FirstIndex(s, r[i]) < FirstIndex(s, r[j]) {
      assert r[i] == d[i];
      FirstIndexPrefix(s, n, d[i]);
      if j < |d| {
        assert r[j] == d[j];
        FirstIndexPrefix(s, n, d[j]);
      }
    }
  }

  /** The step of Distinct that drops a last element already seen. */
  lemma RepeatedLastKeepsOrder<T>(s: seq<T>, d: seq<T>, r: seq<T>)
    requires s != [] && forall k :: 0 <= k < |d| ==> d[k] in s[..|s| - 1] && d[k] in s
    requires forall i, j :: 0 <= i < j < |d| ==> FirstIndex(s[..|s| - 1], d[i]) < FirstIndex(s[..|s| - 1], d[j])
    requires r == d
    ensures forall i, j :: 0 <= i < j < |r| ==> FirstIndex(s, r[i]) < FirstIndex(s, r[j])
  {
    var n := |s| - 1;
    forall i, j | 0 <= i < j < |d| ensures FirstIndex(s, d[i]) < FirstIndex(s, d[j]) {
      FirstIndexPrefix(s, n, d[i]);
      FirstIndexPrefix(s, n, d[j]);
    }
  }

  // ---------------------------------------------------------------- LIMIT/OFFSET

  const NegativeOffset: string := "ERROR: OFFSET must not be negative"
  const NegativeLimit: string := "ERROR: LIMIT must not be negative"

  /** LIMIT limit OFFSET offset. PostgreSQL refuses a negative value,
    * checking the offset first; the service sees the refusal as an exception. */
  function LimitOffset<T>(s: seq<T>, offset: int, limit: int): (r: Except<seq<T>>)
    ensures r.Value? <==> offset >= 0 && limit >= 0
    ensures offset < 0 ==> r == Throws(NegativeOffset)
    ensures offset >= 0 && limit < 0 ==> r == Throws(NegativeLimit)
    ensures r.Value? ==> |r.v| <= limit
    ensures r.Value? ==> forall i :: 0 <= i < |r.v| ==> offset + i < |s| && r.v[i] == s[offset + i]
    ensures r.Value? && offset + limit <= |s| ==> |r.v| == limit
    ensures r.Value? && offset <= |s| <= offset + limit ==> |r.v| == |s| - offset
  {
    if offset < 0 then Throws(NegativeOffset)
    else if limit < 0 then Throws(NegativeLimit)
    else if offset >= |s| then Value([])
    else if |s| - offset <= limit then Value(s[offset..])
    else Value(s[offset..offset + limit])
  }

  /** The paged list query: WHERE p ORDER BY key DESC LIMIT limit OFFSET offset. */
  function SelectPageDesc<T(!new)>(rows: seq<T>, p: T -> bool, key: T -> int, offset: int, limit: int): Except<seq<T>> {
    LimitOffset(OrderByDesc(Where(rows, p), key), offset, limit)
  }

  /** Every row on a page is a row of the table meeting the condition. */
  lemma SelectPageDescRowsMatch<T(!new)>(rows: seq<T>, p: T -> bool, key: T -> int, offset: int, limit: int)
    requires SelectPageDesc(rows, p, key, offset, limit).Value?
    ensures forall x :: x in SelectPageDesc(rows, p, key, offset, limit).v ==> x in rows && p(x)
  {
    var matching := Where(rows, p);
    var sorted := OrderByDesc(matching, key);
    var page := LimitOffset(sorted, offset, limit).v;
    forall x | x in page ensures x in matching {
      var i :| 0 <= i < |page| && page[i] == x;
      assert sorted[offset + i] in matching;
    }
  }

  /** A page is newest first. */
  lemma SelectPageDescOrdered<T(!new)>(rows: seq<T>, p: T -> bool, key: T -> int, offset: int, limit: int)
    requires SelectPageDesc(rows, p, key, offset, limit).Value?
    ensures var page := SelectPageDesc(rows, p, key, offset, limit).v;
      forall i, j :: 0 <= i < j < |page| ==> key(page[i]) >= key(page[j])
  {
    var sorted := OrderByDesc(Where(rows, p), key);
    var page := LimitOffset(sorted, offset, limit).v;
    assert forall i :: 0 <= i < |page| ==> page[i] == sorted[offset + i];
  }

  /** A page holds min(limit, total - offset) rows while the offset lies inside
    * the count query's total, and none beyond it. */
  lemma SelectPageDescLength<T(!new)>(rows: seq<T>, p: T -> bool, key: T -> int, offset: int, limit: int)
    requires SelectPageDesc(rows, p, key, offset, limit).Value?
    ensures var page := SelectPageDesc(rows, p, key, offset, limit).v;
      && |page| <= limit
      && (offset < CountWhere(rows, p) ==> |page| == Min(limit, CountWhere(rows, p) - offset))
      && (offset >= CountWhere(rows, p) ==> page == [])
  {
    CountIsWhereLength(rows, p);
  }

  // ---------------------------------------------------------------- paging

  /** Where MyBatis-Plus page `current` of `size` rows starts: a page number
    * below 2 reads as the first page. */
  function PageStart(current: int, size: int): (r: int)
    requires size >= 0
    ensures r >= 0
  {
    if current <= 1 then 0 else (current - 1) * size
  }

  /** What selectPage hands back: getRecords() and getTotal(). */
  datatype PageResult<T> = PageResult(records: seq<T>, total: int)

  /** selectPage(new Page<>(current, size), WHERE p ORDER BY key DESC) with
    * MyBatis-Plus's PaginationInnerInterceptor attached: a negative size
    * skips both the count query and the LIMIT, leaving every matching row
    * and a total of 0; otherwise the page at PageStart and the count. */
  function SelectPage<T(!new)>(rows: seq<T>, p: T -> bool, key: T -> int, current: int, size: int): PageResult<T> {
    var sorted := OrderByDesc(Where(rows, p), key);
    if size < 0 then PageResult(sorted, 0)
    else PageResult(LimitOffset(sorted, PageStart(current, size), size).v, |Where(rows, p)|)
  }

  /** With the interceptor, a page holds matching rows of the table, newest
    * first, no more than size of them with the count of all matches as its
    * total; a negative size gives every match and a total of 0. */
  lemma SelectPageSound<T(!new)>(rows: seq<T>, p: T -> bool, key: T -> int, current: int, size: int)
    ensures var r := SelectPage(rows, p, key, current, size);
      && (size >= 0 ==> |r.records| <= size && r.total == CountWhere(rows, p))
      && (size < 0 ==> |r.records| == CountWhere(rows, p) && r.total == 0)
      && (forall x :: x in r.records ==> x in rows && p(x))
      && (forall i, j :: 0 <= i < j < |r.records| ==> key(r.records[i]) >= key(r.records[j]))
  {
    var matching := Where(rows, p);
    var sorted := OrderByDesc(matching, key);
    var page := SelectPage(rows, p, key, current, size).records;
    CountIsWhereLength(rows, p);
    if size >= 0 {
      DescWindow(sorted, key, PageStart(current, size), size);
    }
    assert forall x :: x in page ==> x in matching;
  }

  /** selectPage as the hd application runs it: its own SqlSessionFactory
    * is built without the interceptor, so the wrapper's SQL runs with no
    * LIMIT and no count query; records are every matching row, newest
    * first, and the Page keeps its initial total of 0 whatever current and
    * size were asked for. */
  function SelectPageUnintercepted<T(!new)>(rows: seq<T>, p: T -> bool, key: T -> int): (r: PageResult<T>)
    ensures r.total == 0
    ensures multiset(r.records) == multiset(Where(rows, p))
    ensures |r.records| == CountWhere(rows, p)
    ensures forall x :: x in r.records <==> x in rows && p(x)
    ensures forall i, j :: 0 <= i < j < |r.records| ==> key(r.records[i]) >= key(r.records[j])
  {
    CountIsWhereLength(rows, p);
    var sorted := OrderByDesc(Where(rows, p), key);
    assert forall x :: x in sorted <==> x in multiset(sorted);
    PageResult(sorted, 0)
  }

  /** Without the interceptor a page asked for with a size below the number
    * of matches comes back longer than that size, and with a total of 0
    * where the intercepted page reports the count. */
  lemma UninterceptedPageIgnoresSize<T(!new)>(rows: seq<T>, p: T -> bool, key: T -> int, current: int, size: int)
    requires 0 <= size < CountWhere(rows, p)
    ensures |SelectPageUnintercepted(rows, p, key).records| > size
    ensures SelectPageUnintercepted(rows, p, key).total == 0
    ensures SelectPage(rows, p, key, current, size).total > 0
  {
    SelectPageSound(rows, p, key, current, size);
  }

  /** A LIMIT/OFFSET window of a descending sequence is descending and
    * holds only its elements. */
  lemma DescWindow<T>(sorted: seq<T>, key: T -> int, offset: int, limit: int)
    requires offset >= 0 && limit >= 0
    requires forall i, j :: 0 <= i < j < |sorted| ==> key(sorted[i]) >= key(sorted[j])
    ensures var w := LimitOffset(sorted, offset, limit).v;
      && (forall x :: x in w ==> x in sorted)
      && (forall i, j :: 0 <= i < j < |w| ==> key(w[i]) >= key(w[j]))
  {
    var w := LimitOffset(sorted, offset, limit).v;
    forall x | x in w ensures x in sorted {
      var i :| 0 <= i < |w| && w[i] == x;
      assert w[i] == sorted[offset + i];
    }
    forall i, j | 0 <= i < j < |w| ensures key(w[i]) >= key(w[j]) {
      assert w[i] == sorted[offset + i] && w[j] == sorted[offset + j];
    }
  }

  function Min(a: int, b: int): int { if a <= b then a else b }

  /** `if (page == null || page < 1) page = 1;` */
  function NormalisePage(page: Option<int>): (r: int)
    ensures r >= 1
    ensures page.Some? && page.value >= 1 ==> r == page.value
  {
    if page.None? || page.value < 1 then 1 else page.value
  }

  /** `if (pageSize == null || pageSize < 1) pageSize = 10;` */
  function NormalisePageSize(pageSize: Option<int>): (r: int)
    ensures r >= 1
    ensures pageSize.Some? && pageSize.value >= 1 ==> r == pageSize.value
    ensures pageSize.None? || pageSize.value < 1 ==> r == 10
  {
    if pageSize.None? || pageSize.value < 1 then 10 else pageSize.value
  }

  /** `int offset = (page - 1) * pageSize;` in 32-bit arithmetic. */
  function Offset(page: int, pageSize: int): (r: int)
    ensures InInt32(r)
    ensures InInt32((page - 1) * pageSize) ==> r == (page - 1) * pageSize
  {
    Wrap32((page - 1) * pageSize)
  }

  /** After normalisation, a page whose start fits in an int begins at a
    * non-negative offset, so the paged query never throws. */
  lemma NormalisedOffsetNonNegative(page: Option<int>, pageSize: Option<int>)
    requires InInt32((NormalisePage(page) - 1) * NormalisePageSize(pageSize))
    ensures Offset(NormalisePage(page), NormalisePageSize(pageSize)) >= 0
  {
  }

  // ---------------------------------------------------------------- result rows

  /** The for-each loops that turn each row of a result into its view object,
    * keeping the order. */
  method ConvertAll<A, B>(rows: seq<A>, convert: A -> B) returns (views: seq<B>)
    ensures |views| == |rows|
    ensures forall i :: 0 <= i < |rows| ==> views[i] == convert(rows[i])
  {
    views := [];
    var i := 0;
    while i < |rows|
      invariant 0 <= i <= |rows|
      invariant |views| == i
      invariant forall k :: 0 <= k < i ==> views[k] == convert(rows[k])
    {
      views := views + [convert(rows[i])];
      i := i + 1;
    }
  }
}
