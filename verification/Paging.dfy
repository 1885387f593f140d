/** Search results cut into pages: the size and offset arithmetic, and what the pages add up to. */
module Paging {
  import opened Basics

  /** What ordering needs of an entry. */
  datatype Row = Row(id: int, created: int, revoked: Option<int>)

  function When(r: Row): int {
    if r.revoked.Some? then r.revoked.value else r.created
  }

  /** Latest change first, larger id first among equals. */
  predicate Precedes(a: Row, b: Row) {
    When(a) > When(b) || (When(a) == When(b) && a.id > b.id)
  }

  predicate DistinctIds(rows: seq<Row>) {
    forall i, j :: 0 <= i < j < |rows| ==> rows[i].id != rows[j].id
  }

  predicate Ranking(q: seq<Row>) {
    forall i, j :: 0 <= i < j < |q| ==> Precedes(q[i], q[j])
  }

  function Where(rows: seq<Row>, hit: Row -> bool): seq<Row> {
    if rows == [] then [] else
      Where(rows[..|rows| - 1], hit) + (if hit(rows[|rows| - 1]) then [rows[|rows| - 1]] else [])
  }

  function InsertRanked(r: Row, q: seq<Row>): seq<Row> {
    if q == [] || Precedes(r, q[0]) then [r] + q else [q[0]] + InsertRanked(r, q[1..])
  }

  function Ranked(rows: seq<Row>): seq<Row> {
    if rows == [] then [] else InsertRanked(rows[|rows| - 1], Ranked(rows[..|rows| - 1]))
  }

  // ---------------------------------------------------------------- the arithmetic

  const LIMIT := 0x8000_0000_0000_0000

  /** A 64-bit signed result. */
  function Wrapped(x: int): int {
    (x + LIMIT) % (2 * LIMIT) - LIMIT
  }

  /** `pageSize`, else `limit`, else 50; anything over 200 is 50 as well. */
  function PageSize(pageSize: int, limit: int): int {
    var asked := if pageSize <= 0 then limit else pageSize;
    if asked <= 0 || asked > 200 then 50 else asked
  }

  function PageNumber(page: int): int {
    if page <= 0 then 1 else page
  }

  function TotalPages(total: nat, size: int): int
    requires size > 0
  {
    if total > 0 then Wrapped(total + size - 1) / size else 0
  }

  /** `LIMIT size OFFSET offset`. */
  function Window(q: seq<Row>, size: nat, offset: nat): seq<Row> {
    if offset >= |q| then [] else if offset + size >= |q| then q[offset..] else q[offset..offset + size]
  }

  /** One search: the handler's page and size, then the store's own clamps. */
  function Page(q: seq<Row>, page: int, pageSize: int, limit: int): seq<Row> {
    var size := PageSize(pageSize, limit);
    var offset := Wrapped((PageNumber(page) - 1) * size);
    Window(q, if size <= 0 || size > 200 then 50 else size, if offset < 0 then 0 else offset)
  }

  /** Pages 1 to k, one after the other. */
  function Pages(q: seq<Row>, k: nat, pageSize: int, limit: int): seq<Row> {
    if k == 0 then [] else Pages(q, k - 1, pageSize, limit) + Page(q, k, pageSize, limit)
  }

  // ---------------------------------------------------------------- the order

  lemma RankingCons(r: Row, q: seq<Row>)
    requires Ranking(q) && forall x :: x in q ==> Precedes(r, x)
    ensures Ranking([r] + q)
  {
  }

  lemma {:induction false} InsertMembers(r: Row, q: seq<Row>)
    ensures multiset(InsertRanked(r, q)) == multiset(q) + multiset{r}
  {
    if q != [] && !Precedes(r, q[0]) {
      InsertMembers(r, q[1..]);
      assert q == [q[0]] + q[1..];
    }
  }

  lemma InsertBelow(first: Row, r: Row, q: seq<Row>)
    requires Precedes(first, r) && forall x :: x in q ==> Precedes(first, x)
    ensures forall x :: x in InsertRanked(r, q) ==> Precedes(first, x)
  {
    InsertMembers(r, q);
    forall x | x in InsertRanked(r, q) ensures Precedes(first, x) {
      assert x in multiset(InsertRanked(r, q));
      assert x in multiset(q) || x == r;
    }
  }

  lemma {:induction false} InsertFacts(r: Row, q: seq<Row>)
    requires Ranking(q) && forall i :: 0 <= i < |q| ==> q[i].id != r.id
    ensures multiset(InsertRanked(r, q)) == multiset(q) + multiset{r}
    ensures Ranking(InsertRanked(r, q))
  {
    InsertMembers(r, q);
    if q != [] {
      var tail := q[1..];
      if Precedes(r, q[0]) {
        assert forall x :: x in q ==> x == q[0] || Precedes(q[0], x);
        RankingCons(r, q);
      } else {
        InsertFacts(r, tail);
        InsertBelow(q[0], r, tail);
        RankingCons(q[0], InsertRanked(r, tail));
      }
    }
  }

  lemma {:induction false} RankedFacts(rows: seq<Row>)
    requires DistinctIds(rows)
    ensures multiset(Ranked(rows)) == multiset(rows)
    ensures Ranking(Ranked(rows))
    decreases |rows|
  {
    if rows != [] {
      var n := |rows| - 1;
      RankedFacts(rows[..n]);
      assert rows == rows[..n] + [rows[n]];
      forall i | 0 <= i < |Ranked(rows[..n])| ensures Ranked(rows[..n])[i].id != rows[n].id {
        assert Ranked(rows[..n])[i] in multiset(rows[..n]);
      }
      InsertFacts(rows[n], Ranked(rows[..n]));
    }
  }

  lemma {:induction false} WhereFacts(rows: seq<Row>, hit: Row -> bool)
    requires DistinctIds(rows)
    ensures DistinctIds(Where(rows, hit))
    ensures forall r :: r in Where(rows, hit) <==> r in rows && hit(r)
    decreases |rows|
  {
    if rows != [] {
      var n := |rows| - 1;
      var before, last := rows[..n], rows[n];
      WhereFacts(before, hit);
      assert rows == before + [last];
      assert forall r :: r in before ==> r.id != last.id;
      assert forall i :: 0 <= i < |Where(before, hit)| ==> Where(before, hit)[i] in before;
    }
  }

  lemma {:induction false} OnceEach(q: seq<Row>)
    requires DistinctIds(q)
    ensures forall r :: multiset(q)[r] == if r in q then 1 else 0
    decreases |q|
  {
    if q != [] {
      var n := |q| - 1;
      OnceEach(q[..n]);
      assert q == q[..n] + [q[n]];
      assert q[n] !in q[..n];
    }
  }

  // ---------------------------------------------------------------- the pages

  lemma PageCount(total: nat, size: int)
    requires 0 < size <= 200 && total + 200 < LIMIT
    ensures var n := TotalPages(total, size);
      n >= 0 && n * size >= total && (n > 0 ==> (n - 1) * size < total)
  {
  }

  /** A page within reach is exactly its stretch of the list. */
  lemma PageIs(q: seq<Row>, page: int, pageSize: int, limit: int)
    requires 1 <= page && (page - 1) * PageSize(pageSize, limit) < LIMIT
    ensures var size := PageSize(pageSize, limit);
      Page(q, page, pageSize, limit) == Window(q, size, (page - 1) * size)
  {
    var offset := (page - 1) * PageSize(pageSize, limit);
    assert offset >= 0;
    assert Wrapped(offset) == offset;
  }

  function Least(a: int, b: int): int {
    if a < b then a else b
  }

  lemma WindowExtends(q: seq<Row>, size: nat, offset: nat)
    requires offset < |q|
    ensures q[..offset] + Window(q, size, offset) == q[..Least(offset + size, |q|)]
  {
  }

  lemma {:induction false} FirstPages(q: seq<Row>, k: nat, pageSize: int, limit: int)
    requires k > 0 ==> (k - 1) * PageSize(pageSize, limit) < |q|
    requires |q| < LIMIT
    ensures k * PageSize(pageSize, limit) >= 0
    ensures Pages(q, k, pageSize, limit) == q[..Least(k * PageSize(pageSize, limit), |q|)]
    decreases k
  {
    var size := PageSize(pageSize, limit);
    Below(0, k, size);
    if k > 0 {
      var offset := (k - 1) * size;
      Below(0, k - 1, size);
      assert k * size == offset + size;
      Below(k - 2, k - 1, size);
      FirstPages(q, k - 1, pageSize, limit);
      PageIs(q, k, pageSize, limit);
      WindowExtends(q, size, offset);
    }
  }

  /** No page up to `totalPages` is empty or longer than the page size. */
  lemma PageFilled(q: seq<Row>, p: int, pageSize: int, limit: int)
    requires |q| + 200 < LIMIT && 1 <= p <= TotalPages(|q|, PageSize(pageSize, limit))
    ensures 1 <= |Page(q, p, pageSize, limit)| <= PageSize(pageSize, limit)
  {
    var size := PageSize(pageSize, limit);
    var n := TotalPages(|q|, size);
    PageCount(|q|, size);
    Below(p - 1, n - 1, size);
    Below(0, p - 1, size);
    PageIs(q, p, pageSize, limit);
  }

  /** Pages 1 to `totalPages` are the list, whatever the list is. */
  lemma PagesAreList(q: seq<Row>, pageSize: int, limit: int)
    requires |q| + 200 < LIMIT
    ensures TotalPages(|q|, PageSize(pageSize, limit)) >= 0
    ensures Pages(q, TotalPages(|q|, PageSize(pageSize, limit)), pageSize, limit) == q
  {
    var size := PageSize(pageSize, limit);
    var n := TotalPages(|q|, size);
    PageCount(|q|, size);
    FirstPages(q, n, pageSize, limit);
    assert q[..|q|] == q;
  }

  /** The pages 1 to `totalPages` of a search are the whole ranked list of matches, so each match is on
      exactly one of them; none of those pages is empty or longer than the page size. */
  lemma AllPages(rows: seq<Row>, hit: Row -> bool, pageSize: int, limit: int, list: seq<Row>, n: int)
    requires DistinctIds(rows) && |Where(rows, hit)| + 200 < LIMIT
    requires list == Ranked(Where(rows, hit)) && n == TotalPages(|list|, PageSize(pageSize, limit))
    ensures n >= 0 && Ranking(list)
    ensures Pages(list, n, pageSize, limit) == list
    ensures forall r :: multiset(Pages(list, n, pageSize, limit))[r] == if r in rows && hit(r) then 1 else 0
    ensures forall p :: 1 <= p <= n ==> 1 <= |Page(list, p, pageSize, limit)| <= PageSize(pageSize, limit)
  {
    WhereFacts(rows, hit);
    OnceEach(Where(rows, hit));
    RankedFacts(Where(rows, hit));
    assert |list| == |multiset(list)| == |multiset(Where(rows, hit))| == |Where(rows, hit)|;
    PagesAreList(list, pageSize, limit);
    forall p | 1 <= p <= n ensures 1 <= |Page(list, p, pageSize, limit)| <= PageSize(pageSize, limit) {
      PageFilled(list, p, pageSize, limit);
    }
  }

  lemma Below(a: int, b: int, size: int)
    requires a <= b && size > 0
    ensures a * size <= b * size
  {
  }

  lemma SameFirst(a: seq<Row>, b: seq<Row>)
    requires Ranking(a) && Ranking(b) && multiset(a) == multiset(b) && a != []
    ensures b != [] && a[0] == b[0]
  {
    assert a[0] in multiset(b);
    var i :| 0 <= i < |b| && b[i] == a[0];
    assert b[0] in multiset(a);
    var j :| 0 <= j < |a| && a[j] == b[0];
    assert i > 0 ==> Precedes(b[0], a[0]);
    assert j > 0 ==> Precedes(a[0], b[0]);
  }

  lemma RestOf(a: seq<Row>)
    requires Ranking(a) && a != []
    ensures Ranking(a[1..]) && multiset(a[1..]) == multiset(a) - multiset{a[0]} && a == [a[0]] + a[1..]
  {
    assert a == [a[0]] + a[1..];
  }

  /** Which ranked list there is does not depend on the order the table is scanned in. */
  lemma {:induction false} OneRanking(a: seq<Row>, b: seq<Row>)
    requires Ranking(a) && Ranking(b) && multiset(a) == multiset(b)
    ensures a == b
    decreases |a|
  {
    if a == [] {
      assert |multiset(b)| == 0;
    } else {
      SameFirst(a, b);
      RestOf(a);
      RestOf(b);
      OneRanking(a[1..], b[1..]);
    }
  }

  // ---------------------------------------------------------------- any page number at all

  lemma WrappedMeans(x: int)
    ensures var m := x % (2 * LIMIT); Wrapped(x) == if m < LIMIT then m else m - 2 * LIMIT
  {
    var m, k := x % (2 * LIMIT), x / (2 * LIMIT);
    assert x == k * (2 * LIMIT) + m;
    if m < LIMIT {
      Remainder(x + LIMIT, k, m + LIMIT);
    } else {
      Remainder(x + LIMIT, k + 1, m - LIMIT);
    }
  }

  lemma Remainder(y: int, k: int, m: int)
    requires y == k * (2 * LIMIT) + m && 0 <= m < 2 * LIMIT
    ensures y % (2 * LIMIT) == m
  {
  }

  /** The offset of a page before it is cut to 64 bits, modulo 2^64. */
  function OffsetBits(page: int, pageSize: int, limit: int): int {
    ((PageNumber(page) - 1) * PageSize(pageSize, limit)) % (2 * LIMIT)
  }

  /** Every page, whatever its number: the stretch at its offset, or the first page again when the offset
      wraps to a negative number. */
  lemma PageExactly(q: seq<Row>, page: int, pageSize: int, limit: int)
    ensures var m := OffsetBits(page, pageSize, limit);
      Page(q, page, pageSize, limit) == Window(q, PageSize(pageSize, limit), if m < LIMIT then m else 0)
  {
    WrappedMeans((PageNumber(page) - 1) * PageSize(pageSize, limit));
  }

  /** `r` is what there is of `q` from `offset` on, but at most `size` rows. */
  predicate Stretch(q: seq<Row>, offset: int, size: int, r: seq<Row>) {
    && 0 <= offset && |r| == (if offset + size <= |q| then size else if offset <= |q| then |q| - offset else 0)
    && forall j :: 0 <= j < |r| ==> r[j] == q[offset + j]
  }

  /** A size from 1 to 200 is used as asked, in `limit` when there is no `pageSize`; any other is 50. */
  predicate SizeAsked(pageSize: int, limit: int, size: int) {
    1 <= size <= 200 &&
    (size == pageSize || (pageSize <= 0 && size == limit) ||
     (size == 50 && (pageSize > 200 || (pageSize <= 0 && (limit <= 0 || limit > 200)))))
  }

  /** Pages of that size count from 1, and a number below that is page 1. */
  lemma PageAsked(q: seq<Row>, page: int, pageSize: int, limit: int, size: int)
    requires SizeAsked(pageSize, limit, size)
    ensures page <= 1 ==> Stretch(q, 0, size, Page(q, page, pageSize, limit))
    ensures page > 1 && (page - 1) * size < LIMIT ==>
      Stretch(q, (page - 1) * size, size, Page(q, page, pageSize, limit))
  {
    hide Page, Window;
    PageExactly(q, page, pageSize, limit);
    assert PageSize(pageSize, limit) == size;
    if page <= 1 {
      StretchIsWindow(q, 0, size);
    } else if (page - 1) * size < LIMIT {
      OffsetKept(page, size);
      StretchIsWindow(q, (page - 1) * size, size);
    }
  }

  lemma StretchIsWindow(q: seq<Row>, offset: nat, size: nat)
    ensures Stretch(q, offset, size, Window(q, size, offset))
  {
  }

  lemma OffsetKept(page: int, size: int)
    requires page > 1 && size >= 1 && (page - 1) * size < LIMIT
    ensures 0 <= (page - 1) * size && ((page - 1) * size) % (2 * LIMIT) == (page - 1) * size
  {
  }

  /** A search that asks for no page and no size gets the first 50 matches in order. */
  lemma FirstFifty(rows: seq<Row>, hit: Row -> bool)
    ensures var q := Ranked(Where(rows, hit)); Page(q, 0, 0, 0) == if |q| <= 50 then q else q[..50]
  {
    var q := Ranked(Where(rows, hit));
    PageAsked(q, 0, 0, 0, 50);
  }

  /** A page is empty exactly when nothing matches or its offset, kept to 64 bits, is at or past the end. */
  lemma EmptyExactly(q: seq<Row>, page: int, pageSize: int, limit: int)
    ensures Page(q, page, pageSize, limit) == [] <==> q == [] || |q| <= OffsetBits(page, pageSize, limit) < LIMIT
  {
    PageExactly(q, page, pageSize, limit);
  }

  /** So a page far past the end need not be empty: page 2^56 + 1 of size 128 is page 1. */
  lemma PastTheEndNotEmpty(q: seq<Row>)
    requires q != []
    ensures Page(q, 0x0100_0000_0000_0001, 128, 0) == Page(q, 1, 128, 0) != []
  {
    PageExactly(q, 0x0100_0000_0000_0001, 128, 0);
    PageExactly(q, 1, 128, 0);
    assert OffsetBits(0x0100_0000_0000_0001, 128, 0) == LIMIT;
  }
}
