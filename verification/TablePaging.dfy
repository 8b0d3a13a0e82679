// frontend/lib/org-tables.js: the pages a client puts together from successive queries, each
// asking for `limit` rows from `limit * k` on and each free to break ties its own way.
module TablePaging {
  import opened Prelude
  import opened TableQuery

  // The rows a query returns before paging: those selected, in some order sorted by the ORDER BY key.
  ghost predicate Arrangement<R>(s: seq<R>, rows: set<R>, key: R -> int) {
    Distinct(s) && Elements(s) == rows && forall i, j :: 0 <= i < j < |s| ==> key(s[i]) <= key(s[j])
  }

  // LIMIT and OFFSET.
  function Page<R>(s: seq<R>, limit: nat, offset: nat): seq<R> {
    var rest := if offset <= |s| then s[offset..] else [];
    if limit <= |rest| then rest[..limit] else rest
  }

  // The first n pages when `size` rows are asked for each time; `orders[k]` is what the k-th
  // query would return in full.
  function Pages<R>(orders: seq<seq<R>>, size: int, n: nat): seq<R>
    requires n <= |orders|
  {
    if n == 0 then []
    else Pages(orders, size, n - 1) + Page(orders[n - 1], SafeLimit(Some(size)), SafeOffset(Some(size * (n - 1))))
  }

  // ---- Arrangements of the same rows ----

  lemma NotBefore<R(!new)>(a: seq<R>, s: seq<R>, rows: set<R>, key: R -> int, i: nat)
    requires Arrangement(a, rows, key) && Arrangement(s, rows, key) && i < |a| && i < |s|
    ensures key(a[i]) >= key(s[i])
  {
    if key(a[i]) < key(s[i]) {
      var low, high := Elements(a[..i + 1]), Elements(s[..i]);
      forall r | r in low
        ensures r in high
      {
        var k :| 0 <= k <= i && a[..i + 1][k] == r;
        assert a[k] == r && key(r) <= key(a[i]) && r in Elements(a) && r in Elements(s);
        var j :| 0 <= j < |s| && s[j] == r;
        assert j < i && s[..i][j] == r;
      }
      DistinctSize(a[..i + 1]);
      DistinctSize(s[..i]);
      SubsetSize(low, high);
      assert false;
    }
  }

  // Every arrangement has the same key at the same place.
  lemma SameKeys<R(!new)>(a: seq<R>, s: seq<R>, rows: set<R>, key: R -> int, i: nat)
    requires Arrangement(a, rows, key) && Arrangement(s, rows, key) && i < |a|
    ensures |a| == |s| == |rows| && key(a[i]) == key(s[i])
  {
    DistinctSize(a);
    DistinctSize(s);
    NotBefore(a, s, rows, key, i);
    NotBefore(s, a, rows, key, i);
  }

  ghost predicate NoTies<R(!new)>(rows: set<R>, key: R -> int) {
    forall a, b :: a in rows && b in rows && key(a) == key(b) ==> a == b
  }

  // Without ties there is one arrangement.
  lemma ArrangementUnique<R(!new)>(a: seq<R>, b: seq<R>, rows: set<R>, key: R -> int)
    requires Arrangement(a, rows, key) && Arrangement(b, rows, key) && NoTies(rows, key)
    ensures a == b
  {
    DistinctSize(a);
    DistinctSize(b);
    forall i | 0 <= i < |a|
      ensures a[i] == b[i]
    {
      SameKeys(a, b, rows, key, i);
      assert a[i] in Elements(a) && b[i] in Elements(b);
    }
  }

  // Swapping two rows with equal keys gives another arrangement.
  lemma Swapped<R>(a: seq<R>, rows: set<R>, key: R -> int, x: nat, y: nat) returns (b: seq<R>)
    requires Arrangement(a, rows, key) && x < y < |a| && key(a[x]) == key(a[y])
    ensures Arrangement(b, rows, key) && |b| == |a| && b[x] == a[y] && b[y] == a[x] && b != a
  {
    b := a[x := a[y]][y := a[x]];
    assert b[x] == a[y] && b[y] == a[x] && a[x] != a[y];
    forall r
      ensures r in b <==> r in a
    {
      if r in a {
        var i :| 0 <= i < |a| && a[i] == r;
        assert b[if i == x then y else if i == y then x else i] == r;
      }
    }
    assert Elements(b) == Elements(a);
    forall i, j | 0 <= i < j < |b|
      ensures b[i] != b[j] && key(b[i]) <= key(b[j])
    {
      var i' := if i == x then y else if i == y then x else i;
      var j' := if j == x then y else if j == y then x else j;
      assert b[i] == a[i'] && b[j] == a[j'] && i' != j';
      assert key(a[x]) <= key(a[i]) || i < x;
    }
  }

  // What n queries may return, each breaking ties as it likes.
  ghost predicate EachArranged<R>(orders: seq<seq<R>>, n: nat, rows: set<R>, key: R -> int) {
    |orders| == n && forall k :: 0 <= k < n ==> Arrangement(orders[k], rows, key)
  }

  // ---- Requests within the cap ----

  lemma {:induction false} PageLength<R>(orders: seq<seq<R>>, size: nat, n: nat, count: nat)
    requires 1 <= size <= 1000 && n <= |orders| && forall k :: 0 <= k < n ==> |orders[k]| == count
    ensures |Pages(orders, size, n)| == if size * n <= count then size * n else count
  {
    if n == 0 {
      assert size * n == 0;
    } else {
      PageLength(orders, size, n - 1, count);
      PageStarts(size, n);
      PageSize(orders[n - 1], size, size * (n - 1));
    }
  }

  lemma PageSize<R>(s: seq<R>, limit: nat, offset: nat)
    ensures |Page(s, limit, offset)| == if offset >= |s| then 0 else if offset + limit <= |s| then limit else |s| - offset
  {
  }

  lemma PageStarts(size: nat, n: nat)
    requires 1 <= size <= 1000 && n > 0
    ensures size * n == size * (n - 1) + size && SafeLimit(Some(size)) == size
    ensures SafeOffset(Some(size * (n - 1))) == size * (n - 1)
  {
    Ordered(size, 0, n - 1);
  }

  // With a size from 1 to 1000, row i of the pages is row i of the order of its own page.
  lemma {:induction false} PageRow<R>(orders: seq<seq<R>>, size: nat, n: nat, count: nat, k: nat, i: nat)
    requires 1 <= size <= 1000 && n <= |orders| && forall k :: 0 <= k < n ==> |orders[k]| == count
    requires k < n && size * k <= i < size * k + size && i < count
    ensures i < |Pages(orders, size, n)| && Pages(orders, size, n)[i] == orders[k][i]
    decreases n
  {
    PageLength(orders, size, n - 1, count);
    PageStarts(size, n);
    if k < n - 1 {
      Ordered(size, k + 1, n - 1);
      PageStarts(size, k + 1);
      PageRow(orders, size, n - 1, count, k, i);
    }
  }

  lemma Ordered(size: nat, a: nat, b: nat)
    requires a <= b
    ensures size * a <= size * b
  {
    assert size * b == size * a + size * (b - a);
  }

  // No two rows with equal keys lie on both sides of a page boundary.
  ghost predicate NoStraddle<R>(s: seq<R>, key: R -> int, size: nat) {
    forall k :: 0 < k && 0 < size * k < |s| ==> key(s[size * k - 1]) != key(s[size * k])
  }

  lemma PageOf(i: nat, size: nat) returns (k: nat)
    requires size > 0
    ensures size * k <= i < size * k + size
  {
    k := i / size;
  }

  // The page of a row, and the key it has there.
  lemma RowAt<R(!new)>(orders: seq<seq<R>>, rows: set<R>, key: R -> int, size: nat, n: nat, s: seq<R>, i: nat) returns (k: nat)
    requires 1 <= size <= 1000 && Arrangement(s, rows, key) && EachArranged(orders, n, rows, key)
    requires size * n >= |rows| && i < |rows|
    ensures k < n && size * k <= i < size * k + size && |orders[k]| == |s| == |rows|
    ensures |Pages(orders, size, n)| == |rows| && Pages(orders, size, n)[i] == orders[k][i] && key(orders[k][i]) == key(s[i])
  {
    forall k | 0 <= k < n
      ensures |orders[k]| == |rows|
    {
      DistinctSize(orders[k]);
    }
    DistinctSize(s);
    PageLength(orders, size, n, |rows|);
    k := PageOf(i, size);
    if n <= k {
      Ordered(size, n, k);
    }
    PageRow(orders, size, n, |rows|, k, i);
    SameKeys(orders[k], s, rows, key, i);
  }

  // Rows on different pages have different keys.
  lemma PagesApart<R(!new)>(orders: seq<seq<R>>, rows: set<R>, key: R -> int, size: nat, n: nat, s: seq<R>, i: nat, j: nat)
    requires 1 <= size <= 1000 && Arrangement(s, rows, key) && EachArranged(orders, n, rows, key)
    requires size * n >= |rows| && NoStraddle(s, key, size) && i < j < |rows|
    ensures var p := Pages(orders, size, n); |p| == |rows| && p[i] != p[j] && key(p[i]) <= key(p[j])
  {
    DistinctSize(s);
    var a := RowAt(orders, rows, key, size, n, s, i);
    var b := RowAt(orders, rows, key, size, n, s, j);
    if a < b {
      Boundary(s, rows, key, size, a, b, i, j);
    } else if b < a {
      PagesInOrder(size, b, a, j, i);
    }
  }

  lemma PagesInOrder(size: nat, a: nat, b: nat, i: nat, j: nat)
    requires 1 <= size <= 1000 && a < b && i < size * a + size && size * b <= j
    ensures i < j
  {
    Ordered(size, a + 1, b);
    PageStarts(size, a + 1);
  }

  lemma Boundary<R>(s: seq<R>, rows: set<R>, key: R -> int, size: nat, a: nat, b: nat, i: nat, j: nat)
    requires 1 <= size <= 1000 && Arrangement(s, rows, key) && NoStraddle(s, key, size)
    requires i < j < |s| && a < b && size * a <= i < size * a + size && size * b <= j
    ensures key(s[i]) < key(s[j])
  {
    var c := size * b;
    var d := size * (a + 1);
    Ordered(size, a + 1, b);
    PageStarts(size, a + 1);
    NoTieAt(s, key, size, b, c);
    SortedAround(s, rows, key, i, c, j);
  }

  lemma NoTieAt<R>(s: seq<R>, key: R -> int, size: nat, k: nat, c: nat)
    requires NoStraddle(s, key, size) && 0 < k && c == size * k && 0 < c < |s|
    ensures key(s[c - 1]) != key(s[c])
  {
  }

  lemma SortedAround<R>(s: seq<R>, rows: set<R>, key: R -> int, i: nat, c: nat, j: nat)
    requires Arrangement(s, rows, key) && i < c <= j < |s| && key(s[c - 1]) != key(s[c])
    ensures key(s[i]) < key(s[j])
  {
  }

  lemma NoStraddleTiles<R(!new)>(orders: seq<seq<R>>, rows: set<R>, key: R -> int, size: nat, n: nat, s: seq<R>)
    requires 1 <= size <= 1000 && Arrangement(s, rows, key) && EachArranged(orders, n, rows, key)
    requires size * n >= |rows| && NoStraddle(s, key, size)
    ensures Arrangement(Pages(orders, size, n), rows, key)
  {
    var p := Pages(orders, size, n);
    forall k | 0 <= k < n
      ensures |orders[k]| == |rows|
    {
      DistinctSize(orders[k]);
    }
    PageLength(orders, size, n, |rows|);
    forall i, j | 0 <= i < j < |p|
      ensures p[i] != p[j] && key(p[i]) <= key(p[j])
    {
      PagesApart(orders, rows, key, size, n, s, i, j);
    }
    forall i | 0 <= i < |p|
      ensures p[i] in rows
    {
      var k := RowAt(orders, rows, key, size, n, s, i);
      assert orders[k][i] in Elements(orders[k]);
    }
    DistinctSize(p);
    SameSize(Elements(p), rows);
  }

  lemma SameSize<R>(a: set<R>, b: set<R>)
    requires a <= b && |a| == |b|
    ensures a == b
  {
    assert b == a + (b - a) && |b| == |a| + |b - a|;
  }

  // A tie across a boundary repeats a row when the two queries break it differently.
  lemma StraddleRepeats<R(!new)>(rows: set<R>, key: R -> int, size: nat, n: nat, s: seq<R>) returns (orders: seq<seq<R>>)
    requires 1 <= size <= 1000 && Arrangement(s, rows, key) && !NoStraddle(s, key, size) && size * n >= |rows|
    ensures EachArranged(orders, n, rows, key) && !Distinct(Pages(orders, size, n))
  {
    DistinctSize(s);
    var b :| 0 < b && 0 < size * b < |s| && key(s[size * b - 1]) == key(s[size * b]);
    var c := size * b;
    var t := Swapped(s, rows, key, c - 1, c);
    if n <= b {
      Ordered(size, n, b);
    }
    orders := seq(n, k => if k == b then t else s);
    RepeatAt(orders, size, n, |rows|, b, c);
  }

  lemma RepeatAt<R>(orders: seq<seq<R>>, size: nat, n: nat, count: nat, b: nat, c: nat)
    requires 1 <= size <= 1000 && n <= |orders| && forall k :: 0 <= k < n ==> |orders[k]| == count
    requires 0 < b < n && c == size * b && 0 < c < count && orders[b - 1][c - 1] == orders[b][c]
    ensures !Distinct(Pages(orders, size, n))
  {
    PageStarts(size, b);
    PageRow(orders, size, n, count, b - 1, c - 1);
    PageRow(orders, size, n, count, b, c);
  }

  // ---- All requests ----

  // Which row a page may hold, whatever the request.
  lemma {:induction false} PageSource<R>(orders: seq<seq<R>>, size: int, n: nat, r: R)
    requires n <= |orders| && r in Pages(orders, size, n)
    ensures exists k, i :: 0 <= k < n && SafeOffset(Some(size * k)) <= i < SafeOffset(Some(size * k)) + SafeLimit(Some(size))
              && i < |orders[k]| && orders[k][i] == r
  {
    var offset := SafeOffset(Some(size * (n - 1)));
    var page := Page(orders[n - 1], SafeLimit(Some(size)), offset);
    if r in page {
      var j :| 0 <= j < |page| && page[j] == r;
      assert orders[n - 1][offset + j] == r;
    } else {
      PageSource(orders, size, n - 1, r);
    }
  }

  // The requests that put the rows together under every way of breaking ties.
  ghost predicate Tileable<R>(s: seq<R>, key: R -> int, size: int) {
    || s == []
    || (1 <= size <= 1000 && NoStraddle(s, key, size))
    || (size > 1000 && |s| <= 1000)
  }

  // A size above the cap skips row 1000.
  lemma CapSkips<R>(s: seq<R>, size: int, n: nat)
    requires Distinct(s) && size > 1000 && |s| > 1000
    ensures s[1000] !in Pages(seq(n, k => s), size, n)
  {
    var orders := seq(n, k => s);
    if s[1000] in Pages(orders, size, n) {
      PageSource(orders, size, n, s[1000]);
      var k, i :| 0 <= k < n && SafeOffset(Some(size * k)) <= i < SafeOffset(Some(size * k)) + SafeLimit(Some(size))
                  && i < |orders[k]| && orders[k][i] == s[1000];
      assert i == 1000;
      if k > 0 {
        Ordered(size, 1, k);
      }
    }
  }

  // A size below one asks for the first rows every time.
  lemma {:induction false} SmallRepeats<R>(s: seq<R>, size: int, n: nat)
    requires s != [] && size <= 0 && n >= 2
    ensures !Distinct(Pages(seq(n, k => s), size, n))
  {
    var orders := seq(n, k => s);
    FirstPages(orders, size, 2, n);
    var p, limit := Pages(orders, size, n), SafeLimit(Some(size));
    NoOffset(size, 1);
    assert Pages(orders, size, 1) == Pages(orders, size, 0) + Page(s, limit, 0);
    assert Pages(orders, size, 2) == Page(s, limit, 0) + Page(s, limit, 0);
    var m := |Page(s, limit, 0)|;
    assert Pages(orders, size, 2)[0] == s[0] && Pages(orders, size, 2)[m] == s[0];
    assert p[0] == p[m];
  }

  lemma NoOffset(size: int, k: nat)
    requires size <= 0
    ensures SafeOffset(Some(size * k)) == 0
  {
    Ordered(-size, 0, k);
  }

  lemma {:induction false} FirstPages<R>(orders: seq<seq<R>>, size: int, m: nat, n: nat)
    requires m <= n <= |orders|
    ensures Pages(orders, size, m) <= Pages(orders, size, n)
    decreases n
  {
    if m < n {
      FirstPages(orders, size, m, n - 1);
    }
  }

  // All rows on the first page, none on the others.
  lemma {:induction false} OnePage<R>(orders: seq<seq<R>>, size: int, n: nat)
    requires size > 1000 && 0 < n <= |orders| && forall k :: 0 <= k < n ==> |orders[k]| <= 1000
    ensures Pages(orders, size, n) == orders[0]
  {
    if n == 1 {
      assert Pages(orders, size, 0) == [] && SafeOffset(Some(size * 0)) == 0;
    } else {
      OnePage(orders, size, n - 1);
      Ordered(size, 1, n - 1);
      assert Page(orders[n - 1], 1000, SafeOffset(Some(size * (n - 1)))) == [];
    }
  }

  lemma TileableTiles<R(!new)>(orders: seq<seq<R>>, rows: set<R>, key: R -> int, size: int, n: nat, s: seq<R>)
    requires n > 0 && (size > 0 ==> size * n >= |rows|) && Arrangement(s, rows, key) && EachArranged(orders, n, rows, key)
    requires Tileable(s, key, size)
    ensures Arrangement(Pages(orders, size, n), rows, key)
  {
    forall k | 0 <= k < n
      ensures |orders[k]| == |rows|
    {
      DistinctSize(orders[k]);
    }
    DistinctSize(s);
    if s == [] {
      var p := Pages(orders, size, n);
      if p != [] {
        PageSource(orders, size, n, p[0]);
      }
      assert p == s;
    } else if size > 1000 {
      OnePage(orders, size, n);
    } else {
      NoStraddleTiles(orders, rows, key, size, n, s);
    }
  }

  lemma UntileableFails<R(!new)>(rows: set<R>, key: R -> int, size: int, n: nat, s: seq<R>) returns (orders: seq<seq<R>>)
    requires n >= 2 && (size > 0 ==> size * n >= |rows|) && Arrangement(s, rows, key)
    requires !Tileable(s, key, size)
    ensures EachArranged(orders, n, rows, key) && !Arrangement(Pages(orders, size, n), rows, key)
  {
    orders := seq(n, k => s);
    if size <= 0 {
      SmallRepeats(s, size, n);
    } else if size > 1000 {
      CapSkips(s, size, n);
      assert s[1000] in Elements(s);
    } else {
      orders := StraddleRepeats(rows, key, size, n, s);
    }
  }

  // Whatever n queries return, their pages are the rows, each once and sorted.
  ghost predicate Tiles<R(!new)>(rows: set<R>, key: R -> int, size: int, n: nat) {
    forall orders: seq<seq<R>> :: EachArranged(orders, n, rows, key) ==> Arrangement(Pages(orders, size, n), rows, key)
  }

  lemma TilesIff<R(!new)>(rows: set<R>, key: R -> int, size: int, n: nat, s: seq<R>)
    requires n >= 2 && (size > 0 ==> size * n >= |rows|) && Arrangement(s, rows, key)
    ensures Tiles(rows, key, size, n) <==> Tileable(s, key, size)
  {
    if Tileable(s, key, size) {
      forall orders: seq<seq<R>> | EachArranged(orders, n, rows, key)
        ensures Arrangement(Pages(orders, size, n), rows, key)
      {
        TileableTiles(orders, rows, key, size, n, s);
      }
    } else {
      var orders := UntileableFails(rows, key, size, n, s);
      assert EachArranged(orders, n, rows, key);
    }
  }

  // ---- Built queries ----

  // The rows a query selects from a table; none when its text is rejected.
  ghost function Selected(db: Database, q: Query, table: set<Row>): set<Row> {
    set row | row in table && Answer(db, q.clauses, q.params, row) == Some(true)
  }

  // The counting query has the same text without the last two parameters.
  ghost function Counted(db: Database, q: Query, table: set<Row>): set<Row>
    requires |q.params| >= 2
  {
    set row | row in table && Answer(db, q.clauses, q.params[..|q.params| - 2], row) == Some(true)
  }

  ghost function Filtered(db: Database, orgId: string, columns: set<string>, filters: seq<Filter>, table: set<Row>): set<Row> {
    set row | row in table && SatisfiesAll(db, orgId, columns, filters, row)
  }

  lemma SelectedIsFiltered(db: Database, q: Query, table: set<Row>, orgId: string, columns: set<string>, filters: seq<Filter>,
                           limit: Option<int>, offset: Option<int>)
    requires Built(q, orgId, columns, filters, limit, offset) && Clean(columns, filters)
    ensures Selected(db, q, table) == Counted(db, q, table) == Filtered(db, orgId, columns, filters, table)
  {
    forall row
      ensures Answer(db, q.clauses, q.params, row) == Some(SatisfiesAll(db, orgId, columns, filters, row))
      ensures Answer(db, q.clauses, q.params[..|q.params| - 2], row) == Some(SatisfiesAll(db, orgId, columns, filters, row))
    {
      RowAnswer(db, q, orgId, columns, filters, limit, offset, row);
    }
  }

  lemma RowAnswer(db: Database, q: Query, orgId: string, columns: set<string>, filters: seq<Filter>,
                  limit: Option<int>, offset: Option<int>, row: Row)
    requires Built(q, orgId, columns, filters, limit, offset) && Clean(columns, filters)
    ensures Answer(db, q.clauses, q.params, row) == Some(SatisfiesAll(db, orgId, columns, filters, row))
    ensures Answer(db, q.clauses, q.params[..|q.params| - 2], row) == Some(SatisfiesAll(db, orgId, columns, filters, row))
  {
    var params := q.params[..|q.params| - 2];
    var last, none: seq<Param> := q.params[|q.params| - 2..], [];
    QueryMeansFiltersIff(q, orgId, columns, filters, limit, offset);
    assert Answer(db, q.clauses, params + last, row) == Some(SatisfiesAll(db, orgId, columns, filters, row));
    assert Answer(db, q.clauses, params + none, row) == Some(SatisfiesAll(db, orgId, columns, filters, row));
    assert q.params == params + last && params == params + none;
  }

  function NumberAt(params: seq<Param>, k: nat): nat {
    if 1 <= k <= |params| && params[k - 1].Num? && params[k - 1].number >= 0 then params[k - 1].number else 0
  }

  // LIMIT and OFFSET take the numbers that their parameters name.
  function Fetch(q: Query, order: seq<Row>): seq<Row> {
    Page(order, NumberAt(q.params, q.limitParam), NumberAt(q.params, q.offsetParam))
  }

  function Fetched(qs: seq<Query>, orders: seq<seq<Row>>, n: nat): seq<Row>
    requires n <= |qs| && n <= |orders|
  {
    if n == 0 then [] else Fetched(qs, orders, n - 1) + Fetch(qs[n - 1], orders[n - 1])
  }

  // The k-th query asks for `size` rows from `size * k` on.
  ghost predicate Session(qs: seq<Query>, orgId: string, columns: set<string>, filters: seq<Filter>, size: int) {
    forall k :: 0 <= k < |qs| ==> Built(qs[k], orgId, columns, filters, Some(size), Some(size * k))
  }

  // The k-th query fetches the k-th page.
  ghost predicate FetchesPage(qs: seq<Query>, size: int, k: nat) {
    k < |qs| && forall order: seq<Row> :: Fetch(qs[k], order) == Page(order, SafeLimit(Some(size)), SafeOffset(Some(size * k)))
  }

  lemma SessionFetches(qs: seq<Query>, k: nat, orgId: string, columns: set<string>, filters: seq<Filter>, size: int)
    requires Session(qs, orgId, columns, filters, size) && k < |qs|
    ensures FetchesPage(qs, size, k)
  {
    assert Built(qs[k], orgId, columns, filters, Some(size), Some(size * k));
  }

  lemma {:induction false} FetchedIsPages(qs: seq<Query>, orders: seq<seq<Row>>, n: nat, size: int)
    requires n <= |qs| && n <= |orders| && forall k :: 0 <= k < n ==> FetchesPage(qs, size, k)
    ensures Fetched(qs, orders, n) == Pages(orders, size, n)
  {
    if n > 0 {
      FetchedIsPages(qs, orders, n - 1, size);
      assert FetchesPage(qs, size, n - 1);
    }
  }

  // What the queries may return from a table.
  ghost predicate Returned(orders: seq<seq<Row>>, qs: seq<Query>, db: Database, table: set<Row>, key: Row -> int) {
    |orders| == |qs| && forall k :: 0 <= k < |qs| ==> Arrangement(orders[k], Selected(db, qs[k], table), key)
  }

  lemma ReturnedExact(orders: seq<seq<Row>>, qs: seq<Query>, db: Database, table: set<Row>, key: Row -> int, orgId: string,
                      columns: set<string>, filters: seq<Filter>, size: int)
    requires Session(qs, orgId, columns, filters, size) && Clean(columns, filters)
    ensures Returned(orders, qs, db, table, key) <==>
            EachArranged(orders, |qs|, Filtered(db, orgId, columns, filters, table), key)
    ensures |orders| == |qs| ==> Fetched(qs, orders, |qs|) == Pages(orders, size, |qs|)
  {
    forall k | 0 <= k < |qs|
      ensures Selected(db, qs[k], table) == Filtered(db, orgId, columns, filters, table)
    {
      SelectedIsFiltered(db, qs[k], table, orgId, columns, filters, Some(size), Some(size * k));
    }
    if |orders| == |qs| {
      forall k | 0 <= k < |qs|
        ensures FetchesPage(qs, size, k)
      {
        SessionFetches(qs, k, orgId, columns, filters, size);
      }
      FetchedIsPages(qs, orders, |qs|, size);
    }
  }

  // Whatever the queries return, what they fetch is the filtered rows, each once and sorted.
  ghost predicate FetchesAll(qs: seq<Query>, db: Database, table: set<Row>, key: Row -> int, rows: set<Row>) {
    forall orders: seq<seq<Row>> :: Returned(orders, qs, db, table, key) ==> Arrangement(Fetched(qs, orders, |qs|), rows, key)
  }

  // The pages of successive queries are the filtered rows, each once and sorted, under every way
  // of breaking ties, exactly when the size is at most 1000 and no tie lies across a page
  // boundary, or when there are at most 1000 rows and they all come with the first page.
  lemma QueriesTileIff(qs: seq<Query>, db: Database, table: set<Row>, key: Row -> int, orgId: string, columns: set<string>,
                       filters: seq<Filter>, size: int, rows: set<Row>, s: seq<Row>)
    requires Session(qs, orgId, columns, filters, size) && Clean(columns, filters)
    requires rows == Filtered(db, orgId, columns, filters, table) && Arrangement(s, rows, key)
    requires |qs| >= 2 && (size > 0 ==> size * |qs| >= |rows|)
    ensures FetchesAll(qs, db, table, key, rows) <==> Tileable(s, key, size)
  {
    TilesIff(rows, key, size, |qs|, s);
    forall orders: seq<seq<Row>>
      ensures Returned(orders, qs, db, table, key) <==> EachArranged(orders, |qs|, rows, key)
      ensures |orders| == |qs| ==> Fetched(qs, orders, |qs|) == Pages(orders, size, |qs|)
    {
      ReturnedExact(orders, qs, db, table, key, orgId, columns, filters, size);
    }
  }

  // The reported total is the number of rows the pages put together.
  lemma TotalIsRowCount(q: Query, db: Database, table: set<Row>, key: Row -> int, orgId: string, columns: set<string>,
                        filters: seq<Filter>, limit: Option<int>, offset: Option<int>, p: seq<Row>)
    requires Built(q, orgId, columns, filters, limit, offset) && Clean(columns, filters)
    requires Arrangement(p, Filtered(db, orgId, columns, filters, table), key)
    ensures |Counted(db, q, table)| == |p|
  {
    SelectedIsFiltered(db, q, table, orgId, columns, filters, limit, offset);
    DistinctSize(p);
  }
}
