// frontend/lib/org-tables.js, queryDataAdvanced: the parameterised WHERE clause and paging.
module TableQuery {
  import opened Prelude

  datatype Filter = Filter(column: string, op: string, value: string)

  // One conjunct of the WHERE text; `param` is the number after the dollar sign.
  datatype Clause =
    | OrgIs(param: nat)
    | IsNull(column: string)
    | NotNull(column: string)
    | ILike(column: string, param: nat)
    | Compare(column: string, sqlOp: string, param: nat)

  datatype Param = Str(text: string) | Num(number: int)

  datatype Query = Query(clauses: seq<Clause>, params: seq<Param>, limitParam: nat, offsetParam: nat)

  // A cell's text, or NULL.
  datatype Row = Row(orgId: string, cells: map<string, Option<string>>)

  // What the database brings: comparison of a column's cell with a parameter, by the column's
  // type, and case folding.
  datatype Database = Database(compare: (string, string, string, string) -> bool, fold: char -> char)

  // The comparison a filter asks for; an operator that is not listed means equality.
  function Comparison(op: string): string {
    match op
    case "eq" => "="
    case "neq" => "!="
    case "gt" => ">"
    case "lt" => "<"
    case "gte" => ">="
    case "lte" => "<="
    case _ => "="
  }

  const COMPARISONS: set<string> := {"=", "!=", ">", "<", ">=", "<="}

  // The names every JavaScript object literal inherits.
  const INHERITED: set<string> := {
    "constructor", "hasOwnProperty", "isPrototypeOf", "propertyIsEnumerable", "toLocaleString", "toString", "valueOf",
    "__defineGetter__", "__defineSetter__", "__lookupGetter__", "__lookupSetter__", "__proto__"}

  // FILTER_OPS[op] || "=" as text: an inherited name yields what the literal inherits.
  function SqlOp(op: string): string {
    if op == "__proto__" then "[object Object]"
    else if op == "constructor" then "function Object() { [native code] }"
    else if op in INHERITED then "function " + op + "() { [native code] }"
    else Comparison(op)
  }

  lemma SqlOpIsComparison(op: string)
    ensures SqlOp(op) in COMPARISONS <==> op !in INHERITED
    ensures op !in INHERITED ==> SqlOp(op) == Comparison(op)
  {
    if op in INHERITED {
      assert |SqlOp(op)| > 2;
      assert forall c :: c in COMPARISONS ==> |c| <= 2;
    }
  }

  // ---- ILIKE ----

  // '%' matches any text, '_' any character, and a backslash takes the next character literally.
  predicate Like(db: Database, pattern: string, text: string)
    decreases |pattern| + |text|
  {
    if pattern == "" then text == ""
    else if pattern[0] == '%' then Like(db, pattern[1..], text) || (text != "" && Like(db, pattern, text[1..]))
    else if text == "" then false
    else if pattern[0] == '_' then Like(db, pattern[1..], text[1..])
    else if pattern[0] == '\\' then
      |pattern| > 1 && db.fold(pattern[1]) == db.fold(text[0]) && Like(db, pattern[2..], text[1..])
    else db.fold(pattern[0]) == db.fold(text[0]) && Like(db, pattern[1..], text[1..])
  }

  function CellOf(row: Row, column: string): Option<string> {
    GetOr(row.cells, column, None)
  }

  function ParamText(params: seq<Param>, k: nat): string {
    if 1 <= k <= |params| && params[k - 1].Str? then params[k - 1].text else ""
  }

  // Whether a conjunct is true; a comparison with NULL is not.
  predicate Holds(db: Database, c: Clause, params: seq<Param>, row: Row) {
    match c
    case OrgIs(k) => row.orgId == ParamText(params, k)
    case IsNull(column) => CellOf(row, column).None?
    case NotNull(column) => CellOf(row, column).Some?
    case ILike(column, k) => CellOf(row, column).Some? && Like(db, ParamText(params, k), CellOf(row, column).value)
    case Compare(column, op, k) => CellOf(row, column).Some? && db.compare(column, op, CellOf(row, column).value, ParamText(params, k))
  }

  predicate Selects(db: Database, clauses: seq<Clause>, params: seq<Param>, row: Row) {
    forall c :: c in clauses ==> Holds(db, c, params, row)
  }

  // The text is SQL.
  predicate Accepted(clauses: seq<Clause>) {
    forall c :: c in clauses && c.Compare? ==> c.sqlOp in COMPARISONS
  }

  // Whether the query returns a row; none when the database rejects the text.
  function Answer(db: Database, clauses: seq<Clause>, params: seq<Param>, row: Row): Option<bool> {
    if Accepted(clauses) then Some(Selects(db, clauses, params, row)) else None
  }

  // ---- What a filter asks for ----

  function PatternOf(f: Filter): Option<string> {
    match f.op
    case "contains" => Some("%" + f.value + "%")
    case "starts" => Some(f.value + "%")
    case "ends" => Some("%" + f.value)
    case _ => None
  }

  predicate Satisfies(db: Database, f: Filter, row: Row) {
    var cell := CellOf(row, f.column);
    if f.op == "null" then cell.None?
    else if f.op == "notnull" then cell.Some?
    else if PatternOf(f).Some? then cell.Some? && Like(db, PatternOf(f).value, cell.value)
    else cell.Some? && db.compare(f.column, Comparison(f.op), cell.value, f.value)
  }

  predicate Known(columns: set<string>, f: Filter) {
    f.column != "" && (f.column == "id" || f.column == "created_at" || f.column in columns)
  }

  predicate SatisfiesAll(db: Database, orgId: string, columns: set<string>, filters: seq<Filter>, row: Row) {
    row.orgId == orgId && forall f :: f in filters && Known(columns, f) ==> Satisfies(db, f, row)
  }

  // ---- Building ----

  function ParamOf(c: Clause): Option<nat> {
    match c
    case OrgIs(k) => Some(k)
    case ILike(_, k) => Some(k)
    case Compare(_, _, k) => Some(k)
    case _ => None
  }

  // The dollar numbers of the clauses, in order of appearance.
  function ParamNumbers(clauses: seq<Clause>): seq<nat> {
    if clauses == [] then []
    else ParamNumbers(Front(clauses)) + (if ParamOf(Last(clauses)).Some? then [ParamOf(Last(clauses)).value] else [])
  }

  function UpTo(n: nat): seq<nat> {
    seq(n, i requires 0 <= i => i + 1)
  }

  // No filter that is used names its operator after an inherited property.
  predicate Clean(columns: set<string>, filters: seq<Filter>) {
    forall f :: f in filters && Known(columns, f) ==> f.op !in INHERITED
  }

  // The query answers what the filters ask, under any later parameters.
  ghost predicate Faithful(orgId: string, columns: set<string>, filters: seq<Filter>, clauses: seq<Clause>, params: seq<Param>) {
    forall db: Database, more: seq<Param>, row: Row ::
      Answer(db, clauses, params + more, row) == Some(SatisfiesAll(db, orgId, columns, filters, row))
  }

  // The same of the clauses alone.
  ghost predicate SameRows(orgId: string, columns: set<string>, filters: seq<Filter>, clauses: seq<Clause>, params: seq<Param>) {
    forall db: Database, more: seq<Param>, row: Row ::
      Selects(db, clauses, params + more, row) <==> SatisfiesAll(db, orgId, columns, filters, row)
  }

  // Each parameter is named exactly once, in order.
  ghost predicate Numbered(clauses: seq<Clause>, params: seq<Param>) {
    ParamNumbers(clauses) == UpTo(|params|) && forall c :: c in clauses && ParamOf(c).Some? ==> 1 <= ParamOf(c).value <= |params|
  }

  lemma AddClause(orgId: string, columns: set<string>, filters: seq<Filter>, clauses: seq<Clause>, params: seq<Param>,
                  f: Filter, c: Clause, added: seq<Param>)
    requires SameRows(orgId, columns, filters, clauses, params) && Known(columns, f)
    requires forall db: Database, more: seq<Param>, row: Row :: Holds(db, c, params + added + more, row) <==> Satisfies(db, f, row)
    ensures SameRows(orgId, columns, filters + [f], clauses + [c], params + added)
  {
    forall db: Database, more: seq<Param>, row: Row
      ensures Selects(db, clauses + [c], params + added + more, row) <==> SatisfiesAll(db, orgId, columns, filters + [f], row)
    {
      assert params + added + more == params + (added + more);
      assert Selects(db, clauses, params + (added + more), row) <==> SatisfiesAll(db, orgId, columns, filters, row);
      assert Selects(db, clauses + [c], params + added + more, row) <==>
             Selects(db, clauses, params + added + more, row) && Holds(db, c, params + added + more, row);
      assert SatisfiesAll(db, orgId, columns, filters + [f], row) <==>
             SatisfiesAll(db, orgId, columns, filters, row) && Satisfies(db, f, row);
    }
  }

  lemma NumberClause(clauses: seq<Clause>, params: seq<Param>, c: Clause, added: seq<Param>)
    requires Numbered(clauses, params)
    requires (added == [] && ParamOf(c).None?) || (|added| == 1 && ParamOf(c) == Some(|params| + 1))
    ensures Numbered(clauses + [c], params + added)
  {
    assert Front(clauses + [c]) == clauses;
  }

  lemma CleanStep(columns: set<string>, filters: seq<Filter>, clauses: seq<Clause>, f: Filter, c: Clause)
    requires (Accepted(clauses) <==> Clean(columns, filters)) && Known(columns, f)
    requires (c.Compare? ==> c.sqlOp in COMPARISONS) <==> f.op !in INHERITED
    ensures Accepted(clauses + [c]) <==> Clean(columns, filters + [f])
    ensures Clean(columns, filters + [f]) <==> Clean(columns, filters) && f.op !in INHERITED
  {
    assert f in filters + [f] && c in clauses + [c];
    assert forall g :: g in filters + [f] <==> g in filters || g == f;
    assert forall d :: d in clauses + [c] <==> d in clauses || d == c;
  }

  lemma SkipFilter(orgId: string, columns: set<string>, filters: seq<Filter>, clauses: seq<Clause>, params: seq<Param>, f: Filter)
    requires !Known(columns, f)
    ensures Clean(columns, filters + [f]) <==> Clean(columns, filters)
    ensures SameRows(orgId, columns, filters, clauses, params) ==> SameRows(orgId, columns, filters + [f], clauses, params)
  {
    assert forall g :: g in filters + [f] <==> g in filters || g == f;
    forall db: Database, row: Row
      ensures SatisfiesAll(db, orgId, columns, filters + [f], row) == SatisfiesAll(db, orgId, columns, filters, row)
    {
    }
  }

  // `limit` and `offset` as parsed integers; none when they are not numbers.
  function SafeLimit(limit: Option<int>): (n: int)
    ensures 1 <= n <= 1000
  {
    var n := if limit.Some? && limit.value != 0 then limit.value else 50;
    var atLeast := if n < 1 then 1 else n;
    if atLeast > 1000 then 1000 else atLeast
  }

  function SafeOffset(offset: Option<int>): (n: int)
    ensures n >= 0
  {
    if offset.Some? && offset.value > 0 then offset.value else 0
  }

  // Everything said about a finished query.
  ghost predicate Built(q: Query, orgId: string, columns: set<string>, filters: seq<Filter>, limit: Option<int>, offset: Option<int>) {
    && |q.params| >= 2
    && Numbered(q.clauses, q.params[..|q.params| - 2])
    && (Accepted(q.clauses) <==> Clean(columns, filters))
    && (Clean(columns, filters) ==> SameRows(orgId, columns, filters, q.clauses, q.params[..|q.params| - 2]))
    && q.limitParam == |q.params| - 1 && q.offsetParam == |q.params|
    && q.params[q.limitParam - 1] == Num(SafeLimit(limit)) && q.params[q.offsetParam - 1] == Num(SafeOffset(offset))
  }

  method BuildQuery(orgId: string, columns: set<string>, filters: seq<Filter>, limit: Option<int>, offset: Option<int>)
    returns (q: Query)
    ensures Built(q, orgId, columns, filters, limit, offset)
  {
    var clauses := [OrgIs(1)];
    var params := [Str(orgId)];
    var pi := 2;
    StartClauses(orgId, columns);
    for i := 0 to |filters|
      invariant Numbered(clauses, params) && pi == |params| + 1
      invariant Accepted(clauses) <==> Clean(columns, filters[..i])
      invariant Clean(columns, filters[..i]) ==> SameRows(orgId, columns, filters[..i], clauses, params)
    {
      var f := filters[i];
      assert filters[..i + 1] == filters[..i] + [f];
      if !Known(columns, f) {
        SkipFilter(orgId, columns, filters[..i], clauses, params, f);
      } else {
        var clause, added := BuildClause(f, params);
        NumberClause(clauses, params, clause, added);
        CleanStep(columns, filters[..i], clauses, f, clause);
        if Clean(columns, filters[..i + 1]) {
          AddClause(orgId, columns, filters[..i], clauses, params, f, clause, added);
        }
        clauses, params := clauses + [clause], params + added;
        pi := pi + |added|;
      }
    }
    assert filters[..|filters|] == filters;
    q := Query(clauses, params + [Num(SafeLimit(limit)), Num(SafeOffset(offset))], pi, pi + 1);
    assert q.params[..|q.params| - 2] == params;
  }

  // The query means its filters exactly when no used operator is an inherited name.
  lemma QueryMeansFiltersIff(q: Query, orgId: string, columns: set<string>, filters: seq<Filter>, limit: Option<int>, offset: Option<int>)
    requires Built(q, orgId, columns, filters, limit, offset)
    ensures Faithful(orgId, columns, filters, q.clauses, q.params[..|q.params| - 2]) <==> Clean(columns, filters)
  {
    var params := q.params[..|q.params| - 2];
    if Clean(columns, filters) {
      assert SameRows(orgId, columns, filters, q.clauses, params);
    } else {
      var db := Database((c, o, a, b) => false, c => c);
      var more: seq<Param>, row := [], Row("", map[]);
      assert Answer(db, q.clauses, params + more, row) != Some(SatisfiesAll(db, orgId, columns, filters, row));
    }
  }

  // ?filter=id:constructor:x fails whatever the database holds.
  lemma ConstructorIsRejected(q: Query, orgId: string, columns: set<string>, value: string, db: Database, row: Row)
    requires Built(q, orgId, columns, [Filter("id", "constructor", value)], None, None)
    ensures Answer(db, q.clauses, q.params, row) == None
  {
    var f := Filter("id", "constructor", value);
    assert f in [f] && Known(columns, f) && f.op in INHERITED;
  }

  // The body of the loop for a filter on a known column.
  method BuildClause(f: Filter, params: seq<Param>) returns (clause: Clause, added: seq<Param>)
    ensures (added == [] && ParamOf(clause).None?) || (|added| == 1 && ParamOf(clause) == Some(|params| + 1))
    ensures (clause.Compare? ==> clause.sqlOp in COMPARISONS) <==> f.op !in INHERITED
    ensures f.op !in INHERITED ==> forall db: Database, more: seq<Param>, row: Row ::
              Holds(db, clause, params + added + more, row) <==> Satisfies(db, f, row)
  {
    var pi := |params| + 1;
    if f.op == "null" {
      return IsNull(f.column), [];
    }
    if f.op == "notnull" {
      return NotNull(f.column), [];
    }
    if f.op == "contains" {
      clause, added := ILike(f.column, pi), [Str("%" + f.value + "%")];
    } else if f.op == "starts" {
      clause, added := ILike(f.column, pi), [Str(f.value + "%")];
    } else if f.op == "ends" {
      clause, added := ILike(f.column, pi), [Str("%" + f.value)];
    } else {
      SqlOpIsComparison(f.op);
      clause, added := Compare(f.column, SqlOp(f.op), pi), [Str(f.value)];
    }
    forall more: seq<Param>
      ensures ParamText(params + added + more, pi) == added[0].text
    {
      assert (params + added + more)[pi - 1] == added[0];
    }
  }

  lemma StartClauses(orgId: string, columns: set<string>)
    ensures SameRows(orgId, columns, [], [OrgIs(1)], [Str(orgId)]) && Numbered([OrgIs(1)], [Str(orgId)])
  {
    forall db: Database, more: seq<Param>, row: Row
      ensures Selects(db, [OrgIs(1)], [Str(orgId)] + more, row) <==> SatisfiesAll(db, orgId, columns, [], row)
    {
      assert ParamText([Str(orgId)] + more, 1) == orgId;
      assert OrgIs(1) in [OrgIs(1)];
    }
    assert Front([OrgIs(1)]) == [];
  }

  // ---- What the patterns mean ----

  // v occurs in t at position i, up to case.
  predicate OccursAt(db: Database, v: string, t: string, i: nat) {
    i + |v| <= |t| && forall k :: 0 <= k < |v| ==> db.fold(v[k]) == db.fold(t[i + k])
  }

  ghost predicate Contains(db: Database, t: string, v: string) {
    exists i: nat :: OccursAt(db, v, t, i)
  }

  // None of the characters that ILIKE reads specially.
  predicate Plain(v: string) {
    forall c :: c in v ==> c != '%' && c != '_' && c != '\\'
  }

  lemma {:induction false} LikePercent(db: Database, t: string)
    ensures Like(db, "%", t)
  {
    if t == "" {
      assert "%"[1..] == "";
    } else {
      LikePercent(db, t[1..]);
    }
  }

  // A plain prefix must match literally; what follows it must match the rest.
  lemma {:induction false} LikePlainPrefix(db: Database, v: string, rest: string, t: string)
    requires Plain(v)
    ensures Like(db, v + rest, t) <==> OccursAt(db, v, t, 0) && Like(db, rest, t[|v|..])
    decreases |v|
  {
    if v == "" {
      assert v + rest == rest && t[0..] == t;
    } else {
      assert v[0] in v && (v + rest)[0] == v[0] && (v + rest)[1..] == v[1..] + rest;
      assert forall c :: c in v[1..] ==> c in v;
      if t != "" {
        LikePlainPrefix(db, v[1..], rest, t[1..]);
        if |v| <= |t| {
          assert t[1..][|v[1..]|..] == t[|v|..];
        }
        OccursAtStep(db, v, t);
      }
    }
  }

  lemma OccursAtStep(db: Database, v: string, t: string)
    requires v != "" && t != ""
    ensures OccursAt(db, v, t, 0) <==> db.fold(v[0]) == db.fold(t[0]) && OccursAt(db, v[1..], t[1..], 0)
  {
    if db.fold(v[0]) == db.fold(t[0]) && OccursAt(db, v[1..], t[1..], 0) {
      forall k | 0 <= k < |v|
        ensures db.fold(v[k]) == db.fold(t[0 + k])
      {
        if k > 0 {
          assert v[1..][k - 1] == v[k] && t[1..][0 + (k - 1)] == t[k];
        }
      }
    }
    if OccursAt(db, v, t, 0) {
      assert db.fold(v[0]) == db.fold(t[0 + 0]);
      forall k | 0 <= k < |v[1..]|
        ensures db.fold(v[1..][k]) == db.fold(t[1..][0 + k])
      {
        assert db.fold(v[k + 1]) == db.fold(t[0 + (k + 1)]);
      }
    }
  }

  // "%" + p matches exactly when p matches some suffix.
  lemma {:induction false} LikeLeadingPercent(db: Database, p: string, t: string)
    ensures Like(db, "%" + p, t) <==> exists i: nat :: i <= |t| && Like(db, p, t[i..])
    decreases |t|
  {
    assert ("%" + p)[1..] == p && t[0..] == t;
    if t != "" {
      LikeLeadingPercent(db, p, t[1..]);
      if i: nat :| i <= |t[1..]| && Like(db, p, t[1..][i..]) {
        assert t[1..][i..] == t[i + 1..];
      }
      if j: nat :| j <= |t| && Like(db, p, t[j..]) {
        if j > 0 {
          assert t[1..][j - 1..] == t[j..];
        }
      }
    }
  }

  lemma OccursShift(db: Database, v: string, t: string, i: nat)
    requires i <= |t|
    ensures OccursAt(db, v, t[i..], 0) <==> OccursAt(db, v, t, i)
  {
    if OccursAt(db, v, t, i) {
      forall k | 0 <= k < |v|
        ensures db.fold(v[k]) == db.fold(t[i..][0 + k])
      {
        assert t[i..][0 + k] == t[i + k];
      }
    }
    if OccursAt(db, v, t[i..], 0) {
      forall k | 0 <= k < |v|
        ensures db.fold(v[k]) == db.fold(t[i + k])
      {
        assert t[i..][0 + k] == t[i + k];
      }
    }
  }

  // `starts` and `ends` compare an end of the text; `contains` looks for the value anywhere.
  lemma PatternsMean(db: Database, v: string, t: string)
    requires Plain(v)
    ensures Like(db, v + "%", t) <==> OccursAt(db, v, t, 0)
    ensures Like(db, "%" + v, t) <==> |v| <= |t| && OccursAt(db, v, t, |t| - |v|)
    ensures Like(db, "%" + v + "%", t) <==> Contains(db, t, v)
  {
    StartsMeans(db, v, t);
    LikeLeadingPercent(db, v, t);
    EndsMeans(db, v, t);
    ContainsMeans(db, v, t);
  }

  lemma StartsMeans(db: Database, v: string, t: string)
    requires Plain(v)
    ensures Like(db, v + "%", t) <==> OccursAt(db, v, t, 0)
  {
    LikePlainPrefix(db, v, "%", t);
    if |v| <= |t| {
      LikePercent(db, t[|v|..]);
    }
  }

  lemma EndsMeans(db: Database, v: string, t: string)
    requires Plain(v)
    ensures Like(db, "%" + v, t) <==> |v| <= |t| && OccursAt(db, v, t, |t| - |v|)
  {
    LikeLeadingPercent(db, v, t);
    forall i: nat | i <= |t|
      ensures Like(db, v, t[i..]) <==> i + |v| == |t| && OccursAt(db, v, t, i)
    {
      assert v + "" == v;
      LikePlainPrefix(db, v, "", t[i..]);
      OccursShift(db, v, t, i);
    }
    if |v| <= |t| && OccursAt(db, v, t, |t| - |v|) {
      assert Like(db, v, t[|t| - |v|..]);
    }
  }

  lemma ContainsMeans(db: Database, v: string, t: string)
    requires Plain(v)
    ensures Like(db, "%" + v + "%", t) <==> Contains(db, t, v)
  {
    assert "%" + v + "%" == "%" + (v + "%");
    LikeLeadingPercent(db, v + "%", t);
    forall i: nat | i <= |t|
      ensures Like(db, v + "%", t[i..]) <==> OccursAt(db, v, t, i)
    {
      StartsMeans(db, v, t[i..]);
      OccursShift(db, v, t, i);
    }
  }

  // The value is not escaped, so each pattern is the test its name promises exactly when the
  // value is plain: otherwise an instance of the pattern that drops each '%' and each escaping
  // backslash and puts another character for each '_' matches without containing the value.
  function Instance(v: string, filler: char): string {
    if v == "" then ""
    else if v[0] == '%' then Instance(v[1..], filler)
    else if v[0] == '\\' then (if |v| == 1 then "%" else [v[1]] + Instance(v[2..], filler))
    else [if v[0] == '_' then filler else v[0]] + Instance(v[1..], filler)
  }

  // The value ends in a backslash that escapes nothing.
  predicate Dangling(v: string) {
    v != "" && (if v[0] == '\\' then |v| == 1 || Dangling(v[2..]) else Dangling(v[1..]))
  }

  lemma {:induction false} InstanceMatches(db: Database, v: string, filler: char)
    ensures Like(db, v + "%", Instance(v, filler))
    ensures !Dangling(v) ==> Like(db, v, Instance(v, filler))
    decreases |v|
  {
    if v == "" {
      LikePercent(db, "");
    } else {
      var n := if v[0] == '\\' && |v| > 1 then 2 else 1;
      assert (v + "%")[..n] == v[..n] && (v + "%")[n..] == v[n..] + "%";
      InstanceMatches(db, v[n..], filler);
      if v[0] != '%' && v != "\\" {
        assert Instance(v, filler)[1..] == Instance(v[n..], filler);
      }
    }
  }

  lemma {:induction false} DanglingNeverMatches(db: Database, v: string, t: string)
    requires Dangling(v)
    ensures !Like(db, v, t)
    decreases |v| + |t|
  {
    if v[0] == '%' {
      DanglingNeverMatches(db, v[1..], t);
    }
    if t != "" {
      if v[0] == '%' {
        DanglingNeverMatches(db, v, t[1..]);
      } else if v[0] != '\\' {
        DanglingNeverMatches(db, v[1..], t[1..]);
      } else if |v| > 1 {
        DanglingNeverMatches(db, v[2..], t[1..]);
      }
    }
  }

  // The instance is shorter than the value, or differs from it at a special character.
  lemma {:induction false} InstanceShape(v: string, filler: char)
    ensures |Instance(v, filler)| <= |v|
    ensures !Plain(v) && |Instance(v, filler)| == |v| ==>
              exists k :: 0 <= k < |v| && (v[k], Instance(v, filler)[k]) in {('_', filler), ('\\', '%')}
    decreases |v|
  {
    if v != "" {
      var n := if v[0] == '\\' && |v| > 1 then 2 else 1;
      InstanceShape(v[n..], filler);
      assert v == v[..n] + v[n..];
      var t := Instance(v, filler);
      if !Plain(v) && |t| == |v| {
        if v[0] == '_' || v[0] == '\\' {
          assert (v[0], t[0]) in {('_', filler), ('\\', '%')};
        } else {
          assert !Plain(v[1..]);
          var k :| 0 <= k < |v[1..]| && (v[1..][k], Instance(v[1..], filler)[k]) in {('_', filler), ('\\', '%')};
          assert (v[k + 1], t[k + 1]) in {('_', filler), ('\\', '%')};
        }
      }
    }
  }

  // What the lemmas below ask of case folding: it separates '%' from the backslash and `filler` from '_'.
  predicate Separates(db: Database, filler: char) {
    db.fold(filler) != db.fold('_') && db.fold('%') != db.fold('\\')
  }

  lemma InstanceLacksValue(db: Database, v: string, filler: char, i: nat)
    requires Separates(db, filler) && !Plain(v)
    ensures !OccursAt(db, v, Instance(v, filler), i)
  {
    var t := Instance(v, filler);
    InstanceShape(v, filler);
    if |t| == |v| {
      var k :| 0 <= k < |v| && (v[k], t[k]) in {('_', filler), ('\\', '%')};
      assert db.fold(v[k]) != db.fold(t[0 + k]);
    }
  }

  lemma PrefixTestIff(db: Database, v: string, filler: char)
    requires Separates(db, filler)
    ensures Plain(v) <==> forall t :: Like(db, v + "%", t) <==> OccursAt(db, v, t, 0)
  {
    if Plain(v) {
      forall t
        ensures Like(db, v + "%", t) <==> OccursAt(db, v, t, 0)
      {
        StartsMeans(db, v, t);
      }
    } else {
      InstanceMatches(db, v, filler);
      InstanceLacksValue(db, v, filler, 0);
    }
  }

  lemma SuffixTestIff(db: Database, v: string, filler: char)
    requires Separates(db, filler)
    ensures Plain(v) <==> forall t :: Like(db, "%" + v, t) <==> |v| <= |t| && OccursAt(db, v, t, |t| - |v|)
  {
    if Plain(v) {
      forall t
        ensures Like(db, "%" + v, t) <==> |v| <= |t| && OccursAt(db, v, t, |t| - |v|)
      {
        EndsMeans(db, v, t);
      }
    } else if Dangling(v) {
      LikeLeadingPercent(db, v, v);
      forall i: nat | i <= |v|
        ensures !Like(db, v, v[i..])
      {
        DanglingNeverMatches(db, v, v[i..]);
      }
      assert !Like(db, "%" + v, v) && OccursAt(db, v, v, |v| - |v|);
    } else {
      var t := Instance(v, filler);
      InstanceMatches(db, v, filler);
      LikeLeadingPercent(db, v, t);
      assert t[0..] == t && Like(db, "%" + v, t);
      if |v| <= |t| {
        InstanceLacksValue(db, v, filler, |t| - |v|);
      }
    }
  }

  lemma ContainsTestIff(db: Database, v: string, filler: char)
    requires Separates(db, filler)
    ensures Plain(v) <==> forall t :: Like(db, "%" + v + "%", t) <==> Contains(db, t, v)
  {
    if Plain(v) {
      forall t
        ensures Like(db, "%" + v + "%", t) <==> Contains(db, t, v)
      {
        ContainsMeans(db, v, t);
      }
    } else {
      var t := Instance(v, filler);
      InstanceMatches(db, v, filler);
      assert "%" + v + "%" == "%" + (v + "%");
      LikeLeadingPercent(db, v + "%", t);
      assert t[0..] == t && Like(db, "%" + v + "%", t);
      forall i: nat
        ensures !OccursAt(db, v, t, i)
      {
        InstanceLacksValue(db, v, filler, i);
      }
    }
  }
}
