// What a built query selects, operator by operator, over any database that compares values in
// the usual way.
module FilterMeaning {
  import opened Prelude
  import opened TableQuery

  // Whether the first text denotes a smaller value of the column than the second.
  type Below = (string, string, string) -> bool

  ghost predicate SameValue(below: Below, column: string, a: string, b: string) {
    !below(column, a, b) && !below(column, b, a)
  }

  // The database reads the six comparison operators as the order has it.
  ghost predicate Interprets(db: Database, below: Below) {
    forall c: string, a: string, b: string ::
      && (db.compare(c, "=", a, b) <==> SameValue(below, c, a, b))
      && (db.compare(c, "!=", a, b) <==> !SameValue(below, c, a, b))
      && (db.compare(c, "<", a, b) <==> below(c, a, b))
      && (db.compare(c, ">", a, b) <==> below(c, b, a))
      && (db.compare(c, "<=", a, b) <==> !below(c, b, a))
      && (db.compare(c, ">=", a, b) <==> !below(c, a, b))
  }

  // What each operator asks of a cell; NULL satisfies nothing but `null`.
  ghost predicate Passes(db: Database, below: Below, f: Filter, cell: Option<string>) {
    if f.op == "null" then cell.None?
    else
      cell.Some? &&
      match f.op
      case "notnull" => true
      case "neq" => !SameValue(below, f.column, cell.value, f.value)
      case "gt" => below(f.column, f.value, cell.value)
      case "lt" => below(f.column, cell.value, f.value)
      case "gte" => !below(f.column, cell.value, f.value)
      case "lte" => !below(f.column, f.value, cell.value)
      case "contains" => Like(db, "%" + f.value + "%", cell.value)
      case "starts" => Like(db, f.value + "%", cell.value)
      case "ends" => Like(db, "%" + f.value, cell.value)
      case _ => SameValue(below, f.column, cell.value, f.value)
  }

  // The filters that are used: on the table's columns and on id and created_at.
  predicate Used(columns: set<string>, f: Filter) {
    f.column != "" && f.column in columns + {"id", "created_at"}
  }

  lemma PassesExact(db: Database, below: Below, f: Filter, row: Row)
    requires Interprets(db, below)
    ensures Satisfies(db, f, row) <==> Passes(db, below, f, CellOf(row, f.column))
  {
    var cell := CellOf(row, f.column);
    if cell.Some? {
      var c, a, b := f.column, cell.value, f.value;
      assert db.compare(c, "=", a, b) <==> SameValue(below, c, a, b);
    }
  }

  // The built query is rejected when a used filter has an inherited name for its operator, and
  // otherwise selects the rows of the organisation that pass every used filter.
  lemma BuiltSelects(q: Query, orgId: string, columns: set<string>, filters: seq<Filter>, limit: Option<int>, offset: Option<int>,
                     db: Database, below: Below, row: Row)
    requires Built(q, orgId, columns, filters, limit, offset) && Interprets(db, below)
    ensures Answer(db, q.clauses, q.params, row) ==
            if exists f :: f in filters && Used(columns, f) && f.op in INHERITED then None
            else Some(row.orgId == orgId && forall f :: f in filters && Used(columns, f) ==> Passes(db, below, f, GetOr(row.cells, f.column, None)))
  {
    UsedIsKnown(columns);
    if Clean(columns, filters) {
      var more := q.params[|q.params| - 2..];
      RowsSelected(orgId, columns, filters, q.clauses, q.params[..|q.params| - 2], more, db, below, row);
      assert q.params == q.params[..|q.params| - 2] + more;
    }
  }

  lemma UsedIsKnown(columns: set<string>)
    ensures forall f :: Used(columns, f) <==> Known(columns, f)
  {
  }

  lemma RowsSelected(orgId: string, columns: set<string>, filters: seq<Filter>, clauses: seq<Clause>, params: seq<Param>,
                     more: seq<Param>, db: Database, below: Below, row: Row)
    requires SameRows(orgId, columns, filters, clauses, params) && Interprets(db, below)
    ensures Selects(db, clauses, params + more, row) <==>
            row.orgId == orgId && forall f :: f in filters && Used(columns, f) ==> Passes(db, below, f, GetOr(row.cells, f.column, None))
  {
    assert Selects(db, clauses, params + more, row) <==> SatisfiesAll(db, orgId, columns, filters, row);
    forall f
      ensures Satisfies(db, f, row) <==> Passes(db, below, f, GetOr(row.cells, f.column, None))
    {
      PassesExact(db, below, f, row);
    }
    UsedIsKnown(columns);
  }

  // The page: fifty rows unless a number other than zero is asked for, at least one and at most a
  // thousand, from the offset asked for or the start.
  lemma PageBounds(q: Query, orgId: string, columns: set<string>, filters: seq<Filter>, limit: Option<int>, offset: Option<int>)
    requires Built(q, orgId, columns, filters, limit, offset)
    ensures var asked := q.params[q.limitParam - 1];
      && (limit == None || limit == Some(0) ==> asked == Num(50))
      && (limit.Some? && limit.value < 0 ==> asked == Num(1))
      && (limit.Some? && 1 <= limit.value <= 1000 ==> asked == Num(limit.value))
      && (limit.Some? && limit.value > 1000 ==> asked == Num(1000))
    ensures q.params[q.offsetParam - 1] == Num(if offset.Some? && offset.value > 0 then offset.value else 0)
  {
  }

  // ?filter=age:gt:18 selects the organisation's rows with an age above 18.
  lemma AboveEighteen(q: Query, db: Database, below: Below, row: Row)
    requires Built(q, "o", {"age"}, [Filter("age", "gt", "18")], None, None) && Interprets(db, below)
    requires "age" in row.cells && row.cells["age"].Some?
    ensures Answer(db, q.clauses, q.params, row) == Some(row.orgId == "o" && below("age", "18", row.cells["age"].value))
  {
    var f := Filter("age", "gt", "18");
    assert f in [f] && Used({"age"}, f);
    BuiltSelects(q, "o", {"age"}, [f], None, None, db, below, row);
  }
}
