// The `column:op:value` text of a filter: written by frontend/app/(org)/-/databases/[id]/page.js
// and parsed by frontend/app/api/tables/[id]/data/route.js.
module FilterText {
  import opened Prelude
  import opened Strings
  import opened TableQuery

  function Print(f: Filter): string {
    f.column + ":" + f.op + ":" + f.value
  }

  function Parse(s: string): Filter {
    var parts := Split(s, ':');
    var op := if |parts| > 1 && parts[1] != "" then parts[1] else "eq";
    Filter(parts[0], op, Join(if |parts| > 2 then parts[2..] else [], ':'))
  }

  // Filters without a column are dropped.
  function ParseAll(texts: seq<string>): seq<Filter> {
    if texts == [] then []
    else ParseAll(Front(texts)) + (if Parse(Last(texts)).column != "" then [Parse(Last(texts))] else [])
  }

  function PrintAll(filters: seq<Filter>): seq<string> {
    if filters == [] then []
    else
      var f := Last(filters);
      PrintAll(Front(filters)) + (if f.column != "" && f.op != "" then [Print(f)] else [])
  }

  function Sent(filters: seq<Filter>): seq<Filter> {
    if filters == [] then []
    else Sent(Front(filters)) + (if Last(filters).column != "" && Last(filters).op != "" then [Last(filters)] else [])
  }

  lemma ParsePrint(f: Filter)
    requires ':' !in f.column && ':' !in f.op && f.op != ""
    ensures Parse(Print(f)) == f
  {
    assert Print(f) == f.column + [':'] + (f.op + [':'] + f.value);
    SplitFirst(f.column, ':', f.op + [':'] + f.value);
    SplitFirst(f.op, ':', f.value);
    SplitPieces(f.value, ':');
    var parts := Split(Print(f), ':');
    assert parts == [f.column] + ([f.op] + Split(f.value, ':'));
    assert parts[2..] == Split(f.value, ':');
  }

  // What a text means: a column, an operator, equality when it is missing or empty, and the rest.
  lemma ParseMeans(column: string, op: string, value: string)
    requires ':' !in column && ':' !in op && op != ""
    ensures Parse(column + ":" + op + ":" + value) == Filter(column, op, value)
    ensures Parse(column + ":" + op) == Filter(column, op, "")
    ensures Parse(column) == Filter(column, "eq", "") && Parse(column + ":" + ":" + value) == Filter(column, "eq", value)
  {
    ParsePrint(Filter(column, op, value));
    SplitOne(column, ':');
    SplitOne(op, ':');
    SplitFirst(column, ':', op);
    SplitFirst("", ':', value);
    SplitFirst(column, ':', ":" + value);
    SplitPieces(value, ':');
    assert column + ":" + ":" + value == column + [':'] + (":" + value) && "" + [':'] + value == ":" + value;
    assert ([column] + ([""] + Split(value, ':')))[2..] == Split(value, ':');
  }

  // The page sends the filters with a column and an operator; the route keeps those with a column.
  lemma {:induction false} SentExact(filters: seq<Filter>, f: Filter)
    ensures f in Sent(filters) <==> f in filters && f.column != "" && f.op != ""
  {
    if filters != [] {
      SentExact(Front(filters), f);
      FrontAndLast(filters);
    }
  }

  lemma {:induction false} ParseAllExact(texts: seq<string>, f: Filter)
    ensures f in ParseAll(texts) <==> f.column != "" && exists t :: t in texts && Parse(t) == f
  {
    if texts != [] {
      ParseAllExact(Front(texts), f);
      FrontAndLast(texts);
    }
  }

  // A filter with a column and an operator survives the trip, colons in its value included,
  // exactly when column and operator contain none.
  lemma RoundTripIff(f: Filter)
    requires f.column != "" && f.op != ""
    ensures Parse(Print(f)) == f <==> ':' !in f.column && ':' !in f.op
  {
    SplitPieces(Print(f), ':');
    if ':' !in f.column && ':' !in f.op {
      ParsePrint(f);
    }
  }

  // A list survives, except the filters the page does not send, exactly when all sent ones do:
  // a filter that comes back without a column is dropped, and nothing makes up for it.
  lemma {:induction false} RoundTripAllIff(filters: seq<Filter>)
    ensures |ParseAll(PrintAll(filters))| <= |Sent(filters)|
    ensures ParseAll(PrintAll(filters)) == Sent(filters) <==>
              forall f :: f in Sent(filters) ==> ':' !in f.column && ':' !in f.op
  {
    if filters != [] {
      var before, f := Front(filters), Last(filters);
      RoundTripAllIff(before);
      if f.column != "" && f.op != "" {
        assert Front(PrintAll(filters)) == PrintAll(before);
        RoundTripIff(f);
        var all, some := Sent(before), ParseAll(PrintAll(before));
        var back := Parse(Print(f));
        assert ParseAll(PrintAll(filters)) == some + if back.column != "" then [back] else [];
        assert Sent(filters) == all + [f];
        SameWithLast(some, all, back, f);
      } else {
        assert PrintAll(filters) == PrintAll(before);
      }
    }
  }

  lemma SameWithLast(a: seq<Filter>, b: seq<Filter>, x: Filter, y: Filter)
    requires |a| <= |b|
    ensures a + [x] == b + [y] <==> a == b && x == y
    ensures a != b + [y]
  {
    if a + [x] == b + [y] {
      assert |a + [x]| == |b + [y]| && (a + [x])[|a|] == x && (b + [y])[|b|] == y;
      assert (a + [x])[..|a|] == a && (b + [y])[..|b|] == b;
    }
    assert |b + [y]| == |b| + 1;
  }
}
