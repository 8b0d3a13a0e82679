// Cron expressions written down from what they mean: both matchers read the printed text back
// as the terms it was printed from.
module CronText {
  import opened Prelude
  import opened Strings
  import opened CronFields
  import Cron

  datatype Term =
    | Every(step: nat)              // */step
    | From(start: nat, step: nat)   // start/step
    | Between(lo: nat, hi: nat)     // lo-hi
    | Exactly(n: nat)

  datatype Field = Any | Terms(terms: seq<Term>)

  function PrintTerm(t: Term): string {
    match t
    case Every(step) => "*" + "/" + Decimal(step)
    case From(start, step) => Decimal(start) + "/" + Decimal(step)
    case Between(lo, hi) => Decimal(lo) + "-" + Decimal(hi)
    case Exactly(n) => Decimal(n)
  }

  function PrintTerms(terms: seq<Term>): (parts: seq<string>)
    ensures |parts| == |terms| && forall i :: 0 <= i < |parts| ==> parts[i] == PrintTerm(terms[i])
  {
    seq(|terms|, i requires 0 <= i < |terms| => PrintTerm(terms[i]))
  }

  function PrintField(f: Field): string {
    match f
    case Any => "*"
    case Terms(terms) => Join(PrintTerms(terms), ',')
  }

  // The values of a term.
  predicate Has(t: Term, v: nat) {
    match t
    case Every(step) => step > 0 && v % step == 0
    case From(start, step) => step > 0 && v >= start && (v - start) % step == 0
    case Between(lo, hi) => lo <= v <= hi
    case Exactly(n) => v == n
  }

  // A step of zero, a division by zero.
  predicate ZeroStep(t: Term) {
    (t.Every? || t.From?) && t.step == 0
  }

  predicate FieldHas(f: Field, v: nat) {
    f.Any? || exists t :: t in f.terms && Has(t, v)
  }

  predicate Printable(f: Field) {
    f.Terms? ==> f.terms != [] && forall t :: t in f.terms ==> !ZeroStep(t)
  }

  // ---- Numbers ----

  lemma {:induction false} DecimalDigits(n: nat)
    ensures Decimal(n) != "" && Digits(Decimal(n)) == n
    ensures forall c :: c in Decimal(n) ==> '0' <= c <= '9'
  {
    if n < 10 {
      assert Front(Decimal(n)) == "";
    } else {
      DecimalDigits(n / 10);
      assert Front(Decimal(n)) == Decimal(n / 10) && Last(Decimal(n)) == Digit(n % 10);
    }
  }

  lemma DecimalReads(n: nat)
    ensures PyInt(Decimal(n)) == LeadingInt(Decimal(n)) == Some(n)
    ensures forall c :: c in Decimal(n) ==> '0' <= c <= '9'
  {
    var s := Decimal(n);
    DecimalDigits(n);
    assert s[0] in s;
    PlainInt(s);
    assert '_' !in s;
    IntsAgree(s);
  }

  lemma {:induction false} CutText(head: string, c: char, rest: string)
    requires c !in head
    ensures c in head + [c] + rest && CutAt(head + [c] + rest, c) == (head, rest)
  {
    var s := head + [c] + rest;
    assert s[|head|] == c;
    if head == "" {
      assert s[1..] == rest;
    } else {
      assert s[1..] == head[1..] + [c] + rest;
      CutText(head[1..], c, rest);
      assert [head[0]] + head[1..] == head;
    }
  }

  // A sign in front of digits is read on both sides.
  lemma SignReads(sign: string, d: string)
    requires (sign == "+" || sign == "-") && d != "" && AllDigits(d)
    ensures PyInt(sign + d) == LeadingInt(sign + d) == Some((if sign == "-" then -1 else 1) * Digits(d))
  {
    var s := sign + d;
    assert s[0] == sign[0] && s[1..] == d && Unsigned(s) == d;
    PlainInt(s);
    assert '_' !in s;
    IntsAgree(s);
  }

  lemma {:induction false} PrefixStops(d: string, rest: string)
    requires (forall c :: c in d ==> '0' <= c <= '9') && (rest == "" || !('0' <= rest[0] <= '9'))
    ensures DigitPrefix(d + rest) == d
  {
    if d == "" {
      assert d + rest == rest;
    } else {
      assert d[0] in d && (d + rest)[1..] == d[1..] + rest && [d[0]] + d[1..] == d;
      assert forall c :: c in d[1..] ==> c in d;
      PrefixStops(d[1..], rest);
    }
  }

  // Text after a number is ignored by the page, where int() raises.
  lemma TrailingText(d: string, rest: string)
    requires d != "" && AllDigits(d)
    requires rest != "" && !('0' <= rest[0] <= '9') && rest[0] != '_' && rest[0] != 'x' && rest[0] != 'X'
    ensures LeadingInt(d + rest) == Some(Digits(d)) && PyInt(d + rest) == None
  {
    var s := d + rest;
    assert s[0] == d[0] && d[0] in d && Unsigned(s) == s;
    PrefixStops(d, rest);
    assert s[|d|] == rest[0];
    assert s[1] == (if |d| > 1 then d[1] else rest[0]) && (|d| > 1 ==> d[1] in d);
    if Grouped(s) {
      GroupedChars(s);
      assert false;
    }
  }

  // Texts that neither side reads as a number.
  lemma NoNumber()
    ensures PyInt("") == LeadingInt("") == None && PyInt("-") == LeadingInt("-") == None && PyInt("0x") == LeadingInt("0x") == None
    ensures PyInt("_1") == LeadingInt("_1") == None && PyInt("1__0") == None && PyInt("1_") == None
  {
    assert Unsigned("-") == "" && Unsigned("0x") == "0x" && "0x"[2..] == "" && "0x"[1..] == "x";
    assert "1__0"[2..] == "_0" && "1_"[2..] == "";
  }

  // ---- Terms ----

  // A part with a slash, given what it cuts into.
  lemma StepCase(part: string, base: string, text: string, from: int, step: int, v: nat)
    requires '/' in part && CutAt(part, '/') == (base, text) && PyInt(text) == Some(step)
    requires if base == "*" then from == 0 else PyInt(base) == Some(from)
    ensures PyPart(part, v) == if step == 0 then Err(()) else Ok((v - from) % step == 0 && v >= from)
  {
  }

  lemma StepMeans(base: string, start: Option<nat>, step: nat, v: nat)
    requires base == if start.Some? then Decimal(start.value) else "*"
    ensures var from := if start.Some? then start.value else 0;
      PyPart(base + "/" + Decimal(step), v) == if step == 0 then Err(()) else Ok(v >= from && (v - from) % step == 0)
  {
    DecimalReads(step);
    if start.Some? {
      DecimalReads(start.value);
      assert base == "*" ==> '*' in base;
    }
    StepText(base, Decimal(step));
    StepCase(base + "/" + Decimal(step), base, Decimal(step), if start.Some? then start.value else 0, step, v);
  }

  lemma RangeMeans(lo: nat, hi: nat, v: nat)
    ensures PyPart(Decimal(lo) + "-" + Decimal(hi), v) == Ok(lo <= v <= hi)
  {
    DecimalReads(lo);
    DecimalReads(hi);
    CutText(Decimal(lo), '-', Decimal(hi));
    var s := Decimal(lo) + ['-'] + Decimal(hi);
    assert '/' !in s && s == Decimal(lo) + "-" + Decimal(hi);
  }

  // The backend: a zero step raises, otherwise the term's values match.
  lemma PartMeans(t: Term, v: nat)
    ensures PyPart(PrintTerm(t), v) == if ZeroStep(t) then Err(()) else Ok(Has(t, v))
  {
    match t
    case Every(step) => StepMeans("*", None, step, v);
    case From(start, step) => StepMeans(Decimal(start), Some(start), step, v);
    case Between(lo, hi) => RangeMeans(lo, hi, v);
    case Exactly(n) =>
      DecimalReads(n);
      assert '/' !in PrintTerm(t) && '-' !in PrintTerm(t);
  }

  lemma StepIsLegible(base: string, start: Option<nat>, step: nat)
    requires base == if start.Some? then Decimal(start.value) else "*"
    ensures LegiblePart(base + "/" + Decimal(step)) && !ZeroRange(base + "/" + Decimal(step))
    ensures ',' !in base + "/" + Decimal(step) && base + "/" + Decimal(step) != "*"
  {
    DecimalReads(step);
    if start.Some? {
      DecimalReads(start.value);
    }
    LegibleStep(base, Decimal(step));
  }

  lemma LegibleStep(base: string, step: string)
    requires base == "*" || (LeadingInt(base).Some? && LeadingInt(base).value >= 0)
    requires forall c :: c in base + step ==> c == '*' || '0' <= c <= '9'
    ensures LegiblePart(base + "/" + step) && !ZeroRange(base + "/" + step)
    ensures ',' !in base + "/" + step && base + "/" + step != "*"
  {
    forall c | c in base || c in step
      ensures c in base + step
    {
    }
    StepText(base, step);
    assert '/' in base + "/" + step && '/' !in "*";
  }

  lemma RangeIsLegible(lo: nat, hi: nat)
    ensures LegiblePart(Decimal(lo) + "-" + Decimal(hi)) && !ZeroRange(Decimal(lo) + "-" + Decimal(hi))
    ensures ',' !in Decimal(lo) + "-" + Decimal(hi) && Decimal(lo) + "-" + Decimal(hi) != "*"
  {
    DecimalReads(lo);
    DecimalReads(hi);
    CutText(Decimal(lo), '-', Decimal(hi));
    var s := Decimal(lo) + ['-'] + Decimal(hi);
    assert '/' !in s && '-' in s && '-' !in "*";
    DecimalDigits(hi);
    assert Decimal(hi)[0] in Decimal(hi);
  }

  lemma PrintedIsLegible(t: Term)
    ensures LegiblePart(PrintTerm(t)) && !ZeroRange(PrintTerm(t)) && ',' !in PrintTerm(t) && PrintTerm(t) != "*"
  {
    match t
    case Every(step) => StepIsLegible("*", None, step);
    case From(start, step) => StepIsLegible(Decimal(start), Some(start), step);
    case Between(lo, hi) => RangeIsLegible(lo, hi);
    case Exactly(n) =>
      DecimalReads(n);
      assert PrintTerm(t) == "*" ==> '*' in PrintTerm(t);
  }

  // The page reads it alike; a zero step matches nothing there.
  lemma PagePartMeans(round: Rounding, t: Term, v: nat)
    requires Rounds(round) && v <= 59
    ensures JsPart(round, PrintTerm(t), v) <==> Has(t, v)
  {
    PartMeans(t, v);
    PrintedIsLegible(t);
    if ZeroStep(t) {
      var base := if t.Every? then "*" else Decimal(t.start);
      DecimalReads(0);
      if t.From? {
        DecimalReads(t.start);
      }
      StepText(base, Decimal(0));
    } else {
      PartsAgreeIff(round, PrintTerm(t), v);
    }
  }

  // ---- Fields ----

  // The first term that matches or raises decides.
  ghost predicate Decides(terms: seq<Term>, i: nat, v: nat)
    requires i < |terms|
  {
    (ZeroStep(terms[i]) || Has(terms[i], v)) && forall j :: 0 <= j < i ==> !ZeroStep(terms[j]) && !Has(terms[j], v)
  }

  ghost predicate Decided(terms: seq<Term>, i: nat, v: nat)
    requires i < |terms|
  {
    Decides(terms, i, v) && PyParts(PrintTerms(terms), v) == if ZeroStep(terms[i]) then Err(()) else Ok(true)
  }

  lemma {:induction false} PartsMean(terms: seq<Term>, v: nat)
    ensures PyParts(PrintTerms(terms), v) == Ok(false) ==> forall t :: t in terms ==> !ZeroStep(t) && !Has(t, v)
    ensures PyParts(PrintTerms(terms), v) != Ok(false) ==> exists i :: 0 <= i < |terms| && Decided(terms, i, v)
  {
    if terms != [] {
      PartMeans(terms[0], v);
      PartsMean(terms[1..], v);
      assert PrintTerms(terms)[1..] == PrintTerms(terms[1..]);
      if ZeroStep(terms[0]) || Has(terms[0], v) {
        assert Decided(terms, 0, v);
      } else if PyParts(PrintTerms(terms[1..]), v) != Ok(false) {
        var i :| 0 <= i < |terms[1..]| && Decided(terms[1..], i, v);
        DecidesLater(terms, i, v);
        assert Decided(terms, i + 1, v);
      }
    }
  }

  lemma DecidesLater(terms: seq<Term>, i: nat, v: nat)
    requires terms != [] && i < |terms[1..]| && Decides(terms[1..], i, v) && !ZeroStep(terms[0]) && !Has(terms[0], v)
    ensures Decides(terms, i + 1, v) && terms[1..][i] == terms[i + 1]
  {
    forall j | 0 <= j < i + 1
      ensures !ZeroStep(terms[j]) && !Has(terms[j], v)
    {
      if j > 0 {
        assert terms[1..][j - 1] == terms[j];
      }
    }
  }

  lemma {:induction false} PagePartsMean(round: Rounding, terms: seq<Term>, v: nat)
    requires Rounds(round) && v <= 59
    ensures JsParts(round, PrintTerms(terms), v) <==> exists t :: t in terms && Has(t, v)
  {
    if terms != [] {
      PagePartMeans(round, terms[0], v);
      PagePartsMean(round, terms[1..], v);
      assert PrintTerms(terms)[1..] == PrintTerms(terms[1..]);
    }
  }

  lemma FieldSplits(terms: seq<Term>)
    requires terms != []
    ensures PrintField(Terms(terms)) != "*" && Split(PrintField(Terms(terms)), ',') == PrintTerms(terms)
  {
    var parts := PrintTerms(terms);
    forall i | 0 <= i < |parts|
      ensures ',' !in parts[i] && parts[i] != "*"
    {
      PrintedIsLegible(terms[i]);
    }
    SplitJoin(parts, ',');
    if PrintField(Terms(terms)) == "*" {
      SplitOne("*", ',');
    }
  }

  // A printed field without zero steps matches just its values, on the backend and on the page.
  lemma FieldMeans(round: Rounding, f: Field, v: nat)
    requires Rounds(round) && v <= 59 && Printable(f)
    ensures PyField(PrintField(f), v) == Ok(FieldHas(f, v))
    ensures JsField(round, PrintField(f), v) <==> FieldHas(f, v)
  {
    if f.Terms? {
      FieldSplits(f.terms);
      PartsMean(f.terms, v);
      PagePartsMean(round, f.terms, v);
      if PyParts(PrintTerms(f.terms), v) != Ok(false) {
        var i :| 0 <= i < |f.terms| && Decided(f.terms, i, v);
        assert f.terms[i] in f.terms;
      }
    }
  }

  // With a zero step the backend raises exactly when no earlier term matches.
  lemma ZeroStepRaises(terms: seq<Term>, v: nat)
    requires terms != []
    ensures PyField(PrintField(Terms(terms)), v).Err? <==> exists i :: 0 <= i < |terms| && ZeroStep(terms[i]) && Decides(terms, i, v)
  {
    FieldSplits(terms);
    PartsMean(terms, v);
    forall i, k | 0 <= i < |terms| && 0 <= k < |terms| && Decides(terms, i, v) && Decides(terms, k, v)
      ensures i == k
    {
    }
  }

  // ---- Expressions ----

  function PrintFields(minute: Field, hour: Field, day: Field, month: Field, weekday: Field): seq<string> {
    [PrintField(minute), PrintField(hour), PrintField(day), PrintField(month), PrintField(weekday)]
  }

  // The backend matches a printed expression at minute m of hour h of a day exactly when all five
  // fields have their component; weekdays count from Monday, and day 0 is a Thursday.
  lemma ExpressionMeans(cal: Cron.Calendar, minute: Field, hour: Field, day: Field, month: Field, weekday: Field, d: int, h: nat, m: nat)
    requires h < 24 && m < 60
    requires Printable(minute) && Printable(hour) && Printable(day) && Printable(month) && Printable(weekday)
    ensures Cron.CronMatches(cal, PrintFields(minute, hour, day, month, weekday), d * 1440 + h * 60 + m) ==
            Ok(FieldHas(minute, m) && FieldHas(hour, h) && FieldHas(day, cal.day(d)) && FieldHas(month, cal.month(d))
               && FieldHas(weekday, (d + 3) % 7))
  {
    Components(d, h, m);
    var round := (x: int) => x;
    FieldMeans(round, minute, m);
    FieldMeans(round, hour, h);
    FieldMeans(round, day, cal.day(d));
    FieldMeans(round, month, cal.month(d));
    FieldMeans(round, weekday, (d + 3) % 7);
  }

  // The page does, with weekdays counted from Sunday.
  lemma PageExpressionMeans(round: Rounding, cal: Cron.Calendar, minute: Field, hour: Field, day: Field, month: Field, weekday: Field,
                            d: int, h: nat, m: nat)
    requires Rounds(round) && h < 24 && m < 60
    requires Printable(minute) && Printable(hour) && Printable(day) && Printable(month) && Printable(weekday)
    ensures Cron.JsMatches(round, cal, PrintFields(minute, hour, day, month, weekday), d * 1440 + h * 60 + m) <==>
            FieldHas(minute, m) && FieldHas(hour, h) && FieldHas(day, cal.day(d)) && FieldHas(month, cal.month(d))
            && FieldHas(weekday, (d + 4) % 7)
  {
    Components(d, h, m);
    FieldMeans(round, minute, m);
    FieldMeans(round, hour, h);
    FieldMeans(round, day, cal.day(d));
    FieldMeans(round, month, cal.month(d));
    FieldMeans(round, weekday, (d + 4) % 7);
  }

  lemma Components(d: int, h: nat, m: nat)
    requires h < 24 && m < 60
    ensures var t := d * 1440 + h * 60 + m; Cron.Minute(t) == m && Cron.Hour(t) == h && Cron.DayNumber(t) == d
    ensures var t := d * 1440 + h * 60 + m; Cron.PyWeekday(t) == (d + 3) % 7 && Cron.JsWeekday(t) == (d + 4) % 7
  {
    var t := d * 1440 + h * 60 + m;
    assert t == (d * 24 + h) * 60 + m;
    assert t / 60 == d * 24 + h;
  }
}
