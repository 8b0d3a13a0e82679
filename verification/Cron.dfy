// Cron matching and next-run search, in backend/scheduler.py and in
// frontend/app/api/tasks/route.js. An expression is the list of its whitespace-separated fields.
module Cron {
  import opened Prelude
  import opened Strings
  import opened MinuteSearch
  import opened CronFields

  // ---- Whole expressions ----

  type Ordinal = x: int | 1 <= x <= 31 witness 1

  // Times are minutes since 1970-01-01T00:00Z. The Gregorian day of month and month of a day
  // number are parameters; nothing below depends on them but that they lie between 1 and 31.
  datatype Calendar = Calendar(day: int -> Ordinal, month: int -> Ordinal)

  function Minute(t: int): int { t % 60 }
  function Hour(t: int): int { t / 60 % 24 }
  function DayNumber(t: int): int { t / 1440 }
  function PyWeekday(t: int): int { (DayNumber(t) + 3) % 7 }  // 0 is Monday
  function JsWeekday(t: int): int { (DayNumber(t) + 4) % 7 }  // 0 is Sunday

  // `and` of five matches: the first that fails or raises decides.
  function And(a: Result<bool, ()>, b: Result<bool, ()>): Result<bool, ()> {
    if a == Ok(true) then b else a
  }

  function CronMatches(cal: Calendar, fields: seq<string>, t: int): Result<bool, ()> {
    if |fields| != 5 then Ok(false)
    else
      And(PyField(fields[0], Minute(t)),
      And(PyField(fields[1], Hour(t)),
      And(PyField(fields[2], cal.day(DayNumber(t))),
      And(PyField(fields[3], cal.month(DayNumber(t))),
          PyField(fields[4], PyWeekday(t))))))
  }

  function JsMatches(round: Rounding, cal: Calendar, fields: seq<string>, t: int): bool {
    && |fields| == 5
    && JsField(round, fields[0], Minute(t))
    && JsField(round, fields[1], Hour(t))
    && JsField(round, fields[2], cal.day(DayNumber(t)))
    && JsField(round, fields[3], cal.month(DayNumber(t)))
    && JsField(round, fields[4], JsWeekday(t))
  }

  function Matcher(cal: Calendar, fields: seq<string>): int -> Result<bool, ()> {
    t => CronMatches(cal, fields, t)
  }

  function JsMatcher(round: Rounding, cal: Calendar, fields: seq<string>): int -> Result<bool, ()> {
    t => Ok(JsMatches(round, cal, fields, t))
  }

  // `after` in seconds; the search starts at the next whole minute.
  method CronNextRun(cal: Calendar, fields: seq<string>, after: int) returns (r: Result<Option<int>, ()>)
    ensures Found(Matcher(cal, fields), after / 60, r)
  {
    ghost var f, from := Matcher(cal, fields), after / 60;
    var candidate := after / 60 + 1;
    for i := 0 to WEEK
      invariant candidate == from + 1 + i && Searching(f, from, candidate, WEEK - i)
    {
      var m := CronMatches(cal, fields, candidate);
      assert m == f(candidate);
      SearchStep(f, from, candidate, WEEK - i);
      if m != Ok(false) {
        r := if m.Ok? then Ok(Some(candidate)) else Err(());
        return;
      }
      candidate := candidate + 1;
    }
    SearchStep(f, from, candidate, 0);
    r := Ok(None);
  }

  // The page's own search, from the current time in seconds.
  method JsCronNextRun(round: Rounding, cal: Calendar, fields: seq<string>, now: int) returns (r: Option<int>)
    ensures Ok(r) == Search(JsMatcher(round, cal, fields), now / 60 + 1, WEEK)
  {
    ghost var f := JsMatcher(round, cal, fields);
    if |fields| != 5 {
      SearchNever(f, now / 60 + 1, WEEK);
      return None;
    }
    var candidate := now / 60 + 1;
    for i := 0 to WEEK
      invariant candidate == now / 60 + 1 + i
      invariant Search(f, now / 60 + 1, WEEK) == Search(f, candidate, WEEK - i)
    {
      var m := JsMatches(round, cal, fields, candidate);
      assert f(candidate) == Ok(m);
      if m {
        return Some(candidate);
      }
      candidate := candidate + 1;
    }
    r := None;
  }

  // ---- Main results ----

  lemma Shift60(t: int, q: int)
    ensures (t + 60 * q) / 60 == t / 60 + q && (t + 60 * q) % 60 == t % 60
  {
  }

  lemma Shift1440(t: int, q: int)
    ensures (t + 1440 * q) / 1440 == t / 1440 + q
  {
  }

  lemma Shift24(h: int, q: int)
    ensures (h + 24 * q) % 24 == h % 24
  {
  }

  lemma Shift7(d: int, q: int)
    ensures (d + 7 * q) % 7 == d % 7
  {
  }

  lemma WeekDigits(t: int, k: int)
    ensures Minute(t + WEEK * k) == Minute(t) && Hour(t + WEEK * k) == Hour(t) && PyWeekday(t + WEEK * k) == PyWeekday(t)
  {
    Shift60(t, 168 * k);
    Shift24(t / 60, 7 * k);
    Shift1440(t, 7 * k);
    Shift7(t / 1440 + 3, k);
  }

  ghost predicate AnyDate(fields: seq<string>) {
    |fields| == 5 && fields[2] == "*" && fields[3] == "*"
  }

  lemma WeekLater(cal: Calendar, fields: seq<string>, t: int, u: int, k: int)
    requires AnyDate(fields) && u == t + WEEK * k
    ensures CronMatches(cal, fields, u) == CronMatches(cal, fields, t)
  {
    WeekDigits(t, k);
    SameFields(cal, fields, t, u);
  }

  lemma SameFields(cal: Calendar, fields: seq<string>, t: int, u: int)
    requires AnyDate(fields) && Minute(t) == Minute(u) && Hour(t) == Hour(u) && PyWeekday(t) == PyWeekday(u)
    ensures CronMatches(cal, fields, u) == CronMatches(cal, fields, t)
  {
  }

  // Without a day or month restriction, matching repeats every week.
  lemma Weekly(cal: Calendar, fields: seq<string>)
    requires AnyDate(fields)
    ensures Periodic(Matcher(cal, fields), WEEK)
  {
    forall t, k
      ensures Repeats(Matcher(cal, fields), WEEK, t, k)
    {
      WeekLater(cal, fields, t, t + WEEK * k, k);
    }
  }

  // ... so finding no run within a week means that there never is one,
  lemma NoRunThisWeekMeansNever(cal: Calendar, fields: seq<string>, after: int, t: int)
    requires AnyDate(fields) && Search(Matcher(cal, fields), after / 60 + 1, WEEK) == Ok(None)
    ensures CronMatches(cal, fields, t) == Ok(false)
  {
    Weekly(cal, fields);
    NoneMeansNever(Matcher(cal, fields), WEEK, after / 60 + 1, t);
  }

  // ... and computing each run from the one before enumerates every matching minute.
  lemma EveryRunIsReached(cal: Calendar, fields: seq<string>, t: int, u: int) returns (n: nat)
    requires AnyDate(fields) && forall w :: CronMatches(cal, fields, w).Ok?
    requires t < u && CronMatches(cal, fields, u) == Ok(true)
    ensures Iterate(Matcher(cal, fields), WEEK, t, n) == Some(u)
  {
    Weekly(cal, fields);
    assert forall w :: Matcher(cal, fields)(w).Ok?;
    n := EveryMatchIsReached(Matcher(cal, fields), WEEK, t, u);
  }

  // ---- The page and the scheduler ----

  // The page overlooks the minute or the hour of t.
  predicate Overlooked(fields: seq<string>, t: int) {
    |fields| == 5 && ((Minute(t) == 0 && LosesZero(fields[0])) || (Hour(t) == 0 && LosesZero(fields[1])))
  }

  ghost predicate Readable(fields: seq<string>) {
    |fields| == 5 ==> forall i :: 0 <= i < 5 ==> Legible(fields[i])
  }

  lemma MatchesAgreeIff(round: Rounding, cal: Calendar, fields: seq<string>, t: int)
    requires Rounds(round) && Readable(fields) && CronMatches(cal, fields, t).Ok? && (|fields| == 5 ==> fields[4] == "*")
    ensures JsMatches(round, cal, fields, t) ==> CronMatches(cal, fields, t).value
    ensures CronMatches(cal, fields, t).value ==> (JsMatches(round, cal, fields, t) <==> !Overlooked(fields, t))
  {
    if |fields| == 5 {
      FieldsAgreeIff(round, fields[0], Minute(t));
      if PyField(fields[0], Minute(t)) == Ok(true) {
        FieldsAgreeIff(round, fields[1], Hour(t));
        if PyField(fields[1], Hour(t)) == Ok(true) {
          FieldsAgreeIff(round, fields[2], cal.day(DayNumber(t)));
          if PyField(fields[2], cal.day(DayNumber(t))) == Ok(true) {
            FieldsAgreeIff(round, fields[3], cal.month(DayNumber(t)));
          }
        }
      }
    }
  }

  // With weekday `*` the page shows the scheduler's next run, or that there is none, unless it
  // overlooks the minute or the hour of that run.
  lemma NextRunsAgreeIff(round: Rounding, cal: Calendar, fields: seq<string>, t: int, n: nat)
    requires Rounds(round) && Readable(fields)
    requires Search(Matcher(cal, fields), t, n).Ok? && (|fields| == 5 ==> fields[4] == "*")
    ensures var next := Search(Matcher(cal, fields), t, n).value;
      Search(JsMatcher(round, cal, fields), t, n) == Ok(next) <==> !(next.Some? && Overlooked(fields, next.value))
  {
    var f, g := Matcher(cal, fields), JsMatcher(round, cal, fields);
    forall u | f(u).Ok?
      ensures g(u).Ok? && Misses(f, g, u, Overlooked(fields, u))
    {
      MatchesAgreeIff(round, cal, fields, u);
    }
    SearchesAgreeIff(f, g, t, n, u => Overlooked(fields, u));
  }

  // `0 1_0 * * *` runs at 10:00, and the page says 01:00: from midnight its search finds minute 60.
  lemma UnderscoreHour(round: Rounding, cal: Calendar)
    requires Rounds(round)
    ensures var fields := ["0", "1_0", "*", "*", "*"];
      && CronMatches(cal, fields, 60) == Ok(false) && JsMatches(round, cal, fields, 60)
      && CronMatches(cal, fields, 600) == Ok(true) && !JsMatches(round, cal, fields, 600)
  {
    UnderscoreDiffers(round);
    ZeroField(round);
    assert Minute(60) == 0 && Hour(60) == 1 && Minute(600) == 0 && Hour(600) == 10;
  }

  lemma ZeroField(round: Rounding)
    requires Rounds(round)
    ensures PyField("0", 0) == Ok(true) && JsField(round, "0", 0)
  {
    SplitOne("0", ',');
    assert Front("0") == "" && "0"[1..] == "" && Strip("0") == "0";
    PlainInt("0");
    IntsAgree("0");
  }

  // ---- Weekdays ----

  // The page's days are one ahead of the scheduler's.
  lemma WeekdayShift(t: int)
    ensures 0 <= PyWeekday(t) < 7 && JsWeekday(t) == (PyWeekday(t) + 1) % 7
  {
  }

  function OnWeekday(w: string): seq<string> {
    ["*", "*", "*", "*", w]
  }

  // 1970-01-05 00:00, a Monday: day 0 for the scheduler and 1 for the page.
  lemma WeekdayDiffers(round: Rounding, cal: Calendar)
    requires Rounds(round)
    ensures CronMatches(cal, OnWeekday("0"), 5760) == Ok(true) && !JsMatches(round, cal, OnWeekday("0"), 5760)
  {
    SplitOne("0", ',');
    assert PyInt("0") == Some(0) by {
      assert Front("0") == "";
    }
    IntsAgree("0");
    assert PyField("0", 0) == Ok(true);
    assert !JsField(round, "0", 1);
  }

  function DayStart(d: nat): int {
    1440 * (d + 4)
  }

  lemma DayStartWeekday(d: nat)
    requires d < 7
    ensures PyWeekday(DayStart(d)) == d
  {
  }

  // The field matches every day of the week, or none.
  ghost predicate AllOrNone(w: string) {
    forall d :: 0 <= d < 7 ==> PyField(w, d) == PyField(w, 0)
  }

  ghost predicate AgreeAt(round: Rounding, cal: Calendar, fields: seq<string>, t: int) {
    Ok(JsMatches(round, cal, fields, t)) == CronMatches(cal, fields, t)
  }

  ghost predicate AgreeOn(round: Rounding, w: string, d: int) {
    PyField(w, d) == Ok(JsField(round, w, (d + 1) % 7))
  }

  lemma AgreeAtIsOn(round: Rounding, cal: Calendar, w: string, t: int)
    ensures 0 <= PyWeekday(t) < 7
    ensures AgreeAt(round, cal, OnWeekday(w), t) <==> AgreeOn(round, w, PyWeekday(t))
  {
    WeekdayShift(t);
  }

  // Minutes range over all weekdays.
  lemma AgreeOnDays(round: Rounding, cal: Calendar, w: string)
    ensures (forall t :: AgreeAt(round, cal, OnWeekday(w), t)) <==> forall d :: 0 <= d < 7 ==> AgreeOn(round, w, d)
  {
    if forall t :: AgreeAt(round, cal, OnWeekday(w), t) {
      forall d | 0 <= d < 7
        ensures AgreeOn(round, w, d)
      {
        DayStartWeekday(d);
        AgreeAtIsOn(round, cal, w, DayStart(d));
        assert AgreeAt(round, cal, OnWeekday(w), DayStart(d));
      }
    }
    if forall d :: 0 <= d < 7 ==> AgreeOn(round, w, d) {
      forall t
        ensures AgreeAt(round, cal, OnWeekday(w), t)
      {
        AgreeAtIsOn(round, cal, w, t);
      }
    }
  }

  // Seven verdicts that equal another seven, moved on by a day, which differ at most at zero.
  lemma AroundTheWeek(py: seq<bool>, js: seq<bool>, lost: bool)
    requires |py| == |js| == 7 && forall d :: 0 <= d < 7 ==> (js[d] == py[d] <==> !(d == 0 && lost))
    requires js[0] ==> py[0]
    ensures (forall d :: 0 <= d < 7 ==> py[d] == js[(d + 1) % 7]) <==> !lost && forall d :: 0 <= d < 7 ==> py[d] == py[0]
  {
    if forall d :: 0 <= d < 7 ==> py[d] == js[(d + 1) % 7] {
      assert py[0] == js[1] && py[1] == js[2] && py[2] == js[3] && py[3] == js[4];
      assert py[4] == js[5] && py[5] == js[6] && py[6] == js[0];
    }
  }

  // With a weekday field alone the two sides agree at every minute exactly when the field means
  // every day or no day, and does not lose its zero.
  lemma WeekdaysAgreeIff(round: Rounding, cal: Calendar, w: string)
    requires Rounds(round) && Legible(w) && forall d :: 0 <= d < 7 ==> PyField(w, d).Ok?
    ensures (forall t :: AgreeAt(round, cal, OnWeekday(w), t)) <==> AllOrNone(w) && !LosesZero(w)
  {
    var py, js := Verdicts(round, w);
    AroundTheWeek(py, js, LosesZero(w));
    AgreeOnDays(round, cal, w);
    assert forall d :: 0 <= d < 7 ==> (py[d] == py[0] <==> PyField(w, d) == PyField(w, 0));
    assert forall d :: 0 <= d < 7 ==> (py[d] == js[(d + 1) % 7] <==> AgreeOn(round, w, d));
  }

  // The two sides' verdicts on the numbers 0 to 6.
  lemma Verdicts(round: Rounding, w: string) returns (py: seq<bool>, js: seq<bool>)
    requires Rounds(round) && Legible(w) && forall d :: 0 <= d < 7 ==> PyField(w, d).Ok?
    ensures |py| == |js| == 7
    ensures forall d :: 0 <= d < 7 ==> PyField(w, d) == Ok(py[d]) && JsField(round, w, d) == js[d]
    ensures forall d :: 0 <= d < 7 ==> (js[d] == py[d] <==> !(d == 0 && LosesZero(w))) && (js[d] ==> py[d])
  {
    py := seq(7, d requires 0 <= d < 7 => PyField(w, d) == Ok(true));
    js := seq(7, d requires 0 <= d < 7 => JsField(round, w, d));
    forall d | 0 <= d < 7
      ensures PyField(w, d) == Ok(py[d])
      ensures (js[d] == py[d] <==> !(d == 0 && LosesZero(w))) && (js[d] ==> py[d])
    {
      assert PyField(w, d).Ok?;
      FieldsAgreeIff(round, w, d);
    }
  }
}
