// One field of a cron expression, as backend/scheduler.py and frontend/app/api/tasks/route.js
// match it. A field's value is a minute, hour, day, month or weekday: at most 59.
module CronFields {
  import opened Prelude
  import opened Strings

  // ---- Numbers in fields ----

  function Digits(s: string): nat {
    if s == "" then 0 else Digits(Front(s)) * 10 + (if '0' <= Last(s) <= '9' then (Last(s) - '0') as nat else 0)
  }

  predicate AllDigits(s: string) {
    forall c :: c in s ==> '0' <= c <= '9'
  }

  function Unsigned(s: string): string {
    if s != "" && (s[0] == '-' || s[0] == '+') then s[1..] else s
  }

  function Sign(s: string): int {
    if s != "" && s[0] == '-' then -1 else 1
  }

  predicate IsDigit(c: char) {
    '0' <= c <= '9'
  }

  // Digits, with single underscores between them.
  predicate Grouped(s: string) {
    s != "" && IsDigit(s[0]) && (|s| == 1 || Grouped(if s[1] == '_' then s[2..] else s[1..]))
  }

  function Strip(s: string): string {
    if s == "" then "" else (if s[0] == '_' then "" else [s[0]]) + Strip(s[1..])
  }

  // Python's int(): an optional sign and digits, which single underscores may separate;
  // otherwise a ValueError.
  function PyInt(s: string): Option<int> {
    if Grouped(Unsigned(s)) then Some(Sign(s) * Digits(Strip(Unsigned(s)))) else None
  }

  function DigitPrefix(s: string): string {
    if s != "" && '0' <= s[0] <= '9' then [s[0]] + DigitPrefix(s[1..]) else ""
  }

  function HexValue(c: char): Option<nat> {
    if '0' <= c <= '9' then Some((c - '0') as nat)
    else if 'a' <= c <= 'f' then Some((c - 'a') as nat + 10)
    else if 'A' <= c <= 'F' then Some((c - 'A') as nat + 10)
    else None
  }

  function HexPrefix(s: string): seq<nat> {
    if s != "" && HexValue(s[0]).Some? then [HexValue(s[0]).value] + HexPrefix(s[1..]) else []
  }

  function HexDigits(ds: seq<nat>): nat {
    if ds == [] then 0 else HexDigits(Front(ds)) * 16 + Last(ds)
  }

  // The number JavaScript's parseInt() finds: an optional sign, then the leading hexadecimal
  // digits after 0x or 0X, or the leading decimal digits; None is NaN.
  function LeadingInt(s: string): Option<int> {
    var u := Unsigned(s);
    if |u| >= 2 && u[0] == '0' && (u[1] == 'x' || u[1] == 'X') then
      var ds := HexPrefix(u[2..]);
      if ds != [] then Some(Sign(s) * HexDigits(ds)) else None
    else
      var d := DigitPrefix(u);
      if d != "" then Some(Sign(s) * Digits(d)) else None
  }

  // Integers become doubles: exact up to 2^53, and never rounded back below it. Infinity
  // behaves here as any number beyond.
  const EXACT: int := 9007199254740992

  type Rounding = int -> int

  ghost predicate Rounds(round: Rounding) {
    forall x :: (-EXACT <= x <= EXACT ==> round(x) == x) && (x > EXACT ==> round(x) >= EXACT) && (x < -EXACT ==> round(x) <= -EXACT)
  }

  function JsInt(round: Rounding, s: string): Option<int> {
    var n := LeadingInt(s);
    if n.Some? then Some(round(n.value)) else None
  }

  lemma {:induction false} DigitPrefixAll(s: string)
    requires AllDigits(s)
    ensures DigitPrefix(s) == s
  {
    if s != "" {
      assert s[0] in s && forall c :: c in s[1..] ==> c in s;
      DigitPrefixAll(s[1..]);
    }
  }

  lemma {:induction false} GroupedChars(s: string)
    requires Grouped(s)
    ensures IsDigit(Last(s)) && forall i :: 0 <= i < |s| ==> IsDigit(s[i]) || s[i] == '_'
  {
    if |s| > 1 {
      var n := if s[1] == '_' then 2 else 1;
      GroupedChars(s[n..]);
      assert forall i :: n <= i < |s| ==> s[i] == s[n..][i - n];
    }
  }

  lemma {:induction false} PlainDigits(s: string)
    requires AllDigits(s)
    ensures Strip(s) == s && (s != "" ==> Grouped(s))
  {
    if s != "" {
      assert s[0] in s && forall c :: c in s[1..] ==> c in s;
      PlainDigits(s[1..]);
      assert |s| > 1 ==> s[1] in s;
    }
  }

  lemma PlainInt(s: string)
    requires Unsigned(s) != "" && AllDigits(Unsigned(s))
    ensures PyInt(s) == Some(Sign(s) * Digits(Unsigned(s)))
  {
    PlainDigits(Unsigned(s));
  }

  // What int() accepts without underscores, parseInt() reads as the same number before rounding.
  lemma IntsAgree(s: string)
    requires PyInt(s).Some? && '_' !in s
    ensures LeadingInt(s) == PyInt(s)
  {
    IntsAgreeIff(s);
  }

  // The digits up to the first underscore, and those after it.
  lemma {:induction false} StripParts(s: string)
    requires forall i :: 0 <= i < |s| ==> IsDigit(s[i]) || s[i] == '_'
    ensures |DigitPrefix(s)| <= |s| && Strip(s) == DigitPrefix(s) + Strip(s[|DigitPrefix(s)|..])
    ensures |DigitPrefix(s)| == |s| <==> '_' !in s
  {
    if s != "" && s[0] != '_' {
      StripParts(s[1..]);
      assert s == [s[0]] + s[1..];
      var n := |DigitPrefix(s[1..])|;
      assert s[1..][n..] == s[n + 1..];
    }
  }

  lemma {:induction false} StripKeepsLast(s: string)
    requires s != "" && IsDigit(Last(s))
    ensures Strip(s) != ""
  {
    if s[0] == '_' {
      StripKeepsLast(s[1..]);
    }
  }

  lemma {:induction false} DigitsGrow(d: string, r: string)
    ensures Digits(d + r) >= Digits(d) && (r != "" ==> Digits(d + r) >= 10 * Digits(d))
  {
    if r == "" {
      assert d + r == d;
    } else {
      DigitsGrow(d, Front(r));
      assert Front(d + r) == d + Front(r);
    }
  }

  // With an underscore parseInt() stops there, which leaves the number as it is only if it is zero.
  lemma IntsAgreeIff(s: string)
    requires PyInt(s).Some?
    ensures LeadingInt(s) == PyInt(s) <==> '_' !in s || PyInt(s).value == 0
  {
    LeadingDigits(s);
    GroupedValue(Unsigned(s));
    assert '_' in s <==> '_' in Unsigned(s);
  }

  lemma LeadingDigits(s: string)
    requires Grouped(Unsigned(s))
    ensures LeadingInt(s) == Some(Sign(s) * Digits(DigitPrefix(Unsigned(s))))
  {
    var u := Unsigned(s);
    GroupedChars(u);
    assert IsDigit(u[0]) && DigitPrefix(u) != "";
    assert |u| >= 2 ==> IsDigit(u[1]) || u[1] == '_';
  }

  lemma GroupedValue(u: string)
    requires Grouped(u)
    ensures Digits(DigitPrefix(u)) == Digits(Strip(u)) <==> '_' !in u || Digits(Strip(u)) == 0
  {
    GroupedChars(u);
    StripParts(u);
    var d := DigitPrefix(u);
    var rest := u[|d|..];
    DigitsGrow(d, Strip(rest));
    if '_' !in u {
      assert rest == "" && d + "" == d;
    } else {
      assert Last(rest) == Last(u);
      StripKeepsLast(rest);
    }
  }

  // ---- One part of a field ----

  // s.split(c, 1) when c occurs in s.
  function CutAt(s: string, c: char): (string, string)
    requires c in s
  {
    if s[0] == c then ("", s[1..])
    else
      var (head, rest) := CutAt(s[1..], c);
      ([s[0]] + head, rest)
  }

  // v is reached from `start` by steps. The two languages give remainders different signs, which
  // does not matter for a zero test.
  predicate Hits(v: int, start: int, step: int)
    requires step != 0
  {
    (v - start) % step == 0 && v >= start
  }

  predicate JsHits(round: Rounding, v: int, start: int, step: int) {
    step != 0 && round(v - start) % step == 0 && v >= start
  }

  // Err stands for the ValueError or ZeroDivisionError that leaves match_field.
  function PyPart(part: string, v: int): Result<bool, ()> {
    if '/' in part then
      var (base, step) := CutAt(part, '/');
      var start := if base == "*" then Some(0) else PyInt(base);
      if PyInt(step).None? || start.None? || PyInt(step).value == 0 then Err(())
      else Ok(Hits(v, start.value, PyInt(step).value))
    else if '-' in part then
      var (lo, hi) := CutAt(part, '-');
      if PyInt(lo).None? then Err(())
      else if v < PyInt(lo).value then Ok(false)
      else if PyInt(hi).None? then Err(())
      else Ok(v <= PyInt(hi).value)
    else if PyInt(part).None? then Err(())
    else Ok(PyInt(part).value == v)
  }

  function JsPart(round: Rounding, part: string, v: int): bool {
    if '/' in part then
      var pieces := Split(part, '/');
      var step := if |pieces| > 1 then JsInt(round, pieces[1]) else None;
      var start := if pieces[0] == "*" then Some(0) else JsInt(round, pieces[0]);
      step.Some? && start.Some? && JsHits(round, v, start.value, step.value)
    else if '-' in part then
      var pieces := Split(part, '-');
      var lo := JsInt(round, pieces[0]);
      var hi := if |pieces| > 1 then JsInt(round, pieces[1]) else None;
      lo.Some? && v >= lo.value && hi.Some? && v <= hi.value
    else JsInt(round, part) == Some(v)
  }

  function PyParts(parts: seq<string>, v: int): Result<bool, ()> {
    if parts == [] then Ok(false)
    else
      match PyPart(parts[0], v)
      case Err(_) => Err(())
      case Ok(true) => Ok(true)
      case Ok(false) => PyParts(parts[1..], v)
  }

  function JsParts(round: Rounding, parts: seq<string>, v: int): bool {
    parts != [] && (JsPart(round, parts[0], v) || JsParts(round, parts[1..], v))
  }

  function PyField(field: string, v: int): Result<bool, ()> {
    if field == "*" then Ok(true) else PyParts(Split(field, ','), v)
  }

  function JsField(round: Rounding, field: string, v: int): bool {
    field == "*" || JsParts(round, Split(field, ','), v)
  }

  // ---- Where rounding cannot be noticed ----

  // Numbers are written without underscores, and a step does not start so far below zero that
  // the difference leaves the exact integers.
  predicate LegiblePart(part: string) {
    && '_' !in part
    && ('/' in part ==> var base := LeadingInt(Split(part, '/')[0]); base.Some? ==> base.value >= 60 - EXACT)
  }

  predicate Legible(field: string) {
    forall part :: part in Split(field, ',') ==> LegiblePart(part)
  }

  lemma SmallRemainder(x: nat, m: int)
    requires m != 0 && (x < m || x < -m)
    ensures x % m == x
  {
  }

  lemma StepsExact(round: Rounding, v: int, start: int, step: int)
    requires Rounds(round) && 0 <= v <= 59 && step != 0 && start >= 60 - EXACT
    ensures JsHits(round, v, round(start), round(step)) == Hits(v, start, step)
  {
    if v >= start {
      var x := v - start;
      assert round(start) == start && round(x) == x;
      if !(-EXACT <= step <= EXACT) {
        SmallRemainder(x, step);
        SmallRemainder(x, round(step));
      }
    }
  }

  lemma RoundedCompare(round: Rounding, v: int, x: int)
    requires Rounds(round) && 0 <= v <= 59
    ensures (round(x) <= v <==> x <= v) && (v <= round(x) <==> v <= x)
  {
  }

  lemma {:induction false} CutIsSplit(s: string, c: char)
    requires c in s
    ensures c !in CutAt(s, c).0 && Split(s, c) == [CutAt(s, c).0] + Split(CutAt(s, c).1, c)
  {
    if s[0] != c {
      CutIsSplit(s[1..], c);
    }
  }

  // An integer has no separator after its sign.
  lemma NoSeparatorInInt(s: string, c: char)
    requires PyInt(s).Some? && (c == '/' || (c == '-' && s[0] != c))
    ensures Split(s, c) == [s]
  {
    forall i | 0 <= i < |s|
      ensures s[i] != c
    {
      var u := Unsigned(s);
      GroupedChars(u);
      if |u| == |s| {
        assert IsDigit(u[i]) || u[i] == '_';
      } else if i > 0 {
        assert IsDigit(u[i - 1]) || u[i - 1] == '_';
      }
    }
    SplitOne(s, c);
  }

  // ---- The two matchers where the Python one does not raise ----

  // A range from 0 to -0, where Python reads the bound "-0" and JavaScript the text between the dashes.
  predicate ZeroRange(part: string) {
    && '/' !in part && '-' in part
    && var (lo, hi) := CutAt(part, '-');
      PyInt(lo) == Some(0) && PyInt(hi) == Some(0) && hi[0] == '-'
  }

  lemma PartsAgreeIff(round: Rounding, part: string, v: nat)
    requires Rounds(round) && v <= 59 && LegiblePart(part) && PyPart(part, v).Ok?
    ensures JsPart(round, part, v) ==> PyPart(part, v).value
    ensures JsPart(round, part, v) == PyPart(part, v).value <==> !(v == 0 && ZeroRange(part))
  {
    if '/' in part {
      StepsAgree(round, part, v);
    } else if '-' in part {
      RangesAgreeIff(round, part, v);
    } else {
      IntsAgree(part);
      RoundedCompare(round, v, PyInt(part).value);
    }
  }

  lemma StepsAgree(round: Rounding, part: string, v: nat)
    requires Rounds(round) && v <= 59 && LegiblePart(part) && PyPart(part, v).Ok? && '/' in part
    ensures JsPart(round, part, v) == PyPart(part, v).value
  {
    var (base, step) := CutAt(part, '/');
    CutJoins(part, '/');
    StepPieces(part);
    IntsAgree(step);
    if base == "*" {
      StepsExact(round, v, 0, PyInt(step).value);
    } else {
      IntsAgree(base);
      StepsExact(round, v, PyInt(base).value, PyInt(step).value);
    }
  }

  lemma StepPieces(part: string)
    requires '/' in part && PyInt(CutAt(part, '/').1).Some?
    ensures var pieces := Split(part, '/'); |pieces| == 2 && (pieces[0], pieces[1]) == CutAt(part, '/')
  {
    CutIsSplit(part, '/');
    NoSeparatorInInt(CutAt(part, '/').1, '/');
  }

  lemma RangesAgreeIff(round: Rounding, part: string, v: nat)
    requires Rounds(round) && v <= 59 && LegiblePart(part) && PyPart(part, v).Ok? && '/' !in part && '-' in part
    ensures JsPart(round, part, v) ==> PyPart(part, v).value
    ensures JsPart(round, part, v) == PyPart(part, v).value <==> !(v == 0 && ZeroRange(part))
  {
    var (lo, hi) := CutAt(part, '-');
    RangeTexts(part);
    IntsAgree(lo);
    RoundedCompare(round, v, PyInt(lo).value);
    if v >= PyInt(lo).value {
      BoundText(hi);
      IntsAgree(hi);
      RoundedCompare(round, v, PyInt(hi).value);
    }
  }

  // What the two sides split a range into.
  lemma RangeTexts(part: string)
    requires '-' in part && '_' !in part && PyInt(CutAt(part, '-').0).Some?
    ensures var (lo, hi), pieces := CutAt(part, '-'), Split(part, '-');
      && |pieces| > 1 && pieces[0] == lo && pieces[1] == Split(hi, '-')[0]
      && '_' !in lo && '_' !in hi && PyInt(lo).value >= 0
  {
    CutJoins(part, '-');
    CutIsSplit(part, '-');
    var lo := CutAt(part, '-').0;
    assert lo[0] in lo;
  }

  // The text before a second dash: the whole bound, or nothing before a minus sign.
  lemma BoundText(hi: string)
    requires PyInt(hi).Some?
    ensures hi[0] == '-' ==> Split(hi, '-')[0] == "" && PyInt(hi).value <= 0
    ensures hi[0] != '-' ==> Split(hi, '-')[0] == hi
  {
    if hi[0] != '-' {
      NoSeparatorInInt(hi, '-');
    }
  }

  // With a step that starts further down the page can match where the scheduler does not:
  // 2^53 + 1 is odd, and the double next to it even.
  lemma RoundedBaseDiffers(round: Rounding, base: string)
    requires Rounds(round) && round(-EXACT - 1) == -EXACT && PyInt(base) == Some(-EXACT - 1) && '_' !in base
    ensures JsPart(round, base + "/" + "2", 0) && PyPart(base + "/" + "2", 0) == Ok(false)
  {
    SplitPieces(base, '/');
    NoSeparatorInInt(base, '/');
    assert base in Split(base, '/');
    StepText(base, "2");
    IntsAgree(base);
    ReadsTwo();
    HalvedSteps(round, base + "/" + "2", base, "2");
  }

  lemma HalvedSteps(round: Rounding, part: string, base: string, step: string)
    requires Rounds(round) && round(-EXACT - 1) == -EXACT
    requires '/' in part && Split(part, '/') == [base, step] && CutAt(part, '/') == (base, step) && base != "*"
    requires PyInt(base) == LeadingInt(base) == Some(-EXACT - 1) && PyInt(step) == LeadingInt(step) == Some(2)
    ensures JsPart(round, part, 0) && PyPart(part, 0) == Ok(false)
  {
    HalfHits(round);
    assert round(2) == 2 && PyInt(step).value == 2 && PyInt(base).value == -EXACT - 1;
  }

  lemma HalfHits(round: Rounding)
    requires Rounds(round)
    ensures JsHits(round, 0, -EXACT, 2) && !Hits(0, -EXACT - 1, 2)
  {
    assert round(EXACT) == EXACT;
  }

  lemma ReadsTwo()
    ensures '/' !in "2" && PyInt("2") == LeadingInt("2") == Some(2)
  {
    assert Front("2") == "";
    IntsAgree("2");
  }

  lemma StepText(base: string, step: string)
    requires '/' !in base && '/' !in step
    ensures var part := base + "/" + step;
      '/' in part && Split(part, '/') == [base, step] && CutAt(part, '/') == (base, step)
  {
    var part := base + "/" + step;
    assert part == base + ['/'] + step && part[|base|] == '/';
    SplitFirst(base, '/', step);
    SplitOne(step, '/');
    CutIsSplit(part, '/');
    CutJoins(part, '/');
    var (head, rest) := CutAt(part, '/');
    assert ([base] + [step])[0] == base && Split(part, '/')[0] == head;
    assert head == base && part[|base| + 1..] == step && (head + ['/'] + rest)[|head| + 1..] == rest;
  }

  lemma {:induction false} CutJoins(s: string, c: char)
    requires c in s
    ensures s == CutAt(s, c).0 + [c] + CutAt(s, c).1
  {
    if s[0] != c {
      CutJoins(s[1..], c);
    }
  }

  // The text of a part admits the value zero, each number read as far as it goes.
  predicate AdmitsZero(part: string) {
    if '/' in part then
      var pieces := Split(part, '/');
      var start := if pieces[0] == "*" then Some(0) else LeadingInt(pieces[0]);
      |pieces| > 1 && start.Some? && LeadingInt(pieces[1]).Some? && LeadingInt(pieces[1]).value != 0
        && Hits(0, start.value, LeadingInt(pieces[1]).value)
    else if '-' in part then
      var pieces := Split(part, '-');
      |pieces| > 1 && LeadingInt(pieces[0]).Some? && LeadingInt(pieces[1]).Some?
        && LeadingInt(pieces[0]).value <= 0 <= LeadingInt(pieces[1]).value
    else LeadingInt(part) == Some(0)
  }

  lemma AdmitsZeroExact(round: Rounding, part: string)
    requires Rounds(round) && LegiblePart(part)
    ensures JsPart(round, part, 0) <==> AdmitsZero(part)
  {
    if '/' in part {
      var pieces := Split(part, '/');
      var start := if pieces[0] == "*" then Some(0) else LeadingInt(pieces[0]);
      if |pieces| > 1 && start.Some? && LeadingInt(pieces[1]).Some? {
        var step := LeadingInt(pieces[1]).value;
        assert round(0) == 0;
        if step != 0 {
          StepsExact(round, 0, start.value, step);
        }
      }
    } else {
      forall s: string | LeadingInt(s).Some?
        ensures (JsInt(round, s).value <= 0 <==> LeadingInt(s).value <= 0) && (0 <= JsInt(round, s).value <==> 0 <= LeadingInt(s).value)
      {
        RoundedCompare(round, 0, LeadingInt(s).value);
      }
    }
  }

  // ---- Whole fields ----

  lemma {:induction false} JsPartsExact(round: Rounding, parts: seq<string>, v: int)
    ensures JsParts(round, parts, v) <==> exists part :: part in parts && JsPart(round, part, v)
  {
    if parts != [] {
      JsPartsExact(round, parts[1..], v);
      assert parts == [parts[0]] + parts[1..];
    }
  }

  // Some part is a zero range, and no part admits zero in any other way.
  predicate LostZero(parts: seq<string>) {
    (exists part :: part in parts && ZeroRange(part)) && forall part :: part in parts ==> !AdmitsZero(part)
  }

  // Scanning the parts: the first that matches, or none when none does.
  lemma {:induction false} PyPartsExact(parts: seq<string>, v: int)
    requires PyParts(parts, v).Ok?
    ensures PyParts(parts, v).value ==> exists part :: part in parts && PyPart(part, v) == Ok(true)
    ensures !PyParts(parts, v).value ==> forall part :: part in parts ==> PyPart(part, v) == Ok(false)
  {
    if parts != [] {
      assert parts == [parts[0]] + parts[1..];
      if PyPart(parts[0], v) == Ok(false) {
        PyPartsExact(parts[1..], v);
      }
    }
  }

  lemma PartListsAgreeIff(round: Rounding, parts: seq<string>, v: nat)
    requires Rounds(round) && v <= 59 && (forall part :: part in parts ==> LegiblePart(part)) && PyParts(parts, v).Ok?
    ensures JsParts(round, parts, v) ==> PyParts(parts, v).value
    ensures JsParts(round, parts, v) == PyParts(parts, v).value <==> !(v == 0 && LostZero(parts))
  {
    JsPartsExact(round, parts, v);
    PyPartsExact(parts, v);
    forall part | part in parts && PyPart(part, v).Ok?
      ensures JsPart(round, part, v) ==> PyPart(part, v).value
      ensures JsPart(round, part, v) == PyPart(part, v).value <==> !(v == 0 && ZeroRange(part))
    {
      PartsAgreeIff(round, part, v);
    }
    forall part | part in parts
      ensures JsPart(round, part, 0) <==> AdmitsZero(part)
    {
      AdmitsZeroExact(round, part);
    }
    if v == 0 && LostZero(parts) {
      var part :| part in parts && ZeroRange(part);
      assert PyPart(part, 0) == Ok(true);
    }
  }

  predicate LosesZero(field: string) {
    field != "*" && LostZero(Split(field, ','))
  }

  // A field means the same on the page wherever the scheduler does not raise, but for such a zero.
  lemma FieldsAgreeIff(round: Rounding, field: string, v: nat)
    requires Rounds(round) && v <= 59 && Legible(field) && PyField(field, v).Ok?
    ensures JsField(round, field, v) ==> PyField(field, v).value
    ensures JsField(round, field, v) == PyField(field, v).value <==> !(v == 0 && LosesZero(field))
  {
    if field != "*" {
      PartListsAgreeIff(round, Split(field, ','), v);
    }
  }

  // When the scheduler reads every part, zero is lost exactly when zero ranges alone match it there.
  lemma LosesZeroInBackendTerms(round: Rounding, field: string)
    requires Rounds(round) && field != "*" && Legible(field)
    requires forall part :: part in Split(field, ',') ==> PyPart(part, 0).Ok?
    ensures LosesZero(field) <==>
              && (exists part :: part in Split(field, ',') && PyPart(part, 0) == Ok(true))
              && forall part :: part in Split(field, ',') && PyPart(part, 0) == Ok(true) ==> ZeroRange(part)
  {
    forall part | part in Split(field, ',')
      ensures AdmitsZero(part) <==> PyPart(part, 0).value && !ZeroRange(part)
      ensures ZeroRange(part) ==> PyPart(part, 0).value
    {
      PartsAgreeIff(round, part, 0);
      AdmitsZeroExact(round, part);
    }
  }

  lemma ZeroDashes()
    ensures ZeroRange("0--0") && !AdmitsZero("0--0")
  {
    var f := "0--0";
    assert f[1..] == "--0" && f[2..] == "-0";
    assert CutAt("--0", '-') == ("", "-0");
    assert CutAt(f, '-') == (['0'] + "", "-0") && ['0'] + "" == "0";
    assert PyInt("0") == Some(0) && PyInt("-0") == Some(0) by {
      assert Front("0") == "" && Unsigned("-0") == "0";
    }
    CutIsSplit(f, '-');
    assert Split("-0", '-')[0] == "";
    assert Split(f, '-')[1] == "";
  }

  // On this field the scheduler matches zero and the page does not.
  lemma DoubleDashDiffers(round: Rounding)
    requires Rounds(round)
    ensures PyField("0--0", 0) == Ok(true) && !JsField(round, "0--0", 0)
  {
    SplitOne("0--0", ',');
    ZeroDashes();
    FieldsAgreeIff(round, "0--0", 0);
  }

  lemma ReadsSixteen()
    ensures LeadingInt("0x10") == Some(16) && !AdmitsZero("0x10")
  {
    var ds := [1, 0];
    assert "0x10"[2..] == "10" && "10"[1..] == "0" && "0"[1..] == "";
    assert HexPrefix("0") == [0];
    assert HexPrefix("10") == [1] + [0] == ds;
    assert Front(ds) == [1] && Front([1]) == [] && HexDigits([1]) == 1;
  }

  lemma TwoParts(a: string, b: string)
    requires ',' !in a && ',' !in b
    ensures Split(a + "," + b, ',') == [a, b]
  {
    assert a + "," + b == a + [','] + b;
    SplitFirst(a, ',', b);
    SplitOne(b, ',');
  }

  // Nor does it when a later part reads 16.
  lemma HexadecimalDoesNotHelp(round: Rounding)
    requires Rounds(round)
    ensures var field := "0--0" + "," + "0x10"; PyField(field, 0) == Ok(true) && !JsField(round, field, 0)
  {
    var field := "0--0" + "," + "0x10";
    TwoParts("0--0", "0x10");
    ZeroDashes();
    ReadsSixteen();
    LaterPart(round, field, "0--0", "0x10");
  }

  lemma LaterPart(round: Rounding, field: string, a: string, b: string)
    requires Rounds(round) && field != "*" && Split(field, ',') == [a, b]
    requires ZeroRange(a) && !AdmitsZero(a) && !AdmitsZero(b) && '/' !in b && '_' !in a && '_' !in b
    ensures PyField(field, 0) == Ok(true) && !JsField(round, field, 0)
  {
    var parts := [a, b];
    assert parts[0] == a && PyPart(a, 0) == Ok(true);
    assert PyParts(parts, 0) == Ok(true);
    assert a in parts && LostZero(parts);
    FieldsAgreeIff(round, field, 0);
  }

  // ---- Underscores ----

  lemma ReadsTen()
    ensures PyInt("1_0") == Some(10) && LeadingInt("1_0") == Some(1)
  {
    var u := "1_0";
    assert u[1..] == "_0" && u[2..] == "0" && "0"[1..] == "";
    assert Strip("0") == "0" && Strip("_0") == "0" && Strip(u) == ['1'] + "0";
    assert ['1'] + "0" == "10" && Front("10") == "1" && Front("1") == "";
    assert Digits("1") == 1 && Digits("10") == 10;
    assert DigitPrefix("_0") == "" && DigitPrefix(u) == ['1'] + "" == "1";
  }

  // On `1_0` the scheduler matches ten and the page one.
  lemma UnderscoreDiffers(round: Rounding)
    requires Rounds(round)
    ensures forall v :: 0 <= v <= 59 ==> PyField("1_0", v) == Ok(v == 10) && JsField(round, "1_0", v) == (v == 1)
  {
    SplitOne("1_0", ',');
    ReadsTen();
    assert '/' !in "1_0" && '-' !in "1_0";
    assert ["1_0"][1..] == [] && JsInt(round, "1_0") == Some(1);
    forall v | 0 <= v <= 59
      ensures PyField("1_0", v) == Ok(v == 10) && JsField(round, "1_0", v) == (v == 1)
    {
      assert PyPart("1_0", v) == Ok(v == 10) && JsPart(round, "1_0", v) == (v == 1);
      assert PyParts(["1_0"], v) == Ok(v == 10);
      JsPartsExact(round, ["1_0"], v);
    }
  }
}
