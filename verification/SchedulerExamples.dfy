// Runs of the scheduler that execute a page more than once in a minute, and the schedules behind them.
module SchedulerExamples {
  import opened Prelude
  import opened Strings
  import opened MinuteSearch
  import CronFields
  import Cron
  import opened SchedulerProtocol
  import opened SchedulerRuns

  // Every page has the same expression.
  function DueBy(cal: Cron.Calendar, fields: seq<string>): Due {
    (_, minute) => Cron.CronMatches(cal, fields, minute)
  }

  const HOURLY_X := ["0,x", "*", "*", "*", "*"]

  // The expression `0,x * * * *` matches at minute 0 of an hour, and raises at any other.
  lemma RaisingField()
    ensures CronFields.PyField("0,x", 0) == Ok(true) && CronFields.PyField("0,x", 1).Err?
  {
    CronFields.TwoParts("0", "x");
    assert "0" + "," + "x" == "0,x";
    assert CronFields.PyInt("0") == Some(0) by {
      assert Front("0") == "";
    }
    assert CronFields.PyInt("x").None? by {
      assert 'x' in CronFields.Unsigned("x");
    }
    assert ["0", "x"][1..] == ["x"];
  }

  lemma RaisingSearch(cal: Cron.Calendar)
    ensures DueBy(cal, HOURLY_X)(7, 0) == Ok(true)
    ensures Search(DueOf(DueBy(cal, HOURLY_X), 7), 1, WEEK).Err?
  {
    RaisingField();
    assert Cron.CronMatches(cal, HOURLY_X, 0) == Ok(true);
    assert Cron.CronMatches(cal, HOURLY_X, 1).Err?;
    assert DueOf(DueBy(cal, HOURLY_X), 7)(1).Err?;
  }

  // So it is due at 00:00, and the search for its next run raises.
  lemma RaisingSchedule(cal: Cron.Calendar, t: int)
    requires 0 <= t < MINUTE
    ensures DueBy(cal, HOURLY_X)(7, t / MINUTE) == Ok(true) && !NextFound(DueBy(cal, HOURLY_X), 7, t)
  {
    RaisingSearch(cal);
    WithinFirstMinute(DueBy(cal, HOURLY_X), t);
  }

  lemma WithinFirstMinute(due: Due, t: int)
    requires 0 <= t < MINUTE && due(7, 0) == Ok(true) && Search(DueOf(due, 7), 1, WEEK).Err?
    ensures due(7, t / MINUTE) == Ok(true) && !NextFound(due, 7, t)
  {
    assert t / MINUTE == 0;
  }

  // Nothing has run; page 7 and n replicas, all ready to poll.
  function Fresh7(n: nat): System {
    System(0, None, Sleepers(n), map[7 := Schedule(None, 0)], map[])
  }

  function Sleepers(n: nat): map<Replica, Phase> {
    if n == 0 then map[] else Sleepers(n - 1)[n - 1 := Asleep(0)]
  }

  lemma {:induction false} SleepersExact(n: nat)
    ensures forall r: Replica :: r in Sleepers(n) <==> r < n
    ensures forall r: Replica :: r < n ==> Sleepers(n)[r] == Asleep(0)
  {
    if n > 0 {
      SleepersExact(n - 1);
    }
  }

  lemma FreshInitial(n: nat)
    ensures Initial(Fresh7(n))
    ensures forall r: Replica :: r < n ==> r in Fresh7(n).phase && Fresh7(n).phase[r] == Asleep(0)
  {
    SleepersExact(n);
  }

  function Always(): Due {
    (_, _) => Ok(true)
  }

  lemma AlwaysNext(t: int)
    ensures NextFound(Always(), 7, t)
  {
  }

  // A page that is always due: replica 0 runs it at the start of a minute, replica 1 again 55 s later.
  lemma TwiceInOneMinute() returns (events: seq<Event>)
    ensures Initial(Fresh7(2)) && Legal(Fresh7(2), events, Always(), MINUTE)
    ensures HistoryOf(Run(Fresh7(2), events, Always(), MINUTE), 7) == [Execution(0, 0, Counted), Execution(GAP, GAP, Counted)]
    ensures 0 / MINUTE == GAP / MINUTE
  {
    var first, s := FirstPoll();
    FreshInitial(2);
    events := SecondPoll(first, s);
  }

  lemma FirstPoll() returns (events: seq<Event>, s: System)
    ensures Leads(Fresh7(2), events, Always(), MINUTE, s) && HistoryOf(s, 7) == [Execution(0, 0, Counted)]
    ensures s.clock == 0 && s.holder.None? && 7 in s.pages && s.pages[7] == Schedule(Some(0), 1)
    ensures 1 in s.phase && s.phase[1] == Asleep(0)
  {
    var s0 := Fresh7(2);
    FreshInitial(2);
    AlwaysNext(0);
    PollAndRun(s0, Always(), MINUTE, 7, 0, 0, Counted);
    events, s := PollEvents(s0, 7, 0, 0, Counted), Polled(s0, 7, 0, 0, MINUTE, Counted);
    OneEntry(s0, s, 0, Execution(0, 0, Counted), Counted);
  }

  lemma SecondPoll(first: seq<Event>, s: System) returns (events: seq<Event>)
    requires Leads(Fresh7(2), first, Always(), MINUTE, s) && HistoryOf(s, 7) == [Execution(0, 0, Counted)]
    requires s.clock == 0 && s.holder.None? && 7 in s.pages && s.pages[7] == Schedule(Some(0), 1)
    requires 1 in s.phase && s.phase[1] == Asleep(0)
    ensures Legal(Fresh7(2), events, Always(), MINUTE)
    ensures HistoryOf(Run(Fresh7(2), events, Always(), MINUTE), 7) == [Execution(0, 0, Counted), Execution(GAP, GAP, Counted)]
  {
    AlwaysNext(GAP);
    NextPoll(Fresh7(2), first, s, Always(), MINUTE, 7, 1, GAP, Counted);
    events := first + PollEvents(s, 7, 1, GAP, Counted);
    OneEntry(s, Polled(s, 7, 1, GAP, MINUTE, Counted), 1, Execution(GAP, GAP, Counted), Counted);
  }

  // What a poll of page 7 adds.
  lemma OneEntry(s: System, s': System, r: Replica, x: Execution, ending: Ending)
    requires 7 in s.pages && x == Execution(x.polled, x.polled, ending) && s' == Polled(s, 7, r, x.polled, MINUTE, ending)
    ensures HistoryOf(s', 7) == HistoryOf(s, 7) + [x] && s'.phase == s.phase[r := Asleep(x.polled + MINUTE)]
    ensures s'.clock == x.polled && s'.holder.None? && s'.pages.Keys == s.pages.Keys
    ensures s'.pages[7] == if ending.Counted? then Schedule(Some(x.polled), s.pages[7].runCount + 1) else s.pages[7]
  {
  }

  // The k-th of these executions starts and ends at second k, unrecorded.
  function LostRuns(k: nat): seq<Execution> {
    if k == 0 then [] else LostRuns(k - 1) + [Execution((k - 1) * SECOND, (k - 1) * SECOND, NoNextRun)]
  }

  // k of n replicas have polled, and nothing was recorded.
  ghost predicate LostSoFar(s: System, n: nat, k: nat) {
    && s.holder.None? && s.clock <= k * SECOND && s.pages == map[7 := Schedule(None, 0)] && HistoryOf(s, 7) == LostRuns(k)
    && forall r: Replica :: k <= r < n ==> r in s.phase && s.phase[r] == Asleep(0)
  }

  // Page 7 is due throughout the first minute, and its next-run search raises.
  ghost predicate NeverRecords(due: Due) {
    forall t :: 0 <= t < MINUTE ==> due(7, t / MINUTE) == Ok(true) && !NextFound(due, 7, t)
  }

  // Then nothing is ever recorded: up to sixty replicas that poll a second apart run the page as
  // many times in one minute, and run_count stays zero.
  lemma {:induction false} ManyInOneMinute(due: Due, n: nat, k: nat) returns (events: seq<Event>, s: System)
    requires NeverRecords(due) && k <= n <= 60
    ensures Initial(Fresh7(n)) && Leads(Fresh7(n), events, due, MINUTE, s) && LostSoFar(s, n, k)
  {
    FreshInitial(n);
    if k == 0 {
      events, s := [], Fresh7(n);
    } else {
      var before;
      events, before := ManyInOneMinute(due, n, k - 1);
      events, s := AnotherRun(due, n, k, events, before);
    }
  }

  lemma AnotherRun(due: Due, n: nat, k: nat, before: seq<Event>, b: System) returns (events: seq<Event>, s: System)
    requires NeverRecords(due) && 0 < k <= n <= 60 && Leads(Fresh7(n), before, due, MINUTE, b) && LostSoFar(b, n, k - 1)
    ensures Leads(Fresh7(n), events, due, MINUTE, s) && LostSoFar(s, n, k)
  {
    var t := (k - 1) * SECOND;
    CanLose(b, due, n, k);
    s := Polled(b, 7, k - 1, t, MINUTE, NoNextRun);
    NextPoll(Fresh7(n), before, b, due, MINUTE, 7, k - 1, t, NoNextRun);
    events := before + PollEvents(b, 7, k - 1, t, NoNextRun);
    OneMoreLost(b, s, n, k);
  }

  lemma CanLose(s: System, due: Due, n: nat, k: nat)
    requires NeverRecords(due) && 0 < k <= n <= 60 && LostSoFar(s, n, k - 1)
    ensures var t := (k - 1) * SECOND; CanPoll(s, due, 7, k - 1, t) && CanEnd(due, 7, t, NoNextRun)
  {
  }

  lemma OneMoreLost(s: System, s': System, n: nat, k: nat)
    requires 0 < k <= n && LostSoFar(s, n, k - 1)
    requires s' == Polled(s, 7, k - 1, (k - 1) * SECOND, MINUTE, NoNextRun)
    ensures LostSoFar(s', n, k)
  {
    OneEntry(s, s', k - 1, Execution((k - 1) * SECOND, (k - 1) * SECOND, NoNextRun), NoNextRun);
  }

  lemma ThreeInOneMinute(cal: Cron.Calendar) returns (events: seq<Event>)
    ensures var start, due := Fresh7(3), DueBy(cal, HOURLY_X);
      && Initial(start) && Legal(start, events, due, MINUTE)
      && HistoryOf(Run(start, events, due, MINUTE), 7) ==
           [Execution(0, 0, NoNextRun), Execution(SECOND, SECOND, NoNextRun), Execution(2 * SECOND, 2 * SECOND, NoNextRun)]
      && Run(start, events, due, MINUTE).pages == map[7 := Schedule(None, 0)]
  {
    var s;
    forall t | 0 <= t < MINUTE
      ensures DueBy(cal, HOURLY_X)(7, t / MINUTE) == Ok(true) && !NextFound(DueBy(cal, HOURLY_X), 7, t)
    {
      RaisingSchedule(cal, t);
    }
    events, s := ManyInOneMinute(DueBy(cal, HOURLY_X), 3, 3);
    ThreeLost();
  }

  lemma ThreeLost()
    ensures LostRuns(3) == [Execution(0, 0, NoNextRun), Execution(SECOND, SECOND, NoNextRun), Execution(2 * SECOND, 2 * SECOND, NoNextRun)]
  {
    assert LostRuns(1) == [Execution(0, 0, NoNextRun)];
    assert LostRuns(2) == [Execution(0, 0, NoNextRun), Execution(SECOND, SECOND, NoNextRun)];
    assert LostRuns(3) == [Execution(0, 0, NoNextRun), Execution(SECOND, SECOND, NoNextRun), Execution(2 * SECOND, 2 * SECOND, NoNextRun)];
  }

  // An SQL error within the task has the same effect on a page whose schedule is fine.
  lemma SqlErrorNotCounted() returns (events: seq<Event>)
    ensures Initial(Fresh7(1)) && Legal(Fresh7(1), events, Always(), MINUTE)
    ensures var s := Run(Fresh7(1), events, Always(), MINUTE);
      HistoryOf(s, 7) == [Execution(0, 0, Aborted)] && 7 in s.pages && s.pages[7] == Schedule(None, 0)
  {
    var s0 := Fresh7(1);
    FreshInitial(1);
    PollAndRun(s0, Always(), MINUTE, 7, 0, 0, Aborted);
    events := PollEvents(s0, 7, 0, 0, Aborted);
    OneEntry(s0, Polled(s0, 7, 0, 0, MINUTE, Aborted), 0, Execution(0, 0, Aborted), Aborted);
  }
}
