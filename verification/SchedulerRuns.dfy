// How often a page runs, over the runs of the scheduler's protocol.
module SchedulerRuns {
  import opened Prelude
  import opened MinuteSearch
  import opened SchedulerProtocol

  lemma LaterMinute(a: int, b: int)
    requires b - a >= MINUTE
    ensures b / MINUTE > a / MINUTE
  {
    assert (a + MINUTE) / MINUTE == a / MINUTE + 1;
  }

  lemma MinuteOrder(a: int, b: int)
    requires a <= b
    ensures a / MINUTE <= b / MINUTE
  {
  }

  lemma BetweenMinutes(a: int, b: int, c: int)
    requires a <= b <= c && a / MINUTE == c / MINUTE
    ensures b / MINUTE == a / MINUTE
  {
    MinuteOrder(a, b);
    MinuteOrder(b, c);
  }

  // ---- Any number of replicas ----

  lemma RunSpaced(start: System, events: seq<Event>, due: Due, poll: int, p: PageId)
    requires Initial(start) && Legal(start, events, due, poll) && p in Run(start, events, due, poll).pages
    ensures var s := Run(start, events, due, poll); Invariant(s) && Spaced(HistoryOf(s, p), s.clock)
  {
    RunInvariant(start, events, due, poll);
    assert Recorded(Run(start, events, due, poll), p);
  }

  // After a recorded execution every later one is polled for 55 s after its end; so of three
  // executions for one minute, one of the first two was not recorded.
  lemma AtMostTwiceAMinute(start: System, events: seq<Event>, due: Due, poll: int, p: PageId, i: nat, j: nat, k: nat)
    requires Initial(start) && Legal(start, events, due, poll) && p in Run(start, events, due, poll).pages
    requires i < j < k < |HistoryOf(Run(start, events, due, poll), p)|
    ensures var h := HistoryOf(Run(start, events, due, poll), p);
      && (h[i].ending.Counted? ==> h[j].polled >= h[i].finished + 55_000_000)
      && (h[i].polled / 60_000_000 == h[k].polled / 60_000_000 ==> !h[i].ending.Counted? || !h[j].ending.Counted?)
  {
    RunSpaced(start, events, due, poll, p);
    var s := Run(start, events, due, poll);
    NotThreeRecorded(HistoryOf(s, p), s.clock, i, j, k);
  }

  lemma NotThreeRecorded(h: seq<Execution>, clock: int, i: nat, j: nat, k: nat)
    requires Spaced(h, clock) && i < j < k < |h|
    ensures h[i].ending.Counted? ==> h[j].polled >= h[i].finished + GAP
    ensures h[i].polled / MINUTE == h[k].polled / MINUTE ==> !h[i].ending.Counted? || !h[j].ending.Counted?
  {
    if h[i].ending.Counted? && h[j].ending.Counted? {
      assert h[k].polled >= h[j].finished + GAP && h[j].polled >= h[i].finished + GAP;
      LaterMinute(h[i].polled, h[k].polled);
    }
  }

  // The run finished in the first five seconds of the minute it was polled for.
  predicate EarlyFinish(x: Execution) {
    x.finished / MINUTE == x.polled / MINUTE && x.finished % MINUTE < 5 * SECOND
  }

  lemma SameMinuteIffEarly(x: Execution)
    requires x.polled <= x.finished
    ensures (x.finished + GAP) / MINUTE == x.polled / MINUTE <==> EarlyFinish(x)
  {
    var f := x.finished;
    MinuteOrder(x.polled, f);
    MinuteOrder(f, f + GAP);
    if f % MINUTE >= 5 * SECOND {
      LaterMinute(f / MINUTE * MINUTE, f + GAP);
    }
  }

  // After a recorded run that finished five seconds or more into its minute, later ones are for
  // later minutes.
  lemma LateFinishLeavesMinute(start: System, events: seq<Event>, due: Due, poll: int, p: PageId, i: nat, j: nat)
    requires Initial(start) && Legal(start, events, due, poll) && p in Run(start, events, due, poll).pages
    requires i < j < |HistoryOf(Run(start, events, due, poll), p)|
    ensures var h := HistoryOf(Run(start, events, due, poll), p);
      h[i].ending.Counted? && h[j].polled / MINUTE == h[i].polled / MINUTE ==> EarlyFinish(h[i])
  {
    RunSpaced(start, events, due, poll, p);
    var s := Run(start, events, due, poll);
    EarlyIfSameMinute(HistoryOf(s, p), s.clock, i, j);
  }

  lemma EarlyIfSameMinute(h: seq<Execution>, clock: int, i: nat, j: nat)
    requires Spaced(h, clock) && i < j < |h|
    ensures h[i].ending.Counted? && h[j].polled / MINUTE == h[i].polled / MINUTE ==> EarlyFinish(h[i])
  {
    var x, next := h[i], h[j].polled;
    if x.ending.Counted? && next / MINUTE == x.polled / MINUTE {
      BetweenMinutes(x.polled, x.finished + GAP, next);
      SameMinuteIffEarly(x);
    }
  }

  // ---- Going on from a state ----

  ghost predicate Leads(a: System, events: seq<Event>, due: Due, poll: int, b: System) {
    Legal(a, events, due, poll) && Run(a, events, due, poll) == b
  }

  lemma OneMoreEvent(a: System, e: seq<Event>, b: System, x: Event, due: Due, poll: int, c: System)
    requires Leads(a, e, due, poll, b) && Enabled(b, x, due) && Apply(b, x, due, poll) == c
    ensures Leads(a, e + [x], due, poll, c)
  {
    assert Front(e + [x]) == e && Last(e + [x]) == x;
  }

  lemma OneEvent(a: System, e: Event, due: Due, poll: int, b: System)
    requires Enabled(a, e, due) && Apply(a, e, due, poll) == b
    ensures Leads(a, [e], due, poll, b)
  {
    assert Front([e]) == [] && Last([e]) == e;
  }

  lemma JoinFront(e: seq<Event>, f: seq<Event>)
    requires f != []
    ensures e + f == e + Front(f) + [Last(f)]
  {
  }

  lemma JoinNothing(e: seq<Event>)
    ensures e + [] == e
  {
  }

  lemma {:induction false} LeadsThrough(a: System, e: seq<Event>, b: System, f: seq<Event>, c: System, due: Due, poll: int)
    requires Leads(a, e, due, poll, b) && Leads(b, f, due, poll, c)
    ensures Leads(a, e + f, due, poll, c)
    decreases |f|
  {
    if f == [] {
      JoinNothing(e);
    } else {
      var before := Run(b, Front(f), due, poll);
      LeadsThrough(a, e, b, Front(f), before, due, poll);
      OneMoreEvent(a, e + Front(f), before, Last(f), due, poll, c);
      JoinFront(e, f);
    }
  }

  lemma {:induction false} LeadsSplit(a: System, e: seq<Event>, f: seq<Event>, due: Due, poll: int)
    requires Legal(a, e + f, due, poll)
    ensures Legal(a, e, due, poll) && Leads(Run(a, e, due, poll), f, due, poll, Run(a, e + f, due, poll))
    decreases |f|
  {
    if f == [] {
      assert e + f == e;
    } else {
      assert Front(e + f) == e + Front(f) && Last(e + f) == Last(f);
      LeadsSplit(a, e, Front(f), due, poll);
    }
  }

  // A replica may poll at time t and finds p due.
  ghost predicate CanPoll(s: System, due: Due, p: PageId, r: Replica, t: int) {
    && s.holder.None? && r in s.phase && s.phase[r].Asleep? && s.phase[r].until <= t && s.clock <= t
    && p in s.pages && due(p, t / MINUTE) == Ok(true) && !TooRecent(s.pages[p], t)
  }

  ghost predicate CanEnd(due: Due, p: PageId, t: int, ending: Ending) {
    match ending
    case Counted => NextFound(due, p, t)
    case NoNextRun => !NextFound(due, p, t)
    case Aborted => true
  }

  function EndEvents(r: Replica, ending: Ending): seq<Event> {
    if ending.Counted? then [FinishTask(r)] else [FailTask(r, ending.Aborted?)] + [LoseTask(r)]
  }

  // A poll that runs p and nothing else,
  function PollEvents(s: System, p: PageId, r: Replica, t: int, ending: Ending): seq<Event>
    requires s.clock <= t
  {
    PollHead(s, p, r, t) + PollTail(r, ending)
  }

  function PollHead(s: System, p: PageId, r: Replica, t: int): seq<Event>
    requires s.clock <= t
  {
    [Advance(t - s.clock)] + [TakeLock(r, [p])]
  }

  function PollTail(r: Replica, ending: Ending): seq<Event> {
    ([StartTask(r)] + EndEvents(r, ending)) + [EndPoll(r)]
  }

  // ... and where it leads.
  function Polled(s: System, p: PageId, r: Replica, t: int, poll: int, ending: Ending): System
    requires p in s.pages
  {
    Complete(System(t, None, s.phase[r := Asleep(t + poll)], s.pages, s.history), Task(p, s.pages[p]), t, ending)
  }

  lemma PollStarts(s: System, due: Due, poll: int, p: PageId, r: Replica, t: int)
    requires CanPoll(s, due, p, r, t)
    ensures Leads(s, PollHead(s, p, r, t), due, poll,
                  System(t, Some(r), s.phase[r := Polling(t, [Task(p, s.pages[p])], false)], s.pages, s.history))
  {
    var s1 := s.(clock := t);
    assert Fetch(s1.pages, [p]) == [Task(p, s.pages[p])];
    OneEvent(s, Advance(t - s.clock), due, poll, s1);
    OneEvent(s1, TakeLock(r, [p]), due, poll, Apply(s1, TakeLock(r, [p]), due, poll));
    LeadsThrough(s, [Advance(t - s.clock)], s1, [TakeLock(r, [p])], Apply(s1, TakeLock(r, [p]), due, poll), due, poll);
  }

  lemma TaskStarts(s: System, due: Due, poll: int, r: Replica, task: Task)
    requires r in s.phase && s.phase[r] == Polling(s.clock, [task], false)
    requires due(task.page, s.clock / MINUTE) == Ok(true) && !TooRecent(task.schedule, s.clock)
    ensures Leads(s, [StartTask(r)], due, poll, SetPhase(s, r, Executing(s.clock, task, [])))
  {
    assert [task][1..] == [];
    OneEvent(s, StartTask(r), due, poll, SetPhase(s, r, Executing(s.clock, task, [])));
  }

  lemma TaskEnds(s: System, due: Due, poll: int, r: Replica, task: Task, ending: Ending)
    requires r in s.phase && s.phase[r] == Executing(s.clock, task, []) && CanEnd(due, task.page, s.clock, ending)
    ensures Leads(s, EndEvents(r, ending), due, poll,
                  SetPhase(Complete(s, task, s.clock, ending), r, Polling(s.clock, [], ending.Aborted?)))
  {
    var end := SetPhase(Complete(s, task, s.clock, ending), r, Polling(s.clock, [], ending.Aborted?));
    if ending.Counted? {
      OneEvent(s, FinishTask(r), due, poll, end);
    } else {
      var s1 := SetPhase(s, r, Failed(s.clock, task, [], ending.Aborted?));
      OneEvent(s, FailTask(r, ending.Aborted?), due, poll, s1);
      assert s1.phase[r := Polling(s.clock, [], ending.Aborted?)] == end.phase;
      OneEvent(s1, LoseTask(r), due, poll, end);
      LeadsThrough(s, [FailTask(r, ending.Aborted?)], s1, [LoseTask(r)], end, due, poll);
    }
  }

  // The task runs and ends, and the poll with it.
  lemma TaskRuns(s: System, due: Due, poll: int, r: Replica, task: Task, ending: Ending, s': System)
    requires r in s.phase && s.phase[r] == Polling(s.clock, [task], false) && s.holder == Some(r)
    requires due(task.page, s.clock / MINUTE) == Ok(true) && !TooRecent(task.schedule, s.clock)
    requires CanEnd(due, task.page, s.clock, ending)
    requires s' == SetPhase(Complete(s, task, s.clock, ending), r, Asleep(s.clock + poll)).(holder := None)
    ensures Leads(s, PollTail(r, ending), due, poll, s')
  {
    var s1 := SetPhase(s, r, Executing(s.clock, task, []));
    var s2 := SetPhase(Complete(s1, task, s.clock, ending), r, Polling(s.clock, [], ending.Aborted?));
    TaskStarts(s, due, poll, r, task);
    TaskEnds(s1, due, poll, r, task, ending);
    LeadsThrough(s, [StartTask(r)], s1, EndEvents(r, ending), s2, due, poll);
    PollEnds(s2, s', due, poll, r);
    LeadsThrough(s, [StartTask(r)] + EndEvents(r, ending), s2, [EndPoll(r)], s', due, poll);
  }

  lemma PollEnds(s: System, s': System, due: Due, poll: int, r: Replica)
    requires r in s.phase && s.phase[r].Polling? && s.phase[r].todo == [] && s.holder == Some(r)
    requires s' == s.(phase := s'.phase, holder := None) && s'.phase == s.phase[r := Asleep(s.clock + poll)]
    ensures Leads(s, [EndPoll(r)], due, poll, s')
  {
    OneEvent(s, EndPoll(r), due, poll, s');
  }

  lemma PolledIs(s: System, s1: System, p: PageId, r: Replica, t: int, poll: int, ending: Ending)
    requires p in s.pages && s1 == System(t, Some(r), s.phase[r := Polling(t, [Task(p, s.pages[p])], false)], s.pages, s.history)
    ensures SetPhase(Complete(s1, Task(p, s.pages[p]), t, ending), r, Asleep(t + poll)).(holder := None) ==
            Polled(s, p, r, t, poll, ending)
  {
    assert s1.phase[r := Asleep(t + poll)] == s.phase[r := Asleep(t + poll)];
  }

  lemma PollAndRun(s: System, due: Due, poll: int, p: PageId, r: Replica, t: int, ending: Ending)
    requires CanPoll(s, due, p, r, t) && CanEnd(due, p, t, ending)
    ensures Leads(s, PollEvents(s, p, r, t, ending), due, poll, Polled(s, p, r, t, poll, ending))
  {
    var task := Task(p, s.pages[p]);
    var s1 := System(t, Some(r), s.phase[r := Polling(t, [task], false)], s.pages, s.history);
    var s2 := Polled(s, p, r, t, poll, ending);
    PollStarts(s, due, poll, p, r, t);
    PolledIs(s, s1, p, r, t, poll, ending);
    TaskRuns(s1, due, poll, r, task, ending, s2);
    LeadsThrough(s, PollHead(s, p, r, t), s1, PollTail(r, ending), s2, due, poll);
  }

  // ---- A second run for the same minute ----

  // The first moment at which p can be polled for and is not too recent.
  function Earliest(s: System, p: PageId): int
    requires p in s.pages
  {
    if s.pages[p].lastRun.Some? && s.pages[p].lastRun.value + GAP > s.clock then s.pages[p].lastRun.value + GAP else s.clock
  }

  // After a recorded execution that is 55 s past its end, after an unrecorded one it is now.
  lemma EarliestExact(start: System, events: seq<Event>, due: Due, poll: int, p: PageId)
    requires Initial(start) && Legal(start, events, due, poll) && p in Run(start, events, due, poll).pages
    requires HistoryOf(Run(start, events, due, poll), p) != []
    ensures var s := Run(start, events, due, poll);
      var x := Last(HistoryOf(s, p));
      && (x.ending.Counted? ==> Earliest(s, p) == if x.finished + 55_000_000 > s.clock then x.finished + 55_000_000 else s.clock)
      && (!x.ending.Counted? ==> Earliest(s, p) == s.clock)
  {
    RunSpaced(start, events, due, poll, p);
    var s := Run(start, events, due, poll);
    var h := HistoryOf(s, p);
    assert Recorded(s, p);
    LastKept(h, s.clock);
  }

  lemma LastKept(h: seq<Execution>, clock: int)
    requires Spaced(h, clock) && h != []
    ensures Last(h).ending.Counted? ==> Kept(h) != [] && Last(Kept(h)) == Last(h)
    ensures !Last(h).ending.Counted? && Kept(h) != [] ==> Last(Kept(h)).finished + GAP <= clock
  {
    if !Last(h).ending.Counted? && Kept(h) != [] {
      KeptMember(h);
      var i :| 0 <= i < |h| && h[i] == Last(Kept(h));
      assert h[|h| - 1].polled >= h[i].finished + GAP;
    }
  }

  lemma {:induction false} KeptMember(h: seq<Execution>)
    requires Kept(h) != []
    ensures Last(Kept(h)) in h && Last(Kept(h)).ending.Counted?
  {
    if !Last(h).ending.Counted? {
      KeptMember(Front(h));
      assert Kept(h) == Kept(Front(h));
    }
  }

  // Executions completed and polls begun since time c, when nothing was running.
  ghost predicate Since(s: System, c: int, before: map<PageId, seq<Execution>>) {
    && (forall r :: r in s.phase && !s.phase[r].Asleep? ==> s.phase[r].now >= c)
    && s.clock >= c
    && forall p, k :: p in s.history && |GetOr(before, p, [])| <= k < |s.history[p]| ==> s.history[p][k].polled >= c
  }

  lemma StepSince(s: System, e: Event, due: Due, poll: int, c: int, before: map<PageId, seq<Execution>>)
    requires Enabled(s, e, due) && Since(s, c, before)
    ensures Since(Apply(s, e, due, poll), c, before)
  {
    var s' := Apply(s, e, due, poll);
    forall r | r in s'.phase && !s'.phase[r].Asleep?
      ensures s'.phase[r].now >= c
    {
      if !e.Advance? && r != e.r {
        assert s'.phase[r] == s.phase[r];
      }
    }
  }

  lemma {:induction false} LeadsSince(s: System, events: seq<Event>, due: Due, poll: int)
    requires Legal(s, events, due, poll) && forall r :: r in s.phase ==> s.phase[r].Asleep?
    ensures Since(Run(s, events, due, poll), s.clock, s.history)
  {
    if events != [] {
      LeadsSince(s, Front(events), due, poll);
      StepSince(Run(s, Front(events), due, poll), Last(events), due, poll, s.clock, s.history);
    }
  }

  // After `events` and `more` p has run once more, for the minute of its last execution before.
  ghost predicate RunsAgain(start: System, events: seq<Event>, more: seq<Event>, due: Due, poll: int, p: PageId) {
    && Legal(start, events + more, due, poll) && p in Run(start, events + more, due, poll).pages
    && var h, h' := HistoryOf(Run(start, events, due, poll), p), HistoryOf(Run(start, events + more, due, poll), p);
       h != [] && |h'| == |h| + 1 && h <= h' && h'[|h|].polled / MINUTE == Last(h).polled / MINUTE
  }

  // "Skip if already ran this minute" is only approximate. From a reachable state in which the
  // page is due and a replica free, the page can run again for the minute of its last execution
  // exactly when its earliest next poll still lies in that minute: for a recorded execution, when
  // that one finished in the first five seconds; for an unrecorded one, as long as the minute lasts.
  lemma SecondRunInMinuteIff(start: System, events: seq<Event>, due: Due, poll: int, p: PageId, r: Replica)
    requires Initial(start) && Legal(start, events, due, poll) && p in Run(start, events, due, poll).pages
    requires var s := Run(start, events, due, poll);
      var h := HistoryOf(s, p);
      && h != [] && due(p, Last(h).polled / MINUTE) == Ok(true)
      && s.holder.None? && r in s.phase && s.phase[r].Asleep? && s.phase[r].until <= Earliest(s, p)
    ensures var s := Run(start, events, due, poll);
      (exists more :: RunsAgain(start, events, more, due, poll, p)) <==>
      Earliest(s, p) / MINUTE == Last(HistoryOf(s, p)).polled / MINUTE
  {
    var s := Run(start, events, due, poll);
    if more :| RunsAgain(start, events, more, due, poll, p) {
      AgainIsInMinute(start, events, more, due, poll, p);
    }
    if Earliest(s, p) / MINUTE == Last(HistoryOf(s, p)).polled / MINUTE {
      var more := InMinuteRunsAgain(start, events, due, poll, p, r);
    }
  }

  lemma AgainIsInMinute(start: System, events: seq<Event>, more: seq<Event>, due: Due, poll: int, p: PageId)
    requires Initial(start) && Legal(start, events, due, poll) && RunsAgain(start, events, more, due, poll, p)
    requires p in Run(start, events, due, poll).pages && Run(start, events, due, poll).holder.None?
    ensures Earliest(Run(start, events, due, poll), p) / MINUTE == Last(HistoryOf(Run(start, events, due, poll), p)).polled / MINUTE
  {
    var s, s' := Run(start, events, due, poll), Run(start, events + more, due, poll);
    var h, h' := HistoryOf(s, p), HistoryOf(s', p);
    var x, y := Last(h), h'[|h|];
    RunSpaced(start, events, due, poll, p);
    RunSpaced(start, events + more, due, poll, p);
    LeadsSplit(start, events, more, due, poll);
    LeadsSince(s, more, due, poll);
    assert y.polled >= s.clock && Recorded(s, p);
    if Kept(h) != [] {
      AfterKept(h, h', s'.clock);
    }
    assert h[|h| - 1].polled <= h[|h| - 1].finished <= s.clock;
    BetweenMinutes(x.polled, Earliest(s, p), y.polled);
  }

  lemma AfterKept(h: seq<Execution>, h': seq<Execution>, clock: int)
    requires Spaced(h', clock) && h <= h' && |h'| == |h| + 1 && Kept(h) != []
    ensures h'[|h|].polled >= Last(Kept(h)).finished + GAP
  {
    KeptMember(h);
    var i :| 0 <= i < |h| && h[i] == Last(Kept(h));
    assert h'[i] == h[i];
  }

  lemma InMinuteRunsAgain(start: System, events: seq<Event>, due: Due, poll: int, p: PageId, r: Replica) returns (more: seq<Event>)
    requires Initial(start) && Legal(start, events, due, poll) && p in Run(start, events, due, poll).pages
    requires var s := Run(start, events, due, poll);
      var h := HistoryOf(s, p);
      && h != [] && due(p, Last(h).polled / MINUTE) == Ok(true)
      && s.holder.None? && r in s.phase && s.phase[r].Asleep? && s.phase[r].until <= Earliest(s, p)
      && Earliest(s, p) / MINUTE == Last(h).polled / MINUTE
    ensures RunsAgain(start, events, more, due, poll, p)
  {
    var s := Run(start, events, due, poll);
    var t := Earliest(s, p);
    var ending := if NextFound(due, p, t) then Counted else NoNextRun;
    PollAndRun(s, due, poll, p, r, t, ending);
    more := PollEvents(s, p, r, t, ending);
    LeadsThrough(start, events, s, more, Polled(s, p, r, t, poll, ending), due, poll);
  }

  // One more poll at the end of a run.
  lemma NextPoll(start: System, events: seq<Event>, s: System, due: Due, poll: int, p: PageId, r: Replica, t: int, ending: Ending)
    requires Leads(start, events, due, poll, s) && CanPoll(s, due, p, r, t) && CanEnd(due, p, t, ending)
    ensures Leads(start, events + PollEvents(s, p, r, t, ending), due, poll, Polled(s, p, r, t, poll, ending))
  {
    PollAndRun(s, due, poll, p, r, t, ending);
    LeadsThrough(start, events, s, PollEvents(s, p, r, t, ending), Polled(s, p, r, t, poll, ending), due, poll);
  }

  // ---- A single replica ----

  // Between polls of the only replica every page has rested for a whole interval.
  ghost predicate RestedUntil(s: System, p: PageId, time: int, poll: int) {
    forall k :: 0 <= k < |HistoryOf(s, p)| ==> HistoryOf(s, p)[k].finished + poll <= time
  }

  ghost predicate Rested(s: System, r: Replica, poll: int) {
    && s.phase.Keys == {r} && s.history.Keys <= s.pages.Keys
    && (s.phase[r].Asleep? ==> forall p :: p in s.pages ==> RestedUntil(s, p, s.phase[r].until, poll))
    && (!s.phase[r].Asleep? ==> forall i :: 0 <= i < |Todo(s.phase[r])| ==> RestedUntil(s, Todo(s.phase[r])[i].page, s.phase[r].now, poll))
  }

  // Every execution was polled for an interval after the one before, recorded or not.
  ghost predicate RestedHistory(s: System, poll: int) {
    forall p :: p in s.history ==> RestedRow(s.history[p], poll)
  }

  ghost predicate RestedRow(h: seq<Execution>, poll: int) {
    forall i :: 0 < i < |h| ==> h[i].polled >= h[i - 1].finished + poll
  }

  ghost predicate NoCrash(events: seq<Event>) {
    forall e :: e in events ==> !e.Crash?
  }

  lemma RestedElsewhere(s: System, s': System, p: PageId, time: int, poll: int)
    requires HistoryOf(s', p) == HistoryOf(s, p) && RestedUntil(s, p, time, poll)
    ensures RestedUntil(s', p, time, poll)
  {
  }

  // Falling asleep: whatever has run has ended by now.
  lemma SleepRested(s: System, due: Due, poll: int, r: Replica, e: Event)
    requires Invariant(s) && Enabled(s, e, due) && Rested(s, r, poll) && poll >= 0
    requires e.FindLocked? || e.AbortPoll? || e.EndPoll?
    ensures Rested(Apply(s, e, due, poll), r, poll)
  {
    var s' := Apply(s, e, due, poll);
    OtherUnchanged(s, e, due, poll);
    forall p | p in s'.pages
      ensures RestedUntil(s', p, s'.phase[r].until, poll)
    {
      assert Recorded(s, p) && HistoryOf(s', p) == HistoryOf(s, p);
    }
  }

  // Taking the lock and going on within a poll.
  lemma GoRested(s: System, due: Due, poll: int, r: Replica, e: Event)
    requires Invariant(s) && Enabled(s, e, due) && Rested(s, r, poll)
    requires !e.FindLocked? && !e.AbortPoll? && !e.EndPoll? && !e.Crash? && !Ends(e)
    ensures Rested(Apply(s, e, due, poll), r, poll)
  {
    var s' := Apply(s, e, due, poll);
    OtherUnchanged(s, e, due, poll);
    if s'.phase[r].Asleep? {
      assert s'.phase[r] == s.phase[r];
      forall p | p in s'.pages
        ensures RestedUntil(s', p, s'.phase[r].until, poll)
      {
        RestedElsewhere(s, s', p, s.phase[r].until, poll);
      }
    } else {
      forall i | 0 <= i < |Todo(s'.phase[r])|
        ensures RestedUntil(s', Todo(s'.phase[r])[i].page, s'.phase[r].now, poll)
      {
        var p := Todo(s'.phase[r])[i].page;
        if e.TakeLock? {
          assert RestedUntil(s, e.fetched[i], s.phase[r].until, poll);
        } else {
          TodoFrom(s, due, poll, r, e, i);
        }
        assert HistoryOf(s', p) == HistoryOf(s, p);
      }
    }
  }

  // Within a poll the rows still to be handled come from those of before.
  lemma TodoFrom(s: System, due: Due, poll: int, r: Replica, e: Event, i: nat)
    requires Enabled(s, e, due) && !e.TakeLock? && !Ends(e) && r in s.phase && s.phase.Keys == {r}
    requires !Apply(s, e, due, poll).phase[r].Asleep? && i < |Todo(Apply(s, e, due, poll).phase[r])|
    ensures !s.phase[r].Asleep? && Apply(s, e, due, poll).phase[r].now == s.phase[r].now
    ensures exists k :: 0 <= k < |Todo(s.phase[r])| && Todo(s.phase[r])[k] == Todo(Apply(s, e, due, poll).phase[r])[i]
  {
    var a, b := Todo(s.phase[r]), Todo(Apply(s, e, due, poll).phase[r]);
    assert b == a || (a != [] && b == a[1..]);
    assert b[i] == a[if b == a then i else i + 1];
  }

  lemma EndRested(s: System, due: Due, poll: int, r: Replica, e: Event)
    requires Invariant(s) && Enabled(s, e, due) && Ends(e) && Rested(s, r, poll)
    ensures Rested(Apply(s, e, due, poll), r, poll)
  {
    var s', x := Apply(s, e, due, poll), s.phase[e.r];
    EndCompletes(s, e, due, poll);
    assert Fresh(s, r);
    RestRested(s, s', x.task, x.now, EndingOf(x, e), x.todo, poll);
  }

  lemma RestRested(s: System, s': System, t: Task, now: int, ending: Ending, todo: seq<Task>, poll: int)
    requires s'.history == Complete(s, t, now, ending).history && AllCurrent(s, now, [t] + todo)
    requires forall i :: 0 <= i < |[t] + todo| ==> RestedUntil(s, ([t] + todo)[i].page, now, poll)
    ensures forall i :: 0 <= i < |todo| ==> RestedUntil(s', todo[i].page, now, poll)
  {
    var all := [t] + todo;
    forall i | 0 <= i < |todo|
      ensures RestedUntil(s', todo[i].page, now, poll)
    {
      assert all[0].page != all[i + 1].page && RestedUntil(s, all[i + 1].page, now, poll);
      RestedElsewhere(s, s', todo[i].page, now, poll);
    }
  }

  lemma EndRestedHistory(s: System, due: Due, poll: int, r: Replica, e: Event)
    requires Invariant(s) && Enabled(s, e, due) && Ends(e) && Rested(s, r, poll) && RestedHistory(s, poll)
    ensures RestedHistory(Apply(s, e, due, poll), poll)
  {
    var s', x := Apply(s, e, due, poll), s.phase[e.r];
    EndCompletes(s, e, due, poll);
    var h := HistoryOf(s, x.task.page);
    assert Todo(x)[0] == x.task && RestedUntil(s, x.task.page, x.now, poll);
    var h' := h + [Execution(x.now, s.clock, EndingOf(x, e))];
    RestedOneMore(h, Last(h'), poll);
    assert s'.history == s.history[x.task.page := h'];
  }

  lemma RestedOneMore(h: seq<Execution>, x: Execution, poll: int)
    requires RestedRow(h, poll) && forall k :: 0 <= k < |h| ==> h[k].finished + poll <= x.polled
    ensures RestedRow(h + [x], poll)
  {
  }

  lemma StepRested(s: System, e: Event, due: Due, poll: int, r: Replica)
    requires Invariant(s) && Enabled(s, e, due) && !e.Crash? && poll >= 0
    requires Rested(s, r, poll) && RestedHistory(s, poll)
    ensures var s' := Apply(s, e, due, poll); Rested(s', r, poll) && RestedHistory(s', poll)
  {
    if Ends(e) {
      EndRested(s, due, poll, r, e);
      EndRestedHistory(s, due, poll, r, e);
    } else {
      OtherUnchanged(s, e, due, poll);
      if e.FindLocked? || e.AbortPoll? || e.EndPoll? {
        SleepRested(s, due, poll, r, e);
      } else {
        GoRested(s, due, poll, r, e);
      }
    }
  }

  lemma {:induction false} RunRested(start: System, events: seq<Event>, due: Due, poll: int, r: Replica)
    requires Initial(start) && Legal(start, events, due, poll) && NoCrash(events)
    requires start.phase.Keys == {r} && poll >= 0
    ensures var s := Run(start, events, due, poll); Invariant(s) && Rested(s, r, poll) && RestedHistory(s, poll)
  {
    RunInvariant(start, events, due, poll);
    if events != [] {
      assert forall e :: e in Front(events) ==> e in events;
      assert Last(events) in events;
      RunRested(start, Front(events), due, poll, r);
      StepRested(Run(start, Front(events), due, poll), Last(events), due, poll, r);
    }
  }

  // A single replica that polls every minute or slower runs a page at most once a minute, even
  // if its runs go unrecorded.
  lemma SingleReplicaOnceAMinute(start: System, events: seq<Event>, due: Due, poll: int, r: Replica, p: PageId, i: nat)
    requires Initial(start) && Legal(start, events, due, poll) && NoCrash(events)
    requires start.phase.Keys == {r} && poll >= MINUTE && p in Run(start, events, due, poll).pages
    requires i + 1 < |HistoryOf(Run(start, events, due, poll), p)|
    ensures var h := HistoryOf(Run(start, events, due, poll), p);
      h[i + 1].polled / MINUTE > h[i].polled / MINUTE
  {
    RunRested(start, events, due, poll, r);
    RunSpaced(start, events, due, poll, p);
    var s := Run(start, events, due, poll);
    var h := s.history[p];
    assert h[i + 1].polled >= h[i + 1 - 1].finished + poll && h[i].polled <= h[i].finished;
    LaterMinute(h[i].polled, h[i + 1].polled);
  }
}
