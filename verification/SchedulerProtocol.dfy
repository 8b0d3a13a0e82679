// backend/scheduler.py: replicas of the polling loop, the advisory lock they share, and the
// schedule stored with each page. Times are microseconds on one synchronised clock.
module SchedulerProtocol {
  import opened Prelude
  import opened MinuteSearch

  type Replica = nat
  type PageId = nat

  const SECOND: int := 1_000_000
  const MINUTE: int := 60 * SECOND
  const GAP: int := 55 * SECOND  // a page is skipped if it ran less than this ago

  // The stored part of a page's schedule that runs change.
  datatype Schedule = Schedule(lastRun: Option<int>, runCount: nat)

  // A row as fetched at the start of a poll.
  datatype Task = Task(page: PageId, schedule: Schedule)

  // `aborted`: an SQL error left the transaction of this poll aborted; nothing rolls it back.
  datatype Phase =
    | Asleep(until: int)
    | Polling(now: int, todo: seq<Task>, aborted: bool)
    | Executing(now: int, task: Task, todo: seq<Task>)
    | Failed(now: int, task: Task, todo: seq<Task>, aborted: bool)  // in the except branch

  // How an execution ends: update_task_run records it, or fails because its search for the next
  // run raises, or because an SQL error aborted the transaction.
  datatype Ending = Counted | NoNextRun | Aborted

  // One completed execution: the poll time it was started for, when it ended, and how.
  datatype Execution = Execution(polled: int, finished: int, ending: Ending)

  datatype System = System(
    clock: int,
    holder: Option<Replica>,               // the advisory lock
    phase: map<Replica, Phase>,
    pages: map<PageId, Schedule>,
    history: map<PageId, seq<Execution>>)  // completed executions, in order

  // cron_matches for a page's expression at a minute; Err when it raises.
  type Due = (PageId, int) -> Result<bool, ()>

  datatype Event =
    | Advance(elapsed: nat)
    | FindLocked(r: Replica)                      // the lock is taken: sleep again
    | TakeLock(r: Replica, fetched: seq<PageId>)  // lock, read the clock, fetch the tasks
    | SkipTask(r: Replica)                        // not due, or ran too recently
    | StartTask(r: Replica)
    | FailTask(r: Replica, aborts: bool)          // the task or its update raised; an SQL error aborts
    | FinishTask(r: Replica)                      // update_task_run went through
    | LoseTask(r: Replica)                        // the update in the except branch raised as well
    | AbortPoll(r: Replica)                       // an exception leaves the poll: unlock and sleep
    | EndPoll(r: Replica)                         // no tasks left: unlock and sleep
    | Reconnect(r: Replica)                       // the session an aborted poll left open ends
    | Crash(r: Replica)                           // the session ends, and the lock with it

  function TooRecent(s: Schedule, now: int): bool {
    s.lastRun.Some? && now - s.lastRun.value < GAP
  }

  function DueOf(due: Due, p: PageId): Matching {
    minute => due(p, minute)
  }

  // update_task_run first searches for the next run, and the search raises where the matcher does.
  predicate NextFound(due: Due, p: PageId, now: int) {
    Search(DueOf(due, p), now / MINUTE + 1, WEEK).Ok?
  }

  ghost predicate Enabled(s: System, e: Event, due: Due) {
    match e
    case Advance(_) => true
    case FindLocked(r) => r in s.phase && s.phase[r].Asleep? && s.phase[r].until <= s.clock && s.holder.Some?
    case TakeLock(r, fetched) =>
      && r in s.phase && s.phase[r].Asleep? && s.phase[r].until <= s.clock && s.holder.None?
      && Distinct(fetched) && forall p :: p in fetched ==> p in s.pages
    case SkipTask(r) =>
      && r in s.phase && s.phase[r].Polling? && s.phase[r].todo != []
      && var t := s.phase[r].todo[0];
         due(t.page, s.phase[r].now / MINUTE) == Ok(false)
         || (due(t.page, s.phase[r].now / MINUTE) == Ok(true) && TooRecent(t.schedule, s.phase[r].now))
    case StartTask(r) => r in s.phase && s.phase[r].Polling? && !s.phase[r].aborted && NextIsDue(s.phase[r], due)
    case FailTask(r, _) => r in s.phase && s.phase[r].Executing?
    case FinishTask(r) =>
      && r in s.phase && (s.phase[r].Executing? || (s.phase[r].Failed? && !s.phase[r].aborted))
      && NextFound(due, s.phase[r].task.page, s.clock)
    case LoseTask(r) =>
      && r in s.phase && s.phase[r].Failed?
      && (s.phase[r].aborted || !NextFound(due, s.phase[r].task.page, s.clock))
    case AbortPoll(r) =>
      && r in s.phase && s.phase[r].Polling? && s.phase[r].todo != []
      && (due(s.phase[r].todo[0].page, s.phase[r].now / MINUTE).Err? || (s.phase[r].aborted && NextIsDue(s.phase[r], due)))
    case EndPoll(r) => r in s.phase && s.phase[r].Polling? && s.phase[r].todo == []
    case Reconnect(r) => r in s.phase && s.phase[r].Asleep? && s.phase[r].until <= s.clock && s.holder == Some(r)
    case Crash(r) => r in s.phase
  }

  predicate NextIsDue(p: Phase, due: Due)
    requires p.Polling?
  {
    p.todo != [] && due(p.todo[0].page, p.now / MINUTE) == Ok(true) && !TooRecent(p.todo[0].schedule, p.now)
  }

  function Fetch(pages: map<PageId, Schedule>, fetched: seq<PageId>): seq<Task>
    requires forall p :: p in fetched ==> p in pages
  {
    seq(|fetched|, i requires 0 <= i < |fetched| && fetched[i] in pages => Task(fetched[i], pages[fetched[i]]))
  }

  function SetPhase(s: System, r: Replica, p: Phase): System {
    s.(phase := s.phase[r := p])
  }

  function Unlock(s: System, r: Replica): System {
    if s.holder == Some(r) then s.(holder := None) else s
  }

  function HistoryOf(s: System, p: PageId): seq<Execution> {
    GetOr(s.history, p, [])
  }

  // An execution of t ends.
  function Complete(s: System, t: Task, now: int, ending: Ending): System {
    s.(pages := if ending.Counted? then s.pages[t.page := Schedule(Some(s.clock), t.schedule.runCount + 1)] else s.pages,
       history := s.history[t.page := HistoryOf(s, t.page) + [Execution(now, s.clock, ending)]])
  }

  function EndingOf(x: Phase, e: Event): Ending {
    if e.FinishTask? then Counted else if x.Failed? && x.aborted then Aborted else NoNextRun
  }

  // `poll` is POLL_INTERVAL. The unlock fails in an aborted transaction; a poll that ends
  // normally then closes its session, one left by an exception keeps it until it reconnects.
  ghost function Apply(s: System, e: Event, due: Due, poll: int): System
    requires Enabled(s, e, due)
  {
    match e
    case Advance(d) => s.(clock := s.clock + d)
    case FindLocked(r) => SetPhase(s, r, Asleep(s.clock + poll))
    case TakeLock(r, fetched) => SetPhase(s, r, Polling(s.clock, Fetch(s.pages, fetched), false)).(holder := Some(r))
    case SkipTask(r) => SetPhase(s, r, Polling(s.phase[r].now, s.phase[r].todo[1..], s.phase[r].aborted))
    case StartTask(r) => SetPhase(s, r, Executing(s.phase[r].now, s.phase[r].todo[0], s.phase[r].todo[1..]))
    case FailTask(r, aborts) => SetPhase(s, r, Failed(s.phase[r].now, s.phase[r].task, s.phase[r].todo, aborts))
    case FinishTask(r) =>
      var x := s.phase[r];
      Complete(SetPhase(s, r, Polling(x.now, x.todo, false)), x.task, x.now, Counted)
    case LoseTask(r) =>
      var x := s.phase[r];
      Complete(SetPhase(s, r, Polling(x.now, x.todo, x.aborted)), x.task, x.now, EndingOf(x, e))
    case AbortPoll(r) =>
      var s' := SetPhase(s, r, Asleep(s.clock + poll));
      if s.phase[r].aborted then s' else Unlock(s', r)
    case EndPoll(r) => Unlock(SetPhase(s, r, Asleep(s.clock + poll)), r)
    case Reconnect(r) => Unlock(s, r)
    case Crash(r) => Unlock(SetPhase(s, r, Asleep(s.clock)), r)
  }

  // ---- The invariant ----

  function Todo(p: Phase): seq<Task> {
    match p
    case Asleep(_) => []
    case Polling(_, todo, _) => todo
    case Executing(_, task, todo) => [task] + todo
    case Failed(_, task, todo, _) => [task] + todo
  }

  predicate Busy(p: Phase) {
    p.Executing? || p.Failed?
  }

  // The recorded ones, in order.
  function Kept(h: seq<Execution>): seq<Execution> {
    if h == [] then [] else Kept(Front(h)) + (if Last(h).ending.Counted? then [Last(h)] else [])
  }

  // A fetched row still to be handled is up to date, and its page has not run since the poll began.
  ghost predicate Current(s: System, now: int, t: Task) {
    && t.page in s.pages && s.pages[t.page] == t.schedule
    && forall k :: 0 <= k < |HistoryOf(s, t.page)| ==> HistoryOf(s, t.page)[k].finished <= now
  }

  ghost predicate AllCurrent(s: System, now: int, todo: seq<Task>) {
    && (forall i, j :: 0 <= i < j < |todo| ==> todo[i].page != todo[j].page)
    && forall i :: 0 <= i < |todo| ==> Current(s, now, todo[i])
  }

  ghost predicate Fresh(s: System, r: Replica)
    requires r in s.phase
  {
    !s.phase[r].Asleep? ==> AllCurrent(s, s.phase[r].now, Todo(s.phase[r]))
  }

  // A later execution was polled for after every earlier one had ended, and 55 s after every
  // earlier one that was recorded.
  ghost predicate Spaced(h: seq<Execution>, clock: int) {
    && (forall i :: 0 <= i < |h| ==> h[i].polled <= h[i].finished <= clock)
    && forall i, j :: 0 <= i < j < |h| ==> h[j].polled >= h[i].finished + if h[i].ending.Counted? then GAP else 0
  }

  // What a page stores is the summary of its recorded executions.
  ghost predicate Recorded(s: System, p: PageId)
    requires p in s.pages
  {
    var h := HistoryOf(s, p);
    && s.pages[p].runCount == |Kept(h)|
    && s.pages[p].lastRun == (if Kept(h) == [] then None else Some(Last(Kept(h)).finished))
    && Spaced(h, s.clock)
  }

  ghost predicate LockRespected(s: System) {
    forall r :: r in s.phase && !s.phase[r].Asleep? ==> s.holder == Some(r) && s.phase[r].now <= s.clock
  }

  ghost predicate Invariant(s: System) {
    && LockRespected(s)
    && (forall r :: r in s.phase ==> Fresh(s, r))
    && (forall p :: p in s.pages ==> Recorded(s, p))
    && (forall r :: r in s.phase && Busy(s.phase[r]) ==> !TooRecent(s.phase[r].task.schedule, s.phase[r].now))
  }

  // Nothing has run yet; replicas start polling at any time.
  ghost predicate Initial(s: System) {
    && s.holder.None?
    && (forall r :: r in s.phase ==> s.phase[r].Asleep?)
    && (forall p :: p in s.pages ==> s.pages[p] == Schedule(None, 0))
    && s.history == map[]
  }

  lemma OnlyHolderActive(s: System, r: Replica, q: Replica)
    requires LockRespected(s) && r in s.phase && q in s.phase && !s.phase[r].Asleep? && q != r
    ensures s.phase[q].Asleep?
  {
  }

  lemma {:induction false} KeptLast(h: seq<Execution>, clock: int, i: nat)
    requires Spaced(h, clock) && i < |h| && h[i].ending.Counted?
    ensures Kept(h) != [] && Last(Kept(h)).finished >= h[i].finished
    ensures Last(Kept(h)) in h && Last(Kept(h)).ending.Counted?
  {
    if !Last(h).ending.Counted? {
      KeptLast(Front(h), clock, i);
      assert Kept(h) == Kept(Front(h));
      assert forall x :: x in Front(h) ==> x in h;
    } else if i < |h| - 1 {
      assert h[|h| - 1].polled >= h[i].finished;
    }
  }

  lemma KeptOneMore(h: seq<Execution>, x: Execution)
    ensures Kept(h + [x]) == Kept(h) + if x.ending.Counted? then [x] else []
  {
    assert Front(h + [x]) == h;
  }

  lemma OneMoreExecution(h: seq<Execution>, clock: int, now: int, ending: Ending)
    requires Spaced(h, clock) && now <= clock && forall k :: 0 <= k < |h| ==> h[k].finished <= now
    requires Kept(h) != [] ==> now - Last(Kept(h)).finished >= GAP
    ensures Spaced(h + [Execution(now, clock, ending)], clock)
  {
    forall i | 0 <= i < |h|
      ensures now >= h[i].finished + if h[i].ending.Counted? then GAP else 0
    {
      if h[i].ending.Counted? {
        KeptLast(h, clock, i);
      }
    }
  }

  // ---- Steps ----

  // A task ends, recorded or not.
  predicate Ends(e: Event) {
    e.FinishTask? || e.LoseTask?
  }

  lemma EndCompletes(s: System, e: Event, due: Due, poll: int)
    requires Invariant(s) && Enabled(s, e, due) && Ends(e)
    ensures var x, s' := s.phase[e.r], Apply(s, e, due, poll);
      && Busy(x) && Current(s, x.now, x.task) && x.now <= s.clock && !TooRecent(x.task.schedule, x.now)
      && s' == SetPhase(Complete(s, x.task, x.now, EndingOf(x, e)), e.r, s'.phase[e.r])
      && !s'.phase[e.r].Asleep? && s'.phase[e.r].now == x.now && Todo(s'.phase[e.r]) == x.todo
  {
    assert Todo(s.phase[e.r])[0] == s.phase[e.r].task;
  }

  lemma OtherUnchanged(s: System, e: Event, due: Due, poll: int)
    requires Enabled(s, e, due) && !Ends(e)
    ensures var s' := Apply(s, e, due, poll); s'.pages == s.pages && s'.history == s.history && s.clock <= s'.clock
  {
  }

  lemma CompleteKeepsRecorded(s: System, t: Task, now: int, ending: Ending, p: PageId)
    requires p in s.pages && Recorded(s, p) && Current(s, now, t)
    requires now <= s.clock && !TooRecent(t.schedule, now)
    ensures Recorded(Complete(s, t, now, ending), p)
  {
    var s', h := Complete(s, t, now, ending), HistoryOf(s, p);
    if p == t.page {
      var x := Execution(now, s.clock, ending);
      OneMoreExecution(h, s.clock, now, ending);
      KeptOneMore(h, x);
      assert HistoryOf(s', p) == h + [x];
    } else {
      assert HistoryOf(s', p) == h && s'.pages[p] == s.pages[p];
    }
  }

  lemma EndKeepsFresh(s: System, e: Event, due: Due, poll: int, q: Replica)
    requires Invariant(s) && Enabled(s, e, due) && Ends(e) && q in s.phase
    ensures Fresh(Apply(s, e, due, poll), q)
  {
    EndCompletes(s, e, due, poll);
    if q == e.r {
      var x := s.phase[q];
      assert Fresh(s, q);
      RestCurrent(s, Apply(s, e, due, poll), x.task, x.now, EndingOf(x, e), x.todo);
    } else {
      OnlyHolderActive(s, e.r, q);
    }
  }

  lemma RestCurrent(s: System, s': System, t: Task, now: int, ending: Ending, todo: seq<Task>)
    requires s'.pages == Complete(s, t, now, ending).pages && s'.history == Complete(s, t, now, ending).history
    requires AllCurrent(s, now, [t] + todo)
    ensures AllCurrent(s', now, todo)
  {
    var all := [t] + todo;
    forall i | 0 <= i < |todo|
      ensures Current(s', now, todo[i])
    {
      assert all[0].page != all[i + 1].page && Current(s, now, all[i + 1]);
      CompleteElsewhere(s, s', t, now, ending, todo[i]);
    }
    forall i, j | 0 <= i < j < |todo|
      ensures todo[i].page != todo[j].page
    {
      assert all[i + 1].page != all[j + 1].page;
    }
  }

  lemma CompleteElsewhere(s: System, s': System, t: Task, now: int, ending: Ending, u: Task)
    requires s'.pages == Complete(s, t, now, ending).pages && s'.history == Complete(s, t, now, ending).history
    requires Current(s, now, u) && u.page != t.page
    ensures Current(s', now, u)
  {
    assert HistoryOf(s', u.page) == HistoryOf(s, u.page);
  }

  lemma TakeLockKeepsFresh(s: System, r: Replica, fetched: seq<PageId>, due: Due, poll: int, q: Replica)
    requires Invariant(s) && Enabled(s, TakeLock(r, fetched), due) && q in s.phase
    ensures Fresh(Apply(s, TakeLock(r, fetched), due, poll), q)
  {
    var s' := Apply(s, TakeLock(r, fetched), due, poll);
    if q == r {
      var todo := Fetch(s.pages, fetched);
      forall i | 0 <= i < |todo|
        ensures Current(s', s.clock, todo[i])
      {
        assert Recorded(s, fetched[i]);
      }
    } else {
      assert s'.phase[q] == s.phase[q] && s.phase[q].Asleep?;
    }
  }

  lemma CurrentElsewhere(s: System, s': System, now: int, t: Task)
    requires s'.pages == s.pages && s'.history == s.history && Current(s, now, t)
    ensures Current(s', now, t)
  {
    assert HistoryOf(s', t.page) == HistoryOf(s, t.page);
  }

  lemma RecordedElsewhere(s: System, s': System, p: PageId)
    requires s'.pages == s.pages && s'.history == s.history && s.clock <= s'.clock && p in s.pages && Recorded(s, p)
    ensures Recorded(s', p)
  {
    assert HistoryOf(s', p) == HistoryOf(s, p);
  }

  // The other events drop fetched rows, or move the first one.
  lemma DropKeepsFresh(s: System, e: Event, due: Due, poll: int, q: Replica)
    requires Enabled(s, e, due) && !Ends(e) && !e.TakeLock? && q in Apply(s, e, due, poll).phase
    requires q in s.phase ==> Fresh(s, q)
    ensures q in s.phase && Fresh(Apply(s, e, due, poll), q)
  {
    var s' := Apply(s, e, due, poll);
    if !s'.phase[q].Asleep? {
      var a, b := Todo(s.phase[q]), Todo(s'.phase[q]);
      assert s'.phase[q].now == s.phase[q].now && (b == a || (a != [] && b == a[1..]));
      assert s'.pages == s.pages && s'.history == s.history;
      forall i | 0 <= i < |b|
        ensures Current(s', s'.phase[q].now, b[i])
      {
        assert Current(s, s.phase[q].now, b[i]);
        CurrentElsewhere(s, s', s.phase[q].now, b[i]);
      }
    }
  }

  lemma StepFresh(s: System, e: Event, due: Due, poll: int)
    requires Invariant(s) && Enabled(s, e, due)
    ensures var s' := Apply(s, e, due, poll); forall q :: q in s'.phase ==> Fresh(s', q)
  {
    var s' := Apply(s, e, due, poll);
    forall q | q in s'.phase
      ensures Fresh(s', q)
    {
      if Ends(e) {
        EndKeepsFresh(s, e, due, poll, q);
      } else if e.TakeLock? {
        TakeLockKeepsFresh(s, e.r, e.fetched, due, poll, q);
      } else {
        DropKeepsFresh(s, e, due, poll, q);
      }
    }
  }

  lemma RecordedAfter(s: System, e: Event, due: Due, poll: int, p: PageId)
    requires Invariant(s) && Enabled(s, e, due) && p in s.pages
    ensures p in Apply(s, e, due, poll).pages && Recorded(Apply(s, e, due, poll), p)
  {
    var s' := Apply(s, e, due, poll);
    assert Recorded(s, p);
    if Ends(e) {
      var x := s.phase[e.r];
      EndCompletes(s, e, due, poll);
      CompleteKeepsRecorded(s, x.task, x.now, EndingOf(x, e), p);
      RecordedElsewhere(Complete(s, x.task, x.now, EndingOf(x, e)), s', p);
    } else {
      OtherUnchanged(s, e, due, poll);
      RecordedElsewhere(s, s', p);
    }
  }

  lemma SamePages(s: System, e: Event, due: Due, poll: int)
    requires Invariant(s) && Enabled(s, e, due)
    ensures Apply(s, e, due, poll).pages.Keys == s.pages.Keys
  {
    if Ends(e) {
      EndCompletes(s, e, due, poll);
    } else {
      OtherUnchanged(s, e, due, poll);
    }
  }

  lemma StepRecorded(s: System, e: Event, due: Due, poll: int)
    requires Invariant(s) && Enabled(s, e, due)
    ensures var s' := Apply(s, e, due, poll); forall p :: p in s'.pages ==> Recorded(s', p)
  {
    SamePages(s, e, due, poll);
    forall p | p in s.pages
      ensures Recorded(Apply(s, e, due, poll), p)
    {
      RecordedAfter(s, e, due, poll, p);
    }
  }

  lemma StepLock(s: System, e: Event, due: Due, poll: int)
    requires Invariant(s) && Enabled(s, e, due)
    ensures var s' := Apply(s, e, due, poll);
      && LockRespected(s')
      && (forall r :: r in s'.phase && Busy(s'.phase[r]) ==> !TooRecent(s'.phase[r].task.schedule, s'.phase[r].now))
  {
    var s' := Apply(s, e, due, poll);
    forall q | q in s'.phase && !s'.phase[q].Asleep?
      ensures s'.holder == Some(q) && s'.phase[q].now <= s'.clock
      ensures Busy(s'.phase[q]) ==> !TooRecent(s'.phase[q].task.schedule, s'.phase[q].now)
    {
      if !e.Advance? && q != e.r {
        assert s'.phase[q] == s.phase[q];
        assert s.holder == Some(q);
      }
    }
  }

  lemma StepInvariant(s: System, e: Event, due: Due, poll: int)
    requires Invariant(s) && Enabled(s, e, due)
    ensures Invariant(Apply(s, e, due, poll))
  {
    StepFresh(s, e, due, poll);
    StepRecorded(s, e, due, poll);
    StepLock(s, e, due, poll);
  }

  // ---- Every run ----

  ghost predicate Legal(start: System, events: seq<Event>, due: Due, poll: int) {
    events != [] ==>
      Legal(start, Front(events), due, poll) && Enabled(Run(start, Front(events), due, poll), Last(events), due)
  }

  ghost function Run(start: System, events: seq<Event>, due: Due, poll: int): System {
    if events == [] then start
    else
      var before := Run(start, Front(events), due, poll);
      if Enabled(before, Last(events), due) then Apply(before, Last(events), due, poll) else before
  }

  lemma {:induction false} RunInvariant(start: System, events: seq<Event>, due: Due, poll: int)
    requires Initial(start) && Legal(start, events, due, poll)
    ensures Invariant(Run(start, events, due, poll))
  {
    if events != [] {
      RunInvariant(start, Front(events), due, poll);
      StepInvariant(Run(start, Front(events), due, poll), Last(events), due, poll);
    }
  }

  // In every interleaving at most one replica is between taking the lock and releasing it.
  lemma AtMostOneRunsTasks(start: System, events: seq<Event>, due: Due, poll: int, r: Replica, q: Replica)
    requires Initial(start) && Legal(start, events, due, poll)
    requires var s := Run(start, events, due, poll);
      r in s.phase && q in s.phase && !s.phase[r].Asleep? && !s.phase[q].Asleep?
    ensures r == q
  {
    RunInvariant(start, events, due, poll);
  }

  lemma {:induction false} KeptAllIff(h: seq<Execution>)
    ensures |Kept(h)| <= |h|
    ensures |Kept(h)| == |h| <==> forall i :: 0 <= i < |h| ==> h[i].ending.Counted?
  {
    if h != [] {
      KeptAllIff(Front(h));
      assert forall i :: 0 <= i < |h| - 1 ==> h[i] == Front(h)[i];
    }
  }

  // run_count is the number of recorded executions, and last_run the end of the latest of them;
  // it counts the completed executions exactly when all of them were recorded.
  lemma RunCountIsHistoryIff(start: System, events: seq<Event>, due: Due, poll: int, p: PageId)
    requires Initial(start) && Legal(start, events, due, poll) && p in Run(start, events, due, poll).pages
    ensures var s := Run(start, events, due, poll);
      var h := HistoryOf(s, p);
      && s.pages[p].runCount == |Kept(h)|
      && s.pages[p].lastRun == (if Kept(h) == [] then None else Some(Last(Kept(h)).finished))
      && (s.pages[p].runCount == |h| <==> forall i :: 0 <= i < |h| ==> h[i].ending.Counted?)
  {
    RunInvariant(start, events, due, poll);
    assert Recorded(Run(start, events, due, poll), p);
    KeptAllIff(HistoryOf(Run(start, events, due, poll), p));
  }

  // ---- Why an execution is not recorded ----

  ghost predicate EndingsExplained(s: System, due: Due) {
    forall p, i :: p in s.history && 0 <= i < |s.history[p]| ==>
      var x := s.history[p][i];
      x.ending.Counted? <==> !x.ending.Aborted? && NextFound(due, p, x.finished)
  }

  lemma StepExplained(s: System, e: Event, due: Due, poll: int)
    requires Invariant(s) && Enabled(s, e, due) && EndingsExplained(s, due)
    ensures EndingsExplained(Apply(s, e, due, poll), due)
  {
    if Ends(e) {
      EndCompletes(s, e, due, poll);
    } else {
      OtherUnchanged(s, e, due, poll);
    }
  }

  // In every run an execution is recorded exactly when no SQL error aborted it and the search
  // for the next run from its finish does not raise.
  lemma {:induction false} RecordedIff(start: System, events: seq<Event>, due: Due, poll: int)
    requires Initial(start) && Legal(start, events, due, poll)
    ensures EndingsExplained(Run(start, events, due, poll), due)
  {
    if events != [] {
      RecordedIff(start, Front(events), due, poll);
      RunInvariant(start, Front(events), due, poll);
      StepExplained(Run(start, Front(events), due, poll), Last(events), due, poll);
    }
  }
}
