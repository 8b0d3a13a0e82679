// What a poll executes: the fetched pages that are due and have not run too recently, and no
// others.
module SchedulerCoverage {
  import opened Prelude
  import opened MinuteSearch
  import opened SchedulerProtocol

  // ---- Everything executed was due ----

  ghost predicate ExecutedDue(s: System, due: Due) {
    (forall r :: r in s.phase ==> DueInHand(s.phase[r], due)) && HistoryDue(s.history, due)
  }

  ghost predicate DueInHand(x: Phase, due: Due) {
    Busy(x) ==> due(x.task.page, x.now / 60_000_000) == Ok(true)
  }

  ghost predicate HistoryDue(history: map<PageId, seq<Execution>>, due: Due) {
    forall p, i :: p in history && 0 <= i < |history[p]| ==> due(p, history[p][i].polled / 60_000_000) == Ok(true)
  }

  lemma StepExecutedDue(s: System, e: Event, due: Due, poll: int)
    requires Invariant(s) && Enabled(s, e, due) && ExecutedDue(s, due)
    ensures ExecutedDue(Apply(s, e, due, poll), due)
  {
    forall r | r in Apply(s, e, due, poll).phase
      ensures DueInHand(Apply(s, e, due, poll).phase[r], due)
    {
      StepInHand(s, e, due, poll, r);
    }
    if Ends(e) {
      EndExecutedDue(s, e, due, poll);
    } else {
      OtherUnchanged(s, e, due, poll);
    }
  }

  lemma StepInHand(s: System, e: Event, due: Due, poll: int, r: Replica)
    requires Enabled(s, e, due) && r in Apply(s, e, due, poll).phase && (r in s.phase ==> DueInHand(s.phase[r], due))
    ensures DueInHand(Apply(s, e, due, poll).phase[r], due)
  {
    if !e.Advance? && r != e.r {
      assert Apply(s, e, due, poll).phase[r] == s.phase[r];
    }
  }

  lemma EndExecutedDue(s: System, e: Event, due: Due, poll: int)
    requires Invariant(s) && Enabled(s, e, due) && Ends(e) && ExecutedDue(s, due)
    ensures HistoryDue(Apply(s, e, due, poll).history, due)
  {
    EndCompletes(s, e, due, poll);
    var x := s.phase[e.r];
    assert DueInHand(x, due);
    var h := HistoryOf(s, x.task.page);
    assert Apply(s, e, due, poll).history == s.history[x.task.page := h + [Execution(x.now, s.clock, EndingOf(x, e))]];
  }

  // In every run, each execution of a page was started for a minute at which the page was due.
  lemma {:induction false} RunsWereDue(start: System, events: seq<Event>, due: Due, poll: int)
    requires Initial(start) && Legal(start, events, due, poll)
    ensures ExecutedDue(Run(start, events, due, poll), due)
  {
    if events != [] {
      RunsWereDue(start, Front(events), due, poll);
      RunInvariant(start, Front(events), due, poll);
      StepExecutedDue(Run(start, Front(events), due, poll), Last(events), due, poll);
    }
  }

  // ---- Everything due is executed ----

  // The page is due at `now`, and its last recorded run, if any, ended 55 s ago or more.
  predicate Wanted(due: Due, s: System, p: PageId, now: int)
    requires p in s.pages
  {
    && due(p, now / 60_000_000) == Ok(true)
    && (s.pages[p].lastRun.Some? ==> now - s.pages[p].lastRun.value >= 55_000_000)
  }

  // One more execution, polled for `now`.
  ghost predicate RanOnce(h: seq<Execution>, h': seq<Execution>, now: int) {
    |h'| == |h| + 1 && h'[..|h|] == h && h'[|h|].polled == now
  }

  // Of the pages fetched at s0, the first k have been handled, the next is perhaps in hand.
  ghost predicate Handled(s0: System, s: System, r: Replica, fetched: seq<PageId>, k: nat, due: Due) {
    && (forall p :: p in fetched ==> p in s0.pages) && Distinct(fetched)
    && r in s.phase && !s.phase[r].Asleep? && s.phase[r].now == s0.clock
    && k <= |fetched| && Todo(s.phase[r]) == Fetch(s0.pages, fetched)[k..]
    && (Busy(s.phase[r]) ==> k < |fetched| && Wanted(due, s0, fetched[k], s0.clock))
    && (forall i :: 0 <= i < k ==>
          if Wanted(due, s0, fetched[i], s0.clock)
          then RanOnce(HistoryOf(s0, fetched[i]), HistoryOf(s, fetched[i]), s0.clock)
          else HistoryOf(s, fetched[i]) == HistoryOf(s0, fetched[i]))
    && forall p :: p !in fetched[..k] ==> HistoryOf(s, p) == HistoryOf(s0, p)
  }

  // The poll of r is neither interrupted nor over.
  predicate Continues(e: Event, r: Replica) {
    e != Crash(r) && e != AbortPoll(r) && e != EndPoll(r)
  }

  lemma StartHandled(s0: System, r: Replica, fetched: seq<PageId>, due: Due, poll: int)
    requires Enabled(s0, TakeLock(r, fetched), due)
    ensures Handled(s0, Apply(s0, TakeLock(r, fetched), due, poll), r, fetched, 0, due)
  {
  }

  // While r holds the lock no other replica executes anything.
  lemma OthersWait(s: System, e: Event, due: Due, poll: int, r: Replica)
    requires Invariant(s) && Enabled(s, e, due) && r in s.phase && !s.phase[r].Asleep?
    requires e.Advance? || e.r != r
    ensures var s' := Apply(s, e, due, poll);
      r in s'.phase && s'.phase[r] == s.phase[r] && s'.history == s.history
  {
    assert s.holder == Some(r);
    if !e.Advance? && e.r in s.phase {
      OnlyHolderActive(s, r, e.r);
    }
  }

  lemma HandledElsewhere(s0: System, s: System, s': System, r: Replica, fetched: seq<PageId>, k: nat, due: Due)
    requires Handled(s0, s, r, fetched, k, due) && r in s'.phase && s'.history == s.history
    requires !s'.phase[r].Asleep? && s'.phase[r].now == s.phase[r].now && Todo(s'.phase[r]) == Todo(s.phase[r])
    requires Busy(s'.phase[r]) ==> k < |fetched| && Wanted(due, s0, fetched[k], s0.clock)
    ensures Handled(s0, s', r, fetched, k, due)
  {
    forall p
      ensures HistoryOf(s', p) == HistoryOf(s, p)
    {
    }
  }

  lemma FetchFirst(s0: System, fetched: seq<PageId>, k: nat)
    requires (forall p :: p in fetched ==> p in s0.pages) && k < |fetched|
    ensures var todo := Fetch(s0.pages, fetched)[k..];
      todo != [] && todo[0] == Task(fetched[k], s0.pages[fetched[k]]) && todo[1..] == Fetch(s0.pages, fetched)[k + 1..]
  {
  }

  lemma SkipHandled(s0: System, s: System, r: Replica, fetched: seq<PageId>, k: nat, due: Due, poll: int)
    requires Handled(s0, s, r, fetched, k, due) && Enabled(s, SkipTask(r), due)
    ensures Handled(s0, Apply(s, SkipTask(r), due, poll), r, fetched, k + 1, due)
  {
    FetchFirst(s0, fetched, k);
    var s' := Apply(s, SkipTask(r), due, poll);
    assert fetched[..k + 1] == fetched[..k] + [fetched[k]];
    assert fetched[k] !in fetched[..k];
    assert !Wanted(due, s0, fetched[k], s0.clock);
    forall p
      ensures HistoryOf(s', p) == HistoryOf(s, p)
    {
    }
  }

  lemma EndHandled(s0: System, s: System, e: Event, fetched: seq<PageId>, k: nat, due: Due, poll: int)
    requires Invariant(s) && Enabled(s, e, due) && Ends(e) && Handled(s0, s, e.r, fetched, k, due)
    ensures Handled(s0, Apply(s, e, due, poll), e.r, fetched, k + 1, due)
  {
    EndCompletes(s, e, due, poll);
    FetchFirst(s0, fetched, k);
    var s', x := Apply(s, e, due, poll), s.phase[e.r];
    assert Todo(x)[0] == x.task && x.task.page == fetched[k];
    EndAddsOne(s, s', x, EndingOf(x, e));
    NextHandled(s0, s, s', e.r, fetched, k, due);
  }

  lemma EndAddsOne(s: System, s': System, x: Phase, ending: Ending)
    requires Busy(x) && s'.history == Complete(s, x.task, x.now, ending).history
    ensures RanOnce(HistoryOf(s, x.task.page), HistoryOf(s', x.task.page), x.now)
    ensures forall p :: p != x.task.page ==> HistoryOf(s', p) == HistoryOf(s, p)
  {
  }

  lemma NextHandled(s0: System, s: System, s': System, r: Replica, fetched: seq<PageId>, k: nat, due: Due)
    requires Handled(s0, s, r, fetched, k, due) && k < |fetched| && Wanted(due, s0, fetched[k], s0.clock)
    requires r in s'.phase && s'.phase[r].Polling? && s'.phase[r].now == s0.clock
    requires Todo(s'.phase[r]) == Fetch(s0.pages, fetched)[k + 1..]
    requires RanOnce(HistoryOf(s, fetched[k]), HistoryOf(s', fetched[k]), s0.clock)
    requires forall p :: p != fetched[k] ==> HistoryOf(s', p) == HistoryOf(s, p)
    ensures Handled(s0, s', r, fetched, k + 1, due)
  {
    assert fetched[..k + 1] == fetched[..k] + [fetched[k]];
    assert fetched[k] !in fetched[..k];
    forall i | 0 <= i < k
      ensures fetched[i] != fetched[k] && HistoryOf(s', fetched[i]) == HistoryOf(s, fetched[i])
    {
    }
  }

  lemma StepHandled(s0: System, s: System, e: Event, r: Replica, fetched: seq<PageId>, k: nat, due: Due, poll: int) returns (k': nat)
    requires Invariant(s) && Enabled(s, e, due) && Handled(s0, s, r, fetched, k, due) && Continues(e, r)
    ensures Handled(s0, Apply(s, e, due, poll), r, fetched, k', due)
  {
    var s' := Apply(s, e, due, poll);
    k' := k;
    if e.Advance? || e.r != r {
      OthersWait(s, e, due, poll, r);
      HandledElsewhere(s0, s, s', r, fetched, k, due);
    } else if e.SkipTask? {
      SkipHandled(s0, s, r, fetched, k, due, poll);
      k' := k + 1;
    } else if Ends(e) {
      EndHandled(s0, s, e, fetched, k, due, poll);
      k' := k + 1;
    } else if e.StartTask? {
      assert k < |fetched|;
      FetchFirst(s0, fetched, k);
      StartKeepsTodo(s, r, due, poll);
      HandledElsewhere(s0, s, s', r, fetched, k, due);
    } else {
      assert e.FailTask?;
      HandledElsewhere(s0, s, s', r, fetched, k, due);
    }
  }

  lemma StartKeepsTodo(s: System, r: Replica, due: Due, poll: int)
    requires Enabled(s, StartTask(r), due)
    ensures Todo(Apply(s, StartTask(r), due, poll).phase[r]) == Todo(s.phase[r])
  {
  }

  lemma {:induction false} PollHandled(start: System, events: seq<Event>, r: Replica, fetched: seq<PageId>, more: seq<Event>,
                                       due: Due, poll: int) returns (k: nat)
    requires Initial(start) && Legal(start, events, due, poll)
    requires var s0 := Run(start, events, due, poll);
      Enabled(s0, TakeLock(r, fetched), due) && Legal(Apply(s0, TakeLock(r, fetched), due, poll), more, due, poll)
    requires forall e :: e in more ==> Continues(e, r)
    ensures var s0 := Run(start, events, due, poll);
      var s := Run(Apply(s0, TakeLock(r, fetched), due, poll), more, due, poll);
      Invariant(s) && Handled(s0, s, r, fetched, k, due)
  {
    var s0 := Run(start, events, due, poll);
    var s1 := Apply(s0, TakeLock(r, fetched), due, poll);
    RunInvariant(start, events, due, poll);
    if more == [] {
      StepInvariant(s0, TakeLock(r, fetched), due, poll);
      StartHandled(s0, r, fetched, due, poll);
      k := 0;
    } else {
      assert forall e :: e in Front(more) ==> e in more;
      assert Last(more) in more;
      k := PollHandled(start, events, r, fetched, Front(more), due, poll);
      StepInvariant(Run(s1, Front(more), due, poll), Last(more), due, poll);
      k := StepHandled(s0, Run(s1, Front(more), due, poll), Last(more), r, fetched, k, due, poll);
    }
  }

  // A poll that comes to the end of its tasks has executed every fetched page that was due and
  // not recent once, for the time of the poll, and no other page; whatever else happened meanwhile.
  lemma PollExact(start: System, events: seq<Event>, r: Replica, fetched: seq<PageId>, more: seq<Event>, due: Due, poll: int, p: PageId)
    requires Initial(start) && Legal(start, events, due, poll)
    requires var s0 := Run(start, events, due, poll);
      Enabled(s0, TakeLock(r, fetched), due) && Legal(Apply(s0, TakeLock(r, fetched), due, poll), more, due, poll)
    requires forall e :: e in more ==> Continues(e, r)
    requires var s0 := Run(start, events, due, poll);
      Enabled(Run(Apply(s0, TakeLock(r, fetched), due, poll), more, due, poll), EndPoll(r), due)
    ensures var s0 := Run(start, events, due, poll);
      var s := Run(Apply(s0, TakeLock(r, fetched), due, poll), more, due, poll);
      if p in fetched && Wanted(due, s0, p, s0.clock) then RanOnce(HistoryOf(s0, p), HistoryOf(s, p), s0.clock)
      else HistoryOf(s, p) == HistoryOf(s0, p)
  {
    var k := PollHandled(start, events, r, fetched, more, due, poll);
    var s0 := Run(start, events, due, poll);
    assert Fetch(s0.pages, fetched)[k..] == [];
    assert fetched[..k] == fetched;
    if p in fetched {
      var i :| 0 <= i < |fetched| && fetched[i] == p;
    }
  }

  // A fetched page that is due and not recent cannot be passed over, and no other can be started.
  lemma GuardExact(s: System, r: Replica, due: Due)
    requires r in s.phase && s.phase[r].Polling? && s.phase[r].todo != [] && !s.phase[r].aborted
    ensures var (t, now) := (s.phase[r].todo[0], s.phase[r].now);
      && (Enabled(s, StartTask(r), due) <==>
            due(t.page, now / 60_000_000) == Ok(true) && (t.schedule.lastRun.Some? ==> now - t.schedule.lastRun.value >= 55_000_000))
      && (Enabled(s, SkipTask(r), due) <==>
            due(t.page, now / 60_000_000).Ok? && !Enabled(s, StartTask(r), due))
      && (Enabled(s, AbortPoll(r), due) <==> due(t.page, now / 60_000_000).Err?)
  {
    var d := due(s.phase[r].todo[0].page, s.phase[r].now / 60_000_000);
    assert d.Ok? ==> d.value == true || d.value == false;
  }

  // ---- Whether an execution can be recorded ----

  // The search of update_task_run goes through unless, within a week, a minute raises before any matches.
  lemma NextFoundIff(due: Due, p: PageId, now: int)
    ensures NextFound(due, p, now) <==>
            !FirstFailure(DueOf(due, p), now / 60_000_000 + 1, now / 60_000_000 + 1 + 10080)
    ensures forall t :: DueOf(due, p)(t) == due(p, t)
  {
    SearchOkIff(DueOf(due, p), now / 60_000_000 + 1, 10080);
  }

  // ---- The lock ----

  // r left a poll by an exception in an aborted transaction, and neither reconnected nor crashed since.
  ghost predicate LeftOpen(start: System, events: seq<Event>, due: Due, poll: int, r: Replica) {
    exists k :: 0 <= k < |events| && LeftAt(start, events, due, poll, r, k)
  }

  ghost predicate LeftAt(start: System, events: seq<Event>, due: Due, poll: int, r: Replica, k: nat)
    requires k < |events|
  {
    var s := Run(start, events[..k], due, poll);
    && events[k] == AbortPoll(r) && r in s.phase && s.phase[r].Polling? && s.phase[r].aborted
    && forall j :: k < j < |events| ==> events[j] != Reconnect(r) && events[j] != Crash(r)
  }

  predicate Awake(s: System, r: Replica) {
    r in s.phase && !s.phase[r].Asleep?
  }

  // What one event does to the lock and to who is polling.
  lemma LockStep(s: System, e: Event, due: Due, poll: int, r: Replica)
    requires LockRespected(s) && Enabled(s, e, due)
    ensures var s' := Apply(s, e, due, poll);
      s'.holder == Some(r) <==>
        || (e.TakeLock? && e.r == r)
        || (s.holder == Some(r) && e != Reconnect(r) && e != Crash(r) && e != EndPoll(r)
            && (e == AbortPoll(r) ==> s.phase[r].aborted))
  {
  }

  lemma AwakeStep(s: System, e: Event, due: Due, poll: int, r: Replica)
    requires Enabled(s, e, due)
    ensures Awake(Apply(s, e, due, poll), r) <==>
              || (e.TakeLock? && e.r == r)
              || (Awake(s, r) && e != Crash(r) && e != EndPoll(r) && e != AbortPoll(r))
    ensures r in Apply(s, e, due, poll).phase <==> r in s.phase
    ensures e == AbortPoll(r) || e == EndPoll(r) ==> Awake(s, r) && s.phase[r].Polling?
    ensures e == Reconnect(r) ==> !Awake(s, r)
    ensures e.TakeLock? ==> s.holder.None?
  {
  }

  // In every run the lock is held by the replica that is polling, or by one that left its
  // session open; otherwise it is free.
  lemma {:induction false} LockHeldIff(start: System, events: seq<Event>, due: Due, poll: int, r: Replica)
    requires Initial(start) && Legal(start, events, due, poll)
    ensures Run(start, events, due, poll).holder == Some(r) <==>
              Awake(Run(start, events, due, poll), r) || LeftOpen(start, events, due, poll, r)
    ensures LeftOpen(start, events, due, poll, r) ==> !Awake(Run(start, events, due, poll), r)
  {
    if events != [] {
      var s, e := Run(start, Front(events), due, poll), Last(events);
      LockHeldIff(start, Front(events), due, poll, r);
      RunInvariant(start, Front(events), due, poll);
      LeftOpenNext(start, events, due, poll, r);
      LockStep(s, e, due, poll, r);
      AwakeStep(s, e, due, poll, r);
      assert Run(start, events, due, poll) == Apply(s, e, due, poll);
    }
  }

  // A replica that wakes up polls when the lock is free, and goes back to sleep when it is not.
  lemma WakeExact(s: System, r: Replica, fetched: seq<PageId>, due: Due)
    requires r in s.phase && s.phase[r].Asleep?
    ensures Enabled(s, FindLocked(r), due) <==> s.phase[r].until <= s.clock && s.holder != None
    ensures Enabled(s, TakeLock(r, fetched), due) <==>
              s.phase[r].until <= s.clock && s.holder == None && Distinct(fetched) && forall p :: p in fetched ==> p in s.pages
  {
  }

  // Whatever ends a poll, the replica sleeps for a whole interval from then; a crash wakes it at once.
  lemma SleepExact(s: System, e: Event, due: Due, poll: int)
    requires Enabled(s, e, due) && !e.Advance?
    ensures Apply(s, e, due, poll).phase[e.r].Asleep? <==> e.FindLocked? || e.AbortPoll? || e.EndPoll? || e.Reconnect? || e.Crash?
    ensures e.FindLocked? || e.AbortPoll? || e.EndPoll? ==> Apply(s, e, due, poll).phase[e.r].until == s.clock + poll
    ensures e.Crash? ==> Apply(s, e, due, poll).phase[e.r].until == s.clock
    ensures forall q :: q in Apply(s, e, due, poll).phase <==> q in s.phase
    ensures forall q :: q in s.phase && q != e.r ==> Apply(s, e, due, poll).phase[q] == s.phase[q]
  {
  }

  // An execution that did not fail, or failed without an SQL error, is recorded when the search
  // goes through; a failed one is lost otherwise.
  lemma EndExact(s: System, r: Replica, due: Due)
    requires r in s.phase && Busy(s.phase[r])
    ensures var x := s.phase[r];
      var aborted := x.Failed? && x.aborted;
      && (Enabled(s, FinishTask(r), due) <==> !aborted && NextFound(due, x.task.page, s.clock))
      && (Enabled(s, LoseTask(r), due) <==> x.Failed? && (aborted || !NextFound(due, x.task.page, s.clock)))
      && (Enabled(s, FailTask(r, true), due) <==> x.Executing?) && (Enabled(s, FailTask(r, false), due) <==> x.Executing?)
  {
  }

  lemma LeftOpenNext(start: System, events: seq<Event>, due: Due, poll: int, r: Replica)
    requires events != []
    ensures var s := Run(start, Front(events), due, poll);
      LeftOpen(start, events, due, poll, r) <==>
        || (Last(events) == AbortPoll(r) && r in s.phase && s.phase[r].Polling? && s.phase[r].aborted)
        || (LeftOpen(start, Front(events), due, poll, r) && Last(events) != Reconnect(r) && Last(events) != Crash(r))
  {
    var before, n := Front(events), |events| - 1;
    assert events[..n] == before;
    forall k | 0 <= k < n
      ensures LeftAt(start, events, due, poll, r, k) <==>
              LeftAt(start, before, due, poll, r, k) && Last(events) != Reconnect(r) && Last(events) != Crash(r)
    {
      assert before[..k] == events[..k] && before[k] == events[k];
      assert forall j :: k < j < n ==> before[j] == events[j];
      assert events[n] == Last(events);
    }
    if LeftOpen(start, events, due, poll, r) {
      var k :| 0 <= k < |events| && LeftAt(start, events, due, poll, r, k);
      assert k < n || k == n;
    }
    if Last(events) == AbortPoll(r) && r in Run(start, before, due, poll).phase
       && Run(start, before, due, poll).phase[r].Polling? && Run(start, before, due, poll).phase[r].aborted {
      assert LeftAt(start, events, due, poll, r, n);
    }
    if LeftOpen(start, before, due, poll, r) && Last(events) != Reconnect(r) && Last(events) != Crash(r) {
      var k :| 0 <= k < n && LeftAt(start, before, due, poll, r, k);
      assert LeftAt(start, events, due, poll, r, k);
    }
  }
}
