// backend/service_manager.py: the polling loop that keeps one process per flagged page.
module ServiceSupervisor {
  import opened Prelude

  type PageId = nat
  type Process = nat  // identity of a spawned process

  // A flagged page: Python code as written, or a visual flow with the code generated from it.
  datatype Page =
    | Python(id: PageId, code: string)
    | Visual(id: PageId, generated: Option<string>)

  // The page that a process was started for, and the script it was started with.
  datatype Spawned = Spawned(page: PageId, code: string)

  datatype Manager = Manager(
    processes: map<PageId, Process>,  // _processes: the tracked process of each page
    live: map<Process, Spawned>,      // spawned and still running
    scripts: map<PageId, string>,     // content of svc_<id>.py on disk
    next: Process)                    // processes spawned so far

  // What strip() strips, within ASCII.
  predicate IsSpace(c: char) {
    c == ' ' || '\t' <= c <= '\r' || '\U{1C}' <= c <= '\U{1F}'
  }

  predicate Blank(code: string) {
    forall c :: c in code ==> IsSpace(c)
  }

  // The script to run; none when there is no code.
  function ScriptOf(page: Page): Option<string> {
    match page
    case Python(_, code) => if Blank(code) then None else Some(code)
    case Visual(_, generated) => if generated == Some("") then None else generated
  }

  // Reading a text file turns "\r\n" and "\r" into "\n".
  function UniversalNewlines(s: string): string {
    if s == "" then ""
    else if s[0] == '\r' then "\n" + UniversalNewlines(if |s| > 1 && s[1] == '\n' then s[2..] else s[1..])
    else [s[0]] + UniversalNewlines(s[1..])
  }

  // start_service: writes the script, then spawns; `spawns` tells whether Popen succeeds.
  function Start(m: Manager, page: Page, spawns: bool): (Manager, Option<Process>) {
    match ScriptOf(page)
    case None => (m, None)
    case Some(script) =>
      var m' := m.(scripts := m.scripts[page.id := script]);
      if spawns then (m'.(live := m.live[m.next := Spawned(page.id, script)], next := m.next + 1), Some(m.next)) else (m', None)
  }

  // stop_service: the process is gone afterwards, its script deleted, the page untracked.
  function Stop(m: Manager, id: PageId): Manager {
    if id !in m.processes then m
    else m.(live := m.live - {m.processes[id]}, scripts := m.scripts - {id}, processes := m.processes - {id})
  }

  function StartAndTrack(m: Manager, page: Page, spawns: bool): Manager {
    var (m', proc) := Start(m, page, spawns);
    if proc.Some? then m'.(processes := m'.processes[page.id := proc.value]) else m'
  }

  predicate CodeChanged(m: Manager, page: Page) {
    page.Python? && page.code != "" && page.id in m.scripts && UniversalNewlines(m.scripts[page.id]) != page.code
  }

  // One iteration over a flagged page.
  function PollPage(m: Manager, page: Page, spawns: bool): Manager {
    if page.id in m.processes then
      if m.processes[page.id] !in m.live then
        var (m', proc) := Start(m, page, spawns);
        if proc.Some? then m'.(processes := m'.processes[page.id := proc.value])
        else m'.(processes := m'.processes - {page.id})
      else if CodeChanged(m, page) then StartAndTrack(Stop(m, page.id), page, spawns)
      else m
    else StartAndTrack(m, page, spawns)
  }

  // The pages in order; `spawning` are those whose Popen succeeds during this poll.
  function PollPages(m: Manager, pages: seq<Page>, spawning: set<PageId>): Manager {
    if pages == [] then m
    else PollPage(PollPages(m, Front(pages), spawning), Last(pages), Last(pages).id in spawning)
  }

  function IdsOf(pages: seq<Page>): set<PageId> {
    set p | p in pages :: p.id
  }

  // Stopping every tracked page that is no longer flagged.
  function Sweep(m: Manager, flagged: set<PageId>): Manager {
    StopAll(m, m.processes.Keys - flagged)
  }

  function ProcessesOf(m: Manager, ids: set<PageId>): set<Process> {
    set id | id in ids && id in m.processes :: m.processes[id]
  }

  function StopAll(m: Manager, gone: set<PageId>): Manager {
    m.(live := m.live - ProcessesOf(m, gone), scripts := m.scripts - gone, processes := m.processes - gone)
  }

  function Poll(m: Manager, pages: seq<Page>, spawning: set<PageId>): Manager {
    Sweep(PollPages(m, pages, spawning), IdsOf(pages))
  }

  // Every live process is the tracked process of its page; tracked pages have a script.
  ghost predicate Tracked(m: Manager) {
    && (forall q :: q in m.live ==> q < m.next && m.live[q].page in m.processes && m.processes[m.live[q].page] == q)
    && (forall id :: id in m.processes ==> m.processes[id] < m.next && id in m.scripts)
    && (forall a, b :: a in m.processes && b in m.processes && a != b ==> m.processes[a] != m.processes[b])
  }

  // The script on disk is the one that the page's live process was started with.
  ghost predicate ScriptsKept(m: Manager) {
    forall q :: q in m.live ==>
      m.live[q].code != "" && m.live[q].page in m.scripts && m.scripts[m.live[q].page] == m.live[q].code
  }

  ghost predicate Supervised(m: Manager) {
    Tracked(m) && ScriptsKept(m)
  }

  lemma NoneLive(m: Manager, id: PageId)
    requires Tracked(m) && (id in m.processes ==> m.processes[id] !in m.live)
    ensures forall q :: q in m.live ==> m.live[q].page != id
  {
  }

  lemma WrittenSupervised(m: Manager, id: PageId, script: string)
    requires Supervised(m) && (id in m.processes ==> m.processes[id] !in m.live)
    ensures Supervised(m.(scripts := m.scripts[id := script]))
  {
    NoneLive(m, id);
  }

  lemma LaunchedSupervised(m: Manager, id: PageId, script: string)
    requires Supervised(m) && (id in m.processes ==> m.processes[id] !in m.live)
    requires script != "" && id in m.scripts && m.scripts[id] == script
    ensures Supervised(m.(processes := m.processes[id := m.next],
                          live := m.live[m.next := Spawned(id, script)], next := m.next + 1))
  {
    NoneLive(m, id);
  }

  lemma StartAndTrackSupervised(m: Manager, page: Page, spawns: bool)
    requires Supervised(m) && (page.id in m.processes ==> m.processes[page.id] !in m.live)
    ensures Supervised(StartAndTrack(m, page, spawns))
  {
    match ScriptOf(page)
    case None =>
    case Some(script) =>
      WrittenSupervised(m, page.id, script);
      if spawns {
        LaunchedSupervised(m.(scripts := m.scripts[page.id := script]), page.id, script);
      }
  }

  lemma UntrackDeadSupervised(m: Manager, id: PageId)
    requires Supervised(m) && id in m.processes && m.processes[id] !in m.live
    ensures Supervised(m.(processes := m.processes - {id}))
  {
  }

  lemma StopSupervised(m: Manager, id: PageId)
    requires Supervised(m)
    ensures Supervised(Stop(m, id)) && id !in Stop(m, id).processes
  {
  }

  // A started process is a new one, live for its page and running its code; every other
  // process, script and tracked page is as it was.
  lemma StartIsFresh(m: Manager, page: Page, spawns: bool)
    requires Supervised(m)
    ensures var (m', proc) := Start(m, page, spawns);
      && (proc.Some? <==> spawns && ScriptOf(page).Some?)
      && (proc.Some? ==> proc.value !in m.live && m'.live == m.live[proc.value := Spawned(page.id, ScriptOf(page).value)]
                         && m'.scripts[page.id] == ScriptOf(page).value
                         && forall id :: id in m.processes ==> m.processes[id] != proc.value)
      && (proc.None? ==> m'.live == m.live)
      && m'.processes == m.processes && m'.scripts - {page.id} == m.scripts - {page.id}
  {
  }

  // A stopped page has no process, no script and no entry; other pages keep theirs.
  lemma StopEndsPage(m: Manager, id: PageId)
    requires Supervised(m)
    ensures var m' := Stop(m, id);
      && (forall q :: q in m'.live <==> q in m.live && m.live[q].page != id)
      && (forall q :: q in m'.live ==> m'.live[q] == m.live[q])
      && m'.processes == m.processes - {id} && (id in m.processes ==> m'.scripts == m.scripts - {id})
      && (id !in m.processes ==> m' == m)
  {
    if id !in m.processes {
      assert m.processes - {id} == m.processes;
    }
  }

  lemma PollPageSupervised(m: Manager, page: Page, spawns: bool)
    requires Supervised(m)
    ensures Supervised(PollPage(m, page, spawns))
    ensures PollPage(m, page, spawns).processes.Keys <= m.processes.Keys + {page.id}
  {
    if page.id !in m.processes {
      StartAndTrackSupervised(m, page, spawns);
    } else if m.processes[page.id] !in m.live {
      StartAndTrackSupervised(m, page, spawns);
      var m' := StartAndTrack(m, page, spawns);
      if Start(m, page, spawns).1.None? {
        UntrackDeadSupervised(m', page.id);
      }
    } else {
      StopSupervised(m, page.id);
      StartAndTrackSupervised(Stop(m, page.id), page, spawns);
    }
  }

  lemma {:induction false} PollPagesSupervised(m: Manager, pages: seq<Page>, spawning: set<PageId>)
    requires Supervised(m)
    ensures Supervised(PollPages(m, pages, spawning))
    ensures PollPages(m, pages, spawning).processes.Keys <= m.processes.Keys + IdsOf(pages)
  {
    if pages != [] {
      PollPagesSupervised(m, Front(pages), spawning);
      PollPageSupervised(PollPages(m, Front(pages), spawning), Last(pages), Last(pages).id in spawning);
    }
  }

  lemma SweepSupervised(m: Manager, flagged: set<PageId>)
    requires Supervised(m)
    ensures Supervised(Sweep(m, flagged)) && Sweep(m, flagged).processes.Keys <= flagged
  {
  }

  // ---- The loop itself ----

  class ServiceManager {
    var processes: map<PageId, Process>
    var live: map<Process, Spawned>
    var scripts: map<PageId, string>
    var next: Process

    ghost function State(): Manager
      reads this
    {
      Manager(processes, live, scripts, next)
    }

    constructor ()
      ensures State() == Manager(map[], map[], map[], 0) && Supervised(State())
    {
      processes, live, scripts, next := map[], map[], map[], 0;
    }

    method StartService(page: Page, spawns: bool) returns (proc: Option<Process>)
      modifies this
      ensures (State(), proc) == Start(old(State()), page, spawns)
    {
      var script := ScriptOf(page);
      if script.None? {
        return None;
      }
      scripts := scripts[page.id := script.value];
      if !spawns {
        return None;
      }
      proc := Some(next);
      live := live[next := Spawned(page.id, script.value)];
      next := next + 1;
    }

    method StopService(id: PageId)
      modifies this
      ensures State() == Stop(old(State()), id)
    {
      if id in processes {
        if processes[id] in live {
          live := live - {processes[id]};
        }
        if id in scripts {
          scripts := scripts - {id};
        }
      }
      processes := processes - {id};
    }

    method VisitPage(page: Page, spawns: bool)
      requires Supervised(State())
      modifies this
      ensures State() == PollPage(old(State()), page, spawns) && Supervised(State())
    {
      PollPageSupervised(State(), page, spawns);
      if page.id in processes {
        if processes[page.id] !in live {
          var proc := StartService(page, spawns);
          if proc.Some? {
            processes := processes[page.id := proc.value];
          } else {
            processes := processes - {page.id};
          }
        } else if page.Python? && page.code != "" && page.id in scripts && UniversalNewlines(scripts[page.id]) != page.code {
          StopService(page.id);
          var proc := StartService(page, spawns);
          if proc.Some? {
            processes := processes[page.id := proc.value];
          }
        }
      } else {
        var proc := StartService(page, spawns);
        if proc.Some? {
          processes := processes[page.id := proc.value];
        }
      }
    }

    method RunPoll(pages: seq<Page>, spawning: set<PageId>)
      requires Supervised(State())
      modifies this
      ensures State() == Poll(old(State()), pages, spawning) && Supervised(State())
    {
      for i := 0 to |pages|
        invariant Supervised(State()) && State() == PollPages(old(State()), pages[..i], spawning)
      {
        assert Front(pages[..i + 1]) == pages[..i];
        VisitPage(pages[i], pages[i].id in spawning);
      }
      assert pages[..|pages|] == pages;
      ghost var m := State();
      SweepSupervised(m, IdsOf(pages));
      var todo := processes.Keys - IdsOf(pages);
      ghost var all, done: set<PageId> := todo, {};
      StopNone(m);
      while todo != {}
        invariant done + todo == all && done !! todo
        invariant State() == StopAll(m, done)
        decreases todo
      {
        var id :| id in todo;
        StopOneMore(m, done, id);
        StopService(id);
        todo, done := todo - {id}, done + {id};
      }
      assert done == all;
    }
  }

  lemma StopNone(m: Manager)
    ensures StopAll(m, {}) == m
  {
    assert ProcessesOf(m, {}) == {};
    assert m.live - {} == m.live && m.scripts - {} == m.scripts && m.processes - {} == m.processes;
  }

  lemma StopOneMore(m: Manager, done: set<PageId>, id: PageId)
    requires id in m.processes && id !in done
    ensures Stop(StopAll(m, done), id) == StopAll(m, done + {id})
  {
    var a, b := Stop(StopAll(m, done), id), StopAll(m, done + {id});
    assert ProcessesOf(m, done + {id}) == ProcessesOf(m, done) + {m.processes[id]};
    assert a.live == b.live && a.scripts == b.scripts && a.processes == b.processes;
  }

  // ---- Every run ----

  datatype Event =
    | Die(process: Process)                                                  // a process exits by itself
    | CompletePoll(pages: seq<Page>, spawning: set<PageId>)
    | BrokenPoll(pages: seq<Page>, spawning: set<PageId>)  // an exception after these pages: no sweep

  function Apply(m: Manager, e: Event): Manager {
    match e
    case Die(q) => m.(live := m.live - {q})
    case CompletePoll(pages, spawning) => Poll(m, pages, spawning)
    case BrokenPoll(pages, spawning) => PollPages(m, pages, spawning)
  }

  function Run(events: seq<Event>): Manager {
    if events == [] then Manager(map[], map[], map[], 0) else Apply(Run(Front(events)), Last(events))
  }

  lemma {:induction false} RunSupervised(events: seq<Event>)
    ensures Supervised(Run(events))
  {
    if events != [] {
      RunSupervised(Front(events));
      match Last(events)
      case Die(_) =>
      case CompletePoll(pages, spawning) =>
        PollPagesSupervised(Run(Front(events)), pages, spawning);
        SweepSupervised(PollPages(Run(Front(events)), pages, spawning), IdsOf(pages));
      case BrokenPoll(pages, spawning) => PollPagesSupervised(Run(Front(events)), pages, spawning);
    }
  }

  // Over every run: at most one live process per page, each of them tracked.
  lemma OneLiveProcessPerPage(events: seq<Event>, p: Process, q: Process)
    requires p in Run(events).live && q in Run(events).live
    ensures var m := Run(events);
      && (m.live[p].page == m.live[q].page ==> p == q)
      && m.live[p].page in m.processes && m.processes[m.live[p].page] == p
  {
    RunSupervised(events);
  }

  // After a complete poll only flagged pages are tracked, so only they have a live process.
  lemma OnlyFlaggedAfterPoll(events: seq<Event>, pages: seq<Page>, spawning: set<PageId>)
    ensures var m := Run(events + [CompletePoll(pages, spawning)]);
      m.processes.Keys <= IdsOf(pages) && forall q :: q in m.live ==> m.live[q].page in IdsOf(pages)
  {
    var all := events + [CompletePoll(pages, spawning)];
    assert Front(all) == events;
    RunSupervised(all);
    RunSupervised(events);
    PollPagesSupervised(Run(events), pages, spawning);
    SweepSupervised(PollPages(Run(events), pages, spawning), IdsOf(pages));
  }

  // The tracked process of the page, if any, is running.
  predicate LiveIfTracked(m: Manager, id: PageId) {
    id in m.processes ==> m.processes[id] in m.live
  }

  lemma PollPageLive(m: Manager, page: Page, spawns: bool, id: PageId)
    requires Supervised(m) && (id == page.id || LiveIfTracked(m, id))
    ensures LiveIfTracked(PollPage(m, page, spawns), id)
  {
    if page.id in m.processes && m.processes[page.id] in m.live && CodeChanged(m, page) {
      StopSupervised(m, page.id);
    }
  }

  lemma {:induction false} PollPagesLive(m: Manager, pages: seq<Page>, spawning: set<PageId>, id: PageId)
    requires Supervised(m) && id in IdsOf(pages)
    ensures LiveIfTracked(PollPages(m, pages, spawning), id)
  {
    var front := Front(pages);
    PollPagesSupervised(m, front, spawning);
    if id != Last(pages).id {
      assert forall page :: page in pages <==> page in front || page == Last(pages);
      PollPagesLive(m, front, spawning, id);
    }
    PollPageLive(PollPages(m, front, spawning), Last(pages), Last(pages).id in spawning, id);
  }

  // After a complete poll every tracked page has a live process: those that could not be
  // restarted are no longer tracked.
  lemma TrackedAreLive(events: seq<Event>, pages: seq<Page>, spawning: set<PageId>)
    ensures forall id :: LiveIfTracked(Run(events + [CompletePoll(pages, spawning)]), id)
  {
    var m, all := Run(events), events + [CompletePoll(pages, spawning)];
    assert Front(all) == events;
    RunSupervised(events);
    PollPagesSupervised(m, pages, spawning);
    var polled := PollPages(m, pages, spawning);
    SweepSupervised(polled, IdsOf(pages));
    forall id | id in Run(all).processes
      ensures LiveIfTracked(Run(all), id)
    {
      PollPagesLive(m, pages, spawning, id);
      assert polled.processes[id] !in ProcessesOf(polled, polled.processes.Keys - IdsOf(pages));
    }
  }

  // ---- Which code runs after a poll ----

  // The code of the page's live process, when it has one.
  function LiveCode(m: Manager, id: PageId): Option<string> {
    if id in m.processes && m.processes[id] in m.live then Some(m.live[m.processes[id]].code) else None
  }

  // What a visit makes of the running code: replaced when the page is Python with code that
  // the script does not read back as, started when nothing runs.
  function CodeAfter(running: Option<string>, page: Page, spawns: bool): Option<string> {
    if running.Some? && !(page.Python? && page.code != "" && UniversalNewlines(running.value) != page.code) then running
    else if spawns then ScriptOf(page)
    else None
  }

  lemma LiveScript(m: Manager, id: PageId)
    requires Supervised(m) && LiveCode(m, id).Some?
    ensures id in m.scripts && Some(m.scripts[id]) == LiveCode(m, id)
  {
    assert m.live[m.processes[id]].page == id;
  }

  lemma StartAndTrackCode(m: Manager, page: Page, spawns: bool, id: PageId)
    requires Supervised(m) && LiveCode(m, page.id) == None
    ensures LiveCode(StartAndTrack(m, page, spawns), id)
         == if id != page.id then LiveCode(m, id) else if spawns then ScriptOf(page) else None
  {
  }

  lemma StopCode(m: Manager, gone: PageId, id: PageId)
    requires Supervised(m)
    ensures Supervised(Stop(m, gone))
    ensures LiveCode(Stop(m, gone), id) == if id == gone then None else LiveCode(m, id)
  {
    StopSupervised(m, gone);
  }

  lemma PollPageCode(m: Manager, page: Page, spawns: bool, id: PageId)
    requires Supervised(m)
    ensures LiveCode(PollPage(m, page, spawns), id)
         == if id == page.id then CodeAfter(LiveCode(m, id), page, spawns) else LiveCode(m, id)
  {
    if page.id !in m.processes || m.processes[page.id] !in m.live {
      StartAndTrackCode(m, page, spawns, id);
    } else {
      LiveScript(m, page.id);
      if CodeChanged(m, page) {
        StopCode(m, page.id, id);
        StartAndTrackCode(Stop(m, page.id), page, spawns, id);
      }
    }
  }

  ghost predicate DistinctIds(pages: seq<Page>) {
    forall i, j :: 0 <= i < j < |pages| ==> pages[i].id != pages[j].id
  }

  lemma {:induction false} PollPagesCode(m: Manager, pages: seq<Page>, spawning: set<PageId>, id: PageId)
    requires Supervised(m) && DistinctIds(pages)
    ensures id !in IdsOf(pages) ==> LiveCode(PollPages(m, pages, spawning), id) == LiveCode(m, id)
    ensures forall page :: page in pages && page.id == id ==>
              LiveCode(PollPages(m, pages, spawning), id) == CodeAfter(LiveCode(m, id), page, id in spawning)
  {
    if pages != [] {
      var front := Front(pages);
      PollPagesCode(m, front, spawning, id);
      PollPagesSupervised(m, front, spawning);
      PollPageCode(PollPages(m, front, spawning), Last(pages), Last(pages).id in spawning, id);
      assert forall page :: page in pages <==> page in front || page == Last(pages);
      assert forall page :: page in front ==> page.id != Last(pages).id;
    }
  }

  lemma SweepKeepsCode(m: Manager, flagged: set<PageId>, id: PageId)
    requires Supervised(m) && id in flagged
    ensures LiveCode(Sweep(m, flagged), id) == LiveCode(m, id)
  {
    if id in m.processes {
      assert m.processes[id] !in ProcessesOf(m, m.processes.Keys - flagged);
    }
  }

  // Running the page's current code, up to the newlines that reading a script translates.
  ghost predicate Current(code: string, page: Page) {
    match page
    case Python(_, current) => UniversalNewlines(code) == UniversalNewlines(current)
    case Visual(_, generated) => generated == Some(code)
  }

  // The running code that no poll replaces: Python code emptied since, or a visual flow whose
  // generated code has changed.
  ghost predicate Outdated(running: Option<string>, page: Page) {
    running.Some? && match page case Python(_, code) => code == "" case Visual(_, generated) => generated != running
  }

  lemma CodeAfterCurrentIff(running: Option<string>, page: Page, spawns: bool)
    requires running.Some? ==> running.value != ""
    requires CodeAfter(running, page, spawns).Some?
    ensures Current(CodeAfter(running, page, spawns).value, page) <==> !Outdated(running, page)
  {
    if running.Some? && page.Python? {
      NewlinesTranslated(running.value);
      NewlinesUnchangedIff(UniversalNewlines(running.value));
    }
  }

  // After a complete poll, on every run: a page with a live process runs its current code
  // unless its running code was outdated before the poll, and in no other case.
  lemma RunsCurrentCodeIff(events: seq<Event>, pages: seq<Page>, spawning: set<PageId>, page: Page)
    requires DistinctIds(pages) && page in pages
    ensures var m, m' := Run(events), Run(events + [CompletePoll(pages, spawning)]);
      && LiveCode(m', page.id) == CodeAfter(LiveCode(m, page.id), page, page.id in spawning)
      && (LiveCode(m', page.id).Some? ==>
            (Current(LiveCode(m', page.id).value, page) <==> !Outdated(LiveCode(m, page.id), page)))
  {
    var m, all := Run(events), events + [CompletePoll(pages, spawning)];
    assert Front(all) == events;
    RunSupervised(events);
    PollPagesSupervised(m, pages, spawning);
    PollPagesCode(m, pages, spawning, page.id);
    assert page.id in IdsOf(pages);
    SweepKeepsCode(PollPages(m, pages, spawning), IdsOf(pages), page.id);
    if CodeAfter(LiveCode(m, page.id), page, page.id in spawning).Some? {
      CodeAfterCurrentIff(LiveCode(m, page.id), page, page.id in spawning);
    }
  }

  // A page that was not running and whose Popen succeeds runs its own code after a complete poll:
  // Python code with anything but whitespace in it, or generated code that is not empty.
  lemma StartedIff(events: seq<Event>, pages: seq<Page>, spawning: set<PageId>, page: Page)
    requires DistinctIds(pages) && page in pages && LiveCode(Run(events), page.id) == None
    ensures LiveCode(Run(events + [CompletePoll(pages, spawning)]), page.id) ==
            if page.id !in spawning then None
            else match page
                 case Python(_, code) => if exists c :: c in code && !IsSpace(c) then Some(code) else None
                 case Visual(_, generated) => if generated == Some("") then None else generated
  {
    RunsCurrentCodeIff(events, pages, spawning, page);
  }

  // Line by line: each of the three line ends becomes a newline.
  lemma {:induction false} NewlinesByLine(line: string, rest: string)
    requires '\r' !in line
    ensures UniversalNewlines(line + "\n" + rest) == line + "\n" + UniversalNewlines(rest)
    ensures UniversalNewlines(line + "\r\n" + rest) == line + "\n" + UniversalNewlines(rest)
    ensures (rest == "" || rest[0] != '\n') ==> UniversalNewlines(line + "\r" + rest) == line + "\n" + UniversalNewlines(rest)
  {
    if line == "" {
      assert "" + "\n" + rest == "\n" + rest && "" + "\r\n" + rest == "\r\n" + rest && "" + "\r" + rest == "\r" + rest;
      assert ("\r\n" + rest)[2..] == rest && ("\r" + rest)[1..] == rest;
    } else {
      NewlinesByLine(line[1..], rest);
      assert (line + "\n" + rest)[1..] == line[1..] + "\n" + rest;
      assert (line + "\r\n" + rest)[1..] == line[1..] + "\r\n" + rest;
      assert (line + "\r" + rest)[1..] == line[1..] + "\r" + rest;
      assert [line[0]] + line[1..] == line;
    }
  }

  lemma {:induction false} NewlinesTranslated(s: string)
    ensures '\r' !in UniversalNewlines(s)
    ensures s != "" ==> UniversalNewlines(s) != ""
    decreases |s|
  {
    if s != "" {
      NewlinesTranslated(if s[0] == '\r' && |s| > 1 && s[1] == '\n' then s[2..] else s[1..]);
    }
  }

  // ---- When a poll changes nothing ----

  // Running, and its script is what its current code would be written as.
  ghost predicate UpToDate(m: Manager, page: Page) {
    && page.id in m.processes && m.processes[page.id] in m.live
    && (page.Python? && page.id in m.scripts ==> m.scripts[page.id] == page.code)
  }

  lemma {:induction false} NewlinesUnchangedIff(s: string)
    ensures |UniversalNewlines(s)| <= |s|
    ensures UniversalNewlines(s) == s <==> '\r' !in s
    decreases |s|
  {
    if s != "" {
      if s[0] == '\r' {
        NewlinesUnchangedIff(if |s| > 1 && s[1] == '\n' then s[2..] else s[1..]);
        assert UniversalNewlines(s)[0] == '\n';
      } else {
        NewlinesUnchangedIff(s[1..]);
        assert s == [s[0]] + s[1..];
        assert UniversalNewlines(s)[1..] == UniversalNewlines(s[1..]);
      }
    }
  }

  // A running page whose code has not changed is left alone exactly when its code has no
  // carriage return; otherwise every poll stops and restarts it.
  lemma UnchangedPageLeftAloneIff(m: Manager, page: Page, spawns: bool)
    requires Supervised(m) && UpToDate(m, page)
    ensures PollPage(m, page, spawns) == m <==> !(page.Python? && '\r' in page.code)
  {
    if page.Python? {
      NewlinesUnchangedIff(page.code);
      if '\r' in page.code {
        var q := m.processes[page.id];
        assert q !in Stop(m, page.id).live && q < m.next;
        assert q !in PollPage(m, page, spawns).live;
      }
    }
  }

  // With every flagged page running unchanged and nothing else tracked, a poll is a no-op.
  lemma {:induction false} QuietPollPages(m: Manager, pages: seq<Page>, spawning: set<PageId>)
    requires Supervised(m) && forall page :: page in pages ==> UpToDate(m, page) && !(page.Python? && '\r' in page.code)
    ensures PollPages(m, pages, spawning) == m
  {
    if pages != [] {
      assert Last(pages) in pages;
      QuietPollPages(m, Front(pages), spawning);
      UnchangedPageLeftAloneIff(m, Last(pages), Last(pages).id in spawning);
    }
  }

  lemma QuietPoll(m: Manager, pages: seq<Page>, spawning: set<PageId>)
    requires Supervised(m) && m.processes.Keys <= IdsOf(pages)
    requires forall page :: page in pages ==> UpToDate(m, page) && !(page.Python? && '\r' in page.code)
    ensures Poll(m, pages, spawning) == m
  {
    QuietPollPages(m, pages, spawning);
    assert m.processes.Keys - IdsOf(pages) == {};
    StopNone(m);
  }

  // ---- Polls of one page ----

  // n complete polls in which the page is the only one flagged, every start succeeds and
  // nothing dies.
  function SamePolls(page: Page, n: nat): seq<Event> {
    if n == 0 then [] else SamePolls(page, n - 1) + [CompletePoll([page], {page.id})]
  }

  // One tracked, live process, the k-th spawned.
  function Running(id: PageId, code: string, k: nat): Manager
    requires k > 0
  {
    Manager(map[id := k - 1], map[k - 1 := Spawned(id, code)], map[id := code], k)
  }

  lemma PollAlone(m: Manager, page: Page)
    requires PollPage(m, page, true).processes.Keys <= {page.id}
    ensures Poll(m, [page], {page.id}) == PollPage(m, page, true)
  {
    assert Front([page]) == [] && Last([page]) == page;
    assert PollPages(m, [], {page.id}) == m;
    var m' := PollPages(m, [page], {page.id});
    assert m' == PollPage(m, page, true);
    assert IdsOf([page]) == {page.id};
    assert m'.processes.Keys - {page.id} == {};
    StopNone(m');
  }

  lemma FirstPoll(id: PageId, code: string)
    requires !Blank(code)
    ensures Poll(Manager(map[], map[], map[], 0), [Python(id, code)], {id}) == Running(id, code, 1)
  {
    PollAlone(Manager(map[], map[], map[], 0), Python(id, code));
  }

  lemma NextPoll(id: PageId, code: string, k: nat)
    requires k > 0 && !Blank(code)
    ensures Poll(Running(id, code, k), [Python(id, code)], {id}) == Running(id, code, if '\r' in code then k + 1 else k)
  {
    var m, page := Running(id, code, k), Python(id, code);
    NewlinesUnchangedIff(code);
    assert code != "";
    assert CodeChanged(m, page) <==> '\r' in code;
    assert Stop(m, id) == Manager(map[], map[], map[], k);
    PollAlone(m, page);
  }

  // Code without a carriage return is started once and left alone; with one it is stopped and
  // restarted by every poll, so that after n polls n processes have been spawned.
  lemma {:induction false} RestartedEveryPollIff(id: PageId, code: string, n: nat)
    requires n > 0 && !Blank(code)
    ensures Run(SamePolls(Python(id, code), n)) == Running(id, code, if '\r' in code then n else 1)
  {
    var events, poll := SamePolls(Python(id, code), n - 1), CompletePoll([Python(id, code)], {id});
    assert SamePolls(Python(id, code), n) == events + [poll] && Front(events + [poll]) == events;
    if n == 1 {
      FirstPoll(id, code);
    } else {
      RestartedEveryPollIff(id, code, n - 1);
      NextPoll(id, code, if '\r' in code then n - 1 else 1);
    }
  }

  // Two polls of a page whose one line ends in a carriage return: the second replaces the
  // process that the first started.
  lemma TwoPollsTwoProcesses(id: PageId)
    ensures Run(SamePolls(Python(id, "print(1)\r"), 2)).live == map[1 := Spawned(id, "print(1)\r")]
  {
    var code := "print(1)\r";
    assert code[0] == 'p' && code[8] == '\r';
    assert 'p' in code && !IsSpace('p');
    RestartedEveryPollIff(id, code, 2);
  }

  // ---- Code that no poll replaces ----

  lemma TwoPolls(before: Page, page: Page)
    requires before.id == page.id && ScriptOf(before).Some? && CodeAfter(ScriptOf(before), page, true) == ScriptOf(before)
    ensures LiveCode(Run([CompletePoll([before], {before.id}), CompletePoll([page], {page.id})]), page.id) == ScriptOf(before)
  {
    var first, second := CompletePoll([before], {before.id}), CompletePoll([page], {page.id});
    assert Front([first]) == [] && [] + [first] == [first] && Run([]) == Manager(map[], map[], map[], 0);
    assert [first] + [second] == [first, second];
    RunsCurrentCodeIff([], [before], {before.id}, before);
    RunsCurrentCodeIff([first], [page], {page.id}, page);
  }

  // A visual flow goes on running the code it was started with.
  lemma ChangedFlowOverlooked(id: PageId)
    ensures LiveCode(Run([CompletePoll([Visual(id, Some("old()"))], {id}), CompletePoll([Visual(id, Some("new()"))], {id})]), id)
         == Some("old()")
  {
    TwoPolls(Visual(id, Some("old()")), Visual(id, Some("new()")));
  }

  // So does a Python page whose code has been emptied.
  lemma EmptiedCodeOverlooked(id: PageId)
    ensures LiveCode(Run([CompletePoll([Python(id, "old()")], {id}), CompletePoll([Python(id, "")], {id})]), id) == Some("old()")
  {
    var code := "old()";
    assert code[0] == 'o';
    assert 'o' in code && !IsSpace('o');
    TwoPolls(Python(id, "old()"), Python(id, ""));
  }
}
