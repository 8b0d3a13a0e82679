// frontend/lib/api-key-auth.js: the fixed-window rate limiter. Times are milliseconds.
module RateLimiter {
  import opened Prelude

  const WINDOW: int := 60_000

  // The map entry of one key.
  datatype Entry = Entry(count: nat, resetAt: int)

  // An admitted call: its time, the start of its window, and its number within it.
  datatype Admission = Admission(time: int, start: int, number: nat)

  function Check(entry: Option<Entry>, limit: nat, now: int): (Option<Entry>, bool) {
    if entry.None? || now > entry.value.resetAt then (Some(Entry(1, now + WINDOW)), true)
    else if entry.value.count >= limit then (entry, false)
    else (Some(entry.value.(count := entry.value.count + 1)), true)
  }

  class Limiter {
    var rateLimits: map<string, Entry>

    constructor ()
      ensures rateLimits == map[]
    {
      rateLimits := map[];
    }

    ghost function EntryOf(prefix: string): Option<Entry>
      reads this
    {
      if prefix in rateLimits then Some(rateLimits[prefix]) else None
    }

    method CheckRate(prefix: string, limit: nat, now: int) returns (ok: bool)
      modifies this
      ensures (EntryOf(prefix), ok) == Check(old(EntryOf(prefix)), limit, now)
      ensures forall p :: p != prefix ==> EntryOf(p) == old(EntryOf(p))
    {
      if prefix !in rateLimits || now > rateLimits[prefix].resetAt {
        rateLimits := rateLimits[prefix := Entry(1, now + WINDOW)];
        return true;
      }
      var entry := rateLimits[prefix];
      if entry.count >= limit {
        return false;
      }
      rateLimits := rateLimits[prefix := entry.(count := entry.count + 1)];
      ok := true;
    }
  }

  // ---- The calls of one key, with its fixed limit ----

  datatype Trace = Trace(entry: Option<Entry>, admitted: seq<Admission>)

  function Replay(limit: nat, times: seq<int>): Trace {
    if times == [] then Trace(None, []) else Admit(Replay(limit, Front(times)), limit, Last(times))
  }

  function Admit(t: Trace, limit: nat, now: int): Trace {
    var (entry, ok) := Check(t.entry, limit, now);
    Trace(entry, if ok then t.admitted + [Admission(now, entry.value.resetAt - WINDOW, entry.value.count)] else t.admitted)
  }

  lemma ReplayNext(limit: nat, times: seq<int>, now: int)
    ensures Replay(limit, times + [now]) == Admit(Replay(limit, times), limit, now)
  {
    assert Front(times + [now]) == times && Last(times + [now]) == now;
  }

  ghost predicate NonDecreasing(times: seq<int>) {
    forall i, j :: 0 <= i <= j < |times| ==> times[i] <= times[j]
  }

  // Each admission continues its predecessor's window or opens a later one.
  ghost predicate Follows(a: Admission, b: Admission) {
    && a.time <= b.time
    && (if b.number == 1 then b.start == b.time && b.start > a.start + WINDOW
        else b.start == a.start && b.number == a.number + 1)
  }

  ghost predicate Windowed(log: seq<Admission>, limit: nat) {
    && (forall i :: 0 <= i < |log| ==> 1 <= log[i].number <= limit && log[i].start <= log[i].time <= log[i].start + WINDOW)
    && (log != [] ==> log[0].number == 1 && log[0].start == log[0].time)
    && forall i :: 0 < i < |log| ==> Follows(log[i - 1], log[i])
  }

  lemma OneMoreAdmission(log: seq<Admission>, limit: nat, a: Admission)
    requires Windowed(log, limit) && 1 <= a.number <= limit && a.start <= a.time <= a.start + WINDOW
    requires if log == [] then a.number == 1 && a.start == a.time else Follows(Last(log), a)
    ensures Windowed(log + [a], limit)
  {
    var more := log + [a];
    forall i | 0 < i < |more|
      ensures Follows(more[i - 1], more[i])
    {
      if i < |log| {
        assert Follows(log[i - 1], log[i]);
      }
    }
  }

  // The map entry summarises the latest admission.
  ghost predicate Summarises(t: Trace, limit: nat) {
    && Windowed(t.admitted, limit)
    && (if t.admitted == [] then t.entry.None?
        else t.entry == Some(Entry(Last(t.admitted).number, Last(t.admitted).start + WINDOW)))
  }

  lemma CheckSummarises(t: Trace, limit: nat, now: int)
    requires limit >= 1 && Summarises(t, limit) && (t.admitted != [] ==> Last(t.admitted).time <= now)
    ensures var (entry, ok) := Check(t.entry, limit, now);
      && (t.admitted == [] ==> ok)
      && Summarises(Trace(entry, if ok then t.admitted + [Admission(now, entry.value.resetAt - WINDOW, entry.value.count)]
                                 else t.admitted), limit)
  {
    var (entry, ok) := Check(t.entry, limit, now);
    if ok {
      OneMoreAdmission(t.admitted, limit, Admission(now, entry.value.resetAt - WINDOW, entry.value.count));
    }
  }

  lemma {:induction false} ReplayWindowed(limit: nat, times: seq<int>)
    requires limit >= 1 && NonDecreasing(times)
    ensures var t := Replay(limit, times);
      && Summarises(t, limit)
      && (times != [] ==> t.admitted != [] && Last(t.admitted).time <= Last(times))
  {
    if times != [] {
      ReplayWindowed(limit, Front(times));
      if |times| > 1 {
        assert times[|times| - 2] <= Last(times);
      }
      CheckSummarises(Replay(limit, Front(times)), limit, Last(times));
    }
  }

  // Within a window the numbers count up.
  lemma {:induction false} SameWindow(log: seq<Admission>, limit: nat, i: nat, j: nat)
    requires Windowed(log, limit) && i <= j < |log|
    ensures log[i].time <= log[j].time && log[i].start <= log[j].start
    ensures log[i].start == log[j].start ==> log[j].number - log[i].number == j - i
    ensures log[i].start != log[j].start ==> log[j].start > log[i].start + WINDOW
    decreases j - i
  {
    if i < j {
      SameWindow(log, limit, i, j - 1);
      assert Follows(log[j - 1], log[j]);
    }
  }

  // The first admission of j's window.
  lemma {:induction false} WindowOpens(log: seq<Admission>, limit: nat, j: nat)
    requires Windowed(log, limit) && j < |log|
    ensures 0 <= j - (log[j].number - 1)
    ensures var b := j - (log[j].number - 1); log[b].number == 1 && log[b].start == log[j].start == log[b].time
  {
    if j > 0 {
      assert Follows(log[j - 1], log[j]);
      if log[j].number > 1 {
        WindowOpens(log, limit, j - 1);
      }
    }
  }

  // Admissions from i to j that lie within one closed interval of 60 s number at most
  // 2 * limit - 1: if they span two windows, the first of the earlier window is too old.
  lemma AtMostTwiceLimit(limit: nat, times: seq<int>, i: nat, j: nat)
    requires limit >= 1 && NonDecreasing(times)
    requires i <= j < |Replay(limit, times).admitted|
    requires Replay(limit, times).admitted[j].time - Replay(limit, times).admitted[i].time <= 60_000
    ensures j - i + 1 <= 2 * limit - 1
  {
    ReplayWindowed(limit, times);
    IntervalBound(Replay(limit, times).admitted, limit, i, j);
  }

  lemma IntervalBound(log: seq<Admission>, limit: nat, i: nat, j: nat)
    requires Windowed(log, limit) && i <= j < |log| && log[j].time - log[i].time <= WINDOW
    ensures j - i + 1 <= 2 * limit - 1
  {
    SameWindow(log, limit, i, j);
    if log[i].start != log[j].start {
      WindowOpens(log, limit, i);
      WindowOpens(log, limit, j);
      var b := j - (log[j].number - 1);
      if b <= i {
        SameWindow(log, limit, b, i);
      } else {
        SameWindow(log, limit, i, b - 1);
        // With another window in between, j would lie more than 60 s after i.
        assert Follows(log[b - 1], log[b]);
      }
    }
  }

  // A rejected call comes after exactly `limit` admissions in its window, the latest ones,
  // all at most 60 s old.
  lemma RejectedAfterLimit(limit: nat, times: seq<int>, now: int)
    requires limit >= 1 && NonDecreasing(times + [now])
    requires !Check(Replay(limit, times).entry, limit, now).1
    ensures var log := Replay(limit, times).admitted;
      && |log| >= limit
      && (forall k :: |log| - limit <= k < |log| ==>
            log[k].start == Replay(limit, times).entry.value.resetAt - WINDOW && now - WINDOW <= log[k].time <= now)
      && forall k :: 0 <= k < |log| - limit ==> log[k].start != Replay(limit, times).entry.value.resetAt - WINDOW
  {
    assert NonDecreasing(times) by {
      assert forall k :: 0 <= k < |times| ==> times[k] == (times + [now])[k];
    }
    ReplayWindowed(limit, times);
    var log := Replay(limit, times).admitted;
    if times != [] {
      assert (times + [now])[|times| - 1] <= (times + [now])[|times|];
    }
    var last := |log| - 1;
    WindowOpens(log, limit, last);
    forall k | 0 <= k < |log|
      ensures k >= |log| - limit ==> log[k].start == log[last].start && now - WINDOW <= log[k].time <= now
      ensures k < |log| - limit ==> log[k].start != log[last].start
    {
      SameWindow(log, limit, k, last);
      if k >= |log| - limit {
        SameWindow(log, limit, |log| - limit, k);
      }
    }
  }

  // k calls at one moment, and their admissions after the c-th of a window.
  function Repeat(now: int, k: nat): seq<int> {
    if k == 0 then [] else Repeat(now, k - 1) + [now]
  }

  function Admitted(now: int, start: int, c: nat, k: nat): seq<Admission> {
    if k == 0 then [] else Admitted(now, start, c, k - 1) + [Admission(now, start, c + k)]
  }

  lemma {:induction false} RepeatExact(now: int, start: int, c: nat, k: nat)
    ensures |Repeat(now, k)| == |Admitted(now, start, c, k)| == k
    ensures forall i :: 0 <= i < k ==> Repeat(now, k)[i] == now && Admitted(now, start, c, k)[i].time == now
  {
    if k > 0 {
      RepeatExact(now, start, c, k - 1);
    }
  }

  // They are all admitted as long as the window has room for them.
  lemma {:induction false} Burst(limit: nat, times: seq<int>, now: int, k: nat, c: nat, resetAt: int, log: seq<Admission>)
    requires Replay(limit, times) == Trace(Some(Entry(c, resetAt)), log) && now <= resetAt && c + k <= limit
    ensures Replay(limit, times + Repeat(now, k)) ==
            Trace(Some(Entry(c + k, resetAt)), log + Admitted(now, resetAt - WINDOW, c, k))
  {
    if k == 0 {
      assert times + [] == times && log + [] == log;
    } else {
      Burst(limit, times, now, k - 1, c, resetAt, log);
      var more := Admitted(now, resetAt - WINDOW, c, k - 1);
      OneMoreAdmitted(limit, times + Repeat(now, k - 1), now, c + k - 1, resetAt, log + more);
      Regroup(times, Repeat(now, k - 1), [now]);
      Regroup(log, more, [Admission(now, resetAt - WINDOW, c + k)]);
    }
  }

  lemma Regroup<T>(a: seq<T>, b: seq<T>, c: seq<T>)
    ensures (a + b) + c == a + (b + c)
  {
  }

  lemma OneMoreAdmitted(limit: nat, times: seq<int>, now: int, c: nat, resetAt: int, log: seq<Admission>)
    requires Replay(limit, times) == Trace(Some(Entry(c, resetAt)), log) && now <= resetAt && c < limit
    ensures Replay(limit, times + [now]) ==
            Trace(Some(Entry(c + 1, resetAt)), log + [Admission(now, resetAt - WINDOW, c + 1)])
  {
    ReplayNext(limit, times, now);
  }

  // The bound is attained for every limit: one call, the rest of the window's at its last
  // moment, and a whole window's worth a millisecond later.
  lemma BoundAttained(limit: nat) returns (times: seq<int>, i: nat, j: nat)
    requires limit >= 1
    ensures NonDecreasing(times)
    ensures var log := Replay(limit, times).admitted;
      i <= j < |log| && log[j].time - log[i].time <= 60_000 && j - i + 1 == 2 * limit - 1
  {
    var n := limit - 1;
    var first := [0] + Repeat(WINDOW, n);
    var second := first + [WINDOW + 1];
    times, i, j := second + Repeat(WINDOW + 1, n), 1, 2 * limit - 1;
    RepeatExact(WINDOW, 0, 1, n);
    RepeatExact(WINDOW + 1, WINDOW + 1, 1, n);
    var log0 := [Admission(0, 0, 1)];
    assert [] + [0] == [0];
    ReplayNext(limit, [], 0);
    Burst(limit, [0], WINDOW, n, 1, WINDOW, log0);
    var log1 := log0 + Admitted(WINDOW, 0, 1, n);
    ReplayNext(limit, first, WINDOW + 1);
    var log2 := log1 + [Admission(WINDOW + 1, WINDOW + 1, 1)];
    Burst(limit, second, WINDOW + 1, n, 1, 2 * WINDOW + 1, log2);
  }

  // When `limit` calls have been admitted at time 0, the next one is admitted exactly after 60000 ms.
  lemma ReopensAfterMinute(limit: nat, now: int)
    requires limit >= 1 && now >= 0
    ensures Check(Replay(limit, [0] + Repeat(0, limit - 1)).entry, limit, now).1 <==> now > 60_000
  {
    assert [] + [0] == [0];
    ReplayNext(limit, [], 0);
    Burst(limit, [0], 0, limit - 1, 1, WINDOW, [Admission(0, 0, 1)]);
  }
}
