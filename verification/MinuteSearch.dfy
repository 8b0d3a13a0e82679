// The bounded minute-by-minute search that both cron implementations run, over any matcher.
module MinuteSearch {
  import opened Prelude

  // Err is an exception; it ends the search.
  type Matching = int -> Result<bool, ()>

  // The first of the n minutes from t on that matches.
  function Search(f: Matching, t: int, n: nat): Result<Option<int>, ()>
    decreases n, t
  {
    if n == 0 then Ok(None)
    else
      match f(t)
      case Err(_) => Err(())
      case Ok(true) => Ok(Some(t))
      case Ok(false) => Search(f, t + 1, n - 1)
  }

  const WEEK: nat := 10080  // 7 * 24 * 60 minutes

  // The least matching minute strictly after `start` within a week, nothing when the week has
  // none, an exception when the matcher raises before that.
  ghost predicate IsNextRun(f: Matching, start: int, r: Result<Option<int>, ()>) {
    match r
    case Ok(Some(t)) => start < t <= start + WEEK && f(t) == Ok(true) && forall u :: start < u < t ==> f(u) == Ok(false)
    case Ok(None) => forall u :: start < u <= start + WEEK ==> f(u) == Ok(false)
    case Err(_) => exists t :: start < t <= start + WEEK && f(t).Err? && forall u :: start < u < t ==> f(u) == Ok(false)
  }

  lemma {:induction false} SearchFound(f: Matching, t: int, n: nat)
    requires Search(f, t, n) != Ok(None)
    ensures exists u :: t <= u < t + n && (forall w :: t <= w < u ==> f(w) == Ok(false)) &&
              (if Search(f, t, n).Err? then f(u).Err? else Search(f, t, n) == Ok(Some(u)) && f(u) == Ok(true))
    decreases n
  {
    if f(t) == Ok(false) {
      SearchFound(f, t + 1, n - 1);
      var u :| t + 1 <= u < t + n && (forall w :: t + 1 <= w < u ==> f(w) == Ok(false)) &&
               (if Search(f, t, n).Err? then f(u).Err? else Search(f, t, n) == Ok(Some(u)) && f(u) == Ok(true));
      assert forall w :: t <= w < u ==> f(w) == Ok(false);
    } else {
      assert t <= t < t + n;
    }
  }

  lemma {:induction false} SearchNone(f: Matching, t: int, n: nat)
    requires Search(f, t, n) == Ok(None)
    ensures forall u :: t <= u < t + n ==> f(u) == Ok(false)
    decreases n
  {
    if n > 0 {
      SearchNone(f, t + 1, n - 1);
    }
  }

  lemma {:induction false} SearchNever(f: Matching, t: int, n: nat)
    requires forall u :: f(u) == Ok(false)
    ensures Search(f, t, n) == Ok(None)
    decreases n
  {
    if n > 0 {
      SearchNever(f, t + 1, n - 1);
    }
  }

  // Some minute in [from, to) raises, and none before it matches.
  ghost predicate FirstFailure(f: Matching, from: int, to: int) {
    exists t :: from <= t < to && f(t).Err? && forall u :: from <= u < t ==> f(u) == Ok(false)
  }

  lemma {:induction false} SearchOkIff(f: Matching, t: int, n: nat)
    ensures Search(f, t, n).Ok? <==> !FirstFailure(f, t, t + n)
    decreases n
  {
    if n > 0 {
      SearchOkIff(f, t + 1, n - 1);
      if f(t) == Ok(false) {
        if FirstFailure(f, t + 1, t + n) {
          var u :| t + 1 <= u < t + n && f(u).Err? && forall w :: t + 1 <= w < u ==> f(w) == Ok(false);
          assert forall w :: t <= w < u ==> f(w) == Ok(false);
        }
      } else if f(t).Err? {
        assert t <= t < t + n && f(t).Err?;
      } else {
        assert f(t).value == true;
      }
    }
  }

  lemma SearchIsNextRun(f: Matching, start: int)
    ensures IsNextRun(f, start, Search(f, start + 1, WEEK))
  {
    if Search(f, start + 1, WEEK) == Ok(None) {
      SearchNone(f, start + 1, WEEK);
    } else {
      SearchFound(f, start + 1, WEEK);
      var u :| start + 1 <= u < start + 1 + WEEK && (forall w :: start + 1 <= w < u ==> f(w) == Ok(false)) &&
               (if Search(f, start + 1, WEEK).Err? then f(u).Err? else Search(f, start + 1, WEEK) == Ok(Some(u)) && f(u) == Ok(true));
    }
  }

  // From `start` on the search has come to t with n minutes to go.
  ghost predicate Searching(f: Matching, start: int, t: int, n: nat) {
    Search(f, start + 1, WEEK) == Search(f, t, n)
  }

  lemma SearchStep(f: Matching, start: int, t: int, n: nat)
    requires Searching(f, start, t, n)
    ensures n == 0 ==> Found(f, start, Ok(None))
    ensures n > 0 && f(t).Err? ==> Found(f, start, Err(()))
    ensures n > 0 && f(t) == Ok(true) ==> Found(f, start, Ok(Some(t)))
    ensures n > 0 && f(t) == Ok(false) ==> Searching(f, start, t + 1, n - 1)
  {
    SearchIsNextRun(f, start);
  }

  ghost predicate Found(f: Matching, start: int, r: Result<Option<int>, ()>) {
    r == Search(f, start + 1, WEEK) && IsNextRun(f, start, r)
  }

  ghost predicate Repeats(f: Matching, p: nat, t: int, k: int) {
    f(t + p * k) == f(t)
  }

  ghost predicate Periodic(f: Matching, p: nat) {
    forall t, k :: Repeats(f, p, t, k)
  }

  // A periodic matcher silent for one period is silent for ever.
  lemma NoneMeansNever(f: Matching, p: nat, start: int, t: int)
    requires p > 0 && Periodic(f, p) && Search(f, start, p) == Ok(None)
    ensures f(t) == Ok(false)
  {
    var k, r := (t - start) / p, (t - start) % p;
    SearchNone(f, start, p);
    var u := start + r;
    assert f(u) == Ok(false);
    assert u + p * k == t;
    assert Repeats(f, p, u, k);
  }

  // n runs in a row, each searched from the one before.
  function Iterate(f: Matching, p: nat, t: int, n: nat): Option<int>
    decreases n
  {
    if n == 0 then Some(t)
    else
      match Search(f, t + 1, p)
      case Ok(Some(next)) => Iterate(f, p, next, n - 1)
      case _ => None
  }

  // Iterating the search over one period at a time enumerates every match, in order.
  lemma EveryMatchIsReached(f: Matching, p: nat, t: int, u: int) returns (n: nat)
    requires p > 0 && Periodic(f, p) && forall w :: f(w).Ok?
    requires t == u || (t < u && f(u) == Ok(true))
    ensures Iterate(f, p, t, n) == Some(u)
    decreases u - t
  {
    if t == u {
      n := 0;
    } else {
      if Search(f, t + 1, p) == Ok(None) {
        NoneMeansNever(f, p, t + 1, u);
      }
      SearchFound(f, t + 1, p);
      var next := Search(f, t + 1, p).value.value;
      var m := EveryMatchIsReached(f, p, next, u);
      n := m + 1;
    }
  }

  // g matches what f matches at u, unless it overlooks it.
  predicate Misses(f: Matching, g: Matching, u: int, overlooked: bool) {
    && (g(u) == Ok(true) ==> f(u) == Ok(true))
    && (f(u) == Ok(true) ==> (g(u) == Ok(true) <==> !overlooked))
  }

  // Two searches find the same minute exactly unless the second overlooks what the first finds.
  lemma {:induction false} SearchesAgreeIff(f: Matching, g: Matching, t: int, n: nat, overlooks: int -> bool)
    requires Search(f, t, n).Ok?
    requires forall u :: f(u).Ok? ==> g(u).Ok? && Misses(f, g, u, overlooks(u))
    ensures var next := Search(f, t, n).value;
      Search(g, t, n) == Ok(next) <==> !(next.Some? && overlooks(next.value))
    decreases n
  {
    if n > 0 {
      if f(t) == Ok(false) {
        SearchesAgreeIff(f, g, t + 1, n - 1, overlooks);
      } else if Search(g, t + 1, n - 1) != Ok(None) {
        SearchFound(g, t + 1, n - 1);
      }
    }
  }
}
