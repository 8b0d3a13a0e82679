// When events leave the batch buffer, and what becomes of each batch.
module BatchFate {
  import opened Prelude
  import opened BatchBuffer

  // Without the timer every batch holds 500 events, and the rest is still in the buffer.
  lemma {:induction false} OnlyFullBatches<E>(actions: seq<Action<E>>)
    requires forall a :: a in actions ==> !a.Tick?
    ensures var b, n := Run(actions), |Appended(actions)|;
      && |b.taken| == n / 500 && |b.buffer| == n % 500
      && forall i :: 0 <= i < |b.taken| ==> |b.taken[i].events| == 500
  {
    if actions != [] {
      assert Last(actions) in actions && forall a :: a in Front(actions) ==> a in actions;
      OnlyFullBatches(Front(actions));
      var n := |Appended(Front(actions))|;
      assert (n + 1) / 500 == (if n % 500 == 499 then n / 500 + 1 else n / 500);
      assert (n + 1) % 500 == (if n % 500 == 499 then 0 else n % 500 + 1);
    }
  }

  // The timer leaves nothing in the buffer and changes no batch that was taken before.
  lemma TickEmpties<E>(actions: seq<Action<E>>)
    ensures var b, b' := Run(actions), Run(actions + [Tick]);
      && b'.buffer == []
      && b'.taken == b.taken + if b.buffer == [] then [] else [Batch(b.buffer, InFlight)]
  {
    assert Front(actions + [Tick]) == actions;
  }

  // The call for batch i ends at step k, and none has ended before.
  ghost predicate EndsAt<E>(actions: seq<Action<E>>, i: nat, k: nat)
    requires k < |actions|
  {
    && actions[k].Finish? && actions[k].batch == i && i < |Run(actions[..k]).taken|
    && forall j :: 0 <= j < k && actions[j].Finish? && actions[j].batch == i ==> i >= |Run(actions[..j]).taken|
  }

  ghost predicate Ended<E>(actions: seq<Action<E>>, i: nat) {
    exists k :: 0 <= k < |actions| && EndsAt(actions, i, k)
  }

  lemma StepKeepsBatches<E>(b: Batching<E>, a: Action<E>)
    ensures |b.taken| <= |Step(b, a).taken|
    ensures forall i :: 0 <= i < |b.taken| && !(a.Finish? && a.batch == i) ==> Step(b, a).taken[i] == b.taken[i]
    ensures forall i :: |b.taken| <= i < |Step(b, a).taken| ==> Step(b, a).taken[i].status == InFlight
  {
  }

  lemma EndsNext<E>(actions: seq<Action<E>>, i: nat, k: nat)
    requires actions != [] && k < |Front(actions)|
    ensures EndsAt(actions, i, k) <==> EndsAt(Front(actions), i, k)
  {
    assert forall j :: 0 <= j <= k ==> actions[..j] == Front(actions)[..j] && actions[j] == Front(actions)[j];
  }

  // Nothing has ended for a batch that was not taken yet.
  lemma {:induction false} NotYetTaken<E>(actions: seq<Action<E>>, i: nat, k: nat)
    requires k <= |actions| && i >= |Run(actions).taken|
    ensures i >= |Run(actions[..k]).taken|
    decreases |actions|
  {
    if k < |actions| {
      StepKeepsBatches(Run(Front(actions)), Last(actions));
      NotYetTaken(Front(actions), i, k);
      assert Front(actions)[..k] == actions[..k];
    } else {
      assert actions[..k] == actions;
    }
  }

  // After every run a batch is in flight until its call has ended, and has the outcome of the
  // first end of it: nothing later changes it.
  lemma {:induction false} FateIsFirstEnd<E>(actions: seq<Action<E>>, i: nat)
    requires i < |Run(actions).taken|
    ensures FateKnown(actions, i)
  {
    if i < |Run(Front(actions)).taken| {
      FateIsFirstEnd(Front(actions), i);
      FateNext(actions, i);
    } else {
      StepKeepsBatches(Run(Front(actions)), Last(actions));
      forall k | 0 <= k < |actions|
        ensures !EndsAt(actions, i, k)
      {
        NotYetTaken(Front(actions), i, k);
        assert Front(actions)[..k] == actions[..k];
      }
    }
  }

  ghost predicate FateKnown<E>(actions: seq<Action<E>>, i: nat)
    requires i < |Run(actions).taken|
  {
    && (Run(actions).taken[i].status == InFlight <==> !Ended(actions, i))
    && forall k :: 0 <= k < |actions| && EndsAt(actions, i, k) ==>
         Run(actions).taken[i].status == if actions[k].ok then Delivered else Lost
  }

  lemma StepStatus<E>(b: Batching<E>, a: Action<E>, i: nat)
    requires i < |b.taken|
    ensures i < |Step(b, a).taken|
    ensures Step(b, a).taken[i].status ==
            if a.Finish? && a.batch == i && b.taken[i].status == InFlight then (if a.ok then Delivered else Lost) else b.taken[i].status
  {
  }

  lemma EndedNext<E>(actions: seq<Action<E>>, i: nat)
    requires actions != [] && i < |Run(Front(actions)).taken|
    ensures Ended(actions, i) <==> Ended(Front(actions), i) || (Last(actions).Finish? && Last(actions).batch == i)
    ensures forall k :: 0 <= k < |actions| && EndsAt(actions, i, k) ==>
              if k < |actions| - 1 then EndsAt(Front(actions), i, k) && actions[k] == Front(actions)[k]
              else Last(actions).Finish? && !Ended(Front(actions), i)
  {
    var n := |actions| - 1;
    EndsLast(actions, i);
    forall k | 0 <= k < n
      ensures EndsAt(actions, i, k) <==> EndsAt(Front(actions), i, k)
    {
      EndsNext(actions, i, k);
    }
    if Ended(Front(actions), i) {
      var k :| 0 <= k < n && EndsAt(Front(actions), i, k);
      assert EndsAt(actions, i, k);
    }
  }

  lemma FateNext<E>(actions: seq<Action<E>>, i: nat)
    requires actions != [] && i < |Run(Front(actions)).taken| && i < |Run(actions).taken| && FateKnown(Front(actions), i)
    ensures FateKnown(actions, i)
  {
    StepStatus(Run(Front(actions)), Last(actions), i);
    EndedNext(actions, i);
    assert Run(actions) == Step(Run(Front(actions)), Last(actions));
    if !Ended(Front(actions), i) && Last(actions).Finish? && Last(actions).batch == i {
      EndsLast(actions, i);
    }
  }

  lemma EndsLast<E>(actions: seq<Action<E>>, i: nat)
    requires actions != [] && i < |Run(Front(actions)).taken|
    ensures EndsAt(actions, i, |actions| - 1) <==>
            Last(actions).Finish? && Last(actions).batch == i && !Ended(Front(actions), i)
  {
    var before, n := Front(actions), |actions| - 1;
    assert actions[..n] == before && actions[n] == Last(actions);
    assert forall j :: 0 <= j < n ==> actions[..j] == before[..j] && actions[j] == before[j];
    if exists j :: 0 <= j < n && before[j].Finish? && before[j].batch == i && i < |Run(before[..j]).taken| {
      FirstEnd(before, i, n);
    }
  }

  // Where there is an end there is a first one.
  lemma {:induction false} FirstEnd<E>(actions: seq<Action<E>>, i: nat, n: nat)
    requires n <= |actions|
    requires exists j :: 0 <= j < n && actions[j].Finish? && actions[j].batch == i && i < |Run(actions[..j]).taken|
    ensures Ended(actions, i)
  {
    if exists j :: 0 <= j < n - 1 && actions[j].Finish? && actions[j].batch == i && i < |Run(actions[..j]).taken| {
      FirstEnd(actions, i, n - 1);
    } else {
      assert EndsAt(actions, i, n - 1);
    }
  }
}
