// backend/channels.py: the batch buffer between published events and bulk inserts, shared by
// coroutines. A step runs a coroutine up to its next suspension; the bodies under the lock
// contain no await, so nobody ever waits for it and they belong to one step.
module BatchBuffer {
  import opened Prelude

  const BATCH_SIZE: nat := 500

  // What became of a batch: its HTTP call is under way, succeeded, or failed (and is not retried).
  datatype Status = InFlight | Delivered | Lost

  datatype Batch<E> = Batch(events: seq<E>, status: Status)

  // `taken` lists the batches in the order in which they were taken from the buffer.
  datatype Batching<E> = Batching(buffer: seq<E>, taken: seq<Batch<E>>)

  datatype Action<E> =
    | Buffer(event: E)          // _buffer_event, to its end or to the HTTP call
    | Tick                      // the timer loop wakes up and flushes
    | Finish(batch: nat, ok: bool)

  function Flush<E>(b: Batching<E>): Batching<E> {
    if b.buffer == [] then b else Batching([], b.taken + [Batch(b.buffer, InFlight)])
  }

  function Step<E>(b: Batching<E>, a: Action<E>): Batching<E> {
    match a
    case Buffer(e) =>
      var b' := b.(buffer := b.buffer + [e]);
      if |b'.buffer| >= BATCH_SIZE then Flush(b') else b'
    case Tick => Flush(b)
    case Finish(i, ok) =>
      if i < |b.taken| && b.taken[i].status == InFlight
      then b.(taken := b.taken[i := b.taken[i].(status := if ok then Delivered else Lost)])
      else b
  }

  function Run<E>(actions: seq<Action<E>>): Batching<E> {
    if actions == [] then Batching([], []) else Step(Run(Front(actions)), Last(actions))
  }

  // The module-level list and the coroutines' own code on it.
  class EventBuffer<E> {
    var buffer: seq<E>
    ghost var taken: seq<Batch<E>>

    ghost function State(): Batching<E>
      reads this
    {
      Batching(buffer, taken)
    }

    constructor ()
      ensures State() == Batching([], [])
    {
      buffer, taken := [], [];
    }

    // Up to the HTTP call: the batch taken, empty if there was nothing to flush.
    method FlushBatch() returns (batch: seq<E>)
      modifies this
      ensures State() == Flush(old(State())) && batch == old(buffer) && buffer == []
    {
      batch := [];
      if buffer == [] {
        return;
      }
      batch := buffer;
      buffer := [];
      taken := taken + [Batch(batch, InFlight)];
    }

    method BufferEvent(event: E) returns (batch: seq<E>)
      modifies this
      ensures State() == Step(old(State()), Buffer(event))
      ensures batch + buffer == old(buffer) + [event]
    {
      buffer := buffer + [event];
      batch := [];
      if |buffer| >= BATCH_SIZE {
        batch := FlushBatch();
      }
    }
  }

  // ---- Every interleaving ----

  function Appended<E>(actions: seq<Action<E>>): seq<E> {
    if actions == [] then []
    else Appended(Front(actions)) + (if Last(actions).Buffer? then [Last(actions).event] else [])
  }

  function Events<E>(batches: seq<Batch<E>>): seq<E> {
    if batches == [] then [] else Events(Front(batches)) + Last(batches).events
  }

  lemma {:induction false} EventsIgnoreStatus<E>(batches: seq<Batch<E>>, i: nat, s: Status)
    requires i < |batches|
    ensures Events(batches[i := batches[i].(status := s)]) == Events(batches)
    decreases |batches|
  {
    var changed := batches[i := batches[i].(status := s)];
    if i < |batches| - 1 {
      assert Front(changed) == Front(batches)[i := Front(batches)[i].(status := s)];
      EventsIgnoreStatus(Front(batches), i, s);
    } else {
      assert Front(changed) == Front(batches);
    }
  }

  // The batches in the order taken, then the buffer, are the events in the order appended.
  // Batches hold 1 to 500 events; at every suspension the buffer holds fewer than 500.
  ghost predicate Accounted<E>(b: Batching<E>, log: seq<E>) {
    && Events(b.taken) + b.buffer == log
    && |b.buffer| < BATCH_SIZE
    && forall i :: 0 <= i < |b.taken| ==> 0 < |b.taken[i].events| <= BATCH_SIZE
  }

  lemma StepAccounted<E>(b: Batching<E>, log: seq<E>, a: Action<E>)
    requires Accounted(b, log)
    ensures Accounted(Step(b, a), if a.Buffer? then log + [a.event] else log)
  {
    match a
    case Buffer(e) =>
      var b' := b.(buffer := b.buffer + [e]);
      FlushKeepsEvents(b');
      assert Events(b.taken) + b'.buffer == log + [e];
    case Tick => FlushKeepsEvents(b);
    case Finish(i, ok) =>
      if i < |b.taken| {
        EventsIgnoreStatus(b.taken, i, if ok then Delivered else Lost);
      }
  }

  // Nothing is lost, duplicated or reordered before the HTTP call, whatever the interleaving.
  lemma {:induction false} NothingLostBeforeSending<E>(actions: seq<Action<E>>)
    ensures Accounted(Run(actions), Appended(actions))
  {
    if actions != [] {
      NothingLostBeforeSending(Front(actions));
      StepAccounted(Run(Front(actions)), Appended(Front(actions)), Last(actions));
      assert Appended(Front(actions)) + [] == Appended(Front(actions));
    }
  }

  lemma FlushKeepsEvents<E>(b: Batching<E>)
    ensures Events(Flush(b).taken) + Flush(b).buffer == Events(b.taken) + b.buffer
  {
    if b.buffer != [] {
      assert Front(Flush(b).taken) == b.taken;
    }
  }

  function WithStatus<E>(batches: seq<Batch<E>>, s: Status): seq<E> {
    if batches == [] then []
    else WithStatus(Front(batches), s) + (if Last(batches).status == s then Last(batches).events else [])
  }

  lemma {:induction false} BatchesByStatus<E>(batches: seq<Batch<E>>)
    ensures multiset(Events(batches)) ==
            multiset(WithStatus(batches, InFlight)) + multiset(WithStatus(batches, Delivered)) + multiset(WithStatus(batches, Lost))
  {
    if batches != [] {
      BatchesByStatus(Front(batches));
    }
  }

  // Conservation: each event appended is buffered, in flight, delivered or lost with its batch.
  lemma EventsConserved<E>(actions: seq<Action<E>>)
    ensures var b := Run(actions);
      multiset(Appended(actions)) == multiset(b.buffer) + multiset(WithStatus(b.taken, InFlight))
                                     + multiset(WithStatus(b.taken, Delivered)) + multiset(WithStatus(b.taken, Lost))
  {
    NothingLostBeforeSending(actions);
    BatchesByStatus(Run(actions).taken);
  }

  ghost predicate FailureIn<E>(actions: seq<Action<E>>) {
    exists a :: a in actions && a.Finish? && !a.ok
  }

  // An event is lost only through a failed HTTP call.
  lemma {:induction false} NoFailureNoLoss<E>(actions: seq<Action<E>>)
    requires !FailureIn(actions)
    ensures forall i :: 0 <= i < |Run(actions).taken| ==> Run(actions).taken[i].status != Lost
  {
    if actions != [] {
      assert Last(actions) in actions && forall a :: a in Front(actions) ==> a in actions;
      NoFailureNoLoss(Front(actions));
    }
  }
}
