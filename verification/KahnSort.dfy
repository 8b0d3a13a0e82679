// What a queue-driven topological sort computes, stated without its counters:
// the order is grown one dequeued node at a time, each node releasing the
// neighbours whose last unmet incoming link it supplies.
module KahnSort {
  import opened Prelude
  import opened FlowGraph

  function Count(s: seq<Id>, w: Id): nat {
    if s == [] then 0 else Count(Front(s), w) + (if Last(s) == w then 1 else 0)
  }

  // The number of links into w whose source is not done.
  function Pending(links: seq<Link>, w: Id, done: set<Id>): nat {
    if links == [] then 0
    else Pending(Front(links), w, done) + (if Last(links).tgt == w && Last(links).src !in done then 1 else 0)
  }

  function Roots(ids: seq<Id>, links: seq<Link>): seq<Id> {
    if ids == [] then []
    else Roots(Front(ids), links) + (if Pending(links, Last(ids), {}) == 0 then [Last(ids)] else [])
  }

  // Scanning the neighbours ns of a node just dequeued: those whose counter reaches zero.
  function Released(links: seq<Link>, done: set<Id>, ns: seq<Id>): seq<Id> {
    if ns == [] then []
    else Released(links, done, Front(ns)) + (if Pending(links, Last(ns), done) == Count(ns, Last(ns)) then [Last(ns)] else [])
  }

  // Everything ever enqueued once the nodes of `order` have been dequeued.
  function Enqueued(ids: seq<Id>, links: seq<Link>, order: seq<Id>): seq<Id> {
    if order == [] then Roots(ids, links)
    else Enqueued(ids, links, Front(order)) + Released(links, Elements(Front(order)), Targets(links, Last(order)))
  }

  // `order` is what a first-in first-out run may have dequeued so far.
  ghost predicate IsRun(ids: seq<Id>, links: seq<Link>, order: seq<Id>) {
    order != [] ==>
      && IsRun(ids, links, Front(order))
      && |order| <= |Enqueued(ids, links, Front(order))|
      && Last(order) == Enqueued(ids, links, Front(order))[|order| - 1]
  }

  // ... and nothing is left in the queue.
  ghost predicate IsKahnOrder(ids: seq<Id>, links: seq<Link>, order: seq<Id>) {
    IsRun(ids, links, order) && |Enqueued(ids, links, order)| == |order|
  }

  // The nodes that can be emitted at all: listed ones and link targets.
  function Universe(ids: seq<Id>, links: seq<Link>): set<Id> {
    Elements(ids) + set l | l in links :: l.tgt
  }

  // ---- Counting ----

  lemma {:induction false} CountPositive(s: seq<Id>, w: Id)
    ensures Count(s, w) > 0 <==> w in s
  {
    if s != [] {
      CountPositive(Front(s), w);
      assert s == Front(s) + [Last(s)];
    }
  }

  lemma {:induction false} CountPrefix(s: seq<Id>, k: nat, w: Id)
    requires k <= |s|
    ensures Count(s[..k], w) <= Count(s, w)
    ensures Count(s[..k], w) == Count(s, w) ==> w !in s[k..]
    decreases |s|
  {
    if k < |s| {
      assert Front(s)[..k] == s[..k];
      CountPrefix(Front(s), k, w);
      assert s[k..] == Front(s)[k..] + [Last(s)];
    } else {
      assert s[..k] == s;
    }
  }

  lemma {:induction false} PendingZero(links: seq<Link>, w: Id, done: set<Id>)
    ensures Pending(links, w, done) == 0 <==> forall l :: l in links && l.tgt == w ==> l.src in done
  {
    if links != [] {
      PendingZero(Front(links), w, done);
      assert links == Front(links) + [Last(links)];
    }
  }

  lemma CountTargets(links: seq<Link>, v: Id, w: Id)
    requires links != []
    ensures Count(Targets(links, v), w) == Count(Targets(Front(links), v), w) + if Last(links) == Link(v, w) then 1 else 0
  {
    if Last(links).src == v {
      assert Front(Targets(links, v)) == Targets(Front(links), v);
    } else {
      assert Targets(links, v) == Targets(Front(links), v);
    }
  }

  // Finishing v discharges exactly its parallel links into w.
  lemma {:induction false} PendingStep(links: seq<Link>, w: Id, done: set<Id>, v: Id)
    requires v !in done
    ensures Pending(links, w, done) == Pending(links, w, done + {v}) + Count(Targets(links, v), w)
  {
    if links != [] {
      CountTargets(links, v, w);
      PendingStep(Front(links), w, done, v);
    }
  }

  lemma {:induction false} RootsExact(ids: seq<Id>, links: seq<Link>)
    requires Distinct(ids)
    ensures Distinct(Roots(ids, links))
    ensures forall w :: w in Roots(ids, links) <==> w in ids && Pending(links, w, {}) == 0
  {
    if ids != [] {
      RootsExact(Front(ids), links);
      assert ids == Front(ids) + [Last(ids)];
    }
  }

  ghost predicate ReleasedAre(links: seq<Link>, done: set<Id>, ns: seq<Id>) {
    var r := Released(links, done, ns);
    && Distinct(r)
    && forall w :: w in r <==> w in ns && Pending(links, w, done) == Count(ns, w)
  }

  lemma ReleasedSnoc(links: seq<Link>, done: set<Id>, ns: seq<Id>, w: Id)
    requires ReleasedAre(links, done, ns)
    requires w in ns ==> Pending(links, w, done) != Count(ns, w)
    ensures ReleasedAre(links, done, ns + [w])
  {
    var r, r' := Released(links, done, ns), Released(links, done, ns + [w]);
    assert Front(ns + [w]) == ns;
    assert w !in r;
    forall u
      ensures u in r' <==> u in ns + [w] && Pending(links, u, done) == Count(ns + [w], u)
    {
    }
  }

  lemma {:induction false} ReleasedPrefixExact(links: seq<Link>, done: set<Id>, v: Id, k: nat)
    requires v !in done && k <= |Targets(links, v)|
    ensures ReleasedAre(links, done, Targets(links, v)[..k])
    decreases k
  {
    if k > 0 {
      var ts := Targets(links, v);
      var w := ts[k - 1];
      ReleasedPrefixExact(links, done, v, k - 1);
      assert ts[..k] == ts[..k - 1] + [w];
      // A neighbour already at zero has no later occurrence.
      PendingStep(links, w, done, v);
      CountPrefix(ts, k - 1, w);
      ReleasedSnoc(links, done, ts[..k - 1], w);
    }
  }

  // A neighbour is released exactly when v was its last unmet source.
  lemma ReleasedExact(links: seq<Link>, done: set<Id>, v: Id)
    requires v !in done
    ensures Distinct(Released(links, done, Targets(links, v)))
    ensures forall w :: w in Released(links, done, Targets(links, v)) <==>
              Link(v, w) in links && Pending(links, w, done + {v}) == 0
  {
    var ts := Targets(links, v);
    assert ts[..|ts|] == ts;
    ReleasedPrefixExact(links, done, v, |ts|);
    forall w
      ensures w in Released(links, done, ts) <==> Link(v, w) in links && Pending(links, w, done + {v}) == 0
    {
      TargetsExact(links, v, w);
      PendingStep(links, w, done, v);
    }
  }

  // ---- Partial runs ----

  lemma StartReady(ids: seq<Id>, links: seq<Link>, w: Id)
    requires Distinct(ids)
    ensures w in Roots(ids, links) <==> w in Universe(ids, links) && Pending(links, w, {}) == 0
  {
    RootsExact(ids, links);
    PendingZero(links, w, {});
  }

  // Emitting v makes ready, besides what was so, just the neighbours it releases.
  lemma ReadyStep(ids: seq<Id>, links: seq<Link>, done: set<Id>, v: Id, w: Id)
    requires v !in done
    ensures var r := Released(links, done, Targets(links, v));
      && (w in r ==> w in Universe(ids, links) && Pending(links, w, done) != 0)
      && (Pending(links, w, done + {v}) == 0 <==> Pending(links, w, done) == 0 || w in r)
  {
    ReleasedExact(links, done, v);
    PendingStep(links, w, done, v);
    TargetsExact(links, v, w);
    CountPositive(Targets(links, v), w);
  }

  // The queue discipline in one statement: what has been enqueued is exactly what is
  // ready, without repetition, and the nodes dequeued are a prefix of it.
  lemma {:induction false} RunInvariant(ids: seq<Id>, links: seq<Link>, order: seq<Id>)
    requires Distinct(ids) && IsRun(ids, links, order)
    ensures Distinct(Enqueued(ids, links, order)) && Distinct(order)
    ensures order <= Enqueued(ids, links, order)
    ensures forall w :: w in Enqueued(ids, links, order) <==>
              w in Universe(ids, links) && Pending(links, w, Elements(order)) == 0
  {
    if order == [] {
      assert Elements(order) == {};
      RootsExact(ids, links);
      forall w
        ensures w in Roots(ids, links) <==> w in Universe(ids, links) && Pending(links, w, {}) == 0
      {
        StartReady(ids, links, w);
      }
    } else {
      var before, v := Front(order), Last(order);
      RunInvariant(ids, links, before);
      var e, r := Enqueued(ids, links, before), Released(links, Elements(before), Targets(links, v));
      FrontAndLast(order);
      ElementsAppend(before, v);
      assert v !in before by {
        assert v == e[|before|];
      }
      ReleasedExact(links, Elements(before), v);
      forall w
        ensures w in e + r <==> w in Universe(ids, links) && Pending(links, w, Elements(order)) == 0
        ensures w in e ==> w !in r
      {
        ReadyStep(ids, links, Elements(before), v, w);
      }
      DistinctConcat(e, r);
    }
  }

  lemma NextNode(ids: seq<Id>, links: seq<Link>, order: seq<Id>)
    requires IsRun(ids, links, order) && order != []
    ensures order == Front(order) + [Enqueued(ids, links, Front(order))[|order| - 1]]
  {
    FrontAndLast(order);
  }

  lemma WholePrefix(a: seq<Id>, b: seq<Id>)
    requires a <= b && |a| == |b|
    ensures a == b
  {
  }

  // Two runs on the same graph never diverge.
  lemma {:induction false} RunsAgree(ids: seq<Id>, links: seq<Link>, a: seq<Id>, b: seq<Id>)
    requires Distinct(ids) && IsRun(ids, links, a) && IsRun(ids, links, b) && |a| <= |b|
    ensures a <= b
    decreases |a| + |b|
  {
    if |a| == |b| {
      if a != [] {
        RunsAgree(ids, links, Front(a), Front(b));
        WholePrefix(Front(a), Front(b));
        NextNode(ids, links, a);
        NextNode(ids, links, b);
      }
    } else {
      RunsAgree(ids, links, a, Front(b));
    }
  }

  lemma {:induction false} RunPrefix(ids: seq<Id>, links: seq<Link>, order: seq<Id>, k: nat)
    requires IsRun(ids, links, order) && k <= |order|
    ensures IsRun(ids, links, order[..k])
    decreases |order|
  {
    if k < |order| {
      RunPrefix(ids, links, Front(order), k);
      assert Front(order)[..k] == order[..k];
    } else {
      assert order[..k] == order;
    }
  }

  // ---- Main results ----

  // The order is a function of the listed ids and the links.
  lemma KahnOrderUnique(ids: seq<Id>, links: seq<Link>, a: seq<Id>, b: seq<Id>)
    requires Distinct(ids) && IsKahnOrder(ids, links, a) && IsRun(ids, links, b)
    ensures b <= a
    ensures IsKahnOrder(ids, links, b) ==> a == b
  {
    CompleteIsLongest(ids, links, a, b);
    RunsAgree(ids, links, b, a);
    if IsKahnOrder(ids, links, b) {
      CompleteIsLongest(ids, links, b, a);
    }
  }

  lemma CompleteIsLongest(ids: seq<Id>, links: seq<Link>, a: seq<Id>, b: seq<Id>)
    requires Distinct(ids) && IsKahnOrder(ids, links, a) && IsRun(ids, links, b)
    ensures |b| <= |a|
  {
    if |b| > |a| {
      RunsAgree(ids, links, a, b);
      var c := b[..|a| + 1];
      assert Front(c) == a;
      RunPrefix(ids, links, b, |a| + 1);
      assert false;
    }
  }

  // Every graph has one: a run that still has a queue can be extended.
  lemma KahnOrderExists(ids: seq<Id>, links: seq<Link>, start: seq<Id>) returns (order: seq<Id>)
    requires Distinct(ids) && IsRun(ids, links, start)
    ensures IsKahnOrder(ids, links, order)
    decreases |Universe(ids, links)| - |start|
  {
    order := start;
    var e := Enqueued(ids, links, start);
    RunInvariant(ids, links, start);
    if |e| > |start| {
      var queue := e[|start|..];
      assert e == start + queue;
      QueueHead(ids, links, start, queue);
      QueueStep(ids, links, start, queue);
      order := KahnOrderExists(ids, links, start + [queue[0]]);
    }
  }

  lemma SourcesFirst(ids: seq<Id>, links: seq<Link>, order: seq<Id>, l: Link, j: nat)
    requires Distinct(ids) && IsRun(ids, links, order)
    requires l in links && j < |order| && order[j] == l.tgt
    ensures l.src in order[..j]
  {
    RunPrefix(ids, links, order, j + 1);
    RunPrefix(ids, links, order, j);
    var before := order[..j];
    assert Front(order[..j + 1]) == before;
    RunInvariant(ids, links, before);
    assert order[j] in Enqueued(ids, links, before);
    PendingZero(links, order[j], Elements(before));
  }

  // Closed under "all incoming sources are in".
  ghost predicate Closed(ids: seq<Id>, links: seq<Link>, s: set<Id>) {
    forall w :: w in Universe(ids, links) && (forall l :: l in links && l.tgt == w ==> l.src in s) ==> w in s
  }

  ghost predicate IsLeastClosed(ids: seq<Id>, links: seq<Link>, s: set<Id>) {
    && s <= Universe(ids, links)
    && Closed(ids, links, s)
    && forall t :: Closed(ids, links, t) ==> s <= t
  }

  // The emitted set is the least closed set.
  lemma KahnSetIsLeastClosed(ids: seq<Id>, links: seq<Link>, order: seq<Id>)
    requires Distinct(ids) && IsKahnOrder(ids, links, order)
    ensures Distinct(order) && IsLeastClosed(ids, links, Elements(order))
  {
    RunInvariant(ids, links, order);
    assert order == Enqueued(ids, links, order);
    forall w | w in Universe(ids, links) && forall l :: l in links && l.tgt == w ==> l.src in Elements(order)
      ensures w in Elements(order)
    {
      PendingZero(links, w, Elements(order));
    }
    forall s | Closed(ids, links, s)
      ensures Elements(order) <= s
    {
      RunWithinClosed(ids, links, order, s);
    }
  }

  lemma {:induction false} RunWithinClosed(ids: seq<Id>, links: seq<Link>, order: seq<Id>, s: set<Id>)
    requires Distinct(ids) && IsRun(ids, links, order) && Closed(ids, links, s)
    ensures Elements(order) <= s
  {
    if order != [] {
      RunWithinClosed(ids, links, Front(order), s);
      LastIsReady(ids, links, order);
      assert order == Front(order) + [Last(order)];
    }
  }

  // A dequeued node had all its sources dequeued before it.
  lemma LastIsReady(ids: seq<Id>, links: seq<Link>, order: seq<Id>)
    requires Distinct(ids) && IsRun(ids, links, order) && order != []
    ensures Last(order) in Universe(ids, links)
    ensures forall l :: l in links && l.tgt == Last(order) ==> l.src in Elements(Front(order))
  {
    var before, v := Front(order), Last(order);
    RunInvariant(ids, links, before);
    assert v in Enqueued(ids, links, before);
    PendingZero(links, v, Elements(before));
  }

  // Some node that can never be emitted, being neither listed nor a target, reaches w.
  ghost predicate BelowUnknown(ids: seq<Id>, links: seq<Link>, w: Id) {
    exists u :: u !in Universe(ids, links) && Reaches(links, u, w)
  }

  // A node is left out exactly when it lies on a cycle, or downstream of one or of an unknown node.
  lemma OmittedIff(ids: seq<Id>, links: seq<Link>, order: seq<Id>, w: Id)
    requires Distinct(ids) && IsKahnOrder(ids, links, order) && w in Universe(ids, links)
    ensures w !in order <==> OnOrBelowCycle(links, w) || BelowUnknown(ids, links, w)
  {
    if w in order {
      RunInvariant(ids, links, order);
      KahnSetIsLeastClosed(ids, links, order);
      assert forall k :: 0 <= k < |order| ==> order[k] in Elements(order);
      var z :| 0 <= z < |order| && order[z] == w;
      if OnOrBelowCycle(links, w) {
        var p, i :| IsWalk(links, p) && 0 < i < |p| && p[i] == p[0] && Last(p) == w;
        var y := WalkPositions(ids, links, order, p, i, |p| - 1, z);
        var x := WalkPositions(ids, links, order, p, 0, i, y);
        assert false;
      }
      if u :| u !in Universe(ids, links) && Reaches(links, u, w) {
        var p :| IsWalk(links, p) && p[0] == u && Last(p) == w;
        var x := WalkPositions(ids, links, order, p, 0, |p| - 1, z);
        assert false;
      }
    } else {
      CauseAbove(ids, links, order, w);
    }
  }

  // When every link source can be emitted, cycles are the only cause.
  lemma OmittedIffOnOrBelowCycle(ids: seq<Id>, links: seq<Link>, order: seq<Id>, w: Id)
    requires Distinct(ids) && IsKahnOrder(ids, links, order) && w in Universe(ids, links)
    requires forall l :: l in links ==> l.src in Universe(ids, links)
    ensures w !in order <==> OnOrBelowCycle(links, w)
  {
    OmittedIff(ids, links, order, w);
    forall p | IsWalk(links, p) && Last(p) == w
      ensures p[0] in Universe(ids, links)
    {
      if |p| > 1 {
        assert Link(p[0], p[0 + 1]) in links;
      }
    }
  }

  lemma SourcePosition(ids: seq<Id>, links: seq<Link>, order: seq<Id>, l: Link, y: nat) returns (x: nat)
    requires Distinct(ids) && IsRun(ids, links, order)
    requires l in links && y < |order| && order[y] == l.tgt
    ensures x < y && order[x] == l.src
  {
    SourcesFirst(ids, links, order, l, y);
    x :| x < y && order[x] == l.src;
  }

  // Along a walk to the node emitted at position y, positions strictly increase.
  lemma {:induction false} WalkPositions(ids: seq<Id>, links: seq<Link>, order: seq<Id>, p: seq<Id>, i: nat, j: nat, y: nat)
    returns (x: nat)
    requires Distinct(ids) && IsRun(ids, links, order) && IsWalk(links, p)
    requires i <= j < |p| && y < |order| && order[y] == p[j]
    ensures x <= y && order[x] == p[i]
    ensures i < j ==> x < y
    decreases j - i
  {
    x := y;
    if i < j {
      var z := SourcePosition(ids, links, order, Link(p[j - 1], p[j]), y);
      x := WalkPositions(ids, links, order, p, i, j - 1, z);
    }
  }

  // From an omitted node one can walk backwards through omitted nodes for ever, or to an unknown one.
  lemma {:induction false} OmittedWalk(ids: seq<Id>, links: seq<Link>, order: seq<Id>, w: Id, n: nat) returns (p: seq<Id>)
    requires Distinct(ids) && IsKahnOrder(ids, links, order)
    requires w in Universe(ids, links) && w !in order
    ensures IsWalk(links, p) && Last(p) == w
    ensures p[0] !in Universe(ids, links) || (|p| == n + 1 && p[0] !in order && Elements(p) <= Universe(ids, links))
  {
    if n == 0 {
      p := [w];
    } else {
      p := OmittedWalk(ids, links, order, w, n - 1);
      if p[0] in Universe(ids, links) {
        var u := UnmetSource(ids, links, order, p[0]);
        p := [u] + p;
      }
    }
  }

  lemma UnmetSource(ids: seq<Id>, links: seq<Link>, order: seq<Id>, w: Id) returns (u: Id)
    requires Distinct(ids) && IsKahnOrder(ids, links, order) && w in Universe(ids, links) && w !in order
    ensures Link(u, w) in links && u !in order
  {
    RunInvariant(ids, links, order);
    assert w !in Enqueued(ids, links, order);
    PendingZero(links, w, Elements(order));
    var l :| l in links && l.tgt == w && l.src !in order;
    u := l.src;
  }

  lemma CauseAbove(ids: seq<Id>, links: seq<Link>, order: seq<Id>, w: Id)
    requires Distinct(ids) && IsKahnOrder(ids, links, order)
    requires w in Universe(ids, links) && w !in order
    ensures OnOrBelowCycle(links, w) || BelowUnknown(ids, links, w)
  {
    var u := Universe(ids, links);
    var p := OmittedWalk(ids, links, order, w, |u|);
    if p[0] in u {
      var i, j := Pigeonhole(p, u);
      WalkSuffix(links, p, i);
      var q := p[i..];
      assert q[j - i] == q[0] && Last(q) == w;
    } else {
      assert Reaches(links, p[0], w);
    }
  }

  // ---- One dequeue, as the counting loops perform it ----

  // The counters after the first k neighbours of v have been decremented.
  ghost predicate Counters(ids: seq<Id>, links: seq<Link>, done: set<Id>, ns: seq<Id>, keys: set<Id>, counter: map<Id, int>) {
    counter.Keys == keys && forall w :: w in keys ==> counter[w] == Pending(links, w, done) - Count(ns, w)
  }

  lemma CountersNext(ids: seq<Id>, links: seq<Link>, done: set<Id>, v: Id, keys: set<Id>, counter: map<Id, int>)
    requires v !in done && Counters(ids, links, done, Targets(links, v), keys, counter)
    ensures Counters(ids, links, done + {v}, [], keys, counter)
  {
    forall w | w in keys {
      PendingStep(links, w, done, v);
    }
  }

  lemma UniverseGrows(ids: seq<Id>, links: seq<Link>, l: Link)
    ensures Universe(ids, links + [l]) == Universe(ids, links) + {l.tgt}
  {
    assert l in links + [l];
    assert forall k :: k in links + [l] <==> k in links || k == l;
  }

  // Reading one more link keeps the counters and the adjacency lists in step.
  lemma CountersAddLink(ids: seq<Id>, links: seq<Link>, l: Link, counter: map<Id, int>)
    requires Counters(ids, links, {}, [], Universe(ids, links), counter)
    ensures Counters(ids, links + [l], {}, [], Universe(ids, links + [l]), counter[l.tgt := GetOr(counter, l.tgt, 0) + 1])
    ensures forall v :: Targets(links + [l], v) == Targets(links, v) + if l.src == v then [l.tgt] else []
  {
    UniverseGrows(ids, links, l);
    assert Front(links + [l]) == links;
    if l.tgt !in counter {
      PendingZero(links, l.tgt, {});
    }
  }

  // The queue is what has been enqueued and not dequeued; it is empty only at the end.
  ghost predicate QueueState(ids: seq<Id>, links: seq<Link>, order: seq<Id>, queue: seq<Id>) {
    IsRun(ids, links, order) && Enqueued(ids, links, order) == order + queue
  }

  lemma QueueHead(ids: seq<Id>, links: seq<Link>, order: seq<Id>, queue: seq<Id>)
    requires Distinct(ids) && QueueState(ids, links, order, queue) && queue != []
    ensures queue[0] !in order && queue[0] in Universe(ids, links)
    ensures |order| < |Universe(ids, links)|
  {
    RunInvariant(ids, links, order);
    var e := Enqueued(ids, links, order);
    assert e[|order|] == queue[0];
    assert queue[0] in e;
    DistinctSize(e);
    SubsetSize(Elements(e), Universe(ids, links));
  }

  lemma QueueStep(ids: seq<Id>, links: seq<Link>, order: seq<Id>, queue: seq<Id>)
    requires QueueState(ids, links, order, queue) && queue != []
    ensures QueueState(ids, links, order + [queue[0]], queue[1..] + Released(links, Elements(order), Targets(links, queue[0])))
  {
    var v, e := queue[0], order + queue;
    var r := Released(links, Elements(order), Targets(links, v));
    var next := order + [v];
    Dequeued(order, queue, r);
    assert Enqueued(ids, links, next) == e + r;
  }

  lemma Dequeued(order: seq<Id>, queue: seq<Id>, r: seq<Id>)
    requires queue != []
    ensures var next := order + [queue[0]];
      && Front(next) == order && Last(next) == queue[0] && (order + queue)[|order|] == queue[0]
      && order + queue + r == next + (queue[1..] + r)
  {
  }

  // The initial queue: the listed nodes whose counter is zero.
  method ReadyNodes(ids: seq<Id>, ghost links: seq<Link>, ghost keys: set<Id>, inDegree: map<Id, int>) returns (queue: seq<Id>)
    requires Counters(ids, links, {}, [], keys, inDegree) && Elements(ids) <= keys
    ensures queue == Roots(ids, links)
  {
    queue := [];
    for i := 0 to |ids|
      invariant queue == Roots(ids[..i], links)
    {
      assert Front(ids[..i + 1]) == ids[..i] && ids[i] in Elements(ids);
      if inDegree[ids[i]] == 0 {
        queue := queue + [ids[i]];
      }
    }
    assert ids[..|ids|] == ids;
  }
}
