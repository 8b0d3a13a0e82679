// The order of Kahn's queue without a queue: nodes come by when their last source was emitted,
// then by the place of the link that made them ready.
module KahnPriority {
  import opened Prelude
  import opened FlowGraph
  import opened KahnSort

  // After the first k emitted nodes w has no unmet source, and the k-th was the last of them.
  ghost predicate ReadyAfter(links: seq<Link>, order: seq<Id>, w: Id, k: nat) {
    && k <= |order|
    && (forall l :: l in links && l.tgt == w ==> l.src in order[..k])
    && (k > 0 ==> Link(order[k - 1], w) in links)
  }

  // The last of the parallel links l.
  ghost predicate LastLinkAt(links: seq<Link>, l: Link, x: nat) {
    x < |links| && links[x] == l && forall y :: x < y < |links| ==> links[y] != l
  }

  ghost predicate ListedBefore(ids: seq<Id>, u: Id, w: Id) {
    exists x, y :: 0 <= x < y < |ids| && ids[x] == u && ids[y] == w
  }

  ghost predicate LinkedBefore(links: seq<Link>, v: Id, u: Id, w: Id) {
    exists x, y :: x < y && LastLinkAt(links, Link(v, u), x) && LastLinkAt(links, Link(v, w), y)
  }

  // u has priority: it was ready earlier; among nodes without sources the listing decides, and
  // among nodes released by one node the order of its last links to them.
  ghost predicate Priority(ids: seq<Id>, links: seq<Link>, order: seq<Id>, u: Id, w: Id) {
    exists a, b :: ReadyAfter(links, order, u, a) && ReadyAfter(links, order, w, b) && Precedes(ids, links, order, u, a, w, b)
  }

  ghost predicate Precedes(ids: seq<Id>, links: seq<Link>, order: seq<Id>, u: Id, a: nat, w: Id, b: nat) {
    || a < b
    || (a == b == 0 && ListedBefore(ids, u, w))
    || (0 < a == b <= |order| && LinkedBefore(links, order[a - 1], u, w))
  }

  // ---- Positions ----

  ghost predicate Increasing(at: seq<nat>) {
    forall i, j :: 0 <= i < j < |at| ==> at[i] < at[j]
  }

  // `at` are the places of r's elements in s, in order.
  ghost predicate PlacedAt(s: seq<Id>, r: seq<Id>, at: seq<nat>) {
    |at| == |r| && Increasing(at) && forall i :: 0 <= i < |at| ==> at[i] < |s| && s[at[i]] == r[i]
  }

  lemma PlacedLater(s: seq<Id>, x: Id, r: seq<Id>, at: seq<nat>)
    requires PlacedAt(s, r, at)
    ensures PlacedAt(s + [x], r, at) && PlacedAt(s + [x], r + [x], at + [|s|])
  {
  }

  lemma {:induction false} RootPositions(ids: seq<Id>, links: seq<Link>) returns (at: seq<nat>)
    ensures PlacedAt(ids, Roots(ids, links), at)
  {
    at := [];
    if ids != [] {
      at := RootPositions(Front(ids), links);
      PlacedLater(Front(ids), Last(ids), Roots(Front(ids), links), at);
      FrontAndLast(ids);
      if Pending(links, Last(ids), {}) == 0 {
        at := at + [|ids| - 1];
      }
    }
  }

  // `at` are the places of v's links, in order.
  ghost predicate LinksAt(links: seq<Link>, v: Id, at: seq<nat>) {
    && |at| == |Targets(links, v)| && Increasing(at)
    && (forall i :: 0 <= i < |at| ==> at[i] < |links| && links[at[i]] == Link(v, Targets(links, v)[i]))
    && forall x :: 0 <= x < |links| && links[x].src == v ==> x in at
  }

  lemma {:induction false} TargetPositions(links: seq<Link>, v: Id) returns (at: seq<nat>)
    ensures LinksAt(links, v, at)
  {
    at := [];
    if links != [] {
      at := TargetPositions(Front(links), v);
      if Last(links).src == v {
        at := at + [|links| - 1];
      }
    }
  }

  // A node is released at an occurrence among the neighbours by which all its pending links are counted.
  ghost predicate ReleasedAt(links: seq<Link>, done: set<Id>, ns: seq<Id>, w: Id, y: nat) {
    y < |ns| && ns[y] == w && Count(ns[..y + 1], w) == Pending(links, w, done)
  }

  ghost predicate AllReleasedAt(links: seq<Link>, done: set<Id>, ns: seq<Id>, r: seq<Id>, at: seq<nat>) {
    |at| == |r| && Increasing(at) && forall i :: 0 <= i < |at| ==> ReleasedAt(links, done, ns, r[i], at[i])
  }

  lemma ReleasedAtLater(links: seq<Link>, done: set<Id>, ns: seq<Id>, x: Id, w: Id, y: nat)
    requires ReleasedAt(links, done, ns, w, y)
    ensures ReleasedAt(links, done, ns + [x], w, y)
  {
    assert (ns + [x])[..y + 1] == ns[..y + 1];
  }

  lemma AllReleasedLater(links: seq<Link>, done: set<Id>, ns: seq<Id>, x: Id, r: seq<Id>, at: seq<nat>)
    requires AllReleasedAt(links, done, ns, r, at)
    ensures AllReleasedAt(links, done, ns + [x], r, at)
  {
    forall i | 0 <= i < |at|
      ensures ReleasedAt(links, done, ns + [x], r[i], at[i])
    {
      ReleasedAtLater(links, done, ns, x, r[i], at[i]);
    }
  }

  lemma OneMoreReleased(links: seq<Link>, done: set<Id>, ns: seq<Id>, w: Id, r: seq<Id>, at: seq<nat>, y: nat)
    requires AllReleasedAt(links, done, ns, r, at) && ReleasedAt(links, done, ns, w, y)
    requires forall i :: 0 <= i < |at| ==> at[i] < y
    ensures AllReleasedAt(links, done, ns, r + [w], at + [y])
  {
  }

  lemma {:induction false} ReleasePositions(links: seq<Link>, done: set<Id>, ns: seq<Id>) returns (at: seq<nat>)
    ensures AllReleasedAt(links, done, ns, Released(links, done, ns), at)
  {
    at := [];
    if ns != [] {
      at := ReleasePositions(links, done, Front(ns));
      AllReleasedLater(links, done, Front(ns), Last(ns), Released(links, done, Front(ns)), at);
      FrontAndLast(ns);
      if Pending(links, Last(ns), done) == Count(ns, Last(ns)) {
        assert ns[..|ns|] == ns;
        forall i | 0 <= i < |at|
          ensures at[i] < |ns| - 1
        {
          assert ReleasedAt(links, done, Front(ns), Released(links, done, Front(ns))[i], at[i]);
        }
        OneMoreReleased(links, done, ns, Last(ns), Released(links, done, Front(ns)), at, |ns| - 1);
        at := at + [|ns| - 1];
      }
    }
  }

  // Nodes released by v stand in the order of v's last links to them.
  lemma ReleasedInLinkOrder(links: seq<Link>, done: set<Id>, v: Id, i: nat, j: nat)
    requires v !in done && i < j < |Released(links, done, Targets(links, v))|
    ensures var r := Released(links, done, Targets(links, v)); LinkedBefore(links, v, r[i], r[j])
  {
    var r := Released(links, done, Targets(links, v));
    var at := TargetPositions(links, v);
    var freed := ReleasePositions(links, done, Targets(links, v));
    ReleasedPending(links, done, v, r[i]);
    ReleasedPending(links, done, v, r[j]);
    LastOccurrence(links, done, v, r[i], freed[i], at);
    LastOccurrence(links, done, v, r[j], freed[j], at);
    TwoLast(links, v, r[i], r[j], at[freed[i]], at[freed[j]]);
  }

  lemma ReleasedPending(links: seq<Link>, done: set<Id>, v: Id, w: Id)
    requires v !in done && w in Released(links, done, Targets(links, v))
    ensures Pending(links, w, done + {v}) == 0
  {
    ReleasedExact(links, done, v);
  }

  lemma TwoLast(links: seq<Link>, v: Id, u: Id, w: Id, x: nat, y: nat)
    requires x < y && LastLinkAt(links, Link(v, u), x) && LastLinkAt(links, Link(v, w), y)
    ensures LinkedBefore(links, v, u, w)
  {
  }

  lemma LastOccurrence(links: seq<Link>, done: set<Id>, v: Id, w: Id, y: nat, at: seq<nat>)
    requires LinksAt(links, v, at) && ReleasedAt(links, done, Targets(links, v), w, y)
    requires v !in done && Pending(links, w, done + {v}) == 0
    ensures LastLinkAt(links, Link(v, w), at[y])
  {
    var ns := Targets(links, v);
    PendingStep(links, w, done, v);
    CountPrefix(ns, y + 1, w);
    forall z | y < z < |ns|
      ensures ns[z] != w
    {
      assert ns[y + 1..][z - (y + 1)] == ns[z];
    }
    forall x | at[y] < x < |links| && links[x].src == v
      ensures links[x].tgt != w
    {
      var z :| 0 <= z < |at| && at[z] == x;
      LaterIndex(at, y, z);
    }
  }

  lemma LaterIndex(at: seq<nat>, y: nat, z: nat)
    requires Increasing(at) && y < |at| && z < |at| && at[y] < at[z]
    ensures y < z
  {
  }

  // ---- Runs ----

  lemma ReadyLater(links: seq<Link>, order: seq<Id>, v: Id, w: Id, k: nat)
    requires ReadyAfter(links, order, w, k)
    ensures ReadyAfter(links, order + [v], w, k)
  {
    assert (order + [v])[..k] == order[..k];
  }

  lemma ReleasedNow(links: seq<Link>, order: seq<Id>, v: Id, w: Id)
    requires v !in order && w in Released(links, Elements(order), Targets(links, v))
    ensures ReadyAfter(links, order + [v], w, |order| + 1)
  {
    ReleasedExact(links, Elements(order), v);
    PendingZero(links, w, Elements(order) + {v});
    assert (order + [v])[..|order| + 1] == order + [v];
  }

  lemma PriorityLater(ids: seq<Id>, links: seq<Link>, order: seq<Id>, v: Id, u: Id, w: Id)
    requires Priority(ids, links, order, u, w)
    ensures Priority(ids, links, order + [v], u, w)
  {
    var a, b :| ReadyAfter(links, order, u, a) && ReadyAfter(links, order, w, b) && Precedes(ids, links, order, u, a, w, b);
    ReadyLater(links, order, v, u, a);
    ReadyLater(links, order, v, w, b);
    assert Precedes(ids, links, order + [v], u, a, w, b);
  }

  // Whatever is enqueued became ready by some point.
  lemma {:induction false} EnqueuedReady(ids: seq<Id>, links: seq<Link>, order: seq<Id>, u: Id) returns (k: nat)
    requires Distinct(ids) && IsRun(ids, links, order) && u in Enqueued(ids, links, order)
    ensures ReadyAfter(links, order, u, k)
  {
    if order == [] {
      k := 0;
      RootsExact(ids, links);
      PendingZero(links, u, {});
    } else {
      var before, v := Front(order), Last(order);
      FrontAndLast(order);
      if u in Enqueued(ids, links, before) {
        k := EnqueuedReady(ids, links, before, u);
        ReadyLater(links, before, v, u, k);
      } else {
        k := |order|;
        RunInvariant(ids, links, order);
        LastIsNew(before, v);
        ReleasedNow(links, before, v, u);
      }
    }
  }

  lemma LastIsNew(before: seq<Id>, v: Id)
    requires Distinct(before + [v])
    ensures v !in before
  {
    forall i | 0 <= i < |before|
      ensures before[i] != v
    {
      assert (before + [v])[i] != (before + [v])[|before|];
    }
  }

  lemma RootsInOrder(ids: seq<Id>, links: seq<Link>, i: nat, j: nat)
    requires Distinct(ids) && i < j < |Roots(ids, links)|
    ensures Priority(ids, links, [], Roots(ids, links)[i], Roots(ids, links)[j])
  {
    var r := Roots(ids, links);
    var at := RootPositions(ids, links);
    assert ListedBefore(ids, r[i], r[j]) by {
      assert ids[at[i]] == r[i] && ids[at[j]] == r[j] && at[i] < at[j];
    }
    RootsExact(ids, links);
    assert r[i] in r && r[j] in r;
    PendingZero(links, r[i], {});
    PendingZero(links, r[j], {});
    assert ReadyAfter(links, [], r[i], 0) && ReadyAfter(links, [], r[j], 0);
    assert Precedes(ids, links, [], r[i], 0, r[j], 0);
  }

  // The newly released come after everything enqueued before, and among themselves by links.
  lemma ReleasedInOrder(ids: seq<Id>, links: seq<Link>, before: seq<Id>, v: Id, e: seq<Id>, r: seq<Id>, i: nat, j: nat)
    requires Distinct(ids) && IsRun(ids, links, before) && v !in before
    requires e == Enqueued(ids, links, before) && r == Released(links, Elements(before), Targets(links, v))
    requires i < j < |e + r| && j >= |e|
    ensures Priority(ids, links, before + [v], (e + r)[i], (e + r)[j])
  {
    var u, w := (e + r)[i], (e + r)[j];
    assert w == r[j - |e|];
    if i < |e| {
      assert u == e[i];
      ReleasedNow(links, before, v, w);
      ReleasedAfterOthers(ids, links, before, v, u, w);
    } else {
      assert u == r[i - |e|];
      ReleasedTogether(ids, links, before, v, i - |e|, j - |e|);
    }
  }

  lemma ReleasedAfterOthers(ids: seq<Id>, links: seq<Link>, before: seq<Id>, v: Id, u: Id, w: Id)
    requires Distinct(ids) && IsRun(ids, links, before) && v !in before && u in Enqueued(ids, links, before)
    requires ReadyAfter(links, before + [v], w, |before| + 1)
    ensures Priority(ids, links, before + [v], u, w)
  {
    var a := EnqueuedReady(ids, links, before, u);
    ReadyLater(links, before, v, u, a);
    assert Precedes(ids, links, before + [v], u, a, w, |before| + 1);
  }

  lemma ReleasedTogether(ids: seq<Id>, links: seq<Link>, before: seq<Id>, v: Id, i: nat, j: nat)
    requires v !in before && i < j < |Released(links, Elements(before), Targets(links, v))|
    ensures var r := Released(links, Elements(before), Targets(links, v)); Priority(ids, links, before + [v], r[i], r[j])
  {
    var r, k := Released(links, Elements(before), Targets(links, v)), |before| + 1;
    ReleasedNow(links, before, v, r[i]);
    ReleasedNow(links, before, v, r[j]);
    ReleasedInLinkOrder(links, Elements(before), v, i, j);
    assert (before + [v])[k - 1] == v;
    assert Precedes(ids, links, before + [v], r[i], k, r[j], k);
  }

  lemma {:induction false} EnqueuedInOrder(ids: seq<Id>, links: seq<Link>, order: seq<Id>, i: nat, j: nat)
    requires Distinct(ids) && IsRun(ids, links, order) && i < j < |Enqueued(ids, links, order)|
    ensures Priority(ids, links, order, Enqueued(ids, links, order)[i], Enqueued(ids, links, order)[j])
  {
    if order == [] {
      RootsInOrder(ids, links, i, j);
    } else {
      var before, v := Front(order), Last(order);
      FrontAndLast(order);
      RunInvariant(ids, links, order);
      LastIsNew(before, v);
      var e := Enqueued(ids, links, before);
      if j < |e| {
        EnqueuedInOrder(ids, links, before, i, j);
        PriorityLater(ids, links, before, v, e[i], e[j]);
      } else {
        ReleasedInOrder(ids, links, before, v, e, Released(links, Elements(before), Targets(links, v)), i, j);
      }
    }
  }

  // In a Kahn order every earlier node has priority over every later one.
  lemma KahnOrderByPriority(ids: seq<Id>, links: seq<Link>, order: seq<Id>, i: nat, j: nat)
    requires Distinct(ids) && IsKahnOrder(ids, links, order) && i < j < |order|
    ensures Priority(ids, links, order, order[i], order[j])
  {
    RunInvariant(ids, links, order);
    assert Enqueued(ids, links, order) == order;
    EnqueuedInOrder(ids, links, order, i, j);
  }

  lemma ReadyUnique(links: seq<Link>, order: seq<Id>, w: Id, a: nat, b: nat)
    requires Distinct(order) && ReadyAfter(links, order, w, a) && ReadyAfter(links, order, w, b)
    ensures a == b
  {
    ReadyAtMost(links, order, w, a, b);
    ReadyAtMost(links, order, w, b, a);
  }

  lemma ReadyAtMost(links: seq<Link>, order: seq<Id>, w: Id, a: nat, b: nat)
    requires Distinct(order) && ReadyAfter(links, order, w, a) && ReadyAfter(links, order, w, b)
    ensures b <= a
  {
    if b > 0 {
      assert order[b - 1] in order[..a];
      var i :| 0 <= i < a && order[i] == order[b - 1];
      assert i == b - 1;
    }
  }

  lemma LastLinkUnique(links: seq<Link>, l: Link, x: nat, y: nat)
    requires LastLinkAt(links, l, x) && LastLinkAt(links, l, y)
    ensures x == y
  {
  }

  lemma ListedOneWay(ids: seq<Id>, u: Id, w: Id)
    requires Distinct(ids) && ListedBefore(ids, u, w)
    ensures !ListedBefore(ids, w, u)
  {
  }

  lemma LinkedOneWay(links: seq<Link>, v: Id, u: Id, w: Id)
    requires LinkedBefore(links, v, u, w)
    ensures !LinkedBefore(links, v, w, u)
  {
    var x, y :| x < y && LastLinkAt(links, Link(v, u), x) && LastLinkAt(links, Link(v, w), y);
    forall p, q | LastLinkAt(links, Link(v, w), p) && LastLinkAt(links, Link(v, u), q)
      ensures p == y && q == x
    {
      LastLinkUnique(links, Link(v, w), p, y);
      LastLinkUnique(links, Link(v, u), q, x);
    }
  }

  lemma PrecedesOneWay(ids: seq<Id>, links: seq<Link>, order: seq<Id>, u: Id, a: nat, w: Id, b: nat)
    requires Distinct(ids) && Precedes(ids, links, order, u, a, w, b)
    ensures !Precedes(ids, links, order, w, b, u, a)
  {
    if a == b == 0 {
      ListedOneWay(ids, u, w);
    } else if a == b {
      LinkedOneWay(links, order[a - 1], u, w);
    }
  }

  // Priority is asymmetric, so that it decides between any two nodes of the order.
  lemma PriorityAsymmetric(ids: seq<Id>, links: seq<Link>, order: seq<Id>, u: Id, w: Id)
    requires Distinct(ids) && Distinct(order) && Priority(ids, links, order, u, w)
    ensures !Priority(ids, links, order, w, u)
  {
    var a, b :| ReadyAfter(links, order, u, a) && ReadyAfter(links, order, w, b) && Precedes(ids, links, order, u, a, w, b);
    PrecedesOneWay(ids, links, order, u, a, w, b);
    forall c, d | ReadyAfter(links, order, w, c) && ReadyAfter(links, order, u, d)
      ensures c == b && d == a
    {
      ReadyUnique(links, order, u, a, d);
      ReadyUnique(links, order, w, b, c);
    }
  }

  // So the position of two emitted nodes is told by their priority.
  lemma EarlierIffPriority(ids: seq<Id>, links: seq<Link>, order: seq<Id>, i: nat, j: nat)
    requires Distinct(ids) && IsKahnOrder(ids, links, order) && i < |order| && j < |order| && i != j
    ensures i < j <==> Priority(ids, links, order, order[i], order[j])
  {
    RunInvariant(ids, links, order);
    if i < j {
      KahnOrderByPriority(ids, links, order, i, j);
    } else {
      KahnOrderByPriority(ids, links, order, j, i);
      PriorityAsymmetric(ids, links, order, order[j], order[i]);
    }
  }
}
