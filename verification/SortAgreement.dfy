// When the engine's sort and the two that follow listed targets only return the same order.
module SortAgreement {
  import opened Prelude
  import opened FlowGraph
  import opened KahnSort
  import opened ListedSort

  // The listed ones among s, and the links into them.
  function Keep(ids: seq<Id>, s: seq<Id>): seq<Id> {
    if s == [] then [] else Keep(ids, Front(s)) + (if Last(s) in ids then [Last(s)] else [])
  }

  function Into(ids: seq<Id>, links: seq<Link>): seq<Link> {
    if links == [] then [] else Into(ids, Front(links)) + (if Last(links).tgt in ids then [Last(links)] else [])
  }

  lemma {:induction false} ListedIsInto(ids: seq<Id>, edges: seq<Edge>)
    requires forall e :: e in edges ==> CanvasEdge(e)
    ensures ListedLinks(ids, edges) == Into(ids, EngineLinks(edges))
  {
    if edges != [] {
      assert Last(edges) in edges;
      ListedIsInto(ids, Front(edges));
      assert Front(EngineLinks(edges)) == EngineLinks(Front(edges));
    }
  }

  // The engine's links are the canvas edges.
  lemma {:induction false} EngineLinksExact(edges: seq<Edge>, l: Link)
    requires forall e :: e in edges ==> CanvasEdge(e)
    ensures l in EngineLinks(edges) <==> exists e :: e in edges && e.from == Some(l.src) && e.to == Some(l.tgt)
  {
    if edges != [] {
      assert Last(edges) in edges && edges == Front(edges) + [Last(edges)];
      EngineLinksExact(Front(edges), l);
    }
  }

  lemma {:induction false} KeepAppend(ids: seq<Id>, a: seq<Id>, b: seq<Id>)
    ensures Keep(ids, a + b) == Keep(ids, a) + Keep(ids, b)
  {
    if b == [] {
      assert a + b == a;
    } else {
      assert Front(a + b) == a + Front(b);
      KeepAppend(ids, a, Front(b));
    }
  }

  lemma {:induction false} KeepAll(ids: seq<Id>, s: seq<Id>)
    requires forall i :: 0 <= i < |s| ==> s[i] in ids
    ensures Keep(ids, s) == s
  {
    if s != [] {
      KeepAll(ids, Front(s));
      FrontAndLast(s);
    }
  }

  lemma {:induction false} KeepCount(ids: seq<Id>, s: seq<Id>, w: Id)
    requires w in ids
    ensures Count(Keep(ids, s), w) == Count(s, w)
  {
    if s != [] {
      KeepCount(ids, Front(s), w);
      if Last(s) in ids {
        assert Front(Keep(ids, s)) == Keep(ids, Front(s));
      } else {
        assert Keep(ids, s) == Keep(ids, Front(s));
      }
    }
  }

  lemma {:induction false} IntoPending(ids: seq<Id>, links: seq<Link>, w: Id, done: set<Id>)
    requires w in ids
    ensures Pending(Into(ids, links), w, done) == Pending(links, w, done)
  {
    if links != [] {
      IntoPending(ids, Front(links), w, done);
      if Last(links).tgt in ids {
        assert Front(Into(ids, links)) == Into(ids, Front(links));
      } else {
        assert Into(ids, links) == Into(ids, Front(links));
      }
    }
  }

  lemma {:induction false} IntoTargets(ids: seq<Id>, links: seq<Link>, v: Id)
    ensures Targets(Into(ids, links), v) == Keep(ids, Targets(links, v))
  {
    if links != [] {
      var l := Last(links);
      IntoTargets(ids, Front(links), v);
      KeepAppend(ids, Targets(Front(links), v), if l.src == v then [l.tgt] else []);
      assert Keep(ids, [l.tgt]) == if l.tgt in ids then [l.tgt] else [];
      if l.tgt in ids {
        assert Front(Into(ids, links)) == Into(ids, Front(links));
      } else {
        assert Into(ids, links) == Into(ids, Front(links));
      }
    }
  }

  lemma {:induction false} IntoReleased(ids: seq<Id>, links: seq<Link>, done: set<Id>, ns: seq<Id>)
    ensures Released(Into(ids, links), done, Keep(ids, ns)) == Keep(ids, Released(links, done, ns))
  {
    if ns != [] {
      var w := Last(ns);
      var r, k := Released(links, done, Front(ns)), Keep(ids, ns);
      IntoReleased(ids, links, done, Front(ns));
      KeepAppend(ids, r, if Pending(links, w, done) == Count(ns, w) then [w] else []);
      assert Keep(ids, [w]) == if w in ids then [w] else [];
      if w in ids {
        assert Front(k) == Keep(ids, Front(ns)) && Last(k) == w;
        KeepCount(ids, ns, w);
        IntoPending(ids, links, w, done);
      } else {
        assert k == Keep(ids, Front(ns));
      }
    }
  }

  lemma {:induction false} IntoRoots(all: seq<Id>, ids: seq<Id>, links: seq<Link>)
    requires forall w :: w in ids ==> w in all
    ensures Roots(ids, Into(all, links)) == Roots(ids, links)
    ensures forall w :: w in Roots(ids, links) ==> w in all
  {
    if ids != [] {
      assert Last(ids) in ids;
      IntoRoots(all, Front(ids), links);
      IntoPending(all, links, Last(ids), {});
    }
  }

  // Dropping the links into unlisted nodes drops those nodes from the queue's history.
  lemma {:induction false} IntoEnqueued(ids: seq<Id>, links: seq<Link>, order: seq<Id>)
    ensures Enqueued(ids, Into(ids, links), order) == Keep(ids, Enqueued(ids, links, order))
  {
    if order == [] {
      IntoRoots(ids, ids, links);
      KeepAll(ids, Roots(ids, links));
    } else {
      var before, v := Front(order), Last(order);
      var released := Released(links, Elements(before), Targets(links, v));
      IntoEnqueued(ids, links, before);
      IntoTargets(ids, links, v);
      IntoReleased(ids, links, Elements(before), Targets(links, v));
      KeepAppend(ids, Enqueued(ids, links, before), released);
    }
  }

  lemma {:induction false} IntoRun(ids: seq<Id>, links: seq<Link>, order: seq<Id>)
    requires IsRun(ids, links, order) && forall w :: w in Enqueued(ids, links, order) ==> w in ids
    ensures IsRun(ids, Into(ids, links), order) && Enqueued(ids, Into(ids, links), order) == Enqueued(ids, links, order)
  {
    IntoEnqueued(ids, links, order);
    KeepAll(ids, Enqueued(ids, links, order));
    if order != [] {
      IntoRun(ids, links, Front(order));
    }
  }

  ghost predicate Targeted(edges: seq<Edge>, w: Id) {
    exists e :: e in edges && e.to == Some(w)
  }

  // Some edge into w comes from a node that is not emitted.
  ghost predicate Held(edges: seq<Edge>, order: seq<Id>, w: Id) {
    exists e :: e in edges && e.to == Some(w) && e.from.Some? && e.from.value !in order
  }

  ghost predicate Blocked(ids: seq<Id>, edges: seq<Edge>, order: seq<Id>) {
    forall w :: w !in ids && Targeted(edges, w) ==> Held(edges, order, w)
  }

  // In terms of the engine's links.
  lemma HeldExact(edges: seq<Edge>, order: seq<Id>, w: Id)
    requires forall e :: e in edges ==> CanvasEdge(e)
    ensures Targeted(edges, w) <==> exists l :: l in EngineLinks(edges) && l.tgt == w
    ensures Held(edges, order, w) <==> exists l :: l in EngineLinks(edges) && l.tgt == w && l.src !in order
  {
    forall l: Link
      ensures l in EngineLinks(edges) <==> exists e :: e in edges && e.from == Some(l.src) && e.to == Some(l.tgt)
    {
      EngineLinksExact(edges, l);
    }
    forall e | e in edges
      ensures Link(e.from.value, e.to.value) in EngineLinks(edges)
    {
      assert e.from == Some(e.from.value) && e.to == Some(e.to.value);
    }
  }

  lemma BlockedIsClosed(ids: seq<Id>, edges: seq<Edge>, listed: seq<Id>)
    requires Distinct(ids) && forall e :: e in edges ==> CanvasEdge(e)
    requires IsKahnOrder(ids, ListedLinks(ids, edges), listed) && Blocked(ids, edges, listed)
    ensures Closed(ids, EngineLinks(edges), Elements(listed))
  {
    var links, some, done := EngineLinks(edges), ListedLinks(ids, edges), Elements(listed);
    KahnSetIsLeastClosed(ids, some, listed);
    ListedIsInto(ids, edges);
    forall w | w in Universe(ids, links) && forall l :: l in links && l.tgt == w ==> l.src in done
      ensures w in done
    {
      if w in ids {
        IntoPending(ids, links, w, done);
        PendingZero(links, w, done);
        PendingZero(some, w, done);
        assert w in Universe(ids, some);
      } else {
        HeldExact(edges, listed, w);
      }
    }
  }

  lemma BlockedAgree(ids: seq<Id>, edges: seq<Edge>, engine: seq<Id>, listed: seq<Id>)
    requires Distinct(ids) && forall e :: e in edges ==> CanvasEdge(e)
    requires IsKahnOrder(ids, EngineLinks(edges), engine) && IsKahnOrder(ids, ListedLinks(ids, edges), listed)
    requires Blocked(ids, edges, listed)
    ensures engine == listed
  {
    var links, some := EngineLinks(edges), ListedLinks(ids, edges);
    KahnSetIsLeastClosed(ids, links, engine);
    KahnSetIsLeastClosed(ids, some, listed);
    ListedUniverse(ids, edges);
    BlockedIsClosed(ids, edges, listed);
    RunInvariant(ids, links, engine);
    assert engine == Enqueued(ids, links, engine);
    forall w | w in engine
      ensures w in ids
    {
      assert w in Elements(engine) && w in Elements(ids);
    }
    IntoRun(ids, links, engine);
    ListedIsInto(ids, edges);
    KahnOrderUnique(ids, some, listed, engine);
  }

  // On the edges the canvas writes, the engine's order is the other two's exactly when each
  // unlisted target has a source that is not emitted.
  lemma SortsAgreeIff(ids: seq<Id>, edges: seq<Edge>, engine: seq<Id>, listed: seq<Id>)
    requires Distinct(ids) && forall e :: e in edges ==> CanvasEdge(e)
    requires IsKahnOrder(ids, EngineLinks(edges), engine) && IsKahnOrder(ids, ListedLinks(ids, edges), listed)
    ensures engine == listed <==> Blocked(ids, edges, listed)
  {
    var links := EngineLinks(edges);
    if Blocked(ids, edges, listed) {
      BlockedAgree(ids, edges, engine, listed);
    }
    if engine == listed {
      KahnSetIsLeastClosed(ids, links, engine);
      KahnSetIsLeastClosed(ids, ListedLinks(ids, edges), listed);
      ListedUniverse(ids, edges);
      forall w | w !in ids && Targeted(edges, w)
        ensures Held(edges, listed, w)
      {
        HeldExact(edges, listed, w);
        assert w in Universe(ids, links) && w !in Elements(ids) && w !in Elements(engine);
      }
    }
  }

  // The scheduler fails exactly when an emitted node links to an unlisted one; when it does
  // not fail, all three return the same order.
  lemma SortsAgree(ids: seq<Id>, edges: seq<Edge>, engine: seq<Id>, listed: seq<Id>)
    requires Distinct(ids) && forall e :: e in edges ==> CanvasEdge(e)
    requires IsKahnOrder(ids, EngineLinks(edges), engine) && IsKahnOrder(ids, ListedLinks(ids, edges), listed)
    ensures !LacksTarget(ids, edges)
    ensures !Dangles(ids, edges, listed) ==> engine == listed
  {
    SortsAgreeIff(ids, edges, engine, listed);
    if !Dangles(ids, edges, listed) {
      forall w | w !in ids && Targeted(edges, w)
        ensures Held(edges, listed, w)
      {
        var e :| e in edges && e.to == Some(w);
        assert CanvasEdge(e) && e.from.value !in listed;
      }
    }
  }
}
