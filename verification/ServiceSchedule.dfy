// The order of the service generator's depth-first sort is a schedule of an acyclic flow: the
// blocks have the same results in it as in the engine's order.
module ServiceSchedule {
  import opened Prelude
  import opened FlowGraph
  import opened FlowMeaning
  import KahnSort
  import ServiceGraph

  // All ends of the links are listed nodes.
  ghost predicate Complete(ids: seq<Id>, links: seq<Link>) {
    forall l :: l in links ==> l.src in ids && l.tgt in ids
  }

  lemma LayoutIsSchedule(ids: seq<Id>, links: seq<Link>, order: seq<Id>)
    requires ServiceGraph.IsLayout(ids, links, order) && Acyclic(links) && Complete(ids, links)
    ensures Schedule(links, order)
  {
    forall l, j | l in links && 0 <= j < |order| && order[j] == l.tgt
      ensures l.src in order[..j]
    {
      ServiceGraph.ListedExactlyOnce(ids, links, order, l.src);
      var i :| 0 <= i < |order| && order[i] == l.src;
      assert Link(order[i], order[j]) == l;
      ServiceGraph.AcyclicLinksPointForward(ids, links, order, i, j);
      assert order[..j][i] == l.src;
    }
  }

  lemma {:induction false} WalkStaysListed(ids: seq<Id>, links: seq<Link>, p: seq<Id>, i: nat)
    requires IsWalk(links, p) && Complete(ids, links) && p[0] in ids && i < |p|
    ensures p[i] in ids
  {
    if i > 0 {
      assert Link(p[i - 1], p[i - 1 + 1]) in links;
    }
  }

  // The layout holds the listed nodes and no others.
  lemma LayoutIsListed(ids: seq<Id>, links: seq<Link>, order: seq<Id>)
    requires ServiceGraph.IsLayout(ids, links, order) && Complete(ids, links)
    ensures Elements(order) == Elements(ids)
  {
    forall w
      ensures w in order <==> w in ids
    {
      if w in ids {
        ServiceGraph.ListedExactlyOnce(ids, links, order, w);
      }
      if w in order {
        var s :| s in ids && Reaches(links, s, w);
        var p :| IsWalk(links, p) && p[0] == s && Last(p) == w;
        WalkStaysListed(ids, links, p, |p| - 1);
      }
    }
  }

  lemma KahnOrderIsListed(ids: seq<Id>, links: seq<Link>, order: seq<Id>)
    requires Distinct(ids) && KahnSort.IsKahnOrder(ids, links, order) && Acyclic(links) && Complete(ids, links)
    ensures Elements(order) == Elements(ids)
  {
    KahnSort.KahnSetIsLeastClosed(ids, links, order);
    assert KahnSort.Universe(ids, links) == Elements(ids);
    forall w | w in Elements(ids)
      ensures w in order
    {
      KahnSort.OmittedIffOnOrBelowCycle(ids, links, order, w);
      NothingBelowCycle(links, w);
    }
  }

  // Evaluating the blocks in the generator's order gives the engine's results.
  lemma GeneratorOrderAlike<C, D>(flow: Flow<C, D>, engine: seq<Id>, service: seq<Id>)
    requires Distinct(Ids(flow.nodes)) && Acyclic(EngineLinks(flow.edges))
    requires forall e :: e in flow.edges ==> CanvasEdge(e) && e.from.value in Ids(flow.nodes) && e.to.value in Ids(flow.nodes)
    requires KahnSort.IsKahnOrder(Ids(flow.nodes), EngineLinks(flow.edges), engine)
    requires ServiceGraph.IsLayout(Ids(flow.nodes), ServiceLinks(flow.edges), service)
    ensures RunInOrder(flow, service) == RunInOrder(flow, engine)
  {
    var ids, links := Ids(flow.nodes), EngineLinks(flow.edges);
    LinksAgree(ids, flow.edges);
    LinksComplete(ids, flow.edges);
    LayoutIsSchedule(ids, links, service);
    LayoutIsListed(ids, links, service);
    KahnOrderIsSchedule(ids, links, engine);
    KahnOrderIsListed(ids, links, engine);
    ScheduleIndependent(flow, service, engine);
  }

  lemma {:induction false} LinksComplete(ids: seq<Id>, edges: seq<Edge>)
    requires forall e :: e in edges ==> CanvasEdge(e) && e.from.value in ids && e.to.value in ids
    ensures Complete(ids, EngineLinks(edges))
  {
    if edges != [] {
      assert Last(edges) in edges;
      LinksComplete(ids, Front(edges));
    }
  }
}
