// backend/block_engine.py: ordering a visual flow and running its blocks.
module BlockEngine {
  import opened Prelude
  import opened FlowGraph
  import opened KahnSort
  import opened FlowMeaning
  import opened FlowAnswers

  method TopologicalSort<C>(nodes: seq<Node<C>>, edges: seq<Edge>) returns (order: seq<Id>)
    requires Distinct(Ids(nodes))
    ensures IsKahnOrder(Ids(nodes), EngineLinks(edges), order)
  {
    ghost var ids, links := Ids(nodes), EngineLinks(edges);
    ghost var all := Universe(ids, links);
    var inDegree, adj := CountEdges(Ids(nodes), edges);

    var queue := ReadyNodes(Ids(nodes), links, all, inDegree);
    order := [];
    assert Elements(order) == {};
    while queue != []
      invariant QueueState(ids, links, order, queue)
      invariant Counters(ids, links, Elements(order), [], all, inDegree)
      decreases |all| - |order|
    {
      var nodeId := queue[0];
      QueueHead(ids, links, order, queue);
      QueueStep(ids, links, order, queue);
      ElementsAppend(order, nodeId);
      inDegree, queue := ReleaseNeighbours(ids, links, Elements(order), all, nodeId,
                                           GetOr(adj, nodeId, []), inDegree, queue[1..]);
      order := order + [nodeId];
    }
  }

  // The first loop: in-degrees and adjacency lists.
  method CountEdges(ids: seq<Id>, edges: seq<Edge>) returns (inDegree: map<Id, int>, adj: map<Id, seq<Id>>)
    ensures var links := EngineLinks(edges); Counters(ids, links, {}, [], Universe(ids, links), inDegree)
    ensures forall v :: GetOr(adj, v, []) == Targets(EngineLinks(edges), v)
  {
    inDegree := map n | n in ids :: 0;
    adj := map[];
    for i := 0 to |edges|
      invariant Counters(ids, EngineLinks(edges[..i]), {}, [], Universe(ids, EngineLinks(edges[..i])), inDegree)
      invariant forall v :: GetOr(adj, v, []) == Targets(EngineLinks(edges[..i]), v)
    {
      var e := edges[i];
      ghost var before := EngineLinks(edges[..i]);
      assert Front(edges[..i + 1]) == edges[..i];
      var src, tgt := Either(e.from, e.source), Either(e.to, e.target);
      ghost var after := EngineLinks(edges[..i + 1]);
      assert after == before + MakeLink(src, tgt);
      if src.Some? && tgt.Some? {
        assert after == before + [Link(src.value, tgt.value)];
        CountersAddLink(ids, before, Link(src.value, tgt.value), inDegree);
        adj := adj[src.value := GetOr(adj, src.value, []) + [tgt.value]];
        inDegree := inDegree[tgt.value := GetOr(inDegree, tgt.value, 0) + 1];
      } else {
        assert after == before;
      }
    }
    assert edges[..|edges|] == edges;
  }

  // The inner loop: one dequeued node gives up its links.
  method ReleaseNeighbours(ghost ids: seq<Id>, ghost links: seq<Link>, ghost done: set<Id>, ghost all: set<Id>,
                           nodeId: Id, ns: seq<Id>, before: map<Id, int>, waiting: seq<Id>)
    returns (inDegree: map<Id, int>, queue: seq<Id>)
    requires ns == Targets(links, nodeId) && nodeId !in done && all == Universe(ids, links)
    requires Counters(ids, links, done, [], all, before)
    ensures Counters(ids, links, done + {nodeId}, [], all, inDegree)
    ensures queue == waiting + Released(links, done, ns)
  {
    inDegree, queue := before, waiting;
    for j := 0 to |ns|
      invariant Counters(ids, links, done, ns[..j], all, inDegree)
      invariant queue == waiting + Released(links, done, ns[..j])
    {
      OneReleased(ids, links, done, all, nodeId, ns, j, inDegree);
      inDegree := inDegree[ns[j] := inDegree[ns[j]] - 1];
      if inDegree[ns[j]] == 0 {
        queue := queue + [ns[j]];
      }
    }
    assert ns[..|ns|] == ns;
    CountersNext(ids, links, done, nodeId, all, inDegree);
  }

  lemma OneReleased(ids: seq<Id>, links: seq<Link>, done: set<Id>, all: set<Id>, v: Id, ns: seq<Id>, j: nat, counter: map<Id, int>)
    requires ns == Targets(links, v) && all == Universe(ids, links) && j < |ns|
    requires Counters(ids, links, done, ns[..j], all, counter)
    ensures ns[j] in all
    ensures Counters(ids, links, done, ns[..j + 1], all, counter[ns[j] := counter[ns[j]] - 1])
    ensures Released(links, done, ns[..j + 1]) == Released(links, done, ns[..j]) + if counter[ns[j]] == 1 then [ns[j]] else []
  {
    assert Front(ns[..j + 1]) == ns[..j] && Last(ns[..j + 1]) == ns[j];
    TargetsExact(links, v, ns[j]);
    assert Link(v, ns[j]) in links;
  }

  // The upstream map: for each node, its link sources in edge order.
  method BuildUpstream(edges: seq<Edge>) returns (upstream: map<Id, seq<Id>>)
    ensures forall v :: GetOr(upstream, v, []) == Sources(EngineLinks(edges), v)
  {
    upstream := map[];
    for i := 0 to |edges|
      invariant forall v :: GetOr(upstream, v, []) == Sources(EngineLinks(edges[..i]), v)
    {
      var e := edges[i];
      ghost var before, after := EngineLinks(edges[..i]), EngineLinks(edges[..i + 1]);
      assert Front(edges[..i + 1]) == edges[..i];
      var src, tgt := Either(e.from, e.source), Either(e.to, e.target);
      assert after == before + MakeLink(src, tgt);
      if src.Some? && tgt.Some? {
        assert after == before + [Link(src.value, tgt.value)] && Front(after) == before;
        upstream := upstream[tgt.value := GetOr(upstream, tgt.value, []) + [src.value]];
      } else {
        assert after == before;
      }
    }
    assert edges[..|edges|] == edges;
  }

  // Handlers are taken to be pure; `load_org_blocks` has already filled the registry.
  method ExecuteFlow<C, D(!new)>(flow: Flow<C, D>) returns (results: Results<D>)
    requires Distinct(Ids(flow.nodes))
    ensures exists order :: IsKahnOrder(Ids(flow.nodes), EngineLinks(flow.edges), order) && results == RunInOrder(flow, order)
    ensures forall s, rank :: IsLeastClosed(Ids(flow.nodes), EngineLinks(flow.edges), s) && Ranked(EngineLinks(flow.edges), s, rank) ==>
              && results.Keys == s * NodeMap(flow.nodes).Keys
              && forall v :: v in results ==> results[v] == Meaning(flow, s, rank, v)
    ensures forall i :: 0 <= i < |flow.nodes| && flow.nodes[i].id in results ==> AnswersSources(flow, flow.nodes[i], results)
  {
    ghost var ids, links := Ids(flow.nodes), EngineLinks(flow.edges);
    var nodeMap := NodeMap(flow.nodes);
    var order := TopologicalSort(flow.nodes, flow.edges);
    var upstream := BuildUpstream(flow.edges);
    results := map[];
    for i := 0 to |order|
      invariant results == RunInOrder(flow, order[..i])
    {
      assert Front(order[..i + 1]) == order[..i];
      var nodeId := order[i];
      if nodeId in nodeMap {
        NodeMapKeys(flow.nodes);
        var result := RunBlock(flow, nodeMap[nodeId], GetOr(upstream, nodeId, []), results);
        results := results[nodeId := result];
      }
    }
    assert order[..|order|] == order;
    ResultsAreMeanings(flow, order);
    KahnOrderIsSchedule(ids, links, order);
    RunSolves(flow, order);
    forall i | 0 <= i < |flow.nodes| && flow.nodes[i].id in results
      ensures AnswersSources(flow, flow.nodes[i], results)
    {
      RunAnswers(flow, order, i);
    }
  }

  // The body of the loop for a listed node.
  method RunBlock<C, D>(flow: Flow<C, D>, node: Node<C>, upstream: seq<Id>, results: Results<D>) returns (result: BlockResult<D>)
    requires upstream == Sources(EngineLinks(flow.edges), node.id)
    ensures result == Evaluate(flow, node, results)
  {
    if node.kind !in flow.handlers {
      return BlockResult(None, Some("Unknown block type: " + node.kind));
    }
    var inputs := CollectInputs(upstream, results);
    match flow.handlers[node.kind](node.config, inputs)
    case Plain(data) => result := BlockResult(data, None);
    case Wrapped(given) => result := given;
    case Raised(message) => result := BlockResult(None, Some(message));
  }

  method CollectInputs<D>(upstream: seq<Id>, results: Results<D>) returns (inputs: Inputs<D>)
    ensures inputs == Collect(upstream, results) && Delivered(upstream, results, inputs)
  {
    inputs := [];
    for i := 0 to |upstream|
      invariant inputs == Collect(upstream[..i], results)
    {
      assert Front(upstream[..i + 1]) == upstream[..i];
      var upId := upstream[i];
      if upId in results && results[upId].Ok() {
        inputs := Put(inputs, upId, results[upId].data);
      }
    }
    assert upstream[..|upstream|] == upstream;
    CollectDelivered(upstream, results);
  }

  lemma ResultsAreMeanings<C, D>(flow: Flow<C, D>, order: seq<Id>)
    requires Distinct(Ids(flow.nodes)) && IsKahnOrder(Ids(flow.nodes), EngineLinks(flow.edges), order)
    ensures forall s, rank :: IsLeastClosed(Ids(flow.nodes), EngineLinks(flow.edges), s) && Ranked(EngineLinks(flow.edges), s, rank) ==>
              && RunInOrder(flow, order).Keys == s * NodeMap(flow.nodes).Keys
              && forall v :: v in RunInOrder(flow, order) ==> RunInOrder(flow, order)[v] == Meaning(flow, s, rank, v)
  {
    var ids, links, results := Ids(flow.nodes), EngineLinks(flow.edges), RunInOrder(flow, order);
    KahnOrderIsSchedule(ids, links, order);
    KahnSetIsLeastClosed(ids, links, order);
    RunSolves(flow, order);
    forall s, rank | IsLeastClosed(ids, links, s) && Ranked(links, s, rank)
      ensures results.Keys == s * NodeMap(flow.nodes).Keys && forall v :: v in results ==> results[v] == Meaning(flow, s, rank, v)
    {
      assert s == Elements(order);
      forall v | v in results
        ensures results[v] == Meaning(flow, s, rank, v)
      {
        SolutionIsMeaning(flow, s, rank, results, v);
      }
    }
  }

  // On an acyclic graph whose link sources are all known, every listed block gets a result.
  lemma AcyclicFlowRunsEveryBlock<C, D>(flow: Flow<C, D>, order: seq<Id>)
    requires Distinct(Ids(flow.nodes)) && IsKahnOrder(Ids(flow.nodes), EngineLinks(flow.edges), order)
    requires Acyclic(EngineLinks(flow.edges))
    requires forall l :: l in EngineLinks(flow.edges) ==> l.src in Universe(Ids(flow.nodes), EngineLinks(flow.edges))
    ensures RunInOrder(flow, order).Keys == Elements(Ids(flow.nodes))
  {
    var ids, links := Ids(flow.nodes), EngineLinks(flow.edges);
    KahnOrderIsSchedule(ids, links, order);
    RunSolves(flow, order);
    NodeMapKeys(flow.nodes);
    forall v | v in ids
      ensures v in order
    {
      OmittedIffOnOrBelowCycle(ids, links, order, v);
      NothingBelowCycle(links, v);
    }
  }
}
