// The two topological sorts that follow `from` and `to` only: the scheduler's,
// which fails on a link to an unlisted node, and the canvas's, which ignores it.
module ListedSort {
  import opened Prelude
  import opened FlowGraph
  import opened KahnSort
  import opened FlowMeaning

  datatype Block<C> = Block(kind: string, config: C)

  // The adjacency list of v: `to` of each edge leaving v, as saved.
  function SavedTargets(edges: seq<Edge>, v: Id): seq<Option<Id>> {
    if edges == [] then []
    else SavedTargets(Front(edges), v) + (if Last(edges).from == Some(v) then [Last(edges).to] else [])
  }

  function Listed(ids: seq<Id>, saved: seq<Option<Id>>): seq<Id> {
    if saved == [] then []
    else
      var t := Last(saved);
      Listed(ids, Front(saved)) + (if t.Some? && t.value in ids then [t.value] else [])
  }

  lemma ListedSnoc(ids: seq<Id>, saved: seq<Option<Id>>, j: nat)
    requires j < |saved|
    ensures Listed(ids, saved[..j + 1]) ==
            if saved[j].Some? && saved[j].value in ids then Listed(ids, saved[..j]) + [saved[j].value]
            else Listed(ids, saved[..j])
  {
    assert Front(saved[..j + 1]) == saved[..j];
  }

  lemma {:induction false} ListedTargets(ids: seq<Id>, edges: seq<Edge>, v: Id)
    requires v != ""
    ensures Targets(ListedLinks(ids, edges), v) == Listed(ids, SavedTargets(edges, v))
  {
    if edges != [] {
      var before := Front(edges);
      var e := Last(edges);
      ListedTargets(ids, before, v);
      if e.from == Some(v) {
        assert Front(SavedTargets(edges, v)) == SavedTargets(before, v);
      } else {
        assert SavedTargets(edges, v) == SavedTargets(before, v);
      }
      if e.to.Some? && e.to.value in ids {
        assert Front(ListedLinks(ids, edges)) == ListedLinks(ids, before);
      } else {
        assert ListedLinks(ids, edges) == ListedLinks(ids, before);
      }
    }
  }

  lemma {:induction false} ListedUniverse(ids: seq<Id>, edges: seq<Edge>)
    ensures forall l :: l in ListedLinks(ids, edges) ==> l.tgt in ids
    ensures Universe(ids, ListedLinks(ids, edges)) == Elements(ids)
  {
    if edges != [] {
      ListedUniverse(ids, Front(edges));
    }
  }

  // A saved edge leaves v for t exactly when t is in v's adjacency list.
  lemma {:induction false} SavedTargetsExact(edges: seq<Edge>, v: Id, t: Option<Id>)
    ensures t in SavedTargets(edges, v) <==> exists e :: e in edges && e.from == Some(v) && e.to == t
  {
    if edges != [] {
      SavedTargetsExact(Front(edges), v, t);
      assert edges == Front(edges) + [Last(edges)];
      if Last(edges).from == Some(v) && Last(edges).to == t {
        assert Last(edges) in edges;
      }
    }
  }

  // A listed node's edge has no `to` key at all.
  ghost predicate LacksTarget(ids: seq<Id>, edges: seq<Edge>) {
    exists e :: e in edges && e.from.Some? && e.from.value in ids && e.to.None?
  }

  // An edge leaves an emitted node for an unlisted one.
  ghost predicate Dangles(ids: seq<Id>, edges: seq<Edge>, order: seq<Id>) {
    exists e :: e in edges && e.from.Some? && e.from.value in order && e.to.Some? && e.to.value !in ids
  }

  ghost predicate AllListed(ids: seq<Id>, saved: seq<Option<Id>>) {
    forall k :: 0 <= k < |saved| ==> saved[k].Some? && saved[k].value in ids
  }

  lemma SavedTargetsGiven(ids: seq<Id>, edges: seq<Edge>, v: Id)
    requires v in ids && !LacksTarget(ids, edges)
    ensures forall k :: 0 <= k < |SavedTargets(edges, v)| ==> SavedTargets(edges, v)[k].Some?
  {
    SavedTargetsExact(edges, v, None);
  }

  // ---- The first loop, shared by both ----

  // Reading one more edge.
  lemma ReadEdge(ids: seq<Id>, edges: seq<Edge>, e: Edge, inDegree: map<Id, int>)
    requires Counters(ids, ListedLinks(ids, edges), {}, [], Elements(ids), inDegree)
    ensures Counters(ids, ListedLinks(ids, edges + [e]), {}, [], Elements(ids),
                     if e.to.Some? && e.to.value in inDegree then inDegree[e.to.value := inDegree[e.to.value] + 1] else inDegree)
  {
    assert Front(edges + [e]) == edges;
    var before, after := ListedLinks(ids, edges), ListedLinks(ids, edges + [e]);
    ListedUniverse(ids, edges);
    if e.to.Some? && e.to.value in inDegree {
      var l := Link(if e.from.Some? then e.from.value else "", e.to.value);
      assert after == before + [l];
      CountersAddLink(ids, before, l, inDegree);
      ListedUniverse(ids, edges + [e]);
    } else {
      assert after == before;
    }
  }

  // The adjacency lists after the edges read so far.
  ghost predicate Adjacent(ids: seq<Id>, edges: seq<Edge>, adj: map<Id, seq<Option<Id>>>) {
    adj.Keys == Elements(ids) && forall v :: v in adj ==> adj[v] == SavedTargets(edges, v)
  }

  lemma AdjacentEdge(ids: seq<Id>, edges: seq<Edge>, e: Edge, adj: map<Id, seq<Option<Id>>>)
    requires Adjacent(ids, edges, adj)
    ensures Adjacent(ids, edges + [e],
                     if e.from.Some? && e.from.value in adj then adj[e.from.value := adj[e.from.value] + [e.to]] else adj)
  {
    assert Front(edges + [e]) == edges;
    assert forall v :: v in adj && e.from != Some(v) ==> SavedTargets(edges + [e], v) == SavedTargets(edges, v);
  }

  method CountListed(ids: seq<Id>, edges: seq<Edge>)
    returns (inDegree: map<Id, int>, adj: map<Id, seq<Option<Id>>>)
    requires "" !in ids
    ensures Counters(ids, ListedLinks(ids, edges), {}, [], Elements(ids), inDegree)
    ensures Adjacent(ids, edges, adj)
  {
    inDegree := map n | n in ids :: 0;
    adj := map n | n in ids :: [];
    ListedUniverse(ids, []);
    for i := 0 to |edges|
      invariant Counters(ids, ListedLinks(ids, edges[..i]), {}, [], Elements(ids), inDegree)
      invariant Adjacent(ids, edges[..i], adj)
    {
      var e := edges[i];
      assert edges[..i + 1] == edges[..i] + [e];
      AdjacentEdge(ids, edges[..i], e, adj);
      ReadEdge(ids, edges[..i], e, inDegree);
      if e.from.Some? && e.from.value in adj {
        adj := adj[e.from.value := adj[e.from.value] + [e.to]];
      }
      if e.to.Some? && e.to.value in inDegree {
        inDegree := inDegree[e.to.value := inDegree[e.to.value] + 1];
      }
    }
    assert edges[..|edges|] == edges;
  }

  ghost predicate Releasing(ids: seq<Id>, links: seq<Link>, done: set<Id>, ns: seq<Id>, waiting: seq<Id>,
                            inDegree: map<Id, int>, queue: seq<Id>)
  {
    && Counters(ids, links, done, ns, Elements(ids), inDegree)
    && queue == waiting + Released(links, done, ns)
  }

  // The first j saved targets of the dequeued node have been handled.
  ghost predicate ReleasedTo(ids: seq<Id>, links: seq<Link>, done: set<Id>, saved: seq<Option<Id>>, j: nat, waiting: seq<Id>,
                             inDegree: map<Id, int>, queue: seq<Id>)
  {
    j <= |saved| && Releasing(ids, links, done, Listed(ids, saved[..j]), waiting, inDegree, queue)
  }

  // An unlisted target changes nothing.
  lemma PassUnlisted(ids: seq<Id>, links: seq<Link>, done: set<Id>, saved: seq<Option<Id>>, j: nat, waiting: seq<Id>,
                     inDegree: map<Id, int>, queue: seq<Id>)
    requires ReleasedTo(ids, links, done, saved, j, waiting, inDegree, queue)
    requires j < |saved| && (saved[j].None? || saved[j].value !in ids)
    ensures ReleasedTo(ids, links, done, saved, j + 1, waiting, inDegree, queue)
  {
    ListedSnoc(ids, saved, j);
  }

  // Decrementing the counter of the next target, a listed node, and queueing it at zero.
  method Lower(ghost ids: seq<Id>, ghost links: seq<Link>, ghost done: set<Id>, ghost saved: seq<Option<Id>>, ghost j: nat, t: Id,
               ghost waiting: seq<Id>, before: map<Id, int>, queued: seq<Id>)
    returns (inDegree: map<Id, int>, queue: seq<Id>)
    requires ReleasedTo(ids, links, done, saved, j, waiting, before, queued)
    requires j < |saved| && saved[j] == Some(t) && t in before
    ensures ReleasedTo(ids, links, done, saved, j + 1, waiting, inDegree, queue)
  {
    ghost var ns := Listed(ids, saved[..j]);
    ListedSnoc(ids, saved, j);
    assert Front(ns + [t]) == ns;
    inDegree, queue := before[t := before[t] - 1], queued;
    if inDegree[t] == 0 {
      queue := queue + [t];
    }
  }

  lemma ReleaseStarted(ids: seq<Id>, links: seq<Link>, done: set<Id>, saved: seq<Option<Id>>, inDegree: map<Id, int>, waiting: seq<Id>)
    requires Counters(ids, links, done, [], Elements(ids), inDegree)
    ensures ReleasedTo(ids, links, done, saved, 0, waiting, inDegree, waiting)
  {
  }

  lemma ReleaseEnded(ids: seq<Id>, links: seq<Link>, done: set<Id>, v: Id, saved: seq<Option<Id>>, inDegree: map<Id, int>,
                     waiting: seq<Id>, queue: seq<Id>)
    requires Listed(ids, saved) == Targets(links, v) && v !in done
    requires ReleasedTo(ids, links, done, saved, |saved|, waiting, inDegree, queue)
    ensures Counters(ids, links, done + {v}, [], Elements(ids), inDegree)
    ensures queue == waiting + Released(links, done, Targets(links, v))
  {
    assert saved[..|saved|] == saved;
    CountersNext(ids, links, done, v, Elements(ids), inDegree);
  }

  // ---- frontend/lib/components/flow-canvas.js ----

  // `inDeg[next]--` on an unlisted target yields NaN, which never equals zero.
  method CanvasRelease(ghost ids: seq<Id>, ghost links: seq<Link>, ghost done: set<Id>,
                       ghost nodeId: Id, saved: seq<Option<Id>>, before: map<Id, int>, waiting: seq<Id>)
    returns (inDegree: map<Id, int>, queue: seq<Id>)
    requires Listed(ids, saved) == Targets(links, nodeId) && nodeId !in done
    requires Counters(ids, links, done, [], Elements(ids), before)
    ensures Counters(ids, links, done + {nodeId}, [], Elements(ids), inDegree)
    ensures queue == waiting + Released(links, done, Targets(links, nodeId))
  {
    inDegree, queue := before, waiting;
    ReleaseStarted(ids, links, done, saved, before, waiting);
    for j := 0 to |saved|
      invariant ReleasedTo(ids, links, done, saved, j, waiting, inDegree, queue)
    {
      var t := saved[j];
      if t.Some? && t.value in inDegree {
        inDegree, queue := Lower(ids, links, done, saved, j, t.value, waiting, inDegree, queue);
      } else {
        PassUnlisted(ids, links, done, saved, j, waiting, inDegree, queue);
      }
    }
    ReleaseEnded(ids, links, done, nodeId, saved, inDegree, waiting, queue);
  }

  method CanvasOrder(ids: seq<Id>, edges: seq<Edge>) returns (order: seq<Id>)
    requires Distinct(ids) && "" !in ids
    ensures IsKahnOrder(ids, ListedLinks(ids, edges), order)
    ensures Elements(order) <= Elements(ids)
  {
    ghost var links := ListedLinks(ids, edges);
    ListedUniverse(ids, edges);
    var inDegree, adj := CountListed(ids, edges);
    var queue := ReadyNodes(ids, links, Elements(ids), inDegree);
    order := [];
    assert Elements(order) == {};
    while queue != []
      invariant QueueState(ids, links, order, queue)
      invariant Counters(ids, links, Elements(order), [], Elements(ids), inDegree)
      invariant Elements(order) <= Elements(ids)
      decreases |Elements(ids)| - |order|
    {
      var cur := queue[0];
      QueueHead(ids, links, order, queue);
      QueueStep(ids, links, order, queue);
      ListedTargets(ids, edges, cur);
      ElementsAppend(order, cur);
      inDegree, queue := CanvasRelease(ids, links, Elements(order), cur, adj[cur], inDegree, queue[1..]);
      order := order + [cur];
    }
  }

  // Returns the nodes themselves: the canvas keeps type, config and id of each.
  method CanvasSort<C>(nodes: seq<Node<C>>, edges: seq<Edge>) returns (blocks: seq<Node<C>>)
    requires Distinct(Ids(nodes)) && "" !in Ids(nodes)
    ensures IsKahnOrder(Ids(nodes), ListedLinks(Ids(nodes), edges), Ids(blocks))
    ensures forall i :: 0 <= i < |blocks| ==> blocks[i] in nodes
  {
    var order := CanvasOrder(Ids(nodes), edges);
    NodeMapKeys(nodes);
    var nodeMap := NodeMap(nodes);
    assert forall i :: 0 <= i < |order| ==> order[i] in Elements(order);
    blocks := seq(|order|, i requires 0 <= i < |order| && order[i] in nodeMap => nodeMap[order[i]]);
    assert Ids(blocks) == order;
    forall i | 0 <= i < |blocks|
      ensures blocks[i] in nodes
    {
      NodeMapMember(nodes, order[i]);
    }
  }

  // ---- backend/scheduler.py ----

  method SchedulerRelease(ghost ids: seq<Id>, ghost links: seq<Link>, ghost done: set<Id>,
                          ghost nodeId: Id, saved: seq<Option<Id>>, before: map<Id, int>, waiting: seq<Id>)
    returns (ok: bool, inDegree: map<Id, int>, queue: seq<Id>)
    requires Listed(ids, saved) == Targets(links, nodeId) && nodeId !in done
    requires Counters(ids, links, done, [], Elements(ids), before)
    requires forall k :: 0 <= k < |saved| ==> saved[k].Some?
    ensures ok <==> forall k :: 0 <= k < |saved| ==> saved[k].value in ids
    ensures ok ==> Counters(ids, links, done + {nodeId}, [], Elements(ids), inDegree)
    ensures ok ==> queue == waiting + Released(links, done, Targets(links, nodeId))
  {
    ok, inDegree, queue := true, before, waiting;
    ReleaseStarted(ids, links, done, saved, before, waiting);
    for j := 0 to |saved|
      invariant ReleasedTo(ids, links, done, saved, j, waiting, inDegree, queue)
      invariant forall k :: 0 <= k < j ==> saved[k].value in ids
    {
      var t := saved[j].value;
      if t !in inDegree {
        return false, inDegree, queue;  // KeyError
      }
      inDegree, queue := Lower(ids, links, done, saved, j, t, waiting, inDegree, queue);
    }
    ReleaseEnded(ids, links, done, nodeId, saved, inDegree, waiting, queue);
  }

  function Blocks<C>(nodes: seq<Node<C>>, order: seq<Id>): seq<Block<C>>
    requires forall v :: v in order ==> v in NodeMap(nodes)
  {
    seq(|order|, i requires 0 <= i < |order| && order[i] in NodeMap(nodes) =>
      Block(NodeMap(nodes)[order[i]].kind, NodeMap(nodes)[order[i]].config))
  }

  // The `adj[e["from"]].append(e["to"])` of the first loop fails when `to` is missing.
  method SchedulerOrder(ids: seq<Id>, edges: seq<Edge>) returns (ok: bool, order: seq<Id>)
    requires Distinct(ids) && "" !in ids && !LacksTarget(ids, edges)
    ensures ok ==> IsKahnOrder(ids, ListedLinks(ids, edges), order) && !Dangles(ids, edges, order)
    ensures !ok ==> exists o :: IsKahnOrder(ids, ListedLinks(ids, edges), o) && Dangles(ids, edges, o)
    ensures Elements(order) <= Elements(ids)
  {
    ghost var links := ListedLinks(ids, edges);
    ListedUniverse(ids, edges);
    var inDegree, adj := CountListed(ids, edges);
    var queue := ReadyNodes(ids, links, Elements(ids), inDegree);
    order, ok := [], true;
    assert Elements(order) == {};
    while queue != []
      invariant QueueState(ids, links, order, queue)
      invariant Counters(ids, links, Elements(order), [], Elements(ids), inDegree)
      invariant Elements(order) <= Elements(ids) && !Dangles(ids, edges, order)
      decreases |Elements(ids)| - |order|
    {
      var cur := queue[0];
      QueueHead(ids, links, order, queue);
      QueueStep(ids, links, order, queue);
      ListedTargets(ids, edges, cur);
      ElementsAppend(order, cur);
      SavedTargetsGiven(ids, edges, cur);
      ok, inDegree, queue := SchedulerRelease(ids, links, Elements(order), cur, adj[cur], inDegree, queue[1..]);
      if !ok {
        DanglingRun(ids, edges, order + [cur], cur);
        return;
      }
      NoDanglingStep(ids, edges, order, cur);
      order := order + [cur];
    }
  }

  lemma NoDanglingStep(ids: seq<Id>, edges: seq<Edge>, order: seq<Id>, cur: Id)
    requires !Dangles(ids, edges, order)
    requires AllListed(ids, SavedTargets(edges, cur))
    ensures !Dangles(ids, edges, order + [cur])
  {
    forall e | e in edges && e.from == Some(cur) && e.to.Some?
      ensures e.to.value in ids
    {
      SavedTargetsExact(edges, cur, e.to);
      assert e.to in SavedTargets(edges, cur);
    }
  }

  // Err stands for the KeyError the dictionary accesses raise.
  method SchedulerSort<C>(nodes: seq<Node<C>>, edges: seq<Edge>) returns (r: Result<seq<Block<C>>, ()>)
    requires Distinct(Ids(nodes)) && "" !in Ids(nodes)
    ensures r.Ok? ==> !LacksTarget(Ids(nodes), edges) && exists order ::
                && IsKahnOrder(Ids(nodes), ListedLinks(Ids(nodes), edges), order)
                && !Dangles(Ids(nodes), edges, order)
                && (forall v :: v in order ==> v in NodeMap(nodes))
                && r.value == Blocks(nodes, order)
                && |r.value| == |order| && forall i :: 0 <= i < |order| ==> TakenFrom(nodes, order[i], r.value[i])
    ensures r.Err? ==> LacksTarget(Ids(nodes), edges) || exists order ::
                IsKahnOrder(Ids(nodes), ListedLinks(Ids(nodes), edges), order) && Dangles(Ids(nodes), edges, order)
    ensures (forall e :: e in edges && e.from.Some? && e.from.value in Ids(nodes) ==> e.to.Some? && e.to.value in Ids(nodes)) ==> r.Ok?
    ensures r.Ok? ==> forall e :: e in edges && e.from.Some? && e.from.value in Ids(nodes) ==> e.to.Some?
  {
    var ids := Ids(nodes);
    if exists e :: e in edges && e.from.Some? && e.from.value in ids && e.to.None? {
      return Err(());
    }
    var ok, order := SchedulerOrder(ids, edges);
    if !ok {
      ghost var o :| IsKahnOrder(ids, ListedLinks(ids, edges), o) && Dangles(ids, edges, o);
      EmittedAreListed(ids, edges, o);
      return Err(());
    }
    NodeMapKeys(nodes);
    assert forall v :: v in order ==> v in Elements(order);
    r := Ok(Blocks(nodes, order));
    forall i | 0 <= i < |order|
      ensures TakenFrom(nodes, order[i], r.value[i])
    {
      assert order[i] in order;
      NodeMapMember(nodes, order[i]);
    }
  }

  lemma EmittedAreListed(ids: seq<Id>, edges: seq<Edge>, order: seq<Id>)
    requires Distinct(ids) && IsKahnOrder(ids, ListedLinks(ids, edges), order)
    ensures forall v :: v in order ==> v in ids
  {
    var links := ListedLinks(ids, edges);
    RunInvariant(ids, links, order);
    ListedUniverse(ids, edges);
    assert order == Enqueued(ids, links, order);
    forall v | v in order
      ensures v in ids
    {
      assert v in Universe(ids, links);
    }
  }

  // The block has the type and configuration of the node with this id.
  ghost predicate TakenFrom<C>(nodes: seq<Node<C>>, id: Id, block: Block<C>) {
    exists k :: 0 <= k < |nodes| && nodes[k].id == id && block == Block(nodes[k].kind, nodes[k].config)
  }

  lemma {:induction false} NodeMapMember<C>(nodes: seq<Node<C>>, v: Id)
    requires v in NodeMap(nodes)
    ensures exists k :: 0 <= k < |nodes| && nodes[k].id == v && NodeMap(nodes)[v] == nodes[k]
  {
    if v == Last(nodes).id {
      assert nodes[|nodes| - 1] == Last(nodes);
    } else {
      NodeMapMember(Front(nodes), v);
      var k :| 0 <= k < |Front(nodes)| && Front(nodes)[k].id == v && NodeMap(Front(nodes))[v] == Front(nodes)[k];
      assert nodes[k] == Front(nodes)[k];
    }
  }

  lemma DanglingRun(ids: seq<Id>, edges: seq<Edge>, run: seq<Id>, cur: Id)
    requires Distinct(ids) && IsRun(ids, ListedLinks(ids, edges), run) && cur in run
    requires forall k :: 0 <= k < |SavedTargets(edges, cur)| ==> SavedTargets(edges, cur)[k].Some?
    requires !AllListed(ids, SavedTargets(edges, cur))
    ensures exists order :: IsKahnOrder(ids, ListedLinks(ids, edges), order) && Dangles(ids, edges, order)
  {
    var links := ListedLinks(ids, edges);
    var order := KahnOrderExists(ids, links, []);
    KahnOrderUnique(ids, links, order, run);
    assert cur in order;
    var ts := SavedTargets(edges, cur);
    var t :| t in ts && t.Some? && t.value !in ids;
    SavedTargetsExact(edges, cur, t);
    assert Dangles(ids, edges, order);
  }
}
