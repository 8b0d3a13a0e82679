// What running a visual flow means: each block applied to the results of its
// upstream blocks, independently of the order in which blocks are scheduled.
module FlowMeaning {
  import opened Prelude
  import opened FlowGraph
  import opened KahnSort

  datatype BlockResult<D> = BlockResult(data: Option<D>, error: Option<string>) {
    predicate Ok() { error.None? }
  }

  // A handler returns plain data, returns a BlockResult, or raises.
  datatype Outcome<D> = Plain(data: Option<D>) | Wrapped(result: BlockResult<D>) | Raised(message: string)

  // Upstream data by node id, in insertion order. Handlers read the first entry.
  type Inputs<D> = seq<(Id, Option<D>)>

  type Handler<!C, !D> = (C, Inputs<D>) -> Outcome<D>

  datatype Flow<!C, !D> = Flow(nodes: seq<Node<C>>, edges: seq<Edge>, handlers: map<string, Handler<C, D>>)

  type Results<D> = map<Id, BlockResult<D>>

  function NodeMap<C>(nodes: seq<Node<C>>): map<Id, Node<C>> {
    if nodes == [] then map[] else NodeMap(Front(nodes))[Last(nodes).id := Last(nodes)]
  }

  // dict assignment: an existing key keeps its place.
  function Put<D>(inputs: Inputs<D>, k: Id, v: Option<D>): Inputs<D> {
    if inputs == [] then [(k, v)]
    else if inputs[0].0 == k then [(k, v)] + inputs[1..]
    else [inputs[0]] + Put(inputs[1..], k, v)
  }

  // The data of the upstream results that are present and ok, in edge order.
  function Collect<D>(upstream: seq<Id>, results: Results<D>): Inputs<D> {
    if upstream == [] then []
    else
      var inputs := Collect(Front(upstream), results);
      var u := Last(upstream);
      if u in results && results[u].Ok() then Put(inputs, u, results[u].data) else inputs
  }

  function Finish<D>(outcome: Outcome<D>): BlockResult<D> {
    match outcome
    case Plain(data) => BlockResult(data, None)
    case Wrapped(result) => result
    case Raised(message) => BlockResult(None, Some(message))
  }

  // One block's result, given the results of other blocks.
  function Evaluate<C, D>(flow: Flow<C, D>, node: Node<C>, results: Results<D>): BlockResult<D> {
    if node.kind !in flow.handlers then BlockResult(None, Some("Unknown block type: " + node.kind))
    else Finish(flow.handlers[node.kind](node.config, Collect(Sources(EngineLinks(flow.edges), node.id), results)))
  }

  function Step<C, D>(flow: Flow<C, D>, v: Id, results: Results<D>): Results<D> {
    if v in NodeMap(flow.nodes) then results[v := Evaluate(flow, NodeMap(flow.nodes)[v], results)] else results
  }

  function RunInOrder<C, D>(flow: Flow<C, D>, order: seq<Id>): Results<D> {
    if order == [] then map[] else Step(flow, Last(order), RunInOrder(flow, Front(order)))
  }

  // A set of nodes closed under "sources of" whose links go up in rank.
  ghost predicate Ranked(links: seq<Link>, s: set<Id>, rank: map<Id, nat>) {
    && s <= rank.Keys
    && forall l :: l in links && l.tgt in s ==> l.src in s && rank[l.src] < rank[l.tgt]
  }

  // The recursive meaning of a block: itself applied to the meanings of its upstreams.
  ghost function Meaning<C, D>(flow: Flow<C, D>, s: set<Id>, rank: map<Id, nat>, v: Id): BlockResult<D>
    requires Ranked(EngineLinks(flow.edges), s, rank) && v in s && v in NodeMap(flow.nodes)
    decreases rank[v]
  {
    var links := EngineLinks(flow.edges);
    Evaluate(flow, NodeMap(flow.nodes)[v],
             map u | u in s && u in NodeMap(flow.nodes) && Link(u, v) in links :: Meaning(flow, s, rank, u))
  }

  // An order that lists each node of a source-closed set once, sources first.
  ghost predicate Schedule(links: seq<Link>, order: seq<Id>) {
    && Distinct(order)
    && forall l, j :: l in links && 0 <= j < |order| && order[j] == l.tgt ==> l.src in order[..j]
  }

  lemma KahnOrderIsSchedule(ids: seq<Id>, links: seq<Link>, order: seq<Id>)
    requires Distinct(ids) && IsKahnOrder(ids, links, order)
    ensures Schedule(links, order)
  {
    RunInvariant(ids, links, order);
    forall l, j | l in links && 0 <= j < |order| && order[j] == l.tgt
      ensures l.src in order[..j]
    {
      SourcesFirst(ids, links, order, l, j);
    }
  }

  lemma {:induction false} NodeMapKeys<C>(nodes: seq<Node<C>>)
    ensures NodeMap(nodes).Keys == Elements(Ids(nodes))
    ensures forall v :: v in NodeMap(nodes) ==> NodeMap(nodes)[v].id == v
  {
    if nodes != [] {
      NodeMapKeys(Front(nodes));
      assert Ids(nodes) == Ids(Front(nodes)) + [Last(nodes).id];
    }
  }

  // Only the results of a block's sources matter to it.
  lemma {:induction false} CollectDependsOnSources<D>(upstream: seq<Id>, a: Results<D>, b: Results<D>)
    requires forall u :: u in upstream ==> (u in a <==> u in b) && (u in a ==> a[u] == b[u])
    ensures Collect(upstream, a) == Collect(upstream, b)
  {
    if upstream != [] {
      assert Last(upstream) in upstream;
      CollectDependsOnSources(Front(upstream), a, b);
    }
  }

  lemma EvaluateDependsOnSources<C, D>(flow: Flow<C, D>, v: Id, a: Results<D>, b: Results<D>)
    requires v in NodeMap(flow.nodes)
    requires forall u :: Link(u, v) in EngineLinks(flow.edges) ==> (u in a <==> u in b) && (u in a ==> a[u] == b[u])
    ensures Evaluate(flow, NodeMap(flow.nodes)[v], a) == Evaluate(flow, NodeMap(flow.nodes)[v], b)
  {
    var links := EngineLinks(flow.edges);
    NodeMapKeys(flow.nodes);
    forall u | u in Sources(links, v)
      ensures (u in a <==> u in b) && (u in a ==> a[u] == b[u])
    {
      SourcesExact(links, u, v);
    }
    CollectDependsOnSources(Sources(links, v), a, b);
  }

  // The results map satisfies every block's equation at once.
  ghost predicate Solves<C, D>(flow: Flow<C, D>, s: set<Id>, results: Results<D>) {
    && results.Keys == s * NodeMap(flow.nodes).Keys
    && forall v :: v in results ==> results[v] == Evaluate(flow, NodeMap(flow.nodes)[v], results)
  }

  lemma {:induction false} RunSolves<C, D>(flow: Flow<C, D>, order: seq<Id>)
    requires Schedule(EngineLinks(flow.edges), order)
    ensures Solves(flow, Elements(order), RunInOrder(flow, order))
  {
    if order != [] {
      var before, v := Front(order), Last(order);
      var links := EngineLinks(flow.edges);
      forall l, j | l in links && 0 <= j < |before| && before[j] == l.tgt
        ensures l.src in before[..j]
      {
        assert order[j] == l.tgt && before[..j] == order[..j];
      }
      RunSolves(flow, before);
      var r, r' := RunInOrder(flow, before), RunInOrder(flow, order);
      assert order == before + [v];
      ElementsAppend(before, v);
      forall w | w in r'
        ensures r'[w] == Evaluate(flow, NodeMap(flow.nodes)[w], r')
      {
        // No earlier block, and not v itself, has v as a source.
        forall u | Link(u, w) in links
          ensures (u in r <==> u in r') && (u in r ==> r[u] == r'[u])
        {
          var j :| 0 <= j < |order| && order[j] == w;
          assert u in order[..j];
        }
        EvaluateDependsOnSources(flow, w, r, r');
      }
    }
  }

  // The equations have one solution: the recursive meaning.
  lemma {:induction false} SolutionIsMeaning<C, D>(flow: Flow<C, D>, s: set<Id>, rank: map<Id, nat>, results: Results<D>, v: Id)
    requires Ranked(EngineLinks(flow.edges), s, rank) && Solves(flow, s, results)
    requires v in s && v in NodeMap(flow.nodes)
    ensures v in results && results[v] == Meaning(flow, s, rank, v)
    decreases rank[v]
  {
    var links := EngineLinks(flow.edges);
    var m := map u | u in s && u in NodeMap(flow.nodes) && Link(u, v) in links :: Meaning(flow, s, rank, u);
    forall u | Link(u, v) in links
      ensures (u in m <==> u in results) && (u in m ==> m[u] == results[u])
    {
      assert u in s;
      if u in NodeMap(flow.nodes) {
        SolutionIsMeaning(flow, s, rank, results, u);
      }
    }
    EvaluateDependsOnSources(flow, v, m, results);
  }

  // Positions in a schedule are a rank, so every schedule has a meaning to compare with.
  lemma ScheduleRank(links: seq<Link>, order: seq<Id>) returns (rank: map<Id, nat>)
    requires Schedule(links, order)
    ensures Ranked(links, Elements(order), rank)
  {
    rank := map v | v in order :: (var j :| 0 <= j < |order| && order[j] == v; j);
    forall l | l in links && l.tgt in Elements(order)
      ensures l.src in Elements(order) && rank[l.src] < rank[l.tgt]
    {
      var j := rank[l.tgt];
      assert order[j] == l.tgt && l.src in order[..j];
      var i :| 0 <= i < j && order[i] == l.src;
      assert l.src in order && rank[l.src] == i;
    }
  }

  // Any two schedules of the same nodes produce the same results.
  lemma ScheduleIndependent<C, D>(flow: Flow<C, D>, a: seq<Id>, b: seq<Id>)
    requires Schedule(EngineLinks(flow.edges), a) && Schedule(EngineLinks(flow.edges), b)
    requires Elements(a) == Elements(b)
    ensures RunInOrder(flow, a) == RunInOrder(flow, b)
  {
    var rank := ScheduleRank(EngineLinks(flow.edges), a);
    RunSolves(flow, a);
    RunSolves(flow, b);
    forall v | v in RunInOrder(flow, a)
      ensures RunInOrder(flow, a)[v] == RunInOrder(flow, b)[v]
    {
      SolutionIsMeaning(flow, Elements(a), rank, RunInOrder(flow, a), v);
      SolutionIsMeaning(flow, Elements(a), rank, RunInOrder(flow, b), v);
    }
  }
}
