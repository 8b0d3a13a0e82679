// What a run of a visual flow hands to each handler and makes of its answer, read off the
// saved edges.
module FlowAnswers {
  import opened Prelude
  import opened FlowGraph
  import opened FlowMeaning

  predicate Feeds(e: Edge, u: Id, v: Id) {
    ReadsAs(e.from, e.source, u) && ReadsAs(e.to, e.target, v)
  }

  // `upstream` lists the sources that the edges give v, edge by edge; `at` says which edges.
  ghost predicate ReadInOrder(edges: seq<Edge>, v: Id, upstream: seq<Id>, at: seq<nat>) {
    && |at| == |upstream|
    && (forall i :: 0 <= i < |at| ==> at[i] < |edges| && Feeds(edges[at[i]], upstream[i], v))
    && (forall i, j :: 0 <= i < j < |at| ==> at[i] < at[j])
    && forall k, u :: 0 <= k < |edges| && Feeds(edges[k], u, v) ==> k in at
  }

  predicate HasKey<D>(inputs: Inputs<D>, u: Id) {
    exists i :: 0 <= i < |inputs| && inputs[i].0 == u
  }

  // One entry for each source with a result that has no error, in order of first occurrence.
  ghost predicate Delivered<D>(upstream: seq<Id>, results: Results<D>, inputs: Inputs<D>) {
    && (forall i, j :: 0 <= i < j < |inputs| ==> inputs[i].0 != inputs[j].0)
    && (forall u :: HasKey(inputs, u) <==> u in upstream && u in results && results[u].error.None?)
    && (forall i :: 0 <= i < |inputs| ==> inputs[i].0 in results && inputs[i].1 == results[inputs[i].0].data)
    && forall i, j, y :: 0 <= i < j < |inputs| && 0 <= y < |upstream| && upstream[y] == inputs[j].0 ==> inputs[i].0 in upstream[..y]
  }

  // An unknown type is an error, plain data is a result, a BlockResult is taken as it is, and an
  // exception becomes its message.
  ghost predicate Answers<C, D>(flow: Flow<C, D>, node: Node<C>, inputs: Inputs<D>, result: BlockResult<D>) {
    if node.kind !in flow.handlers then result == BlockResult(None, Some("Unknown block type: " + node.kind))
    else
      match flow.handlers[node.kind](node.config, inputs)
      case Plain(data) => result.data == data && result.error == None
      case Wrapped(given) => result == given
      case Raised(message) => result.data == None && result.error == Some(message)
  }

  // The result of a block is its handler's answer to what its sources delivered.
  ghost predicate AnswersSources<C, D(!new)>(flow: Flow<C, D>, node: Node<C>, results: Results<D>) {
    node.id in results && exists upstream, at, inputs ::
      && ReadInOrder(flow.edges, node.id, upstream, at)
      && Delivered(upstream, results, inputs)
      && Answers(flow, node, inputs, results[node.id])
  }

  lemma {:induction false} SourcesInOrder(edges: seq<Edge>, v: Id) returns (at: seq<nat>)
    ensures ReadInOrder(edges, v, Sources(EngineLinks(edges), v), at)
  {
    at := [];
    if edges != [] {
      var before, e := Front(edges), Last(edges);
      at := SourcesInOrder(before, v);
      var src, tgt := Either(e.from, e.source), Either(e.to, e.target);
      SourcesOneMore(EngineLinks(before), src, tgt, v);
      FrontAndLast(edges);
      at := OneMoreRead(before, e, v, Sources(EngineLinks(before), v), at);
    }
  }

  lemma OneMoreRead(edges: seq<Edge>, e: Edge, v: Id, upstream: seq<Id>, before: seq<nat>) returns (at: seq<nat>)
    requires ReadInOrder(edges, v, upstream, before)
    ensures var src, tgt := Either(e.from, e.source), Either(e.to, e.target);
      ReadInOrder(edges + [e], v, upstream + if src.Some? && tgt == Some(v) then [src.value] else [], at)
  {
    var src, tgt := Either(e.from, e.source), Either(e.to, e.target);
    forall u
      ensures Feeds(e, u, v) <==> src == Some(u) && tgt == Some(v)
    {
      EitherReads(e.from, e.source, u);
      EitherReads(e.to, e.target, v);
    }
    if src.Some? && tgt == Some(v) {
      at := before + [|edges|];
      ReadOne(edges, e, v, upstream, before, src.value);
    } else {
      at := before;
      ReadNone(edges, e, v, upstream, before);
      assert upstream + [] == upstream;
    }
  }

  lemma ReadOne(edges: seq<Edge>, e: Edge, v: Id, upstream: seq<Id>, at: seq<nat>, src: Id)
    requires ReadInOrder(edges, v, upstream, at) && Feeds(e, src, v)
    ensures ReadInOrder(edges + [e], v, upstream + [src], at + [|edges|])
  {
    var all, more, at' := edges + [e], upstream + [src], at + [|edges|];
    forall i | 0 <= i < |at'|
      ensures at'[i] < |all| && Feeds(all[at'[i]], more[i], v)
    {
      assert i < |at| ==> at'[i] == at[i] && more[i] == upstream[i];
    }
    forall k, u | 0 <= k < |all| && Feeds(all[k], u, v)
      ensures k in at'
    {
      assert k < |edges| ==> Feeds(edges[k], u, v) && k in at;
      assert at'[|at|] == |edges|;
    }
  }

  lemma ReadNone(edges: seq<Edge>, e: Edge, v: Id, upstream: seq<Id>, at: seq<nat>)
    requires ReadInOrder(edges, v, upstream, at) && forall u :: !Feeds(e, u, v)
    ensures ReadInOrder(edges + [e], v, upstream, at)
  {
    var all := edges + [e];
    forall k, u | 0 <= k < |all| && Feeds(all[k], u, v)
      ensures k in at
    {
      assert k < |edges| ==> Feeds(edges[k], u, v);
    }
  }

  lemma SourcesOneMore(links: seq<Link>, src: Option<Id>, tgt: Option<Id>, v: Id)
    ensures Sources(links + MakeLink(src, tgt), v) ==
            Sources(links, v) + if src.Some? && tgt == Some(v) then [src.value] else []
  {
    if src.Some? && tgt.Some? {
      assert Front(links + MakeLink(src, tgt)) == links;
    } else {
      assert links + MakeLink(src, tgt) == links;
    }
  }

  // ---- What is collected ----

  lemma {:induction false} PutNew<D>(inputs: Inputs<D>, k: Id, v: Option<D>)
    requires !HasKey(inputs, k)
    ensures Put(inputs, k, v) == inputs + [(k, v)]
  {
    if inputs != [] {
      assert inputs[0].0 != k;
      forall i | 0 <= i < |inputs[1..]|
        ensures inputs[1..][i].0 != k
      {
        assert inputs[i + 1].0 != k;
      }
      PutNew(inputs[1..], k, v);
    }
  }

  lemma {:induction false} PutSame<D>(inputs: Inputs<D>, k: Id, v: Option<D>)
    requires HasKey(inputs, k) && forall i :: 0 <= i < |inputs| && inputs[i].0 == k ==> inputs[i].1 == v
    ensures Put(inputs, k, v) == inputs
  {
    var i :| 0 <= i < |inputs| && inputs[i].0 == k;
    if inputs[0].0 != k {
      assert inputs[1..][i - 1].0 == k;
      PutSame(inputs[1..], k, v);
    }
  }

  lemma {:induction false} CollectDelivered<D>(upstream: seq<Id>, results: Results<D>)
    ensures Delivered(upstream, results, Collect(upstream, results))
  {
    if upstream != [] {
      var before, u := Front(upstream), Last(upstream);
      CollectDelivered(before, results);
      FrontAndLast(upstream);
      DeliveredNext(before, u, results, Collect(before, results));
    }
  }

  // One more source: a new entry at the end, unless it failed or is already there.
  lemma DeliveredNext<D>(before: seq<Id>, u: Id, results: Results<D>, inputs: Inputs<D>)
    requires Delivered(before, results, inputs)
    ensures Delivered(before + [u], results, if u in results && results[u].Ok() then Put(inputs, u, results[u].data) else inputs)
  {
    if u in results && results[u].Ok() {
      if HasKey(inputs, u) {
        PutSame(inputs, u, results[u].data);
        DeliveredAgain(before, u, results, inputs);
      } else {
        PutNew(inputs, u, results[u].data);
        DeliveredNew(before, u, results, inputs);
      }
    } else {
      DeliveredAgain(before, u, results, inputs);
    }
  }

  lemma DeliveredAgain<D>(before: seq<Id>, u: Id, results: Results<D>, inputs: Inputs<D>)
    requires Delivered(before, results, inputs) && (u in results && results[u].error.None? ==> HasKey(inputs, u))
    ensures Delivered(before + [u], results, inputs)
  {
    var upstream := before + [u];
    forall i, j, y | 0 <= i < j < |inputs| && 0 <= y < |upstream| && upstream[y] == inputs[j].0
      ensures inputs[i].0 in upstream[..y]
    {
      if y < |before| {
        assert inputs[i].0 in before[..y] && upstream[..y] == before[..y];
      } else {
        assert HasKey(inputs, inputs[i].0) && upstream[..y] == before;
      }
    }
  }

  lemma DeliveredNew<D>(before: seq<Id>, u: Id, results: Results<D>, inputs: Inputs<D>)
    requires Delivered(before, results, inputs) && u in results && results[u].error.None? && !HasKey(inputs, u)
    ensures Delivered(before + [u], results, inputs + [(u, results[u].data)])
  {
    var upstream, more := before + [u], inputs + [(u, results[u].data)];
    assert u !in before;
    forall w
      ensures HasKey(more, w) <==> HasKey(inputs, w) || w == u
    {
      if HasKey(inputs, w) {
        var i :| 0 <= i < |inputs| && inputs[i].0 == w;
        assert more[i].0 == w;
      }
      assert more[|inputs|].0 == u;
    }
    forall i, j, y | 0 <= i < j < |more| && 0 <= y < |upstream| && upstream[y] == more[j].0
      ensures more[i].0 in upstream[..y]
    {
      assert HasKey(inputs, inputs[i].0);
      if y < |before| {
        assert upstream[..y] == before[..y] && before[y] == more[j].0;
        assert j < |inputs|;
      } else {
        assert upstream[..y] == before;
      }
    }
    forall i, j | 0 <= i < j < |more|
      ensures more[i].0 != more[j].0
    {
      assert HasKey(inputs, inputs[i].0);
    }
  }

  // Nothing else is delivered.
  lemma DeliveredUnique<D>(upstream: seq<Id>, results: Results<D>, a: Inputs<D>, b: Inputs<D>)
    requires Delivered(upstream, results, a) && Delivered(upstream, results, b)
    ensures a == b
  {
    var x, y := seq(|a|, i requires 0 <= i < |a| => a[i].0), seq(|b|, i requires 0 <= i < |b| => b[i].0);
    KeysUnique(upstream, results, a, b, x, y);
    forall i | 0 <= i < |a|
      ensures a[i] == b[i]
    {
      assert x[i] == y[i];
    }
  }

  lemma KeysUnique<D>(upstream: seq<Id>, results: Results<D>, a: Inputs<D>, b: Inputs<D>, x: seq<Id>, y: seq<Id>)
    requires Delivered(upstream, results, a) && Delivered(upstream, results, b)
    requires |x| == |a| && |y| == |b|
    requires (forall i :: 0 <= i < |x| ==> x[i] == a[i].0) && forall i :: 0 <= i < |y| ==> y[i] == b[i].0
    ensures x == y
  {
    forall u
      ensures u in x <==> u in y
    {
      SameKeys(a, x, u);
      SameKeys(b, y, u);
      assert HasKey(a, u) <==> HasKey(b, u);
    }
    forall i, p, q | 0 <= i < |x| - 1 && 0 <= p < |y| && 0 <= q < |y| && y[p] == x[i] && y[q] == x[i + 1]
      ensures p < q
    {
      if q < p {
        assert HasKey(a, a[i].0) && HasKey(a, a[i + 1].0);
        EarlierSource(upstream, results, a, i, i + 1);
        EarlierSource(upstream, results, b, q, p);
      }
    }
    ArrangedAlike(x, y);
  }

  lemma SameKeys<D>(a: Inputs<D>, x: seq<Id>, u: Id)
    requires |x| == |a| && forall i :: 0 <= i < |x| ==> x[i] == a[i].0
    ensures u in x <==> HasKey(a, u)
  {
    if HasKey(a, u) {
      var i :| 0 <= i < |a| && a[i].0 == u;
      assert x[i] == u;
    }
  }

  // The first occurrence of an earlier key comes first.
  lemma EarlierSource<D>(upstream: seq<Id>, results: Results<D>, a: Inputs<D>, i: nat, j: nat)
    requires Delivered(upstream, results, a) && i < j < |a|
    ensures FirstAt(upstream, a[i].0) < FirstAt(upstream, a[j].0) < |upstream|
  {
    assert HasKey(a, a[j].0) && HasKey(a, a[i].0);
    FirstAtExact(upstream, a[j].0);
    FirstAtExact(upstream, a[i].0);
    var y := FirstAt(upstream, a[j].0);
    assert a[i].0 in upstream[..y];
    var k :| 0 <= k < y && upstream[k] == a[i].0;
  }

  function FirstAt(s: seq<Id>, u: Id): nat {
    if s == [] || s[0] == u then 0 else 1 + FirstAt(s[1..], u)
  }

  lemma {:induction false} FirstAtExact(s: seq<Id>, u: Id)
    requires u in s
    ensures FirstAt(s, u) < |s| && s[FirstAt(s, u)] == u
    ensures forall k :: 0 <= k < |s| && s[k] == u ==> FirstAt(s, u) <= k
  {
    if s[0] != u {
      FirstAtExact(s[1..], u);
      forall k | 0 <= k < |s| && s[k] == u
        ensures FirstAt(s, u) <= k
      {
        assert s[1..][k - 1] == u;
      }
    }
  }

  // ---- Whole runs ----

  // A later node of the same id takes the place of an earlier one.
  lemma {:induction false} NodeMapListed<C>(nodes: seq<Node<C>>, i: nat)
    requires i < |nodes| && forall j :: i < j < |nodes| ==> nodes[j].id != nodes[i].id
    ensures nodes[i].id in NodeMap(nodes) && NodeMap(nodes)[nodes[i].id] == nodes[i]
  {
    if i < |nodes| - 1 {
      NodeMapListed(Front(nodes), i);
    }
  }

  lemma EvaluateAnswers<C, D(!new)>(flow: Flow<C, D>, node: Node<C>, results: Results<D>)
    requires node.id in results && results[node.id] == Evaluate(flow, node, results)
    ensures AnswersSources(flow, node, results)
  {
    var upstream := Sources(EngineLinks(flow.edges), node.id);
    var at := SourcesInOrder(flow.edges, node.id);
    CollectDelivered(upstream, results);
    assert Answers(flow, node, Collect(upstream, results), results[node.id]);
  }

  // In the final map of every run, each listed block that ran has answered its sources.
  lemma RunAnswers<C, D(!new)>(flow: Flow<C, D>, order: seq<Id>, i: nat)
    requires Distinct(Ids(flow.nodes)) && Schedule(EngineLinks(flow.edges), order)
    requires i < |flow.nodes| && flow.nodes[i].id in order
    ensures AnswersSources(flow, flow.nodes[i], RunInOrder(flow, order))
  {
    RunSolves(flow, order);
    assert forall j :: i < j < |flow.nodes| ==> Ids(flow.nodes)[j] != Ids(flow.nodes)[i];
    NodeMapListed(flow.nodes, i);
    EvaluateAnswers(flow, flow.nodes[i], RunInOrder(flow, order));
  }

  // Over whole runs: the handler of a block sees no entry for a source whose result has an error.
  lemma FailedSourceUnseen<C, D(!new)>(flow: Flow<C, D>, order: seq<Id>, i: nat, u: Id)
    requires Distinct(Ids(flow.nodes)) && Schedule(EngineLinks(flow.edges), order)
    requires i < |flow.nodes| && flow.nodes[i].id in order
    requires u in RunInOrder(flow, order) && RunInOrder(flow, order)[u].error.Some?
    ensures var node, results := flow.nodes[i], RunInOrder(flow, order);
      node.id in results && exists upstream, at, inputs ::
        && ReadInOrder(flow.edges, node.id, upstream, at) && Delivered(upstream, results, inputs)
        && Answers(flow, node, inputs, results[node.id]) && !HasKey(inputs, u)
  {
    var node, results := flow.nodes[i], RunInOrder(flow, order);
    RunAnswers(flow, order, i);
    var upstream, at, inputs :|
      ReadInOrder(flow.edges, node.id, upstream, at) && Delivered(upstream, results, inputs) && Answers(flow, node, inputs, results[node.id]);
    assert !HasKey(inputs, u);
  }
}
