// backend/service_manager.py, code generation: the depth-first order in which the
// blocks of a flow are laid out, and the conversion of legacy block lists.
module ServiceGraph {
  import opened Prelude
  import opened Strings
  import opened FlowGraph

  function Reverse<T>(s: seq<T>): (r: seq<T>)
    ensures |r| == |s|
  {
    if s == [] then [] else Reverse(s[1..]) + [s[0]]
  }

  lemma {:induction false} ReverseAt<T>(s: seq<T>, k: nat)
    requires k < |s|
    ensures Reverse(s)[k] == s[|s| - 1 - k]
  {
    if |s| > 1 {
      ReverseAt(s[1..], if k < |s| - 1 then k else 0);
    }
  }

  // A node appears after each of its children, unless the child leads back to it.
  ghost predicate Finished(links: seq<Link>, post: seq<Id>) {
    forall i, c :: 0 <= i < |post| && Link(post[i], c) in links ==> c in post[..i] || Reaches(links, c, post[i])
  }

  // The search in progress: `post` holds the finished nodes, `stack` the open ones, outermost first.
  ghost predicate Searching(links: seq<Link>, visited: set<Id>, post: seq<Id>, stack: seq<Id>) {
    && Distinct(post + stack)
    && visited == Elements(post) + Elements(stack)
    && (stack != [] ==> IsWalk(links, stack))
    && Finished(links, post)
    && forall i, c :: 0 <= i < |post| && Link(post[i], c) in links ==> c in visited
  }

  // Every visited node is reachable from one of the starting points.
  ghost predicate ReachedFrom(links: seq<Link>, starts: seq<Id>, visited: set<Id>) {
    forall w :: w in visited ==> exists s :: s in starts && Reaches(links, s, w)
  }

  function Endpoints(links: seq<Link>): set<Id> {
    (set l | l in links :: l.src) + (set l | l in links :: l.tgt)
  }

  // What the finished layout guarantees on every graph, cyclic or not.
  ghost predicate IsLayout(ids: seq<Id>, links: seq<Link>, order: seq<Id>) {
    && Distinct(order)
    && (forall w :: w in order <==> exists s :: s in ids && Reaches(links, s, w))
    && forall i, c :: 0 <= i < |order| && Link(order[i], c) in links ==> c in order[i + 1..] || Reaches(links, c, order[i])
  }

  lemma ReachesSelf(links: seq<Link>, v: Id)
    ensures Reaches(links, v, v)
  {
    assert IsWalk(links, [v]);
  }

  lemma ReachesStep(links: seq<Link>, s: Id, v: Id, c: Id)
    requires Reaches(links, s, v) && Link(v, c) in links
    ensures Reaches(links, s, c)
  {
    var p :| IsWalk(links, p) && p[0] == s && Last(p) == v;
    assert IsWalk(links, p + [c]) && Last(p + [c]) == c;
  }

  lemma OpenReachesTop(links: seq<Link>, stack: seq<Id>, c: Id)
    requires IsWalk(links, stack) && c in stack
    ensures Reaches(links, c, Last(stack))
  {
    var i :| 0 <= i < |stack| && stack[i] == c;
    assert IsWalk(links, stack[i..]);
  }

  // Opening v: it goes on the stack, still unfinished.
  lemma Open(links: seq<Link>, visited: set<Id>, post: seq<Id>, stack: seq<Id>, v: Id)
    requires Searching(links, visited, post, stack) && v !in visited
    requires stack != [] ==> Link(Last(stack), v) in links
    ensures Searching(links, visited + {v}, post, stack + [v])
  {
    assert post + (stack + [v]) == (post + stack) + [v];
    ElementsAppend(stack, v);
    assert v !in post + stack;
  }

  // Closing v once all its children have been visited.
  lemma Close(links: seq<Link>, visited: set<Id>, post: seq<Id>, stack: seq<Id>, v: Id)
    requires Searching(links, visited, post, stack + [v])
    requires forall c :: Link(v, c) in links ==> c in visited
    ensures Searching(links, visited, post + [v], stack)
  {
    var open, next := stack + [v], post + [v];
    ElementsAppend(stack, v);
    ElementsAppend(post, v);
    assert Distinct(next + stack) by {
      var all := post + open;
      assert all[|post| + |stack|] == v;
      assert forall i :: 0 <= i < |post| ==> all[i] == post[i];
      assert forall i :: 0 <= i < |stack| ==> all[|post| + i] == stack[i];
    }
    forall i, c | 0 <= i < |next| && Link(next[i], c) in links
      ensures c in next[..i] || Reaches(links, c, next[i])
    {
      if i < |post| {
        assert next[..i] == post[..i];
      } else {
        assert next[..i] == post;
        if c !in post {
          OpenReachesTop(links, open, c);
        }
      }
    }
    if stack != [] {
      WalkPrefix(links, open, |stack|);
      assert open[..|stack|] == stack;
    }
  }

  lemma LayoutFromPostorder(ids: seq<Id>, links: seq<Link>, visited: set<Id>, post: seq<Id>)
    requires Searching(links, visited, post, []) && ReachedFrom(links, ids, visited)
    requires Elements(ids) <= visited
    ensures IsLayout(ids, links, Reverse(post))
  {
    var order := Reverse(post);
    assert post + [] == post;
    forall k | 0 <= k < |post|
      ensures order[k] == post[|post| - 1 - k]
    {
      ReverseAt(post, k);
    }
    forall w
      ensures w in order <==> w in visited
    {
      if w in post {
        var k :| 0 <= k < |post| && post[k] == w;
        assert order[|post| - 1 - k] == w;
      }
    }
    forall w, s | s in ids && Reaches(links, s, w)
      ensures w in visited
    {
      assert s in Elements(ids);
      var p :| IsWalk(links, p) && p[0] == s && Last(p) == w;
      VisitedIsClosed(links, visited, post, p, |p| - 1);
    }
    forall i, c | 0 <= i < |order| && Link(order[i], c) in links
      ensures c in order[i + 1..] || Reaches(links, c, order[i])
    {
      var k := |post| - 1 - i;
      if c in post[..k] {
        var m :| 0 <= m < k && post[m] == c;
        assert order[|post| - 1 - m] == c;
      }
    }
  }

  lemma {:induction false} VisitedIsClosed(links: seq<Link>, visited: set<Id>, post: seq<Id>, p: seq<Id>, i: nat)
    requires Searching(links, visited, post, []) && IsWalk(links, p) && i < |p| && p[0] in visited
    ensures p[i] in visited
  {
    if i > 0 {
      VisitedIsClosed(links, visited, post, p, i - 1);
      assert Link(p[i - 1], p[i]) in links;
      var k :| 0 <= k < |post| && post[k] == p[i - 1];
    }
  }

  // The nested function `dfs` and the two variables it captures.
  class DepthFirst {
    ghost const links: seq<Link>
    const adj: map<Id, seq<Id>>
    var visited: set<Id>
    var order: seq<Id>

    ghost predicate Valid(stack: seq<Id>)
      reads this
    {
      && (forall v :: GetOr(adj, v, []) == Targets(links, v))
      && Searching(links, visited, order, stack)
    }

    constructor (adj: map<Id, seq<Id>>, ghost links: seq<Link>)
      requires forall v :: GetOr(adj, v, []) == Targets(links, v)
      ensures Valid([]) && visited == {} && order == [] && this.links == links
    {
      this.adj, this.links := adj, links;
      visited, order := {}, [];
    }

    // `limit` holds every node the search can meet; it bounds the recursion on any graph.
    method Dfs(nid: Id, ghost stack: seq<Id>, ghost starts: seq<Id>, ghost limit: set<Id>)
      requires Valid(stack) && ReachedFrom(links, starts, visited)
      requires if stack == [] then nid in starts else Link(Last(stack), nid) in links
      requires nid in limit && Endpoints(links) <= limit
      modifies this
      ensures Valid(stack) && ReachedFrom(links, starts, visited)
      ensures old(visited) <= visited && nid in visited && old(order) <= order
      decreases limit - visited
    {
      if nid in visited {
        return;
      }
      Open(links, visited, order, stack, nid);
      NewlyReached(links, starts, visited, stack, nid);
      visited := visited + {nid};
      var children := GetOr(adj, nid, []);
      for j := 0 to |children|
        invariant Valid(stack + [nid]) && ReachedFrom(links, starts, visited)
        invariant old(visited) + {nid} <= visited && old(order) <= order
        invariant forall c :: c in children[..j] ==> c in visited
      {
        TargetsExact(links, nid, children[j]);
        assert Link(nid, children[j]) in links && children[j] in Endpoints(links);
        Dfs(children[j], stack + [nid], starts, limit);
      }
      forall c | Link(nid, c) in links
        ensures c in visited
      {
        TargetsExact(links, nid, c);
      }
      Close(links, visited, order, stack, nid);
      order := order + [nid];
    }
  }

  lemma NewlyReached(links: seq<Link>, starts: seq<Id>, visited: set<Id>, stack: seq<Id>, v: Id)
    requires ReachedFrom(links, starts, visited)
    requires if stack == [] then v in starts else Last(stack) in visited && Link(Last(stack), v) in links
    ensures ReachedFrom(links, starts, visited + {v})
  {
    if stack == [] {
      ReachesSelf(links, v);
    } else {
      var s :| s in starts && Reaches(links, s, Last(stack));
      ReachesStep(links, s, Last(stack), v);
    }
  }

  method BuildAdjacency(edges: seq<Edge>) returns (adj: map<Id, seq<Id>>)
    ensures forall v :: GetOr(adj, v, []) == Targets(ServiceLinks(edges), v)
  {
    adj := map[];
    for i := 0 to |edges|
      invariant forall v :: GetOr(adj, v, []) == Targets(ServiceLinks(edges[..i]), v)
    {
      var e := edges[i];
      ghost var before, after := ServiceLinks(edges[..i]), ServiceLinks(edges[..i + 1]);
      assert Front(edges[..i + 1]) == edges[..i];
      var src, tgt := Either(e.source, e.from), Either(e.target, e.to);
      assert after == before + MakeLink(src, tgt);
      if src.Some? && tgt.Some? {
        assert after == before + [Link(src.value, tgt.value)] && Front(after) == before;
        adj := adj[src.value := GetOr(adj, src.value, []) + [tgt.value]];
      } else {
        assert after == before;
      }
    }
    assert edges[..|edges|] == edges;
  }

  // The order of blocks in a generated service. No assumption on the ids or the edges.
  method GenerateOrder<C>(nodes: seq<Node<C>>, edges: seq<Edge>) returns (order: seq<Id>)
    ensures IsLayout(Ids(nodes), ServiceLinks(edges), order)
    ensures LaterListedFirst(Ids(nodes), ServiceLinks(edges), order)
  {
    ghost var ids, links := Ids(nodes), ServiceLinks(edges);
    var adj := BuildAdjacency(edges);
    var search := new DepthFirst(adj, links);
    for i := 0 to |nodes|
      invariant fresh(search) && search.links == links && search.Valid([])
      invariant Visiting(ids, links, i, search.visited, search.order)
    {
      ghost var visited, post := search.visited, search.order;
      ReachedFromMore(ids, links, i, visited);
      search.Dfs(nodes[i].id, [], ids[..i + 1], Elements(ids) + Endpoints(links));
      NextListed(ids, links, i, visited, post, search.visited, search.order);
    }
    AllListed(ids, links, search.visited, search.order);
    order := Reverse(search.order);
  }

  // The first i listed nodes and what they reach are laid out, in the order of the listing.
  ghost predicate Visiting(ids: seq<Id>, links: seq<Link>, i: nat, visited: set<Id>, post: seq<Id>) {
    && i <= |ids| && Searching(links, visited, post, []) && ReachedFrom(links, ids[..i], visited)
    && (forall v :: v in ids[..i] ==> v in visited) && InListing(ids, links, post)
  }

  lemma ReachedFromMore(ids: seq<Id>, links: seq<Link>, i: nat, visited: set<Id>)
    requires i < |ids| && ReachedFrom(links, ids[..i], visited)
    ensures ReachedFrom(links, ids[..i + 1], visited) && ids[i] in ids[..i + 1] && ids[i] in Elements(ids)
  {
    assert ids[..i + 1] == ids[..i] + [ids[i]];
    forall w | w in visited
      ensures exists s :: s in ids[..i + 1] && Reaches(links, s, w)
    {
      var s :| s in ids[..i] && Reaches(links, s, w);
      assert s in ids[..i + 1];
    }
  }

  lemma AllListed(ids: seq<Id>, links: seq<Link>, visited: set<Id>, post: seq<Id>)
    requires Visiting(ids, links, |ids|, visited, post)
    ensures IsLayout(ids, links, Reverse(post)) && LaterListedFirst(ids, links, Reverse(post))
  {
    assert ids[..|ids|] == ids;
    LayoutFromPostorder(ids, links, visited, post);
    ReversedListing(ids, links, post);
  }

  // The i-th listed node is the first from which w can be reached.
  ghost predicate FirstFrom(ids: seq<Id>, links: seq<Link>, w: Id, i: nat) {
    i < |ids| && Reaches(links, ids[i], w) && forall k :: 0 <= k < i ==> !Reaches(links, ids[k], w)
  }

  ghost predicate InListing(ids: seq<Id>, links: seq<Link>, post: seq<Id>) {
    forall x, y, i, j :: 0 <= x < y < |post| && FirstFrom(ids, links, post[x], i) && FirstFrom(ids, links, post[y], j) ==> i <= j
  }

  // What a later listed node reaches first comes before what earlier ones reach.
  ghost predicate LaterListedFirst(ids: seq<Id>, links: seq<Link>, order: seq<Id>) {
    forall x, y, i, j :: 0 <= x < y < |order| && FirstFrom(ids, links, order[x], i) && FirstFrom(ids, links, order[y], j) ==> i >= j
  }

  lemma ReversedListing(ids: seq<Id>, links: seq<Link>, post: seq<Id>)
    requires InListing(ids, links, post)
    ensures LaterListedFirst(ids, links, Reverse(post))
  {
    forall k | 0 <= k < |post|
      ensures Reverse(post)[k] == post[|post| - 1 - k]
    {
      ReverseAt(post, k);
    }
  }

  lemma FirstFromAtMost(ids: seq<Id>, links: seq<Link>, visited: set<Id>, w: Id, i: nat, j: nat)
    requires i <= |ids| && ReachedFrom(links, ids[..i], visited) && w in visited && FirstFrom(ids, links, w, j)
    ensures j < i
  {
    var s :| s in ids[..i] && Reaches(links, s, w);
    var k :| 0 <= k < i && ids[k] == s;
  }

  lemma FirstFromAtLeast(ids: seq<Id>, links: seq<Link>, visited: set<Id>, post: seq<Id>, w: Id, i: nat, j: nat)
    requires i <= |ids| && Searching(links, visited, post, []) && (forall v :: v in ids[..i] ==> v in visited)
    requires w !in visited && FirstFrom(ids, links, w, j)
    ensures j >= i
  {
    if j < i {
      var p :| IsWalk(links, p) && p[0] == ids[j] && Last(p) == w;
      assert ids[j] in ids[..i];
      VisitedIsClosed(links, visited, post, p, |p| - 1);
      assert false;
    }
  }

  lemma NextListed(ids: seq<Id>, links: seq<Link>, i: nat, visited: set<Id>, post: seq<Id>, visited': set<Id>, post': seq<Id>)
    requires i < |ids| && Visiting(ids, links, i, visited, post)
    requires Searching(links, visited', post', []) && visited <= visited' && post <= post' && ids[i] in visited'
    requires ReachedFrom(links, ids[..i + 1], visited')
    ensures Visiting(ids, links, i + 1, visited', post')
  {
    assert ids[..i + 1] == ids[..i] + [ids[i]];
    forall x, y, a, b | 0 <= x < y < |post'| && FirstFrom(ids, links, post'[x], a) && FirstFrom(ids, links, post'[y], b)
      ensures a <= b
    {
      if y < |post| {
        assert post'[x] == post[x] && post'[y] == post[y];
      } else {
        ListedPair(ids, links, i, visited, post, visited', post', x, y, a, b);
      }
    }
  }

  // A newly laid out node is first reached from the i-th listed one, and none is from a later one.
  lemma ListedPair(ids: seq<Id>, links: seq<Link>, i: nat, visited: set<Id>, post: seq<Id>, visited': set<Id>, post': seq<Id>,
                   x: nat, y: nat, a: nat, b: nat)
    requires i < |ids| && Visiting(ids, links, i, visited, post)
    requires Searching(links, visited', post', []) && post <= post' && ReachedFrom(links, ids[..i + 1], visited')
    requires x < y < |post'| && |post| <= y && FirstFrom(ids, links, post'[x], a) && FirstFrom(ids, links, post'[y], b)
    ensures a <= b
  {
    PostIsVisited(links, visited', post', x);
    FirstFromAtMost(ids, links, visited', post'[x], i + 1, a);
    assert post' + [] == post' && post + [] == post;
    NewInPost(post, post', y);
    FirstFromAtLeast(ids, links, visited, post, post'[y], i, b);
  }

  lemma PostIsVisited(links: seq<Link>, visited: set<Id>, post: seq<Id>, x: nat)
    requires Searching(links, visited, post, []) && x < |post|
    ensures post[x] in visited
  {
  }

  lemma NewInPost(post: seq<Id>, post': seq<Id>, y: nat)
    requires post <= post' && Distinct(post') && |post| <= y < |post'|
    ensures post'[y] !in post
  {
    forall k | 0 <= k < |post|
      ensures post[k] != post'[y]
    {
      assert post[k] == post'[k];
    }
  }

  // ---- Consequences ----

  // Every listed node is laid out exactly once.
  lemma ListedExactlyOnce(ids: seq<Id>, links: seq<Link>, order: seq<Id>, v: Id)
    requires IsLayout(ids, links, order) && v in ids
    ensures exists i :: 0 <= i < |order| && order[i] == v && forall j :: 0 <= j < |order| && order[j] == v ==> j == i
  {
    ReachesSelf(links, v);
    assert v in order;
    var i :| 0 <= i < |order| && order[i] == v;
    assert forall j :: 0 <= j < |order| && order[j] == v ==> j == i;
  }

  // A link points backwards in the layout only if it closes a cycle.
  lemma OnlyCycleLinksPointBack(ids: seq<Id>, links: seq<Link>, order: seq<Id>, i: nat, j: nat)
    requires IsLayout(ids, links, order) && j <= i < |order| && Link(order[i], order[j]) in links
    ensures Reaches(links, order[j], order[i])
  {
    assert order[j] !in order[i + 1..];
  }

  lemma AcyclicLinksPointForward(ids: seq<Id>, links: seq<Link>, order: seq<Id>, i: nat, j: nat)
    requires IsLayout(ids, links, order) && Acyclic(links)
    requires i < |order| && j < |order| && Link(order[i], order[j]) in links
    ensures i < j
  {
    if j <= i {
      OnlyCycleLinksPointBack(ids, links, order, i, j);
      BackLinkClosesCycle(links, order[i], order[j]);
    }
  }

  lemma BackLinkClosesCycle(links: seq<Link>, v: Id, w: Id)
    requires Link(v, w) in links && Reaches(links, w, v)
    ensures !Acyclic(links)
  {
    var p :| IsWalk(links, p) && p[0] == w && Last(p) == v;
    var q := p + [w];
    assert IsWalk(links, q) && |q| > 1 && q[0] == Last(q);
  }

  // ---- Legacy block lists ----

  datatype LegacyBlock<C> = LegacyBlock(kind: Option<string>, config: C)

  function BlockId(i: nat): Id {
    "block_" + Decimal(i)
  }

  lemma BlockIdInjective(i: nat, j: nat)
    requires BlockId(i) == BlockId(j)
    ensures i == j
  {
    assert BlockId(i)[6..] == Decimal(i) && BlockId(j)[6..] == Decimal(j);
    DecimalInjective(i, j);
  }

  function BlockIds(n: nat): seq<Id> {
    seq(n, i requires 0 <= i => BlockId(i))
  }

  function ChainEdges(n: nat): seq<Edge> {
    if n <= 1 then []
    else ChainEdges(n - 1) + [Edge(None, None, Some(BlockId(n - 2)), Some(BlockId(n - 1)))]
  }

  // b.get("type", "custom_code")
  function KindOf<C>(b: LegacyBlock<C>): string {
    if b.kind.Some? then b.kind.value else "custom_code"
  }

  lemma BlockIdText()
    ensures BlockId(0) == "block_0" && BlockId(7) == "block_7" && BlockId(42) == "block_42"
  {
    assert Decimal(42) == Decimal(4) + [Digit(2)];
  }

  // Its position as id, its own configuration, and its type or the default one.
  ghost predicate IsBlock<C>(n: Node<C>, b: LegacyBlock<C>, i: nat) {
    && n.id == BlockId(i) && n.config == b.config
    && n.kind == match b.kind case Some(kind) => kind case None => "custom_code"
  }

  method ConvertLegacy<C>(blocks: seq<LegacyBlock<C>>) returns (nodes: seq<Node<C>>, edges: seq<Edge>)
    ensures Ids(nodes) == BlockIds(|blocks|) && edges == ChainEdges(|blocks|)
    ensures forall i :: 0 <= i < |blocks| ==> IsBlock(nodes[i], blocks[i], i)
  {
    nodes, edges := [], [];
    for i := 0 to |blocks|
      invariant |nodes| == i && edges == ChainEdges(i)
      invariant forall k :: 0 <= k < i ==> IsBlock(nodes[k], blocks[k], k)
    {
      var node := Node(BlockId(i), KindOf(blocks[i]), blocks[i].config);
      OneMoreBlock(nodes, blocks, i, node);
      nodes := nodes + [node];
      if i > 0 {
        edges := edges + [Edge(None, None, Some(BlockId(i - 1)), Some(BlockId(i)))];
      }
    }
    BlockIdsOf(nodes, blocks);
  }

  lemma OneMoreBlock<C>(nodes: seq<Node<C>>, blocks: seq<LegacyBlock<C>>, i: nat, n: Node<C>)
    requires |nodes| == i < |blocks| && forall k :: 0 <= k < i ==> IsBlock(nodes[k], blocks[k], k)
    requires n == Node(BlockId(i), KindOf(blocks[i]), blocks[i].config)
    ensures forall k :: 0 <= k < i + 1 ==> IsBlock((nodes + [n])[k], blocks[k], k)
  {
    assert IsBlock(n, blocks[i], i);
  }

  lemma BlockIdsOf<C>(nodes: seq<Node<C>>, blocks: seq<LegacyBlock<C>>)
    requires |nodes| == |blocks| && forall k :: 0 <= k < |nodes| ==> IsBlock(nodes[k], blocks[k], k)
    ensures Ids(nodes) == BlockIds(|blocks|)
  {
    forall i | 0 <= i < |blocks|
      ensures Ids(nodes)[i] == BlockIds(|blocks|)[i]
    {
      assert IsBlock(nodes[i], blocks[i], i);
    }
  }

  lemma {:induction false} ChainLinksExact(n: nat, l: Link)
    ensures l in ServiceLinks(ChainEdges(n)) <==> exists i :: 0 < i < n && l == Link(BlockId(i - 1), BlockId(i))
  {
    if n > 1 {
      ChainLinksExact(n - 1, l);
      assert Front(ChainEdges(n)) == ChainEdges(n - 1);
      var last := Link(BlockId(n - 2), BlockId(n - 1));
      assert ServiceLinks(ChainEdges(n)) == ServiceLinks(ChainEdges(n - 1)) + [last];
      if l == last {
        assert 0 < n - 1 < n && l == Link(BlockId(n - 1 - 1), BlockId(n - 1));
      }
    }
  }

  // Along a walk in the chain the block number goes up by one at each step.
  lemma {:induction false} ChainWalk(n: nat, p: seq<Id>, k: nat, i: nat)
    requires IsWalk(ServiceLinks(ChainEdges(n)), p) && k < |p| && i < n && p[0] == BlockId(i)
    ensures i + k < n && p[k] == BlockId(i + k)
  {
    if k > 0 {
      ChainWalk(n, p, k - 1, i);
      assert Link(p[k - 1], p[k - 1 + 1]) in ServiceLinks(ChainEdges(n));
      ChainStep(n, i + k - 1, p[k]);
    }
  }

  lemma ChainStep(n: nat, i: nat, w: Id)
    requires Link(BlockId(i), w) in ServiceLinks(ChainEdges(n))
    ensures i + 1 < n && w == BlockId(i + 1)
  {
    var l := Link(BlockId(i), w);
    ChainLinksExact(n, l);
    var j :| 0 < j < n && l == Link(BlockId(j - 1), BlockId(j));
    BlockIdInjective(j - 1, i);
  }

  lemma BlockIdsDistinct(n: nat)
    ensures Distinct(BlockIds(n))
  {
    var ids := BlockIds(n);
    forall i, j | 0 <= i < j < n
      ensures ids[i] != ids[j]
    {
      if ids[i] == ids[j] {
        BlockIdInjective(i, j);
      }
    }
  }

  lemma ChainMembers(n: nat, order: seq<Id>, w: Id)
    requires IsLayout(BlockIds(n), ServiceLinks(ChainEdges(n)), order)
    ensures w in order <==> w in BlockIds(n)
  {
    var ids, links := BlockIds(n), ServiceLinks(ChainEdges(n));
    if w in ids {
      ReachesSelf(links, w);
    }
    if w in order {
      var s :| s in ids && Reaches(links, s, w);
      var i :| 0 <= i < n && s == BlockId(i);
      var p :| IsWalk(links, p) && p[0] == s && Last(p) == w;
      ChainWalk(n, p, |p| - 1, i);
      assert w == ids[i + |p| - 1];
    }
  }

  // A legacy list of n blocks is laid out as block_0, ..., block_{n-1}.
  lemma LegacyOrder(n: nat, order: seq<Id>)
    requires IsLayout(BlockIds(n), ServiceLinks(ChainEdges(n)), order)
    ensures order == BlockIds(n)
  {
    forall w
      ensures w in order <==> w in BlockIds(n)
    {
      ChainMembers(n, order, w);
    }
    forall i, x, y | 0 <= i < n - 1 && 0 <= x < |order| && 0 <= y < |order| && order[x] == BlockId(i) && order[y] == BlockId(i + 1)
      ensures x < y
    {
      ChainForward(n, order, i, x, y);
    }
    ArrangedIsSorted(n, order);
  }

  lemma ArrangedIsSorted(n: nat, order: seq<Id>)
    requires Distinct(order) && forall w :: w in order <==> w in BlockIds(n)
    requires forall i, x, y :: 0 <= i < n - 1 && 0 <= x < |order| && 0 <= y < |order| && order[x] == BlockId(i) && order[y] == BlockId(i + 1) ==> x < y
    ensures order == BlockIds(n)
  {
    var ids := BlockIds(n);
    BlockIdsDistinct(n);
    assert forall i :: 0 <= i < |ids| ==> ids[i] == BlockId(i);
    ArrangedAlike(ids, order);
  }

  lemma ChainForward(n: nat, order: seq<Id>, i: nat, x: nat, y: nat)
    requires IsLayout(BlockIds(n), ServiceLinks(ChainEdges(n)), order)
    requires i + 1 < n && x < |order| && y < |order| && order[x] == BlockId(i) && order[y] == BlockId(i + 1)
    ensures x < y
  {
    var links := ServiceLinks(ChainEdges(n));
    ChainLinksExact(n, Link(order[x], order[y]));
    assert 0 < i + 1 < n && Link(order[x], order[y]) == Link(BlockId(i + 1 - 1), BlockId(i + 1));
    if y <= x {
      OnlyCycleLinksPointBack(BlockIds(n), links, order, x, y);
      var p :| IsWalk(links, p) && p[0] == BlockId(i + 1) && Last(p) == BlockId(i);
      ChainWalk(n, p, |p| - 1, i + 1);
      BlockIdInjective(i, i + 1 + |p| - 1);
    }
  }

  method GenerateLegacyOrder<C>(blocks: seq<LegacyBlock<C>>) returns (order: seq<Id>)
    ensures order == BlockIds(|blocks|)
  {
    var nodes, edges := ConvertLegacy(blocks);
    order := GenerateOrder(nodes, edges);
    LegacyOrder(|blocks|, order);
  }
}
