// The node-and-edge graph of a visual flow, as the canvas saves it and as the
// engine, the scheduler and the service generator read it.
module FlowGraph {
  import opened Prelude

  type Id = string

  datatype Node<C> = Node(id: Id, kind: string, config: C)

  // A saved edge is a JSON object: any of the four keys may be missing.
  datatype Edge = Edge(from: Option<Id>, to: Option<Id>, source: Option<Id>, target: Option<Id>)

  datatype Link = Link(src: Id, tgt: Id)

  function Ids<C>(nodes: seq<Node<C>>): (ids: seq<Id>)
    ensures |ids| == |nodes| && forall i :: 0 <= i < |ids| ==> ids[i] == nodes[i].id
  {
    seq(|nodes|, i requires 0 <= i < |nodes| => nodes[i].id)
  }

  // Python's `a or b` followed by a truth test: the empty string counts as missing.
  function Either(a: Option<Id>, b: Option<Id>): Option<Id> {
    if a.Some? && a.value != "" then a
    else if b.Some? && b.value != "" then b
    else None
  }

  function MakeLink(src: Option<Id>, tgt: Option<Id>): seq<Link> {
    if src.Some? && tgt.Some? then [Link(src.value, tgt.value)] else []
  }

  // block_engine.py prefers `from`/`to`.
  function EngineLinks(edges: seq<Edge>): seq<Link> {
    if edges == [] then []
    else
      var e := Last(edges);
      EngineLinks(Front(edges)) + MakeLink(Either(e.from, e.source), Either(e.to, e.target))
  }

  // service_manager.py prefers `source`/`target`.
  function ServiceLinks(edges: seq<Edge>): seq<Link> {
    if edges == [] then []
    else
      var e := Last(edges);
      ServiceLinks(Front(edges)) + MakeLink(Either(e.source, e.from), Either(e.target, e.to))
  }

  // The scheduler and the canvas read `from` and `to` only, and count an edge
  // as incoming only when its target is a listed node.
  function ListedLinks(ids: seq<Id>, edges: seq<Edge>): seq<Link> {
    if edges == [] then []
    else
      var e := Last(edges);
      ListedLinks(ids, Front(edges)) +
      (if e.to.Some? && e.to.value in ids then [Link(if e.from.Some? then e.from.value else "", e.to.value)] else [])
  }

  // An edge as the canvas writes it: `from` and `to` present and non-empty, no other key.
  predicate CanvasEdge(e: Edge) {
    e.from.Some? && e.from.value != "" && e.to.Some? && e.to.value != "" && e.source.None? && e.target.None?
  }

  lemma {:induction false} LinksAgree(ids: seq<Id>, edges: seq<Edge>)
    requires forall e :: e in edges ==> CanvasEdge(e) && e.to.value in ids
    ensures EngineLinks(edges) == ServiceLinks(edges) == ListedLinks(ids, edges)
  {
    if edges != [] {
      assert Last(edges) in edges;
      LinksAgree(ids, Front(edges));
    }
  }

  // `first or second`: a missing or empty first value gives way to the second.
  predicate ReadsAs(first: Option<Id>, second: Option<Id>, id: Id) {
    id != "" && (first == Some(id) || ((first == None || first == Some("")) && second == Some(id)))
  }

  lemma EitherReads(a: Option<Id>, b: Option<Id>, id: Id)
    ensures Either(a, b) == Some(id) <==> ReadsAs(a, b, id)
  {
  }

  // Which links each program reads: the engine prefers from and to, the generator source and
  // target, and the listed sorts know from and to only.
  lemma {:induction false} LinksRead(ids: seq<Id>, edges: seq<Edge>, l: Link)
    ensures l in EngineLinks(edges) <==> exists e :: e in edges && ReadsAs(e.from, e.source, l.src) && ReadsAs(e.to, e.target, l.tgt)
    ensures l in ServiceLinks(edges) <==> exists e :: e in edges && ReadsAs(e.source, e.from, l.src) && ReadsAs(e.target, e.to, l.tgt)
    ensures l in ListedLinks(ids, edges) <==>
            exists e :: e in edges && e.to == Some(l.tgt) && l.tgt in ids && (e.from == Some(l.src) || (e.from == None && l.src == ""))
  {
    if edges != [] {
      var e := Last(edges);
      LinksRead(ids, Front(edges), l);
      EitherReads(e.from, e.source, l.src);
      EitherReads(e.to, e.target, l.tgt);
      EitherReads(e.source, e.from, l.src);
      EitherReads(e.target, e.to, l.tgt);
      assert forall d :: d in edges <==> d in Front(edges) || d == e by {
        FrontAndLast(edges);
      }
    }
  }

  // The targets of v's outgoing links and the sources of w's incoming ones, in edge order.
  function Targets(links: seq<Link>, v: Id): seq<Id> {
    if links == [] then []
    else Targets(Front(links), v) + (if Last(links).src == v then [Last(links).tgt] else [])
  }

  function Sources(links: seq<Link>, w: Id): seq<Id> {
    if links == [] then []
    else Sources(Front(links), w) + (if Last(links).tgt == w then [Last(links).src] else [])
  }

  lemma {:induction false} TargetsExact(links: seq<Link>, v: Id, w: Id)
    ensures w in Targets(links, v) <==> Link(v, w) in links
  {
    if links != [] {
      TargetsExact(Front(links), v, w);
      assert links == Front(links) + [Last(links)];
    }
  }

  lemma {:induction false} SourcesExact(links: seq<Link>, v: Id, w: Id)
    ensures v in Sources(links, w) <==> Link(v, w) in links
  {
    if links != [] {
      SourcesExact(Front(links), v, w);
      assert links == Front(links) + [Last(links)];
    }
  }

  // A non-empty walk along links.
  ghost predicate IsWalk(links: seq<Link>, p: seq<Id>) {
    p != [] && forall i :: 0 <= i < |p| - 1 ==> Link(p[i], p[i + 1]) in links
  }

  ghost predicate Reaches(links: seq<Link>, v: Id, w: Id) {
    exists p :: IsWalk(links, p) && p[0] == v && Last(p) == w
  }

  // Some walk ends at w and comes back to its own first node on the way.
  ghost predicate OnOrBelowCycle(links: seq<Link>, w: Id) {
    exists p, i :: IsWalk(links, p) && 0 < i < |p| && p[i] == p[0] && Last(p) == w
  }

  ghost predicate Acyclic(links: seq<Link>) {
    forall p :: IsWalk(links, p) && |p| > 1 ==> p[0] != Last(p)
  }

  lemma WalkPrefix(links: seq<Link>, p: seq<Id>, k: nat)
    requires IsWalk(links, p) && 0 < k <= |p|
    ensures IsWalk(links, p[..k])
  {
  }

  lemma WalkSuffix(links: seq<Link>, p: seq<Id>, k: nat)
    requires IsWalk(links, p) && k < |p|
    ensures IsWalk(links, p[k..])
  {
    forall i | 0 <= i < |p[k..]| - 1
      ensures Link(p[k..][i], p[k..][i + 1]) in links
    {
      assert Link(p[k + i], p[k + i + 1]) in links;
    }
  }

  lemma NothingBelowCycle(links: seq<Link>, w: Id)
    requires Acyclic(links)
    ensures !OnOrBelowCycle(links, w)
  {
    if OnOrBelowCycle(links, w) {
      var p, i :| IsWalk(links, p) && 0 < i < |p| && p[i] == p[0] && Last(p) == w;
      WalkPrefix(links, p, i + 1);
    }
  }
}
