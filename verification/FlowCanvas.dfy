// frontend/lib/components/flow-canvas.js: editing a flow on the canvas.
module FlowCanvas {
  import opened Prelude
  import opened FlowGraph
  import KahnSort
  import ListedSort
  import SortAgreement

  datatype PortKind = In | Out

  datatype Wire = Wire(from: Id, fromPort: nat, to: Id, toPort: nat)

  datatype Pending = Pending(nodeId: Id, portKind: PortKind, portIdx: nat)

  datatype Canvas = Canvas(ids: seq<Id>, wires: seq<Wire>, connecting: Option<Pending>)

  datatype Action =
    | AddNode(id: Id)
    | RemoveNode(id: Id)
    | StartConnect(id: Id, portKind: PortKind, portIdx: nat)
    | EndConnect(id: Id, portKind: PortKind, portIdx: nat)
    | RemoveEdge(index: nat)
    | CancelConnect
    | Reload(ids: seq<Id>, wires: seq<Wire>)  // the page passes its own nodes and edges in again

  function Without(ids: seq<Id>, id: Id): seq<Id> {
    if ids == [] then [] else Without(Front(ids), id) + (if Last(ids) != id then [Last(ids)] else [])
  }

  function Detach(wires: seq<Wire>, id: Id): seq<Wire> {
    if wires == [] then []
    else Detach(Front(wires), id) + (if Last(wires).from != id && Last(wires).to != id then [Last(wires)] else [])
  }

  predicate SameSlot(a: Wire, b: Wire) {
    a.from == b.from && a.to == b.to && a.toPort == b.toPort
  }

  // An output dropped on an input of another node, not yet wired that way.
  predicate Connects(c: Canvas, a: Action) {
    && a.EndConnect? && c.connecting.Some?
    && c.connecting.value.portKind == Out && a.portKind == In && c.connecting.value.nodeId != a.id
    && !exists w :: w in c.wires && SameSlot(w, NewWire(c, a))
  }

  function NewWire(c: Canvas, a: Action): Wire
    requires a.EndConnect? && c.connecting.Some?
  {
    Wire(c.connecting.value.nodeId, c.connecting.value.portIdx, a.id, a.portIdx)
  }

  function Step(c: Canvas, a: Action): Canvas {
    match a
    case AddNode(id) => c.(ids := c.ids + [id])
    case RemoveNode(id) => c.(ids := Without(c.ids, id), wires := Detach(c.wires, id))
    case StartConnect(id, kind, idx) => c.(connecting := Some(Pending(id, kind, idx)))
    case EndConnect(_, _, _) =>
      c.(wires := if Connects(c, a) then c.wires + [NewWire(c, a)] else c.wires, connecting := None)
    case RemoveEdge(i) => if i < |c.wires| then c.(wires := c.wires[..i] + c.wires[i + 1..]) else c
    case CancelConnect => c.(connecting := None)
    case Reload(ids, wires) => c.(ids := ids, wires := wires)
  }

  function Run(c: Canvas, actions: seq<Action>): Canvas {
    if actions == [] then c else Step(Run(c, Front(actions)), Last(actions))
  }

  // New ids are fresh; ports belong to rendered nodes; what the page holds was saved by a canvas.
  ghost predicate Enabled(c: Canvas, a: Action) {
    match a
    case AddNode(id) => id != "" && id !in c.ids
    case StartConnect(id, _, _) => id in c.ids
    case EndConnect(id, _, _) => id in c.ids
    case Reload(ids, wires) => TargetsListed(Canvas(ids, wires, None))
    case _ => true
  }

  ghost predicate WellFormed(c: Canvas) {
    && Distinct(c.ids) && "" !in c.ids
    && (forall w :: w in c.wires ==> w.from in c.ids && w.to in c.ids && w.from != w.to)
    && SlotsDistinct(c.wires)
  }

  ghost predicate SlotsDistinct(wires: seq<Wire>) {
    forall i, j :: 0 <= i < j < |wires| ==> !SameSlot(wires[i], wires[j])
  }

  lemma {:induction false} WithoutExact(ids: seq<Id>, id: Id)
    requires Distinct(ids)
    ensures Distinct(Without(ids, id)) && forall v :: v in Without(ids, id) <==> v in ids && v != id
  {
    if ids != [] {
      WithoutExact(Front(ids), id);
      assert ids == Front(ids) + [Last(ids)];
      assert Last(ids) !in Without(Front(ids), id);
    }
  }

  lemma {:induction false} DetachExact(wires: seq<Wire>, id: Id)
    requires SlotsDistinct(wires)
    ensures forall w :: w in Detach(wires, id) <==> w in wires && w.from != id && w.to != id
    ensures SlotsDistinct(Detach(wires, id))
  {
    if wires != [] {
      DetachExact(Front(wires), id);
      assert wires == Front(wires) + [Last(wires)];
      var d := Detach(Front(wires), id);
      forall i | 0 <= i < |d|
        ensures !SameSlot(d[i], Last(wires))
      {
        assert d[i] in Front(wires);
        var k :| 0 <= k < |wires| - 1 && wires[k] == d[i];
        assert !SameSlot(wires[k], wires[|wires| - 1]);
      }
      assert Detach(wires, id) == d || Detach(wires, id) == d + [Last(wires)];
    }
  }

  // Removing a node, or reloading the graph without it, does not cancel a connection being
  // dragged from it, so a step keeps the canvas well formed exactly when it does not complete a
  // wire from a node since gone, nor load a graph that is not well formed itself.
  lemma StepWellFormed(c: Canvas, a: Action)
    requires WellFormed(c) && Enabled(c, a)
    ensures WellFormed(Step(c, a)) <==>
              && !(Connects(c, a) && c.connecting.value.nodeId !in c.ids)
              && (a.Reload? ==> WellFormed(Canvas(a.ids, a.wires, None)))
  {
    match a
    case RemoveNode(id) =>
      WithoutExact(c.ids, id);
      DetachExact(c.wires, id);
    case EndConnect(_, _, _) =>
      if Connects(c, a) {
        assert NewWire(c, a) in Step(c, a).wires;
      }
    case _ =>
  }

  // ---- Whole editing sessions ----

  // No node goes while a connection is being dragged from it, and reloaded graphs are well formed.
  ghost predicate Careful(c: Canvas, actions: seq<Action>) {
    forall k :: 0 <= k < |actions| ==>
      var before := Run(c, actions[..k]);
      && Enabled(before, actions[k])
      && (actions[k].RemoveNode? && before.connecting.Some? ==> before.connecting.value.nodeId != actions[k].id)
      && (actions[k].Reload? ==> WellFormed(Canvas(actions[k].ids, actions[k].wires, None)))
      && (actions[k].Reload? && before.connecting.Some? ==> before.connecting.value.nodeId in actions[k].ids)
  }

  ghost predicate SourceListed(c: Canvas) {
    c.connecting.Some? ==> c.connecting.value.nodeId in c.ids
  }

  lemma {:induction false} SessionWellFormed(c: Canvas, actions: seq<Action>)
    requires WellFormed(c) && SourceListed(c) && Careful(c, actions)
    ensures WellFormed(Run(c, actions)) && SourceListed(Run(c, actions))
  {
    if actions != [] {
      var before, a := Run(c, Front(actions)), Last(actions);
      forall k | 0 <= k < |Front(actions)|
        ensures Front(actions)[..k] == actions[..k]
      {
      }
      SessionWellFormed(c, Front(actions));
      assert actions[..|actions| - 1] == Front(actions);
      StepWellFormed(before, a);
      if a.RemoveNode? {
        WithoutExact(before.ids, a.id);
      }
    }
  }

  // In any session at all, targets stay listed: wires end where a rendered node was.
  ghost predicate TargetsListed(c: Canvas) {
    && Distinct(c.ids) && "" !in c.ids && SlotsDistinct(c.wires)
    && (forall w :: w in c.wires ==> w.from != "" && w.to in c.ids && w.from != w.to)
    && (c.connecting.Some? ==> c.connecting.value.nodeId != "")
  }

  ghost predicate Possible(c: Canvas, actions: seq<Action>) {
    actions != [] ==> Possible(c, Front(actions)) && Enabled(Run(c, Front(actions)), Last(actions))
  }

  lemma {:induction false} SessionTargetsListed(c: Canvas, actions: seq<Action>)
    requires TargetsListed(c) && Possible(c, actions)
    ensures TargetsListed(Run(c, actions))
  {
    if actions != [] {
      var before, a := Run(c, Front(actions)), Last(actions);
      SessionTargetsListed(c, Front(actions));
      if a.RemoveNode? {
        WithoutExact(before.ids, a.id);
        DetachExact(before.wires, a.id);
      }
    }
  }

  function SavedEdges(wires: seq<Wire>): seq<Edge> {
    seq(|wires|, i requires 0 <= i < |wires| => Edge(Some(wires[i].from), Some(wires[i].to), None, None))
  }

  // After every session the three Kahn sorts of the saved graph coincide and none fails.
  lemma SessionSortsAgree(start: Canvas, actions: seq<Action>, engine: seq<Id>, listed: seq<Id>)
    requires TargetsListed(start) && Possible(start, actions)
    requires var c := Run(start, actions);
      && KahnSort.IsKahnOrder(c.ids, EngineLinks(SavedEdges(c.wires)), engine)
      && KahnSort.IsKahnOrder(c.ids, ListedLinks(c.ids, SavedEdges(c.wires)), listed)
    ensures var c := Run(start, actions);
      && engine == listed
      && !ListedSort.LacksTarget(c.ids, SavedEdges(c.wires)) && !ListedSort.Dangles(c.ids, SavedEdges(c.wires), listed)
  {
    SessionTargetsListed(start, actions);
    var c := Run(start, actions);
    var edges := SavedEdges(c.wires);
    forall e | e in edges
      ensures CanvasEdge(e) && e.to.value in c.ids
    {
      var i :| 0 <= i < |edges| && e == edges[i];
      assert c.wires[i] in c.wires;
    }
    SortAgreement.SortsAgree(c.ids, edges, engine, listed);
  }

  // The careless session: drag from a, remove a, drop on b. The wire outlives its source.
  lemma CarelessSession()
    ensures var dragging := Step(Step(Step(Canvas([], [], None), AddNode("a")), AddNode("b")), StartConnect("a", Out, 0));
      var c := Step(Step(dragging, RemoveNode("a")), EndConnect("b", In, 0));
      WellFormed(dragging) && c.ids == ["b"] && c.wires == [Wire("a", 0, "b", 0)] && !WellFormed(c)
  {
    var held := Some(Pending("a", Out, 0));
    var dragging := Step(Step(Step(Canvas([], [], None), AddNode("a")), AddNode("b")), StartConnect("a", Out, 0));
    assert dragging == Canvas(["a", "b"], [], held);
    WithoutFirst();
    var removed := Step(dragging, RemoveNode("a"));
    assert removed == Canvas(["b"], [], held);
    var c := Step(removed, EndConnect("b", In, 0));
    assert c == Canvas(["b"], [Wire("a", 0, "b", 0)], None);
    assert Wire("a", 0, "b", 0) in c.wires;
  }

  lemma WithoutFirst()
    ensures Without(["a", "b"], "a") == ["b"]
  {
    assert Front(["a", "b"]) == ["a"] && Front(["a"]) == [] && Without(["a"], "a") == [];
  }

  // A node at the end of a wire whose source is not listed is never emitted.
  lemma NeverEmitted(c: Canvas, w: Wire, order: seq<Id>)
    requires TargetsListed(c) && w in c.wires && w.from !in c.ids
    requires KahnSort.IsKahnOrder(c.ids, EngineLinks(SavedEdges(c.wires)), order)
    ensures w.to !in order
  {
    var edges := SavedEdges(c.wires);
    var links := EngineLinks(edges);
    forall e | e in edges
      ensures CanvasEdge(e) && e.to.value in c.ids
    {
      var i :| 0 <= i < |edges| && e == edges[i];
      assert c.wires[i] in c.wires;
    }
    var i :| 0 <= i < |c.wires| && c.wires[i] == w;
    assert edges[i] in edges;
    SortAgreement.EngineLinksExact(edges, Link(w.from, w.to));
    assert Link(w.from, w.to) in links;
    KahnSort.KahnSetIsLeastClosed(c.ids, links, order);
    OnlyListed(c.ids, edges);
    assert w.from !in Elements(c.ids) && w.from !in Elements(order);
    if w.to in order {
      var j :| 0 <= j < |order| && order[j] == w.to;
      KahnSort.SourcesFirst(c.ids, links, order, Link(w.from, w.to), j);
      assert false;
    }
  }

  lemma OnlyListed(ids: seq<Id>, edges: seq<Edge>)
    requires forall e :: e in edges ==> CanvasEdge(e) && e.to.value in ids
    ensures KahnSort.Universe(ids, EngineLinks(edges)) == Elements(ids)
  {
    forall l | l in EngineLinks(edges)
      ensures l.tgt in ids
    {
      SortAgreement.EngineLinksExact(edges, l);
    }
  }
}
