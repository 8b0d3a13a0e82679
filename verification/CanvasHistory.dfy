// What is on the canvas after a session, told from the edits: a wire is there when it was drawn
// or loaded and nothing has cut it since.
module CanvasHistory {
  import opened Prelude
  import opened FlowGraph
  import opened FlowCanvas

  // The drag from output w.fromPort of w.from is dropped on input w.toPort of another node, and
  // no wire joins the two nodes at that input yet; or a load brings the wire.
  ghost predicate Draws(c: Canvas, a: Action, w: Wire) {
    match a
    case EndConnect(id, kind, port) =>
      && c.connecting == Some(Pending(w.from, Out, w.fromPort))
      && kind == In && id == w.to && port == w.toPort && w.from != w.to
      && forall x :: x in c.wires ==> !(x.from == w.from && x.to == w.to && x.toPort == w.toPort)
    case Reload(_, wires) => w in wires
    case _ => false
  }

  // One of its ends is removed, it is removed itself, or a load does not bring it.
  ghost predicate Cuts(c: Canvas, a: Action, w: Wire) {
    match a
    case RemoveNode(id) => id == w.from || id == w.to
    case RemoveEdge(i) => i < |c.wires| && c.wires[i] == w
    case Reload(_, wires) => w !in wires
    case _ => false
  }

  lemma StepWires(c: Canvas, a: Action, w: Wire)
    requires TargetsListed(c)
    ensures w in Step(c, a).wires <==> Draws(c, a, w) || (w in c.wires && !Cuts(c, a, w))
  {
    match a
    case RemoveNode(id) => DetachExact(c.wires, id);
    case RemoveEdge(i) =>
      if i < |c.wires| {
        RemoveOne(c.wires, i, w);
      }
    case EndConnect(_, _, _) =>
      if Connects(c, a) {
        assert c.wires + [NewWire(c, a)] == Step(c, a).wires;
      }
    case _ =>
  }

  lemma RemoveOne(wires: seq<Wire>, i: nat, w: Wire)
    requires SlotsDistinct(wires) && i < |wires|
    ensures w in wires[..i] + wires[i + 1..] <==> w in wires && w != wires[i]
  {
    if w in wires[..i] + wires[i + 1..] {
      var k :| 0 <= k < |wires| && k != i && wires[k] == w;
      assert !SameSlot(wires[if k < i then k else i], wires[if k < i then i else k]);
    }
    if w in wires && w != wires[i] {
      var k :| 0 <= k < |wires| && wires[k] == w;
      assert (wires[..i] + wires[i + 1..])[if k < i then k else k - 1] == w;
    }
  }

  // Nodes come by adding or loading and go by removing or loading; a connection is being dragged
  // from the port where one last started until it ends or is cancelled.
  lemma StepNodes(c: Canvas, a: Action, v: Id)
    requires Distinct(c.ids)
    ensures v in Step(c, a).ids <==>
            match a
            case AddNode(id) => v in c.ids || v == id
            case RemoveNode(id) => v in c.ids && v != id
            case Reload(ids, _) => v in ids
            case _ => v in c.ids
    ensures Step(c, a).connecting ==
            match a
            case StartConnect(id, kind, port) => Some(Pending(id, kind, port))
            case EndConnect(_, _, _) => None
            case CancelConnect => None
            case _ => c.connecting
  {
    if a.RemoveNode? {
      WithoutExact(c.ids, a.id);
    }
  }

  // What stays keeps its place in the order.
  lemma {:induction false} DetachInOrder(wires: seq<Wire>, id: Id) returns (at: seq<nat>)
    ensures |at| == |Detach(wires, id)| && forall i :: 0 <= i < |at| ==> at[i] < |wires| && wires[at[i]] == Detach(wires, id)[i]
    ensures forall i, j :: 0 <= i < j < |at| ==> at[i] < at[j]
  {
    at := [];
    if wires != [] {
      at := DetachInOrder(Front(wires), id);
      if Last(wires).from != id && Last(wires).to != id {
        at := at + [|wires| - 1];
      }
    }
  }

  lemma {:induction false} WithoutInOrder(ids: seq<Id>, id: Id) returns (at: seq<nat>)
    ensures |at| == |Without(ids, id)| && forall i :: 0 <= i < |at| ==> at[i] < |ids| && ids[at[i]] == Without(ids, id)[i]
    ensures forall i, j :: 0 <= i < j < |at| ==> at[i] < at[j]
  {
    at := [];
    if ids != [] {
      at := WithoutInOrder(Front(ids), id);
      if Last(ids) != id {
        at := at + [|ids| - 1];
      }
    }
  }

  // ---- Whole sessions ----

  // From edit k on nothing cuts w.
  ghost predicate UncutFrom(start: Canvas, actions: seq<Action>, w: Wire, k: nat) {
    forall j :: k <= j < |actions| ==> !Cuts(Run(start, actions[..j]), actions[j], w)
  }

  ghost predicate DrawnAt(start: Canvas, actions: seq<Action>, w: Wire, k: nat)
    requires k < |actions|
  {
    Draws(Run(start, actions[..k]), actions[k], w) && UncutFrom(start, actions, w, k + 1)
  }

  ghost predicate Drawn(start: Canvas, actions: seq<Action>, w: Wire) {
    || (w in start.wires && UncutFrom(start, actions, w, 0))
    || exists k :: 0 <= k < |actions| && DrawnAt(start, actions, w, k)
  }

  lemma UncutNext(start: Canvas, actions: seq<Action>, w: Wire, k: nat)
    requires actions != [] && k < |actions|
    ensures UncutFrom(start, actions, w, k) <==>
            UncutFrom(start, Front(actions), w, k) && !Cuts(Run(start, Front(actions)), Last(actions), w)
  {
    var before, n := Front(actions), |actions| - 1;
    assert actions[..n] == before && actions[n] == Last(actions);
    assert forall j :: 0 <= j < n ==> actions[..j] == before[..j] && actions[j] == before[j];
  }

  lemma DrawnNext(start: Canvas, actions: seq<Action>, w: Wire)
    requires actions != []
    ensures Drawn(start, actions, w) <==>
            || Draws(Run(start, Front(actions)), Last(actions), w)
            || (Drawn(start, Front(actions), w) && !Cuts(Run(start, Front(actions)), Last(actions), w))
  {
    var before, n := Front(actions), |actions| - 1;
    assert actions[..n] == before && actions[n] == Last(actions);
    UncutNext(start, actions, w, 0);
    forall k | 0 <= k < n
      ensures DrawnAt(start, actions, w, k) <==>
              DrawnAt(start, before, w, k) && !Cuts(Run(start, before), Last(actions), w)
    {
      assert actions[..k] == before[..k] && actions[k] == before[k];
      UncutNext(start, actions, w, k + 1);
    }
    assert DrawnAt(start, actions, w, n) <==> Draws(Run(start, before), Last(actions), w);
    if exists k :: 0 <= k < |actions| && DrawnAt(start, actions, w, k) {
      var k :| 0 <= k < |actions| && DrawnAt(start, actions, w, k);
      assert k < n || k == n;
    }
    if exists k :: 0 <= k < n && DrawnAt(start, before, w, k) {
      var k :| 0 <= k < n && DrawnAt(start, before, w, k);
      assert DrawnAt(start, actions, w, k) || Cuts(Run(start, before), Last(actions), w);
    }
  }

  // After every session a wire is on the canvas exactly when it was there or was drawn at some
  // edit, and no edit after that has cut it.
  lemma {:induction false} WirePresentIff(start: Canvas, actions: seq<Action>, w: Wire)
    requires TargetsListed(start) && Possible(start, actions)
    ensures w in Run(start, actions).wires <==> Drawn(start, actions, w)
  {
    if actions != [] {
      WirePresentIff(start, Front(actions), w);
      SessionTargetsListed(start, Front(actions));
      StepWires(Run(start, Front(actions)), Last(actions), w);
      DrawnNext(start, actions, w);
    }
  }
}
