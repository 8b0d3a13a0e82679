// frontend/lib/org-files.js: the rows of one organisation's files and directories, a forest
// by parent pointers, and the storage keys on disk.
module FileTree {
  import opened Prelude

  type EntryId = nat  // row ids and storage keys are UUIDs
  type Key = nat

  datatype Kind = Directory | File

  datatype Entry = Entry(name: string, parent: Option<EntryId>, kind: Kind, storageKey: Option<Key>, size: nat)

  type Rows = map<EntryId, Entry>

  datatype Store = Store(rows: Rows, disk: set<Key>)

  // ---- The parent relation ----

  function ParentOf(rows: Rows, id: EntryId): Option<EntryId> {
    if id in rows then rows[id].parent else None
  }

  function Ancestor(rows: Rows, id: EntryId, n: nat): Option<EntryId> {
    if n == 0 then Some(id)
    else
      match Ancestor(rows, id, n - 1)
      case None => None
      case Some(a) => ParentOf(rows, a)
  }

  // top is id or one of its ancestors.
  ghost predicate Within(rows: Rows, top: EntryId, id: EntryId) {
    exists n: nat :: Ancestor(rows, id, n) == Some(top)
  }

  ghost predicate DepthAt(rows: Rows, depth: map<EntryId, nat>, id: EntryId)
    requires depth.Keys == rows.Keys && id in rows
  {
    match rows[id].parent
    case None => depth[id] == 0
    case Some(p) => p in rows && depth[id] == depth[p] + 1
  }

  ghost predicate Depths(rows: Rows, depth: map<EntryId, nat>) {
    depth.Keys == rows.Keys && forall id {:trigger DepthAt(rows, depth, id)} :: id in rows ==> DepthAt(rows, depth, id)
  }

  // Parents exist and following them ends at a root.
  ghost predicate Forest(rows: Rows) {
    exists depth :: Depths(rows, depth)
  }

  lemma {:induction false} AncestorStep(rows: Rows, id: EntryId, n: nat)
    requires ParentOf(rows, id).Some?
    ensures Ancestor(rows, id, n + 1) == Ancestor(rows, ParentOf(rows, id).value, n)
  {
    if n > 0 {
      AncestorStep(rows, id, n - 1);
    } else {
      assert Ancestor(rows, id, 0) == Some(id);
    }
  }

  lemma {:induction false} AncestorDepth(rows: Rows, depth: map<EntryId, nat>, id: EntryId, n: nat, a: EntryId)
    requires Depths(rows, depth) && id in rows && Ancestor(rows, id, n) == Some(a)
    ensures a in rows && depth[a] + n == depth[id]
    decreases n
  {
    if n > 0 {
      var b := Ancestor(rows, id, n - 1).value;
      AncestorDepth(rows, depth, id, n - 1, b);
      ParentDepth(rows, depth, b, a);
    }
  }

  lemma ParentDepth(rows: Rows, depth: map<EntryId, nat>, id: EntryId, parent: EntryId)
    requires Depths(rows, depth) && id in rows && rows[id].parent == Some(parent)
    ensures parent in rows && depth[id] == depth[parent] + 1
  {
    assert DepthAt(rows, depth, id);
  }

  lemma {:induction false} AncestorNone(rows: Rows, id: EntryId, n: nat, m: nat)
    requires Ancestor(rows, id, n).None? && n <= m
    ensures Ancestor(rows, id, m).None?
    decreases m
  {
    if n < m {
      AncestorNone(rows, id, n, m - 1);
    }
  }

  lemma WithinSelf(rows: Rows, id: EntryId)
    ensures Within(rows, id, id)
  {
    assert Ancestor(rows, id, 0) == Some(id);
  }

  lemma WithinParent(rows: Rows, top: EntryId, id: EntryId)
    requires ParentOf(rows, id).Some?
    ensures Within(rows, top, id) <==> id == top || Within(rows, top, ParentOf(rows, id).value)
  {
    var p := ParentOf(rows, id).value;
    if Within(rows, top, id) && id != top {
      var n: nat :| Ancestor(rows, id, n) == Some(top);
      AncestorStep(rows, id, n - 1);
    }
    if Within(rows, top, p) {
      var n: nat :| Ancestor(rows, p, n) == Some(top);
      AncestorStep(rows, id, n);
    }
    if id == top {
      WithinSelf(rows, id);
    }
  }

  lemma WithinRoot(rows: Rows, top: EntryId, id: EntryId)
    requires ParentOf(rows, id).None?
    ensures Within(rows, top, id) <==> id == top
  {
    WithinSelf(rows, id);
    if Within(rows, top, id) {
      var n: nat :| Ancestor(rows, id, n) == Some(top);
      if n > 0 {
        assert Ancestor(rows, id, 0) == Some(id);
        AncestorNone(rows, id, 1, n);
      }
    }
  }

  lemma WithinDepth(rows: Rows, depth: map<EntryId, nat>, top: EntryId, id: EntryId)
    requires Depths(rows, depth) && id in rows && Within(rows, top, id)
    ensures top in rows && depth[top] <= depth[id] && (depth[top] == depth[id] ==> top == id)
  {
    var n: nat :| Ancestor(rows, id, n) == Some(top);
    AncestorDepth(rows, depth, id, n, top);
  }

  // n steps up from start without meeting id.
  ghost predicate Walking(rows: Rows, start: EntryId, id: EntryId, check: Option<EntryId>, n: nat) {
    && Ancestor(rows, start, n) == check && (check.Some? ==> check.value in rows)
    && forall k: nat :: k < n ==> Ancestor(rows, start, k) != Some(id)
  }

  ghost function StepsLeft(depth: map<EntryId, nat>, check: Option<EntryId>): nat {
    if check.Some? then 1 + GetOr(depth, check.value, 0) else 0
  }

  lemma WalkNext(rows: Rows, depth: map<EntryId, nat>, start: EntryId, id: EntryId, check: EntryId, n: nat)
    requires Depths(rows, depth) && Walking(rows, start, id, Some(check), n) && check != id
    ensures Walking(rows, start, id, rows[check].parent, n + 1)
    ensures StepsLeft(depth, rows[check].parent) < StepsLeft(depth, Some(check))
  {
    assert DepthAt(rows, depth, check);
  }

  // A walk that reached the top without meeting an entry never meets it.
  lemma WalkEnded(rows: Rows, start: EntryId, id: EntryId, n: nat)
    requires Walking(rows, start, id, None, n)
    ensures !Within(rows, id, start)
  {
    forall k: nat
      ensures Ancestor(rows, start, k) != Some(id)
    {
      if k >= n {
        AncestorNone(rows, start, n, k);
      }
    }
  }

  // ---- Moving ----

  function Reparent(rows: Rows, id: EntryId, parent: Option<EntryId>): Rows {
    if id in rows then rows[id := rows[id].(parent := parent)] else rows
  }

  ghost predicate MoveRefused(rows: Rows, id: EntryId, parent: Option<EntryId>) {
    parent.Some? && Within(rows, id, parent.value)
  }

  // The depths after a move: the moved subtree shifts as a whole.
  ghost function ShiftedDepth(rows: Rows, depth: map<EntryId, nat>, id: EntryId, base: nat, y: EntryId): nat
    requires Depths(rows, depth) && id in rows && y in rows
  {
    if Within(rows, id, y) then (WithinDepth(rows, depth, id, y); depth[y] - depth[id] + base) else depth[y]
  }

  ghost function MovedDepth(rows: Rows, depth: map<EntryId, nat>, id: EntryId, base: nat): map<EntryId, nat>
    requires Depths(rows, depth) && id in rows
  {
    map y | y in rows :: ShiftedDepth(rows, depth, id, base, y)
  }

  lemma MovedDepthAt(rows: Rows, depth: map<EntryId, nat>, id: EntryId, parent: Option<EntryId>, y: EntryId)
    requires Depths(rows, depth) && id in rows && (parent.Some? ==> parent.value in rows) && y in rows
    requires !MoveRefused(rows, id, parent)
    ensures var base := if parent.Some? then depth[parent.value] + 1 else 0;
      DepthAt(Reparent(rows, id, parent), MovedDepth(rows, depth, id, base), y)
  {
    WithinSelf(rows, id);
    if y != id {
      assert DepthAt(rows, depth, y);
      if rows[y].parent.Some? {
        WithinParent(rows, id, y);
      } else {
        WithinRoot(rows, id, y);
      }
    }
  }

  // A move keeps a forest exactly when it is not refused.
  lemma MoveKeepsForest(rows: Rows, id: EntryId, parent: Option<EntryId>)
    requires Forest(rows) && id in rows && (parent.Some? ==> parent.value in rows)
    ensures Forest(Reparent(rows, id, parent)) <==> !MoveRefused(rows, id, parent)
  {
    if MoveRefused(rows, id, parent) {
      MoveIntoSelfMakesCycle(rows, id, parent.value);
    } else {
      var depth :| Depths(rows, depth);
      var base := if parent.Some? then depth[parent.value] + 1 else 0;
      forall y | y in rows
        ensures DepthAt(Reparent(rows, id, parent), MovedDepth(rows, depth, id, base), y)
      {
        MovedDepthAt(rows, depth, id, parent, y);
      }
      assert Depths(Reparent(rows, id, parent), MovedDepth(rows, depth, id, base));
    }
  }

  lemma {:induction false} AncestorUnchanged(rows: Rows, id: EntryId, parent: Option<EntryId>, y: EntryId, n: nat)
    requires forall k :: 0 <= k < n ==> Ancestor(rows, y, k) != Some(id)
    ensures Ancestor(Reparent(rows, id, parent), y, n) == Ancestor(rows, y, n)
  {
    if n > 0 {
      AncestorUnchanged(rows, id, parent, y, n - 1);
    }
  }

  lemma MoveIntoSelfMakesCycle(rows: Rows, id: EntryId, p: EntryId)
    requires id in rows && p in rows && Within(rows, id, p)
    ensures !Forest(Reparent(rows, id, Some(p)))
  {
    var rows' := Reparent(rows, id, Some(p));
    if Forest(rows') {
      var depth :| Depths(rows', depth);
      var m: nat :| Ancestor(rows, p, m) == Some(id);
      var n := FirstMeeting(rows, id, p, m);
      AncestorUnchanged(rows, id, Some(p), p, n);
      assert DepthAt(rows', depth, id);
      AncestorDepth(rows', depth, p, n, id);
    }
  }

  lemma FirstMeeting(rows: Rows, top: EntryId, id: EntryId, m: nat) returns (n: nat)
    requires Ancestor(rows, id, m) == Some(top)
    ensures Ancestor(rows, id, n) == Some(top) && forall k :: 0 <= k < n ==> Ancestor(rows, id, k) != Some(top)
    decreases m
  {
    if k: nat :| k < m && Ancestor(rows, id, k) == Some(top) {
      n := FirstMeeting(rows, top, id, k);
    } else {
      n := m;
    }
  }

  // ---- Deleting ----

  ghost function Subtree(rows: Rows, top: EntryId): set<EntryId> {
    set y | y in rows && Within(rows, top, y)
  }

  // What the recursive delete visits: it descends only into directories.
  ghost predicate VisitedAt(rows: Rows, top: EntryId, id: EntryId, n: nat)
    decreases n
  {
    if n == 0 then id == top
    else
      match ParentOf(rows, id)
      case None => false
      case Some(p) => p in rows && rows[p].kind == Directory && VisitedAt(rows, top, p, n - 1)
  }

  ghost function Visited(rows: Rows, top: EntryId): set<EntryId> {
    set y | y in rows && exists n: nat :: VisitedAt(rows, top, y, n)
  }

  function Children(rows: Rows, id: EntryId): set<EntryId> {
    set c | c in rows && rows[c].parent == Some(id)
  }

  function KeyOf(e: Entry): Option<Key> {
    if e.kind == File then e.storageKey else None
  }

  // The storage keys of the file rows among the given ids.
  function FileKeys(rows: Rows, ids: set<EntryId>): set<Key> {
    set y | y in ids && y in rows && KeyOf(rows[y]).Some? :: KeyOf(rows[y]).value
  }

  ghost function SubtreeOf(rows: Rows, tops: set<EntryId>): set<EntryId> {
    set y | y in rows && exists t :: t in tops && Within(rows, t, y)
  }

  ghost function VisitedOf(rows: Rows, tops: set<EntryId>): set<EntryId> {
    set y | y in rows && exists t :: t in tops && y in Visited(rows, t)
  }

  // Whoever has a parent in the set is in the set.
  ghost predicate DownClosed(rows: Rows, gone: set<EntryId>) {
    forall y :: y in rows && rows[y].parent.Some? && rows[y].parent.value in gone ==> y in gone
  }

  lemma {:induction false} VisitedWithin(rows: Rows, top: EntryId, id: EntryId, n: nat)
    requires VisitedAt(rows, top, id, n)
    ensures Ancestor(rows, id, n) == Some(top)
    decreases n
  {
    if n > 0 {
      VisitedWithin(rows, top, ParentOf(rows, id).value, n - 1);
      AncestorStep(rows, id, n - 1);
    }
  }

  // One level down, for both notions.
  lemma {:induction false} VisitedDown(rows: Rows, top: EntryId, id: EntryId, n: nat)
    requires VisitedAt(rows, top, id, n) && n > 0 && id in rows
    ensures top in rows && rows[top].kind == Directory
    ensures exists c :: c in Children(rows, top) && VisitedAt(rows, c, id, n - 1)
    decreases n
  {
    if n == 1 {
      assert id in Children(rows, top) && VisitedAt(rows, id, id, 0);
    } else {
      var p := ParentOf(rows, id).value;
      VisitedDown(rows, top, p, n - 1);
      var c :| c in Children(rows, top) && VisitedAt(rows, c, p, n - 2);
      assert VisitedAt(rows, c, id, n - 1);
    }
  }

  lemma {:induction false} VisitedUp(rows: Rows, top: EntryId, c: EntryId, id: EntryId, n: nat)
    requires c in Children(rows, top) && top in rows && rows[top].kind == Directory && VisitedAt(rows, c, id, n)
    ensures VisitedAt(rows, top, id, n + 1)
    decreases n
  {
    if n > 0 {
      VisitedUp(rows, top, c, ParentOf(rows, id).value, n - 1);
    } else {
      assert VisitedAt(rows, top, top, 0);
    }
  }

  lemma VisitedStep(rows: Rows, top: EntryId)
    requires top in rows
    ensures Visited(rows, top) ==
            {top} + (if rows[top].kind == Directory then VisitedOf(rows, Children(rows, top)) else {})
  {
    var below := if rows[top].kind == Directory then VisitedOf(rows, Children(rows, top)) else {};
    assert VisitedAt(rows, top, top, 0);
    forall y | y in Visited(rows, top)
      ensures y == top || y in below
    {
      var n: nat :| VisitedAt(rows, top, y, n);
      if n > 0 {
        VisitedDown(rows, top, y, n);
        var c :| c in Children(rows, top) && VisitedAt(rows, c, y, n - 1);
        assert y in Visited(rows, c);
      }
    }
    forall y | y in below
      ensures y in Visited(rows, top)
    {
      var c :| c in Children(rows, top) && y in Visited(rows, c);
      var n: nat :| VisitedAt(rows, c, y, n);
      VisitedUp(rows, top, c, y, n);
    }
  }

  lemma WithinTransitive(rows: Rows, a: EntryId, b: EntryId, c: EntryId)
    requires Within(rows, a, b) && Within(rows, b, c)
    ensures Within(rows, a, c)
  {
    var n: nat :| Ancestor(rows, c, n) == Some(b);
    var m: nat :| Ancestor(rows, b, m) == Some(a);
    AncestorSum(rows, c, n, b, m);
  }

  lemma {:induction false} AncestorSum(rows: Rows, id: EntryId, n: nat, mid: EntryId, m: nat)
    requires Ancestor(rows, id, n) == Some(mid)
    ensures Ancestor(rows, id, n + m) == Ancestor(rows, mid, m)
  {
    if m > 0 {
      AncestorSum(rows, id, n, mid, m - 1);
    }
  }

  lemma ChildWithin(rows: Rows, id: EntryId, c: EntryId)
    requires c in Children(rows, id)
    ensures Within(rows, id, c)
  {
    WithinSelf(rows, id);
    WithinParent(rows, id, c);
  }

  // A child's subtree is strictly smaller, and siblings do not contain each other.
  lemma ChildSubtree(rows: Rows, id: EntryId, c: EntryId)
    requires Forest(rows) && id in rows && c in Children(rows, id)
    ensures Subtree(rows, c) < Subtree(rows, id) && id !in Subtree(rows, c)
    ensures forall d :: d in Children(rows, id) && Within(rows, d, c) ==> d == c
  {
    var depth :| Depths(rows, depth);
    ChildWithin(rows, id, c);
    assert DepthAt(rows, depth, c);
    forall y | y in Subtree(rows, c)
      ensures y in Subtree(rows, id)
    {
      WithinTransitive(rows, id, c, y);
    }
    WithinSelf(rows, id);
    if Within(rows, c, id) {
      WithinDepth(rows, depth, c, id);
    }
    assert id in Subtree(rows, id) && id !in Subtree(rows, c);
    forall d | d in Children(rows, id) && Within(rows, d, c)
      ensures d == c
    {
      assert DepthAt(rows, depth, d);
      WithinDepth(rows, depth, d, c);
    }
  }

  lemma SubtreeOfDownClosed(rows: Rows, gone: set<EntryId>, tops: set<EntryId>)
    requires DownClosed(rows, gone)
    ensures DownClosed(rows, gone + SubtreeOf(rows, tops))
  {
    forall y | y in rows && rows[y].parent.Some? && rows[y].parent.value in SubtreeOf(rows, tops)
      ensures y in SubtreeOf(rows, tops)
    {
      var t :| t in tops && Within(rows, t, rows[y].parent.value);
      WithinParent(rows, t, y);
    }
  }

  // Cutting off whole subtrees does not disturb the ancestors of what is left.
  lemma {:induction false} CutAncestor(rows: Rows, gone: set<EntryId>, y: EntryId, n: nat)
    requires DownClosed(rows, gone) && y in rows && y !in gone
    requires forall id :: id in rows && rows[id].parent.Some? ==> rows[id].parent.value in rows
    ensures Ancestor(rows - gone, y, n) == Ancestor(rows, y, n)
    ensures Ancestor(rows, y, n).Some? ==> Ancestor(rows, y, n).value in rows - gone
  {
    if n > 0 {
      CutAncestor(rows, gone, y, n - 1);
    }
  }

  lemma ForestParents(rows: Rows)
    requires Forest(rows)
    ensures forall id :: id in rows && rows[id].parent.Some? ==> rows[id].parent.value in rows
  {
    var depth :| Depths(rows, depth);
    forall id | id in rows && rows[id].parent.Some?
      ensures rows[id].parent.value in rows
    {
      assert DepthAt(rows, depth, id);
    }
  }

  lemma CutSubtree(rows: Rows, gone: set<EntryId>, top: EntryId)
    requires Forest(rows) && DownClosed(rows, gone)
    ensures Subtree(rows - gone, top) == Subtree(rows, top) - gone
  {
    ForestParents(rows);
    forall y | y in rows && y !in gone
      ensures Within(rows - gone, top, y) <==> Within(rows, top, y)
    {
      forall n: nat
        ensures Ancestor(rows - gone, y, n) == Ancestor(rows, y, n)
      {
        CutAncestor(rows, gone, y, n);
      }
    }
  }

  // PostgreSQL's DELETE of one row, with ON DELETE CASCADE on parent_id.
  method CascadeDelete(rows: Rows, id: EntryId) returns (left: Rows)
    requires id in rows
    ensures left == rows - Subtree(rows, id)
  {
    var gone := {id};
    WithinSelf(rows, id);
    while exists y :: y in rows && y !in gone && rows[y].parent.Some? && rows[y].parent.value in gone
      invariant id in gone && gone <= Subtree(rows, id)
      decreases rows.Keys - gone
    {
      var y :| y in rows && y !in gone && rows[y].parent.Some? && rows[y].parent.value in gone;
      WithinParent(rows, id, y);
      gone := gone + {y};
    }
    forall y | y in Subtree(rows, id)
      ensures y in gone
    {
      var n: nat :| Ancestor(rows, y, n) == Some(id);
      ClosedAbove(rows, gone, id, y, n);
    }
    left := rows - gone;
  }

  lemma {:induction false} ClosedAbove(rows: Rows, gone: set<EntryId>, id: EntryId, y: EntryId, n: nat)
    requires DownClosed(rows, gone) && id in gone && y in rows && Ancestor(rows, y, n) == Some(id)
    ensures y in gone
    decreases n
  {
    if n > 0 {
      if ParentOf(rows, y).None? {
        assert Ancestor(rows, y, 0) == Some(y);
        AncestorNone(rows, y, 1, n);
      } else {
        AncestorStep(rows, y, n - 1);
        var p := ParentOf(rows, y).value;
        if p in rows {
          ClosedAbove(rows, gone, id, p, n - 1);
        } else if n > 1 {
          assert Ancestor(rows, p, 0) == Some(p);
          AncestorNone(rows, p, 1, n - 1);
        }
      }
    }
  }

  // ---- The store and its operations ----

  ghost function TotalSize(rows: Rows): nat
    decreases |rows|
  {
    if rows == map[] then 0
    else
      var id := Pick(rows);
      (if rows[id].kind == File then rows[id].size else 0) + TotalSize(rows - {id})
  }

  lemma {:induction false} TotalSizeWithout(rows: Rows, id: EntryId)
    requires id in rows
    ensures TotalSize(rows) == TotalSize(rows - {id}) + if rows[id].kind == File then rows[id].size else 0
    decreases |rows|
  {
    var first := Pick(rows);
    if first != id {
      TotalSizeWithout(rows - {first}, id);
      TotalSizeWithout(rows - {id}, first);
      assert rows - {first} - {id} == rows - {id} - {first};
    }
  }

  lemma {:induction false} TotalSizeLess(rows: Rows, gone: set<EntryId>)
    ensures TotalSize(rows - gone) <= TotalSize(rows)
    decreases |gone|
  {
    if gone == {} {
      assert rows - gone == rows;
    } else {
      var id :| id in gone;
      TotalSizeLess(rows, gone - {id});
      var less := rows - (gone - {id});
      if id in less {
        TotalSizeWithout(less, id);
        assert less - {id} == rows - gone;
      } else {
        assert less == rows - gone;
      }
    }
  }

  // Replacing a row's parent does not change any size.
  lemma TotalSizeReparent(rows: Rows, id: EntryId, parent: Option<EntryId>)
    ensures TotalSize(Reparent(rows, id, parent)) == TotalSize(rows)
  {
    if id in rows {
      TotalSizeWithout(rows, id);
      TotalSizeWithout(Reparent(rows, id, parent), id);
      assert Reparent(rows, id, parent) - {id} == rows - {id};
    }
  }

  // File rows have distinct keys, all of them on disk.
  ghost predicate KeysStored(s: Store) {
    && (forall a, b :: a in s.rows && b in s.rows && a != b && KeyOf(s.rows[a]).Some? ==> KeyOf(s.rows[a]) != KeyOf(s.rows[b]))
    && (forall a :: a in s.rows && KeyOf(s.rows[a]).Some? ==> KeyOf(s.rows[a]).value in s.disk)
  }

  ghost predicate Valid(s: Store, limit: nat) {
    Forest(s.rows) && KeysStored(s) && TotalSize(s.rows) <= limit
  }

  // No key on disk without a row.
  ghost predicate NoOrphans(s: Store) {
    Orphans(s) == {}
  }

  ghost function Orphans(s: Store): set<Key> {
    s.disk - FileKeys(s.rows, s.rows.Keys)
  }

  function Add(s: Store, id: EntryId, e: Entry): Store {
    Store(s.rows[id := e], if e.storageKey.Some? then s.disk + {e.storageKey.value} else s.disk)
  }

  ghost function Remove(s: Store, id: EntryId): Store {
    Store(s.rows - Subtree(s.rows, id), s.disk - FileKeys(s.rows, Visited(s.rows, id)))
  }

  lemma AddForest(rows: Rows, id: EntryId, e: Entry)
    requires Forest(rows) && id !in rows && (e.parent.Some? ==> e.parent.value in rows)
    ensures Forest(rows[id := e])
  {
    var depth :| Depths(rows, depth);
    var depth' := depth[id := if e.parent.Some? then depth[e.parent.value] + 1 else 0];
    var rows' := rows[id := e];
    forall y | y in rows'
      ensures DepthAt(rows', depth', y)
    {
      assert y in rows ==> DepthAt(rows, depth, y);
    }
    assert Depths(rows', depth');
  }

  lemma AddKeys(s: Store, id: EntryId, e: Entry)
    requires KeysStored(s) && id !in s.rows
    requires e.storageKey.Some? ==> e.storageKey.value !in s.disk
    ensures KeysStored(Add(s, id, e))
  {
    var t := Add(s, id, e);
    forall a | a in s.rows && KeyOf(s.rows[a]).Some?
      ensures KeyOf(s.rows[a]) != KeyOf(e) && KeyOf(t.rows[a]).value in t.disk
    {
    }
  }

  lemma AddSize(rows: Rows, id: EntryId, e: Entry)
    requires id !in rows
    ensures TotalSize(rows[id := e]) == TotalSize(rows) + if e.kind == File then e.size else 0
  {
    TotalSizeWithout(rows[id := e], id);
    assert rows[id := e] - {id} == rows;
  }

  lemma AddValid(s: Store, id: EntryId, e: Entry, limit: nat)
    requires Valid(s, limit) && id !in s.rows && (e.parent.Some? ==> e.parent.value in s.rows)
    requires e.storageKey.Some? ==> e.storageKey.value !in s.disk
    requires e.kind == File ==> TotalSize(s.rows) + e.size <= limit
    ensures Valid(Add(s, id, e), limit)
  {
    AddForest(s.rows, id, e);
    AddKeys(s, id, e);
    AddSize(s.rows, id, e);
  }

  lemma MoveValid(s: Store, id: EntryId, parent: Option<EntryId>, limit: nat)
    requires Valid(s, limit) && (parent.Some? ==> parent.value in s.rows) && !MoveRefused(s.rows, id, parent)
    ensures Valid(Store(Reparent(s.rows, id, parent), s.disk), limit)
  {
    if id in s.rows {
      MoveKeepsForest(s.rows, id, parent);
      TotalSizeReparent(s.rows, id, parent);
      ReparentKeys(s, id, parent);
    }
  }

  lemma ReparentKeys(s: Store, id: EntryId, parent: Option<EntryId>)
    requires KeysStored(s)
    ensures KeysStored(Store(Reparent(s.rows, id, parent), s.disk))
    ensures FileKeys(Reparent(s.rows, id, parent), s.rows.Keys) == FileKeys(s.rows, s.rows.Keys)
  {
    var rows' := Reparent(s.rows, id, parent);
    assert rows'.Keys == s.rows.Keys;
    forall y | y in s.rows
      ensures KeyOf(rows'[y]) == KeyOf(s.rows[y])
    {
    }
  }

  lemma RemoveForest(rows: Rows, id: EntryId)
    requires Forest(rows)
    ensures Forest(rows - Subtree(rows, id))
  {
    var depth :| Depths(rows, depth);
    var left := rows - Subtree(rows, id);
    var depth' := map y | y in left :: depth[y];
    forall y | y in left
      ensures DepthAt(left, depth', y)
    {
      assert DepthAt(rows, depth, y);
      if rows[y].parent.Some? {
        WithinParent(rows, id, y);
      }
    }
    assert Depths(left, depth');
  }

  lemma RemoveKeys(s: Store, gone: set<EntryId>, unlinked: set<EntryId>)
    requires KeysStored(s) && unlinked <= gone
    ensures KeysStored(Store(s.rows - gone, s.disk - FileKeys(s.rows, unlinked)))
  {
    var left := s.rows - gone;
    forall y | y in left && KeyOf(left[y]).Some?
      ensures KeyOf(left[y]).value !in FileKeys(s.rows, unlinked)
    {
    }
  }

  lemma RemoveValid(s: Store, id: EntryId, limit: nat)
    requires Valid(s, limit)
    ensures Valid(Remove(s, id), limit)
  {
    RemoveForest(s.rows, id);
    TotalSizeLess(s.rows, Subtree(s.rows, id));
    VisitedInSubtree(s.rows, id);
    RemoveKeys(s, Subtree(s.rows, id), Visited(s.rows, id));
  }

  lemma VisitedInSubtree(rows: Rows, id: EntryId)
    ensures Visited(rows, id) <= Subtree(rows, id)
  {
    forall y | y in Visited(rows, id)
      ensures y in Subtree(rows, id)
    {
      var n: nat :| VisitedAt(rows, id, y, n);
      VisitedWithin(rows, id, y, n);
    }
  }

  // ---- Steps of the recursive delete ----

  lemma FileKeysUnion(rows: Rows, a: set<EntryId>, b: set<EntryId>)
    ensures FileKeys(rows, a + b) == FileKeys(rows, a) + FileKeys(rows, b)
  {
  }

  lemma ChildrenLeft(rows: Rows, gone: set<EntryId>, id: EntryId)
    requires gone !! Subtree(rows, id)
    ensures Children(rows - gone, id) == Children(rows, id)
  {
    forall c | c in Children(rows, id)
      ensures c !in gone
    {
      ChildWithin(rows, id, c);
    }
  }

  lemma ChildrenInside(rows: Rows, id: EntryId)
    requires Forest(rows) && id in rows
    ensures id !in SubtreeOf(rows, Children(rows, id))
    ensures SubtreeOf(rows, Children(rows, id)) <= Subtree(rows, id)
  {
    forall y | y in SubtreeOf(rows, Children(rows, id))
      ensures y in Subtree(rows, id)
    {
      var c :| c in Children(rows, id) && Within(rows, c, y);
      ChildSubtree(rows, id, c);
    }
    WithinSelf(rows, id);
    forall c | c in Children(rows, id)
      ensures !Within(rows, c, id)
    {
      ChildSubtree(rows, id, c);
    }
  }

  lemma OneAncestorPerDepth(rows: Rows, depth: map<EntryId, nat>, a: EntryId, b: EntryId, y: EntryId)
    requires Depths(rows, depth) && y in rows && Within(rows, a, y) && Within(rows, b, y)
    requires a in rows && b in rows && depth[a] == depth[b]
    ensures a == b
  {
    var m: nat :| Ancestor(rows, y, m) == Some(a);
    var n: nat :| Ancestor(rows, y, n) == Some(b);
    AncestorDepth(rows, depth, y, m, a);
    AncestorDepth(rows, depth, y, n, b);
    assert m == n;
  }

  // Cascading on what the recursion left removes the rest of the subtree.
  lemma CutRest(rows: Rows, gone: set<EntryId>, cut: set<EntryId>, id: EntryId)
    requires Forest(rows) && DownClosed(rows, cut) && gone <= cut <= gone + Subtree(rows, id)
    ensures (rows - cut) - Subtree(rows - cut, id) == rows - (gone + Subtree(rows, id))
  {
    CutSubtree(rows, cut, id);
    var sub := Subtree(rows, id);
    assert (rows - cut) - (sub - cut) == rows - (cut + sub);
    assert cut + sub == gone + sub;
  }

  lemma SiblingsDisjoint(rows: Rows, id: EntryId, done: set<EntryId>, child: EntryId)
    requires Forest(rows) && done <= Children(rows, id) && child in Children(rows, id) && child !in done
    ensures SubtreeOf(rows, done) !! Subtree(rows, child)
  {
    var depth :| Depths(rows, depth);
    forall y | y in SubtreeOf(rows, done)
      ensures !Within(rows, child, y)
    {
      var d :| d in done && Within(rows, d, y);
      assert d in Children(rows, id) && DepthAt(rows, depth, d) && DepthAt(rows, depth, child);
      if Within(rows, child, y) {
        OneAncestorPerDepth(rows, depth, d, child, y);
      }
    }
  }

  lemma OneMoreChild(rows: Rows, gone: set<EntryId>, done: set<EntryId>, child: EntryId)
    requires DownClosed(rows, gone)
    ensures DownClosed(rows, gone + SubtreeOf(rows, done + {child}))
    ensures gone + SubtreeOf(rows, done + {child}) == gone + SubtreeOf(rows, done) + Subtree(rows, child)
    ensures FileKeys(rows, VisitedOf(rows, done + {child})) ==
            FileKeys(rows, VisitedOf(rows, done)) + FileKeys(rows, Visited(rows, child))
  {
    SubtreeOfDownClosed(rows, gone, done + {child});
    assert SubtreeOf(rows, done + {child}) == SubtreeOf(rows, done) + Subtree(rows, child);
    assert VisitedOf(rows, done + {child}) == VisitedOf(rows, done) + Visited(rows, child);
    FileKeysUnion(rows, VisitedOf(rows, done), Visited(rows, child));
  }

  class FileStore {
    var rows: Rows
    var disk: set<Key>
    const limit: nat

    ghost function State(): Store
      reads this
    {
      Store(rows, disk)
    }

    constructor (limit: nat)
      ensures State() == Store(map[], {}) && this.limit == limit && Valid(State(), limit) && NoOrphans(State())
    {
      rows, disk, this.limit := map[], {}, limit;
      new;
      assert Depths(map[], map[]);
    }

    // `id` is the fresh row id the database generates; a given parent is an existing row.
    method CreateDirectory(id: EntryId, text: Texts, parent: Option<EntryId>) returns (ok: bool)
      requires Valid(State(), limit) && id !in rows && (parent.Some? ==> parent.value in rows)
      modifies this
      ensures ok <==> DirectoryAccepted(text)
      ensures State() == if ok then Add(old(State()), id, DirectoryRow(text, parent)) else old(State())
      ensures ok ==> rows == old(rows)[id := rows[id]] && disk == old(disk)
      ensures ok ==> rows[id].parent == parent && rows[id].kind == Directory && rows[id].storageKey.None? && rows[id].size == 0
      ensures ok ==> rows[id].name == if |text.name| <= 255 then text.name else text.name[..255]
      ensures Valid(State(), limit)
    {
      if !DirectoryAccepted(text) {
        return false;
      }
      AddValid(State(), id, DirectoryRow(text, parent), limit);
      rows := rows[id := DirectoryRow(text, parent)];
      ok := true;
    }

    method Usage() returns (total: nat)
      ensures total == TotalSize(rows)
    {
      var todo := rows.Keys;
      ghost var done: set<EntryId> := {};
      total := 0;
      assert rows - rows.Keys == map[];
      while todo != {}
        invariant todo <= rows.Keys && total == TotalSize(rows - todo)
        decreases todo
      {
        var id :| id in todo;
        var more := rows - (todo - {id});
        TotalSizeWithout(more, id);
        assert more - {id} == rows - todo;
        total := total + if rows[id].kind == File then rows[id].size else 0;
        todo := todo - {id};
      }
      assert rows - {} == rows;
    }

    // `key` is a fresh random UUID. The key is written before the row, so texts that
    // the database rejects leave the key without a row.
    method UploadFile(id: EntryId, key: Key, text: Texts, parent: Option<EntryId>, length: nat) returns (outcome: Uploaded)
      requires Valid(State(), limit) && id !in rows && (parent.Some? ==> parent.value in rows)
      requires key !in disk
      modifies this
      ensures outcome == UploadOutcome(old(State()), text, length, limit)
      ensures State() == match outcome
                         case Stored => Add(old(State()), id, FileRow(text, key, parent, length))
                         case Refused => old(State())
                         case Orphaned => Store(old(rows), old(disk) + {key})
      ensures outcome.Refused? <==> text.name == "" || old(TotalSize(rows)) + length > limit
      ensures outcome.Stored? ==> rows == old(rows)[id := rows[id]] && disk == old(disk) + {key}
      ensures outcome.Stored? ==>
                rows[id].parent == parent && rows[id].kind == File && rows[id].storageKey == Some(key) && rows[id].size == length
      ensures outcome.Stored? ==> rows[id].name == if |text.name| <= 255 then text.name else text.name[..255]
      ensures Valid(State(), limit)
      ensures old(Orphans(State())) <= Orphans(State())
      ensures Orphans(State()) == old(Orphans(State())) <==> outcome != Orphaned
    {
      ghost var s, e := State(), FileRow(text, key, parent, length);
      if text.name == "" {
        return Refused;
      }
      var usage := Usage();
      if usage + length > limit {
        return Refused;
      }
      KeysAreStored(s);
      disk := disk + {key};
      if !Storable(text) {
        assert key in Orphans(State()) && key !in Orphans(s);
        return Orphaned;
      }
      AddValid(s, id, e, limit);
      AddOrphans(s, id, e);
      rows := rows[id := FileRow(text, key, parent, length)];
      outcome := Stored;
    }

    // The walk from the new parent to its root: does it meet the entry?
    method Meets(start: EntryId, id: EntryId) returns (meets: bool)
      requires Forest(rows) && start in rows
      ensures meets <==> Within(rows, id, start)
    {
      ghost var depth :| Depths(rows, depth);
      var check := Some(start);
      ghost var n: nat := 0;
      while check.Some?
        invariant Walking(rows, start, id, check, n)
        decreases StepsLeft(depth, check)
      {
        if check.value == id {
          return true;
        }
        WalkNext(rows, depth, start, id, check.value, n);
        check := rows[check.value].parent;
        n := n + 1;
      }
      WalkEnded(rows, start, id, n);
      meets := false;
    }

    // Refuses exactly the moves into the entry itself or below it.
    method MoveEntry(id: EntryId, newParent: Option<EntryId>) returns (ok: bool)
      requires Valid(State(), limit) && (newParent.Some? ==> newParent.value in rows)
      modifies this
      ensures ok <==> !MoveRefused(old(rows), id, newParent)
      ensures State() == if ok then Store(Reparent(old(rows), id, newParent), old(disk)) else old(State())
      ensures rows.Keys == old(rows).Keys && forall y :: y in rows && !(ok && y == id) ==> rows[y] == old(rows)[y]
      ensures ok && id in rows ==> rows[id] == old(rows)[id].(parent := newParent)
      ensures Valid(State(), limit)
    {
      if newParent.Some? {
        var meets := Meets(newParent.value, id);
        if meets {
          return false;
        }
      }
      MoveValid(State(), id, newParent, limit);
      if id in rows {
        rows := rows[id := rows[id].(parent := newParent)];
      }
      ok := true;
    }

    // Removes the entry and everything below it; unlinks the keys of the files it visits.
    method DeleteEntry(id: EntryId) returns (found: bool)
      requires Valid(State(), limit)
      modifies this
      ensures found <==> id in old(rows)
      ensures State() == if found then Remove(old(State()), id) else old(State())
      ensures Valid(State(), limit)
    {
      ghost var s := State();
      assert rows - {} == rows;
      found := DeleteRecursive(id, rows, {});
      if found {
        RemoveValid(s, id, limit);
        assert {} + Subtree(s.rows, id) == Subtree(s.rows, id);
      }
    }

    // The recursion: `all` are the rows at the outermost call, `gone` those deleted since.
    method DeleteRecursive(id: EntryId, ghost all: Rows, ghost gone: set<EntryId>) returns (found: bool)
      requires Forest(all) && DownClosed(all, gone) && rows == all - gone && gone !! Subtree(all, id)
      modifies this`rows, this`disk
      ensures found <==> id in all
      ensures found ==> rows == all - (gone + Subtree(all, id))
      ensures found ==> disk == old(disk) - FileKeys(all, Visited(all, id))
      ensures !found ==> rows == old(rows) && disk == old(disk)
      decreases Subtree(all, id), 1
    {
      WithinSelf(all, id);
      if id !in rows {
        return false;
      }
      var entry := rows[id];
      if entry.kind == File && entry.storageKey.Some? {
        disk := disk - {entry.storageKey.value};
      }
      ghost var cut := gone;
      if entry.kind == Directory {
        DeleteChildren(id, all, gone);
        cut := gone + SubtreeOf(all, Children(all, id));
        SubtreeOfDownClosed(all, gone, Children(all, id));
      }
      ChildrenInside(all, id);
      CutRest(all, gone, cut, id);
      rows := CascadeDelete(rows, id);
      VisitedKeys(all, id);
      found := true;
    }

    // The loop over the children, in whatever order the query lists them.
    method DeleteChildren(id: EntryId, ghost all: Rows, ghost gone: set<EntryId>)
      requires Forest(all) && DownClosed(all, gone) && rows == all - gone && gone !! Subtree(all, id) && id in all
      modifies this`rows, this`disk
      ensures rows == all - (gone + SubtreeOf(all, Children(all, id)))
      ensures disk == old(disk) - FileKeys(all, VisitedOf(all, Children(all, id)))
      decreases Subtree(all, id), 0
    {
      var todo := Children(rows, id);
      ChildrenLeft(all, gone, id);
      ghost var done: set<EntryId> := {};
      assert SubtreeOf(all, {}) == {} && VisitedOf(all, {}) == {} && gone + {} == gone;
      while todo != {}
        invariant done + todo == Children(all, id) && done !! todo
        invariant DownClosed(all, gone + SubtreeOf(all, done))
        invariant rows == all - (gone + SubtreeOf(all, done))
        invariant disk == old(disk) - FileKeys(all, VisitedOf(all, done))
        decreases todo
      {
        var child :| child in todo;
        ChildSubtree(all, id, child);
        SiblingsDisjoint(all, id, done, child);
        OneMoreChild(all, gone, done, child);
        var _ := DeleteRecursive(child, all, gone + SubtreeOf(all, done));
        todo, done := todo - {child}, done + {child};
      }
      assert done == Children(all, id);
    }
  }

  lemma VisitedKeys(rows: Rows, id: EntryId)
    requires id in rows
    ensures FileKeys(rows, Visited(rows, id)) ==
            (if KeyOf(rows[id]).Some? then {KeyOf(rows[id]).value} else {}) +
            (if rows[id].kind == Directory then FileKeys(rows, VisitedOf(rows, Children(rows, id))) else {})
  {
    VisitedStep(rows, id);
    var below := if rows[id].kind == Directory then VisitedOf(rows, Children(rows, id)) else {};
    FileKeysUnion(rows, {id}, below);
    assert FileKeys(rows, {id}) == if KeyOf(rows[id]).Some? then {KeyOf(rows[id]).value} else {};
  }

  // What becomes of an upload.
  datatype Uploaded = Stored | Refused | Orphaned

  // The texts of a row that the caller gives; the MIME type is not used for a directory.
  datatype Texts = Texts(name: string, mime: string, visibility: string)

  // VARCHAR(width): no NUL character, and nothing but blanks beyond the width, which are cut off.
  predicate Fits(text: string, width: nat) {
    '\0' !in text && forall i :: width <= i < |text| ==> text[i] == ' '
  }

  predicate Storable(text: Texts) {
    Fits(text.name, 255) && Fits(text.mime, 100) && Fits(text.visibility, 10)
  }

  function StoredName(name: string): string {
    if |name| > 255 then name[..255] else name
  }

  function DirectoryRow(text: Texts, parent: Option<EntryId>): Entry {
    Entry(StoredName(text.name), parent, Directory, None, 0)
  }

  function FileRow(text: Texts, key: Key, parent: Option<EntryId>, length: nat): Entry {
    Entry(StoredName(text.name), parent, File, Some(key), length)
  }

  predicate DirectoryAccepted(text: Texts) {
    ValidName(text.name) && Fits(text.name, 255) && Fits(text.visibility, 10)
  }

  ghost function UploadOutcome(s: Store, text: Texts, length: nat, limit: nat): Uploaded {
    if text.name == "" || TotalSize(s.rows) + length > limit then Refused else if Storable(text) then Stored else Orphaned
  }

  // A directory name is refused exactly when it is empty, has one of the nine forbidden
  // characters or NUL, or runs on beyond 255 characters with anything but blanks.
  lemma DirectoryRefusedIff(text: Texts)
    requires |text.visibility| <= 10 && '\0' !in text.visibility
    ensures !DirectoryAccepted(text) <==>
            || text.name == ""
            || (exists c :: c in text.name && c in {'/', '\\', '<', '>', ':', '"', '|', '?', '*', '\0'})
            || (exists i :: 255 <= i < |text.name| && text.name[i] != ' ')
  {
    assert forall c :: c in "/\\<>:\"|?*" <==> c in {'/', '\\', '<', '>', ':', '"', '|', '?', '*'};
  }

  // An upload that is not refused leaves its key without a row exactly when one of its texts has
  // a NUL or runs on beyond its column with anything but blanks.
  lemma OrphanedIff(s: Store, text: Texts, length: nat, limit: nat)
    requires text.name != "" && TotalSize(s.rows) + length <= limit
    ensures UploadOutcome(s, text, length, limit).Orphaned? <==>
            || '\0' in text.name + text.mime + text.visibility
            || (exists i :: 255 <= i < |text.name| && text.name[i] != ' ')
            || (exists i :: 100 <= i < |text.mime| && text.mime[i] != ' ')
            || (exists i :: 10 <= i < |text.visibility| && text.visibility[i] != ' ')
  {
  }

  lemma KeysAreStored(s: Store)
    requires KeysStored(s)
    ensures FileKeys(s.rows, s.rows.Keys) <= s.disk
  {
  }

  // names: [^/\\<>:"|?*]+
  predicate ValidName(name: string) {
    name != "" && forall c :: c in name ==> c !in "/\\<>:\"|?*"
  }

  // ---- Keys left behind ----

  // Nothing forces a parent to be a directory. A delete leaves no key behind exactly when
  // every file it removes is one its recursion visits.
  lemma RemoveOrphansIff(s: Store, id: EntryId, limit: nat)
    requires Valid(s, limit)
    ensures Orphans(Remove(s, id)) == Orphans(s) <==>
            forall y :: y in Subtree(s.rows, id) && KeyOf(s.rows[y]).Some? ==> y in Visited(s.rows, id)
  {
    forall key
      ensures key in Orphans(Remove(s, id)) <==> key in Orphans(s) || LeftBehind(s, id, key)
    {
      RemoveOrphan(s, id, key);
    }
    if y :| y in Subtree(s.rows, id) && KeyOf(s.rows[y]).Some? && y !in Visited(s.rows, id) {
      var key := KeyOf(s.rows[y]).value;
      assert LeftBehind(s, id, key) && key in FileKeys(s.rows, s.rows.Keys);
    }
  }

  ghost predicate LeftBehind(s: Store, id: EntryId, key: Key) {
    exists y :: y in Subtree(s.rows, id) && KeyOf(s.rows[y]) == Some(key) && y !in Visited(s.rows, id)
  }

  lemma RemoveOrphan(s: Store, id: EntryId, key: Key)
    requires KeysStored(s)
    ensures key in Orphans(Remove(s, id)) <==> key in Orphans(s) || LeftBehind(s, id, key)
  {
    var r := Remove(s, id);
    VisitedInSubtree(s.rows, id);
    if key in s.disk && key in FileKeys(s.rows, s.rows.Keys) {
      var y :| y in s.rows && KeyOf(s.rows[y]) == Some(key);
      assert y !in Subtree(s.rows, id) ==> y in r.rows;
      assert key in FileKeys(s.rows, Visited(s.rows, id)) <==> y in Visited(s.rows, id);
    }
  }

  ghost predicate ParentsAreDirectories(rows: Rows) {
    forall id :: id in rows && rows[id].parent.Some? && rows[id].parent.value in rows ==>
      rows[rows[id].parent.value].kind == Directory
  }

  lemma {:induction false} AncestorVisited(rows: Rows, top: EntryId, id: EntryId, n: nat)
    requires Forest(rows) && ParentsAreDirectories(rows) && id in rows && Ancestor(rows, id, n) == Some(top)
    ensures VisitedAt(rows, top, id, n)
    decreases n
  {
    if n > 0 {
      ForestParents(rows);
      if ParentOf(rows, id).None? {
        assert Ancestor(rows, id, 0) == Some(id);
        AncestorNone(rows, id, 1, n);
      } else {
        AncestorStep(rows, id, n - 1);
        AncestorVisited(rows, top, ParentOf(rows, id).value, n - 1);
      }
    }
  }

  // With directories as parents the recursion visits the whole subtree.
  lemma VisitedIsSubtree(rows: Rows, id: EntryId)
    requires Forest(rows) && ParentsAreDirectories(rows)
    ensures Visited(rows, id) == Subtree(rows, id)
  {
    VisitedInSubtree(rows, id);
    forall y | y in Subtree(rows, id)
      ensures y in Visited(rows, id)
    {
      var n: nat :| Ancestor(rows, y, n) == Some(id);
      AncestorVisited(rows, id, y, n);
    }
  }

  // ---- Whole runs ----

  datatype Action =
    | Create(id: EntryId, text: Texts, parent: Option<EntryId>)
    | Upload(id: EntryId, key: Key, text: Texts, parent: Option<EntryId>, length: nat)
    | Move(id: EntryId, parent: Option<EntryId>)
    | Delete(id: EntryId)

  ghost function Step(s: Store, a: Action, limit: nat): Store {
    match a
    case Create(id, text, parent) => if DirectoryAccepted(text) then Add(s, id, DirectoryRow(text, parent)) else s
    case Upload(id, key, text, parent, length) =>
      (match UploadOutcome(s, text, length, limit)
       case Stored => Add(s, id, FileRow(text, key, parent, length))
       case Refused => s
       case Orphaned => Store(s.rows, s.disk + {key}))
    case Move(id, parent) => if MoveRefused(s.rows, id, parent) then s else Store(Reparent(s.rows, id, parent), s.disk)
    case Delete(id) => if id in s.rows then Remove(s, id) else s
  }

  ghost function Run(actions: seq<Action>, limit: nat): Store {
    if actions == [] then Store(map[], {}) else Step(Run(Front(actions), limit), Last(actions), limit)
  }

  ghost predicate DirectoryGiven(rows: Rows, parent: Option<EntryId>) {
    parent.Some? ==> parent.value in rows && rows[parent.value].kind == Directory
  }

  // New ids and keys are fresh; parents given are existing directories.
  ghost predicate Enabled(s: Store, a: Action) {
    match a
    case Create(id, _, parent) => id !in s.rows && DirectoryGiven(s.rows, parent)
    case Upload(id, key, _, parent, _) => id !in s.rows && key !in s.disk && DirectoryGiven(s.rows, parent)
    case Move(_, parent) => DirectoryGiven(s.rows, parent)
    case Delete(_) => true
  }

  ghost predicate Legal(actions: seq<Action>, limit: nat) {
    actions != [] ==> Legal(Front(actions), limit) && Enabled(Run(Front(actions), limit), Last(actions))
  }

  ghost predicate Tidy(s: Store, limit: nat) {
    Valid(s, limit) && ParentsAreDirectories(s.rows)
  }

  // The key that an action leaves without a row.
  ghost function Dropped(s: Store, a: Action, limit: nat): set<Key> {
    if a.Upload? && UploadOutcome(s, a.text, a.length, limit).Orphaned? then {a.key} else {}
  }

  // Every action keeps the store tidy, and the keys without a row are those of before and the
  // key of an upload whose texts the database rejects.
  lemma StepTidy(s: Store, a: Action, limit: nat)
    requires Tidy(s, limit) && Enabled(s, a)
    ensures Tidy(Step(s, a, limit), limit)
    ensures Orphans(Step(s, a, limit)) == Orphans(s) + Dropped(s, a, limit)
  {
    match a
    case Create(id, text, parent) =>
      if DirectoryAccepted(text) {
        AddTidy(s, id, DirectoryRow(text, parent), limit);
      }
    case Upload(id, key, text, parent, length) => UploadTidy(s, id, key, text, parent, length, limit);
    case Move(id, parent) =>
      if !MoveRefused(s.rows, id, parent) {
        MoveTidy(s, id, parent, limit);
      }
    case Delete(id) => RemoveTidy(s, id, limit);
  }

  lemma UploadTidy(s: Store, id: EntryId, key: Key, text: Texts, parent: Option<EntryId>, length: nat, limit: nat)
    requires Tidy(s, limit) && Enabled(s, Upload(id, key, text, parent, length))
    ensures var a := Upload(id, key, text, parent, length);
      Tidy(Step(s, a, limit), limit) && Orphans(Step(s, a, limit)) == Orphans(s) + Dropped(s, a, limit)
  {
    match UploadOutcome(s, text, length, limit)
    case Stored => AddTidy(s, id, FileRow(text, key, parent, length), limit);
    case Refused =>
    case Orphaned => KeysAreStored(s);
  }

  lemma MoveTidy(s: Store, id: EntryId, parent: Option<EntryId>, limit: nat)
    requires Tidy(s, limit) && DirectoryGiven(s.rows, parent) && !MoveRefused(s.rows, id, parent)
    ensures var s' := Store(Reparent(s.rows, id, parent), s.disk); Tidy(s', limit) && Orphans(s') == Orphans(s)
  {
    MoveValid(s, id, parent, limit);
    ReparentKeys(s, id, parent);
    assert Reparent(s.rows, id, parent).Keys == s.rows.Keys;
    ReparentDirectories(s.rows, id, parent);
  }

  lemma ReparentDirectories(rows: Rows, id: EntryId, parent: Option<EntryId>)
    requires ParentsAreDirectories(rows) && DirectoryGiven(rows, parent)
    ensures ParentsAreDirectories(Reparent(rows, id, parent))
  {
    var rows' := Reparent(rows, id, parent);
    forall y | y in rows' && rows'[y].parent.Some? && rows'[y].parent.value in rows'
      ensures rows'[rows'[y].parent.value].kind == Directory
    {
      assert rows'[rows'[y].parent.value].kind == rows[rows'[y].parent.value].kind;
    }
  }

  lemma RemoveTidy(s: Store, id: EntryId, limit: nat)
    requires Tidy(s, limit)
    ensures Tidy(Remove(s, id), limit) && Orphans(Remove(s, id)) == Orphans(s)
  {
    RemoveValid(s, id, limit);
    VisitedIsSubtree(s.rows, id);
    RemoveOrphansIff(s, id, limit);
  }

  lemma AddTidy(s: Store, id: EntryId, e: Entry, limit: nat)
    requires Tidy(s, limit) && id !in s.rows && DirectoryGiven(s.rows, e.parent)
    requires e.kind == File <==> e.storageKey.Some?
    requires e.storageKey.Some? ==> e.storageKey.value !in s.disk
    requires e.kind == File ==> TotalSize(s.rows) + e.size <= limit
    ensures Tidy(Add(s, id, e), limit) && Orphans(Add(s, id, e)) == Orphans(s)
  {
    AddValid(s, id, e, limit);
    AddDirectories(s.rows, id, e);
    AddOrphans(s, id, e);
  }

  lemma AddDirectories(rows: Rows, id: EntryId, e: Entry)
    requires Forest(rows) && ParentsAreDirectories(rows) && id !in rows && DirectoryGiven(rows, e.parent)
    ensures ParentsAreDirectories(rows[id := e])
  {
    ForestParents(rows);
  }

  lemma AddOrphans(s: Store, id: EntryId, e: Entry)
    requires KeysStored(s) && id !in s.rows && (e.kind == File <==> e.storageKey.Some?)
    requires e.storageKey.Some? ==> e.storageKey.value !in s.disk
    ensures Orphans(Add(s, id, e)) == Orphans(s)
  {
    var t := Add(s, id, e);
    KeysAreStored(s);
    forall key
      ensures key in FileKeys(t.rows, t.rows.Keys) <==> key in FileKeys(s.rows, s.rows.Keys) || KeyOf(e) == Some(key)
    {
      if key in FileKeys(s.rows, s.rows.Keys) {
        var y :| y in s.rows && KeyOf(s.rows[y]) == Some(key);
        assert t.rows[y] == s.rows[y];
      }
      assert t.rows[id] == e;
    }
  }


  // Over every legal run: a forest, exactly the file rows' keys on disk, the size limit kept.
  lemma RunTidy(actions: seq<Action>, limit: nat)
    requires Legal(actions, limit)
    ensures var s := Run(actions, limit);
      && Forest(s.rows) && TotalSize(s.rows) <= limit && Tidy(s, limit)
      && s.disk == FileKeys(s.rows, s.rows.Keys) + AllDropped(actions, limit)
      && (s.disk == FileKeys(s.rows, s.rows.Keys) <==> AllDropped(actions, limit) == {})
  {
    RunOrphans(actions, limit);
    KeysAreStored(Run(actions, limit));
  }

  // The keys of all uploads so far whose texts the database rejected.
  ghost function AllDropped(actions: seq<Action>, limit: nat): set<Key> {
    if actions == [] then {}
    else AllDropped(Front(actions), limit) + Dropped(Run(Front(actions), limit), Last(actions), limit)
  }

  lemma {:induction false} RunOrphans(actions: seq<Action>, limit: nat)
    requires Legal(actions, limit)
    ensures Tidy(Run(actions, limit), limit) && Orphans(Run(actions, limit)) == AllDropped(actions, limit)
  {
    if actions == [] {
      assert Depths(map[], map[]);
    } else {
      RunOrphans(Front(actions), limit);
      StepTidy(Run(Front(actions), limit), Last(actions), limit);
    }
  }

  // ---- A key left behind ----

  lemma UploadStep(s: Store, id: EntryId, key: Key, text: Texts, parent: Option<EntryId>, length: nat, limit: nat)
    requires id !in s.rows && text.name != "" && Storable(text) && TotalSize(s.rows) + length <= limit
    ensures var e := FileRow(text, key, parent, length);
      && Step(s, Upload(id, key, text, parent, length), limit) == Store(s.rows[id := e], s.disk + {key})
      && TotalSize(s.rows[id := e]) == TotalSize(s.rows) + length
  {
    AddSize(s.rows, id, FileRow(text, key, parent, length));
  }

  function Named(name: string): Texts {
    Texts(name, "text/plain", "private")
  }

  // Upload f, upload g with f for its folder, delete f: the rows are gone and g's key stays on disk.
  lemma FileBelowFileLeavesKey(f: EntryId, g: EntryId, kf: Key, kg: Key, limit: nat)
    requires f != g && kf != kg && limit >= 2
    ensures Run([Upload(f, kf, Named("f"), None, 1), Upload(g, kg, Named("g"), Some(f), 1), Delete(f)], limit) == Store(map[], {kg})
  {
    var a, b, c := Upload(f, kf, Named("f"), None, 1), Upload(g, kg, Named("g"), Some(f), 1), Delete(f);
    assert Front([a, b, c]) == [a, b];
    TwoUploads(f, g, kf, kg, limit);
    DeleteUpper(f, g, kf, kg);
  }

  function Nested(f: EntryId, g: EntryId, kf: Key, kg: Key): Store
    requires f != g
  {
    Store(map[f := FileRow(Named("f"), kf, None, 1), g := FileRow(Named("g"), kg, Some(f), 1)], {kf, kg})
  }

  lemma TwoUploads(f: EntryId, g: EntryId, kf: Key, kg: Key, limit: nat)
    requires f != g && kf != kg && limit >= 2
    ensures Run([Upload(f, kf, Named("f"), None, 1), Upload(g, kg, Named("g"), Some(f), 1)], limit) == Nested(f, g, kf, kg)
  {
    var a, b := Upload(f, kf, Named("f"), None, 1), Upload(g, kg, Named("g"), Some(f), 1);
    assert Front([a, b]) == [a] && Front([a]) == [];
    UploadStep(Store(map[], {}), f, kf, Named("f"), None, 1, limit);
    var s1 := Store(map[f := FileRow(Named("f"), kf, None, 1)], {kf});
    assert Run([a], limit) == Step(Store(map[], {}), a, limit) == s1;
    UploadStep(s1, g, kg, Named("g"), Some(f), 1, limit);
    assert Run([a, b], limit) == Step(s1, b, limit);
  }

  lemma DeleteUpper(f: EntryId, g: EntryId, kf: Key, kg: Key)
    requires f != g && kf != kg
    ensures Remove(Nested(f, g, kf, kg), f) == Store(map[], {kg})
  {
    var s := Nested(f, g, kf, kg);
    OneBelow(s.rows, f, g);
    assert FileKeys(s.rows, {f}) == {kf};
    assert s.rows - {f, g} == map[] && s.disk - {kf} == {kg};
  }

  // Two files, the second below the first: the deletion visits the first only.
  lemma OneBelow(rows: Rows, f: EntryId, g: EntryId)
    requires f != g && rows.Keys == {f, g} && rows[f].kind == File
    requires rows[f].parent == None && rows[g].parent == Some(f)
    ensures Subtree(rows, f) == {f, g} && Visited(rows, f) == {f}
  {
    WithinRoot(rows, f, f);
    WithinParent(rows, f, g);
    VisitedStep(rows, f);
  }

  // An upload under a name of 256 characters, the last of them not a blank, on an empty store
  // leaves its key behind.
  lemma LongNameLeavesKey(id: EntryId, key: Key, name: string, limit: nat)
    requires |name| == 256 && name[255] != ' ' && limit >= 1
    ensures Run([Upload(id, key, Named(name), None, 1)], limit) == Store(map[], {key})
  {
    var a := Upload(id, key, Named(name), None, 1);
    assert Front([a]) == [] && Last([a]) == a && TotalSize(map[]) == 0;
  }
}
