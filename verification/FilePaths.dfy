// frontend/lib/org-files.js: breadcrumbs and lookup by path.
module FilePaths {
  import opened Prelude
  import opened Strings
  import opened FileTree

  datatype Crumb = Crumb(id: EntryId, name: string)

  // A chain of rows from a root down.
  ghost predicate IsChain(rows: Rows, chain: seq<EntryId>) {
    && (forall i :: 0 <= i < |chain| ==> chain[i] in rows)
    && (chain != [] ==> rows[chain[0]].parent == None)
    && forall i :: 0 < i < |chain| ==> rows[chain[i]].parent == Some(chain[i - 1])
  }

  ghost predicate Spells(rows: Rows, chain: seq<EntryId>, names: seq<string>)
    requires forall i :: 0 <= i < |chain| ==> chain[i] in rows
  {
    |chain| == |names| && forall i :: 0 <= i < |chain| ==> rows[chain[i]].name == names[i]
  }

  // Following the names one level at a time from the top may end at id.
  ghost predicate Resolves(rows: Rows, names: seq<string>, id: EntryId) {
    exists chain: seq<EntryId> :: IsChain(rows, chain) && Spells(rows, chain, names) && chain != [] && Last(chain) == id
  }

  function CrumbIds(crumbs: seq<Crumb>): seq<EntryId> {
    seq(|crumbs|, i requires 0 <= i < |crumbs| => crumbs[i].id)
  }

  function CrumbNames(crumbs: seq<Crumb>): seq<string> {
    seq(|crumbs|, i requires 0 <= i < |crumbs| => crumbs[i].name)
  }

  ghost predicate BreadcrumbOf(rows: Rows, id: EntryId, crumbs: seq<Crumb>) {
    var chain := CrumbIds(crumbs);
    if id in rows then IsChain(rows, chain) && Spells(rows, chain, CrumbNames(crumbs)) && chain != [] && Last(chain) == id
    else crumbs == []
  }

  // The walk up so far: the crumbs below `current`, topmost first.
  ghost predicate Climbing(rows: Rows, id: EntryId, crumbs: seq<Crumb>, current: Option<EntryId>) {
    && (forall i :: 0 <= i < |crumbs| ==> crumbs[i].id in rows && rows[crumbs[i].id].name == crumbs[i].name)
    && (forall i :: 0 < i < |crumbs| ==> rows[crumbs[i].id].parent == Some(crumbs[i - 1].id))
    && (if crumbs == [] then current == Some(id) else rows[crumbs[0].id].parent == current && Last(crumbs).id == id)
  }

  lemma ClimbNext(rows: Rows, depth: map<EntryId, nat>, id: EntryId, crumbs: seq<Crumb>, at: EntryId)
    requires Depths(rows, depth) && at in rows && Climbing(rows, id, crumbs, Some(at))
    ensures Climbing(rows, id, [Crumb(at, rows[at].name)] + crumbs, rows[at].parent)
    ensures rows[at].parent.Some? ==> rows[at].parent.value in rows
    ensures StepsLeft(depth, rows[at].parent) < StepsLeft(depth, Some(at))
  {
    var more := [Crumb(at, rows[at].name)] + crumbs;
    assert DepthAt(rows, depth, at);
    assert forall i :: 0 < i < |more| ==> more[i] == crumbs[i - 1];
    assert crumbs != [] ==> Last(more) == Last(crumbs);
  }

  lemma ClimbDone(rows: Rows, id: EntryId, crumbs: seq<Crumb>)
    requires crumbs != [] && Climbing(rows, id, crumbs, None)
    ensures BreadcrumbOf(rows, id, crumbs)
  {
    var chain := CrumbIds(crumbs);
    assert forall i :: 0 <= i < |chain| ==> chain[i] == crumbs[i].id;
    assert Last(chain) == Last(crumbs).id;
  }

  method GetBreadcrumb(rows: Rows, id: EntryId) returns (crumbs: seq<Crumb>)
    requires Forest(rows)
    ensures BreadcrumbOf(rows, id, crumbs)
  {
    ghost var depth :| Depths(rows, depth);
    crumbs := [];
    var current := Some(id);
    while current.Some?
      invariant Climbing(rows, id, crumbs, current)
      invariant crumbs != [] ==> id in rows && (current.Some? ==> current.value in rows)
      decreases StepsLeft(depth, current)
    {
      if current.value !in rows {
        return;
      }
      ClimbNext(rows, depth, id, crumbs, current.value);
      crumbs := [Crumb(current.value, rows[current.value].name)] + crumbs;
      current := rows[current.value].parent;
    }
    ClimbDone(rows, id, crumbs);
  }

  // path.split("/").filter(Boolean)
  function NonEmpty(parts: seq<string>): seq<string> {
    if parts == [] then []
    else NonEmpty(Front(parts)) + (if Last(parts) != "" then [Last(parts)] else [])
  }

  function Parts(path: string): seq<string> {
    NonEmpty(Split(path, '/'))
  }

  function EndOf(chain: seq<EntryId>): Option<EntryId> {
    if chain == [] then None else Some(Last(chain))
  }

  // Each step takes some row of that name under the parent found so far.
  method GetEntryByPath(rows: Rows, path: string) returns (entry: Option<EntryId>)
    ensures entry.Some? ==> Resolves(rows, Parts(path), entry.value)
    ensures UniqueSiblings(rows) ==> forall id: EntryId :: Resolves(rows, Parts(path), id) ==> entry == Some(id)
  {
    var parts := Parts(path);
    entry := None;
    ghost var chain: seq<EntryId> := [];
    for i := 0 to |parts|
      invariant |chain| == i && IsChain(rows, chain) && Spells(rows, chain, parts[..i])
      invariant entry == EndOf(chain)
    {
      if !exists c :: c in rows && rows[c].name == parts[i] && rows[c].parent == entry {
        if UniqueSiblings(rows) {
          DeadEnd(rows, parts, chain);
        }
        return None;
      }
      var c :| c in rows && rows[c].name == parts[i] && rows[c].parent == entry;
      ChainExtend(rows, parts, chain, c);
      chain := chain + [c];
      entry := Some(c);
    }
    assert parts[..|parts|] == parts;
    if UniqueSiblings(rows) {
      OnlyResult(rows, parts, chain);
    }
  }

  lemma ChainExtend(rows: Rows, parts: seq<string>, chain: seq<EntryId>, c: EntryId)
    requires IsChain(rows, chain) && |chain| < |parts| && Spells(rows, chain, parts[..|chain|])
    requires c in rows && rows[c].name == parts[|chain|] && rows[c].parent == EndOf(chain)
    ensures IsChain(rows, chain + [c]) && Spells(rows, chain + [c], parts[..|chain| + 1])
    ensures EndOf(chain + [c]) == Some(c)
  {
    var next, names := chain + [c], parts[..|chain| + 1];
    forall i | 0 <= i < |next|
      ensures next[i] in rows && rows[next[i]].name == names[i]
    {
      if i < |chain| {
        assert next[i] == chain[i] && names[i] == parts[..|chain|][i];
      }
    }
  }

  lemma OnlyResult(rows: Rows, parts: seq<string>, chain: seq<EntryId>)
    requires UniqueSiblings(rows) && IsChain(rows, chain) && Spells(rows, chain, parts)
    ensures forall id: EntryId :: Resolves(rows, parts, id) ==> EndOf(chain) == Some(id)
  {
    forall id: EntryId | Resolves(rows, parts, id)
      ensures EndOf(chain) == Some(id)
    {
      var other: seq<EntryId> :| IsChain(rows, other) && Spells(rows, other, parts) && other != [] && Last(other) == id;
      ChainUnique(rows, chain, other, parts);
    }
  }

  ghost predicate UniqueSiblings(rows: Rows) {
    forall a, b :: a in rows && b in rows && rows[a].name == rows[b].name && rows[a].parent == rows[b].parent ==> a == b
  }

  lemma {:induction false} SameAt(rows: Rows, a: seq<EntryId>, b: seq<EntryId>, i: nat)
    requires UniqueSiblings(rows) && IsChain(rows, a) && IsChain(rows, b) && i < |a| && i < |b|
    requires forall k :: 0 <= k <= i ==> rows[a[k]].name == rows[b[k]].name
    ensures a[i] == b[i]
  {
    if i > 0 {
      SameAt(rows, a, b, i - 1);
    }
  }

  // With unique siblings two chains spelling the same names are equal.
  lemma ChainUnique(rows: Rows, a: seq<EntryId>, b: seq<EntryId>, names: seq<string>)
    requires UniqueSiblings(rows) && IsChain(rows, a) && IsChain(rows, b) && Spells(rows, a, names) && Spells(rows, b, names)
    ensures a == b
  {
    forall i | 0 <= i < |a|
      ensures a[i] == b[i]
    {
      SameAt(rows, a, b, i);
    }
  }

  // A longer chain passes through a child of the shorter one's end.
  lemma NextOnChain(rows: Rows, parts: seq<string>, chain: seq<EntryId>, other: seq<EntryId>)
    requires UniqueSiblings(rows) && IsChain(rows, chain) && IsChain(rows, other)
    requires |chain| < |parts| && Spells(rows, chain, parts[..|chain|]) && Spells(rows, other, parts)
    ensures rows[other[|chain|]].name == parts[|chain|]
    ensures rows[other[|chain|]].parent == EndOf(chain)
  {
    var i := |chain|;
    if i > 0 {
      forall k | 0 <= k <= i - 1
        ensures rows[chain[k]].name == rows[other[k]].name
      {
        assert parts[..i][k] == parts[k];
      }
      SameAt(rows, chain, other, i - 1);
    }
  }

  // With unique siblings, a missing child means that no chain spells the path.
  lemma DeadEnd(rows: Rows, parts: seq<string>, chain: seq<EntryId>)
    requires UniqueSiblings(rows) && IsChain(rows, chain)
    requires |chain| < |parts| && Spells(rows, chain, parts[..|chain|])
    requires !exists c :: c in rows && rows[c].name == parts[|chain|] && rows[c].parent == EndOf(chain)
    ensures forall id :: !Resolves(rows, parts, id)
  {
    forall id
      ensures !Resolves(rows, parts, id)
    {
      if Resolves(rows, parts, id) {
        var other: seq<EntryId> :| IsChain(rows, other) && Spells(rows, other, parts) && other != [] && Last(other) == id;
        NextOnChain(rows, parts, chain, other);
      }
    }
  }

  // ---- Round trips ----

  lemma {:induction false} NonEmptyAppend(a: seq<string>, b: seq<string>)
    ensures NonEmpty(a + b) == NonEmpty(a) + NonEmpty(b)
    decreases |b|
  {
    if b == [] {
      assert a + b == a;
    } else {
      assert Front(a + b) == a + Front(b) && Last(a + b) == Last(b);
      NonEmptyAppend(a, Front(b));
    }
  }

  // Slashes only separate: the parts of a path are those of its pieces, one after the other, so
  // that leading, trailing and repeated slashes make no difference.
  lemma PartsOfPath(a: string, b: string, name: string)
    requires name != "" && '/' !in name
    ensures Parts(a + "/" + b) == Parts(a) + Parts(b)
    ensures Parts("") == [] && Parts(name) == [name]
  {
    SplitAppend(a, '/', b);
    NonEmptyAppend(Split(a, '/'), Split(b, '/'));
    SplitOne(name, '/');
    assert Front([""]) == [] && Front([name]) == [];
  }

  lemma {:induction false} NonEmptyAll(parts: seq<string>)
    requires forall i :: 0 <= i < |parts| ==> parts[i] != ""
    ensures NonEmpty(parts) == parts
  {
    if parts != [] {
      NonEmptyAll(Front(parts));
      assert Front(parts) + [Last(parts)] == parts;
    }
  }

  ghost predicate PlainNames(rows: Rows) {
    forall id :: id in rows ==> rows[id].name != "" && '/' !in rows[id].name
  }

  // The joined names of a breadcrumb resolve to its entry, and to nothing else.
  lemma BreadcrumbResolves(rows: Rows, id: EntryId, crumbs: seq<Crumb>, other: EntryId)
    requires PlainNames(rows) && UniqueSiblings(rows) && id in rows && BreadcrumbOf(rows, id, crumbs)
    ensures Parts(Join(CrumbNames(crumbs), '/')) == CrumbNames(crumbs)
    ensures Resolves(rows, Parts(Join(CrumbNames(crumbs), '/')), other) <==> other == id
  {
    var names, chain := CrumbNames(crumbs), CrumbIds(crumbs);
    assert forall i :: 0 <= i < |names| ==> names[i] == rows[chain[i]].name;
    SplitJoin(names, '/');
    NonEmptyAll(names);
    if Resolves(rows, names, other) {
      var chain': seq<EntryId> :| IsChain(rows, chain') && Spells(rows, chain', names) && chain' != [] && Last(chain') == other;
      ChainUnique(rows, chain, chain', names);
    }
  }

  // The breadcrumb of an entry spells any path that resolves to it.
  lemma PathIsBreadcrumb(rows: Rows, path: string, id: EntryId, crumbs: seq<Crumb>)
    requires Forest(rows) && Resolves(rows, Parts(path), id) && BreadcrumbOf(rows, id, crumbs)
    ensures CrumbNames(crumbs) == Parts(path)
  {
    var chain: seq<EntryId> :| IsChain(rows, chain) && Spells(rows, chain, Parts(path)) && chain != [] && Last(chain) == id;
    SameEndSameChain(rows, chain, CrumbIds(crumbs));
    assert forall i :: 0 <= i < |crumbs| ==> CrumbNames(crumbs)[i] == rows[chain[i]].name;
  }

  lemma SameEndSameChain(rows: Rows, a: seq<EntryId>, b: seq<EntryId>)
    requires Forest(rows) && IsChain(rows, a) && IsChain(rows, b) && a != [] && b != [] && Last(a) == Last(b)
    ensures a == b
  {
    var depth :| Depths(rows, depth);
    ChainLength(rows, depth, a);
    ChainLength(rows, depth, b);
    ChainsToSameEnd(rows, a, b, 0);
    assert a == a[0..] && b == b[0..];
  }

  lemma ChainLength(rows: Rows, depth: map<EntryId, nat>, chain: seq<EntryId>)
    requires Depths(rows, depth) && IsChain(rows, chain) && chain != []
    ensures Last(chain) in depth && |chain| == depth[Last(chain)] + 1
  {
    ChainDepth(rows, depth, chain, |chain| - 1);
  }

  lemma {:induction false} ChainDepth(rows: Rows, depth: map<EntryId, nat>, chain: seq<EntryId>, i: nat)
    requires Depths(rows, depth) && IsChain(rows, chain) && i < |chain|
    ensures depth[chain[i]] == i
  {
    assert DepthAt(rows, depth, chain[i]);
    if i > 0 {
      ChainDepth(rows, depth, chain, i - 1);
    }
  }

  lemma {:induction false} ChainsToSameEnd(rows: Rows, a: seq<EntryId>, b: seq<EntryId>, k: nat)
    requires IsChain(rows, a) && IsChain(rows, b) && |a| == |b| && k <= |a|
    requires a != [] && Last(a) == Last(b)
    ensures a[k..] == b[k..]
    decreases |a| - k
  {
    if k < |a| - 1 {
      ChainsToSameEnd(rows, a, b, k + 1);
      assert a[k + 1..][0] == b[k + 1..][0];
    }
  }
}
