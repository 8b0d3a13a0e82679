// Datatypes and sequence facts shared by the other modules.
module Prelude {

  datatype Option<+T> = None | Some(value: T)

  datatype Result<+T, +E> = Ok(value: T) | Err(error: E)

  ghost predicate Distinct<T>(s: seq<T>) {
    forall i, j :: 0 <= i < j < |s| ==> s[i] != s[j]
  }

  function Elements<T>(s: seq<T>): set<T> {
    set x | x in s
  }

  function Last<T>(s: seq<T>): T
    requires s != []
  {
    s[|s| - 1]
  }

  function Front<T>(s: seq<T>): seq<T>
    requires s != []
  {
    s[..|s| - 1]
  }

  lemma FrontAndLast<T>(s: seq<T>)
    requires s != []
    ensures s == Front(s) + [Last(s)]
  {
  }

  function LastN<T>(s: seq<T>, n: nat): seq<T> {
    if |s| <= n then s else s[|s| - n..]
  }

  function GetOr<K, V>(m: map<K, V>, k: K, default: V): V {
    if k in m then m[k] else default
  }

  // Some key of a map, for recursion over maps in proofs.
  ghost function Pick<K, V>(m: map<K, V>): (k: K)
    requires m != map[]
    ensures k in m
  {
    var k :| k in m; k
  }

  lemma ElementsAppend<T>(s: seq<T>, x: T)
    ensures Elements(s + [x]) == Elements(s) + {x}
  {
  }

  lemma DistinctConcat<T>(a: seq<T>, b: seq<T>)
    requires Distinct(a) && Distinct(b) && forall x :: x in a ==> x !in b
    ensures Distinct(a + b)
  {
    forall i, j | 0 <= i < j < |a + b|
      ensures (a + b)[i] != (a + b)[j]
    {
      if i < |a| <= j {
        assert a[i] in a && b[j - |a|] in b;
      }
    }
  }

  lemma {:induction false} DistinctSize<T>(s: seq<T>)
    requires Distinct(s)
    ensures |Elements(s)| == |s|
  {
    if s != [] {
      DistinctSize(Front(s));
      assert s == Front(s) + [Last(s)];
      ElementsAppend(Front(s), Last(s));
      assert Last(s) !in Front(s);
    }
  }

  lemma SubsetSize<T>(a: set<T>, b: set<T>)
    requires a <= b
    ensures |a| <= |b|
  {
    if a != {} {
      var x :| x in a;
      SubsetSize(a - {x}, b - {x});
    }
  }

  // A sequence longer than the set it draws from repeats an element.
  lemma Pigeonhole<T>(s: seq<T>, u: set<T>) returns (i: nat, j: nat)
    requires Elements(s) <= u && |s| > |u|
    ensures i < j < |s| && s[i] == s[j]
  {
    if Distinct(s) {
      DistinctSize(s);
      SubsetSize(Elements(s), u);
      assert false;
    }
    i, j :| 0 <= i < j < |s| && s[i] == s[j];
  }

  // Each of a's elements comes somewhere in b before a's next one.
  ghost predicate InOrder<T>(a: seq<T>, b: seq<T>) {
    && (forall i :: 0 <= i < |a| ==> a[i] in b)
    && forall i, x, y :: 0 <= i < |a| - 1 && 0 <= x < |b| && 0 <= y < |b| && b[x] == a[i] && b[y] == a[i + 1] ==> x < y
  }

  lemma InOrderIsEqual<T>(a: seq<T>, b: seq<T>)
    requires |a| == |b| && InOrder(a, b)
    ensures a == b
  {
    forall i | 0 <= i < |a|
      ensures a[i] == b[i]
    {
      var x := PositionAtLeast(a, b, i);
      PositionAtMost(a, b, i, x);
    }
  }

  // Two duplicate-free sequences of the same elements, one in the order of the other.
  lemma ArrangedAlike<T>(a: seq<T>, b: seq<T>)
    requires Distinct(a) && Distinct(b) && forall w :: w in b <==> w in a
    requires forall i, x, y :: 0 <= i < |a| - 1 && 0 <= x < |b| && 0 <= y < |b| && b[x] == a[i] && b[y] == a[i + 1] ==> x < y
    ensures a == b
  {
    assert Elements(a) == Elements(b);
    DistinctSize(a);
    DistinctSize(b);
    assert forall i :: 0 <= i < |a| ==> a[i] in a;
    InOrderIsEqual(a, b);
  }

  lemma {:induction false} PositionAtLeast<T>(a: seq<T>, b: seq<T>, i: nat) returns (x: nat)
    requires InOrder(a, b) && i < |a|
    ensures i <= x < |b| && b[x] == a[i]
  {
    assert a[i] in b;
    x :| 0 <= x < |b| && b[x] == a[i];
    if i > 0 {
      var w := PositionAtLeast(a, b, i - 1);
      assert b[x] == a[i - 1 + 1];
    }
  }

  lemma {:induction false} PositionAtMost<T>(a: seq<T>, b: seq<T>, i: nat, x: nat)
    requires |a| == |b| && InOrder(a, b) && i < |a| && x < |b| && b[x] == a[i]
    ensures x <= i
    decreases |a| - i
  {
    if i + 1 < |a| {
      assert a[i + 1] in b;
      var y :| 0 <= y < |b| && b[y] == a[i + 1];
      PositionAtMost(a, b, i + 1, y);
    }
  }
}
