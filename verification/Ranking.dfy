// Finite sets of identifiers laid out by distance to a target.
module Ranking {
  import opened NodeIds

  ghost predicate Ascending(s: seq<NodeID>, target: NodeID) {
    forall i, j | 0 <= i < j < |s| :: Nearer(s[i], s[j], target)
  }

  function ToSet<T>(s: seq<T>): set<T> {
    set x | x in s
  }

  function Take<T>(s: seq<T>, n: nat): (r: seq<T>) {
    if n < |s| then s[..n] else s
  }

  lemma {:induction false} SubsetCount<T>(a: set<T>, b: set<T>)
    requires a <= b
    ensures |a| <= |b|
    decreases |a|
  {
    if a != {} {
      var x :| x in a;
      SubsetCount(a - {x}, b - {x});
    }
  }

  ghost predicate IsNearest(m: NodeID, ids: set<NodeID>, target: NodeID) {
    m in ids && forall x | x in ids && x != m :: Nearer(m, x, target)
  }

  lemma {:induction false} NearestExists(ids: set<NodeID>, target: NodeID)
    requires ids != {}
    ensures exists m :: IsNearest(m, ids, target)
    decreases |ids|
  {
    var m :| m in ids;
    var rest := ids - {m};
    assert forall x | x in ids :: x == m || x in rest;
    if rest == {} {
      assert IsNearest(m, ids, target);
    } else {
      NearestExists(rest, target);
      var n :| IsNearest(n, rest, target);
      NearerIsTotal(m, n, target);
      if Nearer(n, m, target) {
        assert IsNearest(n, ids, target);
      } else {
        assert IsNearest(m, ids, target);
      }
    }
  }

  lemma PrependNearest(m: NodeID, ids: set<NodeID>, rest: seq<NodeID>, target: NodeID)
    requires IsNearest(m, ids, target)
    requires Ascending(rest, target) && ToSet(rest) == ids - {m}
    ensures Ascending([m] + rest, target) && ToSet([m] + rest) == ids
  {
    var s := [m] + rest;
    forall i, j | 0 <= i < j < |s| ensures Nearer(s[i], s[j], target) {
      assert rest[j - 1] in ToSet(rest);
    }
    assert ToSet(s) == {m} + ToSet(rest);
  }

  ghost predicate Lists(s: seq<NodeID>, ids: set<NodeID>, target: NodeID) {
    Ascending(s, target) && ToSet(s) == ids && |s| == |ids|
  }

  lemma {:induction false} ListExists(ids: set<NodeID>, target: NodeID)
    ensures exists s :: Lists(s, ids, target)
    decreases |ids|
  {
    if ids == {} {
      assert Lists([], ids, target);
    } else {
      NearestExists(ids, target);
      var m :| IsNearest(m, ids, target);
      ListExists(ids - {m}, target);
      var rest :| Lists(rest, ids - {m}, target);
      PrependNearest(m, ids, rest, target);
      assert Lists([m] + rest, ids, target);
    }
  }

  // The identifiers of a set, nearest to the target first.
  ghost function Sorted(ids: set<NodeID>, target: NodeID): (s: seq<NodeID>)
    ensures Lists(s, ids, target)
  {
    ListExists(ids, target);
    var s :| Lists(s, ids, target);
    s
  }

  // There is one ascending sequence for each set, whatever procedure produced it.
  lemma {:induction false} AscendingUnique(s: seq<NodeID>, u: seq<NodeID>, target: NodeID)
    requires Ascending(s, target) && Ascending(u, target)
    requires ToSet(s) == ToSet(u)
    ensures s == u
    decreases |s|
  {
    if u != [] {
      assert u[0] in ToSet(u);
    }
    if s != [] {
      assert s[0] in ToSet(s);
      assert u != [] && u[0] in ToSet(u) && u[0] in ToSet(s);
      assert s[0] in u && u[0] in s;
      assert s[0] == u[0];
      assert ToSet(s[1..]) == ToSet(s) - {s[0]} by {
        assert s == [s[0]] + s[1..];
      }
      assert ToSet(u[1..]) == ToSet(u) - {u[0]} by {
        assert u == [u[0]] + u[1..];
      }
      AscendingUnique(s[1..], u[1..], target);
      assert s == [s[0]] + s[1..] && u == [u[0]] + u[1..];
    }
  }

  lemma AscendingIsSorted(s: seq<NodeID>, target: NodeID)
    requires Ascending(s, target)
    ensures s == Sorted(ToSet(s), target)
  {
    AscendingUnique(s, Sorted(ToSet(s), target), target);
  }

  // The count nearest members of a set, nearest first.
  ghost function Top(ids: set<NodeID>, target: NodeID, count: nat): seq<NodeID> {
    Take(Sorted(ids, target), count)
  }

  // A member left out of the count nearest is beaten by all of them, and there are count of them.
  lemma LeftOutOfTop(ids: set<NodeID>, target: NodeID, count: nat, q: NodeID)
    requires q in ids && q !in Top(ids, target, count)
    ensures |Top(ids, target, count)| == count
    ensures forall x | x in Top(ids, target, count) :: x in ids && Nearer(x, q, target)
    ensures Ascending(Top(ids, target, count), target)
  {
    var s := Sorted(ids, target);
    assert q in ToSet(s);
    var i :| 0 <= i < |s| && s[i] == q;
    var t := Take(s, count);
    assert forall k | 0 <= k < |t| :: t[k] == s[k] && t[k] in t;
    assert i >= count;
    forall x | x in Top(ids, target, count) ensures x in ids && Nearer(x, q, target) {
      var j :| 0 <= j < |s[..count]| && s[..count][j] == x;
      assert s[j] in ToSet(s);
    }
  }

  lemma DistinctCount(s: seq<NodeID>, target: NodeID)
    requires Ascending(s, target)
    ensures |ToSet(s)| == |s|
  {
    AscendingIsSorted(s, target);
  }

  // A member is among the count nearest just when fewer than count members beat it.
  lemma TopByRank(ids: set<NodeID>, target: NodeID, count: nat, q: NodeID)
    requires q in ids
    ensures q in Top(ids, target, count) <==> |set x | x in ids && Nearer(x, q, target)| < count
  {
    var s := Sorted(ids, target);
    var ahead := set x | x in ids && Nearer(x, q, target);
    assert q in ToSet(s);
    var i :| 0 <= i < |s| && s[i] == q;
    assert ToSet(s[..i]) == ahead by {
      forall x | x in ahead ensures x in s[..i] {
        assert x in ToSet(s);
        var j :| 0 <= j < |s| && s[j] == x;
        assert j < i;
        assert s[..i][j] == x;
      }
      forall x | x in s[..i] ensures x in ahead {
        var j :| 0 <= j < i && s[j] == x;
        assert s[j] in ToSet(s);
      }
    }
    DistinctCount(s[..i], target);
    if i < count {
      assert i < |Take(s, count)| && Take(s, count)[i] == q;
    } else {
      assert forall j | 0 <= j < count :: s[j] != q;
    }
  }

  // If every member of a beats every member of b, the layout of a + b is a's, then b's.
  lemma SortedConcat(a: set<NodeID>, b: set<NodeID>, target: NodeID)
    requires forall x, y | x in a && y in b :: Nearer(x, y, target)
    ensures Sorted(a + b, target) == Sorted(a, target) + Sorted(b, target)
  {
    var s, u := Sorted(a, target), Sorted(b, target);
    forall i, j | 0 <= i < j < |s + u| ensures Nearer((s + u)[i], (s + u)[j], target) {
      if i < |s| <= j {
        assert s[i] in ToSet(s) && u[j - |s|] in ToSet(u);
      }
    }
    assert ToSet(s + u) == ToSet(s) + ToSet(u);
    AscendingUnique(s + u, Sorted(a + b, target), target);
  }
}
