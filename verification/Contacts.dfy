// Contacts, and the in-place sort that orders them by distance.
module Contacts {
  import opened NodeIds
  import opened Ranking
  import opened Wrappers

  // address is None for the nil IP that a text which is no IP address parses to.
  datatype Contact = Contact(id: NodeID, address: Option<seq<bv8>>, port: int)

  function IdsOf(cs: seq<Contact>): (ids: seq<NodeID>)
    ensures |ids| == |cs| && forall i | 0 <= i < |cs| :: ids[i] == cs[i].id
  {
    seq(|cs|, i requires 0 <= i < |cs| => cs[i].id)
  }

  function IdSet(cs: seq<Contact>): (ids: set<NodeID>)
    ensures forall c | c in cs :: c.id in ids
  {
    set c | c in cs :: c.id
  }

  predicate HasId(cs: seq<Contact>, id: NodeID) {
    exists i | 0 <= i < |cs| :: cs[i].id == id
  }

  ghost predicate DistinctIds(cs: seq<Contact>) {
    forall i, j | 0 <= i < j < |cs| :: cs[i].id != cs[j].id
  }

  // No contact is strictly nearer to the target than one before it.
  ghost predicate NonDescending(cs: seq<Contact>, target: NodeID) {
    forall i, j | 0 <= i < j < |cs| :: Distance(cs[i].id, target) <= Distance(cs[j].id, target)
  }

  lemma IdSetOfIds(cs: seq<Contact>)
    ensures ToSet(IdsOf(cs)) == IdSet(cs)
  {
    forall x | x in IdSet(cs) ensures x in IdsOf(cs) {
      var c :| c in cs && c.id == x;
      var i :| 0 <= i < |cs| && cs[i] == c;
      assert IdsOf(cs)[i] == x;
    }
  }

  lemma HasIdInSet(cs: seq<Contact>, id: NodeID)
    ensures HasId(cs, id) <==> id in IdSet(cs)
  {
    if id in IdSet(cs) {
      var c :| c in cs && c.id == id;
      var i :| 0 <= i < |cs| && cs[i] == c;
      assert cs[i].id == id;
    }
  }

  // A non-descending list of contacts with distinct IDs lays out its ID set, so two sorted
  // rearrangements of the same contacts list the same IDs in the same order.
  lemma SortedContacts(cs: seq<Contact>, target: NodeID)
    requires NonDescending(cs, target) && DistinctIds(cs)
    ensures IdsOf(cs) == Sorted(IdSet(cs), target)
  {
    var ids := IdsOf(cs);
    forall i, j | 0 <= i < j < |ids| ensures Nearer(ids[i], ids[j], target) {
      NearerIsTotal(cs[i].id, cs[j].id, target);
    }
    AscendingIsSorted(ids, target);
    IdSetOfIds(cs);
  }

  // Prefix [0..i] is in order apart from position j, whose contact is no farther than any
  // of those after it.
  ghost predicate SortedExcept(cs: seq<Contact>, target: NodeID, i: int, j: int) {
    0 <= j <= i < |cs|
    && (forall p, q | 0 <= p < q <= i && p != j && q != j ::
          Distance(cs[p].id, target) <= Distance(cs[q].id, target))
    && forall q | j < q <= i :: Distance(cs[j].id, target) <= Distance(cs[q].id, target)
  }

  function SwapDown(cs: seq<Contact>, j: nat): seq<Contact>
    requires 0 < j < |cs|
  {
    cs[j := cs[j - 1]][j - 1 := cs[j]]
  }

  lemma SwapDownPermutes(cs: seq<Contact>, j: nat)
    requires 0 < j < |cs|
    ensures multiset(SwapDown(cs, j)) == multiset(cs)
    ensures DistinctIds(cs) ==> DistinctIds(SwapDown(cs, j))
  {
  }

  lemma SwapDownSorts(cs: seq<Contact>, target: NodeID, i: int, j: int)
    requires SortedExcept(cs, target, i, j) && j > 0
    requires Nearer(cs[j].id, cs[j - 1].id, target)
    ensures SortedExcept(SwapDown(cs, j), target, i, j - 1)
  {
    var s := SwapDown(cs, j);
    assert forall k | 0 <= k < |cs| && k != j && k != j - 1 :: s[k] == cs[k];
  }

  lemma KeepSorts(cs: seq<Contact>, target: NodeID, i: int, j: int)
    requires SortedExcept(cs, target, i, j) && j > 0
    requires !Nearer(cs[j].id, cs[j - 1].id, target)
    ensures SortedExcept(cs, target, i, j - 1)
  {
  }

  lemma StartSorting(cs: seq<Contact>, target: NodeID, i: int)
    requires 0 < i < |cs| && NonDescending(cs[..i], target)
    ensures SortedExcept(cs, target, i, i)
  {
    assert forall p | 0 <= p < i :: cs[..i][p] == cs[p];
  }

  // The insertion sort of the candidate list. The inner loop has no early exit: it walks
  // to the front even after the contact has found its place.
  method SortByDistance(contacts: seq<Contact>, target: NodeID) returns (cs: seq<Contact>)
    ensures multiset(cs) == multiset(contacts)
    ensures NonDescending(cs, target)
    ensures DistinctIds(contacts) ==> DistinctIds(cs)
  {
    cs := contacts;
    var i := 1;
    while i < |cs|
      invariant |cs| == |contacts| && multiset(cs) == multiset(contacts)
      invariant DistinctIds(contacts) ==> DistinctIds(cs)
      invariant 0 < i && (i <= |cs| || |cs| == 0)
      invariant i <= |cs| ==> NonDescending(cs[..i], target)
      decreases |contacts| - i
    {
      var j := i;
      StartSorting(cs, target, i);
      while j > 0
        invariant 0 <= j <= i < |cs|
        invariant |cs| == |contacts| && multiset(cs) == multiset(contacts)
        invariant DistinctIds(contacts) ==> DistinctIds(cs)
        invariant SortedExcept(cs, target, i, j)
        decreases j
      {
        var less := Less(cs[j].id, cs[j - 1].id, target);
        if less {
          SwapDownPermutes(cs, j);
          SwapDownSorts(cs, target, i, j);
          cs := cs[j := cs[j - 1]][j - 1 := cs[j]];
        } else {
          KeepSorts(cs, target, i, j);
        }
        j := j - 1;
      }
      i := i + 1;
    }
    assert |cs| > 0 ==> cs[..|cs|] == cs;
  }
}
