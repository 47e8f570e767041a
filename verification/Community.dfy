// Networks of nodes that all know each other: what the end-to-end results assume can be met.
module Communities {
  import opened Contacts
  import opened Convergence
  import opened Naming
  import opened Networks
  import opened NodeIds
  import opened Nodes
  import opened Ranking
  import opened RoutingTables
  import opened Searches
  import opened Stores
  import opened Wrappers

  ghost function Tellings(order: seq<NodeID>): seq<TableOp> {
    seq(|order|, i requires 0 <= i < |order| => TableOp.Add(Contact(order[i], Some([]), 0)))
  }

  // A node that has been told of everybody.
  ghost function Informed(p: NodeID, ids: set<NodeID>): Node {
    Node(RoutingTables.Run(p, Tellings(Sorted(ids, p))), map[])
  }

  lemma InformedIsCovered(p: NodeID, ids: set<NodeID>)
    ensures CoveredNode(p, Informed(p, ids), ids)
  {
    var order := Sorted(ids, p);
    var ops := Tellings(order);
    forall op | op in ops ensures op.Add? && op.contact.id in ids && op.contact.address.Some? {
      var i :| 0 <= i < |ops| && ops[i] == op;
      assert order[i] in ToSet(order);
    }
    forall q | q in ids && q != p ensures HeardInBucket(p, ops, BucketOf(p, q)) {
      assert q in ToSet(order);
      var i :| 0 <= i < |order| && order[i] == q;
      assert ops[i].contact.id == q;
    }
    CoveredByHearing(p, ops, map[], ids);
  }

  // Any set of nodes that have all been told of each other and hold no records.
  ghost function Community(ids: set<NodeID>, now: int): Net {
    Net(map p | p in ids :: Informed(p, ids), now)
  }

  ghost function AllAt(ids: set<NodeID>, self: NodeID, i: nat): map<NodeID, nat> {
    map p | p in ids && p != self :: i
  }

  lemma AllAtAsked(ids: set<NodeID>, now: int, self: NodeID, i: nat, hi: nat)
    requires i <= hi
    ensures AllAsked(AllAt(ids, self, i), self, Community(ids, now), i, hi)
    ensures AllAsked(AllAt(ids, self, i), self, Community(ids, now), 0, hi)
  {
    assert AllAt(ids, self, i).Keys == ids - {self};
  }

  // The nodes that a in such a network announces to, when all answer at once.
  ghost function Recipients(c: Crypto, ids: set<NodeID>, a: NodeID, rec: Record, now: int): (to: seq<NodeID>)
    requires a in ids
    ensures |to| <= K && Ascending(to, c.recordId(rec.name))
  {
    AllAtAsked(ids, now, a, 0, 0);
    AnnouncedTo(c, Community(ids, now), [], a, 0, AllAt(ids, a, 0), c.recordId(rec.name))
  }

  ghost function StoreAll(nodes: seq<NodeID>, rec: Record): seq<NetEvent> {
    seq(|nodes|, i requires 0 <= i < |nodes| => StoreAt(nodes[i], rec))
  }

  ghost function Announcing(c: Crypto, ids: set<NodeID>, a: NodeID, rec: Record, now: int): seq<NetEvent>
    requires a in ids
  {
    StoreAll([a] + Recipients(c, ids, a, rec, now), rec)
  }

  ghost function IndexOf(s: seq<NodeID>, x: NodeID): (i: nat)
    requires x in s
    ensures i < |s| && s[i] == x
  {
    var i :| 0 <= i < |s| && s[i] == x;
    i
  }

  ghost function SentInOrder(a: NodeID, asked: map<NodeID, nat>, to: seq<NodeID>): Announcement {
    Announcement(a, 0, 0, asked, map x | x in to :: 1 + IndexOf(to, x))
  }

  ghost function FullAnnouncement(c: Crypto, ids: set<NodeID>, a: NodeID, rec: Record, now: int): Announcement
    requires a in ids
  {
    SentInOrder(a, AllAt(ids, a, 0), Recipients(c, ids, a, rec, now))
  }

  // At the start it does not matter what is to come.
  lemma FirstRecipients(c: Crypto, ids: set<NodeID>, a: NodeID, rec: Record, now: int, events: seq<NetEvent>)
    requires a in ids && Moments(AllAt(ids, a, 0), Community(ids, now), 0, |events|)
    ensures AnnouncedTo(c, Community(ids, now), events, a, 0, AllAt(ids, a, 0), c.recordId(rec.name))
      == Recipients(c, ids, a, rec, now)
  {
    var net, asked, target := Community(ids, now), AllAt(ids, a, 0), c.recordId(rec.name);
    AllAtAsked(ids, now, a, 0, 0);
    FirstAnswers(c, net, events, asked, target);
    assert SeedsAt(c, net, events, a, 0, target) == SeedsAt(c, net, [], a, 0, target);
  }

  lemma FirstAnswer(c: Crypto, net: Net, events: seq<NetEvent>, p: NodeID, target: NodeID)
    requires p in net.nodes
    ensures NodeAnswerAt(c, net, events, p, 0, target) == NodeAnswerAt(c, net, [], p, 0, target)
  {
  }

  lemma FirstAnswers(c: Crypto, net: Net, events: seq<NetEvent>, asked: map<NodeID, nat>, target: NodeID)
    requires Moments(asked, net, 0, 0)
    ensures RepliesAt(c, net, events, asked, target) == RepliesAt(c, net, [], asked, target)
  {
    forall p | p in asked
      ensures NodeAnswerAt(c, net, events, p, asked[p], target) == NodeAnswerAt(c, net, [], p, asked[p], target)
    {
      FirstAnswer(c, net, events, p, target);
    }
    assert NodeAnswersAt(c, net, events, asked, target) == NodeAnswersAt(c, net, [], asked, target);
  }

  lemma SendsArrive(a: NodeID, asked: map<NodeID, nat>, to: seq<NodeID>, rec: Record)
    ensures var events, sends := StoreAll([a] + to, rec), SentInOrder(a, asked, to).sends;
      && |events| == 1 + |to| && Delivers(events, 0, a, rec) && sends.Keys == ToSet(to)
      && forall x | x in sends :: sends[x] < |events| && Delivers(events, sends[x], x, rec)
  {
    forall x | x in to ensures Delivers(StoreAll([a] + to, rec), 1 + IndexOf(to, x), x, rec) {
      assert ([a] + to)[1 + IndexOf(to, x)] == x;
    }
  }

  // When a stores a record and sends it to the nodes to that its lookup returns, it announces it.
  lemma StoresAnnounce(c: Crypto, net: Net, a: NodeID, asked: map<NodeID, nat>, to: seq<NodeID>, rec: Record)
    requires a in net.nodes && AllAsked(asked, a, net, 0, 1 + |to|)
    requires to == AnnouncedTo(c, net, StoreAll([a] + to, rec), a, 0, asked, c.recordId(rec.name))
    ensures var an, events := SentInOrder(a, asked, to), StoreAll([a] + to, rec);
      AnnouncedBy(c, net, events, rec, an, 1 + |to|) && NothingLost(c, net, events, rec, an)
  {
    SendsArrive(a, asked, to, rec);
  }

  lemma CommunityAnnounces(c: Crypto, ids: set<NodeID>, a: NodeID, rec: Record, now: int)
    requires a in ids
    ensures var net, events, an := Community(ids, now), Announcing(c, ids, a, rec, now),
        FullAnnouncement(c, ids, a, rec, now);
      AnnouncedBy(c, net, events, rec, an, |events|) && NothingLost(c, net, events, rec, an)
  {
    var net, to := Community(ids, now), Recipients(c, ids, a, rec, now);
    AllAtAsked(ids, now, a, 0, 1 + |to|);
    FirstRecipients(c, ids, a, rec, now, StoreAll([a] + to, rec));
    StoresAnnounce(c, net, a, AllAt(ids, a, 0), to, rec);
  }

  lemma CommunityCovered(ids: set<NodeID>, now: int, nodes: seq<NodeID>, rec: Record)
    ensures StaysCovered(Community(ids, now), StoreAll(nodes, rec))
  {
    var net := Community(ids, now);
    assert net.nodes.Keys == ids;
    forall p | p in ids ensures CoveredNode(p, net.nodes[p], ids) {
      InformedIsCovered(p, ids);
    }
  }

  // The clock shows now, and those that are not among nodes hold no records.
  ghost predicate Untouched(n: Net, ids: set<NodeID>, now: int, nodes: seq<NodeID>) {
    n.now == now && n.nodes.Keys == ids && forall b | b in ids && b !in nodes :: n.nodes[b].records == map[]
  }

  lemma StoreTouches(c: Crypto, n: Net, ids: set<NodeID>, now: int, nodes: seq<NodeID>, p: NodeID, rec: Record)
    requires Untouched(n, ids, now, nodes) && p in nodes
    ensures Untouched(Step(c, n, StoreAt(p, rec)), ids, now, nodes)
  {
    var next := Step(c, n, StoreAt(p, rec));
    assert next.nodes.Keys == n.nodes.Keys;
  }

  // Storing takes no time, and gives nothing to nodes that are not addressed.
  lemma OthersUntouched(c: Crypto, net: Net, ids: set<NodeID>, now: int, nodes: seq<NodeID>, rec: Record, i: nat)
    requires Untouched(net, ids, now, nodes) && i <= |nodes|
    ensures Untouched(NetAt(c, net, StoreAll(nodes, rec), i), ids, now, nodes)
  {
    var events := StoreAll(nodes, rec);
    var n := net;
    for k := 0 to i
      invariant n == NetAt(c, net, events, k) && Untouched(n, ids, now, nodes)
    {
      assert events[k] == StoreAt(nodes[k], rec);
      StoreTouches(c, n, ids, now, nodes, nodes[k], rec);
      n := Step(c, n, events[k]);
    }
  }

  lemma UntouchedHasNothing(c: Crypto, net: Net, events: seq<NetEvent>, ids: set<NodeID>, now: int, nodes: seq<NodeID>,
      b: NodeID, i: nat, name: string, groupKey: string)
    requires i <= |events| && Untouched(NetAt(c, net, events, i), ids, now, nodes)
    requires b in net.nodes && b in ids && b !in nodes
    ensures LocalAt(c, net, events, b, i, name, groupKey) == None
  {
  }

  lemma CommunityUntouched(ids: set<NodeID>, now: int, nodes: seq<NodeID>)
    ensures Untouched(Community(ids, now), ids, now, nodes)
  {
  }

  lemma CommunityUndisturbed(c: Crypto, ids: set<NodeID>, now: int, nodes: seq<NodeID>, rec: Record)
    requires Verify(c, rec) == Verified && !IsExpired(rec, now)
    ensures Undisturbed(c, Community(ids, now), StoreAll(nodes, rec), rec)
  {
    CommunityUntouched(ids, now, nodes);
    OthersUntouched(c, Community(ids, now), ids, now, nodes, rec, |nodes|);
  }

  // Among more than K + 1 nodes somebody is not told.
  lemma SomebodyIsLeftOut(ids: set<NodeID>, a: NodeID, to: seq<NodeID>, target: NodeID) returns (b: NodeID)
    requires |ids| > K + 1 && |to| <= K && Ascending(to, target)
    ensures b in ids && b != a && b !in to
  {
    DistinctCount(to, target);
    if ids <= ToSet(to) + {a} {
      SubsetCount(ids, ToSet(to) + {a});
    }
    b :| b in ids && b !in ToSet(to) + {a};
  }

  // All that AnnouncedNameIsFound asks for is met by a lookup of b in such a network.
  lemma CommunityMeetsAssumptions(c: Crypto, ids: set<NodeID>, a: NodeID, rec: Record, now: int, b: NodeID)
    requires a in ids && b in ids && b != a && Verify(c, rec) == Verified && !IsExpired(rec, now)
    ensures var net, events, an := Community(ids, now), Announcing(c, ids, a, rec, now),
        FullAnnouncement(c, ids, a, rec, now);
      && StaysCovered(net, events) && Undisturbed(c, net, events, rec)
      && AnnouncedBy(c, net, events, rec, an, |events|) && GivenToNearest(c, net, rec, an)
      && AllAsked(AllAt(ids, b, |events|), b, net, |events|, |events|)
  {
    var net, events, an := Community(ids, now), Announcing(c, ids, a, rec, now), FullAnnouncement(c, ids, a, rec, now);
    var nodes := [a] + Recipients(c, ids, a, rec, now);
    CommunityCovered(ids, now, nodes, rec);
    CommunityUndisturbed(c, ids, now, nodes, rec);
    CommunityAnnounces(c, ids, a, rec, now);
    NothingLostReachesNearest(c, net, events, rec, an);
    AllAtAsked(ids, now, b, |events|, |events|);
  }

  lemma LeftOutHasNothing(c: Crypto, ids: set<NodeID>, a: NodeID, rec: Record, now: int, b: NodeID)
    requires a in ids && b in ids && b != a && b !in Recipients(c, ids, a, rec, now)
    ensures var net, events := Community(ids, now), Announcing(c, ids, a, rec, now);
      LocalAt(c, net, events, b, |events|, rec.name, rec.groupKey) == None
  {
    var nodes := [a] + Recipients(c, ids, a, rec, now);
    CommunityUntouched(ids, now, nodes);
    OthersUntouched(c, Community(ids, now), ids, now, nodes, rec, |nodes|);
    UntouchedHasNothing(c, Community(ids, now), StoreAll(nodes, rec), ids, now, nodes, b, |nodes|, rec.name,
      rec.groupKey);
  }

  ghost function LastSearch(c: Crypto, ids: set<NodeID>, a: NodeID, rec: Record, now: int, b: NodeID,
      choose: nat -> Choice): Search
    requires a in ids && b in ids
  {
    var net, events := Community(ids, now), Announcing(c, ids, a, rec, now);
    AllAtAsked(ids, now, b, |events|, |events|);
    SearchFor(c, net, events, rec, b, |events|, AllAt(ids, b, |events|), choose)
  }

  // In any network of more than K + 1 nodes that know each other, a name is announced, and a
  // node that holds nothing under it finds the record by a search.
  lemma CommunityFinds(c: Crypto, ids: set<NodeID>, a: NodeID, rec: Record, now: int, choose: nat -> Choice)
    returns (b: NodeID)
    requires a in ids && |ids| > K + 1
    requires Verify(c, rec) == Verified && !IsExpired(rec, now) && AlwaysTakes(choose)
    ensures b in ids && b != a
    ensures var net, events := Community(ids, now), Announcing(c, ids, a, rec, now);
      LocalAt(c, net, events, b, |events|, rec.name, rec.groupKey) == None
    ensures SearchOutcome(LastSearch(c, ids, a, rec, now, b, choose), Value(rec))
  {
    b := SomebodyIsLeftOut(ids, a, Recipients(c, ids, a, rec, now), c.recordId(rec.name));
    LeftOutHasNothing(c, ids, a, rec, now, b);
    CommunityMeetsAssumptions(c, ids, a, rec, now, b);
    var result := SomeOutcome(None, LastSearch(c, ids, a, rec, now, b, choose));
    var net, events, an := Community(ids, now), Announcing(c, ids, a, rec, now), FullAnnouncement(c, ids, a, rec, now);
    AnnouncedNameIsFound(c, net, events, rec, an, |events|, b, |events|, AllAt(ids, b, |events|), choose, result);
  }
}
