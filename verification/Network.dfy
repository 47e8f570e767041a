// A network of nodes that all run the handlers, over time.
module Networks {
  import opened Contacts
  import opened Convergence
  import opened Lookups
  import opened NodeIds
  import opened Nodes
  import opened Ranking
  import opened RoutingTables
  import opened Searches
  import opened Stores
  import opened Wrappers

  // The nodes, by ID, and the clock they share.
  datatype Net = Net(nodes: map<NodeID, Node>, now: int)

  datatype NetEvent =
    | StoreAt(at: NodeID, record: Record)    // a store message, or the node's own Put
    | Tell(at: NodeID, contact: Contact)     // a ping, a pong, or a reply that names a contact
    | Forget(at: NodeID, id: NodeID)         // a peer failed during a lookup
    | DeleteAt(at: NodeID, name: string)
    | CleanupAt(at: NodeID)
    | Tick(to: int)                          // time passes; the clock never runs backwards

  ghost function NodeAfter(c: Crypto, p: NodeID, n: Node, e: NetEvent, now: int): Node {
    match e
    case StoreAt(_, r) => AfterStore(c, n, r, now)
    case Tell(_, x) => AfterTold(p, n, x)
    case Forget(_, id) => n.(buckets := Removed(p, n.buckets, id))
    case DeleteAt(_, name) => n.(records := n.records - {name})
    case CleanupAt(_) => n.(records := AfterCleanup(n.records, now))
    case Tick(_) => n
  }

  ghost function Step(c: Crypto, net: Net, e: NetEvent): Net {
    if e.Tick? then net.(now := if e.to > net.now then e.to else net.now)
    else if e.at in net.nodes then
      net.(nodes := net.nodes[e.at := NodeAfter(c, e.at, net.nodes[e.at], e, net.now)])
    else net
  }

  // The network after the first i events of a run.
  ghost function NetAt(c: Crypto, net: Net, events: seq<NetEvent>, i: nat): Net
    requires i <= |events|
  {
    if i == 0 then net else Step(c, NetAt(c, net, events, i - 1), events[i - 1])
  }

  lemma {:induction false} NodesStay(c: Crypto, net: Net, events: seq<NetEvent>, i: nat)
    requires i <= |events|
    ensures NetAt(c, net, events, i).nodes.Keys == net.nodes.Keys
    decreases i
  {
    if i > 0 {
      NodesStay(c, net, events, i - 1);
    }
  }

  lemma {:induction false} ClockAdvances(c: Crypto, net: Net, events: seq<NetEvent>, i: nat, j: nat)
    requires i <= j <= |events|
    ensures NetAt(c, net, events, i).now <= NetAt(c, net, events, j).now
    decreases j
  {
    if i < j {
      ClockAdvances(c, net, events, i, j - 1);
    }
  }

  // ----- What a run means for one node -----

  function StoreOpOf(e: NetEvent, p: NodeID, now: int): seq<StoreOp> {
    match e
    case StoreAt(at, r) => if at == p then [StoreOp.Put(r, now)] else []
    case DeleteAt(at, name) => if at == p then [StoreOp.Delete(name)] else []
    case CleanupAt(at) => if at == p then [StoreOp.Cleanup(now)] else []
    case _ => []
  }

  function TableOpOf(e: NetEvent, p: NodeID): seq<TableOp> {
    match e
    case Tell(at, x) => if at == p then [TableOp.Add(x)] else []
    case Forget(at, id) => if at == p then [TableOp.Remove(id)] else []
    case _ => []
  }

  // The first i events as p's store sees them, with the clock of their moments ...
  ghost function StoreOpsAt(c: Crypto, net: Net, events: seq<NetEvent>, p: NodeID, i: nat): seq<StoreOp>
    requires i <= |events|
  {
    if i == 0 then []
    else StoreOpsAt(c, net, events, p, i - 1) + StoreOpOf(events[i - 1], p, NetAt(c, net, events, i - 1).now)
  }

  // ... and as its table does.
  ghost function TableOpsAt(events: seq<NetEvent>, p: NodeID, i: nat): seq<TableOp>
    requires i <= |events|
  {
    if i == 0 then [] else TableOpsAt(events, p, i - 1) + TableOpOf(events[i - 1], p)
  }

  // The node has come here from its start by these operations.
  ghost predicate CameBy(c: Crypto, p: NodeID, start: Node, n: Node, now: int, ops: seq<StoreOp>, told: seq<TableOp>) {
    && n.records == Stores.Run(c, start.records, ops)
    && n.buckets == RunFrom(p, start.buckets, told)
    && ClockedUpTo(ops, now)
  }

  lemma CameByStart(c: Crypto, p: NodeID, n: Node, now: int)
    ensures CameBy(c, p, n, n, now, [], [])
  {
  }

  // Node p has come to moment i of the run by its own operations.
  ghost predicate CameTo(c: Crypto, net: Net, events: seq<NetEvent>, p: NodeID, i: nat)
    requires p in net.nodes && i <= |events|
  {
    var n := NetAt(c, net, events, i);
    p in n.nodes && CameBy(c, p, net.nodes[p], n.nodes[p], n.now, StoreOpsAt(c, net, events, p, i),
      TableOpsAt(events, p, i))
  }

  lemma CameToNext(c: Crypto, net: Net, events: seq<NetEvent>, p: NodeID, i: nat)
    requires p in net.nodes && i < |events| && CameTo(c, net, events, p, i)
    ensures CameTo(c, net, events, p, i + 1)
  {
    CameByStep(c, net.nodes[p], NetAt(c, net, events, i), p, events[i], StoreOpsAt(c, net, events, p, i),
      TableOpsAt(events, p, i));
    assert NetAt(c, net, events, i + 1) == Step(c, NetAt(c, net, events, i), events[i]);
  }

  // Each node of a network goes through a run of its own store, under a clock that does not
  // run backwards, and a run of its own table. What holds of these runs holds of it.
  lemma NodeRuns(c: Crypto, net: Net, events: seq<NetEvent>, p: NodeID, i: nat)
    requires p in net.nodes && i <= |events|
    ensures CameTo(c, net, events, p, i)
  {
    CameByStart(c, p, net.nodes[p], net.now);
    for k := 0 to i
      invariant CameTo(c, net, events, p, k)
    {
      CameToNext(c, net, events, p, k);
    }
  }

  lemma CameByStep(c: Crypto, start: Node, net: Net, p: NodeID, e: NetEvent, ops: seq<StoreOp>, told: seq<TableOp>)
    requires p in net.nodes && CameBy(c, p, start, net.nodes[p], net.now, ops, told)
    ensures p in Step(c, net, e).nodes
    ensures CameBy(c, p, start, Step(c, net, e).nodes[p], Step(c, net, e).now,
      ops + StoreOpOf(e, p, net.now), told + TableOpOf(e, p))
  {
    var next := Step(c, net, e);
    ClockedLater(ops, net.now, next.now);
    if StoreOpOf(e, p, net.now) == [] {
      assert ops + StoreOpOf(e, p, net.now) == ops;
    } else {
      var op := StoreOpOf(e, p, net.now)[0];
      assert StoreOpOf(e, p, net.now) == [op];
      RunAppend(c, start.records, ops, op);
      ClockedAppend(ops, op, net.now);
    }
    if TableOpOf(e, p) == [] {
      assert told + TableOpOf(e, p) == told;
    } else {
      var op := TableOpOf(e, p)[0];
      assert TableOpOf(e, p) == [op];
      RunOneMore(p, start.buckets, told, op);
    }
  }

  // ----- Safety -----

  ghost predicate AllSane(c: Crypto, net: Net) {
    forall p | p in net.nodes :: Sane(c, net.nodes[p].records)
  }

  lemma StepSane(c: Crypto, net: Net, e: NetEvent)
    requires AllSane(c, net)
    ensures AllSane(c, Step(c, net, e))
  {
  }

  lemma {:induction false} NetSane(c: Crypto, net: Net, events: seq<NetEvent>, i: nat)
    requires AllSane(c, net) && i <= |events|
    ensures AllSane(c, NetAt(c, net, events, i))
    decreases i
  {
    if i > 0 {
      NetSane(c, net, events, i - 1);
      StepSane(c, NetAt(c, net, events, i - 1), events[i - 1]);
    }
  }

  // What p has to say about a name at moment i of the run.
  ghost function AnswerAt(c: Crypto, net: Net, events: seq<NetEvent>, p: NodeID, i: nat, name: string,
      groupKey: string): FindValueAnswer
    requires p in net.nodes && i <= |events|
  {
    NodesStay(c, net, events, i);
    FindValueAnswerOf(c, NetAt(c, net, events, i).nodes[p], name, groupKey, NetAt(c, net, events, i).now)
  }

  ghost function LocalAt(c: Crypto, net: Net, events: seq<NetEvent>, p: NodeID, i: nat, name: string,
      groupKey: string): Option<Record>
    requires p in net.nodes && i <= |events|
  {
    NodesStay(c, net, events, i);
    FoundForGroup(NetAt(c, net, events, i).nodes[p].records, name, groupKey, NetAt(c, net, events, i).now)
  }

  // Each peer that answers does so at a moment of its own.
  ghost predicate Moments(asked: map<NodeID, nat>, net: Net, lo: nat, hi: nat) {
    forall p | p in asked :: p in net.nodes && lo <= asked[p] <= hi
  }

  ghost function ValueAnswersAt(c: Crypto, net: Net, events: seq<NetEvent>, asked: map<NodeID, nat>,
      name: string, groupKey: string): ValueAnswers
    requires Moments(asked, net, 0, |events|)
  {
    map p | p in asked :: AnswerAt(c, net, events, p, asked[p], name, groupKey)
  }

  // At moment i node p held r under its name, verified and unexpired.
  ghost predicate HeldGood(c: Crypto, net: Net, events: seq<NetEvent>, p: NodeID, i: nat, r: Record)
    requires i <= |events|
  {
    var now := NetAt(c, net, events, i);
    p in now.nodes && r.name in now.nodes[p].records && now.nodes[p].records[r.name] == r
    && Verify(c, r) == Verified && !IsExpired(r, now.now)
  }

  lemma LocalIsGood(c: Crypto, net: Net, events: seq<NetEvent>, p: NodeID, i: nat, name: string, groupKey: string)
    requires AllSane(c, net) && p in net.nodes && i <= |events|
    ensures match LocalAt(c, net, events, p, i, name, groupKey)
            case Some(r) => r.name == name && r.groupKey == groupKey && HeldGood(c, net, events, p, i, r)
            case None => true
  {
    NodesStay(c, net, events, i);
    NetSane(c, net, events, i);
  }

  // Network-wide safety: in every run of the network, with tables, peers that fail and
  // records of any kind, a record that a lookup returns has the name and group asked for,
  // verifies, and was held unexpired by some node at the moment that node read it. With an
  // ideal signature scheme it was signed as it is by the key it carries.
  lemma LookupValueSafe(c: Crypto, net: Net, events: seq<NetEvent>, self: NodeID, start: nat, asked: map<NodeID, nat>,
      name: string, groupKey: string, seeds: set<NodeID>, choose: nat -> Choice, r: Record)
    returns (holder: NodeID, i: nat)
    requires AllSane(c, net) && self in net.nodes && start <= |events| && Moments(asked, net, 0, |events|)
    requires ValueOutcome(LocalAt(c, net, events, self, start, name, groupKey),
      Search(self, c.recordId(name), seeds, ValueAnswersAt(c, net, events, asked, name, groupKey), choose), Value(r))
    ensures r.name == name && r.groupKey == groupKey
    ensures AcceptsNothingForged(c) ==> Authentic(c, r)
    ensures (holder == self && i == start) || (holder in asked && i == asked[holder])
    ensures i <= |events| && HeldGood(c, net, events, holder, i, r)
  {
    var local := LocalAt(c, net, events, self, start, name, groupKey);
    var peers := ValueAnswersAt(c, net, events, asked, name, groupKey);
    var p := OutcomeSource(local, Search(self, c.recordId(name), seeds, peers, choose), r);
    holder, i := if local == None then p else self, if local == None then asked[p] else start;
    AnswerIsLocal(c, net, events, holder, i, name, groupKey, r);
    LocalIsGood(c, net, events, holder, i, name, groupKey);
    if AcceptsNothingForged(c) {
      VerifiedIsSigned(c, r);
    }
  }

  lemma AnswerIsLocal(c: Crypto, net: Net, events: seq<NetEvent>, p: NodeID, i: nat, name: string,
      groupKey: string, r: Record)
    requires p in net.nodes && i <= |events|
    ensures AnswerAt(c, net, events, p, i, name, groupKey) == FoundValue(r)
      <==> LocalAt(c, net, events, p, i, name, groupKey) == Some(r)
  {
  }

  // ----- Coverage -----

  ghost predicate CoveredNode(p: NodeID, n: Node, network: set<NodeID>) {
    WellFormed(p, n.buckets) && Covers(p, TableIds(n.buckets), network)
    && forall x :: Holds(n.buckets, x) ==> x.address.Some?
  }

  // Every node's table reaches into every bucket range in which the network has a node, and
  // names only live nodes under addresses that can be sent on.
  ghost predicate CoveredNet(net: Net) {
    forall p | p in net.nodes :: CoveredNode(p, net.nodes[p], net.nodes.Keys)
  }

  // Contacts that are told are live nodes, and nobody is forgotten.
  ghost predicate KeepsCoverage(e: NetEvent, network: set<NodeID>) {
    match e
    case Tell(_, x) => x.id in network && x.address.Some?
    case Forget(_, _) => false
    case _ => true
  }

  lemma ToldStaysCovered(p: NodeID, n: Node, x: Contact, network: set<NodeID>)
    requires CoveredNode(p, n, network) && x.id in network && x.address.Some?
    ensures CoveredNode(p, AfterTold(p, n, x), network)
  {
    if x.id != p {
      AddedTable(p, n.buckets, x);
      forall q | q in network && q != p ensures HasInBucket(p, TableIds(Added(p, n.buckets, x)), BucketOf(p, q)) {
        assert HasInBucket(p, TableIds(n.buckets), BucketOf(p, q));
        var b :| b in TableIds(n.buckets) && BucketOf(p, b) == BucketOf(p, q);
        assert b in TableIds(Added(p, n.buckets, x));
      }
    }
  }

  lemma NodeStaysCovered(c: Crypto, p: NodeID, n: Node, e: NetEvent, now: int, network: set<NodeID>)
    requires CoveredNode(p, n, network) && KeepsCoverage(e, network)
    ensures CoveredNode(p, NodeAfter(c, p, n, e, now), network)
  {
    if e.Tell? {
      ToldStaysCovered(p, n, e.contact, network);
    } else {
      assert NodeAfter(c, p, n, e, now).buckets == n.buckets;
    }
  }

  lemma StepCoveredNode(c: Crypto, net: Net, e: NetEvent, p: NodeID)
    requires p in net.nodes && CoveredNode(p, net.nodes[p], net.nodes.Keys) && KeepsCoverage(e, net.nodes.Keys)
    ensures p in Step(c, net, e).nodes && CoveredNode(p, Step(c, net, e).nodes[p], net.nodes.Keys)
  {
    NodeStaysCovered(c, p, net.nodes[p], e, net.now, net.nodes.Keys);
  }

  lemma StepCovered(c: Crypto, net: Net, e: NetEvent)
    requires CoveredNet(net) && KeepsCoverage(e, net.nodes.Keys)
    ensures CoveredNet(Step(c, net, e)) && Step(c, net, e).nodes.Keys == net.nodes.Keys
  {
    var next := Step(c, net, e);
    assert next.nodes.Keys == net.nodes.Keys;
    forall p | p in next.nodes ensures CoveredNode(p, next.nodes[p], next.nodes.Keys) {
      StepCoveredNode(c, net, e, p);
    }
  }

  lemma NetCovered(c: Crypto, net: Net, events: seq<NetEvent>, i: nat)
    requires CoveredNet(net) && i <= |events|
    requires forall e | e in events :: KeepsCoverage(e, net.nodes.Keys)
    ensures CoveredNet(NetAt(c, net, events, i))
  {
    var n := net;
    for k := 0 to i
      invariant n == NetAt(c, net, events, k) && n.nodes.Keys == net.nodes.Keys && CoveredNet(n)
    {
      assert events[k] in events;
      StepCovered(c, n, events[k]);
      n := Step(c, n, events[k]);
    }
  }

  // A node that was told only of live nodes is covered exactly when it has heard of one node
  // from every bucket range in which the network has one: who came first, or who found the
  // bucket full, does not matter.
  lemma CoveredByHearing(p: NodeID, ops: seq<TableOp>, records: Records, network: set<NodeID>)
    requires ToldLive(ops, network)
    ensures CoveredNode(p, Node(RoutingTables.Run(p, ops), records), network)
      <==> forall q | q in network && q != p :: HeardInBucket(p, ops, BucketOf(p, q))
  {
    ToldInside(p, ops, network);
    forall q | q in network && q != p
      ensures HasInBucket(p, TableIds(RoutingTables.Run(p, ops)), BucketOf(p, q))
        <==> HeardInBucket(p, ops, BucketOf(p, q))
    {
      HeardReaches(p, ops, BucketOf(p, q));
    }
  }

  // What a covered node answers is read as the K nearest contacts of its table, every one of
  // them, and their IDs are a covered reply.
  lemma CoveredAnswer(p: NodeID, n: Node, network: set<NodeID>, target: NodeID)
    requires CoveredNode(p, n, network)
    ensures NamesNearest(FindNodeAnswer(n, target), AllFromWire(FindNodeAnswer(n, target)), n.buckets, target)
    ensures IdSet(AllFromWire(FindNodeAnswer(n, target))) == ToSet(Top(TableIds(n.buckets), target, K))
    ensures CoveredReply(p, ToSet(Top(TableIds(n.buckets), target, K)), network, target)
  {
    var r := FindNodeAnswered(n, target);
    AllAddressed(r);
    IdSetOfIds(r);
    assert Covers(p, TableIds(n.buckets), network);
  }
}
