// A node as a value: what it holds, what it is asked, and what it answers.
module Nodes {
  import opened Contacts
  import opened Lookups
  import opened NodeIds
  import opened Ranking
  import opened RoutingTables
  import opened Stores

  // ----- Messages -----

  datatype FindValueAnswer =
    | FoundValue(record: Record)
    | FoundNodes(nodes: seq<ContactInfo>)
    | NotFound

  // What the peers answer during one lookup, by ID. A peer that is missing fails: it cannot
  // be reached, or its answer cannot be read. Each peer is asked at most once in a lookup.
  type NodeAnswers = map<NodeID, seq<ContactInfo>>
  type ValueAnswers = map<NodeID, FindValueAnswer>

  ghost function NodeReplies(peers: NodeAnswers): Replies {
    map p | p in peers :: IdSet(AllFromWire(peers[p]))
  }

  ghost function ValueReplies(peers: ValueAnswers): Replies {
    map p | p in peers && peers[p].FoundNodes? :: IdSet(AllFromWire(peers[p].nodes))
  }

  // ----- A node as a value -----

  datatype Node = Node(buckets: Buckets, records: Records)

  ghost function FindNodeAnswer(n: Node, target: NodeID): seq<ContactInfo> {
    AllToWire(ClosestOf(n.buckets, target, K))
  }

  ghost function FindValueAnswerOf(c: Crypto, n: Node, name: string, groupKey: string, now: int): FindValueAnswer {
    match FoundForGroup(n.records, name, groupKey, now)
    case Some(r) => FoundValue(r)
    case None =>
      if ClosestOf(n.buckets, c.recordId(name), K) == [] then NotFound
      else FoundNodes(FindNodeAnswer(n, c.recordId(name)))
  }

  function AfterStore(c: Crypto, n: Node, r: Record, now: int): Node {
    n.(records := AfterPut(c, n.records, r, now))
  }

  // self, the node's own ID, is told of a contact.
  ghost function AfterTold(self: NodeID, n: Node, x: Contact): Node {
    n.(buckets := Added(self, n.buckets, x))
  }

  // ----- What its answers say -----

  // The message names these contacts, entry by entry: the K nearest that the table has.
  ghost predicate NamesNearest(infos: seq<ContactInfo>, r: seq<Contact>, b: Buckets, target: NodeID) {
    && IdsOf(r) == Top(TableIds(b), target, K) && (forall x | x in r :: Holds(b, x))
    && |infos| == |r|
    && forall i | 0 <= i < |r| :: infos[i] == ContactInfo(ToHex(r[i].id), r[i].address, r[i].port)
  }

  // Who asks any node for the nodes nearest to a target reads the K nearest contacts of its
  // table with their own addresses and ports, but for those without an address.
  lemma FindNodeAnswered(n: Node, target: NodeID) returns (r: seq<Contact>)
    ensures NamesNearest(FindNodeAnswer(n, target), r, n.buckets, target)
    ensures AllFromWire(FindNodeAnswer(n, target)) == Addressed(r)
  {
    r := ClosestOf(n.buckets, target, K);
    WireRoundTrip(r);
  }

  // The node holds a record under the name, of this group, whose last second has not passed.
  predicate HoldsFor(n: Node, name: string, groupKey: string, now: int) {
    name in n.records && n.records[name].groupKey == groupKey && now <= n.records[name].expires * 1_000_000_000
  }

  // Who asks for a name is told the record that the node holds for it. Otherwise the answer
  // names the nearest contacts, or nothing exactly when the table is empty.
  lemma FindValueAnswered(c: Crypto, n: Node, name: string, groupKey: string, now: int, answer: FindValueAnswer)
    returns (r: seq<Contact>)
    requires answer == FindValueAnswerOf(c, n, name, groupKey, now)
    ensures HoldsFor(n, name, groupKey, now) ==> answer == FoundValue(n.records[name])
    ensures !HoldsFor(n, name, groupKey, now) ==>
      if TableIds(n.buckets) == {} then answer == NotFound
      else
        && answer.FoundNodes? && NamesNearest(answer.nodes, r, n.buckets, c.recordId(name))
        && AllFromWire(answer.nodes) == Addressed(r)
  {
    r := FindNodeAnswered(n, c.recordId(name));
    assert |ClosestOf(n.buckets, c.recordId(name), K)| == |Top(TableIds(n.buckets), c.recordId(name), K)|;
  }
}
