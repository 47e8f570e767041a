// A name announced by one node is found by every other node until it expires.
module Naming {
  import opened Contacts
  import opened Convergence
  import opened Lookups
  import opened Networks
  import opened NodeIds
  import opened Nodes
  import opened Ranking
  import opened RoutingTables
  import opened Searches
  import opened Stores
  import opened TableEffects
  import opened Wrappers

  // ----- What happens to one record -----

  // Nothing else is put under the record's name, and nobody deletes it.
  ghost predicate LeavesAlone(e: NetEvent, rec: Record) {
    (e.StoreAt? && e.record.name == rec.name ==> e.record == rec)
    && (e.DeleteAt? ==> e.name != rec.name)
  }

  ghost predicate HoldsRecord(net: Net, p: NodeID, rec: Record) {
    p in net.nodes && rec.name in net.nodes[p].records && net.nodes[p].records[rec.name] == rec
  }

  // Whoever has something under the record's name has the record.
  ghost predicate OnlyRecord(net: Net, rec: Record) {
    forall p | p in net.nodes :: rec.name in net.nodes[p].records ==> HoldsRecord(net, p, rec)
  }

  lemma StepOnly(c: Crypto, net: Net, e: NetEvent, rec: Record)
    requires OnlyRecord(net, rec) && LeavesAlone(e, rec)
    ensures OnlyRecord(Step(c, net, e), rec)
  {
    var next := Step(c, net, e);
    forall p | p in next.nodes && rec.name in next.nodes[p].records ensures HoldsRecord(next, p, rec) {
      assert rec.name in net.nodes[p].records ==> HoldsRecord(net, p, rec);
    }
  }

  lemma StepKeeps(c: Crypto, net: Net, e: NetEvent, rec: Record, p: NodeID)
    requires HoldsRecord(net, p, rec) && LeavesAlone(e, rec) && !IsExpired(rec, net.now)
    ensures HoldsRecord(Step(c, net, e), p, rec)
  {
  }

  lemma StepStores(c: Crypto, net: Net, rec: Record, p: NodeID)
    requires OnlyRecord(net, rec) && p in net.nodes
    requires Verify(c, rec) == Verified && !IsExpired(rec, net.now)
    ensures HoldsRecord(Step(c, net, StoreAt(p, rec)), p, rec)
  {
  }

  // A run in which the record is the only one under its name and is left alone; it may be
  // stored again any number of times.
  ghost predicate LeftAlone(net: Net, events: seq<NetEvent>, rec: Record) {
    OnlyRecord(net, rec) && forall e | e in events :: LeavesAlone(e, rec)
  }

  // Besides, the record verifies and has not expired by the end.
  ghost predicate Undisturbed(c: Crypto, net: Net, events: seq<NetEvent>, rec: Record) {
    LeftAlone(net, events, rec) && Verify(c, rec) == Verified
    && !IsExpired(rec, NetAt(c, net, events, |events|).now)
  }

  lemma UnexpiredAt(c: Crypto, net: Net, events: seq<NetEvent>, rec: Record, i: nat)
    requires Undisturbed(c, net, events, rec) && i <= |events|
    ensures !IsExpired(rec, NetAt(c, net, events, i).now)
  {
    ClockAdvances(c, net, events, i, |events|);
  }

  lemma OnlyAt(c: Crypto, net: Net, events: seq<NetEvent>, rec: Record, i: nat)
    requires LeftAlone(net, events, rec) && i <= |events|
    ensures OnlyRecord(NetAt(c, net, events, i), rec)
  {
    var n := net;
    for k := 0 to i
      invariant n == NetAt(c, net, events, k) && OnlyRecord(n, rec)
    {
      assert events[k] in events;
      StepOnly(c, n, events[k], rec);
      n := Step(c, n, events[k]);
    }
  }

  lemma KeptOnce(c: Crypto, net: Net, events: seq<NetEvent>, rec: Record, p: NodeID, k: nat)
    requires Undisturbed(c, net, events, rec) && k < |events|
    requires HoldsRecord(NetAt(c, net, events, k), p, rec)
    ensures HoldsRecord(NetAt(c, net, events, k + 1), p, rec)
  {
    assert events[k] in events;
    UnexpiredAt(c, net, events, rec, k);
    StepKeeps(c, NetAt(c, net, events, k), events[k], rec, p);
  }

  lemma {:induction false} KeptUntil(c: Crypto, net: Net, events: seq<NetEvent>, rec: Record, p: NodeID, i: nat, j: nat)
    requires Undisturbed(c, net, events, rec) && i <= j <= |events|
    requires HoldsRecord(NetAt(c, net, events, i), p, rec)
    ensures HoldsRecord(NetAt(c, net, events, j), p, rec)
    decreases j
  {
    if i < j {
      KeptUntil(c, net, events, rec, p, i, j - 1);
      KeptOnce(c, net, events, rec, p, j - 1);
    }
  }

  // The k-th event gives p the record.
  ghost predicate Delivers(events: seq<NetEvent>, k: nat, p: NodeID, rec: Record) {
    k < |events| && events[k] == StoreAt(p, rec)
  }

  // Once delivered, a record stays.
  lemma DeliveredStays(c: Crypto, net: Net, events: seq<NetEvent>, rec: Record, p: NodeID, k: nat, j: nat)
    requires Undisturbed(c, net, events, rec) && p in net.nodes
    requires Delivers(events, k, p, rec) && k < j <= |events|
    ensures HoldsRecord(NetAt(c, net, events, j), p, rec)
  {
    OnlyAt(c, net, events, rec, k);
    UnexpiredAt(c, net, events, rec, k);
    NodesStay(c, net, events, k);
    StepStores(c, NetAt(c, net, events, k), rec, p);
    KeptUntil(c, net, events, rec, p, k + 1, j);
  }

  // ----- Lookups during a run -----

  // Everybody but self is asked, each at a moment between lo and hi.
  ghost predicate AllAsked(asked: map<NodeID, nat>, self: NodeID, net: Net, lo: nat, hi: nat) {
    asked.Keys == net.nodes.Keys - {self} && Moments(asked, net, lo, hi)
  }

  ghost function NodeAnswersAt(c: Crypto, net: Net, events: seq<NetEvent>, asked: map<NodeID, nat>,
      target: NodeID): NodeAnswers
    requires Moments(asked, net, 0, |events|)
  {
    map p | p in asked :: NodeAnswerAt(c, net, events, p, asked[p], target)
  }

  ghost function NodeAnswerAt(c: Crypto, net: Net, events: seq<NetEvent>, p: NodeID, i: nat,
      target: NodeID): seq<ContactInfo>
    requires p in net.nodes && i <= |events|
  {
    NodesStay(c, net, events, i);
    FindNodeAnswer(NetAt(c, net, events, i).nodes[p], target)
  }

  ghost function SeedsAt(c: Crypto, net: Net, events: seq<NetEvent>, p: NodeID, i: nat, target: NodeID): set<NodeID>
    requires p in net.nodes && i <= |events|
  {
    NodesStay(c, net, events, i);
    ToSet(Top(TableIds(NetAt(c, net, events, i).nodes[p].buckets), target, K))
  }

  // A run in which coverage is never lost.
  ghost predicate StaysCovered(net: Net, events: seq<NetEvent>) {
    CoveredNet(net) && forall e | e in events :: KeepsCoverage(e, net.nodes.Keys)
  }

  lemma CoveredAnswerAt(c: Crypto, net: Net, events: seq<NetEvent>, p: NodeID, i: nat, target: NodeID)
    requires StaysCovered(net, events) && p in net.nodes && i <= |events|
    ensures IdSet(AllFromWire(NodeAnswerAt(c, net, events, p, i, target))) == SeedsAt(c, net, events, p, i, target)
    ensures CoveredReply(p, SeedsAt(c, net, events, p, i, target), net.nodes.Keys, target)
  {
    NodesStay(c, net, events, i);
    NetCovered(c, net, events, i);
    assert CoveredNode(p, NetAt(c, net, events, i).nodes[p], net.nodes.Keys);
    CoveredAnswer(p, NetAt(c, net, events, i).nodes[p], net.nodes.Keys, target);
  }

  ghost function RepliesAt(c: Crypto, net: Net, events: seq<NetEvent>, asked: map<NodeID, nat>, target: NodeID): Replies
    requires Moments(asked, net, 0, |events|)
  {
    NodeReplies(NodeAnswersAt(c, net, events, asked, target))
  }

  lemma OneAnswers(c: Crypto, net: Net, events: seq<NetEvent>, self: NodeID, asked: map<NodeID, nat>,
      target: NodeID, p: NodeID)
    requires StaysCovered(net, events) && AllAsked(asked, self, net, 0, |events|)
    ensures Answers(p, self, RepliesAt(c, net, events, asked, target), net.nodes.Keys, target)
  {
    if p in net.nodes.Keys && p != self {
      assert p in asked.Keys;
      CoveredAnswerAt(c, net, events, p, asked[p], target);
      assert RepliesAt(c, net, events, asked, target)[p] == SeedsAt(c, net, events, p, asked[p], target);
    }
  }

  // In a covered run the answers to a lookup, each from the table of its own moment, are
  // those the completeness theorem asks for.
  lemma AskedIsAnswered(c: Crypto, net: Net, events: seq<NetEvent>, self: NodeID, i: nat, asked: map<NodeID,
      nat>, target: NodeID)
    requires StaysCovered(net, events) && self in net.nodes && i <= |events|
    requires AllAsked(asked, self, net, 0, |events|)
    ensures AllAnswer(self, SeedsAt(c, net, events, self, i, target),
      RepliesAt(c, net, events, asked, target), net.nodes.Keys, target)
  {
    var reply := RepliesAt(c, net, events, asked, target);
    CoveredAnswerAt(c, net, events, self, i, target);
    forall p ensures Answers(p, self, reply, net.nodes.Keys, target) {
      OneAnswers(c, net, events, self, asked, target, p);
    }
  }

  // ----- What lookups do to coverage -----

  ghost function AsEvent(b: NodeID, op: TableOp): NetEvent {
    match op
    case Add(x) => Tell(b, x)
    case Remove(id) => Forget(b, id)
  }

  // What the table of b has been told or made to forget since, as events of the network.
  ghost function TableEvents(b: NodeID, before: seq<TableOp>, log: seq<TableOp>): seq<NetEvent>
    requires before <= log
  {
    seq(|log| - |before|, i requires 0 <= i < |log| - |before| => AsEvent(b, log[|before| + i]))
  }

  lemma ReplyInNetwork(c: Crypto, net: Net, events: seq<NetEvent>, p: NodeID, i: nat, target: NodeID)
    requires StaysCovered(net, events) && p in net.nodes && i <= |events|
    ensures SeedsAt(c, net, events, p, i, target) <= net.nodes.Keys - {p}
  {
    CoveredAnswerAt(c, net, events, p, i, target);
    ReplyInside(p, SeedsAt(c, net, events, p, i, target), net.nodes.Keys, target);
  }

  lemma ReachInNetwork(c: Crypto, net: Net, events: seq<NetEvent>, b: NodeID, start: nat, asked: map<NodeID, nat>,
      target: NodeID)
    requires StaysCovered(net, events) && b in net.nodes && start <= |events| && Moments(asked, net, 0, |events|)
    ensures Reach(SeedsAt(c, net, events, b, start, target), RepliesAt(c, net, events, asked, target), b)
      <= net.nodes.Keys - {b}
  {
    var inside, reply := net.nodes.Keys - {b}, RepliesAt(c, net, events, asked, target);
    ReplyInNetwork(c, net, events, b, start, target);
    forall p | p in inside && p in reply ensures reply[p] <= inside + {b} {
      CoveredAnswerAt(c, net, events, p, asked[p], target);
      ReplyInNetwork(c, net, events, p, asked[p], target);
    }
    ReachLeast(inside, SeedsAt(c, net, events, b, start, target), reply, b);
  }

  // What a lookup for a node teaches the table, whoever answers it, keeps the network covered.
  lemma LookupKeepsCoverage(c: Crypto, net: Net, events: seq<NetEvent>, b: NodeID, start: nat, asked: map<NodeID, nat>,
      target: NodeID, before: seq<TableOp>, log: seq<TableOp>)
    requires StaysCovered(net, events) && b in net.nodes && start <= |events| && Moments(asked, net, 0, |events|)
    requires Taught(before, log,
      Reach(SeedsAt(c, net, events, b, start, target), RepliesAt(c, net, events, asked, target), b),
      NodeAnswersAt(c, net, events, asked, target))
    ensures before <= log && StaysCovered(net, events + TableEvents(b, before, log))
  {
    var reach := Reach(SeedsAt(c, net, events, b, start, target), RepliesAt(c, net, events, asked, target), b);
    ReachInNetwork(c, net, events, b, start, asked, target);
    LessonsAmongReached(c, net, events, b, start, asked, target, before, log);
    LearnedKeepsCoverage(b, before, log, reach, net.nodes.Keys);
    var told := TableEvents(b, before, log);
    forall e | e in events + told ensures KeepsCoverage(e, net.nodes.Keys) {
      assert e in events || e in told;
    }
  }

  lemma LessonsAmongReached(c: Crypto, net: Net, events: seq<NetEvent>, b: NodeID, start: nat, asked: map<NodeID, nat>,
      target: NodeID, before: seq<TableOp>, log: seq<TableOp>)
    requires StaysCovered(net, events) && b in net.nodes && start <= |events| && Moments(asked, net, 0, |events|)
    requires Taught(before, log,
      Reach(SeedsAt(c, net, events, b, start, target), RepliesAt(c, net, events, asked, target), b),
      NodeAnswersAt(c, net, events, asked, target))
    ensures LearnedOnly(before, log,
      Reach(SeedsAt(c, net, events, b, start, target), RepliesAt(c, net, events, asked, target), b), b)
  {
    var seeds, reply := SeedsAt(c, net, events, b, start, target), RepliesAt(c, net, events, asked, target);
    var reach := Reach(seeds, reply, b);
    ReplyInNetwork(c, net, events, b, start, target);
    ReachClosed(seeds, reply, b);
    MergedBrought(reach, reach, reply, b);
    TaughtLearned(before, log, reach, NodeAnswersAt(c, net, events, asked, target), reach, b);
  }

  lemma LearnedKeepsCoverage(b: NodeID, before: seq<TableOp>, log: seq<TableOp>, ids: set<NodeID>,
      network: set<NodeID>)
    requires LearnedOnly(before, log, ids, b) && ids + {b} <= network
    ensures forall e | e in TableEvents(b, before, log) :: KeepsCoverage(e, network)
  {
    var told := TableEvents(b, before, log);
    forall e | e in told ensures KeepsCoverage(e, network) {
      var i :| 0 <= i < |told| && told[i] == e;
      assert e == AsEvent(b, log[|before| + i]);
      assert AddAmong(log[|before| + i], ids, b);
    }
  }

  // ----- Announcing -----

  // The nodes that an announcement by a, whose lookup starts at moment i, stores the record on.
  ghost function AnnouncedTo(c: Crypto, net: Net, events: seq<NetEvent>, a: NodeID, i: nat, asked: map<NodeID,
      nat>, target: NodeID): seq<NodeID>
    requires a in net.nodes && i <= |events| && Moments(asked, net, 0, |events|)
  {
    Top(Reach(SeedsAt(c, net, events, a, i, target), RepliesAt(c, net, events, asked, target), a), target, K)
  }

  // The K nodes nearest to the name are the announcer or among those announced to.
  lemma NearestAnnouncedTo(c: Crypto, net: Net, events: seq<NetEvent>, a: NodeID, i: nat, asked: map<NodeID,
      nat>, target: NodeID, x: NodeID)
    requires StaysCovered(net, events) && a in net.nodes && i <= |events|
    requires AllAsked(asked, a, net, 0, |events|)
    requires x in Top(net.nodes.Keys, target, K) && x != a
    ensures x in AnnouncedTo(c, net, events, a, i, asked, target)
  {
    AskedIsAnswered(c, net, events, a, i, asked, target);
    WantedReturned(a, SeedsAt(c, net, events, a, i, target), RepliesAt(c, net, events, asked, target),
      net.nodes.Keys, target, x);
  }

  // An announcement of rec by a, complete by moment done: a puts the record, its lookup runs,
  // and the record is sent to every node the lookup returns. A send that fails goes unnoticed;
  // sends has those that arrive, with their moments.
  datatype Announcement = Announcement(
    a: NodeID, put: nat, start: nat, asked: map<NodeID, nat>, sends: map<NodeID, nat>)

  ghost predicate AnnouncedBy(c: Crypto, net: Net, events: seq<NetEvent>, rec: Record, an: Announcement, done: nat) {
    && an.a in net.nodes && an.start <= |events| && done <= |events|
    && Moments(an.asked, net, 0, |events|)
    && an.put < done && Delivers(events, an.put, an.a, rec)
    && an.sends.Keys <= ToSet(AnnouncedTo(c, net, events, an.a, an.start, an.asked, c.recordId(rec.name)))
    && forall x | x in an.sends :: an.sends[x] < done && Delivers(events, an.sends[x], x, rec)
  }

  ghost predicate GivenTo(an: Announcement, x: NodeID) {
    x == an.a || x in an.sends
  }

  // One of the K nodes nearest to the name is given the record; the others may miss it.
  ghost predicate GivenToNearest(c: Crypto, net: Net, rec: Record, an: Announcement) {
    exists x :: x in Top(net.nodes.Keys, c.recordId(rec.name), K) && GivenTo(an, x)
  }

  // Everybody answers the announcer, and every send arrives.
  ghost predicate NothingLost(c: Crypto, net: Net, events: seq<NetEvent>, rec: Record, an: Announcement)
    requires an.a in net.nodes && an.start <= |events|
  {
    && AllAsked(an.asked, an.a, net, 0, |events|)
    && forall x | x in AnnouncedTo(c, net, events, an.a, an.start, an.asked, c.recordId(rec.name)) :: x in an.sends
  }

  // Whoever is given the record goes on holding it.
  lemma GivenHold(c: Crypto, net: Net, events: seq<NetEvent>, rec: Record, an: Announcement, done: nat,
      x: NodeID, j: nat)
    requires Undisturbed(c, net, events, rec) && x in net.nodes
    requires AnnouncedBy(c, net, events, rec, an, done) && done <= j <= |events|
    requires GivenTo(an, x)
    ensures HoldsRecord(NetAt(c, net, events, j), x, rec)
  {
    DeliveredStays(c, net, events, rec, x, if x == an.a then an.put else an.sends[x], j);
  }

  // If nothing is lost, after an announcement the K nodes nearest to the name hold the record,
  // and go on holding it.
  lemma NearestHold(c: Crypto, net: Net, events: seq<NetEvent>, rec: Record, an: Announcement, done: nat,
      x: NodeID, j: nat)
    requires StaysCovered(net, events) && Undisturbed(c, net, events, rec)
    requires AnnouncedBy(c, net, events, rec, an, done) && done <= j <= |events|
    requires NothingLost(c, net, events, rec, an)
    requires x == an.a || x in Top(net.nodes.Keys, c.recordId(rec.name), K)
    ensures GivenTo(an, x) && HoldsRecord(NetAt(c, net, events, j), x, rec)
  {
    TopSubset(net.nodes.Keys, c.recordId(rec.name), K);
    if x != an.a {
      NearestAnnouncedTo(c, net, events, an.a, an.start, an.asked, c.recordId(rec.name), x);
    }
    GivenHold(c, net, events, rec, an, done, x, j);
  }

  lemma NothingLostReachesNearest(c: Crypto, net: Net, events: seq<NetEvent>, rec: Record, an: Announcement)
    requires StaysCovered(net, events) && an.a in net.nodes && an.start <= |events|
    requires NothingLost(c, net, events, rec, an)
    ensures GivenToNearest(c, net, rec, an)
  {
    var x := NearestNode(net.nodes.Keys, c.recordId(rec.name));
    if x != an.a {
      NearestAnnouncedTo(c, net, events, an.a, an.start, an.asked, c.recordId(rec.name), x);
    }
    assert GivenTo(an, x);
  }

  // ----- Finding -----

  // A peer that holds the record answers with it; one that does not, with its nearest contacts.
  lemma HolderAnswers(c: Crypto, net: Net, events: seq<NetEvent>, rec: Record, p: NodeID, i: nat)
    requires Undisturbed(c, net, events, rec) && p in net.nodes && i <= |events|
    ensures HoldsRecord(NetAt(c, net, events, i), p, rec) ==>
      LocalAt(c, net, events, p, i, rec.name, rec.groupKey) == Some(rec)
    ensures var l := LocalAt(c, net, events, p, i, rec.name, rec.groupKey); l == None || l == Some(rec)
  {
    NodesStay(c, net, events, i);
    UnexpiredAt(c, net, events, rec, i);
    OnlyAt(c, net, events, rec, i);
  }

  // As long as no reachable peer has a record, a lookup for a value reaches what a lookup
  // for the node would.
  lemma ValueReachesSame(seeds: set<NodeID>, valueReply: Replies, reply: Replies, self: NodeID)
    requires self !in seeds
    requires forall p | p in Reach(seeds, valueReply, self) && p in reply :: reply[p] <= Follows(p, valueReply)
    ensures Reach(seeds, reply, self) <= Reach(seeds, valueReply, self)
  {
    var reach := Reach(seeds, valueReply, self);
    ReachClosed(seeds, valueReply, self);
    forall p | p in reach && p in reply ensures reply[p] <= reach + {self} {
      assert p in valueReply ==> valueReply[p] <= reach + {self};
    }
    ReachLeast(reach, seeds, reply, self);
  }

  ghost function Follows(p: NodeID, reply: Replies): set<NodeID> {
    if p in reply then reply[p] else {}
  }

  lemma NoRecordSameReplies(c: Crypto, net: Net, events: seq<NetEvent>, self: NodeID, asked: map<NodeID, nat>,
      name: string, groupKey: string, p: NodeID)
    requires Moments(asked, net, 0, |events|) && p in asked
    requires !AnswerAt(c, net, events, p, asked[p], name, groupKey).FoundValue?
    ensures IdSet(AllFromWire(NodeAnswerAt(c, net, events, p, asked[p], c.recordId(name))))
      == Follows(p, ValueReplies(ValueAnswersAt(c, net, events, asked, name, groupKey)))
  {
    NodesStay(c, net, events, asked[p]);
    var n := NetAt(c, net, events, asked[p]).nodes[p];
    if ClosestOf(n.buckets, c.recordId(name), K) == [] {
      assert FindNodeAnswer(n, c.recordId(name)) == [];
    }
  }

  ghost function ValueReachAt(c: Crypto, net: Net, events: seq<NetEvent>, b: NodeID, start: nat,
      asked: map<NodeID, nat>,
      name: string, groupKey: string): set<NodeID>
    requires b in net.nodes && start <= |events| && Moments(asked, net, 0, |events|)
  {
    Reach(SeedsAt(c, net, events, b, start, c.recordId(name)),
      ValueReplies(ValueAnswersAt(c, net, events, asked, name, groupKey)), b)
  }

  lemma SilentReplies(c: Crypto, net: Net, events: seq<NetEvent>, b: NodeID, start: nat, asked: map<NodeID, nat>,
      name: string, groupKey: string, p: NodeID)
    requires b in net.nodes && start <= |events| && Moments(asked, net, 0, |events|)
    requires !SomeRecord(ValueReachAt(c, net, events, b, start, asked, name, groupKey),
      ValueAnswersAt(c, net, events, asked, name, groupKey))
    requires p in ValueReachAt(c, net, events, b, start, asked, name, groupKey) && p in asked
    ensures RepliesAt(c, net, events, asked, c.recordId(name))[p]
      <= Follows(p, ValueReplies(ValueAnswersAt(c, net, events, asked, name, groupKey)))
  {
    NoRecordAnswered(ValueReachAt(c, net, events, b, start, asked, name, groupKey),
      ValueAnswersAt(c, net, events, asked, name, groupKey), p);
    NoRecordSameReplies(c, net, events, b, asked, name, groupKey, p);
  }

  lemma ValueReplyInNetwork(c: Crypto, net: Net, events: seq<NetEvent>, b: NodeID, asked: map<NodeID, nat>,
      name: string, groupKey: string, p: NodeID)
    requires StaysCovered(net, events) && Moments(asked, net, 0, |events|)
    requires p in ValueReplies(ValueAnswersAt(c, net, events, asked, name, groupKey))
    ensures ValueReplies(ValueAnswersAt(c, net, events, asked, name, groupKey))[p] <= net.nodes.Keys
  {
    NoRecordSameReplies(c, net, events, b, asked, name, groupKey, p);
    CoveredAnswerAt(c, net, events, p, asked[p], c.recordId(name));
    ReplyInNetwork(c, net, events, p, asked[p], c.recordId(name));
  }

  lemma ValueReachInNetwork(c: Crypto, net: Net, events: seq<NetEvent>, b: NodeID, start: nat, asked: map<NodeID, nat>,
      name: string, groupKey: string)
    requires StaysCovered(net, events) && b in net.nodes && start <= |events| && Moments(asked, net, 0, |events|)
    ensures ValueReachAt(c, net, events, b, start, asked, name, groupKey) <= net.nodes.Keys - {b}
  {
    var inside, reply := net.nodes.Keys - {b}, ValueReplies(ValueAnswersAt(c, net, events, asked, name, groupKey));
    ReplyInNetwork(c, net, events, b, start, c.recordId(name));
    forall p | p in inside && p in reply ensures reply[p] <= inside + {b} {
      ValueReplyInNetwork(c, net, events, b, asked, name, groupKey, p);
    }
    ReachLeast(inside, SeedsAt(c, net, events, b, start, c.recordId(name)), reply, b);
  }

  // When all peers answer, a lookup for a value makes the table forget nobody.
  lemma ValueLookupForgetsNobody(c: Crypto, net: Net, events: seq<NetEvent>, b: NodeID, start: nat,
      asked: map<NodeID, nat>, name: string, groupKey: string, before: seq<TableOp>, log: seq<TableOp>)
    requires StaysCovered(net, events) && b in net.nodes && start <= |events| && AllAsked(asked, b, net, 0, |events|)
    requires ForgotOnly(before, log, ValueReachAt(c, net, events, b, start, asked, name, groupKey),
      ValueAnswersAt(c, net, events, asked, name, groupKey))
    ensures log == before
  {
    var reach, peers := ValueReachAt(c, net, events, b, start, asked, name, groupKey),
      ValueAnswersAt(c, net, events, asked, name, groupKey);
    ValueReachInNetwork(c, net, events, b, start, asked, name, groupKey);
    NobodyForgotten(before, log, reach, peers);
  }

  // A lookup for a value that meets no record reaches the K nodes nearest to the name.
  lemma SilentLookupReaches(c: Crypto, net: Net, events: seq<NetEvent>, b: NodeID, start: nat, asked: map<NodeID, nat>,
      name: string, groupKey: string, x: NodeID)
    requires StaysCovered(net, events) && b in net.nodes && start <= |events| && AllAsked(asked, b, net, 0, |events|)
    requires !SomeRecord(ValueReachAt(c, net, events, b, start, asked, name, groupKey),
      ValueAnswersAt(c, net, events, asked, name, groupKey))
    requires x in Top(net.nodes.Keys, c.recordId(name), K) && x != b
    ensures x in ValueReachAt(c, net, events, b, start, asked, name, groupKey)
  {
    var target, network := c.recordId(name), net.nodes.Keys;
    var seeds, reply := SeedsAt(c, net, events, b, start, target), RepliesAt(c, net, events, asked, target);
    var valueReply := ValueReplies(ValueAnswersAt(c, net, events, asked, name, groupKey));
    AskedIsAnswered(c, net, events, b, start, asked, target);
    FoundInside(b, seeds, reply, network, target);
    forall p | p in Reach(seeds, valueReply, b) && p in reply ensures reply[p] <= Follows(p, valueReply) {
      SilentReplies(c, net, events, b, start, asked, name, groupKey, p);
    }
    ValueReachesSame(seeds, valueReply, reply, b);
    WantedReturned(b, seeds, reply, network, target, x);
  }

  // A lookup for the name by a node b that has no record of its own reaches a holder.
  lemma SomebodyHasIt(c: Crypto, net: Net, events: seq<NetEvent>, rec: Record, an: Announcement, done: nat,
      b: NodeID, start: nat, asked: map<NodeID, nat>)
    requires StaysCovered(net, events) && Undisturbed(c, net, events, rec)
    requires AnnouncedBy(c, net, events, rec, an, done) && GivenToNearest(c, net, rec, an)
    requires b in net.nodes && done <= start <= |events| && AllAsked(asked, b, net, done, |events|)
    requires !HoldsRecord(NetAt(c, net, events, start), b, rec)
    ensures SomeRecord(ValueReachAt(c, net, events, b, start, asked, rec.name, rec.groupKey),
      ValueAnswersAt(c, net, events, asked, rec.name, rec.groupKey))
  {
    var x :| x in Top(net.nodes.Keys, c.recordId(rec.name), K) && GivenTo(an, x);
    TopSubset(net.nodes.Keys, c.recordId(rec.name), K);
    GivenHold(c, net, events, rec, an, done, x, start);
    GivenIsHeard(c, net, events, rec, an, done, b, asked, x);
    if !SomeRecord(ValueReachAt(c, net, events, b, start, asked, rec.name, rec.groupKey),
        ValueAnswersAt(c, net, events, asked, rec.name, rec.groupKey)) {
      SilentLookupReaches(c, net, events, b, start, asked, rec.name, rec.groupKey, x);
    }
  }

  // Asked after the announcement, whoever was given the record answers with it.
  lemma GivenIsHeard(c: Crypto, net: Net, events: seq<NetEvent>, rec: Record, an: Announcement, done: nat,
      b: NodeID, asked: map<NodeID, nat>, x: NodeID)
    requires Undisturbed(c, net, events, rec) && AnnouncedBy(c, net, events, rec, an, done)
    requires AllAsked(asked, b, net, done, |events|) && x in net.nodes && x != b && GivenTo(an, x)
    ensures HasRecord(x, rec, ValueAnswersAt(c, net, events, asked, rec.name, rec.groupKey))
  {
    assert x in asked.Keys;
    GivenHold(c, net, events, rec, an, done, x, asked[x]);
    HolderIsHeard(c, net, events, rec, asked, x);
  }

  lemma HolderIsHeard(c: Crypto, net: Net, events: seq<NetEvent>, rec: Record, asked: map<NodeID, nat>, x: NodeID)
    requires Undisturbed(c, net, events, rec) && Moments(asked, net, 0, |events|) && x in asked
    requires HoldsRecord(NetAt(c, net, events, asked[x]), x, rec)
    ensures HasRecord(x, rec, ValueAnswersAt(c, net, events, asked, rec.name, rec.groupKey))
  {
    HolderAnswers(c, net, events, rec, x, asked[x]);
    AnswerIsLocal(c, net, events, x, asked[x], rec.name, rec.groupKey, rec);
  }

  lemma NoRecordAnswered(reach: set<NodeID>, peers: ValueAnswers, p: NodeID)
    requires !SomeRecord(reach, peers) && p in reach && p in peers
    ensures !peers[p].FoundValue?
  {
    if peers[p].FoundValue? {
      assert HasRecord(p, peers[p].record, peers);
    }
  }

  lemma NearestNode(network: set<NodeID>, target: NodeID) returns (x: NodeID)
    requires network != {}
    ensures x in Top(network, target, K)
  {
    x := Sorted(network, target)[0];
    assert Top(network, target, K)[0] == x;
  }

  // A lookup for the record's name and group by b.
  ghost function SearchFor(c: Crypto, net: Net, events: seq<NetEvent>, rec: Record, b: NodeID, start: nat,
      asked: map<NodeID, nat>, choose: nat -> Choice): Search
    requires b in net.nodes && start <= |events| && Moments(asked, net, 0, |events|)
  {
    Search(b, c.recordId(rec.name), SeedsAt(c, net, events, b, start, c.recordId(rec.name)),
      ValueAnswersAt(c, net, events, asked, rec.name, rec.groupKey), choose)
  }

  // End to end: in a covered network, after a node has announced a name that nobody held and
  // the record has arrived at one of the K nodes nearest to the name, every lookup for it by
  // any other node with the record's group key returns that record until it expires:
  // provided nothing else is put under the name and nobody deletes it, all peers answer in
  // time, and a record that comes in is not passed over. Meanwhile tables may learn
  // contacts, other names may come and go, and cleanups may run at any time.
  lemma AnnouncedNameIsFound(c: Crypto, net: Net, events: seq<NetEvent>, rec: Record, an: Announcement, done: nat,
      b: NodeID, start: nat, asked: map<NodeID, nat>, choose: nat -> Choice, result: LookupResult)
    requires StaysCovered(net, events) && Undisturbed(c, net, events, rec)
    requires AnnouncedBy(c, net, events, rec, an, done) && GivenToNearest(c, net, rec, an)
    requires b in net.nodes && b != an.a && done <= start <= |events| && AllAsked(asked, b, net, done, |events|)
    requires AlwaysTakes(choose)
    requires ValueOutcome(LocalAt(c, net, events, b, start, rec.name, rec.groupKey),
      SearchFor(c, net, events, rec, b, start, asked, choose), result)
    ensures result == Value(rec)
  {
    HolderAnswers(c, net, events, rec, b, start);
    if LocalAt(c, net, events, b, start, rec.name, rec.groupKey) == None {
      SomebodyHasIt(c, net, events, rec, an, done, b, start, asked);
      SearchFinds(c, net, events, rec, b, start, asked, choose, result);
    }
  }

  // A search that can reach a record of the name returns it.
  lemma SearchFinds(c: Crypto, net: Net, events: seq<NetEvent>, rec: Record, b: NodeID, start: nat,
      asked: map<NodeID, nat>, choose: nat -> Choice, result: LookupResult)
    requires StaysCovered(net, events) && Undisturbed(c, net, events, rec) && AlwaysTakes(choose)
    requires b in net.nodes && start <= |events| && AllAsked(asked, b, net, 0, |events|)
    requires ValueOutcome(None, SearchFor(c, net, events, rec, b, start, asked, choose), result)
    requires SomeRecord(ValueReachAt(c, net, events, b, start, asked, rec.name, rec.groupKey),
      ValueAnswersAt(c, net, events, asked, rec.name, rec.groupKey))
    ensures result == Value(rec)
  {
    var q := SearchFor(c, net, events, rec, b, start, asked, choose);
    SeedsNotEmpty(q.seeds, q.peers, b);
    SeedsElsewhere(c, net, events, b, start, asked, q.target);
    AlwaysTaken(q, result);
    var p := OutcomeSource(None, q, result.record);
    HolderAnswers(c, net, events, rec, p, asked[p]);
    AnswerIsLocal(c, net, events, p, asked[p], rec.name, rec.groupKey, result.record);
  }

  lemma SeedsElsewhere(c: Crypto, net: Net, events: seq<NetEvent>, b: NodeID, start: nat, asked: map<NodeID, nat>,
      target: NodeID)
    requires StaysCovered(net, events) && b in net.nodes && start <= |events| && AllAsked(asked, b, net, 0, |events|)
    ensures b !in SeedsAt(c, net, events, b, start, target)
  {
    AskedIsAnswered(c, net, events, b, start, asked, target);
    FoundInside(b, SeedsAt(c, net, events, b, start, target), RepliesAt(c, net, events, asked, target),
      net.nodes.Keys, target);
  }

  lemma SeedsNotEmpty(seeds: set<NodeID>, peers: ValueAnswers, self: NodeID)
    requires SomeRecord(Reach(seeds, ValueReplies(peers), self), peers)
    ensures seeds != {}
  {
    if seeds == {} {
      ReachLeast({}, seeds, ValueReplies(peers), self);
    }
  }

  lemma ExpiredIsSilent(c: Crypto, net: Net, events: seq<NetEvent>, rec: Record, groupKey: string, p: NodeID,
      start: nat, i: nat)
    requires LeftAlone(net, events, rec) && p in net.nodes && start <= i <= |events|
    requires IsExpired(rec, NetAt(c, net, events, start).now)
    ensures LocalAt(c, net, events, p, i, rec.name, groupKey) == None
  {
    NodesStay(c, net, events, i);
    OnlyAt(c, net, events, rec, i);
    ClockAdvances(c, net, events, start, i);
    assert rec.name in NetAt(c, net, events, i).nodes[p].records ==> HoldsRecord(NetAt(c, net, events, i), p, rec);
  }

  // And no longer: once the record has expired no lookup by anybody returns anything under
  // the name, however often the same record has been announced again.
  lemma ExpiredNameIsLost(c: Crypto, net: Net, events: seq<NetEvent>, rec: Record, groupKey: string,
      b: NodeID, start: nat, asked: map<NodeID, nat>, seeds: set<NodeID>, choose: nat -> Choice, result: LookupResult)
    requires LeftAlone(net, events, rec)
    requires b in net.nodes && start <= |events| && Moments(asked, net, start, |events|)
    requires IsExpired(rec, NetAt(c, net, events, start).now)
    requires ValueOutcome(LocalAt(c, net, events, b, start, rec.name, groupKey),
      Search(b, c.recordId(rec.name), seeds, ValueAnswersAt(c, net, events, asked, rec.name, groupKey), choose), result)
    ensures !result.Value?
  {
    if result.Value? {
      var local := LocalAt(c, net, events, b, start, rec.name, groupKey);
      var peers := ValueAnswersAt(c, net, events, asked, rec.name, groupKey);
      ExpiredIsSilent(c, net, events, rec, groupKey, b, start, start);
      var p := OutcomeSource(local, Search(b, c.recordId(rec.name), seeds, peers, choose), result.record);
      ExpiredIsSilent(c, net, events, rec, groupKey, p, start, asked[p]);
      AnswerIsLocal(c, net, events, p, asked[p], rec.name, groupKey, result.record);
    }
  }
}
