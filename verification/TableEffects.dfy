// What lookups do to the routing table of the node that runs them.
module TableEffects {
  import opened Contacts
  import opened Lookups
  import opened NodeIds
  import opened Nodes
  import opened Ranking
  import opened RoutingTables

  // ----- What a lookup for a node teaches -----

  // The table has since been told only of contacts that have an address and are among ids,
  // or are the node itself.
  ghost predicate LearnedOnly(before: seq<TableOp>, log: seq<TableOp>, ids: set<NodeID>, self: NodeID) {
    before <= log && forall i | |before| <= i < |log| :: AddAmong(log[i], ids, self)
  }

  ghost predicate AddAmong(op: TableOp, ids: set<NodeID>, self: NodeID) {
    op.Add? && op.contact.address.Some? && (op.contact.id == self || op.contact.id in ids)
  }

  lemma {:induction false} ParsedAddresses(infos: seq<ContactInfo>)
    ensures forall x | x in AllFromWire(infos) :: x.address.Some?
  {
    if infos != [] {
      ParsedAddresses(infos[..|infos| - 1]);
    }
  }

  // Each of these IDs is listed once.
  ghost predicate Once(order: seq<NodeID>, ids: set<NodeID>) {
    ToSet(order) == ids && forall i, j | 0 <= i < j < |order| :: order[i] != order[j]
  }

  lemma OnceMore(order: seq<NodeID>, ids: set<NodeID>, p: NodeID)
    requires Once(order, ids) && p !in ids
    ensures Once(order + [p], ids + {p})
  {
    assert forall i | 0 <= i < |order| :: order[i] in ToSet(order);
  }

  lemma OnceBoth(order: seq<NodeID>, ids: set<NodeID>, more: seq<NodeID>, others: set<NodeID>)
    requires Once(order, ids) && Once(more, others) && ids !! others
    ensures Once(order + more, ids + others)
  {
    assert forall i | 0 <= i < |order| :: order[i] in ToSet(order);
    assert forall i | 0 <= i < |more| :: more[i] in ToSet(more);
    assert ToSet(order + more) == ToSet(order) + ToSet(more);
  }

  function AddAll(cs: seq<Contact>): (ops: seq<TableOp>)
    ensures |ops| == |cs| && forall i | 0 <= i < |cs| :: ops[i] == TableOp.Add(cs[i])
  {
    seq(|cs|, i requires 0 <= i < |cs| => TableOp.Add(cs[i]))
  }

  // What the answer of one peer teaches: every contact it names, in its order.
  function Lesson(p: NodeID, peers: NodeAnswers): seq<TableOp> {
    if p in peers then AddAll(AllFromWire(peers[p])) else []
  }

  function Lessons(order: seq<NodeID>, peers: NodeAnswers): seq<TableOp>
    decreases |order|
  {
    if order == [] then [] else Lessons(order[..|order| - 1], peers) + Lesson(order[|order| - 1], peers)
  }

  lemma LessonsMore(order: seq<NodeID>, p: NodeID, peers: NodeAnswers)
    ensures Lessons(order + [p], peers) == Lessons(order, peers) + Lesson(p, peers)
  {
    assert (order + [p])[..|order|] == order;
  }

  lemma Regroup<T>(a: seq<T>, b: seq<T>, c: seq<T>)
    ensures a + (b + c) == (a + b) + c
  {
  }

  lemma LessonsStep(order: seq<NodeID>, front: seq<NodeID>, p: NodeID, peers: NodeAnswers)
    requires Lessons(order + front, peers) == Lessons(order, peers) + Lessons(front, peers)
    ensures Lessons(order + (front + [p]), peers) == Lessons(order, peers) + Lessons(front + [p], peers)
  {
    LessonsMore(order + front, p, peers);
    LessonsMore(front, p, peers);
    Regroup(order, front, [p]);
    Regroup(Lessons(order, peers), Lessons(front, peers), Lesson(p, peers));
  }

  lemma {:induction false} LessonsBoth(order: seq<NodeID>, more: seq<NodeID>, peers: NodeAnswers)
    ensures Lessons(order + more, peers) == Lessons(order, peers) + Lessons(more, peers)
    decreases |more|
  {
    if more == [] {
      assert order + more == order;
    } else {
      var front := more[..|more| - 1];
      LessonsBoth(order, front, peers);
      LessonsStep(order, front, more[|more| - 1], peers);
      assert more == front + [more[|more| - 1]];
    }
  }

  // The table has since been taught, by each of these peers once and in some order, all that
  // they answered, and nothing else.
  ghost predicate Taught(before: seq<TableOp>, log: seq<TableOp>, ids: set<NodeID>, peers: NodeAnswers) {
    exists order :: TaughtInOrder(order, before, log, ids, peers)
  }

  ghost predicate TaughtInOrder(order: seq<NodeID>, before: seq<TableOp>, log: seq<TableOp>, ids: set<NodeID>,
      peers: NodeAnswers)
  {
    Once(order, ids) && log == before + Lessons(order, peers)
  }

  lemma TaughtNothing(log: seq<TableOp>, peers: NodeAnswers)
    ensures Taught(log, log, {}, peers)
  {
    assert TaughtInOrder([], log, log, {}, peers);
  }

  lemma TaughtMore(a: seq<TableOp>, b: seq<TableOp>, d: seq<TableOp>, ids: set<NodeID>, p: NodeID, peers: NodeAnswers)
    requires Taught(a, b, ids, peers) && p !in ids && d == b + Lesson(p, peers)
    ensures Taught(a, d, ids + {p}, peers)
  {
    var order :| TaughtInOrder(order, a, b, ids, peers);
    OnceMore(order, ids, p);
    LessonsMore(order, p, peers);
    Regroup(a, Lessons(order, peers), Lesson(p, peers));
    assert TaughtInOrder(order + [p], a, d, ids + {p}, peers);
  }

  lemma TaughtChain(a: seq<TableOp>, b: seq<TableOp>, d: seq<TableOp>, ids: set<NodeID>, others: set<NodeID>,
      peers: NodeAnswers)
    requires Taught(a, b, ids, peers) && Taught(b, d, others, peers) && ids !! others
    ensures Taught(a, d, ids + others, peers)
  {
    var order :| TaughtInOrder(order, a, b, ids, peers);
    var more :| TaughtInOrder(more, b, d, others, peers);
    OnceBoth(order, ids, more, others);
    LessonsBoth(order, more, peers);
    Regroup(a, Lessons(order, peers), Lessons(more, peers));
    assert TaughtInOrder(order + more, a, d, ids + others, peers);
  }

  // One of these peers answered, and named the contact.
  ghost predicate NamedBy(x: Contact, ids: set<NodeID>, peers: NodeAnswers) {
    exists p :: Names(p, x, ids, peers)
  }

  ghost predicate Names(p: NodeID, x: Contact, ids: set<NodeID>, peers: NodeAnswers) {
    p in ids && p in peers && x in AllFromWire(peers[p])
  }

  lemma NamedByOneMore(x: Contact, ids: set<NodeID>, p: NodeID, peers: NodeAnswers)
    ensures NamedBy(x, ids + {p}, peers) <==> NamedBy(x, ids, peers) || Names(p, x, {p}, peers)
  {
    if NamedBy(x, ids, peers) {
      var r :| Names(r, x, ids, peers);
      assert Names(r, x, ids + {p}, peers);
    }
    if Names(p, x, {p}, peers) {
      assert Names(p, x, ids + {p}, peers);
    }
    if NamedBy(x, ids + {p}, peers) {
      var r :| Names(r, x, ids + {p}, peers);
      assert r != p ==> Names(r, x, ids, peers);
    }
  }

  lemma {:induction false} InLessons(order: seq<NodeID>, peers: NodeAnswers, op: TableOp)
    ensures op in Lessons(order, peers) <==> op.Add? && NamedBy(op.contact, ToSet(order), peers)
    decreases |order|
  {
    if order != [] {
      var front, p := order[..|order| - 1], order[|order| - 1];
      assert order == front + [p];
      InLessons(front, peers, op);
      InLesson(p, peers, op);
      assert ToSet(order) == ToSet(front) + {p};
      if op.Add? {
        NamedByOneMore(op.contact, ToSet(front), p, peers);
      }
    }
  }

  lemma InLesson(p: NodeID, peers: NodeAnswers, op: TableOp)
    ensures op in Lesson(p, peers) <==> op.Add? && p in peers && op.contact in AllFromWire(peers[p])
  {
    if op.Add? && p in peers && op.contact in AllFromWire(peers[p]) {
      var cs := AllFromWire(peers[p]);
      var i :| 0 <= i < |cs| && cs[i] == op.contact;
      assert AddAll(cs)[i] == op;
    }
  }

  // What is in the log since, one operation at a time.
  lemma TaughtOps(before: seq<TableOp>, log: seq<TableOp>, ids: set<NodeID>, peers: NodeAnswers)
    requires Taught(before, log, ids, peers)
    ensures before <= log
    ensures forall op :: op in log[|before|..] <==> op.Add? && NamedBy(op.contact, ids, peers)
  {
    var order :| TaughtInOrder(order, before, log, ids, peers);
    assert log[|before|..] == Lessons(order, peers);
    forall op ensures op in log[|before|..] <==> op.Add? && NamedBy(op.contact, ids, peers) {
      InLessons(order, peers, op);
    }
  }

  lemma AddsAfter(self: NodeID, before: seq<TableOp>, ops: seq<TableOp>)
    requires forall op | op in ops :: op.Add?
    ensures TableIds(RoutingTables.Run(self, before)) <= TableIds(RoutingTables.Run(self, before + ops))
    ensures forall op | op in ops :: InOrFull(self, RoutingTables.Run(self, before + ops), op.contact.id)
  {
    RunSplit(self, NoContacts(), before, ops);
    RunWellFormed(self, NoContacts(), before);
    AddsTable(self, RoutingTables.Run(self, before), ops);
  }

  // The table is told of everybody whom these peers name. So afterwards it has, besides
  // those it had, everybody named whose bucket is not full.
  lemma TaughtTable(self: NodeID, before: seq<TableOp>, log: seq<TableOp>, ids: set<NodeID>, peers: NodeAnswers)
    requires Taught(before, log, ids, peers)
    ensures before <= log
    ensures forall x | NamedBy(x, ids, peers) ::
      TableOp.Add(x) in log[|before|..] && InOrFull(self, RoutingTables.Run(self, log), x.id)
    ensures TableIds(RoutingTables.Run(self, before)) <= TableIds(RoutingTables.Run(self, log))
  {
    TaughtOps(before, log, ids, peers);
    var ops := log[|before|..];
    assert log == before + ops;
    AddsAfter(self, before, ops);
    forall x | NamedBy(x, ids, peers) ensures InOrFull(self, RoutingTables.Run(self, log), x.id) {
      assert TableOp.Add(x) in ops;
    }
  }

  lemma TaughtLearned(before: seq<TableOp>, log: seq<TableOp>, ids: set<NodeID>, peers: NodeAnswers,
      known: set<NodeID>, self: NodeID)
    requires Taught(before, log, ids, peers) && Brought(ids, NodeReplies(peers), self) <= known
    ensures LearnedOnly(before, log, known, self)
  {
    TaughtOps(before, log, ids, peers);
    forall i | |before| <= i < |log| ensures AddAmong(log[i], known, self) {
      assert log[i] in log[|before|..];
      var p :| Names(p, log[i].contact, ids, peers);
      ParsedAddresses(peers[p]);
      assert log[i].contact.id in NodeReplies(peers)[p];
    }
  }

  // ----- What a lookup for a node returns -----

  // Each contact was known before or was named by one of these peers.
  ghost predicate Sourced(cs: seq<Contact>, known: seq<Contact>, ids: set<NodeID>, peers: NodeAnswers) {
    forall c | c in cs :: c in known || NamedBy(c, ids, peers)
  }

  lemma SourcedMore(before: seq<Contact>, known: seq<Contact>, cs: seq<Contact>, ids: set<NodeID>, more: set<NodeID>,
      peers: NodeAnswers)
    requires Sourced(before, known, ids, peers) && Sourced(cs, before, more, peers)
    ensures Sourced(cs, known, ids + more, peers)
  {
    forall c | c in cs && c !in known ensures NamedBy(c, ids + more, peers) {
      if NamedBy(c, ids, peers) {
        var p :| Names(p, c, ids, peers);
        assert Names(p, c, ids + more, peers);
      } else {
        assert c in before ==> c in known || NamedBy(c, ids, peers);
        var p :| Names(p, c, more, peers);
        assert Names(p, c, ids + more, peers);
      }
    }
  }

  // What the answers of these peers have led to: candidates, and a table log.
  ghost predicate Gathered(known: seq<Contact>, cs: seq<Contact>, before: seq<TableOp>, log: seq<TableOp>,
      ids: set<NodeID>, peers: NodeAnswers)
  {
    Sourced(cs, known, ids, peers) && Taught(before, log, ids, peers)
  }

  lemma GatheredNothing(known: seq<Contact>, log: seq<TableOp>, peers: NodeAnswers)
    ensures Gathered(known, known, log, log, {}, peers)
  {
    TaughtNothing(log, peers);
  }

  lemma GatheredMore(known: seq<Contact>, cs: seq<Contact>, more: seq<Contact>, before: seq<TableOp>,
      log: seq<TableOp>, ids: set<NodeID>, p: NodeID, peers: NodeAnswers)
    requires Gathered(known, cs, before, log, ids, peers) && p !in ids && Sourced(more, cs, {p}, peers)
    ensures Gathered(known, more, before, log + Lesson(p, peers), ids + {p}, peers)
  {
    SourcedMore(cs, known, more, ids, {p}, peers);
    TaughtMore(before, log, log + Lesson(p, peers), ids, p, peers);
  }

  lemma GatheredChain(known: seq<Contact>, cs: seq<Contact>, more: seq<Contact>, a: seq<TableOp>, b: seq<TableOp>,
      d: seq<TableOp>, ids: set<NodeID>, others: set<NodeID>, peers: NodeAnswers)
    requires Gathered(known, cs, a, b, ids, peers) && Gathered(cs, more, b, d, others, peers) && ids !! others
    ensures Gathered(known, more, a, d, ids + others, peers)
  {
    SourcedMore(cs, known, more, ids, others, peers);
    TaughtChain(a, b, d, ids, others, peers);
  }

  ghost function LookupReach(self: NodeID, b: Buckets, target: NodeID, peers: NodeAnswers): set<NodeID> {
    Reach(ToSet(Top(TableIds(b), target, K)), NodeReplies(peers), self)
  }

  // What a lookup for a node returns: the K nearest of the IDs it can reach, each with an
  // address from the table or from an answer.
  ghost predicate LookedUp(self: NodeID, b: Buckets, target: NodeID, peers: NodeAnswers, result: seq<Contact>) {
    var reach := LookupReach(self, b, target, peers);
    IdsOf(result) == Top(reach, target, K) && forall c | c in result :: Holds(b, c) || NamedBy(c, reach, peers)
  }

  // What it teaches the table: all that those it can reach answer, and nothing else.
  ghost predicate LookupTaught(self: NodeID, b: Buckets, target: NodeID, peers: NodeAnswers, before: seq<TableOp>,
      log: seq<TableOp>)
  {
    Taught(before, log, LookupReach(self, b, target, peers), peers)
  }

  // ----- What a lookup for a value drops -----

  // The table has since only dropped peers of these that failed.
  ghost predicate ForgotOnly(before: seq<TableOp>, log: seq<TableOp>, ids: set<NodeID>, peers: ValueAnswers) {
    before <= log && forall i | |before| <= i < |log| :: DropsFailed(log[i], ids, peers)
  }

  ghost predicate DropsFailed(op: TableOp, ids: set<NodeID>, peers: ValueAnswers) {
    op.Remove? && op.id in ids && op.id !in peers
  }

  function Drop(p: NodeID, peers: ValueAnswers): seq<TableOp> {
    if p in peers then [] else [TableOp.Remove(p)]
  }

  // The table has since dropped each of these peers that failed, and done nothing else.
  ghost predicate Dropped(before: seq<TableOp>, log: seq<TableOp>, ids: set<NodeID>, peers: ValueAnswers) {
    && ForgotOnly(before, log, ids, peers)
    && forall p | p in ids && p !in peers :: TableOp.Remove(p) in log[|before|..]
  }

  lemma DroppedMore(a: seq<TableOp>, b: seq<TableOp>, d: seq<TableOp>, ids: set<NodeID>, p: NodeID,
      peers: ValueAnswers)
    requires Dropped(a, b, ids, peers) && d == b + Drop(p, peers)
    ensures Dropped(a, d, ids + {p}, peers)
  {
    assert d[|b|..] == Drop(p, peers);
    DroppedChain(a, b, d, ids, {p}, peers);
  }

  lemma DroppedChain(a: seq<TableOp>, b: seq<TableOp>, d: seq<TableOp>, ids: set<NodeID>, others: set<NodeID>,
      peers: ValueAnswers)
    requires Dropped(a, b, ids, peers) && Dropped(b, d, others, peers)
    ensures Dropped(a, d, ids + others, peers)
  {
    assert d[|a|..] == b[|a|..] + d[|b|..];
    forall i | |a| <= i < |d| ensures DropsFailed(d[i], ids + others, peers) {
      if i < |b| {
        assert DropsFailed(b[i], ids, peers) && d[i] == b[i];
      } else {
        assert DropsFailed(d[i], others, peers);
      }
    }
  }

  // Afterwards the peers of these that failed are out of the table, and all others still in.
  lemma DroppedTable(self: NodeID, before: seq<TableOp>, log: seq<TableOp>, ids: set<NodeID>, peers: ValueAnswers)
    requires Dropped(before, log, ids, peers)
    ensures Forgotten(RoutingTables.Run(self, before), RoutingTables.Run(self, log), ids - peers.Keys)
    ensures TableIds(RoutingTables.Run(self, log)) == TableIds(RoutingTables.Run(self, before)) - (ids - peers.Keys)
  {
    var ops := log[|before|..];
    assert log == before + ops;
    RunSplit(self, NoContacts(), before, ops);
    RunWellFormed(self, NoContacts(), before);
    forall op | op in ops ensures op.Remove? && op.id in ids - peers.Keys {
      var i :| 0 <= i < |ops| && ops[i] == op;
      assert DropsFailed(log[|before| + i], ids, peers);
    }
    RemovesTable(self, RoutingTables.Run(self, before), ops, ids - peers.Keys);
    ForgottenIds(RoutingTables.Run(self, before), RoutingTables.Run(self, log), ids - peers.Keys);
  }

  // Where all peers answer, none is forgotten.
  lemma NobodyForgotten(before: seq<TableOp>, log: seq<TableOp>, ids: set<NodeID>, peers: ValueAnswers)
    requires ForgotOnly(before, log, ids, peers) && ids <= peers.Keys
    ensures log == before
  {
    assert |before| < |log| ==> DropsFailed(log[|before|], ids, peers);
  }
}
