// The search that a lookup for a value runs: its rounds and its exact outcomes.
module Searches {
  import opened Lookups
  import opened NodeIds
  import opened Nodes
  import opened Ranking
  import opened RoutingTables
  import opened Stores
  import opened TableEffects
  import opened Wrappers

  // ----- Outcomes -----

  // At each round's end a lookup for a value selects among what is ready: it may take a
  // record that came in, take the end of the round although a record came in too, or have
  // run into the time limit.
  datatype Choice = TakeRecord | TakeDone | TimeOut

  datatype LookupResult = Value(record: Record) | NoKnownNodes | Missing

  ghost predicate HasRecord(p: NodeID, r: Record, peers: ValueAnswers) {
    p in peers && peers[p] == FoundValue(r)
  }

  ghost predicate SomeRecord(among: set<NodeID>, peers: ValueAnswers) {
    exists p, r :: p in among && HasRecord(p, r, peers)
  }

  // A search for a value: who searches for which target, from which candidates, what the
  // peers would answer, and what the select at the end of each round picks.
  datatype Search = Search(self: NodeID, target: NodeID, seeds: set<NodeID>, peers: ValueAnswers, choose: nat -> Choice)

  // Where the rounds would stand if none of the first n ended the search.
  ghost function After(q: Search, n: nat): Progress {
    Rounds(n, q.seeds, q.target, ValueReplies(q.peers), q.self)
  }

  ghost function AskedIn(q: Search, n: nat): set<NodeID> {
    ToSet(Batch(After(q, n), q.target))
  }

  ghost function ReachOf(q: Search): set<NodeID> {
    Reach(q.seeds, ValueReplies(q.peers), q.self)
  }

  // In round n a record comes in and is taken.
  ghost predicate Takes(q: Search, n: nat) {
    q.choose(n) == TakeRecord && SomeRecord(AskedIn(q, n), q.peers)
  }

  // Round n is the one that takes a record: no round before it does, or runs out of time.
  ghost predicate TakesFirst(q: Search, n: nat) {
    Takes(q, n) && GoesOn(q, n)
  }

  ghost predicate GoesOn(q: Search, n: nat) {
    forall m: nat | m < n :: !Stops(q, m)
  }

  ghost predicate Stops(q: Search, n: nat) {
    Takes(q, n) || q.choose(n) == TimeOut
  }

  // The exact outcomes of a search: any record that a peer asked in the taking round answered
  // with, if there is such a round, and otherwise none.
  ghost predicate SearchOutcome(q: Search, result: LookupResult) {
    match result
    case Value(r) => exists n: nat :: TakesFirst(q, n) && AnsweredIn(q, n, r)
    case Missing => forall n: nat :: !TakesFirst(q, n)
    case NoKnownNodes => false
  }

  ghost predicate AnsweredIn(q: Search, n: nat, r: Record) {
    exists p :: p in AskedIn(q, n) && HasRecord(p, r, q.peers)
  }

  // What a lookup for a value may return: the local record if there is one, otherwise the
  // outcome of a search from the nearest known nodes.
  ghost predicate ValueOutcome(local: Option<Record>, q: Search, result: LookupResult) {
    if local.Some? then result == Value(local.value)
    else if q.seeds == {} then result == NoKnownNodes
    else SearchOutcome(q, result)
  }

  // A returned record is the local one or what some peer answered with.
  lemma OutcomeSource(local: Option<Record>, q: Search, r: Record) returns (p: NodeID)
    requires ValueOutcome(local, q, Value(r))
    ensures local == Some(r) || (local == None && HasRecord(p, r, q.peers))
    ensures local == None && q.self !in q.seeds ==> p in ReachOf(q)
  {
    p := q.self;
    if local == None {
      var n: nat :| TakesFirst(q, n) && AnsweredIn(q, n, r);
      p :| p in AskedIn(q, n) && HasRecord(p, r, q.peers);
      if q.self !in q.seeds {
        AskedAreReached(q, n);
      }
    }
  }

  lemma AskedAreReached(q: Search, n: nat)
    requires q.self !in q.seeds
    ensures AskedIn(q, n) <= ReachOf(q)
  {
    RoundsReach(n, q.seeds, q.target, ValueReplies(q.peers), q.self);
    BatchMembers(After(q, n), q.target);
  }

  lemma IdleRound(l: Progress, target: NodeID, reply: Replies, self: NodeID)
    requires Batch(l, target) == []
    ensures Round(l, target, reply, self) == l
  {
    assert Brought({}, reply, self) == {};
    assert ToSet(Batch(l, target)) == {};
  }

  lemma IdleRounds(l: Progress, n: nat, m: nat, seeds: set<NodeID>, target: NodeID, reply: Replies, self: NodeID)
    requires l == Rounds(n, seeds, target, reply, self) && n <= m && Batch(l, target) == []
    ensures l == Rounds(m, seeds, target, reply, self)
  {
    IdleRound(l, target, reply, self);
    for k := n to m
      invariant l == Rounds(k, seeds, target, reply, self)
    {
    }
  }

  // Whoever has been contacted was asked in some round.
  lemma AskedBefore(n: nat, seeds: set<NodeID>, target: NodeID, reply: Replies, self: NodeID, p: NodeID)
    returns (m: nat)
    requires p in Rounds(n, seeds, target, reply, self).contacted
    ensures m < n && p in ToSet(Batch(Rounds(m, seeds, target, reply, self), target))
  {
    var l := Progress(seeds, {});
    m := 0;
    for k := 0 to n
      invariant l == Rounds(k, seeds, target, reply, self)
      invariant p in l.contacted ==> m < k && p in ToSet(Batch(Rounds(m, seeds, target, reply, self), target))
    {
      if p in ToSet(Batch(l, target)) {
        m := k;
      }
      l := Round(l, target, reply, self);
    }
  }

  // A search that is never stopped asks every peer it can reach.
  lemma ReachedIsAsked(q: Search, p: NodeID) returns (m: nat)
    requires q.self !in q.seeds && p in ReachOf(q)
    ensures p in AskedIn(q, m)
  {
    var reply := ValueReplies(q.peers);
    var n := LookupEnds(q.seeds, q.target, reply, q.self);
    BatchMembers(Rounds(n, q.seeds, q.target, reply, q.self), q.target);
    m := AskedBefore(n, q.seeds, q.target, reply, q.self, p);
  }

  lemma {:induction false} FirstTaking(q: Search, n: nat) returns (m: nat)
    requires AlwaysTakes(q.choose) && SomeRecord(AskedIn(q, n), q.peers)
    ensures TakesFirst(q, m)
  {
    if k: nat :| k < n && SomeRecord(AskedIn(q, k), q.peers) {
      m := FirstTaking(q, k);
    } else {
      m := n;
    }
  }

  // If no record that comes in is ever passed over, and no time limit strikes, a search
  // returns a record exactly when some reachable peer has one.
  lemma AlwaysTaken(q: Search, result: LookupResult)
    requires AlwaysTakes(q.choose) && q.self !in q.seeds && SearchOutcome(q, result)
    ensures result.Value? <==> SomeRecord(ReachOf(q), q.peers)
  {
    if result.Value? {
      var n: nat :| TakesFirst(q, n) && AnsweredIn(q, n, result.record);
      AskedAreReached(q, n);
    } else if p, r :| p in ReachOf(q) && HasRecord(p, r, q.peers) {
      var m := ReachedIsAsked(q, p);
      assert SomeRecord(AskedIn(q, m), q.peers);
      m := FirstTaking(q, m);
    }
  }

  // Which round's record is returned, spelled out: one comes in and is taken, and in no round
  // before did the time run out, or a record come in that was taken.
  lemma TakesFirstExactly(q: Search, n: nat)
    ensures TakesFirst(q, n) <==>
      && q.choose(n) == TakeRecord && SomeRecord(AskedIn(q, n), q.peers)
      && forall m: nat | m < n ::
           q.choose(m) != TimeOut && (q.choose(m) == TakeRecord ==> !SomeRecord(AskedIn(q, m), q.peers))
  {
    if TakesFirst(q, n) {
      forall m: nat | m < n
        ensures q.choose(m) != TimeOut && (q.choose(m) == TakeRecord ==> !SomeRecord(AskedIn(q, m), q.peers))
      {
        assert !Stops(q, m);
      }
    }
  }

  // Every lookup has some outcome.
  lemma SomeOutcome(local: Option<Record>, q: Search) returns (result: LookupResult)
    ensures ValueOutcome(local, q, result)
  {
    if local.Some? {
      result := Value(local.value);
    } else if q.seeds == {} {
      result := NoKnownNodes;
    } else if n: nat :| TakesFirst(q, n) {
      var p, r :| p in AskedIn(q, n) && HasRecord(p, r, q.peers);
      assert AnsweredIn(q, n, r);
      result := Value(r);
    } else {
      result := Missing;
    }
  }

  // A record is returned for sure, whatever the lookup selects, exactly when it is local:
  // a record that comes in can always be passed over at the end of its round.
  lemma OnlyLocalIsCertain(local: Option<Record>, q: Search)
    ensures (forall choose, result | ValueOutcome(local, q.(choose := choose), result) :: result.Value?)
      <==> local.Some?
  {
    if local == None {
      var choose: nat -> Choice := n => TakeDone;
      var result := if q.seeds == {} then NoKnownNodes else Missing;
      assert ValueOutcome(local, q.(choose := choose), result);
    }
  }

  // found is a record that one of these peers answered with, if any did.
  ghost predicate FirstRecord(found: Option<Record>, among: set<NodeID>, peers: ValueAnswers) {
    match found
    case Some(r) => exists p :: p in among && HasRecord(p, r, peers)
    case None => !SomeRecord(among, peers)
  }

  lemma FirstRecordStep(kept: Option<Record>, found: Option<Record>, among: set<NodeID>, p: NodeID, peers: ValueAnswers)
    requires FirstRecord(kept, among, peers)
    requires kept.Some? ==> found == kept
    requires kept.None? ==>
      if p in peers && peers[p].FoundValue? then found == Some(peers[p].record) else found == None
    ensures FirstRecord(found, among + {p}, peers)
  {
    match kept
    case Some(r) =>
      var q :| q in among && HasRecord(q, r, peers);
      assert q in among + {p} && HasRecord(q, r, peers);
    case None =>
      if found.Some? {
        assert p in among + {p} && HasRecord(p, found.value, peers);
      } else {
        forall q, r | q in among + {p} ensures !HasRecord(q, r, peers) {
        }
      }
  }

  // What the answers of these peers have led to: a first record, and a table log.
  ghost predicate Heard(found: Option<Record>, before: seq<TableOp>, log: seq<TableOp>, ids: set<NodeID>,
      peers: ValueAnswers)
  {
    FirstRecord(found, ids, peers) && Dropped(before, log, ids, peers)
  }

  lemma HeardMore(kept: Option<Record>, found: Option<Record>, before: seq<TableOp>, log: seq<TableOp>,
      ids: set<NodeID>, p: NodeID, peers: ValueAnswers)
    requires Heard(kept, before, log, ids, peers)
    requires kept.Some? ==> found == kept
    requires kept.None? ==>
      if p in peers && peers[p].FoundValue? then found == Some(peers[p].record) else found == None
    ensures Heard(found, before, log + Drop(p, peers), ids + {p}, peers)
  {
    FirstRecordStep(kept, found, ids, p, peers);
    DroppedMore(before, log, log + Drop(p, peers), ids, p, peers);
  }

  ghost predicate AlwaysTakes(choose: nat -> Choice) {
    forall n: nat :: choose(n) == TakeRecord
  }

  lemma TakenNow(q: Search, n: nat, found: Option<Record>)
    requires FirstRecord(found, AskedIn(q, n), q.peers) && found.Some? && q.choose(n) == TakeRecord && GoesOn(q, n)
    ensures SearchOutcome(q, Value(found.value))
  {
    assert AnsweredIn(q, n, found.value);
    assert TakesFirst(q, n);
  }

  // The search runs n rounds: the last of them stops it, or nobody is left to ask.
  ghost predicate RunsRounds(q: Search, n: nat) {
    || (GoesOn(q, n) && Batch(After(q, n), q.target) == [])
    || (n > 0 && GoesOn(q, n - 1) && Stops(q, n - 1) && Batch(After(q, n - 1), q.target) != [])
  }

  // What a search makes the table forget: everybody it asked who failed, in whatever round.
  ghost predicate SearchDropped(q: Search, before: seq<TableOp>, log: seq<TableOp>) {
    exists n: nat :: RunsRounds(q, n) && Dropped(before, log, After(q, n).contacted, q.peers)
  }

  ghost predicate SearchForgot(q: Search, b: Buckets, after: Buckets) {
    exists n: nat :: RunsRounds(q, n) && Forgotten(b, after, After(q, n).contacted - q.peers.Keys)
  }

  // What a lookup for a value does to the table: nothing without a search.
  ghost predicate ValueTable(local: Option<Record>, q: Search, before: seq<TableOp>, log: seq<TableOp>) {
    if local.Some? || q.seeds == {} then log == before
    else
      && SearchDropped(q, before, log)
      && SearchForgot(q, RoutingTables.Run(q.self, before), RoutingTables.Run(q.self, log))
      && ForgotOnly(before, log, ReachOf(q), q.peers)
  }

  lemma EndedIdle(q: Search, n: nat, before: seq<TableOp>, log: seq<TableOp>)
    requires GoesOn(q, n) && Batch(After(q, n), q.target) == []
    requires Dropped(before, log, After(q, n).contacted, q.peers)
    ensures SearchOutcome(q, Missing) && SearchDropped(q, before, log)
  {
    NoneTaken(q, n);
    assert RunsRounds(q, n);
  }

  lemma EndedByTimeOut(q: Search, n: nat, before: seq<TableOp>, log: seq<TableOp>)
    requires GoesOn(q, n) && Batch(After(q, n), q.target) != [] && q.choose(n) == TimeOut
    requires Dropped(before, log, After(q, n + 1).contacted, q.peers)
    ensures SearchOutcome(q, Missing) && SearchDropped(q, before, log)
  {
    TimedOut(q, n);
    StoppedHere(q, n);
  }

  lemma EndedByRecord(q: Search, n: nat, found: Option<Record>, before: seq<TableOp>, log: seq<TableOp>)
    requires GoesOn(q, n) && Batch(After(q, n), q.target) != []
    requires FirstRecord(found, AskedIn(q, n), q.peers) && found.Some? && q.choose(n) == TakeRecord
    requires Dropped(before, log, After(q, n + 1).contacted, q.peers)
    ensures SearchOutcome(q, Value(found.value)) && SearchDropped(q, before, log)
  {
    TakenNow(q, n, found);
    StoppedHere(q, n);
  }

  lemma StoppedHere(q: Search, n: nat)
    requires GoesOn(q, n) && Batch(After(q, n), q.target) != [] && Stops(q, n)
    ensures RunsRounds(q, n + 1)
  {
  }

  lemma AfterNext(q: Search, n: nat)
    ensures After(q, n + 1) == Round(After(q, n), q.target, ValueReplies(q.peers), q.self)
    ensures After(q, n + 1).contacted == After(q, n).contacted + AskedIn(q, n)
  {
  }

  lemma ContactedReached(q: Search, n: nat)
    requires q.self !in q.seeds
    ensures After(q, n).contacted <= ReachOf(q)
  {
    ReachClosed(q.seeds, ValueReplies(q.peers), q.self);
    RoundsSound(n, q.seeds, ReachOf(q), q.target, ValueReplies(q.peers), q.self);
  }

  lemma ForgotAmong(before: seq<TableOp>, log: seq<TableOp>, ids: set<NodeID>, more: set<NodeID>, peers: ValueAnswers)
    requires ForgotOnly(before, log, ids, peers) && ids <= more
    ensures ForgotOnly(before, log, more, peers)
  {
    forall i | |before| <= i < |log| ensures DropsFailed(log[i], more, peers) {
      assert DropsFailed(log[i], ids, peers);
    }
  }

  lemma SearchForgets(q: Search, before: seq<TableOp>, log: seq<TableOp>)
    requires SearchDropped(q, before, log) && q.self !in q.seeds
    ensures SearchForgot(q, RoutingTables.Run(q.self, before), RoutingTables.Run(q.self, log))
    ensures ForgotOnly(before, log, ReachOf(q), q.peers)
  {
    var n: nat :| RunsRounds(q, n) && Dropped(before, log, After(q, n).contacted, q.peers);
    var asked := After(q, n).contacted;
    DroppedTable(q.self, before, log, asked, q.peers);
    ContactedReached(q, n);
    ForgotAmong(before, log, asked, ReachOf(q), q.peers);
  }

  lemma NoneAfterTimeOut(q: Search, n: nat, m: nat)
    requires q.choose(n) == TimeOut && GoesOn(q, n)
    ensures !TakesFirst(q, m)
  {
    if m < n {
      assert !Stops(q, m);
    } else if n < m {
      assert Stops(q, n);
    }
  }

  lemma TimedOut(q: Search, n: nat)
    requires q.choose(n) == TimeOut && GoesOn(q, n)
    ensures SearchOutcome(q, Missing)
  {
    forall m: nat ensures !TakesFirst(q, m) {
      NoneAfterTimeOut(q, n, m);
    }
  }

  lemma PassedOver(q: Search, n: nat, found: Option<Record>)
    requires FirstRecord(found, AskedIn(q, n), q.peers) && GoesOn(q, n)
    requires q.choose(n) != TimeOut && (found.Some? ==> q.choose(n) != TakeRecord)
    ensures GoesOn(q, n + 1)
  {
  }

  lemma IdleTakesNone(q: Search, n: nat, m: nat)
    requires Batch(After(q, n), q.target) == [] && GoesOn(q, n)
    ensures !Takes(q, m)
  {
    if n <= m {
      IdleRounds(After(q, n), n, m, q.seeds, q.target, ValueReplies(q.peers), q.self);
    } else {
      assert !Stops(q, m);
    }
  }

  // When nobody is left to ask and no record was taken, none is.
  lemma NoneTaken(q: Search, n: nat)
    requires Batch(After(q, n), q.target) == [] && GoesOn(q, n)
    ensures SearchOutcome(q, Missing)
  {
    forall m: nat ensures !Takes(q, m) {
      IdleTakesNone(q, n, m);
    }
  }
}
