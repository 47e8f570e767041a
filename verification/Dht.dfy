// A DHT node: its message handlers, and the lookups and announcements it starts.
module Dhts {
  import opened Contacts
  import opened Lookups
  import opened NodeIds
  import opened Nodes
  import opened Ranking
  import opened RoutingTables
  import opened Searches
  import opened Stores
  import opened TableEffects
  import opened Wrappers

  // ----- Rounds under way -----

  lemma BroughtByOne(p: NodeID, ids: set<NodeID>, reply: Replies, self: NodeID)
    requires p in reply ==> reply[p] == ids
    requires p !in reply ==> ids == {}
    ensures Brought({p}, reply, self) == ids - {self}
  {
  }

  // A round that began at l, once some peers are marked and some replies merged.
  ghost function Midway(l: Progress, marked: set<NodeID>, merged: set<NodeID>, reply: Replies, self: NodeID): Progress {
    Progress(l.found + Brought(merged, reply, self), l.contacted + marked)
  }

  lemma MidwayStart(l: Progress, reply: Replies, self: NodeID)
    ensures Midway(l, {}, {}, reply, self) == l
  {
    assert Brought({}, reply, self) == {};
  }

  lemma MidwayMark(l: Progress, marked: set<NodeID>, merged: set<NodeID>, p: NodeID, reply: Replies, self: NodeID)
    ensures var m := Midway(l, marked, merged, reply, self);
      Midway(l, marked + {p}, merged, reply, self) == Progress(m.found, m.contacted + {p})
  {
  }

  lemma MidwayMerge(l: Progress, marked: set<NodeID>, merged: set<NodeID>, p: NodeID, reply: Replies, self: NodeID)
    ensures var m := Midway(l, marked, merged, reply, self);
      Midway(l, marked, merged + {p}, reply, self) == Progress(m.found + Brought({p}, reply, self), m.contacted)
  {
    BroughtUnion(merged, {p}, reply, self);
  }

  // How far the goroutines of a round have come.
  ghost predicate Underway(batch: seq<Contact>, waiting: set<Contact>, inFlight: set<Contact>,
      marked: set<NodeID>, merged: set<NodeID>)
  {
    && waiting <= ToSet(batch) && inFlight <= ToSet(batch) && waiting !! inFlight
    && marked <= IdSet(batch) && merged <= IdSet(batch)
    && forall c | c in batch ::
         (c in waiting || c.id in marked) && (c in waiting || c in inFlight <==> c.id !in merged)
  }

  ghost predicate OnePerId(batch: seq<Contact>) {
    forall c, d | c in batch && d in batch :: c.id == d.id ==> c == d
  }

  lemma BatchOnePerId(batch: seq<Contact>, ids: set<NodeID>, target: NodeID, count: nat)
    requires IdsOf(batch) == Top(ids, target, count)
    ensures OnePerId(batch)
  {
    forall i, j | 0 <= i < j < |batch| ensures batch[i].id != batch[j].id {
      assert Nearer(IdsOf(batch)[i], IdsOf(batch)[j], target);
    }
  }

  lemma UnderwayMark(batch: seq<Contact>, waiting: set<Contact>, inFlight: set<Contact>,
      marked: set<NodeID>, merged: set<NodeID>, c: Contact)
    requires Underway(batch, waiting, inFlight, marked, merged) && c in waiting
    ensures Underway(batch, waiting - {c}, inFlight + {c}, marked + {c.id}, merged) && c.id in IdSet(batch)
  {
  }

  lemma UnderwayMerge(batch: seq<Contact>, waiting: set<Contact>, inFlight: set<Contact>,
      marked: set<NodeID>, merged: set<NodeID>, c: Contact)
    requires Underway(batch, waiting, inFlight, marked, merged) && c in inFlight && OnePerId(batch)
    ensures Underway(batch, waiting, inFlight - {c}, marked, merged + {c.id}) && c.id !in merged
  {
  }

  lemma UnderwayDone(batch: seq<Contact>, waiting: set<Contact>, inFlight: set<Contact>,
      marked: set<NodeID>, merged: set<NodeID>)
    requires Underway(batch, waiting, inFlight, marked, merged) && waiting + inFlight == {}
    ensures marked == IdSet(batch) && merged == IdSet(batch)
  {
    forall c | c in batch ensures c.id in marked && c.id in merged {
      assert c !in waiting + inFlight;
    }
  }

  lemma RoundContacts(l: Progress, target: NodeID, reply: Replies, self: NodeID)
    ensures Round(l, target, reply, self).contacted == l.contacted + ToSet(Batch(l, target))
    ensures Batch(l, target) == [] ==> l.contacted + ToSet(Batch(l, target)) == l.contacted
  {
  }

  lemma ContactedGrows(before: set<NodeID>, after: set<NodeID>, id: NodeID)
    requires before <= after && id in after && id !in before
    ensures Remaining(after) < Remaining(before)
  {
    var a, b := AllIds() - after, AllIds() - before;
    assert a <= b - {id} && id in b;
    SubsetCount(a, b - {id});
  }

  // How many identifiers have not been contacted, of the finitely many there are.
  ghost function Remaining(contacted: set<NodeID>): nat {
    |AllIds() - contacted|
  }

  // A lookup starts from distinct candidates in order of distance, without the node itself.
  lemma SeedIds(self: NodeID, b: Buckets, target: NodeID, found: seq<Contact>)
    requires WellFormed(self, b) && found == ClosestOf(b, target, K)
    ensures IdSet(found) == ToSet(Top(TableIds(b), target, K)) && self !in IdSet(found)
    ensures DistinctIds(found) && NonDescending(found, target)
  {
    var ids := IdsOf(found);
    IdSetOfIds(found);
    forall c | c in found ensures c.id != self {
      OneContactPerId(self, b, c, c);
    }
    assert forall i | 0 <= i < |ids| :: ids[i] == Sorted(TableIds(b), target)[i];
    forall i, j | 0 <= i < j < |found|
      ensures found[i].id != found[j].id && Distance(found[i].id, target) <= Distance(found[j].id, target)
    {
      assert Nearer(ids[i], ids[j], target);
    }
  }

  datatype AnnounceResult = Refused(verdict: Verdict) | NotStored(reason: PutResult) | Announced(sentTo: seq<Contact>)

  // ----- The node itself -----

  class Dht {
    const table: RoutingTable
    const store: Store

    ghost predicate Valid()
      reads table, table.buckets
    {
      table.Valid()
    }

    ghost function State(): Node
      requires Valid()
      reads table, table.buckets, store
    {
      Node(table.buckets[..], store.records)
    }

    constructor (self: NodeID)
      ensures Valid() && fresh(table) && fresh(table.buckets) && fresh(store)
      ensures table.self == self && State() == Node(NoContacts(), map[])
    {
      table := new RoutingTable(self);
      store := new Store();
    }

    // The sender becomes a contact; the pong carries the node's own ID.
    method HandlePing(senderId: string, senderAddr: Option<seq<bv8>>, senderPort: int) returns (pongId: string)
      requires Valid()
      modifies table`log, table.buckets
      ensures Valid() && pongId == ToHex(table.self)
      ensures State() == match NodeIDFromHex(senderId)
                         case None => old(State())
                         case Some(id) => AfterTold(table.self, old(State()), Contact(id, senderAddr, senderPort))
    {
      var id := NodeIDFromHex(senderId);
      if id.Some? {
        table.Add(Contact(id.value, senderAddr, senderPort));
      }
      return ToHex(table.self);
    }

    method ClosestOnWire(target: NodeID) returns (infos: seq<ContactInfo>)
      requires Valid()
      ensures infos == FindNodeAnswer(State(), target)
      ensures infos == [] <==> ClosestOf(State().buckets, target, K) == []
    {
      var closest := table.Closest(target, K);
      infos := [];
      for i := 0 to |closest|
        invariant |infos| == i && forall k | 0 <= k < i :: infos[k] == ToWire(closest[k])
      {
        infos := infos + [ContactInfo(ToHex(closest[i].id), closest[i].address, closest[i].port)];
      }
    }

    // A target that is no hexadecimal text gets no answer.
    method HandleFindNode(targetId: string) returns (answer: Option<seq<ContactInfo>>)
      requires Valid()
      ensures answer == match NodeIDFromHex(targetId)
                        case None => None
                        case Some(target) => Some(FindNodeAnswer(State(), target))
    {
      var target := NodeIDFromHex(targetId);
      if target == None {
        return None;
      }
      var infos := ClosestOnWire(target.value);
      return Some(infos);
    }

    // The outcome of the Put is dropped; the sender hears nothing.
    method HandleStore(c: Crypto, r: Record, now: int)
      requires Valid()
      modifies store
      ensures Valid() && State() == AfterStore(c, old(State()), r, now)
    {
      var _ := store.Put(c, r, now);
    }

    // An empty group key asks for public records.
    method StoredRecord(name: string, groupKey: string, now: int) returns (r: Option<Record>)
      ensures r == FoundForGroup(store.records, name, groupKey, now)
    {
      if groupKey == "" {
        r := store.GetPublic(name, now);
      } else {
        r := store.GetForGroup(name, groupKey, now);
      }
    }

    method HandleFindValue(c: Crypto, name: string, groupKey: string, now: int) returns (answer: FindValueAnswer)
      requires Valid()
      ensures answer == FindValueAnswerOf(c, State(), name, groupKey, now)
    {
      var found := StoredRecord(name, groupKey, now);
      if found.Some? {
        return FoundValue(found.value);
      }
      var infos := ClosestOnWire(c.recordId(name));
      if |infos| > 0 {
        return FoundNodes(infos);
      }
      return NotFound;
    }

    // Adds every contact of one reply to the routing table.
    method Learn(contacts: seq<Contact>)
      requires Valid()
      modifies table`log, table.buckets
      ensures Valid() && table.log == old(table.log) + AddAll(contacts)
    {
      for i := 0 to |contacts|
        invariant Valid() && table.log == old(table.log) + AddAll(contacts)[..i]
      {
        assert AddAll(contacts)[..i + 1] == AddAll(contacts)[..i] + [TableOp.Add(contacts[i])];
        table.Add(contacts[i]);
      }
    }

    // A peer's reply arrives: its contacts become candidates and are added to the table.
    method MergeReply(state: LookupState, p: NodeID, peers: NodeAnswers)
      requires Valid() && state.self == table.self && state.Ordered()
      modifies state`candidates, table`log, table.buckets
      ensures Valid() && state.Ordered()
      ensures state.Now().found == old(state.Now()).found + Brought({p}, NodeReplies(peers), table.self)
      ensures Sourced(state.candidates, old(state.candidates), {p}, peers)
      ensures table.log == old(table.log) + Lesson(p, peers)
    {
      if p in peers {
        var contacts := DecodeContacts(peers[p]);
        BroughtByOne(p, IdSet(contacts), NodeReplies(peers), table.self);
        state.AddCandidates(contacts);
        Learn(contacts);
        assert forall c | c in contacts :: Names(p, c, {p}, peers);
      } else {
        BroughtByOne(p, {}, NodeReplies(peers), table.self);
      }
    }

    // One round: the batch is contacted in parallel. Which goroutine runs next and which
    // reply is merged next is left open, so the result holds for every arrival order.
    method FindNodeRound(state: LookupState, batch: seq<Contact>, peers: NodeAnswers)
      requires Valid() && state.self == table.self && state.Ordered()
      requires IdSet(batch) <= IdSet(state.candidates) && OnePerId(batch)
      modifies state, table`log, table.buckets
      ensures Valid() && state.Ordered()
      ensures state.Now() == AfterBatch(old(state.Now()), IdSet(batch), NodeReplies(peers), table.self)
      ensures Gathered(old(state.candidates), state.candidates, old(table.log), table.log, IdSet(batch), peers)
    {
      var waiting, inFlight := ToSet(batch), {};
      ghost var reply := NodeReplies(peers);
      ghost var marked: set<NodeID>, merged: set<NodeID> := {}, {};
      ghost var l, start, known := state.Now(), table.log, state.candidates;
      MidwayStart(l, reply, table.self);
      GatheredNothing(known, start, peers);
      while waiting + inFlight != {}
        invariant Valid() && state.Ordered()
        invariant Underway(batch, waiting, inFlight, marked, merged)
        invariant state.Now() == Midway(l, marked, merged, reply, table.self)
        invariant Gathered(known, state.candidates, start, table.log, merged, peers)
        decreases waiting, inFlight
      {
        if
        case waiting != {} =>
          var c :| c in waiting;
          MidwayMark(l, marked, merged, c.id, reply, table.self);
          UnderwayMark(batch, waiting, inFlight, marked, merged, c);
          state.MarkContacted(c.id);
          waiting, inFlight, marked := waiting - {c}, inFlight + {c}, marked + {c.id};
        case inFlight != {} =>
          var c :| c in inFlight;
          MidwayMerge(l, marked, merged, c.id, reply, table.self);
          UnderwayMerge(batch, waiting, inFlight, marked, merged, c);
          ghost var before, log := state.candidates, table.log;
          MergeReply(state, c.id, peers);
          GatheredMore(known, before, state.candidates, start, log, merged, c.id, peers);
          inFlight, merged := inFlight - {c}, merged + {c.id};
      }
      UnderwayDone(batch, waiting, inFlight, marked, merged);
    }

    // Takes the next batch, if there is one, and runs the round.
    method NextFindNodeRound(state: LookupState, peers: NodeAnswers) returns (again: bool)
      requires Valid() && state.self == table.self && state.Ordered()
      modifies state, table`log, table.buckets
      ensures Valid() && state.Ordered()
      ensures again <==> Batch(old(state.Now()), state.target) != []
      ensures again ==> state.Now() == Round(old(state.Now()), state.target, NodeReplies(peers), table.self)
      ensures again ==> Remaining(state.contacted) < Remaining(old(state.contacted))
      ensures !again ==> state.Now() == old(state.Now())
      ensures var asked := ToSet(Batch(old(state.Now()), state.target));
        Gathered(old(state.candidates), state.candidates, old(table.log), table.log, asked, peers)
    {
      var batch := state.NextBatch();
      if |batch| == 0 {
        GatheredNothing(state.candidates, table.log, peers);
        return false;
      }
      ghost var contacted := state.contacted;
      BatchMembers(state.Now(), state.target);
      IdSetOfIds(batch);
      BatchOnePerId(batch, IdSet(state.candidates) - contacted, state.target, ALPHA);
      FindNodeRound(state, batch, peers);
      ContactedGrows(contacted, state.contacted, batch[0].id);
      return true;
    }

    // Rounds until no candidate is left to contact. Every round contacts somebody new.
    method RunRounds(state: LookupState, ghost seeds: set<NodeID>, peers: NodeAnswers) returns (ghost n: nat)
      requires Valid() && state.self == table.self && state.Ordered()
      requires state.Now() == Progress(seeds, {})
      modifies state, table`log, table.buckets
      ensures Valid() && state.Ordered()
      ensures state.Now() == Rounds(n, seeds, state.target, NodeReplies(peers), table.self)
      ensures Batch(state.Now(), state.target) == []
      ensures Gathered(old(state.candidates), state.candidates, old(table.log), table.log, state.contacted, peers)
    {
      n := 0;
      var again := true;
      ghost var reply, start, known, l := NodeReplies(peers), table.log, state.candidates, state.Now();
      GatheredNothing(known, start, peers);
      while again
        invariant Valid() && state.Ordered()
        invariant state.Now() == l == Rounds(n, seeds, state.target, reply, table.self)
        invariant Gathered(known, state.candidates, start, table.log, l.contacted, peers)
        invariant !again ==> Batch(l, state.target) == []
        decreases again, Remaining(state.contacted)
      {
        ghost var before, log := state.candidates, table.log;
        BatchMembers(l, state.target);
        again := NextFindNodeRound(state, peers);
        GatheredChain(known, before, state.candidates, start, log, table.log, l.contacted,
          ToSet(Batch(l, state.target)), peers);
        RoundContacts(l, state.target, reply, table.self);
        if again {
          l, n := Round(l, state.target, reply, table.self), n + 1;
        }
      }
    }

    // The K nearest nodes that can be reached, by contacting everybody found. On the way
    // the contacts that the replies name are added to the routing table.
    method LookupNode(target: NodeID, peers: NodeAnswers) returns (result: seq<Contact>)
      requires Valid()
      modifies table`log, table.buckets
      ensures Valid()
      ensures LookedUp(table.self, old(table.buckets[..]), target, peers, result)
      ensures LookupTaught(table.self, old(table.buckets[..]), target, peers, old(table.log), table.log)
    {
      var seeds := table.Closest(target, K);
      ghost var b, start, reply := table.buckets[..], table.log, NodeReplies(peers);
      ghost var ids := ToSet(Top(TableIds(b), target, K));
      TableInvariant(table.self, table.log);
      SeedIds(table.self, b, target, seeds);
      if |seeds| == 0 {
        ReachLeast({}, ids, reply, table.self);
        TaughtNothing(start, peers);
        return [];
      }
      var state := new LookupState(table.self, target, seeds);
      ghost var n := RunRounds(state, ids, peers);
      AllContacted(n, ids, target, reply, table.self);
      result := state.Closest(K);
    }

    // A peer's answer to a query for a name arrives. The first record to come in is kept,
    // named contacts become candidates, and a peer that failed is dropped from the table.
    method MergeAnswer(state: LookupState, p: NodeID, peers: ValueAnswers, kept: Option<Record>)
      returns (found: Option<Record>)
      requires Valid() && state.self == table.self && state.Ordered()
      modifies state`candidates, table`log, table.buckets
      ensures Valid() && state.Ordered()
      ensures state.Now().found == old(state.Now()).found + Brought({p}, ValueReplies(peers), table.self)
      ensures table.log == old(table.log) + Drop(p, peers)
      ensures kept.Some? ==> found == kept
      ensures kept.None? ==>
        if p in peers && peers[p].FoundValue? then found == Some(peers[p].record) else found == None
    {
      found := kept;
      if p !in peers {
        BroughtByOne(p, {}, ValueReplies(peers), table.self);
        table.Remove(p);
        return;
      }
      match peers[p]
      case FoundValue(r) =>
        BroughtByOne(p, {}, ValueReplies(peers), table.self);
        if found == None {
          found := Some(r);
        }
      case FoundNodes(infos) =>
        var contacts := DecodeContacts(infos);
        BroughtByOne(p, IdSet(contacts), ValueReplies(peers), table.self);
        state.AddCandidates(contacts);
      case NotFound =>
        BroughtByOne(p, {}, ValueReplies(peers), table.self);
    }

    // One round of a lookup for a value, for every order in which the goroutines run.
    method FindValueRound(state: LookupState, batch: seq<Contact>, peers: ValueAnswers) returns (found: Option<Record>)
      requires Valid() && state.self == table.self && state.Ordered()
      requires IdSet(batch) <= IdSet(state.candidates) && OnePerId(batch)
      modifies state, table`log, table.buckets
      ensures Valid() && state.Ordered()
      ensures state.Now() == AfterBatch(old(state.Now()), IdSet(batch), ValueReplies(peers), table.self)
      ensures Dropped(old(table.log), table.log, IdSet(batch), peers)
      ensures Forgotten(old(table.buckets[..]), table.buckets[..], IdSet(batch) - peers.Keys)
      ensures FirstRecord(found, IdSet(batch), peers)
    {
      found := None;
      var waiting, inFlight := ToSet(batch), {};
      ghost var reply := ValueReplies(peers);
      ghost var marked: set<NodeID>, merged: set<NodeID> := {}, {};
      ghost var l, start := state.Now(), table.log;
      MidwayStart(l, reply, table.self);
      while waiting + inFlight != {}
        invariant Valid() && state.Ordered()
        invariant Underway(batch, waiting, inFlight, marked, merged)
        invariant state.Now() == Midway(l, marked, merged, reply, table.self)
        invariant Heard(found, start, table.log, merged, peers)
        decreases waiting, inFlight
      {
        if
        case waiting != {} =>
          var c :| c in waiting;
          MidwayMark(l, marked, merged, c.id, reply, table.self);
          UnderwayMark(batch, waiting, inFlight, marked, merged, c);
          state.MarkContacted(c.id);
          waiting, inFlight, marked := waiting - {c}, inFlight + {c}, marked + {c.id};
        case inFlight != {} =>
          var c :| c in inFlight;
          MidwayMerge(l, marked, merged, c.id, reply, table.self);
          UnderwayMerge(batch, waiting, inFlight, marked, merged, c);
          ghost var log, kept := table.log, found;
          found := MergeAnswer(state, c.id, peers, found);
          HeardMore(kept, found, start, log, merged, c.id, peers);
          inFlight, merged := inFlight - {c}, merged + {c.id};
      }
      UnderwayDone(batch, waiting, inFlight, marked, merged);
      DroppedTable(table.self, start, table.log, IdSet(batch), peers);
    }

    // Round n of a search, if somebody is left to ask.
    method NextFindValueRound(state: LookupState, ghost q: Search, ghost n: nat, peers: ValueAnswers)
      returns (again: bool, found: Option<Record>)
      requires Valid() && state.self == table.self == q.self && state.target == q.target && peers == q.peers
      requires state.Ordered() && state.Now() == After(q, n) && q.self !in q.seeds
      modifies state, table`log, table.buckets
      ensures Valid() && state.Ordered()
      ensures again <==> Batch(After(q, n), q.target) != []
      ensures again ==> state.Now() == After(q, n + 1) && FirstRecord(found, AskedIn(q, n), q.peers)
      ensures again ==> Remaining(state.contacted) < Remaining(old(state.contacted))
      ensures Dropped(old(table.log), table.log, AskedIn(q, n), peers)
      ensures !again ==> table.log == old(table.log)
    {
      var batch := state.NextBatch();
      if |batch| == 0 {
        return false, None;
      }
      ghost var l, contacted := state.Now(), state.contacted;
      BatchMembers(l, state.target);
      IdSetOfIds(batch);
      BatchOnePerId(batch, l.found - contacted, state.target, ALPHA);
      found := FindValueRound(state, batch, peers);
      ContactedGrows(contacted, state.contacted, batch[0].id);
      again := true;
    }

    // Rounds until a record is taken, the time limit strikes, or no candidate is left.
    method RunValueRounds(state: LookupState, ghost q: Search, peers: ValueAnswers, choose: nat -> Choice)
      returns (result: LookupResult)
      requires Valid() && state.self == table.self && state.Ordered()
      requires q == Search(table.self, state.target, IdSet(state.candidates), peers, choose) && state.contacted == {}
      modifies state, table`log, table.buckets
      ensures Valid()
      ensures SearchOutcome(q, result) && SearchDropped(q, old(table.log), table.log)
    {
      ghost var start := table.log;
      var n: nat := 0;
      while true
        invariant Valid() && state.Ordered()
        invariant state.Now() == After(q, n) && GoesOn(q, n)
        invariant Dropped(start, table.log, After(q, n).contacted, peers)
        decreases Remaining(state.contacted)
      {
        ghost var log := table.log;
        var again, found := NextFindValueRound(state, q, n, peers);
        if !again {
          EndedIdle(q, n, start, table.log);
          return Missing;
        }
        AfterNext(q, n);
        DroppedChain(start, log, table.log, After(q, n).contacted, AskedIn(q, n), peers);
        if choose(n) == TimeOut {
          EndedByTimeOut(q, n, start, table.log);
          return Missing;
        }
        if found.Some? && choose(n) == TakeRecord {
          EndedByRecord(q, n, found, start, table.log);
          return Value(found.value);
        }
        PassedOver(q, n, found);
        n := n + 1;
      }
    }

    // The record for a name and group, from the local store or from whoever has it.
    method LookupValue(c: Crypto, name: string, groupKey: string, now: int, peers: ValueAnswers, choose: nat -> Choice)
      returns (result: LookupResult)
      requires Valid()
      modifies table`log, table.buckets
      ensures Valid()
      ensures var seeds := ToSet(Top(TableIds(old(table.buckets[..])), c.recordId(name), K));
        var q := Search(table.self, c.recordId(name), seeds, peers, choose);
        && ValueOutcome(FoundForGroup(store.records, name, groupKey, now), q, result)
        && ValueTable(FoundForGroup(store.records, name, groupKey, now), q, old(table.log), table.log)
    {
      var local := StoredRecord(name, groupKey, now);
      if local.Some? {
        return Value(local.value);
      }
      var target := c.recordId(name);
      var seeds := table.Closest(target, K);
      ghost var ids := ToSet(Top(TableIds(table.buckets[..]), target, K));
      TableInvariant(table.self, table.log);
      SeedIds(table.self, table.buckets[..], target, seeds);
      if |seeds| == 0 {
        return NoKnownNodes;
      }
      assert seeds[0].id in ids;
      var state := new LookupState(table.self, target, seeds);
      ghost var q := Search(table.self, target, ids, peers, choose);
      ghost var start := table.log;
      result := RunValueRounds(state, q, peers, choose);
      SearchForgets(q, start, table.log);
    }

    // Stores a record locally, then sends it to the nodes a lookup finds nearest to its name.
    method Announce(c: Crypto, r: Record, now: int, peers: NodeAnswers) returns (result: AnnounceResult)
      requires Valid()
      modifies store, table`log, table.buckets
      ensures Valid() && store.records == AfterPut(c, old(store.records), r, now)
      ensures result.Announced? <==> PutOutcome(c, old(store.records), r, now) == Stored
      ensures result.Announced? ==>
        var target, b := c.recordId(r.name), old(table.buckets[..]);
        && LookedUp(table.self, b, target, peers, result.sentTo)
        && LookupTaught(table.self, b, target, peers, old(table.log), table.log)
     ensures !result.Announced? ==> table.log == old(table.log)
    {
      var verdict := Verify(c, r);
      if verdict != Verified {
        return Refused(verdict);
      }
      var outcome := store.Put(c, r, now);
      if outcome != Stored {
        return NotStored(outcome);
      }
      var closest := LookupNode(c.recordId(r.name), peers);
      return Announced(closest);
    }
  }
}
