// The state of one iterative lookup, and what its rounds compute.
module Lookups {
  import opened Contacts
  import opened NodeIds
  import opened Ranking
  import opened RoutingTables
  import opened Wrappers

  const ALPHA: nat := 3

  // ----- Contacts on the wire -----

  // addr is None when the text is no IP address.
  datatype ContactInfo = ContactInfo(id: string, addr: Option<seq<bv8>>, port: int)

  function ToWire(c: Contact): ContactInfo {
    ContactInfo(ToHex(c.id), c.address, c.port)
  }

  function AllToWire(cs: seq<Contact>): (infos: seq<ContactInfo>)
    ensures |infos| == |cs| && forall i | 0 <= i < |cs| :: infos[i] == ToWire(cs[i])
  {
    seq(|cs|, i requires 0 <= i < |cs| => ToWire(cs[i]))
  }

  function FromWire(ci: ContactInfo): seq<Contact> {
    match (NodeIDFromHex(ci.id), ci.addr)
    case (Some(id), Some(ip)) => [Contact(id, Some(ip), ci.port)]
    case _ => []
  }

  function AllFromWire(infos: seq<ContactInfo>): seq<Contact> {
    if infos == [] then []
    else AllFromWire(infos[..|infos| - 1]) + FromWire(infos[|infos| - 1])
  }

  lemma OneRoundTrip(c: Contact)
    ensures FromWire(ToWire(c)) == if c.address.Some? then [c] else []
  {
    HexRoundTrip(c.id);
  }

  function Addressed(cs: seq<Contact>): seq<Contact> {
    if cs == [] then []
    else Addressed(cs[..|cs| - 1]) + if cs[|cs| - 1].address.Some? then [cs[|cs| - 1]] else []
  }

  // What a handler writes, a lookup reads back, except that contacts without a usable
  // address are lost.
  lemma {:induction false} WireRoundTrip(cs: seq<Contact>)
    ensures AllFromWire(AllToWire(cs)) == Addressed(cs)
  {
    if cs != [] {
      var front, last := cs[..|cs| - 1], cs[|cs| - 1];
      WireRoundTrip(front);
      OneRoundTrip(last);
      var infos := AllToWire(cs);
      assert infos[..|cs| - 1] == AllToWire(front) && infos[|cs| - 1] == ToWire(last);
    }
  }

  lemma {:induction false} AddressedMembers(cs: seq<Contact>)
    ensures forall c :: c in Addressed(cs) <==> c in cs && c.address.Some?
  {
    if cs != [] {
      var front, last := cs[..|cs| - 1], cs[|cs| - 1];
      assert cs == front + [last];
      AddressedMembers(front);
    }
  }

  lemma {:induction false} AllAddressed(cs: seq<Contact>)
    requires forall c | c in cs :: c.address.Some?
    ensures Addressed(cs) == cs
  {
    if cs != [] {
      var front, last := cs[..|cs| - 1], cs[|cs| - 1];
      assert cs == front + [last] && last in cs;
      AllAddressed(front);
    }
  }

  // Reading keeps the order, entry by entry: one that has an ID and an address is read as
  // the contact with these and its port, any other is skipped.
  lemma {:induction false} ReadInOrder(infos: seq<ContactInfo>, more: seq<ContactInfo>)
    ensures AllFromWire(infos + more) == AllFromWire(infos) + AllFromWire(more)
    ensures |infos| == 1 ==>
      AllFromWire(infos) == if NodeIDFromHex(infos[0].id).Some? && infos[0].addr.Some?
                            then [Contact(NodeIDFromHex(infos[0].id).value, infos[0].addr, infos[0].port)] else []
    decreases |more|
  {
    if |infos| == 1 {
      assert infos[..0] == [];
    }
    if more == [] {
      assert infos + more == infos;
    } else {
      var front, last := more[..|more| - 1], more[|more| - 1];
      assert infos + more == (infos + front) + [last] && (infos + more)[..|infos + more| - 1] == infos + front;
      ReadInOrder(infos, front);
    }
  }

  // Entries whose ID is no hexadecimal text or whose address is no IP address are skipped.
  method DecodeContacts(infos: seq<ContactInfo>) returns (found: seq<Contact>)
    ensures found == AllFromWire(infos)
  {
    found := [];
    for i := 0 to |infos|
      invariant found == AllFromWire(infos[..i])
    {
      assert infos[..i + 1][..i] == infos[..i];
      var id := NodeIDFromHex(infos[i].id);
      if id == None {
        continue;
      }
      if infos[i].addr == None {
        continue;
      }
      found := found + [Contact(id.value, infos[i].addr, infos[i].port)];
    }
    assert infos[..|infos|] == infos;
  }

  // ----- The candidate list -----

  // The i-th offered contact is new: not the node itself, not contacted, not a candidate
  // already, and the first with its ID among those offered.
  predicate IsFirstNew(known: seq<Contact>, contacted: set<NodeID>, self: NodeID, offered: seq<Contact>, i: nat)
    requires i < |offered|
  {
    var id := offered[i].id;
    id != self && id !in contacted && !HasId(known, id) && !HasId(offered[..i], id)
  }

  function FirstNew(known: seq<Contact>, contacted: set<NodeID>, self: NodeID, offered: seq<Contact>): seq<Contact> {
    if offered == [] then []
    else
      FirstNew(known, contacted, self, offered[..|offered| - 1])
      + if IsFirstNew(known, contacted, self, offered, |offered| - 1) then [offered[|offered| - 1]] else []
  }

  lemma AppendedId(cs: seq<Contact>, c: Contact)
    ensures IdSet(cs + [c]) == IdSet(cs) + {c.id}
    ensures DistinctIds(cs) && c.id !in IdSet(cs) ==> DistinctIds(cs + [c])
  {
    assert forall k | 0 <= k < |cs| :: cs[k] in cs && cs[k].id in IdSet(cs);
  }

  // The IDs that are no news: the node itself, contacted peers, candidates.
  function Excluded(known: seq<Contact>, contacted: set<NodeID>, self: NodeID): set<NodeID> {
    {self} + contacted + IdSet(known)
  }

  lemma SubtractOne(ids: set<NodeID>, excluded: set<NodeID>, id: NodeID)
    ensures id in ids + excluded ==> (ids + {id}) - excluded == ids - excluded
    ensures id !in ids + excluded ==> (ids + {id}) - excluded == (ids - excluded) + {id}
  {
  }

  lemma NewWhenNotExcluded(known: seq<Contact>, contacted: set<NodeID>, self: NodeID, offered: seq<Contact>, i: nat)
    requires i < |offered|
    ensures IsFirstNew(known, contacted, self, offered, i)
      <==> offered[i].id !in IdSet(offered[..i]) + Excluded(known, contacted, self)
  {
    HasIdInSet(known, offered[i].id);
    HasIdInSet(offered[..i], offered[i].id);
  }

  // The new contacts bring exactly the offered IDs that are not excluded, each once.
  lemma {:induction false} FirstNewIds(known: seq<Contact>, contacted: set<NodeID>, self: NodeID, offered: seq<Contact>)
    ensures IdSet(FirstNew(known, contacted, self, offered)) == IdSet(offered) - Excluded(known, contacted, self)
    ensures DistinctIds(FirstNew(known, contacted, self, offered))
    decreases |offered|
  {
    if offered != [] {
      var front, last := offered[..|offered| - 1], offered[|offered| - 1];
      FirstNewIds(known, contacted, self, front);
      assert offered == front + [last];
      AppendedId(front, last);
      AppendedId(FirstNew(known, contacted, self, front), last);
      NewWhenNotExcluded(known, contacted, self, offered, |front|);
      SubtractOne(IdSet(front), Excluded(known, contacted, self), last.id);
    }
  }

  lemma {:induction false} FirstNewOffered(known: seq<Contact>, contacted: set<NodeID>, self: NodeID,
      offered: seq<Contact>)
    ensures forall c | c in FirstNew(known, contacted, self, offered) :: c in offered
    decreases |offered|
  {
    if offered != [] {
      FirstNewOffered(known, contacted, self, offered[..|offered| - 1]);
    }
  }

  lemma CandidatesFrom(known: seq<Contact>, contacted: set<NodeID>, self: NodeID, offered: seq<Contact>,
      cs: seq<Contact>)
    requires multiset(cs) == multiset(known + FirstNew(known, contacted, self, offered))
    ensures forall c | c in cs :: c in known || c in offered
  {
    FirstNewOffered(known, contacted, self, offered);
    forall c | c in cs ensures c in known || c in offered {
      assert c in multiset(cs);
      assert c in known + FirstNew(known, contacted, self, offered);
    }
  }

  function Uncontacted(cs: seq<Contact>, contacted: set<NodeID>): seq<Contact> {
    if cs == [] then []
    else
      Uncontacted(cs[..|cs| - 1], contacted)
      + if cs[|cs| - 1].id in contacted then [] else [cs[|cs| - 1]]
  }

  lemma {:induction false} UncontactedPrefix(cs: seq<Contact>, contacted: set<NodeID>, i: nat)
    requires i <= |cs|
    ensures Uncontacted(cs[..i], contacted) <= Uncontacted(cs, contacted)
    decreases |cs|
  {
    if i < |cs| {
      UncontactedPrefix(cs[..|cs| - 1], contacted, i);
      assert cs[..|cs| - 1][..i] == cs[..i];
    } else {
      assert cs[..i] == cs;
    }
  }

  lemma AppendInOrder(cs: seq<Contact>, c: Contact, target: NodeID)
    requires DistinctIds(cs) && NonDescending(cs, target)
    requires forall x | x in cs :: x.id != c.id && Distance(x.id, target) <= Distance(c.id, target)
    ensures DistinctIds(cs + [c]) && NonDescending(cs + [c], target)
  {
    assert forall k | 0 <= k < |cs| :: cs[k] in cs;
  }

  lemma LastInOrder(cs: seq<Contact>, target: NodeID)
    requires cs != [] && DistinctIds(cs) && NonDescending(cs, target)
    ensures DistinctIds(cs[..|cs| - 1]) && NonDescending(cs[..|cs| - 1], target)
    ensures forall x | x in cs[..|cs| - 1] ::
      x.id != cs[|cs| - 1].id && Distance(x.id, target) <= Distance(cs[|cs| - 1].id, target)
  {
  }

  lemma {:induction false} UncontactedMembers(cs: seq<Contact>, contacted: set<NodeID>, target: NodeID)
    requires DistinctIds(cs) && NonDescending(cs, target)
    ensures forall c :: c in Uncontacted(cs, contacted) <==> c in cs && c.id !in contacted
    ensures DistinctIds(Uncontacted(cs, contacted)) && NonDescending(Uncontacted(cs, contacted), target)
  {
    if cs != [] {
      var front, last := cs[..|cs| - 1], cs[|cs| - 1];
      LastInOrder(cs, target);
      UncontactedMembers(front, contacted, target);
      assert cs == front + [last];
      AppendInOrder(Uncontacted(front, contacted), last, target);
    }
  }

  // ----- Rounds on IDs -----

  // The IDs in the reply of each peer that answers; a peer that is missing here fails.
  type Replies = map<NodeID, set<NodeID>>

  // Which IDs a lookup knows as candidates, and which of them it has contacted.
  datatype Progress = Progress(found: set<NodeID>, contacted: set<NodeID>)

  // The up to ALPHA nearest candidates not contacted yet.
  ghost function Batch(l: Progress, target: NodeID): seq<NodeID> {
    Top(l.found - l.contacted, target, ALPHA)
  }

  // The IDs that the replies of some peers bring. A peer that fails brings none.
  ghost function Brought(peers: set<NodeID>, reply: Replies, self: NodeID): set<NodeID> {
    set p, x | p in peers && p in reply && x in reply[p] && x != self :: x
  }

  ghost function AfterBatch(l: Progress, batch: set<NodeID>, reply: Replies, self: NodeID): Progress {
    Progress(l.found + Brought(batch, reply, self), l.contacted + batch)
  }

  ghost function Round(l: Progress, target: NodeID, reply: Replies, self: NodeID): Progress {
    AfterBatch(l, ToSet(Batch(l, target)), reply, self)
  }

  ghost function Rounds(n: nat, seeds: set<NodeID>, target: NodeID, reply: Replies, self: NodeID): Progress {
    if n == 0 then Progress(seeds, {})
    else Round(Rounds(n - 1, seeds, target, reply, self), target, reply, self)
  }

  // ----- What is reachable -----

  ghost predicate Replied(p: NodeID, x: NodeID, reply: Replies) {
    p in reply && x in reply[p]
  }

  // A chain of successful replies from a seed, never passing through the node itself.
  ghost predicate IsPath(path: seq<NodeID>, seeds: set<NodeID>, reply: Replies, self: NodeID)
    decreases |path|
  {
    path != [] && path[|path| - 1] != self
    && if |path| == 1 then path[0] in seeds
       else Replied(path[|path| - 2], path[|path| - 1], reply) && IsPath(path[..|path| - 1], seeds, reply, self)
  }

  ghost predicate Reachable(x: NodeID, seeds: set<NodeID>, reply: Replies, self: NodeID) {
    exists path :: IsPath(path, seeds, reply, self) && path[|path| - 1] == x
  }

  ghost function Reach(seeds: set<NodeID>, reply: Replies, self: NodeID): set<NodeID> {
    set x: NodeID | x in AllIds() && Reachable(x, seeds, reply, self)
  }

  // The replies of these peers lead nowhere but inside, or to the node itself.
  ghost predicate Merged(peers: set<NodeID>, inside: set<NodeID>, reply: Replies, self: NodeID) {
    forall p | p in peers && p in reply :: reply[p] <= inside + {self}
  }

  // Within a set that replies do not lead out of, every contacted peer's reply is merged.
  ghost predicate Sound(l: Progress, seeds: set<NodeID>, all: set<NodeID>, reply: Replies, self: NodeID) {
    seeds <= l.found <= all && l.contacted <= l.found
    && Merged(l.contacted, l.found, reply, self)
  }

  lemma MergedBrought(peers: set<NodeID>, inside: set<NodeID>, reply: Replies, self: NodeID)
    ensures Merged(peers, inside, reply, self) <==> Brought(peers, reply, self) <= inside
  {
    if Brought(peers, reply, self) <= inside {
      forall p, x | p in peers && p in reply && x in reply[p] ensures x in inside + {self} {
        assert x == self || x in Brought(peers, reply, self);
      }
    }
  }

  lemma BatchMembers(l: Progress, target: NodeID)
    ensures ToSet(Batch(l, target)) <= l.found - l.contacted
    ensures Batch(l, target) == [] <==> l.found <= l.contacted
  {
    TopSubset(l.found - l.contacted, target, ALPHA);
    if l.found <= l.contacted {
      assert l.found - l.contacted == {};
    } else {
      var x :| x in l.found && x !in l.contacted;
      assert x in l.found - l.contacted;
    }
  }

  lemma AfterBatchSound(l: Progress, batch: set<NodeID>, seeds: set<NodeID>, all: set<NodeID>, reply: Replies,
      self: NodeID)
    requires Sound(l, seeds, all, reply, self) && batch <= l.found
    requires Merged(all, all, reply, self)
    ensures Sound(AfterBatch(l, batch, reply, self), seeds, all, reply, self)
  {
    var brought := Brought(batch, reply, self);
    MergedBrought(batch, brought, reply, self);
    MergedBrought(batch, all, reply, self);
  }

  lemma RoundSound(l: Progress, seeds: set<NodeID>, all: set<NodeID>, target: NodeID, reply: Replies, self: NodeID)
    requires Sound(l, seeds, all, reply, self) && Merged(all, all, reply, self)
    ensures Sound(Round(l, target, reply, self), seeds, all, reply, self)
  {
    BatchMembers(l, target);
    AfterBatchSound(l, ToSet(Batch(l, target)), seeds, all, reply, self);
  }

  // The whole identifier space but the node itself: no reply leads out of it.
  ghost function Everywhere(self: NodeID): (all: set<NodeID>)
    ensures forall x: NodeID :: x in all <==> x != self
  {
    AllIds() - {self}
  }

  lemma RoundsSound(n: nat, seeds: set<NodeID>, all: set<NodeID>, target: NodeID, reply: Replies, self: NodeID)
    requires seeds <= all && Merged(all, all, reply, self)
    ensures Sound(Rounds(n, seeds, target, reply, self), seeds, all, reply, self)
  {
    var l := Progress(seeds, {});
    for k := 0 to n
      invariant l == Rounds(k, seeds, target, reply, self) && Sound(l, seeds, all, reply, self)
    {
      RoundSound(l, seeds, all, target, reply, self);
      l := Round(l, target, reply, self);
    }
  }

  lemma ReplyReachable(p: NodeID, x: NodeID, seeds: set<NodeID>, reply: Replies, self: NodeID)
    requires Reachable(p, seeds, reply, self) && Replied(p, x, reply) && x != self
    ensures Reachable(x, seeds, reply, self)
  {
    var path :| IsPath(path, seeds, reply, self) && path[|path| - 1] == p;
    assert (path + [x])[..|path|] == path;
    assert IsPath(path + [x], seeds, reply, self);
  }

  // Replies do not lead out of what is reachable.
  lemma ReachClosed(seeds: set<NodeID>, reply: Replies, self: NodeID)
    requires self !in seeds
    ensures seeds <= Reach(seeds, reply, self) && self !in Reach(seeds, reply, self)
    ensures Merged(Reach(seeds, reply, self), Reach(seeds, reply, self), reply, self)
  {
    forall x | x in seeds ensures Reachable(x, seeds, reply, self) {
      assert IsPath([x], seeds, reply, self);
    }
    var all := Reach(seeds, reply, self);
    forall p, x | p in all && p in reply && x in reply[p] && x != self ensures x in all {
      assert Replied(p, x, reply);
      ReplyReachable(p, x, seeds, reply, self);
    }
  }

  lemma {:induction false} PathStaysInside(path: seq<NodeID>, inside: set<NodeID>, seeds: set<NodeID>,
      reply: Replies, self: NodeID)
    requires IsPath(path, seeds, reply, self)
    requires seeds <= inside && Merged(inside, inside, reply, self)
    ensures path[|path| - 1] in inside
    decreases |path|
  {
    if |path| > 1 {
      var front, x := path[..|path| - 1], path[|path| - 1];
      PathStaysInside(front, inside, seeds, reply, self);
      assert Replied(front[|front| - 1], x, reply);
    }
  }

  lemma ReachLeast(inside: set<NodeID>, seeds: set<NodeID>, reply: Replies, self: NodeID)
    requires seeds <= inside && Merged(inside, inside, reply, self)
    ensures Reach(seeds, reply, self) <= inside
  {
    forall x | x in Reach(seeds, reply, self) ensures x in inside {
      var path :| IsPath(path, seeds, reply, self) && path[|path| - 1] == x;
      PathStaysInside(path, inside, seeds, reply, self);
    }
  }

  lemma FinishedRounds(n: nat, seeds: set<NodeID>, all: set<NodeID>, target: NodeID, reply: Replies, self: NodeID)
    requires seeds <= all && Merged(all, all, reply, self)
    requires Batch(Rounds(n, seeds, target, reply, self), target) == []
    ensures var found := Rounds(n, seeds, target, reply, self).found;
      seeds <= found && Merged(found, found, reply, self)
  {
    var l := Rounds(n, seeds, target, reply, self);
    RoundsSound(n, seeds, all, target, reply, self);
    BatchMembers(l, target);
    assert l.found == l.contacted;
  }

  // At every moment all candidates are reachable; once every candidate has been contacted,
  // the candidates are exactly what is reachable.
  lemma RoundsReach(n: nat, seeds: set<NodeID>, target: NodeID, reply: Replies, self: NodeID)
    requires self !in seeds
    ensures Rounds(n, seeds, target, reply, self).found <= Reach(seeds, reply, self)
    ensures Batch(Rounds(n, seeds, target, reply, self), target) == [] ==>
      Rounds(n, seeds, target, reply, self).found == Reach(seeds, reply, self)
  {
    var l, all := Rounds(n, seeds, target, reply, self), Reach(seeds, reply, self);
    ReachClosed(seeds, reply, self);
    RoundsSound(n, seeds, all, target, reply, self);
    if Batch(l, target) == [] {
      FinishedRounds(n, seeds, all, target, reply, self);
      ReachLeast(l.found, seeds, reply, self);
    }
  }

  // When nobody is left to contact, all that can be reached has been contacted.
  lemma AllContacted(n: nat, seeds: set<NodeID>, target: NodeID, reply: Replies, self: NodeID)
    requires self !in seeds && Batch(Rounds(n, seeds, target, reply, self), target) == []
    ensures Rounds(n, seeds, target, reply, self) == Progress(Reach(seeds, reply, self), Reach(seeds, reply, self))
  {
    var all := Reach(seeds, reply, self);
    ReachClosed(seeds, reply, self);
    RoundsSound(n, seeds, all, target, reply, self);
    RoundsReach(n, seeds, target, reply, self);
    BatchMembers(Rounds(n, seeds, target, reply, self), target);
  }

  lemma RoundContactsMore(l: Progress, target: NodeID, reply: Replies, self: NodeID)
    requires Batch(l, target) != []
    ensures |Round(l, target, reply, self).contacted| > |l.contacted|
  {
    var batch := Batch(l, target);
    BatchMembers(l, target);
    assert batch[0] in ToSet(batch) && batch[0] !in l.contacted;
    SubsetCount(l.contacted + {batch[0]}, l.contacted + ToSet(batch));
  }

  lemma RoundsEnd(seeds: set<NodeID>, all: set<NodeID>, target: NodeID, reply: Replies, self: NodeID) returns (n: nat)
    requires seeds <= all && Merged(all, all, reply, self)
    ensures n <= |all| && Batch(Rounds(n, seeds, target, reply, self), target) == []
  {
    var l := Progress(seeds, {});
    n := 0;
    while Batch(l, target) != []
      invariant l == Rounds(n, seeds, target, reply, self) && Sound(l, seeds, all, reply, self)
      invariant n <= |l.contacted| <= |all|
      decreases |all| - |l.contacted|
    {
      RoundContactsMore(l, target, reply, self);
      RoundSound(l, seeds, all, target, reply, self);
      l, n := Round(l, target, reply, self), n + 1;
      SubsetCount(l.contacted, all);
    }
  }

  // A lookup ends, after at most as many rounds as there are reachable nodes, and it has
  // then found all of them.
  lemma LookupEnds(seeds: set<NodeID>, target: NodeID, reply: Replies, self: NodeID) returns (n: nat)
    requires self !in seeds
    ensures n <= |Reach(seeds, reply, self)|
    ensures Batch(Rounds(n, seeds, target, reply, self), target) == []
    ensures Rounds(n, seeds, target, reply, self).found == Reach(seeds, reply, self)
  {
    ReachClosed(seeds, reply, self);
    n := RoundsEnd(seeds, Reach(seeds, reply, self), target, reply, self);
    RoundsReach(n, seeds, target, reply, self);
  }

  // ----- Arrival order -----

  // A round as its goroutines interleave: each peer is marked contacted at some moment,
  // and its reply merged at some moment.
  datatype Event = Mark(peer: NodeID) | Merge(peer: NodeID)

  // Merging skips IDs that are marked contacted at that moment.
  ghost function Perform(l: Progress, e: Event, reply: Replies, self: NodeID): Progress {
    match e
    case Mark(p) => Progress(l.found, l.contacted + {p})
    case Merge(p) => Progress(l.found + (Brought({p}, reply, self) - l.contacted), l.contacted)
  }

  ghost function PerformAll(l: Progress, events: seq<Event>, reply: Replies, self: NodeID): Progress {
    if events == [] then l
    else Perform(PerformAll(l, events[..|events| - 1], reply, self), events[|events| - 1], reply, self)
  }

  ghost predicate IsSchedule(events: seq<Event>, batch: set<NodeID>) {
    (forall e | e in events :: e.peer in batch)
    && forall p | p in batch :: Mark(p) in events && Merge(p) in events
  }

  ghost function MergedIn(events: seq<Event>, batch: set<NodeID>): set<NodeID> {
    set p | p in batch && Merge(p) in events
  }

  ghost function MarkedIn(events: seq<Event>, batch: set<NodeID>): set<NodeID> {
    set p | p in batch && Mark(p) in events
  }

  lemma BroughtUnion(a: set<NodeID>, b: set<NodeID>, reply: Replies, self: NodeID)
    ensures Brought(a + b, reply, self) == Brought(a, reply, self) + Brought(b, reply, self)
  {
  }

  lemma MarkOne(l: Progress, batch: set<NodeID>, front: seq<Event>, p: NodeID, reply: Replies, self: NodeID)
    requires p in batch
    ensures Perform(PartlyDone(l, batch, front, reply, self), Mark(p), reply, self)
         == PartlyDone(l, batch, front + [Mark(p)], reply, self)
  {
    assert MarkedIn(front + [Mark(p)], batch) == MarkedIn(front, batch) + {p};
    assert MergedIn(front + [Mark(p)], batch) == MergedIn(front, batch);
  }

  // The filter on contacted IDs drops nothing: whatever has been contacted is a candidate.
  lemma MergeOne(l: Progress, batch: set<NodeID>, front: seq<Event>, p: NodeID, reply: Replies, self: NodeID)
    requires l.contacted <= l.found && batch <= l.found && p in batch
    ensures Perform(PartlyDone(l, batch, front, reply, self), Merge(p), reply, self)
         == PartlyDone(l, batch, front + [Merge(p)], reply, self)
  {
    assert MarkedIn(front + [Merge(p)], batch) == MarkedIn(front, batch);
    assert MergedIn(front + [Merge(p)], batch) == MergedIn(front, batch) + {p};
    BroughtUnion(MergedIn(front, batch), {p}, reply, self);
  }

  // Where a round stands once some of its events have happened, whatever their order.
  ghost function PartlyDone(l: Progress, batch: set<NodeID>, events: seq<Event>, reply: Replies,
      self: NodeID): Progress {
    Progress(l.found + Brought(MergedIn(events, batch), reply, self), l.contacted + MarkedIn(events, batch))
  }

  lemma {:induction false} PerformedSoFar(l: Progress, batch: set<NodeID>, events: seq<Event>,
      reply: Replies, self: NodeID)
    requires l.contacted <= l.found && batch <= l.found
    requires forall e | e in events :: e.peer in batch
    ensures PerformAll(l, events, reply, self) == PartlyDone(l, batch, events, reply, self)
    decreases |events|
  {
    if events == [] {
      assert MergedIn(events, batch) == {} && MarkedIn(events, batch) == {};
    } else {
      var front, e := events[..|events| - 1], events[|events| - 1];
      assert events == front + [e];
      PerformedSoFar(l, batch, front, reply, self);
      match e {
        case Mark(p) => MarkOne(l, batch, front, p, reply, self);
        case Merge(p) => MergeOne(l, batch, front, p, reply, self);
      }
    }
  }

  // Every interleaving of a round's marks and merges ends in the same state.
  lemma ScheduleIndependence(l: Progress, batch: set<NodeID>, events: seq<Event>,
      reply: Replies, self: NodeID)
    requires l.contacted <= l.found && batch <= l.found && IsSchedule(events, batch)
    ensures PerformAll(l, events, reply, self) == AfterBatch(l, batch, reply, self)
  {
    PerformedSoFar(l, batch, events, reply, self);
    assert MergedIn(events, batch) == batch && MarkedIn(events, batch) == batch;
  }

  // A whole lookup: round k runs under its own schedule, from the state the rounds before it left.
  ghost function ScheduledRun(schedules: seq<seq<Event>>, seeds: set<NodeID>, reply: Replies, self: NodeID): Progress {
    if schedules == [] then Progress(seeds, {})
    else
      var before := ScheduledRun(schedules[..|schedules| - 1], seeds, reply, self);
      PerformAll(before, schedules[|schedules| - 1], reply, self)
  }

  ghost predicate IsScheduledRun(schedules: seq<seq<Event>>, seeds: set<NodeID>, target: NodeID,
      reply: Replies, self: NodeID)
  {
    schedules == []
    || (IsScheduledRun(schedules[..|schedules| - 1], seeds, target, reply, self)
        && IsSchedule(schedules[|schedules| - 1],
             ToSet(Batch(ScheduledRun(schedules[..|schedules| - 1], seeds, reply, self), target))))
  }

  lemma ScheduledRound(l: Progress, events: seq<Event>, seeds: set<NodeID>, all: set<NodeID>, target: NodeID,
      reply: Replies, self: NodeID)
    requires Sound(l, seeds, all, reply, self) && Merged(all, all, reply, self)
    requires IsSchedule(events, ToSet(Batch(l, target)))
    ensures PerformAll(l, events, reply, self) == Round(l, target, reply, self)
    ensures Sound(Round(l, target, reply, self), seeds, all, reply, self)
  {
    BatchMembers(l, target);
    ScheduleIndependence(l, ToSet(Batch(l, target)), events, reply, self);
    RoundSound(l, seeds, all, target, reply, self);
  }

  // Whole runs agree too: whatever the arrival order in each round, n rounds lead to Rounds(n).
  lemma {:induction false} RunsAgree(schedules: seq<seq<Event>>, seeds: set<NodeID>, target: NodeID,
      reply: Replies, self: NodeID)
    requires self !in seeds && IsScheduledRun(schedules, seeds, target, reply, self)
    ensures ScheduledRun(schedules, seeds, reply, self) == Rounds(|schedules|, seeds, target, reply, self)
    decreases |schedules|
  {
    if schedules != [] {
      var n := |schedules| - 1;
      RunsAgree(schedules[..n], seeds, target, reply, self);
      RoundsSound(n, seeds, Everywhere(self), target, reply, self);
      ScheduledRound(Rounds(n, seeds, target, reply, self), schedules[n], seeds, Everywhere(self), target, reply, self);
    }
  }

  lemma KnownOrOffered(known: seq<Contact>, contacted: set<NodeID>, self: NodeID, offered: seq<Contact>, id: NodeID)
    requires id != self && id !in contacted
    ensures HasId(known + FirstNew(known, contacted, self, offered), id)
      <==> HasId(known, id) || HasId(offered, id)
  {
    var news := FirstNew(known, contacted, self, offered);
    FirstNewIds(known, contacted, self, offered);
    HasIdInSet(known, id);
    HasIdInSet(offered, id);
    HasIdInSet(known + news, id);
    assert IdSet(known + news) == IdSet(known) + IdSet(news);
  }

  lemma DistinctBoth(a: seq<Contact>, b: seq<Contact>)
    requires DistinctIds(a) && DistinctIds(b) && IdSet(a) !! IdSet(b)
    ensures DistinctIds(a + b)
  {
    forall i, j | 0 <= i < j < |a + b| ensures (a + b)[i].id != (a + b)[j].id {
      if i < |a| <= j {
        assert a[i] in a && b[j - |a|] in b;
        assert a[i].id in IdSet(a) && b[j - |a|].id in IdSet(b);
      }
    }
  }

  lemma AppendedIds(known: seq<Contact>, contacted: set<NodeID>, self: NodeID, offered: seq<Contact>)
    ensures IdSet(known + FirstNew(known, contacted, self, offered))
         == IdSet(known) + (IdSet(offered) - {self} - contacted)
    ensures DistinctIds(known) ==> DistinctIds(known + FirstNew(known, contacted, self, offered))
  {
    var news := FirstNew(known, contacted, self, offered);
    FirstNewIds(known, contacted, self, offered);
    assert IdSet(known + news) == IdSet(known) + IdSet(news);
    if DistinctIds(known) {
      DistinctBoth(known, news);
    }
  }

  // Sorting keeps the IDs. When only candidates have been contacted, nothing is lost by
  // skipping contacted ones.
  lemma SortedIds(known: seq<Contact>, contacted: set<NodeID>, self: NodeID, offered: seq<Contact>, cs: seq<Contact>)
    requires multiset(cs) == multiset(known + FirstNew(known, contacted, self, offered))
    ensures contacted <= IdSet(known) ==> IdSet(cs) == IdSet(known) + (IdSet(offered) - {self})
  {
    var appended := known + FirstNew(known, contacted, self, offered);
    forall c ensures c in cs <==> c in appended {
      assert c in cs <==> c in multiset(cs);
      assert c in appended <==> c in multiset(appended);
    }
    assert IdSet(cs) == IdSet(appended);
    AppendedIds(known, contacted, self, offered);
  }

  lemma BatchIds(cs: seq<Contact>, contacted: set<NodeID>, target: NodeID)
    ensures DistinctIds(cs) && NonDescending(cs, target) ==>
      IdsOf(Take(Uncontacted(cs, contacted), ALPHA)) == Batch(Progress(IdSet(cs), contacted), target)
  {
    if DistinctIds(cs) && NonDescending(cs, target) {
      var u := Uncontacted(cs, contacted);
      UncontactedMembers(cs, contacted, target);
      SortedContacts(u, target);
      assert IdSet(u) == IdSet(cs) - contacted;
      assert IdsOf(Take(u, ALPHA)) == Take(IdsOf(u), ALPHA);
    }
  }

  // ----- The lookup state itself -----

  class LookupState {
    const target: NodeID
    const self: NodeID
    var contacted: set<NodeID>
    var candidates: seq<Contact>

    ghost function Now(): Progress
      reads this
    {
      Progress(IdSet(candidates), contacted)
    }

    // Candidates are distinct, in order of distance and never the node itself; only
    // candidates have been contacted.
    ghost predicate Ordered()
      reads this
    {
      DistinctIds(candidates) && NonDescending(candidates, target)
      && self !in IdSet(candidates) && contacted <= IdSet(candidates)
    }

    constructor (self: NodeID, target: NodeID, seeds: seq<Contact>)
      ensures this.self == self && this.target == target
      ensures candidates == seeds && contacted == {}
    {
      this.target := target;
      this.self := self;
      contacted := {};
      candidates := seeds;
    }

    // From any starting order: afterwards the candidates are sorted, and they are the old
    // ones plus the first occurrence of each new ID.
    method AddCandidates(contacts: seq<Contact>)
      modifies this`candidates
      ensures NonDescending(candidates, target)
      ensures multiset(candidates) == multiset(old(candidates) + FirstNew(old(candidates), contacted, self, contacts))
      ensures forall c | c in candidates :: c in old(candidates) || c in contacts
      ensures old(Ordered()) ==> Ordered()
      ensures old(Ordered()) ==> IdSet(candidates) == old(IdSet(candidates)) + (IdSet(contacts) - {self})
    {
      ghost var known := candidates;
      for i := 0 to |contacts|
        invariant candidates == known + FirstNew(known, contacted, self, contacts[..i])
      {
        assert contacts[..i + 1][..i] == contacts[..i];
        var c := contacts[i];
        if c.id == self {
          continue;
        }
        if c.id in contacted {
          continue;
        }
        var duplicate := false;
        for k := 0 to |candidates|
          invariant !duplicate && forall m | 0 <= m < k :: candidates[m].id != c.id
        {
          if candidates[k].id == c.id {
            duplicate := true;
            break;
          }
        }
        assert duplicate <==> HasId(candidates, c.id);
        KnownOrOffered(known, contacted, self, contacts[..i], c.id);
        if !duplicate {
          candidates := candidates + [c];
        }
      }
      assert contacts[..|contacts|] == contacts;
      AppendedIds(known, contacted, self, contacts);
      candidates := SortByDistance(candidates, target);
      SortedIds(known, contacted, self, contacts, candidates);
      CandidatesFrom(known, contacted, self, contacts, candidates);
    }

    // The uncontacted candidates nearest to the target, at most ALPHA of them.
    method NextBatch() returns (batch: seq<Contact>)
      ensures batch == Take(Uncontacted(candidates, contacted), ALPHA)
      ensures Ordered() ==> IdsOf(batch) == Batch(Now(), target)
      ensures forall c | c in batch :: c in candidates
    {
      batch := [];
      for i := 0 to |candidates|
        invariant batch == Uncontacted(candidates[..i], contacted) && |batch| < ALPHA
        invariant forall c | c in batch :: c in candidates
      {
        assert candidates[..i + 1][..i] == candidates[..i];
        if candidates[i].id !in contacted {
          batch := batch + [candidates[i]];
          if |batch| >= ALPHA {
            UncontactedPrefix(candidates, contacted, i + 1);
            BatchIds(candidates, contacted, target);
            return;
          }
        }
      }
      assert candidates[..|candidates|] == candidates;
      BatchIds(candidates, contacted, target);
    }

    method MarkContacted(id: NodeID)
      modifies this`contacted
      ensures contacted == old(contacted) + {id}
    {
      contacted := contacted + {id};
    }

    method Closest(k: nat) returns (r: seq<Contact>)
      ensures r == Take(candidates, k)
      ensures Ordered() ==> IdsOf(r) == Top(IdSet(candidates), target, k)
      ensures forall c | c in r :: c in candidates
    {
      var n := if k > |candidates| then |candidates| else k;
      r := candidates[..n];
      if Ordered() {
        SortedContacts(candidates, target);
        assert IdsOf(r) == Take(IdsOf(candidates), k);
      }
    }
  }
}
