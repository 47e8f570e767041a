// What an iterative lookup finds in a network whose routing tables cover it.
// After Maymounkov and Mazieres, "Kademlia: A Peer-to-peer Information System Based on
// the XOR Metric", sections 2 and 3.
module Convergence {
  import opened Contacts
  import opened Lookups
  import opened Metric
  import opened NodeIds
  import opened Ranking
  import opened RoutingTables

  // ids, the contacts of p, are live nodes, and reach into every bucket range of p in which
  // the network has a node. One contact per range is enough.
  ghost predicate Covers(p: NodeID, ids: set<NodeID>, network: set<NodeID>) {
    ids <= network - {p}
    && forall q | q in network && q != p :: HasInBucket(p, ids, BucketOf(p, q))
  }

  ghost predicate HasInBucket(p: NodeID, ids: set<NodeID>, i: int) {
    exists b :: b in ids && BucketOf(p, b) == i
  }

  // r is what p answers to a search for target: the K nearest of a table that covers the
  // network. Each answer may come from the table of its own moment.
  ghost predicate CoveredReply(p: NodeID, r: set<NodeID>, network: set<NodeID>, target: NodeID) {
    exists ids :: Covers(p, ids, network) && r == ToSet(Top(ids, target, K))
  }

  // The node itself knows the seeds, and every other node of the network answers.
  ghost predicate AllAnswer(self: NodeID, seeds: set<NodeID>, reply: Replies, network: set<NodeID>, target: NodeID) {
    self in network && CoveredReply(self, seeds, network, target)
    && forall p :: Answers(p, self, reply, network, target)
  }

  ghost predicate Answers(p: NodeID, self: NodeID, reply: Replies, network: set<NodeID>, target: NodeID) {
    p in network && p != self ==> p in reply && CoveredReply(p, reply[p], network, target)
  }

  // ----- The standard coverage is a special case -----

  ghost function InBucket(p: NodeID, ids: set<NodeID>, i: int): set<NodeID> {
    set x | x in ids && BucketOf(p, x) == i
  }

  // Every bucket holds as many live contacts as it can: all nodes of its range, or K.
  ghost predicate FullyCovers(p: NodeID, ids: set<NodeID>, network: set<NodeID>) {
    ids <= network - {p}
    && forall i | 0 <= i < 256 ::
         |InBucket(p, ids, i)| == (if |InBucket(p, network, i)| < K then |InBucket(p, network, i)| else K)
  }

  lemma FullCoverageCovers(p: NodeID, ids: set<NodeID>, network: set<NodeID>)
    requires FullyCovers(p, ids, network)
    ensures Covers(p, ids, network)
  {
    forall q | q in network && q != p ensures HasInBucket(p, ids, BucketOf(p, q)) {
      var i := BucketOf(p, q);
      assert q in InBucket(p, network, i);
      assert InBucket(p, ids, i) != {};
      var b :| b in InBucket(p, ids, i);
    }
  }

  // ----- How a table comes to cover a network -----

  ghost predicate HeardInBucket(p: NodeID, ops: seq<TableOp>, i: int) {
    exists k | 0 <= k < |ops| :: ops[k].Add? && BucketOf(p, ops[k].contact.id) == i
  }

  // The table was told only of live nodes under addresses that can be sent on.
  ghost predicate ToldLive(ops: seq<TableOp>, network: set<NodeID>) {
    forall op | op in ops :: op.Add? && op.contact.id in network && op.contact.address.Some?
  }

  lemma TouchedNotEmpty(bucket: seq<Contact>, x: Contact)
    ensures Touched(bucket, x) != []
  {
  }

  lemma {:induction false} HeardFills(p: NodeID, ops: seq<TableOp>, i: int)
    requires 0 <= i < 256 && forall op | op in ops :: op.Add?
    ensures Run(p, ops)[i] != [] <==> HeardInBucket(p, ops, i)
    decreases |ops|
  {
    if ops != [] {
      var front, last := ops[..|ops| - 1], ops[|ops| - 1];
      assert ops == front + [last] && last in ops;
      HeardFills(p, front, i);
      RunOneMore(p, NoContacts(), front, last);
      TouchedNotEmpty(Run(p, front)[i], last.contact);
      HeardMore(p, front, last, i);
    }
  }

  lemma HeardMore(p: NodeID, front: seq<TableOp>, last: TableOp, i: int)
    requires last.Add?
    ensures HeardInBucket(p, front + [last], i)
      <==> HeardInBucket(p, front, i) || BucketOf(p, last.contact.id) == i
  {
    var ops := front + [last];
    assert ops[|front|] == last;
    if k :| 0 <= k < |front| && front[k].Add? && BucketOf(p, front[k].contact.id) == i {
      assert ops[k] == front[k];
    }
  }

  lemma {:induction false} HeldWasTold(p: NodeID, ops: seq<TableOp>, x: Contact)
    requires Holds(Run(p, ops), x)
    ensures Add(x) in ops && x.id != p
    decreases |ops|
  {
    if ops != [] {
      var front, last := ops[..|ops| - 1], ops[|ops| - 1];
      assert ops == front + [last];
      RunOneMore(p, NoContacts(), front, last);
      RunWellFormed(p, NoContacts(), front);
      match last {
        case Add(y) => AddedTable(p, Run(p, front), y);
        case Remove(id) => RemovedTable(p, Run(p, front), id);
      }
      if Holds(Run(p, front), x) {
        HeldWasTold(p, front, x);
        assert Add(x) in front;
      } else {
        assert last == Add(x);
      }
    }
  }

  lemma HasInBucketMeans(p: NodeID, b: Buckets, i: int)
    requires WellFormed(p, b) && 0 <= i < 256
    ensures HasInBucket(p, TableIds(b), i) <==> b[i] != []
  {
    if b[i] != [] {
      assert BucketOk(p, b[i], i);
      assert b[i][0].id in TableIds(b);
    }
    if HasInBucket(p, TableIds(b), i) {
      var id :| id in TableIds(b) && BucketOf(p, id) == i;
      var k, x :| 0 <= k < 256 && x in b[k] && x.id == id;
      assert BucketOk(p, b[k], k);
    }
  }

  lemma ToldInside(p: NodeID, ops: seq<TableOp>, network: set<NodeID>)
    requires ToldLive(ops, network)
    ensures WellFormed(p, Run(p, ops)) && TableIds(Run(p, ops)) <= network - {p}
    ensures forall x :: Holds(Run(p, ops), x) ==> x.address.Some?
  {
    RunWellFormed(p, NoContacts(), ops);
    IdsHeld(Run(p, ops));
    forall x | Holds(Run(p, ops), x) ensures x.id in network - {p} && x.address.Some? {
      HeldWasTold(p, ops, x);
    }
  }

  lemma HeardReaches(p: NodeID, ops: seq<TableOp>, i: int)
    requires 0 <= i < 256 && forall op | op in ops :: op.Add?
    ensures HasInBucket(p, TableIds(Run(p, ops)), i) <==> HeardInBucket(p, ops, i)
  {
    RunWellFormed(p, NoContacts(), ops);
    HasInBucketMeans(p, Run(p, ops), i);
    HeardFills(p, ops, i);
  }

  // ----- The K nearest nodes are found -----

  lemma {:induction false} LongestPrefix(ids: set<NodeID>, q: NodeID) returns (p: NodeID)
    requires ids != {}
    ensures p in ids && forall x | x in ids :: BucketOf(x, q) <= BucketOf(p, q)
    decreases |ids|
  {
    p :| p in ids;
    var rest := ids - {p};
    assert forall x | x in ids :: x == p || x in rest;
    if rest != {} {
      var r := LongestPrefix(rest, q);
      if BucketOf(r, q) > BucketOf(p, q) {
        p := r;
      }
    }
  }

  // If the reply of p leaves out a contact b of the bucket in which q lies, and brings
  // nobody from that bucket, then it brings K nodes nearer to the target than q.
  lemma ReplyBeats(p: NodeID, q: NodeID, b: NodeID, ids: set<NodeID>, target: NodeID)
    requires p != q && b in ids && BucketOf(p, b) == BucketOf(p, q)
    requires forall x | x in Top(ids, target, K) :: BucketOf(p, x) != BucketOf(p, q)
    ensures |Top(ids, target, K)| == K && Ascending(Top(ids, target, K), target)
    ensures forall x | x in Top(ids, target, K) :: x in ids && Nearer(x, q, target)
  {
    LeftOutOfTop(ids, target, K, b);
    SameBucketSharesPast(p, q, b);
    forall x | x in Top(ids, target, K) ensures Nearer(x, q, target) {
      if SharesPast(x, b, BucketOf(p, b)) {
        SharesPastSameBucket(p, b, x);
        assert false;
      }
      CompareAlike(x, b, q, target);
    }
  }

  lemma BeatenIsNotTop(network: set<NodeID>, target: NodeID, q: NodeID, r: seq<NodeID>)
    requires q in network && |r| == K && Ascending(r, target)
    requires forall x | x in r :: x in network && Nearer(x, q, target)
    ensures q !in Top(network, target, K)
  {
    DistinctCount(r, target);
    SubsetCount(ToSet(r), set x | x in network && Nearer(x, q, target));
    TopByRank(network, target, K, q);
  }

  // A node that is found by nobody is not among the K nearest.
  lemma MissedIsNotTop(self: NodeID, seeds: set<NodeID>, reply: Replies, network: set<NodeID>, target: NodeID,
      found: set<NodeID>, q: NodeID)
    requires AllAnswer(self, seeds, reply, network, target)
    requires seeds <= found <= network - {self} && Merged(found, found, reply, self)
    requires q in network && q != self && q !in found
    ensures q !in Top(network, target, K)
  {
    var known := found + {self};
    var p := LongestPrefix(known, q);
    assert Answers(p, self, reply, network, target);
    var r := if p == self then seeds else reply[p];
    assert CoveredReply(p, r, network, target);
    var ids :| Covers(p, ids, network) && r == ToSet(Top(ids, target, K));
    assert r <= known;
    assert HasInBucket(p, ids, BucketOf(p, q));
    var b :| b in ids && BucketOf(p, b) == BucketOf(p, q);
    var top := Top(ids, target, K);
    forall x | x in top ensures BucketOf(p, x) != BucketOf(p, q) {
      assert x in r;
      if BucketOf(p, x) == BucketOf(p, q) {
        SameBucketSharesPast(p, q, x);
        BucketSymmetric(q, x);
        assert false;
      }
    }
    ReplyBeats(p, q, b, ids, target);
    BeatenIsNotTop(network, target, q, top);
  }

  lemma FoundInside(self: NodeID, seeds: set<NodeID>, reply: Replies, network: set<NodeID>, target: NodeID)
    requires AllAnswer(self, seeds, reply, network, target)
    ensures self !in seeds && seeds <= network - {self}
    ensures Merged(network - {self}, network - {self}, reply, self)
  {
    ReplyInside(self, seeds, network, target);
    forall p | p in network && p != self && p in reply ensures reply[p] <= network {
      assert Answers(p, self, reply, network, target);
      ReplyInside(p, reply[p], network, target);
    }
  }

  lemma ReplyInside(p: NodeID, r: set<NodeID>, network: set<NodeID>, target: NodeID)
    requires CoveredReply(p, r, network, target)
    ensures r <= network - {p}
  {
    var ids :| Covers(p, ids, network) && r == ToSet(Top(ids, target, K));
    TopSubset(ids, target, K);
  }

  // The K nodes of the network nearest to the target, without the caller.
  ghost function Wanted(self: NodeID, network: set<NodeID>, target: NodeID): set<NodeID> {
    ToSet(Top(network, target, K)) - {self}
  }

  // Completeness: a lookup finds all of the network's K nearest nodes, and only nodes of the
  // network; its result begins with exactly those K, nearest first, without the caller.
  lemma LookupFindsClosest(self: NodeID, seeds: set<NodeID>, reply: Replies, network: set<NodeID>, target: NodeID)
    requires AllAnswer(self, seeds, reply, network, target)
    ensures Wanted(self, network, target) <= Reach(seeds, reply, self) <= network - {self}
    ensures Sorted(Wanted(self, network, target), target) <= Top(Reach(seeds, reply, self), target, K)
  {
    var found, wanted := Reach(seeds, reply, self), Wanted(self, network, target);
    FoundInside(self, seeds, reply, network, target);
    ReachClosed(seeds, reply, self);
    ReachLeast(network - {self}, seeds, reply, self);
    TopSubset(network, target, K);
    forall q | q in wanted ensures q in found {
      if q !in found {
        MissedIsNotTop(self, seeds, reply, network, target, found, q);
        assert false;
      }
    }
    WantedFirst(self, network, target, found);
  }

  lemma WantedCount(self: NodeID, network: set<NodeID>, target: NodeID)
    ensures |Wanted(self, network, target)| <= K
  {
    var s := Sorted(network, target);
    var top := Top(network, target, K);
    assert forall i | 0 <= i < |top| :: top[i] == s[i];
    DistinctCount(top, target);
    SubsetCount(Wanted(self, network, target), ToSet(top));
  }

  lemma WantedFirst(self: NodeID, network: set<NodeID>, target: NodeID, found: set<NodeID>)
    requires Wanted(self, network, target) <= found <= network - {self}
    ensures Sorted(Wanted(self, network, target), target) <= Top(found, target, K)
  {
    var wanted := Wanted(self, network, target);
    var rest := found - wanted;
    forall x, y | x in wanted && y in rest ensures Nearer(x, y, target) {
      LeftOutOfTop(network, target, K, y);
    }
    SortedConcat(wanted, rest, target);
    assert wanted + rest == found;
    WantedCount(self, network, target);
    PrefixOfTake(Sorted(wanted, target), Sorted(rest, target), K);
  }

  lemma PrefixOfTake(s: seq<NodeID>, u: seq<NodeID>, n: nat)
    requires |s| <= n
    ensures s <= Take(s + u, n)
  {
  }

  lemma WantedReturned(self: NodeID, seeds: set<NodeID>, reply: Replies, network: set<NodeID>, target: NodeID,
      x: NodeID)
    requires AllAnswer(self, seeds, reply, network, target)
    requires x in Top(network, target, K) && x != self
    ensures x in Reach(seeds, reply, self) && x in Top(Reach(seeds, reply, self), target, K)
  {
    LookupFindsClosest(self, seeds, reply, network, target);
    var wanted := Sorted(Wanted(self, network, target), target);
    assert x in ToSet(wanted);
    PrefixMember(wanted, Top(Reach(seeds, reply, self), target, K), x);
  }

  lemma PrefixMember(s: seq<NodeID>, u: seq<NodeID>, x: NodeID)
    requires s <= u && x in s
    ensures x in u
  {
    var k :| 0 <= k < |s| && s[k] == x;
    assert u[k] == x;
  }

  // In a network of at most K nodes the lookup finds everybody.
  lemma SmallNetworkFound(self: NodeID, seeds: set<NodeID>, reply: Replies, network: set<NodeID>, target: NodeID)
    requires AllAnswer(self, seeds, reply, network, target) && |network| <= K
    ensures Reach(seeds, reply, self) == network - {self}
  {
    LookupFindsClosest(self, seeds, reply, network, target);
    assert Top(network, target, K) == Sorted(network, target);
  }

  // ----- How fast the nearest node is found -----

  // Around the nearest node c, whoever is at least as near as a node that shares more than
  // i bits with c shares more than i bits with c.
  lemma NearerSharesMore(c: NodeID, x: NodeID, y: NodeID, i: int, target: NodeID)
    requires x == c || Nearer(c, x, target)
    requires SharesPast(y, c, i) && (x == y || Nearer(x, y, target))
    ensures SharesPast(x, c, i)
  {
    if !SharesPast(x, c, i) {
      LongerPrefixNearer(c, y, x, target);
    }
  }

  // The reply of a node h other than c brings a node that shares more bits with c, unless
  // the node itself might be the only one h could name.
  lemma ReplyImproves(self: NodeID, h: NodeID, c: NodeID, r: set<NodeID>, network: set<NodeID>, target: NodeID)
    returns (y: NodeID)
    requires IsNearest(c, network - {self}, target)
    requires h in network && h != c && (h == self || BucketOf(self, c) < BucketOf(h, c))
    requires CoveredReply(h, r, network, target)
    ensures y in r && y in network && y != self && SharesPast(y, c, BucketOf(h, c))
  {
    var ids :| Covers(h, ids, network) && r == ToSet(Top(ids, target, K));
    var i := BucketOf(h, c);
    assert HasInBucket(h, ids, i);
    var b :| b in ids && BucketOf(h, b) == i;
    SameBucketSharesPast(h, c, b);
    BucketSymmetric(b, c);
    TopSubset(ids, target, K);
    var top := Top(ids, target, K);
    assert b != self;
    if b in top {
      y := b;
    } else {
      LeftOutOfTop(ids, target, K, b);
      NearerIsTotal(top[0], top[1], target);
      y := if top[0] == self then top[1] else top[0];
      assert y in top;
      NearerSharesMore(c, y, b, i, target);
    }
  }

  // h is the head of the candidate list, and it is c itself, or has not been contacted yet
  // and shares more than i bits with c.
  ghost predicate IsHeadPast(h: NodeID, l: Progress, c: NodeID, i: int, target: NodeID) {
    IsNearest(h, l.found, target) && (h == c || (h !in l.contacted && BucketOf(h, c) > i))
  }

  lemma SeedHead(self: NodeID, c: NodeID, seeds: set<NodeID>, network: set<NodeID>, target: NodeID) returns (h: NodeID)
    requires self in network && IsNearest(c, network - {self}, target)
    requires CoveredReply(self, seeds, network, target) && seeds <= network - {self}
    ensures IsHeadPast(h, Progress(seeds, {}), c, BucketOf(self, c), target)
  {
    var y := ReplyImproves(self, self, c, seeds, network, target);
    NearestExists(seeds, target);
    h :| IsNearest(h, seeds, target);
    NearerSharesMore(c, h, y, BucketOf(self, c), target);
  }

  lemma HeadInBatch(l: Progress, h: NodeID, target: NodeID)
    requires IsNearest(h, l.found, target) && h !in l.contacted
    ensures h in Batch(l, target)
  {
    var open := l.found - l.contacted;
    var s := Sorted(open, target);
    assert h in ToSet(s);
    assert s[0] in ToSet(s);
    var i :| 0 <= i < |s| && s[i] == h;
    assert i == 0;
    assert Batch(l, target)[0] == h;
  }

  // A contacted node other than c is not the head: its own reply has displaced it.
  lemma ContactedIsNotHead(l: Progress, h: NodeID, self: NodeID, c: NodeID, seeds: set<NodeID>, reply: Replies,
      network: set<NodeID>, target: NodeID)
    requires AllAnswer(self, seeds, reply, network, target) && IsNearest(c, network - {self}, target)
    requires Sound(l, seeds, network - {self}, reply, self)
    requires h in l.contacted && h != c && BucketOf(h, c) > BucketOf(self, c)
    ensures !IsNearest(h, l.found, target)
  {
    assert Answers(h, self, reply, network, target);
    var z := ReplyImproves(self, h, c, reply[h], network, target);
    assert z in l.found;
    LongerPrefixNearer(c, z, h, target);
  }

  // With a candidate y that shares more than i bits with c, so does the head.
  lemma NewHead(l: Progress, self: NodeID, c: NodeID, y: NodeID, i: int, seeds: set<NodeID>, reply: Replies,
      network: set<NodeID>, target: NodeID) returns (h: NodeID)
    requires AllAnswer(self, seeds, reply, network, target) && IsNearest(c, network - {self}, target)
    requires Sound(l, seeds, network - {self}, reply, self)
    requires y in l.found && SharesPast(y, c, i) && i > BucketOf(self, c)
    ensures IsHeadPast(h, l, c, i, target)
  {
    NearestExists(l.found, target);
    h :| IsNearest(h, l.found, target);
    NearerSharesMore(c, h, y, i, target);
    if h != c && h in l.contacted {
      ContactedIsNotHead(l, h, self, c, seeds, reply, network, target);
    }
  }

  lemma RoundImproves(l: Progress, h: NodeID, self: NodeID, c: NodeID, i: int, seeds: set<NodeID>, reply: Replies,
      network: set<NodeID>, target: NodeID) returns (next: NodeID)
    requires AllAnswer(self, seeds, reply, network, target) && IsNearest(c, network - {self}, target)
    requires Sound(l, seeds, network - {self}, reply, self) && Merged(network - {self}, network - {self}, reply, self)
    requires IsHeadPast(h, l, c, i, target) && i >= BucketOf(self, c)
    ensures IsHeadPast(next, Round(l, target, reply, self), c, i + 1, target)
    ensures Sound(Round(l, target, reply, self), seeds, network - {self}, reply, self)
  {
    var l' := Round(l, target, reply, self);
    RoundSound(l, seeds, network - {self}, target, reply, self);
    if h == c {
      next := c;
    } else {
      HeadInBatch(l, h, target);
      assert Answers(h, self, reply, network, target);
      var y := ReplyImproves(self, h, c, reply[h], network, target);
      assert h in ToSet(Batch(l, target)) && y in Brought(ToSet(Batch(l, target)), reply, self);
      next := NewHead(l', self, c, y, BucketOf(h, c), seeds, reply, network, target);
    }
  }

  lemma HeadAfter(self: NodeID, c: NodeID, n: nat, seeds: set<NodeID>, reply: Replies,
      network: set<NodeID>, target: NodeID) returns (h: NodeID, l: Progress, i: int)
    requires AllAnswer(self, seeds, reply, network, target) && IsNearest(c, network - {self}, target)
    ensures l == Rounds(n, seeds, target, reply, self) && i == BucketOf(self, c) + n
    ensures IsHeadPast(h, l, c, i, target)
  {
    FoundInside(self, seeds, reply, network, target);
    h := SeedHead(self, c, seeds, network, target);
    l, i := Progress(seeds, {}), BucketOf(self, c);
    for k := 0 to n
      invariant l == Rounds(k, seeds, target, reply, self) && i == BucketOf(self, c) + k
      invariant Sound(l, seeds, network - {self}, reply, self)
      invariant IsHeadPast(h, l, c, i, target)
    {
      h := RoundImproves(l, h, self, c, i, seeds, reply, network, target);
      l, i := Round(l, target, reply, self), i + 1;
    }
  }

  // Round bound: after at most 255 rounds the head of the candidate list is the node of the
  // network nearest to the target, the caller excluded, and it stays the head. The bits that
  // the caller shares with that node to begin with are rounds saved.
  lemma HeadWithin255Rounds(self: NodeID, c: NodeID, n: nat, seeds: set<NodeID>, reply: Replies,
      network: set<NodeID>, target: NodeID)
    requires AllAnswer(self, seeds, reply, network, target) && IsNearest(c, network - {self}, target)
    requires n >= 255 - BucketOf(self, c)
    ensures Top(Rounds(n, seeds, target, reply, self).found, target, 1) == [c]
  {
    FoundInside(self, seeds, reply, network, target);
    var h, l, i := HeadAfter(self, c, n, seeds, reply, network, target);
    HeadFirst(h, l.found, target);
  }

  lemma HeadFirst(c: NodeID, ids: set<NodeID>, target: NodeID)
    requires IsNearest(c, ids, target)
    ensures Top(ids, target, 1) == [c]
  {
    var s := Sorted(ids, target);
    assert c in ToSet(s) && s[0] in ToSet(s);
    var i :| 0 <= i < |s| && s[i] == c;
    assert i == 0;
  }
}
