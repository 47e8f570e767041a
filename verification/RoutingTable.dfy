// The routing table: 256 buckets of at most K contacts each.
module RoutingTables {
  import opened Contacts
  import opened NodeIds
  import opened Ranking

  const K: nat := 20

  // ----- Buckets as values -----

  type Buckets = b: seq<seq<Contact>> | |b| == 256 witness seq(256, _ => [])

  function NoContacts(): Buckets {
    seq(256, _ => [])
  }

  // The bucket without its first contact that has the given ID.
  function Without(bucket: seq<Contact>, id: NodeID): seq<Contact> {
    if bucket == [] then []
    else if bucket[0].id == id then bucket[1..]
    else [bucket[0]] + Without(bucket[1..], id)
  }

  // A known contact moves to the back, a new one joins there if the bucket has room.
  function Touched(bucket: seq<Contact>, c: Contact): seq<Contact> {
    if HasId(bucket, c.id) then Without(bucket, c.id) + [c]
    else if |bucket| < K then bucket + [c]
    else bucket
  }

  ghost function Added(self: NodeID, b: Buckets, c: Contact): Buckets {
    var i := BucketOf(self, c.id);
    if i < 0 then b else b[i := Touched(b[i], c)]
  }

  ghost function Removed(self: NodeID, b: Buckets, id: NodeID): Buckets {
    var i := BucketOf(self, id);
    if i < 0 then b else b[i := Without(b[i], id)]
  }

  ghost predicate WellFormed(self: NodeID, b: Buckets) {
    forall i | 0 <= i < 256 :: BucketOk(self, b[i], i)
  }

  ghost predicate BucketOk(self: NodeID, bucket: seq<Contact>, i: int) {
    |bucket| <= K && DistinctIds(bucket) && forall c | c in bucket :: BucketOf(self, c.id) == i
  }

  ghost predicate Holds(b: Buckets, c: Contact) {
    exists i | 0 <= i < 256 :: c in b[i]
  }

  ghost function TableIds(b: Buckets): set<NodeID> {
    set i, c | 0 <= i < 256 && c in b[i] :: c.id
  }

  function Flatten(b: seq<seq<Contact>>): seq<Contact> {
    if b == [] then [] else Flatten(b[..|b| - 1]) + b[|b| - 1]
  }

  // ----- Removing from a bucket -----

  lemma {:induction false} WithoutSplices(bucket: seq<Contact>, id: NodeID, i: nat)
    requires i < |bucket| && bucket[i].id == id
    requires forall k | 0 <= k < i :: bucket[k].id != id
    ensures Without(bucket, id) == bucket[..i] + bucket[i + 1..]
    decreases i
  {
    if i > 0 {
      WithoutSplices(bucket[1..], id, i - 1);
      assert [bucket[0]] + (bucket[1..][..i - 1] + bucket[1..][i..]) == bucket[..i] + bucket[i + 1..];
    }
  }

  lemma {:induction false} WithoutAbsent(bucket: seq<Contact>, id: NodeID)
    requires !HasId(bucket, id)
    ensures Without(bucket, id) == bucket
  {
    if bucket != [] {
      assert bucket[0].id != id;
      forall i | 0 <= i < |bucket[1..]| ensures bucket[1..][i].id != id {
        assert bucket[1..][i] == bucket[i + 1];
      }
      WithoutAbsent(bucket[1..], id);
    }
  }

  lemma FirstWithId(bucket: seq<Contact>, id: NodeID) returns (i: nat)
    requires HasId(bucket, id)
    ensures i < |bucket| && bucket[i].id == id && forall k | 0 <= k < i :: bucket[k].id != id
  {
    i := 0;
    while bucket[i].id != id
      invariant i < |bucket| && forall k | 0 <= k < i :: bucket[k].id != id
      decreases |bucket| - i
    {
      i := i + 1;
    }
  }

  // Where a contact that stays was, and that two that stay keep their order.
  ghost function OldIndex(i: nat, j: nat): nat {
    if j < i then j else j + 1
  }

  lemma SpliceMember(bucket: seq<Contact>, i: nat, r: seq<Contact>, c: Contact)
    requires DistinctIds(bucket) && i < |bucket| && r == bucket[..i] + bucket[i + 1..]
    ensures c in r <==> c in bucket && c.id != bucket[i].id
  {
    if c in r {
      var k :| 0 <= k < |r| && r[k] == c;
      assert bucket[OldIndex(i, k)] == c;
    }
    if c in bucket && c.id != bucket[i].id {
      var k :| 0 <= k < |bucket| && bucket[k] == c;
      assert r[if k < i then k else k - 1] == c;
    }
  }

  lemma SpliceContents(bucket: seq<Contact>, i: nat, r: seq<Contact>)
    requires DistinctIds(bucket) && i < |bucket| && r == bucket[..i] + bucket[i + 1..]
    ensures DistinctIds(r)
    ensures forall c :: c in r <==> c in bucket && c.id != bucket[i].id
  {
    forall j, k | 0 <= j < k < |r| ensures r[j].id != r[k].id {
      assert r[j] == bucket[OldIndex(i, j)] && r[k] == bucket[OldIndex(i, k)];
    }
    forall c ensures c in r <==> c in bucket && c.id != bucket[i].id {
      SpliceMember(bucket, i, r, c);
    }
  }

  lemma WithoutContents(bucket: seq<Contact>, id: NodeID)
    requires DistinctIds(bucket)
    ensures DistinctIds(Without(bucket, id)) && |Without(bucket, id)| <= |bucket|
    ensures HasId(bucket, id) ==> |Without(bucket, id)| == |bucket| - 1
    ensures forall c :: c in Without(bucket, id) <==> c in bucket && c.id != id
  {
    if HasId(bucket, id) {
      var i := FirstWithId(bucket, id);
      WithoutSplices(bucket, id, i);
      SpliceContents(bucket, i, Without(bucket, id));
    } else {
      WithoutAbsent(bucket, id);
      forall c | c in bucket ensures c.id != id {
        var k :| 0 <= k < |bucket| && bucket[k] == c;
        assert bucket[k].id != id;
      }
    }
  }

  // ----- One step -----

  lemma TouchedContents(bucket: seq<Contact>, c: Contact)
    requires DistinctIds(bucket) && |bucket| <= K
    ensures DistinctIds(Touched(bucket, c)) && |Touched(bucket, c)| <= K
    ensures forall x :: x in Touched(bucket, c) <==>
      (x in bucket && x.id != c.id) || (x == c && (HasId(bucket, c.id) || |bucket| < K))
  {
    WithoutContents(bucket, c.id);
    var r := Touched(bucket, c);
    if HasId(bucket, c.id) {
      var w := Without(bucket, c.id);
      assert forall k | 0 <= k < |w| :: w[k] in w;
    } else {
      assert forall k | 0 <= k < |bucket| :: bucket[k].id != c.id;
    }
  }

  // An Add keeps the invariant; it evicts nobody, and it admits exactly a contact that is
  // not the node itself and whose bucket knows it already or has room.
  lemma AddedTable(self: NodeID, b: Buckets, c: Contact)
    requires WellFormed(self, b)
    ensures WellFormed(self, Added(self, b, c))
    ensures forall x :: Holds(Added(self, b, c), x) <==>
      (Holds(b, x) && x.id != c.id)
      || (x == c && c.id != self && (c.id in TableIds(b) || |b[BucketOf(self, c.id)]| < K))
    ensures TableIds(b) <= TableIds(Added(self, b, c)) <= TableIds(b) + {c.id}
  {
    var i := BucketOf(self, c.id);
    if i >= 0 {
      assert BucketOk(self, b[i], i);
      TouchedContents(b[i], c);
      KnownInBucket(self, b, c.id);
      var r := Added(self, b, c);
      forall k | 0 <= k < 256 ensures BucketOk(self, r[k], k) {
        assert BucketOk(self, b[k], k);
      }
      forall x
        ensures Holds(r, x) <==>
          (Holds(b, x) && x.id != c.id) || (x == c && (c.id in TableIds(b) || |b[i]| < K))
      {
        HeldInBucket(self, b, x);
        HeldInBucket(self, r, x);
      }
      IdsHeld(b);
      IdsHeld(r);
    } else {
      assert forall x :: Holds(b, x) ==> x.id != c.id by {
        forall x | Holds(b, x) ensures x.id != c.id {
          HeldInBucket(self, b, x);
        }
      }
    }
  }

  lemma RemovedTable(self: NodeID, b: Buckets, id: NodeID)
    requires WellFormed(self, b)
    ensures WellFormed(self, Removed(self, b, id))
    ensures forall x :: Holds(Removed(self, b, id), x) <==> Holds(b, x) && x.id != id
    ensures TableIds(Removed(self, b, id)) == TableIds(b) - {id}
  {
    var i := BucketOf(self, id);
    var r := Removed(self, b, id);
    if i >= 0 {
      assert BucketOk(self, b[i], i);
      WithoutContents(b[i], id);
      forall k | 0 <= k < 256 ensures BucketOk(self, r[k], k) {
        assert BucketOk(self, b[k], k);
      }
    }
    forall x ensures Holds(r, x) <==> Holds(b, x) && x.id != id {
      HeldInBucket(self, b, x);
      HeldInBucket(self, r, x);
    }
    IdsHeld(b);
    IdsHeld(r);
  }

  lemma HeldInBucket(self: NodeID, b: Buckets, c: Contact)
    requires WellFormed(self, b)
    ensures Holds(b, c) <==> c.id != self && c in b[BucketOf(self, c.id)]
  {
    if Holds(b, c) {
      var i :| 0 <= i < 256 && c in b[i];
      assert BucketOk(self, b[i], i);
    }
  }

  lemma IdsHeld(b: Buckets)
    ensures forall id :: id in TableIds(b) <==> exists c :: Holds(b, c) && c.id == id
  {
    forall id ensures id in TableIds(b) <==> exists c :: Holds(b, c) && c.id == id {
      if id in TableIds(b) {
        var i, c :| 0 <= i < 256 && c in b[i] && c.id == id;
        assert Holds(b, c);
      }
    }
  }

  lemma KnownInBucket(self: NodeID, b: Buckets, id: NodeID)
    requires WellFormed(self, b) && id != self
    ensures id in TableIds(b) <==> HasId(b[BucketOf(self, id)], id)
  {
    var bucket := b[BucketOf(self, id)];
    IdsHeld(b);
    if id in TableIds(b) {
      var c :| Holds(b, c) && c.id == id;
      HeldInBucket(self, b, c);
      var k :| 0 <= k < |bucket| && bucket[k] == c;
      assert bucket[k].id == id;
    }
    if HasId(bucket, id) {
      var k :| 0 <= k < |bucket| && bucket[k].id == id;
      assert bucket[k] in bucket;
    }
  }

  // IDs are distinct across the whole table, and the node itself is absent.
  lemma OneContactPerId(self: NodeID, b: Buckets, x: Contact, y: Contact)
    requires WellFormed(self, b) && Holds(b, x) && Holds(b, y)
    ensures x.id == y.id <==> x == y
    ensures x.id != self
  {
    HeldInBucket(self, b, x);
    HeldInBucket(self, b, y);
    if x.id == y.id {
      var i := BucketOf(self, x.id);
      assert BucketOk(self, b[i], i);
    }
  }

  // ----- Whole runs -----

  datatype TableOp = Add(contact: Contact) | Remove(id: NodeID)

  ghost function Apply(self: NodeID, b: Buckets, op: TableOp): Buckets {
    match op
    case Add(c) => Added(self, b, c)
    case Remove(id) => Removed(self, b, id)
  }

  ghost function RunFrom(self: NodeID, b: Buckets, ops: seq<TableOp>): Buckets
    decreases |ops|
  {
    if ops == [] then b else Apply(self, RunFrom(self, b, ops[..|ops| - 1]), ops[|ops| - 1])
  }

  lemma RunOneMore(self: NodeID, b: Buckets, ops: seq<TableOp>, op: TableOp)
    ensures RunFrom(self, b, ops + [op]) == Apply(self, RunFrom(self, b, ops), op)
  {
    assert (ops + [op])[..|ops|] == ops;
  }

  ghost function Run(self: NodeID, ops: seq<TableOp>): Buckets {
    RunFrom(self, NoContacts(), ops)
  }

  lemma {:induction false} RunWellFormed(self: NodeID, b: Buckets, ops: seq<TableOp>)
    requires WellFormed(self, b)
    ensures WellFormed(self, RunFrom(self, b, ops))
    decreases |ops|
  {
    if ops != [] {
      var before := RunFrom(self, b, ops[..|ops| - 1]);
      RunWellFormed(self, b, ops[..|ops| - 1]);
      match ops[|ops| - 1]
      case Add(c) => AddedTable(self, before, c);
      case Remove(id) => RemovedTable(self, before, id);
    }
  }

  lemma {:induction false} RunSplit(self: NodeID, b: Buckets, before: seq<TableOp>, ops: seq<TableOp>)
    ensures RunFrom(self, b, before + ops) == RunFrom(self, RunFrom(self, b, before), ops)
    decreases |ops|
  {
    if ops == [] {
      assert before + ops == before;
    } else {
      var front, last := ops[..|ops| - 1], ops[|ops| - 1];
      assert before + ops == (before + front) + [last];
      RunOneMore(self, b, before + front, last);
      RunSplit(self, b, before, front);
    }
  }

  // The ID is in the table, or its bucket is full without it.
  ghost predicate InOrFull(self: NodeID, b: Buckets, id: NodeID) {
    id != self ==> id in TableIds(b) || |b[BucketOf(self, id)]| == K
  }

  lemma TouchedKeeps(bucket: seq<Contact>, c: Contact)
    requires DistinctIds(bucket)
    ensures |Touched(bucket, c)| >= |bucket|
  {
    WithoutContents(bucket, c.id);
  }

  lemma AddedInOrFull(self: NodeID, b: Buckets, c: Contact)
    requires WellFormed(self, b)
    ensures InOrFull(self, Added(self, b, c), c.id)
    ensures forall id | InOrFull(self, b, id) :: InOrFull(self, Added(self, b, c), id)
  {
    var r := Added(self, b, c);
    AddedTable(self, b, c);
    IdsHeld(r);
    if c.id != self {
      var i := BucketOf(self, c.id);
      assert BucketOk(self, b[i], i);
      if |b[i]| < K {
        assert Holds(r, c);
      }
    }
    forall id | InOrFull(self, b, id) ensures InOrFull(self, r, id) {
      if id != self && id !in TableIds(b) {
        var i := BucketOf(self, id);
        assert BucketOk(self, b[i], i) && BucketOk(self, r[i], i);
        TouchedKeeps(b[i], c);
      }
    }
  }

  // After some Adds the table has what it had, and everybody added whose bucket is not full.
  lemma {:induction false} AddsTable(self: NodeID, b: Buckets, ops: seq<TableOp>)
    requires WellFormed(self, b) && forall op | op in ops :: op.Add?
    ensures TableIds(b) <= TableIds(RunFrom(self, b, ops))
    ensures forall op | op in ops :: InOrFull(self, RunFrom(self, b, ops), op.contact.id)
    decreases |ops|
  {
    if ops != [] {
      var front, last := ops[..|ops| - 1], ops[|ops| - 1];
      assert ops == front + [last] && last in ops;
      AddsTable(self, b, front);
      RunWellFormed(self, b, front);
      AddedTable(self, RunFrom(self, b, front), last.contact);
      AddedInOrFull(self, RunFrom(self, b, front), last.contact);
    }
  }

  // The contacts with these IDs are gone, all others are there.
  ghost predicate Forgotten(b: Buckets, after: Buckets, ids: set<NodeID>) {
    forall x :: Holds(after, x) <==> Holds(b, x) && x.id !in ids
  }

  lemma {:induction false} RemovesTable(self: NodeID, b: Buckets, ops: seq<TableOp>, ids: set<NodeID>)
    requires WellFormed(self, b) && forall op | op in ops :: op.Remove?
    requires forall id :: id in ids <==> TableOp.Remove(id) in ops
    ensures Forgotten(b, RunFrom(self, b, ops), ids)
    decreases |ops|
  {
    if ops != [] {
      var front, last := ops[..|ops| - 1], ops[|ops| - 1];
      assert ops == front + [last] && last in ops;
      var rest := set op | op in front :: op.id;
      RemovesTable(self, b, front, rest);
      RunWellFormed(self, b, front);
      RemovedTable(self, RunFrom(self, b, front), last.id);
      assert ids == rest + {last.id};
    }
  }

  lemma ForgottenIds(b: Buckets, after: Buckets, ids: set<NodeID>)
    requires Forgotten(b, after, ids)
    ensures TableIds(after) == TableIds(b) - ids
  {
    IdsHeld(b);
    IdsHeld(after);
    forall id | id in TableIds(b) - ids ensures id in TableIds(after) {
      var c :| Holds(b, c) && c.id == id;
      assert Holds(after, c);
    }
    forall id | id in TableIds(after) ensures id in TableIds(b) - ids {
      var c :| Holds(after, c) && c.id == id;
      assert Holds(b, c);
    }
  }

  lemma {:induction false} FlattenBound(b: seq<seq<Contact>>)
    requires forall i | 0 <= i < |b| :: |b[i]| <= K
    ensures |Flatten(b)| <= |b| * K
  {
    if b != [] {
      FlattenBound(b[..|b| - 1]);
    }
  }

  // After any run of Adds and Removes: buckets of at most K, each contact in the bucket of
  // its distance, no ID twice, never the node itself, at most 256 * K contacts in all.
  lemma TableInvariant(self: NodeID, ops: seq<TableOp>)
    ensures WellFormed(self, Run(self, ops))
    ensures forall i | 0 <= i < 256 :: |Run(self, ops)[i]| <= K
    ensures forall i, c | 0 <= i < 256 && c in Run(self, ops)[i] :: BucketOf(self, c.id) == i
    ensures forall x, y | Holds(Run(self, ops), x) && Holds(Run(self, ops), y) :: x.id == y.id ==> x == y
    ensures self !in TableIds(Run(self, ops))
    ensures |Flatten(Run(self, ops))| <= 256 * K
  {
    RunWellFormed(self, NoContacts(), ops);
    var b := Run(self, ops);
    assert forall i | 0 <= i < 256 :: BucketOk(self, b[i], i);
    forall x, y | Holds(b, x) && Holds(b, y) ensures x.id == y.id ==> x == y {
      OneContactPerId(self, b, x, y);
    }
    FlattenBound(b);
  }

  // Retention: only a Remove of that ID drops a contact's ID from the table.
  lemma {:induction false} Retention(self: NodeID, b: Buckets, ops: seq<TableOp>, id: NodeID)
    requires WellFormed(self, b) && id in TableIds(b)
    requires forall i | 0 <= i < |ops| :: ops[i] != Remove(id)
    ensures id in TableIds(RunFrom(self, b, ops))
    decreases |ops|
  {
    if ops != [] {
      var front := ops[..|ops| - 1];
      Retention(self, b, front, id);
      RunWellFormed(self, b, front);
      match ops[|ops| - 1]
      case Add(c) => AddedTable(self, RunFrom(self, b, front), c);
      case Remove(other) => RemovedTable(self, RunFrom(self, b, front), other);
    }
  }

  predicate AddsId(op: TableOp, id: NodeID) {
    op.Add? && op.contact.id == id
  }

  // The position of the latest Add of an ID, -1 if there is none.
  function LastAdd(ops: seq<TableOp>, id: NodeID): (i: int)
    ensures -1 <= i < |ops|
    ensures i >= 0 ==> AddsId(ops[i], id)
    ensures forall k | i < k < |ops| :: !AddsId(ops[k], id)
    decreases |ops|
  {
    if ops == [] then -1
    else if AddsId(ops[|ops| - 1], id) then |ops| - 1
    else LastAdd(ops[..|ops| - 1], id)
  }

  ghost predicate LatestAddIs(ops: seq<TableOp>, c: Contact) {
    LastAdd(ops, c.id) >= 0 && ops[LastAdd(ops, c.id)] == Add(c)
  }

  // A bucket lists its contacts by their latest Add, oldest first, each as that Add gave it.
  ghost predicate ByRecency(bucket: seq<Contact>, ops: seq<TableOp>) {
    (forall j, k | 0 <= j < k < |bucket| :: LastAdd(ops, bucket[j].id) < LastAdd(ops, bucket[k].id))
    && forall j | 0 <= j < |bucket| :: LatestAddIs(ops, bucket[j])
  }

  lemma SpliceKeepsRecency(bucket: seq<Contact>, ops: seq<TableOp>, i: nat, r: seq<Contact>)
    requires ByRecency(bucket, ops) && i < |bucket| && r == bucket[..i] + bucket[i + 1..]
    ensures ByRecency(r, ops)
  {
    assert forall k | 0 <= k < |r| :: r[k] == bucket[OldIndex(i, k)];
    forall j, k | 0 <= j < k < |r| ensures LastAdd(ops, r[j].id) < LastAdd(ops, r[k].id) {
      var j', k' := OldIndex(i, j), OldIndex(i, k);
      assert j' < k' && LastAdd(ops, bucket[j'].id) < LastAdd(ops, bucket[k'].id);
    }
  }

  lemma WithoutKeepsRecency(bucket: seq<Contact>, ops: seq<TableOp>, id: NodeID)
    requires ByRecency(bucket, ops)
    ensures ByRecency(Without(bucket, id), ops)
  {
    if HasId(bucket, id) {
      var i := FirstWithId(bucket, id);
      WithoutSplices(bucket, id, i);
      SpliceKeepsRecency(bucket, ops, i, Without(bucket, id));
    } else {
      WithoutAbsent(bucket, id);
    }
  }

  lemma LaterOpsKeepRecency(bucket: seq<Contact>, ops: seq<TableOp>, op: TableOp)
    requires ByRecency(bucket, ops)
    requires op.Add? ==> !HasId(bucket, op.contact.id)
    ensures ByRecency(bucket, ops + [op])
  {
    var all := ops + [op];
    assert all[..|all| - 1] == ops;
    forall j | 0 <= j < |bucket| ensures LastAdd(all, bucket[j].id) == LastAdd(ops, bucket[j].id) {
    }
  }

  lemma LatestAddsDiffer(ops: seq<TableOp>, x: Contact, y: Contact)
    requires LatestAddIs(ops, x) && LatestAddIs(ops, y) && x.id != y.id
    ensures LastAdd(ops, x.id) != LastAdd(ops, y.id)
  {
    assert ops[LastAdd(ops, x.id)] == Add(x) && ops[LastAdd(ops, y.id)] == Add(y);
  }

  lemma AppendLatest(bucket: seq<Contact>, ops: seq<TableOp>, c: Contact)
    requires ByRecency(bucket, ops) && LatestAddIs(ops, c)
    requires LastAdd(ops, c.id) == |ops| - 1 && !HasId(bucket, c.id)
    ensures ByRecency(bucket + [c], ops)
  {
    var r := bucket + [c];
    forall k | 0 <= k < |bucket| ensures LastAdd(ops, r[k].id) < LastAdd(ops, c.id) {
      assert LatestAddIs(ops, bucket[k]);
      LatestAddsDiffer(ops, bucket[k], c);
    }
    assert forall k | 0 <= k < |r| :: k < |bucket| || r[k] == c;
  }

  lemma TouchedByRecency(bucket: seq<Contact>, ops: seq<TableOp>, c: Contact)
    requires DistinctIds(bucket) && ByRecency(bucket, ops)
    requires HasId(bucket, c.id) || |bucket| < K
    ensures ByRecency(Touched(bucket, c), ops + [Add(c)])
  {
    var w, all := Without(bucket, c.id), ops + [Add(c)];
    WithoutKeepsRecency(bucket, ops, c.id);
    WithoutContents(bucket, c.id);
    assert forall k | 0 <= k < |w| :: w[k] in w;
    LaterOpsKeepRecency(w, ops, Add(c));
    AppendLatest(w, all, c);
    if !HasId(bucket, c.id) {
      WithoutAbsent(bucket, c.id);
    }
  }

  // Recency: in every run each bucket is ordered by most recent accepted Add. A rejected
  // Add never counts, since an ID in the table is always accepted.
  lemma {:induction false} BucketsByRecency(self: NodeID, ops: seq<TableOp>, i: nat)
    requires i < 256
    ensures ByRecency(Run(self, ops)[i], ops)
    decreases |ops|
  {
    if ops != [] {
      var front, op := ops[..|ops| - 1], ops[|ops| - 1];
      assert ops == front + [op];
      BucketsByRecency(self, front, i);
      TableInvariant(self, front);
      var before := Run(self, front)[i];
      assert BucketOk(self, before, i);
      match op {
        case Add(c) =>
          if BucketOf(self, c.id) == i && (HasId(before, c.id) || |before| < K) {
            TouchedByRecency(before, front, c);
          } else {
            assert forall k | 0 <= k < |before| :: before[k] in before;
            LaterOpsKeepRecency(before, front, op);
          }
        case Remove(id) =>
          WithoutKeepsRecency(before, front, id);
          LaterOpsKeepRecency(Run(self, ops)[i], front, op);
      }
    }
  }

  // ----- The nearest contacts -----

  ghost function ContactFor(b: Buckets, id: NodeID): (c: Contact)
    requires id in TableIds(b)
    ensures Holds(b, c) && c.id == id
  {
    IdsHeld(b);
    var c :| Holds(b, c) && c.id == id;
    c
  }

  ghost function ContactsFor(b: Buckets, ids: seq<NodeID>): (r: seq<Contact>)
    requires forall x | x in ids :: x in TableIds(b)
    ensures IdsOf(r) == ids && forall c | c in r :: Holds(b, c)
  {
    seq(|ids|, i requires 0 <= i < |ids| => ContactFor(b, ids[i]))
  }

  // The table's count nearest contacts to the target, nearest first.
  ghost function ClosestOf(b: Buckets, target: NodeID, count: nat): (r: seq<Contact>)
    ensures IdsOf(r) == Top(TableIds(b), target, count)
    ensures forall c | c in r :: Holds(b, c)
  {
    TopSubset(TableIds(b), target, count);
    ContactsFor(b, Top(TableIds(b), target, count))
  }

  lemma TopSubset(ids: set<NodeID>, target: NodeID, count: nat)
    ensures forall x | x in Top(ids, target, count) :: x in ids
  {
    forall x | x in Top(ids, target, count) ensures x in ids {
      assert x in ToSet(Sorted(ids, target));
    }
  }

  // Every returned contact is nearer than every one left out.
  lemma ClosestBeatsRest(self: NodeID, b: Buckets, target: NodeID, count: nat, x: Contact, y: Contact)
    requires WellFormed(self, b)
    requires x in ClosestOf(b, target, count) && Holds(b, y) && y !in ClosestOf(b, target, count)
    ensures Nearer(x.id, y.id, target) && |ClosestOf(b, target, count)| == count
  {
    var r := ClosestOf(b, target, count);
    var top := Top(TableIds(b), target, count);
    IdsHeld(b);
    var k :| 0 <= k < |r| && r[k] == x;
    assert top[k] == x.id;
    forall j | 0 <= j < |top| ensures top[j] != y.id {
      assert r[j] in r;
      OneContactPerId(self, b, r[j], y);
    }
    LeftOutOfTop(TableIds(b), target, count, y.id);
  }

  lemma {:induction false} FlattenMembers(b: seq<seq<Contact>>, c: Contact)
    ensures c in Flatten(b) <==> exists i | 0 <= i < |b| :: c in b[i]
  {
    if b != [] {
      FlattenMembers(b[..|b| - 1], c);
    }
  }

  lemma {:induction false} FlattenDistinct(self: NodeID, b: seq<seq<Contact>>)
    requires forall i | 0 <= i < |b| :: BucketOk(self, b[i], i)
    ensures DistinctIds(Flatten(b))
    ensures forall c | c in Flatten(b) :: BucketOf(self, c.id) < |b|
  {
    if b != [] {
      var front, last := Flatten(b[..|b| - 1]), b[|b| - 1];
      FlattenDistinct(self, b[..|b| - 1]);
      assert BucketOk(self, last, |b| - 1);
      assert forall k | 0 <= k < |front| :: front[k] in front;
      assert forall k | 0 <= k < |last| :: last[k] in last;
    }
  }

  lemma ArrangedIds(self: NodeID, b: Buckets, all: seq<Contact>)
    requires multiset(all) == multiset(Flatten(b))
    ensures forall c :: c in all <==> Holds(b, c)
    ensures IdSet(all) == TableIds(b)
  {
    forall c ensures c in all <==> Holds(b, c) {
      assert c in all <==> c in multiset(all);
      assert c in Flatten(b) <==> c in multiset(Flatten(b));
      FlattenMembers(b, c);
    }
    IdsHeld(b);
  }

  lemma SameIdsSameContacts(self: NodeID, b: Buckets, r: seq<Contact>, s: seq<Contact>)
    requires WellFormed(self, b) && IdsOf(r) == IdsOf(s)
    requires forall c | c in r :: Holds(b, c)
    requires forall c | c in s :: Holds(b, c)
    ensures r == s
  {
    forall k | 0 <= k < |r| ensures r[k] == s[k] {
      assert IdsOf(r)[k] == IdsOf(s)[k];
      assert r[k] in r && s[k] in s;
      OneContactPerId(self, b, r[k], s[k]);
    }
  }

  // Any arrangement of the table's contacts in non-descending order starts with ClosestOf,
  // so an unstable sort cannot show.
  lemma SortedTable(self: NodeID, b: Buckets, all: seq<Contact>, target: NodeID, count: nat)
    requires WellFormed(self, b)
    requires multiset(all) == multiset(Flatten(b)) && DistinctIds(all) && NonDescending(all, target)
    ensures Take(all, count) == ClosestOf(b, target, count)
  {
    ArrangedIds(self, b, all);
    SortedContacts(all, target);
    assert IdsOf(Take(all, count)) == Take(IdsOf(all), count);
    SameIdsSameContacts(self, b, Take(all, count), ClosestOf(b, target, count));
  }

  // ----- The table itself -----

  class RoutingTable {
    const self: NodeID
    const buckets: array<seq<Contact>>
    // Every Add and Remove so far.
    ghost var log: seq<TableOp>

    ghost predicate Valid()
      reads this, buckets
    {
      buckets.Length == 256 && buckets[..] == Run(self, log)
    }

    constructor (self: NodeID)
      ensures Valid() && fresh(buckets)
      ensures this.self == self && log == [] && buckets[..] == NoContacts()
    {
      this.self := self;
      var empty: seq<Contact> := [];
      buckets := new seq<Contact>[256](_ => empty);
      log := [];
      new;
      assert buckets[..] == NoContacts();
    }

    method Add(c: Contact)
      requires Valid()
      modifies this`log, buckets
      ensures Valid() && log == old(log) + [TableOp.Add(c)]
      ensures buckets[..] == Added(self, old(buckets[..]), c)
    {
      TableInvariant(self, log);
      RunOneMore(self, NoContacts(), log, TableOp.Add(c));
      log := log + [TableOp.Add(c)];
      if c.id == self {
        return;
      }
      var idx := BucketIndex(self, c.id);
      if idx < 0 {
        return;
      }
      var bucket := buckets[idx];
      for i := 0 to |bucket|
        invariant forall k | 0 <= k < i :: bucket[k].id != c.id
        invariant buckets[..] == old(buckets[..])
      {
        if bucket[i].id == c.id {
          WithoutSplices(bucket, c.id, i);
          buckets[idx] := bucket[..i] + bucket[i + 1..] + [c];
          return;
        }
      }
      if |bucket| < K {
        buckets[idx] := bucket + [c];
      }
    }

    method Remove(id: NodeID)
      requires Valid()
      modifies this`log, buckets
      ensures Valid() && log == old(log) + [TableOp.Remove(id)]
      ensures buckets[..] == Removed(self, old(buckets[..]), id)
    {
      TableInvariant(self, log);
      RunOneMore(self, NoContacts(), log, TableOp.Remove(id));
      log := log + [TableOp.Remove(id)];
      var idx := BucketIndex(self, id);
      if idx < 0 {
        return;
      }
      var bucket := buckets[idx];
      for i := 0 to |bucket|
        invariant forall k | 0 <= k < i :: bucket[k].id != id
        invariant buckets[..] == old(buckets[..])
      {
        if bucket[i].id == id {
          WithoutSplices(bucket, id, i);
          buckets[idx] := bucket[..i] + bucket[i + 1..];
          return;
        }
      }
      WithoutAbsent(bucket, id);
    }

    method Closest(target: NodeID, count: nat) returns (r: seq<Contact>)
      requires Valid()
      ensures r == ClosestOf(buckets[..], target, count)
    {
      TableInvariant(self, log);
      var all: seq<Contact> := [];
      for i := 0 to 256
        invariant all == Flatten(buckets[..i])
      {
        assert buckets[..i + 1][..i] == buckets[..i];
        all := all + buckets[i];
      }
      assert buckets[..256] == buckets[..];
      FlattenDistinct(self, buckets[..]);
      var sorted := SortByDistance(all, target);
      SortedTable(self, buckets[..], sorted, target, count);
      var n := if count > |sorted| then |sorted| else count;
      return sorted[..n];
    }

    method Size() returns (total: nat)
      requires Valid()
      ensures total == |Flatten(buckets[..])| <= 256 * K
    {
      total := 0;
      for i := 0 to 256
        invariant total == |Flatten(buckets[..i])|
      {
        assert buckets[..i + 1][..i] == buckets[..i];
        total := total + |buckets[i]|;
      }
      assert buckets[..256] == buckets[..];
      TableInvariant(self, log);
      FlattenBound(buckets[..]);
    }
  }
}
