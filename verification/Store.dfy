// Signed name records and the store that keeps one per name.
module Stores {
  import opened NodeIds
  import opened Wrappers
  import Hex

  // ----- Records -----

  datatype Record = Record(
    name: string, address: string, publicKey: string, services: seq<string>,
    groupKey: string, signature: string, expires: int)

  // The fields that are signed: everything but the signature.
  datatype Unsigned = Unsigned(
    name: string, address: string, publicKey: string, services: seq<string>,
    groupKey: string, expires: int)

  // The cryptography the records rest on, as uninterpreted functions: the digest of the
  // signed fields, signing and checking, the public half of a private key, and the
  // position of a name in the identifier space.
  datatype Crypto = Crypto(
    payload: Unsigned -> seq<bv8>,
    sign: (seq<bv8>, seq<bv8>) -> seq<bv8>,
    check: (seq<bv8>, seq<bv8>, seq<bv8>) -> bool,
    publicOf: seq<bv8> -> seq<bv8>,
    recordId: string -> NodeID)

  function SignedFields(r: Record): Unsigned {
    Unsigned(r.name, r.address, r.publicKey, r.services, r.groupKey, r.expires)
  }

  // Clocks count nanoseconds; records expire at whole seconds.
  const SECOND: int := 1_000_000_000

  predicate IsExpired(r: Record, now: int) {
    now > r.expires * SECOND
  }

  datatype Verdict = Verified | BadPublicKey | BadSignature | Mismatch

  function Verify(c: Crypto, r: Record): Verdict {
    match Hex.Decode(r.publicKey)
    case None => BadPublicKey
    case Some(key) =>
      match Hex.Decode(r.signature)
      case None => BadSignature
      case Some(sig) => if c.check(key, c.payload(SignedFields(r)), sig) then Verified else Mismatch
  }

  // ----- The store as a value -----

  type Records = map<string, Record>

  datatype PutResult = Stored | Expired | Invalid(verdict: Verdict) | OwnedByOther

  function PutOutcome(c: Crypto, s: Records, r: Record, now: int): PutResult {
    if IsExpired(r, now) then Expired
    else if Verify(c, r) != Verified then Invalid(Verify(c, r))
    else if r.name in s && s[r.name].publicKey != r.publicKey then OwnedByOther
    else Stored
  }

  function AfterPut(c: Crypto, s: Records, r: Record, now: int): Records {
    if PutOutcome(c, s, r, now) == Stored then s[r.name := r] else s
  }

  function AfterCleanup(s: Records, now: int): Records {
    map name | name in s && !IsExpired(s[name], now) :: s[name]
  }

  function Found(s: Records, name: string, now: int): Option<Record> {
    if name in s && !IsExpired(s[name], now) then Some(s[name]) else None
  }

  // A query names a group key, empty for public records.
  function FoundForGroup(s: Records, name: string, groupKey: string, now: int): Option<Record> {
    match Found(s, name, now)
    case Some(r) => if r.groupKey == groupKey then Some(r) else None
    case None => None
  }

  // ----- The store itself -----

  class Store {
    var records: Records

    constructor ()
      ensures records == map[]
    {
      records := map[];
    }

    method Put(c: Crypto, r: Record, now: int) returns (result: PutResult)
      modifies this
      ensures result == PutOutcome(c, old(records), r, now)
      ensures records == AfterPut(c, old(records), r, now)
    {
      if IsExpired(r, now) {
        return Expired;
      }
      var verdict := Verify(c, r);
      if verdict != Verified {
        return Invalid(verdict);
      }
      if r.name in records {
        var existing := records[r.name];
        if existing.publicKey != r.publicKey {
          return OwnedByOther;
        }
      }
      records := records[r.name := r];
      return Stored;
    }

    method Get(name: string, now: int) returns (r: Option<Record>)
      ensures r == Found(records, name, now)
    {
      if name !in records {
        return None;
      }
      var record := records[name];
      if IsExpired(record, now) {
        return None;
      }
      return Some(record);
    }

    method GetPublic(name: string, now: int) returns (r: Option<Record>)
      ensures r == FoundForGroup(records, name, "", now)
    {
      r := Get(name, now);
      if r.Some? && r.value.groupKey != "" {
        r := None;
      }
    }

    method GetForGroup(name: string, groupKey: string, now: int) returns (r: Option<Record>)
      ensures r == FoundForGroup(records, name, groupKey, now)
    {
      r := Get(name, now);
      if r.Some? && r.value.groupKey != groupKey {
        r := None;
      }
    }

    method Delete(name: string)
      modifies this
      ensures records == old(records) - {name}
    {
      records := records - {name};
    }

    // Entries are visited in any order and deleted on the way.
    method Cleanup(now: int) returns (removed: nat)
      modifies this
      ensures records == AfterCleanup(old(records), now)
      ensures removed == |old(records)| - |records|
    {
      removed := 0;
      var rest := records.Keys;
      ghost var before := records;
      while rest != {}
        invariant rest <= records.Keys <= before.Keys
        invariant forall name | name in records :: records[name] == before[name]
        invariant forall name | name in before :: name in records <==> name in rest || !IsExpired(before[name], now)
        invariant removed == |before| - |records|
        decreases rest
      {
        var name :| name in rest;
        rest := rest - {name};
        if IsExpired(records[name], now) {
          RemoveCount(records, name);
          records := records - {name};
          removed := removed + 1;
        }
      }
    }
  }

  lemma RemoveCount(s: Records, name: string)
    requires name in s
    ensures |s - {name}| == |s| - 1
  {
    assert (s - {name}).Keys == s.Keys - {name};
    assert |s.Keys| == |s| && |(s - {name}).Keys| == |s - {name}|;
  }

  // ----- Whole runs -----

  datatype StoreOp = Put(record: Record, now: int) | Delete(name: string) | Cleanup(at: int)

  function Apply(c: Crypto, s: Records, op: StoreOp): Records {
    match op
    case Put(r, now) => AfterPut(c, s, r, now)
    case Delete(name) => s - {name}
    case Cleanup(at) => AfterCleanup(s, at)
  }

  function Run(c: Crypto, s: Records, ops: seq<StoreOp>): Records
    decreases |ops|
  {
    if ops == [] then s else Apply(c, Run(c, s, ops[..|ops| - 1]), ops[|ops| - 1])
  }

  lemma RunAppend(c: Crypto, s: Records, front: seq<StoreOp>, op: StoreOp)
    ensures Run(c, s, front + [op]) == Apply(c, Run(c, s, front), op)
  {
    assert (front + [op])[..|front|] == front;
  }

  // What a store ever holds: records under their own names that verify.
  ghost predicate Sane(c: Crypto, s: Records) {
    forall name | name in s :: s[name].name == name && Verify(c, s[name]) == Verified
  }

  lemma {:induction false} RunSane(c: Crypto, s: Records, ops: seq<StoreOp>)
    requires Sane(c, s)
    ensures Sane(c, Run(c, s, ops))
    decreases |ops|
  {
    if ops != [] {
      RunSane(c, s, ops[..|ops| - 1]);
    }
  }

  // ----- What signatures promise -----

  // An ideal scheme: what it signed is accepted, and nothing else is.
  ghost predicate AcceptsOwnSignatures(c: Crypto) {
    forall key, message :: c.check(c.publicOf(key), message, c.sign(key, message))
  }

  ghost predicate AcceptsNothingForged(c: Crypto) {
    forall public, message, sig | c.check(public, message, sig) ::
      exists key :: public == c.publicOf(key) && sig == c.sign(key, message)
  }

  // Different records have different digests, and a signature belongs to one message.
  ghost predicate NoCollisions(c: Crypto) {
    && (forall u, v: Unsigned :: c.payload(u) == c.payload(v) ==> u == v)
    && forall k, m, l, n :: c.sign(k, m) == c.sign(l, n) ==> m == n
  }

  // The record carries the public half of this key, and its signature over all other fields.
  ghost predicate SignedBy(c: Crypto, r: Record, key: seq<bv8>) {
    && Hex.Decode(r.publicKey) == Some(c.publicOf(key))
    && Hex.Decode(r.signature) == Some(c.sign(key, c.payload(
         Unsigned(r.name, r.address, r.publicKey, r.services, r.groupKey, r.expires))))
  }

  ghost predicate Authentic(c: Crypto, r: Record) {
    exists key :: SignedBy(c, r, key)
  }

  lemma SignedVerifies(c: Crypto, r: Record, key: seq<bv8>)
    requires AcceptsOwnSignatures(c) && SignedBy(c, r, key)
    ensures Verify(c, r) == Verified
  {
    assert SignedFields(r) == Unsigned(r.name, r.address, r.publicKey, r.services, r.groupKey, r.expires);
  }

  lemma VerifiedIsSigned(c: Crypto, r: Record)
    requires AcceptsNothingForged(c) && Verify(c, r) == Verified
    ensures Authentic(c, r)
  {
    var public, sig := Hex.Decode(r.publicKey).value, Hex.Decode(r.signature).value;
    var message := c.payload(Unsigned(r.name, r.address, r.publicKey, r.services, r.groupKey, r.expires));
    assert c.check(public, message, sig);
    var key :| public == c.publicOf(key) && sig == c.sign(key, message);
    assert SignedBy(c, r, key);
  }

  // When a Put is accepted, and with what it is refused otherwise, in terms of clock, texts,
  // keys and signatures.
  lemma PutDecides(c: Crypto, s: Records, r: Record, now: int)
    requires AcceptsOwnSignatures(c) && AcceptsNothingForged(c)
    ensures var result := PutOutcome(c, s, r, now);
      var unexpired := now <= r.expires * 1_000_000_000;
      var foreign := r.name in s && s[r.name].publicKey != r.publicKey;
      && (result == Stored <==> unexpired && Authentic(c, r) && !foreign)
      && (result == Expired <==> !unexpired)
      && (result == OwnedByOther <==> unexpired && Authentic(c, r) && foreign)
      && (result == Invalid(BadPublicKey) <==> unexpired && Hex.Decode(r.publicKey) == None)
      && (result == Invalid(BadSignature) <==>
            unexpired && Hex.Decode(r.publicKey) != None && Hex.Decode(r.signature) == None)
  {
    if Verify(c, r) == Verified {
      VerifiedIsSigned(c, r);
    }
    if Authentic(c, r) {
      var key :| SignedBy(c, r, key);
      SignedVerifies(c, r, key);
    }
  }

  // Whatever a store holds, in any run from the empty store, was signed as it is, under its
  // own name, by the key it carries.
  lemma HeldIsAuthentic(c: Crypto, ops: seq<StoreOp>, name: string)
    requires AcceptsNothingForged(c) && name in Run(c, map[], ops)
    ensures Run(c, map[], ops)[name].name == name && Authentic(c, Run(c, map[], ops)[name])
  {
    RunSane(c, map[], ops);
    VerifiedIsSigned(c, Run(c, map[], ops)[name]);
  }

  // Nobody can change a record that some store holds: with any other field altered and the
  // signature kept, every store refuses it at every time.
  lemma {:induction false} AlteredIsRefused(c: Crypto, ops: seq<StoreOp>, name: string, forged: Record, s: Records, now: int)
    requires AcceptsNothingForged(c) && NoCollisions(c) && name in Run(c, map[], ops)
    requires forged.signature == Run(c, map[], ops)[name].signature && forged != Run(c, map[], ops)[name]
    ensures PutOutcome(c, s, forged, now) != Stored && AfterPut(c, s, forged, now) == s
  {
    var r := Run(c, map[], ops)[name];
    HeldIsAuthentic(c, ops, name);
    if Verify(c, forged) == Verified {
      VerifiedIsSigned(c, forged);
      SignatureFixesRecord(c, r, forged);
    }
  }

  lemma SignatureFixesRecord(c: Crypto, r: Record, other: Record)
    requires NoCollisions(c) && Authentic(c, r) && Authentic(c, other)
    requires r.signature == other.signature
    ensures r == other
  {
    var k :| SignedBy(c, r, k);
    var l :| SignedBy(c, other, l);
    var u := Unsigned(r.name, r.address, r.publicKey, r.services, r.groupKey, r.expires);
    var v := Unsigned(other.name, other.address, other.publicKey, other.services, other.groupKey, other.expires);
    assert c.sign(k, c.payload(u)) == c.sign(l, c.payload(v));
    assert u == v;
  }

  // What is found: the record held under the name, if it is of the group asked for and its
  // last second has not passed.
  lemma FoundExactly(s: Records, name: string, groupKey: string, now: int, r: Record)
    ensures FoundForGroup(s, name, groupKey, now) == Some(r)
      <==> name in s && s[name] == r && r.groupKey == groupKey && now <= r.expires * 1_000_000_000
  {
  }

  // ----- Ownership -----

  // The record of the latest accepted Put for a name, else what the store began with.
  function LastAccepted(c: Crypto, s: Records, ops: seq<StoreOp>, name: string): Option<Record>
    decreases |ops|
  {
    if ops == [] then (if name in s then Some(s[name]) else None)
    else
      var front, op := ops[..|ops| - 1], ops[|ops| - 1];
      if op.Put? && op.record.name == name && PutOutcome(c, Run(c, s, front), op.record, op.now) == Stored
      then Some(op.record)
      else LastAccepted(c, s, front, name)
  }

  lemma {:induction false} HolderIsLastAccepted(c: Crypto, s: Records, ops: seq<StoreOp>, name: string)
    requires name in Run(c, s, ops)
    ensures LastAccepted(c, s, ops, name) == Some(Run(c, s, ops)[name])
    decreases |ops|
  {
    if ops != [] && name in Run(c, s, ops[..|ops| - 1]) {
      HolderIsLastAccepted(c, s, ops[..|ops| - 1], name);
    }
  }

  // Operation m takes the name away from its holder: somebody deletes it, or a cleanup
  // runs strictly after the Expires of the holder's last accepted record.
  ghost predicate Releases(c: Crypto, s: Records, ops: seq<StoreOp>, name: string, m: nat)
    requires m < |ops|
  {
    match LastAccepted(c, s, ops[..m], name)
    case None => false
    case Some(r) =>
      ops[m] == Delete(name) || (ops[m].Cleanup? && IsExpired(r, ops[m].at))
  }

  // A name never goes straight from one key to another, and is never just lost. When its
  // holder no longer has it, then in between some operation released it, while the holder
  // still had it.
  lemma {:induction false} OwnershipChange(c: Crypto, s: Records, ops: seq<StoreOp>, name: string) returns (m: nat)
    requires name in s
    requires name in Run(c, s, ops) ==> Run(c, s, ops)[name].publicKey != s[name].publicKey
    ensures m < |ops| && Releases(c, s, ops, name, m)
    ensures name in Run(c, s, ops[..m]) && Run(c, s, ops[..m])[name].publicKey == s[name].publicKey
    ensures name !in Run(c, s, ops[..m + 1])
    decreases |ops|
  {
    var front, op := ops[..|ops| - 1], ops[|ops| - 1];
    var before := Run(c, s, front);
    assert ops == front + [op];
    RunAppend(c, s, front, op);
    if name in before && before[name].publicKey == s[name].publicKey {
      m := |front|;
      assert ops[..m] == front && ops[..m + 1] == ops;
      HolderIsLastAccepted(c, s, front, name);
    } else {
      m := OwnershipChange(c, s, front, name);
      assert front[..m] == ops[..m] && front[..m + 1] == ops[..m + 1];
    }
  }

  // After every prefix of the run the name is with the key that had it at the start.
  ghost predicate HeldThroughout(c: Crypto, s: Records, ops: seq<StoreOp>, name: string)
    requires name in s
  {
    forall i | 0 <= i <= |ops| :: HeldAfter(c, s, ops[..i], name)
  }

  ghost predicate HeldAfter(c: Crypto, s: Records, ops: seq<StoreOp>, name: string)
    requires name in s
  {
    name in Run(c, s, ops) && Run(c, s, ops)[name].publicKey == s[name].publicKey
  }

  // A release takes the name away from whoever has it.
  lemma ReleaseLoses(c: Crypto, s: Records, ops: seq<StoreOp>, name: string, m: nat)
    requires m < |ops| && Releases(c, s, ops, name, m)
    ensures name !in Run(c, s, ops[..m + 1])
  {
    var before := Run(c, s, ops[..m]);
    assert ops[..m + 1] == ops[..m] + [ops[m]];
    RunAppend(c, s, ops[..m], ops[m]);
    if name in before {
      HolderIsLastAccepted(c, s, ops[..m], name);
    }
  }

  // A name stays with its key all through a run exactly when no operation of the run is a
  // Delete of it or a cleanup after the Expires of its last accepted record.
  lemma KeptIffNeverReleased(c: Crypto, s: Records, ops: seq<StoreOp>, name: string)
    requires name in s
    ensures HeldThroughout(c, s, ops, name) <==> forall m | 0 <= m < |ops| :: !Releases(c, s, ops, name, m)
  {
    forall m | 0 <= m < |ops| && Releases(c, s, ops, name, m) ensures !HeldThroughout(c, s, ops, name) {
      ReleaseLoses(c, s, ops, name, m);
      assert !HeldAfter(c, s, ops[..m + 1], name);
    }
    forall i | 0 <= i <= |ops| && !HeldAfter(c, s, ops[..i], name)
      ensures exists m | 0 <= m < |ops| :: Releases(c, s, ops, name, m)
    {
      var m := OwnershipChange(c, s, ops[..i], name);
      assert ops[..i][..m] == ops[..m];
      assert Releases(c, s, ops, name, m);
    }
  }

  // An owner keeps the name as long as nobody deletes it and no clock passes the expiry of
  // any record the owner puts: until then every Put by another key is refused.
  lemma {:induction false} OwnerKeepsName(c: Crypto, s: Records, ops: seq<StoreOp>, name: string, t: int)
    requires name in s && !IsExpired(s[name], t)
    requires forall op | op in ops :: op != Delete(name) && (op.Cleanup? ==> op.at <= t)
    requires forall op | op in ops && op.Put? && op.record.name == name ::
      op.record.publicKey == s[name].publicKey ==> !IsExpired(op.record, t)
    ensures name in Run(c, s, ops) && Run(c, s, ops)[name].publicKey == s[name].publicKey
    ensures !IsExpired(Run(c, s, ops)[name], t)
    decreases |ops|
  {
    if ops != [] {
      var front, op := ops[..|ops| - 1], ops[|ops| - 1];
      assert op in ops && forall x | x in front :: x in ops;
      OwnerKeepsName(c, s, front, name, t);
    }
  }

  // ----- When cleanup runs -----

  function WithoutCleanups(ops: seq<StoreOp>): seq<StoreOp>
    decreases |ops|
  {
    if ops == [] then []
    else
      WithoutCleanups(ops[..|ops| - 1])
      + if ops[|ops| - 1].Cleanup? then [] else [ops[|ops| - 1]]
  }

  function ClockOf(op: StoreOp): Option<int> {
    match op
    case Put(_, now) => Some(now)
    case Delete(_) => None
    case Cleanup(at) => Some(at)
  }

  // The clock never runs backwards, and has not passed t.
  ghost predicate ClockedUpTo(ops: seq<StoreOp>, t: int)
    decreases |ops|
  {
    ops == []
    || match ClockOf(ops[|ops| - 1])
       case Some(now) => now <= t && ClockedUpTo(ops[..|ops| - 1], now)
       case None => ClockedUpTo(ops[..|ops| - 1], t)
  }

  // A Put by another key meets a holder whose record has expired but is still there.
  predicate Contested(c: Crypto, s: Records, op: StoreOp, name: string) {
    op.Put? && op.record.name == name
    && PutOutcome(c, s, op.record, op.now) == OwnedByOther && IsExpired(s[name], op.now)
  }

  ghost predicate NeverContested(c: Crypto, s: Records, ops: seq<StoreOp>, name: string) {
    forall n | 0 <= n < |ops| :: !Contested(c, Run(c, s, ops[..n]), ops[n], name)
  }

  // With and without cleanups: what is in the cleaned store is in the other, and what is
  // missing from it has expired.
  ghost predicate Tracks(cleaned: Records, full: Records, name: string, t: int) {
    (name in cleaned ==> name in full && cleaned[name] == full[name])
    && (name !in cleaned && name in full ==> IsExpired(full[name], t))
  }

  lemma TracksStep(c: Crypto, cleaned: Records, full: Records, op: StoreOp, name: string, t: int)
    requires Tracks(cleaned, full, name, t)
    requires Later(op, t) >= t && !Contested(c, full, op, name)
    ensures Tracks(Apply(c, cleaned, op), if op.Cleanup? then full else Apply(c, full, op), name, Later(op, t))
  {
  }

  function Later(op: StoreOp, t: int): int {
    match ClockOf(op)
    case Some(now) => now
    case None => t
  }

  lemma WithoutCleanupsAppend(front: seq<StoreOp>, op: StoreOp)
    ensures WithoutCleanups(front + [op]) == WithoutCleanups(front) + if op.Cleanup? then [] else [op]
  {
    assert (front + [op])[..|front|] == front;
  }

  lemma ClockedAppend(front: seq<StoreOp>, op: StoreOp, t: int)
    ensures ClockedUpTo(front + [op], t) <==> ClockedUpTo(front, Later(op, t)) && Later(op, t) <= t
  {
    assert (front + [op])[..|front|] == front;
  }

  lemma {:induction false} ClockedLater(ops: seq<StoreOp>, t: int, u: int)
    requires ClockedUpTo(ops, t) && t <= u
    ensures ClockedUpTo(ops, u)
    decreases |ops|
  {
    if ops != [] && ClockOf(ops[|ops| - 1]) == None {
      ClockedLater(ops[..|ops| - 1], t, u);
    }
  }

  function Kept(kept: seq<StoreOp>, op: StoreOp): seq<StoreOp> {
    if op.Cleanup? then kept else kept + [op]
  }

  lemma NeverContestedFront(c: Crypto, s: Records, kept: seq<StoreOp>, op: StoreOp, name: string)
    requires NeverContested(c, s, Kept(kept, op), name)
    ensures NeverContested(c, s, kept, name) && !Contested(c, Run(c, s, kept), op, name)
  {
    if !op.Cleanup? {
      var ops := kept + [op];
      forall n | 0 <= n < |kept| ensures !Contested(c, Run(c, s, kept[..n]), kept[n], name) {
        assert kept[..n] == ops[..n];
        assert !Contested(c, Run(c, s, ops[..n]), ops[n], name);
      }
      assert ops[..|kept|] == kept;
      assert !Contested(c, Run(c, s, ops[..|kept|]), ops[|kept|], name);
    }
  }

  // One operation more, on both sides.
  lemma RunTracksOne(c: Crypto, s: Records, front: seq<StoreOp>, kept: seq<StoreOp>, op: StoreOp, name: string,
      t: int, u: int)
    requires Tracks(Run(c, s, front), Run(c, s, kept), name, t)
    requires !Contested(c, Run(c, s, kept), op, name) && t <= Later(op, t) <= u
    ensures Tracks(Run(c, s, front + [op]), Run(c, s, Kept(kept, op)), name, u)
  {
    RunAppend(c, s, front, op);
    RunAppend(c, s, kept, op);
    TracksStep(c, Run(c, s, front), Run(c, s, kept), op, name, t);
    TracksLater(Run(c, s, front + [op]), Run(c, s, Kept(kept, op)), name, Later(op, t), u);
  }

  lemma {:induction false} RunTracks(c: Crypto, s: Records, ops: seq<StoreOp>, kept: seq<StoreOp>, name: string, t: int)
    requires kept == WithoutCleanups(ops)
    requires ClockedUpTo(ops, t) && NeverContested(c, s, kept, name)
    ensures Tracks(Run(c, s, ops), Run(c, s, kept), name, t)
    decreases |ops|
  {
    if ops != [] {
      var front, op := ops[..|ops| - 1], ops[|ops| - 1];
      var keptFront := WithoutCleanups(front);
      assert ops == front + [op];
      WithoutCleanupsAppend(front, op);
      assert kept == Kept(keptFront, op);
      ClockedAppend(front, op, t);
      NeverContestedFront(c, s, keptFront, op, name);
      RunTracks(c, s, front, keptFront, name, Later(op, t));
      RunTracksOne(c, s, front, keptFront, op, name, Later(op, t), t);
    }
  }

  lemma TracksLater(cleaned: Records, full: Records, name: string, t: int, u: int)
    requires Tracks(cleaned, full, name, t) && t <= u
    ensures Tracks(cleaned, full, name, u)
  {
  }

  // Two runs with the same Puts and Deletes answer alike, whenever cleanups ran in each.
  ghost predicate AnswersAlike(c: Crypto, s: Records, ops: seq<StoreOp>, other: seq<StoreOp>, name: string, t: int) {
    Found(Run(c, s, ops), name, t) == Found(Run(c, s, other), name, t)
  }

  lemma CleanupIrrelevant(c: Crypto, s: Records, ops: seq<StoreOp>, other: seq<StoreOp>, name: string, t: int)
    requires WithoutCleanups(ops) == WithoutCleanups(other)
    requires ClockedUpTo(ops, t) && ClockedUpTo(other, t)
    requires NeverContested(c, s, WithoutCleanups(ops), name)
    ensures AnswersAlike(c, s, ops, other, name, t)
    ensures forall groupKey ::
      FoundForGroup(Run(c, s, ops), name, groupKey, t) == FoundForGroup(Run(c, s, other), name, groupKey, t)
  {
    RunTracks(c, s, ops, WithoutCleanups(ops), name, t);
    RunTracks(c, s, other, WithoutCleanups(ops), name, t);
  }

  ghost predicate OneKey(s: Records, ops: seq<StoreOp>, name: string, key: string) {
    (name in s ==> s[name].publicKey == key)
    && forall op | op in ops && op.Put? && op.record.name == name :: op.record.publicKey == key
  }

  lemma {:induction false} OneKeyHolds(c: Crypto, s: Records, ops: seq<StoreOp>, name: string, key: string)
    requires OneKey(s, ops, name, key)
    ensures name in Run(c, s, ops) ==> Run(c, s, ops)[name].publicKey == key
    decreases |ops|
  {
    if ops != [] {
      OneKeyHolds(c, s, ops[..|ops| - 1], name, key);
      assert ops[|ops| - 1] in ops;
    }
  }

  // A name that only one key ever puts is never contested.
  lemma OneKeyNeverContested(c: Crypto, s: Records, ops: seq<StoreOp>, name: string, key: string)
    requires OneKey(s, ops, name, key)
    ensures NeverContested(c, s, ops, name)
  {
    forall n | 0 <= n < |ops| ensures !Contested(c, Run(c, s, ops[..n]), ops[n], name) {
      OneKeyHolds(c, s, ops[..n], name, key);
      assert ops[n] in ops;
    }
  }

  lemma {:induction false} NoCleanupsKept(ops: seq<StoreOp>)
    requires forall op | op in ops :: !op.Cleanup?
    ensures WithoutCleanups(ops) == ops
    decreases |ops|
  {
    if ops != [] {
      NoCleanupsKept(ops[..|ops| - 1]);
      assert ops[|ops| - 1] in ops;
    }
  }

  lemma ContestedOutcomes(c: Crypto, s: Records, r: Record, now: int)
    requires PutOutcome(c, s, r, now) == OwnedByOther && IsExpired(s[r.name], now)
    ensures Found(AfterPut(c, AfterCleanup(s, now), r, now), r.name, now) == Some(r)
    ensures Found(AfterPut(c, s, r, now), r.name, now) == None
  {
    assert r.name !in AfterCleanup(s, now);
  }

  // A contested Put makes cleanup show: with a cleanup just before it the newcomer gets the
  // name, without one nobody is found.
  lemma ContestShows(c: Crypto, s: Records, front: seq<StoreOp>, op: StoreOp, name: string)
    requires Contested(c, Run(c, s, front), op, name)
    ensures Found(Run(c, s, front + [Cleanup(op.now)] + [op]), name, op.now) == Some(op.record)
    ensures Found(Run(c, s, front + [op]), name, op.now) == None
  {
    RunAppend(c, s, front, Cleanup(op.now));
    RunAppend(c, s, front + [Cleanup(op.now)], op);
    RunAppend(c, s, front, op);
    ContestedOutcomes(c, Run(c, s, front), op.record, op.now);
  }

  // Two records of one name under different keys; at t the first has expired, the second not.
  ghost predicate Rivals(c: Crypto, a: Record, b: Record, t: int) {
    && a.name == b.name && a.publicKey != b.publicKey
    && Verify(c, a) == Verified && Verify(c, b) == Verified
    && IsExpired(a, t) && !IsExpired(b, t)
  }

  lemma RivalRun(c: Crypto, a: Record, b: Record, t: int)
    requires Rivals(c, a, b, t)
    ensures Run(c, map[], [Put(a, a.expires * SECOND)]) == map[a.name := a]
    ensures Contested(c, map[a.name := a], Put(b, t), a.name)
  {
    var first := Put(a, a.expires * SECOND);
    RunAppend(c, map[], [], first);
    assert [] + [first] == [first];
  }

  // Contested Puts do occur: an empty store, a record put while it is valid, and after its
  // expiry a rival. With a cleanup in between the rival takes the name over, and without
  // one the name is found nowhere.
  lemma TakeoverAfterCleanup(c: Crypto, a: Record, b: Record, t: int)
    requires Rivals(c, a, b, t)
    ensures var first, second := Put(a, a.expires * SECOND), Put(b, t);
      && ClockedUpTo([first, second], t) && !NeverContested(c, map[], [first, second], a.name)
      && Found(Run(c, map[], [first]), a.name, a.expires * SECOND) == Some(a)
      && Found(Run(c, map[], [first, Cleanup(t), second]), a.name, t) == Some(b)
      && Found(Run(c, map[], [first, second]), a.name, t) == None
  {
    var first, second := Put(a, a.expires * SECOND), Put(b, t);
    RivalRun(c, a, b, t);
    ContestShows(c, map[], [first], second, a.name);
    assert [first] + [second] == [first, second] && [first] + [Cleanup(t)] + [second] == [first, Cleanup(t), second];
    ClockedAppend([], first, t);
    ClockedAppend([], first, first.now);
    ClockedAppend([first], second, t);
    assert [] + [first] == [first];
    assert [first, second][..1] == [first];
    assert Contested(c, Run(c, map[], [first, second][..1]), [first, second][1], a.name);
  }

  lemma CleanupInserted(front: seq<StoreOp>, op: StoreOp)
    requires forall x | x in front :: !x.Cleanup?
    requires op.Put? && ClockedUpTo(front, op.now)
    ensures WithoutCleanups(front + [Cleanup(op.now)] + [op]) == front + [op]
    ensures ClockedUpTo(front + [Cleanup(op.now)] + [op], op.now) && ClockedUpTo(front + [op], op.now)
  {
    var cleanup := Cleanup(op.now);
    NoCleanupsKept(front);
    WithoutCleanupsAppend(front, cleanup);
    WithoutCleanupsAppend(front + [cleanup], op);
    ClockedAppend(front, cleanup, op.now);
    ClockedAppend(front + [cleanup], op, op.now);
    ClockedAppend(front, op, op.now);
    assert front + [] == front;
  }

  // The first n operations with cleanups somewhere in between, up to clock u.
  ghost predicate CleanedPrefix(ops: seq<StoreOp>, n: nat, u: int, cleaned: seq<StoreOp>)
    requires n <= |ops|
  {
    WithoutCleanups(cleaned) == ops[..n] && ClockedUpTo(cleaned, u) && ClockedUpTo(ops[..n], u)
  }

  // When cleanups run cannot be told from the answers exactly when no contested Put occurs:
  // every schedule of cleanups around the same Puts and Deletes, at every moment of the
  // run, answers like no cleanup at all.
  lemma CleanupScheduleIrrelevance(c: Crypto, s: Records, ops: seq<StoreOp>, name: string, t: int)
    requires (forall op | op in ops :: !op.Cleanup?) && ClockedUpTo(ops, t)
    ensures NeverContested(c, s, ops, name)
      <==> forall n, u, cleaned | 0 <= n <= |ops| && CleanedPrefix(ops, n, u, cleaned) ::
             AnswersAlike(c, s, cleaned, ops[..n], name, u)
  {
    if NeverContested(c, s, ops, name) {
      forall n, u, cleaned | 0 <= n <= |ops| && CleanedPrefix(ops, n, u, cleaned)
        ensures AnswersAlike(c, s, cleaned, ops[..n], name, u)
      {
        UncontestedPrefix(c, s, ops, n, u, cleaned, name);
      }
    } else {
      var n :| 0 <= n < |ops| && Contested(c, Run(c, s, ops[..n]), ops[n], name);
      var cleaned := ContestedPrefix(c, s, ops, n, name, t);
    }
  }

  lemma UncontestedPrefix(c: Crypto, s: Records, ops: seq<StoreOp>, n: nat, u: int, cleaned: seq<StoreOp>, name: string)
    requires forall op | op in ops :: !op.Cleanup?
    requires NeverContested(c, s, ops, name) && n <= |ops| && CleanedPrefix(ops, n, u, cleaned)
    ensures AnswersAlike(c, s, cleaned, ops[..n], name, u)
  {
    var prefix := ops[..n];
    NoCleanupsKept(prefix);
    forall m | 0 <= m < n ensures !Contested(c, Run(c, s, prefix[..m]), prefix[m], name) {
      assert prefix[..m] == ops[..m];
    }
    CleanupIrrelevant(c, s, cleaned, prefix, name, u);
  }

  lemma ContestedPrefix(c: Crypto, s: Records, ops: seq<StoreOp>, n: nat, name: string, t: int)
    returns (cleaned: seq<StoreOp>)
    requires (forall op | op in ops :: !op.Cleanup?) && ClockedUpTo(ops, t)
    requires n < |ops| && Contested(c, Run(c, s, ops[..n]), ops[n], name)
    ensures CleanedPrefix(ops, n + 1, ops[n].now, cleaned)
    ensures !AnswersAlike(c, s, cleaned, ops[..n + 1], name, ops[n].now)
  {
    var front, op := ops[..n], ops[n];
    cleaned := front + [Cleanup(op.now)] + [op];
    ClockAtPut(ops, n, t);
    CleanupInserted(front, op);
    ContestShows(c, s, front, op, name);
    assert ops[..n + 1] == front + [op];
  }

  lemma {:induction false} ClockAtPut(ops: seq<StoreOp>, n: nat, t: int)
    requires n < |ops| && ops[n].Put? && ClockedUpTo(ops, t)
    ensures ClockedUpTo(ops[..n], ops[n].now) && ops[n].now <= t
    decreases |ops|
  {
    var front := ops[..|ops| - 1];
    if n < |front| {
      assert front[..n] == ops[..n];
      match ClockOf(ops[|ops| - 1])
      case Some(now) => ClockAtPut(front, n, now);
      case None => ClockAtPut(front, n, t);
    }
  }
}
