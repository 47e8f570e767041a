// Creating signed records.
module Registration {
  import opened Stores
  import opened Wrappers
  import Hex

  // One hour, used when no time to live is given.
  const RECORD_TTL: int := 3600 * SECOND

  datatype RegisterOptions = RegisterOptions(
    name: string, address: string, services: seq<string>, groupKey: string,
    privateKey: Option<seq<bv8>>, ttl: int)

  datatype CreateResult = Created(record: Record) | EmptyName | EmptyAddress | NoPrivateKey

  // Seconds since the epoch, rounded down.
  function UnixSeconds(t: int): int {
    t / SECOND
  }

  function EffectiveTtl(opts: RegisterOptions): int {
    if opts.ttl == 0 then RECORD_TTL else opts.ttl
  }

  function CreateRecord(c: Crypto, opts: RegisterOptions, now: int): CreateResult {
    if opts.name == "" then EmptyName
    else if opts.address == "" then EmptyAddress
    else if opts.privateKey == None then NoPrivateKey
    else
      var key := opts.privateKey.value;
      var record := Record(opts.name, opts.address, Hex.Encode(c.publicOf(key)), opts.services,
        opts.groupKey, "", UnixSeconds(now + EffectiveTtl(opts)));
      Created(record.(signature := Hex.Encode(c.sign(key, c.payload(SignedFields(record))))))
  }

  lemma CreatedRecordVerifies(c: Crypto, opts: RegisterOptions, now: int)
    requires AcceptsOwnSignatures(c) && CreateRecord(c, opts, now).Created?
    ensures Verify(c, CreateRecord(c, opts, now).record) == Verified
  {
    CreatedRecord(c, opts, now);
    SignedVerifies(c, CreateRecord(c, opts, now).record, opts.privateKey.value);
  }

  lemma SecondsRoundDown(t: int)
    ensures t - SECOND < UnixSeconds(t) * SECOND <= t
  {
  }

  // The moment lies in the second after this one.
  ghost predicate InSecond(end: int, second: int) {
    second * 1_000_000_000 <= end < (second + 1) * 1_000_000_000
  }

  // The record is created exactly when name and address are given and there is a key. It
  // says what was asked for, signed by that key, and its Expires is the second in which the
  // given time to live ends, or else one hour.
  lemma CreatedRecord(c: Crypto, opts: RegisterOptions, now: int)
    ensures var created := CreateRecord(c, opts, now);
      && (created.Created? <==> opts.name != "" && opts.address != "" && opts.privateKey.Some?)
      && (created.Created? ==>
            var r := created.record;
            && r.name == opts.name && r.address == opts.address && r.services == opts.services
            && r.groupKey == opts.groupKey && SignedBy(c, r, opts.privateKey.value)
            && InSecond(now + (if opts.ttl != 0 then opts.ttl else 3_600_000_000_000), r.expires))
  {
    SecondsRoundDown(now + EffectiveTtl(opts));
    if CreateRecord(c, opts, now).Created? {
      var key, r := opts.privateKey.value, CreateRecord(c, opts, now).record;
      Hex.DecodeEncode(c.publicOf(key));
      Hex.DecodeEncode(c.sign(key, c.payload(SignedFields(r))));
      assert SignedFields(r) == SignedFields(r.(signature := ""));
    }
  }

  // A store accepts a created record at any later moment exactly until the second in which
  // its life ends begins, provided the name is free or the same key holds it.
  lemma CreatedRecordAccepted(c: Crypto, opts: RegisterOptions, now: int, s: Records, t: int)
    requires AcceptsOwnSignatures(c) && CreateRecord(c, opts, now).Created?
    ensures var r := CreateRecord(c, opts, now).record;
      && InSecond(now + (if opts.ttl != 0 then opts.ttl else 3_600_000_000_000), r.expires)
      && (PutOutcome(c, s, r, t) == Stored <==>
            t <= r.expires * 1_000_000_000 && (opts.name in s ==> s[opts.name].publicKey == r.publicKey))
  {
    CreatedRecordVerifies(c, opts, now);
    CreatedRecord(c, opts, now);
  }

  // With the default time to live, or any of at least a second, the record is accepted at
  // once, unless another key holds the name: a first registration as well as a renewal.
  lemma AcceptedAtOnce(c: Crypto, opts: RegisterOptions, now: int, s: Records)
    requires AcceptsOwnSignatures(c) && CreateRecord(c, opts, now).Created?
    requires opts.ttl == 0 || opts.ttl >= SECOND
    requires opts.name in s ==> s[opts.name].publicKey == CreateRecord(c, opts, now).record.publicKey
    ensures PutOutcome(c, s, CreateRecord(c, opts, now).record, now) == Stored
  {
    CreatedRecordAccepted(c, opts, now, s, now);
  }

  lemma EncodeInjective(a: seq<bv8>, b: seq<bv8>)
    requires a != b
    ensures Hex.Encode(a) != Hex.Encode(b)
  {
    Hex.DecodeEncode(a);
    Hex.DecodeEncode(b);
  }

  // Two keys may register one name one after the other: from the moment in the last second
  // of its life when the first record expires, the second, while it lives, is its rival.
  lemma RegisteredRivals(c: Crypto, first: RegisterOptions, second: RegisterOptions, now: int, later: int, t: int)
    requires AcceptsOwnSignatures(c) && first.name == second.name
    requires CreateRecord(c, first, now).Created? && CreateRecord(c, second, later).Created?
    requires c.publicOf(first.privateKey.value) != c.publicOf(second.privateKey.value)
    ensures var a, b := CreateRecord(c, first, now).record, CreateRecord(c, second, later).record;
      && InSecond(now + (if first.ttl != 0 then first.ttl else 3_600_000_000_000), a.expires)
      && InSecond(later + (if second.ttl != 0 then second.ttl else 3_600_000_000_000), b.expires)
      && (Rivals(c, a, b, t) <==> a.expires * 1_000_000_000 < t <= b.expires * 1_000_000_000)
  {
    CreatedRecordVerifies(c, first, now);
    CreatedRecordVerifies(c, second, later);
    CreatedRecord(c, first, now);
    CreatedRecord(c, second, later);
    EncodeInjective(c.publicOf(first.privateKey.value), c.publicOf(second.privateKey.value));
  }
}
