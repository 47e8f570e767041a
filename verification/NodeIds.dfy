// 32-byte node identifiers, the XOR distance between them, and the byte loops that
// compare distances and pick a bucket.
module NodeIds {
  import opened Wrappers
  import Hex

  type NodeID = id: seq<bv8> | |id| == 32 witness seq(32, _ => 0 as bv8)

  // ----- Text form -----

  function ToHex(id: NodeID): string {
    Hex.Encode(id)
  }

  // A shorter byte string is padded with zeros and a longer one cut off, as copying into
  // a zeroed 32-byte array does.
  function NodeIDFromHex(s: string): Option<NodeID> {
    match Hex.Decode(s)
    case None => None
    case Some(b) => Some(seq(32, i requires 0 <= i < 32 => if i < |b| then b[i] else 0))
  }

  lemma HexRoundTrip(id: NodeID)
    ensures NodeIDFromHex(ToHex(id)) == Some(id)
  {
    Hex.DecodeEncode(id);
    assert NodeIDFromHex(ToHex(id)).value == id;
  }

  // Which texts are read as IDs: those that, in lower case, are how some bytes are written,
  // and they give these bytes, cut off or padded with zeros.
  lemma HexExact(s: string)
    ensures match NodeIDFromHex(s)
            case None => forall b :: Hex.Encode(b) != Hex.Lower(s)
            case Some(id) => exists b :: Hex.Encode(b) == Hex.Lower(s) && FitsInto(b, id)
  {
    Hex.DecodeExact(s);
    if Hex.Decode(s).Some? {
      var b := Hex.Decode(s).value;
      assert Hex.Encode(b) == Hex.Lower(s) && FitsInto(b, NodeIDFromHex(s).value);
    }
  }

  ghost predicate FitsInto(b: seq<bv8>, id: NodeID) {
    forall i | 0 <= i < 32 :: id[i] == if i < |b| then b[i] else 0
  }

  // ----- Numbers -----

  ghost function Pow2(n: nat): (p: nat)
    ensures p > 0
  {
    if n == 0 then 1 else 2 * Pow2(n - 1)
  }

  // The number a byte string spells, most significant byte first.
  ghost function BigEndian(s: seq<bv8>): nat {
    if s == [] then 0 else 256 * BigEndian(s[..|s| - 1]) + s[|s| - 1] as nat
  }

  ghost function XorOf(a: NodeID, b: NodeID): NodeID {
    seq(32, i requires 0 <= i < 32 => a[i] ^ b[i])
  }

  // The Kademlia distance: the XOR of the two identifiers read as a 256-bit number.
  ghost function Distance(a: NodeID, b: NodeID): nat {
    BigEndian(XorOf(a, b))
  }

  // a is strictly nearer to target than b.
  ghost predicate Nearer(a: NodeID, b: NodeID, target: NodeID) {
    Distance(a, target) < Distance(b, target)
  }

  lemma XorAt(a: NodeID, b: NodeID, k: nat)
    requires k < 32
    ensures XorOf(a, b)[k] == a[k] ^ b[k]
  {
  }

  ghost predicate SameBelow(s: seq<bv8>, u: seq<bv8>, j: nat)
    requires j <= |s| && j <= |u|
  {
    forall k | 0 <= k < j :: s[k] == u[k]
  }

  // Byte strings of one length compare like the numbers they spell: the first byte that
  // differs decides.
  lemma {:induction false} FirstByteDecides(s: seq<bv8>, u: seq<bv8>, j: nat)
    requires |s| == |u| && j < |s|
    requires SameBelow(s, u, j) && s[j] < u[j]
    ensures BigEndian(s) < BigEndian(u)
    decreases |s|
  {
    var n := |s| - 1;
    if j == n {
      assert s[..n] == u[..n];
    } else {
      FirstByteDecides(s[..n], u[..n], j);
    }
  }

  lemma FirstDifferentByte(a: NodeID, b: NodeID) returns (j: nat)
    requires a != b
    ensures j < 32 && SameBelow(a, b, j) && a[j] != b[j]
  {
    assert exists k :: 0 <= k < 32 && a[k] != b[k];
    j := 0;
    while a[j] == b[j]
      invariant j < 32 && SameBelow(a, b, j)
      decreases 32 - j
    {
      j := j + 1;
    }
  }

  lemma FirstByteCompares(s: seq<bv8>, u: seq<bv8>, j: nat)
    requires |s| == |u| && j < |s|
    requires SameBelow(s, u, j) && s[j] != u[j]
    ensures BigEndian(s) < BigEndian(u) <==> s[j] < u[j]
    ensures BigEndian(s) != BigEndian(u)
  {
    if s[j] < u[j] {
      FirstByteDecides(s, u, j);
    } else {
      FirstByteDecides(u, s, j);
    }
  }

  // At the first byte where two identifiers differ, their distances to any target
  // compare like that byte XORed with the target's.
  lemma DistanceByFirstByte(a: NodeID, b: NodeID, target: NodeID, j: nat)
    requires j < 32 && SameBelow(a, b, j) && a[j] != b[j]
    ensures Nearer(a, b, target) <==> (a[j] ^ target[j]) < (b[j] ^ target[j])
    ensures Distance(a, target) != Distance(b, target)
  {
    XorKeepsFirstByte(a, b, target, j);
    FirstByteCompares(XorOf(a, target), XorOf(b, target), j);
    XorAt(a, target, j);
    XorAt(b, target, j);
  }

  lemma XorKeepsFirstByte(a: NodeID, b: NodeID, target: NodeID, j: nat)
    requires j < 32 && SameBelow(a, b, j) && a[j] != b[j]
    ensures SameBelow(XorOf(a, target), XorOf(b, target), j)
    ensures XorOf(a, target)[j] != XorOf(b, target)[j]
  {
    XorAt(a, target, j);
    XorAt(b, target, j);
    XorCancels(a[j], b[j], target[j]);
  }

  lemma XorCancels(x: bv8, y: bv8, t: bv8)
    requires x != y
    ensures (x ^ t) != (y ^ t)
  {
  }

  // For each target the distance tells identifiers apart, so Nearer is a strict total order.
  lemma NearerIsTotal(a: NodeID, b: NodeID, target: NodeID)
    ensures a == b <==> Distance(a, target) == Distance(b, target)
    ensures a != b <==> (Nearer(a, b, target) || Nearer(b, a, target))
  {
    if a != b {
      var j := FirstDifferentByte(a, b);
      DistanceByFirstByte(a, b, target, j);
    }
  }

  // ----- Bits -----

  // Bit m of a byte, counted from the most significant.
  function BitOf(b: bv8, m: nat): bool
    requires m < 8
  {
    (if m == 0 then b & 0x80 else if m == 1 then b & 0x40
     else if m == 2 then b & 0x20 else if m == 3 then b & 0x10
     else if m == 4 then b & 0x08 else if m == 5 then b & 0x04
     else if m == 6 then b & 0x02 else b & 0x01) != 0
  }

  function Bit(id: NodeID, k: nat): bool
    requires k < 256
  {
    BitOf(id[k / 8], k % 8)
  }

  ghost predicate AgreeBelow(a: NodeID, b: NodeID, n: nat)
    requires n <= 256
  {
    forall k | 0 <= k < n :: Bit(a, k) == Bit(b, k)
  }

  ghost predicate DifferFirstAt(a: NodeID, b: NodeID, k: int) {
    0 <= k < 256 && Bit(a, k) != Bit(b, k) && AgreeBelow(a, b, k)
  }

  ghost function FirstDifferenceFrom(a: NodeID, b: NodeID, k: nat): (i: nat)
    requires k <= 256
    ensures k <= i <= 256
    decreases 8 * |a| - k
  {
    if k == 256 || Bit(a, k) != Bit(b, k) then k else FirstDifferenceFrom(a, b, k + 1)
  }

  // The bucket of b as seen from a: the position of the first bit in which they differ,
  // that is, the length of their common prefix; -1 for a itself.
  ghost function BucketOf(a: NodeID, b: NodeID): (i: int)
    ensures -1 <= i < 256
    ensures i == -1 <==> a == b
  {
    if a == b then -1
    else
      FirstDifferenceExists(a, b);
      FirstDifferenceFrom(a, b, 0)
  }

  lemma {:induction false} FirstDifferenceReached(a: NodeID, b: NodeID, k: nat, i: nat)
    requires DifferFirstAt(a, b, i) && k <= i
    ensures FirstDifferenceFrom(a, b, k) == i
    decreases i - k
  {
    if k < i {
      FirstDifferenceReached(a, b, k + 1, i);
    }
  }

  lemma FirstDifferenceUnique(a: NodeID, b: NodeID, k: int)
    requires DifferFirstAt(a, b, k)
    ensures BucketOf(a, b) == k
  {
    assert Bit(a, k) != Bit(b, k);
    FirstDifferenceReached(a, b, 0, k);
  }

  lemma BucketIsFirstDifference(a: NodeID, b: NodeID)
    requires a != b
    ensures DifferFirstAt(a, b, BucketOf(a, b))
  {
    FirstDifferenceExists(a, b);
    var k :| DifferFirstAt(a, b, k);
    FirstDifferenceUnique(a, b, k);
  }

  lemma FirstDifferenceExists(a: NodeID, b: NodeID)
    requires a != b
    ensures exists k :: DifferFirstAt(a, b, k)
    ensures FirstDifferenceFrom(a, b, 0) < 256
  {
    var j := FirstDifferentByte(a, b);
    var m := LeadingZeros(a[j] ^ b[j]);
    ByteDiffersAt(a[j], b[j]);
    FirstBitOfByte(a, b, j, m);
    FirstDifferenceReached(a, b, 0, 8 * j + m);
  }

  // Leading zero bits of a byte.
  function LeadingZeros(b: bv8): (m: nat)
    ensures m <= 8 && (m == 8 <==> b == 0)
  {
    if b & 0x80 != 0 then 0 else if b & 0x40 != 0 then 1
    else if b & 0x20 != 0 then 2 else if b & 0x10 != 0 then 3
    else if b & 0x08 != 0 then 4 else if b & 0x04 != 0 then 5
    else if b & 0x02 != 0 then 6 else if b & 0x01 != 0 then 7 else 8
  }

  // The first bit that differs inside the first byte that differs is the first overall.
  lemma FirstBitOfByte(a: NodeID, b: NodeID, j: nat, m: nat)
    requires j < 32 && SameBelow(a, b, j)
    requires ByteDifferFirstAt(a[j], b[j], m)
    ensures DifferFirstAt(a, b, 8 * j + m)
  {
    var k := 8 * j + m;
    assert k / 8 == j && k % 8 == m;
    forall n | 0 <= n < k ensures Bit(a, n) == Bit(b, n) {
      assert n / 8 < j ==> a[n / 8] == b[n / 8];
      assert n / 8 == j ==> n % 8 < m;
    }
  }

  lemma ByteDiffersAt(x: bv8, y: bv8)
    requires x != y
    ensures ByteDifferFirstAt(x, y, LeadingZeros(x ^ y))
  {
    var m := LeadingZeros(x ^ y);
    assert x ^ y != 0;
    forall k | 0 <= k < m ensures BitOf(x, k) == BitOf(y, k) {
      ByteAgreesBefore(x, y, k);
    }
  }

  lemma ByteAgreesBefore(x: bv8, y: bv8, k: nat)
    requires k < LeadingZeros(x ^ y)
    ensures k < 8 && BitOf(x, k) == BitOf(y, k)
  {
  }

  // m is the first bit in which bytes x and y differ.
  ghost predicate ByteDifferFirstAt(x: bv8, y: bv8, m: nat) {
    m < 8 && BitOf(x, m) != BitOf(y, m) && forall n | 0 <= n < m :: BitOf(x, n) == BitOf(y, n)
  }

  lemma ByteOrder(x: bv8, y: bv8, t: bv8)
    requires x != y
    ensures LeadingZeros(x ^ y) < 8
    ensures (x ^ t) < (y ^ t) <==> BitOf(x, LeadingZeros(x ^ y)) == BitOf(t, LeadingZeros(x ^ y))
  {
  }

  // The same, naming the bit and the outcome.
  lemma ByteOrderBit(x: bv8, y: bv8, t: bv8) returns (m: nat, less: bool)
    requires x != y
    ensures less <==> (x ^ t) < (y ^ t)
    ensures ByteDifferFirstAt(x, y, m)
    ensures less <==> BitOf(x, m) == BitOf(t, m)
  {
    ByteOrder(x, y, t);
    ByteDiffersAt(x, y);
    m, less := LeadingZeros(x ^ y), (x ^ t) < (y ^ t);
  }

  lemma NearerInByte(a: NodeID, b: NodeID, target: NodeID, j: nat) returns (m: nat)
    requires j < 32 && SameBelow(a, b, j) && a[j] != b[j]
    ensures ByteDifferFirstAt(a[j], b[j], m)
    ensures Nearer(a, b, target) <==> BitOf(a[j], m) == BitOf(target[j], m)
  {
    DistanceByFirstByte(a, b, target, j);
    var less;
    m, less := ByteOrderBit(a[j], b[j], target[j]);
  }

  lemma SplitAtFirstByte(a: NodeID, b: NodeID) returns (j: nat, m: nat)
    requires a != b
    ensures j < 32 && SameBelow(a, b, j) && a[j] != b[j]
    ensures m < 8 && m == LeadingZeros(a[j] ^ b[j])
    ensures BucketOf(a, b) == 8 * j + m
  {
    j := FirstDifferentByte(a, b);
    ByteDiffersAt(a[j], b[j]);
    m := LeadingZeros(a[j] ^ b[j]);
    FirstBitOfByte(a, b, j, m);
    FirstDifferenceUnique(a, b, 8 * j + m);
  }

  // Which of two identifiers is nearer to a target is decided by one bit: the first in
  // which they differ. The nearer one is the one that agrees with the target there.
  lemma NearerByBit(a: NodeID, b: NodeID, target: NodeID)
    requires a != b
    ensures Nearer(a, b, target) <==> Bit(a, BucketOf(a, b)) == Bit(target, BucketOf(a, b))
  {
    var j := FirstDifferentByte(a, b);
    var m := NearerInByte(a, b, target, j);
    var k := 8 * j + m;
    FirstBitOfByte(a, b, j, m);
    FirstDifferenceUnique(a, b, k);
    assert k / 8 == j && k % 8 == m;
  }

  // ----- The bucket index as a magnitude -----

  lemma {:induction false} Pow2Monotone(m: nat, n: nat)
    requires m <= n
    ensures Pow2(m) <= Pow2(n)
    decreases n
  {
    if m < n {
      Pow2Monotone(m, n - 1);
    }
  }

  lemma Pow2PlusEight(n: nat)
    ensures Pow2(n + 8) == 256 * Pow2(n)
  {
    assert Pow2(n + 2) == 4 * Pow2(n);
    assert Pow2(n + 4) == 16 * Pow2(n);
    assert Pow2(n + 6) == 64 * Pow2(n);
  }

  lemma ByteMagnitude(b: bv8)
    requires b != 0
    ensures Pow2(7 - LeadingZeros(b)) <= b as nat < Pow2(8 - LeadingZeros(b))
  {
    assert Pow2(1) == 2 && Pow2(2) == 4 && Pow2(3) == 8;
    assert Pow2(4) == 16 && Pow2(5) == 32;
    assert Pow2(6) == 64;
    assert Pow2(7) == 128;
    assert Pow2(8) == 256;
    var m := LeadingZeros(b);
    assert m == 0 || m == 1 || m == 2 || m == 3 || m == 4 || m == 5 || m == 6 || m == 7;
  }

  lemma {:induction false} ZeroBytes(s: seq<bv8>)
    requires forall k | 0 <= k < |s| :: s[k] == 0
    ensures BigEndian(s) == 0
  {
    if s != [] {
      ZeroBytes(s[..|s| - 1]);
    }
  }

  // One byte more, at the end, shifts the bounds of a number by eight bits.
  lemma ShiftBounds(lo: nat, hi: nat, number: nat, last: nat)
    requires Pow2(lo) <= number < Pow2(hi) && last < 256
    ensures Pow2(lo + 8) <= 256 * number + last < Pow2(hi + 8)
  {
    Pow2PlusEight(lo);
    Pow2PlusEight(hi);
  }

  // After zero bytes, the bounds of byte j fix the magnitude of the whole number.
  lemma {:induction false} LeadingByteBounds(s: seq<bv8>, j: nat, lo: nat, hi: nat)
    requires j < |s| && forall k | 0 <= k < j :: s[k] == 0
    requires Pow2(lo) <= s[j] as nat < Pow2(hi)
    ensures Pow2(lo + 8 * (|s| - 1 - j)) <= BigEndian(s) < Pow2(hi + 8 * (|s| - 1 - j))
    decreases |s|
  {
    var n := |s| - 1;
    if j == n {
      ZeroBytes(s[..n]);
    } else {
      LeadingByteBounds(s[..n], j, lo, hi);
      var shift := 8 * (n - 1 - j);
      ShiftBounds(lo + shift, hi + shift, BigEndian(s[..n]), s[n] as nat);
    }
  }

  lemma BucketBounds(a: NodeID, b: NodeID)
    requires a != b
    ensures Pow2(255 - BucketOf(a, b)) <= Distance(a, b) < Pow2(256 - BucketOf(a, b))
  {
    var j, m := SplitAtFirstByte(a, b);
    var s := XorOf(a, b);
    forall k | 0 <= k < j ensures s[k] == 0 {
      XorZero(a[k], b[k]);
    }
    XorZero(a[j], b[j]);
    XorAt(a, b, j);
    ByteMagnitude(s[j]);
    LeadingByteBounds(s, j, 7 - m, 8 - m);
  }

  // A number lies between just one pair of neighbouring powers of two.
  lemma OneOctave(d: nat, m: nat, n: nat)
    requires Pow2(m) <= d < Pow2(m + 1)
    ensures m == n <==> Pow2(n) <= d < Pow2(n + 1)
  {
    if m < n {
      Pow2Monotone(m + 1, n);
    } else if n < m {
      Pow2Monotone(n + 1, m);
    }
  }

  lemma BucketByMagnitude(a: NodeID, b: NodeID, i: int)
    requires 0 <= i < 256
    ensures BucketOf(a, b) == i <==> Pow2(255 - i) <= Distance(a, b) < Pow2(256 - i)
    ensures BucketOf(a, b) == -1 <==> Distance(a, b) == 0
  {
    if a == b {
      ZeroBytes(XorOf(a, b));
    } else {
      BucketBounds(a, b);
      OneOctave(Distance(a, b), 255 - BucketOf(a, b), 255 - i);
    }
  }

  // ----- The loops -----

  method XOR(id: NodeID, other: NodeID) returns (result: NodeID)
    ensures result == XorOf(id, other)
  {
    result := seq(32, _ => 0 as bv8);
    for i := 0 to 32
      invariant |result| == 32
      invariant forall k | 0 <= k < i :: result[k] == id[k] ^ other[k]
    {
      result := result[i := id[i] ^ other[i]];
    }
  }

  method Less(id: NodeID, other: NodeID, target: NodeID) returns (less: bool)
    ensures less <==> Nearer(id, other, target)
  {
    var distA := XOR(id, target);
    var distB := XOR(other, target);
    for i := 0 to 32
      invariant SameBelow(distA, distB, i)
    {
      if distA[i] != distB[i] {
        if distA[i] < distB[i] {
          FirstByteDecides(distA, distB, i);
        } else {
          FirstByteDecides(distB, distA, i);
        }
        return distA[i] < distB[i];
      }
    }
    assert distA == distB;
    return false;
  }

  lemma ShiftDropsOneZero(b: bv8)
    requires b != 0 && b & 0x80 == 0
    ensures b << 1 != 0 && LeadingZeros(b) == LeadingZeros(b << 1) + 1
  {
  }

  lemma XorZeroAt(a: NodeID, b: NodeID, j: nat)
    requires j < 32
    ensures XorOf(a, b)[j] == 0 <==> a[j] == b[j]
  {
    XorAt(a, b, j);
    XorZero(a[j], b[j]);
  }

  lemma BucketAtByte(a: NodeID, b: NodeID, j: nat)
    requires j < 32 && SameBelow(a, b, j) && XorOf(a, b)[j] != 0
    ensures BucketOf(a, b) == 8 * j + LeadingZeros(XorOf(a, b)[j])
  {
    XorZeroAt(a, b, j);
    var i, m := SplitAtFirstByte(a, b);
    assert i == j;
    XorAt(a, b, j);
  }

  method BucketIndex(id: NodeID, other: NodeID) returns (index: int)
    ensures index == BucketOf(id, other)
  {
    var xor := XOR(id, other);
    for i := 0 to 32
      invariant SameBelow(id, other, i)
    {
      if xor[i] != 0 {
        var b := xor[i];
        var bit := 0;
        while b & 0x80 == 0
          invariant b != 0 && bit + LeadingZeros(b) == LeadingZeros(xor[i])
          decreases LeadingZeros(b)
        {
          ShiftDropsOneZero(b);
          b := b << 1;
          bit := bit + 1;
        }
        BucketAtByte(id, other, i);
        return i * 8 + bit;
      }
      XorZeroAt(id, other, i);
    }
    assert id == other;
    return -1;
  }

  lemma XorZero(x: bv8, y: bv8)
    ensures x ^ y == 0 <==> x == y
  {
  }

  // ----- All identifiers -----

  ghost function ByteAt(i: int): bv8
    requires 0 <= i < 256
  {
    i as bv8
  }

  ghost function AllBytes(): (all: set<bv8>)
    ensures forall b: bv8 :: b in all
  {
    var all := set i | 0 <= i < 256 :: ByteAt(i);
    assert forall b: bv8 :: b in all by {
      forall b: bv8 ensures b in all {
        assert ByteAt(b as int) == b;
      }
    }
    all
  }

  ghost function AllStrings(n: nat): set<seq<bv8>> {
    if n == 0 then {[]} else set b, s | b in AllBytes() && s in AllStrings(n - 1) :: [b] + s
  }

  lemma {:induction false} AllStringsComplete(s: seq<bv8>)
    ensures s in AllStrings(|s|)
  {
    if s != [] {
      AllStringsComplete(s[1..]);
      var b, rest := s[0], s[1..];
      assert b in AllBytes() && rest in AllStrings(|s| - 1) && s == [b] + rest;
    }
  }

  // The identifier space is finite, so a set comprehension over it is a set.
  ghost function AllIds(): (all: set<NodeID>)
    ensures forall id: NodeID :: id in all
  {
    forall id: NodeID ensures id in AllStrings(32) {
      AllStringsComplete(id);
    }
    set id: NodeID | id in AllStrings(32)
  }
}
