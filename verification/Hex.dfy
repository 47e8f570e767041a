// Lower-case hexadecimal text (base16, section 8 of RFC 4648), as node IDs, keys and
// signatures travel in it.
module Hex {
  import opened Wrappers

  function DigitOf(n: bv8): (c: char)
    requires n < 16
  {
    "0123456789abcdef"[n as int]
  }

  // Upper-case digits are accepted on input, never produced.
  function ValueOf(c: char): (v: Option<bv8>)
    ensures v.Some? ==> v.value < 16
  {
    if '0' <= c <= '9' then Some((c as int - '0' as int) as bv8)
    else if 'a' <= c <= 'f' then Some((c as int - 'a' as int + 10) as bv8)
    else if 'A' <= c <= 'F' then Some((c as int - 'A' as int + 10) as bv8)
    else None
  }

  function Encode(b: seq<bv8>): string {
    if b == [] then "" else [DigitOf(b[0] >> 4), DigitOf(b[0] & 0x0f)] + Encode(b[1..])
  }

  function Decode(s: string): Option<seq<bv8>> {
    if |s| == 0 then Some([])
    else if |s| == 1 then None
    else
      match (ValueOf(s[0]), ValueOf(s[1]), Decode(s[2..]))
      case (Some(hi), Some(lo), Some(rest)) => Some([(hi << 4) | lo] + rest)
      case _ => None
  }

  lemma DigitRoundTrip(n: bv8)
    requires n < 16
    ensures ValueOf(DigitOf(n)) == Some(n)
  {
    var k := n as int;
    assert k as bv8 == n;
    assert k == 0 || k == 1 || k == 2 || k == 3 || k == 4 || k == 5 || k == 6 || k == 7
      || k == 8 || k == 9 || k == 10 || k == 11 || k == 12 || k == 13 || k == 14 || k == 15;
  }

  lemma NibblesRejoin(b: bv8)
    ensures b >> 4 < 16 && b & 0x0f < 16
    ensures ((b >> 4) << 4) | (b & 0x0f) == b
  {
  }

  lemma {:induction false} DecodeEncode(b: seq<bv8>)
    ensures Decode(Encode(b)) == Some(b)
  {
    if b != [] {
      NibblesRejoin(b[0]);
      DigitRoundTrip(b[0] >> 4);
      DigitRoundTrip(b[0] & 0x0f);
      DecodeEncode(b[1..]);
      assert Encode(b)[2..] == Encode(b[1..]);
      assert b == [b[0]] + b[1..];
    }
  }

  // ----- What is read -----

  function LowerDigit(c: char): char {
    if 'A' <= c <= 'F' then c + 'a' - 'A' else c
  }

  function Lower(s: string): (l: string)
    ensures |l| == |s| && forall i | 0 <= i < |s| :: l[i] == LowerDigit(s[i])
  {
    seq(|s|, i requires 0 <= i < |s| => LowerDigit(s[i]))
  }

  lemma DigitAt(k: nat)
    requires k < 16
    ensures "0123456789abcdef"[k] as int == if k < 10 then '0' as int + k else 'a' as int + k - 10
    ensures (k as bv8) as int == k
  {
    assert k == 0 || k == 1 || k == 2 || k == 3 || k == 4 || k == 5 || k == 6 || k == 7
      || k == 8 || k == 9 || k == 10 || k == 11 || k == 12 || k == 13 || k == 14 || k == 15;
  }

  lemma ReadAsWritten(c: char, k: nat)
    requires k < 16 && LowerDigit(c) == "0123456789abcdef"[k]
    ensures ValueOf(c) == Some(k as bv8) && DigitOf(k as bv8) == LowerDigit(c)
  {
    DigitAt(k);
  }

  // A digit is read exactly as the value that is written, in lower case, as that digit.
  lemma DigitIsRead(c: char)
    ensures match ValueOf(c)
            case Some(n) => DigitOf(n) == LowerDigit(c)
            case None => forall n: bv8 | n < 16 :: DigitOf(n) != LowerDigit(c)
  {
    var d := LowerDigit(c) as int;
    if '0' <= c <= '9' {
      ReadAsWritten(c, d - '0' as int);
    } else if 'a' <= LowerDigit(c) <= 'f' {
      ReadAsWritten(c, d - 'a' as int + 10);
    } else {
      forall n: bv8 | n < 16 ensures DigitOf(n) != LowerDigit(c) {
        DigitRoundTrip(n);
      }
    }
  }

  lemma NibblesRead(hi: bv8, lo: bv8)
    requires hi < 16 && lo < 16
    ensures ((hi << 4) | lo) >> 4 == hi && ((hi << 4) | lo) & 0x0f == lo
  {
  }

  lemma {:induction false} EncodedLength(b: seq<bv8>)
    ensures |Encode(b)| == 2 * |b|
  {
    if b != [] {
      EncodedLength(b[1..]);
    }
  }

  // Exactly what is read: a text stands for some bytes when, in lower case, it is how they
  // are written, and for none when there are no such bytes.
  lemma {:induction false} DecodeExact(s: string)
    ensures match Decode(s)
            case Some(b) => Encode(b) == Lower(s)
            case None => forall b :: Encode(b) != Lower(s)
    decreases |s|
  {
    if |s| >= 2 {
      DecodeExact(s[2..]);
      assert Lower(s) == [LowerDigit(s[0]), LowerDigit(s[1])] + Lower(s[2..]);
      if Decode(s).Some? {
        ReadPair(s, Decode(s[2..]).value);
      } else {
        forall b ensures Encode(b) != Lower(s) {
          UnreadTail(s, b);
        }
      }
    } else if |s| == 1 {
      forall b ensures Encode(b) != Lower(s) {
        EncodedLength(b);
      }
    }
  }

  lemma ReadPair(s: string, rest: seq<bv8>)
    requires |s| >= 2 && Lower(s) == [LowerDigit(s[0]), LowerDigit(s[1])] + Lower(s[2..])
    requires ValueOf(s[0]).Some? && ValueOf(s[1]).Some? && Encode(rest) == Lower(s[2..])
    ensures Encode([(ValueOf(s[0]).value << 4) | ValueOf(s[1]).value] + rest) == Lower(s)
  {
    DigitIsRead(s[0]);
    DigitIsRead(s[1]);
    NibblesRead(ValueOf(s[0]).value, ValueOf(s[1]).value);
    var b := [(ValueOf(s[0]).value << 4) | ValueOf(s[1]).value] + rest;
    assert b[1..] == rest;
  }

  lemma UnreadTail(s: string, b: seq<bv8>)
    requires |s| >= 2 && Lower(s) == [LowerDigit(s[0]), LowerDigit(s[1])] + Lower(s[2..])
    requires ValueOf(s[0]).None? || ValueOf(s[1]).None? || (b != [] ==> Encode(b[1..]) != Lower(s[2..]))
    ensures Encode(b) != Lower(s)
  {
    EncodedLength(b);
    if b != [] {
      var hi, lo, rest := b[0] >> 4, b[0] & 0x0f, b[1..];
      NibblesRejoin(b[0]);
      DigitIsRead(s[0]);
      DigitIsRead(s[1]);
      assert ValueOf(s[0]).None? ==> DigitOf(hi) != LowerDigit(s[0]);
      assert ValueOf(s[1]).None? ==> DigitOf(lo) != LowerDigit(s[1]);
      PairsDiffer(DigitOf(hi), DigitOf(lo), Encode(rest), LowerDigit(s[0]), LowerDigit(s[1]), Lower(s[2..]));
    }
  }

  lemma PairsDiffer(a: char, b: char, rest: string, c: char, d: char, tail: string)
    requires a != c || b != d || rest != tail
    ensures [a, b] + rest != [c, d] + tail
  {
    var x, y := [a, b] + rest, [c, d] + tail;
    assert x[0] == a && x[1] == b && x[2..] == rest && y[0] == c && y[1] == d && y[2..] == tail;
  }
}
