// How messages are framed on a connection: one type byte, a four-byte length, the body.
module Framing {
  import opened NodeIds
  import opened Wrappers

  const MAX_BODY: nat := 1024 * 1024
  const UINT32_RANGE: nat := 0x1_0000_0000

  datatype Message = Message(kind: bv8, body: seq<bv8>)

  datatype ReadResult = Got(message: Message) | NoType | NoLength | TooLarge(length: nat) | NoBody

  // The JSON encoder applied to a body that is JSON text already: it normalises the text,
  // or fails if there is none. A canonical body is one it leaves as it is.
  type Encoder = seq<bv8> -> Option<seq<bv8>>

  predicate Canonical(encode: Encoder, body: seq<bv8>) {
    encode(body) == Some(body)
  }

  // ----- The length field -----

  function Uint32Bytes(n: nat): (b: seq<bv8>)
    requires n < UINT32_RANGE
    ensures |b| == 4
  {
    [(n / 0x100_0000) as bv8, (n / 0x1_0000 % 0x100) as bv8, (n / 0x100 % 0x100) as bv8, (n % 0x100) as bv8]
  }

  function Uint32Of(b: seq<bv8>): (n: nat)
    requires |b| == 4
    ensures n < UINT32_RANGE
  {
    ((b[0] as nat * 0x100 + b[1] as nat) * 0x100 + b[2] as nat) * 0x100 + b[3] as nat
  }

  lemma ByteSuccessor(b: bv8)
    requires b != 0xff
    ensures (b + 1) as nat == b as nat + 1
  {
  }

  lemma ByteRestored(b: bv8)
    ensures (b as nat) as bv8 == b
  {
  }

  lemma {:induction false} ByteRoundTrip(m: nat)
    requires m < 0x100
    ensures (m as bv8) as nat == m
  {
    if m > 0 {
      ByteRoundTrip(m - 1);
      var b := (m - 1) as bv8;
      assert b != 0xff;
      ByteSuccessor(b);
      ByteRestored(b + 1);
    }
  }

  lemma DigitsRejoin(n: nat)
    requires n < UINT32_RANGE
    ensures n / 0x100_0000 < 0x100
    ensures n == ((n / 0x100_0000 * 0x100 + n / 0x1_0000 % 0x100) * 0x100 + n / 0x100 % 0x100) * 0x100 + n % 0x100
  {
    assert n / 0x100 == n / 0x1_0000 * 0x100 + n / 0x100 % 0x100;
    assert n / 0x1_0000 == n / 0x100_0000 * 0x100 + n / 0x1_0000 % 0x100;
  }

  lemma Uint32RoundTrip(n: nat)
    requires n < UINT32_RANGE
    ensures Uint32Of(Uint32Bytes(n)) == n
  {
    DigitsRejoin(n);
    ByteRoundTrip(n / 0x100_0000);
    ByteRoundTrip(n / 0x1_0000 % 0x100);
    ByteRoundTrip(n / 0x100 % 0x100);
    ByteRoundTrip(n % 0x100);
  }

  // Read big-endian, like the distances.
  lemma Uint32IsBigEndian(b: seq<bv8>)
    requires |b| == 4
    ensures Uint32Of(b) == BigEndian(b)
  {
    var b1, b2, b3 := b[..1], b[..2], b[..3];
    assert b3[..2] == b2 && b2[..1] == b1 && b1[..0] == [];
    assert BigEndian(b1) == b[0] as nat;
    assert BigEndian(b2) == BigEndian(b1) * 0x100 + b[1] as nat;
    assert BigEndian(b3) == BigEndian(b2) * 0x100 + b[2] as nat;
  }

  // ----- Frames as values -----

  // The length is converted to 32 bits, so it wraps for bodies of 4 GiB and more.
  function Frame(kind: bv8, body: seq<bv8>): seq<bv8> {
    [kind] + Uint32Bytes(|body| % UINT32_RANGE) + body
  }

  // What is read from a stream, and what is left of it.
  function Parse(stream: seq<bv8>): (ReadResult, seq<bv8>) {
    if |stream| < 1 then (NoType, [])
    else if |stream| < 5 then (NoLength, [])
    else
      var length := Uint32Of(stream[1..5]);
      if length > MAX_BODY then (TooLarge(length), stream[5..])
      else if |stream| < 5 + length then (NoBody, [])
      else (Got(Message(stream[0], stream[5..5 + length])), stream[5 + length..])
  }

  lemma FrameHeader(kind: bv8, body: seq<bv8>, rest: seq<bv8>)
    ensures var stream := Frame(kind, body) + rest;
      |stream| == 5 + |body| + |rest| && stream[0] == kind && stream[5..] == body + rest
      && Uint32Of(stream[1..5]) == |body| % UINT32_RANGE
  {
    var n := |body| % UINT32_RANGE;
    var stream := Frame(kind, body) + rest;
    assert stream[1..5] == Uint32Bytes(n);
    Uint32RoundTrip(n);
  }

  // A framed body is read back, whatever follows it, and exactly the frame is consumed, if
  // and only if the body is at most 1 MiB. The writer does not check: a longer body is
  // refused by the reader, or cut short once its length has wrapped.
  lemma FrameRoundTrip(kind: bv8, body: seq<bv8>, rest: seq<bv8>)
    ensures Parse(Frame(kind, body) + rest) == (Got(Message(kind, body)), rest) <==> |body| <= MAX_BODY
    ensures MAX_BODY < |body| < UINT32_RANGE ==> Parse(Frame(kind, body) + rest) == (TooLarge(|body|), body + rest)
    ensures |body| >= UINT32_RANGE && |body| % UINT32_RANGE <= MAX_BODY ==>
      Parse(Frame(kind, body) + rest).0 == Got(Message(kind, body[..|body| % UINT32_RANGE]))
  {
    FrameHeader(kind, body, rest);
    var stream := Frame(kind, body) + rest;
    var n := |body| % UINT32_RANGE;
    assert n == |body| || n < |body|;
    if n <= MAX_BODY {
      assert stream[5..5 + n] == (body + rest)[..n] == body[..n];
      assert n == |body| ==> body[..n] == body && stream[5 + n..] == rest;
    }
  }

  // Messages with a canonical body of at most 1 MiB arrive as they were sent.
  lemma MessageRoundTrip(encode: Encoder, m: Message, rest: seq<bv8>)
    requires Canonical(encode, m.body) && |m.body| <= MAX_BODY
    ensures Parse(Frame(m.kind, encode(m.body).value) + rest) == (Got(m), rest)
  {
    FrameRoundTrip(m.kind, m.body, rest);
  }

  // A frame that breaks off anywhere is never taken for a message.
  lemma TruncatedFrame(kind: bv8, body: seq<bv8>, k: nat)
    requires |body| <= MAX_BODY && k < |Frame(kind, body)|
    ensures !Parse(Frame(kind, body)[..k]).0.Got?
  {
    FrameHeader(kind, body, []);
    var frame := Frame(kind, body);
    assert frame + [] == frame;
    if k >= 5 {
      assert frame[..k][1..5] == frame[1..5];
    }
  }

  // ----- Connections -----

  class Conn {
    // Bytes that will still arrive, and bytes sent.
    var incoming: seq<bv8>
    var outgoing: seq<bv8>

    // Delivers at least one and at most max bytes, however the network has cut the stream;
    // none at its end.
    method Read(max: nat) returns (chunk: seq<bv8>)
      requires max > 0
      modifies this`incoming
      ensures old(incoming) == chunk + incoming && |chunk| <= max
      ensures chunk == [] <==> old(incoming) == []
    {
      if incoming == [] {
        return [];
      }
      var n :| 1 <= n <= max && n <= |incoming|;
      chunk, incoming := incoming[..n], incoming[n..];
    }

    // Reads until the buffer is full or the stream ends.
    method ReadFull(size: nat) returns (r: Option<seq<bv8>>)
      modifies this`incoming
      ensures |old(incoming)| >= size ==> r == Some(old(incoming)[..size]) && incoming == old(incoming)[size..]
      ensures |old(incoming)| < size ==> r == None && incoming == []
    {
      var buffer: seq<bv8> := [];
      while |buffer| < size
        invariant |buffer| <= size && old(incoming) == buffer + incoming
        decreases size - |buffer|
      {
        var chunk := Read(size - |buffer|);
        if chunk == [] {
          return None;
        }
        buffer := buffer + chunk;
      }
      return Some(buffer);
    }

    method ReadMessage() returns (r: ReadResult)
      modifies this`incoming
      ensures (r, incoming) == Parse(old(incoming))
    {
      var kind := ReadFull(1);
      if kind == None {
        return NoType;
      }
      var field := ReadFull(4);
      if field == None {
        return NoLength;
      }
      assert old(incoming)[1..][..4] == old(incoming)[1..5];
      assert old(incoming)[1..][4..] == old(incoming)[5..];
      var length := Uint32Of(field.value);
      if length > MAX_BODY {
        return TooLarge(length);
      }
      var body := ReadFull(length);
      if body == None {
        return NoBody;
      }
      assert old(incoming)[5..][..length] == old(incoming)[5..5 + length];
      assert old(incoming)[5..][length..] == old(incoming)[5 + length..];
      return Got(Message(kind.value[0], body.value));
    }

    // Type, length and body go through one buffer, which is flushed at the end.
    method WriteMessage(encode: Encoder, m: Message) returns (ok: bool)
      modifies this`outgoing
      ensures ok <==> encode(m.body).Some?
      ensures outgoing == old(outgoing) + if ok then Frame(m.kind, encode(m.body).value) else []
    {
      var body := encode(m.body);
      if body == None {
        return false;
      }
      var w := [m.kind];
      var lenBuf := new bv8[4];
      PutUint32(lenBuf, |body.value| % UINT32_RANGE);
      w := w + lenBuf[..];
      w := w + body.value;
      outgoing := outgoing + w;
      return true;
    }
  }

  method PutUint32(buf: array<bv8>, n: nat)
    requires buf.Length == 4 && n < UINT32_RANGE
    modifies buf
    ensures buf[..] == Uint32Bytes(n)
  {
    buf[0] := (n / 0x100_0000) as bv8;
    buf[1] := (n / 0x1_0000 % 0x100) as bv8;
    buf[2] := (n / 0x100 % 0x100) as bv8;
    buf[3] := (n % 0x100) as bv8;
  }
}
