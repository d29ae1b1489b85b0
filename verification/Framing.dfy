/**
  Length-prefixed framing (base/MessageSplitter.h): a 32-bit big-endian length
  followed by the message.  The parser is characterised independently of how it
  is computed, and the splitter object is proved to follow it on every chunking.
 */
module Framing {

  type byte = x: int | 0 <= x < 256
  type Bytes = seq<byte>

  const HEADER := 4
  const TWO_31 := 0x8000_0000
  const TWO_32 := 0x1_0000_0000

  /** The C++ conversion of an integer to `int32_t`. */
  function ToInt32(n: int): (r: int)
    ensures -TWO_31 <= r < TWO_31 && (r - n) % TWO_32 == 0
  {
    var m := n % TWO_32;
    if m < TWO_31 then m else m - TWO_32
  }

  /** The unsigned value of a byte string, most significant byte first. */
  function Word(b: Bytes): nat {
    if b == [] then 0 else Word(b[..|b| - 1]) * 256 + b[|b| - 1]
  }

  /** The lowest `n` base-256 digits of a number, most significant first. */
  function Digits(u: nat, n: nat): (b: Bytes)
    ensures |b| == n
  {
    if n == 0 then [] else Digits(u / 256, n - 1) + [u % 256]
  }

  function Pow256(n: nat): nat {
    if n == 0 then 1 else Pow256(n - 1) * 256
  }

  /** `htonl` of an `int32_t`, as the four bytes that go on the wire. */
  function BigEndian(v: int): (b: Bytes)
    ensures |b| == HEADER
  {
    Digits(v % TWO_32, HEADER)
  }

  /** `ntohl` of the first four bytes. */
  function ReadInt32(b: Bytes): (v: int)
    requires |b| >= HEADER
    ensures -TWO_31 <= v < TWO_31
  {
    ToInt32(Word(b[..HEADER]))
  }

  lemma {:induction false} WordOfDigits(u: nat, n: nat)
    requires u < Pow256(n)
    ensures Word(Digits(u, n)) == u
  {
    if n > 0 {
      WordOfDigits(u / 256, n - 1);
      assert Digits(u, n)[..n - 1] == Digits(u / 256, n - 1);
    }
  }

  lemma {:induction false} DigitsOfWord(b: Bytes)
    ensures Word(b) < Pow256(|b|)
    ensures Digits(Word(b), |b|) == b
  {
    if b != [] {
      var init, last := b[..|b| - 1], b[|b| - 1];
      DigitsOfWord(init);
      assert Word(b) / 256 == Word(init) && Word(b) % 256 == last;
      assert b == init + [last];
    }
  }

  lemma Pow256Of4()
    ensures Pow256(HEADER) == TWO_32
  {}

  lemma Int32Wraps(v: int)
    ensures ToInt32(v % TWO_32) == ToInt32(v)
    ensures 0 <= v < TWO_32 ==> ToInt32(v) % TWO_32 == v
  {}

  lemma ReadBigEndian(v: int, rest: Bytes)
    ensures ReadInt32(BigEndian(v) + rest) == ToInt32(v)
  {
    Pow256Of4();
    WordOfDigits(v % TWO_32, HEADER);
    Int32Wraps(v);
    hide ToInt32, Word, Digits, Pow256;
    assert (BigEndian(v) + rest)[..HEADER] == BigEndian(v);
  }

  /** A header is determined by the length it holds. */
  lemma BigEndianRead(b: Bytes)
    requires |b| >= HEADER
    ensures BigEndian(ReadInt32(b)) == b[..HEADER]
  {
    var u := Word(b[..HEADER]);
    Pow256Of4();
    DigitsOfWord(b[..HEADER]);
    Int32Wraps(u);
    hide ToInt32, Word, Digits, Pow256;
  }

  function Encode(msg: Bytes): (b: Bytes)
    ensures |b| == HEADER + |msg|
  {
    BigEndian(ToInt32(|msg|)) + msg
  }

  // ---------- the bytes on the wire ----------

  /** The four bytes are read most significant first, and the value is the two's complement one. */
  lemma ReadInt32Is(b: Bytes)
    requires |b| >= HEADER
    ensures ReadInt32(b) == ToInt32(b[0] as int * 0x100_0000 + b[1] as int * 0x1_0000 + b[2] as int * 0x100 + b[3])
  {
    assert b[..4][..3] == b[..3] && b[..3][..2] == b[..2] && b[..2][..1] == b[..1] && b[..1][..0] == [];
    assert Word(b[..1]) == b[0];
    assert Word(b[..2]) == b[0] as int * 256 + b[1];
    assert Word(b[..3]) == (b[0] as int * 256 + b[1]) * 256 + b[2];
    hide ToInt32;
  }

  /** The digits of a quotient, and one more. */
  lemma LastDigit(u: nat, n: nat)
    ensures Digits(u, n + 1) == Digits(u / 256, n) + [u % 256]
  {}

  lemma DigitsOf4(u: nat)
    ensures Digits(u, 4) == [u / 0x100_0000 % 256, u / 0x1_0000 % 256, u / 0x100 % 256, u % 256]
  {
    LastDigit(u, 3);
    LastDigit(u / 0x100, 2);
    LastDigit(u / 0x1_0000, 1);
    LastDigit(u / 0x100_0000, 0);
    assert Digits(u / 0x1_0000_0000, 0) == [];
    assert u / 0x100 / 256 == u / 0x1_0000 && u / 0x1_0000 / 256 == u / 0x100_0000;
    hide Digits;
  }

  /** A frame starts with the length of its message modulo 2^32, by division, and goes on with the message. */
  lemma EncodeIs(m: Bytes)
    ensures var n := |m| % TWO_32;
            Encode(m) == [n / 0x100_0000 % 256, n / 0x1_0000 % 256, n / 0x100 % 256, n % 256] + m
  {
    assert ToInt32(|m|) % TWO_32 == |m| % TWO_32;
    DigitsOf4(|m| % TWO_32);
    hide Digits, ToInt32;
  }

  function EncodeAll(msgs: seq<Bytes>): Bytes {
    if msgs == [] then [] else Encode(msgs[0]) + EncodeAll(msgs[1..])
  }

  /** Messages whose length the 32-bit header can hold. */
  predicate Framable(msgs: seq<Bytes>) {
    forall m <- msgs :: |m| < TWO_31
  }

  /** The buffer starts with a whole message. */
  predicate Complete(b: Bytes) {
    |b| >= HEADER && 0 <= ReadInt32(b) <= |b| - HEADER
  }

  datatype Parsed = Parsed(msgs: seq<Bytes>, rest: Bytes)

  /** What the splitter extracts from a byte string, and what it keeps. */
  function Parse(b: Bytes): (p: Parsed)
    decreases |b|
  {
    if !Complete(b) then Parsed([], b)
    else
      var n := ReadInt32(b);
      var p := Parse(b[HEADER + n..]);
      Parsed([b[HEADER..HEADER + n]] + p.msgs, p.rest)
  }

  // ---------- algebra of the encoder ----------

  lemma Assoc<T>(a: seq<T>, b: seq<T>, c: seq<T>)
    ensures a + b + c == a + (b + c)
  {}

  lemma NothingEncoded()
    ensures EncodeAll([]) == []
  {}

  lemma EncodeAllCons(m: Bytes, msgs: seq<Bytes>)
    ensures EncodeAll([m] + msgs) == Encode(m) + EncodeAll(msgs)
  {}

  lemma {:induction false} EncodeAllAppend(a: seq<Bytes>, b: seq<Bytes>)
    ensures EncodeAll(a + b) == EncodeAll(a) + EncodeAll(b)
  {
    if a == [] {
      NothingEncoded();
      assert a + b == b;
    } else {
      hide EncodeAll, Encode;
      EncodeAllAppend(a[1..], b);
      assert a == [a[0]] + a[1..];
      EncodeAllCons(a[0], a[1..]);
      EncodeAllCons(a[0], a[1..] + b);
      Assoc([a[0]], a[1..], b);
      Assoc(Encode(a[0]), EncodeAll(a[1..]), EncodeAll(b));
    }
  }

  // ---------- one step of the parser ----------

  lemma EncodeComplete(m: Bytes, tail: Bytes)
    requires |m| < TWO_31
    ensures Complete(Encode(m) + tail) && ReadInt32(Encode(m) + tail) == |m|
  {
    assert ToInt32(|m|) == |m|;
    hide BigEndian, ReadInt32, ToInt32;
    Assoc(BigEndian(|m|), m, tail);
    ReadBigEndian(|m|, m + tail);
  }

  lemma ParseStep(m: Bytes, tail: Bytes)
    requires |m| < TWO_31
    ensures Parse(Encode(m) + tail) == Parsed([m] + Parse(tail).msgs, Parse(tail).rest)
  {
    EncodeComplete(m, tail);
    hide BigEndian, ReadInt32, ToInt32;
    var b := Encode(m) + tail;
    assert b[HEADER + |m|..] == tail;
    assert b[HEADER..HEADER + |m|] == m;
  }

  /** A complete buffer is one encoded message followed by the rest. */
  lemma CompleteSplits(b: Bytes)
    requires Complete(b)
    ensures var n := ReadInt32(b); b == Encode(b[HEADER..HEADER + n]) + b[HEADER + n..]
  {
    BigEndianRead(b);
    var n := ReadInt32(b);
    assert ToInt32(n) == n;
    hide BigEndian, ReadInt32, ToInt32, Parse;
    assert b == b[..HEADER] + b[HEADER..HEADER + n] + b[HEADER + n..];
  }

  lemma RebuildStep(b: Bytes, m: Bytes, tail: Bytes, q: Parsed)
    requires Complete(b) && m == b[HEADER..HEADER + ReadInt32(b)] && tail == b[HEADER + ReadInt32(b)..]
    requires tail == EncodeAll(q.msgs) + q.rest
    ensures b == EncodeAll([m] + q.msgs) + q.rest
  {
    CompleteSplits(b);
    hide *;
    EncodeAllCons(m, q.msgs);
    Assoc(Encode(m), EncodeAll(q.msgs), q.rest);
  }

  // ---------- main results ----------

  /** Re-encoding what was extracted and adding the residue gives back the input. */
  lemma {:induction false} ParseRebuilds(b: Bytes)
    ensures b == EncodeAll(Parse(b).msgs) + Parse(b).rest
    ensures Framable(Parse(b).msgs) && !Complete(Parse(b).rest)
    decreases |b|
  {
    hide ReadInt32, BigEndian, ToInt32, EncodeAll, Encode;
    if Complete(b) {
      var n := ReadInt32(b);
      var m, tail := b[HEADER..HEADER + n], b[HEADER + n..];
      var q := Parse(tail);
      ParseRebuilds(tail);
      RebuildStep(b, m, tail, q);
    } else {
      NothingEncoded();
    }
  }

  lemma {:induction false} ParseEncoded(msgs: seq<Bytes>, tail: Bytes)
    requires Framable(msgs)
    ensures Parse(EncodeAll(msgs) + tail) == Parsed(msgs + Parse(tail).msgs, Parse(tail).rest)
  {
    hide Complete, Parse, Encode, EncodeAll;
    NothingEncoded();
    if msgs == [] {
      assert EncodeAll(msgs) + tail == tail;
    } else {
      var m, more := msgs[0], EncodeAll(msgs[1..]) + tail;
      assert msgs == [m] + msgs[1..];
      EncodeAllCons(m, msgs[1..]);
      assert EncodeAll(msgs) + tail == Encode(m) + more;
      assert forall x <- msgs[1..] :: x in msgs;
      ParseEncoded(msgs[1..], tail);
      ParseStep(m, more);
      assert msgs + Parse(tail).msgs == [m] + (msgs[1..] + Parse(tail).msgs);
    }
  }

  /**
    The parser is the unique way to cut a byte string into framable messages and
    a tail that does not start with a whole message.
   */
  lemma {:induction false} ParseUnique(b: Bytes, msgs: seq<Bytes>, rest: Bytes)
    ensures Parse(b) == Parsed(msgs, rest) <==>
            b == EncodeAll(msgs) + rest && Framable(msgs) && !Complete(rest)
  {
    ParseRebuilds(b);
    if b == EncodeAll(msgs) + rest && Framable(msgs) && !Complete(rest) {
      ParseEncoded(msgs, rest);
    }
  }

  /** Feeding a byte string in two pieces gives the same messages and residue. */
  lemma ParseInTwo(a: Bytes, b: Bytes)
    ensures var p := Parse(a); var q := Parse(p.rest + b);
            Parse(a + b) == Parsed(p.msgs + q.msgs, q.rest)
  {
    hide ReadInt32, BigEndian, ToInt32;
    var p := Parse(a);
    ParseRebuilds(a);
    assert a + b == EncodeAll(p.msgs) + (p.rest + b);
    ParseEncoded(p.msgs, p.rest + b);
  }

  /** What the splitter holds after being fed a list of chunks one by one. */
  function Feed(chunks: seq<Bytes>): Parsed {
    if chunks == [] then Parsed([], [])
    else
      var p := Feed(chunks[..|chunks| - 1]);
      var q := Parse(p.rest + chunks[|chunks| - 1]);
      Parsed(p.msgs + q.msgs, q.rest)
  }

  function Flatten(chunks: seq<Bytes>): Bytes {
    if chunks == [] then [] else Flatten(chunks[..|chunks| - 1]) + chunks[|chunks| - 1]
  }

  /** The result of a run depends on the bytes received only, never on how they were cut. */
  lemma {:induction false} ChunkingIsIrrelevant(chunks: seq<Bytes>)
    ensures Feed(chunks) == Parse(Flatten(chunks))
  {
    if chunks == [] {
      assert !Complete(Flatten(chunks));
    } else {
      var init := chunks[..|chunks| - 1];
      ChunkingIsIrrelevant(init);
      ParseInTwo(Flatten(init), chunks[|chunks| - 1]);
    }
  }

  /** A frame round-trips exactly when its length fits the signed 32-bit header. */
  lemma RoundTripExactly(m: Bytes)
    ensures Parse(Encode(m)) == Parsed([m], []) <==> |m| < TWO_31
  {
    assert Encode(m) + [] == Encode(m);
    if |m| < TWO_31 {
      ParseStep(m, []);
    } else {
      ReadBigEndian(ToInt32(|m|), m);
      ParseRebuilds(Encode(m));
    }
  }

  /** A header reads as negative exactly when its first bit is set. */
  lemma NegativeExactly(b: Bytes)
    requires |b| >= HEADER
    ensures ReadInt32(b) < 0 <==> b[0] >= 128
  {
    var h := b[..HEADER];
    var h0: int, h1: int, h2: int, h3: int := b[0], b[1], b[2], b[3];
    assert h[..3][..2][..1] == [b[0]] && [b[0]][..0] == [];
    assert Word([]) == 0 && Word([b[0]]) == h0;
    assert Word(h[..3][..2]) == h0 * 256 + h1;
    assert Word(h[..3]) == (h0 * 256 + h1) * 256 + h2;
    assert Word(h) == ((h0 * 256 + h1) * 256 + h2) * 256 + h3;
  }

  function Zeros(n: nat): (b: Bytes)
    ensures |b| == n
  {
    seq(n, _ => 0)
  }

  /** Enough zeros complete any header that is not negative, and its message. */
  lemma ZerosComplete(b: Bytes)
    requires b == [] || b[0] < 128
    ensures exists more :: Complete(b + more)
  {
    var padded := b + Zeros(HEADER);
    NegativeExactly(padded);
    var n := ReadInt32(padded);
    Assoc(b, Zeros(HEADER), Zeros(n));
    assert (padded + Zeros(n))[..HEADER] == padded[..HEADER];
    assert Complete(b + (Zeros(HEADER) + Zeros(n)));
  }

  /**
    The splitter is stalled for good, whatever arrives, exactly when the first
    byte it holds has its high bit set: the rest of the header does not matter.
   */
  lemma StallsExactly(b: Bytes)
    ensures (forall more :: Parse(b + more).msgs == []) <==> b != [] && b[0] >= 128
  {
    if b != [] && b[0] >= 128 {
      forall more ensures Parse(b + more).msgs == [] {
        if |b + more| >= HEADER {
          NegativeExactly(b + more);
        }
      }
    } else {
      ZerosComplete(b);
      var more :| Complete(b + more);
      hide Complete;
      assert Parse(b + more).msgs != [];
    }
  }

  /** Once a negative length is at the head, nothing is extracted and everything is kept. */
  lemma NegativeLengthStalls(b: Bytes, more: Bytes)
    requires |b| >= HEADER && ReadInt32(b) < 0
    ensures Parse(b + more) == Parsed([], b + more)
  {
    NegativeExactly(b);
    StallsExactly(b);
    ParseRebuilds(b + more);
    hide Parse, Complete, ReadInt32;
    NothingEncoded();
    assert [] + Parse(b + more).rest == Parse(b + more).rest;
  }

  lemma ParseAllEncoded(msgs: seq<Bytes>)
    requires Framable(msgs)
    ensures Parse(EncodeAll(msgs)) == Parsed(msgs, [])
  {
    ParseEncoded(msgs, []);
    hide ReadInt32, EncodeAll, Encode;
    assert EncodeAll(msgs) + [] == EncodeAll(msgs);
  }

  /**
    Bytes received so far are a prefix of the encoding of what was sent: the
    messages extracted are a prefix of the messages sent, and they are all of
    them as soon as every byte has arrived.
   */
  lemma PrefixDelivery(sent: seq<Bytes>, received: Bytes, onTheWay: Bytes)
    requires Framable(sent)
    requires EncodeAll(sent) == received + onTheWay
    ensures Parse(received).msgs <= sent
    ensures onTheWay == [] ==> Parse(received) == Parsed(sent, [])
    ensures Parse(received).msgs == sent && Parse(received).rest == [] ==> onTheWay == []
  {
    ParseInTwo(received, onTheWay);
    ParseAllEncoded(sent);
    ParseRebuilds(received);
    hide *;
    if onTheWay == [] {
      assert received + onTheWay == received;
    }
  }

  /** The splitter object of one connection. */
  class MessageSplitter {
    var buffer: Bytes
    var messages: seq<Bytes>
    ghost var fed: Bytes            // every byte appended so far
    ghost var taken: seq<Bytes>     // every message handed out so far

    /** Everything handed out, still queued or left over is exactly what was fed. */
    ghost predicate Valid()
      reads this
    {
      Parse(fed) == Parsed(taken + messages, buffer)
    }

    constructor ()
      ensures Valid() && fed == [] && taken == [] && messages == [] && buffer == []
    {
      buffer, messages, fed, taken := [], [], [], [];
    }

    method Append(chunk: Bytes)
      requires Valid()
      modifies this
      ensures Valid() && fed == old(fed) + chunk && taken == old(taken)
      ensures var p := Parse(old(buffer) + chunk);
              messages == old(messages) + p.msgs && buffer == p.rest
    {
      hide ReadInt32, BigEndian, ToInt32;
      ParseInTwo(fed, chunk);
      fed := fed + chunk;
      buffer := buffer + chunk;
      ghost var input, found := buffer, [];
      while true
        invariant fed == old(fed) + chunk && taken == old(taken)
        invariant messages == old(messages) + found
        invariant Parse(input) == Parsed(found + Parse(buffer).msgs, Parse(buffer).rest)
        decreases |buffer|
      {
        if |buffer| < HEADER {
          break;
        }
        var len := ReadInt32(buffer);
        if len < 0 || len > |buffer| - HEADER {
          break;
        }
        var msg := buffer[HEADER..HEADER + len];
        Assoc(found, [msg], Parse(buffer[HEADER + len..]).msgs);
        buffer := buffer[HEADER + len..];
        messages := messages + [msg];
        found := found + [msg];
      }
      Assoc(taken, old(messages), found);
    }

    method NextMessage() returns (ok: bool, msg: Bytes)
      requires Valid()
      modifies this
      ensures Valid() && fed == old(fed) && buffer == old(buffer)
      ensures ok <==> old(messages) != []
      ensures ok ==> msg == old(messages)[0] && messages == old(messages)[1..] && taken == old(taken) + [msg]
      ensures !ok ==> messages == [] && taken == old(taken)
    {
      hide Parse, Complete;
      ok, msg := false, [];
      if messages != [] {
        msg := messages[0];
        assert messages == [msg] + messages[1..];
        Assoc(taken, [msg], messages[1..]);
        messages := messages[1..];
        taken := taken + [msg];
        ok := true;
      }
    }
  }
}
