/** Framed messages between the server and its clients (message.cpp, message.hpp). */
module Frames {
  import opened Octets
  import opened Lexing

  const WORD_LIMIT := 0x1_0000_0000

  /** A std::uint32_t. */
  type Word32 = n: nat | n < WORD_LIMIT

  /** request_header and response_header have the same layout; a response has a code for a command. */
  datatype Header = Header(code: Word32, flags: Word32, tag: Word32, bodySize: Word32)

  datatype Message = Message(header: Header, body: Octets)

  const HEADER_SIZE := 16
  const MAX_BODY := 0x4000

  // ----- big-endian numbers -----

  function Write(n: nat, size: nat): (s: Octets)
    ensures |s| == size
  {
    if size == 0 then [] else Write(n / 256, size - 1) + [Octet(n % 256)]
  }

  function Read(s: Octets): nat {
    if s == [] then 0 else 256 * Read(s[..|s| - 1]) + s[|s| - 1] as nat
  }

  function Power(size: nat): nat {
    if size == 0 then 1 else 256 * Power(size - 1)
  }

  lemma {:induction false} ReadBound(s: Octets)
    ensures Read(s) < Power(|s|)
  {
    if s != [] {
      ReadBound(s[..|s| - 1]);
    }
  }

  lemma {:induction false} ReadWrite(n: nat, size: nat)
    requires n < Power(size)
    ensures Read(Write(n, size)) == n
  {
    if size > 0 {
      ReadWrite(n / 256, size - 1);
      OctetValue(n % 256);
      var s := Write(n, size);
      assert s[..|s| - 1] == Write(n / 256, size - 1);
    }
  }

  lemma OctetOf(b: bv8)
    ensures Octet(b as nat) == b
  {
    OctetValue(b as nat);
    OctetAsInt(Octet(b as nat), b);
  }

  lemma LastDigit(n: nat, digit: nat)
    requires digit < 256
    ensures (256 * n + digit) / 256 == n && (256 * n + digit) % 256 == digit
  {
  }

  lemma {:induction false} WriteRead(s: Octets)
    ensures Write(Read(s), |s|) == s
  {
    if s != [] {
      var init, last := s[..|s| - 1], s[|s| - 1];
      WriteRead(init);
      LastDigit(Read(init), last as nat);
      OctetOf(last);
      assert s == init + [last];
    }
  }

  lemma PowerOf4()
    ensures Power(4) == WORD_LIMIT
  {
    assert Power(1) == 256 && Power(2) == 0x1_0000 && Power(3) == 0x100_0000;
  }

  function Word(s: Octets): (w: Word32)
    requires |s| == 4
  {
    ReadBound(s);
    PowerOf4();
    Read(s)
  }

  // ----- headers -----

  function HeaderOctets(h: Header): (s: Octets)
    ensures |s| == HEADER_SIZE
  {
    Write(h.code, 4) + Write(h.flags, 4) + Write(h.tag, 4) + Write(h.bodySize, 4)
  }

  function HeaderOf(s: Octets): Header
    requires |s| == HEADER_SIZE
  {
    Header(Word(s[..4]), Word(s[4..8]), Word(s[8..12]), Word(s[12..]))
  }

  /** Decoding and encoding a header are inverse to each other, on all headers and all octets. */
  lemma HeaderOfOctets(h: Header)
    ensures HeaderOf(HeaderOctets(h)) == h
  {
    PowerOf4();
    ReadWrite(h.code, 4);
    ReadWrite(h.flags, 4);
    ReadWrite(h.tag, 4);
    ReadWrite(h.bodySize, 4);
    var s := HeaderOctets(h);
    assert s[..4] == Write(h.code, 4) && s[4..8] == Write(h.flags, 4);
    assert s[8..12] == Write(h.tag, 4) && s[12..] == Write(h.bodySize, 4);
  }

  lemma WriteWord(s: Octets)
    requires |s| == 4
    ensures Write(Word(s), 4) == s
  {
    WriteRead(s);
  }

  lemma FourParts(s: Octets)
    requires |s| == HEADER_SIZE
    ensures s == s[..4] + s[4..8] + s[8..12] + s[12..]
  {
  }

  lemma OctetsOfHeader(s: Octets)
    requires |s| == HEADER_SIZE
    ensures HeaderOctets(HeaderOf(s)) == s
  {
    WriteWord(s[..4]);
    WriteWord(s[4..8]);
    WriteWord(s[8..12]);
    WriteWord(s[12..]);
    FourParts(s);
  }

  /** Copies out the next big-endian integer and moves on. */
  method ExtractInteger(buf: Octets, at: nat) returns (value: Word32, next: nat)
    requires at + 4 <= |buf|
    ensures next == at + 4 && value == Word(buf[at..at + 4])
  {
    var n := 0;
    for i := 0 to 4
      invariant n == Read(buf[at..at + i])
    {
      assert buf[at..at + i + 1][..i] == buf[at..at + i];
      n := 256 * n + buf[at + i] as nat;
    }
    ReadBound(buf[at..at + 4]);
    PowerOf4();
    value, next := n, at + 4;
  }

  /** request_header::decode. */
  method DecodeHeader(buf: Octets) returns (h: Header)
    requires |buf| >= HEADER_SIZE
    ensures h == HeaderOf(buf[..HEADER_SIZE])
  {
    var code, flags, tag, size, at;
    code, at := ExtractInteger(buf, 0);
    flags, at := ExtractInteger(buf, at);
    tag, at := ExtractInteger(buf, at);
    size, at := ExtractInteger(buf, at);
    ghost var s := buf[..HEADER_SIZE];
    assert s[..4] == buf[0..4] && s[4..8] == buf[4..8] && s[8..12] == buf[8..12] && s[12..] == buf[12..16];
    h := Header(code, flags, tag, size);
  }

  /** Copies in an integer as big-endian and moves on. */
  method AppendInteger(buf: array<bv8>, at: nat, value: Word32) returns (next: nat)
    requires at + 4 <= buf.Length
    modifies buf
    ensures next == at + 4
    ensures buf[..next] == old(buf[..at]) + Write(value, 4) && buf[next..] == old(buf[at + 4..])
  {
    var rest := value;
    for i := 4 downto 0
      invariant buf[..at] == old(buf[..at]) && buf[at + 4..] == old(buf[at + 4..])
      invariant Write(value, 4) == Write(rest, i) + buf[at + i..at + 4]
    {
      buf[at + i] := Octet(rest % 256);
      rest := rest / 256;
      assert buf[at + i..at + 4] == [buf[at + i]] + buf[at + i + 1..at + 4];
    }
    next := at + 4;
    assert buf[..at + 4] == buf[..at] + buf[at..at + 4];
  }

  /** response_header::encode. */
  method EncodeHeader(h: Header, buf: array<bv8>)
    requires buf.Length == HEADER_SIZE
    modifies buf
    ensures buf[..] == HeaderOctets(h)
  {
    var at := AppendInteger(buf, 0, h.code);
    at := AppendInteger(buf, at, h.flags);
    at := AppendInteger(buf, at, h.tag);
    at := AppendInteger(buf, at, h.bodySize);
    assert buf[..] == buf[..at];
  }

  // ----- messages on a stream -----

  /** The message at the front of a stream; one without a body is given its header's octets as body. */
  function NextMessage(s: Octets): (i: Item<Message>)
    ensures i.Take? ==> 0 < i.used <= |s|
  {
    if |s| < HEADER_SIZE then Short else
    var h := HeaderOf(s[..HEADER_SIZE]);
    if h.bodySize > MAX_BODY then Stuck(TooLong)
    else if h.bodySize == 0 then Take(Message(h, s[..HEADER_SIZE]), HEADER_SIZE)
    else if |s| < HEADER_SIZE + h.bodySize then Short
    else Take(Message(h, s[HEADER_SIZE..HEADER_SIZE + h.bodySize]), HEADER_SIZE + h.bodySize)
  }

  lemma NextMessageStable(s: Octets, t: Octets)
    requires !NextMessage(s).Short?
    ensures NextMessage(s + t) == NextMessage(s)
  {
    assert (s + t)[..HEADER_SIZE] == s[..HEADER_SIZE];
    var n := HEADER_SIZE + HeaderOf(s[..HEADER_SIZE]).bodySize;
    if n <= |s| {
      assert (s + t)[HEADER_SIZE..n] == s[HEADER_SIZE..n];
    }
  }

  lemma MessageReaderFacts()
    ensures Advances(NextMessage) && Stable(NextMessage)
  {
    forall s, t | !NextMessage(s).Short? ensures NextMessage(s + t) == NextMessage(s) {
      NextMessageStable(s, t);
    }
  }

  ghost function Messages(s: Octets): Lexed<Message> {
    MessageReaderFacts();
    Lex(NextMessage, s)
  }

  // ----- replies -----

  /** response::body keeps the size in step with the body, in 32 bits. */
  function InStep(m: Message): Message {
    m.(header := m.header.(bodySize := |m.body| % WORD_LIMIT))
  }

  function MessageOctets(m: Message): Octets {
    HeaderOctets(InStep(m).header) + m.body
  }

  /** A reply as respond makes it. */
  function Reply(code: Word32, tag: Word32, body: Octets): Message {
    InStep(Message(Header(code, 0, tag, 0), body))
  }

  ghost predicate Framed(m: Message) {
    m.header.bodySize == |m.body| && 0 < |m.body| <= MAX_BODY
  }

  /** What is at the front of a header, a body and whatever follows. */
  lemma AfterHeader(header: Octets, h: Header, body: Octets, t: Octets)
    requires |header| == HEADER_SIZE && HeaderOf(header) == h && h.bodySize == |body| % WORD_LIMIT
    ensures var i := NextMessage(header + body + t);
      if 0 < |body| <= MAX_BODY then i == Take(Message(h, body), |header + body|)
      else !(i.Take? && i.item == Message(h, body))
  {
    var s := header + body + t;
    assert s[..HEADER_SIZE] == header;
    if 0 < |body| <= MAX_BODY {
      assert s[HEADER_SIZE..HEADER_SIZE + |body|] == body;
    }
  }

  lemma FirstMessage(m: Message, t: Octets)
    ensures var i := NextMessage(MessageOctets(m) + t);
      if Framed(m) then i == Take(m, |MessageOctets(m)|) else !(i.Take? && i.item == m)
  {
    var h := InStep(m).header;
    HeaderOfOctets(h);
    AfterHeader(HeaderOctets(h), h, m.body, t);
  }

  lemma MessagesReadBack()
    ensures ReadsBack(NextMessage, MessageOctets, Framed)
  {
    forall m, t
      ensures var i := NextMessage(MessageOctets(m) + t);
        if Framed(m) then i == Take(m, |MessageOctets(m)|) else !(i.Take? && i.item == m)
    {
      FirstMessage(m, t);
    }
  }

  /** Reading messages back gives exactly those written iff all have bodies of 1 to 0x4000 octets. */
  lemma MessagesRoundTripIff(ms: seq<Message>)
    ensures Messages(Emit(MessageOctets, ms)) == Lexed(ms, [], false, Nothing) <==> forall m <- ms :: Framed(m)
  {
    MessageReaderFacts();
    MessagesReadBack();
    var s := Emit(MessageOctets, ms);
    if All(Framed, ms) {
      ReadEmitted(NextMessage, MessageOctets, Framed, ms, []);
      assert s + [] == s;
      assert Messages([]) == Lexed([], [], false, Nothing);
      assert ms + [] == ms;
    } else {
      ReadMisses(NextMessage, MessageOctets, Framed, ms);
    }
  }
}
