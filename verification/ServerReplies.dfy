/** What the server answers, written out in full, and what of it is on the wire over whole runs. */
module ServerReplies {
  import opened Octets
  import opened Options
  import opened Lexing
  import opened Frames
  import opened TcpClient

  // ----- one request -----

  function UnknownReply(request: Message): Message {
    Message(Header(1, 0, request.header.tag, 0), [])
  }

  /** A request for a command that is not in the table: code 1, no flags, its tag, no body. */
  lemma UnknownIsAnswered(commands: Commands, m: Message)
    requires m.header.code !in commands
    ensures AnswersTo(commands, m) == [Message(Header(1, 0, m.header.tag, 0), [])]
  {
  }

  /** Any other is answered by its command, and by nothing else. */
  lemma KnownIsAnswered(commands: Commands, m: Message)
    requires m.header.code in commands
    ensures AnswersTo(commands, m) == commands[m.header.code](m)
  {
  }

  /** The echo command: code 0, no flags, the tag and the body of the request. */
  lemma EchoIsSpelled(m: Message)
    requires |m.body| < 0x1_0000_0000
    ensures Echo(m) == [Message(Header(0, 0, m.header.tag, |m.body|), m.body)]
  {
  }

  // ----- one reply -----

  lemma PostedIsQueued(o: Outbound, reply: Message)
    ensures Post(o, [reply]) == Outbound(
      o.posted + [reply], o.queue, o.writing, o.wire, o.results, o.replies + [reply], o.written, o.refused)
  {
  }

  lemma ReplyOctets(reply: Message)
    requires |reply.body| < 0x1_0000_0000
    ensures MessageOctets(reply)
         == HeaderOctets(Header(reply.header.code, reply.header.flags, reply.header.tag, |reply.body|)) + reply.body
  {
  }

  /** A reply is written as its header, whose size is that of the body, and the body. */
  lemma SentIsWritten(o: Outbound)
    requires o.posted != [] && |o.posted[0].body| < 0x1_0000_0000
    ensures var reply := o.posted[0];
      var h := Header(reply.header.code, reply.header.flags, reply.header.tag, |reply.body|);
      Send(o) == Outbound(
        o.posted[1..], o.queue, o.writing + 1, o.wire + (HeaderOctets(h) + reply.body), o.results, o.replies,
        o.written + [reply], o.refused)
  {
    ReplyOctets(o.posted[0]);
  }

  /** A reply that cannot be written: its send handler is told that there is no connection. */
  lemma RefusedIsTold(o: Outbound)
    requires o.posted != []
    ensures Refuse(o) == Outbound(
      o.posted[1..], o.queue, o.writing, o.wire, o.results + [Some(NotConnected)], o.replies, o.written,
      o.refused + [o.posted[0]])
  {
  }

  /** A write that completes: its send handler is called with this result. */
  lemma CompletedIsTold(o: Outbound, result: Option<Error>)
    requires o.writing > 0
    ensures Complete(o, result) == Outbound(
      o.posted, o.queue, o.writing - 1, o.wire, o.results + [result], o.replies, o.written, o.refused)
  {
  }

  // ----- over runs -----

  /** The octets that refuse a request for an unknown command. */
  function UnknownOctets(request: Message): Octets {
    HeaderOctets(Header(1, 0, request.header.tag, 0))
  }

  /** The ith reply of 16 octets. */
  function Block(wire: Octets, i: nat): Octets
    requires 16 * i + 16 <= |wire|
  {
    wire[16 * i..16 * i + 16]
  }

  /** The octets are the refusals of the first requests, in order. */
  ghost predicate RefusesFirst(wire: Octets, requests: seq<Message>, n: nat)
    requires n <= |requests|
  {
    |wire| == 16 * n && forall i | 0 <= i < n :: Block(wire, i) == UnknownOctets(requests[i])
  }

  lemma UnknownIsEmitted(request: Message)
    ensures Emit(MessageOctets, [UnknownReply(request)]) == UnknownOctets(request)
  {
    EmitOne(MessageOctets, UnknownReply(request));
    assert UnknownOctets(request) + [] == UnknownOctets(request);
  }

  lemma BlockKept(wire: Octets, more: Octets, i: nat)
    requires 16 * i + 16 <= |wire|
    ensures Block(wire + more, i) == Block(wire, i)
  {
  }

  lemma BlockAdded(wire: Octets, more: Octets, n: nat)
    requires |wire| == 16 * n && |more| == 16
    ensures Block(wire + more, n) == more
  {
  }

  lemma RefusesOneMore(wire: Octets, requests: seq<Message>, n: nat)
    requires n < |requests| && RefusesFirst(wire, requests, n)
    ensures RefusesFirst(wire + UnknownOctets(requests[n]), requests, n + 1)
  {
    var more := UnknownOctets(requests[n]);
    BlockAdded(wire, more, n);
    forall i | 0 <= i < n ensures Block(wire + more, i) == UnknownOctets(requests[i]) {
      BlockKept(wire, more, i);
    }
  }

  lemma {:induction false} AnswersRefuse(commands: Commands, requests: seq<Message>)
    requires forall m <- requests :: m.header.code !in commands
    ensures |Answers(commands, requests)| == |requests|
    ensures forall i | 0 <= i < |requests| :: Answers(commands, requests)[i] == UnknownReply(requests[i])
  {
    if requests != [] {
      AnswersRefuse(commands, requests[..|requests| - 1]);
      UnknownIsAnswered(commands, requests[|requests| - 1]);
    }
  }

  lemma RefusalIsEmitted(replies: seq<Message>, request: Message, n: nat)
    requires n < |replies| && replies[n] == UnknownReply(request)
    ensures Emit(MessageOctets, replies[..n + 1]) == Emit(MessageOctets, replies[..n]) + UnknownOctets(request)
  {
    var last := [UnknownReply(request)];
    assert replies[..n + 1] == replies[..n] + last;
    EmitAppend(MessageOctets, replies[..n], last);
    UnknownIsEmitted(request);
  }

  lemma {:induction false} RefusalsAreEmitted(replies: seq<Message>, requests: seq<Message>, n: nat)
    requires n <= |requests| == |replies|
    requires forall i | 0 <= i < |requests| :: replies[i] == UnknownReply(requests[i])
    ensures RefusesFirst(Emit(MessageOctets, replies[..n]), requests, n)
  {
    if n > 0 {
      RefusalsAreEmitted(replies, requests, n - 1);
      RefusalIsEmitted(replies, requests[n - 1], n - 1);
      RefusesOneMore(Emit(MessageOctets, replies[..n - 1]), requests, n - 1);
    } else {
      assert Emit(MessageOctets, replies[..0]) == [];
    }
  }

  /**
   A client that asks only for commands that are not in the table: however its octets arrive and
   its replies are sent, on the wire are 16 octets for each reply written, with code 1 and the tag
   of the request, in the order of the requests; and once all are written, for each request.
   */
  lemma UnknownEndToEnd(client: TcpClient, s: Octets)
    requires client.Answered() && client.HasRead(s) && forall o <- client.history :: !o.Later?
    requires forall m <- Messages(s).items :: m.header.code !in client.commands
    ensures |client.out.written| <= |Messages(s).items|
    ensures RefusesFirst(client.out.wire, Messages(s).items, |client.out.written|)
    ensures client.out.posted == [] && client.out.refused == [] ==> |client.out.written| == |Messages(s).items|
  {
    var sent := Messages(s).items;
    client.RepliesInOrder();
    RepliesAreAnswers(client.commands, client.history, client.requests, client.errors);
    AnswersRefuse(client.commands, sent);
    RefusalsAreEmitted(Answers(client.commands, sent), sent, |client.out.written|);
  }
}
