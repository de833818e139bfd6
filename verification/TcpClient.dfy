/**
 A client's connection to the server (tcp_client.cpp, read_state_machine.cpp), with the
 server's handling of requests (server.cpp) for any table of commands.
 */
module TcpClient {
  import opened Octets
  import opened Options
  import opened Lexing
  import opened Frames
  import Grouping

  datatype ReadState = Idle | ReadingHeader | ReadingBody | Closed

  datatype Error = MessageSize | Eof | NotConnected | Io(code: nat)

  const SUCCESS: Word32 := 0
  const UNKNOWN_COMMAND: Word32 := 1

  /** What a header announces. */
  datatype Kind = Excessive | Empty | Full

  function KindOf(h: Header): Kind {
    if h.bodySize > MAX_BODY then Excessive else if h.bodySize == 0 then Empty else Full
  }

  /** What a command posts in reply to a request. */
  type Command = Message -> seq<Message>

  type Commands = map<Word32, Command>

  /** The server looks the command up; a request for none is answered with a code. */
  function AnswersTo(commands: Commands, request: Message): seq<Message> {
    if request.header.code in commands then commands[request.header.code](request)
    else [Reply(UNKNOWN_COMMAND, request.header.tag, [])]
  }

  function Answers(commands: Commands, requests: seq<Message>): seq<Message> {
    if requests == [] then []
    else Answers(commands, requests[..|requests| - 1]) + AnswersTo(commands, requests[|requests| - 1])
  }

  // ----- what happens to a connection -----

  /** A request is delivered, a command replies later to an earlier one, or an error is reported. */
  datatype Occurrence = Requested(request: Message) | Later(reply: Message) | Lost(err: Error)

  function RepliesOf(commands: Commands, o: Occurrence): seq<Message> {
    match o
    case Requested(request) => AnswersTo(commands, request)
    case Later(reply) => [reply]
    case Lost(_) => []
  }

  function RepliesIn(commands: Commands, history: seq<Occurrence>): seq<Message> {
    if history == [] then []
    else RepliesIn(commands, history[..|history| - 1]) + RepliesOf(commands, history[|history| - 1])
  }

  lemma HistorySnoc(commands: Commands, history: seq<Occurrence>, o: Occurrence)
    ensures RepliesIn(commands, history + [o]) == RepliesIn(commands, history) + RepliesOf(commands, o)
  {
    assert (history + [o])[..|history|] == history;
  }

  /** These are the requests and errors of the history, and no request and no other error comes after an error. */
  ghost predicate Recorded(history: seq<Occurrence>, requests: seq<Message>, errors: seq<Error>) {
    if history == [] then requests == [] && errors == []
    else
      var init := history[..|history| - 1];
      match history[|history| - 1]
      case Requested(request) =>
        requests != [] && requests[|requests| - 1] == request && errors == []
        && Recorded(init, requests[..|requests| - 1], [])
      case Later(_) => Recorded(init, requests, errors)
      case Lost(err) => errors == [err] && Recorded(init, requests, [])
  }

  lemma RecordRequest(history: seq<Occurrence>, requests: seq<Message>, request: Message)
    requires Recorded(history, requests, [])
    ensures Recorded(history + [Requested(request)], requests + [request], [])
  {
    assert (history + [Requested(request)])[..|history|] == history;
    assert (requests + [request])[..|requests|] == requests;
  }

  lemma RecordOther(history: seq<Occurrence>, requests: seq<Message>, errors: seq<Error>, o: Occurrence)
    requires Recorded(history, requests, errors)
    ensures o.Later? ==> Recorded(history + [o], requests, errors)
    ensures o.Lost? && errors == [] ==> Recorded(history + [o], requests, [o.err])
  {
    assert (history + [o])[..|history|] == history;
  }

  /** Once an error has been reported, commands may still reply, but nothing else happens. */
  ghost predicate EndsWithLoss(history: seq<Occurrence>) {
    forall i, j | 0 <= i < j < |history| && history[i].Lost? :: history[j].Later?
  }

  lemma {:induction false} RecordedEndsWithLoss(history: seq<Occurrence>, requests: seq<Message>, errors: seq<Error>)
    requires Recorded(history, requests, errors)
    ensures EndsWithLoss(history)
    ensures errors == [] ==> forall o <- history :: !o.Lost?
  {
    if history != [] {
      var init := history[..|history| - 1];
      match history[|history| - 1]
      case Requested(_) => RecordedEndsWithLoss(init, requests[..|requests| - 1], []);
      case Later(_) => RecordedEndsWithLoss(init, requests, errors);
      case Lost(_) => RecordedEndsWithLoss(init, requests, []);
    }
  }

  /** When no command replies later, the replies are the answers to the requests. */
  lemma {:induction false} RepliesAreAnswers(
      commands: Commands, history: seq<Occurrence>, requests: seq<Message>, errors: seq<Error>)
    requires Recorded(history, requests, errors) && (forall o <- history :: !o.Later?)
    ensures RepliesIn(commands, history) == Answers(commands, requests)
  {
    if history != [] {
      var init := history[..|history| - 1];
      match history[|history| - 1]
      case Requested(request) => RepliesAreAnswers(commands, init, requests[..|requests| - 1], []);
      case Lost(_) => RepliesAreAnswers(commands, init, requests, []);
    }
  }

  /** What happens later only adds replies after those to what happened before. */
  lemma {:induction false} RepliesGrow(commands: Commands, history: seq<Occurrence>, more: seq<Occurrence>)
    ensures RepliesIn(commands, history) <= RepliesIn(commands, history + more)
    decreases |more|
  {
    if more == [] {
      assert history + more == history;
    } else {
      var init, last := more[..|more| - 1], [more[|more| - 1]];
      assert more == init + last;
      Grouping.Reassociate(history, init, last);
      RepliesGrow(commands, history, init);
      HistorySnoc(commands, history + init, last[0]);
    }
  }

  // ----- replies on their way -----

  /**
   Replies posted, replies in the send queue, the number of writes under way, the octets
   written, the send handlers called; and which replies were asked for, written and refused.
   */
  datatype Outbound = Outbound(
    posted: seq<Message>,
    queue: seq<Message>,
    writing: nat,
    wire: Octets,
    results: seq<Option<Error>>,
    replies: seq<Message>,
    written: seq<Message>,
    refused: seq<Message>)

  const NOTHING_SENT := Outbound([], [], 0, [], [], [], [], [])

  /** Every reply is written, refused or posted, in that order, and its send handler is called once. */
  ghost predicate InOrder(o: Outbound) {
    && o.replies == o.written + o.refused + o.posted
    && o.wire == Emit(MessageOctets, o.written)
    && |o.results| + o.writing + |o.posted| == |o.replies|
    && o.queue == []
  }

  function Post(o: Outbound, ms: seq<Message>): Outbound {
    o.(posted := o.posted + ms, replies := o.replies + ms)
  }

  /** The first posted reply is written. */
  function Send(o: Outbound): Outbound
    requires o.posted != []
  {
    o.(posted := o.posted[1..], writing := o.writing + 1, wire := o.wire + MessageOctets(o.posted[0]),
       written := o.written + [o.posted[0]])
  }

  /** The first posted reply is refused. */
  function Refuse(o: Outbound): Outbound
    requires o.posted != []
  {
    o.(posted := o.posted[1..], refused := o.refused + [o.posted[0]], results := o.results + [Some(NotConnected)])
  }

  function Complete(o: Outbound, result: Option<Error>): Outbound
    requires o.writing > 0
  {
    o.(writing := o.writing - 1, results := o.results + [result])
  }

  lemma PostInOrder(o: Outbound, ms: seq<Message>)
    requires InOrder(o)
    ensures InOrder(Post(o, ms))
  {
  }

  lemma SendInOrder(o: Outbound)
    requires InOrder(o) && o.posted != [] && o.refused == []
    ensures InOrder(Send(o))
  {
    var last := [o.posted[0]];
    assert o.posted == last + o.posted[1..];
    EmitAppend(MessageOctets, o.written, last);
    EmitOne(MessageOctets, o.posted[0]);
  }

  lemma RefuseInOrder(o: Outbound)
    requires InOrder(o) && o.posted != []
    ensures InOrder(Refuse(o))
  {
    assert o.posted == [o.posted[0]] + o.posted[1..];
  }

  // ----- octets as they arrive -----

  lemma HeaderArrives(s: Octets, data: Octets)
    requires !Messages(s).stopped && Messages(s).rest == [] && |data| == HEADER_SIZE
    ensures var p, q, h := Messages(s), Messages(s + data), HeaderOf(data);
      if h.bodySize > MAX_BODY then q == p.(rest := data, stopped := true, why := TooLong)
      else if h.bodySize == 0 then q == p.(items := p.items + [Message(h, data)], why := Nothing)
      else q == p.(rest := data)
  {
    MessageReaderFacts();
    LexOne(NextMessage, s, data);
    assert [] + data == data && data[..HEADER_SIZE] == data;
  }

  lemma BodyArrives(s: Octets, data: Octets)
    requires !Messages(s).stopped && |Messages(s).rest| == HEADER_SIZE
    requires |data| == HeaderOf(Messages(s).rest).bodySize && 0 < |data| <= MAX_BODY
    ensures var p := Messages(s);
      Messages(s + data) == p.(items := p.items + [Message(HeaderOf(p.rest), data)], rest := [], why := Nothing)
  {
    MessageReaderFacts();
    LexOne(NextMessage, s, data);
    var front := Messages(s).rest + data;
    assert front[..HEADER_SIZE] == Messages(s).rest && front[HEADER_SIZE..HEADER_SIZE + |data|] == data;
  }

  /** Octets that are too few for what comes next change nothing. */
  lemma TooFewArrive(s: Octets, data: Octets)
    requires !Messages(s).stopped
    requires var rest := Messages(s).rest;
      (rest == [] && |data| < HEADER_SIZE) || (|rest| == HEADER_SIZE && |data| < HeaderOf(rest).bodySize <= MAX_BODY)
    ensures Messages(s + data) == Messages(s).(rest := Messages(s).rest + data)
  {
    MessageReaderFacts();
    LexOne(NextMessage, s, data);
    var p := Messages(s);
    if p.rest != [] {
      assert (p.rest + data)[..HEADER_SIZE] == p.rest;
    }
  }

  lemma NothingRead()
    ensures Messages([]) == Lexed([], [], false, Nothing)
  {
    MessageReaderFacts();
  }

  lemma StoppedForGood(s: Octets, data: Octets)
    requires Messages(s).stopped
    ensures Messages(s + data) == Messages(s).(rest := Messages(s).rest + data)
  {
    MessageReaderFacts();
    LexResumes(NextMessage, s, data);
  }

  class TcpClient {
    /** The commands that the server knows, by their numbers. */
    const commands: Commands

    // read_state_machine and its read_context
    var state: ReadState
    var header: Header
    var buffer: Octets

    // the socket: whether it is open, what has arrived unread, the sizes of the reads outstanding
    var sockOpen: bool
    var inbox: Octets
    var pending: seq<nat>

    // the send queue, and what becomes of replies
    var out: Outbound

    // history: requests delivered, errors reported, these and later replies in order, octets read
    // and what they come to
    var requests: seq<Message>
    var errors: seq<Error>
    var history: seq<Occurrence>
    ghost var consumed: Octets
    ghost var scan: Lexed<Message>
    ghost var announced: Header

    predicate IsOpen()
      reads this`sockOpen, this`state
    {
      sockOpen && state != Closed
    }

    ghost predicate Parsed()
      reads this`consumed, this`scan, this`announced
    {
      scan == Messages(consumed) && (|scan.rest| == HEADER_SIZE ==> announced == HeaderOf(scan.rest))
    }

    /** Exactly one read is outstanding, into a buffer of its size. */
    ghost predicate Asked(n: nat)
      reads this`buffer, this`pending
    {
      |buffer| == n && pending == [n]
    }

    /** What has been delivered is what has been scanned. */
    ghost predicate Current()
      reads this`requests, this`scan
    {
      scan.items == requests && !scan.stopped
    }

    /** Where the stream stands while a header is read, or a body. */
    ghost predicate Placed()
      reads this`state, this`header, this`scan, this`announced
    {
      match state
      case ReadingHeader => scan.rest == []
      case ReadingBody => 1 <= header.bodySize <= MAX_BODY && |scan.rest| == HEADER_SIZE && header == announced
      case _ => false
    }

    /** How many octets the state calls for. */
    function Needed(): nat
      reads this`state, this`header
    {
      if state == ReadingHeader then HEADER_SIZE else header.bodySize
    }

    /**
     Between handlers exactly one read is outstanding, of the size that the state calls for;
     when the connection is closed, at most one is still to come back.
     */
    ghost predicate Reading()
      reads this`state, this`header, this`buffer, this`pending, this`requests, this`scan, this`announced
    {
      match state
      case Idle => requests == [] && scan == Lexed([], [], false, Nothing) && pending == []
      case Closed => requests <= scan.items && |pending| <= 1
      case _ => Current() && Placed() && Asked(Needed())
    }

    /** In the completion handler of a read: it is no longer outstanding, and no other is. */
    ghost predicate Completing()
      reads this
    {
      Parsed() && Reported() && Answered() && IsOpen() && Current() && Placed() && pending == []
    }

    /** One error is reported when the connection is closed, and none before; replies are only refused afterwards. */
    ghost predicate Reported()
      reads this`state, this`sockOpen, this`errors, this`out
    {
      match state
      case Closed => |errors| == 1 && !sockOpen
      case _ => errors == [] && sockOpen && out.refused == []
    }

    /** All that has happened has been answered once, in order. */
    ghost predicate Answered()
      reads this`requests, this`errors, this`history, this`out
    {
      && out.replies == RepliesIn(commands, history) && InOrder(out)
      && Recorded(history, requests, errors)
    }

    ghost predicate Valid()
      reads this`state, this`header, this`buffer, this`sockOpen, this`pending, this`out, this`requests, this`errors,
            this`history, this`consumed, this`scan, this`announced
    {
      Parsed() && Reading() && Reported() && Answered()
    }

    constructor (commands: Commands)
      ensures Valid() && this.commands == commands && state == Idle && IsOpen()
      ensures consumed == inbox == [] && requests == [] && history == [] && out == NOTHING_SENT
    {
      this.commands := commands;
      state, header, buffer := Idle, Header(0, 0, 0, 0), [];
      sockOpen, inbox, pending := true, [], [];
      requests, errors, history, consumed, out := [], [], [], [], NOTHING_SENT;
      scan, announced := Lexed([], [], false, Nothing), Header(0, 0, 0, 0);
      new;
      NothingRead();
    }

    // ----- reading -----

    method ReadNext(n: nat)
      modifies this`buffer, this`pending
      ensures IsOpen() ==> |buffer| == n && pending == old(pending) + [n]
      ensures !IsOpen() ==> buffer == old(buffer) && pending == old(pending)
    {
      if !IsOpen() {
        return;
      }
      buffer := seq(n, _ => 0);
      pending := pending + [n];
    }

    /** start, which asserts that the connection is idle. */
    method Start()
      requires Valid() && state == Idle
      modifies this`state, this`buffer, this`pending
      ensures Valid() && state == ReadingHeader && IsOpen()
    {
      state := ReadingHeader;
      ReadNext(HEADER_SIZE);
    }

    /** close, which asserts that the connection is not closed yet. */
    method Close()
      requires state != Closed
      modifies this`state, this`sockOpen
      ensures state == Closed && !sockOpen
    {
      sockOpen := false;
      state := Closed;
    }

    /** on_error: the handler is told, and then the connection is closed. */
    method OnError(err: Error)
      requires Reported() && Answered() && IsOpen()
      modifies this`errors, this`history, this`state, this`sockOpen
      ensures Reported() && Answered() && !IsOpen() && state == Closed && errors == [err]
      ensures history == old(history) + [Lost(err)]
    {
      RecordOther(history, requests, errors, Lost(err));
      HistorySnoc(commands, history, Lost(err));
      errors := errors + [err];
      history := history + [Lost(err)];
      Close();
    }

    /** Note the octets of a header as read. */
    ghost method AbsorbHeader(data: Octets)
      requires Parsed() && !scan.stopped && scan.rest == [] && |data| == HEADER_SIZE
      modifies this`consumed, this`scan, this`announced
      ensures Parsed() && consumed == old(consumed) + data && announced == HeaderOf(data)
      ensures Noted(old(scan), scan, announced, data)
    {
      HeaderArrives(consumed, data);
      consumed := consumed + data;
      scan := Messages(consumed);
      announced := HeaderOf(data);
    }

    /** What the octets of a header do to the reading. */
    static ghost predicate Noted(p: Lexed<Message>, q: Lexed<Message>, h: Header, data: Octets) {
      match KindOf(h)
      case Excessive => q == p.(rest := data, stopped := true, why := TooLong)
      case Empty => q == p.(items := p.items + [Message(h, data)], why := Nothing)
      case Full => q == p.(rest := data)
    }

    /** Note the octets of a body as read. */
    ghost method AbsorbBody(data: Octets)
      requires Parsed() && !scan.stopped && |scan.rest| == HEADER_SIZE
      requires |data| == announced.bodySize && 0 < |data| <= MAX_BODY
      modifies this`consumed, this`scan
      ensures Parsed() && consumed == old(consumed) + data
      ensures scan == old(scan).(items := old(scan).items + [Message(announced, data)], rest := [], why := Nothing)
    {
      BodyArrives(consumed, data);
      consumed := consumed + data;
      scan := Messages(consumed);
    }

    /** A read has been handled: the connection is open unless its octets end the reader. */
    ghost predicate Handled()
      reads this`state, this`scan, this`requests, this`errors
    {
      match state
      case Closed => scan.stopped && requests == scan.items && errors == [MessageSize]
      case _ => !scan.stopped
    }

    method OnReadingHeader(data: Octets)
      requires Completing() && state == ReadingHeader && |data| == HEADER_SIZE && buffer == data
      modifies this`header, this`state, this`sockOpen, this`buffer, this`pending, this`requests, this`out,
        this`errors, this`history, this`consumed, this`scan, this`announced
      ensures Valid() && consumed == old(consumed) + data && Handled()
    {
      ghost var before := scan;
      Decode(data);
      OnHeader(data, before);
    }

    method Decode(data: Octets)
      requires Parsed() && !scan.stopped && scan.rest == [] && |data| == HEADER_SIZE
      modifies this`header, this`consumed, this`scan, this`announced
      ensures Parsed() && consumed == old(consumed) + data && header == announced
      ensures Noted(old(scan), scan, announced, data)
    {
      AbsorbHeader(data);
      assert data[..HEADER_SIZE] == data;
      header := DecodeHeader(data);
    }

    /** What follows the decoding of a header. */
    method OnHeader(data: Octets, ghost before: Lexed<Message>)
      requires IsOpen() && Reported() && Answered() && state == ReadingHeader && pending == []
      requires |data| == HEADER_SIZE && buffer == data && header == announced
      requires before.items == requests && before.rest == [] && !before.stopped && Noted(before, scan, announced, data)
      modifies this`state, this`sockOpen, this`buffer, this`pending, this`requests, this`out, this`errors, this`history
      ensures Reading() && Reported() && Answered() && Handled()
    {
      if header.bodySize > MAX_BODY {
        Reject();
      } else if header.bodySize > 0 {
        AskBody();
      } else {
        OnEmpty();
      }
    }

    /** A body that is too large ends the connection. */
    method Reject()
      requires IsOpen() && Reported() && Answered() && state == ReadingHeader && pending == []
      requires scan.stopped && scan.items == requests
      modifies this`state, this`sockOpen, this`errors, this`history
      ensures Reading() && Reported() && Answered() && Handled()
    {
      OnError(MessageSize);
    }

    /** A request without a body is given what the buffer holds, the octets of its header. */
    method OnEmpty()
      requires IsOpen() && Reported() && Answered() && state == ReadingHeader && pending == []
      requires !scan.stopped && scan.items == requests + [Message(header, buffer)] && scan.rest == []
      modifies this`buffer, this`pending, this`requests, this`history, this`out
      ensures Reading() && Reported() && Answered() && Handled()
    {
      OnRequest(Message(header, buffer));
      AskHeader();
    }

    method AskBody()
      requires IsOpen() && Reported() && Answered() && state == ReadingHeader && pending == []
      requires 0 < header.bodySize <= MAX_BODY
      requires Current() && |scan.rest| == HEADER_SIZE && header == announced
      modifies this`state, this`buffer, this`pending
      ensures Reading() && Reported() && Answered() && Handled()
    {
      state := ReadingBody;
      ReadNext(header.bodySize);
    }

    method AskHeader()
      requires IsOpen() && state == ReadingHeader && pending == [] && Current() && scan.rest == []
      modifies this`buffer, this`pending
      ensures Reading() && IsOpen()
    {
      ReadNext(HEADER_SIZE);
    }

    method OnReadingBody(data: Octets)
      requires Completing() && state == ReadingBody && |data| == header.bodySize && buffer == data
      modifies this`state, this`buffer, this`pending, this`requests, this`history, this`out, this`consumed, this`scan
      ensures Valid() && consumed == old(consumed) + data && Handled()
    {
      AbsorbBody(data);
      OnBody();
    }

    method OnBody()
      requires IsOpen() && Reported() && Answered() && state == ReadingBody && pending == []
      requires !scan.stopped && scan.items == requests + [Message(header, buffer)] && scan.rest == []
      modifies this`state, this`buffer, this`pending, this`requests, this`history, this`out
      ensures Reading() && Reported() && Answered() && Handled()
    {
      OnRequest(Message(header, buffer));
      state := ReadingHeader;
      AskHeader();
    }

    /** server::on_request. */
    method OnRequest(request: Message)
      requires Answered() && errors == []
      modifies this`requests, this`history, this`out
      ensures Answered() && requests == old(requests) + [request] && history == old(history) + [Requested(request)]
      ensures out == Post(old(out), AnswersTo(commands, request))
    {
      RecordRequest(history, requests, request);
      HistorySnoc(commands, history, Requested(request));
      requests := requests + [request];
      history := history + [Requested(request)];
      if request.header.code in commands {
        Execute(commands[request.header.code], request);
      } else {
        Respond(Reply(UNKNOWN_COMMAND, request.header.tag, []));
      }
    }

    // ----- replies -----

    /** A command runs, and responds as it does. */
    method Execute(command: Command, request: Message)
      requires InOrder(out)
      modifies this`out
      ensures InOrder(out) && out == Post(old(out), command(request))
    {
      PostInOrder(out, command(request));
      out := out.(posted := out.posted + command(request), replies := out.replies + command(request));
    }

    /** respond posts a reply. */
    method Respond(reply: Message)
      requires InOrder(out)
      modifies this`out
      ensures InOrder(out) && out == Post(old(out), [reply])
    {
      PostInOrder(out, [reply]);
      out := out.(posted := out.posted + [reply], replies := out.replies + [reply]);
    }

    /** A command responds later, from a callback of its own, whatever has become of the connection. */
    method RespondLater(reply: Message)
      requires Valid()
      modifies this`history, this`out
      ensures Valid() && out == Post(old(out), [reply]) && history == old(history) + [Later(reply)]
    {
      RecordOther(history, requests, errors, Later(reply));
      HistorySnoc(commands, history, Later(reply));
      history := history + [Later(reply)];
      Respond(reply);
    }

    /** The handler that respond posts. */
    method RunPosted()
      requires Valid() && out.posted != []
      modifies this`out
      ensures Valid() && out == if IsOpen() then Send(old(out)) else Refuse(old(out))
    {
      if IsOpen() {
        SendInOrder(out);
      } else {
        RefuseInOrder(out);
      }
      var reply := out.posted[0];
      out := out.(posted := out.posted[1..], queue := out.queue + [reply]);
      SendNext();
    }

    /** send_next: the header is encoded when the reply is sent, and sent with the body. */
    method SendNext()
      requires out.queue != []
      modifies this`out
      ensures var o, reply := old(out), old(out).queue[0];
        out == if IsOpen() then
          o.(queue := o.queue[1..], writing := o.writing + 1, wire := o.wire + MessageOctets(reply),
             written := o.written + [reply])
        else
          o.(queue := o.queue[1..], results := o.results + [Some(NotConnected)], refused := o.refused + [reply])
    {
      var reply := out.queue[0];
      out := out.(queue := out.queue[1..]);
      if !IsOpen() {
        out := out.(results := out.results + [Some(NotConnected)], refused := out.refused + [reply]);
        return;
      }
      var headerBuffer := new bv8[HEADER_SIZE];
      EncodeHeader(InStep(reply).header, headerBuffer);
      out := out.(wire := out.wire + (headerBuffer[..] + reply.body), written := out.written + [reply],
                  writing := out.writing + 1);
    }

    /** The completion handler of a write. */
    method OnSent(failure: Option<Error>)
      requires Valid() && out.writing > 0
      modifies this`out, this`errors, this`history, this`state, this`sockOpen
      ensures Valid() && out == Complete(old(out), if old(IsOpen()) then failure else Some(NotConnected))
      ensures IsOpen() <==> old(IsOpen()) && failure.None?
      ensures errors == if old(IsOpen()) && failure.Some? then [failure.value] else old(errors)
    {
      CompleteWrite(failure);
    }

    method CompleteWrite(failure: Option<Error>)
      requires Reported() && Answered() && out.writing > 0
      modifies this`out, this`errors, this`history, this`state, this`sockOpen
      ensures Reported() && Answered()
      ensures out == Complete(old(out), if old(IsOpen()) then failure else Some(NotConnected))
      ensures IsOpen() <==> old(IsOpen()) && failure.None?
      ensures errors == if old(IsOpen()) && failure.Some? then [failure.value] else old(errors)
      ensures state == old(state) || state == Closed
    {
      CallSendHandler(if IsOpen() then failure else Some(NotConnected));
      if IsOpen() {
        if failure.Some? {
          OnError(failure.value);
          return;
        }
        if out.queue != [] {
          assert false;
        }
      }
    }

    method CallSendHandler(result: Option<Error>)
      requires InOrder(out) && out.writing > 0
      modifies this`out
      ensures InOrder(out) && out == Complete(old(out), result)
    {
      out := out.(writing := out.writing - 1, results := out.results + [result]);
    }

    /** handle_read: a completed read, whose octets are in the buffer, or one that fails or delivers nothing. */
    method HandleRead(failure: Option<Error>, data: Octets)
      requires Completing() && (failure.None? && data != [] ==> |data| == Needed())
      modifies this`header, this`state, this`sockOpen, this`buffer, this`pending, this`requests, this`out,
        this`errors, this`history, this`consumed, this`scan, this`announced
      ensures Valid() && state != Idle
      ensures failure.Some? ==> FailedWith(failure.value) && consumed == old(consumed) && requests == old(requests)
      ensures failure.None? && data == [] ==> FailedWith(Eof) && consumed == old(consumed) && requests == old(requests)
      ensures failure.None? && data != [] ==> consumed == old(consumed) + data && Handled()
    {
      if failure.Some? {
        OnError(failure.value);
      } else if data == [] {
        OnError(Eof);
      } else {
        buffer := data;
        if state == ReadingHeader {
          OnReadingHeader(data);
        } else {
          OnReadingBody(data);
        }
      }
    }

    ghost predicate FailedWith(err: Error)
      reads this`state, this`errors
    {
      state == Closed && errors == [err]
    }

    /**
     A read comes back: with all its octets, with none, or with an error. When the connection
     has been closed, which is when an error has been reported, nothing more is delivered.
     */
    method CompleteRead(failure: Option<Error>, data: Octets)
      requires Valid() && pending != [] && (failure.None? && data != [] ==> |data| == pending[0])
      modifies this`header, this`state, this`sockOpen, this`buffer, this`pending, this`requests, this`out,
        this`errors, this`history, this`consumed, this`scan, this`announced
      ensures Valid() && state != Idle
      ensures old(errors) != [] ==>
        && requests == old(requests) && errors == old(errors) && history == old(history) && out == old(out)
        && !IsOpen() && pending == []
      ensures old(errors) == [] && failure.Some? ==> FailedWith(failure.value) && requests == old(requests)
      ensures old(errors) == [] && failure.None? && data == [] ==> FailedWith(Eof) && requests == old(requests)
      ensures old(errors) == [] && failure.None? && data != [] ==> consumed == old(consumed) + data && Handled()
    {
      pending := pending[1..];
      if IsOpen() {
        HandleRead(failure, data);
      }
    }

    /** Between handlers, with no read left to complete. */
    ghost predicate Resting()
      reads this
    {
      Valid() && state != Idle && (IsOpen() ==> pending != [] && |inbox| < pending[0])
    }

    /**
     What has been delivered is what a reading of the octets `s` at one go comes to; the first
     bad header is one error.
     */
    ghost predicate HasRead(s: Octets)
      reads this
    {
      && requests == Messages(s).items
      && (IsOpen() <==> !Messages(s).stopped)
      && (Messages(s).stopped ==> errors == [MessageSize])
    }

    lemma AllRead()
      requires Parsed() && Reading() && Reported() && state != Idle && !CanRead() && (!IsOpen() ==> Handled())
      ensures HasRead(consumed + inbox)
    {
      if IsOpen() {
        TooFewArrive(consumed, inbox);
      } else {
        StoppedForGood(consumed, inbox);
      }
    }

    /** The octets of the read outstanding have all arrived. */
    predicate CanRead()
      reads this`sockOpen, this`state, this`pending, this`inbox
    {
      IsOpen() && pending != [] && pending[0] <= |inbox|
    }

    method ReadOnce()
      requires Valid() && state != Idle && CanRead()
      modifies this
      ensures Valid() && Handled() && state != Idle && consumed + inbox == old(consumed) + old(inbox)
      ensures |inbox| < old(|inbox|)
    {
      var data := TakeOff(pending[0]);
      Deliver(data);
    }

    /** The octets that complete a read leave the inbox. */
    method TakeOff(n: nat) returns (data: Octets)
      requires n <= |inbox|
      modifies this`inbox
      ensures |data| == n && |inbox| == old(|inbox|) - n
      ensures consumed + data + inbox == consumed + old(inbox)
    {
      data := inbox[..n];
      inbox := inbox[n..];
    }

    /** All the octets of the read outstanding are there. */
    method Deliver(data: Octets)
      requires Valid() && IsOpen() && pending != [] && |data| == pending[0]
      modifies this`header, this`state, this`sockOpen, this`buffer, this`pending, this`requests, this`out,
        this`errors, this`history, this`consumed, this`scan, this`announced
      ensures Valid() && Handled() && state != Idle && consumed == old(consumed) + data
    {
      CompleteRead(None, data);
    }

    /**
     Octets arrive, and every read that they complete is completed. The requests delivered are
     the messages that a reading of the whole stream at one go finds.
     */
    method Receive(chunk: Octets)
      requires Resting() && IsOpen()
      modifies this
      ensures Resting() && consumed + inbox == old(consumed) + old(inbox) + chunk
      ensures HasRead(consumed + inbox)
    {
      Arrive(chunk);
      ReadAll();
    }

    method Arrive(chunk: Octets)
      modifies this`inbox
      ensures consumed + inbox == old(consumed) + old(inbox) + chunk
    {
      Grouping.Reassociate(consumed, inbox, chunk);
      inbox := inbox + chunk;
    }

    method ReadAll()
      requires Valid() && IsOpen() && state != Idle
      modifies this
      ensures Resting() && HasRead(consumed + inbox) && consumed + inbox == old(consumed) + old(inbox)
    {
      while CanRead()
        invariant Valid() && state != Idle && (!IsOpen() ==> Handled())
        invariant consumed + inbox == old(consumed) + old(inbox)
        decreases |inbox|
      {
        ReadOnce();
      }
      AllRead();
    }

    // ----- end to end -----

    /** What is on the wire is always the encoding of a first part of the replies to all that has happened. */
    lemma RepliesInOrder()
      requires Answered()
      ensures |out.written| <= |RepliesIn(commands, history)|
      ensures out.wire == Emit(MessageOctets, RepliesIn(commands, history)[..|out.written|])
      ensures out.refused == [] && out.posted == [] ==> out.wire == Emit(MessageOctets, RepliesIn(commands, history))
    {
      assert RepliesIn(commands, history)[..|out.written|] == out.written;
      assert out.refused == [] && out.posted == [] ==> out.written + [] + [] == out.written;
    }
  }

  /** echo_command::execute. */
  function Echo(request: Message): seq<Message> {
    [Reply(SUCCESS, request.header.tag, request.body)]
  }

  /** A request for a command that does as echo does, with a body that is not empty. */
  ghost predicate EchoRequest(commands: Commands, m: Message) {
    m.header.code in commands && commands[m.header.code](m) == Echo(m) && Framed(m)
  }

  function Echoed(m: Message): Message {
    Message(Header(SUCCESS, 0, m.header.tag, m.header.bodySize), m.body)
  }

  /** The octets read as replies of code 0 and flags 0 with the tags and bodies of what was sent, in its order. */
  ghost predicate EchoedBack(wire: Octets, sent: seq<Message>) {
    var back := Messages(wire);
    && |back.items| == |sent| && back.rest == [] && !back.stopped
    && forall i | 0 <= i < |sent| :: back.items[i] == Echoed(sent[i])
  }

  lemma EchoAnswer(commands: Commands, m: Message)
    requires EchoRequest(commands, m)
    ensures AnswersTo(commands, m) == [Echoed(m)] && Framed(Echoed(m))
  {
  }

  lemma {:induction false} EchoesAreFramed(commands: Commands, sent: seq<Message>)
    requires forall m <- sent :: EchoRequest(commands, m)
    ensures forall m <- Answers(commands, sent) :: Framed(m)
    ensures |Answers(commands, sent)| == |sent|
    ensures forall i | 0 <= i < |sent| :: Answers(commands, sent)[i] == Echoed(sent[i])
  {
    if sent != [] {
      EchoesAreFramed(commands, sent[..|sent| - 1]);
      EchoAnswer(commands, sent[|sent| - 1]);
    }
  }

  /** The octets of the replies to echo requests read as replies with the same tags and bodies, in the same order. */
  lemma EchoesReadBack(commands: Commands, sent: seq<Message>)
    requires forall m <- sent :: EchoRequest(commands, m)
    ensures EchoedBack(Emit(MessageOctets, Answers(commands, sent)), sent)
  {
    EchoesAreFramed(commands, sent);
    MessagesRoundTripIff(Answers(commands, sent));
  }

  /**
   The octets of echo requests, arriving in any pieces, are answered by octets that the same
   framing reads as replies with the same tags and bodies, in the same order.
   */
  lemma EchoEndToEnd(client: TcpClient, sent: seq<Message>)
    requires client.Answered() && client.out.posted == [] && client.out.refused == []
    requires client.HasRead(Emit(MessageOctets, sent)) && (forall o <- client.history :: !o.Later?)
    requires forall m <- sent :: EchoRequest(client.commands, m)
    ensures client.requests == sent && EchoedBack(client.out.wire, sent)
  {
    SentIsRead(client.commands, sent);
    client.RepliesInOrder();
    RepliesAreAnswers(client.commands, client.history, client.requests, client.errors);
    EchoesReadBack(client.commands, sent);
  }

  lemma SentIsRead(commands: Commands, sent: seq<Message>)
    requires forall m <- sent :: EchoRequest(commands, m)
    ensures Messages(Emit(MessageOctets, sent)) == Lexed(sent, [], false, Nothing)
  {
    MessagesRoundTripIff(sent);
  }
}
