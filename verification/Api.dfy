/**
 The RouterOS connection object (api.cpp, api_read_state_machine.cpp): the incremental
 sentence reader and the tag multiplexer that it feeds, as one mutable object.
 */
module Api {
  import opened Octets
  import opened Options
  import opened Tags
  import opened LengthCodec
  import opened Lexing
  import opened SentenceCodec
  import opened Requests
  import opened Reception
  import M = Multiplexer
  import Runs = MultiplexerRuns
  import R = Responses
  import Hex

  datatype ReadState = Idle | ReadingLength | ReadingWord | Closed

  /** A read that the socket has been asked for: into the buffer, or the rest of a length. */
  datatype PendingRead = ReadBuffer(n: nat) | ReadMore(bits: bv8, more: nat)

  lemma ZeroOctet(fbyte: bv8)
    ensures Classify(fbyte) == Form(0, 0) <==> fbyte == 0
    ensures forall bits :: Classify(fbyte) == Form(bits, 0) && bits == 0 ==> fbyte == 0
  {
  }

  /** What callers put into their requests: for each serial a command, and parameters. */
  datatype Wishes = Wishes(command: nat -> Word, params: nat -> seq<(Word, Word)>)
  {
    /** A request_sentence starts with its command and its tag. */
    function Sentence(serial: nat): Sentence {
      R.RequestWords(command(serial), Tag(serial)) + R.ParamWords(params(serial))
    }

    /** Command, tag and parameters, each in its place. */
    lemma IsPrinted(serial: nat)
      ensures var s := Sentence(serial);
        && |s| == 2 + |params(serial)| && s[0] == command(serial) && s[1] == R.TagWord(Tag(serial))
        && forall i | 0 <= i < |params(serial)| ::
             var (key, value) := params(serial)[i];
             s[2 + i] == [0x3D] + key + [0x3D] + value
             && (R.Printable(key, value) ==> R.MatchParam(s[2 + i]) == Some((key, value)))
    {
      R.ParamWordsAt(params(serial));
    }
  }

  /** The sentences of the requests written. */
  ghost function TextsOf(wishes: Wishes, wire: seq<nat>): seq<Sentence> {
    if wire == [] then [] else TextsOf(wishes, wire[..|wire| - 1]) + [wishes.Sentence(wire[|wire| - 1])]
  }

  lemma OneMoreText(wishes: Wishes, wire: seq<nat>, serial: nat)
    ensures EncodeAll(TextsOf(wishes, wire + [serial]))
         == EncodeAll(TextsOf(wishes, wire)) + EncodeSentence(wishes.Sentence(serial))
  {
    assert (wire + [serial])[..|wire|] == wire;
    EmitAppend(EncodeSentence, TextsOf(wishes, wire), [wishes.Sentence(serial)]);
    EmitOne(EncodeSentence, wishes.Sentence(serial));
  }

  lemma {:induction false} TextAt(wishes: Wishes, wire: seq<nat>, k: nat)
    requires k < |wire|
    ensures |TextsOf(wishes, wire)| == |wire| && TextsOf(wishes, wire)[k] == wishes.Sentence(wire[k])
  {
    if |wire| > 1 {
      TextAt(wishes, wire[..|wire| - 1], if k < |wire| - 1 then k else 0);
    }
  }

  class Api {
    const mode: Delivery

    const wishes: Wishes

    // api_read_state_machine and its read_context
    var state: ReadState
    var buffer: Octets
    var currentSentence: Sentence

    // the socket: whether it is open, what has been written, what has arrived unread, and what is asked for
    var sockOpen: bool
    var output: Octets
    var inbox: Octets
    var pending: seq<PendingRead>

    // api: the login flag, the tag counter, the send queue, and in the books the posted
    // sends, the writes under way and the callbacks registered under tags
    var loggedIn: bool
    var currentTag: nat
    var sendQueue: seq<Request>
    var books: M.Ledger

    /** An assertion of the program has failed; nothing happens after that. */
    var aborted: bool

    // history
    var everOpen: bool
    var delivered: seq<Sentence>
    ghost var consumed: Octets
    ghost var scan: Scan

    predicate IsOpen()
      reads this`sockOpen, this`state
    {
      sockOpen && state != Closed
    }

    ghost function Link(): M.Link
      reads this
    {
      if aborted then M.Aborted else if IsOpen() then M.Open else if everOpen then M.Shut else M.NotOpened
    }

    /** The connection as the multiplexer sees it. */
    ghost function View(): M.Mux
      reads this
    {
      M.Mux(Link(), books, loggedIn)
    }

    /** The multiplexer's side between handlers. */
    ghost predicate Consistent()
      reads this
    {
      && currentTag == Tag(books.acquired)
      && sendQueue == []
      && (sockOpen ==> everOpen)
      && (!everOpen ==> consumed == [] && delivered == [] && currentSentence == [] && inbox == [] && pending == [])
    }

    /** `scan` is what a reading of everything consumed so far comes to. */
    ghost predicate Parsed()
      reads this`consumed, this`scan
    {
      scan == Parse(mode, consumed)
    }

    /** What has been delivered and collected is what has been scanned. */
    ghost predicate Current()
      reads this`currentSentence, this`scan, this`delivered
    {
      scan.done == delivered && scan.words == currentSentence
    }

    /** The state and the stream call for this read. */
    ghost predicate CallsFor(read: PendingRead)
      reads this`state, this`buffer, this`scan
    {
      match read
      case ReadMore(bits, more) => state == ReadingLength && |buffer| == 1 && PrefixBegun(scan, bits, more)
      case ReadBuffer(n) =>
        |buffer| == n &&
        if state == ReadingLength then n == 1 && !scan.stopped && scan.rest == []
        else state == ReadingWord && HeaderRead(mode, scan, n)
    }

    /** Exactly one read is outstanding, and it is the one that the state and the stream call for. */
    ghost predicate AtBoundary()
      reads this`state, this`buffer, this`pending, this`scan
    {
      |pending| == 1 && CallsFor(pending[0])
    }

    /** Between handlers; when the connection is closed, at most one read is still to come back. */
    ghost predicate Reading()
      reads this`state, this`sockOpen, this`buffer, this`currentSentence, this`pending, this`aborted,
            this`scan, this`delivered
    {
      if aborted || !IsOpen() then delivered <= scan.done && |pending| <= 1
      else Current() && AtBoundary()
    }

    /** In the completion handler of a read: it is no longer outstanding, and no other is. */
    ghost predicate Completing(read: PendingRead)
      reads this
    {
      Consistent() && Parsed() && Live() && Current() && CallsFor(read) && pending == []
    }

    function SizeOf(read: PendingRead): (n: nat)
      reads this`buffer
    {
      match read
      case ReadBuffer(n) => n
      case ReadMore(_, more) => if mode.Clipped? && |buffer| < more then |buffer| else more
    }

    /** How many octets complete the read outstanding; one into a short buffer is clipped. */
    function Wanted(): (n: nat)
      reads this`pending, this`buffer
    {
      if pending == [] then 0 else SizeOf(pending[0])
    }

    predicate Live()
      reads this`sockOpen, this`state, this`aborted
    {
      IsOpen() && !aborted
    }

    ghost predicate Valid()
      reads this
    {
      Consistent() && Reading() && Parsed()
    }

    /** What has been written are the encodings of the requests written, in order. */
    ghost predicate Transcribed()
      reads this`output, this`books
    {
      output == EncodeAll(TextsOf(wishes, books.wire))
    }

    /** Between handlers, with no read left to complete; the history of the connection is a run. */
    ghost predicate Resting()
      reads this
    {
      Valid() && (Live() ==> |inbox| < Wanted()) && Runs.Reached(View()) && Transcribed()
    }

    constructor (mode: Delivery, wishes: Wishes)
      ensures this.mode == mode && this.wishes == wishes
      ensures Resting() && View() == M.INITIAL
      ensures consumed == [] && delivered == [] && inbox == [] && !aborted && !everOpen
    {
      this.mode, this.wishes := mode, wishes;
      state, buffer, currentSentence := Closed, [], [];
      sockOpen, output, inbox, pending := false, [], [], [];
      loggedIn, currentTag, sendQueue, books, aborted := false, 0, [], Empty(), false;
      everOpen, consumed, delivered := false, [], [];
      scan := Scan([], [], [], false, Nothing);
      new;
      ParseNothing(mode);
      Runs.RunIsReached([]);
    }

    // ----- requests -----

    method AcquireUniqueTag() returns (tag: nat)
      requires currentTag == Tag(books.acquired)
      modifies this`currentTag, this`books
      ensures books == Burned(old(books)) && currentTag == Tag(books.acquired)
      ensures tag == Tag(old(books).acquired)
    {
      NextTag(books.acquired);
      tag := currentTag;
      currentTag := if currentTag == TAG_LIMIT - 1 then 0 else currentTag + 1;
      books := books.(acquired := books.acquired + 1);
    }

    /** make_request: a request with a fresh tag, not sent yet. */
    method MakeRequest() returns (r: Request, tag: nat)
      requires Resting() && !aborted
      modifies this`currentTag, this`books
      ensures Resting()
      ensures View() == M.Next(old(View()), M.MakeRequest)
      ensures r == Request(old(books).acquired, User) && tag == Tag(r.serial)
      ensures r.serial in books.made && books.made[r.serial] == r
    {
      Runs.ReachedNext(View(), M.MakeRequest);
      Runs.WireNext(View(), M.MakeRequest);
      r, tag := AddMade();
    }

    method AddMade() returns (r: Request, tag: nat)
      requires Consistent() && !aborted
      modifies this`currentTag, this`books
      ensures Consistent() && View() == M.Next(old(View()), M.MakeRequest)
      ensures r == Request(old(books).acquired, User) && tag == Tag(r.serial)
      ensures r.serial in books.made && books.made[r.serial] == r
    {
      r := Request(books.acquired, User);
      tag := AcquireUniqueTag();
      books := books.(made := books.made[r.serial := r]);
    }

    /** The posting half of send. */
    method PostRequest(r: Request)
      modifies this`books
      ensures books == Post(old(books), r)
    {
      books := books.(posted := books.posted + [r], sends := books.sends + [r.serial]);
    }

    method Send(r: Request)
      requires Resting() && !aborted && r.serial in books.made && books.made[r.serial] == r
      modifies this`books
      ensures Resting()
      ensures View() == M.Next(old(View()), M.Send(r.serial))
    {
      Runs.ReachedNext(View(), M.Send(r.serial));
      Runs.WireNext(View(), M.Send(r.serial));
      PostMade(r);
    }

    method PostMade(r: Request)
      requires Consistent() && !aborted && r.serial in books.made && books.made[r.serial] == r
      modifies this`books
      ensures Consistent() && View() == M.Next(old(View()), M.Send(r.serial))
    {
      books := books.(made := books.made - {r.serial});
      PostRequest(r);
    }

    /** login: the first stage is made and sent. */
    method Login()
      requires Resting() && !aborted
      modifies this`currentTag, this`books
      ensures Resting()
      ensures View() == M.Next(old(View()), M.Login)
    {
      Runs.ReachedNext(View(), M.Login);
      Runs.WireNext(View(), M.Login);
      PostFirstStage();
    }

    method PostFirstStage()
      requires Consistent() && !aborted
      modifies this`currentTag, this`books
      ensures Consistent() && View() == M.Next(old(View()), M.Login)
    {
      var r := Request(books.acquired, Login1);
      var tag := AcquireUniqueTag();
      PostRequest(r);
    }

    /** A callback is called with an error; a login stage passes it on. */
    method CallWithError(r: Request, err: M.Error)
      modifies this`books
      ensures books == old(books).(log := old(books).log + ErrorEvents(r, err))
    {
      books := books.(log := books.log + ErrorEvents(r, err));
    }

    /** What is written for a request when its turn comes. */
    ghost function Emitted(r: Request): Octets
      reads this`sockOpen, this`state
    {
      if IsOpen() then EncodeSentence(wishes.Sentence(r.serial)) else []
    }

    /** The handler that send posts. */
    method RunPosted()
      requires Resting() && !aborted && books.posted != []
      modifies this`sendQueue, this`books, this`output
      ensures Resting() && View() == M.Next(old(View()), M.RunPosted)
      ensures output == old(output) + Emitted(old(books).posted[0])
    {
      Runs.ReachedNext(View(), M.RunPosted);
      WritePosted();
    }

    method WritePosted()
      requires Consistent() && Transcribed() && !aborted && books.posted != []
      modifies this`sendQueue, this`books, this`output
      ensures Consistent() && Transcribed() && View() == M.Next(old(View()), M.RunPosted)
      ensures output == old(output) + Emitted(old(books).posted[0])
    {
      Runs.WireNext(View(), M.RunPosted);
      OneMoreText(wishes, books.wire, books.posted[0].serial);
      SendPosted();
    }

    method SendPosted()
      requires Consistent() && !aborted && books.posted != []
      modifies this`sendQueue, this`books, this`output
      ensures Consistent() && View() == M.Next(old(View()), M.RunPosted)
      ensures output == old(output) + Emitted(old(books).posted[0])
    {
      QueuePosted();
      SendNext();
    }

    method QueuePosted()
      requires books.posted != []
      modifies this`sendQueue, this`books
      ensures sendQueue == old(sendQueue) + [old(books).posted[0]] && books == TakeOff(old(books))
    {
      sendQueue := sendQueue + [books.posted[0]];
      books := books.(posted := books.posted[1..], taken := books.taken + 1);
    }

    method SendNext()
      requires sendQueue != []
      modifies this`sendQueue, this`books, this`output
      ensures sendQueue == old(sendQueue)[1..]
      ensures var r, b := old(sendQueue)[0], old(books);
        books == if IsOpen() then b.(wire := b.wire + [r.serial], inFlight := b.inFlight[r.serial := r])
          else b.(log := b.log + ErrorEvents(r, M.NotConnected),
                  skipped := if everOpen then b.skipped else b.skipped + 1)
      ensures output == old(output) + Emitted(old(sendQueue)[0])
    {
      var r := sendQueue[0];
      sendQueue := sendQueue[1..];
      if !IsOpen() {
        CallWithError(r, M.NotConnected);
        books := books.(skipped := if everOpen then books.skipped else books.skipped + 1);
        return;
      }
      var buf := new ByteVector();
      Encode(wishes.Sentence(r.serial), buf);
      output := output + buf.data;
      books := books.(wire := books.wire + [r.serial], inFlight := books.inFlight[r.serial := r]);
    }

    /** The completion handler of a write. */
    method OnSent(serial: nat, failure: Option<M.Error>)
      requires Resting() && !aborted && serial in books.inFlight
      modifies this`books, this`state, this`sockOpen
      ensures Resting() && View() == M.Next(old(View()), M.SendDone(serial, failure))
    {
      Runs.ReachedNext(View(), M.SendDone(serial, failure));
      Runs.WireNext(View(), M.SendDone(serial, failure));
      CompleteWrite(serial, failure);
    }

    method CompleteWrite(serial: nat, failure: Option<M.Error>)
      requires Consistent() && !aborted && serial in books.inFlight
      modifies this`books, this`state, this`sockOpen
      ensures Consistent() && View() == M.Next(old(View()), M.SendDone(serial, failure))
      ensures IsOpen() ==> state == old(state) && old(IsOpen())
    {
      var r := books.inFlight[serial];
      books := books.(inFlight := books.inFlight - {serial});
      if !IsOpen() {
        CallWithError(r, M.NotConnected);
      } else {
        if failure.Some? {
          CallWithError(r, failure.value);
          Close();
        } else if Tag(serial) !in books.table {
          books := books.(table := books.table[Tag(serial) := r]);
        } else {
          books := books.(lost := books.lost + {serial});
        }
        if sendQueue != [] {
          assert false;
        }
      }
    }

    /** The owner of an open connection closes it. */
    method CloseByOwner()
      requires Resting() && Live()
      modifies this`state, this`sockOpen
      ensures Resting() && View() == M.Next(old(View()), M.Close)
    {
      Runs.ReachedNext(View(), M.Close);
      Runs.WireNext(View(), M.Close);
      CloseOpen();
    }

    method CloseOpen()
      requires Valid() && Live()
      modifies this`state, this`sockOpen
      ensures Valid() && !Live() && View() == M.Next(old(View()), M.Close)
    {
      Close();
    }

    /** close, which asserts that it is not closed yet. */
    method Close()
      requires state != Closed
      modifies this`state, this`sockOpen
      ensures state == Closed && !sockOpen
    {
      if sockOpen {
        sockOpen := false;
      }
      state := Closed;
    }

    /** on_error: close if open, then tell the owner. */
    method OnError(err: M.Error)
      modifies this`state, this`sockOpen, this`books
      ensures !IsOpen() && books == ReportedError(old(books), err)
      ensures if old(IsOpen()) then state == Closed && !sockOpen else state == old(state) && sockOpen == old(sockOpen)
    {
      if IsOpen() {
        Close();
      }
      books := books.(log := books.log + [Reported(err)]);
    }

    // ----- responses -----

    /** The registered callback is called with a reply; its entry is dropped or kept afterwards. */
    method CallCallback(r: Request, resp: R.Response, outcome: M.Outcome) returns (keep: bool, threw: bool)
      requires currentTag == Tag(books.acquired)
      modifies this`books, this`currentTag, this`loggedIn
      ensures currentTag == Tag(books.acquired)
      ensures var v := M.Judge(r.callback, resp, outcome);
        && books == M.Called(old(books), r, resp, v)
        && threw == v.Throwing? && (v.Answering? ==> keep == v.keep)
        && loggedIn == (old(loggedIn) || (v.Answering? && v.done == Some(None)))
    {
      keep, threw := false, false;
      match r.callback {
        case User =>
          if outcome.Throws? {
            threw := true;
            CallThrows(r, resp);
          } else {
            keep := outcome.keep;
            CallReturns(r, resp, keep, None);
          }
        case Login1 => threw := CallFirstStage(r, resp);
        case Login2(_) =>
          if resp.kind == R.Normal {
            loggedIn := true;
            CallReturns(r, resp, false, Some(None));
          } else {
            CallReturns(r, resp, false, Some(Some(M.InvalidCredentials)));
          }
      }
    }

    /** The reply to the first login stage: its challenge starts the second one. */
    method CallFirstStage(r: Request, resp: R.Response) returns (threw: bool)
      requires currentTag == Tag(books.acquired) && r.callback.Login1?
      modifies this`books, this`currentTag
      ensures currentTag == Tag(books.acquired)
      ensures var v := M.Judge(r.callback, resp, M.Throws);
        books == M.Called(old(books), r, resp, v) && threw == v.Throwing?
    {
      threw := false;
      if !M.HasChallenge(resp) {
        CallReturns(r, resp, false, Some(Some(M.InvalidResponse)));
        return;
      }
      var second := Request(books.acquired, Login2(r.serial));
      var tag := AcquireUniqueTag();
      if !Hex.AllHex(resp.params[M.RET]) {
        threw := true;
        CallThrows(r, resp);
      } else {
        PostRequest(second);
        CallReturns(r, resp, false, None);
      }
    }

    method CallThrows(r: Request, resp: R.Response)
      modifies this`books
      ensures books == old(books).(broken := true, log := old(books).log + [Raised(r, resp)])
    {
      books := books.(broken := true, log := books.log + [Raised(r, resp)]);
    }

    method CallReturns(r: Request, resp: R.Response, keep: bool, done: Option<Option<M.Error>>)
      modifies this`books
      ensures books == old(books).(log := old(books).log + [Answered(r, resp, keep)] + DoneEvents(r, done))
    {
      books := books.(log := books.log + [Answered(r, resp, keep)] + DoneEvents(r, done));
    }

    /** handle_response: afterwards the connection may be closed, or the program aborted. */
    method HandleResponse(s: Sentence, outcome: M.Outcome)
      requires IsOpen() && !aborted && currentTag == Tag(books.acquired) && everOpen
      modifies this`books, this`currentTag, this`loggedIn, this`state, this`sockOpen, this`aborted
      ensures currentTag == Tag(books.acquired)
      ensures View() == M.HandleResponse(old(View()), s, outcome)
      ensures sockOpen ==> IsOpen()
    {
      if !R.IsValidResponse(s) {
        OnError(M.InvalidResponse);
        return;
      }
      if |s| <= 1 {
        return;
      }
      var reading := R.ParseResponse(s);
      match reading {
        case Throws => OnError(M.FatalResponse);
        case AssertionFails => aborted := true;
        case Parsed(resp) =>
          if !resp.tagged {
            OnError(M.UntaggedResponse);
          } else if resp.tag !in books.table {
            OnError(M.InvalidResponseTag);
          } else {
            DispatchResponse(resp, outcome);
          }
      }
    }

    /** The last part of handle_response: call, and drop the entry or report what was thrown. */
    method DispatchResponse(resp: R.Response, outcome: M.Outcome)
      requires IsOpen() && !aborted && currentTag == Tag(books.acquired) && everOpen && resp.tag in books.table
      modifies this`books, this`currentTag, this`loggedIn, this`state, this`sockOpen
      ensures currentTag == Tag(books.acquired)
      ensures View() == M.Settle(old(View()), M.For(resp.tag, resp), outcome)
      ensures sockOpen ==> IsOpen()
    {
      M.ActAfterCall(View(), resp.tag, resp, M.Judge(books.table[resp.tag].callback, resp, outcome));
      var keep, threw := CallCallback(books.table[resp.tag], resp, outcome);
      if threw {
        OnError(M.FatalResponse);
      } else if !keep {
        books := books.(table := books.table - {resp.tag});
      }
      if outcome.Returns? && outcome.closes && IsOpen() {
        Close();
      }
    }

    // ----- the reader -----

    method ReadNext(n: nat)
      requires IsOpen()
      modifies this`buffer, this`pending
      ensures |buffer| == n && pending == old(pending) + [ReadBuffer(n)]
    {
      buffer := seq(n, _ => 0);
      pending := pending + [ReadBuffer(n)];
    }

    method ReadNextWord()
      requires state == Idle
      modifies this`buffer, this`pending, this`state
      ensures sockOpen ==> |buffer| == 1 && pending == old(pending) + [ReadBuffer(1)] && state == ReadingLength
      ensures !sockOpen ==> state == old(state) && pending == old(pending)
    {
      if !IsOpen() {
        return;
      }
      state := ReadingLength;
      ReadNext(1);
    }

    /** A completed read has not completed a sentence; if it has ended the reader, that has been noticed. */
    ghost predicate GoneOn(was: M.Mux, before: seq<Sentence>)
      reads this
    {
      && delivered == before
      && if Live() then View() == was else scan.stopped && scan.done == before && View() == Finish(was, true, scan.why)
    }

    /** A completed read has completed a sentence, which has been handled. */
    ghost predicate Handled(was: M.Mux, before: seq<Sentence>, outcome: M.Outcome)
      reads this
    {
      && |delivered| == |before| + 1 && delivered[..|before|] == before
      && scan.done == delivered && !scan.stopped
      && View() == M.Next(was, M.Respond(delivered[|before|], outcome))
    }

    /** The connect handler of open, on success, and start. */
    method OnConnected()
      requires Resting() && !everOpen && !aborted
      modifies this`everOpen, this`sockOpen, this`state, this`buffer, this`pending
      ensures Resting() && Live() && View() == M.Next(old(View()), M.Connect)
    {
      Runs.ReachedNext(View(), M.Connect);
      Connect();
    }

    method Connect()
      requires Consistent() && Parsed() && !everOpen && !aborted
      modifies this`everOpen, this`sockOpen, this`state, this`buffer, this`pending
      ensures Consistent() && Reading() && Wanted() == 1 && Live() && View() == M.Next(old(View()), M.Connect)
    {
      sockOpen, everOpen := true, true;
      state := Idle;
      ParseNothing(mode);
      Start();
    }

    method Start()
      requires Live() && state == Idle && delivered == [] && currentSentence == [] && pending == []
      requires scan == Scan([], [], [], false, Nothing)
      modifies this`state, this`buffer, this`pending
      ensures Live() && Reading() && Wanted() == 1
    {
      ReadNextWord();
    }

    /** Note the first octet of an item as read. */
    ghost method AbsorbFirst(b: bv8)
      requires Parsed() && !scan.stopped && scan.rest == []
      modifies this`consumed, this`scan
      ensures Parsed() && consumed == old(consumed) + [b]
      ensures var p := old(scan);
        match Classify(b)
        case BadForm => scan == p.(rest := [b], stopped := true, why := Rejected)
        case Form(bits, more) =>
          if bits == 0 && more == 0 then
            scan == p.(done := p.done + [p.words], words := [], rest := [], why := Nothing)
          else
            scan.done == p.done && scan.words == p.words
            && (if more == 0 then HeaderRead(mode, scan, bits as int) && bits != 0 else PrefixBegun(scan, bits, more))
    {
      FirstOctet(mode, consumed, b);
      consumed := consumed + [b];
      scan := Parse(mode, consumed);
    }

    /** on_reading_length: the first octet of an item has arrived. */
    method OnReadingLength(fbyte: bv8, outcome: M.Outcome)
      requires Completing(ReadBuffer(1)) && state == ReadingLength
      modifies this
      ensures output == old(output)
      ensures Valid() && consumed == old(consumed) + [fbyte] && inbox == old(inbox)
      ensures if fbyte == 0 then Handled(old(View()), old(delivered), outcome) else GoneOn(old(View()), old(delivered))
    {
      ZeroOctet(fbyte);
      AbsorbFirst(fbyte);
      if fbyte == 0 {
        OnTerminator(outcome);
      } else {
        OnPrefix(fbyte);
      }
    }

    /** A first octet that is not the terminator. */
    method OnPrefix(fbyte: bv8)
      requires Consistent() && Live() && state == ReadingLength && |buffer| == 1 && pending == [] && Current()
      requires match Classify(fbyte)
        case BadForm => scan.stopped && scan.why == Rejected
        case Form(bits, more) =>
          !scan.stopped && if more == 0 then HeaderRead(mode, scan, bits as int) else PrefixBegun(scan, bits, more)
      modifies this`books, this`state, this`sockOpen, this`buffer, this`pending
      ensures Consistent() && Reading() && GoneOn(old(View()), delivered)
    {
      match Classify(fbyte) {
        case BadForm => OnError(M.MessageSize);
        case Form(bits, more) =>
          if more > 0 {
            AskMore(bits, more);
          } else {
            AskWord(bits as nat);
          }
      }
    }

    /** The prefix is longer than the buffer that it is read into. */
    method AskMore(bits: bv8, more: nat)
      requires Live() && state == ReadingLength && |buffer| == 1 && PrefixBegun(scan, bits, more) && Current()
      modifies this`pending
      ensures pending == old(pending) + [ReadMore(bits, more)]
      ensures old(pending) == [] ==> Reading()
    {
      pending := pending + [ReadMore(bits, more)];
    }

    method AskWord(n: nat)
      requires Live() && HeaderRead(mode, scan, n) && Current()
      modifies this`state, this`buffer, this`pending
      ensures IsOpen() && state == ReadingWord && pending == old(pending) + [ReadBuffer(n)]
      ensures old(pending) == [] ==> Reading()
    {
      state := ReadingWord;
      ReadNext(n);
    }

    /** The zero octet: the sentence is complete. */
    method OnTerminator(outcome: M.Outcome)
      requires Consistent() && Live() && state == ReadingLength && pending == []
      requires scan.done == delivered + [currentSentence] && scan.words == [] && !scan.stopped && scan.rest == []
      modifies this`books, this`currentTag, this`loggedIn, this`state, this`sockOpen, this`aborted,
        this`delivered, this`currentSentence, this`buffer, this`pending
      ensures Consistent() && Reading() && Handled(old(View()), old(delivered), outcome)
      ensures !aborted && !sockOpen ==> state == Idle
    {
      HandleResponse(currentSentence, outcome);
      delivered := delivered + [currentSentence];
      if aborted {
        return;
      }
      StartOver();
    }

    method StartOver()
      requires Consistent() && !aborted && (sockOpen ==> IsOpen()) && pending == []
      requires scan.done == delivered && scan.words == [] && !scan.stopped && scan.rest == []
      modifies this`currentSentence, this`state, this`buffer, this`pending
      ensures Consistent() && Reading() && View() == old(View())
      ensures !sockOpen ==> state == Idle
    {
      currentSentence := [];
      state := Idle;
      ReadNextWord();
    }

    /** Note the text of a word as read. */
    ghost method AbsorbText(data: Octets)
      requires Parsed() && HeaderRead(mode, scan, |data|) && data != []
      modifies this`consumed, this`scan
      ensures Parsed() && consumed == old(consumed) + data
      ensures scan == old(scan).(words := old(scan).words + [data], rest := [], why := Nothing)
      ensures !scan.stopped
    {
      TextOctets(mode, consumed, data);
      consumed := consumed + data;
      scan := Parse(mode, consumed);
    }

    /** on_reading_word. */
    method OnReadingWord(data: Octets)
      requires Completing(ReadBuffer(|data|)) && state == ReadingWord && data != []
      modifies this`consumed, this`scan, this`currentSentence, this`state, this`buffer, this`pending
      ensures Valid() && consumed == old(consumed) + data && inbox == old(inbox) && GoneOn(old(View()), old(delivered))
    {
      AbsorbText(data);
      PushWord(data);
    }

    method PushWord(data: Octets)
      requires Live() && state == ReadingWord && pending == []
      requires scan.done == delivered && scan.words == currentSentence + [data] && !scan.stopped && scan.rest == []
      modifies this`currentSentence, this`state, this`buffer, this`pending
      ensures Reading() && IsOpen() && currentSentence == old(currentSentence) + [data]
    {
      currentSentence := currentSentence + [data];
      state := Idle;
      ReadNextWord();
    }

    /** Note the rest of a length prefix as read. */
    ghost method AbsorbMore(bits: bv8, more: nat, data: Octets)
      requires Parsed() && PrefixBegun(scan, bits, more)
      requires |data| == more || (mode.Clipped? && |data| == 1)
      requires mode.Clipped? ==> |data| == 1
      modifies this`consumed, this`scan
      ensures Parsed() && consumed == old(consumed) + data
      ensures scan.done == old(scan).done && scan.words == old(scan).words
      ensures |data| == more ==> HeaderRead(mode, scan, WordLength(bits, data))
      ensures |data| != more ==> scan.stopped && scan.why == Broken
    {
      if |data| == more {
        MoreOctets(mode, consumed, bits, more, data);
      } else {
        ClippedOctet(mode, consumed, bits, more, data);
      }
      consumed := consumed + data;
      scan := Parse(mode, consumed);
    }

    /** The loop that shifts the octets of a prefix into a length. */
    method WordSize(bits: bv8, data: Octets) returns (n: nat)
      ensures n == WordLength(bits, data)
    {
      var wordLen := bits as bv64;
      for i := 0 to |data|
        invariant wordLen == Accumulate(bits, data[..i])
      {
        assert data[..i + 1][..i] == data[..i];
        wordLen := (wordLen << 8) | (data[i] as bv64 & 0xFF);
      }
      assert data[..|data|] == data;
      n := ToNat(wordLen);
    }

    /** The completion handler of a continuation read: it asserts that all octets have come. */
    method OnMoreLength(bits: bv8, more: nat, data: Octets)
      requires Completing(ReadMore(bits, more))
      requires |data| == more || (mode.Clipped? && |data| == 1)
      requires mode.Clipped? ==> |data| == 1
      modifies this`consumed, this`scan, this`state, this`buffer, this`pending, this`aborted
      ensures Valid() && consumed == old(consumed) + data
      ensures aborted <==> |data| != more
      ensures GoneOn(old(View()), old(delivered))
    {
      AbsorbMore(bits, more, data);
      HaveMore(bits, more, data);
    }

    method HaveMore(bits: bv8, more: nat, data: Octets)
      requires Live() && Current() && pending == []
      requires |data| == more ==> HeaderRead(mode, scan, WordLength(bits, data))
      requires |data| != more ==> scan.stopped && scan.why == Broken
      modifies this`state, this`buffer, this`pending, this`aborted
      ensures Reading() && (aborted <==> |data| != more) && GoneOn(old(View()), delivered)
    {
      if |data| != more {
        aborted := true;
        return;
      }
      var wordLen := WordSize(bits, data);
      AskWord(wordLen);
    }

    /** handle_read: every completion of a read into the buffer. */
    method HandleRead(data: Octets, outcome: M.Outcome)
      requires Completing(ReadBuffer(|data|))
      modifies this
      ensures output == old(output)
      ensures Valid() && consumed == old(consumed) + data && inbox == old(inbox)
      ensures data == [] ==> aborted
      ensures GoneOn(old(View()), old(delivered)) || Handled(old(View()), old(delivered), outcome)
    {
      if data == [] {
        aborted := true;
        return;
      }
      if state == ReadingLength {
        OnReadingLength(data[0], outcome);
        assert data == [data[0]];
      } else if state == ReadingWord {
        OnReadingWord(data);
      } else {
        // the exception for an invalid state cannot be reached
        assert false;
      }
    }

    /** The read outstanding completes with the octets that it has been given. */
    method CompleteRead(data: Octets, outcome: M.Outcome)
      requires Valid() && Live() && |data| == Wanted()
      modifies this
      ensures output == old(output)
      ensures Valid() && consumed == old(consumed) + data && inbox == old(inbox)
      ensures data == [] ==> aborted
      ensures GoneOn(old(View()), old(delivered)) || Handled(old(View()), old(delivered), outcome)
    {
      var read := pending[0];
      pending := pending[1..];
      match read {
        case ReadBuffer(n) => HandleRead(data, outcome);
        case ReadMore(bits, more) => OnMoreLength(bits, more, data);
      }
    }

    /** What has been read is what a reading of the octets `s` at one go comes to. */
    ghost predicate HasRead(s: Octets, was: M.Mux, from: nat, outcomes: nat -> M.Outcome)
      reads this
    {
      && View() == Absorb(was, Parse(mode, s), from, outcomes)
      && from <= |delivered| && delivered <= Parse(mode, s).done
      && (Live() ==>
            Parse(mode, s).done == delivered && Parse(mode, s).words == currentSentence && !Parse(mode, s).stopped)
    }

    /** So far: as `HasRead`, but that a word of no octets is only noticed by the next read. */
    ghost predicate IsReading(was: M.Mux, from: nat, outcomes: nat -> M.Outcome)
      reads this
    {
      && from <= |delivered| <= |scan.done|
      && (Live() ==> View() == Hear(was, delivered, from, outcomes))
      && (!Live() ==> View() == Absorb(was, scan, from, outcomes))
    }

    lemma NoteProgress(was: M.Mux, from: nat, outcomes: nat -> M.Outcome, view: M.Mux, before: seq<Sentence>)
      requires from <= |before| && view == Hear(was, before, from, outcomes) && view.link.Open?
      requires Reading()
      requires GoneOn(view, before) || Handled(view, before, outcomes(|before|))
      ensures IsReading(was, from, outcomes)
    {
      if delivered != before {
        assert delivered == before + [delivered[|before|]];
        HearOne(was, before, delivered[|before|], from, outcomes);
      }
    }

    /** What has arrived is too short to go on with, so it changes nothing. */
    lemma NothingMore()
      requires Valid() && Live() && |inbox| < Wanted()
      ensures Parse(mode, consumed + inbox) == scan.(rest := scan.rest + inbox) && !scan.stopped
    {
      match pending[0] {
        case ReadMore(bits, more) =>
        case ReadBuffer(n) =>
          if state == ReadingLength {
            assert inbox == [];
          }
      }
      ParseMore(mode, consumed, inbox);
    }

    lemma AllRead(was: M.Mux, from: nat, outcomes: nat -> M.Outcome)
      requires Valid() && (Live() ==> |inbox| < Wanted()) && IsReading(was, from, outcomes)
      ensures HasRead(consumed + inbox, was, from, outcomes)
    {
      if Live() {
        NothingMore();
      } else {
        AbsorbEnded(mode, was, consumed, inbox, from, outcomes);
        ParseGrows(mode, consumed, inbox);
      }
    }

    /** So what holds of every run holds of every connection object between handlers. */
    lemma LivesAsRuns(serial: nat, login: nat)
      requires Resting()
      ensures Legal(CallsOf(books.log, serial)) && LoginEnds(books.log, login) <= 1 && Runs.Ordered(books)
      ensures serial in books.sends ==> Runs.Places(books, serial) == if serial in books.lost then 0 else 1
    {
      Runs.CallbackLifetime(View(), serial);
      Runs.LoginHandlerOnce(View(), login);
      Runs.WireOrder(View());
      if serial in books.sends {
        Runs.OnePlaceEach(View(), serial);
      }
    }

    /**
     The peer, reading what has been written, finds the sentences of the requests written: a block
     of consecutive sends, in the order of send.
     */
    lemma PeerReads(peer: Delivery)
      requires Resting()
      requires forall s <- TextsOf(wishes, books.wire), w <- s :: Travels(peer, w)
      ensures Parse(peer, output) == Scan(TextsOf(wishes, books.wire), [], [], false, Nothing)
      ensures books.skipped + |books.wire| <= |books.sends|
      ensures books.wire == books.sends[books.skipped..books.skipped + |books.wire|]
    {
      RoundTripIff(peer, TextsOf(wishes, books.wire));
      Runs.WireOrder(View());
    }

    /**
     The kth sentence that a peer reads is the kth request written: its command, its tag word, and
     a word for each of its parameters, which is read as that parameter if it is printable.
     */
    lemma PeerReadsRequest(peer: Delivery, k: nat)
      requires Resting() && k < |books.wire|
      requires forall s <- TextsOf(wishes, books.wire), w <- s :: Travels(peer, w)
      ensures var read, n := Parse(peer, output).done, books.wire[k];
        && k < |read| && |read[k]| == 2 + |wishes.params(n)|
        && read[k][0] == wishes.command(n) && read[k][1] == R.TagWord(Tag(n))
        && forall i | 0 <= i < |wishes.params(n)| ::
             var (key, value) := wishes.params(n)[i];
             read[k][2 + i] == [0x3D] + key + [0x3D] + value
             && (R.Printable(key, value) ==> R.MatchParam(read[k][2 + i]) == Some((key, value)))
    {
      PeerReads(peer);
      TextAt(wishes, books.wire, k);
      wishes.IsPrinted(books.wire[k]);
    }

    /**
     A peer that answers the kth sentence it reads, copying its tag word among parameters of its
     own, is answered by the callback of the kth request written, once, and by no other.
     */
    lemma AnswerReachesRequest(peer: Delivery, k: nat, kind: R.ResponseType,
        before: seq<(Word, Word)>, after: seq<(Word, Word)>, outcome: M.Outcome, serial: nat)
      requires Resting() && Live() && k < |books.wire| && IsRegistered(books, books.wire[k])
      requires forall s <- TextsOf(wishes, books.wire), w <- s :: Travels(peer, w)
      requires R.AllPrintable(before) && R.AllPrintable(after)
      requires k < |Parse(peer, output).done| && |Parse(peer, output).done[k]| >= 2
      ensures var tagWord := Parse(peer, output).done[k][1];
        var answer := [R.KindWord(kind)] + R.ParamWords(before) + [tagWord] + R.ParamWords(after);
        var log := M.Next(View(), M.Respond(answer, outcome)).books.log;
        Runs.CalledOnce(books.log, log, serial, serial == books.wire[k])
    {
      PeerReadsRequest(peer, k);
      var tagWord := Parse(peer, output).done[k][1];
      var answer := [R.KindWord(kind)] + R.ParamWords(before) + [tagWord] + R.ParamWords(after);
      Runs.OwnTagIsAnswered(View(), books.wire[k], kind, before, after);
      Runs.RespondCalls(View(), answer, outcome, serial);
    }

    /** When the stream is an encoding of sentences whose words travel, they are what is handled. */
    lemma ReceivedSentences(ss: seq<Sentence>, was: M.Mux, outcomes: nat -> M.Outcome)
      requires HasRead(EncodeAll(ss), was, 0, outcomes)
      requires forall s <- ss, w <- s :: Travels(mode, w)
      ensures View() == Hear(was, ss, 0, outcomes) && delivered <= ss
      ensures Live() ==> delivered == ss && currentSentence == []
    {
      RoundTripIff(mode, ss);
    }

    method ReadOnce(ghost was: M.Mux, ghost from: nat, outcomes: nat -> M.Outcome)
      requires Valid() && Live() && Wanted() <= |inbox| && IsReading(was, from, outcomes)
      modifies this
      ensures output == old(output)
      ensures Valid() && consumed + inbox == old(consumed) + old(inbox) && IsReading(was, from, outcomes)
      ensures |inbox| < old(|inbox|) || (|inbox| == old(|inbox|) && aborted)
    {
      ghost var view, before := View(), delivered;
      var data := inbox[..Wanted()];
      assert consumed + inbox == consumed + data + inbox[Wanted()..];
      inbox := inbox[Wanted()..];
      CompleteRead(data, outcomes(|delivered|));
      NoteProgress(was, from, outcomes, view, before);
    }

    /**
     Octets arrive, and every read that they complete is completed. What has been handled
     and collected afterwards is what a reading of the whole stream at one go comes to.
     */
    method Receive(chunk: Octets, outcomes: nat -> M.Outcome)
      requires Resting() && Live()
      modifies this
      ensures Resting() && consumed + inbox == old(consumed) + old(inbox) + chunk && output == old(output)
      ensures HasRead(consumed + inbox, old(View()), |old(delivered)|, outcomes)
    {
      ghost var was, from := View(), |delivered|;
      inbox := inbox + chunk;
      ReadAll(was, from, outcomes);
      AbsorbIsReached(was, Parse(mode, consumed + inbox), from, outcomes);
      AbsorbKeepsWire(was, Parse(mode, consumed + inbox), from, outcomes);
    }

    method ReadAll(ghost was: M.Mux, ghost from: nat, outcomes: nat -> M.Outcome)
      requires Valid() && IsReading(was, from, outcomes)
      modifies this
      ensures output == old(output)
      ensures Valid() && (Live() ==> |inbox| < Wanted()) && consumed + inbox == old(consumed) + old(inbox)
      ensures HasRead(consumed + inbox, was, from, outcomes)
    {
      while Live() && Wanted() <= |inbox|
        invariant Valid() && IsReading(was, from, outcomes)
        invariant consumed + inbox == old(consumed) + old(inbox) && output == old(output)
        decreases |inbox|, !aborted
      {
        ReadOnce(was, from, outcomes);
      }
      AllRead(was, from, outcomes);
    }

    /** The read outstanding fails. */
    method FailRead(err: M.Error)
      requires Resting() && Live()
      modifies this`state, this`sockOpen, this`books, this`pending
      ensures Resting() && View() == M.Next(old(View()), M.ReadFailed(err))
      ensures pending == []
    {
      Runs.ReachedNext(View(), M.ReadFailed(err));
      Runs.WireNext(View(), M.ReadFailed(err));
      pending := pending[1..];
      Fail(err);
    }

    method Fail(err: M.Error)
      requires Consistent() && Live()
      modifies this`state, this`sockOpen, this`books
      ensures Consistent() && !IsOpen() && View() == M.Next(old(View()), M.ReadFailed(err))
    {
      OnError(err);
    }

    /** A read comes back, with octets or an error, when the connection has been closed: nothing happens. */
    method ReadTooLate()
      requires Resting() && !IsOpen() && pending != []
      modifies this`pending
      ensures Resting() && pending == [] && View() == old(View())
    {
      pending := pending[1..];
    }
  }
}
