/**
 The tag multiplexer of the RouterOS connection (api.cpp): handlers of one thread that
 interleave freely. A handler is one step on the books; a run is any list of steps.
 */
module Multiplexer {
  import opened Options
  import opened Requests
  import R = Responses
  import Hex

  type Response = R.Response
  type Sentence = R.Sentence

  const RET: R.Word := [0x72, 0x65, 0x74]  // ret
  const CHALLENGE_SIZE := 32

  datatype Error =
    | NotConnected
    | InvalidResponse
    | FatalResponse
    | UntaggedResponse
    | InvalidResponseTag
    | InvalidCredentials
    | MessageSize
    | Io(code: nat)

  datatype Link = NotOpened | Open | Shut | Aborted

  type Ledger = Books<Response, Error>

  /** The connection between handlers. */
  datatype Mux = Mux(link: Link, books: Ledger, loggedIn: bool)

  const INITIAL := Mux(NotOpened, Empty(), false)

  /** What a user callback does with a reply: returns, perhaps closing the connection, or throws. */
  datatype Outcome = Returns(keep: bool, closes: bool) | Throws

  datatype Step =
    | Connect
    | MakeRequest
    | Send(serial: nat)
    | Login
    | RunPosted
    | SendDone(serial: nat, failure: Option<Error>)
    | Respond(s: Sentence, outcome: Outcome)
    | ReadFailed(err: Error)
    | Close
    | Abort

  // ----- the handlers -----

  function Shutdown(m: Mux): Mux {
    if m.link.Open? then m.(link := Shut) else m
  }

  function OnError(m: Mux, err: Error): Mux {
    Shutdown(m).(books := ReportedError(m.books, err))
  }

  function SendNext(m: Mux): Mux {
    if m.books.posted == [] then m
    else if m.link.Open? then m.(books := Written(m.books))
    else m.(books := Refused(m.books, NotConnected, m.link.NotOpened?))
  }

  function OnSent(m: Mux, serial: nat, failure: Option<Error>): Mux {
    if serial !in m.books.inFlight then m
    else if !m.link.Open? then m.(books := NotWritten(m.books, serial, NotConnected))
    else match failure
      case Some(err) => Shutdown(m.(books := NotWritten(m.books, serial, err)))
      case None => m.(books := Entered(m.books, serial))
  }

  /** The reply to the first login stage carries a challenge of the right size. */
  predicate HasChallenge(resp: Response) {
    resp.kind == R.Normal && RET in resp.params && |resp.params[RET]| == CHALLENGE_SIZE
  }

  function Answer(m: Mux, tag: nat, resp: Response, keep: bool, done: Option<Option<Error>>): Mux
    requires tag in m.books.table
  {
    m.(books := Replied(m.books, tag, resp, keep, done))
  }

  function CallThrows(m: Mux, tag: nat, resp: Response): Mux
    requires tag in m.books.table
  {
    OnError(m.(books := Thrown(m.books, tag, resp)), FatalResponse)
  }

  /** How a callback takes a reply. A login stage that goes on posts the second one. */
  datatype Verdict =
    | Throwing(burns: bool)
    | Answering(keep: bool, done: Option<Option<Error>>, goesOn: bool)

  function Judge(callback: Callback, resp: Response, outcome: Outcome): Verdict {
    match callback
    case User => if outcome.Throws? then Throwing(false) else Answering(outcome.keep, None, false)
    case Login1 =>
      if !HasChallenge(resp) then Answering(false, Some(Some(InvalidResponse)), false)
      else if !Hex.AllHex(resp.params[RET]) then Throwing(true)
      else Answering(false, None, true)
    case Login2(_) =>
      if resp.kind == R.Normal then Answering(false, Some(None), false)
      else Answering(false, Some(Some(InvalidCredentials)), false)
  }

  function Act(m: Mux, tag: nat, resp: Response, v: Verdict): Mux
    requires tag in m.books.table
  {
    match v
    case Throwing(burns) => CallThrows(if burns then m.(books := Burned(m.books)) else m, tag, resp)
    case Answering(keep, done, goesOn) =>
      var n := Answer(m, tag, resp, keep, done).(loggedIn := m.loggedIn || done == Some(None));
      if goesOn then n.(books := PostedNew(n.books, Login2(m.books.table[tag].serial))) else n
  }

  /** The books when the callback has been called, and its entry not yet dropped. */
  function Called(b: Ledger, r: Request, resp: Response, v: Verdict): Ledger {
    match v
    case Throwing(burns) =>
      var c := if burns then Burned(b) else b;
      c.(broken := true, log := c.log + [Raised(r, resp)])
    case Answering(keep, done, goesOn) =>
      var c := b.(log := b.log + [Answered(r, resp, keep)] + DoneEvents(r, done));
      if goesOn then PostedNew(c, Login2(r.serial)) else c
  }

  lemma ActAfterCall(m: Mux, tag: nat, resp: Response, v: Verdict)
    requires tag in m.books.table
    ensures var c := Called(m.books, m.books.table[tag], resp, v);
      Act(m, tag, resp, v) ==
      if v.Throwing? then OnError(m.(books := c), FatalResponse)
      else m.(books := if v.keep then c else c.(table := c.table - {tag}),
              loggedIn := m.loggedIn || v.done == Some(None))
  {
  }

  /** The callback registered under a tag gets a reply. */
  function Dispatch(m: Mux, tag: nat, resp: Response, outcome: Outcome): Mux
    requires tag in m.books.table
  {
    Act(m, tag, resp, Judge(m.books.table[tag].callback, resp, outcome))
  }

  /** What a sentence is: nothing, an error, a failed assertion, or a reply for a registered request. */
  datatype Sorted = Ignored | Fault(err: Error) | Assertion | For(tag: nat, resp: Response)

  function Sort(table: map<nat, Request>, s: Sentence): (r: Sorted)
    ensures r.For? ==> r.tag in table && r.tag == r.resp.tag
  {
    if !R.IsValidResponse(s) then Fault(InvalidResponse)
    else if |s| <= 1 then Ignored
    else match R.ResponseOf(s)
      case Throws => Fault(FatalResponse)
      case AssertionFails => Assertion
      case Parsed(resp) =>
        if !resp.tagged then Fault(UntaggedResponse)
        else if resp.tag !in table then Fault(InvalidResponseTag)
        else For(resp.tag, resp)
  }

  function HandleResponse(m: Mux, s: Sentence, outcome: Outcome): Mux {
    Settle(m, Sort(m.books.table, s), outcome)
  }

  function Settle(m: Mux, sorted: Sorted, outcome: Outcome): Mux
    requires sorted.For? ==> sorted.tag in m.books.table
  {
    match sorted
    case Ignored => m
    case Fault(err) => OnError(m, err)
    case Assertion => m.(link := Aborted)
    case For(tag, resp) =>
      var n := Dispatch(m, tag, resp, outcome);
      if outcome.Returns? && outcome.closes then Shutdown(n) else n
  }

  function Next(m: Mux, step: Step): Mux {
    if m.link.Aborted? then m
    else match step
      case Connect => if m.link.NotOpened? then m.(link := Open) else m
      case MakeRequest => m.(books := MadeOne(m.books))
      case Send(serial) => if serial in m.books.made then m.(books := SentMade(m.books, serial)) else m
      case Login => m.(books := PostedNew(m.books, Login1))
      case RunPosted => SendNext(m)
      case SendDone(serial, failure) => OnSent(m, serial, failure)
      case Respond(s, outcome) => if m.link.Open? then HandleResponse(m, s, outcome) else m
      case ReadFailed(err) => if m.link.Open? then OnError(m, err) else m
      case Close => Shutdown(m)
      case Abort => m.(link := Aborted)
  }

  function Run(m: Mux, steps: seq<Step>): Mux {
    if steps == [] then m else Next(Run(m, steps[..|steps| - 1]), steps[|steps| - 1])
  }

  // ----- the invariant -----

  ghost predicate LinkOk(m: Mux) {
    && (m.link.NotOpened? ==> m.books.wire == [] && m.books.skipped == m.books.taken)
    && (m.link.NotOpened? ==> m.books.inFlight == map[] && m.books.table == map[])
    && (m.link.NotOpened? || m.link.Open? ==> m.books.skipped + |m.books.wire| == m.books.taken && !m.books.broken)
  }

  ghost predicate Inv(m: Mux) {
    Good(m.books) && LinkOk(m)
  }

  lemma InitialInv()
    ensures Inv(INITIAL)
  {
  }

  lemma MoveInv(m: Mux, move: Move<Response, Error>)
    requires Inv(m) && Enabled(m.books, move) && LoginMove(m.books, move)
    requires move.Burn? || move.MakeOne? || move.SendMade? || move.PostNew? || move.Report?
    ensures Inv(m.(books := Apply(m.books, move)))
  {
    GoodApply(m.books, move);
  }

  lemma ShutdownInv(m: Mux)
    requires Inv(m)
    ensures Inv(Shutdown(m))
  {
  }

  lemma OnErrorInv(m: Mux, err: Error)
    requires Good(m.books) && LinkOk(Shutdown(m))
    ensures Inv(OnError(m, err))
  {
    MoveInv(Shutdown(m), Report(err));
  }

  lemma SendNextInv(m: Mux)
    requires Inv(m) && !m.link.Aborted?
    ensures Inv(SendNext(m))
  {
    if m.books.posted != [] {
      if m.link.Open? {
        GoodApply(m.books, Write);
      } else {
        GoodApply(m.books, Refuse(NotConnected, m.link.NotOpened?));
      }
    }
  }

  lemma OnSentInv(m: Mux, serial: nat, failure: Option<Error>)
    requires Inv(m)
    ensures Inv(OnSent(m, serial, failure))
  {
    if serial in m.books.inFlight {
      if !m.link.Open? {
        GoodApply(m.books, WriteFailed(serial, NotConnected));
      } else if failure.Some? {
        GoodApply(m.books, WriteFailed(serial, failure.value));
      } else {
        GoodApply(m.books, Enter(serial));
      }
    }
  }

  lemma AnswerInv(m: Mux, tag: nat, resp: Response, keep: bool, done: Option<Option<Error>>)
    requires Inv(m) && m.link.Open? && tag in m.books.table && (done.Some? ==> !keep)
    ensures Inv(Answer(m, tag, resp, keep, done))
  {
    GoodApply(m.books, Reply(tag, resp, keep, done));
  }

  lemma CallThrowsInv(m: Mux, tag: nat, resp: Response)
    requires Inv(m) && m.link.Open? && tag in m.books.table
    ensures Inv(CallThrows(m, tag, resp))
  {
    GoodApply(m.books, Throw(tag, resp));
    OnErrorInv(m.(books := Thrown(m.books, tag, resp)), FatalResponse);
  }

  /** When the first stage has been answered, the login has no live request, and goes on. */
  lemma SecondStage(b: Ledger, tag: nat, resp: Response)
    requires Good(b) && tag in b.table && b.table[tag].callback.Login1?
    ensures LoginMove(Replied(b, tag, resp, false, None), PostNew(Login2(b.table[tag].serial)))
  {
    var r := b.table[tag];
    var n := Replied(b, tag, resp, false, None);
    assert EntryOk(b, tag) && IsLive(b, r);
    assert LoginOk(b, r.serial);
    EndsAfterReply(b.log, r, resp, false, None, r.serial);
    forall q | IsLive(n, q) ensures q.Login() != Some(r.serial) {
      LiveReplied(b, tag, resp, false, None, q);
    }
  }

  ghost predicate Sensible(callback: Callback, v: Verdict) {
    v.Answering? ==>
      && (v.done.Some? ==> !v.keep && !v.goesOn)
      && (v.goesOn ==> callback.Login1? && !v.keep && v.done.None?)
  }

  lemma ActInv(m: Mux, tag: nat, resp: Response, v: Verdict)
    requires Inv(m) && m.link.Open? && tag in m.books.table && Sensible(m.books.table[tag].callback, v)
    ensures Inv(Act(m, tag, resp, v))
  {
    match v
    case Throwing(burns) =>
      MoveInv(m, Burn);
      CallThrowsInv(if burns then m.(books := Burned(m.books)) else m, tag, resp);
    case Answering(keep, done, goesOn) =>
      AnswerInv(m, tag, resp, keep, done);
      if goesOn {
        SecondStage(m.books, tag, resp);
        var n := Answer(m, tag, resp, keep, done).(loggedIn := m.loggedIn || done == Some(None));
        MoveInv(n, PostNew(Login2(m.books.table[tag].serial)));
      }
  }

  lemma SettleInv(m: Mux, sorted: Sorted, outcome: Outcome)
    requires Inv(m) && m.link.Open? && (sorted.For? ==> sorted.tag in m.books.table)
    ensures Inv(Settle(m, sorted, outcome))
  {
    match sorted
    case Ignored =>
    case Fault(err) => OnErrorInv(m, err);
    case Assertion =>
    case For(tag, resp) =>
      ActInv(m, tag, resp, Judge(m.books.table[tag].callback, resp, outcome));
  }

  /** Every handler keeps the invariant. */
  lemma NextInv(m: Mux, step: Step)
    requires Inv(m)
    ensures Inv(Next(m, step))
  {
    if !m.link.Aborted? {
      match step
      case MakeRequest => MoveInv(m, MakeOne);
      case Send(serial) =>
        if serial in m.books.made {
          MoveInv(m, SendMade(serial));
        }
      case Login => MoveInv(m, PostNew(Login1));
      case RunPosted => SendNextInv(m);
      case SendDone(serial, failure) => OnSentInv(m, serial, failure);
      case Respond(s, outcome) =>
        if m.link.Open? {
          SettleInv(m, Sort(m.books.table, s), outcome);
        }
      case ReadFailed(err) =>
        if m.link.Open? {
          OnErrorInv(m, err);
        }
      case _ => ShutdownInv(m);
    }
  }

  lemma {:induction false} RunInv(m: Mux, steps: seq<Step>)
    requires Inv(m)
    ensures Inv(Run(m, steps))
  {
    if steps != [] {
      RunInv(m, steps[..|steps| - 1]);
      NextInv(Run(m, steps[..|steps| - 1]), steps[|steps| - 1]);
    }
  }
}
