/**
 What each handler of the connection does, written out in full: what is called with what, what
 is posted and registered, and whether the connection stays open.
 */
module MultiplexerSteps {
  import opened Options
  import opened Requests
  import Tags
  import opened Multiplexer
  import R = Responses
  import Hex

  type Happening = Event<Response, Error>

  // ----- a reply reaches a registered request -----

  /** An open connection gets a sentence that reads as a response with the tag of a registered request. */
  ghost predicate Reaches(m: Mux, s: Sentence, resp: Response, r: Request) {
    && m.link.Open? && R.IsValidResponse(s) && |s| > 1 && R.ResponseOf(s) == R.Parsed(resp)
    && resp.tagged && resp.tag in m.books.table && m.books.table[resp.tag] == r
  }

  lemma ReachingIsSorted(m: Mux, s: Sentence, resp: Response, r: Request)
    requires Reaches(m, s, resp, r)
    ensures Sort(m.books.table, s) == For(resp.tag, resp)
  {
  }

  /** And what is dispatched was reached. */
  lemma SortedReaches(m: Mux, s: Sentence)
    requires m.link.Open? && Sort(m.books.table, s).For?
    ensures var sorted := Sort(m.books.table, s);
      Reaches(m, s, sorted.resp, m.books.table[sorted.tag]) && sorted.tag == sorted.resp.tag
  {
  }

  function LinkAfter(outcome: Outcome): Link {
    if outcome.Returns? && outcome.closes then Shut else Open
  }

  /** A callback is called with the reply; its answer decides whether its entry stays. */
  lemma UserAnswers(m: Mux, s: Sentence, resp: Response, r: Request, keep: bool, closes: bool)
    requires Reaches(m, s, resp, r) && r.callback.User?
    ensures Next(m, Respond(s, Returns(keep, closes))) == m.(
      link := if closes then Shut else Open,
      books := m.books.(
        log := m.books.log + [Answered(r, resp, keep)],
        table := if keep then m.books.table else m.books.table - {resp.tag}))
  {
    ReachingIsSorted(m, s, resp, r);
  }

  /** A callback that throws ends the connection with one error. */
  lemma UserThrows(m: Mux, s: Sentence, resp: Response, r: Request)
    requires Reaches(m, s, resp, r) && r.callback.User?
    ensures Next(m, Respond(s, Throws)) == m.(
      link := Shut,
      books := m.books.(broken := true, log := m.books.log + [Raised(r, resp), Reported(FatalResponse)]))
  {
    ReachingIsSorted(m, s, resp, r);
  }

  /** The reply of a router that offers a challenge: normal, with a "ret" of 32 octets. */
  predicate Challenges(resp: Response) {
    resp.kind == R.Normal && RET in resp.params && |resp.params[RET]| == 32
  }

  /** The first stage of a login without a challenge: the login fails. */
  lemma FirstStageFails(m: Mux, s: Sentence, resp: Response, r: Request, outcome: Outcome)
    requires Reaches(m, s, resp, r) && r.callback.Login1? && !Challenges(resp)
    ensures Next(m, Respond(s, outcome)) == m.(
      link := LinkAfter(outcome),
      books := m.books.(
        log := m.books.log + [Answered(r, resp, false), LoginDone(r.serial, Some(InvalidResponse))],
        table := m.books.table - {resp.tag}))
  {
    ReachingIsSorted(m, s, resp, r);
    assert !HasChallenge(resp);
  }

  /** A challenge that is not hexadecimal throws, when the tag of the second stage has been taken. */
  lemma FirstStageThrows(m: Mux, s: Sentence, resp: Response, r: Request, outcome: Outcome)
    requires Reaches(m, s, resp, r) && r.callback.Login1? && Challenges(resp) && !Hex.AllHex(resp.params[RET])
    ensures Next(m, Respond(s, outcome)) == m.(
      link := Shut,
      books := m.books.(
        acquired := m.books.acquired + 1, broken := true,
        log := m.books.log + [Raised(r, resp), Reported(FatalResponse)]))
  {
    ReachingIsSorted(m, s, resp, r);
    assert HasChallenge(resp);
  }

  /** A good challenge: the second stage is posted with a fresh tag. */
  lemma FirstStageGoesOn(m: Mux, s: Sentence, resp: Response, r: Request, outcome: Outcome)
    requires Reaches(m, s, resp, r) && r.callback.Login1? && Challenges(resp) && Hex.AllHex(resp.params[RET])
    ensures Next(m, Respond(s, outcome)) == m.(
      link := LinkAfter(outcome),
      books := m.books.(
        acquired := m.books.acquired + 1,
        posted := m.books.posted + [Request(m.books.acquired, Login2(r.serial))],
        sends := m.books.sends + [m.books.acquired],
        log := m.books.log + [Answered(r, resp, false)],
        table := m.books.table - {resp.tag}))
  {
    ReachingIsSorted(m, s, resp, r);
    assert HasChallenge(resp);
  }

  /** The second stage: a normal reply logs in, any other is for bad credentials. */
  lemma SecondStageEnds(m: Mux, s: Sentence, resp: Response, r: Request, outcome: Outcome)
    requires Reaches(m, s, resp, r) && r.callback.Login2?
    ensures var failure := if resp.kind == R.Normal then None else Some(InvalidCredentials);
      Next(m, Respond(s, outcome)) == m.(
        link := LinkAfter(outcome),
        loggedIn := m.loggedIn || resp.kind == R.Normal,
        books := m.books.(
          log := m.books.log + [Answered(r, resp, false), LoginDone(r.callback.login, failure)],
          table := m.books.table - {resp.tag}))
  {
    ReachingIsSorted(m, s, resp, r);
  }

  // ----- other sentences -----

  /** An error has been reported and the connection closed. */
  function Ending(m: Mux, err: Error): Mux {
    m.(link := Shut, books := m.books.(log := m.books.log + [Reported(err)]))
  }

  /** A sentence that does not start with an exclamation mark is no response. */
  lemma InvalidEnds(m: Mux, s: Sentence, outcome: Outcome)
    requires m.link.Open? && !(s != [] && s[0] != [] && s[0][0] == 0x21)
    ensures Next(m, Respond(s, outcome)) == Ending(m, InvalidResponse)
  {
  }

  /** A lone type word is ignored, whatever the type. */
  lemma EmptyIsIgnored(m: Mux, w: R.Word, outcome: Outcome)
    requires m.link.Open? && w != [] && w[0] == 0x21
    ensures Next(m, Respond([w], outcome)) == m
  {
  }

  /** A fatal response, or one of an unknown type, ends the connection whatever else is in it. */
  lemma FatalEnds(m: Mux, s: Sentence, outcome: Outcome)
    requires m.link.Open? && |s| > 1 && s[0] != [] && s[0][0] == 0x21
    requires s[0] != R.DONE && s[0] != R.RE && s[0] != R.TRAP
    ensures Next(m, Respond(s, outcome)) == Ending(m, FatalResponse)
  {
    R.OtherKindsThrow(s);
  }

  /** So does one that cannot be read, like one with a tag of more than 32 bits. */
  lemma UnreadableEnds(m: Mux, s: Sentence, outcome: Outcome)
    requires m.link.Open? && |s| > 1 && R.IsValidResponse(s)
    ensures R.ResponseOf(s) == R.Throws ==> Next(m, Respond(s, outcome)) == Ending(m, FatalResponse)
    ensures R.ResponseOf(s) == R.AssertionFails ==> Next(m, Respond(s, outcome)) == m.(link := Aborted)
  {
  }

  /** A response without a tag, or with a tag that nothing is registered under. */
  lemma StrayEnds(m: Mux, s: Sentence, resp: Response, outcome: Outcome)
    requires m.link.Open? && |s| > 1 && R.IsValidResponse(s) && R.ResponseOf(s) == R.Parsed(resp)
    ensures !resp.tagged ==> Next(m, Respond(s, outcome)) == Ending(m, UntaggedResponse)
    ensures resp.tagged && resp.tag !in m.books.table ==>
      Next(m, Respond(s, outcome)) == Ending(m, InvalidResponseTag)
  {
  }

  // ----- the other handlers -----

  /** What a request's callback, and the handler of its login, are called with for an error. */
  function ErrorCalls(r: Request, err: Error): seq<Happening> {
    match r.callback
    case User => [Failed(r, err)]
    case Login1 => [Failed(r, err), LoginDone(r.serial, Some(err))]
    case Login2(login) => [Failed(r, err), LoginDone(login, Some(err))]
  }

  lemma SendPosts(m: Mux, serial: nat)
    requires !m.link.Aborted? && serial in m.books.made
    ensures Next(m, Send(serial)) == m.(books := m.books.(
      made := m.books.made - {serial},
      posted := m.books.posted + [m.books.made[serial]],
      sends := m.books.sends + [m.books.made[serial].serial]))
  {
  }

  lemma LoginPosts(m: Mux)
    requires !m.link.Aborted?
    ensures Next(m, Login) == m.(books := m.books.(
      acquired := m.books.acquired + 1,
      posted := m.books.posted + [Request(m.books.acquired, Login1)],
      sends := m.books.sends + [m.books.acquired]))
  {
  }

  lemma MakingMakes(m: Mux)
    requires !m.link.Aborted?
    ensures Next(m, MakeRequest) == m.(books := m.books.(
      acquired := m.books.acquired + 1,
      made := m.books.made[m.books.acquired := Request(m.books.acquired, User)]))
  {
  }

  /** A posted request is written if the connection is open, and otherwise told that it is not. */
  lemma PostedIsSent(m: Mux)
    requires !m.link.Aborted? && m.books.posted != []
    ensures var r, n := m.books.posted[0], Next(m, RunPosted);
      && n.link == m.link && n.loggedIn == m.loggedIn && n.books.posted == m.books.posted[1..]
      && n.books.table == m.books.table && n.books.made == m.books.made && n.books.acquired == m.books.acquired
      && if m.link.Open? then
           n.books.wire == m.books.wire + [r.serial] && n.books.inFlight == m.books.inFlight[r.serial := r]
           && n.books.log == m.books.log
         else
           n.books.wire == m.books.wire && n.books.inFlight == m.books.inFlight
           && n.books.log == m.books.log + ErrorCalls(r, NotConnected)
  {
  }

  /** A write that completes registers the callback, unless the tag is occupied. */
  lemma WriteRegisters(m: Mux, serial: nat)
    requires m.link.Open? && serial in m.books.inFlight
    ensures var n := Next(m, SendDone(serial, None));
      && n.link.Open? && n.loggedIn == m.loggedIn && n.books.log == m.books.log
      && n.books.inFlight == m.books.inFlight - {serial}
      && n.books.table == if Tags.Tag(serial) in m.books.table then m.books.table
                          else m.books.table[Tags.Tag(serial) := m.books.inFlight[serial]]
  {
  }

  /** A write that fails calls back with its error and closes the connection, without reporting. */
  lemma WriteFails(m: Mux, serial: nat, err: Error)
    requires m.link.Open? && serial in m.books.inFlight
    ensures Next(m, SendDone(serial, Some(err))) == m.(link := Shut, books := m.books.(
      inFlight := m.books.inFlight - {serial},
      log := m.books.log + ErrorCalls(m.books.inFlight[serial], err)))
  {
  }

  /** A write that comes back when the connection is closed calls back with that. */
  lemma WriteTooLate(m: Mux, serial: nat, failure: Option<Error>)
    requires !m.link.Open? && !m.link.Aborted? && serial in m.books.inFlight
    ensures Next(m, SendDone(serial, failure)) == m.(books := m.books.(
      inFlight := m.books.inFlight - {serial},
      log := m.books.log + ErrorCalls(m.books.inFlight[serial], NotConnected)))
  {
  }

  lemma LinkSteps(m: Mux, err: Error)
    ensures m.link.NotOpened? ==> Next(m, Connect) == m.(link := Open)
    ensures m.link.Open? ==> Next(m, Close) == m.(link := Shut) && Next(m, ReadFailed(err)) == Ending(m, err)
  {
  }
}
