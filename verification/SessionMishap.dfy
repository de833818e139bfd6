/**
 A course of events in which a client with a ready session is told that it has been closed,
 because an earlier session of the same client cannot connect.
 */
module SessionMishap {
  import opened Options
  import opened Tags
  import opened Requests
  import opened SessionLink
  import opened Sessions
  import opened SessionRuns
  import opened SessionTheorems
  import M = Multiplexer
  import R = Responses
  import Hex

  // ----- a login that goes through -----

  /** A challenge of zeros. */
  function Zeros(n: nat): (w: R.Word)
    ensures |w| == n && forall b <- w :: b == R.ZERO
  {
    if n == 0 then [] else Zeros(n - 1) + [R.ZERO]
  }

  const CHALLENGE := Zeros(M.CHALLENGE_SIZE)

  function Reply(tag: nat, params: seq<(R.Word, R.Word)>): M.Sentence {
    [R.KindWord(R.Normal)] + R.ParamWords([]) + [R.TagWord(tag)] + R.ParamWords(params)
  }

  const FIRST_REPLY := Reply(0, [(M.RET, CHALLENGE)])
  const SECOND_REPLY := Reply(1, [])

  /** What the outcome of a user's callback would be does not matter for a login. */
  const KEEP := M.Returns(true, false)

  function FirstResponse(): M.Response {
    R.Response(R.Normal, map[M.RET := CHALLENGE], true, 0)
  }

  function SecondResponse(): M.Response {
    R.Response(R.Normal, map[], true, 1)
  }

  lemma RepliesRead()
    ensures R.IsValidResponse(FIRST_REPLY) && |FIRST_REPLY| > 1
    ensures R.ResponseOf(FIRST_REPLY) == R.Parsed(FirstResponse())
    ensures R.IsValidResponse(SECOND_REPLY) && |SECOND_REPLY| > 1
    ensures R.ResponseOf(SECOND_REPLY) == R.Parsed(SecondResponse())
  {
    var params := [(M.RET, CHALLENGE)];
    assert R.Printable(M.RET, CHALLENGE);
    R.PrintReadBack(R.Normal, [], 0, params);
    assert [] + params == params && params[..0] == [];
    assert R.FirstWins(map[], params) == map[M.RET := CHALLENGE];
    var none: seq<(R.Word, R.Word)> := [];
    R.PrintReadBack(R.Normal, none, 1, none);
    assert none + none == none;
  }

  const SECOND := Request(1, Login2(0))

  lemma FirstIsWritten()
    ensures var m := M.Next(M.Next(ASKED, M.RunPosted), M.SendDone(0, None));
      && m.link.Open? && !m.loggedIn && m.books.acquired == 1 && m.books.posted == []
      && m.books.inFlight == map[] && m.books.table == map[0 := LOGIN]
  {
    FirstSteps();
  }

  lemma FirstActs(m: M.Mux)
    requires m.link.Open? && !m.loggedIn && m.books.acquired == 1 && m.books.posted == []
    requires m.books.inFlight == map[] && m.books.table == map[0 := LOGIN]
    ensures var n := M.Act(m, 0, FirstResponse(), M.Answering(false, None, true));
      && n.link.Open? && !n.loggedIn && n.books.posted == [SECOND]
      && n.books.inFlight == map[] && n.books.table == map[]
  {
    assert map[0 := LOGIN] - {0} == map[];
  }

  lemma ReplyIsSettled(m: M.Mux, s: M.Sentence)
    requires m.link.Open?
    ensures M.Next(m, M.Respond(s, KEEP)) == M.Settle(m, M.Sort(m.books.table, s), KEEP)
  {
  }

  /** The first reply is settled as its verdict says. */
  lemma FirstIsSettled(m: M.Mux)
    requires m.link.Open? && 0 in m.books.table && m.books.table[0] == LOGIN
    ensures M.Next(m, M.Respond(FIRST_REPLY, KEEP))
         == M.Act(m, 0, FirstResponse(), M.Answering(false, None, true))
  {
    ReplyIsSettled(m, FIRST_REPLY);
    FirstReplyIsFor(m.books.table);
    FirstIsJudged();
    SettledAsJudged(m, 0, FirstResponse(), M.Answering(false, None, true));
  }

  lemma SettledAsJudged(m: M.Mux, tag: nat, resp: M.Response, v: M.Verdict)
    requires tag in m.books.table && M.Judge(m.books.table[tag].callback, resp, KEEP) == v
    ensures M.Settle(m, M.For(tag, resp), KEEP) == M.Act(m, tag, resp, v)
  {
  }

  lemma FirstIsAnswered(m: M.Mux)
    requires m.link.Open? && !m.loggedIn && m.books.acquired == 1 && m.books.posted == []
    requires m.books.inFlight == map[] && m.books.table == map[0 := LOGIN]
    ensures var n := M.Next(m, M.Respond(FIRST_REPLY, KEEP));
      && n.link.Open? && !n.loggedIn && n.books.posted == [SECOND]
      && n.books.inFlight == map[] && n.books.table == map[]
  {
    FirstIsSettled(m);
    FirstActs(m);
  }

  lemma SecondIsWritten(m: M.Mux)
    requires m.link.Open? && !m.loggedIn && m.books.posted == [SECOND]
    requires m.books.inFlight == map[] && m.books.table == map[]
    ensures var n := M.Next(M.Next(m, M.RunPosted), M.SendDone(1, None));
      n.link.Open? && !n.loggedIn && n.books.table == map[1 := SECOND]
  {
    assert Tag(1) == 1;
  }

  lemma SecondReplyIsFor(table: map<nat, Request>)
    requires 1 in table
    ensures M.Sort(table, SECOND_REPLY) == M.For(1, SecondResponse())
  {
    RepliesRead();
  }

  lemma SecondIsAnswered(m: M.Mux)
    requires m.link.Open? && !m.loggedIn && m.books.table == map[1 := SECOND]
    ensures var step := M.Respond(SECOND_REPLY, KEEP);
      && M.Next(m, step).link.Open? && M.Next(m, step).loggedIn
      && LastOf(Fresh(m, step)) == Some(LoginDone(0, None))
  {
    SecondReplyIsFor(m.books.table);
    FreshCalls(m, M.Respond(SECOND_REPLY, KEEP));
    assert M.Next(m, M.Respond(SECOND_REPLY, KEEP)) == M.Settle(m, M.For(1, SecondResponse()), KEEP);
  }

  // ----- beside an earlier session that is still to connect -----

  /** The first session has failed and evicted the second one; the third one is in the table. */
  function Beside(m: M.Mux): Service {
    Service(END.objects + [Session(7, m, LoggingIn)], map[7 := 2], END.log)
  }

  lemma Continues(steps: seq<Step>, st: Service, step: Step, n: Service)
    requires Keyed(st) && Run(NO_SESSIONS, steps) == st && Next(st, step) == n
    ensures Run(NO_SESSIONS, steps + [step]) == n
  {
    assert (steps + [step])[..|steps|] == steps;
  }

  lemma QuietStep(steps: seq<Step>, m: M.Mux, step: M.Step)
    requires Run(NO_SESSIONS, steps) == Beside(m) && Allowed(step)
    requires Fresh(m, step) != [] ==> !Concerns(Fresh(m, step)[|Fresh(m, step)| - 1])
    ensures Run(NO_SESSIONS, steps + [Api(2, step)]) == Beside(M.Next(m, step))
  {
    ApiStepIs(Beside(m), 2, step);
    Continues(steps, Beside(m), Api(2, step), Beside(M.Next(m, step)));
  }

  lemma Writes(steps: seq<Step>, m: M.Mux, serial: nat)
    requires Run(NO_SESSIONS, steps) == Beside(m) && m.link.Open?
    ensures Run(NO_SESSIONS, AfterWrite(steps, serial))
         == Beside(M.Next(M.Next(m, M.RunPosted), M.SendDone(serial, None)))
  {
    var n := M.Next(m, M.RunPosted);
    FreshCalls(m, M.RunPosted);
    QuietStep(steps, m, M.RunPosted);
    FreshCalls(n, M.SendDone(serial, None));
    QuietStep(steps + [Api(2, M.RunPosted)], n, M.SendDone(serial, None));
  }

  lemma FirstIsJudged()
    ensures M.Judge(Login1, FirstResponse(), KEEP) == M.Answering(false, None, true)
  {
    assert M.HasChallenge(FirstResponse()) && Hex.AllHex(CHALLENGE);
  }

  lemma FirstReplyIsFor(table: map<nat, Request>)
    requires 0 in table
    ensures M.Sort(table, FIRST_REPLY) == M.For(0, FirstResponse())
  {
    RepliesRead();
  }

  lemma CallsAsJudged(m: M.Mux, tag: nat, resp: M.Response, v: M.Verdict)
    requires tag in m.books.table && M.Judge(m.books.table[tag].callback, resp, KEEP) == v
    ensures SettleCalls(m, M.For(tag, resp), KEEP) == VerdictCalls(m.books.table[tag], resp, v)
  {
  }

  lemma FreshOfReply(m: M.Mux, s: M.Sentence)
    requires m.link.Open?
    ensures Fresh(m, M.Respond(s, KEEP)) == SettleCalls(m, M.Sort(m.books.table, s), KEEP)
  {
    FreshCalls(m, M.Respond(s, KEEP));
  }

  lemma FirstReplyIsQuiet(m: M.Mux)
    requires m.link.Open? && m.books.table == map[0 := LOGIN]
    ensures var es := Fresh(m, M.Respond(FIRST_REPLY, KEEP)); es != [] ==> !Concerns(es[|es| - 1])
  {
    FreshOfReply(m, FIRST_REPLY);
    FirstReplyIsFor(m.books.table);
    FirstIsJudged();
    CallsAsJudged(m, 0, FirstResponse(), M.Answering(false, None, true));
  }

  /** The third session logs in, ... */
  function AfterWrite(steps: seq<Step>, serial: nat): seq<Step> {
    steps + [Api(2, M.RunPosted)] + [Api(2, M.SendDone(serial, None))]
  }

  function AfterReply(steps: seq<Step>, reply: M.Sentence): seq<Step> {
    steps + [Api(2, M.Respond(reply, KEEP))]
  }

  function AfterLogin(steps: seq<Step>): seq<Step> {
    AfterReply(AfterWrite(AfterReply(AfterWrite(steps, 0), FIRST_REPLY), 1), SECOND_REPLY)
  }

  /** ... is announced as open, ... */
  ghost predicate Announces(st: Service) {
    && |st.objects| == 3 && st.objects[..2] == END.objects
    && st.objects[2].id == 7 && st.objects[2].Ready()
    && st.table == map[7 := 2] && st.log == END.log + [Opened(2, None, true, true)]
  }

  /** The login of the third session has one request registered, posted, or registered again. */
  ghost predicate FirstSent(st: Service) {
    exists m :: st == Beside(m) && m.link.Open? && !m.loggedIn && m.books.acquired == 1 && m.books.posted == []
      && m.books.inFlight == map[] && m.books.table == map[0 := LOGIN]
  }

  ghost predicate SecondPosted(st: Service) {
    exists m :: st == Beside(m) && m.link.Open? && !m.loggedIn && m.books.posted == [SECOND]
      && m.books.inFlight == map[] && m.books.table == map[]
  }

  ghost predicate SecondSent(st: Service) {
    exists m :: st == Beside(m) && m.link.Open? && !m.loggedIn && m.books.table == map[1 := SECOND]
  }

  lemma SendsFirst(steps: seq<Step>)
    requires Run(NO_SESSIONS, steps) == Beside(ASKED)
    ensures FirstSent(Run(NO_SESSIONS, AfterWrite(steps, 0)))
  {
    FirstSteps();
    Writes(steps, ASKED, 0);
    FirstIsWritten();
  }

  lemma PostsSecond(steps: seq<Step>)
    requires FirstSent(Run(NO_SESSIONS, steps))
    ensures SecondPosted(Run(NO_SESSIONS, AfterReply(steps, FIRST_REPLY)))
  {
    var m :| Run(NO_SESSIONS, steps) == Beside(m) && m.link.Open? && !m.loggedIn && m.books.acquired == 1
      && m.books.posted == [] && m.books.inFlight == map[] && m.books.table == map[0 := LOGIN];
    FirstReplyIsQuiet(m);
    QuietStep(steps, m, M.Respond(FIRST_REPLY, KEEP));
    FirstIsAnswered(m);
  }

  lemma SendsSecond(steps: seq<Step>)
    requires SecondPosted(Run(NO_SESSIONS, steps))
    ensures SecondSent(Run(NO_SESSIONS, AfterWrite(steps, 1)))
  {
    var m :| Run(NO_SESSIONS, steps) == Beside(m) && m.link.Open? && !m.loggedIn
      && m.books.posted == [SECOND] && m.books.inFlight == map[] && m.books.table == map[];
    Writes(steps, m, 1);
    SecondIsWritten(m);
  }

  lemma SuccessIsAnnounced(m: M.Mux, step: M.Step)
    requires Allowed(step) && M.Next(m, step).link.Open? && M.Next(m, step).loggedIn
    requires LastOf(Fresh(m, step)) == Some(LoginDone(0, None))
    ensures Announces(Next(Beside(m), Api(2, step)))
  {
    ApiStepIs(Beside(m), 2, step);
    ToldIsAnnounced(M.Next(m, step));
  }

  lemma ToldIsAnnounced(m: M.Mux)
    requires m.link.Open? && m.loggedIn
    ensures Announces(React(Beside(m), 2, LoginDone(0, None)))
  {
    assert (END.objects + [Session(7, m, LoggingIn)])[..2] == END.objects;
  }

  lemma ThirdOpens(steps: seq<Step>)
    requires SecondSent(Run(NO_SESSIONS, steps))
    ensures Announces(Run(NO_SESSIONS, AfterReply(steps, SECOND_REPLY)))
  {
    var m :| Run(NO_SESSIONS, steps) == Beside(m) && m.link.Open? && !m.loggedIn && m.books.table == map[1 := SECOND];
    var step := M.Respond(SECOND_REPLY, KEEP);
    SecondIsAnswered(m);
    SuccessIsAnnounced(m, step);
    Continues(steps, Beside(m), Api(2, step), Next(Beside(m), Api(2, step)));
  }

  lemma ThirdLogsIn(steps: seq<Step>)
    requires Run(NO_SESSIONS, steps) == Beside(ASKED)
    ensures Announces(Run(NO_SESSIONS, AfterLogin(steps)))
  {
    SendsFirst(steps);
    PostsSecond(AfterWrite(steps, 0));
    SendsSecond(AfterReply(AfterWrite(steps, 0), FIRST_REPLY));
    ThirdOpens(AfterWrite(AfterReply(AfterWrite(steps, 0), FIRST_REPLY), 1));
  }

  const END_OF_MISHAP :=
    END.log + [Opened(2, None, true, true), Closed(2, ConnectFailed), Opened(1, Some(FAILURE), false, false)]

  /** ... and is closed when the second one cannot connect. */
  lemma SecondEndsThird(st: Service)
    requires Announces(st)
    ensures Keyed(st) && Next(st, Connected(1, Some(FAILURE))).log == END_OF_MISHAP
  {
    assert st.objects[1] == st.objects[..2][1] == Session(7, M.INITIAL, Connecting);
    assert st.objects[0] == st.objects[..2][0];
  }

  /** The id is opened for a third time, that session connects and logs in, and the second one fails to connect. */
  function Mishap(): seq<Step> {
    AfterLogin(REUSED_EARLY + [Open(7)] + [Connected(2, None)]) + [Connected(1, Some(FAILURE))]
  }

  lemma ThirdConnects(steps: seq<Step>)
    requires Run(NO_SESSIONS, steps) == END
    ensures Run(NO_SESSIONS, steps + [Open(7)] + [Connected(2, None)]) == Beside(ASKED)
  {
    var st := Service(END.objects + [Session(7, M.INITIAL, Connecting)], map[7 := 2], END.log);
    FirstSteps();
    Continues(steps, END, Open(7), st);
    Continues(steps + [Open(7)], st, Connected(2, None), Beside(ASKED));
  }

  lemma LastStep(steps: seq<Step>)
    requires Announces(Run(NO_SESSIONS, steps))
    ensures Run(NO_SESSIONS, steps + [Connected(1, Some(FAILURE))]).log == END_OF_MISHAP
  {
    var st := Run(NO_SESSIONS, steps);
    SecondEndsThird(st);
    Continues(steps, st, Connected(1, Some(FAILURE)), Next(st, Connected(1, Some(FAILURE))));
  }

  lemma FromEnd(steps: seq<Step>)
    requires Run(NO_SESSIONS, steps) == END
    ensures var all := AfterLogin(steps + [Open(7)] + [Connected(2, None)]) + [Connected(1, Some(FAILURE))];
      Run(NO_SESSIONS, all).log == END_OF_MISHAP
  {
    ThirdConnects(steps);
    ThirdLogsIn(steps + [Open(7)] + [Connected(2, None)]);
    LastStep(AfterLogin(steps + [Open(7)] + [Connected(2, None)]));
  }

  /**
   The client of a session that was announced as open and ready is told that it is closed, though
   the client is there and the session's connection is well.
   */
  lemma ReadySessionIsClosed()
    ensures Run(NO_SESSIONS, Mishap()).log == END_OF_MISHAP && !AllClean(END_OF_MISHAP)
  {
    ReusedTooEarly();
    FromEnd(REUSED_EARLY);
    EndIsUnclean();
  }

  lemma EndIsUnclean()
    ensures !AllClean(END_OF_MISHAP)
  {
    assert END_OF_MISHAP[2] == Closed(2, ConnectFailed) && !Clean(END_OF_MISHAP[2]);
    assert END_OF_MISHAP[2] in END_OF_MISHAP;
  }
}
