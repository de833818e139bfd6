/** What holds of every run of the connection, from the first request to after its end. */
module MultiplexerRuns {
  import opened Options
  import opened Tags
  import opened Requests
  import opened Multiplexer
  import R = Responses

  // ----- calls of callbacks -----

  /** A connection as some run of handlers leaves it. */
  ghost predicate Reached(m: Mux) {
    exists steps :: m == Run(INITIAL, steps)
  }

  lemma ReachedInv(m: Mux)
    requires Reached(m)
    ensures Inv(m)
  {
    var steps :| m == Run(INITIAL, steps);
    InitialInv();
    RunInv(INITIAL, steps);
  }

  lemma RunIsReached(steps: seq<Step>)
    ensures Reached(Run(INITIAL, steps))
  {
  }

  lemma ReachedRun(m: Mux, more: seq<Step>)
    requires Reached(m)
    ensures Reached(Run(m, more))
  {
    var steps :| m == Run(INITIAL, steps);
    RunAppend(INITIAL, steps, more);
  }

  lemma ReachedNext(m: Mux, step: Step)
    requires Reached(m)
    ensures Reached(Next(m, step))
  {
    var steps :| m == Run(INITIAL, steps);
    RunSnoc(INITIAL, steps, step);
  }

  /**
   In every run every callback is called with one error and nothing else, or with replies
   it answers true, and then at most once more: answering false, or throwing.
   */
  lemma CallbackLifetime(m: Mux, serial: nat)
    requires Reached(m)
    ensures Legal(CallsOf(m.books.log, serial))
  {
    ReachedInv(m);
    TracesAreLegal(m.books, serial);
  }

  // ----- after the end -----

  /** Calls that only say that the connection is gone. */
  predicate Farewell(e: Event<Response, Error>) {
    match e
    case Failed(_, err) => err == NotConnected
    case LoginDone(_, failure) => failure == Some(NotConnected)
    case _ => false
  }

  /** A connection that is no longer open stays so, and nothing but farewells follows. */
  ghost predicate Departed(m: Mux, n: Mux) {
    && (n.link.Shut? || n.link.Aborted?)
    && n.books.wire == m.books.wire
    && n.loggedIn == m.loggedIn
    && m.books.log <= n.books.log
    && forall i | |m.books.log| <= i < |n.books.log| :: Farewell(n.books.log[i])
  }

  lemma StepAfterEnd(m: Mux, step: Step)
    requires m.link.Shut? || m.link.Aborted?
    ensures Departed(m, Next(m, step))
  {
  }

  /** After a close no reply reaches a callback, nothing is written and no error is reported. */
  lemma {:induction false} AfterEnd(m: Mux, steps: seq<Step>)
    requires m.link.Shut? || m.link.Aborted?
    ensures Departed(m, Run(m, steps))
  {
    if steps != [] {
      var n := Run(m, steps[..|steps| - 1]);
      AfterEnd(m, steps[..|steps| - 1]);
      StepAfterEnd(n, steps[|steps| - 1]);
    }
  }

  // ----- tags -----

  /** The request that a sentence is for, if it is a response to one. */
  function Addressee(m: Mux, s: Sentence): Option<Request> {
    match Sort(m.books.table, s)
    case For(tag, _) => Some(m.books.table[tag])
    case _ => None
  }

  type Log = seq<Event<Response, Error>>

  /** One call more for a callback that is meant, and none for another. */
  predicate CalledOnce(before: Log, after: Log, serial: nat, meant: bool) {
    var c, d := CallsOf(before, serial), CallsOf(after, serial);
    if meant then c <= d && |d| == |c| + 1 else d == c
  }

  lemma ReportCalls(before: Log, after: Log, err: Error, serial: nat, meant: bool)
    requires CalledOnce(before, after, serial, meant)
    ensures CalledOnce(before, after + [Reported(err)], serial, meant)
  {
    CallsAfterReport(after, err, serial);
  }

  lemma AnswerCalls(log: Log, r: Request, resp: Response, keep: bool, done: Option<Option<Error>>, serial: nat)
    ensures CalledOnce(log, log + [Answered(r, resp, keep)] + DoneEvents(r, done), serial, r.serial == serial)
  {
    CallsAfterReply(log, r, resp, keep, done, serial);
  }

  lemma ThrowsCalls(log: Log, r: Request, resp: Response, serial: nat)
    ensures CalledOnce(log, log + [Raised(r, resp)] + [Reported(FatalResponse)], serial, r.serial == serial)
  {
    CallsAfterRaise(log, r, resp, serial);
    ReportCalls(log, log + [Raised(r, resp)], FatalResponse, serial, r.serial == serial);
  }

  lemma ActCalls(m: Mux, tag: nat, resp: Response, v: Verdict, serial: nat)
    requires tag in m.books.table
    ensures CalledOnce(m.books.log, Act(m, tag, resp, v).books.log, serial, m.books.table[tag].serial == serial)
  {
    match v
    case Throwing(_) => ThrowsCalls(m.books.log, m.books.table[tag], resp, serial);
    case Answering(keep, done, _) => AnswerCalls(m.books.log, m.books.table[tag], resp, keep, done, serial);
  }

  lemma SettleCalls(m: Mux, sorted: Sorted, outcome: Outcome, serial: nat)
    requires sorted.For? ==> sorted.tag in m.books.table
    ensures CalledOnce(m.books.log, Settle(m, sorted, outcome).books.log, serial,
      sorted.For? && m.books.table[sorted.tag].serial == serial)
  {
    match sorted
    case For(tag, resp) => ActCalls(m, tag, resp, Judge(m.books.table[tag].callback, resp, outcome), serial);
    case Fault(err) => ReportCalls(m.books.log, m.books.log, err, serial, false);
    case _ =>
  }

  /**
   A sentence from an open connection calls the callback of its addressee once and no
   other callback at all.
   */
  lemma RespondCalls(m: Mux, s: Sentence, outcome: Outcome, serial: nat)
    requires m.link.Open?
    ensures CalledOnce(m.books.log, Next(m, Respond(s, outcome)).books.log, serial,
      Addressee(m, s).Some? && Addressee(m, s).value.serial == serial)
  {
    SettleCalls(m, Sort(m.books.table, s), outcome, serial);
  }

  /** The addressee is the request whose tag the response carries. */
  lemma AddresseeHasTag(m: Mux, s: Sentence)
    requires Inv(m) && Addressee(m, s).Some?
    ensures R.IsValidResponse(s) && R.ResponseOf(s).Parsed? && R.ResponseOf(s).resp.tagged
    ensures R.ResponseOf(s).resp.tag == Tag(Addressee(m, s).value.serial)
    ensures IsRegistered(m.books, Addressee(m, s).value.serial)
  {
    assert EntryOk(m.books, R.ResponseOf(s).resp.tag);
  }

  /** A sentence without an addressee ends the connection, unless it is a lone valid word. */
  lemma StrayEndsConnection(m: Mux, s: Sentence, outcome: Outcome)
    requires m.link.Open? && Addressee(m, s).None?
    ensures Next(m, Respond(s, outcome)).link.Open? <==> R.IsValidResponse(s) && |s| == 1
    ensures Next(m, Respond(s, outcome)).books.table == m.books.table
  {
  }

  /** A reply that repeats a registered request's tag word, wherever it stands, is for that request. */
  lemma OwnTagIsAnswered(m: Mux, serial: nat, kind: R.ResponseType,
      before: seq<(R.Word, R.Word)>, after: seq<(R.Word, R.Word)>)
    requires IsRegistered(m.books, serial) && R.AllPrintable(before) && R.AllPrintable(after)
    ensures var s := [R.KindWord(kind)] + R.ParamWords(before) + [R.TagWord(Tag(serial))] + R.ParamWords(after);
      Addressee(m, s) == Some(m.books.table[Tag(serial)])
  {
    R.PrintReadBack(kind, before, Tag(serial), after);
  }

  /** A request whose callback may still be called, or that is made and not yet sent. */
  predicate Pending(b: Ledger, r: Request) {
    IsLive(b, r) || (r.serial in b.made && b.made[r.serial] == r)
  }

  /**
   While no more than 2^32 tags have been handed out, pending requests have different tags,
   each below the next one to be handed out.
   */
  lemma PendingTagsDiffer(m: Mux, r: Request, q: Request)
    requires Reached(m) && m.books.acquired <= TAG_LIMIT
    requires Pending(m.books, r) && Pending(m.books, q) && r.serial != q.serial
    ensures Tag(r.serial) != Tag(q.serial)
    ensures Tag(r.serial) < m.books.acquired
  {
    var b := m.books;
    ReachedInv(m);
    GoodParts(b, 0);
    if IsLive(b, r) {
      LiveIsKnown(b, r);
    }
    if IsLive(b, q) {
      LiveIsKnown(b, q);
    }
  }

  // ----- conservation and order -----

  predicate IsPosted(b: Ledger, serial: nat) {
    exists r <- b.posted :: r.serial == serial
  }

  function Count(b: bool): nat {
    if b then 1 else 0
  }

  /** In how many of the places a sent request can be it is. */
  function Places(b: Ledger, serial: nat): nat {
    var c := CallsOf(b.log, serial);
    Count(IsPosted(b, serial)) + Count(serial in b.inFlight) + Count(IsRegistered(b, serial))
    + Count(c == [CallError]) + Count(Requests.Ended(c))
  }

  lemma PostedOrTaken(b: Ledger, serial: nat)
    requires Queued(b) && Distinct(b.sends) && serial in b.sends
    ensures IsPosted(b, serial) <==> serial !in Taken(b)
  {
    var i :| 0 <= i < |b.sends| && b.sends[i] == serial;
    if i < b.taken {
      assert serial in Taken(b);
      forall r | r in b.posted ensures r.serial != serial {
        PostedIsUntaken(b, r);
      }
    } else {
      assert b.posted[i - b.taken].serial == serial;
      PostedIsUntaken(b, b.posted[i - b.taken]);
    }
  }

  lemma OneKind(c: seq<Call>)
    ensures AllKeep(c) || Broke(c) ==> c != [CallError] && !Requests.Ended(c)
    ensures c == [CallError] ==> !Requests.Ended(c)
  {
    if c != [] {
      assert c[0] in c && c[|c| - 1] in c;
    }
  }

  /** A request that was sent is in exactly one place, unless it is lost: then it is in none. */
  lemma OnePlace(b: Ledger, serial: nat)
    requires Queued(b) && Distinct(b.sends) && Flying(b) && Tabled(b) && TraceOk(b, serial)
    requires serial in b.sends
    ensures Places(b, serial) == if serial in b.lost then 0 else 1
  {
    PostedOrTaken(b, serial);
    OneKind(CallsOf(b.log, serial));
    if IsWaiting(b, serial) {
      WaitingIsUnregistered(b, serial);
    }
  }

  /** The step is the completion of a write whose tag is occupied. */
  predicate Displaces(m: Mux, step: Step, serial: nat) {
    && m.link.Open? && step == SendDone(serial, None)
    && serial in m.books.inFlight && Tag(serial) in m.books.table
  }

  lemma WaitingIsNotLost(b: Ledger, serial: nat)
    requires TraceOk(b, serial) && serial in b.inFlight
    ensures serial !in b.lost
  {
  }

  lemma LostByAct(m: Mux, tag: nat, resp: Response, v: Verdict)
    requires tag in m.books.table
    ensures Act(m, tag, resp, v).books.lost == m.books.lost
  {
  }

  lemma LostBySettle(m: Mux, sorted: Sorted, outcome: Outcome)
    requires sorted.For? ==> sorted.tag in m.books.table
    ensures Settle(m, sorted, outcome).books.lost == m.books.lost
  {
    if sorted.For? {
      LostByAct(m, sorted.tag, sorted.resp, Judge(m.books.table[sorted.tag].callback, sorted.resp, outcome));
    }
  }

  lemma LostNext(m: Mux, step: Step, serial: nat)
    ensures serial in Next(m, step).books.lost <==> serial in m.books.lost || Displaces(m, step, serial)
  {
    if step.Respond? {
      LostBySettle(m, Sort(m.books.table, step.s), step.outcome);
    }
  }

  lemma WriteEnters(m: Mux, serial: nat)
    requires m.link.Open? && serial in m.books.inFlight
    ensures Next(m, SendDone(serial, None)).books == Entered(m.books, serial)
  {
  }

  lemma SentStaysSent(b: Ledger, serial: nat)
    requires Flying(b) && TraceOk(b, serial) && serial in b.inFlight
    ensures serial in Entered(b, serial).sends && serial !in b.lost
  {
    WaitingIsNotLost(b, serial);
  }

  /** A written request stays in one place exactly when its tag is free as its write completes. */
  lemma KeptIffTagFree(m: Mux, serial: nat)
    requires Inv(m) && m.link.Open? && serial in m.books.inFlight
    ensures Places(Next(m, SendDone(serial, None)).books, serial) == 1 <==> Tag(serial) !in m.books.table
  {
    var n := Next(m, SendDone(serial, None));
    NextInv(m, SendDone(serial, None));
    WriteEnters(m, serial);
    GoodParts(m.books, serial);
    SentStaysSent(m.books, serial);
    GoodParts(n.books, serial);
    OnePlace(n.books, serial);
  }

  /** At some step of the run the request's write completes on an occupied tag. */
  ghost predicate DisplacedIn(steps: seq<Step>, serial: nat) {
    exists i | 0 <= i < |steps| :: Displaces(Run(INITIAL, steps[..i]), steps[i], serial)
  }

  lemma DisplacedSnoc(steps: seq<Step>, step: Step, serial: nat)
    ensures DisplacedIn(steps + [step], serial)
       <==> DisplacedIn(steps, serial) || Displaces(Run(INITIAL, steps), step, serial)
  {
    var all := steps + [step];
    assert forall i | 0 <= i < |steps| :: all[..i] == steps[..i] && all[i] == steps[i];
    assert all[..|steps|] == steps && all[|steps|] == step;
    if Displaces(Run(INITIAL, steps), step, serial) {
      assert Displaces(Run(INITIAL, all[..|steps|]), all[|steps|], serial);
    }
    if DisplacedIn(steps, serial) {
      var i :| 0 <= i < |steps| && Displaces(Run(INITIAL, steps[..i]), steps[i], serial);
      assert Displaces(Run(INITIAL, all[..i]), all[i], serial);
    }
  }

  lemma LostSnoc(steps: seq<Step>, step: Step, serial: nat)
    ensures serial in Run(INITIAL, steps + [step]).books.lost
       <==> serial in Run(INITIAL, steps).books.lost || Displaces(Run(INITIAL, steps), step, serial)
  {
    RunSnoc(INITIAL, steps, step);
    LostNext(Run(INITIAL, steps), step, serial);
  }

  lemma {:induction false} LostIffDisplaced(steps: seq<Step>, serial: nat)
    ensures serial in Run(INITIAL, steps).books.lost <==> DisplacedIn(steps, serial)
  {
    if steps != [] {
      var init, last := steps[..|steps| - 1], steps[|steps| - 1];
      LostIffDisplaced(init, serial);
      LostSnoc(init, last, serial);
      DisplacedSnoc(init, last, serial);
      assert init + [last] == steps;
    }
  }

  /**
   In every run, every request that was sent is in exactly one place if and only if its write
   never completed on an occupied tag; otherwise it is in none.
   */
  lemma OnePlaceIff(steps: seq<Step>, serial: nat)
    requires serial in Run(INITIAL, steps).books.sends
    ensures Places(Run(INITIAL, steps).books, serial) == if DisplacedIn(steps, serial) then 0 else 1
  {
    var m := Run(INITIAL, steps);
    RunIsReached(steps);
    ReachedInv(m);
    GoodParts(m.books, serial);
    LostIffDisplaced(steps, serial);
    OnePlace(m.books, serial);
  }

  /** So it is for every connection, whatever run has led to it; nothing is lost while tags have not wrapped. */
  lemma OnePlaceEach(m: Mux, serial: nat)
    requires Reached(m) && serial in m.books.sends
    ensures Places(m.books, serial) == if serial in m.books.lost then 0 else 1
    ensures m.books.acquired <= TAG_LIMIT ==> m.books.lost == {}
  {
    ReachedInv(m);
    GoodParts(m.books, serial);
    OnePlace(m.books, serial);
  }

  lemma GoodParts(b: Ledger, serial: nat)
    requires Good(b)
    ensures Placed(b) && TraceOk(b, serial) && LoginOk(b, serial) && Scarce(b)
  {
  }

  /** What has been written, and in which order. */
  ghost predicate Ordered(b: Ledger) {
    && Distinct(b.sends)
    && b.skipped + |b.wire| <= b.taken == |b.sends| - |b.posted|
    && b.wire == b.sends[b.skipped..b.skipped + |b.wire|]
    && forall i | 0 <= i < |b.posted| :: b.posted[i].serial == b.sends[b.taken + i]
  }

  lemma PlacedIsOrdered(b: Ledger)
    requires Placed(b)
    ensures Ordered(b)
  {
  }

  /**
   Requests leave the queue in the order of send, and what is written is a block of
   consecutive sends in that order: each at most once.
   */
  lemma WireOrder(m: Mux)
    requires Reached(m)
    ensures Ordered(m.books)
  {
    ReachedInv(m);
    GoodParts(m.books, 0);
    PlacedIsOrdered(m.books);
  }

  lemma WireKeptByAct(m: Mux, tag: nat, resp: Response, v: Verdict)
    requires tag in m.books.table
    ensures Act(m, tag, resp, v).books.wire == m.books.wire
  {
  }

  lemma WireKeptBySettle(m: Mux, sorted: Sorted, outcome: Outcome)
    requires sorted.For? ==> sorted.tag in m.books.table
    ensures Settle(m, sorted, outcome).books.wire == m.books.wire
  {
    if sorted.For? {
      WireKeptByAct(m, sorted.tag, sorted.resp, Judge(m.books.table[sorted.tag].callback, sorted.resp, outcome));
    }
  }

  /** Only the posted handlers write, and each writes its own request. */
  lemma WireNext(m: Mux, step: Step)
    ensures Next(m, step).books.wire ==
      if step.RunPosted? && m.link.Open? && m.books.posted != [] then m.books.wire + [m.books.posted[0].serial]
      else m.books.wire
  {
    if step.Respond? {
      WireKeptBySettle(m, Sort(m.books.table, step.s), step.outcome);
    }
  }

  // ----- login -----

  predicate IsFirst(e: Event<Response, Error>, login: nat) {
    e.Answered? && e.req == Request(login, Login1) && HasChallenge(e.resp)
  }

  predicate IsSecond(e: Event<Response, Error>, login: nat) {
    e.Answered? && e.req.callback == Login2(login) && e.resp.kind == R.Normal
  }

  predicate FirstPassed(log: Log, login: nat) {
    exists i | 0 <= i < |log| :: IsFirst(log[i], login)
  }

  /** A challenge was received for the login, and after it a normal reply to its second stage. */
  predicate Passed(log: Log, login: nat) {
    exists i, j | 0 <= i < j < |log| :: IsFirst(log[i], login) && IsSecond(log[j], login)
  }

  predicate Success(e: Event<Response, Error>, login: nat) {
    e.LoginDone? && e.login == login && e.failure.None?
  }

  /** The login's handler has been told of success. */
  predicate Succeeded(log: Log, login: nat) {
    exists i | 0 <= i < |log| :: Success(log[i], login)
  }

  predicate StageOk(log: Log, r: Request) {
    r.callback.Login2? ==> FirstPassed(log, r.callback.login)
  }

  /** Second stages are only live after their first one was answered with a challenge. */
  ghost predicate Staged(b: Ledger) {
    forall r | IsLive(b, r) :: StageOk(b.log, r)
  }

  /** Being logged in, and success reported to a login's handler, have the history they need. */
  ghost predicate Proven(log: Log, loggedIn: bool) {
    && (loggedIn ==> exists login :: Passed(log, login))
    && (forall login: nat | Succeeded(log, login) :: loggedIn && Passed(log, login))
  }

  ghost predicate History(b: Ledger, loggedIn: bool) {
    Staged(b) && Proven(b.log, loggedIn)
  }

  lemma PassedGrows(log: Log, more: Log, login: nat)
    ensures FirstPassed(log, login) ==> FirstPassed(log + more, login)
    ensures Passed(log, login) ==> Passed(log + more, login)
  {
    var all := log + more;
    assert forall i | 0 <= i < |log| :: all[i] == log[i];
    if Passed(log, login) {
      var i, j :| 0 <= i < j < |log| && IsFirst(log[i], login) && IsSecond(log[j], login);
      assert IsFirst(all[i], login) && IsSecond(all[j], login);
    }
    if FirstPassed(log, login) {
      var i :| 0 <= i < |log| && IsFirst(log[i], login);
      assert IsFirst(all[i], login);
    }
  }

  lemma SuccessSplits(log: Log, more: Log, login: nat)
    requires Succeeded(log + more, login)
    ensures Succeeded(log, login) || Succeeded(more, login)
  {
    var all := log + more;
    var i :| 0 <= i < |all| && Success(all[i], login);
    if i < |log| {
      assert Success(log[i], login);
    } else {
      assert Success(more[i - |log|], login);
    }
  }

  lemma ProvenGrows(log: Log, more: Log, loggedIn: bool)
    requires Proven(log, loggedIn) && forall login: nat :: !Succeeded(more, login)
    ensures Proven(log + more, loggedIn)
  {
    forall login ensures Passed(log, login) ==> Passed(log + more, login) {
      PassedGrows(log, more, login);
    }
    forall login: nat | Succeeded(log + more, login) ensures Succeeded(log, login) {
      SuccessSplits(log, more, login);
    }
  }

  lemma NoSuccess(b: Ledger, move: Move<Response, Error>, login: nat)
    requires Enabled(b, move) && (move.Reply? ==> move.done != Some(None))
    ensures !Succeeded(MoveEvents(b, move), login)
  {
  }

  lemma StagedApply(b: Ledger, move: Move<Response, Error>)
    requires Placed(b) && Enabled(b, move) && Staged(b)
    requires move.PostNew? && move.callback.Login2? ==> FirstPassed(b.log, move.callback.login)
    ensures Staged(Apply(b, move))
  {
    var n := Apply(b, move);
    LogApply(b, move);
    forall r | IsLive(n, r) ensures StageOk(n.log, r) {
      LiveApply(b, move, r);
      if r.callback.Login2? {
        assert StageOk(b.log, r);
        PassedGrows(b.log, MoveEvents(b, move), r.callback.login);
      }
    }
  }

  /** A move that posts no second stage and reports no success. */
  lemma HistoryApply(b: Ledger, loggedIn: bool, move: Move<Response, Error>)
    requires Placed(b) && Enabled(b, move) && History(b, loggedIn)
    requires move.PostNew? && move.callback.Login2? ==> FirstPassed(b.log, move.callback.login)
    requires move.Reply? ==> move.done != Some(None)
    ensures History(Apply(b, move), loggedIn)
  {
    StagedApply(b, move);
    forall login: nat ensures !Succeeded(MoveEvents(b, move), login) {
      NoSuccess(b, move, login);
    }
    ProvenGrows(b.log, MoveEvents(b, move), loggedIn);
    LogApply(b, move);
  }

  lemma ProvenBySuccess(log: Log, more: Log, loggedIn: bool, login: nat)
    requires Proven(log, loggedIn) && FirstPassed(log, login)
    requires |more| > 0 && IsSecond(more[0], login)
    requires forall l: nat | Succeeded(more, l) :: l == login
    ensures Proven(log + more, true)
  {
    var all := log + more;
    var i :| 0 <= i < |log| && IsFirst(log[i], login);
    assert IsFirst(all[i], login) && IsSecond(all[|log|], login);
    assert Passed(all, login);
    forall l: nat | Succeeded(all, l) ensures Passed(all, l) {
      SuccessSplits(log, more, l);
      PassedGrows(log, more, l);
    }
  }

  /** A normal reply to a live second stage completes the login. */
  lemma HistorySuccess(b: Ledger, loggedIn: bool, tag: nat, resp: Response)
    requires Placed(b) && tag in b.table && !b.broken && History(b, loggedIn)
    requires b.table[tag].callback.Login2? && resp.kind == R.Normal
    ensures History(Replied(b, tag, resp, false, Some(None)), true)
  {
    var r := b.table[tag];
    var more := [Answered(r, resp, false)] + DoneEvents<Response, Error>(r, Some(None));
    assert EntryOk(b, tag) && IsLive(b, r);
    assert StageOk(b.log, r);
    assert Apply(b, Reply(tag, resp, false, Some(None))).log == b.log + more;
    StagedApply(b, Reply(tag, resp, false, Some(None)));
    ProvenBySuccess(b.log, more, loggedIn, r.callback.login);
  }

  lemma HistoryAnswers(b: Ledger, loggedIn: bool, tag: nat, resp: Response, keep: bool, done: Option<Option<Error>>)
    requires Placed(b) && tag in b.table && !b.broken && History(b, loggedIn)
    requires done == Some(None) ==> !keep && b.table[tag].callback.Login2? && resp.kind == R.Normal
    ensures History(Replied(b, tag, resp, keep, done), loggedIn || done == Some(None))
  {
    if done == Some(None) {
      HistorySuccess(b, loggedIn, tag, resp);
    } else {
      HistoryApply(b, loggedIn, Reply(tag, resp, keep, done));
    }
  }

  /** What is true of every judgement: a login only succeeds or goes on for a reason. */
  predicate Founded(callback: Callback, resp: Response, v: Verdict) {
    v.Answering? ==>
      && (v.done == Some(None) ==> !v.keep && callback.Login2? && resp.kind == R.Normal)
      && (v.goesOn ==> !v.keep && v.done == None && callback.Login1? && HasChallenge(resp))
  }

  lemma JudgedFounded(callback: Callback, resp: Response, outcome: Outcome)
    ensures Founded(callback, resp, Judge(callback, resp, outcome))
  {
  }

  lemma HistoryAnswering(m: Mux, tag: nat, resp: Response, v: Verdict)
    requires Placed(m.books) && tag in m.books.table && !m.books.broken && History(m.books, m.loggedIn)
    requires Founded(m.books.table[tag].callback, resp, v) && v.Answering?
    ensures var n := Act(m, tag, resp, v); History(n.books, n.loggedIn)
  {
    HistoryAnswers(m.books, m.loggedIn, tag, resp, v.keep, v.done);
    if v.goesOn {
      HistoryGoesOn(m.books, m.loggedIn, tag, resp);
    }
  }

  lemma HistoryAct(m: Mux, tag: nat, resp: Response, v: Verdict)
    requires Placed(m.books) && tag in m.books.table && !m.books.broken && History(m.books, m.loggedIn)
    requires Founded(m.books.table[tag].callback, resp, v)
    ensures var n := Act(m, tag, resp, v); History(n.books, n.loggedIn)
  {
    match v
    case Throwing(burns) =>
      HistoryBurns(m.books, m.loggedIn);
      HistoryThrows(if burns then Apply(m.books, Burn) else m.books, m.loggedIn, tag, resp);
    case Answering(_, _, _) => HistoryAnswering(m, tag, resp, v);
  }

  lemma HistoryThrows(b: Ledger, loggedIn: bool, tag: nat, resp: Response)
    requires Placed(b) && tag in b.table && !b.broken && History(b, loggedIn)
    ensures History(Apply(Thrown(b, tag, resp), Report(FatalResponse)), loggedIn)
  {
    PlacedApply(b, Throw(tag, resp));
    HistoryApply(b, loggedIn, Throw(tag, resp));
    HistoryApply(Thrown(b, tag, resp), loggedIn, Report(FatalResponse));
  }

  lemma HistoryBurns(b: Ledger, loggedIn: bool)
    requires Placed(b) && History(b, loggedIn)
    ensures Placed(Apply(b, Burn)) && History(Apply(b, Burn), loggedIn)
  {
    PlacedApply(b, Burn);
    HistoryApply(b, loggedIn, Burn);
  }

  lemma HistoryGoesOn(b: Ledger, loggedIn: bool, tag: nat, resp: Response)
    requires Placed(b) && tag in b.table && !b.broken && b.table[tag].callback.Login1? && HasChallenge(resp)
    requires History(Replied(b, tag, resp, false, None), loggedIn)
    ensures History(Apply(Replied(b, tag, resp, false, None), PostNew(Login2(b.table[tag].serial))), loggedIn)
  {
    var n := Replied(b, tag, resp, false, None);
    PlacedApply(b, Reply(tag, resp, false, None));
    assert IsFirst(n.log[|b.log|], b.table[tag].serial);
    HistoryApply(n, loggedIn, PostNew(Login2(b.table[tag].serial)));
  }

  lemma HistorySendNext(m: Mux)
    requires Placed(m.books) && LinkOk(m) && !m.link.Aborted? && History(m.books, m.loggedIn)
    ensures History(SendNext(m).books, m.loggedIn)
  {
    if m.books.posted != [] {
      if m.link.Open? {
        HistoryApply(m.books, m.loggedIn, Write);
      } else {
        HistoryApply(m.books, m.loggedIn, Refuse(NotConnected, m.link.NotOpened?));
      }
    }
  }

  lemma HistoryOnSent(m: Mux, serial: nat, failure: Option<Error>)
    requires Placed(m.books) && History(m.books, m.loggedIn)
    ensures History(OnSent(m, serial, failure).books, m.loggedIn)
  {
    if serial in m.books.inFlight {
      if m.link.Open? && failure.None? {
        HistoryApply(m.books, m.loggedIn, Enter(serial));
      } else {
        HistoryApply(m.books, m.loggedIn, WriteFailed(serial, if m.link.Open? then failure.value else NotConnected));
      }
    }
  }

  lemma HistoryDispatch(m: Mux, tag: nat, resp: Response, outcome: Outcome)
    requires Placed(m.books) && tag in m.books.table && !m.books.broken && History(m.books, m.loggedIn)
    ensures var n := Dispatch(m, tag, resp, outcome); History(n.books, n.loggedIn)
  {
    JudgedFounded(m.books.table[tag].callback, resp, outcome);
    HistoryAct(m, tag, resp, Judge(m.books.table[tag].callback, resp, outcome));
  }

  lemma HistorySettle(m: Mux, sorted: Sorted, outcome: Outcome)
    requires Inv(m) && m.link.Open? && History(m.books, m.loggedIn)
    requires sorted.For? ==> sorted.tag in m.books.table
    ensures var n := Settle(m, sorted, outcome); History(n.books, n.loggedIn)
  {
    GoodParts(m.books, 0);
    match sorted
    case For(tag, resp) =>
      HistoryDispatch(m, tag, resp, outcome);
    case Fault(err) => HistoryApply(m.books, m.loggedIn, Report(err));
    case _ =>
  }

  /** Steps that make, send, log in, or find an error. */
  lemma HistoryOther(m: Mux, step: Step)
    requires Placed(m.books) && History(m.books, m.loggedIn) && !m.link.Aborted?
    requires !step.RunPosted? && !step.SendDone? && !step.Respond?
    ensures var n := Next(m, step); History(n.books, n.loggedIn)
  {
    match step
    case MakeRequest => HistoryApply(m.books, m.loggedIn, MakeOne);
    case Send(serial) =>
      if serial in m.books.made {
        HistoryApply(m.books, m.loggedIn, SendMade(serial));
      }
    case Login => HistoryApply(m.books, m.loggedIn, PostNew(Login1));
    case ReadFailed(err) => HistoryApply(m.books, m.loggedIn, Report(err));
    case _ =>
  }

  lemma HistoryNext(m: Mux, step: Step)
    requires Inv(m) && History(m.books, m.loggedIn)
    ensures var n := Next(m, step); History(n.books, n.loggedIn)
  {
    GoodParts(m.books, 0);
    if !m.link.Aborted? {
      match step
      case RunPosted => HistorySendNext(m);
      case SendDone(serial, failure) => HistoryOnSent(m, serial, failure);
      case Respond(s, outcome) =>
        if m.link.Open? {
          HistorySettle(m, Sort(m.books.table, s), outcome);
        }
      case _ => HistoryOther(m, step);
    }
  }

  lemma {:induction false} HistoryRun(steps: seq<Step>)
    ensures History(Run(INITIAL, steps).books, Run(INITIAL, steps).loggedIn)
  {
    if steps != [] {
      var init := steps[..|steps| - 1];
      HistoryRun(init);
      RunIsReached(init);
      ReachedInv(Run(INITIAL, init));
      HistoryNext(Run(INITIAL, init), steps[|steps| - 1]);
    }
  }

  /**
   A connection counts as logged in only after a 32-octet challenge answered a first stage
   and then a normal reply answered the second stage of the same login; a login handler is
   told of success only then.
   */
  lemma LoginHistory(m: Mux)
    requires Reached(m)
    ensures m.loggedIn ==> exists login :: Passed(m.books.log, login)
    ensures forall login: nat | Succeeded(m.books.log, login) :: m.loggedIn && Passed(m.books.log, login)
  {
    var steps :| m == Run(INITIAL, steps);
    HistoryRun(steps);
  }

  /** The handler of a login is called at most once. */
  lemma LoginHandlerOnce(m: Mux, login: nat)
    requires Reached(m)
    ensures LoginEnds(m.books.log, login) <= 1
  {
    ReachedInv(m);
    GoodParts(m.books, login);
  }

  // ----- when tags wrap -----

  function MakeMany(k: nat): seq<Step> {
    if k == 0 then [] else MakeMany(k - 1) + [MakeRequest]
  }

  ghost function MadeMany(k: nat): Mux {
    INITIAL.(books := INITIAL.books.(acquired := k, made := map i: nat | i < k :: Request(i, User)))
  }

  lemma RunSnoc(m: Mux, steps: seq<Step>, step: Step)
    ensures Run(m, steps + [step]) == Next(Run(m, steps), step)
  {
    assert (steps + [step])[..|steps|] == steps;
  }

  lemma RunAppendOne(m: Mux, n: Mux, a: seq<Step>, b: seq<Step>, step: Step)
    requires Run(m, a) == Run(n, b)
    ensures Run(m, a + [step]) == Run(n, b + [step])
  {
    RunSnoc(m, a, step);
    RunSnoc(n, b, step);
  }

  lemma {:induction false} RunAppend(m: Mux, a: seq<Step>, b: seq<Step>)
    ensures Run(m, a + b) == Run(Run(m, a), b)
  {
    if b == [] {
      assert a + b == a;
    } else {
      var init, last := b[..|b| - 1], b[|b| - 1];
      RunAppend(m, a, init);
      RunAppendOne(m, Run(m, a), a + init, init, last);
      assert a + init + [last] == a + b && init + [last] == b;
    }
  }

  lemma RunOne(m: Mux, step: Step)
    ensures Run(m, [step]) == Next(m, step)
  {
    assert [step][..0] == [];
  }

  lemma Follows(steps: seq<Step>, m: Mux, step: Step, n: Mux)
    requires Run(INITIAL, steps) == m && Next(m, step) == n
    ensures Run(INITIAL, steps + [step]) == n
  {
    RunAppend(INITIAL, steps, [step]);
    RunOne(m, step);
  }

  lemma MakesOne(k: nat)
    ensures Next(MadeMany(k), MakeRequest) == MadeMany(k + 1)
  {
    var made, more := MadeMany(k).books.made, MadeMany(k + 1).books.made;
    assert made[k := Request(k, User)] == more;
  }

  lemma {:induction false} MakesMany(k: nat)
    ensures Run(INITIAL, MakeMany(k)) == MadeMany(k)
  {
    if k == 0 {
      assert MadeMany(0).books.made == map[];
    } else {
      MakesMany(k - 1);
      MakesOne(k - 1);
      Follows(MakeMany(k - 1), MadeMany(k - 1), MakeRequest, MadeMany(k));
    }
  }

  const FIRST := Request(0, User)
  const LATER := Request(TAG_LIMIT, User)

  /** The run in which the first and the (2^32+1)st request are sent ... */
  function SendingRun(): seq<Step> {
    MakeMany(TAG_LIMIT + 1) + [Connect] + [Send(0)] + [Send(TAG_LIMIT)]
  }

  /** ... and both get written. */
  function WrappingRun(): seq<Step> {
    SendingRun() + [RunPosted] + [RunPosted] + [SendDone(0, None)] + [SendDone(TAG_LIMIT, None)]
  }

  lemma SendsBoth(m: Mux)
    requires m.link.NotOpened? && m.books.posted == [] && m.books.sends == []
    requires 0 in m.books.made && m.books.made[0] == FIRST
    requires TAG_LIMIT in m.books.made && m.books.made[TAG_LIMIT] == LATER
    ensures Next(Next(Next(m, Connect), Send(0)), Send(TAG_LIMIT))
         == m.(link := Open, books := m.books.(made := m.books.made - {0} - {TAG_LIMIT},
                                               posted := [FIRST, LATER], sends := [0, TAG_LIMIT]))
  {
  }

  lemma WritesBoth(m: Mux)
    requires m.link.Open? && m.books.posted == [FIRST, LATER]
    requires m.books.taken == m.books.skipped == 0 && m.books.wire == [] && m.books.inFlight == map[]
    ensures Next(Next(m, RunPosted), RunPosted)
         == m.(books := m.books.(posted := [], taken := 2, wire := [0, TAG_LIMIT],
                                 inFlight := map[0 := FIRST, TAG_LIMIT := LATER]))
  {
  }

  lemma EntersOne(m: Mux)
    requires m.link.Open? && m.books.inFlight == map[0 := FIRST, TAG_LIMIT := LATER] && m.books.table == map[]
    ensures Next(Next(m, SendDone(0, None)), SendDone(TAG_LIMIT, None))
         == m.(books := m.books.(inFlight := map[], table := map[0 := FIRST], lost := m.books.lost + {TAG_LIMIT}))
  {
    assert Tag(TAG_LIMIT) == Tag(0) == 0;
    assert m.books.inFlight - {0} == map[TAG_LIMIT := LATER];
    assert map[TAG_LIMIT := LATER] - {TAG_LIMIT} == map[];
  }

  /** After 2^32 tags a write can complete on an occupied tag: the later request is lost, its callback never called. */
  lemma WrappedTagLosesRequest()
    ensures var b := Run(INITIAL, WrappingRun()).books;
      TAG_LIMIT in b.sends && Places(b, TAG_LIMIT) == 0 && Tag(TAG_LIMIT) == Tag(0) && IsRegistered(b, 0)
  {
    var made := MakeMany(TAG_LIMIT + 1);
    MakesMany(TAG_LIMIT + 1);
    var m0 := MadeMany(TAG_LIMIT + 1);
    var m1 := Next(m0, Connect);
    var m2 := Next(m1, Send(0));
    var m3 := Next(m2, Send(TAG_LIMIT));
    Follows(made, m0, Connect, m1);
    Follows(made + [Connect], m1, Send(0), m2);
    Follows(made + [Connect] + [Send(0)], m2, Send(TAG_LIMIT), m3);
    SendsBoth(m0);
    RestOfWrap(SendingRun(), m3);
  }

  lemma RestOfWrap(s: seq<Step>, m3: Mux)
    requires Run(INITIAL, s) == m3
    requires m3.link.Open? && m3.books.posted == [FIRST, LATER] && m3.books.sends == [0, TAG_LIMIT]
    requires m3.books.taken == m3.books.skipped == 0 && m3.books.wire == [] && m3.books.log == []
    requires m3.books.inFlight == map[] && m3.books.table == map[]
    ensures var steps := s + [RunPosted] + [RunPosted] + [SendDone(0, None)] + [SendDone(TAG_LIMIT, None)];
      var b := Run(INITIAL, steps).books;
      TAG_LIMIT in b.sends && Places(b, TAG_LIMIT) == 0 && Tag(TAG_LIMIT) == Tag(0) && IsRegistered(b, 0)
  {
    var m4 := Next(m3, RunPosted);
    var m5 := Next(m4, RunPosted);
    var m6 := Next(m5, SendDone(0, None));
    var m7 := Next(m6, SendDone(TAG_LIMIT, None));
    Follows(s, m3, RunPosted, m4);
    Follows(s + [RunPosted], m4, RunPosted, m5);
    Follows(s + [RunPosted] + [RunPosted], m5, SendDone(0, None), m6);
    Follows(s + [RunPosted] + [RunPosted] + [SendDone(0, None)], m6, SendDone(TAG_LIMIT, None), m7);
    WritesBoth(m3);
    EntersOne(m5);
  }
}
