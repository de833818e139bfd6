/** The calls of a request's callback over a run are what its answers and errors make them. */
module CallTraces {
  import opened Options
  import opened Requests
  import opened Multiplexer
  import opened MultiplexerSteps
  import SessionLink
  import Runs = MultiplexerRuns
  import Hex
  import Grouping
  import L = Repository

  lemma {:induction false} CallsAppend(a: seq<Happening>, b: seq<Happening>, serial: nat)
    ensures CallsOf(a + b, serial) == CallsOf(a, serial) + CallsOf(b, serial)
    decreases |b|
  {
    if b == [] {
      assert a + b == a;
    } else {
      var init, last := b[..|b| - 1], [b[|b| - 1]];
      assert b == init + last;
      Grouping.Reassociate(a, init, last);
      CallsAppend(a, init, serial);
      CallsSnoc(a + init, last[0], serial);
      CallsSnoc(init, last[0], serial);
      Grouping.Reassociate(CallsOf(a, serial), CallsOf(init, serial), CallOf(last[0], serial));
    }
  }

  lemma CallsOfOne(e: Happening, serial: nat)
    ensures CallsOf([e], serial) == CallOf(e, serial)
  {
    assert [e][..0] == [];
  }

  lemma CallsOfTwo(e: Happening, f: Happening, serial: nat)
    ensures CallsOf([e, f], serial) == CallOf(e, serial) + CallOf(f, serial)
  {
    CallsSnoc([e], f, serial);
    CallsOfOne(e, serial);
    assert [e] + [f] == [e, f];
  }

  /** What the callback of a request that a reply reaches does with it. */
  function AnswerTo(r: Request, resp: Response, outcome: Outcome): Call {
    match r.callback
    case User => if outcome.Throws? then CallRaise else CallReply(outcome.keep)
    case Login1 => if Challenges(resp) && !Hex.AllHex(resp.params[RET]) then CallRaise else CallReply(false)
    case Login2(_) => CallReply(false)
  }

  /** What a step calls the callback of a request with. */
  function CallIn(m: Mux, step: Step, serial: nat): seq<Call> {
    match step
    case RunPosted =>
      if m.books.posted != [] && m.books.posted[0].serial == serial && !m.link.Open? && !m.link.Aborted?
      then [CallError] else []
    case SendDone(written, failure) =>
      if written in m.books.inFlight && m.books.inFlight[written].serial == serial && !m.link.Aborted?
         && (failure.Some? || !m.link.Open?)
      then [CallError] else []
    case Respond(s, outcome) =>
      (match Sort(m.books.table, s)
       case For(tag, resp) =>
         if m.link.Open? && m.books.table[tag].serial == serial
         then [AnswerTo(m.books.table[tag], resp, outcome)] else []
       case _ => [])
    case _ => []
  }

  lemma ErrorIsOneCall(r: Request, err: Error, serial: nat)
    ensures CallsOf(Requests.ErrorEvents<Response, Error>(r, err), serial)
         == if r.serial == serial then [CallError] else []
  {
    CallsAfterError<Response, Error>([], r, err, serial);
    assert [] + Requests.ErrorEvents<Response, Error>(r, err) == Requests.ErrorEvents<Response, Error>(r, err);
  }

  lemma VerdictIsOneCall(r: Request, resp: Response, outcome: Outcome, serial: nat)
    ensures CallsOf(SessionLink.VerdictCalls(r, resp, Judge(r.callback, resp, outcome)), serial)
         == if r.serial == serial then [AnswerTo(r, resp, outcome)] else []
  {
    assert HasChallenge(resp) == Challenges(resp);
    match Judge(r.callback, resp, outcome)
    case Throwing(_) => CallsOfTwo(Raised(r, resp), Reported(FatalResponse), serial);
    case Answering(keep, done, _) =>
      CallsAfterReply<Response, Error>([], r, resp, keep, done, serial);
      var all := [Answered(r, resp, keep)] + DoneEvents<Response, Error>(r, done);
      assert [] + [Answered(r, resp, keep)] + DoneEvents<Response, Error>(r, done) == all;
  }

  lemma StepIsItsCall(m: Mux, step: Step, serial: nat)
    requires !m.link.Aborted?
    ensures CallsOf(SessionLink.StepCalls(m, step), serial) == CallIn(m, step, serial)
  {
    match step
    case RunPosted =>
      if m.books.posted != [] {
        ErrorIsOneCall(m.books.posted[0], NotConnected, serial);
      }
    case SendDone(written, failure) =>
      if written in m.books.inFlight {
        var err := if m.link.Open? && failure.Some? then failure.value else NotConnected;
        ErrorIsOneCall(m.books.inFlight[written], err, serial);
      }
    case Respond(s, outcome) =>
      match Sort(m.books.table, s) {
        case For(tag, resp) => VerdictIsOneCall(m.books.table[tag], resp, outcome, serial);
        case Fault(err) => CallsOfOne(Reported(err), serial);
        case _ =>
      }
    case ReadFailed(err) => CallsOfOne(Reported(err), serial);
    case _ =>
  }

  lemma NextCalls(m: Mux, step: Step, serial: nat)
    ensures CallsOf(Next(m, step).books.log, serial)
         == CallsOf(m.books.log, serial) + if m.link.Aborted? then [] else CallIn(m, step, serial)
  {
    if !m.link.Aborted? {
      SessionLink.NextLog(m, step);
      CallsAppend(m.books.log, SessionLink.StepCalls(m, step), serial);
      StepIsItsCall(m, step, serial);
    }
  }

  /** All that the steps of a run call the callback of a request with. */
  function CallsIn(steps: seq<Step>, serial: nat): seq<Call> {
    if steps == [] then []
    else
      var m := Run(INITIAL, steps[..|steps| - 1]);
      CallsIn(steps[..|steps| - 1], serial) + if m.link.Aborted? then [] else CallIn(m, steps[|steps| - 1], serial)
  }

  /**
   In every run the calls of a callback are, in order, its own answers to the replies that reached
   it, and the errors of its write: none is left out, added or changed.
   */
  lemma {:induction false} CallsAreAnswers(steps: seq<Step>, serial: nat)
    ensures CallsOf(Run(INITIAL, steps).books.log, serial) == CallsIn(steps, serial)
  {
    if steps != [] {
      var init := steps[..|steps| - 1];
      CallsAreAnswers(init, serial);
      NextCalls(Run(INITIAL, init), steps[|steps| - 1], serial);
    }
  }

  // ----- loads -----

  /** When a reply of this step reaches the request, its callback answers as that of a load does. */
  ghost predicate AnswersAsLoad<T>(create: L.Create<T>, m: Mux, step: Step, serial: nat) {
    step.Respond? && m.link.Open? ==>
      var sorted := Sort(m.books.table, step.s);
      sorted.For? && m.books.table[sorted.tag].serial == serial ==>
        m.books.table[sorted.tag].callback.User? && IsWish(L.WishOf(create, L.Gets(sorted.resp)), step.outcome)
  }

  predicate IsWish(wish: L.Wish, outcome: Outcome) {
    match wish
    case More => outcome.Returns? && outcome.keep
    case NoMore => outcome.Returns? && !outcome.keep
    case Threw => outcome.Throws?
  }

  lemma StepIsLoad<T>(create: L.Create<T>, m: Mux, step: Step, serial: nat)
    requires AnswersAsLoad(create, m, step, serial)
    ensures forall e <- SessionLink.StepCalls(m, step) :: L.Loads(create, e, serial)
  {
    match step
    case Respond(s, outcome) =>
      var sorted := Sort(m.books.table, s);
      if m.link.Open? && sorted.For? {
        var r := m.books.table[sorted.tag];
        assert r.callback.User? || r.serial != serial;
      }
    case _ =>
  }

  lemma {:induction false} RunIsLoad<T>(create: L.Create<T>, steps: seq<Step>, serial: nat)
    requires forall i | 0 <= i < |steps| :: AnswersAsLoad(create, Run(INITIAL, steps[..i]), steps[i], serial)
    ensures L.IsLoad(create, Run(INITIAL, steps).books.log, serial)
  {
    if steps != [] {
      var init := steps[..|steps| - 1];
      var m := Run(INITIAL, init);
      assert forall i | 0 <= i < |init| :: init[..i] == steps[..i] && init[i] == steps[i];
      RunIsLoad(create, init, serial);
      assert AnswersAsLoad(create, Run(INITIAL, steps[..|steps| - 1]), steps[|steps| - 1], serial);
      if !m.link.Aborted? {
        SessionLink.NextLog(m, steps[|steps| - 1]);
        StepIsLoad(create, m, steps[|steps| - 1], serial);
      }
    }
  }

  /**
   In every run in which a request's callback answers as a load does, the two ways of loading
   agree on the replies that reach it, and none reaches it after the one that ends the list.
   */
  lemma LoadsAgreeOnAnswers<T>(create: L.Create<T>, steps: seq<Step>, serial: nat)
    requires forall i | 0 <= i < |steps| :: AnswersAsLoad(create, Run(INITIAL, steps[..i]), steps[i], serial)
    ensures var calls := L.CallsIn(Run(INITIAL, steps).books.log, serial);
      L.Proper(create, calls) && L.Agree(L.Stream(create, calls), L.Collect(create, calls))
  {
    RunIsLoad(create, steps, serial);
    Runs.RunIsReached(steps);
    L.LoadsAgreeOnRuns(create, Run(INITIAL, steps), serial);
  }
}
