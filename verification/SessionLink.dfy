/** What a session notices of its connection: reported errors, and the end of its login. */
module SessionLink {
  import opened Options
  import opened Requests
  import M = Multiplexer

  type Happening = Event<M.Response, M.Error>

  /** The steps of a connection that a session leaves to it; nobody but a session closes it. */
  predicate Allowed(step: M.Step) {
    match step
    case Respond(_, outcome) => outcome.Returns? ==> !outcome.closes
    case _ => step.Send? || step.RunPosted? || step.SendDone? || step.ReadFailed? || step.Abort?
  }

  // ----- the calls that a step makes -----

  function VerdictCalls(r: Request, resp: M.Response, v: M.Verdict): seq<Happening> {
    match v
    case Throwing(_) => [Raised(r, resp), Reported(M.FatalResponse)]
    case Answering(keep, done, _) => [Answered(r, resp, keep)] + DoneEvents(r, done)
  }

  function SettleCalls(m: M.Mux, sorted: M.Sorted, outcome: M.Outcome): seq<Happening>
    requires sorted.For? ==> sorted.tag in m.books.table
  {
    match sorted
    case Fault(err) => [Reported(err)]
    case For(tag, resp) => VerdictCalls(m.books.table[tag], resp, M.Judge(m.books.table[tag].callback, resp, outcome))
    case _ => []
  }

  function WriteCalls(m: M.Mux, serial: nat, failure: Option<M.Error>): seq<Happening> {
    if serial !in m.books.inFlight then []
    else if !m.link.Open? then ErrorEvents(m.books.inFlight[serial], M.NotConnected)
    else if failure.Some? then ErrorEvents(m.books.inFlight[serial], failure.value)
    else []
  }

  function StepCalls(m: M.Mux, step: M.Step): seq<Happening> {
    match step
    case RunPosted =>
      if m.books.posted == [] || m.link.Open? then [] else ErrorEvents(m.books.posted[0], M.NotConnected)
    case SendDone(serial, failure) => WriteCalls(m, serial, failure)
    case Respond(s, outcome) => if m.link.Open? then SettleCalls(m, M.Sort(m.books.table, s), outcome) else []
    case ReadFailed(err) => if m.link.Open? then [Reported(err)] else []
    case _ => []
  }

  lemma ActLog(m: M.Mux, tag: nat, resp: M.Response, v: M.Verdict)
    requires tag in m.books.table
    ensures M.Act(m, tag, resp, v).books.log == m.books.log + VerdictCalls(m.books.table[tag], resp, v)
  {
  }

  lemma SettleLog(m: M.Mux, sorted: M.Sorted, outcome: M.Outcome)
    requires sorted.For? ==> sorted.tag in m.books.table
    ensures M.Settle(m, sorted, outcome).books.log == m.books.log + SettleCalls(m, sorted, outcome)
  {
    match sorted
    case For(tag, resp) => ActLog(m, tag, resp, M.Judge(m.books.table[tag].callback, resp, outcome));
    case _ =>
  }

  lemma OnSentLog(m: M.Mux, serial: nat, failure: Option<M.Error>)
    ensures M.OnSent(m, serial, failure).books.log == m.books.log + WriteCalls(m, serial, failure)
  {
  }

  lemma NextLog(m: M.Mux, step: M.Step)
    requires !m.link.Aborted?
    ensures M.Next(m, step).books.log == m.books.log + StepCalls(m, step)
  {
    match step
    case SendDone(serial, failure) => OnSentLog(m, serial, failure);
    case Respond(s, outcome) =>
      if m.link.Open? {
        SettleLog(m, M.Sort(m.books.table, s), outcome);
      }
    case _ =>
  }

  /** Calls are only ever added. */
  lemma LogGrows(m: M.Mux, step: M.Step)
    ensures m.books.log <= M.Next(m, step).books.log
  {
    if !m.link.Aborted? {
      NextLog(m, step);
    }
  }

  /** The calls that a step has made. */
  function Fresh(m: M.Mux, step: M.Step): seq<Happening> {
    LogGrows(m, step);
    M.Next(m, step).books.log[|m.books.log|..]
  }

  lemma FreshCalls(m: M.Mux, step: M.Step)
    ensures Fresh(m, step) == if m.link.Aborted? then [] else StepCalls(m, step)
    ensures M.Next(m, step).books.log == m.books.log + Fresh(m, step)
  {
    if !m.link.Aborted? {
      NextLog(m, step);
    }
  }

  /** The calls that reach the session. */
  predicate Concerns(e: Happening) {
    e.Reported? || e.LoginDone?
  }

  ghost predicate OnlyLast(es: seq<Happening>) {
    forall i | 0 <= i < |es| && Concerns(es[i]) :: i == |es| - 1
  }

  /** A session is only told one thing at a time. */
  lemma OnlyLastConcerns(m: M.Mux, step: M.Step)
    ensures OnlyLast(Fresh(m, step))
  {
    FreshCalls(m, step);
  }

  // ----- whose logins there are -----

  predicate Whose(r: Request, who: Option<nat>) {
    r.Login().None? || r.Login() == who
  }

  predicate Spoken(e: Happening, who: Option<nat>) {
    e.LoginDone? ==> who == Some(e.login)
  }

  /** No login but `who` has requests anywhere. */
  ghost predicate Waiting(b: M.Ledger, who: Option<nat>) {
    && (forall n <- b.made :: Whose(b.made[n], who))
    && (forall r <- b.posted :: Whose(r, who))
    && (forall n <- b.inFlight :: Whose(b.inFlight[n], who))
    && (forall t <- b.table :: Whose(b.table[t], who))
  }

  ghost predicate AllSpoken(es: seq<Happening>, who: Option<nat>) {
    forall i | 0 <= i < |es| :: Spoken(es[i], who)
  }

  lemma WaitingAct(m: M.Mux, tag: nat, resp: M.Response, v: M.Verdict, who: Option<nat>)
    requires tag in m.books.table && Waiting(m.books, who)
    requires v.Answering? && v.goesOn ==> m.books.table[tag].callback.Login1?
    ensures Waiting(M.Act(m, tag, resp, v).books, who)
  {
    assert Whose(m.books.table[tag], who);
  }

  lemma WaitingWritten(b: M.Ledger, who: Option<nat>)
    requires Waiting(b, who) && b.posted != []
    ensures Waiting(Written(b), who)
  {
    assert Whose(b.posted[0], who);
  }

  lemma WaitingRefused(b: M.Ledger, early: bool, who: Option<nat>)
    requires Waiting(b, who) && b.posted != []
    ensures Waiting(Refused(b, M.NotConnected, early), who)
  {
    assert forall r <- b.posted[1..] :: r in b.posted;
  }

  lemma WaitingEntered(b: M.Ledger, serial: nat, who: Option<nat>)
    requires Waiting(b, who) && serial in b.inFlight
    ensures Waiting(Entered(b, serial), who)
  {
    assert Whose(b.inFlight[serial], who);
  }

  lemma WaitingWrite(m: M.Mux, who: Option<nat>)
    requires Waiting(m.books, who)
    ensures Waiting(M.SendNext(m).books, who)
  {
    if m.books.posted != [] {
      WaitingWritten(m.books, who);
      WaitingRefused(m.books, m.link.NotOpened?, who);
    }
  }

  lemma WaitingOnSent(m: M.Mux, serial: nat, failure: Option<M.Error>, who: Option<nat>)
    requires Waiting(m.books, who)
    ensures Waiting(M.OnSent(m, serial, failure).books, who)
  {
    if serial in m.books.inFlight {
      WaitingEntered(m.books, serial, who);
    }
  }

  lemma WaitingNext(m: M.Mux, step: M.Step, who: Option<nat>)
    requires Waiting(m.books, who) && (Allowed(step) || step.MakeRequest? || step.Close?)
    ensures Waiting(M.Next(m, step).books, who)
  {
    match step
    case RunPosted => WaitingWrite(m, who);
    case SendDone(serial, failure) => WaitingOnSent(m, serial, failure, who);
    case Respond(s, outcome) =>
      var sorted := M.Sort(m.books.table, s);
      if m.link.Open? && sorted.For? {
        WaitingAct(m, sorted.tag, sorted.resp, M.Judge(m.books.table[sorted.tag].callback, sorted.resp, outcome), who);
      }
    case _ =>
  }

  lemma FreshSpoken(m: M.Mux, step: M.Step, who: Option<nat>)
    requires Waiting(m.books, who)
    ensures AllSpoken(Fresh(m, step), who)
  {
    FreshCalls(m, step);
    match step
    case RunPosted => assert m.books.posted != [] ==> m.books.posted[0] in m.books.posted;
    case SendDone(serial, _) => assert serial in m.books.inFlight ==> Whose(m.books.inFlight[serial], who);
    case Respond(s, _) =>
      var sorted := M.Sort(m.books.table, s);
      assert sorted.For? ==> Whose(m.books.table[sorted.tag], who);
    case _ =>
  }

  // ----- what the notices say about the connection -----

  predicate IsSuccess(e: Happening) {
    e.LoginDone? && e.failure.None?
  }

  /** An error is reported when the connection has been closed. */
  lemma ReportedMeansClosed(m: M.Mux, step: M.Step, e: Happening)
    requires e in Fresh(m, step) && e.Reported?
    ensures !M.Next(m, step).link.Open?
  {
    FreshCalls(m, step);
  }

  lemma SettleSucceeds(m: M.Mux, sorted: M.Sorted, outcome: M.Outcome, e: Happening)
    requires m.link.Open? && (sorted.For? ==> sorted.tag in m.books.table) && (outcome.Returns? ==> !outcome.closes)
    requires e in SettleCalls(m, sorted, outcome) && IsSuccess(e)
    ensures M.Settle(m, sorted, outcome).link.Open? && M.Settle(m, sorted, outcome).loggedIn
  {
  }

  /** A login's success is reported when the connection is open and logged in. */
  lemma SuccessMeansReady(m: M.Mux, step: M.Step, e: Happening)
    requires Allowed(step) && e in Fresh(m, step) && IsSuccess(e)
    ensures M.Next(m, step).link.Open? && M.Next(m, step).loggedIn
  {
    FreshCalls(m, step);
    match step
    case Respond(s, outcome) => SettleSucceeds(m, M.Sort(m.books.table, s), outcome, e);
    case _ =>
  }

  lemma SettleLogsIn(m: M.Mux, sorted: M.Sorted, outcome: M.Outcome)
    requires sorted.For? ==> sorted.tag in m.books.table
    ensures var es := SettleCalls(m, sorted, outcome);
      M.Settle(m, sorted, outcome).loggedIn ==> m.loggedIn || (es != [] && IsSuccess(es[|es| - 1]))
  {
  }

  /** A connection comes to be logged in only with a step that reports the success of a login. */
  lemma LoggedInBySuccess(m: M.Mux, step: M.Step)
    requires M.Next(m, step).loggedIn
    ensures m.loggedIn || (Fresh(m, step) != [] && IsSuccess(Fresh(m, step)[|Fresh(m, step)| - 1]))
  {
    if !m.loggedIn {
      FreshCalls(m, step);
      SettleLogsIn(m, M.Sort(m.books.table, step.s), step.outcome);
    }
  }

  lemma {:induction false} EndsSplit(a: seq<Happening>, b: seq<Happening>, login: nat)
    ensures LoginEnds(a + b, login) == LoginEnds(a, login) + LoginEnds(b, login)
  {
    if b == [] {
      assert a + b == a;
    } else {
      var init, last := b[..|b| - 1], b[|b| - 1];
      EndsSplit(a, init, login);
      EndsSnoc(a + init, last, login);
      assert a + init + [last] == a + b;
    }
  }

  lemma FreshEnds(m: M.Mux, step: M.Step, login: nat)
    ensures LoginEnds(M.Next(m, step).books.log, login)
         == LoginEnds(m.books.log, login) + LoginEnds(Fresh(m, step), login)
  {
    FreshCalls(m, step);
    EndsSplit(m.books.log, Fresh(m, step), login);
  }

  // ----- connections that have nothing more to say -----

  /** No notice can come any more: the connection is not open and no login waits to be sent or written. */
  ghost predicate Mute(m: M.Mux) {
    || m.link.Aborted?
    || (!m.link.Open? && (forall r <- m.books.posted :: r.Login().None?)
        && (forall n <- m.books.inFlight :: m.books.inFlight[n].Login().None?))
  }

  ghost predicate MadeByUsers(b: M.Ledger) {
    forall n <- b.made :: b.made[n].Login().None?
  }

  lemma MuteNext(m: M.Mux, step: M.Step)
    requires Mute(m) && MadeByUsers(m.books) && (Allowed(step) || step.MakeRequest? || step.Close?)
    ensures Mute(M.Next(m, step)) && !M.Next(m, step).link.Open?
    ensures forall i | 0 <= i < |Fresh(m, step)| :: !Concerns(Fresh(m, step)[i])
  {
    FreshCalls(m, step);
  }

  lemma SettleEnds(m: M.Mux, sorted: M.Sorted, outcome: M.Outcome)
    requires m.link.Open? && (outcome.Returns? ==> !outcome.closes)
    requires sorted.For? ==> sorted.tag in m.books.table
    ensures var n, es := M.Settle(m, sorted, outcome), SettleCalls(m, sorted, outcome);
      !n.link.Open? ==> (n.link.Aborted? <==> !(es != [] && es[|es| - 1].Reported?))
  {
  }

  /** A step that ends an open connection reports an error unless it completes a write, or aborts. */
  lemma EndIsReportedUnless(m: M.Mux, step: M.Step)
    requires m.link.Open? && Allowed(step) && !M.Next(m, step).link.Open?
    ensures var es := Fresh(m, step);
      (es != [] && es[|es| - 1].Reported?) <==> !(step.SendDone? || M.Next(m, step).link.Aborted?)
  {
    FreshCalls(m, step);
    match step
    case Respond(s, outcome) => SettleEnds(m, M.Sort(m.books.table, s), outcome);
    case _ =>
  }
}
