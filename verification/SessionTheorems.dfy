/** What clients can rely on, and what only holds when an id is not used again too early. */
module SessionTheorems {
  import opened Options
  import opened Requests
  import opened SessionLink
  import opened Sessions
  import opened SessionRuns
  import M = Multiplexer
  import Runs = MultiplexerRuns

  // ----- every run -----

  /** Open callbacks are called at most once, and so are close callbacks, after a successful open. */
  lemma CallbacksOnce(st: Service, ref: nat)
    requires Reached(st)
    ensures OpenCount(st.log, ref) <= 1 && CloseCount(st.log, ref) <= 1
    ensures forall i | 0 <= i < |st.log| && st.log[i].Closed? && st.log[i].ref == ref :: WasOpened(st.log[..i], ref)
  {
    ReachedInv(st);
    assert OpenCount(st.log, ref) <= OpenLimit(st, ref) && CloseCount(st.log, ref) <= CloseLimit(st, ref);
    if ref < |st.objects| {
      assert SessionOk(st.objects[ref]);
      Runs.LoginHandlerOnce(st.objects[ref].mux, 0);
    }
    forall i | 0 <= i < |st.log| && st.log[i].Closed? && st.log[i].ref == ref ensures WasOpened(st.log[..i], ref) {
      assert NoteOk(st.log, i);
    }
  }

  /** Commands run against ready sessions only, whose login has gone through both of its stages. */
  lemma CommandsNeedLogin(st: Service, id: nat)
    requires Keyed(st) && Reached(st)
    ensures !HasReady(st, id) ==> Execute(st, id) == st
    ensures HasReady(st, id) ==>
      var s := st.objects[st.table[id]];
      && s.id == id && Execute(st, id).log == st.log + [Executed(st.table[id], true)]
      && exists login :: Runs.Passed(s.mux.books.log, login)
  {
    ReachedInv(st);
    if HasReady(st, id) {
      assert SessionOk(st.objects[st.table[id]]);
      Runs.LoginHistory(st.objects[st.table[id]].mux);
    }
  }

  lemma {:induction false} RunAppend(st: Service, a: seq<Step>, b: seq<Step>)
    requires Keyed(st)
    ensures Run(st, a + b) == Run(Run(st, a), b)
  {
    if b == [] {
      assert a + b == a;
    } else {
      RunAppend(st, a, b[..|b| - 1]);
      InitOfAppend(a, b);
    }
  }

  lemma InitOfAppend<T>(a: seq<T>, b: seq<T>)
    requires b != []
    ensures (a + b)[..|a + b| - 1] == a + b[..|b| - 1]
    ensures a + b != [] && (a + b)[|a + b| - 1] == b[|b| - 1]
  {
  }

  lemma RunOne(st: Service, step: Step)
    requires Keyed(st)
    ensures Run(st, [step]) == Next(st, step)
  {
    assert [step][..0] == [];
  }

  /** Only an open step puts an id into the table. */
  lemma OnlyOpenAdds(st: Service, step: Step, id: nat)
    requires Keyed(st) && id !in st.table && step != Open(id)
    ensures id !in Next(st, step).table
  {
    match step
    case Api(ref, step) =>
      if ref < |st.objects| && !st.objects[ref].phase.Connecting? && Allowed(step) {
        TableShrinks(st, ref, step);
      }
    case Connected(ref, failure) =>
      if ref < |st.objects| && st.objects[ref].phase.Connecting? {
        ConnectShrinks(st, ref, failure);
      }
    case _ =>
  }

  lemma ConnectShrinks(st: Service, ref: nat, failure: Option<M.Error>)
    requires Keyed(st) && ref < |st.objects|
    ensures Connect(st, ref, failure).table.Keys <= st.table.Keys
  {
  }

  lemma {:induction false} StaysAway(st: Service, steps: seq<Step>, id: nat)
    requires Keyed(st) && id !in st.table && Open(id) !in steps
    ensures id !in Run(st, steps).table
  {
    if steps != [] {
      StaysAway(st, steps[..|steps| - 1], id);
      OnlyOpenAdds(Run(st, steps[..|steps| - 1]), steps[|steps| - 1], id);
    }
  }

  /** A client that has disconnected, and sends no more, never has a session again. */
  lemma GoneForGood(before: seq<Step>, id: nat, after: seq<Step>)
    requires Open(id) !in after
    ensures id !in Run(NO_SESSIONS, before + [Disconnected(id)] + after).table
  {
    var st := Run(NO_SESSIONS, before);
    RunAppend(NO_SESSIONS, before, [Disconnected(id)]);
    RunOne(st, Disconnected(id));
    RunAppend(NO_SESSIONS, before + [Disconnected(id)], after);
    StaysAway(Next(st, Disconnected(id)), after, id);
  }

  // ----- sessions that are over -----

  /** The session will not call the service any more. */
  ghost predicate Done(s: Session) {
    !s.phase.Connecting? && Mute(s.mux)
  }

  lemma DoneStep(s: Session, step: M.Step)
    requires SessionOk(s) && Done(s) && Harmless(step)
    ensures Done(Moved(s, step)) && !Moved(s, step).Ready()
    ensures Fresh(s.mux, step) != [] ==> !Concerns(Fresh(s.mux, step)[|Fresh(s.mux, step)| - 1])
  {
    ReachedOn(s.mux, step);
    MuteNext(s.mux, step);
  }

  /** All sessions of an id are over but, perhaps, the one in the table. */
  ghost predicate OthersDone(st: Service, id: nat) {
    forall ref: nat | ref < |st.objects| && st.objects[ref].id == id && !IsEntry(st, ref) :: Done(st.objects[ref])
  }

  /** An id is opened again only when its earlier sessions are over. */
  ghost predicate Careful(st: Service, step: Step) {
    step.Open? && step.id !in st.table ==> OthersDone(st, step.id)
  }

  ghost predicate CarefulRun(steps: seq<Step>) {
    forall i | 0 <= i < |steps| :: Careful(Run(NO_SESSIONS, steps[..i]), steps[i])
  }

  /** Callbacks that are as they should be. */
  predicate Clean(e: Note) {
    match e
    case Opened(_, failure, entry, ready) => failure.None? ==> entry && ready
    case Closed(_, cause) => cause.ClientLost?
    case _ => true
  }

  ghost predicate AllClean(log: seq<Note>) {
    forall e <- log :: Clean(e)
  }

  ghost predicate Tidy(st: Service)
    requires Keyed(st)
  {
    Inv(st) && AllClean(st.log) && forall id <- st.table :: OthersDone(st, id)
  }

  /** An update that does not bring a session back to life. */
  lemma TidyUpdate(st: Service, ref: nat, s: Session, id: nat)
    requires Keyed(st) && ref < |st.objects| && s.id == st.objects[ref].id
    requires OthersDone(st, id) && (Done(st.objects[ref]) ==> Done(s))
    ensures OthersDone(Update(st, ref, s), id)
  {
    var n := Update(st, ref, s);
    forall r: nat | r < |n.objects| && n.objects[r].id == id && !IsEntry(n, r) ensures Done(n.objects[r]) {
      assert st.objects[r].id == id && !IsEntry(st, r);
      assert Done(st.objects[r]);
    }
  }

  lemma TidyClose(st: Service, id: nat, cause: Cause, other: nat)
    requires Keyed(st) && OthersDone(st, other) && other in CloseIfThere(st, id, cause).table
    ensures OthersDone(CloseIfThere(st, id, cause), other)
  {
    var n := CloseIfThere(st, id, cause);
    forall r: nat | r < |n.objects| && n.objects[r].id == other && !IsEntry(n, r) ensures Done(n.objects[r]) {
      assert !IsEntry(st, r);
    }
  }

  lemma TidyCreate(st: Service, id: nat, other: nat)
    requires Keyed(st) && id !in st.table && OthersDone(st, other)
    ensures OthersDone(Create(st, id), other)
  {
    var n := Create(st, id);
    forall r: nat | r < |n.objects| && n.objects[r].id == other && !IsEntry(n, r) ensures Done(n.objects[r]) {
      if r < |st.objects| {
        assert !IsEntry(st, r);
      } else {
        assert IsEntry(n, r);
      }
    }
  }

  /** When an id's session has something to say, it is the one in the table, if there is one. */
  lemma SpeakerIsEntry(st: Service, ref: nat)
    requires Keyed(st) && Tidy(st) && ref < |st.objects| && !Done(st.objects[ref]) && st.objects[ref].id in st.table
    ensures IsEntry(st, ref)
  {
    assert OthersDone(st, st.objects[ref].id);
  }

  /** An entry that is closed while it is not ready leaves no trace. */
  lemma SilentClose(st: Service, id: nat, cause: Cause)
    requires Keyed(st) && (id in st.table ==> !st.objects[st.table[id]].Ready())
    ensures CloseIfThere(st, id, cause).log == st.log
  {
  }

  lemma TidyReact(st: Service, ref: nat, s: Session, e: Happening)
    requires Keyed(st) && Tidy(st) && ref < |st.objects| && s.id == st.objects[ref].id
    requires Informed(st.objects[ref], s, Some(e)) && (Done(st.objects[ref]) ==> Done(s) && !Concerns(e))
    ensures AllClean(React(Update(st, ref, s), ref, e).log)
  {
    var n := Update(st, ref, s);
    if Concerns(e) && s.id in st.table {
      SpeakerIsEntry(st, ref);
      if !IsSuccess(e) {
        SilentClose(n, s.id, if e.Reported? then ApiFailed else LoginFailed);
      }
    }
  }

  lemma TidyReactTable(st: Service, ref: nat, e: Happening, other: nat)
    requires Keyed(st) && ref < |st.objects| && OthersDone(st, other) && other in React(st, ref, e).table
    ensures OthersDone(React(st, ref, e), other)
  {
    var id := st.objects[ref].id;
    match e
    case Reported(_) => TidyClose(st, id, ApiFailed, other);
    case LoginDone(_, Some(_)) => TidyClose(st, id, LoginFailed, other);
    case _ =>
  }

  lemma TidyApiTable(st: Service, ref: nat, step: M.Step, id: nat)
    requires Keyed(st) && Inv(st) && ref < |st.objects| && Harmless(step)
    requires OthersDone(st, id) && id in ApiStep(st, ref, step).table
    ensures OthersDone(ApiStep(st, ref, step), id)
  {
    var s := st.objects[ref];
    var n, news := Update(st, ref, Moved(s, step)), LastOf(Fresh(s.mux, step));
    ApiStepIs(st, ref, step);
    assert SessionOk(s);
    if Done(s) {
      DoneStep(s, step);
    }
    TidyUpdate(st, ref, Moved(s, step), id);
    if news.Some? {
      TidyReactTable(n, ref, news.value, id);
    }
  }

  lemma TidyApiLog(st: Service, ref: nat, step: M.Step)
    requires Keyed(st) && Tidy(st) && ref < |st.objects| && !st.objects[ref].phase.Connecting? && Allowed(step)
    ensures AllClean(ApiStep(st, ref, step).log)
  {
    var s := st.objects[ref];
    var news := LastOf(Fresh(s.mux, step));
    ApiStepIs(st, ref, step);
    assert SessionOk(s);
    SessionStep(s, step);
    if Done(s) {
      DoneStep(s, step);
    }
    if news.Some? {
      TidyReact(st, ref, Moved(s, step), news.value);
    }
  }

  lemma TidyApi(st: Service, ref: nat, step: M.Step)
    requires Keyed(st) && Tidy(st) && ref < |st.objects| && !st.objects[ref].phase.Connecting? && Allowed(step)
    ensures Tidy(ApiStep(st, ref, step))
  {
    ApiStepKeeps(st, ref, step);
    TidyApiLog(st, ref, step);
    TableShrinks(st, ref, step);
    forall id | id in ApiStep(st, ref, step).table ensures OthersDone(ApiStep(st, ref, step), id) {
      TidyApiTable(st, ref, step, id);
    }
  }

  lemma TableShrinks(st: Service, ref: nat, step: M.Step)
    requires Keyed(st) && ref < |st.objects|
    ensures ApiStep(st, ref, step).table.Keys <= st.table.Keys
  {
    ApiStepIs(st, ref, step);
  }

  lemma TidyConnectTable(st: Service, ref: nat, failure: Option<M.Error>, id: nat)
    requires Keyed(st) && ref < |st.objects| && st.objects[ref].phase.Connecting?
    requires OthersDone(st, id) && id in Connect(st, ref, failure).table
    ensures OthersDone(Connect(st, ref, failure), id)
  {
    var s := st.objects[ref];
    if failure.Some? {
      TidyUpdate(st, ref, s.(phase := Over), id);
      if s.id in st.table {
        TidyClose(Update(st, ref, s.(phase := Over)), s.id, ConnectFailed, id);
      }
    } else {
      TidyUpdate(st, ref, s.(mux := M.Next(s.mux, M.Connect), phase := Over), id);
      TidyUpdate(st, ref, s.(mux := M.Next(M.Next(s.mux, M.Connect), M.Login), phase := LoggingIn), id);
    }
  }

  lemma TidyConnect(st: Service, ref: nat, failure: Option<M.Error>)
    requires Keyed(st) && Tidy(st) && ref < |st.objects| && st.objects[ref].phase.Connecting?
    ensures Tidy(Connect(st, ref, failure))
  {
    ConnectKeeps(st, ref, failure);
    assert SessionOk(st.objects[ref]);
    if st.objects[ref].id in st.table {
      SpeakerIsEntry(st, ref);
    }
    forall id | id in Connect(st, ref, failure).table ensures OthersDone(Connect(st, ref, failure), id) {
      TidyConnectTable(st, ref, failure, id);
    }
  }

  lemma TidyOwn(st: Service, ref: nat, step: M.Step, id: nat)
    requires Keyed(st) && Inv(st) && ref < |st.objects| && !st.objects[ref].phase.Connecting?
    requires (step.MakeRequest? || step.Close?) && OthersDone(st, id)
    ensures OthersDone(Update(st, ref, Moved(st.objects[ref], step)), id)
  {
    assert SessionOk(st.objects[ref]);
    if Done(st.objects[ref]) {
      DoneStep(st.objects[ref], step);
    }
    TidyUpdate(st, ref, Moved(st.objects[ref], step), id);
  }

  lemma TidyExecute(st: Service, id: nat)
    requires Keyed(st) && Tidy(st)
    ensures Tidy(Execute(st, id))
  {
    ExecuteKeeps(st, id);
    if HasReady(st, id) {
      assert SessionOk(st.objects[st.table[id]]);
      forall other | other in st.table ensures OthersDone(Execute(st, id), other) {
        TidyOwn(st, st.table[id], M.MakeRequest, other);
      }
    }
  }

  lemma TidyDrop(st: Service, ref: nat)
    requires Keyed(st) && Tidy(st) && ref < |st.objects| && !st.objects[ref].phase.Connecting?
    ensures Inv(Drop(st, ref)) ==> Tidy(Drop(st, ref))
  {
    forall other | other in st.table ensures OthersDone(Drop(st, ref), other) {
      TidyOwn(st, ref, M.Close, other);
    }
  }

  lemma TidyDisconnected(st: Service, id: nat)
    requires Keyed(st) && Tidy(st)
    ensures Tidy(Next(st, Disconnected(id)))
  {
    CloseIfThereKeeps(st, id, ClientLost);
    var n := CloseIfThere(st, id, ClientLost);
    forall other | other in n.table ensures OthersDone(n, other) {
      TidyClose(st, id, ClientLost, other);
    }
  }

  lemma TidyNext(st: Service, step: Step)
    requires Keyed(st) && Tidy(st) && Careful(st, step)
    ensures Tidy(Next(st, step))
  {
    NextInv(st, step);
    match step
    case Open(id) =>
      if RefuseOpen(st, id).None? {
        forall other | other in Create(st, id).table ensures OthersDone(Create(st, id), other) {
          TidyCreate(st, id, other);
        }
      }
    case Connected(ref, failure) =>
      if ref < |st.objects| && st.objects[ref].phase.Connecting? {
        TidyConnect(st, ref, failure);
      }
    case Api(ref, step) =>
      if ref < |st.objects| && !st.objects[ref].phase.Connecting? && Allowed(step) {
        TidyApi(st, ref, step);
      }
    case Command(id) => TidyExecute(st, id);
    case Disconnected(id) => TidyDisconnected(st, id);
    case Destroy(ref) =>
      if ref < |st.objects| && !st.objects[ref].phase.Connecting? && !IsEntry(st, ref) {
        TidyDrop(st, ref);
      }
  }

  lemma {:induction false} TidyRun(steps: seq<Step>)
    requires CarefulRun(steps)
    ensures Tidy(Run(NO_SESSIONS, steps))
  {
    if steps == [] {
      InitialInv();
    } else {
      var init := steps[..|steps| - 1];
      assert forall i | 0 <= i < |init| :: init[..i] == steps[..i];
      assert Careful(Run(NO_SESSIONS, steps[..|steps| - 1]), steps[|steps| - 1]);
      TidyRun(init);
      TidyNext(Run(NO_SESSIONS, init), steps[|steps| - 1]);
    }
  }

  /** The sessions as a run leaves them that opens ids again only when their earlier sessions are over. */
  ghost predicate CarefullyReached(st: Service) {
    exists steps :: CarefulRun(steps) && st == Run(NO_SESSIONS, steps)
  }

  lemma CarefulIsTidy(st: Service)
    requires CarefullyReached(st)
    ensures Keyed(st) && Tidy(st)
  {
    var steps :| CarefulRun(steps) && st == Run(NO_SESSIONS, steps);
    TidyRun(steps);
  }

  /**
   If ids are opened again only when their earlier sessions are over: an open callback is told
   of success only about the table's entry, when it is ready; and close callbacks are called
   only because the client is lost, never because of an error of the connection.
   */
  lemma CallbacksAreClean(st: Service)
    requires CarefullyReached(st)
    ensures AllClean(st.log)
  {
    CarefulIsTidy(st);
  }

  // ----- an id that is used again -----

  lemma {:induction false} RunCons(st: Service, step: Step, rest: seq<Step>)
    requires Keyed(st)
    ensures Run(st, [step] + rest) == Run(Next(st, step), rest)
  {
    RunAppend(st, [step], rest);
    RunOne(st, step);
  }

  /** A step of one session's own: its connect handler, or a handler of its connection. */
  predicate StepOf(step: Step, ref: nat) {
    (step.Connected? || step.Api?) && step.ref == ref
  }

  /** A step that tells the session nothing changes the session only. */
  lemma QuietStepIs(st: Service, ref: nat, step: M.Step)
    requires Keyed(st) && ref < |st.objects|
    requires var es := Fresh(st.objects[ref].mux, step); es != [] ==> !Concerns(es[|es| - 1])
    ensures ApiStep(st, ref, step) == Update(st, ref, Moved(st.objects[ref], step))
  {
    ApiStepIs(st, ref, step);
  }

  lemma DoneSays(st: Service, ref: nat, step: Step)
    requires Keyed(st) && ref < |st.objects| && SessionOk(st.objects[ref]) && Done(st.objects[ref]) && StepOf(step, ref)
    ensures var n := Next(st, step);
      && n.table == st.table && n.log == st.log && ref < |n.objects| && n.objects[ref].id == st.objects[ref].id
      && SessionOk(n.objects[ref]) && Done(n.objects[ref])
  {
    var s := st.objects[ref];
    if step.Api? && Allowed(step.step) {
      DoneStep(s, step.step);
      SessionStep(s, step.step);
      QuietStepIs(st, ref, step.step);
    }
  }

  lemma {:induction false} DoneIsSilent(st: Service, ref: nat, steps: seq<Step>)
    requires Keyed(st) && ref < |st.objects| && SessionOk(st.objects[ref]) && Done(st.objects[ref])
    requires forall i | 0 <= i < |steps| :: StepOf(steps[i], ref)
    ensures var n := Run(st, steps);
      && n.table == st.table && n.log == st.log && ref < |n.objects| && n.objects[ref].id == st.objects[ref].id
      && SessionOk(n.objects[ref]) && Done(n.objects[ref])
  {
    if steps != [] {
      DoneIsSilent(st, ref, steps[..|steps| - 1]);
      DoneSays(Run(st, steps[..|steps| - 1]), ref, steps[|steps| - 1]);
    }
  }

  /** Steps of one session that take its id, whatever it now stands for, out of the table. */
  ghost predicate Evicts(st: Service, ref: nat, steps: seq<Step>)
    requires Keyed(st) && ref < |st.objects|
  {
    (forall i | 0 <= i < |steps| :: StepOf(steps[i], ref)) && st.objects[ref].id !in Run(st, steps).table
  }

  /** A login that fails or an error takes the id out of the table. */
  lemma NewsEvicts(st: Service, ref: nat, step: M.Step)
    requires Keyed(st) && ref < |st.objects| && !st.objects[ref].phase.Connecting? && Allowed(step)
    requires var es := Fresh(st.objects[ref].mux, step);
      es != [] && (es[|es| - 1].Reported? || (es[|es| - 1].LoginDone? && es[|es| - 1].failure.Some?))
    ensures Evicts(st, ref, [Api(ref, step)])
  {
    ApiStepIs(st, ref, step);
    RunOne(st, Api(ref, step));
  }

  lemma FailsLogin(r: Request, err: M.Error)
    requires r.Login().Some?
    ensures var es: seq<Happening> := ErrorEvents(r, err); es[|es| - 1] == LoginDone(r.Login().value, Some(err))
  {
  }

  lemma {:induction false} PostedEvicts(st: Service, ref: nat) returns (steps: seq<Step>)
    requires Keyed(st) && ref < |st.objects| && !st.objects[ref].phase.Connecting?
    requires var m := st.objects[ref].mux;
      !m.link.Open? && !m.link.Aborted? && exists r <- m.books.posted :: r.Login().Some?
    ensures Evicts(st, ref, steps)
    decreases |st.objects[ref].mux.books.posted|
  {
    var s := st.objects[ref];
    FreshCalls(s.mux, M.RunPosted);
    var first := s.mux.books.posted[0];
    if first.Login().Some? {
      FailsLogin(first, M.NotConnected);
      NewsEvicts(st, ref, M.RunPosted);
      steps := [Api(ref, M.RunPosted)];
    } else {
      ApiStepIs(st, ref, M.RunPosted);
      var rest := PostedEvicts(Next(st, Api(ref, M.RunPosted)), ref);
      RunCons(st, Api(ref, M.RunPosted), rest);
      steps := [Api(ref, M.RunPosted)] + rest;
    }
  }

  lemma SpeaksEvicts(st: Service, ref: nat) returns (steps: seq<Step>)
    requires Keyed(st) && ref < |st.objects| && !Done(st.objects[ref])
    ensures Evicts(st, ref, steps)
  {
    var s := st.objects[ref];
    if s.phase.Connecting? {
      steps := [Connected(ref, Some(M.Io(0)))];
      RunOne(st, steps[0]);
    } else if s.mux.link.Open? {
      FreshCalls(s.mux, M.ReadFailed(M.Io(0)));
      NewsEvicts(st, ref, M.ReadFailed(M.Io(0)));
      steps := [Api(ref, M.ReadFailed(M.Io(0)))];
    } else if n :| n in s.mux.books.inFlight && s.mux.books.inFlight[n].Login().Some? {
      FreshCalls(s.mux, M.SendDone(n, None));
      FailsLogin(s.mux.books.inFlight[n], M.NotConnected);
      NewsEvicts(st, ref, M.SendDone(n, None));
      steps := [Api(ref, M.SendDone(n, None))];
    } else {
      steps := PostedEvicts(st, ref);
    }
  }

  /**
   When an id is opened again, no course of an earlier session's own handlers takes the new
   session out of the table, if and only if the earlier session was over. An earlier session may
   still be open here: the login's callbacks hold it, or a command that ran against it last does
   (session_required.hpp:42), and only the last owner to let go closes its connection.
   */
  lemma ReuseIsSafeIff(st: Service, id: nat, first: nat)
    requires Keyed(st) && Reached(st)
    requires id !in st.table && first < |st.objects| && st.objects[first].id == id
    ensures Done(st.objects[first])
      <==> forall steps | (forall i | 0 <= i < |steps| :: StepOf(steps[i], first)) ::
             id in Run(Next(st, Open(id)), steps).table
  {
    ReachedInv(st);
    var n := Next(st, Open(id));
    assert SessionOk(st.objects[first]) && n.objects[first] == st.objects[first];
    if Done(st.objects[first]) {
      forall steps | (forall i | 0 <= i < |steps| :: StepOf(steps[i], first)) ensures id in Run(n, steps).table {
        DoneIsSilent(n, first, steps);
      }
    } else {
      var steps := SpeaksEvicts(n, first);
      assert id !in Run(n, steps).table;
    }
  }

  // ----- the course of events that the condition excludes -----

  const FAILURE := M.Io(0)

  /** An error closes the connection of client 7 while its login is being written; the id is opened again. */
  const REUSED_EARLY: seq<Step> := [
    Open(7), Connected(0, None), Api(0, M.RunPosted), Api(0, M.ReadFailed(FAILURE)), Open(7),
    Api(0, M.SendDone(0, None))]

  function FirstSession(link: M.Link, books: M.Ledger): Session {
    Session(7, M.Mux(link, books, false), LoggingIn)
  }

  const LOGIN := Request(0, Login1)
  const WRITING: M.Ledger := Written(ASKED.books)
  const FAILED: M.Ledger := ReportedError(WRITING, FAILURE)

  /**
   Where it stands when opened, with the login posted, before the error, after it, and when the
   id has been opened again.
   */
  const OPENED := Service([Session(7, M.INITIAL, Connecting)], map[7 := 0], [])
  const STARTED := Service([Session(7, ASKED, LoggingIn)], map[7 := 0], [])
  const BEFORE := Service([FirstSession(M.Open, WRITING)], map[7 := 0], [])
  const AFTER := Service([FirstSession(M.Shut, FAILED)], map[], [])
  const AGAIN := Service([FirstSession(M.Shut, FAILED), Session(7, M.INITIAL, Connecting)], map[7 := 1], [])
  const END := AGAIN.(
    objects := [FirstSession(M.Shut, NotWritten(FAILED, 0, M.NotConnected)), Session(7, M.INITIAL, Connecting)],
    table := map[], log := [Opened(0, Some(M.NotConnected), false, false)])

  /** After the first i steps. */
  ghost predicate At(i: nat, st: Service) {
    i <= |REUSED_EARLY| && Run(NO_SESSIONS, REUSED_EARLY[..i]) == st
  }

  lemma OneOn(i: nat, was: Service, now: Service)
    requires At(i, was) && i < |REUSED_EARLY| && Keyed(was) && Next(was, REUSED_EARLY[i]) == now
    ensures At(i + 1, now)
  {
    assert REUSED_EARLY[..i + 1][..i] == REUSED_EARLY[..i];
  }

  lemma EarlyOpen()
    ensures At(1, OPENED)
  {
    OneOn(0, NO_SESSIONS, OPENED);
  }

  lemma EarlyConnect()
    requires At(1, OPENED)
    ensures At(2, STARTED)
  {
    FirstSteps();
    OneOn(1, OPENED, STARTED);
  }

  lemma EarlyWrite()
    requires At(2, STARTED)
    ensures At(3, BEFORE)
  {
    FirstSteps();
    FreshCalls(ASKED, M.RunPosted);
    ApiStepIs(STARTED, 0, M.RunPosted);
    OneOn(2, STARTED, BEFORE);
  }

  lemma EarlyError()
    requires At(3, BEFORE)
    ensures At(4, AFTER)
  {
    FirstSteps();
    FreshCalls(BEFORE.objects[0].mux, M.ReadFailed(FAILURE));
    ApiStepIs(BEFORE, 0, M.ReadFailed(FAILURE));
    OneOn(3, BEFORE, AFTER);
  }

  lemma EarlyReopen()
    requires At(4, AFTER)
    ensures At(5, AGAIN)
  {
    OneOn(4, AFTER, AGAIN);
  }

  lemma EarlyEnd()
    requires At(5, AGAIN)
    ensures At(6, END)
  {
    FirstSteps();
    FreshCalls(AGAIN.objects[0].mux, M.SendDone(0, None));
    ApiStepIs(AGAIN, 0, M.SendDone(0, None));
    assert 0 in FAILED.inFlight && FAILED.inFlight[0] == LOGIN;
    OneOn(5, AGAIN, END);
  }

  lemma EarlyCourse()
    ensures At(4, AFTER) && At(5, AGAIN) && At(6, END)
  {
    EarlyOpen();
    EarlyConnect();
    EarlyWrite();
    EarlyError();
    EarlyReopen();
    EarlyEnd();
  }

  lemma EarlyIsCareless()
    ensures !Careful(AFTER, Open(7))
  {
    FirstSteps();
    assert AFTER.objects[0].mux.books.inFlight[0] == LOGIN;
    assert AFTER.objects[0].id == 7 && !IsEntry(AFTER, 0) && !Done(AFTER.objects[0]);
  }

  /** The completion of the first session's write then takes the second one out of the table, uncalled. */
  lemma ReusedTooEarly()
    ensures !CarefulRun(REUSED_EARLY) && Run(NO_SESSIONS, REUSED_EARLY) == END
  {
    EarlyCourse();
    EarlyIsCareless();
    assert REUSED_EARLY[..6] == REUSED_EARLY;
    assert REUSED_EARLY[4] == Open(7);
  }

  // ----- an entry that nothing removes -----

  /** Every session of an id is over. */
  ghost predicate AllDone(st: Service, id: nat) {
    forall ref: nat | ref < |st.objects| && st.objects[ref].id == id :: Done(st.objects[ref])
  }

  /** The entry of an id stays, and all its sessions stay over. */
  ghost predicate Stays(st: Service, n: Service, id: nat) {
    id in st.table && id in n.table && n.table[id] == st.table[id] && AllDone(n, id)
  }

  lemma StuckUpdate(st: Service, ref: nat, s: Session, id: nat)
    requires Keyed(st) && ref < |st.objects| && s.id == st.objects[ref].id && AllDone(st, id)
    requires Done(st.objects[ref]) ==> Done(s)
    ensures AllDone(Update(st, ref, s), id)
  {
  }

  lemma StuckMoved(st: Service, ref: nat, step: M.Step, id: nat)
    requires Keyed(st) && ref < |st.objects| && SessionOk(st.objects[ref]) && AllDone(st, id) && Harmless(step)
    ensures AllDone(Update(st, ref, Moved(st.objects[ref], step)), id)
  {
    if Done(st.objects[ref]) {
      DoneStep(st.objects[ref], step);
    }
    StuckUpdate(st, ref, Moved(st.objects[ref], step), id);
  }

  lemma StuckByOthers(st: Service, id: nat, step: Step)
    requires Keyed(st) && Sane(st) && id in st.table && AllDone(st, id) && step != Disconnected(id)
    requires !step.Api? && !step.Connected?
    ensures Stays(st, Next(st, step), id)
  {
    match step
    case Destroy(ref) =>
      if ref < |st.objects| {
        StuckMoved(st, ref, M.Close, id);
      }
    case Command(other) =>
      if HasReady(st, other) {
        StuckMoved(st, st.table[other], M.MakeRequest, id);
      }
    case _ =>
  }

  lemma ReactElsewhere(st: Service, ref: nat, e: Happening, id: nat)
    requires Keyed(st) && ref < |st.objects| && (st.objects[ref].id == id ==> !Concerns(e))
    ensures id in st.table ==> id in React(st, ref, e).table && React(st, ref, e).table[id] == st.table[id]
  {
  }

  lemma StuckByApi(st: Service, id: nat, ref: nat, step: M.Step)
    requires Keyed(st) && Sane(st) && id in st.table && AllDone(st, id)
    requires ref < |st.objects| && Allowed(step)
    ensures Stays(st, ApiStep(st, ref, step), id)
  {
    var s := st.objects[ref];
    var n, news := Update(st, ref, Moved(s, step)), LastOf(Fresh(s.mux, step));
    ApiStepIs(st, ref, step);
    StuckMoved(st, ref, step, id);
    if s.id == id {
      DoneStep(s, step);
    }
    if news.Some? {
      ReactElsewhere(n, ref, news.value, id);
    }
  }

  lemma StuckNext(st: Service, id: nat, step: Step)
    requires Keyed(st) && Sane(st) && id in st.table && AllDone(st, id) && step != Disconnected(id)
    ensures Stays(st, Next(st, step), id)
  {
    match step
    case Api(ref, step) =>
      if ref < |st.objects| && !st.objects[ref].phase.Connecting? && Allowed(step) {
        StuckByApi(st, id, ref, step);
      }
    case Connected(ref, failure) =>
      assert ref < |st.objects| && st.objects[ref].phase.Connecting? ==> st.objects[ref].id != id;
    case _ => StuckByOthers(st, id, step);
  }

  lemma {:induction false} StuckRun(st: Service, id: nat, steps: seq<Step>)
    requires Keyed(st) && Inv(st) && id in st.table && AllDone(st, id) && Disconnected(id) !in steps
    ensures Inv(Run(st, steps)) && Stays(st, Run(st, steps), id)
  {
    if steps != [] {
      var m := Run(st, steps[..|steps| - 1]);
      StuckRun(st, id, steps[..|steps| - 1]);
      NextInv(m, steps[|steps| - 1]);
      StuckNext(m, id, steps[|steps| - 1]);
    }
  }

  /** An entry whose sessions are all over stays, and refuses every open, until its client is lost. */
  lemma StuckUntilLost(st: Service, id: nat, steps: seq<Step>)
    requires Keyed(st) && Inv(st) && id in st.table && AllDone(st, id) && Disconnected(id) !in steps
    ensures var n := Run(st, steps);
      Stays(st, n, id) && RefuseOpen(n, id) == Some(Pending) && Execute(n, id) == n
  {
    StuckRun(st, id, steps);
    var n := Run(st, steps);
    assert Done(n.objects[n.table[id]]) && SessionOk(n.objects[n.table[id]]);
  }

  /** A session that has logged in has no login to wait for. */
  lemma LoggedInWaitsForNone(s: Session)
    requires SessionOk(s) && s.mux.loggedIn
    ensures Waiting(s.mux.books, None)
  {
    var b := s.mux.books;
    Runs.ReachedInv(s.mux);
    assert LoginOk(b, 0);
    assert forall r | IsLive(b, r) && r.Login() == Some(0) :: LoginEnds(b.log, 0) == 0;
    forall t | t in b.table ensures b.table[t].Login().None? {
      assert EntryOk(b, t) && IsLive(b, b.table[t]) && Whose(b.table[t], Some(0));
    }
    forall n | n in b.inFlight ensures b.inFlight[n].Login().None? {
      assert IsLive(b, b.inFlight[n]) && Whose(b.inFlight[n], Some(0));
    }
    forall r | r in b.posted ensures r.Login().None? {
      assert IsLive(b, r) && Whose(r, Some(0));
    }
  }

  lemma Strands(st: Service, id: nat, serial: nat, err: M.Error)
    requires Keyed(st) && Tidy(st) && HasReady(st, id) && serial in st.objects[st.table[id]].mux.books.inFlight
    ensures var n := Next(st, Api(st.table[id], M.SendDone(serial, Some(err)))); Stays(st, n, id)
  {
    var ref, step := st.table[id], M.SendDone(serial, Some(err));
    var s := st.objects[ref];
    assert SessionOk(s);
    LoggedInWaitsForNone(s);
    assert Whose(s.mux.books.inFlight[serial], None);
    BecomesMute(s.mux, serial, err);
    FreshCalls(s.mux, step);
    ApiStepIs(st, ref, step);
    assert OthersDone(st, id);
    OnlyEntryLeft(st, ref, Moved(s, step));
  }

  lemma OnlyEntryLeft(st: Service, ref: nat, s: Session)
    requires Keyed(st) && ref < |st.objects| && s.id == st.objects[ref].id && IsEntry(st, ref)
    requires OthersDone(st, s.id) && Done(s)
    ensures AllDone(Update(st, ref, s), s.id)
  {
    forall r: nat | r < |st.objects| && r != ref && st.objects[r].id == s.id ensures Done(st.objects[r]) {
      assert !IsEntry(st, r);
    }
  }

  /**
   A write error closes the connection without telling the session: the ready entry of a
   careful run becomes one that only the loss of its client removes.
   */
  lemma WriteErrorStrands(st: Service, id: nat, serial: nat, err: M.Error, after: seq<Step>)
    requires Keyed(st) && CarefullyReached(st) && Disconnected(id) !in after
    requires HasReady(st, id) && serial in st.objects[st.table[id]].mux.books.inFlight
    ensures var n := Run(Next(st, Api(st.table[id], M.SendDone(serial, Some(err)))), after);
      Stays(st, n, id) && RefuseOpen(n, id) == Some(Pending) && Execute(n, id) == n
  {
    CarefulIsTidy(st);
    Strands(st, id, serial, err);
    NextInv(st, Api(st.table[id], M.SendDone(serial, Some(err))));
    StuckUntilLost(Next(st, Api(st.table[id], M.SendDone(serial, Some(err)))), id, after);
  }

  lemma BecomesMute(m: M.Mux, serial: nat, err: M.Error)
    requires m.link.Open? && serial in m.books.inFlight && Waiting(m.books, None)
    ensures Mute(M.Next(m, M.SendDone(serial, Some(err))))
  {
    forall n | n in m.books.inFlight ensures m.books.inFlight[n].Login().None? {
      assert Whose(m.books.inFlight[n], None);
    }
    forall r | r in m.books.posted ensures r.Login().None? {
      assert Whose(r, None);
    }
  }
}
