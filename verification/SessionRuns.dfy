/** What holds of every run of the sessions of clients. */
module SessionRuns {
  import opened Options
  import opened Requests
  import opened SessionLink
  import opened Sessions
  import M = Multiplexer
  import Runs = MultiplexerRuns

  // ----- every session's connection -----

  lemma ReachedOn(m: M.Mux, step: M.Step)
    requires Runs.Reached(m)
    ensures Runs.Reached(M.Next(m, step)) && M.Inv(m) && M.Inv(M.Next(m, step))
  {
    Runs.ReachedNext(m, step);
    Runs.ReachedInv(m);
    Runs.ReachedInv(M.Next(m, step));
  }

  /** A session's only login is the first request of its connection. */
  function Who(phase: Phase): Option<nat> {
    if phase.LoggingIn? then Some(0) else None
  }

  /** How often the open callback may have been called. */
  function Allowance(s: Session): nat {
    match s.phase
    case Connecting => 0
    case Over => 1
    case LoggingIn => LoginEnds(s.mux.books.log, 0)
  }

  ghost predicate SessionOk(s: Session) {
    && Runs.Reached(s.mux)
    && (s.phase.Connecting? ==> s.mux == M.INITIAL)
    && Waiting(s.mux.books, Who(s.phase))
    && AllSpoken(s.mux.books.log, Who(s.phase))
    && (s.mux.loggedIn ==> s.phase.LoggingIn? && LoginEnds(s.mux.books.log, 0) >= 1)
  }

  predicate Harmless(step: M.Step) {
    Allowed(step) || step.MakeRequest? || step.Close?
  }

  function Moved(s: Session, step: M.Step): Session {
    s.(mux := M.Next(s.mux, step))
  }

  function LastOf(es: seq<Happening>): Option<Happening> {
    if es == [] then None else Some(es[|es| - 1])
  }

  /** What a session knows when it is told something by its connection. */
  ghost predicate Informed(s: Session, n: Session, news: Option<Happening>) {
    match news
    case Some(Reported(_)) => !n.mux.link.Open? && Allowance(n) >= Allowance(s) && (n.mux.loggedIn ==> s.mux.loggedIn)
    case Some(LoginDone(_, failure)) =>
      && s.phase.LoggingIn? && Allowance(s) == 0 && Allowance(n) == 1
      && if failure.None? then n.Ready() else !n.mux.loggedIn
    case _ => Allowance(n) >= Allowance(s) && (n.mux.loggedIn ==> s.mux.loggedIn)
  }

  lemma EndsOfLast(es: seq<Happening>)
    requires OnlyLast(es)
    ensures es != [] && es[|es| - 1].LoginDone? && es[|es| - 1].login == 0 ==> LoginEnds(es, 0) >= 1
  {
  }

  lemma AtMostOneEnd(m: M.Mux)
    requires M.Inv(m)
    ensures LoginEnds(m.books.log, 0) <= 1
  {
    assert LoginOk(m.books, 0);
  }

  lemma SessionStep(s: Session, step: M.Step)
    requires SessionOk(s) && Harmless(step) && !s.phase.Connecting?
    ensures SessionOk(Moved(s, step)) && Informed(s, Moved(s, step), LastOf(Fresh(s.mux, step)))
  {
    var m, n, es := s.mux, M.Next(s.mux, step), Fresh(s.mux, step);
    ReachedOn(m, step);
    AtMostOneEnd(n);
    WaitingNext(m, step, Who(s.phase));
    FreshSpoken(m, step, Who(s.phase));
    FreshEnds(m, step, 0);
    FreshCalls(m, step);
    OnlyLastConcerns(m, step);
    EndsOfLast(es);
    StepTells(s, step);
  }

  /** The part of a session's knowledge that comes straight from the step. */
  lemma StepTells(s: Session, step: M.Step)
    requires SessionOk(s) && Harmless(step)
    ensures var n, news := M.Next(s.mux, step), LastOf(Fresh(s.mux, step));
      && (news.Some? && news.value.Reported? ==> !n.link.Open?)
      && (news.Some? && IsSuccess(news.value) ==> n.link.Open? && n.loggedIn)
      && (n.loggedIn ==> s.mux.loggedIn || (news.Some? && IsSuccess(news.value)))
  {
    var m, es := s.mux, Fresh(s.mux, step);
    FreshCalls(m, step);
    if es != [] {
      var e := es[|es| - 1];
      assert e in es;
      if e.Reported? {
        ReportedMeansClosed(m, step, e);
      }
      if IsSuccess(e) {
        SuccessMeansReady(m, step, e);
      }
    }
    if M.Next(m, step).loggedIn {
      LoggedInBySuccess(m, step);
    }
  }

  /** The connection of a session that has just been connected, and then asked to log in. */
  const CONNECTED := M.INITIAL.(link := M.Open)
  const ASKED := M.Next(CONNECTED, M.Login)

  lemma FirstSteps()
    ensures M.Next(M.INITIAL, M.Connect) == CONNECTED
    ensures Runs.Reached(M.INITIAL) && Runs.Reached(CONNECTED) && Runs.Reached(ASKED)
    ensures ASKED.books.made == map[] && ASKED.books.posted == [Request(0, Login1)] && ASKED.books.log == []
    ensures ASKED.books.inFlight == map[] && ASKED.books.table == map[] && !ASKED.loggedIn
  {
    Runs.RunIsReached([]);
    ReachedOn(M.INITIAL, M.Connect);
    ReachedOn(CONNECTED, M.Login);
  }

  lemma SessionConnect(s: Session)
    requires SessionOk(s) && s.phase.Connecting?
    ensures SessionOk(s.(phase := Over)) && SessionOk(s.(mux := CONNECTED, phase := Over))
    ensures SessionOk(s.(mux := ASKED, phase := LoggingIn))
  {
    FirstSteps();
  }

  lemma SessionNew(id: nat)
    ensures SessionOk(Session(id, M.INITIAL, Connecting))
  {
    Runs.RunIsReached([]);
  }

  ghost predicate Sane(st: Service) {
    forall ref: nat | ref < |st.objects| :: SessionOk(st.objects[ref])
  }

  // ----- counting -----

  function OpenedBy(e: Note, ref: nat): nat {
    if e.Opened? && e.ref == ref then 1 else 0
  }

  function ClosedBy(e: Note, ref: nat): nat {
    if e.Closed? && e.ref == ref then 1 else 0
  }

  /** How often a session's open callback has been called. */
  function OpenCount(log: seq<Note>, ref: nat): nat {
    if log == [] then 0 else OpenCount(log[..|log| - 1], ref) + OpenedBy(log[|log| - 1], ref)
  }

  /** How often a session's close callback has been called. */
  function CloseCount(log: seq<Note>, ref: nat): nat {
    if log == [] then 0 else CloseCount(log[..|log| - 1], ref) + ClosedBy(log[|log| - 1], ref)
  }

  lemma CountSnoc(log: seq<Note>, e: Note, ref: nat)
    ensures OpenCount(log + [e], ref) == OpenCount(log, ref) + OpenedBy(e, ref)
    ensures CloseCount(log + [e], ref) == CloseCount(log, ref) + ClosedBy(e, ref)
  {
    assert (log + [e])[..|log|] == log;
  }

  /** The open callback of a session has been told that the session is open. */
  predicate WasOpened(log: seq<Note>, ref: nat) {
    exists i | 0 <= i < |log| :: log[i].Opened? && log[i].ref == ref && log[i].failure.None?
  }

  function OpenLimit(st: Service, ref: nat): nat {
    if ref < |st.objects| then Allowance(st.objects[ref]) else 0
  }

  function CloseLimit(st: Service, ref: nat): nat {
    if ref < |st.objects| && !IsEntry(st, ref) then 1 else 0
  }

  ghost predicate OpensOk(st: Service) {
    forall ref: nat :: OpenCount(st.log, ref) <= OpenLimit(st, ref)
  }

  ghost predicate ClosesOk(st: Service) {
    forall ref: nat :: CloseCount(st.log, ref) <= CloseLimit(st, ref)
  }

  /** Ready entries have been announced, and so have those that a close callback was called for. */
  ghost predicate Announced(st: Service)
    requires Keyed(st)
  {
    forall id <- st.table :: st.objects[st.table[id]].mux.loggedIn ==> WasOpened(st.log, st.table[id])
  }

  ghost predicate NoteOk(log: seq<Note>, i: nat)
    requires i < |log|
  {
    match log[i]
    case Opened(_, failure, _, ready) => failure.None? <==> ready
    case Closed(ref, _) => WasOpened(log[..i], ref)
    case Executed(ref, ready) => ready && WasOpened(log[..i], ref)
  }

  ghost predicate NotesOk(log: seq<Note>) {
    forall i: nat | i < |log| :: NoteOk(log, i)
  }

  lemma WasOpenedGrows(log: seq<Note>, e: Note, ref: nat)
    ensures WasOpened(log, ref) ==> WasOpened(log + [e], ref)
    ensures e.Opened? && e.ref == ref && e.failure.None? ==> WasOpened(log + [e], ref)
  {
    assert forall i | 0 <= i < |log| :: (log + [e])[i] == log[i];
    assert (log + [e])[|log|] == e;
  }

  lemma NotesSnoc(log: seq<Note>, e: Note)
    requires NotesOk(log)
    requires match e
      case Opened(_, failure, _, ready) => failure.None? <==> ready
      case Closed(ref, _) => WasOpened(log, ref)
      case Executed(ref, ready) => ready && WasOpened(log, ref)
    ensures NotesOk(log + [e])
  {
    forall i: nat | i < |log + [e]| ensures NoteOk(log + [e], i) {
      if i < |log| {
        assert (log + [e])[..i] == log[..i] && NoteOk(log, i);
      } else {
        assert (log + [e])[..i] == log;
      }
    }
  }

  /** What every step keeps. */
  ghost predicate Inv(st: Service)
    requires Keyed(st)
  {
    Counted(st) && Announced(st)
  }

  ghost predicate Counted(st: Service) {
    Sane(st) && OpensOk(st) && ClosesOk(st) && NotesOk(st.log)
  }

  lemma InitialInv()
    ensures Inv(NO_SESSIONS)
  {
  }

  // ----- every step keeps the invariant -----

  lemma SaneUpdate(st: Service, ref: nat, s: Session)
    requires Keyed(st) && Sane(st) && ref < |st.objects| && s.id == st.objects[ref].id && SessionOk(s)
    ensures Sane(Update(st, ref, s))
  {
  }

  lemma UpdateCounted(st: Service, ref: nat, s: Session)
    requires Keyed(st) && Counted(st) && ref < |st.objects| && s.id == st.objects[ref].id && SessionOk(s)
    requires Allowance(s) >= Allowance(st.objects[ref])
    ensures Counted(Update(st, ref, s))
  {
    var n := Update(st, ref, s);
    SaneUpdate(st, ref, s);
    forall r: nat ensures OpenCount(n.log, r) <= OpenLimit(n, r) && CloseCount(n.log, r) <= CloseLimit(n, r) {
      assert OpenCount(st.log, r) <= OpenLimit(st, r) && CloseCount(st.log, r) <= CloseLimit(st, r);
    }
  }

  /** An update of a session that adds to what it may call, and says no more. */
  lemma UpdateKeeps(st: Service, ref: nat, s: Session)
    requires Keyed(st) && Inv(st) && ref < |st.objects| && s.id == st.objects[ref].id && SessionOk(s)
    requires Allowance(s) >= Allowance(st.objects[ref])
    requires s.mux.loggedIn && IsEntry(st, ref) ==> WasOpened(st.log, ref)
    ensures Inv(Update(st, ref, s))
  {
    UpdateCounted(st, ref, s);
  }

  lemma CreateKeeps(st: Service, id: nat)
    requires Keyed(st) && Inv(st) && id !in st.table
    ensures Inv(Create(st, id))
  {
    var n := Create(st, id);
    SessionNew(id);
    forall r: nat ensures OpenCount(n.log, r) <= OpenLimit(n, r) && CloseCount(n.log, r) <= CloseLimit(n, r) {
      assert OpenCount(st.log, r) <= OpenLimit(st, r) && CloseCount(st.log, r) <= CloseLimit(st, r);
      if r < |st.objects| && IsEntry(n, r) {
        assert IsEntry(st, r);
      }
    }
  }

  lemma CloseEntries(st: Service, id: nat, cause: Cause, r: nat)
    requires Keyed(st) && id in st.table && r < |st.objects|
    ensures IsEntry(Close(st, id, cause), r) <==> IsEntry(st, r) && r != st.table[id]
  {
  }

  lemma CloseCounts(st: Service, id: nat, cause: Cause, r: nat)
    requires Keyed(st) && id in st.table
    requires OpenCount(st.log, r) <= OpenLimit(st, r) && CloseCount(st.log, r) <= CloseLimit(st, r)
    ensures var n := Close(st, id, cause);
      OpenCount(n.log, r) <= OpenLimit(n, r) && CloseCount(n.log, r) <= CloseLimit(n, r)
  {
    CountSnoc(st.log, Closed(st.table[id], cause), r);
    if r < |st.objects| {
      CloseEntries(st, id, cause, r);
    }
  }

  lemma CloseKeeps(st: Service, id: nat, cause: Cause)
    requires Keyed(st) && Inv(st) && id in st.table
    ensures Inv(Close(st, id, cause))
  {
    var ref, n := st.table[id], Close(st, id, cause);
    forall r: nat ensures OpenCount(n.log, r) <= OpenLimit(n, r) && CloseCount(n.log, r) <= CloseLimit(n, r) {
      assert OpenCount(st.log, r) <= OpenLimit(st, r) && CloseCount(st.log, r) <= CloseLimit(st, r);
      CloseCounts(st, id, cause, r);
    }
    if st.objects[ref].Ready() {
      NotesSnoc(st.log, Closed(ref, cause));
      AnnouncedSnoc(st, Closed(ref, cause));
    }
  }

  lemma AnnouncedSnoc(st: Service, e: Note)
    requires Keyed(st) && Announced(st)
    ensures Announced(st.(log := st.log + [e]))
  {
    forall id | id in st.table && st.objects[st.table[id]].mux.loggedIn ensures WasOpened(st.log + [e], st.table[id]) {
      WasOpenedGrows(st.log, e, st.table[id]);
    }
  }

  lemma TellCounted(st: Service, ref: nat, failure: Option<M.Error>)
    requires Keyed(st) && Counted(st) && ref < |st.objects| && (failure.None? <==> st.objects[ref].Ready())
    requires OpenCount(st.log, ref) < Allowance(st.objects[ref])
    ensures Counted(Tell(st, ref, failure))
  {
    var n := Tell(st, ref, failure);
    var e := n.log[|st.log|];
    NotesSnoc(st.log, e);
    forall r: nat ensures OpenCount(n.log, r) <= OpenLimit(n, r) && CloseCount(n.log, r) <= CloseLimit(n, r) {
      assert OpenCount(st.log, r) <= OpenLimit(st, r) && CloseCount(st.log, r) <= CloseLimit(st, r);
      CountSnoc(st.log, e, r);
    }
  }

  lemma TellKeeps(st: Service, ref: nat, failure: Option<M.Error>)
    requires Keyed(st) && Inv(st) && ref < |st.objects| && (failure.None? <==> st.objects[ref].Ready())
    requires OpenCount(st.log, ref) < Allowance(st.objects[ref])
    ensures Inv(Tell(st, ref, failure))
  {
    TellCounted(st, ref, failure);
    AnnouncedSnoc(st, Opened(ref, failure, IsEntry(st, ref), st.objects[ref].Ready()));
  }

  /** A session that has just logged in is announced, if its id is still in the table. */
  lemma SuccessKeeps(st: Service, ref: nat, s: Session)
    requires Keyed(st) && Inv(st) && ref < |st.objects| && s.id == st.objects[ref].id && SessionOk(s)
    requires s.Ready() && Allowance(st.objects[ref]) < Allowance(s)
    ensures var n := Update(st, ref, s); Inv(if s.id in st.table then Tell(n, ref, None) else n)
  {
    var n := Update(st, ref, s);
    UpdateCounted(st, ref, s);
    if s.id in st.table {
      assert OpenCount(st.log, ref) <= OpenLimit(st, ref);
      TellCounted(n, ref, None);
      forall id | id in st.table && n.objects[st.table[id]].mux.loggedIn
        ensures WasOpened(Tell(n, ref, None).log, st.table[id])
      {
        WasOpenedGrows(st.log, Opened(ref, None, IsEntry(n, ref), true), st.table[id]);
      }
    }
  }

  lemma CloseIfThereKeeps(st: Service, id: nat, cause: Cause)
    requires Keyed(st) && Inv(st)
    ensures Inv(CloseIfThere(st, id, cause)) && id !in CloseIfThere(st, id, cause).table
  {
    if id in st.table {
      CloseKeeps(st, id, cause);
    }
  }

  lemma {:induction false} ReactToLast(st: Service, ref: nat, es: seq<Happening>)
    requires Keyed(st) && ref < |st.objects| && OnlyLast(es)
    ensures ReactAll(st, ref, es) == if es == [] then st else React(st, ref, es[|es| - 1])
  {
    if es != [] {
      var init := es[..|es| - 1];
      ReactToLast(st, ref, init);
      if init != [] {
        assert !Concerns(es[|init| - 1]);
      }
    }
  }

  /** A session is told one thing, and the service reacts. */
  lemma ReactKeeps(st: Service, ref: nat, s: Session, e: Happening)
    requires Keyed(st) && Inv(st) && ref < |st.objects| && s.id == st.objects[ref].id && SessionOk(s)
    requires Informed(st.objects[ref], s, Some(e))
    ensures Inv(React(Update(st, ref, s), ref, e))
  {
    var n := Update(st, ref, s);
    assert SessionOk(st.objects[ref]);
    match e
    case LoginDone(_, None) => SuccessKeeps(st, ref, s);
    case LoginDone(_, Some(err)) =>
      assert OpenCount(st.log, ref) <= OpenLimit(st, ref);
      UpdateKeeps(st, ref, s);
      CloseIfThereKeeps(n, s.id, LoginFailed);
      CloseSaysNothing(n, s.id, LoginFailed, ref);
      TellKeeps(CloseIfThere(n, s.id, LoginFailed), ref, Some(err));
    case Reported(_) =>
      QuietUpdate(st, ref, s);
      CloseIfThereKeeps(n, s.id, ApiFailed);
    case _ => QuietUpdate(st, ref, s);
  }

  lemma CloseSaysNothing(st: Service, id: nat, cause: Cause, ref: nat)
    requires Keyed(st)
    ensures OpenCount(CloseIfThere(st, id, cause).log, ref) == OpenCount(st.log, ref)
  {
    if id in st.table {
      CountSnoc(st.log, Closed(st.table[id], cause), ref);
    }
  }

  lemma QuietUpdate(st: Service, ref: nat, s: Session)
    requires Keyed(st) && Inv(st) && ref < |st.objects| && s.id == st.objects[ref].id && SessionOk(s)
    requires Allowance(s) >= Allowance(st.objects[ref]) && (s.mux.loggedIn ==> st.objects[ref].mux.loggedIn)
    ensures Inv(Update(st, ref, s))
  {
    if s.mux.loggedIn && IsEntry(st, ref) {
      assert s.id in st.table;
    }
    UpdateKeeps(st, ref, s);
  }

  lemma ApiStepKeeps(st: Service, ref: nat, step: M.Step)
    requires Keyed(st) && Inv(st) && ref < |st.objects| && Allowed(step) && !st.objects[ref].phase.Connecting?
    ensures Inv(ApiStep(st, ref, step))
  {
    var s := st.objects[ref];
    assert SessionOk(s);
    ApiStepIs(st, ref, step);
    SessionStep(s, step);
    if Fresh(s.mux, step) == [] {
      QuietUpdate(st, ref, Moved(s, step));
    } else {
      ReactKeeps(st, ref, Moved(s, step), LastOf(Fresh(s.mux, step)).value);
    }
  }

  lemma ApiStepIs(st: Service, ref: nat, step: M.Step)
    requires Keyed(st) && ref < |st.objects|
    ensures var s := st.objects[ref]; var n, news := Update(st, ref, Moved(s, step)), LastOf(Fresh(s.mux, step));
      ApiStep(st, ref, step) == if news.None? then n else React(n, ref, news.value)
  {
    var s := st.objects[ref];
    OnlyLastConcerns(s.mux, step);
    ReactToLast(Update(st, ref, Moved(s, step)), ref, Fresh(s.mux, step));
  }

  lemma ConnectKeeps(st: Service, ref: nat, failure: Option<M.Error>)
    requires Keyed(st) && Inv(st) && ref < |st.objects| && st.objects[ref].phase.Connecting?
    ensures Inv(Connect(st, ref, failure))
  {
    var s := st.objects[ref];
    assert SessionOk(s);
    SessionConnect(s);
    FirstSteps();
    match failure
    case None =>
      QuietUpdate(st, ref,
        if s.id in st.table then s.(mux := ASKED, phase := LoggingIn) else s.(mux := CONNECTED, phase := Over));
    case Some(err) =>
      var n := Update(st, ref, s.(phase := Over));
      QuietUpdate(st, ref, s.(phase := Over));
      if s.id in st.table {
        assert OpenCount(st.log, ref) <= OpenLimit(st, ref);
        CloseIfThereKeeps(n, s.id, ConnectFailed);
        CloseSaysNothing(n, s.id, ConnectFailed, ref);
        TellKeeps(Close(n, s.id, ConnectFailed), ref, Some(err));
      }
  }

  lemma OwnStep(st: Service, ref: nat, step: M.Step)
    requires Keyed(st) && Inv(st) && ref < |st.objects| && (step.MakeRequest? || step.Close?)
    requires !st.objects[ref].phase.Connecting?
    ensures Inv(Update(st, ref, Moved(st.objects[ref], step)))
  {
    var s := st.objects[ref];
    assert SessionOk(s);
    SessionStep(s, step);
    FreshCalls(s.mux, step);
    QuietUpdate(st, ref, Moved(s, step));
  }

  lemma ExecuteKeeps(st: Service, id: nat)
    requires Keyed(st) && Inv(st)
    ensures Inv(Execute(st, id))
  {
    if HasReady(st, id) {
      var ref := st.table[id];
      var e := Executed(ref, true);
      assert SessionOk(st.objects[ref]);
      OwnStep(st, ref, M.MakeRequest);
      var n := Update(st, ref, Moved(st.objects[ref], M.MakeRequest));
      NotesSnoc(n.log, e);
      AnnouncedSnoc(n, e);
      NeutralNote(n, e);
    }
  }

  lemma NeutralNote(st: Service, e: Note)
    requires Keyed(st) && OpensOk(st) && ClosesOk(st) && e.Executed?
    ensures OpensOk(st.(log := st.log + [e])) && ClosesOk(st.(log := st.log + [e]))
  {
    forall r: nat
      ensures OpenCount(st.log + [e], r) == OpenCount(st.log, r) && CloseCount(st.log + [e], r) == CloseCount(st.log, r)
    {
      CountSnoc(st.log, e, r);
    }
  }

  /** Every step keeps the invariant. */
  lemma NextInv(st: Service, step: Step)
    requires Keyed(st) && Inv(st)
    ensures Inv(Next(st, step))
  {
    match step
    case Open(id) =>
      if RefuseOpen(st, id).None? {
        CreateKeeps(st, id);
      }
    case Connected(ref, failure) =>
      if ref < |st.objects| && st.objects[ref].phase.Connecting? {
        ConnectKeeps(st, ref, failure);
      }
    case Api(ref, step) =>
      if ref < |st.objects| && !st.objects[ref].phase.Connecting? && Allowed(step) {
        ApiStepKeeps(st, ref, step);
      }
    case Command(id) => ExecuteKeeps(st, id);
    case Disconnected(id) => CloseIfThereKeeps(st, id, ClientLost);
    case Destroy(ref) =>
      if ref < |st.objects| && !st.objects[ref].phase.Connecting? && !IsEntry(st, ref) {
        OwnStep(st, ref, M.Close);
      }
  }

  /** The sessions as some run leaves them. */
  ghost predicate Reached(st: Service) {
    exists steps :: st == Run(NO_SESSIONS, steps)
  }

  lemma {:induction false} RunInv(steps: seq<Step>)
    ensures Inv(Run(NO_SESSIONS, steps))
  {
    if steps == [] {
      InitialInv();
    } else {
      RunInv(steps[..|steps| - 1]);
      NextInv(Run(NO_SESSIONS, steps[..|steps| - 1]), steps[|steps| - 1]);
    }
  }

  lemma ReachedInv(st: Service)
    requires Reached(st)
    ensures Keyed(st) && Inv(st)
  {
    var steps :| st == Run(NO_SESSIONS, steps);
    RunInv(steps);
  }

  lemma StartIsReached()
    ensures Reached(NO_SESSIONS)
  {
    assert NO_SESSIONS == Run(NO_SESSIONS, []);
  }

  lemma ReachedNext(st: Service, step: Step)
    requires Keyed(st) && Reached(st)
    ensures Reached(Next(st, step))
  {
    var steps :| st == Run(NO_SESSIONS, steps);
    assert (steps + [step])[..|steps|] == steps;
    assert Next(st, step) == Run(NO_SESSIONS, steps + [step]);
  }
}
