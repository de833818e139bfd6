/** Exactly when the callbacks of sessions are as they should be, and when an entry is left behind. */
module SessionExactness {
  import opened Options
  import opened Requests
  import opened SessionLink
  import opened Sessions
  import opened SessionRuns
  import opened SessionTheorems
  import M = Multiplexer

  // ----- callbacks are clean exactly as long as nothing is misdirected -----

  /** What a step tells the service about a session: nothing, that it is over, or that it is open. */
  datatype Tidings = Silence | Failure | Success

  function TidingsOf(e: Happening): Tidings {
    match e
    case Reported(_) => Failure
    case LoginDone(_, failure) => if failure.Some? then Failure else Success
    case _ => Silence
  }

  function ApiTidings(s: Session, step: M.Step): Tidings {
    match LastOf(Fresh(s.mux, step))
    case None => Silence
    case Some(e) => TidingsOf(e)
  }

  function StepTidings(st: Service, step: Step): Tidings {
    match step
    case Connected(ref, failure) =>
      if ref < |st.objects| && st.objects[ref].phase.Connecting? && failure.Some? then Failure else Silence
    case Api(ref, step) =>
      if ref < |st.objects| && !st.objects[ref].phase.Connecting? && Allowed(step)
      then ApiTidings(st.objects[ref], step) else Silence
    case _ => Silence
  }

  /** The id of the session stands for another one. */
  predicate Superseded(st: Service, ref: nat) {
    ref < |st.objects| && st.objects[ref].id in st.table && st.table[st.objects[ref].id] != ref
  }

  /**
   Tidings of a session are taken for those of another that its id stands for: of the end of a
   ready one, or of its opening.
   */
  predicate Mistaken(st: Service, ref: nat, t: Tidings)
    requires Keyed(st) && ref < |st.objects|
  {
    Superseded(st, ref) && (t.Success? || (t.Failure? && HasReady(st, st.objects[ref].id)))
  }

  predicate Misdirected(st: Service, step: Step)
    requires Keyed(st)
  {
    (step.Connected? || step.Api?) && step.ref < |st.objects| && Mistaken(st, step.ref, StepTidings(st, step))
  }

  lemma CleanSnoc(log: seq<Note>, e: Note)
    ensures AllClean(log + [e]) <==> AllClean(log) && Clean(e)
  {
    assert e in log + [e];
    assert forall x <- log :: x in log + [e];
  }

  /** Closing by the id of a session that is not ready itself leaves a trace only of another, ready one. */
  lemma CloseTrace(st: Service, id: nat, cause: Cause)
    requires Keyed(st) && !cause.ClientLost? && AllClean(st.log)
    ensures AllClean(CloseIfThere(st, id, cause).log) <==> !HasReady(st, id)
  {
    if id in st.table {
      CleanSnoc(st.log, Closed(st.table[id], cause));
    }
  }

  lemma TellTrace(st: Service, ref: nat, failure: Option<M.Error>)
    requires Keyed(st) && ref < |st.objects|
    ensures AllClean(Tell(st, ref, failure).log)
      <==> AllClean(st.log) && (failure.None? ==> IsEntry(st, ref) && st.objects[ref].Ready())
  {
    CleanSnoc(st.log, Opened(ref, failure, IsEntry(st, ref), st.objects[ref].Ready()));
  }

  /** A failure of a session that is not ready closes cleanly unless its id stands for a ready one. */
  lemma FailureTrace(st: Service, ref: nat, e: Happening)
    requires Keyed(st) && ref < |st.objects| && AllClean(st.log) && TidingsOf(e).Failure?
    ensures AllClean(React(st, ref, e).log) <==> !HasReady(st, st.objects[ref].id)
  {
    var id := st.objects[ref].id;
    CloseTrace(st, id, if e.Reported? then ApiFailed else LoginFailed);
    if e.LoginDone? {
      TellTrace(CloseIfThere(st, id, LoginFailed), ref, e.failure);
    }
  }

  lemma SuccessTrace(st: Service, ref: nat, e: Happening)
    requires Keyed(st) && ref < |st.objects| && AllClean(st.log) && TidingsOf(e).Success? && st.objects[ref].Ready()
    ensures AllClean(React(st, ref, e).log) <==> !Superseded(st, ref)
  {
    TellTrace(st, ref, None);
  }

  /** Whether a session's id stands for a ready session other than it does not depend on the session. */
  lemma ReadyElsewhere(st: Service, ref: nat, s: Session)
    requires Keyed(st) && ref < |st.objects| && s.id == st.objects[ref].id && !s.Ready()
    ensures HasReady(Update(st, ref, s), s.id) <==> Superseded(st, ref) && HasReady(st, s.id)
  {
  }

  /** A session is ready after the step that tells of its success, and not after one that tells of its failure. */
  lemma TidingsAreTrue(s: Session, step: M.Step)
    requires SessionOk(s) && !s.phase.Connecting? && Allowed(step)
    ensures ApiTidings(s, step).Failure? ==> !Moved(s, step).Ready()
    ensures ApiTidings(s, step).Success? ==> Moved(s, step).Ready()
  {
    SessionStep(s, step);
  }

  lemma TidingsTrace(st: Service, ref: nat, s: Session, e: Happening)
    requires Keyed(st) && AllClean(st.log) && ref < |st.objects| && s.id == st.objects[ref].id
    requires (TidingsOf(e).Failure? ==> !s.Ready()) && (TidingsOf(e).Success? ==> s.Ready())
    ensures AllClean(React(Update(st, ref, s), ref, e).log) <==> !Mistaken(st, ref, TidingsOf(e))
  {
    var n := Update(st, ref, s);
    match TidingsOf(e)
    case Silence =>
    case Failure =>
      ReadyElsewhere(st, ref, s);
      FailureTrace(n, ref, e);
    case Success => SuccessTrace(n, ref, e);
  }

  lemma ApiTrace(st: Service, ref: nat, step: M.Step)
    requires Keyed(st) && Sane(st) && AllClean(st.log)
    requires ref < |st.objects| && !st.objects[ref].phase.Connecting? && Allowed(step)
    ensures AllClean(ApiStep(st, ref, step).log) <==> !Mistaken(st, ref, ApiTidings(st.objects[ref], step))
  {
    var s := st.objects[ref];
    var news := LastOf(Fresh(s.mux, step));
    ApiStepIs(st, ref, step);
    assert SessionOk(s);
    TidingsAreTrue(s, step);
    if news.Some? {
      TidingsTrace(st, ref, Moved(s, step), news.value);
    }
  }

  lemma ConnectTrace(st: Service, ref: nat, failure: Option<M.Error>)
    requires Keyed(st) && Sane(st) && AllClean(st.log) && ref < |st.objects| && st.objects[ref].phase.Connecting?
    ensures AllClean(Connect(st, ref, failure).log) <==> !(failure.Some? && Mistaken(st, ref, Failure))
  {
    var s := st.objects[ref];
    assert SessionOk(s);
    if failure.Some? && s.id in st.table {
      var n := Update(st, ref, s.(phase := Over));
      ReadyElsewhere(st, ref, s.(phase := Over));
      CloseTrace(n, s.id, ConnectFailed);
      TellTrace(Close(n, s.id, ConnectFailed), ref, failure);
    }
  }

  lemma OtherTrace(st: Service, step: Step)
    requires Keyed(st) && AllClean(st.log) && !step.Api? && !step.Connected?
    ensures AllClean(Next(st, step).log)
  {
    match step
    case Command(id) =>
      if HasReady(st, id) {
        CleanSnoc(st.log, Executed(st.table[id], true));
      }
    case Disconnected(id) =>
      if id in st.table {
        CleanSnoc(st.log, Closed(st.table[id], ClientLost));
      }
    case _ =>
  }

  /** One step keeps the callbacks clean exactly when it is not misdirected. */
  lemma CleanNextIff(st: Service, step: Step)
    requires Keyed(st) && Sane(st) && AllClean(st.log)
    ensures AllClean(Next(st, step).log) <==> !Misdirected(st, step)
  {
    match step
    case Connected(ref, failure) =>
      if ref < |st.objects| && st.objects[ref].phase.Connecting? {
        ConnectTrace(st, ref, failure);
      }
    case Api(ref, step) =>
      if ref < |st.objects| && !st.objects[ref].phase.Connecting? && Allowed(step) {
        ApiTrace(st, ref, step);
      }
    case _ => OtherTrace(st, step);
  }

  // ----- over runs -----

  lemma LogOnlyGrows(st: Service, step: Step)
    requires Keyed(st)
    ensures st.log <= Next(st, step).log
  {
    if step.Api? && step.ref < |st.objects| {
      ApiStepIs(st, step.ref, step.step);
    }
  }

  lemma CleanPrefix(log: seq<Note>, longer: seq<Note>)
    requires log <= longer && AllClean(longer)
    ensures AllClean(log)
  {
    assert forall e <- log :: e in longer;
  }

  ghost predicate NeverMisdirected(steps: seq<Step>) {
    forall i | 0 <= i < |steps| :: !Misdirected(Run(NO_SESSIONS, steps[..i]), steps[i])
  }

  lemma NeverMisdirectedSnoc(steps: seq<Step>, step: Step)
    ensures NeverMisdirected(steps + [step])
      <==> NeverMisdirected(steps) && !Misdirected(Run(NO_SESSIONS, steps), step)
  {
    var all := steps + [step];
    assert forall i | 0 <= i < |steps| :: all[..i] == steps[..i] && all[i] == steps[i];
    assert all[..|steps|] == steps && all[|steps|] == step;
    if NeverMisdirected(all) {
      assert !Misdirected(Run(NO_SESSIONS, all[..|steps|]), all[|steps|]);
      forall i | 0 <= i < |steps| ensures !Misdirected(Run(NO_SESSIONS, steps[..i]), steps[i]) {
        assert !Misdirected(Run(NO_SESSIONS, all[..i]), all[i]);
      }
    }
  }

  /**
   In every run, success is told only of the table's ready entry, and close callbacks are called
   only for lost clients, if and only if no session ever speaks while its id stands for another
   one that is ready, or is told of success while its id stands for another one at all.
   */
  lemma {:induction false} CallbacksAreCleanIff(steps: seq<Step>)
    ensures AllClean(Run(NO_SESSIONS, steps).log) <==> NeverMisdirected(steps)
  {
    if steps != [] {
      var init, last := steps[..|steps| - 1], steps[|steps| - 1];
      var st := Run(NO_SESSIONS, init);
      assert init + [last] == steps;
      CallbacksAreCleanIff(init);
      NeverMisdirectedSnoc(init, last);
      RunInv(init);
      LogOnlyGrows(st, last);
      if AllClean(st.log) {
        CleanNextIff(st, last);
      } else if AllClean(Next(st, last).log) {
        CleanPrefix(st.log, Next(st, last).log);
      }
    }
  }

  // ----- what one earlier session can do to a ready one -----

  ghost predicate OwnSteps(steps: seq<Step>, ref: nat) {
    forall i | 0 <= i < |steps| :: StepOf(steps[i], ref)
  }

  /** From the place on, a close callback of the session is called, but not for the loss of its client. */
  predicate BadlyClosed(log: seq<Note>, from: nat, ref: nat) {
    exists i | from <= i < |log| :: log[i].Closed? && log[i].ref == ref && !log[i].cause.ClientLost?
  }

  /** The ready entry is as it was. */
  predicate Untouched(st: Service, n: Service, id: nat)
    requires Keyed(st) && Keyed(n) && id in st.table
  {
    && id in n.table && n.table[id] == st.table[id] && st.log <= n.log
    && n.objects[n.table[id]] == st.objects[st.table[id]] && |n.objects| == |st.objects|
  }

  lemma BadlyClosedGrows(log: seq<Note>, longer: seq<Note>, from: nat, ref: nat)
    requires log <= longer && BadlyClosed(log, from, ref)
    ensures BadlyClosed(longer, from, ref)
  {
    var i :| from <= i < |log| && log[i].Closed? && log[i].ref == ref && !log[i].cause.ClientLost?;
    assert longer[i] == log[i];
  }

  lemma CloseIsNoted(st: Service, id: nat, cause: Cause, later: seq<Note>)
    requires Keyed(st) && HasReady(st, id) && !cause.ClientLost? && Close(st, id, cause).log <= later
    ensures BadlyClosed(later, |st.log|, st.table[id])
  {
    assert later[|st.log|] == Closed(st.table[id], cause);
  }

  /** A step of another session's leaves a ready entry alone or closes it, and notes that. */
  lemma ForeignReact(st: Service, id: nat, ref: nat, e: Happening)
    requires Keyed(st) && HasReady(st, id) && ref < |st.objects| && st.objects[ref].id == id
    ensures var n := React(st, ref, e);
      Untouched(st, n, id) || BadlyClosed(n.log, |st.log|, st.table[id])
  {
    match e
    case Reported(_) => CloseIsNoted(st, id, ApiFailed, React(st, ref, e).log);
    case LoginDone(_, Some(_)) => CloseIsNoted(st, id, LoginFailed, React(st, ref, e).log);
    case _ =>
  }

  lemma ForeignStep(st: Service, id: nat, first: nat, step: Step)
    requires Keyed(st) && HasReady(st, id)
    requires first < |st.objects| && st.objects[first].id == id && first != st.table[id]
    requires StepOf(step, first)
    ensures var n := Next(st, step);
      && |n.objects| == |st.objects| && n.objects[first].id == id
      && (Untouched(st, n, id) || BadlyClosed(n.log, |st.log|, st.table[id]))
  {
    var s := st.objects[first];
    match step
    case Connected(_, failure) =>
      if s.phase.Connecting? && failure.Some? {
        CloseIsNoted(Update(st, first, s.(phase := Over)), id, ConnectFailed, Next(st, step).log);
      }
    case Api(_, step) =>
      if !s.phase.Connecting? && Allowed(step) {
        ApiStepIs(st, first, step);
        var n, news := Update(st, first, Moved(s, step)), LastOf(Fresh(s.mux, step));
        if news.Some? {
          ForeignReact(n, id, first, news.value);
        }
      }
  }

  lemma {:induction false} ForeignSteps(st: Service, id: nat, first: nat, steps: seq<Step>)
    requires Keyed(st) && HasReady(st, id)
    requires first < |st.objects| && st.objects[first].id == id && first != st.table[id]
    requires OwnSteps(steps, first)
    ensures var n := Run(st, steps);
      (Untouched(st, n, id) && n.objects[first].id == id) || BadlyClosed(n.log, |st.log|, st.table[id])
  {
    if steps != [] {
      var init, last := steps[..|steps| - 1], steps[|steps| - 1];
      var m := Run(st, init);
      ForeignSteps(st, id, first, init);
      LogOnlyGrows(m, last);
      if BadlyClosed(m.log, |st.log|, st.table[id]) {
        BadlyClosedGrows(m.log, Next(m, last).log, |st.log|, st.table[id]);
      } else {
        ForeignStep(m, id, first, last);
        LaterIsNew(Next(m, last).log, |m.log|, |st.log|, st.table[id]);
      }
    }
  }

  lemma LaterIsNew(log: seq<Note>, from: nat, earlier: nat, ref: nat)
    requires earlier <= from
    ensures BadlyClosed(log, from, ref) ==> BadlyClosed(log, earlier, ref)
  {
  }

  /**
   No course of an earlier session's own handlers has the close callback of the ready session of
   its id called for anything but the loss of the client, if and only if the earlier one is over.
   */
  lemma ReadyIsSafeIff(st: Service, id: nat, first: nat)
    requires Keyed(st) && Sane(st) && HasReady(st, id)
    requires first < |st.objects| && st.objects[first].id == id && first != st.table[id]
    ensures Done(st.objects[first])
      <==> forall steps | OwnSteps(steps, first) :: !BadlyClosed(Run(st, steps).log, |st.log|, st.table[id])
  {
    if Done(st.objects[first]) {
      forall steps | OwnSteps(steps, first) ensures !BadlyClosed(Run(st, steps).log, |st.log|, st.table[id]) {
        DoneIsSilent(st, first, steps);
      }
    } else {
      var steps := SpeaksEvicts(st, first);
      assert OwnSteps(steps, first);
      ForeignSteps(st, id, first, steps);
      assert BadlyClosed(Run(st, steps).log, |st.log|, st.table[id]);
    }
  }

  // ----- what all earlier sessions together can do -----

  /** Steps of sessions of the id that are not the one in the table. */
  ghost predicate EarlierSteps(st: Service, id: nat, steps: seq<Step>) {
    forall i | 0 <= i < |steps| ::
      (steps[i].Connected? || steps[i].Api?) && steps[i].ref < |st.objects| && st.objects[steps[i].ref].id == id
      && !IsEntry(st, steps[i].ref)
  }

  /** All of the id but the one in the table, up to a place in the order of creation, are over. */
  ghost predicate EarlierDone(st: Service, id: nat, count: nat, entry: nat) {
    count <= |st.objects|
    && forall ref: nat | ref < count && ref != entry && st.objects[ref].id == id ::
         SessionOk(st.objects[ref]) && Done(st.objects[ref])
  }

  lemma EarlierStep(st: Service, id: nat, count: nat, entry: nat, step: Step)
    requires Keyed(st) && EarlierDone(st, id, count, entry)
    requires (step.Connected? || step.Api?) && step.ref < count && step.ref != entry && st.objects[step.ref].id == id
    ensures var n := Next(st, step);
      && n.table == st.table && n.log == st.log && EarlierDone(n, id, count, entry)
      && forall ref: nat | ref < count :: n.objects[ref].id == st.objects[ref].id
  {
    DoneSays(st, step.ref, step);
    OthersUntouched(st, step.ref, step);
  }

  lemma OthersUntouched(st: Service, ref: nat, step: Step)
    requires Keyed(st) && ref < |st.objects| && StepOf(step, ref)
    ensures var n := Next(st, step);
      |n.objects| == |st.objects| && forall r: nat | r < |st.objects| && r != ref :: n.objects[r] == st.objects[r]
  {
    if step.Api? {
      ApiStepIs(st, ref, step.step);
    }
  }

  lemma {:induction false} EarlierAreSilent(st: Service, id: nat, count: nat, entry: nat, steps: seq<Step>)
    requires Keyed(st) && EarlierDone(st, id, count, entry)
    requires forall i | 0 <= i < |steps| ::
      (steps[i].Connected? || steps[i].Api?)
      && steps[i].ref < count && steps[i].ref != entry && st.objects[steps[i].ref].id == id
    ensures var n := Run(st, steps);
      && n.table == st.table && n.log == st.log && EarlierDone(n, id, count, entry)
      && forall ref: nat | ref < count :: n.objects[ref].id == st.objects[ref].id
  {
    if steps != [] {
      EarlierAreSilent(st, id, count, entry, steps[..|steps| - 1]);
      EarlierStep(Run(st, steps[..|steps| - 1]), id, count, entry, steps[|steps| - 1]);
    }
  }

  lemma EarlierCannotEvict(st: Service, id: nat, steps: seq<Step>)
    requires Keyed(st) && Sane(st) && id !in st.table && OthersDone(st, id) && EarlierSteps(st, id, steps)
    ensures id in Run(Create(st, id), steps).table
  {
    var n := Create(st, id);
    forall ref: nat | ref < |st.objects| && st.objects[ref].id == id
      ensures SessionOk(n.objects[ref]) && Done(n.objects[ref])
    {
      assert !IsEntry(st, ref) && n.objects[ref] == st.objects[ref];
    }
    assert EarlierDone(n, id, |st.objects|, |st.objects|);
    EarlierAreSilent(n, id, |st.objects|, |st.objects|, steps);
  }

  lemma EarlierCanEvict(st: Service, id: nat) returns (steps: seq<Step>)
    requires Keyed(st) && id !in st.table && !OthersDone(st, id)
    ensures EarlierSteps(st, id, steps) && id !in Run(Create(st, id), steps).table
  {
    var ref: nat :| ref < |st.objects| && st.objects[ref].id == id && !IsEntry(st, ref) && !Done(st.objects[ref]);
    steps := SpeaksEvicts(Create(st, id), ref);
  }

  /**
   When an id is opened again, no interleaving of the handlers of its earlier sessions takes the
   new session out of the table, if and only if all of them are over.
   */
  lemma ReopenIsSafeIff(st: Service, id: nat)
    requires Keyed(st) && Reached(st) && id !in st.table
    ensures OthersDone(st, id)
      <==> forall steps | EarlierSteps(st, id, steps) :: id in Run(Next(st, Open(id)), steps).table
  {
    ReachedInv(st);
    assert Next(st, Open(id)) == Create(st, id);
    if OthersDone(st, id) {
      forall steps | EarlierSteps(st, id, steps) ensures id in Run(Create(st, id), steps).table {
        EarlierCannotEvict(st, id, steps);
      }
    } else {
      var steps := EarlierCanEvict(st, id);
      assert id !in Run(Create(st, id), steps).table;
    }
  }

  /**
   No interleaving of the handlers of earlier sessions has the close callback of the ready session
   of their id called for anything but the loss of the client, if and only if all of them are over.
   */
  lemma ReadyIsSafeFromAllIff(st: Service, id: nat)
    requires Keyed(st) && Sane(st) && HasReady(st, id)
    ensures OthersDone(st, id)
      <==> forall steps | EarlierSteps(st, id, steps) :: !BadlyClosed(Run(st, steps).log, |st.log|, st.table[id])
  {
    var entry := st.table[id];
    if OthersDone(st, id) {
      forall ref: nat | ref < |st.objects| && ref != entry && st.objects[ref].id == id ensures Done(st.objects[ref]) {
        assert !IsEntry(st, ref);
      }
      forall steps | EarlierSteps(st, id, steps)
        ensures !BadlyClosed(Run(st, steps).log, |st.log|, st.table[id])
      {
        EarlierAreSilent(st, id, |st.objects|, entry, steps);
      }
    } else {
      var ref: nat :| ref < |st.objects| && st.objects[ref].id == id && !IsEntry(st, ref) && !Done(st.objects[ref]);
      ReadyIsSafeIff(st, id, ref);
      var steps :| OwnSteps(steps, ref) && BadlyClosed(Run(st, steps).log, |st.log|, st.table[id]);
      assert EarlierSteps(st, id, steps);
    }
  }

  // ----- entries that are left behind -----

  /**
   However things go on, an entry stays until its client is lost, if and only if every session
   of its id is over.
   */
  lemma StuckIff(st: Service, id: nat)
    requires Keyed(st) && Inv(st) && id in st.table
    ensures AllDone(st, id) <==> forall steps | Disconnected(id) !in steps :: id in Run(st, steps).table
  {
    if AllDone(st, id) {
      forall steps | Disconnected(id) !in steps ensures id in Run(st, steps).table {
        StuckUntilLost(st, id, steps);
      }
    } else {
      var ref: nat :| ref < |st.objects| && st.objects[ref].id == id && !Done(st.objects[ref]);
      var steps := SpeaksEvicts(st, ref);
      assert Disconnected(id) !in steps;
      assert id !in Run(st, steps).table;
    }
  }

  lemma UserWriteFails(s: Session, step: M.Step)
    requires SessionOk(s) && s.mux.loggedIn && step.SendDone?
    ensures var es := Fresh(s.mux, step); es != [] ==> !Concerns(es[|es| - 1])
  {
    LoggedInWaitsForNone(s);
    FreshCalls(s.mux, step);
    assert step.serial in s.mux.books.inFlight ==> Whose(s.mux.books.inFlight[step.serial], None);
  }

  lemma AbortIsSilent(m: M.Mux, step: M.Step)
    requires m.link.Open? && M.Next(m, step).link.Aborted?
    ensures Fresh(m, step) == []
  {
    FreshCalls(m, step);
  }

  /**
   When the connection of a ready entry ends, the entry stays if and only if a write failed or
   the program has aborted.
   */
  lemma EntryLeftIff(st: Service, id: nat, step: M.Step)
    requires Keyed(st) && Sane(st) && HasReady(st, id) && Allowed(step)
    requires !M.Next(st.objects[st.table[id]].mux, step).link.Open?
    ensures id in Next(st, Api(st.table[id], step)).table
      <==> step.SendDone? || M.Next(st.objects[st.table[id]].mux, step).link.Aborted?
  {
    var ref := st.table[id];
    var s := st.objects[ref];
    assert SessionOk(s);
    ApiStepIs(st, ref, step);
    EndIsReportedUnless(s.mux, step);
    if step.SendDone? {
      UserWriteFails(s, step);
    } else if M.Next(s.mux, step).link.Aborted? {
      AbortIsSilent(s.mux, step);
    }
  }

  lemma EndedIsMute(s: Session, step: M.Step)
    requires SessionOk(s) && s.Ready() && Allowed(step) && !M.Next(s.mux, step).link.Open?
    ensures Mute(M.Next(s.mux, step))
  {
    var n := M.Next(s.mux, step);
    LoggedInWaitsForNone(s);
    WaitingNext(s.mux, step, None);
    forall r | r in n.books.posted ensures r.Login().None? {
      assert Whose(r, None);
    }
    forall k | k in n.books.inFlight ensures n.books.inFlight[k].Login().None? {
      assert Whose(n.books.inFlight[k], None);
    }
  }

  /**
   When the connection of a ready entry of a careful run ends, the entry stays until its client is
   lost, however things go on, if and only if a write failed or the program has aborted.
   */
  lemma StrandedIff(st: Service, id: nat, step: M.Step)
    requires Keyed(st) && CarefullyReached(st) && HasReady(st, id) && Allowed(step)
    requires !M.Next(st.objects[st.table[id]].mux, step).link.Open?
    ensures (forall after | Disconnected(id) !in after :: id in Run(Next(st, Api(st.table[id], step)), after).table)
      <==> step.SendDone? || M.Next(st.objects[st.table[id]].mux, step).link.Aborted?
  {
    CarefulIsTidy(st);
    var ref := st.table[id];
    var n := Next(st, Api(ref, step));
    EntryLeftIff(st, id, step);
    NextInv(st, Api(ref, step));
    if id in n.table {
      LeftEntryIsDone(st, id, step);
      StuckIff(n, id);
    } else {
      assert Run(n, []) == n && Disconnected(id) !in [];
    }
  }

  lemma LeftEntryIsDone(st: Service, id: nat, step: M.Step)
    requires Keyed(st) && Tidy(st) && HasReady(st, id) && Allowed(step)
    requires !M.Next(st.objects[st.table[id]].mux, step).link.Open?
    ensures AllDone(Next(st, Api(st.table[id], step)), id)
  {
    var ref := st.table[id];
    var s := st.objects[ref];
    assert SessionOk(s) && OthersDone(st, id);
    EndedIsMute(s, step);
    OnlyEntryLeft(st, ref, Moved(s, step));
    ApiStepIs(st, ref, step);
  }

  // ----- when a failed write calls back -----

  /**
   A failed write calls back before the connection is closed. What the service does then is what
   it does when the step is over.
   */
  lemma CallingBackEarly(st: Service, ref: nat, serial: nat, err: M.Error)
    requires Keyed(st) && Sane(st) && ref < |st.objects| && st.objects[ref].mux.link.Open?
    requires serial in st.objects[ref].mux.books.inFlight
    ensures var s, step := st.objects[ref], M.SendDone(serial, Some(err));
      var early := s.(mux := s.mux.(books := NotWritten(s.mux.books, serial, err)));
      Update(ReactAll(Update(st, ref, early), ref, Fresh(s.mux, step)), ref, Moved(s, step)) == ApiStep(st, ref, step)
  {
    var s, step := st.objects[ref], M.SendDone(serial, Some(err));
    var early := s.(mux := s.mux.(books := NotWritten(s.mux.books, serial, err)));
    assert SessionOk(s);
    FreshCalls(s.mux, step);
    OnlyLastConcerns(s.mux, step);
    ReactToLast(Update(st, ref, early), ref, Fresh(s.mux, step));
    ApiStepIs(st, ref, step);
    if s.mux.loggedIn {
      UserWriteFails(s, step);
    } else {
      ReactsAlike(st, ref, early, Moved(s, step), LastOf(Fresh(s.mux, step)).value);
    }
  }

  lemma ReactsAlike(st: Service, ref: nat, s: Session, n: Session, e: Happening)
    requires Keyed(st) && ref < |st.objects| && s.id == n.id == st.objects[ref].id && !s.Ready() && !n.Ready()
    ensures Update(React(Update(st, ref, s), ref, e), ref, n) == React(Update(st, ref, n), ref, e)
  {
  }
}
