/**
 What each step does to the sessions, written out in full: who is called with what, which entry
 goes, and which session changes; and what of it is certain over whole runs.
 */
module SessionSteps {
  import opened Options
  import opened Requests
  import opened SessionLink
  import opened Sessions
  import opened SessionRuns
  import opened SessionTheorems
  import opened SessionExactness
  import M = Multiplexer

  // ----- the table and the callbacks -----

  /** A client that is lost: the close callback of a ready session is called, and the entry goes. */
  lemma LossCloses(st: Service, id: nat)
    requires Keyed(st)
    ensures HasReady(st, id) ==> Next(st, Disconnected(id)) == st.(
      table := st.table - {id}, log := st.log + [Closed(st.table[id], ClientLost)])
    ensures id in st.table && !HasReady(st, id) ==> Next(st, Disconnected(id)) == st.(table := st.table - {id})
    ensures id !in st.table ==> Next(st, Disconnected(id)) == st
  {
  }

  /** A request to open: refused if there is an entry, in one of two ways, and otherwise a new session. */
  lemma OpenIsOneOfThree(st: Service, id: nat)
    requires Keyed(st)
    ensures id in st.table && st.objects[st.table[id]].mux.link.Open? && st.objects[st.table[id]].mux.loggedIn ==>
      RefuseOpen(st, id) == Some(AlreadyOpen) && Next(st, Open(id)) == st
    ensures id in st.table && !(st.objects[st.table[id]].mux.link.Open? && st.objects[st.table[id]].mux.loggedIn) ==>
      RefuseOpen(st, id) == Some(Pending) && Next(st, Open(id)) == st
    ensures id !in st.table ==>
      && RefuseOpen(st, id) == None
      && Next(st, Open(id)) == st.(
           objects := st.objects + [Session(id, M.INITIAL, Connecting)], table := st.table[id := |st.objects|])
  {
  }

  /** Closing by the id: the close callback is called exactly if the entry is ready. */
  function ClosingNotes(st: Service, id: nat, cause: Cause): seq<Note>
    requires Keyed(st)
  {
    if HasReady(st, id) then [Closed(st.table[id], cause)] else []
  }

  /** A session that cannot connect takes its id out of the table and its open callback is told. */
  lemma CannotConnect(st: Service, ref: nat, err: M.Error)
    requires Keyed(st) && ref < |st.objects| && st.objects[ref].phase.Connecting? && st.objects[ref].mux == M.INITIAL
    ensures var s, n := st.objects[ref], Next(st, Connected(ref, Some(err)));
      && n.objects == st.objects[ref := s.(phase := Over)]
      && n.table == st.table - {s.id}
      && n.log == if s.id in st.table
           then st.log + ClosingNotes(st, s.id, ConnectFailed) + [Opened(ref, Some(err), false, false)] else st.log
  {
    var s, n := st.objects[ref], Next(st, Connected(ref, Some(err)));
    if s.id in st.table {
      assert HasReady(Update(st, ref, s.(phase := Over)), s.id) == HasReady(st, s.id);
      if !HasReady(st, s.id) {
        assert st.log + [] == st.log;
      }
    } else {
      assert st.table - {s.id} == st.table;
    }
  }

  /** A session that has connected logs in, if its id is in the table. */
  lemma Connects(st: Service, ref: nat)
    requires Keyed(st) && ref < |st.objects| && st.objects[ref].phase.Connecting? && st.objects[ref].mux == M.INITIAL
    ensures var s, n := st.objects[ref], Next(st, Connected(ref, None));
      && n.table == st.table && n.log == st.log
      && n.objects == st.objects[ref :=
           if s.id in st.table then s.(mux := ASKED, phase := LoggingIn) else s.(mux := CONNECTED, phase := Over)]
      && CONNECTED == M.INITIAL.(link := M.Open) && ASKED.link.Open? && ASKED.books.posted == [Request(0, Login1)]
  {
    FirstSteps();
  }

  /** A step of a connection moves that connection, and then the service hears of it, if there is anything. */
  lemma ConnectionMoves(st: Service, ref: nat, step: M.Step)
    requires Keyed(st) && ref < |st.objects| && !st.objects[ref].phase.Connecting? && Allowed(step)
    ensures var s, n := st.objects[ref], Next(st, Api(ref, step));
      && n.objects == st.objects[ref := s.(mux := M.Next(s.mux, step))]
      && match LastOf(Fresh(s.mux, step))
         case Some(Reported(_)) =>
           n.table == st.table - {s.id} && Noted(st, n, ref, ApiFailed, [])
         case Some(LoginDone(_, Some(err))) =>
           && n.table == st.table - {s.id}
           && Noted(st, n, ref, LoginFailed, [Opened(ref, Some(err), false, n.objects[ref].Ready())])
         case Some(LoginDone(_, None)) =>
           && n.table == st.table
           && n.log == if s.id in st.table
                then st.log + [Opened(ref, None, st.table[s.id] == ref, n.objects[ref].Ready())] else st.log
         case _ => n.table == st.table && n.log == st.log
  {
    var s := st.objects[ref];
    ApiStepIs(st, ref, step);
    if s.id !in st.table {
      assert st.table - {s.id} == st.table;
    }
  }

  /** The entry's close callback, if it is ready after the step, and then these notes. */
  ghost predicate Noted(st: Service, n: Service, ref: nat, cause: Cause, more: seq<Note>)
    requires Keyed(st) && Keyed(n) && ref < |st.objects| && |n.objects| == |st.objects|
    requires forall id <- st.table :: st.table[id] < |n.objects|
  {
    var id := st.objects[ref].id;
    n.log == st.log
      + (if id in st.table && n.objects[st.table[id]].Ready() then [Closed(st.table[id], cause)] else []) + more
  }

  /** A command makes a request of the ready session of its client, and of none other. */
  lemma CommandIsExecuted(st: Service, id: nat)
    requires Keyed(st)
    ensures HasReady(st, id) ==>
      var ref := st.table[id];
      var s := st.objects[ref];
      Next(st, Command(id)) == st.(
        objects := st.objects[ref := s.(mux := M.Next(s.mux, M.MakeRequest))], log := st.log + [Executed(ref, true)])
    ensures !HasReady(st, id) ==> Next(st, Command(id)) == st
  {
  }

  /** A session that is dropped closes its connection; one in the table, or still connecting, is not dropped. */
  lemma DroppingCloses(st: Service, ref: nat)
    requires Keyed(st) && ref < |st.objects|
    ensures var s := st.objects[ref];
      Next(st, Destroy(ref)) ==
        if !s.phase.Connecting? && !IsEntry(st, ref) && s.mux.link.Open?
        then st.(objects := st.objects[ref := s.(mux := s.mux.(link := M.Shut))]) else st
  {
    var s := st.objects[ref];
    assert st.objects[ref := s] == st.objects;
  }

  // ----- over runs -----

  lemma {:induction false} CountsGrow(log: seq<Note>, longer: seq<Note>, ref: nat)
    requires log <= longer
    ensures CloseCount(log, ref) <= CloseCount(longer, ref)
    decreases |longer|
  {
    if |log| < |longer| {
      CountsGrow(log, longer[..|longer| - 1], ref);
    } else {
      assert log == longer;
    }
  }

  lemma {:induction false} NotesGrowOverRuns(st: Service, steps: seq<Step>)
    requires Keyed(st)
    ensures st.log <= Run(st, steps).log
  {
    if steps != [] {
      NotesGrowOverRuns(st, steps[..|steps| - 1]);
      LogOnlyGrows(Run(st, steps[..|steps| - 1]), steps[|steps| - 1]);
    }
  }

  lemma {:induction false} ReachedOnward(st: Service, steps: seq<Step>)
    requires Keyed(st) && Reached(st)
    ensures Reached(Run(st, steps))
  {
    if steps != [] {
      ReachedOnward(st, steps[..|steps| - 1]);
      ReachedNext(Run(st, steps[..|steps| - 1]), steps[|steps| - 1]);
    }
  }

  /**
   When a client is lost whose session is ready, the close callback of the session is called, and
   that is its only call, however things have gone and go on.
   */
  lemma LossClosesOnce(st: Service, id: nat, after: seq<Step>)
    requires Keyed(st) && Reached(st) && HasReady(st, id)
    ensures CloseCount(st.log, st.table[id]) == 0
    ensures CloseCount(Run(Next(st, Disconnected(id)), after).log, st.table[id]) == 1
  {
    var ref, n := st.table[id], Next(st, Disconnected(id));
    LossCloses(st, id);
    ReachedInv(st);
    assert IsEntry(st, ref) && CloseCount(st.log, ref) <= CloseLimit(st, ref);
    CountSnoc(st.log, Closed(ref, ClientLost), ref);
    ReachedNext(st, Disconnected(id));
    ReachedOnward(n, after);
    CallbacksOnce(Run(n, after), ref);
    NotesGrowOverRuns(n, after);
    CountsGrow(n.log, Run(n, after).log, ref);
  }

  lemma RunVia(before: seq<Step>, step: Step, after: seq<Step>)
    ensures Run(NO_SESSIONS, before + [step] + after) == Run(Next(Run(NO_SESSIONS, before), step), after)
  {
    RunAppend(NO_SESSIONS, before + [step], after);
    assert (before + [step])[..|before|] == before;
  }

  lemma Splits<T>(s: seq<T>, i: nat)
    requires i < |s|
    ensures s == s[..i] + [s[i]] + s[i + 1..]
  {
  }

  lemma RunSplit(steps: seq<Step>, i: nat)
    requires i < |steps|
    ensures Run(NO_SESSIONS, steps) == Run(Next(Run(NO_SESSIONS, steps[..i]), steps[i]), steps[i + 1..])
  {
    Splits(steps, i);
    RunVia(steps[..i], steps[i], steps[i + 1..]);
  }

  /** The same of a client's loss anywhere in a run. */
  lemma RunIsClosedOnce(steps: seq<Step>, id: nat, i: nat)
    requires i < |steps| && steps[i] == Disconnected(id) && HasReady(Run(NO_SESSIONS, steps[..i]), id)
    ensures CloseCount(Run(NO_SESSIONS, steps).log, Run(NO_SESSIONS, steps[..i]).table[id]) == 1
  {
    var st := Run(NO_SESSIONS, steps[..i]);
    assert Reached(st);
    RunSplit(steps, i);
    LossClosesOnce(st, id, steps[i + 1..]);
  }
}
