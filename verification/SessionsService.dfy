/** sessions_service, with its table updated in place by the callbacks of its sessions. */
module SessionsService {
  import opened Options
  import opened Requests
  import opened SessionLink
  import S = Sessions
  import opened SessionRuns
  import opened SessionTheorems
  import M = Multiplexer

  class SessionsService {
    var sessions: map<nat, nat>
    var objects: seq<S.Session>
    var log: seq<S.Note>

    ghost function View(): S.Service
      reads this
    {
      S.Service(objects, sessions, log)
    }

    /** The history of the service is a run. */
    ghost predicate Valid()
      reads this
    {
      S.Keyed(View()) && Reached(View())
    }

    constructor ()
      ensures Valid() && View() == S.NO_SESSIONS
    {
      sessions, objects, log := map[], [], [];
      new;
      StartIsReached();
    }

    predicate Has(id: nat)
      reads this`sessions
    {
      id in sessions
    }

    predicate HasReady(id: nat)
      requires S.Keyed(View())
      reads this
    {
      Has(id) && objects[sessions[id]].Ready()
    }

    /** create, which asserts that there is no such session. */
    method Create(id: nat)
      requires S.Keyed(View()) && !Has(id)
      modifies this`objects, this`sessions
      ensures View() == S.Create(old(View()), id)
    {
      sessions := sessions[id := |objects|];
      objects := objects + [S.Session(id, M.INITIAL, S.Connecting)];
    }

    /** close, which asserts that there is such a session and that it has the id. */
    method Close(id: nat, cause: S.Cause)
      requires S.Keyed(View()) && Has(id)
      modifies this`sessions, this`log
      ensures View() == S.Close(old(View()), id, cause)
    {
      var ref := sessions[id];
      assert objects[ref].id == id;
      if objects[ref].Ready() {
        log := log + [S.Closed(ref, cause)];
      }
      sessions := sessions - {id};
    }

    method Tell(ref: nat, failure: Option<M.Error>)
      requires S.Keyed(View()) && ref < |objects|
      modifies this`log
      ensures View() == S.Tell(old(View()), ref, failure)
    {
      var id := objects[ref].id;
      log := log + [S.Opened(ref, failure, Has(id) && sessions[id] == ref, objects[ref].Ready())];
    }

    /** on_close: an error of a connection closes whatever its session's id stands for. */
    method OnClose(ref: nat)
      requires S.Keyed(View()) && ref < |objects|
      modifies this`sessions, this`log
      ensures View() == S.CloseIfThere(old(View()), objects[ref].id, S.ApiFailed)
    {
      if Has(objects[ref].id) {
        Close(objects[ref].id, S.ApiFailed);
      }
    }

    /** The connect handler that create gives to open, which asserts that the session is not ready. */
    method OnConnected(ref: nat, failure: Option<M.Error>)
      requires Valid() && ref < |objects| && objects[ref].phase.Connecting?
      modifies this`objects, this`sessions, this`log
      ensures Valid() && View() == S.Next(old(View()), S.Connected(ref, failure))
    {
      ReachedNext(View(), S.Connected(ref, failure));
      assert !objects[ref].Ready() by {
        ReachedInv(View());
        assert SessionOk(objects[ref]);
      }
      if failure.Some? {
        NotConnected(ref, failure);
      } else {
        StartLogin(ref);
      }
    }

    method NotConnected(ref: nat, failure: Option<M.Error>)
      requires S.Keyed(View()) && ref < |objects| && failure.Some?
      modifies this`objects, this`sessions, this`log
      ensures View() == S.Connect(old(View()), ref, failure)
    {
      var id := objects[ref].id;
      objects := objects[ref := objects[ref].(phase := S.Over)];
      if !Has(id) {
        return;
      }
      Close(id, S.ConnectFailed);
      Tell(ref, failure);
    }

    method StartLogin(ref: nat)
      requires S.Keyed(View()) && ref < |objects|
      modifies this`objects
      ensures View() == S.Connect(old(View()), ref, None)
    {
      var s := objects[ref];
      s := s.(mux := M.Next(s.mux, M.Connect), phase := S.Over);
      if Has(s.id) {
        s := s.(mux := M.Next(s.mux, M.Login), phase := S.LoggingIn);
      }
      objects := objects[ref := s];
    }

    /** The login handler that create gives to the connection. */
    method OnLogin(ref: nat, failure: Option<M.Error>)
      requires S.Keyed(View()) && ref < |objects| && (failure.None? <==> objects[ref].Ready())
      modifies this`sessions, this`log
      ensures forall login :: View() == S.React(old(View()), ref, LoginDone(login, failure))
    {
      var id := objects[ref].id;
      if failure.Some? {
        assert !objects[ref].Ready();
        if Has(id) {
          Close(id, S.LoginFailed);
        }
        Tell(ref, failure);
      } else if Has(id) {
        assert objects[ref].Ready();
        Tell(ref, None);
      }
    }

    /** A handler of a session's connection runs, and the service hears of it. */
    method OnHandler(ref: nat, step: M.Step)
      requires Valid() && ref < |objects| && !objects[ref].phase.Connecting? && Allowed(step)
      modifies this`objects, this`sessions, this`log
      ensures Valid() && View() == S.Next(old(View()), S.Api(ref, step))
    {
      ReachedNext(View(), S.Api(ref, step));
      var s := objects[ref];
      ReachedInv(View());
      TellsTruth(s, step);
      objects := objects[ref := s.(mux := M.Next(s.mux, step))];
      HearAll(ref, Fresh(s.mux, step));
    }

    /**
     Logins are told to have succeeded just when the session is ready, which it was not before,
     as the handlers assert.
     */
    static lemma TellsTruth(s: S.Session, step: M.Step)
      requires SessionOk(s) && !s.phase.Connecting? && Allowed(step)
      ensures forall e <- Fresh(s.mux, step) :: e.LoginDone? ==> (e.failure.None? <==> Moved(s, step).Ready())
      ensures forall e <- Fresh(s.mux, step) :: e.LoginDone? ==> !s.Ready()
    {
      SessionStep(s, step);
      OnlyLastConcerns(s.mux, step);
    }

    method HearAll(ref: nat, es: seq<Happening>)
      requires S.Keyed(View()) && ref < |objects|
      requires forall e <- es :: e.LoginDone? ==> (e.failure.None? <==> objects[ref].Ready())
      modifies this`sessions, this`log
      ensures View() == S.ReactAll(old(View()), ref, es)
    {
      ghost var was := View();
      for i := 0 to |es|
        invariant S.Keyed(View()) && View() == S.ReactAll(was, ref, es[..i])
      {
        assert es[..i + 1][..i] == es[..i];
        Hear(ref, es[i]);
      }
      assert es[..|es|] == es;
    }

    method Hear(ref: nat, e: Happening)
      requires S.Keyed(View()) && ref < |objects|
      requires e.LoginDone? ==> (e.failure.None? <==> objects[ref].Ready())
      modifies this`sessions, this`log
      ensures View() == S.React(old(View()), ref, e)
    {
      match e {
        case Reported(_) => OnClose(ref);
        case LoginDone(_, failure) => OnLogin(ref, failure);
        case _ =>
      }
    }

    /** The open command: a ready session, a pending one, or a new one. */
    method OpenCommand(id: nat) returns (refusal: Option<S.Refusal>)
      requires Valid()
      modifies this`objects, this`sessions
      ensures Valid() && View() == S.Next(old(View()), S.Open(id))
      ensures refusal == S.RefuseOpen(old(View()), id)
    {
      ReachedNext(View(), S.Open(id));
      if HasReady(id) {
        refusal := Some(S.AlreadyOpen);
      } else if Has(id) {
        refusal := Some(S.Pending);
      } else {
        refusal := None;
        Create(id);
      }
    }

    /** session_required_command: nothing is executed without a ready session. */
    method SessionRequired(id: nat) returns (executed: bool)
      requires Valid()
      modifies this`objects, this`log
      ensures Valid() && View() == S.Next(old(View()), S.Command(id)) && executed == old(HasReady(id))
    {
      ReachedNext(View(), S.Command(id));
      executed := HasReady(id);
      if executed {
        Execute(sessions[id]);
      }
    }

    method Execute(ref: nat)
      requires S.Keyed(View()) && ref < |objects| && S.IsEntry(View(), ref) && objects[ref].Ready()
      modifies this`objects, this`log
      ensures View() == S.Execute(old(View()), old(objects[ref].id))
    {
      var s := objects[ref];
      objects := objects[ref := s.(mux := M.Next(s.mux, M.MakeRequest))];
      log := log + [S.Executed(ref, true)];
    }

    /** The disconnection hook. */
    method OnDisconnected(id: nat)
      requires Valid()
      modifies this`sessions, this`log
      ensures Valid() && View() == S.Next(old(View()), S.Disconnected(id)) && !Has(id)
    {
      ReachedNext(View(), S.Disconnected(id));
      if Has(id) {
        Close(id, S.ClientLost);
      }
    }

    /** So what holds of every run holds of the service between handlers. */
    lemma LivesAsRuns(ref: nat, id: nat)
      requires Valid()
      ensures OpenCount(log, ref) <= 1 && CloseCount(log, ref) <= 1
      ensures Has(id) ==> objects[sessions[id]].id == id
    {
      CallbacksOnce(View(), ref);
      ReachedInv(View());
    }
  }
}
