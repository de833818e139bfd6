/**
 Clients over their sessions: the open commands that a client's connection delivers, and the
 disconnection hook that runs with its one error, are what drives the sessions of its id.
 */
module Clients {
  import opened TcpClient
  import Frames
  import S = Sessions
  import SessionTheorems
  import SessionRuns
  import SessionSteps

  /** The numbers of the open command, and of the commands that need a session. */
  datatype Numbers = Numbers(open: Frames.Word32, sessions: set<Frames.Word32>)

  /** What an occurrence on the connection of a client does to the sessions. */
  function Effect(numbers: Numbers, id: nat, o: Occurrence): seq<S.Step> {
    match o
    case Requested(request) =>
      if request.header.code == numbers.open then [S.Open(id)]
      else if request.header.code in numbers.sessions then [S.Command(id)]
      else []
    case Later(_) => []
    case Lost(_) => [S.Disconnected(id)]
  }

  function Effects(numbers: Numbers, id: nat, history: seq<Occurrence>): seq<S.Step> {
    if history == [] then []
    else Effects(numbers, id, history[..|history| - 1]) + Effect(numbers, id, history[|history| - 1])
  }

  /** The steps that only the connection of a client makes. */
  predicate OfClient(step: S.Step, id: nat) {
    step == S.Open(id) || step == S.Command(id) || step == S.Disconnected(id)
  }

  function StepsOf(steps: seq<S.Step>, id: nat): seq<S.Step> {
    if steps == [] then []
    else
      var last := steps[|steps| - 1];
      StepsOf(steps[..|steps| - 1], id) + if OfClient(last, id) then [last] else []
  }

  /** Among all that happens to the sessions, this client's part is what its history does. */
  ghost predicate Drives(numbers: Numbers, id: nat, history: seq<Occurrence>, steps: seq<S.Step>) {
    StepsOf(steps, id) == Effects(numbers, id, history)
  }

  /** A request opens a session, or executes a command that needs one, or has nothing to do with sessions. */
  lemma EffectsAreOneOfThree(numbers: Numbers, id: nat, history: seq<Occurrence>, request: Frames.Message)
    ensures var es, more := Effects(numbers, id, history), Effects(numbers, id, history + [Requested(request)]);
      && (request.header.code == numbers.open ==> more == es + [S.Open(id)])
      && (request.header.code != numbers.open && request.header.code in numbers.sessions ==>
            more == es + [S.Command(id)])
      && (request.header.code != numbers.open && request.header.code !in numbers.sessions ==> more == es)
    ensures forall reply :: Effects(numbers, id, history + [Later(reply)]) == Effects(numbers, id, history)
    ensures forall err ::
      Effects(numbers, id, history + [Lost(err)]) == Effects(numbers, id, history) + [S.Disconnected(id)]
  {
    assert forall o :: (history + [o])[..|history|] == history;
  }

  /** After the last disconnection there is nothing. */
  ghost predicate EndsDisconnected(steps: seq<S.Step>, id: nat) {
    forall i | 0 <= i < |steps| && steps[i] == S.Disconnected(id) :: i == |steps| - 1
  }

  lemma {:induction false} NothingLost(numbers: Numbers, id: nat, history: seq<Occurrence>)
    requires forall o <- history :: !o.Lost?
    ensures S.Disconnected(id) !in Effects(numbers, id, history)
  {
    if history != [] {
      NothingLost(numbers, id, history[..|history| - 1]);
    }
  }

  lemma {:induction false} LossIsLastEffect(numbers: Numbers, id: nat, history: seq<Occurrence>)
    requires EndsWithLoss(history)
    ensures EndsDisconnected(Effects(numbers, id, history), id)
  {
    if history != [] {
      var init, last := history[..|history| - 1], history[|history| - 1];
      assert EndsWithLoss(init) by {
        assert forall i | 0 <= i < |init| :: init[i] == history[i];
      }
      LossIsLastEffect(numbers, id, init);
      if !last.Later? {
        forall o | o in init ensures !o.Lost? {
          var i :| 0 <= i < |init| && init[i] == o;
          assert history[i] == o;
        }
        NothingLost(numbers, id, init);
      }
    }
  }

  lemma {:induction false} SomethingLost(numbers: Numbers, id: nat, history: seq<Occurrence>)
    requires exists o <- history :: o.Lost?
    ensures S.Disconnected(id) in Effects(numbers, id, history)
  {
    if !history[|history| - 1].Lost? {
      assert exists o <- history[..|history| - 1] :: o.Lost?;
      SomethingLost(numbers, id, history[..|history| - 1]);
    }
  }

  lemma {:induction false} ErrorsAreLosses(
      history: seq<Occurrence>, requests: seq<Frames.Message>, errors: seq<Error>)
    requires Recorded(history, requests, errors)
    ensures errors != [] <==> exists o <- history :: o.Lost?
  {
    if history != [] {
      var init, last := history[..|history| - 1], history[|history| - 1];
      match last
      case Requested(_) => ErrorsAreLosses(init, requests[..|requests| - 1], []);
      case Later(_) => ErrorsAreLosses(init, requests, errors);
      case Lost(_) => assert last in history;
    }
  }

  lemma {:induction false} StepsOfAppend(a: seq<S.Step>, b: seq<S.Step>, id: nat)
    ensures StepsOf(a + b, id) == StepsOf(a, id) + StepsOf(b, id)
  {
    if b == [] {
      assert a + b == a;
    } else {
      StepsOfAppend(a, b[..|b| - 1], id);
      assert (a + b)[..|a + b| - 1] == a + b[..|b| - 1];
    }
  }

  lemma {:induction false} StepsOfHas(steps: seq<S.Step>, step: S.Step, id: nat)
    requires OfClient(step, id) && step in steps
    ensures step in StepsOf(steps, id)
  {
    if step != steps[|steps| - 1] {
      assert step in steps[..|steps| - 1];
      StepsOfHas(steps[..|steps| - 1], step, id);
    }
  }

  lemma {:induction false} StepsOfFrom(steps: seq<S.Step>, step: S.Step, id: nat)
    requires step in StepsOf(steps, id)
    ensures step in steps
  {
    if steps != [] && step != steps[|steps| - 1] {
      StepsOfFrom(steps[..|steps| - 1], step, id);
    }
  }

  /** The disconnection hook runs for a client exactly if its connection reports an error. */
  lemma LossIsHeard(client: TcpClient, numbers: Numbers, id: nat, steps: seq<S.Step>)
    requires client.Valid() && Drives(numbers, id, client.history, steps)
    ensures client.errors != [] <==> S.Disconnected(id) in steps
  {
    ErrorsAreLosses(client.history, client.requests, client.errors);
    if client.errors != [] {
      SomethingLost(numbers, id, client.history);
      StepsOfFrom(steps, S.Disconnected(id), id);
    } else {
      NothingLost(numbers, id, client.history);
      if S.Disconnected(id) in steps {
        StepsOfHas(steps, S.Disconnected(id), id);
      }
    }
  }

  /** A client's disconnection is followed by none of its steps. */
  lemma NothingFollows(before: seq<S.Step>, id: nat, after: seq<S.Step>)
    requires EndsDisconnected(StepsOf(before + [S.Disconnected(id)] + after, id), id)
    ensures forall step <- after :: !OfClient(step, id)
  {
    var gone := [S.Disconnected(id)];
    StepsOfAppend(before + gone, after, id);
    StepsOfAppend(before, gone, id);
    assert StepsOf(gone, id) == gone;
    var all, i := StepsOf(before, id) + gone + StepsOf(after, id), |StepsOf(before, id)|;
    assert all[i] == S.Disconnected(id);
    forall step | step in after ensures !OfClient(step, id) {
      if OfClient(step, id) {
        StepsOfHas(after, step, id);
      }
    }
  }

  /**
   However the connection of a client has run, and whatever else happens to the sessions: once its
   error has been reported and the hook has run, the client has no session, and asks for none.
   */
  lemma LostClientsStayAway(client: TcpClient, numbers: Numbers, id: nat, before: seq<S.Step>, after: seq<S.Step>)
    requires client.Valid() && Drives(numbers, id, client.history, before + [S.Disconnected(id)] + after)
    ensures id !in S.Run(S.NO_SESSIONS, before + [S.Disconnected(id)] + after).table
    ensures forall step <- after :: !OfClient(step, id)
  {
    RecordedEndsWithLoss(client.history, client.requests, client.errors);
    LossIsLastEffect(numbers, id, client.history);
    NothingFollows(before, id, after);
    SessionTheorems.GoneForGood(before, id, after);
  }

  /** The hook runs at this place, and closes the session that is ready there, once and for all. */
  ghost predicate ClosedAt(steps: seq<S.Step>, id: nat, i: nat)
    requires i < |steps|
  {
    var st := S.Run(S.NO_SESSIONS, steps[..i]);
    && steps[i] == S.Disconnected(id)
    && (S.HasReady(st, id) ==>
         SessionRuns.CloseCount(S.Run(S.NO_SESSIONS, steps).log, st.table[id]) == 1)
  }

  /**
   A client whose connection reports an error: if its session is ready when the hook runs, the close
   callback of that session is called, and only once, whatever else has happened and happens.
   */
  lemma LostClientIsClosedOnce(client: TcpClient, numbers: Numbers, id: nat, steps: seq<S.Step>)
    requires client.Valid() && client.errors != [] && Drives(numbers, id, client.history, steps)
    ensures exists i | 0 <= i < |steps| :: ClosedAt(steps, id, i)
  {
    LossIsHeard(client, numbers, id, steps);
    var i :| 0 <= i < |steps| && steps[i] == S.Disconnected(id);
    if S.HasReady(S.Run(S.NO_SESSIONS, steps[..i]), id) {
      SessionSteps.RunIsClosedOnce(steps, id, i);
    }
    assert ClosedAt(steps, id, i);
  }
}
