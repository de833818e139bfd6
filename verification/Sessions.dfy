/**
 Sessions of clients over their RouterOS connections (sessions_service.cpp, sessions.hpp,
 session.cpp, api_open_command.cpp, session_required_command.cpp). A session is known by
 its place in the order of creation; the service only knows it by its client's id.
 */
module Sessions {
  import opened Options
  import opened SessionLink
  import M = Multiplexer

  /** Being connected, asked to log in, or neither. */
  datatype Phase = Connecting | LoggingIn | Over

  datatype Session = Session(id: nat, mux: M.Mux, phase: Phase)
  {
    predicate Ready() {
      mux.link.Open? && mux.loggedIn
    }
  }

  /** Who closes an entry of the table. */
  datatype Cause = ConnectFailed | LoginFailed | ApiFailed | ClientLost

  /**
   Calls that a client's requests get: of the open callback, noting whether the session was
   then the table's entry and ready, of the close callback, and commands that are executed.
   */
  datatype Note =
    | Opened(ref: nat, failure: Option<M.Error>, entry: bool, ready: bool)
    | Closed(ref: nat, cause: Cause)
    | Executed(ref: nat, ready: bool)

  datatype Service = Service(objects: seq<Session>, table: map<nat, nat>, log: seq<Note>)

  const NO_SESSIONS := Service([], map[], [])

  datatype Step =
    | Open(id: nat)
    | Connected(ref: nat, failure: Option<M.Error>)
    | Api(ref: nat, step: M.Step)
    | Command(id: nat)
    | Disconnected(id: nat)
    | Destroy(ref: nat)

  /** Keys of the table are ids of their sessions. */
  predicate Keyed(st: Service) {
    forall id <- st.table :: st.table[id] < |st.objects| && st.objects[st.table[id]].id == id
  }

  predicate IsEntry(st: Service, ref: nat)
    requires ref < |st.objects|
  {
    st.objects[ref].id in st.table && st.table[st.objects[ref].id] == ref
  }

  predicate HasReady(st: Service, id: nat)
    requires Keyed(st)
  {
    id in st.table && st.objects[st.table[id]].Ready()
  }

  function Update(st: Service, ref: nat, s: Session): (n: Service)
    requires Keyed(st) && ref < |st.objects| && s.id == st.objects[ref].id
    ensures Keyed(n)
  {
    st.(objects := st.objects[ref := s])
  }

  function Create(st: Service, id: nat): (n: Service)
    requires Keyed(st) && id !in st.table
    ensures Keyed(n)
  {
    st.(objects := st.objects + [Session(id, M.INITIAL, Connecting)], table := st.table[id := |st.objects|])
  }

  function Close(st: Service, id: nat, cause: Cause): (n: Service)
    requires Keyed(st) && id in st.table
    ensures Keyed(n)
  {
    var ref := st.table[id];
    st.(log := if st.objects[ref].Ready() then st.log + [Closed(ref, cause)] else st.log, table := st.table - {id})
  }

  function CloseIfThere(st: Service, id: nat, cause: Cause): (n: Service)
    requires Keyed(st)
    ensures Keyed(n)
  {
    if id in st.table then Close(st, id, cause) else st
  }

  /** The open callback is called. */
  function Tell(st: Service, ref: nat, failure: Option<M.Error>): (n: Service)
    requires Keyed(st) && ref < |st.objects|
    ensures Keyed(n)
  {
    st.(log := st.log + [Opened(ref, failure, IsEntry(st, ref), st.objects[ref].Ready())])
  }

  // ----- what follows a step of a connection -----

  /** An error closes whatever the id now stands for, and so does a failed login. */
  function React(st: Service, ref: nat, e: Happening): (n: Service)
    requires Keyed(st) && ref < |st.objects|
    ensures Keyed(n) && n.objects == st.objects
  {
    var id := st.objects[ref].id;
    match e
    case Reported(_) => CloseIfThere(st, id, ApiFailed)
    case LoginDone(_, Some(err)) => Tell(CloseIfThere(st, id, LoginFailed), ref, Some(err))
    case LoginDone(_, None) => if id in st.table then Tell(st, ref, None) else st
    case _ => st
  }

  function ReactAll(st: Service, ref: nat, es: seq<Happening>): (n: Service)
    requires Keyed(st) && ref < |st.objects|
    ensures Keyed(n) && n.objects == st.objects
  {
    if es == [] then st else React(ReactAll(st, ref, es[..|es| - 1]), ref, es[|es| - 1])
  }

  function ApiStep(st: Service, ref: nat, step: M.Step): (n: Service)
    requires Keyed(st) && ref < |st.objects|
    ensures Keyed(n)
  {
    var s := st.objects[ref];
    ReactAll(Update(st, ref, s.(mux := M.Next(s.mux, step))), ref, Fresh(s.mux, step))
  }

  // ----- the other steps -----

  /** The connect handler that create gives to open. */
  function Connect(st: Service, ref: nat, failure: Option<M.Error>): (n: Service)
    requires Keyed(st) && ref < |st.objects|
    ensures Keyed(n)
  {
    var s := st.objects[ref];
    match failure
    case Some(err) =>
      var n := Update(st, ref, s.(phase := Over));
      if s.id in st.table then Tell(Close(n, s.id, ConnectFailed), ref, Some(err)) else n
    case None =>
      var m := M.Next(s.mux, M.Connect);
      if s.id in st.table then Update(st, ref, s.(mux := M.Next(m, M.Login), phase := LoggingIn))
      else Update(st, ref, s.(mux := m, phase := Over))
  }

  /** What a request to open a session is answered with at once, if anything. */
  datatype Refusal = AlreadyOpen | Pending

  function RefuseOpen(st: Service, id: nat): Option<Refusal>
    requires Keyed(st)
  {
    if HasReady(st, id) then Some(AlreadyOpen) else if id in st.table then Some(Pending) else None
  }

  /** A command that needs a session makes a request of it. */
  function Execute(st: Service, id: nat): (n: Service)
    requires Keyed(st)
    ensures Keyed(n)
  {
    if !HasReady(st, id) then st
    else
      var ref := st.table[id];
      var s := st.objects[ref];
      Update(st, ref, s.(mux := M.Next(s.mux, M.MakeRequest))).(log := st.log + [Executed(ref, s.Ready())])
  }

  /** The last owner of a session drops it: an open connection is closed. */
  function Drop(st: Service, ref: nat): (n: Service)
    requires Keyed(st) && ref < |st.objects|
    ensures Keyed(n)
  {
    var s := st.objects[ref];
    Update(st, ref, s.(mux := M.Next(s.mux, M.Close)))
  }

  function Next(st: Service, step: Step): (n: Service)
    requires Keyed(st)
    ensures Keyed(n)
  {
    match step
    case Open(id) => if RefuseOpen(st, id).Some? then st else Create(st, id)
    case Connected(ref, failure) =>
      if ref < |st.objects| && st.objects[ref].phase.Connecting? then Connect(st, ref, failure) else st
    case Api(ref, step) =>
      if ref < |st.objects| && !st.objects[ref].phase.Connecting? && Allowed(step) then ApiStep(st, ref, step) else st
    case Command(id) => Execute(st, id)
    case Disconnected(id) => CloseIfThere(st, id, ClientLost)
    case Destroy(ref) =>
      if ref < |st.objects| && !st.objects[ref].phase.Connecting? && !IsEntry(st, ref) then Drop(st, ref) else st
  }

  function Run(st: Service, steps: seq<Step>): (n: Service)
    requires Keyed(st)
    ensures Keyed(n)
  {
    if steps == [] then st else Next(Run(st, steps[..|steps| - 1]), steps[|steps| - 1])
  }
}
