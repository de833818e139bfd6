/**
 The books that a connection keeps about its requests: which are made, posted, being
 written or registered under a tag, and what their callbacks have been called with.
 Every handler of the connection is a list of moves on these books.
 */
module Requests {
  import opened Options
  import opened Tags

  /** Who waits for the reply: a caller of send, or one of the two stages of a login. */
  datatype Callback = User | Login1 | Login2(login: nat)

  /** A request; its serial counts the tags handed out before it. */
  datatype Request = Request(serial: nat, callback: Callback)
  {
    /** The login it belongs to, named by the serial of the first stage. */
    function Login(): Option<nat> {
      match callback
      case User => None
      case Login1 => Some(serial)
      case Login2(login) => Some(login)
    }
  }

  /** Calls of callbacks, of the connection's error handler and of login handlers. */
  datatype Event<R, E> =
    | Failed(req: Request, err: E)
    | Answered(req: Request, resp: R, keep: bool)
    | Raised(req: Request, resp: R)
    | Reported(err: E)
    | LoginDone(login: nat, failure: Option<E>)

  /**
   `sends` lists serials in the order of send, `taken` counts those taken off the post
   queue, `wire` lists those written, after `skipped` ones that came before the connection;
   `lost` are those whose callback was dropped because their tag was occupied.
   */
  datatype Books<R, E> = Books(
    acquired: nat,
    made: map<nat, Request>,
    posted: seq<Request>,
    inFlight: map<nat, Request>,
    table: map<nat, Request>,
    sends: seq<nat>,
    taken: nat,
    skipped: nat,
    wire: seq<nat>,
    lost: set<nat>,
    broken: bool,
    log: seq<Event<R, E>>)

  function Empty<R, E>(): Books<R, E> {
    Books(0, map[], [], map[], map[], [], 0, 0, [], {}, false, [])
  }

  datatype Move<R, E> =
    | Burn                                     // a tag is used up by a request that is never made
    | MakeOne
    | SendMade(serial: nat)
    | PostNew(callback: Callback)
    | Write                                    // the first posted request goes to the socket
    | Refuse(err: E, early: bool)              // ... or fails, before or after the connection
    | WriteFailed(serial: nat, err: E)
    | Enter(serial: nat)                       // written: the callback goes into the table
    | Reply(tag: nat, resp: R, keep: bool, done: Option<Option<E>>)
    | Throw(tag: nat, resp: R)
    | Report(err: E)

  function Enabled<R, E>(b: Books<R, E>, move: Move<R, E>): bool {
    match move
    case SendMade(serial) => serial in b.made
    case PostNew(_) => true
    case Write => b.posted != [] && b.skipped + |b.wire| == b.taken
    case Refuse(_, early) => b.posted != [] && (early ==> b.wire == [] && b.skipped == b.taken)
    case WriteFailed(serial, _) => serial in b.inFlight
    case Enter(serial) => serial in b.inFlight
    case Reply(tag, _, _, _) => tag in b.table && !b.broken
    case Throw(tag, _) => tag in b.table && !b.broken
    case _ => true
  }

  function ErrorEvents<R, E>(r: Request, err: E): seq<Event<R, E>> {
    match r.Login()
    case None => [Failed(r, err)]
    case Some(login) => [Failed(r, err), LoginDone(login, Some(err))]
  }

  function Post<R, E>(b: Books<R, E>, r: Request): Books<R, E> {
    b.(posted := b.posted + [r], sends := b.sends + [r.serial])
  }

  function DoneEvents<R, E>(r: Request, done: Option<Option<E>>): seq<Event<R, E>> {
    if r.Login().Some? && done.Some? then [LoginDone(r.Login().value, done.value)] else []
  }

  function Burned<R, E>(b: Books<R, E>): Books<R, E> {
    b.(acquired := b.acquired + 1)
  }

  function MadeOne<R, E>(b: Books<R, E>): Books<R, E> {
    b.(acquired := b.acquired + 1, made := b.made[b.acquired := Request(b.acquired, User)])
  }

  function SentMade<R, E>(b: Books<R, E>, serial: nat): Books<R, E>
    requires serial in b.made
  {
    Post(b.(made := b.made - {serial}), b.made[serial])
  }

  function PostedNew<R, E>(b: Books<R, E>, callback: Callback): Books<R, E> {
    Post(b.(acquired := b.acquired + 1), Request(b.acquired, callback))
  }

  function ReportedError<R, E>(b: Books<R, E>, err: E): Books<R, E> {
    b.(log := b.log + [Reported(err)])
  }

  function TakeOff<R, E>(b: Books<R, E>): Books<R, E>
    requires b.posted != []
  {
    b.(posted := b.posted[1..], taken := b.taken + 1)
  }

  function Written<R, E>(b: Books<R, E>): Books<R, E>
    requires b.posted != []
  {
    var r := b.posted[0];
    TakeOff(b).(wire := b.wire + [r.serial], inFlight := b.inFlight[r.serial := r])
  }

  function Refused<R, E>(b: Books<R, E>, err: E, early: bool): Books<R, E>
    requires b.posted != []
  {
    TakeOff(b).(skipped := if early then b.skipped + 1 else b.skipped, log := b.log + ErrorEvents(b.posted[0], err))
  }

  function NotWritten<R, E>(b: Books<R, E>, serial: nat, err: E): Books<R, E>
    requires serial in b.inFlight
  {
    b.(inFlight := b.inFlight - {serial}, log := b.log + ErrorEvents(b.inFlight[serial], err))
  }

  /** unordered_map::emplace: an occupied tag keeps its old callback, and the new one is lost. */
  function Entered<R, E>(b: Books<R, E>, serial: nat): Books<R, E>
    requires serial in b.inFlight
  {
    b.(inFlight := b.inFlight - {serial},
       table := if Tag(serial) in b.table then b.table else b.table[Tag(serial) := b.inFlight[serial]],
       lost := if Tag(serial) in b.table then b.lost + {serial} else b.lost)
  }

  function Replied<R, E>(b: Books<R, E>, tag: nat, resp: R, keep: bool, done: Option<Option<E>>): Books<R, E>
    requires tag in b.table
  {
    b.(table := if keep then b.table else b.table - {tag},
       log := b.log + [Answered(b.table[tag], resp, keep)] + DoneEvents(b.table[tag], done))
  }

  function Thrown<R, E>(b: Books<R, E>, tag: nat, resp: R): Books<R, E>
    requires tag in b.table
  {
    b.(broken := true, log := b.log + [Raised(b.table[tag], resp)])
  }

  function Apply<R, E>(b: Books<R, E>, move: Move<R, E>): Books<R, E>
    requires Enabled(b, move)
  {
    match move
    case Burn => Burned(b)
    case MakeOne => MadeOne(b)
    case SendMade(serial) => SentMade(b, serial)
    case PostNew(callback) => PostedNew(b, callback)
    case Write => Written(b)
    case Refuse(err, early) => Refused(b, err, early)
    case WriteFailed(serial, err) => NotWritten(b, serial, err)
    case Enter(serial) => Entered(b, serial)
    case Reply(tag, resp, keep, done) => Replied(b, tag, resp, keep, done)
    case Throw(tag, resp) => Thrown(b, tag, resp)
    case Report(err) => ReportedError(b, err)
  }

  // ----- where every request is -----

  ghost predicate Distinct<T>(s: seq<T>) {
    forall i, j | 0 <= i < j < |s| :: s[i] != s[j]
  }

  /** The serials that have been taken off the post queue. */
  ghost function Taken<R, E>(b: Books<R, E>): seq<nat> {
    if b.taken <= |b.sends| then b.sends[..b.taken] else b.sends
  }

  /** The queue holds the sends not yet taken, in order of send. */
  ghost predicate Queued<R, E>(b: Books<R, E>) {
    && b.taken + |b.posted| == |b.sends|
    && forall i | 0 <= i < |b.posted| :: b.posted[i].serial == b.sends[b.taken + i]
  }

  ghost predicate Numbered<R, E>(b: Books<R, E>) {
    && Distinct(b.sends)
    && (forall n <- b.sends :: n < b.acquired && n !in b.made)
    && (forall n <- b.made :: n < b.acquired && b.made[n] == Request(n, User))
  }

  ghost predicate Flying<R, E>(b: Books<R, E>) {
    forall n <- b.inFlight :: b.inFlight[n].serial == n && n in Taken(b)
  }

  ghost predicate Tabled<R, E>(b: Books<R, E>) {
    forall t <- b.table :: EntryOk(b, t)
  }

  ghost predicate EntryOk<R, E>(b: Books<R, E>, t: nat)
    requires t in b.table
  {
    var n := b.table[t].serial;
    Tag(n) == t && n in Taken(b) && n !in b.inFlight
  }

  /** What has been written is a block of consecutive sends, in order. */
  ghost predicate InOrder<R, E>(b: Books<R, E>) {
    && b.skipped + |b.wire| <= b.taken <= |b.sends|
    && b.wire == b.sends[b.skipped..b.skipped + |b.wire|]
  }

  ghost predicate Placed<R, E>(b: Books<R, E>) {
    Queued(b) && Numbered(b) && Flying(b) && Tabled(b) && InOrder(b)
  }

  lemma TakenStep<R, E>(b: Books<R, E>)
    requires Queued(b) && Distinct(b.sends) && b.posted != []
    ensures b.sends[..b.taken + 1] == Taken(b) + [b.posted[0].serial]
    ensures b.posted[0].serial !in Taken(b)
    ensures b.posted[0].serial in b.sends
  {
    assert b.sends[b.taken] == b.posted[0].serial;
  }

  lemma TakenKept<R, E>(b: Books<R, E>, r: Request)
    requires Queued(b)
    ensures Taken(Post(b, r)) == Taken(b)
  {
  }

  lemma QueuedApply<R, E>(b: Books<R, E>, move: Move<R, E>)
    requires Queued(b) && Enabled(b, move)
    ensures Queued(Apply(b, move))
  {
    match move
    case SendMade(_) =>
    case PostNew(_) =>
    case Write =>
    case Refuse(_, _) =>
    case _ =>
  }

  lemma DistinctSnoc<T>(s: seq<T>, x: T)
    requires Distinct(s) && x !in s
    ensures Distinct(s + [x])
  {
  }

  lemma NumberedPost<R, E>(b: Books<R, E>, r: Request)
    requires Numbered(b) && r.serial < b.acquired && r.serial !in b.sends && r.serial !in b.made
    ensures Numbered(Post(b, r))
  {
    DistinctSnoc(b.sends, r.serial);
  }

  lemma NumberedApply<R, E>(b: Books<R, E>, move: Move<R, E>)
    requires Numbered(b) && Enabled(b, move)
    ensures Numbered(Apply(b, move))
  {
    match move
    case SendMade(serial) => NumberedPost(b.(made := b.made - {serial}), b.made[serial]);
    case PostNew(callback) => NumberedPost(b.(acquired := b.acquired + 1), Request(b.acquired, callback));
    case _ =>
  }

  lemma FlyingApply<R, E>(b: Books<R, E>, move: Move<R, E>)
    requires Queued(b) && Distinct(b.sends) && Flying(b) && Enabled(b, move)
    ensures Flying(Apply(b, move))
  {
    match move
    case SendMade(serial) => TakenKept(b.(made := b.made - {serial}), b.made[serial]);
    case PostNew(callback) => TakenKept(b.(acquired := b.acquired + 1), Request(b.acquired, callback));
    case Write => TakenStep(b);
    case Refuse(_, _) => TakenStep(b);
    case _ =>
  }

  lemma EntriesKept<R, E>(b: Books<R, E>, n: Books<R, E>)
    requires Tabled(b) && Taken(n) == Taken(b) && n.inFlight.Keys <= b.inFlight.Keys
    requires n.table.Keys <= b.table.Keys && (forall t <- n.table :: n.table[t] == b.table[t])
    ensures Tabled(n)
  {
    forall t | t in n.table ensures EntryOk(n, t) {
      assert EntryOk(b, t);
    }
  }

  lemma EntriesTaken<R, E>(b: Books<R, E>, n: Books<R, E>, r: Request)
    requires Tabled(b) && r.serial !in Taken(b) && Taken(n) == Taken(b) + [r.serial]
    requires n.table == b.table && n.inFlight.Keys <= b.inFlight.Keys + {r.serial}
    ensures Tabled(n)
  {
    forall t | t in n.table ensures EntryOk(n, t) {
      assert EntryOk(b, t);
    }
  }

  lemma EntryEntered<R, E>(b: Books<R, E>, serial: nat)
    requires Flying(b) && Tabled(b) && serial in b.inFlight
    ensures Tabled(Entered(b, serial))
  {
    var n := Entered(b, serial);
    forall t | t in n.table ensures EntryOk(n, t) {
      assert t in b.table ==> EntryOk(b, t);
    }
  }

  lemma TabledPost<R, E>(b: Books<R, E>, r: Request)
    requires Queued(b) && Tabled(b)
    ensures Tabled(Post(b, r))
  {
    TakenKept(b, r);
    EntriesKept(b, Post(b, r));
  }

  lemma TabledWritten<R, E>(b: Books<R, E>)
    requires Queued(b) && Distinct(b.sends) && Tabled(b) && b.posted != []
    ensures Tabled(Written(b))
  {
    TakenStep(b);
    EntriesTaken(b, Written(b), b.posted[0]);
  }

  lemma TabledRefused<R, E>(b: Books<R, E>, err: E, early: bool)
    requires Queued(b) && Distinct(b.sends) && Tabled(b) && b.posted != []
    ensures Tabled(Refused(b, err, early))
  {
    TakenStep(b);
    EntriesTaken(b, Refused(b, err, early), b.posted[0]);
  }

  lemma TabledApply<R, E>(b: Books<R, E>, move: Move<R, E>)
    requires Queued(b) && Distinct(b.sends) && Flying(b) && Tabled(b) && Enabled(b, move)
    ensures Tabled(Apply(b, move))
  {
    match move
    case SendMade(serial) =>
      var c := b.(made := b.made - {serial});
      EntriesKept(b, c);
      TabledPost(c, b.made[serial]);
    case PostNew(callback) =>
      var c := b.(acquired := b.acquired + 1);
      EntriesKept(b, c);
      TabledPost(c, Request(b.acquired, callback));
    case Write => TabledWritten(b);
    case Refuse(err, early) => TabledRefused(b, err, early);
    case Enter(serial) => EntryEntered(b, serial);
    case _ => EntriesKept(b, Apply(b, move));
  }

  lemma BlockKept<T>(s: seq<T>, x: T, i: nat, j: nat)
    requires i <= j <= |s|
    ensures (s + [x])[i..j] == s[i..j]
  {
  }

  lemma BlockGrows<T>(s: seq<T>, i: nat, j: nat)
    requires i <= j < |s|
    ensures s[i..j + 1] == s[i..j] + [s[j]]
  {
  }

  lemma InOrderApply<R, E>(b: Books<R, E>, move: Move<R, E>)
    requires Queued(b) && InOrder(b) && Enabled(b, move)
    ensures InOrder(Apply(b, move))
  {
    var i, j := b.skipped, b.skipped + |b.wire|;
    match move
    case SendMade(serial) => BlockKept(b.sends, b.made[serial].serial, i, j);
    case PostNew(_) => BlockKept(b.sends, b.acquired, i, j);
    case Write =>
      BlockGrows(b.sends, i, j);
      assert b.posted[0].serial == b.sends[b.taken];
    case Refuse(_, early) =>
    case _ =>
  }

  /** Every move keeps every request in one place. */
  lemma PlacedApply<R, E>(b: Books<R, E>, move: Move<R, E>)
    requires Placed(b) && Enabled(b, move)
    ensures Placed(Apply(b, move))
  {
    QueuedApply(b, move);
    NumberedApply(b, move);
    FlyingApply(b, move);
    TabledApply(b, move);
    InOrderApply(b, move);
  }

  // ----- what every callback has been called with -----

  datatype Call = CallError | CallReply(keep: bool) | CallRaise

  function CallOf<R, E>(e: Event<R, E>, serial: nat): seq<Call> {
    match e
    case Failed(r, _) => if r.serial == serial then [CallError] else []
    case Answered(r, _, keep) => if r.serial == serial then [CallReply(keep)] else []
    case Raised(r, _) => if r.serial == serial then [CallRaise] else []
    case _ => []
  }

  /** The calls of one request's callback, in order. */
  function CallsOf<R, E>(log: seq<Event<R, E>>, serial: nat): seq<Call> {
    if log == [] then [] else CallsOf(log[..|log| - 1], serial) + CallOf(log[|log| - 1], serial)
  }

  predicate AllKeep(c: seq<Call>) {
    forall x <- c :: x == CallReply(true)
  }

  /** True-returning replies and then a false-returning one. */
  predicate Ended(c: seq<Call>) {
    c != [] && AllKeep(c[..|c| - 1]) && c[|c| - 1] == CallReply(false)
  }

  /** True-returning replies and then one during which the callback threw. */
  predicate Broke(c: seq<Call>) {
    c != [] && AllKeep(c[..|c| - 1]) && c[|c| - 1] == CallRaise
  }

  predicate IsRegistered<R, E>(b: Books<R, E>, serial: nat) {
    Tag(serial) in b.table && b.table[Tag(serial)].serial == serial
  }

  /** Not yet taken off the queue, or being written. */
  ghost predicate IsWaiting<R, E>(b: Books<R, E>, serial: nat) {
    serial !in Taken(b) || serial in b.inFlight
  }

  /** The calls that a place admits; a lost request is nowhere, and is never called. */
  predicate Admits(waiting: bool, registered: bool, broken: bool, lost: bool, c: seq<Call>) {
    if waiting then c == [] && !lost
    else if lost then c == [] && !registered
    else if registered then AllKeep(c) || (broken && Broke(c))
    else c == [CallError] || Ended(c)
  }

  ghost predicate TraceOk<R, E>(b: Books<R, E>, serial: nat) {
    Admits(IsWaiting(b, serial), IsRegistered(b, serial), b.broken, serial in b.lost, CallsOf(b.log, serial))
  }

  ghost predicate Traced<R, E>(b: Books<R, E>) {
    forall n: nat :: TraceOk(b, n)
  }

  lemma CallsSnoc<R, E>(log: seq<Event<R, E>>, e: Event<R, E>, serial: nat)
    ensures CallsOf(log + [e], serial) == CallsOf(log, serial) + CallOf(e, serial)
  {
    assert (log + [e])[..|log|] == log;
  }

  function Extend(c: seq<Call>, mine: bool, call: Call): seq<Call> {
    if mine then c + [call] else c
  }

  lemma TwoMore<T>(s: seq<T>, a: T, b: T)
    ensures s + [a, b] == s + [a] + [b]
  {
  }

  lemma CallsAfterError<R, E>(log: seq<Event<R, E>>, r: Request, err: E, serial: nat)
    ensures CallsOf(log + ErrorEvents(r, err), serial)
         == Extend(CallsOf(log, serial), r.serial == serial, CallError)
  {
    CallsSnoc(log, Failed(r, err), serial);
    if r.Login().Some? {
      var done: Event<R, E> := LoginDone(r.Login().value, Some(err));
      CallsSnoc(log + [Failed(r, err)], done, serial);
      TwoMore(log, Failed(r, err), done);
    }
  }

  lemma CallsAfterReply<R, E>(
      log: seq<Event<R, E>>, r: Request, resp: R, keep: bool, done: Option<Option<E>>, serial: nat)
    ensures CallsOf(log + [Answered(r, resp, keep)] + DoneEvents(r, done), serial)
         == Extend(CallsOf(log, serial), r.serial == serial, CallReply(keep))
  {
    var answered := log + [Answered(r, resp, keep)];
    CallsSnoc(log, Answered(r, resp, keep), serial);
    if DoneEvents<R, E>(r, done) == [] {
      assert answered + DoneEvents(r, done) == answered;
    } else {
      CallsSnoc(answered, LoginDone(r.Login().value, done.value), serial);
    }
  }

  lemma CallsAfterRaise<R, E>(log: seq<Event<R, E>>, r: Request, resp: R, serial: nat)
    ensures CallsOf(log + [Raised(r, resp)], serial)
         == Extend(CallsOf(log, serial), r.serial == serial, CallRaise)
  {
    CallsSnoc(log, Raised(r, resp), serial);
  }

  lemma CallsAfterReport<R, E>(log: seq<Event<R, E>>, err: E, serial: nat)
    ensures CallsOf(log + [Reported(err)], serial) == CallsOf(log, serial)
  {
    CallsSnoc(log, Reported(err), serial);
  }

  lemma OneMoreCall(c: seq<Call>, call: Call)
    requires AllKeep(c)
    ensures call == CallReply(true) ==> AllKeep(c + [call])
    ensures call == CallReply(false) ==> Ended(c + [call])
    ensures call == CallRaise ==> Broke(c + [call])
  {
    assert (c + [call])[..|c|] == c;
  }

  lemma WaitingIsUnregistered<R, E>(b: Books<R, E>, serial: nat)
    requires Tabled(b) && IsWaiting(b, serial)
    ensures !IsRegistered(b, serial)
  {
    if Tag(serial) in b.table {
      assert EntryOk(b, Tag(serial));
    }
  }

  lemma TraceTaken<R, E>(b: Books<R, E>, n: Books<R, E>, serial: nat)
    requires Queued(b) && Distinct(b.sends) && Flying(b) && Tabled(b) && b.posted != [] && TraceOk(b, serial)
    requires Taken(n) == Taken(b) + [b.posted[0].serial]
    requires n.table == b.table && n.broken == b.broken && n.lost == b.lost
    requires serial != b.posted[0].serial ==>
      (serial in n.inFlight <==> serial in b.inFlight) && CallsOf(n.log, serial) == CallsOf(b.log, serial)
    requires serial == b.posted[0].serial ==>
      if serial in n.inFlight then CallsOf(n.log, serial) == CallsOf(b.log, serial)
      else CallsOf(n.log, serial) == CallsOf(b.log, serial) + [CallError]
    ensures TraceOk(n, serial)
  {
    TakenStep(b);
    if serial == b.posted[0].serial {
      WaitingIsUnregistered(b, serial);
      assert CallsOf(b.log, serial) == [];
    } else {
      assert IsWaiting(n, serial) == IsWaiting(b, serial);
    }
  }

  lemma TraceWritten<R, E>(b: Books<R, E>, serial: nat)
    requires Queued(b) && Distinct(b.sends) && Flying(b) && Tabled(b) && b.posted != [] && TraceOk(b, serial)
    ensures TraceOk(Written(b), serial)
  {
    TakenStep(b);
    TraceTaken(b, Written(b), serial);
  }

  lemma TraceRefused<R, E>(b: Books<R, E>, err: E, early: bool, serial: nat)
    requires Queued(b) && Distinct(b.sends) && Flying(b) && Tabled(b) && b.posted != [] && TraceOk(b, serial)
    ensures TraceOk(Refused(b, err, early), serial)
  {
    TakenStep(b);
    CallsAfterError(b.log, b.posted[0], err, serial);
    TraceTaken(b, Refused(b, err, early), serial);
  }

  lemma TraceNotWritten<R, E>(b: Books<R, E>, failed: nat, err: E, serial: nat)
    requires Flying(b) && Tabled(b) && failed in b.inFlight && TraceOk(b, serial)
    ensures TraceOk(NotWritten(b, failed, err), serial)
  {
    var n := NotWritten(b, failed, err);
    assert Taken(n) == Taken(b);
    CallsAfterError(b.log, b.inFlight[failed], err, serial);
    if serial == failed {
      WaitingIsUnregistered(b, serial);
    } else {
      assert IsWaiting(n, serial) == IsWaiting(b, serial);
    }
  }

  lemma OccupiedMeansWrapped<R, E>(b: Books<R, E>, serial: nat)
    requires Placed(b) && serial in b.inFlight && Tag(serial) in b.table
    ensures b.acquired > TAG_LIMIT
  {
    assert EntryOk(b, Tag(serial));
    var other := b.table[Tag(serial)].serial;
    assert other in b.sends && serial in b.sends;
    if serial < other {
      SameTagFarApart(serial, other);
    } else {
      SameTagFarApart(other, serial);
    }
  }

  /** Requests are only lost when tags have wrapped. */
  ghost predicate Scarce<R, E>(b: Books<R, E>) {
    b.lost != {} ==> b.acquired > TAG_LIMIT
  }

  lemma ScarceApply<R, E>(b: Books<R, E>, move: Move<R, E>)
    requires Placed(b) && Scarce(b) && Enabled(b, move)
    ensures Scarce(Apply(b, move))
  {
    if move.Enter? && Tag(move.serial) in b.table {
      OccupiedMeansWrapped(b, move.serial);
    }
  }

  lemma TraceEntered<R, E>(b: Books<R, E>, entered: nat, serial: nat)
    requires Placed(b) && entered in b.inFlight && TraceOk(b, serial)
    ensures TraceOk(Entered(b, entered), serial)
  {
    var n := Entered(b, entered);
    assert Taken(n) == Taken(b);
    if serial == entered {
      if Tag(serial) in b.table {
        WaitingIsUnregistered(b, serial);
      } else {
        assert IsRegistered(n, serial);
      }
    } else {
      assert IsWaiting(n, serial) == IsWaiting(b, serial);
      assert IsRegistered(n, serial) == IsRegistered(b, serial);
    }
  }

  /** The entry that a response reaches has only kept answers so far. */
  lemma EntryAlive<R, E>(b: Books<R, E>, tag: nat)
    requires Tabled(b) && tag in b.table && !b.broken
    requires TraceOk(b, b.table[tag].serial)
    ensures Tag(b.table[tag].serial) == tag
    ensures AllKeep(CallsOf(b.log, b.table[tag].serial)) && !IsWaiting(b, b.table[tag].serial)
  {
    assert EntryOk(b, tag);
  }

  lemma TraceReplied<R, E>(b: Books<R, E>, tag: nat, resp: R, keep: bool, done: Option<Option<E>>, serial: nat)
    requires Tabled(b) && tag in b.table && !b.broken && TraceOk(b, serial)
    ensures TraceOk(Replied(b, tag, resp, keep, done), serial)
  {
    var n, r := Replied(b, tag, resp, keep, done), b.table[tag];
    CallsAfterReply(b.log, r, resp, keep, done, serial);
    assert Taken(n) == Taken(b) && IsWaiting(n, serial) == IsWaiting(b, serial);
    if serial == r.serial {
      EntryAlive(b, tag);
      OneMoreCall(CallsOf(b.log, serial), CallReply(keep));
      assert IsRegistered(n, serial) == keep;
    } else {
      assert IsRegistered(n, serial) == IsRegistered(b, serial);
    }
  }

  lemma TraceThrown<R, E>(b: Books<R, E>, tag: nat, resp: R, serial: nat)
    requires Tabled(b) && tag in b.table && !b.broken && TraceOk(b, serial)
    ensures TraceOk(Thrown(b, tag, resp), serial)
  {
    var n, r := Thrown(b, tag, resp), b.table[tag];
    CallsAfterRaise(b.log, r, resp, serial);
    assert Taken(n) == Taken(b) && IsWaiting(n, serial) == IsWaiting(b, serial);
    assert IsRegistered(n, serial) == IsRegistered(b, serial);
    if serial == r.serial {
      EntryAlive(b, tag);
      OneMoreCall(CallsOf(b.log, serial), CallRaise);
    }
  }

  lemma TraceOther<R, E>(b: Books<R, E>, move: Move<R, E>, serial: nat)
    requires Queued(b) && TraceOk(b, serial) && Enabled(b, move)
    requires move.Burn? || move.MakeOne? || move.SendMade? || move.PostNew? || move.Report?
    ensures TraceOk(Apply(b, move), serial)
  {
    var n := Apply(b, move);
    assert Taken(n) == Taken(b);
    assert IsWaiting(n, serial) == IsWaiting(b, serial);
    assert IsRegistered(n, serial) == IsRegistered(b, serial);
    if move.Report? {
      CallsAfterReport(b.log, move.err, serial);
    }
    assert CallsOf(n.log, serial) == CallsOf(b.log, serial);
  }

  /** Every move keeps every callback's calls in step with its request's place. */
  lemma TracedApply<R, E>(b: Books<R, E>, move: Move<R, E>)
    requires Placed(b) && Traced(b) && Enabled(b, move)
    ensures Traced(Apply(b, move))
  {
    forall serial: nat ensures TraceOk(Apply(b, move), serial) {
      match move
      case Write => TraceWritten(b, serial);
      case Refuse(err, early) => TraceRefused(b, err, early, serial);
      case WriteFailed(failed, err) => TraceNotWritten(b, failed, err, serial);
      case Enter(entered) => TraceEntered(b, entered, serial);
      case Reply(tag, resp, keep, done) => TraceReplied(b, tag, resp, keep, done, serial);
      case Throw(tag, resp) => TraceThrown(b, tag, resp, serial);
      case _ => TraceOther(b, move, serial);
    }
  }

  /** One error call and nothing else, or true-returning replies and at most one other call. */
  predicate Legal(c: seq<Call>) {
    c == [CallError] || AllKeep(c) || Ended(c) || Broke(c)
  }

  lemma TracesAreLegal<R, E>(b: Books<R, E>, serial: nat)
    requires Traced(b)
    ensures Legal(CallsOf(b.log, serial))
  {
    assert TraceOk(b, serial);
  }

  // ----- logins -----

  /** A request whose callback can still be called. */
  predicate IsLive<R, E>(b: Books<R, E>, r: Request) {
    || r in b.posted
    || (r.serial in b.inFlight && b.inFlight[r.serial] == r)
    || (Tag(r.serial) in b.table && b.table[Tag(r.serial)] == r)
  }

  function EndsOf<R, E>(e: Event<R, E>, login: nat): nat {
    if e.LoginDone? && e.login == login then 1 else 0
  }

  /** How often the handler of a login has been called. */
  function LoginEnds<R, E>(log: seq<Event<R, E>>, login: nat): nat {
    if log == [] then 0 else LoginEnds(log[..|log| - 1], login) + EndsOf(log[|log| - 1], login)
  }

  lemma EndsSnoc<R, E>(log: seq<Event<R, E>>, e: Event<R, E>, login: nat)
    ensures LoginEnds(log + [e], login) == LoginEnds(log, login) + EndsOf(e, login)
  {
    assert (log + [e])[..|log|] == log;
  }

  /** A login has one live request or none, and none once its handler has been called. */
  ghost predicate LoginOk<R, E>(b: Books<R, E>, login: nat) {
    && LoginEnds(b.log, login) <= 1
    && (LoginEnds(b.log, login) == 1 ==> login < b.acquired)
    && (forall r | IsLive(b, r) && r.Login() == Some(login) ::
          login < b.acquired && LoginEnds(b.log, login) == 0)
    && (forall r, q | IsLive(b, r) && IsLive(b, q) && r.Login() == q.Login() == Some(login) :: r.serial == q.serial)
  }

  /** The second stage of a login is posted when the first is over without having ended it. */
  ghost predicate LoginMove<R, E>(b: Books<R, E>, move: Move<R, E>) {
    match move
    case PostNew(Login2(login)) =>
      && login < b.acquired && LoginEnds(b.log, login) == 0
      && forall r | IsLive(b, r) :: r.Login() != Some(login)
    case Reply(_, _, keep, done) => done.Some? ==> !keep
    case _ => true
  }

  lemma EndsAfterError<R, E>(log: seq<Event<R, E>>, r: Request, err: E, login: nat)
    ensures LoginEnds(log + ErrorEvents(r, err), login)
         == LoginEnds(log, login) + if r.Login() == Some(login) then 1 else 0
  {
    EndsSnoc(log, Failed(r, err), login);
    if r.Login().Some? {
      var done: Event<R, E> := LoginDone(r.Login().value, Some(err));
      EndsSnoc(log + [Failed(r, err)], done, login);
      TwoMore(log, Failed(r, err), done);
    }
  }

  lemma EndsAfterReply<R, E>(
      log: seq<Event<R, E>>, r: Request, resp: R, keep: bool, done: Option<Option<E>>, login: nat)
    ensures LoginEnds(log + [Answered(r, resp, keep)] + DoneEvents(r, done), login)
         == LoginEnds(log, login) + if r.Login() == Some(login) && done.Some? then 1 else 0
  {
    var answered := log + [Answered(r, resp, keep)];
    EndsSnoc(log, Answered(r, resp, keep), login);
    if DoneEvents<R, E>(r, done) == [] {
      assert answered + DoneEvents(r, done) == answered;
    } else {
      EndsSnoc(answered, LoginDone(r.Login().value, done.value), login);
    }
  }

  /** Nothing new is live, and if the login's handler was called, its request is not live. */
  lemma LoginKept<R, E>(b: Books<R, E>, n: Books<R, E>, login: nat, over: Request)
    requires LoginOk(b, login) && b.acquired <= n.acquired
    requires forall r | IsLive(n, r) && r.Login() == Some(login) :: IsLive(b, r)
    requires LoginEnds(n.log, login) == LoginEnds(b.log, login)
      || (LoginEnds(n.log, login) == LoginEnds(b.log, login) + 1 && over.Login() == Some(login) && IsLive(b, over)
          && forall r | IsLive(n, r) :: r.serial != over.serial)
    ensures LoginOk(n, login)
  {
  }

  lemma LiveWritten<R, E>(b: Books<R, E>, r: Request)
    requires Queued(b) && b.posted != [] && IsLive(Written(b), r)
    ensures IsLive(b, r)
  {
  }

  lemma LiveRefused<R, E>(b: Books<R, E>, err: E, early: bool, r: Request)
    requires Placed(b) && b.posted != [] && IsLive(Refused(b, err, early), r)
    ensures IsLive(b, r) && r.serial != b.posted[0].serial
  {
    TakenStep(b);
    if r in b.posted[1..] {
      var i :| 1 <= i < |b.posted| && b.posted[i] == r;
      assert b.sends[b.taken] != b.sends[b.taken + i];
    } else if Tag(r.serial) in b.table {
      assert EntryOk(b, Tag(r.serial));
    }
  }

  lemma PostedIsUntaken<R, E>(b: Books<R, E>, r: Request)
    requires Queued(b) && Distinct(b.sends) && r in b.posted
    ensures r.serial !in Taken(b)
  {
    var i :| 0 <= i < |b.posted| && b.posted[i] == r;
    assert b.posted[i].serial == b.sends[b.taken + i];
  }

  lemma LiveNotWritten<R, E>(b: Books<R, E>, serial: nat, err: E, r: Request)
    requires Placed(b) && serial in b.inFlight && IsLive(NotWritten(b, serial, err), r)
    ensures IsLive(b, r) && r.serial != serial
  {
    if r in b.posted {
      PostedIsUntaken(b, r);
    } else if Tag(r.serial) in b.table {
      assert EntryOk(b, Tag(r.serial));
    }
  }

  lemma LiveEntered<R, E>(b: Books<R, E>, serial: nat, r: Request)
    requires Flying(b) && serial in b.inFlight && IsLive(Entered(b, serial), r)
    ensures IsLive(b, r)
  {
  }

  lemma LiveReplied<R, E>(b: Books<R, E>, tag: nat, resp: R, keep: bool, done: Option<Option<E>>, r: Request)
    requires Placed(b) && tag in b.table && IsLive(Replied(b, tag, resp, keep, done), r)
    ensures IsLive(b, r)
    ensures !keep ==> r.serial != b.table[tag].serial
  {
    assert EntryOk(b, tag);
    if r in b.posted {
      PostedIsUntaken(b, r);
    }
  }

  lemma LoginPosted<R, E>(b: Books<R, E>, callback: Callback, login: nat)
    requires LoginOk(b, login) && LoginMove(b, PostNew(callback))
    requires forall r | IsLive(b, r) :: r.serial < b.acquired
    ensures LoginOk(Apply(b, PostNew(callback)), login)
  {
    var r0 := Request(b.acquired, callback);
    var n := Apply(b, PostNew(callback));
    forall r | IsLive(n, r) ensures r == r0 || IsLive(b, r) {
    }
    assert forall r | IsLive(b, r) && r.Login() == Some(login) :: login < b.acquired;
  }

  lemma LoginWritten<R, E>(b: Books<R, E>, login: nat)
    requires Placed(b) && b.posted != [] && LoginOk(b, login)
    ensures LoginOk(Written(b), login)
  {
    forall r | IsLive(Written(b), r) ensures IsLive(b, r) {
      LiveWritten(b, r);
    }
    LoginKept(b, Written(b), login, b.posted[0]);
  }

  lemma LoginRefused<R, E>(b: Books<R, E>, err: E, early: bool, login: nat)
    requires Placed(b) && b.posted != [] && LoginOk(b, login)
    ensures LoginOk(Refused(b, err, early), login)
  {
    var n := Refused(b, err, early);
    forall r | IsLive(n, r) ensures IsLive(b, r) && r.serial != b.posted[0].serial {
      LiveRefused(b, err, early, r);
    }
    EndsAfterError(b.log, b.posted[0], err, login);
    LoginKept(b, n, login, b.posted[0]);
  }

  lemma LoginNotWritten<R, E>(b: Books<R, E>, serial: nat, err: E, login: nat)
    requires Placed(b) && serial in b.inFlight && LoginOk(b, login)
    ensures LoginOk(NotWritten(b, serial, err), login)
  {
    var n := NotWritten(b, serial, err);
    forall r | IsLive(n, r) ensures IsLive(b, r) && r.serial != serial {
      LiveNotWritten(b, serial, err, r);
    }
    EndsAfterError(b.log, b.inFlight[serial], err, login);
    assert IsLive(b, b.inFlight[serial]);
    LoginKept(b, n, login, b.inFlight[serial]);
  }

  lemma LoginEntered<R, E>(b: Books<R, E>, serial: nat, login: nat)
    requires Placed(b) && serial in b.inFlight && LoginOk(b, login)
    ensures LoginOk(Entered(b, serial), login)
  {
    forall r | IsLive(Entered(b, serial), r) ensures IsLive(b, r) {
      LiveEntered(b, serial, r);
    }
    LoginKept(b, Entered(b, serial), login, b.inFlight[serial]);
  }

  lemma LoginReplied<R, E>(b: Books<R, E>, tag: nat, resp: R, keep: bool, done: Option<Option<E>>, login: nat)
    requires Placed(b) && tag in b.table && (done.Some? ==> !keep) && LoginOk(b, login)
    ensures LoginOk(Replied(b, tag, resp, keep, done), login)
  {
    var n := Replied(b, tag, resp, keep, done);
    forall r | IsLive(n, r) ensures IsLive(b, r) && (!keep ==> r.serial != b.table[tag].serial) {
      LiveReplied(b, tag, resp, keep, done, r);
    }
    EndsAfterReply(b.log, b.table[tag], resp, keep, done, login);
    assert EntryOk(b, tag) && IsLive(b, b.table[tag]);
    LoginKept(b, n, login, b.table[tag]);
  }

  lemma LoginSendMade<R, E>(b: Books<R, E>, serial: nat, login: nat)
    requires Numbered(b) && serial in b.made && LoginOk(b, login)
    ensures LoginOk(Apply(b, SendMade(serial)), login)
  {
    assert b.made[serial] == Request(serial, User);
    LoginKept(b, Apply(b, SendMade(serial)), login, Request(0, User));
  }

  lemma LoginThrown<R, E>(b: Books<R, E>, tag: nat, resp: R, login: nat)
    requires tag in b.table && LoginOk(b, login)
    ensures LoginOk(Thrown(b, tag, resp), login)
  {
    EndsSnoc(b.log, Raised(b.table[tag], resp), login);
    LoginKept(b, Thrown(b, tag, resp), login, Request(0, User));
  }

  lemma LoginOther<R, E>(b: Books<R, E>, move: Move<R, E>, login: nat)
    requires LoginOk(b, login) && (move.Burn? || move.MakeOne? || move.Report?)
    ensures LoginOk(Apply(b, move), login)
  {
    if move.Report? {
      EndsSnoc(b.log, Reported(move.err), login);
    }
    LoginKept(b, Apply(b, move), login, Request(0, User));
  }

  /** Every move keeps logins to one live request and at most one call of their handler. */
  lemma LoginApply<R, E>(b: Books<R, E>, move: Move<R, E>, login: nat)
    requires Placed(b) && Enabled(b, move) && LoginMove(b, move) && LoginOk(b, login)
    ensures LoginOk(Apply(b, move), login)
  {
    match move
    case PostNew(callback) =>
      forall r | IsLive(b, r) ensures r.serial < b.acquired {
        LiveIsKnown(b, r);
      }
      LoginPosted(b, callback, login);
    case Write => LoginWritten(b, login);
    case Refuse(err, early) => LoginRefused(b, err, early, login);
    case WriteFailed(serial, err) => LoginNotWritten(b, serial, err, login);
    case Enter(serial) => LoginEntered(b, serial, login);
    case Reply(tag, resp, keep, done) => LoginReplied(b, tag, resp, keep, done, login);
    case SendMade(serial) => LoginSendMade(b, serial, login);
    case Throw(tag, resp) => LoginThrown(b, tag, resp, login);
    case _ => LoginOther(b, move, login);
  }

  /** All that the moves keep. */
  ghost predicate Good<R, E>(b: Books<R, E>) {
    Placed(b) && Traced(b) && Scarce(b) && forall login: nat :: LoginOk(b, login)
  }

  lemma GoodApply<R, E>(b: Books<R, E>, move: Move<R, E>)
    requires Good(b) && Enabled(b, move) && LoginMove(b, move)
    ensures Good(Apply(b, move))
  {
    PlacedApply(b, move);
    TracedApply(b, move);
    ScarceApply(b, move);
    forall login: nat ensures LoginOk(Apply(b, move), login) {
      LoginApply(b, move, login);
    }
  }

  lemma LiveIsKnown<R, E>(b: Books<R, E>, r: Request)
    requires Placed(b) && IsLive(b, r)
    ensures r.serial in b.sends && r.serial < b.acquired
  {
    if r in b.posted {
      var i :| 0 <= i < |b.posted| && b.posted[i] == r;
      assert b.posted[i].serial == b.sends[b.taken + i];
    } else if Tag(r.serial) in b.table && b.table[Tag(r.serial)] == r {
      assert EntryOk(b, Tag(r.serial));
    }
  }

  // ----- what a move adds -----

  function MoveEvents<R, E>(b: Books<R, E>, move: Move<R, E>): seq<Event<R, E>>
    requires Enabled(b, move)
  {
    match move
    case Refuse(err, _) => ErrorEvents(b.posted[0], err)
    case WriteFailed(serial, err) => ErrorEvents(b.inFlight[serial], err)
    case Reply(tag, resp, keep, done) => [Answered(b.table[tag], resp, keep)] + DoneEvents(b.table[tag], done)
    case Throw(tag, resp) => [Raised(b.table[tag], resp)]
    case Report(err) => [Reported(err)]
    case _ => []
  }

  lemma LogApply<R, E>(b: Books<R, E>, move: Move<R, E>)
    requires Enabled(b, move)
    ensures Apply(b, move).log == b.log + MoveEvents(b, move)
  {
  }

  lemma LiveApply<R, E>(b: Books<R, E>, move: Move<R, E>, r: Request)
    requires Placed(b) && Enabled(b, move) && IsLive(Apply(b, move), r)
    ensures IsLive(b, r) || r.callback.User? || (move.PostNew? && r == Request(b.acquired, move.callback))
  {
    match move
    case Write => LiveWritten(b, r);
    case Refuse(err, early) => LiveRefused(b, err, early, r);
    case WriteFailed(serial, err) => LiveNotWritten(b, serial, err, r);
    case Enter(serial) => LiveEntered(b, serial, r);
    case Reply(tag, resp, keep, done) => LiveReplied(b, tag, resp, keep, done, r);
    case SendMade(serial) => assert b.made[serial] == Request(serial, User);
    case _ =>
  }
}
