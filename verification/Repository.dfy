/**
 The two ways of loading a list of models from a router (api_repository.hpp): one hands on
 every model as its reply arrives, the other collects them and hands on the list at the end.
 */
module Repository {
  import opened Options
  import opened Requests
  import M = Multiplexer
  import Runs = MultiplexerRuns

  /** A call of the callback that a load gives to send. */
  datatype Call = Fails(err: M.Error) | Gets(resp: M.Response)

  /** Whether the callback asks for more, asks for no more, or throws. */
  datatype Wish = More | NoMore | Threw

  /** TModel::create, which fails when the reply lacks a parameter that the model needs. */
  type Create<!T> = M.Response -> Option<T>

  function WishOf<T>(create: Create<T>, c: Call): Wish {
    match c
    case Fails(_) => NoMore
    case Gets(resp) =>
      if resp.params == map[] then NoMore else if create(resp).None? then Threw else More
  }

  /** What the handler of load_stream is called with. */
  datatype Streamed<T> = Broken(err: M.Error) | End | Model(model: T)

  function StreamStep<T>(create: Create<T>, told: seq<Streamed<T>>, c: Call): seq<Streamed<T>> {
    match c
    case Fails(err) => told + [Broken(err)]
    case Gets(resp) =>
      if resp.params == map[] then told + [End]
      else if create(resp).None? then told
      else told + [Model(create(resp).value)]
  }

  /** What load_all has collected, and what its handler is called with. */
  datatype Loaded<T> = NotLoaded(err: M.Error) | AllLoaded(models: seq<T>)

  datatype Batch<T> = Batch(models: seq<T>, told: seq<Loaded<T>>)

  function BatchStep<T>(create: Create<T>, b: Batch<T>, c: Call): Batch<T> {
    match c
    case Fails(err) => b.(told := b.told + [NotLoaded(err)])
    case Gets(resp) =>
      if resp.params == map[] then b.(told := b.told + [AllLoaded(b.models)])
      else if create(resp).None? then b
      else b.(models := b.models + [create(resp).value])
  }

  class StreamLoad<T> {
    const create: Create<T>
    var told: seq<Streamed<T>>

    constructor (create: Create<T>)
      ensures told == [] && this.create == create
    {
      this.create := create;
      told := [];
    }

    method OnCall(c: Call) returns (wish: Wish)
      modifies this
      ensures told == StreamStep(create, old(told), c) && wish == WishOf(create, c)
      ensures c.Fails? ==> told == old(told) + [Broken(c.err)] && wish == NoMore
      ensures c.Gets? && c.resp.params == map[] ==> told == old(told) + [End] && wish == NoMore
      ensures c.Gets? && c.resp.params != map[] && create(c.resp).Some? ==>
        told == old(told) + [Model(create(c.resp).value)] && wish == More
      ensures c.Gets? && c.resp.params != map[] && create(c.resp).None? ==> told == old(told) && wish == Threw
    {
      if c.Fails? {
        told := told + [Broken(c.err)];
        return NoMore;
      }
      if c.resp.params == map[] {
        told := told + [End];
        return NoMore;
      }
      var model := create(c.resp);
      if model.None? {
        return Threw;
      }
      told := told + [Model(model.value)];
      return More;
    }
  }

  class BatchLoad<T> {
    const create: Create<T>
    var models: seq<T>
    var told: seq<Loaded<T>>

    constructor (create: Create<T>)
      ensures models == [] && told == [] && this.create == create
    {
      this.create := create;
      models, told := [], [];
    }

    method OnCall(c: Call) returns (wish: Wish)
      modifies this
      ensures Batch(models, told) == BatchStep(create, old(Batch(models, told)), c) && wish == WishOf(create, c)
      ensures c.Fails? ==> told == old(told) + [NotLoaded(c.err)] && models == old(models) && wish == NoMore
      ensures c.Gets? && c.resp.params == map[] ==>
        told == old(told) + [AllLoaded(old(models))] && models == old(models) && wish == NoMore
      ensures c.Gets? && c.resp.params != map[] && create(c.resp).Some? ==>
        told == old(told) && models == old(models) + [create(c.resp).value] && wish == More
      ensures c.Gets? && c.resp.params != map[] && create(c.resp).None? ==>
        told == old(told) && models == old(models) && wish == Threw
    {
      if c.Fails? {
        told := told + [NotLoaded(c.err)];
        return NoMore;
      }
      if c.resp.params == map[] {
        told := told + [AllLoaded(models)];
        return NoMore;
      }
      var model := create(c.resp);
      if model.None? {
        return Threw;
      }
      models := models + [model.value];
      return More;
    }
  }

  // ----- all the calls of one load -----

  /** Nothing is called after a call that did not ask for more. */
  ghost predicate Proper<T>(create: Create<T>, calls: seq<Call>) {
    forall i | 0 <= i < |calls| - 1 :: WishOf(create, calls[i]) == More
  }

  function Stream<T>(create: Create<T>, calls: seq<Call>): seq<Streamed<T>> {
    if calls == [] then [] else StreamStep(create, Stream(create, calls[..|calls| - 1]), calls[|calls| - 1])
  }

  function Collect<T>(create: Create<T>, calls: seq<Call>): Batch<T> {
    if calls == [] then Batch([], []) else BatchStep(create, Collect(create, calls[..|calls| - 1]), calls[|calls| - 1])
  }

  /** The models among what a stream was told. */
  function Models<T>(told: seq<Streamed<T>>): seq<T> {
    if told == [] then []
    else
      var last := told[|told| - 1];
      Models(told[..|told| - 1]) + if last.Model? then [last.model] else []
  }

  lemma ModelsSnoc<T>(told: seq<Streamed<T>>, s: Streamed<T>)
    ensures Models(told + [s]) == Models(told) + if s.Model? then [s.model] else []
  {
    assert (told + [s])[..|told|] == told;
  }

  /** Only models have been handed on. */
  ghost predicate Ongoing<T>(told: seq<Streamed<T>>) {
    forall s <- told :: s.Model?
  }

  /** What the batch's handler has to be called with, given what the stream's was. */
  function Summary<T>(told: seq<Streamed<T>>): seq<Loaded<T>> {
    if told == [] then []
    else match told[|told| - 1]
      case Broken(err) => [NotLoaded(err)]
      case End => [AllLoaded(Models(told))]
      case Model(_) => []
  }

  /** The batch has collected the models that the stream has handed on, and said no more than it. */
  ghost predicate Agree<T>(told: seq<Streamed<T>>, b: Batch<T>) {
    b.models == Models(told) && b.told == Summary(told)
  }

  lemma ModelsOngoing<T>(told: seq<Streamed<T>>)
    requires Ongoing(told)
    ensures Summary(told) == []
  {
    assert told != [] ==> told[|told| - 1] in told;
  }

  lemma AgreeAfter<T>(create: Create<T>, told: seq<Streamed<T>>, b: Batch<T>, c: Call)
    requires Agree(told, b) && Ongoing(told)
    ensures Agree(StreamStep(create, told, c), BatchStep(create, b, c))
    ensures WishOf(create, c) == More ==> Ongoing(StreamStep(create, told, c))
  {
    ModelsOngoing(told);
    match c
    case Fails(err) => ModelsSnoc(told, Broken(err));
    case Gets(resp) =>
      if resp.params == map[] {
        ModelsSnoc(told, End);
      } else if create(resp).Some? {
        ModelsSnoc(told, Model(create(resp).value));
      }
  }

  /**
   Called alike, the two loads agree: the batch collects exactly the models that the stream
   hands on, in order, and hands on their list when the stream ends, or the error, once.
   */
  lemma {:induction false} LoadsAgree<T>(create: Create<T>, calls: seq<Call>)
    requires Proper(create, calls)
    ensures Agree(Stream(create, calls), Collect(create, calls))
    ensures calls == [] || WishOf(create, calls[|calls| - 1]) == More ==> Ongoing(Stream(create, calls))
  {
    if calls != [] {
      var init := calls[..|calls| - 1];
      LoadsAgree(create, init);
      assert init != [] ==> WishOf(create, calls[|init| - 1]) == More;
      AgreeAfter(create, Stream(create, init), Collect(create, init), calls[|calls| - 1]);
    }
  }

  /** The calls that a load takes of those that could be made. */
  function Accepted<T>(create: Create<T>, offered: seq<Call>): (r: seq<Call>)
    ensures r <= offered && (offered != [] ==> r != [])
  {
    if offered == [] then []
    else if WishOf(create, offered[0]) == More then [offered[0]] + Accepted(create, offered[1..])
    else offered[..1]
  }

  lemma {:induction false} AcceptedIsProper<T>(create: Create<T>, offered: seq<Call>)
    ensures var r := Accepted(create, offered);
      && Proper(create, r)
      && (r != offered ==> WishOf(create, r[|r| - 1]) != More)
  {
    if offered != [] {
      var rest := Accepted(create, offered[1..]);
      AcceptedIsProper(create, offered[1..]);
      if WishOf(create, offered[0]) == More {
        forall i | 0 <= i < |rest| ensures WishOf(create, ([offered[0]] + rest)[i]) == More || i == |rest| {
          assert i > 0 ==> WishOf(create, rest[i - 1]) == More;
        }
        assert offered == [offered[0]] + offered[1..];
      }
    }
  }

  /** Whatever replies there are, both loads take the same ones, up to the first that ends the list, and agree. */
  lemma LoadsAgreeOnOffers<T>(create: Create<T>, offered: seq<Call>)
    ensures var calls := Accepted(create, offered);
      var told := Stream(create, calls);
      && Agree(told, Collect(create, calls))
      && (calls != offered && WishOf(create, calls[|calls| - 1]) != Threw ==> Summary(told) != [])
  {
    AcceptedIsProper(create, offered);
    LoadsAgree(create, Accepted(create, offered));
  }

  // ----- a whole list -----

  function Items(replies: seq<M.Response>): seq<Call> {
    seq(|replies|, i requires 0 <= i < |replies| => Gets(replies[i]))
  }

  function Emitted<T>(models: seq<T>): seq<Streamed<T>> {
    seq(|models|, i requires 0 <= i < |models| => Model(models[i]))
  }

  /** The replies are made into the models, one by one. */
  ghost predicate Makes<T>(create: Create<T>, replies: seq<M.Response>, models: seq<T>) {
    && |replies| == |models|
    && forall i | 0 <= i < |replies| :: replies[i].params != map[] && create(replies[i]) == Some(models[i])
  }

  lemma {:induction false} ItemsAreTaken<T>(create: Create<T>, replies: seq<M.Response>, models: seq<T>)
    requires Makes(create, replies, models)
    ensures Stream(create, Items(replies)) == Emitted(models)
    ensures Collect(create, Items(replies)) == Batch(models, [])
  {
    if replies != [] {
      var k := |replies| - 1;
      ItemsAreTaken(create, replies[..k], models[..k]);
      assert Items(replies)[..k] == Items(replies[..k]) && Items(replies)[k] == Gets(replies[k]);
      assert Emitted(models) == Emitted(models[..k]) + [Model(models[k])];
      assert models == models[..k] + [models[k]];
    }
  }

  /** A list of replies and an empty one: the stream has every model and then the end, the batch the list. */
  lemma ListIsLoaded<T>(create: Create<T>, replies: seq<M.Response>, models: seq<T>, last: M.Response)
    requires Makes(create, replies, models) && last.params == map[]
    ensures var calls := Items(replies) + [Gets(last)];
      && Stream(create, calls) == Emitted(models) + [End]
      && Collect(create, calls) == Batch(models, [AllLoaded(models)])
  {
    ItemsAreTaken(create, replies, models);
    assert (Items(replies) + [Gets(last)])[..|replies|] == Items(replies);
  }

  // ----- on every run of a connection -----

  type Happening = Event<M.Response, M.Error>

  function CallIn(e: Happening, serial: nat): seq<Call> {
    match e
    case Failed(r, err) => if r.serial == serial then [Fails(err)] else []
    case Answered(r, resp, _) => if r.serial == serial then [Gets(resp)] else []
    case Raised(r, resp) => if r.serial == serial then [Gets(resp)] else []
    case _ => []
  }

  /** The calls that one request's callback gets. */
  function CallsIn(log: seq<Happening>, serial: nat): seq<Call> {
    if log == [] then [] else CallsIn(log[..|log| - 1], serial) + CallIn(log[|log| - 1], serial)
  }

  /** The request's callback answers as a load does. */
  predicate Loads<T>(create: Create<T>, e: Happening, serial: nat) {
    match e
    case Answered(r, resp, keep) => r.serial == serial ==> WishOf(create, Gets(resp)) == if keep then More else NoMore
    case Raised(r, resp) => r.serial == serial ==> WishOf(create, Gets(resp)) == Threw
    case _ => true
  }

  ghost predicate IsLoad<T>(create: Create<T>, log: seq<Happening>, serial: nat) {
    forall e <- log :: Loads(create, e, serial)
  }

  /** A call and the way it is noted by the connection. */
  predicate Same<T>(create: Create<T>, c: Call, noted: Requests.Call) {
    match noted
    case CallError => c.Fails?
    case CallReply(keep) => c.Gets? && WishOf(create, c) == if keep then More else NoMore
    case CallRaise => c.Gets? && WishOf(create, c) == Threw
  }

  lemma {:induction false} CallsAreNoted<T>(create: Create<T>, log: seq<Happening>, serial: nat)
    requires IsLoad(create, log, serial)
    ensures |CallsIn(log, serial)| == |CallsOf(log, serial)|
    ensures forall i | 0 <= i < |CallsIn(log, serial)| :: Same(create, CallsIn(log, serial)[i], CallsOf(log, serial)[i])
  {
    if log != [] {
      CallsAreNoted(create, log[..|log| - 1], serial);
      assert Loads(create, log[|log| - 1], serial);
    }
  }

  lemma LegalIsProper<T>(create: Create<T>, calls: seq<Call>, noted: seq<Requests.Call>)
    requires |calls| == |noted| && forall i | 0 <= i < |calls| :: Same(create, calls[i], noted[i])
    requires Legal(noted)
    ensures Proper(create, calls)
  {
    forall i | 0 <= i < |calls| - 1 ensures WishOf(create, calls[i]) == More {
      assert Same(create, calls[i], noted[i]);
      assert noted[i] == noted[..|noted| - 1][i] && noted[i] in noted[..|noted| - 1] && noted[i] in noted;
    }
  }

  /**
   In every run of a connection, a stream and a batch that are sent as the same request agree,
   and nothing reaches them after the reply that ends the list.
   */
  lemma LoadsAgreeOnRuns<T>(create: Create<T>, m: M.Mux, serial: nat)
    requires Runs.Reached(m) && IsLoad(create, m.books.log, serial)
    ensures var calls := CallsIn(m.books.log, serial);
      Proper(create, calls) && Agree(Stream(create, calls), Collect(create, calls))
  {
    var log := m.books.log;
    Runs.CallbackLifetime(m, serial);
    CallsAreNoted(create, log, serial);
    LegalIsProper(create, CallsIn(log, serial), CallsOf(log, serial));
    LoadsAgree(create, CallsIn(log, serial));
  }
}
