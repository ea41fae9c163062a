/**
 A connection from its start: requests registering streams, and the data coming in for
 them. The read loop waits for a registration to finish, so a peer that speaks of a stream
 only once it was announced never comes too early.
 */
module Connection {
  import opened Common
  import opened MsgPackCodec
  import opened Streams
  import opened Inbound
  import Engine = StreamEngine
  import StreamWork
  import Server = RpcServer

  datatype Conn = Conn(server: Server.Sys, net: Net)

  datatype Event =
    | Serve(act: Server.Event)                                // anything the server does but dispatching
    | Receive
    | Handle(request: Option<Server.Request>, ids: seq<Id>)   // dispatches the next message, which may be a request
    | Drop(id: Id)                                            // a spawned removal
    | Run(step: Engine.Event)                                 // a spawned loop or remover

  function Start(chunks: seq<bytes>): Conn {
    Conn(Server.START, Net(chunks, [], multiset{}, Engine.EMPTY))
  }

  /** What an event is to the server. */
  function OnServer(e: Event): Option<Server.Event> {
    match e
    case Serve(ev) => Some(ev)
    case Handle(Some(r), ids) => Some(Server.Event.Dispatch(r, ids))
    case _ => None
  }

  /** The stream `register_stream` opens next, if it is at that point. */
  predicate Opens(c: Conn, e: Event) {
    e == Serve(Server.Event.OpenStream) && c.server.registering.Some? && c.server.registering.value.todo != []
  }

  /** What an event is to the inbound side: opening a stream inserts its record. */
  function OnNet(c: Conn, e: Event): Option<Inbound.Event> {
    match e
    case Serve(_) =>
      if Opens(c, e) then Some(Inbound.Event.Task(Engine.Insert(c.server.registering.value.todo[0]))) else None
    case Receive => Some(Inbound.Event.Read)
    case Handle(_, _) => Some(Inbound.Event.Dispatch)
    case Drop(id) => Some(Inbound.Event.RunRemoval(id))
    case Run(ev) => Some(Inbound.Event.Task(ev))
  }

  ghost predicate Enabled<T(!new)>(p: Protocol<T>, c: Conn, e: Event)
    requires Streaming(p.read)
  {
    && (OnServer(e).Some? ==> Server.Enabled(c.server, OnServer(e).value))
    && (match e
        case Serve(ev) => !ev.Dispatch?
        case Run(ev) => !ev.Insert? && Inbound.Enabled(p, c.net, Inbound.Event.Task(ev))
        case Drop(id) => Inbound.Enabled(p, c.net, Inbound.Event.RunRemoval(id))
        case Receive => c.server.registering == None && Inbound.Enabled(p, c.net, Inbound.Event.Read)
        case Handle(_, _) => c.server.registering == None && Inbound.Enabled(p, c.net, Inbound.Event.Dispatch))
  }

  ghost function Apply<T(!new)>(p: Protocol<T>, c: Conn, e: Event): Conn
    requires Streaming(p.read) && Enabled(p, c, e)
  {
    var server := if OnServer(e).Some? then Server.Apply(c.server, OnServer(e).value) else c.server;
    var ev := OnNet(c, e);
    var net := if ev.Some? && Inbound.Enabled(p, c.net, ev.value) then Inbound.Apply(p, c.net, ev.value) else c.net;
    Conn(server, net)
  }

  ghost function Exec<T(!new)>(p: Protocol<T>, c: Conn, es: seq<Event>): Option<Conn>
    requires Streaming(p.read)
    decreases |es|
  {
    if es == [] then Some(c)
    else if Enabled(p, c, es[0]) then Exec(p, Apply(p, c, es[0]), es[1..])
    else None
  }

  // ---- the peer speaks of a stream only once it was announced ----

  predicate Concerns(a: Action, x: Id) {
    (a.Data? || a.Ended?) && a.stream == x
  }

  ghost predicate Timely<T(!new)>(p: Protocol<T>, c: Conn, e: Event, x: Id)
    requires Streaming(p.read)
  {
    (e.Handle? && Enabled(p, c, e) && Concerns(p.act(Front(p, c.net).obj, Front(p, c.net).vec), x)) ==>
      Server.AnnouncedIn(c.server.chan, x)
  }

  /** In no event of the run is a message about `x` handled before `x` was announced. */
  ghost predicate AllTimely<T(!new)>(p: Protocol<T>, c: Conn, es: seq<Event>, x: Id)
    requires Streaming(p.read)
    decreases |es|
  {
    es != [] ==>
      Timely(p, c, es[0], x) && (Enabled(p, c, es[0]) ==> AllTimely(p, Apply(p, c, es[0]), es[1..], x))
  }

  // ---- the invariant ----

  /** The first `i` messages have been handled; those about `x` have reached its stream, if it was opened. */
  ghost predicate Follows(n: Net, acts: seq<Action>, i: nat, x: Id) {
    && i <= |acts|
    && (x in n.eng.sinks ==> Tracks(n, acts, i, x))
    && (x !in n.eng.sinks ==> x !in n.removals && forall j :: 0 <= j < i ==> !Concerns(acts[j], x))
  }

  ghost predicate Inv<T(!new)>(p: Protocol<T>, c: Conn, loc: Engine.Where, ms: seq<bytes>, i: nat, x: Id)
    requires Wire(p, ms)
  {
    && Server.Inv(c.server) && Server.AnnouncedOpen(c.server)
    && Engine.Inv(c.net.eng, loc)
    && c.net.eng.sinks.Keys == c.server.got.Keys
    && Aligned(c.net, ms, i)
    && Follows(c.net, Actions(p, ms), i, x)
  }

  lemma ServerKeeps<T(!new)>(p: Protocol<T>, c: Conn, e: Event)
    requires Streaming(p.read) && Server.Inv(c.server) && Server.AnnouncedOpen(c.server) && Enabled(p, c, e)
    ensures Server.Inv(Apply(p, c, e).server) && Server.AnnouncedOpen(Apply(p, c, e).server)
  {
    var ev := OnServer(e);
    if ev.Some? {
      Server.StepKeeps(c.server, ev.value);
      Server.AnnouncedOpenKeeps(c.server, ev.value);
    }
  }

  /** The record of a stream being opened can be inserted: its id is new. */
  lemma OpenIsNew<T(!new)>(p: Protocol<T>, c: Conn, e: Event)
    requires Streaming(p.read) && Server.Inv(c.server) && c.net.eng.sinks.Keys == c.server.got.Keys
    requires Enabled(p, c, e) && OnNet(c, e).Some?
    ensures Inbound.Enabled(p, c.net, OnNet(c, e).value)
    ensures Apply(p, c, e).net == Inbound.Apply(p, c.net, OnNet(c, e).value)
  {
    if e.Serve? {
      var todo := c.server.registering.value.todo;
      assert todo[0] in todo;
    }
  }

  /** Records and relay tasks are created together. */
  lemma KeysKeep<T(!new)>(p: Protocol<T>, c: Conn, loc: Engine.Where, e: Event)
    requires Streaming(p.read) && Server.Inv(c.server) && Engine.Inv(c.net.eng, loc) && Enabled(p, c, e)
    requires c.net.eng.sinks.Keys == c.server.got.Keys
    ensures Apply(p, c, e).net.eng.sinks.Keys == Apply(p, c, e).server.got.Keys
  {
    SinksOfNet(p, c, loc, e);
    GotOfServer(p, c, e);
  }

  lemma SinksOfEngine(s: Engine.Sys, loc: Engine.Where, e: Engine.Event)
    requires Engine.Inv(s, loc) && Engine.Enabled(s, e)
    ensures Engine.Apply(s, e).sinks.Keys == s.sinks.Keys + (if e.Insert? then {e.id} else {})
  {
    if !e.Insert? {
      Engine.InvSubject(s, loc, e);
      Engine.SinksKeep(s, loc, e);
    }
  }

  lemma SinksOfNet<T(!new)>(p: Protocol<T>, c: Conn, loc: Engine.Where, e: Event)
    requires Streaming(p.read) && Server.Inv(c.server) && Engine.Inv(c.net.eng, loc) && Enabled(p, c, e)
    requires c.net.eng.sinks.Keys == c.server.got.Keys
    ensures Apply(p, c, e).net.eng.sinks.Keys
         == c.net.eng.sinks.Keys + (if Opens(c, e) then {c.server.registering.value.todo[0]} else {})
  {
    var ev := OnNet(c, e);
    if ev.Some? {
      OpenIsNew(p, c, e);
      SinksOfInbound(p, c.net, loc, ev.value);
    }
  }

  lemma SinksOfInbound<T(!new)>(p: Protocol<T>, n: Net, loc: Engine.Where, e: Inbound.Event)
    requires Streaming(p.read) && Engine.Inv(n.eng, loc) && Inbound.Enabled(p, n, e)
    ensures Inbound.Apply(p, n, e).eng.sinks.Keys == n.eng.sinks.Keys + (if Registers(e) then {e.e.id} else {})
  {
    var onStreams := OnStreams(p, n, e);
    if onStreams.Some? {
      SinksOfEngine(n.eng, loc, onStreams.value);
    }
  }

  lemma GotOfServer<T(!new)>(p: Protocol<T>, c: Conn, e: Event)
    requires Streaming(p.read) && Server.Inv(c.server) && Enabled(p, c, e)
    ensures Apply(p, c, e).server.got.Keys
         == c.server.got.Keys + (if Opens(c, e) then {c.server.registering.value.todo[0]} else {})
  {
    if OnServer(e).Some? {
      Server.GotStep(c.server, OnServer(e).value);
    }
  }

  /** A message about `x` that is handled finds `x` opened. */
  lemma HandledIsOpen<T(!new)>(p: Protocol<T>, c: Conn, loc: Engine.Where, ms: seq<bytes>, i: nat, x: Id, e: Event)
    requires Streaming(p.read) && Wire(p, ms) && Inv(p, c, loc, ms, i, x)
    requires e.Handle? && Enabled(p, c, e) && Timely(p, c, e, x)
    requires Concerns(p.act(Front(p, c.net).obj, Front(p, c.net).vec), x)
    ensures x in c.net.eng.sinks
  {
    assert Server.AnnouncedIn(c.server.chan, x);
  }

  lemma FollowsOpened(n: Net, acts: seq<Action>, i: nat, x: Id)
    requires Follows(n, acts, i, x) && x !in n.eng.sinks
    ensures Segments(acts[..i], x) == [] && Ended(x) !in acts[..i]
    decreases i
  {
    if i == 0 {
    } else {
      assert acts[..i][..i - 1] == acts[..i - 1];
      FollowsOpened(n, acts, i - 1, x);
      assert acts[..i] == acts[..i - 1] + [acts[i - 1]];
    }
  }

  /** Opening `x` starts following it from the first message on. */
  lemma OpeningFollows<T(!new)>(p: Protocol<T>, n: Net, loc: Engine.Where, acts: seq<Action>, i: nat, x: Id)
    requires Streaming(p.read) && Follows(n, acts, i, x) && Engine.Inv(n.eng, loc) && x !in n.eng.sinks
    ensures Tracks(Inbound.Apply(p, n, Inbound.Event.Task(Engine.Insert(x))), acts, i, x)
  {
    FollowsOpened(n, acts, i, x);
  }

  lemma FollowsStep<T(!new)>(p: Protocol<T>, n: Net, loc: Engine.Where, acts: seq<Action>, i: nat, x: Id,
                             e: Inbound.Event)
    requires Streaming(p.read) && Follows(n, acts, i, x) && DataThenEnd(acts, x) && Inbound.Enabled(p, n, e)
    requires Engine.Inv(n.eng, loc)
    requires e.Dispatch? ==> i < |acts| && acts[i] == p.act(Front(p, n).obj, Front(p, n).vec)
    requires e.Dispatch? && Concerns(acts[i], x) ==> x in n.eng.sinks
    ensures Follows(Inbound.Apply(p, n, e), acts, if e.Dispatch? then i + 1 else i, x)
  {
    if x in n.eng.sinks {
      TracksStep(p, n, acts, i, x, e);
    } else if e == Inbound.Event.Task(Engine.Insert(x)) {
      OpeningFollows(p, n, loc, acts, i, x);
    } else {
      UnopenedStep(p, n, loc, x, e);
    }
  }

  lemma UnopenedStep<T(!new)>(p: Protocol<T>, n: Net, loc: Engine.Where, x: Id, e: Inbound.Event)
    requires Streaming(p.read) && Inbound.Enabled(p, n, e) && Engine.Inv(n.eng, loc)
    requires x !in n.eng.sinks && x !in n.removals && e != Inbound.Event.Task(Engine.Insert(x))
    ensures x !in Inbound.Apply(p, n, e).eng.sinks
    ensures x in Inbound.Apply(p, n, e).removals ==> e.Dispatch? && Concerns(p.act(Front(p, n).obj, Front(p, n).vec), x)
  {
    var ev := OnStreams(p, n, e);
    if ev.Some? {
      SinksOfEngine(n.eng, loc, ev.value);
    }
  }

  function Handled(e: Event, i: nat): nat {
    if e.Handle? then i + 1 else i
  }

  lemma NetKeeps<T(!new)>(p: Protocol<T>, c: Conn, loc: Engine.Where, ms: seq<bytes>, i: nat, x: Id, e: Event)
    returns (loc': Engine.Where)
    requires Streaming(p.read) && Wire(p, ms) && Inv(p, c, loc, ms, i, x)
    requires DataThenEnd(Actions(p, ms), x) && Enabled(p, c, e) && Timely(p, c, e, x)
    ensures var c' := Apply(p, c, e);
            && Engine.Inv(c'.net.eng, loc') && Aligned(c'.net, ms, Handled(e, i))
            && Follows(c'.net, Actions(p, ms), Handled(e, i), x)
  {
    loc' := loc;
    var ev := OnNet(c, e);
    if ev.Some? {
      OpenIsNew(p, c, e);
      loc' := EngineStep(p, c.net, loc, ev.value);
      AlignedStep(p, c.net, ms, i, ev.value);
      FrontIsNext(p, c.net, ms, i);
      if e.Handle? && Concerns(p.act(Front(p, c.net).obj, Front(p, c.net).vec), x) {
        HandledIsOpen(p, c, loc, ms, i, x, e);
      }
      FollowsStep(p, c.net, loc, Actions(p, ms), i, x, ev.value);
    }
  }

  lemma StepKeeps<T(!new)>(p: Protocol<T>, c: Conn, loc: Engine.Where, ms: seq<bytes>, i: nat, x: Id, e: Event)
    returns (loc': Engine.Where)
    requires Streaming(p.read) && Wire(p, ms) && Inv(p, c, loc, ms, i, x)
    requires DataThenEnd(Actions(p, ms), x) && Enabled(p, c, e) && Timely(p, c, e, x)
    ensures Inv(p, Apply(p, c, e), loc', ms, Handled(e, i), x)
  {
    ServerKeeps(p, c, e);
    KeysKeep(p, c, loc, e);
    loc' := NetKeeps(p, c, loc, ms, i, x, e);
  }

  lemma {:induction false} RunKeeps<T(!new)>(p: Protocol<T>, c: Conn, loc: Engine.Where, ms: seq<bytes>, i: nat, x: Id,
                                             es: seq<Event>)
    returns (loc': Engine.Where, i': nat)
    requires Streaming(p.read) && Wire(p, ms) && Inv(p, c, loc, ms, i, x) && DataThenEnd(Actions(p, ms), x)
    requires Exec(p, c, es).Some? && AllTimely(p, c, es, x)
    ensures Inv(p, Exec(p, c, es).value, loc', ms, i', x)
    decreases |es|
  {
    loc', i' := loc, i;
    if es == [] {
    } else {
      loc' := StepKeeps(p, c, loc, ms, i, x, es[0]);
      loc', i' := RunKeeps(p, Apply(p, c, es[0]), loc', ms, Handled(es[0], i), x, es[1..]);
    }
  }

  lemma StartInv<T(!new)>(p: Protocol<T>, chunks: seq<bytes>, ms: seq<bytes>, x: Id)
    requires Wire(p, ms) && Flat(chunks) == Flat(ms)
    ensures Inv(p, Start(chunks), map[], ms, 0, x)
  {
    assert ms[0..] == ms && [] + Flat(chunks) == Flat(chunks);
  }

  // ---- the theorems ----

  /** A run of the connection from its start, with a peer that behaves as far as `x` is concerned. */
  ghost predicate Session<T(!new)>(p: Protocol<T>, chunks: seq<bytes>, ms: seq<bytes>, es: seq<Event>, x: Id)
    requires Streaming(p.read)
  {
    && Wire(p, ms) && Flat(chunks) == Flat(ms) && DataThenEnd(Actions(p, ms), x)
    && Exec(p, Start(chunks), es).Some? && AllTimely(p, Start(chunks), es, x)
  }

  lemma NotEndedBefore(acts: seq<Action>, i: nat, x: Id)
    requires i < |acts| && DataThenEnd(acts, x) && SegmentFor(acts[i], x) != []
    ensures Ended(x) !in acts[..i]
  {
    forall j | 0 <= j < i ensures acts[j] != Ended(x) {}
  }

  /** Data handled for a stream finds its record, ready to take it. */
  lemma DataFindsRecord<T(!new)>(p: Protocol<T>, chunks: seq<bytes>, ms: seq<bytes>, es: seq<Event>, x: Id, e: Event)
    requires Streaming(p.read) && Session(p, chunks, ms, es, x)
    requires var c := Exec(p, Start(chunks), es).value;
             && e.Handle? && Enabled(p, c, e) && Timely(p, c, e, x)
             && SegmentFor(p.act(Front(p, c.net).obj, Front(p, c.net).vec), x) != []
    ensures var c := Exec(p, Start(chunks), es).value;
            x in c.net.eng.recs && !c.net.eng.recs[x].ended && x !in c.net.removals
  {
    StartInv(p, chunks, ms, x);
    var loc, i := RunKeeps(p, Start(chunks), map[], ms, 0, x, es);
    DataFinds(p, Exec(p, Start(chunks), es).value, loc, ms, i, x, e);
  }

  lemma DataFinds<T(!new)>(p: Protocol<T>, c: Conn, loc: Engine.Where, ms: seq<bytes>, i: nat, x: Id, e: Event)
    requires Streaming(p.read) && Wire(p, ms) && Inv(p, c, loc, ms, i, x) && DataThenEnd(Actions(p, ms), x)
    requires e.Handle? && Enabled(p, c, e) && Timely(p, c, e, x)
    requires SegmentFor(p.act(Front(p, c.net).obj, Front(p, c.net).vec), x) != []
    ensures !Leaving(c.net, x)
  {
    FrontIsNext(p, c.net, ms, i);
    HandledIsOpen(p, c, loc, ms, i, x, e);
    assert Actions(p, ms)[i] == p.act(Front(p, c.net).obj, Front(p, c.net).vec);
    NotEndedBefore(Actions(p, ms), i, x);
  }

  /**
   From the start of the connection: whatever a stream's sink holds is a prefix of what the
   peer sends for it, and all of it once the sink is shut down.
   */
  lemma SessionDelivers<T(!new)>(p: Protocol<T>, chunks: seq<bytes>, ms: seq<bytes>, es: seq<Event>, x: Id)
    requires Streaming(p.read) && Session(p, chunks, ms, es, x)
    requires x in Exec(p, Start(chunks), es).value.net.eng.sinks
    ensures var s := Exec(p, Start(chunks), es).value.net.eng;
            && s.sinks[x].shutdowns <= 1
            && (!s.sinks[x].failed ==> s.sinks[x].data <= Flat(Segments(Actions(p, ms), x)))
            && (!s.sinks[x].failed && s.sinks[x].shutdowns == 1 ==>
                  s.sinks[x].data == Flat(Segments(Actions(p, ms), x)))
  {
    StartInv(p, chunks, ms, x);
    var loc, i := RunKeeps(p, Start(chunks), map[], ms, 0, x, es);
    var c := Exec(p, Start(chunks), es).value;
    SinkAfter(c.net.eng, loc, c.net, Actions(p, ms), i, x);
  }

  /** With nothing left to do on the inbound side, a stream the peer ended has been opened, served and shut down. */
  lemma SessionCompletes<T(!new)>(p: Protocol<T>, chunks: seq<bytes>, ms: seq<bytes>, es: seq<Event>, x: Id)
    requires Streaming(p.read) && Session(p, chunks, ms, es, x) && Ended(x) in Actions(p, ms)
    requires Quiescent(p, Exec(p, Start(chunks), es).value.net)
    ensures var s := Exec(p, Start(chunks), es).value.net.eng;
            x in s.sinks && s.sinks[x].shutdowns == 1
  {
    StartInv(p, chunks, ms, x);
    var loc, i := RunKeeps(p, Start(chunks), map[], ms, 0, x, es);
    var n := Exec(p, Start(chunks), es).value.net;
    FrontIsNext(p, n, ms, i);
    var j :| 0 <= j < |ms| && Actions(p, ms)[j] == Ended(x);
    assert Concerns(Actions(p, ms)[j], x);
    QuiescentIsShut(p, n, loc, ms, i, x);
  }

  // ---- how long a session goes on ----

  /** The steps of the inbound side: reads, messages, removals, loops, removers and the callbacks' reads. */
  function InboundSteps(es: seq<Event>): nat {
    if es == [] then 0 else (if es[0].Serve? then 0 else 1) + InboundSteps(es[1..])
  }

  /** The steps the messages of a session can cause at most. */
  ghost function SessionSteps<T(!new)>(p: Protocol<T>, chunks: seq<bytes>, ms: seq<bytes>): nat
    requires Wire(p, ms)
  {
    |chunks| + Costs(Actions(p, ms))
  }

  lemma StepTakes<T(!new)>(p: Protocol<T>, c: Conn, loc: Engine.Where, ms: seq<bytes>, i: nat, x: Id, e: Event)
    requires Streaming(p.read) && Wire(p, ms) && Inv(p, c, loc, ms, i, x) && Enabled(p, c, e)
    ensures Handled(e, i) <= |ms|
    ensures StepsLeft(Apply(p, c, e).net, Actions(p, ms), Handled(e, i)) + (if e.Serve? then 0 else 1)
         <= StepsLeft(c.net, Actions(p, ms), i)
  {
    var ev := OnNet(c, e);
    if ev.Some? {
      OpenIsNew(p, c, e);
      StepTaken(p, c.net, loc, ms, i, ev.value);
      assert Steps([ev.value]) == (if Registers(ev.value) then 0 else 1) + Steps([ev.value][1..]);
    }
  }

  lemma {:induction false} RunTakes<T(!new)>(p: Protocol<T>, c: Conn, loc: Engine.Where, ms: seq<bytes>, i: nat, x: Id,
                                             es: seq<Event>)
    requires Streaming(p.read) && Wire(p, ms) && Inv(p, c, loc, ms, i, x) && DataThenEnd(Actions(p, ms), x)
    requires Exec(p, c, es).Some? && AllTimely(p, c, es, x)
    ensures InboundSteps(es) <= StepsLeft(c.net, Actions(p, ms), i)
    decreases |es|
  {
    if es == [] {
    } else {
      StepTakes(p, c, loc, ms, i, x, es[0]);
      var loc' := StepKeeps(p, c, loc, ms, i, x, es[0]);
      RunTakes(p, Apply(p, c, es[0]), loc', ms, Handled(es[0], i), x, es[1..]);
    }
  }

  /** The registration in progress can go on: it announces its streams, opens the next one, or is done. */
  lemma RegistrationGoesOn<T(!new)>(p: Protocol<T>, c: Conn) returns (e: Event)
    requires Streaming(p.read) && c.server.registering.Some?
    ensures Enabled(p, c, e) && e.Serve? && (e.act.Announce? || e.act.OpenStream?)
  {
    e := Serve(if c.server.registering.value.announced then Server.Event.OpenStream else Server.Event.Announce);
  }

  /** What an inbound event is on the connection, while no registration is in progress. */
  function FromNet(e: Inbound.Event): Event {
    match e
    case Read => Receive
    case Dispatch => Handle(None, [])
    case RunRemoval(id) => Drop(id)
    case Task(ev) => Run(ev)
  }

  /** The connection is at rest: nothing inbound and no registration can go on. */
  ghost predicate Idle<T(!new)>(p: Protocol<T>, c: Conn)
    requires Streaming(p.read)
  {
    forall e :: Enabled(p, c, e) ==> e.Serve? && !e.act.Announce? && !e.act.OpenStream?
  }

  lemma IdleIsQuiescent<T(!new)>(p: Protocol<T>, c: Conn, loc: Engine.Where, ms: seq<bytes>, i: nat, x: Id)
    requires Streaming(p.read) && Wire(p, ms) && Inv(p, c, loc, ms, i, x) && Idle(p, c)
    ensures Quiescent(p, c.net)
  {
    IdleIsRegistered(p, c);
    forall e | Inbound.Enabled(p, c.net, e) ensures Registers(e) {
      IdleOnlyRegisters(p, c, e);
    }
    RestIsQuiescent(p, c.net, loc, ms, i);
  }

  lemma IdleIsRegistered<T(!new)>(p: Protocol<T>, c: Conn)
    requires Streaming(p.read) && Idle(p, c)
    ensures c.server.registering == None
  {
    if c.server.registering.Some? {
      var e := RegistrationGoesOn(p, c);
    }
  }

  lemma IdleOnlyRegisters<T(!new)>(p: Protocol<T>, c: Conn, e: Inbound.Event)
    requires Streaming(p.read) && Idle(p, c) && c.server.registering == None && Inbound.Enabled(p, c.net, e)
    ensures Registers(e)
  {
    assert !Registers(e) ==> Enabled(p, c, FromNet(e));
  }

  /**
   From the start of a connection the inbound side takes a bounded number of steps, however
   many requests are served meanwhile; and when nothing inbound and no registration can go
   on, every stream the peer ended has been opened, served and shut down, with all its data.
   */
  lemma SessionEnds<T(!new)>(p: Protocol<T>, chunks: seq<bytes>, ms: seq<bytes>, es: seq<Event>, x: Id)
    requires Streaming(p.read) && Session(p, chunks, ms, es, x)
    ensures InboundSteps(es) <= SessionSteps(p, chunks, ms)
    ensures var c := Exec(p, Start(chunks), es).value;
            Idle(p, c) && Ended(x) in Actions(p, ms) ==>
              && x in c.net.eng.sinks && c.net.eng.sinks[x].shutdowns == 1
              && (!c.net.eng.sinks[x].failed ==> c.net.eng.sinks[x].data == Flat(Segments(Actions(p, ms), x)))
  {
    StartInv(p, chunks, ms, x);
    RunTakes(p, Start(chunks), map[], ms, 0, x, es);
    StartWork(p, chunks, ms);
    if Idle(p, Exec(p, Start(chunks), es).value) && Ended(x) in Actions(p, ms) {
      var loc, i := RunKeeps(p, Start(chunks), map[], ms, 0, x, es);
      IdleIsQuiescent(p, Exec(p, Start(chunks), es).value, loc, ms, i, x);
      SessionCompletes(p, chunks, ms, es, x);
      SessionDelivers(p, chunks, ms, es, x);
    }
  }

  lemma StartWork<T(!new)>(p: Protocol<T>, chunks: seq<bytes>, ms: seq<bytes>)
    requires Wire(p, ms)
    ensures StepsLeft(Start(chunks).net, Actions(p, ms), 0) == SessionSteps(p, chunks, ms)
  {
    assert Actions(p, ms)[0..] == Actions(p, ms);
    StreamWork.NoWork();
  }
}
