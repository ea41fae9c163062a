/**
 Serving requests on one connection: dispatch to the three kinds of methods, registration
 of duplex streams, the reader tasks that relay them, and the one channel all messages to
 the peer go through in order.
 */
module RpcServer {
  import opened Common

  type Id = nat

  /** The position of a request in the order of dispatch. */
  type Ticket = nat

  const SEGMENT_LIMIT := 4096

  datatype MethodKind = Sync | Async | Duplex(streams: nat)

  datatype ReplyBody = Success | Failure(code: int)

  /** A message to the peer; tickets tell requests apart that carry the same id. */
  datatype Wire =
    | Started(ticket: Ticket, forId: Id, ids: seq<Id>)
    | Data(stream: Id, segment: bytes)
    | Ended(stream: Id)
    | Reply(ticket: Ticket, id: Id, body: ReplyBody)

  /**
   A request: its id unless it is a notification, the method it names, whether its parameters
   parse, and whether the callback will succeed when it runs.
   */
  datatype Request = Request(id: Option<Id>, kind: Option<MethodKind>, paramsOk: bool, ok: bool)

  // ---- the method kinds ----

  function Respond(id: Option<Id>, body: ReplyBody): Option<(Id, ReplyBody)> {
    match id
    case Some(i) => Some((i, body))
    case None => None
  }

  /** What the callback's result becomes, the same for every kind. */
  function Finished(id: Option<Id>, ok: bool): Option<(Id, ReplyBody)> {
    Respond(id, if ok then Success else Failure(-1))
  }

  /** A future still running its callback, or one that is ready with an answer. */
  datatype Future = Running | Ready(answer: Option<(Id, ReplyBody)>)

  datatype MaybeSync =
    | SyncDone(answer: Option<(Id, ReplyBody)>)
    | FutureOf(fut: Future)
    | StreamOf(streams: Option<nat>, fut: Future)

  /** A synchronous callback runs during dispatch, the others in the future returned. */
  function Dispatched(r: Request): MaybeSync {
    match r.kind
    case None => SyncDone(Respond(r.id, Failure(-1)))
    case Some(Sync) => SyncDone(if r.paramsOk then Finished(r.id, r.ok) else Respond(r.id, Failure(0)))
    case Some(Async) => FutureOf(if r.paramsOk then Running else Ready(Respond(r.id, Failure(0))))
    case Some(Duplex(n)) =>
      if r.paramsOk then StreamOf(Some(n), Running) else StreamOf(None, Ready(Respond(r.id, Failure(0))))
  }

  // ---- the system ----

  /** A relay task: the segment it has read and not sent yet. */
  datatype Reader = Reader(hand: Option<bytes>)

  /** `register_stream` in progress: announcing, then opening the streams one by one. */
  datatype Registration = Registration(ticket: Ticket, ids: seq<Id>, announced: bool, todo: seq<Id>)

  datatype Sys = Sys(
    chan: seq<Wire>,
    open: bool,
    served: seq<Request>,
    registering: Option<Registration>,
    futures: map<Ticket, Future>,
    readers: map<Id, Reader>,
    got: map<Id, bytes>,  // what each relay task has read so far
    next: Id)

  datatype Event =
    | Dispatch(r: Request, ids: seq<Id>)  // the ids the shared counter hands out for its streams
    | Announce
    | OpenStream
    | Resolve(t: Ticket)
    | Read(stream: Id, segment: bytes)
    | SendData(stream: Id)
    | Eof(stream: Id)
    | Close

  const START := Sys([], true, [], None, map[], map[], map[], 0)

  ghost predicate Enabled(s: Sys, e: Event) {
    match e
    case Dispatch(r, ids) =>
      && s.registering == None  // the read loop awaits a registration
      && (Dispatched(r).StreamOf? && Dispatched(r).streams.Some? ==> |ids| == Dispatched(r).streams.value)
      && NoDup(ids) && (forall x :: x in ids ==> x >= s.next)  // ids are fresh, though not consecutive
    case Announce => s.registering.Some? && !s.registering.value.announced
    case OpenStream => s.registering.Some? && s.registering.value.announced
    case Resolve(t) => t in s.futures
    case Read(x, segment) =>
      x in s.readers && s.readers[x].hand == None && x in s.got && 1 <= |segment| <= SEGMENT_LIMIT
    case SendData(x) => x in s.readers && s.readers[x].hand.Some?
    case Eof(x) => x in s.readers && s.readers[x].hand == None
    case Close => true
  }

  /** Sending on the channel, which drops messages once the other end is gone. */
  function Sent(s: Sys, m: Wire): Sys {
    if s.open then s.(chan := s.chan + [m]) else s
  }

  function Answered(s: Sys, t: Ticket, answer: Option<(Id, ReplyBody)>): Sys {
    match answer
    case Some((id, body)) => Sent(s, Reply(t, id, body))
    case None => s
  }

  /** What the future of request `t` resolves to. */
  function Outcome(s: Sys, t: Ticket): Option<(Id, ReplyBody)>
    requires t in s.futures
  {
    match s.futures[t]
    case Ready(answer) => answer
    case Running => if t < |s.served| then Finished(s.served[t].id, s.served[t].ok) else None
  }

  function Spawn(s: Sys, t: Ticket, f: Future): Sys {
    s.(futures := s.futures[t := f])
  }

  /** The id a request is announced under; a notification without one counts as request 0. */
  function AnnouncedId(r: Request): Id {
    if r.id.Some? then r.id.value else 0
  }

  function Announcement(s: Sys, reg: Registration): Wire {
    Started(reg.ticket, if reg.ticket < |s.served| then AnnouncedId(s.served[reg.ticket]) else 0, reg.ids)
  }

  /** Where the counter is after handing out `ids`. */
  function Above(ids: seq<Id>, lo: Id): (r: Id)
    ensures r >= lo && forall x :: x in ids ==> x < r
  {
    if ids == [] then lo
    else
      var r := Above(ids[1..], lo);
      assert ids == [ids[0]] + ids[1..];
      if ids[0] < r then r else ids[0] + 1
  }

  ghost function Apply(s: Sys, e: Event): Sys
    requires Enabled(s, e)
  {
    match e
    case Dispatch(r, ids) =>
      var t, s1 := |s.served|, s.(served := s.served + [r]);
      (match Dispatched(r)
       case SyncDone(answer) => Answered(s1, t, answer)
       case FutureOf(f) => Spawn(s1, t, f)
       case StreamOf(None, f) => Spawn(s1, t, f)
       case StreamOf(Some(_), _) =>
         s1.(registering := Some(Registration(t, ids, false, ids)), next := Above(ids, s.next)))
    case Announce =>
      var reg := s.registering.value;
      if s.open then Sent(s, Announcement(s, reg)).(registering := Some(reg.(announced := true)))
      else Spawn(s.(registering := None), reg.ticket, Running)
    case OpenStream =>
      var reg := s.registering.value;
      if reg.todo != [] then
        var x := reg.todo[0];
        s.(readers := s.readers[x := Reader(None)], got := s.got[x := []],
           registering := Some(reg.(todo := reg.todo[1..])))
      else Spawn(s.(registering := None), reg.ticket, Running)
    case Resolve(t) =>
      Answered(s.(futures := s.futures - {t}), t, Outcome(s, t))
    case Read(x, segment) => s.(readers := s.readers[x := Reader(Some(segment))], got := s.got[x := s.got[x] + segment])
    case SendData(x) =>
      if s.open then Sent(s, Data(x, s.readers[x].hand.value)).(readers := s.readers[x := Reader(None)])
      else s.(readers := s.readers - {x})
    case Eof(x) => Sent(s, Ended(x)).(readers := s.readers - {x})
    case Close => s.(open := false)
  }

  ghost function Exec(s: Sys, es: seq<Event>): Option<Sys>
    decreases |es|
  {
    if es == [] then Some(s)
    else if Enabled(s, es[0]) then Exec(Apply(s, es[0]), es[1..])
    else None
  }

  ghost predicate Reachable(s: Sys) {
    exists es :: Exec(START, es) == Some(s)
  }

  // ---- replies ----

  function RepliesTo(chan: seq<Wire>, t: Ticket): seq<Wire> {
    if chan == [] then []
    else
      var m := chan[|chan| - 1];
      RepliesTo(chan[..|chan| - 1], t) + (if m.Reply? && m.ticket == t then [m] else [])
  }

  lemma RepliesSnoc(chan: seq<Wire>, m: Wire, t: Ticket)
    ensures RepliesTo(chan + [m], t) == RepliesTo(chan, t) + (if m.Reply? && m.ticket == t then [m] else [])
  {
    assert (chan + [m])[..|chan|] == chan;
  }

  /** The request is still being registered or its future has not resolved. */
  predicate InProgress(s: Sys, t: Ticket) {
    t in s.futures || (s.registering.Some? && s.registering.value.ticket == t)
  }

  /** The answers a request may get: its own id, and the code its path through dispatch prescribes. */
  predicate Fitting(r: Request, m: Wire) {
    && m.Reply? && r.id == Some(m.id)
    && (r.kind == None ==> m.body == Failure(-1))
    && (r.kind.Some? && !r.paramsOk ==> m.body == Failure(0))
    && (r.kind.Some? && r.paramsOk ==> m.body == if r.ok then Success else Failure(-1))
  }

  ghost predicate RepliesOk(s: Sys, t: Ticket)
    requires t < |s.served|
  {
    var r, replies := s.served[t], RepliesTo(s.chan, t);
    && |replies| <= 1
    && (forall m :: m in replies ==> Fitting(r, m))
    && (InProgress(s, t) ==> replies == [])
    && (!InProgress(s, t) && s.open && r.id.Some? ==> |replies| == 1)
  }

  // ---- order on the wire ----

  predicate About(m: Wire, x: Id) {
    (m.Data? || m.Ended?) && m.stream == x
  }

  ghost predicate AnnouncedIn(chan: seq<Wire>, x: Id) {
    exists m :: m in chan && m.Started? && x in m.ids
  }

  ghost predicate StartedIn(chan: seq<Wire>, t: Ticket) {
    exists m :: m in chan && m.Started? && m.ticket == t
  }

  /** The request opens streams. */
  predicate OpensStreams(r: Request) {
    r.kind.Some? && r.kind.value.Duplex? && r.paramsOk
  }

  /** What has to have been sent, and what not, when `m` is. */
  ghost predicate InOrder(served: seq<Request>, before: seq<Wire>, m: Wire) {
    match m
    case Started(t, forId, ids) =>
      && t < |served| && OpensStreams(served[t]) && !StartedIn(before, t)
      && forId == (match served[t].id case Some(i) => i case None => 0)
      && |ids| == served[t].kind.value.streams && NoDup(ids)
    case Data(x, segment) => AnnouncedIn(before, x) && Ended(x) !in before && 1 <= |segment| <= 4096
    case Ended(x) => AnnouncedIn(before, x) && Ended(x) !in before
    case Reply(t, _, _) => t < |served| && (OpensStreams(served[t]) ==> StartedIn(before, t))
  }

  ghost predicate WellOrdered(served: seq<Request>, chan: seq<Wire>) {
    forall p :: 0 <= p < |chan| ==> InOrder(served, chan[..p], chan[p])
  }

  /** The data sent on stream `x`, concatenated. */
  function Relayed(chan: seq<Wire>, x: Id): bytes {
    if chan == [] then []
    else
      var m := chan[|chan| - 1];
      Relayed(chan[..|chan| - 1], x) + (if m.Data? && m.stream == x then m.segment else [])
  }

  lemma RelayedSnoc(chan: seq<Wire>, m: Wire, x: Id)
    ensures Relayed(chan + [m], x) == Relayed(chan, x) + (if m.Data? && m.stream == x then m.segment else [])
  {
    assert (chan + [m])[..|chan|] == chan;
  }

  lemma {:induction false} RelayedNone(chan: seq<Wire>, x: Id)
    requires forall m :: m in chan ==> !About(m, x)
    ensures Relayed(chan, x) == []
  {
    if chan == [] {
    } else {
      assert chan[|chan| - 1] in chan;
      RelayedNone(chan[..|chan| - 1], x);
    }
  }

  function Hand(r: Reader): bytes {
    if r.hand.Some? then r.hand.value else []
  }

  // ---- the invariant ----

  ghost predicate StreamOk(s: Sys, x: Id)
    requires x in s.got
  {
    && x < s.next
    && Relayed(s.chan, x) <= s.got[x]
    && (Ended(x) in s.chan ==> Relayed(s.chan, x) == s.got[x] && x !in s.readers)
    && (s.open && x !in s.readers ==> Ended(x) in s.chan)
    && (x in s.readers ==>
          && s.got[x] == Relayed(s.chan, x) + Hand(s.readers[x])
          && (s.readers[x].hand.Some? ==> 1 <= |s.readers[x].hand.value| <= SEGMENT_LIMIT)
          && AnnouncedIn(s.chan, x))
  }

  ghost predicate FutureOk(s: Sys, t: Ticket)
    requires t in s.futures
  {
    && t < |s.served| && s.served[t].kind.Some?
    && s.futures[t] == (if s.served[t].paramsOk then Running else Ready(Respond(s.served[t].id, Failure(0))))
    && (OpensStreams(s.served[t]) && s.open ==> StartedIn(s.chan, t))
  }

  ghost predicate RegistrationOk(s: Sys, reg: Registration) {
    && reg.ticket < |s.served| && OpensStreams(s.served[reg.ticket]) && reg.ticket !in s.futures
    && NoDup(reg.todo)
    && |reg.ids| == s.served[reg.ticket].kind.value.streams
    && (forall x :: x in reg.todo ==> x < s.next && x !in s.got)
    && (!reg.announced ==> reg.todo == reg.ids && !StartedIn(s.chan, reg.ticket))
    && (reg.announced ==> StartedIn(s.chan, reg.ticket) && forall x :: x in reg.todo ==> AnnouncedIn(s.chan, x))
  }

  ghost predicate ChanOk(s: Sys) {
    && WellOrdered(s.served, s.chan)
    && (forall m, x :: m in s.chan && About(m, x) ==> x in s.got)
  }

  ghost predicate Inv(s: Sys) {
    && ChanOk(s)
    && (forall t :: 0 <= t < |s.served| ==> RepliesOk(s, t))
    && (forall t :: t in s.futures ==> FutureOk(s, t))
    && (s.registering.Some? ==> RegistrationOk(s, s.registering.value))
    && s.readers.Keys <= s.got.Keys
    && (forall x :: x in s.got ==> StreamOk(s, x))
  }

  // ---- one message more on the channel ----

  lemma OrderedSnoc(served: seq<Request>, chan: seq<Wire>, m: Wire)
    requires WellOrdered(served, chan) && InOrder(served, chan, m)
    ensures WellOrdered(served, chan + [m])
  {
    var chan' := chan + [m];
    forall p | 0 <= p < |chan'| ensures InOrder(served, chan'[..p], chan'[p]) {
      assert p < |chan| ==> chan'[..p] == chan[..p] && InOrder(served, chan[..p], chan[p]);
      assert chan'[..|chan|] == chan;
    }
  }

  lemma OrderedServed(served: seq<Request>, r: Request, chan: seq<Wire>)
    requires WellOrdered(served, chan)
    ensures WellOrdered(served + [r], chan)
  {
    forall p | 0 <= p < |chan| ensures InOrder(served + [r], chan[..p], chan[p]) {
      assert InOrder(served, chan[..p], chan[p]);
    }
  }

  lemma {:induction false} NoReplyYet(served: seq<Request>, chan: seq<Wire>, t: Ticket)
    requires WellOrdered(served, chan) && |served| <= t
    ensures RepliesTo(chan, t) == []
  {
    if chan == [] {
    } else {
      var front := chan[..|chan| - 1];
      forall p | 0 <= p < |front| ensures InOrder(served, front[..p], front[p]) {
        assert InOrder(served, chan[..p], chan[p]);
        assert front[..p] == chan[..p];
      }
      NoReplyYet(served, front, t);
      assert InOrder(served, chan[..|chan| - 1], chan[|chan| - 1]);
    }
  }

  /** The message an event puts on the channel, if the channel is open. */
  ghost function Message(s: Sys, e: Event): Option<Wire>
    requires Enabled(s, e)
  {
    match e
    case Dispatch(r, ids) =>
      (match Dispatched(r)
       case SyncDone(Some((id, body))) => Some(Reply(|s.served|, id, body))
       case _ => None)
    case Announce => Some(Announcement(s, s.registering.value))
    case Resolve(t) =>
      (match Outcome(s, t)
       case Some((id, body)) => Some(Reply(t, id, body))
       case None => None)
    case SendData(x) => Some(Data(x, s.readers[x].hand.value))
    case Eof(x) => Some(Ended(x))
    case _ => None
  }

  lemma ChanStep(s: Sys, e: Event)
    requires Enabled(s, e)
    ensures Apply(s, e).chan == s.chan + (if s.open && Message(s, e).Some? then [Message(s, e).value] else [])
    ensures Apply(s, e).served == s.served + (if e.Dispatch? then [e.r] else [])
    ensures Apply(s, e).open == (s.open && !e.Close?)
    ensures s.got.Keys <= Apply(s, e).got.Keys
  {}

  lemma MessageInOrder(s: Sys, e: Event)
    requires Inv(s) && Enabled(s, e) && s.open && Message(s, e).Some?
    ensures InOrder(Apply(s, e).served, s.chan, Message(s, e).value)
    ensures forall x :: About(Message(s, e).value, x) ==> x in s.got
  {
    match e
    case Dispatch(_, _) =>
    case Announce =>
    case Resolve(t) => assert FutureOk(s, t);
    case SendData(x) => assert StreamOk(s, x);
    case Eof(x) => assert StreamOk(s, x);
  }

  lemma ChanKeeps(s: Sys, e: Event)
    requires Inv(s) && Enabled(s, e)
    ensures ChanOk(Apply(s, e))
  {
    ChanStep(s, e);
    if e.Dispatch? {
      OrderedServed(s.served, e.r, s.chan);
    }
    if s.open && Message(s, e).Some? {
      MessageInOrder(s, e);
      OrderedSnoc(Apply(s, e).served, s.chan, Message(s, e).value);
    } else {
      assert s.chan + [] == s.chan;
    }
  }

  function Opt(m: Option<Wire>): seq<Wire> {
    if m.Some? then [m.value] else []
  }

  /** A step that neither answers request `t` nor changes whether it is in progress. */
  lemma RepliesFrame(s: Sys, s': Sys, t: Ticket, m: Option<Wire>)
    requires t < |s.served| && t < |s'.served| && s'.served[t] == s.served[t] && RepliesOk(s, t)
    requires s'.chan == s.chan + Opt(m) && (m.Some? && m.value.Reply? ==> m.value.ticket != t)
    requires InProgress(s', t) == InProgress(s, t) && (s'.open ==> s.open)
    ensures RepliesOk(s', t)
  {
    if m.Some? {
      RepliesSnoc(s.chan, m.value, t);
    } else {
      assert s'.chan == s.chan;
    }
  }

  /** What dispatch leaves behind for the request it dispatched. */
  lemma DispatchSettles(s: Sys, e: Event)
    requires e.Dispatch? && Enabled(s, e) && |s.served| !in s.futures
    ensures InProgress(Apply(s, e), |s.served|) ==> Message(s, e) == None
    ensures !InProgress(Apply(s, e), |s.served|) && e.r.id.Some? ==> Message(s, e).Some?
    ensures Message(s, e).Some? ==> Fitting(e.r, Message(s, e).value) && Message(s, e).value.ticket == |s.served|
  {}

  lemma RepliesFrom(s: Sys, t: Ticket, r: Request, chan: seq<Wire>, m: Option<Wire>)
    requires t < |s.served| && s.served[t] == r && RepliesTo(chan, t) == []
    requires s.chan == chan + Opt(m)
    requires m.Some? ==> Fitting(r, m.value) && m.value.ticket == t
    requires InProgress(s, t) ==> m == None
    requires !InProgress(s, t) && s.open && r.id.Some? ==> m.Some?
    ensures RepliesOk(s, t)
  {
    if m.Some? {
      RepliesSnoc(chan, m.value, t);
    } else {
      assert s.chan == chan;
    }
  }

  lemma DispatchReplies(s: Sys, e: Event)
    requires e.Dispatch? && Enabled(s, e) && |s.served| !in s.futures && RepliesTo(s.chan, |s.served|) == []
    ensures RepliesOk(Apply(s, e), |s.served|)
  {
    ChanStep(s, e);
    DispatchSettles(s, e);
    RepliesFrom(Apply(s, e), |s.served|, e.r, s.chan, if s.open then Message(s, e) else None);
  }

  lemma ResolveSettles(s: Sys, e: Event)
    requires e.Resolve? && Enabled(s, e) && FutureOk(s, e.t)
    requires s.registering.Some? ==> s.registering.value.ticket != e.t
    ensures !InProgress(Apply(s, e), e.t)
    ensures s.served[e.t].id.Some? ==> Message(s, e).Some?
    ensures Message(s, e).Some? ==> Fitting(s.served[e.t], Message(s, e).value) && Message(s, e).value.ticket == e.t
  {}

  lemma ResolveReplies(s: Sys, e: Event)
    requires e.Resolve? && Enabled(s, e) && FutureOk(s, e.t) && RepliesOk(s, e.t)
    requires s.registering.Some? ==> s.registering.value.ticket != e.t
    ensures RepliesOk(Apply(s, e), e.t)
  {
    ChanStep(s, e);
    ResolveSettles(s, e);
    RepliesFrom(Apply(s, e), e.t, s.served[e.t], s.chan, if s.open then Message(s, e) else None);
  }

  /** Only dispatch, and the resolution of its future, change whether a request is in progress. */
  lemma ProgressStep(s: Sys, e: Event, t: Ticket)
    requires Enabled(s, e) && t < |s.served| && e != Resolve(t)
    ensures InProgress(Apply(s, e), t) == InProgress(s, t)
    ensures Message(s, e).Some? && Message(s, e).value.Reply? ==> Message(s, e).value.ticket != t
  {}

  lemma StartedServed(served: seq<Request>, chan: seq<Wire>, t: Ticket)
    requires WellOrdered(served, chan) && StartedIn(chan, t)
    ensures t < |served|
  {
    var m :| m in chan && m.Started? && m.ticket == t;
    var p :| 0 <= p < |chan| && chan[p] == m;
    assert InOrder(served, chan[..p], chan[p]);
  }

  lemma NewTicket(s: Sys)
    requires Inv(s)
    ensures |s.served| !in s.futures && RepliesTo(s.chan, |s.served|) == [] && !StartedIn(s.chan, |s.served|)
  {
    NoReplyYet(s.served, s.chan, |s.served|);
    if StartedIn(s.chan, |s.served|) {
      StartedServed(s.served, s.chan, |s.served|);
    }
    forall t | t in s.futures ensures t < |s.served| {
      assert FutureOk(s, t);
    }
  }

  lemma RepliesKeep(s: Sys, e: Event, t: Ticket)
    requires Inv(s) && Enabled(s, e) && t < |Apply(s, e).served|
    ensures RepliesOk(Apply(s, e), t)
  {
    ChanStep(s, e);
    if t == |s.served| {
      NewTicket(s);
      DispatchReplies(s, e);
    } else {
      assert RepliesOk(s, t);
      if e.Resolve? && e.t == t {
        assert FutureOk(s, t);
        ResolveReplies(s, e);
      } else {
        ProgressStep(s, e, t);
        RepliesFrame(s, Apply(s, e), t, if s.open then Message(s, e) else None);
      }
    }
  }

  lemma StaysIn(chan: seq<Wire>, more: seq<Wire>)
    ensures forall x :: AnnouncedIn(chan, x) ==> AnnouncedIn(chan + more, x)
    ensures forall t :: StartedIn(chan, t) ==> StartedIn(chan + more, t)
  {
    forall x | AnnouncedIn(chan, x) ensures AnnouncedIn(chan + more, x) {
      var m :| m in chan && m.Started? && x in m.ids;
      assert m in chan + more;
    }
    forall t | StartedIn(chan, t) ensures StartedIn(chan + more, t) {
      var m :| m in chan && m.Started? && m.ticket == t;
      assert m in chan + more;
    }
  }

  lemma SpawnedOk(s: Sys, e: Event, t: Ticket)
    requires Enabled(s, e) && t in Apply(s, e).futures && t !in s.futures
    requires s.registering.Some? ==> RegistrationOk(s, s.registering.value)
    ensures FutureOk(Apply(s, e), t)
  {}

  lemma FuturesKeep(s: Sys, e: Event, t: Ticket)
    requires Inv(s) && Enabled(s, e) && t in Apply(s, e).futures
    ensures FutureOk(Apply(s, e), t)
  {
    if t in s.futures {
      assert FutureOk(s, t);
      ChanStep(s, e);
      StaysIn(s.chan, if s.open then Opt(Message(s, e)) else []);
      FutureFrame(s, Apply(s, e), e, t);
    } else {
      SpawnedOk(s, e, t);
    }
  }

  lemma FutureFrame(s: Sys, s': Sys, e: Event, t: Ticket)
    requires t in s.futures && FutureOk(s, t) && Enabled(s, e) && s' == Apply(s, e) && t in s'.futures
    requires s.registering.Some? ==> s.registering.value.ticket != t
    requires s'.served == s.served + (if e.Dispatch? then [e.r] else [])
    requires s'.open ==> s.open
    requires StartedIn(s.chan, t) ==> StartedIn(s'.chan, t)
    ensures FutureOk(s', t)
  {
    assert s'.futures[t] == s.futures[t];
  }

  lemma DispatchRegisters(s: Sys, e: Event)
    requires e.Dispatch? && Enabled(s, e) && Apply(s, e).registering.Some?
    requires |s.served| !in s.futures && !StartedIn(s.chan, |s.served|) && forall x :: x in s.got ==> x < s.next
    ensures RegistrationOk(Apply(s, e), Apply(s, e).registering.value)
  {}

  lemma AnnounceRegisters(s: Sys, e: Event)
    requires e.Announce? && Enabled(s, e) && s.open && RegistrationOk(s, s.registering.value)
    ensures RegistrationOk(Apply(s, e), Apply(s, e).registering.value)
  {
    var reg := s.registering.value;
    assert Apply(s, e).chan[|s.chan|] == Announcement(s, reg);
    forall x | x in reg.todo ensures AnnouncedIn(Apply(s, e).chan, x) {
      assert Announcement(s, reg) in Apply(s, e).chan;
    }
  }

  lemma OpenRegisters(s: Sys, e: Event)
    requires e.OpenStream? && Enabled(s, e) && RegistrationOk(s, s.registering.value) && s.registering.value.todo != []
    ensures RegistrationOk(Apply(s, e), Apply(s, e).registering.value)
  {
    var todo := s.registering.value.todo;
    forall x | x in todo[1..] ensures x != todo[0] && x in todo {}
  }

  lemma RegistrationFrame(s: Sys, s': Sys, reg: Registration)
    requires RegistrationOk(s, reg) && s'.served == s.served && s'.got.Keys == s.got.Keys && s'.next == s.next
    requires s'.futures.Keys <= s.futures.Keys
    requires forall x :: AnnouncedIn(s.chan, x) ==> AnnouncedIn(s'.chan, x)
    requires forall t :: StartedIn(s.chan, t) <==> StartedIn(s'.chan, t)
    ensures RegistrationOk(s', reg)
  {}

  lemma RegistrationStays(s: Sys, e: Event)
    requires Enabled(s, e) && s.registering.Some? && RegistrationOk(s, s.registering.value)
    requires !e.Announce? && !e.OpenStream?
    ensures Apply(s, e).registering == s.registering && RegistrationOk(Apply(s, e), s.registering.value)
  {
    ChanStep(s, e);
    var more := if s.open then Opt(Message(s, e)) else [];
    StaysIn(s.chan, more);
    forall t | StartedIn(s.chan + more, t) ensures StartedIn(s.chan, t) {
      var m :| m in s.chan + more && m.Started? && m.ticket == t;
      assert m in s.chan;
    }
    assert Apply(s, e).got.Keys == s.got.Keys;
    RegistrationFrame(s, Apply(s, e), s.registering.value);
  }

  lemma RegistrationKeeps(s: Sys, e: Event)
    requires Enabled(s, e) && Apply(s, e).registering.Some?
    requires |s.served| !in s.futures && !StartedIn(s.chan, |s.served|) && forall x :: x in s.got ==> x < s.next
    requires s.registering.Some? ==> RegistrationOk(s, s.registering.value)
    ensures RegistrationOk(Apply(s, e), Apply(s, e).registering.value)
  {
    match e
    case Dispatch(_, _) => DispatchRegisters(s, e);
    case Announce => AnnounceRegisters(s, e);
    case OpenStream => OpenRegisters(s, e);
    case _ => RegistrationStays(s, e);
  }

  /** A step that neither sends for stream `x` nor touches its relay task. */
  lemma StreamFrame(s: Sys, s': Sys, x: Id, m: Option<Wire>)
    requires x in s.got && StreamOk(s, x) && s.next <= s'.next
    requires x in s'.got && s'.got[x] == s.got[x]
    requires (x in s.readers <==> x in s'.readers) && (x in s.readers ==> s'.readers[x] == s.readers[x])
    requires s'.chan == s.chan + Opt(m) && (m.Some? ==> !About(m.value, x)) && (s'.open ==> s.open)
    ensures StreamOk(s', x)
  {
    StaysIn(s.chan, Opt(m));
    if m.Some? {
      RelayedSnoc(s.chan, m.value, x);
    } else {
      assert s'.chan == s.chan;
    }
  }

  lemma ReadStep(s: Sys, x: Id, segment: bytes)
    requires Enabled(s, Read(x, segment)) && StreamOk(s, x)
    ensures x in Apply(s, Read(x, segment)).got && StreamOk(Apply(s, Read(x, segment)), x)
  {
    assert s.got[x] == Relayed(s.chan, x) + [];
  }

  lemma SendStep(s: Sys, x: Id)
    requires Enabled(s, SendData(x)) && x in s.got && StreamOk(s, x)
    ensures x in Apply(s, SendData(x)).got && StreamOk(Apply(s, SendData(x)), x)
  {
    if s.open {
      var m := Data(x, s.readers[x].hand.value);
      StaysIn(s.chan, [m]);
      RelayedSnoc(s.chan, m, x);
      assert s.got[x] + [] == s.got[x];
    }
  }

  lemma EofStep(s: Sys, x: Id)
    requires Enabled(s, Eof(x)) && x in s.got && StreamOk(s, x)
    ensures x in Apply(s, Eof(x)).got && StreamOk(Apply(s, Eof(x)), x)
  {
    if s.open {
      RelayedSnoc(s.chan, Ended(x), x);
      assert Relayed(s.chan, x) + [] == Relayed(s.chan, x);
    }
  }

  lemma OwnStreamStep(s: Sys, e: Event, x: Id)
    requires Enabled(s, e) && x in s.got && StreamOk(s, x)
    requires (e.Read? || e.SendData? || e.Eof?) && e.stream == x
    ensures x in Apply(s, e).got && StreamOk(Apply(s, e), x)
  {
    match e
    case Read(_, segment) => ReadStep(s, x, segment);
    case SendData(_) => SendStep(s, x);
    case Eof(_) => EofStep(s, x);
  }

  lemma OpenedStream(s: Sys, e: Event, x: Id)
    requires Enabled(s, e) && e.OpenStream? && RegistrationOk(s, s.registering.value)
    requires x !in s.got && x in Apply(s, e).got && forall m :: m in s.chan ==> !About(m, x)
    ensures StreamOk(Apply(s, e), x)
  {
    RelayedNone(s.chan, x);
  }

  lemma OtherStreamStep(s: Sys, e: Event, x: Id)
    requires Enabled(s, e) && x in s.got && !((e.Read? || e.SendData? || e.Eof?) && e.stream == x)
    requires e.OpenStream? && s.registering.value.todo != [] ==> s.registering.value.todo[0] != x
    ensures var s' := Apply(s, e);
            && x in s'.got && s'.got[x] == s.got[x] && s.next <= s'.next
            && (x in s.readers <==> x in s'.readers) && (x in s.readers ==> s'.readers[x] == s.readers[x])
            && (Message(s, e).Some? ==> !About(Message(s, e).value, x))
  {}

  lemma StreamsKeep(s: Sys, e: Event, x: Id)
    requires Enabled(s, e) && x in Apply(s, e).got && (x in s.got ==> StreamOk(s, x))
    requires x !in s.got ==> forall m :: m in s.chan ==> !About(m, x)
    requires s.registering.Some? ==> RegistrationOk(s, s.registering.value)
    ensures StreamOk(Apply(s, e), x)
  {
    if x !in s.got {
      OpenedStream(s, e, x);
    } else if (e.Read? || e.SendData? || e.Eof?) && e.stream == x {
      OwnStreamStep(s, e, x);
    } else {
      ChanStep(s, e);
      OtherStreamStep(s, e, x);
      StreamFrame(s, Apply(s, e), x, if s.open then Message(s, e) else None);
    }
  }

  lemma AllStreamsKeep(s: Sys, e: Event)
    requires Inv(s) && Enabled(s, e)
    ensures forall x :: x in Apply(s, e).got ==> StreamOk(Apply(s, e), x)
  {
    forall x | x in Apply(s, e).got ensures StreamOk(Apply(s, e), x) {
      assert x in s.got ==> StreamOk(s, x);
      StreamsKeep(s, e, x);
    }
  }

  lemma AllRequestsKeep(s: Sys, e: Event)
    requires Inv(s) && Enabled(s, e)
    ensures forall t :: 0 <= t < |Apply(s, e).served| ==> RepliesOk(Apply(s, e), t)
    ensures forall t :: t in Apply(s, e).futures ==> FutureOk(Apply(s, e), t)
  {
    forall t | 0 <= t < |Apply(s, e).served| ensures RepliesOk(Apply(s, e), t) {
      RepliesKeep(s, e, t);
    }
    forall t | t in Apply(s, e).futures ensures FutureOk(Apply(s, e), t) {
      FuturesKeep(s, e, t);
    }
  }

  lemma ReadersKeep(s: Sys, e: Event)
    requires Enabled(s, e) && s.readers.Keys <= s.got.Keys
    ensures Apply(s, e).readers.Keys <= Apply(s, e).got.Keys
  {}

  lemma StepKeeps(s: Sys, e: Event)
    requires Inv(s) && Enabled(s, e)
    ensures Inv(Apply(s, e))
  {
    ChanKeeps(s, e);
    AllRequestsKeep(s, e);
    if Apply(s, e).registering.Some? {
      NewTicket(s);
      forall x | x in s.got ensures x < s.next {
        assert StreamOk(s, x);
      }
      RegistrationKeeps(s, e);
    }
    ReadersKeep(s, e);
    AllStreamsKeep(s, e);
  }

  lemma {:induction false} RunKeeps(s: Sys, es: seq<Event>)
    requires Inv(s) && Exec(s, es).Some?
    ensures Inv(Exec(s, es).value)
    decreases |es|
  {
    if es == [] {
    } else {
      StepKeeps(s, es[0]);
      RunKeeps(Apply(s, es[0]), es[1..]);
    }
  }

  lemma ReachableInv(s: Sys)
    requires Reachable(s)
    ensures Inv(s)
  {
    var es :| Exec(START, es) == Some(s);
    RunKeeps(START, es);
  }

  // ---- the theorems ----

  /**
   Every request gets at most one reply, with its own id and the code its path prescribes,
   and a notification none; once it is no longer in progress a request with an id has
   exactly one, as long as the channel is open.
   */
  lemma OneReplyPerRequest(s: Sys, t: Ticket)
    requires Reachable(s) && t < |s.served|
    ensures var r, replies := s.served[t], RepliesTo(s.chan, t);
            && |replies| <= 1
            && (r.id == None ==> replies == [])
            && (forall m :: m in replies ==> Fitting(r, m))
            && (InProgress(s, t) ==> replies == [])
            && (s.open && r.id.Some? ==> (|replies| == 1 <==> !InProgress(s, t)))
  {
    ReachableInv(s);
    assert RepliesOk(s, t);
    assert RepliesTo(s.chan, t) != [] ==> Fitting(s.served[t], RepliesTo(s.chan, t)[0]);
  }

  /**
   Before a message for a stream, and before the reply of a request that opens streams, comes
   their announcement, which names the request and all its streams and is made once.
   */
  lemma AnnouncedFirst(s: Sys, p: nat)
    requires Reachable(s) && p < |s.chan|
    ensures s.chan[p].Started? ==>
              var t := s.chan[p].ticket;
              && t < |s.served| && OpensStreams(s.served[t]) && !StartedIn(s.chan[..p], t)
              && (s.served[t].id.Some? ==> s.chan[p].forId == s.served[t].id.value)
              && (s.served[t].id.None? ==> s.chan[p].forId == 0)
              && |s.chan[p].ids| == s.served[t].kind.value.streams && NoDup(s.chan[p].ids)
    ensures forall x :: About(s.chan[p], x) ==> AnnouncedIn(s.chan[..p], x)
    ensures s.chan[p].Reply? ==>
              var t := s.chan[p].ticket;
              t < |s.served| && (OpensStreams(s.served[t]) ==> StartedIn(s.chan[..p], t))
  {
    ReachableInv(s);
    assert InOrder(s.served, s.chan[..p], s.chan[p]);
  }

  /** The end of a stream is the last message about it. */
  lemma EndComesLast(s: Sys, p: nat, q: nat, x: Id)
    requires Reachable(s) && p < q < |s.chan| && s.chan[p] == Ended(x)
    ensures !About(s.chan[q], x)
  {
    ReachableInv(s);
    assert InOrder(s.served, s.chan[..q], s.chan[q]);
    assert s.chan[..q][p] == Ended(x);
  }

  /** Data comes in non-empty segments of at most 4096 bytes. */
  lemma SegmentsBounded(s: Sys, p: nat)
    requires Reachable(s) && p < |s.chan| && s.chan[p].Data?
    ensures 1 <= |s.chan[p].segment| <= 4096
  {
    ReachableInv(s);
    assert InOrder(s.served, s.chan[..p], s.chan[p]);
  }

  /**
   What was sent for a stream is what its task has read, save the segment in hand. On an open
   channel the end has been sent exactly if the task is gone, and everything it read before it.
   */
  lemma RelayedIsRead(s: Sys, x: Id)
    requires Reachable(s) && x in s.got
    ensures Relayed(s.chan, x) <= s.got[x]
    ensures x in s.readers ==> s.got[x] == Relayed(s.chan, x) + Hand(s.readers[x])
    ensures Ended(x) in s.chan ==> Relayed(s.chan, x) == s.got[x]
    ensures s.open ==> (Ended(x) in s.chan <==> x !in s.readers)
  {
    ReachableInv(s);
    assert StreamOk(s, x);
  }

  // ---- announced streams are opened before anything else is dispatched ----

  /** Every announced stream has been opened, or is about to be by the registration in progress. */
  ghost predicate AnnouncedOpen(s: Sys) {
    forall x :: AnnouncedIn(s.chan, x) ==>
                  x in s.got || (s.registering.Some? && s.registering.value.announced && x in s.registering.value.todo)
  }

  lemma AnnouncedSnoc(chan: seq<Wire>, m: Wire, x: Id)
    ensures AnnouncedIn(chan + [m], x) <==> AnnouncedIn(chan, x) || (m.Started? && x in m.ids)
  {
    assert forall k :: k in chan + [m] <==> k in chan || k == m;
  }

  lemma AnnouncedOpenKeeps(s: Sys, e: Event)
    requires Inv(s) && AnnouncedOpen(s) && Enabled(s, e)
    ensures AnnouncedOpen(Apply(s, e))
  {
    var s', m := Apply(s, e), Message(s, e);
    ChanStep(s, e);
    forall x | AnnouncedIn(s'.chan, x)
      ensures x in s'.got || (s'.registering.Some? && s'.registering.value.announced && x in s'.registering.value.todo)
    {
      if s.open && m.Some? {
        AnnouncedSnoc(s.chan, m.value, x);
      } else {
        assert s'.chan == s.chan;
      }
      if !AnnouncedIn(s.chan, x) {
        assert e.Announce?;
      }
    }
  }

  lemma GotStep(s: Sys, e: Event)
    requires Enabled(s, e)
    ensures Apply(s, e).got.Keys
         == s.got.Keys + (if e.OpenStream? && s.registering.value.todo != [] then {s.registering.value.todo[0]} else {})
  {
    if e.Read? {
      assert s.got.Keys + {e.stream} == s.got.Keys;
    }
  }

  // ---- a registration step by step ----

  /** A request that opens streams is announced under its id, or 0, with exactly the ids handed out, in their order. */
  lemma AnnouncesAll(s: Sys, r: Request, ids: seq<Id>)
    requires Enabled(s, Dispatch(r, ids)) && OpensStreams(r)
    ensures Enabled(Apply(s, Dispatch(r, ids)), Announce)
    ensures s.open ==>
              Apply(Apply(s, Dispatch(r, ids)), Announce).chan
              == s.chan + [Started(|s.served|, if r.id.Some? then r.id.value else 0, ids)]
  {
    var s1 := Apply(s, Dispatch(r, ids));
    assert s1.served[|s.served|] == r;
  }

  /** A registration ends with the request's callback running, announced or not, opened or not. */
  lemma RegistrationEndsRunning(s: Sys, e: Event)
    requires Enabled(s, e) && s.registering.Some? && Apply(s, e).registering == None
    ensures Apply(s, e).futures == s.futures[s.registering.value.ticket := Running]
    ensures s.open ==> s.registering.value.todo == [] && s.registering.value.announced
  {}

  // ---- one relay task, seen on its own ----

  /** The sending half of the channel. */
  class Channel {
    var sent: seq<Wire>
    var open: bool

    constructor ()
      ensures sent == [] && open
    {
      sent, open := [], true;
    }

    method Send(m: Wire) returns (ok: bool)
      modifies this
      ensures open == old(open) && ok == open
      ensures sent == if open then old(sent) + [m] else old(sent)
    {
      if open {
        sent := sent + [m];
      }
      ok := open;
    }
  }

  function DataMessages(x: Id, chunks: seq<bytes>): (r: seq<Wire>)
    ensures |r| == |chunks|
  {
    seq(|chunks|, i requires 0 <= i < |chunks| => Data(x, chunks[i]))
  }

  /** The loop of a relay task, given what its successive reads return; an empty one is the end. */
  method Relay(x: Id, chunks: seq<bytes>, tx: Channel)
    modifies tx
    ensures tx.open == old(tx.open)
    ensures !tx.open ==> tx.sent == old(tx.sent)
    ensures tx.open ==> exists n ::
              && 0 <= n <= |chunks| && (forall i :: 0 <= i < n ==> chunks[i] != [])
              && (n < |chunks| ==> chunks[n] == [])
              && tx.sent == old(tx.sent) + DataMessages(x, chunks[..n]) + [Ended(x)]
  {
    var n := 0;
    while n < |chunks| && chunks[n] != []
      invariant 0 <= n <= |chunks|
      invariant forall i :: 0 <= i < n ==> chunks[i] != []
      invariant tx.open == old(tx.open)
      invariant !tx.open ==> tx.sent == old(tx.sent)
      invariant tx.open ==> tx.sent == old(tx.sent) + DataMessages(x, chunks[..n])
    {
      var ok := tx.Send(Data(x, chunks[n]));
      if !ok {
        return;
      }
      assert DataMessages(x, chunks[..n + 1]) == DataMessages(x, chunks[..n]) + [Data(x, chunks[n])];
      n := n + 1;
    }
    var _ := tx.Send(Ended(x));
  }
}
