/**
 The outgoing channel and its one reader. The task that handles messages is also the one
 that takes replies off the channel, and it does not do so while it handles what one read
 brought; when the channel is full then, it waits for itself.
 */
module Backpressure {
  import opened Common
  import Server = RpcServer

  const CAPACITY := 8

  /** Whether handling a message makes the read loop itself send something. */
  datatype Frame = Silent | Inline

  /** Synchronous answers and announcements of streams are sent by the read loop, all others by spawned tasks. */
  function FrameOf(r: Server.Request): Frame {
    match Server.Dispatched(r)
    case SyncDone(Some(_)) => Inline
    case SyncDone(None) => Silent
    case FutureOf(_) => Silent
    case StreamOf(Some(_), _) => Inline
    case StreamOf(None, _) => Silent
  }

  /** The server after dispatching a request and, if it registers streams then, announcing them. */
  ghost function Handled(s: Server.Sys, r: Server.Request, ids: seq<Server.Id>): Server.Sys
    requires Server.Enabled(s, Server.Event.Dispatch(r, ids))
  {
    var s1 := Server.Apply(s, Server.Event.Dispatch(r, ids));
    if s1.registering.Some? then Server.Apply(s1, Server.Event.Announce) else s1
  }

  /** A message is handled inline exactly if the read loop puts one message on the channel itself, and else none. */
  lemma InlineIff(s: Server.Sys, r: Server.Request, ids: seq<Server.Id>)
    requires s.open && Server.Enabled(s, Server.Event.Dispatch(r, ids))
    ensures |Handled(s, r, ids).chan| == |s.chan| + (if FrameOf(r).Inline? then 1 else 0)
    ensures FrameOf(r).Inline? <==>
              match r.kind
              case None => r.id.Some?
              case Some(Sync) => r.id.Some?
              case Some(Async) => false
              case Some(Duplex(_)) => r.paramsOk
  {}

  /** The messages in the channel, and those of the last read still to be handled, if the loop is at that. */
  datatype Sys = Sys(queued: nat, draining: Option<seq<Frame>>)

  datatype Event =
    | Read(frames: seq<Frame>)
    | Handle
    | Return      // everything read is handled, and the loop goes back to waiting
    | WriteOut    // a message leaves the channel for the peer
    | TaskSend    // a spawned task puts one in

  const START := Sys(0, None)

  predicate Enabled(s: Sys, e: Event) {
    match e
    case Read(_) => s.draining == None
    case WriteOut => s.draining == None && s.queued > 0
    case Handle =>
      s.draining.Some? && s.draining.value != [] && (s.draining.value[0].Silent? || s.queued < CAPACITY)
    case Return => s.draining == Some([])
    case TaskSend => s.queued < CAPACITY
  }

  function Apply(s: Sys, e: Event): Sys
    requires Enabled(s, e)
  {
    match e
    case Read(frames) => s.(draining := Some(frames))
    case WriteOut => s.(queued := s.queued - 1)
    case Handle =>
      var frames := s.draining.value;
      Sys(if frames[0].Inline? then s.queued + 1 else s.queued, Some(frames[1..]))
    case Return => s.(draining := None)
    case TaskSend => s.(queued := s.queued + 1)
  }

  function Exec(s: Sys, es: seq<Event>): Option<Sys>
    decreases |es|
  {
    if es == [] then Some(s)
    else if Enabled(s, es[0]) then Exec(Apply(s, es[0]), es[1..])
    else None
  }

  lemma {:induction false} ExecConcat(s: Sys, a: seq<Event>, b: seq<Event>)
    requires Exec(s, a).Some?
    ensures Exec(s, a + b) == Exec(Exec(s, a).value, b)
    decreases |a|
  {
    if a == [] {
      assert a + b == b;
    } else {
      assert (a + b)[1..] == a[1..] + b;
      ExecConcat(Apply(s, a[0]), a[1..], b);
    }
  }

  // ---- when nothing can happen any more ----

  /** The read loop waits for room in a channel that only it could make. */
  predicate Blocked(s: Sys) {
    s.draining.Some? && s.draining.value != [] && s.draining.value[0].Inline? && s.queued == CAPACITY
  }

  /** The channel never holds more than its capacity. */
  lemma {:induction false} QueueBounded(s: Sys, es: seq<Event>)
    requires s.queued <= CAPACITY && Exec(s, es).Some?
    ensures Exec(s, es).value.queued <= 8
    decreases |es|
  {
    if es == [] {
    } else {
      QueueBounded(Apply(s, es[0]), es[1..]);
    }
  }

  /** The read loop waits for itself exactly if nothing at all can happen on the connection. */
  lemma BlockedIffDead(es: seq<Event>)
    requires Exec(START, es).Some?
    ensures var s := Exec(START, es).value;
            Blocked(s) <==> forall e :: !Enabled(s, e)
  {
    QueueBounded(START, es);
    var s := Exec(START, es).value;
    if !Blocked(s) {
      var e := if s.draining == None then Read([]) else if s.draining == Some([]) then Return else Handle;
      assert Enabled(s, e);
    }
  }

  // ---- when one read blocks the connection ----

  function Inlines(frames: seq<Frame>): nat {
    if frames == [] then 0 else (if frames[0].Inline? then 1 else 0) + Inlines(frames[1..])
  }

  function TaskSends(es: seq<Event>): nat {
    if es == [] then 0 else (if es[0].TaskSend? then 1 else 0) + TaskSends(es[1..])
  }

  /** The run handles everything that was read and returns, while spawned tasks send `a` messages. */
  ghost predicate Drains(s: Sys, es: seq<Event>, a: nat) {
    && Exec(s, es).Some? && Exec(s, es).value.draining == None && TaskSends(es) == a
    && forall e :: e in es ==> e.Handle? || e.Return? || e.TaskSend?
  }

  /** What the channel will hold once everything read is handled. */
  function Due(s: Sys): nat {
    s.queued + if s.draining.Some? then Inlines(s.draining.value) else 0
  }

  /** Handling moves messages into the channel, and nothing takes them out before the loop returns. */
  lemma {:induction false} DueGrows(s: Sys, es: seq<Event>)
    requires Exec(s, es).Some? && forall e :: e in es ==> e.Handle? || e.Return? || e.TaskSend?
    ensures Due(Exec(s, es).value) == Due(s) + TaskSends(es)
    decreases |es|
  {
    if es == [] {
    } else {
      assert es[0] in es;
      DueGrows(Apply(s, es[0]), es[1..]);
    }
  }

  function Repeat(e: Event, n: nat): (es: seq<Event>)
    ensures |es| == n && forall i :: 0 <= i < n ==> es[i] == e
  {
    if n == 0 then [] else [e] + Repeat(e, n - 1)
  }

  lemma {:induction false} HandleAll(q: nat, frames: seq<Frame>)
    requires q + Inlines(frames) <= CAPACITY
    ensures Exec(Sys(q, Some(frames)), Repeat(Handle, |frames|)) == Some(Sys(q + Inlines(frames), Some([])))
    ensures TaskSends(Repeat(Handle, |frames|)) == 0
    decreases |frames|
  {
    if frames == [] {
    } else {
      HandleAll(if frames[0].Inline? then q + 1 else q, frames[1..]);
      assert Repeat(Handle, |frames|)[1..] == Repeat(Handle, |frames| - 1);
    }
  }

  lemma {:induction false} SendAll(q: nat, a: nat)
    requires q + a <= CAPACITY
    ensures Exec(Sys(q, Some([])), Repeat(TaskSend, a)) == Some(Sys(q + a, Some([])))
    ensures TaskSends(Repeat(TaskSend, a)) == a
    decreases a
  {
    if a == 0 {
    } else {
      SendAll(q + 1, a - 1);
      assert Repeat(TaskSend, a)[1..] == Repeat(TaskSend, a - 1);
    }
  }

  lemma {:induction false} TaskSendsConcat(a: seq<Event>, b: seq<Event>)
    ensures TaskSends(a + b) == TaskSends(a) + TaskSends(b)
  {
    if a == [] {
      assert a + b == b;
    } else {
      assert (a + b)[1..] == a[1..] + b;
      TaskSendsConcat(a[1..], b);
    }
  }

  /** A run that handles everything, then lets the tasks send, and returns. */
  lemma DrainInOrder(q: nat, frames: seq<Frame>, a: nat) returns (es: seq<Event>)
    requires q + Inlines(frames) + a <= CAPACITY
    ensures Drains(Sys(q, Some(frames)), es, a)
  {
    var s := Sys(q, Some(frames));
    var h, t := Repeat(Handle, |frames|), Repeat(TaskSend, a);
    HandleAll(q, frames);
    SendAll(q + Inlines(frames), a);
    ExecConcat(s, h, t);
    ExecConcat(s, h + t, [Return]);
    assert [Return][1..] == [];
    TaskSendsConcat(h, t);
    TaskSendsConcat(h + t, [Return]);
    es := h + t + [Return];
    forall e | e in es ensures e.Handle? || e.Return? || e.TaskSend? {
      assert e in h || e in t || e == Return;
    }
  }

  /**
   Everything one read brought can be handled, with `a` messages sent by spawned tasks
   meanwhile, exactly if the messages already in the channel, those the loop has to send
   itself and those of the tasks fit in the channel together.
   */
  lemma DrainCompletesIff(q: nat, frames: seq<Frame>, a: nat)
    requires q <= CAPACITY
    ensures (exists es :: Drains(Sys(q, Some(frames)), es, a)) <==> q + Inlines(frames) + a <= 8
  {
    var s := Sys(q, Some(frames));
    if q + Inlines(frames) + a <= CAPACITY {
      var es := DrainInOrder(q, frames, a);
    }
    if es :| Drains(s, es, a) {
      DueGrows(s, es);
      QueueBounded(s, es);
    }
  }

  lemma {:induction false} DrainSteps(s: Sys, es: seq<Event>)
    requires s.draining.Some? && Due(s) > CAPACITY && s.queued <= CAPACITY && Exec(s, es).Some?
    ensures var s' := Exec(s, es).value;
            && s'.draining.Some? && Due(s') > CAPACITY && s'.queued <= CAPACITY
            && |es| + |s'.draining.value| + CAPACITY - s'.queued <= |s.draining.value| + CAPACITY - s.queued
    decreases |es|
  {
    if es == [] {
    } else {
      DrainSteps(Apply(s, es[0]), es[1..]);
    }
  }

  /**
   If the loop has more to send itself than there is room for, the connection is dead within
   a bounded number of steps, whatever the tasks do: the loop never returns, and when nothing
   more can happen it waits for itself.
   */
  lemma TooManyBlock(q: nat, frames: seq<Frame>, es: seq<Event>)
    requires q <= CAPACITY < q + Inlines(frames) && Exec(Sys(q, Some(frames)), es).Some?
    ensures var s := Exec(Sys(q, Some(frames)), es).value;
            && s.draining.Some? && |es| <= |frames| + CAPACITY - q
            && ((forall e :: !Enabled(s, e)) ==> Blocked(s))
  {
    DrainSteps(Sys(q, Some(frames)), es);
    var s := Exec(Sys(q, Some(frames)), es).value;
    assert s.draining.value != [];
    assert !Enabled(s, Handle) ==> Blocked(s);
  }

  /** Synchronous requests with ids that come in one read of an idle connection: eight fit, nine block it. */
  lemma EightRequestsFit(requests: seq<Server.Request>, frames: seq<Frame>)
    requires |frames| == |requests|
    requires forall i :: 0 <= i < |requests| ==>
               && requests[i].id.Some? && requests[i].kind == Some(Server.MethodKind.Sync)
               && frames[i] == FrameOf(requests[i])
    ensures (exists es :: Drains(Sys(0, Some(frames)), es, 0)) <==> |requests| <= 8
  {
    AllInline(frames);
    DrainCompletesIff(0, frames, 0);
  }

  lemma {:induction false} AllInline(frames: seq<Frame>)
    requires forall i :: 0 <= i < |frames| ==> frames[i].Inline?
    ensures Inlines(frames) == |frames|
  {
    if frames == [] {
    } else {
      AllInline(frames[1..]);
    }
  }
}
