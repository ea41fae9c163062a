/**
 Inbound stream data end to end: reads of any size, the streaming decoder, dispatch of the
 two stream methods, and the stream engine. `stream_data` is handled inside the read loop,
 `stream_ended` by a spawned future that takes the lock some time later.
 */
module Inbound {
  import opened Common
  import opened MsgPackCodec
  import opened Streams
  import Engine = StreamEngine
  import StreamWork

  datatype Action = Data(stream: Id, segment: bytes) | Ended(stream: Id) | Other

  /** How messages are read off the wire, and what a message asks of the streams. */
  datatype Protocol<!T(!new)> = Protocol(read: FromRead<T>, act: (T, bytes) -> Action)

  // ---- the system ----

  /** Reads still to come, the decoder's buffer, spawned removals not yet run, and the streams. */
  datatype Net = Net(chunks: seq<bytes>, buf: bytes, removals: multiset<Id>, eng: Engine.Sys)

  datatype Event =
    | Read
    | Dispatch
    | RunRemoval(id: Id)
    | Task(e: Engine.Event)  // the spawned loops and removers, and streams being registered

  function Front<T(!new)>(p: Protocol<T>, n: Net): Decoded<T>
    requires Streaming(p.read)
  {
    DecodeNext(p.read, n.buf)
  }

  predicate Enabled<T(!new)>(p: Protocol<T>, n: Net, e: Event)
    requires Streaming(p.read)
  {
    match e
    case Read => n.chunks != [] && Front(p, n).NeedMore?
    case Dispatch => Front(p, n).Frame?
    case RunRemoval(id) => id in n.removals
    case Task(e) => !e.Write? && !e.Remove? && Engine.Enabled(n.eng, e)
  }

  /** What an event does to the streams, if anything. */
  function OnStreams<T(!new)>(p: Protocol<T>, n: Net, e: Event): Option<Engine.Event>
    requires Streaming(p.read) && Enabled(p, n, e)
  {
    match e
    case Read => None
    case Dispatch =>
      (match p.act(Front(p, n).obj, Front(p, n).vec)
       case Data(id, segment) => Some(Engine.Write(id, segment))
       case _ => None)
    case RunRemoval(id) => Some(Engine.Remove(id))
    case Task(e) => Some(e)
  }

  function Apply<T(!new)>(p: Protocol<T>, n: Net, e: Event): Net
    requires Streaming(p.read) && Enabled(p, n, e)
  {
    var n' := match OnStreams(p, n, e)
      case Some(ev) => n.(eng := Engine.Apply(n.eng, ev))
      case None => n;
    match e
    case Read => n'.(chunks := n.chunks[1..], buf := n.buf + n.chunks[0])
    case Dispatch =>
      var taken := n'.(buf := n.buf[|Front(p, n).vec|..]);
      (match p.act(Front(p, n).obj, Front(p, n).vec)
       case Ended(id) => taken.(removals := n.removals + multiset{id})
       case _ => taken)
    case RunRemoval(id) => n'.(removals := n.removals - multiset{id})
    case Task(_) => n'
  }

  function Exec<T(!new)>(p: Protocol<T>, n: Net, es: seq<Event>): Option<Net>
    requires Streaming(p.read)
    decreases |es|
  {
    if es == [] then Some(n)
    else if Enabled(p, n, es[0]) then Exec(p, Apply(p, n, es[0]), es[1..])
    else None
  }

  // ---- what the peer sent ----

  /** The peer's messages, one byte string each. */
  ghost predicate Wire<T(!new)>(p: Protocol<T>, ms: seq<bytes>) {
    AllWhole(p.read, ms)
  }

  ghost function Asked<T(!new)>(p: Protocol<T>, m: bytes): Action
    requires Whole(p.read, m)
  {
    p.act(p.read(m).value, m)
  }

  ghost function Actions<T(!new)>(p: Protocol<T>, ms: seq<bytes>): seq<Action>
    requires Wire(p, ms)
  {
    seq(|ms|, i requires 0 <= i < |ms| => Asked(p, ms[i]))
  }

  /** The segment an action carries for stream `id`, if it does. */
  function SegmentFor(a: Action, id: Id): seq<bytes> {
    if a.Data? && a.stream == id then [a.segment] else []
  }

  /** The segments sent for stream `id`, in order. */
  function Segments(acts: seq<Action>, id: Id): seq<bytes> {
    if acts == [] then [] else Segments(acts[..|acts| - 1], id) + SegmentFor(acts[|acts| - 1], id)
  }

  /** The peer sends no data for `id` after having ended it. */
  ghost predicate DataThenEnd(acts: seq<Action>, id: Id) {
    forall j, k :: 0 <= j < k < |acts| && acts[j] == Ended(id) ==> SegmentFor(acts[k], id) == []
  }

  lemma {:induction false} SegmentsGrow(acts: seq<Action>, id: Id, i: nat)
    requires i <= |acts|
    ensures Segments(acts[..i], id) <= Segments(acts, id)
  {
    if i == |acts| {
      assert acts[..i] == acts;
    } else {
      SegmentsGrow(acts[..|acts| - 1], id, i);
      assert acts[..|acts| - 1][..i] == acts[..i];
    }
  }

  lemma {:induction false} NoMoreSegments(acts: seq<Action>, id: Id, i: nat)
    requires i <= |acts| && DataThenEnd(acts, id) && Ended(id) in acts[..i]
    ensures Segments(acts[..i], id) == Segments(acts, id)
  {
    if i == |acts| {
      assert acts[..i] == acts;
    } else {
      var front := acts[..|acts| - 1];
      assert front[..i] == acts[..i];
      NoMoreSegments(front, id, i);
      var j :| 0 <= j < i && acts[j] == Ended(id);
      assert SegmentFor(acts[|acts| - 1], id) == [];
    }
  }

  // ---- the invariant ----

  /** The stream's record will not take more data for long: it is gone, ended, or about to be removed. */
  predicate Leaving(n: Net, id: Id) {
    id in n.removals || id !in n.eng.recs || n.eng.recs[id].ended
  }

  /** The streams have seen the first `i` actions. */
  ghost predicate Tracks(n: Net, acts: seq<Action>, i: nat, id: Id) {
    && i <= |acts| && id in n.eng.sinks && id in n.eng.accepted
    && n.eng.accepted[id] == Segments(acts[..i], id)
    && (Leaving(n, id) <==> Ended(id) in acts[..i])
  }

  /** The decoder has consumed the first `i` messages. */
  ghost predicate Aligned(n: Net, ms: seq<bytes>, i: nat) {
    i <= |ms| && n.buf + Flat(n.chunks) == Flat(ms[i..])
  }

  lemma FrontIsNext<T(!new)>(p: Protocol<T>, n: Net, ms: seq<bytes>, i: nat)
    requires Streaming(p.read) && Wire(p, ms) && Aligned(n, ms, i)
    ensures i < |ms| && n.chunks == [] ==> Front(p, n).Frame?
    ensures !Front(p, n).InvalidData?
    ensures Front(p, n).Frame? ==> i < |ms| && Front(p, n) == FrameOf(p.read, ms[i])
    ensures Front(p, n).Frame? ==> n.buf[|Front(p, n).vec|..] + Flat(n.chunks) == Flat(ms[i + 1..])
  {
    var rest := Flat(n.chunks);
    DecodeStable(p.read, n.buf, rest);
    if i < |ms| {
      var m, after := ms[i], Flat(ms[i + 1..]);
      assert ms[i..][1..] == ms[i + 1..];
      assert Whole(p.read, m);
      DecodeWhole(p.read, m, after);
      assert (m + after)[|m|..] == after;
      assert Front(p, n).Frame? ==> (n.buf + rest)[|m|..] == n.buf[|m|..] + rest;
      assert n.chunks == [] ==> n.buf + rest == n.buf;
    } else {
      assert n.buf == [];
    }
  }

  lemma AlignedStep<T(!new)>(p: Protocol<T>, n: Net, ms: seq<bytes>, i: nat, e: Event)
    requires Streaming(p.read) && Wire(p, ms) && Aligned(n, ms, i) && Enabled(p, n, e)
    ensures Aligned(Apply(p, n, e), ms, if e.Dispatch? then i + 1 else i)
  {
    match e
    case Read => assert n.buf + n.chunks[0] + Flat(n.chunks[1..]) == n.buf + Flat(n.chunks);
    case Dispatch => FrontIsNext(p, n, ms, i);
    case RunRemoval(_) =>
    case Task(_) =>
  }

  /** Tasks neither accept data nor bring a leaving record back. */
  lemma TaskLeavesInput(s: Engine.Sys, e: Engine.Event, id: Id)
    requires Engine.Enabled(s, e) && !e.Write? && !e.Remove? && id in s.sinks && id in s.accepted
    ensures var s' := Engine.Apply(s, e);
            && id in s'.sinks && id in s'.accepted && s'.accepted[id] == s.accepted[id]
            && (id in s.recs && !s.recs[id].ended <==> id in s'.recs && !s'.recs[id].ended)
  {}

  lemma WriteKeepsInput(s: Engine.Sys, x: Id, buf: bytes, id: Id)
    requires id in s.sinks && id in s.accepted
    ensures var s' := Engine.Apply(s, Engine.Write(x, buf));
            && id in s'.sinks && id in s'.accepted
            && s'.accepted[id] == (if x == id && id in s.recs then s.accepted[id] + [buf] else s.accepted[id])
            && (id in s'.recs && !s'.recs[id].ended <==> id in s.recs && !s.recs[id].ended)
  {
    KeysOf(s.recs, x, buf, 0);
    assert x in s.recs && x in s.accepted ==> s.accepted[x := s.accepted[x] + [buf]].Keys == s.accepted.Keys;
  }

  lemma RemoveKeepsInput(s: Engine.Sys, x: Id, id: Id)
    requires id in s.sinks && id in s.accepted
    ensures var s' := Engine.Apply(s, Engine.Remove(x));
            && id in s'.sinks && id in s'.accepted && s'.accepted[id] == s.accepted[id]
            && (id in s'.recs && !s'.recs[id].ended <==> id in s.recs && !s.recs[id].ended && x != id)
  {
    Engine.RemoveKeepsSinks(s, Engine.Remove(x));
  }

  /** What dispatching a message with action `a` does to the streams and the pending removals. */
  ghost predicate Dispatched(n: Net, n': Net, a: Action) {
    && n'.eng == (if a.Data? then Engine.Apply(n.eng, Engine.Write(a.stream, a.segment)) else n.eng)
    && n'.removals == n.removals + (if a.Ended? then multiset{a.stream} else multiset{})
  }

  lemma DispatchTracks(n: Net, n': Net, acts: seq<Action>, i: nat, id: Id)
    requires Tracks(n, acts, i, id) && DataThenEnd(acts, id)
    requires i < |acts| && Dispatched(n, n', acts[i])
    ensures Tracks(n', acts, i + 1, id)
  {
    var a := acts[i];
    assert acts[..i + 1] == acts[..i] + [a];
    if a.Data? {
      WriteKeepsInput(n.eng, a.stream, a.segment, id);
      if id !in n.eng.recs {
        var j :| 0 <= j < i && acts[j] == Ended(id);
        assert SegmentFor(a, id) == [];
      }
    }
  }

  lemma TracksStep<T(!new)>(p: Protocol<T>, n: Net, acts: seq<Action>, i: nat, id: Id, e: Event)
    requires Streaming(p.read) && Tracks(n, acts, i, id) && DataThenEnd(acts, id) && Enabled(p, n, e)
    requires e.Dispatch? ==> i < |acts| && acts[i] == p.act(Front(p, n).obj, Front(p, n).vec)
    ensures Tracks(Apply(p, n, e), acts, if e.Dispatch? then i + 1 else i, id)
  {
    match e
    case Read =>
    case Task(ev) => TaskLeavesInput(n.eng, ev, id);
    case RunRemoval(x) => RemoveKeepsInput(n.eng, x, id);
    case Dispatch => DispatchTracks(n, Apply(p, n, e), acts, i, id);
  }

  ghost predicate Inv<T(!new)>(p: Protocol<T>, n: Net, loc: Engine.Where, ms: seq<bytes>, i: nat, id: Id)
    requires Wire(p, ms)
  {
    Engine.Inv(n.eng, loc) && Aligned(n, ms, i) && Tracks(n, Actions(p, ms), i, id)
  }

  lemma EngineStep<T(!new)>(p: Protocol<T>, n: Net, loc: Engine.Where, e: Event) returns (loc': Engine.Where)
    requires Streaming(p.read) && Engine.Inv(n.eng, loc) && Enabled(p, n, e)
    ensures Engine.Inv(Apply(p, n, e).eng, loc')
  {
    loc' := loc;
    var ev := OnStreams(p, n, e);
    if ev.Some? {
      Engine.StepKeeps(n.eng, loc, ev.value);
      loc' := Engine.Moved(n.eng, loc, ev.value);
    }
  }

  lemma {:induction false} RunKeeps<T(!new)>(p: Protocol<T>, n: Net, loc: Engine.Where, ms: seq<bytes>, i: nat,
                                             id: Id, es: seq<Event>)
    returns (loc': Engine.Where, i': nat)
    requires Streaming(p.read) && Wire(p, ms) && Inv(p, n, loc, ms, i, id)
    requires DataThenEnd(Actions(p, ms), id) && Exec(p, n, es).Some?
    ensures Inv(p, Exec(p, n, es).value, loc', ms, i', id)
    decreases |es|
  {
    loc', i' := loc, i;
    if es == [] {
    } else {
      var e := es[0];
      loc' := EngineStep(p, n, loc, e);
      AlignedStep(p, n, ms, i, e);
      FrontIsNext(p, n, ms, i);
      TracksStep(p, n, Actions(p, ms), i, id, e);
      loc', i' := RunKeeps(p, Apply(p, n, e), loc', ms, if e.Dispatch? then i + 1 else i, id, es[1..]);
    }
  }

  // ---- the theorems ----

  /** The connection as stream `id` has just been registered, whatever other streams are doing. */
  ghost predicate JustRegistered(n: Net, id: Id) {
    && Engine.Reachable(n.eng)
    && id in n.eng.recs && n.eng.recs[id].write.Some?
    && id in n.eng.accepted && n.eng.accepted[id] == []
    && id !in n.removals
  }

  lemma StartInv<T(!new)>(p: Protocol<T>, n: Net, ms: seq<bytes>, id: Id) returns (loc: Engine.Where)
    requires JustRegistered(n, id) && Wire(p, ms) && n.buf + Flat(n.chunks) == Flat(ms)
    ensures Inv(p, n, loc, ms, 0, id)
  {
    loc := Engine.ReachableInv(n.eng);
    Engine.InvStream(n.eng, loc, id);
    assert ms[0..] == ms;
  }

  lemma SinkAfter(s: Engine.Sys, loc: Engine.Where, n: Net, acts: seq<Action>, i: nat, id: Id)
    requires n.eng == s && Engine.Inv(s, loc) && Tracks(n, acts, i, id) && DataThenEnd(acts, id)
    ensures s.sinks[id].shutdowns <= 1
    ensures !s.sinks[id].failed ==> s.sinks[id].data <= Flat(Segments(acts, id))
    ensures !s.sinks[id].failed && s.sinks[id].shutdowns == 1 ==> s.sinks[id].data == Flat(Segments(acts, id))
  {
    Engine.InvStream(s, loc, id);
    var sofar, all := Segments(acts[..i], id), Segments(acts, id);
    SegmentsGrow(acts, id, i);
    FlatConcat(sofar, all[|sofar|..]);
    assert all == sofar + all[|sofar|..];
    if !s.sinks[id].failed {
      Engine.InvPrefix(s, loc, id);
      if s.sinks[id].shutdowns == 1 {
        NoMoreSegments(acts, id, i);
        Engine.InvDelivered(s, loc, id);
      }
    }
  }

  /**
   However the peer's bytes are cut into reads and however the tasks interleave, the sink
   holds a prefix of the concatenated segments, and all of them once it is shut down.
   */
  lemma EndToEnd<T(!new)>(p: Protocol<T>, n: Net, ms: seq<bytes>, id: Id, es: seq<Event>)
    requires Streaming(p.read) && JustRegistered(n, id) && Wire(p, ms) && n.buf + Flat(n.chunks) == Flat(ms)
    requires DataThenEnd(Actions(p, ms), id) && Exec(p, n, es).Some?
    ensures var s := Exec(p, n, es).value.eng;
            && id in s.sinks && s.sinks[id].shutdowns <= 1
            && (!s.sinks[id].failed ==> s.sinks[id].data <= Flat(Segments(Actions(p, ms), id)))
            && (!s.sinks[id].failed && s.sinks[id].shutdowns == 1 ==>
                  s.sinks[id].data == Flat(Segments(Actions(p, ms), id)))
  {
    var loc := StartInv(p, n, ms, id);
    var loc', i := RunKeeps(p, n, loc, ms, 0, id, es);
    var n' := Exec(p, n, es).value;
    SinkAfter(n'.eng, loc', n', Actions(p, ms), i, id);
  }

  /** Nothing is left to read, dispatch or run. */
  ghost predicate Quiescent<T(!new)>(p: Protocol<T>, n: Net)
    requires Streaming(p.read)
  {
    && n.chunks == [] && !Front(p, n).Frame? && n.removals == multiset{}
    && n.eng.loops == map[] && n.eng.closers == map[]
  }

  lemma NoTasksLeft(s: Engine.Sys, loc: Engine.Where, id: Id)
    requires Engine.Inv(s, loc) && s.loops == map[] && s.closers == map[]
    requires id in s.sinks && (id !in s.recs || s.recs[id].ended)
    ensures s.sinks[id].shutdowns == 1
  {
    Engine.InvStream(s, loc, id);
  }

  /** The event happens without the callbacks: neither a registration, nor a read of theirs, nor a failure. */
  predicate Advances(e: Event) {
    e.Task? ==> !e.e.Insert? && !e.e.Drain? && !e.e.Fail?
  }

  /** All that is left, if anything, is loops waiting for their callbacks to read. */
  ghost predicate AllWaiting<T(!new)>(p: Protocol<T>, n: Net)
    requires Streaming(p.read)
  {
    && n.chunks == [] && !Front(p, n).Frame? && n.removals == multiset{} && n.eng.closers == map[]
    && forall t :: t in n.eng.loops ==> Engine.Waits(n.eng, t)
  }

  lemma TaskToDo(s: Engine.Sys, loc: Engine.Where) returns (e: Engine.Event)
    requires Engine.Inv(s, loc)
    requires s.closers != map[] || exists t :: t in s.loops && !Engine.Waits(s, t)
    ensures Engine.Enabled(s, e) && !e.Insert? && !e.Write? && !e.Remove? && !e.Drain? && !e.Fail?
  {
    if s.closers != map[] {
      var t :| t in s.closers;
      assert Engine.CloserOk(s, loc, t);
      e := Engine.ShutCloser(t);
    } else {
      var t :| t in s.loops && !Engine.Waits(s, t);
      e := Engine.LoopCanStep(s, loc, t);
    }
  }

  lemma SomethingToDo<T(!new)>(p: Protocol<T>, n: Net, loc: Engine.Where, ms: seq<bytes>, i: nat) returns (e: Event)
    requires Streaming(p.read) && Wire(p, ms) && Aligned(n, ms, i) && Engine.Inv(n.eng, loc) && !AllWaiting(p, n)
    ensures Enabled(p, n, e) && Advances(e)
  {
    FrontIsNext(p, n, ms, i);
    if Front(p, n).Frame? {
      e := Dispatch;
    } else if n.chunks != [] {
      e := Read;
    } else if n.removals != multiset{} {
      var x :| x in n.removals;
      e := RunRemoval(x);
    } else {
      var ev := TaskToDo(n.eng, loc);
      e := Task(ev);
    }
  }

  /** Something can be done without the callbacks exactly if not all that is left is waiting for one to read. */
  lemma AdvancesIff<T(!new)>(p: Protocol<T>, n: Net, loc: Engine.Where, ms: seq<bytes>, i: nat)
    requires Streaming(p.read) && Wire(p, ms) && Aligned(n, ms, i) && Engine.Inv(n.eng, loc)
    ensures (exists e :: Enabled(p, n, e) && Advances(e)) <==> !AllWaiting(p, n)
    ensures AllWaiting(p, n) && !Quiescent(p, n) ==> exists h :: Enabled(p, n, Task(Engine.Drain(h, 1)))
  {
    if !AllWaiting(p, n) {
      var e := SomethingToDo(p, n, loc, ms, i);
    } else {
      forall e | Enabled(p, n, e) ensures !Advances(e) {
        WaitingIsStill(p, n, e);
      }
      if !Quiescent(p, n) {
        var t :| t in n.eng.loops;
        Engine.LoopProceedsIff(n.eng, loc, t);
        assert Enabled(p, n, Task(Engine.Drain(n.eng.loops[t].w, 1)));
      }
    }
  }

  lemma WaitingIsStill<T(!new)>(p: Protocol<T>, n: Net, e: Event)
    requires Streaming(p.read) && AllWaiting(p, n) && Enabled(p, n, e)
    ensures !Advances(e)
  {
    match e
    case Read =>
    case Dispatch =>
    case RunRemoval(_) =>
    case Task(_) =>
  }

  /**
   At any moment something can be done without the callbacks, unless nothing is left to do or
   every task that is left waits for a callback to read from a full pipe, which it can.
   */
  lemma NotStuck<T(!new)>(p: Protocol<T>, n: Net, ms: seq<bytes>, id: Id, es: seq<Event>)
    requires Streaming(p.read) && JustRegistered(n, id) && Wire(p, ms) && n.buf + Flat(n.chunks) == Flat(ms)
    requires DataThenEnd(Actions(p, ms), id) && Exec(p, n, es).Some?
    ensures var n' := Exec(p, n, es).value;
            && ((exists e :: Enabled(p, n', e) && Advances(e)) <==> !AllWaiting(p, n'))
            && (AllWaiting(p, n') && !Quiescent(p, n') ==> exists h :: Enabled(p, n', Task(Engine.Drain(h, 1))))
  {
    var loc := StartInv(p, n, ms, id);
    var loc', i := RunKeeps(p, n, loc, ms, 0, id, es);
    AdvancesIff(p, Exec(p, n, es).value, loc', ms, i);
  }

  lemma QuiescentIsShut<T(!new)>(p: Protocol<T>, n: Net, loc: Engine.Where, ms: seq<bytes>, i: nat, id: Id)
    requires Streaming(p.read) && Wire(p, ms) && Inv(p, n, loc, ms, i, id) && Quiescent(p, n)
    requires Ended(id) in Actions(p, ms)
    ensures n.eng.sinks[id].shutdowns == 1
  {
    FrontIsNext(p, n, ms, i);
    assert Actions(p, ms)[..i] == Actions(p, ms);
    NoTasksLeft(n.eng, loc, id);
  }

  /** A run with nothing left to do has shut the sink of every ended stream down, with all its data. */
  lemma EndToEndComplete<T(!new)>(p: Protocol<T>, n: Net, ms: seq<bytes>, id: Id, es: seq<Event>)
    requires Streaming(p.read) && JustRegistered(n, id) && Wire(p, ms) && n.buf + Flat(n.chunks) == Flat(ms)
    requires DataThenEnd(Actions(p, ms), id) && Ended(id) in Actions(p, ms)
    requires Exec(p, n, es).Some? && Quiescent(p, Exec(p, n, es).value)
    ensures var s := Exec(p, n, es).value.eng;
            && id in s.sinks && s.sinks[id].shutdowns == 1
            && (!s.sinks[id].failed ==> s.sinks[id].data == Flat(Segments(Actions(p, ms), id)))
  {
    var loc := StartInv(p, n, ms, id);
    var loc', i := RunKeeps(p, n, loc, ms, 0, id, es);
    QuiescentIsShut(p, Exec(p, n, es).value, loc', ms, i, id);
    EndToEnd(p, n, ms, id, es);
  }

  // ---- every run ends but for registrations, and then all is delivered ----

  predicate Registers(e: Event) {
    e.Task? && e.e.Insert?
  }

  /** The steps a message can cause, its dispatch included. */
  function Cost(a: Action): nat {
    match a
    case Data(_, segment) => 2 * |segment| + 9
    case Ended(_) => 3
    case Other => 1
  }

  function Costs(acts: seq<Action>): nat {
    if acts == [] then 0 else Cost(acts[0]) + Costs(acts[1..])
  }

  /** A bound on the steps left once the first `i` messages have been dispatched. */
  ghost function StepsLeft(n: Net, acts: seq<Action>, i: nat): nat
    requires i <= |acts|
  {
    |n.chunks| + Costs(acts[i..]) + 2 * |n.removals| + StreamWork.TotalWork(n.eng)
  }

  /** The steps of a run that are not registrations. */
  function Steps(es: seq<Event>): nat {
    if es == [] then 0 else (if Registers(es[0]) then 0 else 1) + Steps(es[1..])
  }

  lemma EngineWork<T(!new)>(p: Protocol<T>, n: Net, loc: Engine.Where, e: Event)
    requires Streaming(p.read) && Engine.Inv(n.eng, loc) && Enabled(p, n, e)
    ensures StreamWork.TotalWork(Apply(p, n, e).eng) + (if e.Task? && !Registers(e) then 1 else 0)
         <= StreamWork.TotalWork(n.eng)
            + (match OnStreams(p, n, e) case Some(ev) => StreamWork.Adds(ev) case None => 0)
  {
    var ev := OnStreams(p, n, e);
    if ev.Some? {
      StreamWork.StepWork(n.eng, loc, ev.value);
    }
  }

  lemma StepTaken<T(!new)>(p: Protocol<T>, n: Net, loc: Engine.Where, ms: seq<bytes>, i: nat, e: Event)
    requires Streaming(p.read) && Wire(p, ms) && Aligned(n, ms, i) && Engine.Inv(n.eng, loc) && Enabled(p, n, e)
    ensures var i' := if e.Dispatch? then i + 1 else i;
            && i' <= |ms|
            && StepsLeft(Apply(p, n, e), Actions(p, ms), i') + Steps([e]) <= StepsLeft(n, Actions(p, ms), i)
  {
    var acts := Actions(p, ms);
    EngineWork(p, n, loc, e);
    assert Steps([e]) == (if Registers(e) then 0 else 1) + Steps([e][1..]);
    match e
    case Read =>
    case Dispatch =>
      FrontIsNext(p, n, ms, i);
      assert acts[i..][0] == acts[i] && acts[i..][1..] == acts[i + 1..];
      assert |Apply(p, n, e).removals| == |n.removals| + (if acts[i].Ended? then 1 else 0);
    case RunRemoval(_) =>
    case Task(_) =>
  }

  lemma {:induction false} RunTaken<T(!new)>(p: Protocol<T>, n: Net, loc: Engine.Where, ms: seq<bytes>, i: nat,
                                             es: seq<Event>)
    requires Streaming(p.read) && Wire(p, ms) && Aligned(n, ms, i) && Engine.Inv(n.eng, loc)
    requires Exec(p, n, es).Some?
    ensures Steps(es) <= StepsLeft(n, Actions(p, ms), i)
    decreases |es|
  {
    if es == [] {
    } else {
      var e := es[0];
      var loc' := EngineStep(p, n, loc, e);
      AlignedStep(p, n, ms, i, e);
      StepTaken(p, n, loc, ms, i, e);
      RunTaken(p, Apply(p, n, e), loc', ms, if e.Dispatch? then i + 1 else i, es[1..]);
      assert [e][1..] == [];
    }
  }

  /** Nothing can happen any more but another registration. */
  ghost predicate AtRest<T(!new)>(p: Protocol<T>, n: Net)
    requires Streaming(p.read)
  {
    forall e :: Enabled(p, n, e) ==> Registers(e)
  }

  lemma RestIsQuiescent<T(!new)>(p: Protocol<T>, n: Net, loc: Engine.Where, ms: seq<bytes>, i: nat)
    requires Streaming(p.read) && Wire(p, ms) && Aligned(n, ms, i) && Engine.Inv(n.eng, loc) && AtRest(p, n)
    ensures Quiescent(p, n)
  {
    AdvancesIff(p, n, loc, ms, i);
  }

  /**
   In every run from the registration on, the steps that are not registrations are bounded by
   a number known at its start; and a run that has come to rest has shut the sink of an ended
   stream down, with all its data. So every run that goes on while it can, with callbacks
   that go on reading, delivers everything.
   */
  lemma EveryRunDelivers<T(!new)>(p: Protocol<T>, n: Net, ms: seq<bytes>, id: Id, es: seq<Event>)
    requires Streaming(p.read) && JustRegistered(n, id) && Wire(p, ms) && n.buf + Flat(n.chunks) == Flat(ms)
    requires DataThenEnd(Actions(p, ms), id) && Exec(p, n, es).Some?
    ensures Steps(es) <= StepsLeft(n, Actions(p, ms), 0)
    ensures var n' := Exec(p, n, es).value;
            AtRest(p, n') && Ended(id) in Actions(p, ms) ==>
              && id in n'.eng.sinks && n'.eng.sinks[id].shutdowns == 1
              && (!n'.eng.sinks[id].failed ==> n'.eng.sinks[id].data == Flat(Segments(Actions(p, ms), id)))
  {
    var loc := StartInv(p, n, ms, id);
    RunTaken(p, n, loc, ms, 0, es);
    if AtRest(p, Exec(p, n, es).value) && Ended(id) in Actions(p, ms) {
      var loc', i := RunKeeps(p, n, loc, ms, 0, id, es);
      RestIsQuiescent(p, Exec(p, n, es).value, loc', ms, i);
      EndToEndComplete(p, n, ms, id, es);
    }
  }
}
