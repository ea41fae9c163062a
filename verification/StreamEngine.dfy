/**
 The streams under concurrency: the table, the write loops and removers spawned on it, and
 the sinks they write to. One event is one locked region, some bytes of one item, the end
 of one item, one write error or one shutdown; a run is any interleaving of events.
 */
module StreamEngine {
  import opened Common
  import opened Streams

  type Task = nat

  datatype Pc = AtLock | Writing | Closing

  /** A running write loop: the batch it swapped out, and how much of its first item is written. */
  datatype Loop = Loop(id: Id, w: Handle, pc: Pc, items: seq<bytes>, off: nat)

  /** The far end of a write half: the bytes received, the items finished, and what ended it. */
  datatype Sink = Sink(data: bytes, items: seq<bytes>, failed: bool, shutdowns: nat)

  /** The bytes the pipe behind a write half holds before writing to it waits. */
  const PIPE_CAPACITY := 8192

  /** `accepted` records, per stream, the buffers `write` queued; `unread` counts the bytes waiting in its pipe. */
  datatype Sys = Sys(
    recs: Records,
    loops: map<Task, Loop>,
    closers: map<Task, Handle>,
    sinks: map<Handle, Sink>,
    accepted: map<Id, seq<bytes>>,
    unread: map<Handle, nat>,
    next: Task)

  datatype Event =
    | Insert(id: Id)
    | Write(id: Id, buf: bytes)
    | Remove(id: Id)
    | Lock(t: Task)
    | Push(t: Task, k: nat)
    | ItemDone(t: Task)
    | Fail(t: Task)
    | ShutLoop(t: Task)
    | ShutCloser(t: Task)
    | Drain(h: Handle, k: nat)  // the callback reads from its end of the pipe

  const EMPTY := Sys(map[], map[], map[], map[], map[], map[], 0)

  function Unread(s: Sys, h: Handle): nat {
    if h in s.unread then s.unread[h] else 0
  }

  predicate Busy(s: Sys, t: Task) {
    t in s.loops && s.loops[t].pc.Writing? && s.loops[t].items != [] && s.loops[t].w in s.sinks
  }

  predicate Enabled(s: Sys, e: Event) {
    match e
    case Insert(id) => id !in s.sinks  // ids are fresh
    case Write(_, _) => true
    case Remove(_) => true
    case Lock(t) => t in s.loops && s.loops[t].pc.AtLock?
    case Push(t, k) =>
      && Busy(s, t) && 1 <= k && s.loops[t].off + k <= |s.loops[t].items[0]|
      && Unread(s, s.loops[t].w) + k <= PIPE_CAPACITY
    case ItemDone(t) => Busy(s, t) && s.loops[t].off == |s.loops[t].items[0]|
    case Fail(t) => Busy(s, t)
    case ShutLoop(t) => t in s.loops && s.loops[t].pc.Closing? && s.loops[t].w in s.sinks
    case ShutCloser(t) => t in s.closers && s.closers[t] in s.sinks
    case Drain(h, k) => h in s.sinks && 1 <= k <= Unread(s, h)
  }

  /** The loop after its batch shrank to `items`: back to the lock once the batch is used up. */
  function Rest(l: Loop, items: seq<bytes>): Loop {
    l.(items := items, off := 0, pc := if items == [] then AtLock else Writing)
  }

  function AfterTurn(l: Loop, turn: Turn): Loop {
    match turn
    case Batch(items) => l.(pc := Writing, items := items, off := 0)
    case _ => l.(pc := Closing)
  }

  function Apply(s: Sys, e: Event): Sys
    requires Enabled(s, e)
  {
    match e
    case Insert(id) =>
      s.(recs := Inserted(s.recs, id, id),
         sinks := s.sinks[id := Sink([], [], false, 0)],
         accepted := s.accepted[id := []])
    case Write(id, buf) =>
      var (recs, spawned) := Written(s.recs, id, buf);
      var s1 := s.(recs := recs,
                   accepted := if id in s.recs && id in s.accepted
                               then s.accepted[id := s.accepted[id] + [buf]] else s.accepted);
      (match spawned
       case Some(w) => s1.(loops := s.loops[s.next := Loop(id, w, AtLock, [], 0)], next := s.next + 1)
       case None => s1)
    case Remove(id) =>
      var (recs, taken) := Removed(s.recs, id);
      (match taken
       case Some(w) => s.(recs := recs, closers := s.closers[s.next := w], next := s.next + 1)
       case None => s.(recs := recs))
    case Lock(t) =>
      var l := s.loops[t];
      var (recs, turn) := TakeTurn(s.recs, l.id, l.w);
      s.(recs := recs, loops := if turn.Park? then s.loops - {t} else s.loops[t := AfterTurn(l, turn)])
    case Push(t, k) =>
      var l := s.loops[t];
      var sink := s.sinks[l.w];
      s.(loops := s.loops[t := l.(off := l.off + k)],
         unread := s.unread[l.w := Unread(s, l.w) + k],
         sinks := s.sinks[l.w := sink.(data := sink.data + l.items[0][l.off..l.off + k])])
    case ItemDone(t) =>
      var l := s.loops[t];
      var sink := s.sinks[l.w];
      s.(loops := s.loops[t := Rest(l, l.items[1..])],
         sinks := s.sinks[l.w := sink.(items := sink.items + [l.items[0]])])
    case Fail(t) =>
      // the rest of the batch is dropped; the loop goes back to the lock
      var l := s.loops[t];
      s.(loops := s.loops[t := Rest(l, [])],
         sinks := s.sinks[l.w := s.sinks[l.w].(failed := true)])
    case ShutLoop(t) =>
      var w := s.loops[t].w;
      s.(loops := s.loops - {t},
         sinks := s.sinks[w := s.sinks[w].(shutdowns := s.sinks[w].shutdowns + 1)])
    case ShutCloser(t) =>
      var w := s.closers[t];
      s.(closers := s.closers - {t},
         sinks := s.sinks[w := s.sinks[w].(shutdowns := s.sinks[w].shutdowns + 1)])
    case Drain(h, k) => s.(unread := s.unread[h := Unread(s, h) - k])
  }

  /** The state after a run, if every event was enabled when it happened. */
  function Exec(s: Sys, es: seq<Event>): Option<Sys>
    decreases |es|
  {
    if es == [] then Some(s)
    else if Enabled(s, es[0]) then Exec(Apply(s, es[0]), es[1..])
    else None
  }

  // ---- where a write half is ----

  datatype Place = InRecord(id: Id) | InLoop(t: Task) | InCloser(t: Task) | ShutDown

  ghost predicate Holds(s: Sys, p: Place, h: Handle) {
    match p
    case InRecord(id) => id in s.recs && s.recs[id].write == Some(h)
    case InLoop(t) => t in s.loops && s.loops[t].w == h
    case InCloser(t) => t in s.closers && s.closers[t] == h
    case ShutDown => h in s.sinks && s.sinks[h].shutdowns > 0
  }

  type Where = map<Handle, Place>

  /** Every task is known as the place of the write half it works with. */
  ghost predicate LoopOk(s: Sys, loc: Where, t: Task)
    requires t in s.loops
  {
    t < s.next && s.loops[t].w in loc && loc[s.loops[t].w] == InLoop(t)
  }

  ghost predicate CloserOk(s: Sys, loc: Where, t: Task)
    requires t in s.closers
  {
    t < s.next && s.closers[t] in loc && loc[s.closers[t]] == InCloser(t)
  }

  /** What a loop working for stream `i` may look like. */
  ghost predicate LoopFits(s: Sys, l: Loop, i: Id) {
    && l.id == l.w == i
    && (l.pc.Writing? <==> l.items != [])
    && l.off <= (if l.items == [] then 0 else |l.items[0]|)
    && (l.pc.Closing? <==> i !in s.recs)
    && (i in s.recs ==> s.recs[i].write == None)
  }

  ghost predicate StreamOk(s: Sys, loc: Where, i: Id)
    requires i in s.sinks && i in loc
  {
    match loc[i]
    case InRecord(j) => j == i && i in s.recs && s.recs[i] == StreamRec(Some(i), [], false) && s.sinks[i].shutdowns == 0
    case InLoop(t) => t < s.next && t in s.loops && LoopFits(s, s.loops[t], i) && s.sinks[i].shutdowns == 0
    case InCloser(t) => t < s.next && t in s.closers && s.closers[t] == i && i !in s.recs && s.sinks[i].shutdowns == 0
    case ShutDown => i !in s.recs && s.sinks[i].shutdowns == 1
  }

  /** The items swapped out for stream `i` and not finished yet. */
  function InFlight(s: Sys, loc: Where, i: Id): seq<bytes> {
    if i in loc && loc[i].InLoop? && loc[i].t in s.loops then s.loops[loc[i].t].items else []
  }

  /** The bytes of its first item a loop has written so far. */
  function Begun(l: Loop): bytes {
    if l.items != [] && l.off <= |l.items[0]| then l.items[0][..l.off] else []
  }

  function Partial(s: Sys, loc: Where, i: Id): bytes {
    if i in loc && loc[i].InLoop? && loc[i].t in s.loops then Begun(s.loops[loc[i].t]) else []
  }

  function Queued(s: Sys, i: Id): seq<bytes> {
    if i in s.recs then s.recs[i].q else []
  }

  /** Nothing accepted is lost, duplicated or reordered on its way to a sink that has not failed. */
  ghost predicate Conserved(s: Sys, loc: Where, i: Id)
    requires i in s.sinks && i in s.accepted
  {
    !s.sinks[i].failed ==>
      && s.sinks[i].items + InFlight(s, loc, i) + Queued(s, i) == s.accepted[i]
      && s.sinks[i].data == Flat(s.sinks[i].items) + Partial(s, loc, i)
  }

  ghost predicate Inv(s: Sys, loc: Where) {
    && loc.Keys == s.sinks.Keys == s.accepted.Keys
    && s.recs.Keys <= s.sinks.Keys
    && (forall t :: t in s.loops ==> LoopOk(s, loc, t))
    && (forall t :: t in s.closers ==> CloserOk(s, loc, t))
    && (forall i :: i in s.sinks ==> StreamOk(s, loc, i))
    && (forall i :: i in s.sinks ==> Conserved(s, loc, i))
  }

  /** Where each write half is after an event. */
  function Moved(s: Sys, loc: Where, e: Event): Where
    requires Enabled(s, e)
  {
    match e
    case Insert(id) => loc[id := InRecord(id)]
    case Write(id, _) =>
      if id in s.recs && s.recs[id].write.Some? then loc[s.recs[id].write.value := InLoop(s.next)] else loc
    case Remove(id) =>
      if id in s.recs && s.recs[id].write.Some? then loc[s.recs[id].write.value := InCloser(s.next)] else loc
    case Lock(t) =>
      var l := s.loops[t];
      if TakeTurn(s.recs, l.id, l.w).1.Park? then loc[l.w := InRecord(l.id)] else loc
    case ShutLoop(t) => loc[s.loops[t].w := ShutDown]
    case ShutCloser(t) => loc[s.closers[t] := ShutDown]
    case _ => loc
  }

  /** The stream an event is about. */
  function Subject(s: Sys, e: Event): Handle
    requires Enabled(s, e)
  {
    match e
    case Insert(id) => id
    case Write(id, _) => id
    case Remove(id) => id
    case ShutCloser(t) => s.closers[t]
    case Lock(t) => s.loops[t].w
    case Push(t, _) => s.loops[t].w
    case ItemDone(t) => s.loops[t].w
    case Fail(t) => s.loops[t].w
    case ShutLoop(t) => s.loops[t].w
    case Drain(h, _) => h
  }

  /** What the invariant says about the subject of an event. */
  ghost predicate SubjectOk(s: Sys, loc: Where, e: Event)
    requires Enabled(s, e)
  {
    var i := Subject(s, e);
    && loc.Keys == s.sinks.Keys == s.accepted.Keys
    && s.recs.Keys <= s.sinks.Keys
    && (i in s.sinks ==> StreamOk(s, loc, i) && Conserved(s, loc, i))
    && (match e
        case Insert(_) => true
        case Write(_, _) => true
        case Remove(_) => true
        case Drain(_, _) => true
        case ShutCloser(t) => CloserOk(s, loc, t)
        case Lock(t) => LoopOk(s, loc, t)
        case Push(t, _) => LoopOk(s, loc, t)
        case ItemDone(t) => LoopOk(s, loc, t)
        case Fail(t) => LoopOk(s, loc, t)
        case ShutLoop(t) => LoopOk(s, loc, t))
  }

  /** Nothing the invariant says about stream `i` changed. */
  ghost predicate Unchanged(s: Sys, s': Sys, loc: Where, loc': Where, i: Id)
    requires i in s.sinks && i in s.accepted && i in loc
  {
    && s.next <= s'.next
    && i in s'.sinks && s'.sinks[i] == s.sinks[i]
    && i in s'.accepted && s'.accepted[i] == s.accepted[i]
    && i in loc' && loc'[i] == loc[i]
    && (i in s.recs <==> i in s'.recs) && (i in s.recs ==> s'.recs[i] == s.recs[i])
    && (loc[i].InLoop? && loc[i].t in s.loops ==> loc[i].t in s'.loops && s'.loops[loc[i].t] == s.loops[loc[i].t])
    && (loc[i].InCloser? && loc[i].t in s.closers ==>
          loc[i].t in s'.closers && s'.closers[loc[i].t] == s.closers[loc[i].t])
  }

  /** The events of a write loop. */
  predicate OfLoop(e: Event, t: Task) {
    e in {Lock(t), ItemDone(t), Fail(t), ShutLoop(t)} || (e.Push? && e.t == t)
  }

  /** The events of the table's methods, which come from outside. */
  predicate OfTable(e: Event) {
    e.Insert? || e.Write? || e.Remove?
  }

  lemma TableLeavesOthers(s: Sys, loc: Where, e: Event, i: Id)
    requires OfTable(e) && Enabled(s, e) && SubjectOk(s, loc, e)
    requires i in s.sinks && i != Subject(s, e) && StreamOk(s, loc, i)
    ensures Unchanged(s, Apply(s, e), loc, Moved(s, loc, e), i)
  {
    match e
    case Insert(_) =>
    case Write(_, _) =>
    case Remove(_) =>
  }

  lemma LoopLeavesOthers(s: Sys, loc: Where, e: Event, t: Task, i: Id)
    requires OfLoop(e, t) && Enabled(s, e) && SubjectOk(s, loc, e)
    requires i in s.sinks && i != Subject(s, e) && StreamOk(s, loc, i)
    ensures Unchanged(s, Apply(s, e), loc, Moved(s, loc, e), i)
  {
    match e
    case Lock(_) =>
    case Push(_, _) =>
    case ItemDone(_) =>
    case Fail(_) =>
    case ShutLoop(_) =>
  }

  lemma RestLeavesOthers(s: Sys, loc: Where, e: Event, i: Id)
    requires (e.ShutCloser? || e.Drain?) && Enabled(s, e) && SubjectOk(s, loc, e)
    requires i in s.sinks && i != Subject(s, e) && StreamOk(s, loc, i)
    ensures Unchanged(s, Apply(s, e), loc, Moved(s, loc, e), i)
  {
    match e
    case ShutCloser(_) =>
    case Drain(_, _) =>
  }

  /** An event leaves every stream but its subject alone. */
  lemma OthersUnchanged(s: Sys, loc: Where, e: Event, i: Id)
    requires Enabled(s, e) && SubjectOk(s, loc, e)
    requires i in s.sinks && i != Subject(s, e) && StreamOk(s, loc, i)
    ensures Unchanged(s, Apply(s, e), loc, Moved(s, loc, e), i)
  {
    if OfTable(e) {
      TableLeavesOthers(s, loc, e, i);
    } else if e.ShutCloser? || e.Drain? {
      RestLeavesOthers(s, loc, e, i);
    } else {
      LoopLeavesOthers(s, loc, e, e.t, i);
    }
  }

  lemma UnchangedKeeps(s: Sys, s': Sys, loc: Where, loc': Where, i: Id)
    requires i in s.sinks && i in s.accepted && i in loc && Unchanged(s, s', loc, loc', i)
    requires StreamOk(s, loc, i) && Conserved(s, loc, i)
    ensures StreamOk(s', loc', i) && Conserved(s', loc', i)
  {}

  // ---- the subject of each event ----

  ghost predicate SubjectKept(s: Sys, loc: Where, e: Event)
    requires Enabled(s, e)
  {
    var s', loc', i := Apply(s, e), Moved(s, loc, e), Subject(s, e);
    i in s'.sinks ==> i in s'.accepted && i in loc' && StreamOk(s', loc', i) && Conserved(s', loc', i)
  }

  lemma InsertKeeps(s: Sys, loc: Where, id: Id)
    requires Enabled(s, Insert(id)) && SubjectOk(s, loc, Insert(id))
    ensures SubjectKept(s, loc, Insert(id))
  {}

  lemma WriteKeeps(s: Sys, loc: Where, id: Id, buf: bytes)
    requires SubjectOk(s, loc, Write(id, buf))
    ensures SubjectKept(s, loc, Write(id, buf))
  {
    if id in s.recs && !s.sinks[id].failed {
      var sent := s.sinks[id].items + InFlight(s, loc, id);
      assert sent + (Queued(s, id) + [buf]) == sent + Queued(s, id) + [buf];
    }
  }

  lemma RemoveKeeps(s: Sys, loc: Where, id: Id)
    requires SubjectOk(s, loc, Remove(id))
    ensures SubjectKept(s, loc, Remove(id))
  {}

  lemma LockKeeps(s: Sys, loc: Where, t: Task)
    requires Enabled(s, Lock(t)) && SubjectOk(s, loc, Lock(t))
    ensures SubjectKept(s, loc, Lock(t))
  {
    var i := s.loops[t].w;
    var items := s.sinks[i].items;
    assert items + InFlight(s, loc, i) + Queued(s, i) == items + Queued(s, i) + [];
  }

  lemma PushKeeps(s: Sys, loc: Where, t: Task, k: nat)
    requires Enabled(s, Push(t, k)) && SubjectOk(s, loc, Push(t, k))
    ensures SubjectKept(s, loc, Push(t, k))
  {
    var l := s.loops[t];
    assert l.items[0][..l.off] + l.items[0][l.off..l.off + k] == l.items[0][..l.off + k];
  }

  lemma ItemDoneKeeps(s: Sys, loc: Where, t: Task)
    requires Enabled(s, ItemDone(t)) && SubjectOk(s, loc, ItemDone(t))
    ensures SubjectKept(s, loc, ItemDone(t))
  {
    var l := s.loops[t];
    var items := s.sinks[l.w].items;
    assert l.items[0][..l.off] == l.items[0];
    FlatSnoc(items, l.items[0]);
    assert items + l.items == items + [l.items[0]] + l.items[1..];
  }

  lemma FailKeeps(s: Sys, loc: Where, t: Task)
    requires Enabled(s, Fail(t)) && SubjectOk(s, loc, Fail(t))
    ensures SubjectKept(s, loc, Fail(t))
  {}

  lemma ShutLoopKeeps(s: Sys, loc: Where, t: Task)
    requires Enabled(s, ShutLoop(t)) && SubjectOk(s, loc, ShutLoop(t))
    ensures SubjectKept(s, loc, ShutLoop(t))
  {}

  lemma ShutCloserKeeps(s: Sys, loc: Where, t: Task)
    requires Enabled(s, ShutCloser(t)) && SubjectOk(s, loc, ShutCloser(t))
    ensures SubjectKept(s, loc, ShutCloser(t))
  {}

  lemma DrainKeeps(s: Sys, loc: Where, h: Handle, k: nat)
    requires Enabled(s, Drain(h, k)) && SubjectOk(s, loc, Drain(h, k))
    ensures SubjectKept(s, loc, Drain(h, k))
  {}

  lemma SubjectKeeps(s: Sys, loc: Where, e: Event)
    requires Enabled(s, e) && SubjectOk(s, loc, e)
    ensures SubjectKept(s, loc, e)
  {
    match e
    case Insert(id) => InsertKeeps(s, loc, id);
    case Write(id, buf) => WriteKeeps(s, loc, id, buf);
    case Remove(id) => RemoveKeeps(s, loc, id);
    case Lock(t) => LockKeeps(s, loc, t);
    case Push(t, k) => PushKeeps(s, loc, t, k);
    case ItemDone(t) => ItemDoneKeeps(s, loc, t);
    case Fail(t) => FailKeeps(s, loc, t);
    case ShutLoop(t) => ShutLoopKeeps(s, loc, t);
    case ShutCloser(t) => ShutCloserKeeps(s, loc, t);
    case Drain(h, k) => DrainKeeps(s, loc, h, k);
  }

  // ---- the whole invariant, one event and then any run ----

  lemma LoopKeeps(s: Sys, loc: Where, e: Event, t: Task)
    requires Enabled(s, e) && SubjectOk(s, loc, e)
    requires t in s.loops && LoopOk(s, loc, t) && t in Apply(s, e).loops
    ensures LoopOk(Apply(s, e), Moved(s, loc, e), t)
  {}

  lemma CloserKeeps(s: Sys, loc: Where, e: Event, t: Task)
    requires Enabled(s, e) && SubjectOk(s, loc, e)
    requires t in s.closers && CloserOk(s, loc, t) && t in Apply(s, e).closers
    ensures CloserOk(Apply(s, e), Moved(s, loc, e), t)
  {}

  lemma SpawnedOk(s: Sys, loc: Where, e: Event)
    requires Enabled(s, e) && SubjectOk(s, loc, e)
    ensures forall t :: t in Apply(s, e).loops && t !in s.loops ==> LoopOk(Apply(s, e), Moved(s, loc, e), t)
    ensures forall t :: t in Apply(s, e).closers && t !in s.closers ==> CloserOk(Apply(s, e), Moved(s, loc, e), t)
  {}

  lemma KeysKeep(s: Sys, loc: Where, e: Event)
    requires Enabled(s, e) && SubjectOk(s, loc, e)
    ensures Moved(s, loc, e).Keys == Apply(s, e).sinks.Keys == Apply(s, e).accepted.Keys
    ensures Apply(s, e).recs.Keys <= Apply(s, e).sinks.Keys
    ensures Apply(s, e).sinks.Keys <= s.sinks.Keys + {Subject(s, e)}
  {
    if !e.Insert? {
      SinksKeep(s, loc, e);
      MovedKeys(s, loc, e);
    }
  }

  lemma SinksKeep(s: Sys, loc: Where, e: Event)
    requires Enabled(s, e) && SubjectOk(s, loc, e) && !e.Insert?
    ensures Apply(s, e).sinks.Keys == s.sinks.Keys && Apply(s, e).accepted.Keys == s.accepted.Keys
    ensures Apply(s, e).recs.Keys <= s.sinks.Keys
  {
    if OfTable(e) {
      TableKeepsSinks(s, loc, e);
    } else {
      TaskKeepsSinks(s, loc, e);
    }
  }

  lemma TableKeepsSinks(s: Sys, loc: Where, e: Event)
    requires Enabled(s, e) && SubjectOk(s, loc, e) && (e.Write? || e.Remove?)
    ensures Apply(s, e).sinks.Keys == s.sinks.Keys && Apply(s, e).accepted.Keys == s.accepted.Keys
    ensures Apply(s, e).recs.Keys <= s.sinks.Keys
  {
    KeysOf(s.recs, e.id, if e.Write? then e.buf else [], 0);
    if e.Write? {
      WriteKeepsSinks(s, e);
    } else {
      RemoveKeepsSinks(s, e);
    }
  }

  lemma WriteKeepsSinks(s: Sys, e: Event)
    requires e.Write?
    ensures Apply(s, e).sinks == s.sinks && Apply(s, e).recs == Written(s.recs, e.id, e.buf).0
    ensures Apply(s, e).accepted.Keys == s.accepted.Keys
  {
    assert e.id in s.accepted ==> s.accepted.Keys + {e.id} == s.accepted.Keys;
  }

  lemma RemoveKeepsSinks(s: Sys, e: Event)
    requires e.Remove?
    ensures Apply(s, e).sinks == s.sinks && Apply(s, e).accepted == s.accepted
    ensures Apply(s, e).recs == Removed(s.recs, e.id).0
  {}

  lemma TaskKeepsSinks(s: Sys, loc: Where, e: Event)
    requires Enabled(s, e) && SubjectOk(s, loc, e) && !OfTable(e)
    ensures Apply(s, e).sinks.Keys == s.sinks.Keys && Apply(s, e).accepted == s.accepted
    ensures Apply(s, e).recs.Keys <= s.sinks.Keys
  {
    var s' := Apply(s, e);
    match e
    case Lock(_) =>
    case Push(t, _) => assert s'.sinks.Keys == s.sinks.Keys + {s.loops[t].w};
    case ItemDone(t) => assert s'.sinks.Keys == s.sinks.Keys + {s.loops[t].w};
    case Fail(t) => assert s'.sinks.Keys == s.sinks.Keys + {s.loops[t].w};
    case ShutLoop(t) => assert s'.sinks.Keys == s.sinks.Keys + {s.loops[t].w};
    case ShutCloser(t) => assert s'.sinks.Keys == s.sinks.Keys + {s.closers[t]};
    case Drain(_, _) =>
  }

  lemma MovedKeys(s: Sys, loc: Where, e: Event)
    requires Enabled(s, e) && SubjectOk(s, loc, e) && !e.Insert?
    ensures Moved(s, loc, e).Keys == loc.Keys
  {}

  lemma InvSubject(s: Sys, loc: Where, e: Event)
    requires Inv(s, loc) && Enabled(s, e)
    ensures SubjectOk(s, loc, e)
  {}

  lemma InvStream(s: Sys, loc: Where, i: Id)
    requires Inv(s, loc) && i in s.sinks
    ensures StreamOk(s, loc, i) && Conserved(s, loc, i)
  {}

  /** Every event keeps the invariant. */
  lemma StepKeeps(s: Sys, loc: Where, e: Event)
    requires Inv(s, loc) && Enabled(s, e)
    ensures Inv(Apply(s, e), Moved(s, loc, e))
  {
    var s', loc' := Apply(s, e), Moved(s, loc, e);
    InvSubject(s, loc, e);
    SpawnedOk(s, loc, e);
    KeysKeep(s, loc, e);
    SubjectKeeps(s, loc, e);
    forall i | i in s'.sinks ensures StreamOk(s', loc', i) && Conserved(s', loc', i) {
      if i != Subject(s, e) {
        InvStream(s, loc, i);
        OthersUnchanged(s, loc, e, i);
        UnchangedKeeps(s, s', loc, loc', i);
      }
    }
    forall t | t in s'.loops ensures LoopOk(s', loc', t) {
      if t in s.loops {
        LoopKeeps(s, loc, e, t);
      }
    }
    forall t | t in s'.closers ensures CloserOk(s', loc', t) {
      if t in s.closers {
        CloserKeeps(s, loc, e, t);
      }
    }
  }

  /** The invariant holds after every run from a state in which it holds. */
  lemma {:induction false} RunKeeps(s: Sys, loc: Where, es: seq<Event>) returns (loc': Where)
    requires Inv(s, loc) && Exec(s, es).Some?
    ensures Inv(Exec(s, es).value, loc')
    decreases |es|
  {
    if es == [] {
      loc' := loc;
    } else {
      StepKeeps(s, loc, es[0]);
      loc' := RunKeeps(Apply(s, es[0]), Moved(s, loc, es[0]), es[1..]);
    }
  }

  /** A state some run from the empty table ends in. */
  ghost predicate Reachable(s: Sys) {
    exists es :: Exec(EMPTY, es) == Some(s)
  }

  lemma ReachableInv(s: Sys) returns (loc: Where)
    requires Reachable(s)
    ensures Inv(s, loc)
  {
    var es :| Exec(EMPTY, es) == Some(s);
    assert Inv(EMPTY, map[]);
    loc := RunKeeps(EMPTY, map[], es);
  }

  // ---- ownership ----

  /** Every write half ever inserted is in exactly one place. */
  lemma ExactlyOneOwner(s: Sys, h: Handle)
    requires Reachable(s) && h in s.sinks
    ensures exists p :: Holds(s, p, h) && forall q :: Holds(s, q, h) ==> q == p
  {
    var loc := ReachableInv(s);
    InvStream(s, loc, h);
    var p := loc[h];
    assert Holds(s, p, h);
    forall q | Holds(s, q, h) ensures q == p {
      match q
      case InRecord(id) => assert StreamOk(s, loc, id);
      case InLoop(t) => assert LoopOk(s, loc, t);
      case InCloser(t) => assert CloserOk(s, loc, t);
      case ShutDown =>
    }
  }

  /** A stream never has two write loops. */
  lemma OneLoopPerStream(s: Sys, t: Task, u: Task)
    requires Reachable(s) && t in s.loops && u in s.loops && s.loops[t].id == s.loops[u].id
    ensures t == u
  {
    var loc := ReachableInv(s);
    assert LoopOk(s, loc, t) && LoopOk(s, loc, u);
  }

  /** A loop works with the write half of its own stream, and always finds its record under the lock. */
  lemma RecordNeverMissing(s: Sys, t: Task)
    requires Reachable(s) && t in s.loops
    ensures s.loops[t].w == s.loops[t].id
    ensures Enabled(s, Lock(t)) ==> s.loops[t].id in s.recs && s.recs[s.loops[t].id].write == None
  {
    var loc := ReachableInv(s);
    assert LoopOk(s, loc, t);
    InvStream(s, loc, s.loops[t].w);
  }

  /** A record at rest has an empty queue and is not ended; any other record has a running loop. */
  lemma RestingRecords(s: Sys, i: Id)
    requires Reachable(s) && i in s.recs
    ensures s.recs[i].write.Some? ==> s.recs[i] == StreamRec(Some(i), [], false)
    ensures s.recs[i].write == None <==> exists t :: t in s.loops && s.loops[t].id == i
  {
    var loc := ReachableInv(s);
    InvStream(s, loc, i);
    if t :| t in s.loops && s.loops[t].id == i {
      assert LoopOk(s, loc, t);
    }
    if s.recs[i].write == None {
      assert LoopOk(s, loc, loc[i].t);
    }
  }

  // ---- delivery ----

  /** While a loop runs, finished items, the rest of its batch and the queue are what was accepted. */
  lemma DeliveryInProgress(s: Sys, t: Task)
    requires Reachable(s) && t in s.loops
    ensures var l := s.loops[t];
            && l.w in s.sinks && l.id in s.accepted
            && (!s.sinks[l.w].failed ==> s.sinks[l.w].items + l.items + Queued(s, l.id) == s.accepted[l.id])
            && (!s.sinks[l.w].failed ==> s.sinks[l.w].data == Flat(s.sinks[l.w].items) + Begun(l))
  {
    var loc := ReachableInv(s);
    assert LoopOk(s, loc, t);
    InvStream(s, loc, s.loops[t].w);
  }

  /** With no loop running, everything accepted has been delivered. */
  lemma DeliveryAtRest(s: Sys, i: Id)
    requires Reachable(s) && i in s.sinks && forall t :: t in s.loops ==> s.loops[t].w != i
    ensures i in s.accepted
    ensures !s.sinks[i].failed ==> s.sinks[i].items == s.accepted[i] && s.sinks[i].data == Flat(s.accepted[i])
  {
    var loc := ReachableInv(s);
    InvStream(s, loc, i);
    assert s.sinks[i].items + [] + [] == s.sinks[i].items;
  }

  /** At every moment a sink that has not failed holds a prefix of what was accepted, byte by byte. */
  lemma SinkHoldsPrefix(s: Sys, i: Id)
    requires Reachable(s) && i in s.sinks && i in s.accepted && !s.sinks[i].failed
    ensures s.sinks[i].data <= Flat(s.accepted[i])
  {
    var loc := ReachableInv(s);
    InvPrefix(s, loc, i);
  }

  lemma InvDelivered(s: Sys, loc: Where, i: Id)
    requires Inv(s, loc) && i in s.sinks && i in s.accepted && !s.sinks[i].failed
    requires loc[i].InCloser? || loc[i].ShutDown?
    ensures s.sinks[i].items == s.accepted[i] && s.sinks[i].data == Flat(s.accepted[i])
  {
    InvStream(s, loc, i);
    assert s.sinks[i].items + [] + [] == s.sinks[i].items;
  }

  lemma InvPrefix(s: Sys, loc: Where, i: Id)
    requires Inv(s, loc) && i in s.sinks && i in s.accepted && !s.sinks[i].failed
    ensures s.sinks[i].data <= Flat(s.accepted[i])
  {
    InvStream(s, loc, i);
    var items, rest := s.sinks[i].items, InFlight(s, loc, i) + Queued(s, i);
    assert items + InFlight(s, loc, i) + Queued(s, i) == items + rest;
    FlatConcat(items, rest);
    if Partial(s, loc, i) != [] {
      assert rest[0] == InFlight(s, loc, i)[0];
    }
  }

  // ---- shutdown ----

  /** At most one shutdown per write half, and only once everything accepted was delivered. */
  lemma ShutdownOnce(s: Sys, h: Handle)
    requires Reachable(s) && h in s.sinks
    ensures s.sinks[h].shutdowns <= 1
    ensures s.sinks[h].shutdowns == 1 ==> h !in s.recs
    ensures h in s.accepted
    ensures s.sinks[h].shutdowns == 1 && !s.sinks[h].failed ==> s.sinks[h].data == Flat(s.accepted[h])
  {
    var loc := ReachableInv(s);
    InvStream(s, loc, h);
    assert s.sinks[h].items + [] + [] == s.sinks[h].items;
  }

  lemma ClosedStepSilent(s: Sys, loc: Where, e: Event, h: Handle)
    requires Enabled(s, e) && SubjectOk(s, loc, e) && h in s.sinks && StreamOk(s, loc, h) && s.sinks[h].shutdowns > 0
    ensures h in Apply(s, e).sinks && Apply(s, e).sinks[h] == s.sinks[h]
    ensures h in Apply(s, e).accepted && Apply(s, e).accepted[h] == s.accepted[h]
  {
    if Subject(s, e) != h {
      OthersUnchanged(s, loc, e, h);
    }
  }

  /** Nothing reaches a sink after its shutdown, and nothing more is accepted for its stream. */
  lemma ClosedForever(s: Sys, es: seq<Event>, h: Handle)
    requires Reachable(s) && Exec(s, es).Some? && h in s.sinks && s.sinks[h].shutdowns > 0
    ensures var s' := Exec(s, es).value;
            && h in s'.sinks && s'.sinks[h] == s.sinks[h]
            && h in s.accepted && h in s'.accepted && s'.accepted[h] == s.accepted[h]
  {
    var loc := ReachableInv(s);
    ClosedRun(s, loc, es, h);
  }

  lemma {:induction false} ClosedRun(s: Sys, loc: Where, es: seq<Event>, h: Handle)
    requires Inv(s, loc) && Exec(s, es).Some? && h in s.sinks && s.sinks[h].shutdowns > 0
    ensures var s' := Exec(s, es).value;
            && h in s'.sinks && s'.sinks[h] == s.sinks[h]
            && h in s.accepted && h in s'.accepted && s'.accepted[h] == s.accepted[h]
    decreases |es|
  {
    if es == [] {
    } else {
      InvSubject(s, loc, es[0]);
      InvStream(s, loc, h);
      ClosedStepSilent(s, loc, es[0], h);
      StepKeeps(s, loc, es[0]);
      ClosedRun(Apply(s, es[0]), Moved(s, loc, es[0]), es[1..], h);
    }
  }

  // ---- an ended stream is closed within a bounded number of its loop's own steps ----

  function Work(items: seq<bytes>): nat {
    if items == [] then 0 else |items[0]| + 1 + Work(items[1..])
  }

  /** The steps a loop still owes once no more is queued: its batch, the queue, the last turn and the shutdown. */
  function Budget(s: Sys, t: Task): nat {
    if t !in s.loops then 0
    else
      var l := s.loops[t];
      var q := Queued(s, l.id);
      var toEnd := if q == [] then 2 else Work(q) + 3;
      match l.pc
      case Closing => 1
      case AtLock => toEnd
      case Writing => (if l.off < Work(l.items) then Work(l.items) - l.off else 0) + toEnd
  }

  /** The loop's stream was marked as ended, or has been dropped already. */
  ghost predicate Ending(s: Sys, t: Task) {
    t in s.loops && (s.loops[t].id in s.recs ==> s.recs[s.loops[t].id].ended)
  }

  predicate Writes(e: Event, id: Id) {
    e.Write? && e.id == id
  }

  function Turns(es: seq<Event>, t: Task): nat {
    if es == [] then 0 else (if OfLoop(es[0], t) then 1 else 0) + Turns(es[1..], t)
  }

  /** The loop waits for the callback to read: its item is not finished and the pipe is full. */
  ghost predicate Waits(s: Sys, t: Task) {
    && Busy(s, t) && s.loops[t].off < |s.loops[t].items[0]|
    && Unread(s, s.loops[t].w) >= PIPE_CAPACITY
  }

  /** A step a loop takes of itself; a failure needs the callback to have dropped its end. */
  predicate Proceeds(e: Event, t: Task) {
    OfLoop(e, t) && !e.Fail?
  }

  ghost predicate CanProceed(s: Sys, t: Task) {
    exists e :: Enabled(s, e) && Proceeds(e, t)
  }

  /** A running loop can take a step exactly if the pipe is not full. */
  lemma LoopProceedsIff(s: Sys, loc: Where, t: Task)
    requires Inv(s, loc) && t in s.loops
    ensures CanProceed(s, t) <==>
              !(Busy(s, t) && s.loops[t].off < |s.loops[t].items[0]| && Unread(s, s.loops[t].w) >= 8192)
    ensures CanProceed(s, t) <==> !Waits(s, t)
    ensures Waits(s, t) ==> Enabled(s, Drain(s.loops[t].w, 1))
  {
    if !Waits(s, t) {
      var e := LoopCanStep(s, loc, t);
    }
  }

  lemma LoopCanStep(s: Sys, loc: Where, t: Task) returns (e: Event)
    requires Inv(s, loc) && t in s.loops && !Waits(s, t)
    ensures Enabled(s, e) && Proceeds(e, t)
  {
    assert LoopOk(s, loc, t);
    var l := s.loops[t];
    InvStream(s, loc, l.w);
    match l.pc
    case AtLock => e := Lock(t);
    case Closing => e := ShutLoop(t);
    case Writing => e := if l.off == |l.items[0]| then ItemDone(t) else Push(t, 1);
  }

  /** No pipe ever holds more than 8192 bytes. */
  lemma {:induction false} PipeBounded(s: Sys, es: seq<Event>)
    requires Exec(s, es).Some? && forall h :: Unread(s, h) <= 8192
    ensures forall h :: Unread(Exec(s, es).value, h) <= 8192
    decreases |es|
  {
    if es == [] {
    } else {
      var s1 := Apply(s, es[0]);
      forall h ensures Unread(s1, h) <= 8192 {
        UnreadStep(s, es[0], h);
      }
      PipeBounded(s1, es[1..]);
    }
  }

  lemma UnreadStep(s: Sys, e: Event, h: Handle)
    requires Enabled(s, e) && Unread(s, h) <= PIPE_CAPACITY
    ensures Unread(Apply(s, e), h) <= PIPE_CAPACITY
  {
    match e
    case Insert(_) =>
    case Write(_, _) =>
    case Remove(_) =>
    case Lock(_) =>
    case Push(_, _) =>
    case ItemDone(_) =>
    case Fail(_) =>
    case ShutLoop(_) =>
    case ShutCloser(_) =>
    case Drain(_, _) =>
  }

  /** Each of its steps uses up part of the budget; other events, new writes aside, leave it alone. */
  ghost predicate UsesBudget(s: Sys, e: Event, t: Task)
    requires t in s.loops && Enabled(s, e)
  {
    var s', l := Apply(s, e), s.loops[t];
    && Budget(s', t) + (if OfLoop(e, t) then 1 else 0) <= Budget(s, t)
    && (t in s'.loops ==> Ending(s', t) && s'.loops[t].id == l.id && s'.loops[t].w == l.w)
    && (t !in s'.loops ==> l.w in s'.sinks && s'.sinks[l.w].shutdowns == 1)
  }

  lemma EndingOwnStep(s: Sys, loc: Where, e: Event, t: Task)
    requires t in s.loops && Ending(s, t) && Enabled(s, e) && OfLoop(e, t)
    requires s.loops[t].w in s.sinks && loc.Keys == s.sinks.Keys
    requires loc[s.loops[t].w] == InLoop(t) && StreamOk(s, loc, s.loops[t].w)
    ensures UsesBudget(s, e, t)
  {
    match e
    case Lock(_) =>
    case Push(_, _) =>
    case ItemDone(_) =>
    case Fail(_) =>
    case ShutLoop(_) =>
  }

  lemma EndingStep(s: Sys, loc: Where, e: Event, t: Task)
    requires t in s.loops && Ending(s, t) && Enabled(s, e) && !Writes(e, s.loops[t].id)
    requires SubjectOk(s, loc, e) && s.loops[t].w in s.sinks
    requires loc[s.loops[t].w] == InLoop(t) && StreamOk(s, loc, s.loops[t].w)
    ensures UsesBudget(s, e, t)
  {
    var w := s.loops[t].w;
    if OfLoop(e, t) {
      EndingOwnStep(s, loc, e, t);
    } else if Subject(s, e) != w {
      OthersUnchanged(s, loc, e, w);
    } else {
      assert e.Remove? || e.Drain?;
    }
  }

  lemma {:induction false} EndingRun(s: Sys, loc: Where, es: seq<Event>, t: Task)
    requires Inv(s, loc) && Ending(s, t) && Exec(s, es).Some?
    requires forall e :: e in es ==> !Writes(e, s.loops[t].id)
    ensures var s' := Exec(s, es).value;
            && Turns(es, t) + Budget(s', t) <= Budget(s, t)
            && (t in s'.loops ==> Budget(s', t) > 0)
            && (t !in s'.loops ==> s.loops[t].w in s'.sinks && s'.sinks[s.loops[t].w].shutdowns == 1)
    decreases |es|
  {
    var l := s.loops[t];
    assert LoopOk(s, loc, t);
    InvStream(s, loc, l.w);
    if es == [] {
    } else {
      var s1, loc1 := Apply(s, es[0]), Moved(s, loc, es[0]);
      assert es[0] in es;
      InvSubject(s, loc, es[0]);
      EndingStep(s, loc, es[0], t);
      StepKeeps(s, loc, es[0]);
      if t in s1.loops {
        EndingRun(s1, loc1, es[1..], t);
      } else {
        NoRespawn(s, es[0], t);
        ClosedRun(s1, loc1, es[1..], l.w);
        NeverRespawned(s1, es[1..], t);
      }
    }
  }

  /**
   Once a stream is ended and nothing more is written to it, its loop takes at most
   `Budget` further steps in any run; it has taken all it can only when it is gone, and then
   it has shut the write half down. Until then it can take a step unless the pipe is full.
   */
  lemma EndingIsBounded(s: Sys, es: seq<Event>, t: Task)
    requires Reachable(s) && Ending(s, t) && Exec(s, es).Some?
    requires forall e :: e in es ==> !Writes(e, s.loops[t].id)
    ensures var s', w := Exec(s, es).value, s.loops[t].w;
            && Turns(es, t) <= Budget(s, t)
            && (t in s'.loops ==>
                  && Turns(es, t) < Budget(s, t)
                  && (Waits(s', t) || CanProceed(s', t)))
            && (t !in s'.loops ==> w in s'.sinks && s'.sinks[w].shutdowns == 1)
  {
    var loc := ReachableInv(s);
    EndingRun(s, loc, es, t);
    var loc' := RunKeeps(s, loc, es);
    if t in Exec(s, es).value.loops {
      LoopProceedsIff(Exec(s, es).value, loc', t);
    }
  }

  lemma NoRespawn(s: Sys, e: Event, t: Task)
    requires t < s.next && Enabled(s, e)
    ensures t < Apply(s, e).next && (t !in s.loops ==> t !in Apply(s, e).loops)
  {}

  /** Task numbers are never used again. */
  lemma {:induction false} NeverRespawned(s: Sys, es: seq<Event>, t: Task)
    requires t < s.next && t !in s.loops && Exec(s, es).Some?
    ensures t !in Exec(s, es).value.loops && Turns(es, t) == 0
    decreases |es|
  {
    if es == [] {
    } else {
      NoRespawn(s, es[0], t);
      NeverRespawned(Apply(s, es[0]), es[1..], t);
    }
  }
}
