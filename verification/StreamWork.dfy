/**
 The work the stream engine has left: events from outside add a bounded amount, and every
 step of a spawned task uses some up, so tasks left to themselves come to rest.
 */
module StreamWork {
  import opened Common
  import opened Streams
  import opened StreamEngine

  ghost function Sum(m: map<Task, nat>): nat
    decreases |m|
  {
    if m == map[] then 0
    else
      var t :| t in m;
      assert m.Keys == (m - {t}).Keys + {t};
      m[t] + Sum(m - {t})
  }

  lemma {:induction false} SumWithout(m: map<Task, nat>, t: Task)
    requires t in m
    ensures Sum(m) == m[t] + Sum(m - {t})
    decreases |m|
  {
    var u :| u in m && Sum(m) == m[u] + Sum(m - {u});
    if u == t {
    } else {
      assert m.Keys == (m - {u}).Keys + {u};
      assert m.Keys == (m - {t}).Keys + {t};
      SumWithout(m - {u}, t);
      SumWithout(m - {t}, u);
      assert m - {u} - {t} == m - {t} - {u};
    }
  }

  /** What each loop still owes. */
  ghost function Owed(s: Sys): map<Task, nat> {
    map t | t in s.loops :: Budget(s, t)
  }

  /** What is left to do: every step of a loop, every shutdown of a remover, and every byte to be read. */
  ghost function TotalWork(s: Sys): nat {
    2 * Sum(Owed(s)) + |s.closers| + Sum(s.unread)
  }

  /** What an event adds to the work at most. */
  function Adds(e: Event): nat {
    match e
    case Write(_, buf) => 2 * |buf| + 8
    case Remove(_) => 1
    case _ => 0
  }

  /** The step uses work up: one of a spawned task, or a read of the callback. */
  predicate OfTask(e: Event) {
    !OfTable(e)
  }

  /** Only the loop of the event's subject comes, goes, or owes something else. */
  lemma OtherBudgets(s: Sys, loc: Where, e: Event, t: Task)
    requires Inv(s, loc) && Enabled(s, e) && !e.Insert?
    requires t in s.loops && s.loops[t].id != Subject(s, e)
    ensures t in Apply(s, e).loops && Budget(Apply(s, e), t) == Budget(s, t)
  {
    assert LoopOk(s, loc, t);
    InvSubject(s, loc, e);
    OthersUnchanged(s, loc, e, s.loops[t].w);
  }

  function At(m: map<Task, nat>, t: Task): nat {
    if t in m then m[t] else 0
  }

  lemma SumStep(m: map<Task, nat>, m': map<Task, nat>, t: Task)
    requires m - {t} == m' - {t}
    ensures Sum(m') + At(m, t) == Sum(m) + At(m', t)
  {
    if t in m {
      SumWithout(m, t);
    } else {
      assert m - {t} == m;
    }
    if t in m' {
      SumWithout(m', t);
    } else {
      assert m' - {t} == m';
    }
  }

  /** Task `t` is the only one an event can change. */
  ghost predicate OnlyTask(s: Sys, e: Event, t: Task)
    requires Enabled(s, e)
  {
    && (forall u :: u in s.loops && s.loops[u].id == Subject(s, e) ==> u == t)
    && (forall u :: u in Apply(s, e).loops && u !in s.loops ==> u == t)
  }

  lemma SameOwed(s: Sys, s': Sys, t: Task)
    requires forall u :: u != t ==> (u in s.loops <==> u in s'.loops)
    requires forall u :: u != t && u in s.loops ==> Budget(s', u) == Budget(s, u)
    ensures Owed(s') - {t} == Owed(s) - {t}
  {}

  lemma OthersOwe(s: Sys, loc: Where, e: Event, t: Task)
    requires Inv(s, loc) && Enabled(s, e) && !e.Insert? && OnlyTask(s, e, t)
    ensures Owed(Apply(s, e)) - {t} == Owed(s) - {t}
  {
    var s' := Apply(s, e);
    forall u | u in s.loops && u != t
      ensures u in s'.loops && Budget(s', u) == Budget(s, u)
    {
      OtherBudgets(s, loc, e, u);
    }
    SameOwed(s, s', t);
  }

  lemma OneLoopOf(s: Sys, loc: Where, t: Task, u: Task)
    requires Inv(s, loc) && t in s.loops && u in s.loops && s.loops[t].id == s.loops[u].id
    ensures t == u && loc[s.loops[t].id] == InLoop(t)
  {
    assert LoopOk(s, loc, t) && LoopOk(s, loc, u);
    InvStream(s, loc, s.loops[t].w);
    InvStream(s, loc, s.loops[u].w);
  }

  /** Each step of a loop uses up part of its budget. */
  lemma OwnBudget(s: Sys, e: Event, t: Task)
    requires t in s.loops && Enabled(s, e) && OfLoop(e, t) && LoopFits(s, s.loops[t], s.loops[t].id)
    ensures Budget(Apply(s, e), t) + (if e.Push? then e.k else 1) <= Budget(s, t)
  {
    match e
    case Lock(_) =>
    case Push(_, _) =>
    case ItemDone(_) =>
    case Fail(_) =>
    case ShutLoop(_) =>
  }

  lemma LoopWork(s: Sys, loc: Where, e: Event, t: Task)
    requires Inv(s, loc) && t in s.loops && Enabled(s, e) && OfLoop(e, t)
    ensures TotalWork(Apply(s, e)) + 1 <= TotalWork(s)
  {
    assert LoopOk(s, loc, t);
    InvStream(s, loc, s.loops[t].w);
    forall u | u in s.loops && s.loops[u].id == s.loops[t].id ensures u == t {
      OneLoopOf(s, loc, t, u);
    }
    OwnBudget(s, e, t);
    OthersOwe(s, loc, e, t);
    SumStep(Owed(s), Owed(Apply(s, e)), t);
    UnreadAfter(s, e, t);
  }

  lemma UnreadAfter(s: Sys, e: Event, t: Task)
    requires t in s.loops && Enabled(s, e) && OfLoop(e, t)
    ensures Sum(Apply(s, e).unread) == Sum(s.unread) + (if e.Push? then e.k else 0)
    ensures Apply(s, e).closers == s.closers
  {
    if e.Push? {
      SumSet(s.unread, s.loops[t].w, Unread(s, s.loops[t].w) + e.k);
    }
  }

  lemma SumSet(m: map<Task, nat>, t: Task, n: nat)
    ensures Sum(m[t := n]) + At(m, t) == Sum(m) + n
  {
    assert m[t := n] - {t} == m - {t};
    SumStep(m, m[t := n], t);
  }

  lemma {:induction false} WorkSnoc(items: seq<bytes>, item: bytes)
    ensures Work(items + [item]) == Work(items) + |item| + 1
  {
    if items == [] {
      assert Work([item]) == |item| + 1 + Work([]);
    } else {
      assert (items + [item])[1..] == items[1..] + [item];
      WorkSnoc(items[1..], item);
    }
  }

  lemma WriteToResting(s: Sys, loc: Where, id: Id, buf: bytes)
    requires Inv(s, loc) && id in s.recs && s.recs[id].write.Some?
    ensures TotalWork(Apply(s, Write(id, buf))) <= TotalWork(s) + 2 * |buf| + 8
  {
    var e, t := Write(id, buf), s.next;
    InvStream(s, loc, id);
    forall u | u in s.loops ensures s.loops[u].id != id && u != t {
      OneLoopOf(s, loc, u, u);
      assert LoopOk(s, loc, u);
    }
    OthersOwe(s, loc, e, t);
    SumStep(Owed(s), Owed(Apply(s, e)), t);
    WorkSnoc([], buf);
    assert [] + [buf] == [buf];
  }

  lemma WriteToBusy(s: Sys, loc: Where, id: Id, buf: bytes)
    requires Inv(s, loc) && id in s.recs && s.recs[id].write == None
    ensures TotalWork(Apply(s, Write(id, buf))) <= TotalWork(s) + 2 * |buf| + 8
  {
    var e := Write(id, buf);
    InvStream(s, loc, id);
    var t := loc[id].t;
    forall u | u in s.loops && s.loops[u].id == id ensures u == t {
      OneLoopOf(s, loc, u, u);
    }
    OthersOwe(s, loc, e, t);
    SumStep(Owed(s), Owed(Apply(s, e)), t);
    WorkSnoc(s.recs[id].q, buf);
  }

  lemma SameWork(s: Sys, s': Sys)
    requires s'.loops.Keys == s.loops.Keys && s'.unread == s.unread
    requires forall u :: u in s.loops ==> Budget(s', u) == Budget(s, u)
    ensures TotalWork(s') + |s.closers| == TotalWork(s) + |s'.closers|
  {
    assert Owed(s') == Owed(s);
  }

  lemma WriteWork(s: Sys, loc: Where, id: Id, buf: bytes)
    requires Inv(s, loc)
    ensures TotalWork(Apply(s, Write(id, buf))) <= TotalWork(s) + 2 * |buf| + 8
  {
    if id !in s.recs {
      SameWork(s, Apply(s, Write(id, buf)));
    } else if s.recs[id].write.Some? {
      WriteToResting(s, loc, id, buf);
    } else {
      WriteToBusy(s, loc, id, buf);
    }
  }

  lemma RemoveBudget(s: Sys, loc: Where, id: Id, u: Task)
    requires Inv(s, loc) && u in s.loops
    ensures Budget(Apply(s, Remove(id)), u) == Budget(s, u)
  {
    if s.loops[u].id == id {
      OneLoopOf(s, loc, u, u);
      assert LoopOk(s, loc, u);
      InvStream(s, loc, id);
    } else {
      OtherBudgets(s, loc, Remove(id), u);
    }
  }

  lemma RemoveWork(s: Sys, loc: Where, id: Id)
    requires Inv(s, loc)
    ensures TotalWork(Apply(s, Remove(id))) <= TotalWork(s) + 1
  {
    var s' := Apply(s, Remove(id));
    forall u | u in s.loops ensures Budget(s', u) == Budget(s, u) {
      RemoveBudget(s, loc, id, u);
    }
    OneMoreCloser(s, id);
    SameWork(s, s');
  }

  lemma OneMoreCloser(s: Sys, id: Id)
    ensures |Apply(s, Remove(id)).closers| <= |s.closers| + 1
    ensures Apply(s, Remove(id)).loops == s.loops && Apply(s, Remove(id)).unread == s.unread
  {
    var taken := Removed(s.recs, id).1;
    if taken.Some? {
      GrowsByOne(s.closers.Keys, s.closers[s.next := taken.value].Keys, s.next);
      CountKeys(s.closers);
      CountKeys(s.closers[s.next := taken.value]);
    }
  }

  lemma CountKeys(m: map<Task, Handle>)
    ensures |m| == |m.Keys|
  {}

  lemma GrowsByOne(a: set<Task>, b: set<Task>, t: Task)
    requires a <= b <= a + {t}
    ensures |b| <= |a| + 1
  {
    if t !in a && t in b {
      assert b == a + {t};
    } else {
      assert b == a;
    }
  }

  lemma CloserWork(s: Sys, t: Task)
    requires Enabled(s, ShutCloser(t))
    ensures TotalWork(Apply(s, ShutCloser(t))) + 1 == TotalWork(s)
  {
    var s' := Apply(s, ShutCloser(t));
    assert Owed(s') == Owed(s);
    assert s.closers.Keys == s'.closers.Keys + {t};
    assert |s.closers.Keys| == |s'.closers.Keys| + 1;
  }

  lemma DrainEffect(s: Sys, h: Handle, k: nat)
    requires Enabled(s, Drain(h, k))
    ensures Apply(s, Drain(h, k)) == s.(unread := s.unread[h := Unread(s, h) - k])
  {}

  lemma ReadWork(s: Sys, s': Sys, before: nat, after: nat, k: nat)
    requires Owed(s') == Owed(s) && s'.closers == s.closers
    requires Sum(s.unread) == before && Sum(s'.unread) == after && after + k == before
    ensures TotalWork(s') + k == TotalWork(s)
  {}

  lemma DrainWork(s: Sys, h: Handle, k: nat)
    requires Enabled(s, Drain(h, k))
    ensures TotalWork(Apply(s, Drain(h, k))) + k == TotalWork(s)
  {
    var s' := s.(unread := s.unread[h := Unread(s, h) - k]);
    DrainEffect(s, h, k);
    SameLoops(s, s');
    SumSet(s.unread, h, Unread(s, h) - k);
    ReadWork(s, s', Sum(s.unread), Sum(s'.unread), k);
  }

  lemma SameLoops(s: Sys, s': Sys)
    requires s'.loops == s.loops && s'.recs == s.recs
    ensures Owed(s') == Owed(s)
  {}

  lemma InsertWork(s: Sys, loc: Where, id: Id)
    requires Inv(s, loc) && Enabled(s, Insert(id))
    ensures TotalWork(Apply(s, Insert(id))) == TotalWork(s)
  {
    var s' := Apply(s, Insert(id));
    forall u | u in s.loops ensures Budget(s', u) == Budget(s, u) {
      OneLoopOf(s, loc, u, u);
    }
    SameWork(s, s');
  }

  /** Registering adds no work, other events from outside a stated amount, and every other step uses some up. */
  lemma StepWork(s: Sys, loc: Where, e: Event)
    requires Inv(s, loc) && Enabled(s, e)
    ensures TotalWork(Apply(s, e)) + (if OfTask(e) then 1 else 0) <= TotalWork(s) + Adds(e)
  {
    match e
    case Insert(id) => InsertWork(s, loc, id);
    case Write(id, buf) => WriteWork(s, loc, id, buf);
    case Remove(id) => RemoveWork(s, loc, id);
    case ShutCloser(t) => CloserWork(s, t);
    case Drain(h, k) => DrainWork(s, h, k);
    case Lock(t) => LoopWork(s, loc, e, t);
    case Push(t, _) => LoopWork(s, loc, e, t);
    case ItemDone(t) => LoopWork(s, loc, e, t);
    case Fail(t) => LoopWork(s, loc, e, t);
    case ShutLoop(t) => LoopWork(s, loc, e, t);
  }

  lemma NoWork()
    ensures TotalWork(EMPTY) == 0
  {
    assert Owed(EMPTY) == map[];
  }
}
