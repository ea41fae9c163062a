/**
 What a stream keeps when writes to its pipe fail: the batch at hand is lost, and what
 arrives is still some of what was accepted, in order and without repetition.
 */
module StreamFailures {
  import opened Common
  import opened Streams
  import opened StreamEngine

  /** `a` is `b` with some items left out. */
  ghost predicate Sub(a: seq<bytes>, b: seq<bytes>)
    decreases |b|
  {
    if a == [] then true
    else if b == [] then false
    else
      var b' := b[..|b| - 1];
      (a[|a| - 1] == b[|b| - 1] && Sub(a[..|a| - 1], b')) || Sub(a, b')
  }

  lemma SubSnoc(a: seq<bytes>, b: seq<bytes>, x: bytes)
    requires Sub(a, b)
    ensures Sub(a, b + [x]) && Sub(a + [x], b + [x])
  {
    assert (b + [x])[..|b|] == b && (a + [x])[..|a|] == a;
  }

  lemma {:induction false} SubFront(a: seq<bytes>, b: seq<bytes>)
    requires Sub(a, b) && a != []
    ensures Sub(a[..|a| - 1], b)
    decreases |b|
  {
    var a', b' := a[..|a| - 1], b[..|b| - 1];
    assert b == b' + [b[|b| - 1]];
    if a[|a| - 1] == b[|b| - 1] && Sub(a', b') {
      SubSnoc(a', b', b[|b| - 1]);
    } else {
      SubFront(a, b');
      SubSnoc(a', b', b[|b| - 1]);
    }
  }

  /** Leaving out a part in the middle. */
  lemma {:induction false} SubWithout(x: seq<bytes>, f: seq<bytes>, q: seq<bytes>, b: seq<bytes>)
    requires Sub(x + f + q, b)
    ensures Sub(x + q, b)
    decreases |f| + |q| + |b|
  {
    var a := x + f + q;
    if q == [] {
      assert a == x + f && x + q == x;
      if f == [] {
        assert a == x;
      } else {
        SubFront(a, b);
        var f' := f[..|f| - 1];
        assert a[..|a| - 1] == x + f' + q;
        SubWithout(x, f', q, b);
      }
    } else {
      var q', b' := q[..|q| - 1], b[..|b| - 1];
      assert b == b' + [b[|b| - 1]];
      assert a[..|a| - 1] == x + f + q' && a[|a| - 1] == q[|q| - 1];
      assert (x + q)[..|x + q| - 1] == x + q';
      if a[|a| - 1] == b[|b| - 1] && Sub(a[..|a| - 1], b') {
        SubWithout(x, f, q', b');
      } else {
        SubWithout(x, f, q, b');
      }
    }
  }

  /** What has arrived for a stream or may still: finished items, the rest of the batch at hand, and the queue. */
  ghost function Whole(s: Sys, loc: Where, i: Id): seq<bytes>
    requires i in s.sinks
  {
    s.sinks[i].items + InFlight(s, loc, i) + Queued(s, i)
  }

  /** A failed write loses the batch at hand, the item being written and all behind it, and nothing else. */
  lemma FailLoses(s: Sys, loc: Where, t: Task)
    requires Inv(s, loc) && Enabled(s, Fail(t))
    ensures var i, s', loc' := s.loops[t].w, Apply(s, Fail(t)), Moved(s, loc, Fail(t));
            && s'.sinks[i].failed && InFlight(s, loc, i) != []
            && Whole(s', loc', i) == s.sinks[i].items + Queued(s, i)
            && s'.accepted == s.accepted
            && t in s'.loops && s'.loops[t].pc.AtLock?
  {
    assert LoopOk(s, loc, t);
    InvStream(s, loc, s.loops[t].w);
    var i := s.loops[t].w;
    assert s.sinks[i].items + [] + Queued(s, i) == s.sinks[i].items + Queued(s, i);
  }

  /** No other event loses anything, and only an accepted write adds something. */
  lemma OthersKeepWhole(s: Sys, loc: Where, e: Event)
    requires Inv(s, loc) && Enabled(s, e) && !e.Fail? && Subject(s, e) in s.sinks
    ensures var i, s', loc' := Subject(s, e), Apply(s, e), Moved(s, loc, e);
            var more := if e.Write? && i in s.recs then [e.buf] else [];
            && i in s'.sinks && Whole(s', loc', i) == Whole(s, loc, i) + more
            && i in s'.accepted && s'.accepted[i] == s.accepted[i] + more
  {
    var i := Subject(s, e);
    InvStream(s, loc, i);
    if e.Write? {
      WriteWhole(s, loc, i, e.buf);
    } else {
      if e.Lock? {
        LockWhole(s, loc, e.t);
      } else if e.ItemDone? {
        ItemWhole(s, loc, e.t);
      } else {
        InvSubject(s, loc, e);
        QuietWhole(s, loc, e);
      }
      assert Whole(s, loc, i) + [] == Whole(s, loc, i) && s.accepted[i] + [] == s.accepted[i];
    }
  }

  /** Bytes, removals, shutdowns and reads leave the items alone. */
  lemma QuietWhole(s: Sys, loc: Where, e: Event)
    requires Enabled(s, e) && SubjectOk(s, loc, e) && Subject(s, e) in s.sinks
    requires e.Push? || e.Remove? || e.ShutLoop? || e.ShutCloser? || e.Drain?
    ensures var i, s', loc' := Subject(s, e), Apply(s, e), Moved(s, loc, e);
            i in s'.sinks && Whole(s', loc', i) == Whole(s, loc, i) && s'.accepted == s.accepted
  {
    if e.Remove? {
      RemoveWhole(s, loc, e.id);
    } else if e.Push? {
      PushWhole(s, loc, e.t, e.k);
    } else if e.ShutLoop? {
      ShutLoopWhole(s, loc, e.t);
    }
  }

  lemma RemoveWhole(s: Sys, loc: Where, i: Id)
    requires i in s.sinks && i in loc && StreamOk(s, loc, i)
    ensures var s', loc' := Apply(s, Remove(i)), Moved(s, loc, Remove(i));
            i in s'.sinks && Whole(s', loc', i) == Whole(s, loc, i) && s'.accepted == s.accepted
  {}

  lemma PushWhole(s: Sys, loc: Where, t: Task, k: nat)
    requires Enabled(s, Push(t, k)) && LoopOk(s, loc, t)
    ensures var i, s', loc' := s.loops[t].w, Apply(s, Push(t, k)), Moved(s, loc, Push(t, k));
            i in s'.sinks && Whole(s', loc', i) == Whole(s, loc, i) && s'.accepted == s.accepted
  {}

  lemma ShutLoopWhole(s: Sys, loc: Where, t: Task)
    requires Enabled(s, ShutLoop(t)) && LoopOk(s, loc, t) && LoopFits(s, s.loops[t], s.loops[t].w)
    ensures var i, s', loc' := s.loops[t].w, Apply(s, ShutLoop(t)), Moved(s, loc, ShutLoop(t));
            i in s'.sinks && Whole(s', loc', i) == Whole(s, loc, i) && s'.accepted == s.accepted
  {}

  lemma WriteWhole(s: Sys, loc: Where, i: Id, buf: bytes)
    requires i in s.sinks && i in s.accepted && i in loc && StreamOk(s, loc, i)
    ensures var s', loc' := Apply(s, Write(i, buf)), Moved(s, loc, Write(i, buf));
            var more := if i in s.recs then [buf] else [];
            && i in s'.sinks && Whole(s', loc', i) == Whole(s, loc, i) + more
            && i in s'.accepted && s'.accepted[i] == s.accepted[i] + more
  {
    if i in s.recs {
      var sent := s.sinks[i].items + InFlight(s, loc, i);
      assert sent + (Queued(s, i) + [buf]) == sent + Queued(s, i) + [buf];
    } else {
      assert Whole(s, loc, i) + [] == Whole(s, loc, i) && s.accepted[i] + [] == s.accepted[i];
    }
  }

  lemma LockWhole(s: Sys, loc: Where, t: Task)
    requires Inv(s, loc) && Enabled(s, Lock(t))
    ensures var i, s', loc' := s.loops[t].w, Apply(s, Lock(t)), Moved(s, loc, Lock(t));
            && i in s.sinks && i in s'.sinks && Whole(s', loc', i) == Whole(s, loc, i)
            && s'.accepted == s.accepted
  {
    assert LoopOk(s, loc, t);
    var i := s.loops[t].w;
    InvStream(s, loc, i);
    var items := s.sinks[i].items;
    assert items + InFlight(s, loc, i) + Queued(s, i) == items + Queued(s, i) + [];
  }

  lemma ItemWhole(s: Sys, loc: Where, t: Task)
    requires Inv(s, loc) && Enabled(s, ItemDone(t))
    ensures var i, s', loc' := s.loops[t].w, Apply(s, ItemDone(t)), Moved(s, loc, ItemDone(t));
            && i in s.sinks && i in s'.sinks && Whole(s', loc', i) == Whole(s, loc, i)
            && s'.accepted == s.accepted
  {
    assert LoopOk(s, loc, t);
    var l := s.loops[t];
    InvStream(s, loc, l.w);
    assert s.sinks[l.w].items + l.items == s.sinks[l.w].items + [l.items[0]] + l.items[1..];
  }

  ghost predicate AllSub(s: Sys, loc: Where)
    requires Inv(s, loc)
  {
    forall i :: i in s.sinks ==> Sub(Whole(s, loc, i), s.accepted[i])
  }

  lemma SubjectSub(s: Sys, loc: Where, e: Event)
    requires Inv(s, loc) && AllSub(s, loc) && Enabled(s, e) && Subject(s, e) in s.sinks
    ensures var i, s', loc' := Subject(s, e), Apply(s, e), Moved(s, loc, e);
            i in s'.sinks && i in s'.accepted && Sub(Whole(s', loc', i), s'.accepted[i])
  {
    var i := Subject(s, e);
    assert Sub(Whole(s, loc, i), s.accepted[i]);
    if e.Fail? {
      FailLoses(s, loc, e.t);
      SubWithout(s.sinks[i].items, InFlight(s, loc, i), Queued(s, i), s.accepted[i]);
    } else {
      OthersKeepWhole(s, loc, e);
      if e.Write? && i in s.recs {
        SubSnoc(Whole(s, loc, i), s.accepted[i], e.buf);
      } else {
        assert Whole(s, loc, i) + [] == Whole(s, loc, i) && s.accepted[i] + [] == s.accepted[i];
      }
    }
  }

  lemma StepSub(s: Sys, loc: Where, e: Event)
    requires Inv(s, loc) && AllSub(s, loc) && Enabled(s, e)
    ensures Inv(Apply(s, e), Moved(s, loc, e)) && AllSub(Apply(s, e), Moved(s, loc, e))
  {
    var s', loc' := Apply(s, e), Moved(s, loc, e);
    StepKeeps(s, loc, e);
    InvSubject(s, loc, e);
    forall i | i in s'.sinks ensures Sub(Whole(s', loc', i), s'.accepted[i]) {
      if i !in s.sinks {
        NewIsEmpty(s, loc, e, i);
      } else if i == Subject(s, e) {
        SubjectSub(s, loc, e);
      } else {
        InvStream(s, loc, i);
        OthersUnchanged(s, loc, e, i);
        assert Sub(Whole(s, loc, i), s.accepted[i]);
        UnchangedWhole(s, s', loc, loc', i);
      }
    }
  }

  lemma UnchangedWhole(s: Sys, s': Sys, loc: Where, loc': Where, i: Id)
    requires i in s.sinks && i in s.accepted && i in loc && StreamOk(s, loc, i) && Unchanged(s, s', loc, loc', i)
    ensures Whole(s', loc', i) == Whole(s, loc, i)
  {}

  lemma NewIsEmpty(s: Sys, loc: Where, e: Event, i: Id)
    requires Inv(s, loc) && Enabled(s, e) && i !in s.sinks && i in Apply(s, e).sinks
    ensures Whole(Apply(s, e), Moved(s, loc, e), i) == []
  {
    InvSubject(s, loc, e);
    if !e.Insert? {
      SinksKeep(s, loc, e);
    }
  }

  lemma {:induction false} RunSub(s: Sys, loc: Where, es: seq<Event>) returns (loc': Where)
    requires Inv(s, loc) && AllSub(s, loc) && Exec(s, es).Some?
    ensures Inv(Exec(s, es).value, loc') && AllSub(Exec(s, es).value, loc')
    decreases |es|
  {
    if es == [] {
      loc' := loc;
    } else {
      StepSub(s, loc, es[0]);
      loc' := RunSub(Apply(s, es[0]), Moved(s, loc, es[0]), es[1..]);
    }
  }

  lemma SubConcat(a: seq<bytes>, more: seq<bytes>, b: seq<bytes>)
    requires Sub(a + more, b)
    ensures Sub(a, b)
  {
    assert a + more + [] == a + more && a + [] == a;
    SubWithout(a, more, [], b);
  }

  /**
   Whatever fails, in every reachable state the items finished for a stream are some of those
   accepted for it, in order and none twice.
   */
  lemma ItemsInOrder(s: Sys, i: Id)
    requires Reachable(s) && i in s.sinks
    ensures i in s.accepted && Sub(s.sinks[i].items, s.accepted[i])
  {
    var es :| Exec(EMPTY, es) == Some(s);
    assert Inv(EMPTY, map[]);
    var loc := RunSub(EMPTY, map[], es);
    Regroup(s.sinks[i].items, InFlight(s, loc, i), Queued(s, i));
    SubConcat(s.sinks[i].items, InFlight(s, loc, i) + Queued(s, i), s.accepted[i]);
  }
}
