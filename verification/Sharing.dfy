/**
 When the serialiser writes its marker, in terms of the object graph alone: some object
 that can be reached is referred to twice, or the value written refers back to itself.
 */
module Sharing {
  import opened Common
  import opened Serializer

  // ---- reachable property slots ----

  /** A property slot, by the object it belongs to and its position, that refers to `to`. */
  predicate RefersTo(g: Graph, from: Ref, i: nat, to: Ref) {
    from in g && i < |g[from]| && g[from][i] == Object(to)
  }

  ghost predicate Linked(g: Graph, a: Ref, b: Ref) {
    exists i :: RefersTo(g, a, i, b)
  }

  ghost predicate IsPath(g: Graph, p: seq<Ref>) {
    p != [] && (|p| > 1 ==> Linked(g, p[|p| - 2], p[|p| - 1]) && IsPath(g, p[..|p| - 1]))
  }

  ghost predicate Reachable(g: Graph, root: Ref, r: Ref) {
    exists p :: IsPath(g, p) && p[0] == root && p[|p| - 1] == r
  }

  /** Two different slots of reachable objects refer to the same object, or one refers to the root. */
  ghost predicate Shared(g: Graph, root: Ref) {
    || (exists a, i :: Reachable(g, root, a) && RefersTo(g, a, i, root))
    || (exists a, i, b, j, t ::
          && Reachable(g, root, a) && RefersTo(g, a, i, t)
          && Reachable(g, root, b) && RefersTo(g, b, j, t)
          && (a, i) != (b, j))
  }

  lemma OneStepFurther(g: Graph, root: Ref, a: Ref, i: nat, b: Ref)
    requires Reachable(g, root, a) && RefersTo(g, a, i, b)
    ensures Reachable(g, root, b)
  {
    var p :| IsPath(g, p) && p[0] == root && p[|p| - 1] == a;
    var q := p + [b];
    assert q[..|q| - 1] == p && Linked(g, a, b);
    assert IsPath(g, q);
  }

  // ---- the objects expanded are the reachable ones ----

  /** Everything the objects `refs` refer to is in `seen`. */
  ghost predicate Covered(g: Graph, refs: seq<Ref>, seen: seq<Ref>) {
    forall r, i, t :: r in refs && RefersTo(g, r, i, t) ==> t in seen
  }

  lemma CoveredGrows(g: Graph, refs: seq<Ref>, seen: seq<Ref>, seen': seq<Ref>)
    requires Covered(g, refs, seen) && seen <= seen'
    ensures Covered(g, refs, seen')
  {
    assert forall r :: r in seen ==> r in seen' by {
      assert seen' == seen + seen'[|seen|..];
    }
  }

  lemma {:induction false} WrittenIsCovered(g: Graph, v: Value, seen: seq<Ref>)
    requires Closed(g) && (v.Object? ==> v.ref in g)
    ensures var (j, seen') := Write(g, v, seen);
            Covered(g, Refs(j), seen') && (v.Object? ==> v.ref in seen')
    decreases |Unseen(g, seen)|, 1, 0
  {
    if v.Primitive? || v.ref in seen {
    } else {
      UnseenShrinks(g, seen, [v.ref]);
      var (items, seen') := WriteItems(g, g[v.ref], seen + [v.ref]);
      WrittenAreCovered(g, g[v.ref], seen + [v.ref]);
      assert (seen + [v.ref])[|seen|] == v.ref && seen'[|seen|] == v.ref;
    }
  }

  lemma {:induction false} WrittenAreCovered(g: Graph, vs: seq<Value>, seen: seq<Ref>)
    requires Closed(g) && Within(g, vs)
    ensures var (items, seen') := WriteItems(g, vs, seen);
            Covered(g, RefsOf(items), seen') && forall i :: 0 <= i < |vs| && vs[i].Object? ==> vs[i].ref in seen'
    decreases |Unseen(g, seen)|, 2, |vs|
  {
    if vs == [] {
    } else {
      var (head, seen1) := Write(g, vs[0], seen);
      var (tail, seen2) := WriteItems(g, vs[1..], seen1);
      WrittenIsCovered(g, vs[0], seen);
      UnseenMonotone(g, seen, seen1);
      WrittenAreCovered(g, vs[1..], seen1);
      CoveredGrows(g, Refs(head), seen1, seen2);
      assert seen2 == seen1 + seen2[|seen1|..];
      forall i | 0 <= i < |vs| && vs[i].Object? ensures vs[i].ref in seen2 {
        assert i > 0 ==> vs[i] == vs[1..][i - 1];
      }
    }
  }

  lemma {:induction false} PathStaysIn(g: Graph, refs: seq<Ref>, p: seq<Ref>)
    requires Covered(g, refs, refs) && IsPath(g, p) && p[0] in refs
    ensures p[|p| - 1] in refs
    decreases |p|
  {
    if |p| == 1 {
    } else {
      PathStaysIn(g, refs, p[..|p| - 1]);
      var i :| RefersTo(g, p[|p| - 2], i, p[|p| - 1]);
    }
  }

  /** What is expanded below a reachable object is reachable. */
  lemma {:induction false} ExpandedIsReachable(g: Graph, root: Ref, v: Value, j: Json)
    requires Fits(g, v, j) && (v.Object? ==> Reachable(g, root, v.ref))
    ensures forall r :: r in Refs(j) ==> Reachable(g, root, r)
    decreases j
  {
    if !j.Expanded? {
    } else {
      forall i | 0 <= i < |g[j.ref]| && g[j.ref][i].Object? ensures Reachable(g, root, g[j.ref][i].ref) {
        OneStepFurther(g, root, j.ref, i, g[j.ref][i].ref);
      }
      ExpandedAreReachable(g, root, g[j.ref], j.items);
    }
  }

  lemma {:induction false} ExpandedAreReachable(g: Graph, root: Ref, vs: seq<Value>, items: Items)
    requires FitItems(g, vs, items)
    requires forall i :: 0 <= i < |vs| && vs[i].Object? ==> Reachable(g, root, vs[i].ref)
    ensures forall r :: r in RefsOf(items) ==> Reachable(g, root, r)
    decreases items
  {
    if items.Nil? {
    } else {
      ExpandedIsReachable(g, root, vs[0], items.head);
      ExpandedAreReachable(g, root, vs[1..], items.tail);
    }
  }

  // ---- every reference is an expansion or a marker ----

  /** `j` is what some traversal makes of the value: the same shape, with markers anywhere. */
  ghost predicate Fits(g: Graph, v: Value, j: Json)
    decreases j
  {
    match j
    case Text(text) => v == Primitive(text)
    case Circular => v.Object?
    case Expanded(ref, items) => v == Object(ref) && ref in g && FitItems(g, g[ref], items)
  }

  ghost predicate FitItems(g: Graph, vs: seq<Value>, items: Items)
    decreases items
  {
    match items
    case Nil => vs == []
    case Cons(head, tail) => vs != [] && Fits(g, vs[0], head) && FitItems(g, vs[1..], tail)
  }

  lemma {:induction false} WrittenFits(g: Graph, v: Value, seen: seq<Ref>)
    requires Closed(g) && (v.Object? ==> v.ref in g)
    ensures Fits(g, v, Write(g, v, seen).0)
    decreases |Unseen(g, seen)|, 1, 0
  {
    if v.Primitive? || v.ref in seen {
    } else {
      UnseenShrinks(g, seen, [v.ref]);
      WrittenFit(g, g[v.ref], seen + [v.ref]);
    }
  }

  lemma {:induction false} WrittenFit(g: Graph, vs: seq<Value>, seen: seq<Ref>)
    requires Closed(g) && Within(g, vs)
    ensures FitItems(g, vs, WriteItems(g, vs, seen).0)
    decreases |Unseen(g, seen)|, 2, |vs|
  {
    if vs == [] {
    } else {
      var seen1 := Write(g, vs[0], seen).1;
      WrittenFits(g, vs[0], seen);
      UnseenMonotone(g, seen, seen1);
      WrittenFit(g, vs[1..], seen1);
    }
  }

  /** The objects markers stand for. */
  ghost function Marks(g: Graph, v: Value, j: Json): multiset<Ref>
    requires Fits(g, v, j)
    decreases j
  {
    match j
    case Text(_) => multiset{}
    case Circular => multiset{v.ref}
    case Expanded(ref, items) => MarksOf(g, g[ref], items)
  }

  ghost function MarksOf(g: Graph, vs: seq<Value>, items: Items): multiset<Ref>
    requires FitItems(g, vs, items)
    decreases items
  {
    match items
    case Nil => multiset{}
    case Cons(head, tail) => Marks(g, vs[0], head) + MarksOf(g, vs[1..], tail)
  }

  lemma {:induction false} MarkerFreeIffNoMarks(g: Graph, v: Value, j: Json)
    requires Fits(g, v, j)
    ensures MarkerFree(j) <==> Marks(g, v, j) == multiset{}
    decreases j
  {
    if j.Expanded? {
      MarkersFreeIffNoMarks(g, g[j.ref], j.items);
    } else if j.Circular? {
      assert v.ref in Marks(g, v, j);
    }
  }

  lemma {:induction false} MarkersFreeIffNoMarks(g: Graph, vs: seq<Value>, items: Items)
    requires FitItems(g, vs, items)
    ensures MarkerFreeItems(items) <==> MarksOf(g, vs, items) == multiset{}
    decreases items
  {
    if items.Nil? {
    } else {
      MarkerFreeIffNoMarks(g, vs[0], items.head);
      MarkersFreeIffNoMarks(g, vs[1..], items.tail);
      var a, b := Marks(g, vs[0], items.head), MarksOf(g, vs[1..], items.tail);
      assert a + b == multiset{} <==> a == multiset{} && b == multiset{} by {
        if a + b == multiset{} {
          assert forall r :: a[r] <= (a + b)[r] && b[r] <= (a + b)[r];
        }
      }
    }
  }

  /** The references among property values. */
  function Targets(vs: seq<Value>): multiset<Ref> {
    if vs == [] then multiset{}
    else (if vs[0].Object? then multiset{vs[0].ref} else multiset{}) + Targets(vs[1..])
  }

  /** The references out of the objects `refs`. */
  ghost function TargetsFrom(g: Graph, refs: seq<Ref>): multiset<Ref> {
    if refs == [] then multiset{}
    else (if refs[0] in g then Targets(g[refs[0]]) else multiset{}) + TargetsFrom(g, refs[1..])
  }

  lemma {:induction false} TargetsFromConcat(g: Graph, a: seq<Ref>, b: seq<Ref>)
    ensures TargetsFrom(g, a + b) == TargetsFrom(g, a) + TargetsFrom(g, b)
  {
    if a == [] {
      assert a + b == b;
    } else {
      assert (a + b)[1..] == a[1..] + b;
      TargetsFromConcat(g, a[1..], b);
    }
  }

  /** The value's own reference and those out of what was expanded are the expansions and the markers. */
  lemma {:induction false} Balance(g: Graph, v: Value, j: Json)
    requires Fits(g, v, j)
    ensures Targets([v]) + TargetsFrom(g, Refs(j)) == multiset(Refs(j)) + Marks(g, v, j)
    decreases j
  {
    assert [v][1..] == [];
    if !j.Expanded? {
    } else {
      var below := RefsOf(j.items);
      BalanceItems(g, g[j.ref], j.items);
      TargetsFromConcat(g, [j.ref], below);
      assert [j.ref][1..] == [];
      assert TargetsFrom(g, [j.ref]) == Targets(g[j.ref]);
      assert multiset([j.ref] + below) == multiset{j.ref} + multiset(below);
      BalanceRoot(multiset{j.ref}, Targets(g[j.ref]), TargetsFrom(g, below), multiset(below),
                  MarksOf(g, g[j.ref], j.items));
    }
  }

  lemma BalanceRoot(r: multiset<Ref>, t: multiset<Ref>, f: multiset<Ref>, b: multiset<Ref>, m: multiset<Ref>)
    requires t + f == b + m
    ensures r + (t + f) == r + b + m
  {}

  lemma BalanceSum(a: multiset<Ref>, b: multiset<Ref>, fa: multiset<Ref>, fb: multiset<Ref>,
                   ra: multiset<Ref>, rb: multiset<Ref>, ma: multiset<Ref>, mb: multiset<Ref>)
    requires a + fa == ra + ma && b + fb == rb + mb
    ensures (a + b) + (fa + fb) == (ra + rb) + (ma + mb)
  {
    assert (a + b) + (fa + fb) == (a + fa) + (b + fb);
    assert (ra + rb) + (ma + mb) == (ra + ma) + (rb + mb);
  }

  lemma {:induction false} BalanceItems(g: Graph, vs: seq<Value>, items: Items)
    requires FitItems(g, vs, items)
    ensures Targets(vs) + TargetsFrom(g, RefsOf(items)) == multiset(RefsOf(items)) + MarksOf(g, vs, items)
    decreases items
  {
    if items.Nil? {
    } else {
      var a, b := Refs(items.head), RefsOf(items.tail);
      Balance(g, vs[0], items.head);
      BalanceItems(g, vs[1..], items.tail);
      TargetsFromConcat(g, a, b);
      assert [vs[0]][1..] == [];
      assert Targets(vs) == Targets([vs[0]]) + Targets(vs[1..]);
      assert multiset(a + b) == multiset(a) + multiset(b);
      BalanceSum(Targets([vs[0]]), Targets(vs[1..]), TargetsFrom(g, a), TargetsFrom(g, b), multiset(a), multiset(b),
                 Marks(g, vs[0], items.head), MarksOf(g, vs[1..], items.tail));
    }
  }

  // ---- counting references is counting slots ----

  lemma {:induction false} TargetsCount(vs: seq<Value>, t: Ref)
    ensures Targets(vs)[t] >= 1 <==> exists i :: 0 <= i < |vs| && vs[i] == Object(t)
    ensures Targets(vs)[t] >= 2 <==> exists i, k :: 0 <= i < k < |vs| && vs[i] == vs[k] == Object(t)
  {
    if vs == [] {
    } else {
      var rest := vs[1..];
      TargetsCount(rest, t);
      assert forall i :: 0 <= i < |rest| ==> rest[i] == vs[i + 1];
      if i, k :| 0 <= i < k < |vs| && vs[i] == vs[k] == Object(t) {
        assert rest[k - 1] == Object(t);
        assert i > 0 ==> rest[i - 1] == Object(t);
      }
      if i :| 0 <= i < |vs| && vs[i] == Object(t) {
        assert i > 0 ==> rest[i - 1] == Object(t);
      }
    }
  }

  /** Two slots of the objects `refs` refer to `t`. */
  ghost predicate TwiceFrom(g: Graph, refs: seq<Ref>, t: Ref) {
    exists a, i, b, k :: a in refs && b in refs && RefersTo(g, a, i, t) && RefersTo(g, b, k, t) && (a, i) != (b, k)
  }

  ghost predicate OnceFrom(g: Graph, refs: seq<Ref>, t: Ref) {
    exists a, i :: a in refs && RefersTo(g, a, i, t)
  }

  lemma SlotsOfOne(g: Graph, a: Ref, t: Ref)
    requires a in g
    ensures Targets(g[a])[t] >= 1 <==> exists i :: RefersTo(g, a, i, t)
    ensures Targets(g[a])[t] >= 2 <==> exists i, k :: RefersTo(g, a, i, t) && RefersTo(g, a, k, t) && i != k
  {
    TargetsCount(g[a], t);
    if i :| 0 <= i < |g[a]| && g[a][i] == Object(t) {
      assert RefersTo(g, a, i, t);
    }
    if i, k :| 0 <= i < k < |g[a]| && g[a][i] == g[a][k] == Object(t) {
      assert RefersTo(g, a, i, t) && RefersTo(g, a, k, t);
    }
    if i: nat, k: nat :| RefersTo(g, a, i, t) && RefersTo(g, a, k, t) && i != k {
      assert if i < k then g[a][i] == g[a][k] == Object(t) else g[a][k] == g[a][i] == Object(t);
    }
  }

  lemma {:induction false} OnceCount(g: Graph, refs: seq<Ref>, t: Ref)
    requires forall r :: r in refs ==> r in g
    ensures TargetsFrom(g, refs)[t] >= 1 <==> OnceFrom(g, refs, t)
  {
    if refs == [] {
    } else {
      OnceCount(g, refs[1..], t);
      SlotsOfOne(g, refs[0], t);
      assert forall r :: r in refs <==> r == refs[0] || r in refs[1..];
    }
  }

  lemma {:induction false} TwiceCount(g: Graph, refs: seq<Ref>, t: Ref)
    requires NoDup(refs) && forall r :: r in refs ==> r in g
    ensures TargetsFrom(g, refs)[t] >= 2 <==> TwiceFrom(g, refs, t)
  {
    if refs == [] {
    } else {
      var a, rest := refs[0], refs[1..];
      assert NoDup(rest) && a !in rest;
      assert forall r :: r in refs <==> r == a || r in rest;
      TwiceCount(g, rest, t);
      OnceCount(g, rest, t);
      SlotsOfOne(g, a, t);
      TwiceSplit(g, refs, t);
    }
  }

  lemma TwiceSplit(g: Graph, refs: seq<Ref>, t: Ref)
    requires refs != [] && refs[0] !in refs[1..]
    ensures TwiceFrom(g, refs, t) <==>
              || TwiceFrom(g, refs[1..], t)
              || ((exists i :: RefersTo(g, refs[0], i, t)) && OnceFrom(g, refs[1..], t))
              || (exists i, k :: RefersTo(g, refs[0], i, t) && RefersTo(g, refs[0], k, t) && i != k)
  {
    var a, rest := refs[0], refs[1..];
    assert forall r :: r in refs <==> r == a || r in rest;
    if exists i :: RefersTo(g, a, i, t) {
      var i :| RefersTo(g, a, i, t);
      if OnceFrom(g, rest, t) {
        var b, k :| b in rest && RefersTo(g, b, k, t);
        assert a in refs && b in refs && (a, i) != (b, k);
      }
    }
  }

  // ---- the theorem ----

  lemma ExpandedSet(g: Graph, root: Ref, r: Ref)
    requires Closed(g) && root in g
    ensures var refs := Refs(Write(g, Object(root), []).0);
            && NoDup(refs) && Covered(g, refs, refs) && (forall x :: x in refs ==> x in g)
            && (r in refs <==> Reachable(g, root, r))
  {
    var (j, seen) := Write(g, Object(root), []);
    SeenIsExpanded(g, Object(root), []);
    assert seen == Refs(j);
    WrittenIsCovered(g, Object(root), []);
    WrittenFits(g, Object(root), []);
    RefsInGraph(g, Object(root), j);
    assert IsPath(g, [root]) && [root][0] == root;
    assert Reachable(g, root, root);
    ExpandedIsReachable(g, root, Object(root), j);
    if Reachable(g, root, r) {
      var p :| IsPath(g, p) && p[0] == root && p[|p| - 1] == r;
      PathStaysIn(g, Refs(j), p);
    }
  }

  lemma {:induction false} RefsInGraph(g: Graph, v: Value, j: Json)
    requires Fits(g, v, j)
    ensures forall r :: r in Refs(j) ==> r in g
    decreases j
  {
    if !j.Expanded? {
    } else {
      RefsOfInGraph(g, g[j.ref], j.items);
    }
  }

  lemma {:induction false} RefsOfInGraph(g: Graph, vs: seq<Value>, items: Items)
    requires FitItems(g, vs, items)
    ensures forall r :: r in RefsOf(items) ==> r in g
    decreases items
  {
    if items.Nil? {
    } else {
      RefsInGraph(g, vs[0], items.head);
      RefsOfInGraph(g, vs[1..], items.tail);
    }
  }

  /** Shared, seen from the objects expanded. */
  lemma SharedAmong(g: Graph, root: Ref, refs: seq<Ref>)
    requires forall r :: r in refs <==> Reachable(g, root, r)
    ensures Shared(g, root) <==> OnceFrom(g, refs, root) || exists t :: TwiceFrom(g, refs, t)
  {
    if a, i :| Reachable(g, root, a) && RefersTo(g, a, i, root) {
      assert a in refs;
    }
    if a, i, b, j, t :| Reachable(g, root, a) && RefersTo(g, a, i, t)
                        && Reachable(g, root, b) && RefersTo(g, b, j, t) && (a, i) != (b, j) {
      assert a in refs && b in refs;
      assert TwiceFrom(g, refs, t);
    }
    if t :| TwiceFrom(g, refs, t) {
      var a, i, b, k :| a in refs && b in refs && RefersTo(g, a, i, t) && RefersTo(g, b, k, t) && (a, i) != (b, k);
      assert Reachable(g, root, a) && Reachable(g, root, b);
    }
    if OnceFrom(g, refs, root) {
      var a, i :| a in refs && RefersTo(g, a, i, root);
      assert Reachable(g, root, a);
    }
  }

  lemma NoDupCounts(refs: seq<Ref>, t: Ref)
    requires NoDup(refs)
    ensures multiset(refs)[t] == if t in refs then 1 else 0
  {
    if refs == [] {
    } else {
      assert refs == [refs[0]] + refs[1..];
      NoDupCounts(refs[1..], t);
    }
  }

  /**
   An object is written without any marker exactly if none of the objects it reaches is
   referred to from two places, and none refers back to it.
   */
  lemma MarkerFreeIffNotShared(g: Graph, root: Ref)
    requires Closed(g) && root in g
    ensures MarkerFree(Write(g, Object(root), []).0) <==> !Shared(g, root)
  {
    var v, j := Object(root), Write(g, Object(root), []).0;
    var refs, out, marks := Refs(j), TargetsFrom(g, Refs(j)), multiset{};
    WrittenFits(g, v, []);
    marks := Marks(g, v, j);
    Balance(g, v, j);
    assert [v][1..] == [];
    assert multiset{root} + out == multiset(refs) + marks;
    MarkerFreeIffNoMarks(g, v, j);
    ExpandedSet(g, root, root);
    forall r ensures r in refs <==> Reachable(g, root, r) {
      ExpandedSet(g, root, r);
    }
    SharedAmong(g, root, refs);
    forall t
      ensures marks[t] > 0 <==> (t == root && OnceFrom(g, refs, root)) || TwiceFrom(g, refs, t)
    {
      MarkedIff(g, root, refs, out, marks, t);
    }
    if marks == multiset{} {
    } else {
      var t :| t in marks;
      assert marks[t] > 0;
    }
  }

  /** An object stands behind a marker exactly if it is referred to twice, or once and is the root. */
  lemma MarkedIff(g: Graph, root: Ref, refs: seq<Ref>, out: multiset<Ref>, marks: multiset<Ref>, t: Ref)
    requires NoDup(refs) && Covered(g, refs, refs) && root in refs && forall r :: r in refs ==> r in g
    requires out == TargetsFrom(g, refs) && multiset{root} + out == multiset(refs) + marks
    ensures marks[t] > 0 <==> (t == root && OnceFrom(g, refs, root)) || TwiceFrom(g, refs, t)
  {
    OnceCount(g, refs, t);
    TwiceCount(g, refs, t);
    NoDupCounts(refs, t);
    assert (multiset{root} + out)[t] == (multiset(refs) + marks)[t];
    assert (if t == root then 1 else 0) + out[t] == (if t in refs then 1 else 0) + marks[t];
  }
}
