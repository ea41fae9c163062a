/**
 Serialising logged values: a traversal of an object graph that replaces every object it
 has met before by a marker, so that cycles end.
 */
module Serializer {
  import opened Common

  type Ref = nat

  /** A property value: a primitive, or a reference to a plain object or an array. */
  datatype Value = Primitive(text: string) | Object(ref: Ref)

  /** The objects and arrays, each with its property values in order. */
  type Graph = map<Ref, seq<Value>>

  /** What is written: primitives, expanded objects, and the marker `[Circular]`. */
  datatype Json = Text(text: string) | Circular | Expanded(ref: Ref, items: Items)

  datatype Items = Nil | Cons(head: Json, tail: Items)

  ghost predicate Closed(g: Graph) {
    forall r, i :: r in g && 0 <= i < |g[r]| && g[r][i].Object? ==> g[r][i].ref in g
  }

  ghost predicate Within(g: Graph, vs: seq<Value>) {
    forall i :: 0 <= i < |vs| && vs[i].Object? ==> vs[i].ref in g
  }

  ghost function Unseen(g: Graph, seen: seq<Ref>): set<Ref> {
    set r | r in g && r !in seen
  }

  /** The replacer and the traversal it drives, as a function of what has been seen. */
  ghost function Write(g: Graph, v: Value, seen: seq<Ref>): (r: (Json, seq<Ref>))
    requires Closed(g) && (v.Object? ==> v.ref in g)
    ensures seen <= r.1
    decreases |Unseen(g, seen)|, 1, 0
  {
    match v
    case Primitive(text) => (Text(text), seen)
    case Object(ref) =>
      if ref in seen then (Circular, seen)
      else
        UnseenShrinks(g, seen, [ref]);
        var (items, seen') := WriteItems(g, g[ref], seen + [ref]);
        (Expanded(ref, items), seen')
  }

  ghost function WriteItems(g: Graph, vs: seq<Value>, seen: seq<Ref>): (r: (Items, seq<Ref>))
    requires Closed(g) && Within(g, vs)
    ensures seen <= r.1
    decreases |Unseen(g, seen)|, 2, |vs|
  {
    if vs == [] then (Nil, seen)
    else
      var (head, seen1) := Write(g, vs[0], seen);
      UnseenMonotone(g, seen, seen1);
      var (tail, seen2) := WriteItems(g, vs[1..], seen1);
      (Cons(head, tail), seen2)
  }

  lemma UnseenMonotone(g: Graph, seen: seq<Ref>, seen': seq<Ref>)
    requires seen <= seen'
    ensures |Unseen(g, seen')| <= |Unseen(g, seen)|
  {
    assert forall r :: r in seen ==> r in seen' by {
      assert seen' == seen + seen'[|seen|..];
    }
    SubsetSize(Unseen(g, seen'), Unseen(g, seen));
  }

  lemma {:induction false} SubsetSize(a: set<Ref>, b: set<Ref>)
    requires a <= b
    ensures |a| <= |b|
  {
    if a == {} {
    } else {
      var x :| x in a;
      SubsetSize(a - {x}, b - {x});
    }
  }

  lemma UnseenShrinks(g: Graph, seen: seq<Ref>, more: seq<Ref>)
    requires |more| == 1 && more[0] in g && more[0] !in seen
    ensures |Unseen(g, seen + more)| < |Unseen(g, seen)|
  {
    assert Unseen(g, seen) == Unseen(g, seen + more) + {more[0]};
  }

  // ---- the replacer as an object ----

  class Replacer {
    const g: Graph
    var seen: seq<Ref>

    constructor (g: Graph)
      ensures this.g == g && seen == []
    {
      this.g := g;
      seen := [];
    }

    /** The function given to `JSON.stringify`: whether the value is to be expanded. */
    method Replace(ref: Ref) returns (expand: bool)
      modifies this
      ensures expand == (ref !in old(seen))
      ensures seen == if expand then old(seen) + [ref] else old(seen)
    {
      expand := ref !in seen;
      if expand {
        seen := seen + [ref];
      }
    }

    method Stringify(v: Value) returns (j: Json)
      requires Closed(g) && (v.Object? ==> v.ref in g)
      modifies this
      ensures (j, seen) == Write(g, v, old(seen))
      decreases |Unseen(g, seen)|, 1, 0
    {
      match v {
        case Primitive(text) => j := Text(text);
        case Object(ref) =>
          var expand := Replace(ref);
          if !expand {
            return Circular;
          }
          UnseenShrinks(g, old(seen), [ref]);
          var items := StringifyItems(g[ref]);
          j := Expanded(ref, items);
      }
    }

    method StringifyItems(vs: seq<Value>) returns (items: Items)
      requires Closed(g) && Within(g, vs)
      modifies this
      ensures (items, seen) == WriteItems(g, vs, old(seen))
      decreases |Unseen(g, seen)|, 2, |vs|
    {
      if vs == [] {
        return Nil;
      }
      var head := Stringify(vs[0]);
      UnseenMonotone(g, old(seen), seen);
      var tail := StringifyItems(vs[1..]);
      items := Cons(head, tail);
    }
  }

  // ---- every object is expanded at most once ----

  /** The objects expanded in the output, in order. */
  function Refs(j: Json): seq<Ref> {
    if j.Expanded? then [j.ref] + RefsOf(j.items) else []
  }

  function RefsOf(items: Items): seq<Ref> {
    if items.Nil? then [] else Refs(items.head) + RefsOf(items.tail)
  }

  /** What is newly seen is what is expanded, in the same order, and none of it was seen before. */
  lemma {:induction false} SeenIsExpanded(g: Graph, v: Value, seen: seq<Ref>)
    requires Closed(g) && (v.Object? ==> v.ref in g) && NoDup(seen)
    ensures Write(g, v, seen).1 == seen + Refs(Write(g, v, seen).0)
    ensures NoDup(Write(g, v, seen).1)
    decreases |Unseen(g, seen)|, 1, 0
  {
    if v.Primitive? || v.ref in seen {
    } else {
      UnseenShrinks(g, seen, [v.ref]);
      SeenAreExpanded(g, g[v.ref], seen + [v.ref]);
      var items := WriteItems(g, g[v.ref], seen + [v.ref]).0;
      assert seen + [v.ref] + RefsOf(items) == seen + ([v.ref] + RefsOf(items));
    }
  }

  lemma {:induction false} SeenAreExpanded(g: Graph, vs: seq<Value>, seen: seq<Ref>)
    requires Closed(g) && Within(g, vs) && NoDup(seen)
    ensures WriteItems(g, vs, seen).1 == seen + RefsOf(WriteItems(g, vs, seen).0)
    ensures NoDup(WriteItems(g, vs, seen).1)
    decreases |Unseen(g, seen)|, 2, |vs|
  {
    if vs == [] {
    } else {
      var (head, seen1) := Write(g, vs[0], seen);
      SeenIsExpanded(g, vs[0], seen);
      UnseenMonotone(g, seen, seen1);
      SeenAreExpanded(g, vs[1..], seen1);
      var tail := WriteItems(g, vs[1..], seen1).0;
      assert seen + Refs(head) + RefsOf(tail) == seen + (Refs(head) + RefsOf(tail));
    }
  }

  /** From a fresh start no object is expanded twice, so in particular none inside itself. */
  lemma ExpandedOnce(g: Graph, v: Value)
    requires Closed(g) && (v.Object? ==> v.ref in g)
    ensures NoDup(Refs(Write(g, v, []).0))
  {
    SeenIsExpanded(g, v, []);
    assert [] + Refs(Write(g, v, []).0) == Refs(Write(g, v, []).0);
  }

  // ---- a graph without sharing is written as it is ----

  /** `j` is the value written out in full, without markers. */
  ghost predicate Full(g: Graph, v: Value, j: Json)
    decreases j
  {
    match j
    case Text(text) => v == Primitive(text)
    case Circular => false
    case Expanded(ref, items) => v == Object(ref) && ref in g && FullItems(g, g[ref], items)
  }

  ghost predicate FullItems(g: Graph, vs: seq<Value>, items: Items)
    decreases items
  {
    match items
    case Nil => vs == []
    case Cons(head, tail) => vs != [] && Full(g, vs[0], head) && FullItems(g, vs[1..], tail)
  }

  ghost predicate Disjoint(a: seq<Ref>, b: seq<Ref>) {
    forall r :: r in a ==> r !in b
  }

  lemma NoDupParts(a: seq<Ref>, b: seq<Ref>)
    ensures NoDup(a + b) <==> NoDup(a) && NoDup(b) && Disjoint(a, b)
  {
    var s := a + b;
    if NoDup(s) {
      assert forall i :: 0 <= i < |a| ==> s[i] == a[i];
      assert forall i :: 0 <= i < |b| ==> s[|a| + i] == b[i];
    }
    if NoDup(a) && NoDup(b) && Disjoint(a, b) {
      forall i, j | 0 <= i < j < |s| ensures s[i] != s[j] {
        if i < |a| <= j {
          assert a[i] in a && b[j - |a|] in b;
        }
      }
    }
  }

  /** If the full tree of a value names no object twice, it is what gets written. */
  lemma {:induction false} UnsharedUnchanged(g: Graph, v: Value, seen: seq<Ref>, j: Json)
    requires Closed(g) && (v.Object? ==> v.ref in g)
    requires Full(g, v, j) && NoDup(Refs(j)) && Disjoint(Refs(j), seen)
    ensures Write(g, v, seen) == (j, seen + Refs(j))
    decreases j
  {
    assert seen + [] == seen;
    if !j.Expanded? {
    } else {
      NoDupParts([j.ref], RefsOf(j.items));
      assert j.ref in Refs(j);
      assert forall r :: r in RefsOf(j.items) ==> r in Refs(j);
      UnsharedItems(g, g[j.ref], seen + [j.ref], j.items);
      assert seen + [j.ref] + RefsOf(j.items) == seen + Refs(j);
    }
  }

  lemma {:induction false} UnsharedItems(g: Graph, vs: seq<Value>, seen: seq<Ref>, items: Items)
    requires Closed(g) && Within(g, vs)
    requires FullItems(g, vs, items) && NoDup(RefsOf(items)) && Disjoint(RefsOf(items), seen)
    ensures WriteItems(g, vs, seen) == (items, seen + RefsOf(items))
    decreases items
  {
    assert seen + [] == seen;
    if items.Nil? {
    } else {
      var a, b := Refs(items.head), RefsOf(items.tail);
      NoDupParts(a, b);
      assert forall r :: r in a || r in b ==> r in RefsOf(items);
      UnsharedUnchanged(g, vs[0], seen, items.head);
      UnsharedItems(g, vs[1..], seen + a, items.tail);
      assert seen + a + b == seen + (a + b);
    }
  }

  predicate MarkerFree(j: Json) {
    match j
    case Text(_) => true
    case Circular => false
    case Expanded(_, items) => MarkerFreeItems(items)
  }

  predicate MarkerFreeItems(items: Items) {
    items.Cons? ==> MarkerFree(items.head) && MarkerFreeItems(items.tail)
  }

  lemma {:induction false} MarkerFreeIsFull(g: Graph, v: Value, seen: seq<Ref>)
    requires Closed(g) && (v.Object? ==> v.ref in g) && MarkerFree(Write(g, v, seen).0)
    ensures Full(g, v, Write(g, v, seen).0)
    decreases |Unseen(g, seen)|, 1, 0
  {
    if v.Primitive? || v.ref in seen {
    } else {
      UnseenShrinks(g, seen, [v.ref]);
      MarkerFreeAreFull(g, g[v.ref], seen + [v.ref]);
    }
  }

  lemma {:induction false} MarkerFreeAreFull(g: Graph, vs: seq<Value>, seen: seq<Ref>)
    requires Closed(g) && Within(g, vs) && MarkerFreeItems(WriteItems(g, vs, seen).0)
    ensures FullItems(g, vs, WriteItems(g, vs, seen).0)
    decreases |Unseen(g, seen)|, 2, |vs|
  {
    if vs == [] {
    } else {
      var seen1 := Write(g, vs[0], seen).1;
      MarkerFreeIsFull(g, vs[0], seen);
      UnseenMonotone(g, seen, seen1);
      MarkerFreeAreFull(g, vs[1..], seen1);
    }
  }

  lemma {:induction false} FullIsMarkerFree(g: Graph, v: Value, j: Json)
    requires Full(g, v, j)
    ensures MarkerFree(j)
    decreases j
  {
    if !j.Expanded? {
    } else {
      FullAreMarkerFree(g, g[j.ref], j.items);
    }
  }

  lemma {:induction false} FullAreMarkerFree(g: Graph, vs: seq<Value>, items: Items)
    requires FullItems(g, vs, items)
    ensures MarkerFreeItems(items)
    decreases items
  {
    if items.Nil? {
    } else {
      FullIsMarkerFree(g, vs[0], items.head);
      FullAreMarkerFree(g, vs[1..], items.tail);
    }
  }

  /** `j` is the full tree of the value, and it names no object twice. */
  ghost predicate Unshared(g: Graph, v: Value, j: Json) {
    Full(g, v, j) && NoDup(Refs(j))
  }

  /** The marker is missing exactly if the value has a full finite tree that names no object twice. */
  lemma MarkerFreeIffUnshared(g: Graph, v: Value)
    requires Closed(g) && (v.Object? ==> v.ref in g)
    ensures MarkerFree(Write(g, v, []).0) <==> exists j :: Unshared(g, v, j)
    ensures forall j :: Unshared(g, v, j) ==> Write(g, v, []).0 == j
  {
    var written := Write(g, v, []).0;
    if MarkerFree(written) {
      MarkerFreeIsFull(g, v, []);
      ExpandedOnce(g, v);
      assert Unshared(g, v, written);
    }
    forall j | Unshared(g, v, j) ensures written == j && MarkerFree(written) {
      UnsharedUnchanged(g, v, [], j);
      FullIsMarkerFree(g, v, j);
    }
  }
}
