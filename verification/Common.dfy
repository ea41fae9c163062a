/** Shared vocabulary: optional values, bytes, and concatenation of chunks. */
module Common {

  datatype Option<+T> = None | Some(value: T)

  type byte = x: int | 0 <= x < 256

  type bytes = seq<byte>

  /** The concatenation of a sequence of chunks. */
  function Flat<T>(chunks: seq<seq<T>>): seq<T> {
    if chunks == [] then [] else chunks[0] + Flat(chunks[1..])
  }

  lemma {:induction false} FlatConcat<T>(a: seq<seq<T>>, b: seq<seq<T>>)
    ensures Flat(a + b) == Flat(a) + Flat(b)
  {
    if a == [] {
      assert a + b == b;
    } else {
      assert (a + b)[1..] == a[1..] + b;
      FlatConcat(a[1..], b);
    }
  }

  lemma FlatSnoc<T>(a: seq<seq<T>>, x: seq<T>)
    ensures Flat(a + [x]) == Flat(a) + x
  {
    FlatConcat(a, [x]);
    assert Flat([x]) == x;
  }

  lemma Regroup<T>(a: seq<T>, b: seq<T>, c: seq<T>)
    ensures a + b + c == a + (b + c)
  {}

  lemma DropFirst<T>(a: seq<T>, b: seq<T>)
    ensures (a + b)[|a|..] == b
  {}

  lemma SliceOfTake<T>(b: seq<T>, m: nat, i: nat, j: nat)
    requires i <= j <= m <= |b|
    ensures b[..m][i..j] == b[i..j]
  {}

  lemma SliceOfConcat<T>(b: seq<T>, s: seq<T>, i: nat, j: nat)
    requires i <= j <= |b|
    ensures (b + s)[i..j] == b[i..j]
  {}

  /** Keeps the first occurrence of every element. */
  function Dedup<T(==)>(xs: seq<T>): seq<T> {
    if xs == [] then []
    else
      var front := Dedup(xs[..|xs| - 1]);
      var x := xs[|xs| - 1];
      if x in front then front else front + [x]
  }

  lemma {:induction false} DedupElements<T(!new)>(xs: seq<T>)
    ensures forall x :: x in Dedup(xs) <==> x in xs
    ensures NoDup(Dedup(xs))
  {
    if xs == [] {
    } else {
      DedupElements(xs[..|xs| - 1]);
      assert xs == xs[..|xs| - 1] + [xs[|xs| - 1]];
    }
  }

  ghost predicate NoDup<T>(xs: seq<T>) {
    forall i, j :: 0 <= i < j < |xs| ==> xs[i] != xs[j]
  }

  lemma {:induction false} DedupNoDup<T(!new)>(xs: seq<T>)
    requires NoDup(xs)
    ensures Dedup(xs) == xs
  {
    if xs == [] {
    } else {
      DedupNoDup(xs[..|xs| - 1]);
      assert xs == xs[..|xs| - 1] + [xs[|xs| - 1]];
    }
  }

  /** `x` occurs in `xs` before any `y` does. */
  ghost predicate Precedes<T>(xs: seq<T>, x: T, y: T) {
    exists p :: 0 <= p < |xs| && xs[p] == x && y !in xs[..p + 1]
  }

  /** `ys` holds the elements of `xs`, each once, in the order of their first occurrences. */
  ghost predicate FirstOccurrences<T(!new)>(ys: seq<T>, xs: seq<T>) {
    && (forall x :: x in ys <==> x in xs)
    && (forall i, j :: 0 <= i < j < |ys| ==> ys[i] != ys[j] && Precedes(xs, ys[i], ys[j]))
  }

  lemma {:induction false} DedupInOrder<T(!new)>(xs: seq<T>)
    ensures FirstOccurrences(Dedup(xs), xs)
  {
    DedupElements(xs);
    if xs == [] {
    } else {
      var front, x := xs[..|xs| - 1], xs[|xs| - 1];
      assert xs == front + [x];
      DedupInOrder(front);
      DedupElements(front);
      forall i, j | 0 <= i < j < |Dedup(xs)| ensures Precedes(xs, Dedup(xs)[i], Dedup(xs)[j]) {
        PrecedesStep(front, x, Dedup(xs)[i], Dedup(xs)[j]);
      }
    }
  }

  lemma PrecedesStep<T>(front: seq<T>, last: T, x: T, y: T)
    requires x in front && (Precedes(front, x, y) || y !in front)
    ensures Precedes(front + [last], x, y)
  {
    var p :| 0 <= p < |front| && front[p] == x && (y in front ==> y !in front[..p + 1]);
    assert (front + [last])[..p + 1] == front[..p + 1];
  }
}
