/**
 The download cache: a most-recently-used list of names, kept in a persisted state, and the
 directories of those names. Removals, renames and writes may fail; the outcomes are given
 with each operation.
 */
module DownloadCache {
  import opened Common
  import opened PersistedState

  /** The name of an entry; a staging directory is kept apart from the entries. */
  datatype Name = Name(text: string)

  const KEEP_LRU := 5
  const RENAME_ATTEMPTS := 20

  // ---- the list ----

  /** `l` without the first occurrence of `name`. */
  function Without(l: seq<Name>, name: Name): (r: seq<Name>)
    ensures |r| == if name in l then |l| - 1 else |l|
  {
    if l == [] then [] else if l[0] == name then l[1..] else [l[0]] + Without(l[1..], name)
  }

  function Retain(l: seq<Name>, name: Name): (r: seq<Name>)
    ensures name !in r
  {
    if l == [] then []
    else if l[0] == name then Retain(l[1..], name)
    else [l[0]] + Retain(l[1..], name)
  }

  function ToFront(l: seq<Name>, name: Name): (r: seq<Name>)
    ensures r != [] && r[0] == name
  {
    [name] + Without(l, name)
  }

  lemma NoDupTail(l: seq<Name>)
    requires NoDup(l) && l != []
    ensures NoDup(l[1..]) && l[0] !in l[1..]
  {}

  lemma NoDupCons(name: Name, l: seq<Name>)
    requires NoDup(l) && name !in l
    ensures NoDup([name] + l)
  {}

  lemma {:induction false} WithoutElements(l: seq<Name>, name: Name)
    requires NoDup(l)
    ensures forall n :: n in Without(l, name) <==> n in l && n != name
    ensures NoDup(Without(l, name))
    ensures Retain(l, name) == Without(l, name)
  {
    if l == [] {
    } else {
      NoDupTail(l);
      WithoutElements(l[1..], name);
      assert forall n :: n in l <==> n == l[0] || n in l[1..];
      if l[0] == name {
        RetainAll(l[1..], name);
      } else {
        NoDupCons(l[0], Without(l[1..], name));
      }
    }
  }

  lemma {:induction false} RetainAll(l: seq<Name>, name: Name)
    requires name !in l
    ensures Retain(l, name) == l
  {
    if l == [] {
    } else {
      RetainAll(l[1..], name);
    }
  }

  // ---- the cache as a value ----

  /** The list, the completed directories, how many evictions have failed so far, and the state file. */
  datatype Cache = Cache(list: seq<Name>, dirs: set<Name>, failures: nat, file: FileContents<seq<Name>>)

  const EMPTY := Cache([], {}, 0, Absent)

  /** The list is written to the file, as far as that goes. */
  function Saved(c: Cache, w: WriteOutcome): Cache {
    c.(file := Write(c.file, c.list, w))
  }

  /** `touch`: to the front, and drop the last name if there are too many and its directory can go. */
  function Touched(c: Cache, name: Name, removable: bool): Cache {
    var l := ToFront(c.list, name);
    if |l| <= KEEP_LRU then c.(list := l)
    else
      var last := l[|l| - 1];
      if last !in c.dirs || removable then c.(list := l[..|l| - 1], dirs := c.dirs - {last})
      else c.(list := l, failures := c.failures + 1)
  }

  datatype Op =
    | Exists(name: Name, removable: bool, w: WriteOutcome)
    | Delete(name: Name, removable: bool, w: WriteOutcome)
    | Create(name: Name, removable: bool, w: WriteOutcome, staged: bool, renames: nat -> bool)

  /** The first attempt at which a rename succeeds, if one of the 21 does. */
  ghost predicate Renamed(renames: nat -> bool) {
    exists k :: 0 <= k <= RENAME_ATTEMPTS && renames(k)
  }

  ghost function Apply(c: Cache, op: Op): Cache {
    match op
    case Exists(name, removable, w) => if name in c.dirs then Saved(Touched(c, name, removable), w) else c
    case Delete(name, removable, w) =>
      if name in c.dirs && !removable then c
      else Saved(c.(list := Retain(c.list, name), dirs := c.dirs - {name}), w)
    case Create(name, removable, w, staged, renames) =>
      if name in c.dirs || !staged then c
      else
        var c1 := Saved(Touched(c, name, removable), w);
        if Renamed(renames) then c1.(dirs := c1.dirs + {name}) else c1
  }

  ghost function Run(ops: seq<Op>): Cache {
    if ops == [] then EMPTY else Apply(Run(ops[..|ops| - 1]), ops[|ops| - 1])
  }

  // ---- list and directories agree ----

  ghost predicate Agree(c: Cache) {
    && NoDup(c.list)
    && (forall d :: d in c.dirs ==> d in c.list)
    && |c.list| <= KEEP_LRU + c.failures
  }

  lemma LastDropped(l: seq<Name>)
    requires NoDup(l) && l != []
    ensures NoDup(l[..|l| - 1]) && forall n :: n in l[..|l| - 1] <==> n in l && n != l[|l| - 1]
  {
    assert l == l[..|l| - 1] + [l[|l| - 1]];
  }

  lemma ToFrontElements(l: seq<Name>, name: Name)
    requires NoDup(l)
    ensures NoDup(ToFront(l, name)) && |ToFront(l, name)| <= |l| + 1
    ensures forall n :: n in ToFront(l, name) <==> n == name || n in l
  {
    WithoutElements(l, name);
    NoDupCons(name, Without(l, name));
  }

  /** No name is listed twice, and there are at most five names plus one per failed eviction. */
  ghost predicate Sound(c: Cache) {
    NoDup(c.list) && |c.list| <= KEEP_LRU + c.failures
  }

  /** A touch lists the name, and takes no directory off the list without removing it. */
  lemma TouchedSound(c: Cache, name: Name, removable: bool)
    requires Sound(c)
    ensures var c' := Touched(c, name, removable);
            && Sound(c') && c'.list[0] == name && c'.dirs <= c.dirs && c'.failures >= c.failures
            && (name in c.dirs ==> name in c'.dirs)
            && (forall d :: d in c'.dirs && (d in c.list || d == name) ==> d in c'.list)
            && (forall d :: d !in c.list && d != name ==> d !in c'.list && (d in c.dirs ==> d in c'.dirs))
  {
    ToFrontElements(c.list, name);
    var l := ToFront(c.list, name);
    LastDropped(l);
    assert |l| > KEEP_LRU ==> l[|l| - 1] != l[0];
  }

  lemma TouchedAgrees(c: Cache, name: Name, removable: bool)
    requires Agree(c)
    ensures Agree(Touched(c, name, removable))
    ensures Touched(c, name, removable).list[0] == name
    ensures name in c.dirs ==> name in Touched(c, name, removable).dirs
  {
    TouchedSound(c, name, removable);
  }

  /** Every operation keeps list and directories in agreement, whatever fails. */
  lemma StepAgrees(c: Cache, op: Op)
    requires Agree(c)
    ensures Agree(Apply(c, op))
    ensures op.Create? && op.name !in c.dirs && op.staged && Renamed(op.renames) ==>
              op.name in Apply(c, op).dirs && Apply(c, op).list[0] == op.name
  {
    match op
    case Exists(name, removable, _) => TouchedAgrees(c, name, removable);
    case Delete(name, _, _) => WithoutElements(c.list, name);
    case Create(name, removable, _, _, _) => TouchedAgrees(c, name, removable);
  }

  /**
   After any run from empty, every completed directory is in the list, no name is in it
   twice, and it has at most five names plus one per failed eviction.
   */
  lemma {:induction false} RunAgrees(ops: seq<Op>)
    ensures Agree(Run(ops)) && |Run(ops).list| <= 5 + Run(ops).failures
  {
    if ops == [] {
    } else {
      RunAgrees(ops[..|ops| - 1]);
      StepAgrees(Run(ops[..|ops| - 1]), ops[|ops| - 1]);
    }
  }

  // ---- a directory goes only with its name ----

  /**
   Whatever fails, and whether or not list and directories agree: an operation takes at most
   one directory off the disk, and that one's name is not in the list afterwards.
   */
  lemma DirGoesWithName(c: Cache, op: Op)
    requires Sound(c)
    ensures forall d :: d in c.dirs && d !in Apply(c, op).dirs ==> d !in Apply(c, op).list
    ensures forall d, e :: d in c.dirs && e in c.dirs && d !in Apply(c, op).dirs && e !in Apply(c, op).dirs ==> d == e
    ensures forall d :: d in c.dirs && d !in Apply(c, op).dirs ==>
              op.removable && (op.Delete? <==> d == op.name) && (op.Delete? || |c.list| >= 5)
  {
    match op
    case Exists(name, removable, _) => EvictedIsOne(c, name, removable);
    case Delete(name, _, _) => WithoutElements(c.list, name);
    case Create(name, removable, _, _, _) => EvictedIsOne(c, name, removable);
  }

  lemma EvictedIsOne(c: Cache, name: Name, removable: bool)
    requires Sound(c)
    ensures var c' := Touched(c, name, removable);
            && (forall d :: d in c.dirs && d !in c'.dirs ==>
                  d !in c'.list && removable && |c.list| >= KEEP_LRU && d != name)
            && (forall d, e :: d in c.dirs && e in c.dirs && d !in c'.dirs && e !in c'.dirs ==> d == e)
  {
    ToFrontElements(c.list, name);
    LastDropped(ToFront(c.list, name));
  }

  /** Every removal and every rename of the run succeeds, and every entry is built. */
  ghost predicate AllSucceed(ops: seq<Op>) {
    forall op :: op in ops ==> op.removable && (op.Create? && op.staged ==> Renamed(op.renames))
  }

  lemma ExactStep(c: Cache, op: Op)
    requires Agree(c) && op.removable && (op.Create? && op.staged ==> Renamed(op.renames))
    requires forall d :: d in c.dirs <==> d in c.list
    ensures forall d :: d in Apply(c, op).dirs <==> d in Apply(c, op).list
  {
    ToFrontElements(c.list, op.name);
    LastDropped(ToFront(c.list, op.name));
    WithoutElements(c.list, op.name);
  }

  /** As long as removals and renames succeed, the directories are exactly those of the listed names. */
  lemma {:induction false} DirsAreListed(ops: seq<Op>)
    requires AllSucceed(ops)
    ensures forall d :: d in Run(ops).dirs <==> d in Run(ops).list
    ensures |Run(ops).list| <= 5
  {
    if ops == [] {
    } else {
      var front, op := ops[..|ops| - 1], ops[|ops| - 1];
      assert op in ops && forall o :: o in front ==> o in ops;
      DirsAreListed(front);
      RunAgrees(front);
      ExactStep(Run(front), op);
      RunAgrees(ops);
      NoFailures(ops);
    }
  }

  /** No eviction fails when every removal succeeds. */
  lemma {:induction false} NoFailures(ops: seq<Op>)
    requires forall op :: op in ops ==> op.removable
    ensures Run(ops).failures == 0
  {
    if ops == [] {
    } else {
      var front, op := ops[..|ops| - 1], ops[|ops| - 1];
      assert op in ops && forall o :: o in front ==> o in ops;
      NoFailures(front);
    }
  }

  // ---- the list is a least-recently-used cache ----

  datatype Access = Touch(name: Name) | Drop(name: Name)

  /** A list that is at most one too long, without its last name if it is. */
  function Capped(l: seq<Name>): seq<Name> {
    if |l| <= KEEP_LRU then l else l[..|l| - 1]
  }

  /** The list after an access, when evictions succeed. */
  function Listed(l: seq<Name>, a: Access): seq<Name> {
    match a
    case Touch(name) => Capped(ToFront(l, name))
    case Drop(name) => Retain(l, name)
  }

  /** That is what the operations do to the list as long as no removal fails. */
  lemma ListedIsTouched(c: Cache, name: Name, w: WriteOutcome)
    ensures Touched(c, name, true).list == Listed(c.list, Touch(name))
    ensures name in c.dirs ==> Apply(c, Exists(name, true, w)).list == Listed(c.list, Touch(name))
    ensures Apply(c, Delete(name, true, w)).list == Listed(c.list, Drop(name))
    ensures name !in c.dirs ==> forall renames ::
              Apply(c, Create(name, true, w, true, renames)).list == Listed(c.list, Touch(name))
  {}

  function ListAfter(h: seq<Access>): seq<Name> {
    if h == [] then [] else Listed(ListAfter(h[..|h| - 1]), h[|h| - 1])
  }

  /** The reference: names with their last use; when there are too many the least recent goes. */
  type Uses = map<Name, nat>

  ghost predicate LeastRecent(m: Uses, n: Name) {
    n in m && forall k :: k in m ==> m[n] <= m[k]
  }

  lemma {:induction false} LeastRecentExists(m: Uses)
    requires m != map[]
    ensures exists n :: LeastRecent(m, n)
    decreases |m|
  {
    var n :| n in m;
    var rest := m - {n};
    assert m.Keys == rest.Keys + {n};
    if rest == map[] {
      assert LeastRecent(m, n);
    } else {
      LeastRecentExists(rest);
      var r :| LeastRecent(rest, r);
      assert LeastRecent(m, if m[n] <= m[r] then n else r);
    }
  }

  ghost function Evict(m: Uses): Uses {
    if |m| <= KEEP_LRU then m
    else
      LeastRecentExists(m);
      var n :| LeastRecent(m, n);
      m - {n}
  }

  ghost function UsesAfter(h: seq<Access>): Uses {
    if h == [] then map[]
    else
      var m := UsesAfter(h[..|h| - 1]);
      match h[|h| - 1]
      case Touch(name) => Evict(m[name := |h|])
      case Drop(name) => m - {name}
  }

  /** `l` holds keys of `m`, most recent first. */
  ghost predicate Recent(l: seq<Name>, m: Uses) {
    l != [] ==> l[0] in m && (forall n :: n in l[1..] ==> n in m && m[n] < m[l[0]]) && Recent(l[1..], m)
  }

  /** The list names exactly the keys of the map, most recent first. */
  ghost predicate ByRecency(l: seq<Name>, m: Uses, now: nat) {
    && Recent(l, m)
    && (forall n :: n in l <==> n in m)
    && (forall n :: n in m ==> m[n] <= now)
  }

  lemma {:induction false} RecentNoDup(l: seq<Name>, m: Uses)
    requires Recent(l, m)
    ensures NoDup(l)
  {
    if l == [] {
    } else {
      RecentNoDup(l[1..], m);
      NoDupCons(l[0], l[1..]);
      assert l == [l[0]] + l[1..];
    }
  }

  lemma {:induction false} SameSize(l: seq<Name>, keys: set<Name>)
    requires NoDup(l) && forall n :: n in l <==> n in keys
    ensures |l| == |keys|
  {
    if l == [] {
      assert keys == {};
    } else {
      NoDupTail(l);
      assert forall n :: n in l <==> n == l[0] || n in l[1..];
      SameSize(l[1..], keys - {l[0]});
    }
  }

  lemma {:induction false} WithoutRecent(l: seq<Name>, name: Name, m: Uses)
    requires Recent(l, m)
    ensures Recent(Without(l, name), m)
  {
    if l == [] {
    } else {
      RecentNoDup(l, m);
      NoDupTail(l);
      WithoutRecent(l[1..], name, m);
      WithoutElements(l[1..], name);
      if l[0] != name {
        assert Without(l, name)[1..] == Without(l[1..], name);
      }
    }
  }

  /** Only the uses of the names in the list matter. */
  lemma {:induction false} RecentCongruent(l: seq<Name>, m: Uses, m': Uses)
    requires Recent(l, m) && forall n :: n in l ==> n in m' && (n in m ==> m'[n] == m[n])
    ensures Recent(l, m')
  {
    if l == [] {
    } else {
      RecentCongruent(l[1..], m, m');
    }
  }

  lemma {:induction false} LastIsLeast(l: seq<Name>, m: Uses)
    requires Recent(l, m) && l != []
    ensures Recent(l[..|l| - 1], m)
    ensures forall n :: n in l[..|l| - 1] ==> n in m && m[l[|l| - 1]] < m[n]
  {
    if |l| == 1 {
    } else {
      var front := l[..|l| - 1];
      assert front[1..] == l[1..][..|l| - 2];
      LastIsLeast(l[1..], m);
      assert l[|l| - 1] == l[1..][|l| - 2];
      assert l[|l| - 1] in l[1..];
      assert forall n :: n in front ==> n == l[0] || n in front[1..];
    }
  }

  /** A name newer than all others goes in front. */
  lemma RecentCons(name: Name, l: seq<Name>, m: Uses)
    requires Recent(l, m) && name in m && forall n :: n in l ==> n in m && m[n] < m[name]
    ensures Recent([name] + l, m)
  {
    assert ([name] + l)[1..] == l;
  }

  lemma TouchByRecency(l: seq<Name>, m: Uses, now: nat, name: Name)
    requires ByRecency(l, m, now)
    ensures ByRecency(ToFront(l, name), m[name := now + 1], now + 1)
  {
    RecentNoDup(l, m);
    TouchRecent(l, m, now, name);
    TouchNames(l, m, name, now + 1);
  }

  lemma TouchRecent(l: seq<Name>, m: Uses, now: nat, name: Name)
    requires Recent(l, m) && NoDup(l) && forall n :: n in l ==> n in m && m[n] <= now
    ensures Recent(ToFront(l, name), m[name := now + 1])
  {
    WithoutElements(l, name);
    WithoutRecent(l, name, m);
    RecentCongruent(Without(l, name), m, m[name := now + 1]);
    RecentCons(name, Without(l, name), m[name := now + 1]);
  }

  lemma TouchNames(l: seq<Name>, m: Uses, name: Name, time: nat)
    requires NoDup(l) && forall n :: n in l <==> n in m
    ensures forall n :: n in ToFront(l, name) <==> n in m[name := time]
  {
    WithoutElements(l, name);
  }

  lemma EvictByRecency(l: seq<Name>, m: Uses, now: nat)
    requires ByRecency(l, m, now) && |l| <= KEEP_LRU + 1
    ensures ByRecency(Capped(l), Evict(m), now)
  {
    RecentNoDup(l, m);
    SameSize(l, m.Keys);
    if |l| > KEEP_LRU {
      LeastIsLast(l, m);
      EvictLast(l, m, now);
    }
  }

  lemma EvictLast(l: seq<Name>, m: Uses, now: nat)
    requires ByRecency(l, m, now) && l != []
    ensures ByRecency(l[..|l| - 1], m - {l[|l| - 1]}, now)
  {
    var front, last := l[..|l| - 1], l[|l| - 1];
    assert l == front + [last];
    LastIsLeast(l, m);
    RecentCongruent(front, m, m - {last});
  }

  lemma LeastIsLast(l: seq<Name>, m: Uses)
    requires Recent(l, m) && l != [] && forall n :: n in l <==> n in m
    ensures forall n :: LeastRecent(m, n) ==> n == l[|l| - 1]
  {
    LastIsLeast(l, m);
    assert l == l[..|l| - 1] + [l[|l| - 1]];
  }

  lemma DropByRecency(l: seq<Name>, m: Uses, now: nat, name: Name)
    requires ByRecency(l, m, now)
    ensures ByRecency(Retain(l, name), m - {name}, now + 1)
  {
    RecentNoDup(l, m);
    WithoutElements(l, name);
    WithoutRecent(l, name, m);
    RecentCongruent(Without(l, name), m, m - {name});
  }

  /**
   With evictions succeeding, the list after any accesses is exactly what a cache of at most
   five names that evicts the least recently used one holds, most recent first.
   */
  lemma {:induction false} ListIsLru(h: seq<Access>)
    ensures ByRecency(ListAfter(h), UsesAfter(h), |h|) && |ListAfter(h)| <= KEEP_LRU
  {
    if h == [] {
    } else {
      var front, a := h[..|h| - 1], h[|h| - 1];
      ListIsLru(front);
      var l, m := ListAfter(front), UsesAfter(front);
      match a
      case Touch(name) =>
        TouchByRecency(l, m, |front|, name);
        EvictByRecency(ToFront(l, name), m[name := |h|], |h|);
      case Drop(name) =>
        DropByRecency(l, m, |front|, name);
        RecentNoDup(l, m);
        WithoutElements(l, name);
    }
  }

  /** The accesses an operation makes in the state it starts from. */
  function AccessOf(c: Cache, op: Op): seq<Access> {
    match op
    case Exists(name, _, _) => if name in c.dirs then [Touch(name)] else []
    case Delete(name, _, _) => [Drop(name)]
    case Create(name, _, _, staged, _) => if name in c.dirs || !staged then [] else [Touch(name)]
  }

  ghost function Accesses(ops: seq<Op>): seq<Access> {
    if ops == [] then []
    else Accesses(ops[..|ops| - 1]) + AccessOf(Run(ops[..|ops| - 1]), ops[|ops| - 1])
  }

  /** The list after an operation whose removal succeeds: as it was, or after the one access it makes. */
  lemma AccessStep(c: Cache, op: Op)
    requires op.removable
    ensures AccessOf(c, op) == [] ==> Apply(c, op).list == c.list
    ensures AccessOf(c, op) != [] ==> |AccessOf(c, op)| == 1 && Apply(c, op).list == Listed(c.list, AccessOf(c, op)[0])
  {
    ListedIsTouched(c, op.name, op.w);
  }

  lemma ListAfterMore(h: seq<Access>, more: seq<Access>)
    requires |more| <= 1
    ensures ListAfter(h + more) == if more == [] then ListAfter(h) else Listed(ListAfter(h), more[0])
  {
    if more == [] {
      assert h + more == h;
    } else {
      assert (h + more)[..|h|] == h;
    }
  }

  lemma {:induction false} RunIsListed(ops: seq<Op>)
    requires forall op :: op in ops ==> op.removable
    ensures Run(ops).list == ListAfter(Accesses(ops))
  {
    if ops == [] {
    } else {
      var front, op := ops[..|ops| - 1], ops[|ops| - 1];
      assert op in ops && forall o :: o in front ==> o in ops;
      RunIsListed(front);
      AccessStep(Run(front), op);
      ListAfterMore(Accesses(front), AccessOf(Run(front), op));
    }
  }

  /** So is the list of the cache itself after any operations whose removals all succeed. */
  lemma RunIsLru(ops: seq<Op>)
    requires forall op :: op in ops ==> op.removable
    ensures Run(ops).list == ListAfter(Accesses(ops))
    ensures ByRecency(Run(ops).list, UsesAfter(Accesses(ops)), |Accesses(ops)|) && |Run(ops).list| <= KEEP_LRU
  {
    RunIsListed(ops);
    ListIsLru(Accesses(ops));
  }

  // ---- touches only: the first five distinct names of the reversed history ----

  function Reverse(h: seq<Name>): (r: seq<Name>)
    ensures |r| == |h|
  {
    if h == [] then [] else [h[|h| - 1]] + Reverse(h[..|h| - 1])
  }

  function Take(l: seq<Name>, n: nat): seq<Name> {
    if |l| <= n then l else l[..n]
  }

  function Touches(h: seq<Name>): (r: seq<Access>)
    ensures |r| == |h|
  {
    seq(|h|, i requires 0 <= i < |h| => Touch(h[i]))
  }

  lemma {:induction false} WithoutAbsent(l: seq<Name>, name: Name)
    requires name !in l
    ensures Without(l, name) == l
  {
    if l == [] {
    } else {
      WithoutAbsent(l[1..], name);
    }
  }

  lemma {:induction false} WithoutConcat(a: seq<Name>, b: seq<Name>, name: Name)
    ensures Without(a + b, name) == if name in a then Without(a, name) + b else a + Without(b, name)
  {
    if a == [] {
      assert a + b == b;
    } else {
      assert (a + b)[1..] == a[1..] + b && (a + b)[0] == a[0];
      assert name in a <==> name == a[0] || name in a[1..];
      if a[0] != name {
        WithoutConcat(a[1..], b, name);
        if name in a[1..] {
          Regroup([a[0]], Without(a[1..], name), b);
        } else {
          Regroup([a[0]], a[1..], Without(b, name));
          assert a == [a[0]] + a[1..];
        }
      }
    }
  }

  /** Adding `y` at the end and moving `x` to the front commute. */
  lemma DedupConsStep(x: Name, y: Name, d: seq<Name>)
    requires NoDup(d)
    ensures var moved := [x] + Without(d, x);
            (if y in moved then moved else moved + [y]) == [x] + Without(if y in d then d else d + [y], x)
  {
    WithoutElements(d, x);
    if y !in d {
      WithoutConcat(d, [y], x);
      assert Without([y], x) == if y == x then [] else [y];
      if x !in d {
        WithoutAbsent(d, x);
      }
      assert d + [] == d && ([x] + Without(d, x))[0] == x;
      assert [x] + (Without(d, x) + [y]) == [x] + Without(d, x) + [y];
    }
  }

  lemma {:induction false} DedupCons(x: Name, ys: seq<Name>)
    ensures Dedup([x] + ys) == [x] + Without(Dedup(ys), x)
  {
    var all := [x] + ys;
    if ys == [] {
      assert all == [x] && all[..0] == [];
    } else {
      var front, y := ys[..|ys| - 1], ys[|ys| - 1];
      assert all[..|all| - 1] == [x] + front;
      DedupCons(x, front);
      DedupElements(front);
      DedupConsStep(x, y, Dedup(front));
    }
  }

  lemma ToFrontConcat(p: seq<Name>, q: seq<Name>, x: Name)
    ensures ToFront(p + q, x) == if x in p then ToFront(p, x) + q else ToFront(p, x) + Without(q, x)
  {
    WithoutConcat(p, q, x);
    if x in p {
      Regroup([x], Without(p, x), q);
    } else {
      WithoutAbsent(p, x);
      Regroup([x], p, Without(q, x));
    }
  }

  lemma TakeToFront(d: seq<Name>, x: Name)
    ensures Capped(ToFront(Take(d, KEEP_LRU), x)) == Take(ToFront(d, x), KEEP_LRU)
  {
    if |d| > KEEP_LRU {
      var p, q := d[..KEEP_LRU], d[KEEP_LRU..];
      assert d == p + q;
      ToFrontConcat(p, q, x);
      if x in p {
        TakeFull(ToFront(p, x), q, ToFront(d, x));
      } else {
        TakeMost(ToFront(p, x), Without(q, x), ToFront(d, x));
      }
    }
  }

  lemma TakeFull(a: seq<Name>, b: seq<Name>, c: seq<Name>)
    requires |a| == KEEP_LRU && c == a + b
    ensures Take(c, KEEP_LRU) == a == Capped(a)
  {}

  lemma TakeMost(a: seq<Name>, b: seq<Name>, c: seq<Name>)
    requires |a| == KEEP_LRU + 1 && c == a + b
    ensures Take(c, KEEP_LRU) == Capped(a)
  {}

  lemma {:induction false} TouchesOnly(h: seq<Name>)
    ensures ListAfter(Touches(h)) == Take(Dedup(Reverse(h)), KEEP_LRU)
  {
    if h == [] {
    } else {
      var front, x := h[..|h| - 1], h[|h| - 1];
      assert Touches(h)[..|h| - 1] == Touches(front);
      TouchesOnly(front);
      TakeToFront(Dedup(Reverse(front)), x);
      DedupCons(x, Reverse(front));
    }
  }

  // ---- the cache as an object ----

  datatype Result = Ok | RemoveFailed | SaveFailed | BuildFailed | RenameFailed

  class DownloadCache {
    const state: Container<seq<Name>>
    var dirs: set<Name>
    ghost var failures: nat

    ghost predicate Valid()
      reads this, state
    {
      state.default == []
    }

    ghost function Abs(): Cache
      reads this, state
    {
      Cache(state.Value(), dirs, failures, state.file)
    }

    constructor ()
      ensures Valid() && Abs() == EMPTY && fresh(state)
    {
      state := new Container([], Absent);
      dirs := {};
      failures := 0;
    }

    method TouchEntry(name: Name, removable: bool, w: WriteOutcome) returns (ok: bool)
      requires Valid()
      modifies this, state
      ensures Valid() && Abs() == Saved(Touched(old(Abs()), name, removable), w)
      ensures Abs().list != [] && Abs().list[0] == name
      ensures dirs == old(dirs) || exists d :: removable && dirs == old(dirs) - {d}
      ensures ok <==> w.Written?
    {
      var l := state.LoadOrGet();
      l := RemoveFirst(l, name);
      l := [name] + l;
      if |l| > KEEP_LRU {
        var last := l[|l| - 1];
        if last !in dirs || removable {
          dirs := dirs - {last};
          l := l[..|l| - 1];
        } else {
          failures := failures + 1;
        }
      }
      ok := state.Save(l, w);
    }

    method CheckExists(name: Name, removable: bool, w: WriteOutcome) returns (found: bool)
      requires Valid()
      modifies this, state
      ensures Valid() && Abs() == Apply(old(Abs()), Exists(name, removable, w))
      ensures found <==> name in old(dirs)
      ensures if found then Abs().list != [] && Abs().list[0] == name else Abs() == old(Abs())
    {
      found := name in dirs;
      if found {
        var _ := TouchEntry(name, removable, w);
      }
    }

    method DeleteEntry(name: Name, removable: bool, w: WriteOutcome) returns (r: Result)
      requires Valid()
      modifies this, state
      ensures Valid() && Abs() == Apply(old(Abs()), Delete(name, removable, w))
      ensures r == if name in old(dirs) && !removable then RemoveFailed else if w.Written? then Ok else SaveFailed
      ensures if r == RemoveFailed then Abs() == old(Abs()) else dirs == old(dirs) - {name} && name !in Abs().list
    {
      if name in dirs {
        if !removable {
          return RemoveFailed;
        }
        dirs := dirs - {name};
      }
      var l := state.LoadOrGet();
      l := RetainOthers(l, name);
      var ok := state.Save(l, w);
      r := if ok then Ok else SaveFailed;
    }

    /** Builds into a staging directory and renames it, retrying while the rename fails. */
    method CreateEntry(name: Name, removable: bool, w: WriteOutcome, staged: bool, renames: nat -> bool)
      returns (r: Result, attempts: nat)
      requires Valid()
      modifies this, state
      ensures Valid() && Abs() == Apply(old(Abs()), Create(name, removable, w, staged, renames))
      ensures attempts <= 21
      ensures r == Ok <==> name in old(dirs) || (staged && Renamed(renames))
      ensures r == Ok && name !in old(dirs) ==>
                name in dirs && Abs().list[0] == name && attempts > 0
                && renames(attempts - 1) && forall k :: 0 <= k < attempts - 1 ==> !renames(k)
      ensures r == RenameFailed ==> attempts == 21 && name !in dirs
    {
      attempts := 0;
      if name in dirs {
        return Ok, 0;
      }
      if !staged {
        return BuildFailed, 0;
      }
      var _ := TouchEntry(name, removable, w);
      while attempts <= RENAME_ATTEMPTS
        invariant attempts <= RENAME_ATTEMPTS + 1
        invariant forall k :: 0 <= k < attempts ==> !renames(k)
        invariant Valid() && Abs() == Saved(Touched(old(Abs()), name, removable), w)
      {
        attempts := attempts + 1;
        if renames(attempts - 1) {
          dirs := dirs + {name};
          return Ok, attempts;
        }
      }
      r := RenameFailed;
    }
  }

  method RetainOthers(l: seq<Name>, name: Name) returns (kept: seq<Name>)
    ensures kept == Retain(l, name)
  {
    kept := [];
    for i := 0 to |l|
      invariant kept + Retain(l[i..], name) == Retain(l, name)
    {
      assert l[i..][1..] == l[i + 1..];
      if l[i] != name {
        kept := kept + [l[i]];
      }
    }
  }

  /** Removes `name` at the position where it is found, if it is. */
  method RemoveFirst(l: seq<Name>, name: Name) returns (r: seq<Name>)
    ensures r == Without(l, name)
  {
    var index := 0;
    while index < |l| && l[index] != name
      invariant index <= |l| && name !in l[..index]
    {
      index := index + 1;
    }
    RemoveAt(l, name, index);
    r := if index < |l| then l[..index] + l[index + 1..] else l;
  }

  lemma RemoveAt(l: seq<Name>, name: Name, index: nat)
    requires index <= |l| && name !in l[..index] && (index < |l| ==> l[index] == name)
    ensures Without(l, name) == if index < |l| then l[..index] + l[index + 1..] else l
  {
    assert l == l[..index] + l[index..];
    WithoutConcat(l[..index], l[index..], name);
    if index < |l| {
      assert l[index..][1..] == l[index + 1..];
    }
  }
}
