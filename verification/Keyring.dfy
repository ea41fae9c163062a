/**
 Credentials in the OS keyring: a sealed text cut over entries of bounded size, every full
 entry ending in a marker that says another one follows.
 */
module Keyring {
  import opened Common

  /** The entries of one prefix, by number. */
  type Entries = map<nat, bytes>

  /** The text `<MORE>`. */
  const MARKER: bytes := [60, 77, 79, 82, 69, 62]

  datatype Platform = Windows | Elsewhere

  /** The longest entry the platform's keyring takes. */
  function EntryLimit(p: Platform): (limit: nat)
    ensures limit > |MARKER|
  {
    match p
    case Windows => 1024
    case Elsewhere => 128 * 1024
  }

  predicate EndsWith(s: bytes, suffix: bytes) {
    |suffix| <= |s| && s[|s| - |suffix|..] == suffix
  }

  function Strip(s: bytes): bytes
    requires EndsWith(s, MARKER)
  {
    s[..|s| - |MARKER|]
  }

  // ---- what is written and what is read ----

  /** The entries a text is cut into; a chunk of exactly `step` bytes counts as full even if it is the last. */
  function Chunks(t: bytes, step: nat): seq<bytes>
    requires step > 0
  {
    if t == [] then []
    else if step <= |t| then [t[..step] + MARKER] + Chunks(t[step..], step)
    else [t]
  }

  /** No entry is longer than the limit, which leaves room for the marker. */
  lemma {:induction false} ChunksBounded(t: bytes, step: nat)
    requires step > 0
    ensures forall c :: c in Chunks(t, step) ==> 1 <= |c| <= step + |MARKER|
  {
    if |t| < step {
    } else {
      ChunksBounded(t[step..], step);
    }
  }

  function Times(n: nat, step: nat): nat {
    if n == 0 then 0 else Times(n - 1, step) + step
  }

  lemma {:induction false} TimesIs(n: nat, step: nat)
    ensures Times(n, step) == n * step
  {
    if n == 0 {
    } else {
      TimesIs(n - 1, step);
    }
  }

  lemma LaterPart(t: bytes, step: nat, j: nat)
    requires step + j <= |t|
    ensures t[step..][j..] == t[step + j..]
    ensures step + j + step <= |t| ==> t[step..][j..j + step] == t[step + j..step + j + step]
  {}

  lemma {:induction false} ChunkFrom(t: bytes, step: nat, n: nat)
    requires step > 0
    ensures n < |Chunks(t, step)| <==> Times(n, step) < |t|
    ensures var i := Times(n, step);
            i < |t| ==> Chunks(t, step)[n] == if i + step <= |t| then t[i..i + step] + MARKER else t[i..]
  {
    if n == 0 {
    } else if step <= |t| {
      ChunkFrom(t[step..], step, n - 1);
      if Times(n, step) < |t| {
        LaterPart(t, step, Times(n - 1, step));
      }
    }
  }

  /**
   The parts of a text: as many as have a beginning in it, each the next `step` bytes with
   the marker `<MORE>` behind them, or what is left of the text if that is less.
   */
  lemma ChunkAt(t: bytes, step: nat, n: nat)
    requires step > 0
    ensures n < |Chunks(t, step)| <==> n * step < |t|
    ensures n * step < |t| ==>
              var i := n * step;
              Chunks(t, step)[n] == if i + step <= |t| then t[i..i + step] + [60, 77, 79, 82, 69, 62] else t[i..]
  {
    TimesIs(n, step);
    ChunkFrom(t, step, n);
  }

  /** `keys` with `parts` written to the entries from number `i` on. */
  function Put(keys: Entries, i: nat, parts: seq<bytes>): Entries
    decreases |parts|
  {
    if parts == [] then keys else Put(keys[i := parts[0]], i + 1, parts[1..])
  }

  function Stored(keys: Entries, t: bytes, step: nat): Entries
    requires step > 0
  {
    Put(keys, 0, Chunks(t, step))
  }

  ghost function From(keys: Entries, i: nat): set<nat> {
    set k | k in keys && k >= i
  }

  lemma FromShrinks(keys: Entries, i: nat)
    requires i in keys
    ensures |From(keys, i + 1)| < |From(keys, i)|
  {
    assert From(keys, i) == From(keys, i + 1) + {i};
  }

  function Prepended(a: bytes, rest: Option<bytes>): Option<bytes> {
    match rest
    case None => None
    case Some(r) => Some(a + r)
  }

  /** The text read from entry `i` on, or none if an entry is missing before the text ends. */
  function ReadFrom(keys: Entries, i: nat): Option<bytes>
    decreases |From(keys, i)|
  {
    if i !in keys then None
    else if EndsWith(keys[i], MARKER) then
      FromShrinks(keys, i);
      Prepended(Strip(keys[i]), ReadFrom(keys, i + 1))
    else Some(keys[i])
  }

  /** How many entries reading looks at, the missing one included. */
  function Looked(keys: Entries, i: nat): (n: nat)
    ensures n >= 1
    decreases |From(keys, i)|
  {
    if i in keys && EndsWith(keys[i], MARKER) then
      FromShrinks(keys, i);
      1 + Looked(keys, i + 1)
    else 1
  }

  // ---- the round trip, and exactly when it holds ----

  /** The last chunk is shorter than a full one, not empty, and does not look like a full one. */
  predicate Readable(t: bytes, step: nat)
    requires step > 0
  {
    |t| % step != 0 && !EndsWith(t[|t| - |t| % step..], MARKER)
  }

  lemma Multiples(step: int, d: int)
    requires step >= 0
    ensures d >= 1 ==> d * step >= step
    ensures d <= -1 ==> d * step <= -step
  {}

  lemma ModUnique(n: nat, step: nat, q: int, r: nat)
    requires r < step && n == q * step + r
    ensures n % step == r && n / step == q
  {
    var q', r' := n / step, n % step;
    assert (q - q') * step == r' - r;
    Multiples(step, q - q');
  }

  lemma ModStep(n: nat, step: nat)
    requires 0 < step <= n
    ensures (n - step) % step == n % step <= n - step
  {
    ModUnique(n - step, step, n / step - 1, n % step);
  }

  lemma ReadableTail(t: bytes, step: nat)
    requires 0 < step <= |t|
    ensures Readable(t[step..], step) <==> Readable(t, step)
  {
    ModStep(|t|, step);
    var r := |t| % step;
    assert t[step..][|t| - step - r..] == t[|t| - r..];
  }

  lemma {:induction false} PutElsewhere(keys: Entries, i: nat, parts: seq<bytes>, k: nat)
    requires k < i
    ensures k in Put(keys, i, parts) <==> k in keys
    ensures k in keys ==> Put(keys, i, parts)[k] == keys[k]
    decreases |parts|
  {
    if parts == [] {
    } else {
      PutElsewhere(keys[i := parts[0]], i + 1, parts[1..], k);
    }
  }

  lemma FullChunk(c: bytes)
    ensures EndsWith(c + MARKER, MARKER) && Strip(c + MARKER) == c
  {
    var s := c + MARKER;
    assert s[|s| - |MARKER|..] == MARKER;
    assert s[..|s| - |MARKER|] == c;
  }

  lemma {:induction false} ReadBack(keys: Entries, i: nat, t: bytes, step: nat)
    requires step > 0 && Readable(t, step)
    ensures ReadFrom(Put(keys, i, Chunks(t, step)), i) == Some(t)
    decreases |t|
  {
    if step <= |t| {
      var keys1 := keys[i := t[..step] + MARKER];
      ReadableTail(t, step);
      ReadBack(keys1, i + 1, t[step..], step);
      PutFull(keys, i, t, step);
      assert t[..step] + t[step..] == t;
    } else {
      PutLast(keys, i, t, step);
      ShortIsLast(t, step);
    }
  }

  /** A text of at least one full part is its first part, followed by the rest of the text. */
  lemma PutFull(keys: Entries, i: nat, t: bytes, step: nat)
    requires 0 < step <= |t|
    ensures var keys1 := keys[i := t[..step] + MARKER];
            && Put(keys, i, Chunks(t, step)) == Put(keys1, i + 1, Chunks(t[step..], step))
            && ReadFrom(Put(keys, i, Chunks(t, step)), i)
            == Prepended(t[..step], ReadFrom(Put(keys, i, Chunks(t, step)), i + 1))
  {
    var keys1, rest := keys[i := t[..step] + MARKER], Chunks(t[step..], step);
    var parts := Chunks(t, step);
    assert parts[0] == t[..step] + MARKER && parts[1..] == rest;
    PutElsewhere(keys1, i + 1, rest, i);
    FullChunk(t[..step]);
  }

  /** A shorter text is one part. */
  lemma PutLast(keys: Entries, i: nat, t: bytes, step: nat)
    requires |t| < step
    ensures Put(keys, i, Chunks(t, step)) == if t == [] then keys else keys[i := t]
  {
    assert t != [] ==> [t][1..] == [];
  }

  lemma ShortIsLast(t: bytes, step: nat)
    requires |t| < step
    ensures |t| % step == |t| && t[|t| - |t| % step..] == t
  {
    ModUnique(|t|, step, 0, |t|);
  }

  /** What reading takes from the parts of a text whose last part looks like a full one. */
  function Body(t: bytes, step: nat): bytes
    requires step > 0 && !Readable(t, step)
  {
    if |t| % step == 0 then t else t[..|t| - |MARKER|]
  }

  lemma TakeBack(t: bytes, step: nat, cut: nat)
    requires step <= |t| && cut <= |t| - step
    ensures t[..|t| - cut] == t[..step] + t[step..][..|t| - step - cut]
  {}

  lemma BodyStep(t: bytes, step: nat)
    requires 0 < step <= |t| && !Readable(t, step)
    ensures !Readable(t[step..], step) && Body(t, step) == t[..step] + Body(t[step..], step)
  {
    ReadableTail(t, step);
    ModStep(|t|, step);
    var r := |t| % step;
    if r == 0 {
      TakeBack(t, step, 0);
    } else {
      assert |t[|t| - r..]| == r;
      TakeBack(t, step, |MARKER|);
    }
  }

  lemma {:induction false} ReadElsewhere(keys: Entries, i: nat, v: bytes, j: nat)
    requires i < j
    ensures ReadFrom(keys[i := v], j) == ReadFrom(keys, j)
    decreases |From(keys, j)|
  {
    assert From(keys[i := v], j) == From(keys, j);
    if j !in keys || !EndsWith(keys[j], MARKER) {
    } else {
      FromShrinks(keys, j);
      ReadElsewhere(keys, i, v, j + 1);
    }
  }

  lemma PrependedTwice(a: bytes, b: bytes, rest: Option<bytes>)
    ensures Prepended(a, Prepended(b, rest)) == Prepended(a + b, rest)
  {
    if rest.Some? {
      assert a + (b + rest.value) == a + b + rest.value;
    }
  }

  /** A text that is not readable is continued by whatever was stored behind its last part. */
  lemma {:induction false} ReadsOn(keys: Entries, i: nat, t: bytes, step: nat)
    requires step > 0 && !Readable(t, step)
    ensures ReadFrom(Put(keys, i, Chunks(t, step)), i)
         == Prepended(Body(t, step), ReadFrom(keys, i + |Chunks(t, step)|))
    decreases |t|
  {
    if t == [] {
      assert forall r: bytes :: [] + r == r;
    } else if step <= |t| {
      var part, tail := t[..step] + MARKER, t[step..];
      BodyStep(t, step);
      ReadsOn(keys[i := part], i + 1, tail, step);
      ReadElsewhere(keys, i, part, i + 1 + |Chunks(tail, step)|);
      FullReadsOn(keys, i, t, step);
    } else {
      LastReadsOn(keys, i, t, step);
    }
  }

  lemma FullReadsOn(keys: Entries, i: nat, t: bytes, step: nat)
    requires 0 < step <= |t| && !Readable(t, step) && !Readable(t[step..], step)
    requires Body(t, step) == t[..step] + Body(t[step..], step)
    requires var keys1, tail := keys[i := t[..step] + MARKER], t[step..];
             ReadFrom(Put(keys1, i + 1, Chunks(tail, step)), i + 1)
             == Prepended(Body(tail, step), ReadFrom(keys, i + 1 + |Chunks(tail, step)|))
    ensures ReadFrom(Put(keys, i, Chunks(t, step)), i)
         == Prepended(Body(t, step), ReadFrom(keys, i + |Chunks(t, step)|))
  {
    PutFull(keys, i, t, step);
    PrependedTwice(t[..step], Body(t[step..], step), ReadFrom(keys, i + |Chunks(t, step)|));
  }

  lemma LastReadsOn(keys: Entries, i: nat, t: bytes, step: nat)
    requires 0 < |t| < step && !Readable(t, step)
    ensures ReadFrom(Put(keys, i, Chunks(t, step)), i)
         == Prepended(Body(t, step), ReadFrom(keys, i + |Chunks(t, step)|))
  {
    PutLast(keys, i, t, step);
    ShortIsLast(t, step);
    ReadElsewhere(keys, i, t, i + 1);
  }

  /**
   Storing a text and reading it back, for all texts and all values stored before: a readable
   text comes back; any other is joined with the stale entries behind it, or lost if there
   are none.
   */
  lemma StoredIsRead(keys: Entries, t: bytes, step: nat)
    requires step > 0
    ensures ReadFrom(Stored(keys, t, step), 0) ==
              if Readable(t, step) then Some(t)
              else Prepended(Body(t, step), ReadFrom(keys, |Chunks(t, step)|))
  {
    if Readable(t, step) {
      ReadBack(keys, 0, t, step);
    } else {
      ReadsOn(keys, 0, t, step);
    }
  }

  /**
   Storing and then reading returns the text whatever longer value was there before, exactly
   for the texts whose length is no multiple of `step` and whose last chunk does not end in
   the marker.
   */
  lemma StoreThenRead(t: bytes, step: nat)
    requires step > 0
    ensures Readable(t, step) <==> forall keys :: ReadFrom(Stored(keys, t, step), 0) == Some(t)
  {
    if Readable(t, step) {
      forall keys ensures ReadFrom(Stored(keys, t, step), 0) == Some(t) {
        StoredIsRead(keys, t, step);
      }
    } else {
      StoredIsRead(map[], t, step);
      assert ReadFrom(Stored(map[], t, step), 0) != Some(t);
    }
  }

  /** A text of exactly one full chunk is one that does not come back. */
  lemma FullTextIsLost(t: bytes, step: nat)
    requires step > 0 && |t| == step
    ensures ReadFrom(Stored(map[], t, step), 0) == None
  {
    ModUnique(|t|, step, 1, 0);
    StoredIsRead(map[], t, step);
  }

  // ---- the storage object ----

  datatype GetResult = Password(value: bytes) | NoEntry | GetFailed

  datatype DeleteResult = Deleted | NothingToDelete | DeleteFailed

  /** The entries that cannot be read, written or deleted at the moment. */
  datatype Faults = Faults(unreadable: set<nat>, readOnly: set<nat>, undeletable: set<nat>)

  /** The operating system's keyring; any call may fail. */
  class OsKeyring {
    var keys: Entries
    var faults: Faults

    constructor (faults: Faults)
      ensures keys == map[] && this.faults == faults
    {
      keys := map[];
      this.faults := faults;
    }

    method Get(i: nat) returns (r: GetResult)
      ensures r == if i in faults.unreadable then GetFailed else if i in keys then Password(keys[i]) else NoEntry
    {
      r := if i in faults.unreadable then GetFailed else if i in keys then Password(keys[i]) else NoEntry;
    }

    method Set(i: nat, value: bytes) returns (ok: bool)
      modifies this
      ensures faults == old(faults) && (ok <==> i !in faults.readOnly)
      ensures keys == if ok then old(keys)[i := value] else old(keys)
    {
      ok := i !in faults.readOnly;
      if ok {
        keys := keys[i := value];
      }
    }

    method Delete(i: nat) returns (r: DeleteResult)
      modifies this
      ensures faults == old(faults)
      ensures r == if i in faults.undeletable then DeleteFailed
                   else if i in old(keys) then Deleted else NothingToDelete
      ensures keys == if r.Deleted? then old(keys) - {i} else old(keys)
    {
      if i in faults.undeletable {
        r := DeleteFailed;
      } else if i in keys {
        keys := keys - {i};
        r := Deleted;
      } else {
        r := NothingToDelete;
      }
    }
  }

  /** `k` is the least element of `s`. */
  ghost predicate IsFirst(k: nat, s: set<nat>) {
    k in s && forall j :: 0 <= j < k ==> j !in s
  }

  /** Some entry that reading looks at cannot be read. */
  ghost predicate CutShort(keys: Entries, unreadable: set<nat>) {
    exists k :: k in unreadable && k < Looked(keys, 0)
  }

  /** With `h` handles known before, `n` are known after reading: one for every entry looked at. */
  ghost predicate HandlesAfterRead(keys: Entries, unreadable: set<nat>, h: nat, n: nat) {
    if CutShort(keys, unreadable) then exists k: nat :: IsFirst(k, unreadable) && n == Max(h, k + 1)
    else n == Max(h, Looked(keys, 0))
  }

  /** Reading has got to entry `i`, with `str` read from the entries before it. */
  ghost predicate ReadSoFar(keys: Entries, unreadable: set<nat>, str: bytes, i: nat) {
    && ReadFrom(keys, 0) == Prepended(str, ReadFrom(keys, i))
    && Looked(keys, 0) == i + Looked(keys, i)
    && forall k :: 0 <= k < i ==> k !in unreadable
  }

  lemma ReadStarts(keys: Entries, unreadable: set<nat>)
    ensures ReadSoFar(keys, unreadable, [], 0)
  {
    assert forall rest: bytes :: [] + rest == rest;
  }

  lemma ReadGoesOn(keys: Entries, unreadable: set<nat>, str: bytes, i: nat)
    requires ReadSoFar(keys, unreadable, str, i) && i !in unreadable && i in keys && EndsWith(keys[i], MARKER)
    ensures ReadSoFar(keys, unreadable, str + Strip(keys[i]), i + 1)
    ensures |From(keys, i + 1)| < |From(keys, i)|
  {
    FromShrinks(keys, i);
    PrependedTwice(str, Strip(keys[i]), ReadFrom(keys, i + 1));
  }

  lemma ReadStops(keys: Entries, unreadable: set<nat>, str: bytes, i: nat, h: nat)
    requires ReadSoFar(keys, unreadable, str, i)
    requires i in unreadable || i !in keys || !EndsWith(keys[i], MARKER)
    ensures HandlesAfterRead(keys, unreadable, h, Max(h, i + 1))
    ensures CutShort(keys, unreadable) <==> i in unreadable
    ensures i !in unreadable ==> ReadFrom(keys, 0) == if i in keys then Some(str + keys[i]) else None
  {
    if i in unreadable {
      assert IsFirst(i, unreadable);
    }
  }

  datatype ReadResult = Text(text: bytes) | Missing | ReadFailed

  function Max(a: nat, b: nat): nat {
    if a < b then b else a
  }

  /** Whatever is not as it was before fits the limit and is not empty. */
  ghost predicate WritesFit(before: Entries, after: Entries, limit: nat) {
    forall k :: k in after ==> (k in before && after[k] == before[k]) || 1 <= |after[k]| <= limit
  }

  lemma {:induction false} PutFits(keys: Entries, i: nat, parts: seq<bytes>, limit: nat)
    requires forall p :: p in parts ==> 1 <= |p| <= limit
    ensures WritesFit(keys, Put(keys, i, parts), limit)
    decreases |parts|
  {
    if parts == [] {
    } else {
      assert parts[0] in parts;
      PutFits(keys[i := parts[0]], i + 1, parts[1..], limit);
    }
  }

  lemma StoreFits(keys: Entries, t: bytes, step: nat, n: nat)
    requires step > 0 && n <= |Chunks(t, step)|
    ensures WritesFit(keys, Put(keys, 0, Chunks(t, step)[..n]), step + |MARKER|)
  {
    ChunksBounded(t, step);
    assert forall p :: p in Chunks(t, step)[..n] ==> p in Chunks(t, step);
    PutFits(keys, 0, Chunks(t, step)[..n], step + |MARKER|);
  }

  function UpTo(n: nat): (r: set<nat>)
    ensures forall k: nat :: k in r <==> k < n
  {
    if n == 0 then {} else UpTo(n - 1) + {n - 1}
  }

  /** A text can be read, and the first `h` entries are there. */
  ghost predicate Clearable(keys: Entries, h: nat) {
    ReadFrom(keys, 0).Some? && UpTo(h) <= keys.Keys
  }

  /** Reading returns a text exactly if every entry it looks at is there. */
  lemma {:induction false} LookedAre(keys: Entries, i: nat)
    ensures ReadFrom(keys, i).Some? <==> forall k :: i <= k < i + Looked(keys, i) ==> k in keys
    decreases |From(keys, i)|
  {
    if i !in keys || !EndsWith(keys[i], MARKER) {
    } else {
      FromShrinks(keys, i);
      LookedAre(keys, i + 1);
    }
  }

  /** All entries with known handles are there exactly if there is something to clear. */
  lemma ClearableIff(keys: Entries, h: nat)
    ensures UpTo(Max(h, Looked(keys, 0))) <= keys.Keys <==> Clearable(keys, h)
  {
    LookedAre(keys, 0);
    if UpTo(Max(h, Looked(keys, 0))) <= keys.Keys {
      forall k | 0 <= k < Looked(keys, 0) ensures k in keys {
        assert k in UpTo(Max(h, Looked(keys, 0)));
      }
    }
  }

  /** The first `n` parts of a text have been written, to entries that can be written. */
  ghost predicate StoredUpTo(before: Entries, after: Entries, readOnly: set<nat>, t: bytes, step: nat, n: nat)
    requires step > 0
  {
    && n <= |Chunks(t, step)| && after == Put(before, 0, Chunks(t, step)[..n])
    && forall k :: 0 <= k < n ==> k !in readOnly
  }

  /** The part of a text that begins at offset `i`. */
  function PartAt(t: bytes, step: nat, i: nat): bytes
    requires i < |t|
  {
    if i + step <= |t| then t[i..i + step] + MARKER else t[i..]
  }

  lemma StoreOne(before: Entries, after: Entries, readOnly: set<nat>, t: bytes, step: nat, i: nat, n: nat)
    requires step > 0 && StoredUpTo(before, after, readOnly, t, step, n) && i == Times(n, step) && i < |t|
    ensures n < |Chunks(t, step)| && i / step == n
    ensures n !in readOnly ==> StoredUpTo(before, after[n := PartAt(t, step, i)], readOnly, t, step, n + 1)
  {
    var parts := Chunks(t, step);
    TimesIs(n, step);
    ModUnique(i, step, n, 0);
    ChunkFrom(t, step, n);
    assert parts[..n + 1] == parts[..n] + [parts[n]];
    PutSnoc(before, 0, parts[..n], parts[n]);
  }

  lemma StoreAll(before: Entries, after: Entries, readOnly: set<nat>, t: bytes, step: nat, n: nat)
    requires step > 0 && StoredUpTo(before, after, readOnly, t, step, n) && Times(n, step) >= |t|
    ensures n == |Chunks(t, step)| && after == Stored(before, t, step)
  {
    ChunkFrom(t, step, n);
    assert Chunks(t, step)[..n] == Chunks(t, step);
  }

  /** The entries before `i` were deleted, and entry `i` could not be or was not there. */
  ghost predicate StuckAt(before: Entries, after: Entries, undeletable: set<nat>, i: nat, r: DeleteResult) {
    && UpTo(i) <= before.Keys && UpTo(i) !! undeletable && after == before - UpTo(i)
    && (if i in undeletable then r == DeleteFailed else i !in before && r == NothingToDelete)
  }

  class KeyringStorage {
    const os: OsKeyring
    const platform: Platform
    const step: nat

    /** Handles of the entries seen so far; a handle is the number of the entry it stands for. */
    var entries: seq<nat>

    ghost predicate Valid()
      reads this
    {
      step == EntryLimit(platform) - |MARKER| && forall i :: 0 <= i < |entries| ==> entries[i] == i
    }

    constructor (os: OsKeyring, platform: Platform)
      ensures Valid() && this.os == os && this.platform == platform && entries == []
      ensures step == if platform.Windows? then 1018 else 131066
    {
      this.os, this.platform := os, platform;
      step := EntryLimit(platform) - |MARKER|;
      entries := [];
    }

    /** The handle at index `i`, created when it is the next one to be needed. */
    method NextEntry(i: nat) returns (entry: nat)
      requires Valid() && i <= |entries|
      modifies this
      ensures Valid() && entry == i
      ensures |entries| == Max(|old(entries)|, i + 1)
    {
      if i == |entries| {
        entries := entries + [i];
      }
      entry := entries[i];
    }

    method Read() returns (r: ReadResult)
      requires Valid()
      modifies this
      ensures Valid() && 1 <= |entries| && |old(entries)| <= |entries|
      ensures r == ReadFailed <==> CutShort(os.keys, os.faults.unreadable)
      ensures r != ReadFailed ==>
                r == (match ReadFrom(os.keys, 0) case Some(t) => Text(t) case None => Missing)
      ensures HandlesAfterRead(os.keys, os.faults.unreadable, |old(entries)|, |entries|)
    {
      var str, i := [], 0;
      ReadStarts(os.keys, os.faults.unreadable);
      while true
        invariant Valid() && i <= |entries| && |entries| == Max(|old(entries)|, i)
        invariant ReadSoFar(os.keys, os.faults.unreadable, str, i)
        decreases |From(os.keys, i)|
      {
        var entry := NextEntry(i);
        var got := os.Get(entry);
        if !got.Password? || !EndsWith(got.value, MARKER) {
          ReadStops(os.keys, os.faults.unreadable, str, i, |old(entries)|);
          match got {
            case NoEntry => return Missing;
            case GetFailed => return ReadFailed;
            case Password(chunk) => return Text(str + chunk);
          }
        }
        ReadGoesOn(os.keys, os.faults.unreadable, str, i);
        str := str + Strip(got.value);
        i := i + 1;
      }
    }

    /** Writes the text over the entries; on an error its first `n` parts have been written. */
    method Store(sealed: bytes) returns (ok: bool, ghost n: nat)
      requires Valid()
      modifies this, os
      ensures Valid() && |entries| == Max(|old(entries)|, if ok then n else n + 1)
      ensures os.faults == old(os.faults)
      ensures if ok then n == |Chunks(sealed, step)| else n < |Chunks(sealed, step)| && n in os.faults.readOnly
      ensures StoredUpTo(old(os.keys), os.keys, os.faults.readOnly, sealed, step, n)
      ensures ok ==> os.keys == Stored(old(os.keys), sealed, step)
      ensures WritesFit(old(os.keys), os.keys, if platform.Windows? then 1024 else 131072)
    {
      var i := 0;
      n, ok := 0, true;
      while i < |sealed|
        invariant ok && Valid() && |entries| == Max(|old(entries)|, n)
        invariant i == Times(n, step) && os.faults == old(os.faults)
        invariant StoredUpTo(old(os.keys), os.keys, os.faults.readOnly, sealed, step, n)
        decreases |sealed| - i
      {
        StoreOne(old(os.keys), os.keys, os.faults.readOnly, sealed, step, i, n);
        StoreFits(old(os.keys), sealed, step, n);
        var entry := NextEntry(i / step);
        var cutoff := i + step;
        var part := if cutoff <= |sealed| then sealed[i..cutoff] + MARKER else sealed[i..];
        ok := os.Set(entry, part);
        if !ok {
          return;
        }
        i, n := cutoff, n + 1;
      }
      StoreAll(old(os.keys), os.keys, os.faults.readOnly, sealed, step, n);
      StoreFits(old(os.keys), sealed, step, n);
    }

    /**
     Deletes every entry a handle is known for, stopping at the first that cannot be deleted.
     With a keyring that works, that is successful exactly if there is a text to be read and
     no entry with a known handle has gone; in particular not on an empty keyring.
     */
    method Clear() returns (r: DeleteResult, ghost n: nat)
      requires Valid()
      modifies this, os
      ensures Valid() && os.faults == old(os.faults)
      ensures HandlesAfterRead(old(os.keys), os.faults.unreadable, |old(entries)|, n)
      ensures r.Deleted? <==> UpTo(n) <= old(os.keys).Keys && UpTo(n) !! os.faults.undeletable
      ensures r.Deleted? ==> os.keys == old(os.keys) - UpTo(n) && entries == [] && ReadFrom(os.keys, 0) == None
      ensures !r.Deleted? ==> |entries| == n && exists i :: StuckAt(old(os.keys), os.keys, os.faults.undeletable, i, r)
      ensures !CutShort(old(os.keys), os.faults.unreadable) && os.faults.undeletable == {} ==>
                (r.Deleted? <==> Clearable(old(os.keys), |old(entries)|))
    {
      var _ := Read();  // make sure the handles of all parts are known
      n := |entries|;
      ClearableIff(os.keys, |old(entries)|);
      var i := 0;
      while i < |entries|
        invariant i <= |entries| == n && Valid() && os.faults == old(os.faults)
        invariant UpTo(i) <= old(os.keys).Keys && os.keys == old(os.keys) - UpTo(i)
        invariant UpTo(i) !! os.faults.undeletable
      {
        r := os.Delete(entries[i]);
        if !r.Deleted? {
          assert StuckAt(old(os.keys), os.keys, os.faults.undeletable, i, r);
          assert i in UpTo(n);
          return;
        }
        assert UpTo(i + 1) == UpTo(i) + {i};
        i := i + 1;
      }
      entries := [];
      r := Deleted;
    }
  }

  lemma {:induction false} PutSnoc(keys: Entries, i: nat, parts: seq<bytes>, p: bytes)
    ensures Put(keys, i, parts + [p]) == Put(keys, i, parts)[i + |parts| := p]
    decreases |parts|
  {
    if parts == [] {
      assert Put(keys[i := p], i + 1, []) == keys[i := p];
    } else {
      assert (parts + [p])[1..] == parts[1..] + [p];
      PutSnoc(keys[i := parts[0]], i + 1, parts[1..], p);
    }
  }
}
