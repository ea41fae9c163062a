/**
 The download cache across restarts: what its state file holds, what a new process makes of
 it, and which directories are then never found again.
 */
module CacheRestarts {
  import opened Common
  import opened PersistedState
  import opened DownloadCache

  // ---- the file ----

  /** The operation gets as far as writing the file. */
  ghost predicate Saves(c: Cache, op: Op) {
    match op
    case Exists(name, _, _) => name in c.dirs
    case Delete(name, removable, _) => name in c.dirs ==> removable
    case Create(name, _, _, staged, _) => name !in c.dirs && staged
  }

  /** Operation `k` is the last one that changed the file: it wrote it, or broke off writing it. */
  ghost predicate LastToWrite(ops: seq<Op>, k: nat) {
    && k < |ops| && Saves(Run(ops[..k]), ops[k]) && !ops[k].w.NotOpened?
    && forall j :: k < j < |ops| ==> !Saves(Run(ops[..j]), ops[j]) || ops[j].w.NotOpened?
  }

  lemma LastWriteStays(ops: seq<Op>, k: nat)
    requires ops != [] && k < |ops| - 1
    ensures LastToWrite(ops, k)
       <==> LastToWrite(ops[..|ops| - 1], k)
            && (!Saves(Run(ops[..|ops| - 1]), ops[|ops| - 1]) || ops[|ops| - 1].w.NotOpened?)
  {
    var front := ops[..|ops| - 1];
    assert forall j :: 0 <= j <= |front| ==> front[..j] == ops[..j];
  }

  /** An operation writes the list it leaves behind, if it writes the file at all. */
  lemma FileStep(c: Cache, op: Op)
    ensures Apply(c, op).file == if Saves(c, op) then Write(c.file, Apply(c, op).list, op.w) else c.file
    ensures Apply(c, op).failures >= c.failures
  {}

  lemma LastWriteIsNew(ops: seq<Op>)
    requires ops != [] && Saves(Run(ops[..|ops| - 1]), ops[|ops| - 1]) && !ops[|ops| - 1].w.NotOpened?
    ensures forall k: nat :: LastToWrite(ops, k) <==> k == |ops| - 1
  {
    var n := |ops| - 1;
    assert ops[..n] == ops[..|ops| - 1];
    forall k: nat | LastToWrite(ops, k) ensures k == n {
      if k < n {
        LastWriteStays(ops, k);
      }
    }
  }

  lemma LastWriteIsOld(ops: seq<Op>)
    requires ops != [] && (!Saves(Run(ops[..|ops| - 1]), ops[|ops| - 1]) || ops[|ops| - 1].w.NotOpened?)
    ensures forall k: nat :: LastToWrite(ops, k) <==> LastToWrite(ops[..|ops| - 1], k)
  {
    var n := |ops| - 1;
    forall k: nat ensures LastToWrite(ops, k) <==> LastToWrite(ops[..n], k) {
      if k < n {
        LastWriteStays(ops, k);
      }
    }
  }

  /** What the file holds when operation `k` was the last to change it. */
  ghost function WrittenBy(ops: seq<Op>, k: nat): FileContents<seq<Name>>
    requires k < |ops|
  {
    if ops[k].w.Written? then Json(Run(ops[..k + 1]).list) else Garbled
  }

  /** The file holds the list as it was after the last operation that changed it, unless that one broke off. */
  lemma {:induction false} FileHolds(ops: seq<Op>)
    ensures forall k: nat :: LastToWrite(ops, k) ==> Run(ops).file == WrittenBy(ops, k)
    ensures (forall k: nat :: !LastToWrite(ops, k)) ==> Run(ops).file == Absent
  {
    if ops == [] {
    } else {
      var n := |ops| - 1;
      var front, op := ops[..n], ops[n];
      FileStep(Run(front), op);
      assert ops[..n + 1] == ops;
      if Saves(Run(front), op) && !op.w.NotOpened? {
        LastWriteIsNew(ops);
        assert LastToWrite(ops, n) && Run(ops).file == WrittenBy(ops, n);
      } else {
        FileHolds(front);
        LastWriteIsOld(ops);
        assert Run(ops).file == Run(front).file;
        forall k: nat | LastToWrite(ops, k) ensures Run(ops).file == WrittenBy(ops, k) {
          assert LastToWrite(front, k);
          assert front[..k + 1] == ops[..k + 1];
        }
        if forall k: nat :: !LastToWrite(ops, k) {
          forall k: nat ensures !LastToWrite(front, k) {
            assert !LastToWrite(ops, k);
          }
        }
      }
    }
  }

  /** The cache as a new process finds it. */
  function Restarted(c: Cache): Cache {
    c.(list := Decode(c.file, []))
  }

  /** A list once written is without duplicates and within the bound, however old it is. */
  ghost predicate FileSound(c: Cache) {
    NoDup(Decode(c.file, [])) && |Decode(c.file, [])| <= KEEP_LRU + c.failures
  }

  lemma {:induction false} RunFileSound(ops: seq<Op>)
    ensures FileSound(Run(ops))
  {
    if ops == [] {
    } else {
      RunFileSound(ops[..|ops| - 1]);
      RunAgrees(ops);
      FileStep(Run(ops[..|ops| - 1]), ops[|ops| - 1]);
    }
  }

  // ---- when list and directories agree after a restart ----

  /** A new entry is built and its directory put in place. */
  ghost predicate Completes(c: Cache, op: Op) {
    op.Create? && Saves(c, op) && Renamed(op.renames)
  }

  /** The directories after an operation are old ones, and the one it completes. */
  lemma DirsStep(c: Cache, op: Op)
    ensures forall d :: d in Apply(c, op).dirs ==> d in c.dirs || (Completes(c, op) && d == op.name)
    ensures Completes(c, op) ==> op.name in Apply(c, op).dirs
  {}

  /**
   One operation keeps the agreement across a restart unless its write fails at the wrong
   moment: not opening the file is harmful when a directory was completed whose name the file
   does not hold, breaking off is when any directory is left.
   */
  lemma RestartStepIff(c: Cache, op: Op)
    requires Agree(c) && Agree(Restarted(c))
    ensures Agree(Restarted(Apply(c, op))) <==>
              || !Saves(c, op) || op.w.Written?
              || (op.w.NotOpened? && (Completes(c, op) ==> op.name in Decode(c.file, [])))
              || (op.w.BrokenOff? && Apply(c, op).dirs == {})
  {
    StepAgrees(c, op);
    FileStep(c, op);
    DirsStep(c, op);
    if !Saves(c, op) {
      assert Apply(c, op) == c;
    }
  }

  /** An operation after `k` completes an entry of that name. */
  ghost predicate CompletedLater(ops: seq<Op>, k: nat, d: Name) {
    exists j :: k < j < |ops| && Completes(Run(ops[..j]), ops[j]) && ops[j].name == d
  }

  lemma StillLater(ops: seq<Op>, k: nat, d: Name)
    requires ops != [] && CompletedLater(ops[..|ops| - 1], k, d)
    ensures CompletedLater(ops, k, d)
  {
    var front := ops[..|ops| - 1];
    var j :| k < j < |front| && Completes(Run(front[..j]), front[j]) && front[j].name == d;
    assert front[..j] == ops[..j] && front[j] == ops[j];
  }

  /** Every directory was there after operation `k`, or was completed later. */
  lemma {:induction false} DirsSince(ops: seq<Op>, k: nat, d: Name)
    requires k < |ops| && d in Run(ops).dirs
    ensures d in Run(ops[..k + 1]).dirs || CompletedLater(ops, k, d)
    decreases |ops|
  {
    var n := |ops| - 1;
    var front := ops[..n];
    if k == n {
      assert ops[..k + 1] == ops;
    } else {
      DirsStep(Run(front), ops[n]);
      if d in Run(front).dirs {
        DirsSince(front, k, d);
        assert front[..k + 1] == ops[..k + 1];
        if CompletedLater(front, k, d) {
          StillLater(ops, k, d);
        }
      } else {
        assert ops[..n] == front && Completes(Run(ops[..n]), ops[n]);
      }
    }
  }

  /** Every entry completed after operation `k`, and still there, was already listed then. */
  ghost predicate OnlyListedCompleted(ops: seq<Op>, k: nat)
    requires k < |ops|
  {
    forall d :: CompletedLater(ops, k, d) && d in Run(ops).dirs ==> d in Run(ops[..k + 1]).list
  }

  lemma ListedOrLater(ops: seq<Op>, k: nat, d: Name)
    requires k < |ops| && d in Run(ops).dirs
    ensures d in Run(ops[..k + 1]).list || CompletedLater(ops, k, d)
  {
    var earlier := Run(ops[..k + 1]);
    RunAgrees(ops[..k + 1]);
    DirsSince(ops, k, d);
    assert d in earlier.dirs ==> d in earlier.list;
  }

  lemma RestartCovers(ops: seq<Op>, k: nat, dirs: set<Name>, list: seq<Name>)
    requires k < |ops| && dirs == Run(ops).dirs && list == Run(ops[..k + 1]).list
    ensures OnlyListedCompleted(ops, k) <==> forall d :: d in dirs ==> d in list
  {
    forall d | d in dirs ensures d in list || CompletedLater(ops, k, d) {
      ListedOrLater(ops, k, d);
    }
  }

  /**
   After a run and a restart list and directories agree exactly if no entry was completed, and
   not removed again, that was not yet listed when the file was last written; if the last
   write broke off, or there was none, exactly if no directory is left.
   */
  lemma RestartAgreesIff(ops: seq<Op>)
    ensures forall k: nat :: LastToWrite(ops, k) && ops[k].w.Written? ==>
              (Agree(Restarted(Run(ops))) <==> OnlyListedCompleted(ops, k))
    ensures (forall k: nat :: LastToWrite(ops, k) ==> !ops[k].w.Written?) ==>
              (Agree(Restarted(Run(ops))) <==> Run(ops).dirs == {})
  {
    RunFileSound(ops);
    FileHolds(ops);
    forall k: nat | LastToWrite(ops, k) && ops[k].w.Written?
      ensures Agree(Restarted(Run(ops))) <==> OnlyListedCompleted(ops, k)
    {
      RestartCovers(ops, k, Run(ops).dirs, Run(ops[..k + 1]).list);
    }
    if forall k: nat :: LastToWrite(ops, k) ==> !ops[k].w.Written? {
      NothingReadable(ops);
    }
  }

  lemma NothingReadable(ops: seq<Op>)
    requires forall k: nat :: LastToWrite(ops, k) ==> !ops[k].w.Written?
    ensures Decode(Run(ops).file, []) == []
  {
    FileHolds(ops);
    if k: nat :| LastToWrite(ops, k) {
      assert Run(ops).file == WrittenBy(ops, k);
    }
  }

  /** An entry created while the file cannot be written is forgotten by the next process, but not removed. */
  lemma UnsavedIsForgotten(name: Name, renames: nat -> bool)
    requires renames(0)
    ensures var c := Apply(EMPTY, Create(name, true, NotOpened, true, renames));
            c.dirs == {name} && Restarted(c).list == [] && !Agree(Restarted(c))
  {
    assert Renamed(renames);
    var c := Apply(EMPTY, Create(name, true, NotOpened, true, renames));
    assert name in c.dirs;
  }

  // ---- any number of processes ----

  /** An operation, or the end of one process and the start of the next. */
  datatype Step = Act(op: Op) | Restart

  ghost function After(c: Cache, s: Step): Cache {
    match s
    case Act(op) => Apply(c, op)
    case Restart => Restarted(c)
  }

  ghost function Life(steps: seq<Step>): Cache {
    if steps == [] then EMPTY else After(Life(steps[..|steps| - 1]), steps[|steps| - 1])
  }

  /** A directory the list does not name, so that no eviction will ever remove it. */
  ghost predicate Unlisted(c: Cache, d: Name) {
    d in c.dirs && d !in c.list
  }

  /** List and file are sound, and the file does not name an unlisted directory either. */
  ghost predicate LifeSound(c: Cache) {
    Sound(c) && FileSound(c) && forall d :: Unlisted(c, d) ==> d !in Decode(c.file, [])
  }

  /** The step lists the directory again, or removes it. */
  predicate Recalls(s: Step, d: Name) {
    s.Act? && s.op.name == d && (s.op.Exists? || (s.op.Delete? && s.op.removable))
  }

  lemma SoundOp(c: Cache, op: Op)
    requires Sound(c)
    ensures Sound(Apply(c, op))
    ensures forall d :: Unlisted(Apply(c, op), d) <==> Unlisted(c, d) && !Recalls(Act(op), d)
    ensures forall d :: Unlisted(Apply(c, op), d) ==> d !in Apply(c, op).list
  {
    match op
    case Exists(name, removable, _) => TouchedSound(c, name, removable);
    case Delete(name, _, _) => WithoutElements(c.list, name);
    case Create(name, removable, _, _, _) => TouchedSound(c, name, removable);
  }

  lemma SoundStep(c: Cache, s: Step)
    requires LifeSound(c)
    ensures LifeSound(After(c, s))
    ensures forall d :: Unlisted(After(c, s), d) <==>
              if s.Restart? then d in c.dirs && d !in Decode(c.file, []) else Unlisted(c, d) && !Recalls(s, d)
  {
    match s
    case Restart =>
    case Act(op) =>
      SoundOp(c, op);
      FileStep(c, op);
  }

  lemma {:induction false} LifeIsSound(steps: seq<Step>)
    ensures LifeSound(Life(steps))
  {
    if steps == [] {
    } else {
      LifeIsSound(steps[..|steps| - 1]);
      SoundStep(Life(steps[..|steps| - 1]), steps[|steps| - 1]);
    }
  }

  /** At restart `r` the directory is there and the file does not name it, and nothing later asks for it. */
  ghost predicate LostAt(steps: seq<Step>, r: nat, d: Name) {
    && r < |steps| && steps[r].Restart?
    && d in Life(steps[..r]).dirs && d !in Decode(Life(steps[..r]).file, [])
    && forall j :: r < j < |steps| ==> !Recalls(steps[j], d)
  }

  lemma LostLater(steps: seq<Step>, r: nat, d: Name)
    requires steps != [] && r < |steps| - 1
    ensures LostAt(steps, r, d) <==> LostAt(steps[..|steps| - 1], r, d) && !Recalls(steps[|steps| - 1], d)
  {
    var front := steps[..|steps| - 1];
    assert front[..r] == steps[..r];
    assert forall j :: r < j < |front| ==> front[j] == steps[j];
  }

  /**
   Over any number of processes a directory is off the list exactly if some restart found it
   missing from the file and since then it was neither asked for nor deleted. Evictions never
   reach it.
   */
  lemma {:induction false} UnlistedIff(steps: seq<Step>, d: Name)
    ensures Unlisted(Life(steps), d) <==> exists r: nat :: LostAt(steps, r, d)
  {
    if steps == [] {
    } else {
      var n := |steps| - 1;
      var front, s := steps[..n], steps[n];
      UnlistedIff(front, d);
      LifeIsSound(front);
      SoundStep(Life(front), s);
      if Unlisted(Life(steps), d) {
        if s.Restart? {
          assert LostAt(steps, n, d);
        } else {
          var r: nat :| LostAt(front, r, d);
          LostLater(steps, r, d);
        }
      }
      if r: nat :| LostAt(steps, r, d) {
        if r < n {
          LostLater(steps, r, d);
          assert Unlisted(Life(front), d);
        }
      }
    }
  }
}
