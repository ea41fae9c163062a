/**
 The credential storage behind `Auth`: a cached last read over the keyring or a file, with a
 single fail-over from the first to the second. How the storages fare is given with each
 operation; what follows, for the cache and for a later process, is modelled.
 */
module CredentialCache {
  import opened Common
  import opened PersistedState

  // ---- the keyring behind a time limit ----

  /** How an operation on the keyring ends. */
  datatype Answer<+R> = Done(result: R) | Failed | TimedOut

  /**
   The keyring is moved into the thread that runs an operation and comes back with its
   result; after a timeout it never comes back. `present` says whether it is there.
   */
  class ThreadKeyring {
    var present: bool

    constructor ()
      ensures present
    {
      present := true;
    }

    /** Runs an operation that would end in `answer` if the keyring were there. */
    method ThreadOp<R>(answer: Answer<R>) returns (r: Answer<R>)
      modifies this
      ensures r == if old(present) then answer else TimedOut
      ensures present == (old(present) && !answer.TimedOut?)
    {
      if !present {
        return TimedOut;
      }
      present := false;
      match answer {
        case TimedOut => r := TimedOut;
        case _ =>
          present := true;
          r := answer;
      }
    }
  }

  function Through<R>(present: bool, answer: Answer<R>): Answer<R> {
    if present then answer else TimedOut
  }

  // ---- storage and cache ----

  datatype Backend = Keyring(present: bool) | File

  /** The storage in use, with what the keyring and the file hold for the next process to read. */
  datatype Storage<C> = Storage(
    backend: Backend,
    fallback: bool,
    lastRead: Option<C>,
    keyring: Option<C>,
    file: FileContents<Option<C>>)

  /** What a process finds: whether the user asks for the file, how the keyring answers, and what the two hold. */
  datatype Setup<C> = Setup(useFile: bool, answer: Answer<()>, keyring: Option<C>, file: FileContents<Option<C>>)

  /** How an operation fares: the keyring's answer and what it holds then, and the write of the file. */
  datatype Attempt<C> = Attempt(answer: Answer<()>, left: Option<C>, write: WriteOutcome)

  datatype Op<C> =
    | Get
    | Store(creds: C, at: Attempt<C>)
    | Clear(at: Attempt<C>)

  /** The keyring is not asked, or cannot be read: the user wants the file, or the keyring fails. */
  predicate Bypassed<C>(setup: Setup<C>) {
    setup.useFile || !setup.answer.Done?
  }

  /** Opening the storage: an existing file is preferred, and a keyring that cannot be read given up for it at once. */
  function Opened<C>(setup: Setup<C>): Storage<C> {
    if !Bypassed(setup) && setup.file.Absent? then
      Storage(Keyring(true), true, setup.keyring, setup.keyring, setup.file)
    else Storage(File, false, Decode(setup.file, None), setup.keyring, setup.file)
  }

  function Succeeds<C>(s: Storage<C>, op: Op<C>): bool {
    op.Get? ||
    match s.backend
    case Keyring(present) => Through(present, op.at.answer).Done?
    case File => op.at.write.Written?
  }

  /** The storage in use after it has tried to change what it holds to `value`. */
  function Tried<C>(s: Storage<C>, value: Option<C>, at: Attempt<C>): Storage<C> {
    match s.backend
    case Keyring(present) =>
      s.(backend := Keyring(present && !at.answer.TimedOut?), keyring := if present then at.left else s.keyring)
    case File => s.(file := Write(s.file, value, at.write))
  }

  function Next<C>(s: Storage<C>, op: Op<C>): Storage<C> {
    match op
    case Get => s
    case Store(creds, at) =>
      var s1 := Tried(s, Some(creds), at);
      if !Succeeds(s, op) && s.fallback then
        Tried(s1.(backend := File, fallback := false), Some(creds), at).(lastRead := Some(creds))
      else s1.(lastRead := Some(creds))
    case Clear(at) =>
      var s1 := Tried(s, None, at);
      if Succeeds(s, op) then s1.(lastRead := None) else s1
  }

  class Auth<C(==)> {
    var storage: Option<Storage<C>>

    constructor ()
      ensures storage == None
    {
      storage := None;
    }

    /** The storage as the next operation finds it: opened by whichever comes first. */
    function Found(setup: Setup<C>): Storage<C>
      reads this
    {
      if storage.Some? then storage.value else Opened(setup)
    }

    /**
     Opens the storage once. The file is used, without a fallback, if the user asks for it, if
     it exists, or if the keyring fails or does not answer in time; else the keyring, and what
     it was found to hold is the first read.
     */
    method WithStorage(setup: Setup<C>) returns (s: Storage<C>)
      modifies this
      ensures storage == Some(s) && s == old(Found(setup))
      ensures old(storage) == None && (setup.useFile || !setup.file.Absent? || !setup.answer.Done?) ==>
                s.backend.File? && !s.fallback && s.lastRead == if setup.file.Json? then setup.file.value else None
      ensures old(storage) == None && !setup.useFile && setup.file.Absent? && setup.answer.Done? ==>
                s.backend == Keyring(true) && s.fallback && s.lastRead == setup.keyring
      ensures old(storage).Some? ==> storage == old(storage)
      ensures old(storage) == None ==> s.keyring == setup.keyring && s.file == setup.file
    {
      if storage == None {
        if setup.useFile || !setup.file.Absent? {
          storage := Some(Storage(File, false, Decode(setup.file, None), setup.keyring, setup.file));
        } else {
          match setup.answer {
            case Done(_) =>
              storage := Some(Storage(Keyring(true), true, setup.keyring, setup.keyring, setup.file));
            case _ =>
              storage := Some(Storage(File, false, Decode(setup.file, None), setup.keyring, setup.file));
          }
        }
      }
      s := storage.value;
    }

    method GetCurrentCredential(setup: Setup<C>) returns (r: Option<C>)
      modifies this
      ensures storage == Some(Next(old(Found(setup)), Get))
      ensures r == storage.value.lastRead
      ensures old(storage).Some? ==> storage == old(storage)
      ensures old(storage) == None && (setup.useFile || !setup.file.Absent? || !setup.answer.Done?) ==>
                r == if setup.file.Json? then setup.file.value else None
      ensures old(storage) == None && !setup.useFile && setup.file.Absent? && setup.answer.Done? ==>
                r == setup.keyring
    {
      var s := WithStorage(setup);
      r := s.lastRead;
    }

    /** Lets the storage in use store or clear. */
    method Attempted(s: Storage<C>, value: Option<C>, at: Attempt<C>) returns (s': Storage<C>, ok: bool)
      ensures s' == Tried(s, value, at)
      ensures ok == Succeeds(s, Clear(at))
    {
      match s.backend {
        case Keyring(present) =>
          var thread := new ThreadKeyring();
          thread.present := present;
          var r := thread.ThreadOp(at.answer);
          ok := r.Done?;
          s' := s.(backend := Keyring(thread.present));
          if present {
            s' := s'.(keyring := at.left);
          }
        case File =>
          var file := new Container(None, s.file);
          ok := file.Save(value, at.write);
          s' := s.(file := file.file);
      }
    }

    /** Stores with the storage in use; if that fails and there is a fallback, switches to it for good. */
    method StoreCredentials(setup: Setup<C>, creds: C, at: Attempt<C>)
      modifies this
      ensures storage == Some(Next(old(Found(setup)), Store(creds, at)))
      ensures storage.value.lastRead == Some(creds)
    {
      var s := WithStorage(setup);
      var ok;
      s, ok := Attempted(s, Some(creds), at);
      if !ok && s.fallback {
        s := s.(backend := File, fallback := false);
        s, ok := Attempted(s, Some(creds), at);  // a second failure is only logged
      }
      s := s.(lastRead := Some(creds));
      storage := Some(s);
    }

    method ClearCredentials(setup: Setup<C>, at: Attempt<C>) returns (ok: bool)
      modifies this
      ensures storage == Some(Next(old(Found(setup)), Clear(at)))
      ensures ok == Succeeds(old(Found(setup)), Clear(at))
      ensures storage.value.lastRead == if ok then None else old(Found(setup)).lastRead
    {
      var s := WithStorage(setup);
      s, ok := Attempted(s, None, at);
      if ok {
        s := s.(lastRead := None);
      }
      storage := Some(s);
    }
  }

  // ---- any sequence of operations ----

  function Run<C>(s: Storage<C>, ops: seq<Op<C>>): Storage<C> {
    if ops == [] then s else Next(Run(s, ops[..|ops| - 1]), ops[|ops| - 1])
  }

  /** Operation `k` is the last one that decides the credential: every store does, a clear if it succeeded. */
  ghost predicate Decides<C>(s: Storage<C>, ops: seq<Op<C>>, k: nat) {
    && k < |ops|
    && (ops[k].Store? || (ops[k].Clear? && Succeeds(Run(s, ops[..k]), ops[k])))
    && forall j :: k < j < |ops| ==> ops[j].Get? || (ops[j].Clear? && !Succeeds(Run(s, ops[..j]), ops[j]))
  }

  /**
   The credential reported is the last one stored, none after the last successful clear, and
   what the first read found if there was neither, even when both storages fail.
   */
  lemma {:induction false} LastDecisionCounts<C>(s: Storage<C>, ops: seq<Op<C>>)
    ensures forall k: nat :: Decides(s, ops, k) ==>
              Run(s, ops).lastRead == if ops[k].Store? then Some(ops[k].creds) else None
    ensures (forall k: nat :: !Decides(s, ops, k)) ==> Run(s, ops).lastRead == s.lastRead
  {
    if ops == [] {
    } else {
      var n := |ops| - 1;
      var front := ops[..n];
      LastDecisionCounts(s, front);
      assert forall j :: 0 <= j <= n ==> front[..j] == ops[..j];
      if ops[n].Store? || (ops[n].Clear? && Succeeds(Run(s, front), ops[n])) {
        assert Decides(s, ops, n);
        forall k: nat | Decides(s, ops, k) ensures k == n {}
      } else {
        forall k: nat | Decides(s, ops, k) || Decides(s, front, k)
          ensures Decides(s, ops, k) && Decides(s, front, k)
        {
          KeepsDeciding(s, ops, k);
        }
      }
    }
  }

  lemma KeepsDeciding<C>(s: Storage<C>, ops: seq<Op<C>>, k: nat)
    requires ops != [] && k < |ops| - 1
    requires ops[|ops| - 1].Get? || (ops[|ops| - 1].Clear? && !Succeeds(Run(s, ops[..|ops| - 1]), ops[|ops| - 1]))
    ensures Decides(s, ops[..|ops| - 1], k) <==> Decides(s, ops, k)
  {
    var front := ops[..|ops| - 1];
    assert forall j :: 0 <= j <= |front| ==> front[..j] == ops[..j];
  }

  /** The keyring is replaced by the file exactly when a store on it fails, and the file by nothing. */
  lemma SwitchesOnFailedStore<C>(s: Storage<C>, op: Op<C>)
    requires s.fallback <==> s.backend.Keyring?
    ensures Next(s, op).fallback <==> Next(s, op).backend.Keyring?
    ensures s.backend.File? ==> Next(s, op).backend.File?
    ensures s.backend.Keyring? ==> (Next(s, op).backend.File? <==> op.Store? && !Succeeds(s, op))
  {}

  /** So there is at most one switch over any run: once on the file, always on the file. */
  lemma {:induction false} NeverSwitchesBack<C>(setup: Setup<C>, ops: seq<Op<C>>, k: nat)
    requires k <= |ops|
    ensures Run(Opened(setup), ops).fallback <==> Run(Opened(setup), ops).backend.Keyring?
    ensures Run(Opened(setup), ops[..k]).backend.File? ==> Run(Opened(setup), ops).backend.File?
  {
    if ops == [] {
    } else {
      var n := |ops| - 1;
      NeverSwitchesBack(setup, ops[..n], if k <= n then k else n);
      SwitchesOnFailedStore(Run(Opened(setup), ops[..n]), ops[n]);
      assert k <= n ==> ops[..n][..k] == ops[..k];
      assert k > n ==> ops[..k] == ops;
    }
  }

  ghost predicate Timeouts<C>(op: Op<C>) {
    !op.Get? && op.at.answer.TimedOut?
  }

  /** While the keyring is in use it is there exactly if no operation on it has timed out. */
  lemma {:induction false} PresentIff<C>(setup: Setup<C>, ops: seq<Op<C>>)
    requires Run(Opened(setup), ops).backend.Keyring?
    ensures Run(Opened(setup), ops).backend.present <==> forall k :: 0 <= k < |ops| ==> !Timeouts(ops[k])
  {
    if ops == [] {
    } else {
      var front := ops[..|ops| - 1];
      NeverSwitchesBack(setup, ops, |front|);
      PresentIff(setup, front);
      assert forall k :: 0 <= k < |front| ==> front[k] == ops[k];
    }
  }

  /**
   A store or clear on the keyring succeeds exactly if the keyring does it and none before it
   timed out: one timeout is final.
   */
  lemma TimeoutIsFinal<C>(setup: Setup<C>, ops: seq<Op<C>>, m: nat)
    requires m < |ops| && !ops[m].Get? && Run(Opened(setup), ops[..m]).backend.Keyring?
    ensures Succeeds(Run(Opened(setup), ops[..m]), ops[m])
       <==> ops[m].at.answer.Done? && forall k :: 0 <= k < m ==> !Timeouts(ops[k])
  {
    PresentIff(setup, ops[..m]);
    assert forall k :: 0 <= k < m ==> ops[..m][k] == ops[k];
  }

  // ---- what a later process reads ----

  /** The keyring does what it says: a store it accepts is read back, and a clear leaves nothing. */
  ghost predicate Honest<C>(op: Op<C>) {
    !op.Get? && op.at.answer.Done? ==> op.at.left == if op.Store? then Some(op.creds) else None
  }

  /** What a new process reads first, with or without the keyring. */
  function Reopened<C>(s: Storage<C>, bypass: bool): Option<C> {
    Opened(Setup(bypass, Done(()), s.keyring, s.file)).lastRead
  }

  /** While the keyring is in use there is no file, and the process did not have to do without the keyring. */
  ghost predicate Consistent<C>(s: Storage<C>, bypass: bool) {
    && (s.backend.Keyring? ==> s.file.Absent? && s.fallback && !bypass)
    && (s.backend.File? ==> !s.fallback)
  }

  /** The operation's outcome reached the storage: in the first place, or the file after the fail-over. */
  ghost predicate Persisted<C>(s: Storage<C>, op: Op<C>) {
    Succeeds(s, op) || (op.Store? && s.fallback && op.at.write.Written?)
  }

  /** What is left for a new process if it did not: the old file, nothing of a broken one, or the keyring's remains. */
  function Leftover<C>(s: Storage<C>, op: Op<C>, bypass: bool): Option<C>
    requires !op.Get?
  {
    var remains := match s.backend
      case Keyring(present) => if present then op.at.left else s.keyring
      case File => s.keyring;
    if s.backend.Keyring? && op.Clear? then remains
    else if op.at.write.BrokenOff? then None
    else if bypass || !s.file.Absent? then Decode(s.file, None)
    else remains
  }

  /** After one operation: exactly what a new process reads. */
  lemma ReopenedAfter<C>(s: Storage<C>, op: Op<C>, bypass: bool)
    requires Consistent(s, bypass) && Honest(op) && !op.Get?
    ensures Consistent(Next(s, op), bypass)
    ensures Reopened(Next(s, op), bypass)
         == if Persisted(s, op) then Next(s, op).lastRead else Leftover(s, op, bypass)
  {
    match s.backend
    case Keyring(present) =>
    case File =>
  }

  /** Operation `k` is the last store or clear. */
  ghost predicate LastChange<C>(ops: seq<Op<C>>, k: nat) {
    k < |ops| && !ops[k].Get? && forall j :: k < j < |ops| ==> ops[j].Get?
  }

  /**
   After any run a new process reads the same credential as this one if the last store or
   clear was persisted, or there was none; otherwise exactly what that one left over.
   */
  lemma {:induction false} ReopenedReads<C>(setup: Setup<C>, ops: seq<Op<C>>)
    requires forall op :: op in ops ==> Honest(op)
    ensures var s, bypass := Run(Opened(setup), ops), Bypassed(setup);
            && Consistent(s, bypass)
            && ((forall k: nat :: !LastChange(ops, k)) ==> Reopened(s, bypass) == s.lastRead)
            && (forall k: nat :: LastChange(ops, k) ==>
                  var before := Run(Opened(setup), ops[..k]);
                  Reopened(s, bypass)
                  == if Persisted(before, ops[k]) then s.lastRead else Leftover(before, ops[k], bypass))
  {
    if ops == [] {
    } else {
      var n := |ops| - 1;
      var front, op := ops[..n], ops[n];
      ReopenedReads(setup, front);
      assert op in ops;
      if op.Get? {
        forall k: nat ensures LastChange(ops, k) <==> LastChange(front, k) {
          assert k < n ==> front[k] == ops[k];
          assert LastChange(front, k) ==> forall j :: k < j < n ==> ops[j] == front[j];
          assert LastChange(ops, k) ==> forall j :: k < j < n ==> front[j] == ops[j];
        }
        assert forall k: nat :: k <= n ==> front[..k] == ops[..k];
      } else {
        ReopenedAfter(Run(Opened(setup), front), op, Bypassed(setup));
        assert LastChange(ops, n);
        forall k: nat | LastChange(ops, k) ensures k == n {}
      }
    }
  }

  /** When both stores fail, this process goes on with the new credential and the next one finds the old. */
  lemma StaleReturns<C>(a: C, b: C)
    requires a != b
    ensures var setup := Setup(false, Done(()), Some(a), Absent);
            var s := Run(Opened(setup), [Store(b, Attempt(Failed, Some(a), NotOpened))]);
            s.lastRead == Some(b) && Reopened(s, false) == Some(a)
  {
    var op := Store(b, Attempt(Failed, Some(a), NotOpened));
    assert [op][..0] == [];
  }
}
