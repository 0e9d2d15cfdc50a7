/** The write-ahead protocol the engine runs over the undo log, at the level of records:
    a statement (or an explicit transaction) begins, logs every file before it first
    changes it, changes files in any way at any time, commits and checkpoints. A crash may
    stop it anywhere, and so may a crash during a later recovery. */
module WalProtocol {
  import opened Wrappers
  import opened Wal

  datatype Phase =
    | Idle
    | Active(txn: nat, logged: set<Path>)  // between begin and commit
    | Committed                            // commit record written, log not yet removed
    | Recovering                           // restarted (or statement failed) with this log

  /** `history` lists the directory states at transaction boundaries: the initial one and
      one per commit record that reached the log completely. `L` is the log: a sequence
      of records here, bytes in module WalBytes. */
  datatype State<L> = State(files: Files, log: L, phase: Phase, history: seq<Files>)

  ghost function Boundary<L>(s: State<L>): Files
    requires s.history != []
  {
    s.history[|s.history| - 1]
  }

  datatype Step =
    | Begin(txn: nat)
    | LogBefore(path: Path)
    | Write(path: Path, content: Option<Blob>)  // page write-back, eviction, catalog save, partial or not
    | Commit
    | Checkpoint
    | Crash
    | Fail                                      // the statement throws and recovery runs in-process
    | RecoveryWrite(path: Path, content: Option<Blob>)  // some part of a restore, then a crash
    | Recover

  function Put(files: Files, path: Path, content: Option<Blob>): Files {
    match content
    case None => files - {path}
    case Some(bytes) => files[path := bytes]
  }

  /** The paths recovery would write to, given the records of the log. */
  ghost predicate WillRestore(rs: seq<Record>, path: Path) {
    var table := Collect(rs);
    exists id :: id in table && !table[id].committed && path in table[id].images
  }

  ghost predicate Next(s: State<seq<Record>>, step: Step, s': State<seq<Record>>) {
    match step
    case Begin(txn) =>
      && s.phase.Idle?
      && s' == s.(log := s.log + [BeginRecord(txn)], phase := Active(txn, {}))
    case LogBefore(path) =>
      && s.phase.Active? && path != [] && path !in s.phase.logged
      && s' == s.(log := s.log + [BeforeRecord(s.phase.txn, path, s.files)],
                  phase := Active(s.phase.txn, s.phase.logged + {path}))
    case Write(path, content) =>
      && s.phase.Active? && path in s.phase.logged
      && s' == s.(files := Put(s.files, path, content))
    case Commit =>
      && s.phase.Active?
      && s' == s.(log := s.log + [CommitRecord(s.phase.txn)], phase := Committed,
                  history := s.history + [s.files])
    case Checkpoint =>
      && s.phase.Committed?
      && s' == s.(log := [], phase := Idle)
    case Crash => s' == s.(phase := Recovering)
    case Fail =>
      && s.phase.Active?
      && s' == s.(phase := Recovering)
    case RecoveryWrite(path, content) =>
      && s.phase.Recovering? && WillRestore(s.log, path)
      && s' == s.(files := Put(s.files, path, content))
    case Recover =>
      && s.phase.Recovering?
      && s' == s.(files := UndoRecords(s.files, s.log), log := [], phase := Idle)
  }

  // -------------------------------------------------------------- invariant

  function ImageOf(files: Files, path: Path): Image {
    Image(path in files, if path in files then files[path] else [])
  }

  /** Restoring `images` over `files` gives `target`, and so it does after any further
      change to the files it restores. */
  ghost predicate Covers(files: Files, images: map<Path, Image>, target: Files) {
    && (forall p :: p in images ==> images[p] == ImageOf(target, p))
    && (forall p {:trigger p in files} {:trigger p in target} ::
          p !in images ==> (p in files <==> p in target) && (p in files ==> files[p] == target[p]))
  }

  lemma CoversRestores(files: Files, images: map<Path, Image>, target: Files)
    requires Covers(files, images, target)
    ensures Restore(files, images) == target
  {
    var r := Restore(files, images);
    forall p
      ensures p in r <==> p in target
      ensures p in r ==> r[p] == target[p]
    {
    }
  }

  /** The log mentions no transaction but `txn`, and undoing it restores these images. */
  ghost predicate Undoes(table: Table, txn: nat, images: map<Path, Image>) {
    && table.Keys <= {txn}
    && images == if txn in table && !table[txn].committed then table[txn].images else map[]
  }

  lemma UndoSingle(files: Files, table: Table, txn: nat, images: map<Path, Image>)
    requires Undoes(table, txn, images)
    ensures Undo(files, table, table.Keys) == Restore(files, images)
  {
    assert Restore(files, map[]) == files;
    if txn in table {
      assert table.Keys == {txn};
      assert Least(table.Keys) == txn;
      assert table.Keys - {txn} == {};
      var next := if table[txn].committed then files else Restore(files, table[txn].images);
      assert Undo(next, table, {}) == next;
    } else {
      assert table.Keys == {};
    }
  }

  /** The log undoes the directory back to the last transaction boundary. */
  ghost predicate InvWith(s: State<seq<Record>>, txn: nat, images: map<Path, Image>) {
    && s.history != []
    && Undoes(Collect(s.log), txn, images)
    && Covers(s.files, images, Boundary(s))
    && match s.phase
       case Idle => s.log == []
       case Active(t, logged) =>
         t == txn && Collect(s.log) == map[txn := Transaction(false, images)]
         && images.Keys == logged
       case Committed => s.files == Boundary(s)
       case Recovering => true
  }

  ghost predicate Inv(s: State<seq<Record>>) {
    exists txn, images :: InvWith(s, txn, images)
  }

  lemma InvAtBoundary(s: State<seq<Record>>)
    requires s.history != [] && s.log == [] && s.files == Boundary(s)
    requires s.phase == Idle || s.phase == Recovering
    ensures Inv(s)
  {
    assert InvWith(s, 0, map[]);
  }

  lemma InvBegin(s: State<seq<Record>>, txn: nat, s': State<seq<Record>>)
    requires Inv(s) && Next(s, Begin(txn), s')
    ensures Inv(s')
  {
    var t: nat, images :| InvWith(s, t, images);
    CollectAppend([], BeginRecord(txn));
    assert [] + [BeginRecord(txn)] == s'.log;
    assert Collect(s'.log) == map[txn := Transaction(false, map[])];
    assert InvWith(s', txn, map[]);
  }

  /** Logging a file that is still as it was at the boundary adds its image to the table. */
  lemma TableAfterBefore(rs: seq<Record>, txn: nat, images: map<Path, Image>, path: Path, files: Files)
    requires Collect(rs) == map[txn := Transaction(false, images)]
    requires path != [] && path !in images
    ensures Collect(rs + [BeforeRecord(txn, path, files)])
         == map[txn := Transaction(false, images[path := ImageOf(files, path)])]
  {
    CollectAppend(rs, BeforeRecord(txn, path, files));
  }

  lemma CoversOneMore(files: Files, images: map<Path, Image>, target: Files, path: Path)
    requires Covers(files, images, target) && path !in images
    ensures Covers(files, images[path := ImageOf(files, path)], target)
  {
  }

  lemma InvLogBefore(s: State<seq<Record>>, path: Path, s': State<seq<Record>>)
    requires Inv(s) && Next(s, LogBefore(path), s')
    ensures Inv(s')
  {
    var txn: nat, images :| InvWith(s, txn, images);
    TableAfterBefore(s.log, txn, images, path, s.files);
    CoversOneMore(s.files, images, Boundary(s), path);
    assert InvWith(s', txn, images[path := ImageOf(s.files, path)]);
  }

  lemma TableAfterCommit(rs: seq<Record>, txn: nat, images: map<Path, Image>)
    requires Collect(rs) == map[txn := Transaction(false, images)]
    ensures Collect(rs + [CommitRecord(txn)]) == map[txn := Transaction(true, images)]
  {
    CollectAppend(rs, CommitRecord(txn));
  }

  lemma InvCommit(s: State<seq<Record>>, s': State<seq<Record>>)
    requires Inv(s) && Next(s, Commit, s')
    ensures Inv(s')
  {
    var txn: nat, images :| InvWith(s, txn, images);
    TableAfterCommit(s.log, txn, images);
    assert InvWith(s', txn, map[]);
  }

  /** A write to a file that recovery will restore is harmless. */
  lemma PutKeepsCovers(files: Files, images: map<Path, Image>, target: Files,
                       path: Path, content: Option<Blob>)
    requires Covers(files, images, target) && path in images
    ensures Covers(Put(files, path, content), images, target)
  {
  }

  lemma InvPut(s: State<seq<Record>>, step: Step, s': State<seq<Record>>)
    requires Inv(s) && Next(s, step, s') && (step.Write? || step.RecoveryWrite?)
    ensures Inv(s')
  {
    var txn: nat, images :| InvWith(s, txn, images);
    PutKeepsCovers(s.files, images, Boundary(s), step.path, step.content);
    assert InvWith(s', txn, images);
  }

  lemma InvStopped(s: State<seq<Record>>, s': State<seq<Record>>)
    requires Inv(s) && s' == s.(phase := Recovering)
    ensures Inv(s')
  {
    var txn: nat, images :| InvWith(s, txn, images);
    assert InvWith(s', txn, images);
  }

  /** Recovery from any state the invariant allows ends at the transaction boundary. */
  lemma UndoneIsBoundary(s: State<seq<Record>>)
    requires Inv(s)
    ensures s.history != [] && UndoRecords(s.files, s.log) == Boundary(s)
    ensures s.phase.Idle? ==> s.files == Boundary(s)
  {
    var txn: nat, images :| InvWith(s, txn, images);
    CoversRestores(s.files, images, Boundary(s));
    UndoSingle(s.files, Collect(s.log), txn, images);
  }

  /** Every step of the protocol, crashes and repeated recoveries included, keeps it. */
  lemma InvNext(s: State<seq<Record>>, step: Step, s': State<seq<Record>>)
    requires Inv(s) && Next(s, step, s')
    ensures Inv(s')
  {
    match step
    case Begin(txn) => InvBegin(s, txn, s');
    case LogBefore(path) => InvLogBefore(s, path, s');
    case Commit => InvCommit(s, s');
    case Write(path, content) => InvPut(s, step, s');
    case RecoveryWrite(path, content) => InvPut(s, step, s');
    case Checkpoint =>
      var txn: nat, images :| InvWith(s, txn, images);
      InvAtBoundary(s');
    case Recover => UndoneIsBoundary(s); InvAtBoundary(s');
    case Crash => InvStopped(s, s');
    case Fail => InvStopped(s, s');
  }
}
