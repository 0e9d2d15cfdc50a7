/** The protocol as it happens on disk: the log is a byte string, every append can be cut
    after any number of bytes, and recovery reads whatever it finds. Each byte-level step
    is a step of the record-level protocol, so crash atomicity holds of the bytes. */
module WalBytes {
  import opened Wrappers
  import opened Wal
  import P = WalProtocol

  type Disk = P.State<Option<Blob>>

  datatype Event =
    | Take(step: P.Step)
    | CrashInAppend(record: Record, written: nat)

  /** The record an appending step writes. */
  ghost function Appended(s: Disk, step: P.Step): (r: Option<Record>) {
    match step
    case Begin(txn) => Some(BeginRecord(txn))
    case LogBefore(path) => if s.phase.Active? then Some(BeforeRecord(s.phase.txn, path, s.files)) else None
    case Commit => if s.phase.Active? then Some(CommitRecord(s.phase.txn)) else None
    case _ => None
  }

  /** A step may append only when the protocol is at that point. */
  ghost predicate Enabled(s: Disk, step: P.Step) {
    match step
    case Begin(_) => s.phase.Idle?
    case LogBefore(path) => s.phase.Active? && path != [] && path !in s.phase.logged
    case Commit => s.phase.Active?
    case Write(path, _) => s.phase.Active? && path in s.phase.logged
    case Checkpoint => s.phase.Committed?
    case Crash => true
    case Fail => s.phase.Active?
    case RecoveryWrite(path, _) => s.phase.Recovering? && P.WillRestore(Parsed(s.log), path)
    case Recover => s.phase.Recovering?
  }

  ghost predicate Next(s: Disk, event: Event, s': Disk) {
    match event
    case CrashInAppend(r, n) =>
      && (exists step :: Enabled(s, step) && Appended(s, step) == Some(r))
      && Fits(r) && n < |EncodeRecord(r)|
      && s' == s.(log := Append(s.log, EncodeRecord(r)[..n]), phase := P.Recovering)
    case Take(step) =>
      && Enabled(s, step)
      && (Appended(s, step).Some? ==> Fits(Appended(s, step).value))
      && match step
         case Begin(txn) =>
           s' == s.(log := Append(s.log, EncodeRecord(BeginRecord(txn))), phase := P.Active(txn, {}))
         case LogBefore(path) =>
           s' == s.(log := Append(s.log, EncodeRecord(BeforeRecord(s.phase.txn, path, s.files))),
                    phase := P.Active(s.phase.txn, s.phase.logged + {path}))
         case Commit =>
           s' == s.(log := Append(s.log, EncodeRecord(CommitRecord(s.phase.txn))),
                    phase := P.Committed, history := s.history + [s.files])
         case Write(path, content) => s' == s.(files := P.Put(s.files, path, content))
         case RecoveryWrite(path, content) => s' == s.(files := P.Put(s.files, path, content))
         case Checkpoint => s' == s.(log := None, phase := P.Idle)
         case Crash => s' == s.(phase := P.Recovering)
         case Fail => s' == s.(phase := P.Recovering)
         case Recover => s' == s.(files := Recovered(s.files, s.log), log := None, phase := P.Idle)
  }

  ghost predicate Init(s: Disk) {
    s.log == None && s.phase == P.Idle && s.history == [s.files]
  }

  datatype Run = Start(s: Disk) | Then(before: Run, event: Event, after: Disk)

  ghost function Final(run: Run): Disk {
    match run
    case Start(s) => s
    case Then(_, _, s) => s
  }

  ghost predicate IsRun(run: Run) {
    match run
    case Start(s) => Init(s)
    case Then(before, event, after) => IsRun(before) && Next(Final(before), event, after)
  }

  // ------------------------------------------------------------- refinement

  function View(s: Disk): P.State<seq<Record>> {
    P.State(s.files, Parsed(s.log), s.phase, s.history)
  }

  function AsStep(event: Event): P.Step {
    match event
    case Take(step) => step
    case CrashInAppend(_, _) => P.Crash
  }

  ghost predicate IsWhole(log: Option<Blob>) {
    && (forall k :: 0 <= k < |Parsed(log)| ==> Fits(Parsed(log)[k]))
    && (log.Some? ==> log.value == EncodeAll(Parsed(log)))
  }

  /** While the engine runs, the log is a sequence of complete records. */
  ghost predicate Clean(s: Disk) {
    s.phase.Recovering? || IsWhole(s.log)
  }

  lemma AppendRecord(log: Option<Blob>, r: Record)
    requires IsWhole(log) && Fits(r)
    ensures var next := Append(log, EncodeRecord(r));
      Parsed(next) == Parsed(log) + [r] && IsWhole(next)
  {
    EncodeAllAppend(Parsed(log), r);
    ParseAllComplete(Parsed(log) + [r]);
  }

  lemma AppendTorn(log: Option<Blob>, r: Record, n: nat)
    requires IsWhole(log) && Fits(r) && n < |EncodeRecord(r)|
    ensures Parsed(Append(log, EncodeRecord(r)[..n])) == Parsed(log)
  {
    ParseAllTorn(Parsed(log), r, n);
  }

  lemma Refines(s: Disk, event: Event, s': Disk)
    requires Clean(s) && Next(s, event, s')
    ensures Clean(s') && P.Next(View(s), AsStep(event), View(s'))
  {
    match event
    case CrashInAppend(r, n) => AppendTorn(s.log, r, n);
    case Take(step) =>
      if Appended(s, step).Some? {
        AppendRecord(s.log, Appended(s, step).value);
      }
  }

  // --------------------------------------------------------------- theorems

  lemma {:induction false} InvOnRuns(run: Run)
    requires IsRun(run)
    ensures Clean(Final(run)) && P.Inv(View(Final(run)))
  {
    match run
    case Start(s) => P.InvAtBoundary(View(s));
    case Then(before, event, after) =>
      InvOnRuns(before);
      Refines(Final(before), event, after);
      P.InvNext(View(Final(before)), AsStep(event), View(after));
  }

  /** Crash atomicity: stop any run anywhere; recovery gives exactly the directory of the
      last boundary, which moved forward if and only if a commit record was complete. */
  lemma CrashAtomicity(run: Run)
    requires IsRun(run)
    ensures Final(run).history != []
    ensures Recovered(Final(run).files, Final(run).log) == P.Boundary(Final(run))
    ensures Final(run).phase.Idle? ==> Final(run).files == P.Boundary(Final(run))
  {
    InvOnRuns(run);
    P.UndoneIsBoundary(View(Final(run)));
  }

  lemma CommitComplete(run: Run)
    requires IsRun(run) && Final(run).phase.Active? && Fits(CommitRecord(Final(run).phase.txn))
    ensures Recovered(Final(run).files,
                      Append(Final(run).log, EncodeRecord(CommitRecord(Final(run).phase.txn))))
         == Final(run).files
  {
    var s := Final(run);
    CrashAtomicity(Then(run, Take(P.Commit),
                        s.(log := Append(s.log, EncodeRecord(CommitRecord(s.phase.txn))),
                           phase := P.Committed, history := s.history + [s.files])));
  }

  /** The commit record is the commit point: cut it after any number of bytes, and recovery
      gives the files as flushed if all bytes arrived and the files at begin otherwise. */
  lemma CommitPoint(run: Run, record: Record, written: nat)
    requires IsRun(run) && Final(run).phase.Active?
    requires record == CommitRecord(Final(run).phase.txn) && Fits(record)
    requires written <= |EncodeRecord(record)|
    ensures Final(run).history != []
    ensures Recovered(Final(run).files, Append(Final(run).log, EncodeRecord(record)[..written]))
      == if written == |EncodeRecord(record)| then Final(run).files else P.Boundary(Final(run))
  {
    CrashAtomicity(run);
    if written == |EncodeRecord(record)| {
      CommitComplete(run);
      assert EncodeRecord(record)[..written] == EncodeRecord(record);
    } else {
      InvOnRuns(run);
      AppendTorn(Final(run).log, record, written);
    }
  }

  ghost predicate Interruptions(events: seq<Event>) {
    forall k :: 0 <= k < |events| ==>
      events[k].Take? && (events[k].step.RecoveryWrite? || events[k].step.Crash?)
  }

  ghost predicate Leads(s: Disk, events: seq<Event>, s': Disk)
    decreases |events|
  {
    if events == [] then s' == s
    else exists mid :: Next(s, events[0], mid) && Leads(mid, events[1..], s')
  }

  lemma InterruptionKeepsPhase(s: Disk, event: Event, s': Disk)
    requires s.phase.Recovering? && Interruptions([event]) && Next(s, event, s')
    ensures s'.phase.Recovering? && s'.history == s.history
  {
    assert [event][0].Take?;
  }

  /** However often recovery is interrupted after whatever partial writes, running it to
      the end gives the same directory as running it once without interruption. */
  lemma {:induction false} RecoveryIsRestartable(run: Run, events: seq<Event>, s': Disk)
    requires IsRun(run) && Final(run).phase.Recovering?
    requires Interruptions(events) && Leads(Final(run), events, s')
    ensures Recovered(s'.files, s'.log) == Recovered(Final(run).files, Final(run).log)
    decreases |events|
  {
    if events != [] {
      var mid :| Next(Final(run), events[0], mid) && Leads(mid, events[1..], s');
      var longer := Then(run, events[0], mid);
      InterruptionKeepsPhase(Final(run), events[0], mid);
      CrashAtomicity(run);
      CrashAtomicity(longer);
      RecoveryIsRestartable(longer, events[1..], s');
    }
  }
}
