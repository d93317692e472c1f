/**
 * Joining a cluster swaps two objects on disk, the certificate directory and
 * the config file, under a journal. Renames and journal writes are the durable
 * operations; a process may stop after any number of them. Recovery infers
 * what happened from the journal's flags and from which paths exist.
 */
module JoinTransaction {
  import opened Common

  /** One object: the live path, the staged copy and the backup copy. */
  datatype Files = Files(final: Option<string>, staged: Option<string>, backup: Option<string>)

  datatype Phase = Staged | Installing | Installed | Committed

  datatype Journal = Journal(
    phase: Phase,
    certsBackedUp: bool, configBackedUp: bool,
    certsInstalled: bool, configInstalled: bool,
    hadCerts: bool, hadConfig: bool)

  /** The pair of live objects. */
  datatype Pair = Pair(certs: Option<string>, config: Option<string>)

  // -------------------------------------------------------- one object's progress

  /**
   * Where one object can be between install steps: untouched, moved to its
   * backup, or replaced. The flags may lag behind the disk but never lead it.
   */
  predicate InFlight(f: Files, before: Option<string>, next: string, backedUp: bool, installed: bool) {
    || (f == Files(before, Some(next), None) && !backedUp && !installed)
    || (before.Some? && f == Files(None, Some(next), before) && !installed)
    || (f == Files(Some(next), None, before) && (backedUp ==> before.Some?))
  }

  /** The flags describe the disk exactly. */
  predicate Exact(f: Files, backedUp: bool, installed: bool) {
    backedUp == f.backup.Some? && installed == f.staged.None?
  }

  /** Rolling one object back: remove the installed copy, then restore the backup if there is one. */
  function RolledBack(f: Files, backedUp: bool, installed: bool): Files {
    var cleared := if installed then f.(final := None) else f;
    if backedUp && f.backup.Some? then cleared.(final := f.backup, backup := None) else cleared
  }

  function InferInstalled(f: Files, installed: bool, had: bool): bool {
    installed || (f.staged.None? && f.final.Some? && (!had || f.backup.Some?))
  }

  /** What recovery infers is exact, and rolling back on it restores the object as it was. */
  lemma InferenceRestores(f: Files, before: Option<string>, next: string, backedUp: bool, installed: bool)
    requires InFlight(f, before, next, backedUp, installed)
    ensures var b, i := backedUp || f.backup.Some?, InferInstalled(f, installed, before.Some?);
            && Exact(f, b, i)
            && (b ==> f.backup.Some?)
            && RolledBack(f, b, i).final == before
  {
  }

  /** Recovering one object from the journal's flags. */
  function Recovered(f: Files, had: bool, backedUp: bool, installed: bool): Files {
    RolledBack(f, backedUp || f.backup.Some?, InferInstalled(f, installed, had))
  }

  /** Rolling back would look for a backup that is not there. */
  predicate MissesBackup(f: Files, backedUp: bool) {
    (backedUp || f.backup.Some?) && f.backup.None?
  }

  /**
   * Rollback does not rewrite the journal, so it cannot simply be repeated: a
   * second recovery of a restored object, whose backup is used up, keeps it
   * exactly when the journal had not recorded the installation, and looks for
   * the missing backup exactly when the journal had recorded it.
   */
  lemma SecondRecoveryExactly(f: Files, before: Option<string>, next: string, backedUp: bool, installed: bool)
    requires before.Some? && InFlight(f, before, next, backedUp, installed) && f.backup.Some?
    ensures var restored := Recovered(f, true, backedUp, installed);
            && restored.final == before && restored.backup.None?
            && (Recovered(restored, true, backedUp, installed).final == before <==> !installed)
            && (MissesBackup(restored, backedUp) <==> backedUp)
  {
    InferenceRestores(f, before, next, backedUp, installed);
  }

  // ------------------------------------------------------------------- the disk

  class JoinDisk {
    var certs: Files
    var config: Files
    var journal: Option<Journal>

    constructor (live: Pair)
      ensures Live() == live && journal.None?
    {
      certs, config := Files(live.certs, None, None), Files(live.config, None, None);
      journal := None;
    }

    function Live(): Pair
      reads this
    {
      Pair(certs.final, config.final)
    }

    /** Every state an interrupted join can leave: recovery will restore `before`, or keep `next` once committed. */
    predicate Recoverable(before: Pair, next: Pair)
      requires next.certs.Some? && next.config.Some?
      reads this
    {
      match journal
      case None => Live() == before
      case Some(j) =>
        match j.phase
        case Staged => Live() == before
        case Committed => Live() == next
        case _ =>
          && j.hadCerts == before.certs.Some? && j.hadConfig == before.config.Some?
          && InFlight(certs, before.certs, next.certs.value, j.certsBackedUp, j.certsInstalled)
          && InFlight(config, before.config, next.config.value, j.configBackedUp, j.configInstalled)
    }

    predicate IsCommitted()
      reads this
    {
      journal.Some? && journal.value.phase.Committed?
    }

    /** A new transaction directory starts empty. */
    method MakeTransactionRoot()
      modifies this
      ensures certs == Files(old(certs.final), None, None) && config == Files(old(config.final), None, None)
      ensures journal == old(journal)
    {
      certs := Files(certs.final, None, None);
      config := Files(config.final, None, None);
    }

    /** Removing the transaction directory takes staged and backup copies with it. */
    method RemoveRootAndJournal()
      modifies this
      ensures Live() == old(Live()) && journal.None?
    {
      certs := Files(certs.final, None, None);
      config := Files(config.final, None, None);
      journal := None;
    }
  }

  // ------------------------------------------------------------ the installation

  class JoinInstallation {
    const disk: JoinDisk
    var phase: Phase
    var certsBackedUp: bool
    var configBackedUp: bool
    var certsInstalled: bool
    var configInstalled: bool
    var hadCerts: bool
    var hadConfig: bool

    constructor (disk: JoinDisk, j: Journal)
      ensures this.disk == disk && Record() == j
    {
      this.disk := disk;
      phase := j.phase;
      certsBackedUp, configBackedUp := j.certsBackedUp, j.configBackedUp;
      certsInstalled, configInstalled := j.certsInstalled, j.configInstalled;
      hadCerts, hadConfig := j.hadCerts, j.hadConfig;
    }

    function Record(): Journal
      reads this
    {
      Journal(phase, certsBackedUp, configBackedUp, certsInstalled, configInstalled, hadCerts, hadConfig)
    }

    /** In-process memory of an install in progress: exact flags over in-flight objects. */
    predicate Tracks(before: Pair, next: Pair)
      requires next.certs.Some? && next.config.Some?
      reads this, disk
    {
      && hadCerts == before.certs.Some? && hadConfig == before.config.Some?
      && InFlight(disk.certs, before.certs, next.certs.value, certsBackedUp, certsInstalled)
      && InFlight(disk.config, before.config, next.config.value, configBackedUp, configInstalled)
      && Exact(disk.certs, certsBackedUp, certsInstalled)
      && Exact(disk.config, configBackedUp, configInstalled)
    }

    method PersistJournal()
      modifies disk`journal
      ensures disk.journal == Some(Record())
    {
      disk.journal := Some(Record());
    }

    /**
     * Runs at most `stop` durable operations, in source order. `done` is false
     * when the process crashed, or a rename or journal write failed, there.
     */
    method Install(stop: nat, ghost before: Pair, ghost next: Pair) returns (done: bool)
      requires next.certs.Some? && next.config.Some?
      requires Tracks(before, next) && disk.Recoverable(before, next) && !disk.IsCommitted()
      requires disk.certs == Files(before.certs, next.certs, None) && disk.config == Files(before.config, next.config, None)
      modifies this, disk
      ensures Tracks(before, next) && disk.Recoverable(before, next) && !disk.IsCommitted()
      ensures done ==> disk.Live() == next && phase == Installed && disk.journal == Some(Record())
      ensures done <==> stop >= 4 + (if before.certs.Some? then 2 else 0) + (if before.config.Some? then 2 else 0) + 1
    {
      phase := Installing;
      var left := stop;
      if left == 0 { return false; }
      PersistJournal();
      left := left - 1;
      if disk.certs.final.Some? {
        if left == 0 { return false; }
        disk.certs := Files(None, disk.certs.staged, disk.certs.final);
        certsBackedUp := true;
        left := left - 1;
        if left == 0 { return false; }
        PersistJournal();
        left := left - 1;
      }
      if disk.config.final.Some? {
        if left == 0 { return false; }
        disk.config := Files(None, disk.config.staged, disk.config.final);
        configBackedUp := true;
        left := left - 1;
        if left == 0 { return false; }
        PersistJournal();
        left := left - 1;
      }
      if left == 0 { return false; }
      disk.certs := Files(disk.certs.staged, None, disk.certs.backup);
      certsInstalled := true;
      left := left - 1;
      if left == 0 { return false; }
      PersistJournal();
      left := left - 1;
      if left == 0 { return false; }
      disk.config := Files(disk.config.staged, None, disk.config.backup);
      configInstalled := true;
      phase := Installed;
      left := left - 1;
      if left == 0 { return false; }
      PersistJournal();
      return true;
    }

    /** Undoes what the flags say was done; fails if a flagged backup is missing. */
    method Rollback() returns (ok: bool)
      modifies this, disk
      ensures ok <==> (old(configBackedUp) ==> old(disk.config.backup).Some?)
                      && (old(certsBackedUp) ==> old(disk.certs.backup).Some?)
      ensures disk.Live() == Pair(RolledBack(old(disk.certs), old(certsBackedUp), old(certsInstalled)).final,
                                  RolledBack(old(disk.config), old(configBackedUp), old(configInstalled)).final)
      ensures disk.journal == if ok then None else old(disk.journal)
    {
      ok := true;
      if configInstalled {
        disk.config := disk.config.(final := None);
        configInstalled := false;
      }
      if certsInstalled {
        disk.certs := disk.certs.(final := None);
        certsInstalled := false;
      }
      if configBackedUp {
        if disk.config.backup.None? {
          ok := false;
        } else {
          disk.config := disk.config.(final := disk.config.backup, backup := None);
          configBackedUp := false;
        }
      }
      if certsBackedUp {
        if disk.certs.backup.None? {
          ok := false;
        } else {
          disk.certs := disk.certs.(final := disk.certs.backup, backup := None);
          certsBackedUp := false;
        }
      }
      if ok {
        disk.RemoveRootAndJournal();
      }
    }

    method Commit()
      modifies this`phase, disk`journal
      ensures phase == Committed && disk.journal == Some(Record())
    {
      phase := Committed;
      PersistJournal();
    }
  }

  /** Recovery at start-up, run to its end. */
  method RecoverJoinInstallation(disk: JoinDisk, ghost before: Pair, ghost next: Pair)
    requires next.certs.Some? && next.config.Some? && disk.Recoverable(before, next)
    modifies disk
    ensures disk.journal.None?
    ensures disk.Live() == if old(disk.IsCommitted()) then next else before
  {
    if disk.journal.None? {
      return;
    }
    var j := disk.journal.value;
    if j.phase == Committed || j.phase == Staged {
      disk.RemoveRootAndJournal();
      return;
    }
    InferenceRestores(disk.certs, before.certs, next.certs.value, j.certsBackedUp, j.certsInstalled);
    InferenceRestores(disk.config, before.config, next.config.value, j.configBackedUp, j.configInstalled);
    var inferred := j.(
      certsBackedUp := j.certsBackedUp || disk.certs.backup.Some?,
      configBackedUp := j.configBackedUp || disk.config.backup.Some?,
      certsInstalled := InferInstalled(disk.certs, j.certsInstalled, j.hadCerts),
      configInstalled := InferInstalled(disk.config, j.configInstalled, j.hadConfig));
    var installation := new JoinInstallation(disk, inferred);
    var ok := installation.Rollback();
  }

  // ------------------------------------------------------------- whole attempts

  /** How one join attempt ends. */
  datatype Ending =
    | CrashStaging(written: nat)     // before or right after the staged journal is written
    | StopFails                      // the running node cannot be stopped: nothing was installed
    | CrashInstalling(stop: nat)     // the process dies after `stop` install operations
    | InstallFails(stop: nat)        // an install operation fails, rollback runs in process
    | StartFails                     // the joined node does not start, rollback runs in process
    | CommitFails(recorded: bool)    // the commit reports an error, its record on disk or not; rollback runs in process
    | CrashBeforeCommit
    | CrashAfterCommit
    | Completes

  datatype Attempt = Attempt(certs: string, config: string, ending: Ending)

  function NextPair(a: Attempt): Pair {
    Pair(Some(a.certs), Some(a.config))
  }

  predicate Commits(a: Attempt) {
    a.ending.CrashAfterCommit? || a.ending.Completes?
  }

  /** Writes the staged copies, then the journal; stops after `written` of the three. */
  method StageJoin(disk: JoinDisk, a: Attempt, written: nat) returns (installation: Option<JoinInstallation>)
    requires disk.journal.None?
    modifies disk
    ensures disk.Live() == old(disk.Live())
    ensures installation.None? <==> written < 3
    ensures installation.None? ==> disk.journal.None?
    ensures installation.Some? ==>
              var i := installation.value;
              && fresh(i) && i.disk == disk && disk.journal == Some(i.Record())
              && i.Record() == Journal(Staged, false, false, false, false,
                                       disk.certs.final.Some?, disk.config.final.Some?)
              && disk.certs == Files(old(disk.certs.final), Some(a.certs), None)
              && disk.config == Files(old(disk.config.final), Some(a.config), None)
  {
    disk.MakeTransactionRoot();
    var had := Journal(Staged, false, false, false, false, disk.certs.final.Some?, disk.config.final.Some?);
    if written == 0 { return None; }
    disk.certs := disk.certs.(staged := Some(a.certs));
    if written == 1 { return None; }
    disk.config := disk.config.(staged := Some(a.config));
    if written == 2 { return None; }
    var i := new JoinInstallation(disk, had);
    i.PersistJournal();
    installation := Some(i);
  }

  /** One attempt from start-up to its ending; in-memory state is lost afterwards. */
  method RunJoin(disk: JoinDisk, a: Attempt, ghost before: Pair, ghost last: Pair)
    requires last.certs.Some? && last.config.Some? && disk.Recoverable(before, last)
    modifies disk
    ensures var start := if old(disk.IsCommitted()) then last else before;
            && disk.Recoverable(if a.ending.Completes? then NextPair(a) else start, NextPair(a))
            && disk.IsCommitted() == a.ending.CrashAfterCommit?
  {
    ghost var start := if disk.IsCommitted() then last else before;
    ghost var next := NextPair(a);
    RecoverJoinInstallation(disk, before, last);
    var written := if a.ending.CrashStaging? then a.ending.written else 3;
    var staged := StageJoin(disk, a, written);
    if staged.None? || a.ending.CrashStaging? {
      return;
    }
    var installation := staged.value;
    if a.ending.StopFails? {
      disk.RemoveRootAndJournal();
      return;
    }
    var stop := if a.ending.CrashInstalling? || a.ending.InstallFails? then a.ending.stop else 9;
    var done := installation.Install(stop, start, next);
    if a.ending.CrashInstalling? || a.ending.CrashBeforeCommit? {
      return;
    }
    FinishJoin(installation, a, done, start);
  }

  /** What the process does after the install: roll back on any failure, else commit and clean up. */
  method FinishJoin(installation: JoinInstallation, a: Attempt, done: bool, ghost start: Pair)
    requires !a.ending.CrashInstalling? && !a.ending.CrashBeforeCommit?
    requires installation.Tracks(start, NextPair(a)) && !installation.disk.IsCommitted()
    requires done ==> installation.disk.Live() == NextPair(a)
    requires !done ==> a.ending.InstallFails?
    requires !(a.ending.CrashStaging? || a.ending.StopFails?)
    modifies installation, installation.disk
    ensures var disk := installation.disk;
            && disk.Recoverable(if a.ending.Completes? then NextPair(a) else start, NextPair(a))
            && disk.IsCommitted() == a.ending.CrashAfterCommit?
  {
    if !done || a.ending.InstallFails? || a.ending.StartFails? || a.ending.CommitFails? {
      if a.ending.CommitFails? && a.ending.recorded {
        installation.Commit();
      }
      var ok := installation.Rollback();
      return;
    }
    installation.Commit();
    if a.ending.CrashAfterCommit? {
      return;
    }
    installation.disk.RemoveRootAndJournal();
  }

  /** The pair a sequence of attempts must leave: that of the last committed one, else the first pair. */
  function Outcome(initial: Pair, attempts: seq<Attempt>): Pair {
    if attempts == [] then initial
    else
      var last := attempts[|attempts| - 1];
      if Commits(last) then NextPair(last) else Outcome(initial, attempts[..|attempts| - 1])
  }

  /** Any attempts, each ending anywhere, then one recovery: certificates and config are a matching pair. */
  method RunJoins(initial: Pair, attempts: seq<Attempt>) returns (live: Pair)
    ensures live == Outcome(initial, attempts)
  {
    var disk := new JoinDisk(initial);
    ghost var before, last := initial, Pair(Some(""), Some(""));
    for i := 0 to |attempts|
      invariant last.certs.Some? && last.config.Some?
      invariant disk.Recoverable(before, last) && fresh(disk)
      invariant Outcome(initial, attempts[..i]) == if disk.IsCommitted() then last else before
    {
      assert attempts[..i + 1][..i] == attempts[..i];
      ghost var start := if disk.IsCommitted() then last else before;
      RunJoin(disk, attempts[i], before, last);
      last := NextPair(attempts[i]);
      before := if attempts[i].ending.Completes? then last else start;
    }
    assert attempts[..|attempts|] == attempts;
    RecoverJoinInstallation(disk, before, last);
    live := disk.Live();
  }

  /** The outcome is the pair of the last attempt that reached its commit, and the first pair if none did. */
  lemma {:induction false} LastCommitWins(initial: Pair, attempts: seq<Attempt>, k: nat)
    requires k <= |attempts|
    requires forall m | k <= m < |attempts| :: !attempts[m].ending.CrashAfterCommit? && !attempts[m].ending.Completes?
    ensures k == 0 ==> Outcome(initial, attempts) == initial
    ensures k > 0 && (attempts[k - 1].ending.CrashAfterCommit? || attempts[k - 1].ending.Completes?) ==>
              Outcome(initial, attempts) == Pair(Some(attempts[k - 1].certs), Some(attempts[k - 1].config))
  {
    if k < |attempts| {
      LastCommitWins(initial, attempts[..|attempts| - 1], k);
    }
  }

  /** The outcome never mixes attempts: both objects come from one committed attempt, or both from the start. */
  lemma {:induction false} OutcomeIsOnePair(initial: Pair, attempts: seq<Attempt>)
    ensures Outcome(initial, attempts) == initial
            || exists k :: 0 <= k < |attempts| && Commits(attempts[k]) && Outcome(initial, attempts) == NextPair(attempts[k])
  {
    if attempts != [] && !Commits(attempts[|attempts| - 1]) {
      var front := attempts[..|attempts| - 1];
      OutcomeIsOnePair(initial, front);
      if Outcome(initial, front) != initial {
        var k :| 0 <= k < |front| && Commits(front[k]) && Outcome(initial, front) == NextPair(front[k]);
        assert attempts[k] == front[k];
      }
    }
  }
}
