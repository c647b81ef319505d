/**
 The multi-file output transaction (src/cli/output.rs).

 Outputs are staged to hidden siblings, swapped in one by one with the old file kept as a backup,
 and undone in reverse when a step fails; whatever is left is finished by `Drop`.
 */
module OutputTransaction {
  import opened Basics
  import opened FileSystem
  import opened OutputProgress
  import LexicalPath

  /** The failure that a test may inject. */
  datatype CommitFailure = Never | BeforeCommit | AfterReplacement(count: nat)

  /** `Committed` is Ok; the others are the different errors. */
  datatype Outcome = Committed | NotStarted | RolledBack | RollbackIncomplete | CleanupFailed

  /**
   From entry i on: where there was no file, there is one now exactly when the entry was among the first n, which were
   replaced, and its removal failed at the moment rollback tried it.
   */
  ghost predicate NewKept(disk: Disk, from: nat, pre: Files, now: Files, es: seq<PendingOutput>, n: nat,
                          attempts: seq<nat>, i: nat)
  {
    && |attempts| == |es|
    && (forall j :: i <= j < |es| ==> from <= attempts[j])
    && (forall j :: i <= j < |es| && es[j].destination !in pre ==>
          (es[j].destination in now <==> j < n && disk.fault(attempts[j], Op.Remove(es[j].destination))))
  }

  lemma NewKeptStep(disk: Disk, from: nat, pre: Files, before: Files, now: Files, es: seq<PendingOutput>,
                    moved: seq<Option<Path>>, n: nat, attempts: seq<nat>, i: nat, moment: nat)
    requires WellNamed(es) && BackupPaths(es, moved) && i < |es| && from <= moment
    requires NewKept(disk, from, pre, before, es, n, attempts, i + 1) && ChangesOnly(before, now, es[i], moved[i])
    requires es[i].destination !in pre ==>
               (es[i].destination in now <==> i < n && disk.fault(moment, Op.Remove(es[i].destination)))
    ensures NewKept(disk, from, pre, now, es, n, attempts[i := moment], i)
  {
    StepIsLocal(pre, before, now, es, moved, i);
    forall j | i < j < |es| ensures SameAt(before, now, es[j].destination) {
      assert SameFor(before, now, es[j], moved[j]);
    }
  }

  lemma NewKeptAfterDrop(disk: Disk, from: nat, pre: Files, mid: Files, now: Files, es: seq<PendingOutput>,
                         entries: seq<PendingOutput>, moved: seq<Option<Path>>, n: nat, attempts: seq<nat>)
    requires Accounted(pre, mid, es, entries, moved) && BackupsAgree(entries, moved)
    requires NewKept(disk, from, pre, mid, es, n, attempts, 0) && AllDropping(mid, now, entries)
    ensures NewKept(disk, from, pre, now, es, n, attempts, 0)
  {
    forall j | 0 <= j < |es| && es[j].destination !in pre ensures SameAt(mid, now, es[j].destination) {
      assert Dropping(mid, now, entries[j]);
      assert moved[j] == None;
    }
  }

  /** What holds from a later moment on holds from an earlier one on. */
  lemma NewKeptFrom(disk: Disk, from: nat, later: nat, pre: Files, now: Files, es: seq<PendingOutput>,
                    fs: seq<PendingOutput>, n: nat, attempts: seq<nat>)
    requires from <= later && NewKept(disk, later, pre, now, es, n, attempts, 0) && SameNames(es, fs)
    ensures NewKept(disk, from, pre, now, fs, n, attempts, 0)
  {
  }

  /** No removal of a replaced file where there was none failed in the rollback. */
  ghost predicate RemovalsWorked(disk: Disk, pre: Files, es: seq<PendingOutput>, n: nat, attempts: seq<nat>) {
    forall j :: 0 <= j < n && j < |es| && j < |attempts| && es[j].destination !in pre ==>
      !disk.fault(attempts[j], Op.Remove(es[j].destination))
  }

  /** With every existing file restored, the outputs are all old exactly when those removals worked. */
  lemma OldWhenRemoved(disk: Disk, from: nat, pre: Files, now: Files, es: seq<PendingOutput>, n: nat,
                       attempts: seq<nat>)
    requires NewKept(disk, from, pre, now, es, n, attempts, 0) && OldUnlessNew(pre, now, es)
    ensures AllOld(pre, now, es) <==> RemovalsWorked(disk, pre, es, n, attempts)
  {
    if !RemovalsWorked(disk, pre, es, n, attempts) {
      var j :| 0 <= j < n && j < |es| && es[j].destination !in pre
               && disk.fault(attempts[j], Op.Remove(es[j].destination));
      assert !SameAt(pre, now, es[j].destination);
    }
  }

  /** The undo of one entry, begun at this moment, works: the removal of a new file, the renaming of a backup. */
  ghost predicate UndoneAt(disk: Disk, moment: nat, destination: Path, committed: bool, m: Option<Path>) {
    && (committed ==> !disk.fault(moment, Op.Remove(destination)))
    && (m.Some? ==> !disk.fault(moment + (if committed then 1 else 0), Op.Rename(m.value, destination)))
  }

  /** From entry i on, with the first n replaced, every undo worked at the moment rollback came to it. */
  ghost predicate UndoesWorked(disk: Disk, es: seq<PendingOutput>, n: nat, moved: seq<Option<Path>>,
                               attempts: seq<nat>, i: nat)
  {
    && |moved| == |attempts| == |es|
    && forall j :: i <= j < |es| ==> UndoneAt(disk, attempts[j], es[j].destination, j < n, moved[j])
  }

  lemma UndoesWorkedStep(disk: Disk, es: seq<PendingOutput>, n: nat, moved: seq<Option<Path>>, attempts: seq<nat>,
                         i: nat, moment: nat)
    requires i < |es| == |moved| == |attempts|
    ensures UndoesWorked(disk, es, n, moved, attempts[i := moment], i) <==>
              && UndoesWorked(disk, es, n, moved, attempts, i + 1)
              && UndoneAt(disk, moment, es[i].destination, i < n, moved[i])
  {
    hide UndoneAt;
    var more := attempts[i := moment];
    if UndoesWorked(disk, es, n, moved, more, i) {
      forall j | i + 1 <= j < |es| ensures UndoneAt(disk, attempts[j], es[j].destination, j < n, moved[j]) {
        assert more[j] == attempts[j];
      }
      assert more[i] == moment;
    }
  }

  lemma NoUndoYet(disk: Disk, es: seq<PendingOutput>, n: nat, moved: seq<Option<Path>>, attempts: seq<nat>)
    requires |moved| == |attempts| == |es|
    ensures UndoesWorked(disk, es, n, moved, attempts, |es|)
  {
  }

  lemma UndoesWorkedFor(disk: Disk, es: seq<PendingOutput>, fs: seq<PendingOutput>, n: nat, moved: seq<Option<Path>>,
                        attempts: seq<nat>)
    requires SameNames(es, fs)
    ensures UndoesWorked(disk, es, n, moved, attempts, 0) <==> UndoesWorked(disk, fs, n, moved, attempts, 0)
  {
    hide UndoneAt;
  }

  /** How many of the first n entries have a backup. */
  function Backups(moved: seq<Option<Path>>, n: nat): (count: nat)
    requires n <= |moved|
  {
    if n == 0 then 0 else Backups(moved, n - 1) + (if moved[n - 1].Some? then 1 else 0)
  }

  /** The deletion of the j-th backup, one of those begun at this moment, works. */
  ghost predicate DeletedAt(disk: Disk, moment: nat, moved: seq<Option<Path>>, j: nat)
    requires j < |moved|
  {
    moved[j].Some? ==> !disk.fault(moment + Backups(moved, j), Op.Remove(moved[j].value))
  }

  /** The backups of the first n entries were deleted one after the other. */
  ghost predicate DeletedUpTo(disk: Disk, moment: nat, moved: seq<Option<Path>>, n: nat) {
    n <= |moved| && forall j :: 0 <= j < n ==> DeletedAt(disk, moment, moved, j)
  }

  lemma NothingDeleted(disk: Disk, moved: seq<Option<Path>>)
    ensures DeletedUpTo(disk, disk.clock, moved, 0) && Backups(moved, 0) == 0
  {
  }

  lemma DeletedOneMore(disk: Disk, moment: nat, moved: seq<Option<Path>>, i: nat)
    requires i < |moved| && DeletedUpTo(disk, moment, moved, i)
    ensures Backups(moved, i + 1) == Backups(moved, i) + (if moved[i].Some? then 1 else 0)
    ensures DeletedAt(disk, moment, moved, i) <==>
              moved[i].Some? ==> !disk.fault(moment + Backups(moved, i), Op.Remove(moved[i].value))
    ensures DeletedUpTo(disk, moment, moved, i + 1) <==> DeletedAt(disk, moment, moved, i)
  {
  }

  lemma DeletionsMayWork(disk: Disk, moment: nat, moved: seq<Option<Path>>, n: nat)
    requires DeletedUpTo(disk, moment, moved, n)
    ensures forall j :: 0 <= j < n && moved[j].Some? ==> disk.RemovalMayWork(moment, moved[j].value)
    ensures n < |moved| && !DeletedAt(disk, moment, moved, n) ==> disk.RemovalMayFail(moment, moved[n].value)
  {
    forall j | 0 <= j < n && moved[j].Some? ensures disk.RemovalMayWork(moment, moved[j].value) {
      assert DeletedAt(disk, moment, moved, j);
    }
  }

  lemma CleaningUpNames(pre: Files, now: Files, es: seq<PendingOutput>, entries: seq<PendingOutput>,
                        moved: seq<Option<Path>>, n: nat)
    requires WellNamed(es) && CleaningUp(pre, now, es, entries, moved, n)
    ensures |entries| == |es| == |moved|
    ensures n == |entries| ==> Accounted(pre, now, es, entries, moved)
  {
  }

  /** The n replaced entries passed both checks of their destinations, begun at the recorded moments. */
  ghost predicate CheckedUpTo(disk: Disk, from: nat, es: seq<PendingOutput>, n: nat, checkedAt: seq<nat>) {
    && n <= |es| && n <= |checkedAt|
    && forall j :: 0 <= j < n ==> from <= checkedAt[j] && ChecksPass(disk, checkedAt[j], es[j].destination)
  }

  /** If there is a next entry, one of the operations it needed failed, at its moment after the recorded one. */
  ghost predicate StoppedBy(disk: Disk, from: nat, pre: Files, es: seq<PendingOutput>, n: nat, checkedAt: seq<nat>) {
    n < |es| ==>
      && n < |checkedAt| && from <= checkedAt[n]
      && exists serial: nat :: !Replaceable(disk, checkedAt[n], serial, es[n], es[n].destination in pre)
  }

  lemma CheckedOneMore(disk: Disk, from: nat, es: seq<PendingOutput>, n: nat, checkedAt: seq<nat>, moment: nat)
    requires CheckedUpTo(disk, from, es, n, checkedAt) && |checkedAt| == n
    ensures CheckedUpTo(disk, from, es, n, checkedAt + [moment])
    ensures n < |es| && from <= moment && ChecksPass(disk, moment, es[n].destination) ==>
              CheckedUpTo(disk, from, es, n + 1, checkedAt + [moment])
  {
  }

  lemma StoppedAt(disk: Disk, from: nat, pre: Files, es: seq<PendingOutput>, n: nat, checkedAt: seq<nat>,
                  serial: nat)
    requires n < |es| && n < |checkedAt| && from <= checkedAt[n]
    requires !Replaceable(disk, checkedAt[n], serial, es[n], es[n].destination in pre)
    ensures StoppedBy(disk, from, pre, es, n, checkedAt)
  {
  }

  /** Where only removals fail, no replacement is stopped. */
  lemma NothingStops(disk: Disk, pre: Files, es: seq<PendingOutput>)
    requires disk.OnlyRemovalsFail()
    ensures forall n, at :: CheckedUpTo(disk, disk.clock, es, n, at) && StoppedBy(disk, disk.clock, pre, es, n, at)
              ==> n == |es|
  {
  }

  lemma OneMoreOutput(es: seq<PendingOutput>, e: PendingOutput)
    requires WellNamed(es) && e.destination.Output? && e.backup == None
    requires e.staged.Sibling? && e.staged.of == e.destination && e.staged.role == Role.Stage
    requires forall f :: f in es ==> f.destination != e.destination
    ensures WellNamed(es + [e])
  {
    assert Named(e);
  }

  /** The directories above a path can be made, and resolved, at their moments. */
  ghost predicate ParentsResolve(disk: Disk, moment: nat, lexical: Path) {
    !disk.fault(moment, Op.MakeParents(lexical)) && !disk.fault(moment + 1, Op.Identify(lexical))
  }

  /** A stage can be named, created and given its mode. */
  ghost predicate Writable(disk: Disk, moment: nat, stage: Path) {
    && !disk.fault(moment, Op.Probe(stage)) && !disk.fault(moment + 1, Op.Create(stage))
    && !disk.fault(moment + 2, Op.Permit(stage))
  }

  /** Every operation of staging works, at its own moment. */
  ghost predicate Stageable(disk: Disk, moment: nat, serial: nat, lexical: Path)
    requires lexical.Output? && |lexical.components| > 0
  {
    && ParentsResolve(disk, moment, lexical)
    && !disk.fault(moment + 2, Op.LinkCheck(disk.Canonical(lexical)))
    && Writable(disk, moment + 3, Sibling(disk.Canonical(lexical), serial, Role.Stage))
  }

  lemma StageIn(files: Files, es: seq<PendingOutput>, i: nat)
    requires StagesIn(files, es) && i < |es|
    ensures es[i].staged in files
  {
  }

  class OutputTransaction {
    var entries: seq<PendingOutput>
    /** The backup path each entry was ever given during commit. */
    ghost var moved: seq<Option<Path>>
    /** How many entries the replacement loop replaced. */
    ghost var reached: nat
    /** The moment at which the checks of each entry that the replacement loop came to began. */
    ghost var checkedAt: seq<nat>
    /** The moment at which rollback came to each entry. */
    ghost var attempts: seq<nat>
    /** The moment at which the deletion of the backups began. */
    ghost var deletedAt: nat

    constructor ()
      ensures entries == []
    {
      entries := [];
      moved, reached, checkedAt, attempts, deletedAt := [], 0, [], [], 0;
    }

    /** Nothing but staging has happened. */
    ghost predicate Staged()
      reads this
    {
      WellNamed(entries) && forall i :: 0 <= i < |entries| ==> entries[i].backup == None && !entries[i].committed
    }

    /** Undo of one entry: drop the new file, put the backup back. */
    method RollbackEntry(disk: Disk, ghost pre: Files, e: PendingOutput, ghost m: Option<Path>)
      returns (undone: PendingOutput, clean: bool)
      requires Named(e) && Journaled(pre, disk.files, e, m)
      requires m.Some? ==> m.value !in pre
      modifies disk`files, disk`clock, disk`history
      ensures undone.destination == e.destination && undone.staged == e.staged && Named(undone)
      ensures Undone(pre, disk.files, undone, m)
      ensures clean ==> Restored(pre, disk.files, undone, m)
      ensures clean <==> UndoneAt(disk, old(disk.clock), e.destination, e.committed, m)
      ensures e.destination !in pre ==> (clean <==> e.destination !in disk.files)
      ensures e.committed && e.destination !in pre ==>
                (e.destination in disk.files <==> disk.fault(old(disk.clock), Op.Remove(e.destination)))
      ensures e.destination !in pre && !e.committed ==> e.destination !in disk.files
      ensures old(disk.UndoWorks()) ==> clean
      ensures ChangesOnly(old(disk.files), disk.files, e, m)
      ensures old(disk.history) <= disk.history && disk.clock >= old(disk.clock)
      ensures EntrySteps(pre, old(disk.files), disk.history, |old(disk.history)|, e, m)
    {
      undone, clean := e, true;
      if e.committed {
        var removal := disk.Remove(e.destination);
        clean := !removal.RemoveFailed?;
        undone := undone.(committed := false);
      }
      if e.backup.Some? {
        var ok := disk.Rename(e.backup.value, e.destination);
        if ok {
          undone := undone.(backup := None);
        } else {
          clean := false;
        }
      }
    }

    /** Undo, last entry first; every undo is attempted even after one has failed. */
    method Rollback(disk: Disk, ghost pre: Files) returns (clean: bool)
      requires MidCommit(pre, disk.files, entries, entries, moved) && CommittedUpTo(entries, reached)
      modifies this`entries, this`attempts, disk`files, disk`clock, disk`history
      ensures Accounted(pre, disk.files, old(entries), entries, moved)
      ensures AllUndone(pre, disk.files, entries, moved, clean)
      ensures clean <==> UndoesWorked(disk, old(entries), reached, moved, attempts, 0)
      ensures NewKept(disk, old(disk.clock), pre, disk.files, old(entries), reached, attempts, 0)
      ensures old(disk.UndoWorks()) ==> clean
      ensures old(disk.history) <= disk.history && disk.clock >= old(disk.clock)
      ensures SafeSince(pre, disk.history, |old(disk.history)|, old(entries), moved)
    {
      ghost var es := entries;
      attempts := seq(|entries|, _ => 0);
      clean := true;
      NoUndoYet(disk, es, reached, moved, attempts);
      hide UndoesWorked, UndoneAt, NewKept, SafeSince, RollingBack, Framed;
      RollbackStarts(disk, pre, es, disk.clock);
      var i := |entries|;
      while i > 0
        invariant 0 <= i <= |entries| && |moved| == |es| == |entries| == |attempts|
        invariant RollingBack(pre, disk.files, es, entries, moved, i, clean)
        invariant NewKept(disk, old(disk.clock), pre, disk.files, es, reached, attempts, i)
        invariant clean <==> UndoesWorked(disk, es, reached, moved, attempts, i)
        invariant old(disk.UndoWorks()) ==> clean
        invariant old(disk.history) <= disk.history && disk.clock >= old(disk.clock)
        invariant SafeSince(pre, disk.history, |old(disk.history)|, es, moved)
      {
        i := i - 1;
        var ok := RollbackNext(disk, pre, es, i, clean, old(disk.clock), |old(disk.history)|);
        clean := clean && ok;
      }
      RollbackEnds(disk, pre, es, clean);
    }

    lemma RollbackStarts(disk: Disk, pre: Files, es: seq<PendingOutput>, from: nat)
      requires MidCommit(pre, disk.files, entries, entries, moved) && es == entries && |attempts| == |es|
      requires forall j :: 0 <= j < |attempts| ==> attempts[j] == 0
      ensures |moved| == |es| && RollingBack(pre, disk.files, es, entries, moved, |es|, true)
      ensures NewKept(disk, from, pre, disk.files, es, reached, attempts, |es|)
      ensures SafeSince(pre, disk.history, |disk.history|, es, moved)
    {
    }

    lemma RollbackEnds(disk: Disk, pre: Files, es: seq<PendingOutput>, clean: bool)
      requires WellNamed(es) && BackupsNamed(pre, es, moved) && |moved| == |es|
      requires RollingBack(pre, disk.files, es, entries, moved, 0, clean)
      ensures Accounted(pre, disk.files, es, entries, moved) && AllUndone(pre, disk.files, entries, moved, clean)
    {
    }

    /** One turn of the undo, on entry i. */
    method RollbackNext(disk: Disk, ghost pre: Files, ghost es: seq<PendingOutput>, i: nat, ghost clean: bool,
                        ghost from: nat, ghost start: nat)
      returns (ok: bool)
      requires WellNamed(es) && BackupsNamed(pre, es, moved) && CommittedUpTo(es, reached)
      requires i < |es| == |entries| == |moved| == |attempts| && from <= disk.clock
      requires RollingBack(pre, disk.files, es, entries, moved, i + 1, clean)
      requires NewKept(disk, from, pre, disk.files, es, reached, attempts, i + 1)
      requires SafeSince(pre, disk.history, start, es, moved)
      modifies this`entries, this`attempts, disk`files, disk`clock, disk`history
      ensures |entries| == |es| == |attempts|
      ensures RollingBack(pre, disk.files, es, entries, moved, i, clean && ok)
      ensures NewKept(disk, from, pre, disk.files, es, reached, attempts, i)
      ensures UndoesWorked(disk, es, reached, moved, attempts, i) <==>
                ok && UndoesWorked(disk, es, reached, moved, old(attempts), i + 1)
      ensures old(disk.UndoWorks()) ==> ok
      ensures old(disk.history) <= disk.history && disk.clock >= old(disk.clock)
      ensures SafeSince(pre, disk.history, start, es, moved)
    {
      hide UndoesWorked, UndoneAt, NewKept, SafeSince, Stuck, Restored;
      ghost var before, earlier, moment := disk.files, disk.history, disk.clock;
      RollingBackIsSafe(pre, before, es, entries, moved, i + 1, clean);
      var undone;
      undone, ok := RollbackEntry(disk, pre, entries[i], moved[i]);
      RollingBackStep(pre, before, disk.files, es, entries, moved, i + 1, clean, undone, ok);
      SafeSinceStep(pre, before, earlier, disk.history, start, es, moved, i);
      NewKeptStep(disk, from, pre, before, disk.files, es, moved, reached, attempts, i, moment);
      UndoesWorkedStep(disk, es, reached, moved, attempts, i, moment);
      attempts := attempts[i := moment];
      entries := entries[i := undone];
    }

    /** The identity of the destination is still the staged one, and it is no link. */
    method CheckDestination(disk: Disk, e: PendingOutput) returns (ok: bool)
      modifies disk`clock
      ensures ok <==> ChecksPass(disk, old(disk.clock), e.destination)
      ensures disk.clock >= old(disk.clock) && (ok ==> disk.clock == old(disk.clock) + 2)
    {
      ok := disk.Consult(Op.Identify(e.destination));
      if ok {
        ok := disk.Consult(Op.LinkCheck(e.destination));
      }
    }

    /** The old file goes to a new sibling. */
    method SetAside(disk: Disk, destination: Path) returns (backup: Option<Path>)
      requires destination in disk.files && destination.Output?
      modifies disk`files, disk`clock, disk`nextSerial, disk`history
      ensures backup.Some? ==>
                && IsBackupOf(backup.value, destination) && backup.value !in old(disk.files)
                && disk.files == Moved(old(disk.files), destination, backup.value)
                && disk.history == old(disk.history) + [disk.files]
      ensures backup.None? ==>
                && disk.files == old(disk.files)
                && (disk.history == old(disk.history) || disk.history == old(disk.history) + [disk.files])
      ensures disk.clock >= old(disk.clock)
      ensures old(disk.SerialsUnused()) ==>
                && disk.SerialsUnused()
                && (backup.Some? ==> disk.clock == old(disk.clock) + 2)
                && (backup.Some? <==> AsideWorks(disk, old(disk.clock), old(disk.nextSerial), destination))
    {
      backup := disk.UniqueSibling(destination, Backup);
      if backup.Some? {
        var kept := disk.Rename(destination, backup.value);
        if !kept {
          backup := None;
        }
      }
    }

    /** The replacement of one entry: identity and link checks, backup, swap. */
    method ReplaceEntry(disk: Disk, ghost pre: Files, e: PendingOutput)
      returns (replaced: PendingOutput, m: Option<Path>, ok: bool)
      requires Named(e) && !e.committed && Journaled(pre, disk.files, e, None)
      requires forall p :: IsBackupOf(p, e.destination) ==> SameAt(pre, disk.files, p)
      modifies disk`files, disk`clock, disk`nextSerial, disk`history
      ensures replaced.destination == e.destination && replaced.staged == e.staged && Named(replaced)
      ensures Journaled(pre, disk.files, replaced, m) && (ok <==> replaced.committed)
      ensures m.Some? ==> IsBackupOf(m.value, e.destination) && m.value !in pre && e.destination in pre
      ensures ChangesOnly(old(disk.files), disk.files, e, m)
      ensures EntrySteps(pre, old(disk.files), disk.history, |old(disk.history)|, e, m)
      ensures old(disk.history) <= disk.history && disk.clock >= old(disk.clock)
      ensures old(disk.SerialsUnused()) ==> disk.SerialsUnused()
      // A destination that fails one of its checks is left alone.
      ensures ok ==> ChecksPass(disk, old(disk.clock), e.destination)
      ensures !ChecksPass(disk, old(disk.clock), e.destination) ==>
                disk.files == old(disk.files) && disk.history == old(disk.history) && replaced == e && m == None
      // With unused serial numbers: it is replaced exactly when every operation works at its moment.
      ensures old(disk.SerialsUnused()) && e.staged in pre ==>
                (ok <==> Replaceable(disk, old(disk.clock), old(disk.nextSerial), e, e.destination in pre))
    {
      ghost var before := disk.files;
      assert forall p :: IsBackupOf(p, e.destination) ==> SameAt(pre, before, p);
      hide Journaled, ChangesOnly, Recoverable, SameAt;
      replaced, m, ok := e, None, false;
      Swapped(pre, before, before, before, e, None, false);
      var same := CheckDestination(disk, e);
      if !same {
        return;
      }
      if e.destination in disk.files {
        m := SetAside(disk, e.destination);
        if m.None? {
          return;
        }
        replaced := replaced.(backup := m);
      }
      ghost var aside := disk.files;
      ok := disk.Rename(e.staged, e.destination);
      replaced := replaced.(committed := ok);
      Swapped(pre, before, aside, disk.files, e, m, ok);
    }

    /** Exactly the first n entries are replaced. */
    ghost predicate CommittedUpTo(entries: seq<PendingOutput>, n: nat) {
      n <= |entries| && forall j :: 0 <= j < |entries| ==> (entries[j].committed <==> j < n)
    }

    /** One turn of the replacement loop, on entry i. */
    method ReplaceNext(disk: Disk, ghost pre: Files, ghost es: seq<PendingOutput>, i: nat, ghost from: nat,
                       ghost start: nat)
      returns (done: bool)
      requires WellNamed(es) && i < |es| && Replacing(pre, disk.files, es, entries, moved, i)
      requires SafeSince(pre, disk.history, from, es, moved) && start <= disk.clock
      requires reached == |checkedAt| == i && CommittedUpTo(entries, i) && CheckedUpTo(disk, start, es, i, checkedAt)
      modifies this`entries, this`moved, this`reached, this`checkedAt
      modifies disk`files, disk`clock, disk`nextSerial, disk`history
      ensures MidCommit(pre, disk.files, es, entries, moved) && SafeSince(pre, disk.history, from, es, moved)
      ensures done ==> Replacing(pre, disk.files, es, entries, moved, i + 1)
      ensures reached == (if done then i + 1 else i) && CommittedUpTo(entries, reached) && |entries| == |es|
      ensures |checkedAt| == i + 1 && CheckedUpTo(disk, start, es, reached, checkedAt)
      ensures !done && old(disk.SerialsUnused()) && StagesIn(pre, es) ==>
                StoppedBy(disk, start, pre, es, reached, checkedAt)
      ensures old(disk.SerialsUnused()) ==> disk.SerialsUnused()
      ensures old(disk.history) <= disk.history && disk.clock >= old(disk.clock)
    {
      ghost var before, earlier, moment := disk.files, disk.history, disk.clock;
      NextEntry(pre, before, es, entries, moved, i);
      BackupPathsUntouched(pre, before, es, entries, moved, i);
      var replaced, m;
      replaced, m, done := ReplaceEntry(disk, pre, entries[i]);
      ReplacingStep(pre, before, disk.files, es, entries, moved, i, replaced, m, done);
      ReplacingHistory(pre, before, earlier, disk.history, from, es, entries, moved, i, m);
      entries, moved := entries[i := replaced], moved[i := m];
      CheckedOneMore(disk, start, es, i, checkedAt, moment);
      checkedAt := checkedAt + [moment];
      if done {
        reached := i + 1;
      } else if old(disk.SerialsUnused()) && StagesIn(pre, es) {
        StageIn(pre, es, i);
        StoppedAt(disk, start, pre, es, i, checkedAt, old(disk.nextSerial));
      }
    }

    /** The failure that a test asked for is due after n replacements. */
    ghost predicate Injected(failure: CommitFailure, n: nat) {
      n > 0 && failure == AfterReplacement(n)
    }

    /** The replacement loop; false as soon as one entry fails or the injected failure is due. */
    method ReplaceAll(disk: Disk, ghost pre: Files, failure: CommitFailure) returns (ok: bool)
      requires Staged() && pre == disk.files
      modifies this, disk`files, disk`clock, disk`nextSerial, disk`history
      ensures MidCommit(pre, disk.files, old(entries), entries, moved)
      ensures ok ==> forall i :: 0 <= i < |entries| ==> entries[i].committed
      ensures ok ==> !(failure.AfterReplacement? && 1 <= failure.count <= |entries|)
      ensures CommittedUpTo(entries, reached) && CheckedUpTo(disk, old(disk.clock), old(entries), reached, checkedAt)
      ensures ok <==> reached == |entries| && !Injected(failure, reached)
      ensures failure.AfterReplacement? && failure.count > 0 ==> reached <= failure.count
      ensures !Injected(failure, reached) && StagesIn(pre, old(entries)) && old(disk.SerialsUnused()) ==>
                StoppedBy(disk, old(disk.clock), pre, old(entries), reached, checkedAt)
      ensures old(disk.history) <= disk.history && disk.clock >= old(disk.clock)
      ensures SafeSince(pre, disk.history, |old(disk.history)|, old(entries), moved)
    {
      ghost var es, from := entries, |disk.history|;
      moved, reached, checkedAt := seq(|entries|, _ => None), 0, [];
      ReplacingStarts(pre, es, moved);
      hide Replacing, Journaled, SafeSince, MidCommit, SameAt, Framed, ChangesOnly, Recoverable, StagesIn, WellNamed;
      var replacements := 0;
      for i := 0 to |entries|
        invariant |entries| == |es| && Replacing(pre, disk.files, es, entries, moved, i)
        invariant replacements == i == reached && CommittedUpTo(entries, i)
        invariant |checkedAt| == i && CheckedUpTo(disk, old(disk.clock), es, i, checkedAt)
        invariant failure.AfterReplacement? ==> failure.count > i || failure.count == 0
        invariant old(disk.SerialsUnused()) ==> disk.SerialsUnused()
        invariant old(disk.history) <= disk.history && disk.clock >= old(disk.clock)
        invariant SafeSince(pre, disk.history, from, es, moved)
      {
        var done := ReplaceNext(disk, pre, es, i, from, old(disk.clock));
        if !done {
          return false;
        }
        replacements := replacements + 1;
        if failure == AfterReplacement(replacements) {
          return false;
        }
      }
      ReplacingIsMidCommit(pre, disk.files, es, entries, moved, |entries|);
      return true;
    }

    /** The deletion of the backups; the first failing deletion ends it, with that backup no longer recorded. */
    method CleanUp(disk: Disk, ghost pre: Files) returns (ok: bool, ghost at: nat)
      requires WellNamed(entries) && CleaningUp(pre, disk.files, entries, entries, moved, 0)
      modifies this`entries, disk`files, disk`clock, disk`history
      ensures Accounted(pre, disk.files, old(entries), entries, moved)
      ensures ok ==> CleaningUp(pre, disk.files, old(entries), entries, moved, |entries|)
      ensures ok ==> forall j :: 0 <= j < |moved| && moved[j].Some? ==>
                disk.RemovalMayWork(old(disk.clock), moved[j].value)
      ensures ok ==> DeletedUpTo(disk, old(disk.clock), moved, |moved|)
      ensures !ok ==> CleanupStopped(pre, disk.files, entries, moved, at)
      ensures !ok ==>
                DeletedUpTo(disk, old(disk.clock), moved, at) && !DeletedAt(disk, old(disk.clock), moved, at)
      ensures !ok ==> disk.RemovalMayFail(old(disk.clock), moved[at].value)
      ensures old(disk.history) <= disk.history && disk.clock >= old(disk.clock)
      ensures InstalledWithin(pre, disk.history, |old(disk.history)|, |disk.history|, old(entries), moved)
    {
      ghost var es := entries;
      ghost var from := |disk.history|;
      hide *;
      NothingDeleted(disk, moved);
      CleanUpStarts(disk, pre, es);
      for i := 0 to |entries|
        invariant |entries| == |es| == |moved|
        invariant CleaningUp(pre, disk.files, es, entries, moved, i)
        invariant disk.clock == old(disk.clock) + Backups(moved, i)
        invariant DeletedUpTo(disk, old(disk.clock), moved, i)
        invariant old(disk.history) <= disk.history
        invariant InstalledWithin(pre, disk.history, from, |disk.history|, es, moved)
      {
        DeletedOneMore(disk, old(disk.clock), moved, i);
        var done := CleanUpNext(disk, pre, es, i, from);
        if !done {
          DeletionsMayWork(disk, old(disk.clock), moved, i);
          return false, i;
        }
      }
      CleaningUpNames(pre, disk.files, es, entries, moved, |entries|);
      DeletionsMayWork(disk, old(disk.clock), moved, |moved|);
      return true, 0;
    }

    lemma CleanUpStarts(disk: Disk, pre: Files, es: seq<PendingOutput>)
      requires WellNamed(entries) && es == entries && CleaningUp(pre, disk.files, es, entries, moved, 0)
      ensures |entries| == |moved|
      ensures InstalledWithin(pre, disk.history, |disk.history|, |disk.history|, es, moved)
    {
    }

    /** One turn of the clean-up, on entry i. */
    method CleanUpNext(disk: Disk, ghost pre: Files, ghost es: seq<PendingOutput>, i: nat, ghost from: nat)
      returns (done: bool)
      requires WellNamed(es) && i < |es| == |moved| == |entries|
      requires CleaningUp(pre, disk.files, es, entries, moved, i)
      requires from <= |disk.history| && InstalledWithin(pre, disk.history, from, |disk.history|, es, moved)
      modifies this`entries, disk`files, disk`clock, disk`history
      ensures |entries| == |es|
      ensures done ==> CleaningUp(pre, disk.files, es, entries, moved, i + 1)
      ensures !done ==>
                && Accounted(pre, disk.files, es, entries, moved)
                && CleanupStopped(pre, disk.files, entries, moved, i)
      ensures done <==> moved[i].Some? ==> !disk.fault(old(disk.clock), Op.Remove(moved[i].value))
      ensures disk.clock == old(disk.clock) + (if moved[i].Some? then 1 else 0)
      ensures old(disk.history) <= disk.history
      ensures InstalledWithin(pre, disk.history, from, |disk.history|, es, moved)
    {
      ghost var before, earlier := disk.files, entries;
      CleaningUpIsInstalled(pre, before, es, earlier, moved, i);
      var entry := entries[i];
      if entry.backup.Some? {
        entries := entries[i := entry.(backup := None)];
        var removal := disk.Remove(entry.backup.value);
        CleaningUpStep(pre, before, disk.files, es, earlier, moved, i, entries[i]);
        if !removal.Removed? {
          return false;
        }
        CleaningUpIsInstalled(pre, disk.files, es, entries, moved, i + 1);
      }
      return true;
    }

    /** Replacement, then rollback or deletion of the backups. */
    method CommitInner(disk: Disk, failure: CommitFailure)
      returns (outcome: Outcome, ghost cut: nat, ghost at: nat)
      requires Staged()
      modifies this, disk`files, disk`clock, disk`nextSerial, disk`history
      ensures Accounted(old(disk.files), disk.files, old(entries), entries, moved)
      ensures outcome.NotStarted? <==> failure.BeforeCommit?
      ensures outcome.NotStarted? ==> disk.files == old(disk.files) && entries == old(entries)
      ensures outcome.RolledBack? || outcome.RollbackIncomplete? ==>
                && AllUndone(old(disk.files), disk.files, entries, moved, outcome.RolledBack?)
                && (outcome.RolledBack? <==> UndoesWorked(disk, old(entries), reached, moved, attempts, 0))
                && NewKept(disk, old(disk.clock), old(disk.files), disk.files, old(entries), reached, attempts, 0)
      ensures outcome.Committed? ==>
                && CleaningUp(old(disk.files), disk.files, old(entries), entries, moved, |entries|)
                && old(disk.clock) <= deletedAt && DeletedUpTo(disk, deletedAt, moved, |moved|)
                && forall i :: 0 <= i < |moved| && moved[i].Some? ==>
                    disk.RemovalMayWork(old(disk.clock), moved[i].value)
      ensures outcome.CleanupFailed? ==>
                && CleanupStopped(old(disk.files), disk.files, entries, moved, at)
                && old(disk.clock) <= deletedAt && at < |moved| && DeletedUpTo(disk, deletedAt, moved, at)
                && !DeletedAt(disk, deletedAt, moved, at)
                && disk.RemovalMayFail(old(disk.clock), moved[at].value)
      ensures outcome.Committed? || outcome.CleanupFailed? ==>
                !(failure.AfterReplacement? && 1 <= failure.count <= |entries|)
      ensures !outcome.NotStarted? ==> CheckedUpTo(disk, old(disk.clock), old(entries), reached, checkedAt)
      ensures !outcome.NotStarted? ==>
                (outcome.Committed? || outcome.CleanupFailed? <==> reached == |entries| && !Injected(failure, reached))
      ensures failure.AfterReplacement? && failure.count > 0 ==> reached <= failure.count
      ensures (&& !outcome.NotStarted? && !Injected(failure, reached)
               && StagesIn(old(disk.files), old(entries)) && old(disk.SerialsUnused())) ==>
                StoppedBy(disk, old(disk.clock), old(disk.files), old(entries), reached, checkedAt)
      ensures old(disk.UndoWorks()) ==> !outcome.RollbackIncomplete? && !outcome.CleanupFailed?
      ensures old(disk.history) <= disk.history && disk.clock >= old(disk.clock)
      ensures |old(disk.history)| <= cut <= |disk.history|
      ensures SafeSince(old(disk.files), disk.history[..cut], |old(disk.history)|, old(entries), moved)
      ensures if outcome.Committed? || outcome.CleanupFailed?
              then InstalledWithin(old(disk.files), disk.history, cut, |disk.history|, old(entries), moved)
              else cut == |disk.history|
    {
      hide NewKept, CheckedUpTo, StoppedBy, StagesIn, Injected, WellNamed, Named, MidCommit, CleaningUp, AllUndone,
        CleanupStopped, CommittedUpTo, Disk.SerialsUnused, UndoesWorked, DeletedUpTo, DeletedAt;
      ghost var pre, es := disk.files, entries;
      at := 0;
      if failure == BeforeCommit {
        moved := seq(|entries|, _ => None);
        NothingHappened(pre, es, moved);
        assert disk.history[..|disk.history|] == disk.history;
        return NotStarted, |disk.history|, 0;
      }
      var ok := ReplaceAll(disk, pre, failure);
      ghost var replaced, mid := disk.history, entries;
      MidCommitContinues(pre, disk.files, es, mid, moved);
      ghost var later := disk.clock;
      deletedAt := later;
      cut := |disk.history|;
      outcome, at := Conclude(disk, pre, ok);
      assert disk.history[..cut] == replaced;
      WholeCommit(pre, disk.files, es, mid, entries, moved);
      WholeHistory(pre, disk.history, es, mid, moved, |old(disk.history)|, cut);
      if !ok {
        NewKeptFrom(disk, old(disk.clock), later, pre, disk.files, mid, es, reached, attempts);
        UndoesWorkedFor(disk, mid, es, reached, moved, attempts);
        cut := |disk.history|;
        assert disk.history[..cut] == disk.history;
      }
    }

    /** The second half of a commit: delete the backups, or undo. */
    method Conclude(disk: Disk, ghost pre: Files, ok: bool) returns (outcome: Outcome, ghost at: nat)
      requires MidCommit(pre, disk.files, entries, entries, moved)
      requires ok ==> CleaningUp(pre, disk.files, entries, entries, moved, 0)
      requires CommittedUpTo(entries, reached)
      modifies this`entries, this`attempts, disk`files, disk`clock, disk`history
      ensures Accounted(pre, disk.files, old(entries), entries, moved)
      ensures if ok then outcome.Committed? || outcome.CleanupFailed?
              else outcome.RolledBack? || outcome.RollbackIncomplete?
      ensures !ok ==>
                && AllUndone(pre, disk.files, entries, moved, outcome.RolledBack?)
                && (outcome.RolledBack? <==> UndoesWorked(disk, old(entries), reached, moved, attempts, 0))
                && NewKept(disk, old(disk.clock), pre, disk.files, old(entries), reached, attempts, 0)
      ensures outcome.Committed? ==>
                && CleaningUp(pre, disk.files, old(entries), entries, moved, |entries|)
                && DeletedUpTo(disk, old(disk.clock), moved, |moved|)
                && forall i :: 0 <= i < |moved| && moved[i].Some? ==>
                     disk.RemovalMayWork(old(disk.clock), moved[i].value)
      ensures outcome.CleanupFailed? ==>
                && CleanupStopped(pre, disk.files, entries, moved, at)
                && at < |moved| && DeletedUpTo(disk, old(disk.clock), moved, at)
                && !DeletedAt(disk, old(disk.clock), moved, at)
                && disk.RemovalMayFail(old(disk.clock), moved[at].value)
      ensures old(disk.UndoWorks()) ==> !outcome.RollbackIncomplete? && !outcome.CleanupFailed?
      ensures old(disk.history) <= disk.history && disk.clock >= old(disk.clock)
      ensures if ok then InstalledWithin(pre, disk.history, |old(disk.history)|, |disk.history|, old(entries), moved)
              else SafeSince(pre, disk.history, |old(disk.history)|, old(entries), moved)
    {
      at := 0;
      if ok {
        var cleaned;
        cleaned, at := CleanUp(disk, pre);
        outcome := if cleaned then Committed else CleanupFailed;
      } else {
        var clean := Rollback(disk, pre);
        outcome := if clean then RolledBack else RollbackIncomplete;
      }
    }

    /** One iteration of `Drop`; errors are ignored. */
    method DropEntry(disk: Disk, e: PendingOutput)
      requires Named(e)
      modifies disk`files, disk`clock, disk`history
      ensures ChangesOnly(old(disk.files), disk.files, e, e.backup) && Dropping(old(disk.files), disk.files, e)
      ensures old(disk.DropWorks()) ==> Dropped(old(disk.files), disk.files, e)
      ensures old(disk.history) <= disk.history && disk.clock >= old(disk.clock)
      ensures forall k :: |old(disk.history)| <= k < |disk.history| ==>
                && ChangesOnly(old(disk.files), disk.history[k], e, e.backup)
                && Dropping(old(disk.files), disk.history[k], e)
    {
      var _ := disk.Remove(e.staged);
      if e.backup.Some? {
        var _ := disk.Rename(e.backup.value, e.destination);
      }
    }

    /** The destructor: the last attempt to remove stages and to put recorded backups back. */
    method Drop(disk: Disk) returns (ghost tidy: bool)
      requires WellNamed(entries)
      modifies disk`files, disk`clock, disk`history
      ensures AllDropping(old(disk.files), disk.files, entries)
      ensures tidy ==> forall i :: 0 <= i < |entries| ==> Dropped(old(disk.files), disk.files, entries[i])
      ensures old(disk.DropWorks()) ==> tidy
      ensures old(disk.history) <= disk.history && disk.clock >= old(disk.clock)
      ensures forall k :: |old(disk.history)| <= k < |disk.history| ==>
                AllDropping(old(disk.files), disk.history[k], entries)
    {
      ghost var was, from := disk.files, |disk.history|;
      tidy := true;
      for i := 0 to |entries|
        invariant DroppingUpTo(was, disk.files, entries, i, tidy)
        invariant old(disk.DropWorks()) ==> tidy
        invariant old(disk.history) <= disk.history && disk.clock >= old(disk.clock)
        invariant forall k :: from <= k < |disk.history| ==> AllDropping(was, disk.history[k], entries)
      {
        ghost var before, steps := disk.files, disk.history;
        DropEntry(disk, entries[i]);
        forall k | |steps| <= k < |disk.history| ensures AllDropping(was, disk.history[k], entries) {
          DroppingStep(was, before, disk.history[k], entries, i, tidy);
        }
        DroppingStep(was, before, disk.files, entries, i, tidy);
        tidy := tidy && Dropped(before, disk.files, entries[i]);
      }
    }

    /**
     A whole commit: `commit_inner`, then the destructor.  `cut` is the moment all replacements were in
     place, `settled` the moment the destructor began, `tidy` whether the destructor finished its work.
     */
    method Commit(disk: Disk)
      returns (outcome: Outcome, ghost cut: nat, ghost settled: nat, ghost at: nat, ghost tidy: bool)
      requires Staged()
      modifies this, disk`files, disk`clock, disk`nextSerial, disk`history
      ensures !outcome.NotStarted?
      ensures SameNames(old(entries), entries) && BackupsNamed(old(disk.files), old(entries), moved)
      // Ok: every destination is new, and nothing else is different or left over.
      ensures outcome.Committed? ==>
                && AllNew(old(disk.files), disk.files, old(entries))
                && NoStages(disk.files, old(entries)) && OthersKept(old(disk.files), disk.files, old(entries))
      // A clean rollback: every destination is as before, and once `Drop` worked there is no debris.
      ensures outcome.RolledBack? ==>
                && AllOld(old(disk.files), disk.files, old(entries))
                && OthersKept(old(disk.files), disk.files, old(entries))
                && (tidy ==> NoStages(disk.files, old(entries)))
      // A rollback with failures: the destructor's second attempt still restores every file that existed.
      ensures outcome.RollbackIncomplete? && tidy ==>
                && OldUnlessNew(old(disk.files), disk.files, old(entries))
                && (AllOld(old(disk.files), disk.files, old(entries))
                    <==> RemovalsWorked(disk, old(disk.files), old(entries), reached, attempts))
                && OthersKept(old(disk.files), disk.files, old(entries))
                && NoStages(disk.files, old(entries))
      // After any rollback: a new file stays where there was none exactly when it was replaced and its removal failed.
      ensures outcome.RolledBack? || outcome.RollbackIncomplete? ==>
                NewKept(disk, old(disk.clock), old(disk.files), disk.files, old(entries), reached, attempts, 0)
      // A rollback is clean exactly when every undo worked at its moment.
      ensures outcome.RolledBack? || outcome.RollbackIncomplete? ==>
                (outcome.RolledBack? <==> UndoesWorked(disk, old(entries), reached, moved, attempts, 0))
      // Once all is replaced, Ok means that every backup was deleted at its moment, in order.
      ensures outcome.Committed? ==>
                old(disk.clock) <= deletedAt && DeletedUpTo(disk, deletedAt, moved, |moved|)
      // The exception: a failed deletion of a backup.
      ensures outcome.CleanupFailed? ==>
                && old(disk.clock) <= deletedAt && at < |moved|
                && DeletedUpTo(disk, deletedAt, moved, at) && !DeletedAt(disk, deletedAt, moved, at)
      ensures outcome.CleanupFailed? && tidy ==>
                Split(old(disk.files), disk.files, old(entries), moved, at) && NoStages(disk.files, old(entries))
      ensures outcome.CleanupFailed? ==>
                at < |moved| && moved[at].Some? && disk.RemovalMayFail(old(disk.clock), moved[at].value)
      ensures outcome.Committed? ==>
                forall i :: 0 <= i < |moved| && old(entries)[i].destination in old(disk.files) ==>
                  moved[i].Some? && disk.RemovalMayWork(old(disk.clock), moved[i].value)
      // Every replaced destination passed both checks; a rollback starts when the next entry is stopped, and only then.
      ensures CheckedUpTo(disk, old(disk.clock), old(entries), reached, checkedAt)
      ensures outcome.Committed? || outcome.CleanupFailed? <==> reached == |entries|
      ensures StagesIn(old(disk.files), old(entries)) && old(disk.SerialsUnused()) ==>
                StoppedBy(disk, old(disk.clock), old(disk.files), old(entries), reached, checkedAt)
      ensures (StagesIn(old(disk.files), old(entries)) && old(disk.SerialsUnused() && disk.OnlyRemovalsFail()))
                ==> (outcome.Committed? || outcome.CleanupFailed?)
      ensures old(disk.UndoWorks()) ==> !outcome.RollbackIncomplete? && !outcome.CleanupFailed?
      ensures old(disk.DropWorks()) ==> tidy
      // At every step on the way the old bytes can be found, or all new bytes are in place.
      ensures old(disk.history) <= disk.history && |old(disk.history)| <= cut <= settled <= |disk.history|
      ensures SafeSince(old(disk.files), disk.history[..cut], |old(disk.history)|, old(entries), moved)
      ensures InstalledWithin(old(disk.files), disk.history, cut, settled, old(entries), moved)
      ensures outcome.Committed? ==> settled == |disk.history|
      ensures outcome.RolledBack? || outcome.RollbackIncomplete? ==> cut == |disk.history|
      ensures outcome.CleanupFailed? ==>
                && SplittingSince(old(disk.files), disk.history, settled, old(entries), moved, at)
                && Splitting(old(disk.files), disk.files, old(entries), moved, at)
      // No other path is ever touched.
      ensures FramedSince(old(disk.files), disk.history, |old(disk.history)|, old(entries), moved)
      ensures Framed(old(disk.files), disk.files, old(entries), moved)
    {
      hide NewKept, CheckedUpTo, StoppedBy, StagesIn, RemovalsWorked, OldUnlessNew, AllOld, AllNew, OthersKept,
        NoStages, Split, Splitting, SplittingSince, SafeSince, FramedSince, Framed, AllDropping, Dropped, Named,
        UndoesWorked, DeletedUpTo, DeletedAt;
      ghost var pre, es := disk.files, entries;
      if disk.OnlyRemovalsFail() {
        NothingStops(disk, pre, es);
      }
      outcome, cut, at := CommitInner(disk, Never);
      ghost var from, mid, before := |old(disk.history)|, disk.files, disk.history;
      settled := |disk.history|;
      AccountedFor(pre, mid, es, entries, moved);
      tidy := Drop(disk);
      assert disk.history[..cut] == before[..cut];
      if outcome.Committed? {
        HistoryGrew(pre, before, disk.history, cut, es, moved);
        AfterCommitted(pre, mid, disk.files, es, entries, moved);
        DropAfterCommitted(pre, mid, disk.history, settled, es, entries, moved);
        InstalledThroughout(pre, disk.history, cut, settled, es, moved);
        RunIsFramed(pre, disk.history, from, cut, settled, es, moved);
        settled := |disk.history|;
      } else if outcome.CleanupFailed? {
        HistoryGrew(pre, before, disk.history, cut, es, moved);
        AfterStopped(pre, mid, disk.files, es, entries, moved, at);
        DropAfterStopped(pre, mid, disk.history, settled, es, entries, moved, at);
        RunIsFramed(pre, disk.history, from, cut, settled, es, moved);
      } else {
        AfterUndone(pre, mid, disk.files, es, entries, moved, outcome.RolledBack?);
        NewKeptAfterDrop(disk, old(disk.clock), pre, mid, disk.files, es, entries, moved, reached, attempts);
        if outcome.RollbackIncomplete? && tidy {
          OldWhenRemoved(disk, old(disk.clock), pre, disk.files, es, reached, attempts);
        }
        DropAfterUndone(pre, mid, disk.history, settled, es, entries, moved, outcome.RolledBack?);
        SafeThroughout(pre, disk.history, from, cut, es, moved);
        cut, settled := |disk.history|, |disk.history|;
      }
    }

    /** The staged file: created exclusively, written, given its mode; removed again if one of these fails. */
    static method WriteStage(disk: Disk, identity: Path, content: Bytes) returns (staged: Option<Path>)
      modifies disk`files, disk`clock, disk`nextSerial, disk`history
      ensures staged.Some? ==>
                && staged.value.Sibling? && staged.value.of == identity && staged.value.role == Role.Stage
                && staged.value !in old(disk.files)
                && disk.files == old(disk.files)[staged.value := content]
      ensures staged.None? ==>
                forall p :: p in old(disk.files) || p.Output? ==> SameAt(old(disk.files), disk.files, p)
      ensures staged.None? && old(disk.DropWorks()) ==> disk.files == old(disk.files)
      ensures old(disk.SerialsUnused()) ==>
                (staged.Some? <==>
                  Writable(disk, old(disk.clock), Sibling(identity, old(disk.nextSerial), Role.Stage)))
      ensures old(disk.SerialsUnused()) ==> disk.SerialsUnused()
      ensures disk.clock >= old(disk.clock)
    {
      staged := disk.UniqueSibling(identity, Role.Stage);
      if staged.None? {
        return;
      }
      var written := disk.CreateNew(staged.value, content);
      if written {
        written := disk.Permit(staged.value);
      }
      if !written {
        var _ := disk.Remove(staged.value);
        staged := None;
      }
    }

    /** The normal form of an output's path; the root, which has no name, is refused. */
    static method ResolveLexical(disk: Disk, destination: seq<LexicalPath.Component>) returns (r: Option<Path>)
      requires LexicalPath.Components(destination) && LexicalPath.Absolute(disk.workingDirectory)
      ensures r == disk.Lexical(destination)
      ensures r.Some? ==> !LexicalPath.EscapesRoot(LexicalPath.Join(disk.workingDirectory, destination))
    {
      var path := LexicalPath.Join(disk.workingDirectory, destination);
      var lexical := LexicalPath.LexicalOutputIdentity(path);
      if lexical.Err? {
        LexicalPath.NormalizeShape(path);
        return None;
      }
      if |lexical.value| <= 1 {
        return None;
      }
      return Some(Output(lexical.value));
    }

    /** Makes the directories above a path and resolves the links in them. */
    static method ResolveIdentity(disk: Disk, lexical: Path) returns (identity: Option<Path>)
      requires lexical.Output? && |lexical.components| > 0
      modifies disk`clock
      ensures identity.Some? <==> ParentsResolve(disk, old(disk.clock), lexical)
      ensures identity.Some? ==> identity == Some(disk.Canonical(lexical)) && disk.clock == old(disk.clock) + 2
      ensures disk.clock >= old(disk.clock)
    {
      var made := disk.Consult(Op.MakeParents(lexical));
      if !made {
        return None;
      }
      var resolved := disk.Consult(Op.Identify(lexical));
      if !resolved {
        return None;
      }
      var n := |lexical.components| - 1;
      return Some(Output(disk.canonical(lexical.components[..n]) + [lexical.components[n]]));
    }

    /**
     Writes the bytes to a new hidden sibling; a second output with the same normal form is refused, and so is
     one that exists and is the same file as an earlier destination under another name.
     */
    method Stage(disk: Disk, destination: seq<LexicalPath.Component>, content: Bytes) returns (ok: bool)
      requires LexicalPath.Components(destination) && LexicalPath.Absolute(disk.workingDirectory) && Staged()
      modifies this`entries, disk`files, disk`clock, disk`nextSerial, disk`history
      ensures Staged()
      ensures ok ==>
                && !LexicalPath.EscapesRoot(LexicalPath.Join(disk.workingDirectory, destination))
                && |entries| == |old(entries)| + 1 && entries[..|old(entries)|] == old(entries)
                && var entry := entries[|old(entries)|];
                   && Some(entry.destination) == disk.Identity(destination)
                   && !old(Duplicated(disk, entry.destination))
                   && entry.staged !in old(disk.files)
                   && disk.files == old(disk.files)[entry.staged := content]
      // Directories, identity and link were looked at, and each look went well.
      ensures ok ==> disk.Lexical(destination).Some?
      ensures ok ==> ParentsResolve(disk, old(disk.clock), disk.Lexical(destination).value)
      ensures ok ==> !disk.fault(old(disk.clock) + 2, Op.LinkCheck(disk.Canonical(disk.Lexical(destination).value)))
      ensures !ok ==> entries == old(entries)
      ensures !ok ==> forall p :: p in old(disk.files) || p.Output? ==> SameAt(old(disk.files), disk.files, p)
      ensures !ok && old(disk.DropWorks()) ==> disk.files == old(disk.files)
      ensures (&& old(disk.SerialsUnused() && disk.NothingFails())
               && disk.Identity(destination).Some? && !old(Duplicated(disk, disk.Identity(destination).value)))
                ==> ok
      // With unused serial numbers: a new output is staged exactly when every operation works at its moment.
      ensures old(disk.SerialsUnused()) ==>
                (ok <==>
                  && disk.Lexical(destination).Some?
                  && !old(Duplicated(disk, disk.Canonical(disk.Lexical(destination).value)))
                  && Stageable(disk, old(disk.clock), old(disk.nextSerial), disk.Lexical(destination).value))
      ensures old(disk.SerialsUnused()) ==> disk.SerialsUnused()
    {
      hide LexicalPath.EscapesRoot, LexicalPath.Join, LexicalPath.Components, LexicalPath.Absolute, WellNamed, Named,
        Duplicated, Disk.Lexical, Disk.Canonical, Disk.Alias;
      ghost var before := entries;
      var lexical := ResolveLexical(disk, destination);
      if lexical.None? {
        return false;
      }
      var resolved := ResolveIdentity(disk, lexical.value);
      if resolved.None? {
        return false;
      }
      var identity := resolved.value;
      var duplicate := IsDuplicate(disk, identity);
      if duplicate {
        return false;
      }
      var plain := disk.Consult(Op.LinkCheck(identity));
      if !plain {
        return false;
      }
      var staged := WriteStage(disk, identity, content);
      if staged.None? {
        return false;
      }
      OneMoreOutput(before, PendingOutput(identity, staged.value, None, false));
      entries := entries + [PendingOutput(identity, staged.value, None, false)];
      return true;
    }

    /** An earlier output has this identity, or both exist and are the same file. */
    ghost predicate Duplicated(disk: Disk, identity: Path)
      reads this`entries, disk`files
    {
      exists e :: e in entries && (e.destination == identity || disk.Alias(e.destination, identity))
    }

    method IsDuplicate(disk: Disk, identity: Path) returns (duplicate: bool)
      ensures duplicate <==> Duplicated(disk, identity)
      ensures !duplicate ==> forall e :: e in entries ==> e.destination != identity
    {
      for i := 0 to |entries|
        invariant forall j :: 0 <= j < i ==>
                    entries[j].destination != identity && !disk.Alias(entries[j].destination, identity)
      {
        if entries[i].destination == identity || disk.Alias(entries[i].destination, identity) {
          assert entries[i] in entries;
          return true;
        }
      }
      return false;
    }
  }

  /**
   A rollback need not undo a new file: on a disk that only refuses to delete the first output, which did not exist, and
   to check a later one, the commit rolls back and ends with the first output new and the later one not.
   */
  method NewFileLeftBehind(files: Files, nextSerial: nat, es: seq<PendingOutput>, first: nat, second: nat)
    returns (outcome: Outcome, now: Files)
    requires WellNamed(es) && forall i :: 0 <= i < |es| ==> es[i].backup == None && !es[i].committed
    requires StagesIn(files, es) && forall p :: p in files && p.Sibling? ==> p.serial < nextSerial
    requires first < second < |es| && es[first].destination !in files
    requires AllDiffer(files, es)
    ensures outcome.RollbackIncomplete?
    ensures !AllOld(files, now, es) && !AllNew(files, now, es)
    ensures HasNew(files, now, es[first]) && SameAt(files, now, es[second].destination)
  {
    assert Named(es[first]);
    var refused := Op.LinkCheck(es[second].destination);
    var disk, transaction := RefusingDisk(files, nextSerial, es, Some(es[first].destination), refused);
    hide *;
    ghost var cut, settled, at, tidy;
    outcome, cut, settled, at, tidy := transaction.Commit(disk);
    now := disk.files;
    StopsAtTheRefused(disk, files, es, transaction.reached, transaction.checkedAt, second, refused);
    FirstIsKept(disk, files, now, es, transaction.reached, transaction.attempts, first, second);
  }

  /** A disk that only refuses to delete one output and one check of another, and a staged transaction. */
  method RefusingDisk(files: Files, nextSerial: nat, es: seq<PendingOutput>, kept: Option<Path>, refused: Op)
    returns (disk: Disk, transaction: OutputTransaction)
    requires WellNamed(es) && forall i :: 0 <= i < |es| ==> es[i].backup == None && !es[i].committed
    requires forall p :: p in files && p.Sibling? ==> p.serial < nextSerial
    requires kept.Some? ==> kept.value.Output?
    requires refused.Identify? || refused.LinkCheck?
    ensures fresh(disk) && fresh(transaction) && transaction.Staged() && transaction.entries == es
    ensures disk.files == files && disk.clock == 0 && disk.SerialsUnused() && disk.DropWorks()
    ensures kept == None ==> disk.UndoWorks()
    ensures forall t: nat, op: Op ::
              disk.fault(t, op) <==> op == refused || (op.Remove? && kept == Some(op.path))
  {
    disk := new Disk(files, nextSerial, (t: nat, op: Op) => op == refused || (op.Remove? && kept == Some(op.path)),
                     (_, _) => false, [LexicalPath.Root], directory => directory);
    transaction := new OutputTransaction();
    transaction.entries := es;
  }

  /** The loop stops at the one destination of which one check is always refused. */
  lemma StopsAtTheRefused(disk: Disk, pre: Files, es: seq<PendingOutput>, n: nat, checkedAt: seq<nat>, k: nat,
                          refused: Op)
    requires WellNamed(es) && k < |es|
    requires refused == Op.Identify(es[k].destination) || refused == Op.LinkCheck(es[k].destination)
    requires forall t: nat :: disk.fault(t, refused)
    requires forall t: nat, op: Op :: disk.fault(t, op) && !op.Remove? ==> op == refused
    requires CheckedUpTo(disk, 0, es, n, checkedAt) && StoppedBy(disk, 0, pre, es, n, checkedAt)
    ensures n == k
  {
    assert forall i :: 0 <= i < |es| ==> Named(es[i]);
  }

  /**
   Each of the two checks alone stops a commit: on a disk that always refuses one check of output k, and nothing else,
   the loop gets exactly to k, and the commit is undone.
   */
  method OneRefusedCheck(files: Files, nextSerial: nat, es: seq<PendingOutput>, k: nat, refused: Op)
    returns (outcome: Outcome, now: Files, ghost reached: nat)
    requires WellNamed(es) && forall i :: 0 <= i < |es| ==> es[i].backup == None && !es[i].committed
    requires StagesIn(files, es) && forall p :: p in files && p.Sibling? ==> p.serial < nextSerial
    requires k < |es|
    requires refused == Op.Identify(es[k].destination) || refused == Op.LinkCheck(es[k].destination)
    ensures reached == k && outcome.RolledBack?
    ensures AllOld(files, now, es) && OthersKept(files, now, es) && NoStages(now, es)
  {
    var disk, transaction := RefusingDisk(files, nextSerial, es, None, refused);
    hide *;
    ghost var cut, settled, at, tidy;
    outcome, cut, settled, at, tidy := transaction.Commit(disk);
    now, reached := disk.files, transaction.reached;
    StopsAtTheRefused(disk, files, es, reached, transaction.checkedAt, k, refused);
  }

  lemma FirstIsKept(disk: Disk, pre: Files, now: Files, es: seq<PendingOutput>, n: nat, attempts: seq<nat>,
                    first: nat, second: nat)
    requires first < second == n < |es| && es[first].destination !in pre
    requires forall t: nat :: disk.fault(t, Op.Remove(es[first].destination))
    requires NewKept(disk, 0, pre, now, es, n, attempts, 0) && AllDiffer(pre, es)
    ensures !AllOld(pre, now, es)
    ensures OldUnlessNew(pre, now, es) ==>
              !AllNew(pre, now, es) && HasNew(pre, now, es[first]) && SameAt(pre, now, es[second].destination)
  {
    assert es[first].destination in now && !SameAt(pre, now, es[first].destination);
    assert es[second].destination !in pre ==> es[second].destination !in now;
    assert SameAt(pre, now, es[second].destination) ==> !HasNew(pre, now, es[second]);
  }

  /**
   The exception is real for every transaction with two existing outputs: on a disk whose only fault is
   that the first one's backup cannot be deleted, the commit ends with some outputs new and some old.
   */
  method OneUndeletableBackup(files: Files, nextSerial: nat, es: seq<PendingOutput>, first: nat, second: nat)
    returns (outcome: Outcome, now: Files)
    requires WellNamed(es) && forall i :: 0 <= i < |es| ==> es[i].backup == None && !es[i].committed
    requires StagesIn(files, es) && forall p :: p in files && p.Sibling? ==> p.serial < nextSerial
    requires first < second < |es| && es[first].destination in files && es[second].destination in files
    requires AllDiffer(files, es)
    ensures outcome.CleanupFailed?
    ensures !AllOld(files, now, es) && !AllNew(files, now, es)
    ensures SameAt(files, now, es[second].destination) && HasNew(files, now, es[first])
  {
    var owner := es[first].destination;
    var disk := new Disk(files, nextSerial, (t: nat, op: Op) => op.Remove? && IsBackupOf(op.path, owner),
                         (_, _) => false, [LexicalPath.Root], directory => directory);
    var transaction := new OutputTransaction();
    transaction.entries := es;
    ghost var cut, settled, at, tidy;
    outcome, cut, settled, at, tidy := transaction.Commit(disk);
    now := disk.files;
    assert at == first by {
      assert IsBackupOf(transaction.moved[at].value, owner);
    }
    SplitIsMixed(files, now, es, transaction.moved, at);
  }
}
