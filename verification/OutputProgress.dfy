/**
 What the phases of an output transaction (src/cli/output.rs) make true of its entries and files, and
 how these facts survive a step.  `pre` is always the file map when the commit began.
 */
module OutputProgress {
  import opened Basics
  import opened FileSystem

  datatype PendingOutput = PendingOutput(
    destination: Path,
    staged: Path,
    backup: Option<Path>,
    committed: bool)

  predicate Named(e: PendingOutput) {
    && e.destination.Output?
    && e.staged.Sibling? && e.staged.of == e.destination && e.staged.role == Stage
    && (e.backup.Some? ==> IsBackupOf(e.backup.value, e.destination))
  }

  /** Both checks of the destination, begun at this moment, pass. */
  ghost predicate ChecksPass(disk: Disk, moment: nat, destination: Path) {
    !disk.fault(moment, Op.Identify(destination)) && !disk.fault(moment + 1, Op.LinkCheck(destination))
  }

  /** The backup's name is probed, and the old file renamed to it. */
  ghost predicate AsideWorks(disk: Disk, moment: nat, serial: nat, destination: Path) {
    var backup := Sibling(destination, serial, Backup);
    !disk.fault(moment, Op.Probe(backup)) && !disk.fault(moment + 1, Op.Rename(destination, backup))
  }

  /**
   Every operation that replacing e needs works, at its own moment: the identity check, the link check, for a
   destination that has a file the probe of the backup's name and the renaming to it, and the swap.
   */
  ghost predicate Replaceable(disk: Disk, moment: nat, serial: nat, e: PendingOutput, existed: bool) {
    && ChecksPass(disk, moment, e.destination)
    && (existed ==> AsideWorks(disk, moment + 2, serial, e.destination))
    && !disk.fault(moment + (if existed then 4 else 2), Op.Rename(e.staged, e.destination))
  }

  ghost predicate WellNamed(es: seq<PendingOutput>) {
    && (forall i :: 0 <= i < |es| ==> Named(es[i]))
    && (forall i, j :: 0 <= i < j < |es| ==> es[i].destination != es[j].destination)
  }

  /** The two lists name the same destinations and stages, whatever their progress. */
  ghost predicate SameNames(es: seq<PendingOutput>, fs: seq<PendingOutput>) {
    && |es| == |fs|
    && forall i :: 0 <= i < |es| ==> es[i].destination == fs[i].destination && es[i].staged == fs[i].staged
  }

  ghost predicate BackupPaths(es: seq<PendingOutput>, moved: seq<Option<Path>>) {
    && |moved| == |es|
    && forall i :: 0 <= i < |es| && moved[i].Some? ==> IsBackupOf(moved[i].value, es[i].destination)
  }

  /** `moved[i]` is the backup path that entry i was ever given: a new path, for a file that existed. */
  ghost predicate BackupsNamed(pre: Files, es: seq<PendingOutput>, moved: seq<Option<Path>>) {
    && BackupPaths(es, moved)
    && forall i :: 0 <= i < |es| && moved[i].Some? ==> moved[i].value !in pre && es[i].destination in pre
  }

  ghost predicate Touches(e: PendingOutput, m: Option<Path>, path: Path) {
    path == e.destination || path == e.staged || m == Some(path)
  }

  /** Nothing but destinations, stages and assigned backups differs. */
  ghost predicate Framed(pre: Files, now: Files, es: seq<PendingOutput>, moved: seq<Option<Path>>)
    requires |es| == |moved|
  {
    forall p :: (forall i :: 0 <= i < |es| ==> !Touches(es[i], moved[i], p)) ==> SameAt(pre, now, p)
  }

  /** The step from `a` to `b` changed only what entry e may touch. */
  ghost predicate ChangesOnly(a: Files, b: Files, e: PendingOutput, m: Option<Path>) {
    forall p :: !Touches(e, m, p) ==> SameAt(a, b, p)
  }

  /** The old content of the destination, if there was any, is there or at the backup. */
  ghost predicate Recoverable(pre: Files, now: Files, e: PendingOutput, m: Option<Path>) {
    e.destination in pre ==>
      || Holds(now, e.destination, pre[e.destination])
      || (m.Some? && Holds(now, m.value, pre[e.destination]))
  }

  ghost predicate Safe(pre: Files, now: Files, es: seq<PendingOutput>, moved: seq<Option<Path>>)
    requires |es| == |moved|
  {
    && (forall i :: 0 <= i < |es| ==> Recoverable(pre, now, es[i], moved[i]))
    && Framed(pre, now, es, moved)
  }

  ghost predicate HasNew(pre: Files, now: Files, e: PendingOutput) {
    e.staged in pre && Holds(now, e.destination, pre[e.staged])
  }

  ghost predicate AllNew(pre: Files, now: Files, es: seq<PendingOutput>) {
    forall i :: 0 <= i < |es| ==> HasNew(pre, now, es[i])
  }

  ghost predicate StagesIn(files: Files, es: seq<PendingOutput>) {
    forall i :: 0 <= i < |es| ==> es[i].staged in files
  }

  ghost predicate AllOld(pre: Files, now: Files, es: seq<PendingOutput>) {
    forall i :: 0 <= i < |es| ==> SameAt(pre, now, es[i].destination)
  }

  /** In the midst of replacement: untouched, moved away, or replaced. */
  ghost predicate Journaled(pre: Files, now: Files, e: PendingOutput, m: Option<Path>) {
    && e.backup == m
    && (m.Some? ==> e.destination in pre && Holds(now, m.value, pre[e.destination]))
    && (if e.committed then
          && HasNew(pre, now, e) && e.staged !in now
          && (m.None? ==> e.destination !in pre)
        else
          && SameAt(pre, now, e.staged)
          && (if m.None? then SameAt(pre, now, e.destination) else e.destination !in now))
  }

  ghost predicate Replaced(pre: Files, now: Files, e: PendingOutput, m: Option<Path>) {
    e.committed && Journaled(pre, now, e, m)
  }

  ghost predicate Restored(pre: Files, now: Files, e: PendingOutput, m: Option<Path>) {
    && !e.committed && e.backup == None
    && SameAt(pre, now, e.destination)
    && (m.Some? ==> m.value !in now)
  }

  /** The undo of this entry failed: the old content is still at its backup, or a new file stayed. */
  ghost predicate Stuck(pre: Files, now: Files, e: PendingOutput, m: Option<Path>) {
    && !e.committed && e.backup == m
    && (e.destination in now ==> HasNew(pre, now, e))
    && (if m.Some? then e.destination in pre && Holds(now, m.value, pre[e.destination])
        else e.destination !in pre && e.destination in now)
  }

  ghost predicate Undone(pre: Files, now: Files, e: PendingOutput, m: Option<Path>) {
    && (Restored(pre, now, e, m) || Stuck(pre, now, e, m))
    && (e.staged in now ==> SameAt(pre, now, e.staged))
  }

  /** Replaced, and the backup deleted. */
  ghost predicate Finished(pre: Files, now: Files, e: PendingOutput, m: Option<Path>) {
    && e.committed && e.backup == None
    && HasNew(pre, now, e) && e.staged !in now
    && (m.None? ==> e.destination !in pre)
    && (m.Some? ==> e.destination in pre && m.value !in now)
  }

  /** Replaced, the backup no longer recorded but still on disk. */
  ghost predicate Leaked(pre: Files, now: Files, e: PendingOutput, m: Option<Path>) {
    && e.committed && e.backup == None
    && HasNew(pre, now, e) && e.staged !in now
    && m.Some? && e.destination in pre && Holds(now, m.value, pre[e.destination])
  }

  ghost predicate SameFor(a: Files, b: Files, e: PendingOutput, m: Option<Path>) {
    && SameAt(a, b, e.destination) && SameAt(a, b, e.staged)
    && (m.Some? ==> SameAt(a, b, m.value))
  }

  /** Names of different entries never meet, so a step on one entry is invisible to every other. */
  lemma StepIsLocal(pre: Files, a: Files, b: Files, es: seq<PendingOutput>, moved: seq<Option<Path>>, i: nat)
    requires WellNamed(es) && BackupPaths(es, moved) && i < |es|
    requires ChangesOnly(a, b, es[i], moved[i])
    ensures forall j :: 0 <= j < |es| && j != i ==> SameFor(a, b, es[j], moved[j])
    ensures Framed(pre, a, es, moved) ==> Framed(pre, b, es, moved)
  {
    if Framed(pre, a, es, moved) {
      forall p | forall k :: 0 <= k < |es| ==> !Touches(es[k], moved[k], p)
        ensures SameAt(pre, b, p)
      {
        assert !Touches(es[i], moved[i], p);
        assert SameAt(pre, a, p) && SameAt(a, b, p);
      }
    }
  }

  /** Every progress predicate looks only at the files the entry names. */
  lemma ProgressIsLocal(pre: Files, a: Files, b: Files, e: PendingOutput, m: Option<Path>)
    requires SameFor(a, b, e, m)
    ensures Journaled(pre, a, e, m) <==> Journaled(pre, b, e, m)
    ensures Undone(pre, a, e, m) <==> Undone(pre, b, e, m)
    ensures Restored(pre, a, e, m) <==> Restored(pre, b, e, m)
    ensures Finished(pre, a, e, m) <==> Finished(pre, b, e, m)
  {
  }

  /** A step on one entry that keeps that entry recoverable keeps the whole state safe. */
  lemma StepIsSafe(pre: Files, a: Files, b: Files, es: seq<PendingOutput>, moved: seq<Option<Path>>, i: nat)
    requires WellNamed(es) && BackupsNamed(pre, es, moved) && i < |es|
    requires Safe(pre, a, es, moved)
    requires ChangesOnly(a, b, es[i], moved[i]) && Recoverable(pre, b, es[i], moved[i])
    ensures Safe(pre, b, es, moved)
  {
    StepIsLocal(pre, a, b, es, moved, i);
  }

  /** Every state recorded from `from` on is safe. */
  ghost predicate SafeSince(pre: Files, history: seq<Files>, from: nat, es: seq<PendingOutput>,
      moved: seq<Option<Path>>)
    requires |es| == |moved|
  {
    forall k :: from <= k < |history| ==> Safe(pre, history[k], es, moved)
  }

  /** The states recorded by a step on one entry: only that entry's files differ, and it stays recoverable. */
  ghost predicate EntrySteps(pre: Files, before: Files, history: seq<Files>, from: nat, e: PendingOutput,
      m: Option<Path>) {
    forall k :: from <= k < |history| ==>
      ChangesOnly(before, history[k], e, m) && Recoverable(pre, history[k], e, m)
  }

  /** An untouched entry, its old file moved aside or not, the stage swapped in or not. */
  lemma Swapped(pre: Files, before: Files, aside: Files, now: Files, e: PendingOutput, m: Option<Path>, ok: bool)
    requires Named(e) && !e.committed && Journaled(pre, before, e, None)
    requires m.Some? ==>
               && IsBackupOf(m.value, e.destination) && m.value !in before && SameAt(pre, before, m.value)
               && e.destination in before && aside == Moved(before, e.destination, m.value)
    requires m.None? ==> aside == before && (ok ==> e.destination !in before)
    requires if ok then e.staged in aside && now == Moved(aside, e.staged, e.destination) else now == aside
    ensures Journaled(pre, now, e.(backup := m, committed := ok), m)
    ensures ChangesOnly(before, aside, e, m) && Recoverable(pre, aside, e, m)
    ensures ChangesOnly(before, now, e, m) && Recoverable(pre, now, e, m)
    ensures m.Some? ==> m.value !in pre && e.destination in pre
    ensures (e.destination in pre <==> e.destination in before) && (e.staged in pre <==> e.staged in aside)
    ensures e.backup == None
  {
  }

  lemma SafeSinceStep(pre: Files, before: Files, earlier: seq<Files>, history: seq<Files>, from: nat,
                      es: seq<PendingOutput>, moved: seq<Option<Path>>, i: nat)
    requires WellNamed(es) && BackupsNamed(pre, es, moved) && i < |es|
    requires earlier <= history && SafeSince(pre, earlier, from, es, moved)
    requires Safe(pre, before, es, moved)
    requires EntrySteps(pre, before, history, |earlier|, es[i], moved[i])
    ensures SafeSince(pre, history, from, es, moved)
  {
    forall k | from <= k < |history| ensures Safe(pre, history[k], es, moved) {
      if k < |earlier| {
        assert history[k] == earlier[k];
      } else {
        StepIsSafe(pre, before, history[k], es, moved, i);
      }
    }
  }

  /** Entries from i on are undone, entries before i still as they were when rollback began. */
  ghost predicate RollingBack(pre: Files, now: Files, es: seq<PendingOutput>, entries: seq<PendingOutput>,
                              moved: seq<Option<Path>>, i: nat, clean: bool)
    requires |es| == |moved|
  {
    && i <= |es| && SameNames(es, entries)
    && (forall j :: 0 <= j < i ==> entries[j] == es[j] && Journaled(pre, now, es[j], moved[j]))
    && (forall j :: i <= j < |entries| ==> Named(entries[j]) && Undone(pre, now, entries[j], moved[j]))
    && (clean ==> forall j :: i <= j < |entries| ==> Restored(pre, now, entries[j], moved[j]))
    && Framed(pre, now, es, moved)
  }

  lemma RollingBackIsSafe(pre: Files, now: Files, es: seq<PendingOutput>, entries: seq<PendingOutput>,
                          moved: seq<Option<Path>>, i: nat, clean: bool)
    requires |es| == |moved| && RollingBack(pre, now, es, entries, moved, i, clean)
    ensures Safe(pre, now, es, moved)
  {
    forall j | 0 <= j < |es| ensures Recoverable(pre, now, es[j], moved[j]) {
      if j < i {
        assert Journaled(pre, now, es[j], moved[j]);
      } else {
        assert Undone(pre, now, entries[j], moved[j]);
      }
    }
  }

  lemma RollingBackStep(pre: Files, before: Files, now: Files, es: seq<PendingOutput>, entries: seq<PendingOutput>,
                        moved: seq<Option<Path>>, i: nat, clean: bool, undone: PendingOutput, ok: bool)
    requires WellNamed(es) && BackupsNamed(pre, es, moved)
    requires 0 < i && RollingBack(pre, before, es, entries, moved, i, clean)
    requires undone.destination == es[i - 1].destination && undone.staged == es[i - 1].staged && Named(undone)
    requires ChangesOnly(before, now, es[i - 1], moved[i - 1])
    requires Undone(pre, now, undone, moved[i - 1]) && (ok ==> Restored(pre, now, undone, moved[i - 1]))
    ensures RollingBack(pre, now, es, entries[i - 1 := undone], moved, i - 1, clean && ok)
  {
    StepIsLocal(pre, before, now, es, moved, i - 1);
    var after := entries[i - 1 := undone];
    forall j | 0 <= j < i - 1 ensures after[j] == es[j] && Journaled(pre, now, es[j], moved[j]) {
      ProgressIsLocal(pre, before, now, es[j], moved[j]);
    }
    forall j | i - 1 <= j < |after|
      ensures Named(after[j]) && Undone(pre, now, after[j], moved[j])
      ensures clean && ok ==> Restored(pre, now, after[j], moved[j])
    {
      if j != i - 1 {
        assert SameFor(before, now, es[j], moved[j]);
        ProgressIsLocal(pre, before, now, entries[j], moved[j]);
      }
    }
  }

  /** Entries before i are replaced; from i on nothing has happened. */
  ghost predicate Replacing(pre: Files, now: Files, es: seq<PendingOutput>, entries: seq<PendingOutput>,
                            moved: seq<Option<Path>>, i: nat)
  {
    && i <= |es| && SameNames(es, entries) && BackupsNamed(pre, es, moved)
    && (forall j :: 0 <= j < i ==> Named(entries[j]) && Replaced(pre, now, entries[j], moved[j]))
    && (forall j :: i <= j < |es| ==>
          entries[j] == es[j] && moved[j] == None && !es[j].committed && Journaled(pre, now, es[j], None))
    && Framed(pre, now, es, moved)
  }

  /** Some moment of the replacement loop: every entry untouched, moved away or replaced. */
  ghost predicate MidCommit(pre: Files, now: Files, es: seq<PendingOutput>, entries: seq<PendingOutput>,
                            moved: seq<Option<Path>>)
  {
    && SameNames(es, entries) && WellNamed(entries) && BackupsNamed(pre, es, moved)
    && (forall j :: 0 <= j < |es| ==> Journaled(pre, now, entries[j], moved[j]))
    && Framed(pre, now, es, moved)
  }

  lemma ReplacingIsMidCommit(pre: Files, now: Files, es: seq<PendingOutput>, entries: seq<PendingOutput>,
                             moved: seq<Option<Path>>, i: nat)
    requires WellNamed(es) && Replacing(pre, now, es, entries, moved, i)
    ensures MidCommit(pre, now, es, entries, moved)
  {
  }

  lemma ReplacingStarts(pre: Files, es: seq<PendingOutput>, moved: seq<Option<Path>>)
    requires WellNamed(es) && forall i :: 0 <= i < |es| ==> es[i].backup == None && !es[i].committed
    requires |moved| == |es| && forall i :: 0 <= i < |es| ==> moved[i] == None
    ensures Replacing(pre, pre, es, es, moved, 0)
  {
  }

  lemma ReplacingIsSafe(pre: Files, now: Files, es: seq<PendingOutput>, entries: seq<PendingOutput>,
                        moved: seq<Option<Path>>, i: nat)
    requires Replacing(pre, now, es, entries, moved, i)
    ensures Safe(pre, now, es, moved)
  {
    forall j | 0 <= j < |es| ensures Recoverable(pre, now, es[j], moved[j]) {
      if j < i {
        assert Replaced(pre, now, entries[j], moved[j]);
      } else {
        assert Journaled(pre, now, es[j], None);
      }
    }
  }

  /** Every path a backup of entry i could get is still as it was. */
  lemma BackupPathsUntouched(pre: Files, now: Files, es: seq<PendingOutput>, entries: seq<PendingOutput>,
                             moved: seq<Option<Path>>, i: nat)
    requires WellNamed(es) && i < |es| && Replacing(pre, now, es, entries, moved, i)
    ensures forall p :: IsBackupOf(p, es[i].destination) ==> SameAt(pre, now, p)
  {
    forall p | IsBackupOf(p, es[i].destination) ensures SameAt(pre, now, p) {
      forall j | 0 <= j < |es| ensures !Touches(es[j], moved[j], p) {
        assert Named(es[j]);
        if j != i && moved[j].Some? {
          assert IsBackupOf(moved[j].value, es[j].destination);
        }
      }
    }
  }

  /** Recording a backup path for entry i keeps every earlier state safe. */
  lemma MoreBackups(pre: Files, history: seq<Files>, from: nat, es: seq<PendingOutput>, moved: seq<Option<Path>>,
                    i: nat, m: Option<Path>)
    requires |es| == |moved| && i < |es| && moved[i] == None
    requires SafeSince(pre, history, from, es, moved)
    ensures SafeSince(pre, history, from, es, moved[i := m])
  {
    var more := moved[i := m];
    forall k | from <= k < |history| ensures Safe(pre, history[k], es, more) {
      MoreBackupsSafe(pre, history[k], es, moved, i, m);
    }
  }

  lemma MoreBackupsSafe(pre: Files, now: Files, es: seq<PendingOutput>, moved: seq<Option<Path>>, i: nat,
      m: Option<Path>)
    requires |es| == |moved| && i < |es| && moved[i] == None
    requires Safe(pre, now, es, moved)
    ensures Safe(pre, now, es, moved[i := m])
  {
    var more := moved[i := m];
    forall j | 0 <= j < |es| ensures Recoverable(pre, now, es[j], more[j]) {
      assert Recoverable(pre, now, es[j], moved[j]);
    }
    forall p | forall j :: 0 <= j < |es| ==> !Touches(es[j], more[j], p) ensures SameAt(pre, now, p) {
      forall j | 0 <= j < |es| ensures !Touches(es[j], moved[j], p) {
        assert !Touches(es[j], more[j], p);
      }
    }
  }

  /** The entry whose turn it is has not been touched. */
  lemma NextEntry(pre: Files, now: Files, es: seq<PendingOutput>, entries: seq<PendingOutput>,
                  moved: seq<Option<Path>>, i: nat)
    requires WellNamed(es) && i < |es| && Replacing(pre, now, es, entries, moved, i)
    ensures |entries| == |es| == |moved| && entries[i] == es[i] && moved[i] == None
    ensures Named(es[i]) && !es[i].committed && Journaled(pre, now, es[i], None)
  {
  }

  /** After the step on entry i every entry is journaled; if the step succeeded one more is replaced. */
  lemma ReplacingStep(pre: Files, before: Files, now: Files, es: seq<PendingOutput>, entries: seq<PendingOutput>,
                      moved: seq<Option<Path>>, i: nat, e: PendingOutput, m: Option<Path>, ok: bool)
    requires WellNamed(es) && i < |es| && Replacing(pre, before, es, entries, moved, i)
    requires e.destination == es[i].destination && e.staged == es[i].staged && Named(e)
    requires m.Some? ==> IsBackupOf(m.value, es[i].destination) && m.value !in pre && es[i].destination in pre
    requires ChangesOnly(before, now, es[i], m)
    requires Journaled(pre, now, e, m) && (ok ==> e.committed)
    ensures var after, more := entries[i := e], moved[i := m];
            && MidCommit(pre, now, es, after, more)
            && (ok ==> Replacing(pre, now, es, after, more, i + 1))
  {
    var after, more := entries[i := e], moved[i := m];
    ReplacingIsSafe(pre, before, es, entries, moved, i);
    MoreBackupsSafe(pre, before, es, moved, i, m);
    StepIsLocal(pre, before, now, es, more, i);
    forall j | 0 <= j < |es|
      ensures Named(after[j]) && Journaled(pre, now, after[j], more[j])
      ensures j < i ==> after[j].committed
    {
      if j != i {
        assert SameFor(before, now, es[j], more[j]);
        ProgressIsLocal(pre, before, now, entries[j], moved[j]);
      }
    }
  }

  /** The history stays safe over the step on entry i, with its backup path now recorded. */
  lemma ReplacingHistory(pre: Files, before: Files, earlier: seq<Files>, history: seq<Files>, from: nat,
                         es: seq<PendingOutput>, entries: seq<PendingOutput>, moved: seq<Option<Path>>,
                         i: nat, m: Option<Path>)
    requires WellNamed(es) && i < |es| && Replacing(pre, before, es, entries, moved, i)
    requires m.Some? ==> IsBackupOf(m.value, es[i].destination) && m.value !in pre && es[i].destination in pre
    requires earlier <= history && SafeSince(pre, earlier, from, es, moved)
    requires EntrySteps(pre, before, history, |earlier|, es[i], m)
    ensures SafeSince(pre, history, from, es, moved[i := m])
  {
    ReplacingIsSafe(pre, before, es, entries, moved, i);
    MoreBackups(pre, earlier, from, es, moved, i, m);
    MoreBackupsSafe(pre, before, es, moved, i, m);
    SafeSinceStep(pre, before, earlier, history, from, es, moved[i := m], i);
  }

  /** Entries before i are finished, the others replaced and still backed up. */
  ghost predicate CleaningUp(pre: Files, now: Files, es: seq<PendingOutput>, entries: seq<PendingOutput>,
                             moved: seq<Option<Path>>, i: nat)
  {
    && i <= |es| && SameNames(es, entries) && BackupsNamed(pre, es, moved)
    && (forall j :: 0 <= j < i ==> Named(entries[j]) && Finished(pre, now, entries[j], moved[j]))
    && (forall j :: i <= j < |es| ==> Named(entries[j]) && Replaced(pre, now, entries[j], moved[j]))
    && Framed(pre, now, es, moved)
  }

  /** Deletion stopped at one backup: earlier entries finished, later ones still recorded. */
  ghost predicate CleanupStopped(pre: Files, now: Files, entries: seq<PendingOutput>, moved: seq<Option<Path>>, at: nat)
  {
    && at < |entries| == |moved|
    && Leaked(pre, now, entries[at], moved[at])
    && (forall j :: 0 <= j < at ==> Finished(pre, now, entries[j], moved[j]))
    && (forall j :: at < j < |entries| ==> Replaced(pre, now, entries[j], moved[j]))
  }

  /** Rollback has gone through every entry; when it was clean, every one is restored. */
  ghost predicate AllUndone(pre: Files, now: Files, entries: seq<PendingOutput>, moved: seq<Option<Path>>,
      clean: bool) {
    && |moved| == |entries|
    && (forall i :: 0 <= i < |entries| ==> Undone(pre, now, entries[i], moved[i]))
    && (clean ==> forall i :: 0 <= i < |entries| ==> Restored(pre, now, entries[i], moved[i]))
  }

  /** The names are unchanged, the backups new, and nothing else was touched. */
  ghost predicate Accounted(pre: Files, now: Files, es: seq<PendingOutput>, entries: seq<PendingOutput>,
                            moved: seq<Option<Path>>)
  {
    SameNames(es, entries) && WellNamed(entries) && BackupsNamed(pre, es, moved) && Framed(pre, now, es, moved)
  }

  /** All replacements are in place. */
  ghost predicate Installed(pre: Files, now: Files, es: seq<PendingOutput>, moved: seq<Option<Path>>)
    requires |es| == |moved|
  {
    AllNew(pre, now, es) && Framed(pre, now, es, moved)
  }

  lemma CleaningUpIsInstalled(pre: Files, now: Files, es: seq<PendingOutput>, entries: seq<PendingOutput>,
                              moved: seq<Option<Path>>, i: nat)
    requires CleaningUp(pre, now, es, entries, moved, i)
    ensures Installed(pre, now, es, moved)
  {
    forall j | 0 <= j < |es| ensures HasNew(pre, now, es[j]) {
      assert HasNew(pre, now, entries[j]);
    }
  }

  /** Deleting the backup of entry i leaves every other entry where it was. */
  lemma CleaningUpStep(pre: Files, before: Files, now: Files, es: seq<PendingOutput>, entries: seq<PendingOutput>,
                       moved: seq<Option<Path>>, i: nat, e: PendingOutput)
    requires WellNamed(es) && i < |es| && CleaningUp(pre, before, es, entries, moved, i)
    requires ChangesOnly(before, now, es[i], moved[i])
    requires e.destination == es[i].destination && e.staged == es[i].staged && Named(e)
    ensures var after := entries[i := e];
            && SameNames(es, after) && Framed(pre, now, es, moved)
            && (forall j :: 0 <= j < i ==> Named(after[j]) && Finished(pre, now, after[j], moved[j]))
            && (forall j :: i < j < |es| ==> Named(after[j]) && Replaced(pre, now, after[j], moved[j]))
            && (Finished(pre, now, e, moved[i]) ==> CleaningUp(pre, now, es, after, moved, i + 1))
  {
    StepIsLocal(pre, before, now, es, moved, i);
    var after := entries[i := e];
    forall j | 0 <= j < |es| && j != i
      ensures Named(after[j])
      ensures j < i ==> Finished(pre, now, after[j], moved[j])
      ensures j > i ==> Replaced(pre, now, after[j], moved[j])
    {
      assert SameFor(before, now, es[j], moved[j]);
      ProgressIsLocal(pre, before, now, entries[j], moved[j]);
    }
  }

  /** The states between `from` and `to` have every new file in place. */
  ghost predicate InstalledWithin(pre: Files, history: seq<Files>, from: nat, to: nat,
                                  es: seq<PendingOutput>, moved: seq<Option<Path>>)
    requires |es| == |moved| && to <= |history|
  {
    forall k :: from <= k < to ==> Installed(pre, history[k], es, moved)
  }

  function BackupsOf(es: seq<PendingOutput>): (r: seq<Option<Path>>)
    ensures |r| == |es| && forall i :: 0 <= i < |es| ==> r[i] == es[i].backup
  {
    seq(|es|, i requires 0 <= i < |es| => es[i].backup)
  }

  /**
   What `Drop` may have done to one entry by the time the files are `now`: its stage deleted or not
   yet, its recorded backup put back or not yet, the destination otherwise unchanged.
   */
  ghost predicate Dropping(was: Files, now: Files, e: PendingOutput) {
    && (e.staged !in now || SameAt(was, now, e.staged))
    && (if e.backup.Some? && e.backup.value in was then
          || (Holds(now, e.destination, was[e.backup.value]) && e.backup.value !in now)
          || (SameAt(was, now, e.destination) && SameAt(was, now, e.backup.value))
        else
          && SameAt(was, now, e.destination)
          && (e.backup.Some? ==> e.backup.value !in now))
  }

  /** `Drop` finished this entry. */
  ghost predicate Dropped(was: Files, now: Files, e: PendingOutput) {
    && Dropping(was, now, e)
    && e.staged !in now
    && (e.backup.Some? ==> e.backup.value !in now)
  }

  ghost predicate AllDropping(was: Files, now: Files, es: seq<PendingOutput>) {
    && (forall i :: 0 <= i < |es| ==> Dropping(was, now, es[i]))
    && Framed(was, now, es, BackupsOf(es))
  }

  /** `Drop` has dealt with the entries before i. */
  ghost predicate DroppingUpTo(was: Files, now: Files, es: seq<PendingOutput>, i: nat, tidy: bool) {
    && i <= |es| && AllDropping(was, now, es)
    && (tidy ==> forall j :: 0 <= j < i ==> Dropped(was, now, es[j]))
    && (forall j :: i <= j < |es| ==> SameFor(was, now, es[j], es[j].backup))
  }

  /** A step of `Drop` on entry i, seen from the state in which `Drop` began. */
  lemma DroppingStep(was: Files, before: Files, now: Files, es: seq<PendingOutput>, i: nat, tidy: bool)
    requires WellNamed(es) && i < |es| && DroppingUpTo(was, before, es, i, tidy)
    requires ChangesOnly(before, now, es[i], es[i].backup) && Dropping(before, now, es[i])
    ensures AllDropping(was, now, es)
    ensures DroppingUpTo(was, now, es, i + 1, tidy && Dropped(before, now, es[i]))
  {
    assert BackupPaths(es, BackupsOf(es)) by {
      assert forall j :: 0 <= j < |es| ==> Named(es[j]);
    }
    StepIsLocal(was, before, now, es, BackupsOf(es), i);
    forall j | 0 <= j < |es|
      ensures Dropping(was, now, es[j])
      ensures j != i && Dropped(was, before, es[j]) ==> Dropped(was, now, es[j])
      ensures j == i && Dropped(before, now, es[i]) ==> Dropped(was, now, es[i])
    {
      if j != i {
        assert SameFor(before, now, es[j], BackupsOf(es)[j]);
      } else {
        assert SameFor(was, before, es[i], es[i].backup);
      }
    }
  }

  /** Only the names matter to framing and safety. */
  lemma NamesDecide(pre: Files, now: Files, es: seq<PendingOutput>, fs: seq<PendingOutput>, moved: seq<Option<Path>>)
    requires SameNames(es, fs) && |moved| == |es|
    ensures Framed(pre, now, es, moved) <==> Framed(pre, now, fs, moved)
    ensures Safe(pre, now, es, moved) <==> Safe(pre, now, fs, moved)
    ensures AllNew(pre, now, es) <==> AllNew(pre, now, fs)
    ensures BackupsNamed(pre, es, moved) <==> BackupsNamed(pre, fs, moved)
  {
    assert forall p, i :: 0 <= i < |es| ==> (Touches(es[i], moved[i], p) <==> Touches(fs[i], moved[i], p));
    assert forall i :: 0 <= i < |es| ==>
      (Recoverable(pre, now, es[i], moved[i]) <==> Recoverable(pre, now, fs[i], moved[i]));
    assert forall i :: 0 <= i < |es| ==> (HasNew(pre, now, es[i]) <==> HasNew(pre, now, fs[i]));
  }

  lemma MidCommitContinues(pre: Files, now: Files, es: seq<PendingOutput>, entries: seq<PendingOutput>,
      moved: seq<Option<Path>>)
    requires MidCommit(pre, now, es, entries, moved)
    ensures MidCommit(pre, now, entries, entries, moved)
    ensures SameNames(es, entries) && |moved| == |es|
    ensures (forall i :: 0 <= i < |entries| ==> entries[i].committed) ==>
              CleaningUp(pre, now, entries, entries, moved, 0)
  {
    NamesDecide(pre, now, es, entries, moved);
  }

  /** Before the first step everything is accounted for. */
  lemma NothingHappened(pre: Files, es: seq<PendingOutput>, moved: seq<Option<Path>>)
    requires WellNamed(es) && |moved| == |es| && forall i :: 0 <= i < |es| ==> moved[i] == None
    ensures Accounted(pre, pre, es, es, moved)
  {
  }

  /** What the second half of a commit established about its own start holds for the whole commit. */
  lemma WholeCommit(pre: Files, now: Files, es: seq<PendingOutput>, mid: seq<PendingOutput>,
                    entries: seq<PendingOutput>, moved: seq<Option<Path>>)
    requires SameNames(es, mid) && Accounted(pre, now, mid, entries, moved)
    ensures Accounted(pre, now, es, entries, moved)
    ensures forall i :: CleaningUp(pre, now, mid, entries, moved, i) ==> CleaningUp(pre, now, es, entries, moved, i)
  {
    NamesDecide(pre, now, es, mid, moved);
  }

  lemma WholeHistory(pre: Files, history: seq<Files>, es: seq<PendingOutput>, mid: seq<PendingOutput>,
                     moved: seq<Option<Path>>, from: nat, middle: nat)
    requires SameNames(es, mid) && |moved| == |es| && from <= middle <= |history|
    requires SafeSince(pre, history[..middle], from, es, moved)
    ensures SafeSince(pre, history, middle, mid, moved) ==> SafeSince(pre, history, from, es, moved)
    ensures InstalledWithin(pre, history, middle, |history|, mid, moved) ==>
              InstalledWithin(pre, history, middle, |history|, es, moved)
  {
    forall k | middle <= k < |history|
      ensures Safe(pre, history[k], mid, moved) <==> Safe(pre, history[k], es, moved)
      ensures Installed(pre, history[k], mid, moved) <==> Installed(pre, history[k], es, moved)
    {
      NamesDecide(pre, history[k], es, mid, moved);
    }
    forall k | from <= k < middle ensures Safe(pre, history[k], es, moved) {
      assert history[..middle][k] == history[k];
    }
  }

  /** Every path other than a destination or a stage is as it was. */
  ghost predicate OthersKept(pre: Files, now: Files, es: seq<PendingOutput>) {
    forall p :: (forall i :: 0 <= i < |es| ==> p != es[i].destination && p != es[i].staged) ==> SameAt(pre, now, p)
  }

  ghost predicate NoStages(now: Files, es: seq<PendingOutput>) {
    forall i :: 0 <= i < |es| ==> es[i].staged !in now
  }

  /** A recorded backup is the one that was assigned. */
  ghost predicate BackupsAgree(entries: seq<PendingOutput>, moved: seq<Option<Path>>) {
    |moved| == |entries| && forall i :: 0 <= i < |entries| && entries[i].backup.Some? ==> entries[i].backup == moved[i]
  }

  /** No assigned backup is left. */
  ghost predicate NoBackups(now: Files, moved: seq<Option<Path>>) {
    forall i :: 0 <= i < |moved| && moved[i].Some? ==> moved[i].value !in now
  }

  lemma DropIsFramed(pre: Files, mid: Files, now: Files, es: seq<PendingOutput>, entries: seq<PendingOutput>,
                     moved: seq<Option<Path>>)
    requires Accounted(pre, mid, es, entries, moved) && BackupsAgree(entries, moved)
    requires AllDropping(mid, now, entries)
    ensures Framed(pre, now, es, moved)
    ensures forall i :: 0 <= i < |moved| && moved[i].Some? && entries[i].backup == None ==>
              SameAt(mid, now, moved[i].value)
  {
    var backups := BackupsOf(entries);
    forall p | forall i :: 0 <= i < |es| ==> !Touches(es[i], moved[i], p) ensures SameAt(pre, now, p) {
      forall i | 0 <= i < |entries| ensures !Touches(entries[i], backups[i], p) {
        assert !Touches(es[i], moved[i], p);
      }
      assert SameAt(pre, mid, p) && SameAt(mid, now, p);
    }
    forall i | 0 <= i < |moved| && moved[i].Some? && entries[i].backup == None
      ensures SameAt(mid, now, moved[i].value)
    {
      var p := moved[i].value;
      forall j | 0 <= j < |entries| ensures !Touches(entries[j], backups[j], p) {
        assert Named(entries[j]) && Named(entries[i]) && IsBackupOf(p, es[i].destination);
        assert j != i ==> entries[j].destination != entries[i].destination;
      }
    }
  }

  lemma NothingElseChanged(pre: Files, now: Files, es: seq<PendingOutput>, moved: seq<Option<Path>>)
    requires BackupsNamed(pre, es, moved) && Framed(pre, now, es, moved) && NoBackups(now, moved)
    ensures OthersKept(pre, now, es)
  {
    forall p | forall i :: 0 <= i < |es| ==> p != es[i].destination && p != es[i].staged
      ensures SameAt(pre, now, p)
    {
      if j :| 0 <= j < |es| && moved[j] == Some(p) {
        assert p !in pre && p !in now;
      } else {
        assert forall i :: 0 <= i < |es| ==> !Touches(es[i], moved[i], p);
      }
    }
  }

  lemma AfterCommitted(pre: Files, mid: Files, now: Files, es: seq<PendingOutput>, entries: seq<PendingOutput>,
                       moved: seq<Option<Path>>)
    requires Accounted(pre, mid, es, entries, moved)
    requires CleaningUp(pre, mid, es, entries, moved, |entries|) && AllDropping(mid, now, entries)
    ensures Installed(pre, now, es, moved) && NoStages(now, es) && OthersKept(pre, now, es)
  {
    assert forall i :: 0 <= i < |entries| ==> Finished(pre, mid, entries[i], moved[i]);
    DropIsFramed(pre, mid, now, es, entries, moved);
    forall i | 0 <= i < |es|
      ensures HasNew(pre, now, es[i]) && es[i].staged !in now
      ensures moved[i].Some? ==> moved[i].value !in now
    {
      assert Dropping(mid, now, entries[i]) && HasNew(pre, mid, entries[i]);
    }
    NothingElseChanged(pre, now, es, moved);
  }

  /** A destination that had a file has it again; one that had none has none, or kept the new file. */
  ghost predicate OldUnlessNew(pre: Files, now: Files, es: seq<PendingOutput>) {
    forall i :: 0 <= i < |es| ==>
      SameAt(pre, now, es[i].destination) || (es[i].destination !in pre && HasNew(pre, now, es[i]))
  }

  lemma AfterUndone(pre: Files, mid: Files, now: Files, es: seq<PendingOutput>, entries: seq<PendingOutput>,
                    moved: seq<Option<Path>>, clean: bool)
    requires Accounted(pre, mid, es, entries, moved)
    requires AllUndone(pre, mid, entries, moved, clean) && AllDropping(mid, now, entries)
    ensures Safe(pre, now, es, moved)
    ensures clean ==> AllOld(pre, now, es) && OthersKept(pre, now, es)
    ensures (forall i :: 0 <= i < |entries| ==> Dropped(mid, now, entries[i])) ==>
              OldUnlessNew(pre, now, es) && NoStages(now, es) && OthersKept(pre, now, es)
  {
    assert forall i :: 0 <= i < |entries| ==> Undone(pre, mid, entries[i], moved[i]);
    DropIsFramed(pre, mid, now, es, entries, moved);
    forall i | 0 <= i < |es|
      ensures Recoverable(pre, now, es[i], moved[i])
      ensures clean ==> SameAt(pre, now, es[i].destination) && (moved[i].Some? ==> moved[i].value !in now)
      ensures Dropped(mid, now, entries[i]) ==>
                && es[i].staged !in now
                && (moved[i].Some? ==> moved[i].value !in now)
                && (SameAt(pre, now, es[i].destination) || (es[i].destination !in pre && HasNew(pre, now, es[i])))
    {
      assert Dropping(mid, now, entries[i]);
    }
    if clean || forall i :: 0 <= i < |entries| ==> Dropped(mid, now, entries[i]) {
      NothingElseChanged(pre, now, es, moved);
    }
  }

  /**
   After a failed backup deletion at entry `at`, at any moment of the destructor: that entry and the earlier ones
   are new, the old bytes of that entry remain in its leaked backup and the earlier backups are gone; a later file
   that was there before is either still replaced, with its backup, or old again, without one.
   */
  ghost predicate Splitting(pre: Files, now: Files, es: seq<PendingOutput>, moved: seq<Option<Path>>, at: nat)
    requires |es| == |moved|
  {
    && at < |es| && es[at].destination in pre && Framed(pre, now, es, moved)
    && forall i :: 0 <= i < |es| ==> SplittingAt(pre, now, es[i], moved[i], i, at)
  }

  ghost predicate SplittingAt(pre: Files, now: Files, e: PendingOutput, m: Option<Path>, i: nat, at: nat) {
    if e.destination !in pre then HasNew(pre, now, e)
    else
      && m.Some?
      && (if i < at then HasNew(pre, now, e) && m.value !in now
          else if i == at then HasNew(pre, now, e) && Holds(now, m.value, pre[e.destination])
          else
            || (HasNew(pre, now, e) && Holds(now, m.value, pre[e.destination]))
            || (SameAt(pre, now, e.destination) && m.value !in now))
  }

  /**
   The outcome of a failed backup deletion at entry `at`: that entry and the earlier ones are new, every later file
   that was there before is old again, and of the backups only the leaked one is left, with its old bytes.
   */
  ghost predicate Split(pre: Files, now: Files, es: seq<PendingOutput>, moved: seq<Option<Path>>, at: nat)
    requires |es| == |moved|
  {
    && Splitting(pre, now, es, moved, at)
    && (forall i :: 0 <= i < |es| ==>
          if i <= at || es[i].destination !in pre then HasNew(pre, now, es[i]) else SameAt(pre, now, es[i].destination))
    && forall i :: 0 <= i < |es| && i != at && moved[i].Some? ==> moved[i].value !in now
  }

  lemma AfterStopped(pre: Files, mid: Files, now: Files, es: seq<PendingOutput>, entries: seq<PendingOutput>,
                     moved: seq<Option<Path>>, at: nat)
    requires Accounted(pre, mid, es, entries, moved)
    requires CleanupStopped(pre, mid, entries, moved, at) && AllDropping(mid, now, entries)
    ensures Splitting(pre, now, es, moved, at)
    ensures (forall i :: 0 <= i < |entries| ==> Dropped(mid, now, entries[i])) ==>
              Split(pre, now, es, moved, at) && NoStages(now, es)
  {
    DropIsFramed(pre, mid, now, es, entries, moved);
    forall i | 0 <= i < |es|
      ensures SplittingAt(pre, now, es[i], moved[i], i, at)
      ensures Dropped(mid, now, entries[i]) ==>
                && (if i <= at || es[i].destination !in pre then HasNew(pre, now, es[i])
                    else SameAt(pre, now, es[i].destination))
                && (i != at && moved[i].Some? ==> moved[i].value !in now)
                && es[i].staged !in now
    {
      assert Dropping(mid, now, entries[i]);
      assert i < at ==> Finished(pre, mid, entries[i], moved[i]);
      assert i > at ==> Replaced(pre, mid, entries[i], moved[i]);
    }
  }

  /** From `from` on, nothing but destinations, stages and assigned backups differs in any recorded state. */
  ghost predicate FramedSince(pre: Files, history: seq<Files>, from: nat, es: seq<PendingOutput>,
      moved: seq<Option<Path>>)
    requires |es| == |moved|
  {
    forall k :: from <= k < |history| ==> Framed(pre, history[k], es, moved)
  }

  /** The states that `Drop` has gone through. */
  ghost predicate DroppingSince(mid: Files, history: seq<Files>, from: nat, entries: seq<PendingOutput>) {
    forall k :: from <= k < |history| ==> AllDropping(mid, history[k], entries)
  }

  /** The states of a split, up to the end. */
  ghost predicate SplittingSince(pre: Files, history: seq<Files>, from: nat, es: seq<PendingOutput>,
                                 moved: seq<Option<Path>>, at: nat)
    requires |es| == |moved|
  {
    forall k :: from <= k < |history| ==> Splitting(pre, history[k], es, moved, at)
  }

  lemma DropAfterCommitted(pre: Files, mid: Files, history: seq<Files>, from: nat, es: seq<PendingOutput>,
                           entries: seq<PendingOutput>, moved: seq<Option<Path>>)
    requires Accounted(pre, mid, es, entries, moved) && DroppingSince(mid, history, from, entries)
    requires CleaningUp(pre, mid, es, entries, moved, |entries|)
    ensures from <= |history| ==> InstalledWithin(pre, history, from, |history|, es, moved)
  {
    forall k | from <= k < |history| ensures Installed(pre, history[k], es, moved) {
      AfterCommitted(pre, mid, history[k], es, entries, moved);
    }
  }

  lemma DropAfterUndone(pre: Files, mid: Files, history: seq<Files>, from: nat, es: seq<PendingOutput>,
                        entries: seq<PendingOutput>, moved: seq<Option<Path>>, clean: bool)
    requires Accounted(pre, mid, es, entries, moved) && DroppingSince(mid, history, from, entries)
    requires AllUndone(pre, mid, entries, moved, clean)
    ensures SafeSince(pre, history, from, es, moved)
  {
    forall k | from <= k < |history| ensures Safe(pre, history[k], es, moved) {
      AfterUndone(pre, mid, history[k], es, entries, moved, clean);
    }
  }

  lemma DropAfterStopped(pre: Files, mid: Files, history: seq<Files>, from: nat, es: seq<PendingOutput>,
                         entries: seq<PendingOutput>, moved: seq<Option<Path>>, at: nat)
    requires Accounted(pre, mid, es, entries, moved) && DroppingSince(mid, history, from, entries)
    requires CleanupStopped(pre, mid, entries, moved, at)
    ensures SplittingSince(pre, history, from, es, moved, at) && FramedSince(pre, history, from, es, moved)
  {
    forall k | from <= k < |history| ensures Splitting(pre, history[k], es, moved, at) {
      AfterStopped(pre, mid, history[k], es, entries, moved, at);
    }
  }

  lemma AccountedFor(pre: Files, now: Files, es: seq<PendingOutput>, entries: seq<PendingOutput>,
                     moved: seq<Option<Path>>)
    requires Accounted(pre, now, es, entries, moved)
    ensures WellNamed(entries) && SameNames(es, entries) && BackupsNamed(pre, es, moved)
    ensures |es| == |entries| == |moved| && Framed(pre, now, es, moved)
  {
  }

  /** Later states do not change what was recorded before. */
  lemma HistoryGrew(pre: Files, before: seq<Files>, history: seq<Files>, from: nat, es: seq<PendingOutput>,
                    moved: seq<Option<Path>>)
    requires |es| == |moved| && before <= history && InstalledWithin(pre, before, from, |before|, es, moved)
    ensures InstalledWithin(pre, history, from, |before|, es, moved)
  {
    forall k | from <= k < |before| ensures Installed(pre, history[k], es, moved) {
      assert history[k] == before[k];
    }
  }

  /** The stretches of a run put together: safe, then installed, then what the destructor did. */
  lemma RunIsFramed(pre: Files, history: seq<Files>, from: nat, cut: nat, settled: nat, es: seq<PendingOutput>,
                    moved: seq<Option<Path>>)
    requires |es| == |moved| && from <= cut <= settled <= |history|
    requires SafeSince(pre, history[..cut], from, es, moved) && InstalledWithin(pre, history, cut, settled, es, moved)
    requires FramedSince(pre, history, settled, es, moved)
    ensures FramedSince(pre, history, from, es, moved)
  {
    forall k | from <= k < |history| ensures Framed(pre, history[k], es, moved) {
      if k < cut {
        assert history[..cut][k] == history[k];
      } else if k < settled {
        assert Installed(pre, history[k], es, moved);
      }
    }
  }

  /** A safe stretch after a safe stretch. */
  lemma SafeThroughout(pre: Files, history: seq<Files>, from: nat, cut: nat, es: seq<PendingOutput>,
                       moved: seq<Option<Path>>)
    requires |es| == |moved| && from <= cut <= |history|
    requires SafeSince(pre, history[..cut], from, es, moved) && SafeSince(pre, history, cut, es, moved)
    ensures SafeSince(pre, history[..|history|], from, es, moved)
    ensures FramedSince(pre, history, from, es, moved)
  {
    forall k | from <= k < |history| ensures Safe(pre, history[k], es, moved) {
      if k < cut {
        assert history[..cut][k] == history[k];
      }
    }
  }

  /** An installed stretch after an installed stretch. */
  lemma InstalledThroughout(pre: Files, history: seq<Files>, cut: nat, settled: nat, es: seq<PendingOutput>,
                            moved: seq<Option<Path>>)
    requires |es| == |moved| && cut <= settled <= |history|
    requires InstalledWithin(pre, history, cut, settled, es, moved)
    requires InstalledWithin(pre, history, settled, |history|, es, moved)
    ensures InstalledWithin(pre, history, cut, |history|, es, moved)
    ensures FramedSince(pre, history, settled, es, moved)
  {
    forall k | settled <= k < |history| ensures Framed(pre, history[k], es, moved) {
      assert Installed(pre, history[k], es, moved);
    }
  }

  /** Every destination that has a file gets different bytes. */
  ghost predicate AllDiffer(pre: Files, es: seq<PendingOutput>) {
    forall i :: 0 <= i < |es| && es[i].destination in pre ==>
      es[i].staged in pre && pre[es[i].staged] != pre[es[i].destination]
  }

  /** At most one destination has a file before the commit. */
  ghost predicate OneExisting(pre: Files, es: seq<PendingOutput>) {
    forall i, j :: 0 <= i < j < |es| ==> es[i].destination !in pre || es[j].destination !in pre
  }

  /**
   A failed backup deletion never leaves the old outputs, and leaves all the new ones exactly when no later file
   existed.
   */
  lemma SplitIsMixed(pre: Files, now: Files, es: seq<PendingOutput>, moved: seq<Option<Path>>, at: nat)
    requires |es| == |moved| && AllDiffer(pre, es) && Split(pre, now, es, moved, at)
    ensures !AllOld(pre, now, es)
    ensures AllNew(pre, now, es) <==> forall i :: at < i < |es| ==> es[i].destination !in pre
    ensures OneExisting(pre, es) ==> AllNew(pre, now, es)
  {
    assert HasNew(pre, now, es[at]) && !SameAt(pre, now, es[at].destination);
    forall i | at < i < |es| ensures HasNew(pre, now, es[i]) <==> es[i].destination !in pre {
    }
  }
}
