/** What every run of the update helper keeps, however often it is stopped: when an installed
    build can be lost, that the target always holds a build its receipt names, and exactly when
    recovery can still finish. */
module UpdateSafety {
  import opened Wrappers
  import opened UpdateHelper

  // ----- where a stopped run leaves the disk

  function Upto(steps: nat): nat { if steps <= FILES then steps else FILES }

  lemma RolledBackAt(d: Disk, staged: Staged, generation: nat, steps: nat)
    requires d.target.Some?
    ensures After(d, RolledBack(d, staged, generation), steps) ==
      if steps <= 3 then After(d, Replaced(d, ToFailed, staged), steps)
      else Cleared(Replaced(d, ToFailed, staged)[2], Upto(steps - 3), generation)
  {
    var swapped := Replaced(d, ToFailed, staged)[2];
    AfterConcat(d, Replaced(d, ToFailed, staged), Retained(swapped, generation), steps);
    if steps > 3 {
      RetainedAt(swapped, generation, steps - 3);
    }
  }

  lemma PruneAt(d: Disk, listing: seq<Entry>, steps: nat)
    ensures After(d, PruneStates(d, listing), steps) ==
      Pruned(d, listing, if steps <= |listing| then steps else |listing|)
  {
    assert Pruned(d, listing, 0) == d;
  }

  lemma AcknowledgeAt(trusted: set<Build>, o: Outside, d: Disk, steps: nat)
    requires Acknowledges(trusted, d)
    ensures var cleared := Cleared(d, FILES, o.first);
      RunTrail(Acknowledge, trusted, o, d).At(steps) ==
      if steps <= FILES then Cleared(d, steps, o.first)
      else Pruned(cleared, o.listing, if steps - FILES <= |o.listing| then steps - FILES else |o.listing|)
  {
    var cleared := Cleared(d, FILES, o.first);
    AfterConcat(d, Retained(d, o.first), PruneStates(cleared, o.listing), steps);
    RetainedAt(d, o.first, steps);
    RetainedAt(d, o.first, FILES);
    if steps > FILES {
      PruneAt(cleared, o.listing, steps - FILES);
    }
  }

  /** With a leftover failed copy, undoing is archiving first and restoring from `base`. */
  lemma UndoingAt(trusted: set<Build>, o: Outside, d: Disk, base: Disk, steps: nat)
    requires d.failed.Some? && base == Cleared(d, FILES, o.first)
    ensures UndoAppliedTrail(trusted, o, d).At(steps) ==
      if steps <= FILES then Cleared(d, steps, o.first)
      else RestoreAppliedTrail(trusted, o.second, base).At(steps - FILES)
  {
    var rest := RestoreAppliedTrail(trusted, o.second, base);
    AfterConcat(d, Retained(d, o.first), rest.states, steps);
    RetainedAt(d, o.first, steps);
    RetainedAt(d, o.first, FILES);
  }

  /** The states of an apply: five of the journal, three of the ledger, then the replacement. */
  lemma ApplyAt(trusted: set<Build>, d: Disk, steps: nat)
    requires ApplyTrail(trusted, d).states != []
    ensures d.target.Some? && d.pending.Some? && d.pending.value.Whole?
    ensures var o, n := d.target.value, d.pending.value.build;
      var written, recorded := JournalWritten(d, o, n), Recorded(d, o, n);
      ApplyTrail(trusted, d).At(steps) ==
      if steps == 0 then d
      else if steps <= 5 then written[steps - 1]
      else if steps <= 8 then Appended(written[4], o, n)[steps - 6]
      else if d.backup.Some? then recorded
      else After(recorded, Replaced(recorded, ToRollback, FromPending), steps - 8)
  {
    var o, n := d.target.value, d.pending.value.build;
    var written := JournalWritten(d, o, n);
    var appended := Appended(written[4], o, n);
    AfterConcat(d, written + appended, Replaced(Recorded(d, o, n), ToRollback, FromPending), steps);
    AfterConcat(d, written, appended, steps);
    AfterConcat(d, written, appended, 8);
  }

  // ----- conservation

  ghost predicate InArchive(archive: set<Entry>, b: Build) {
    exists e :: e in archive && e.content == Whole(b)
  }

  /** A complete copy of the build is in the installation directory. */
  ghost predicate OnDisk(d: Disk, b: Build) {
    || d.target == Some(b)
    || d.backup == Some(Whole(b)) || d.failed == Some(Whole(b)) || d.pending == Some(Whole(b))
    || InArchive(d.archive, b)
  }

  lemma ArchivingKeeps(d: Disk, k: nat, generation: nat, b: Build)
    ensures OnDisk(Cleared(d, k, generation), b) <==> OnDisk(d, b)
  {
    var c := Cleared(d, k, generation);
    assert d.archive <= c.archive;
    assert d.backup.Some? && k > 0 ==> Entry(generation, Rollback, d.backup.value) in c.archive;
    assert d.failed.Some? && k > 1 ==> Entry(generation, Failed, d.failed.value) in c.archive;
    assert d.pending.Some? && k > 2 ==> Entry(generation, Pending, d.pending.value) in c.archive;
  }

  lemma SwapKeeps(d: Disk, staged: Staged, b: Build)
    requires StagedBuild(d, staged).Some? && OnDisk(d, b)
    requires d.target == Some(b) ==> d.backup == Some(Whole(b)) || d.failed == Some(Whole(b))
    requires d.target == Some(b) && staged == FromBackup ==> d.failed == Some(Whole(b))
    ensures OnDisk(Swapped(d, staged), b)
  {
    if InArchive(d.archive, b) {
      var e :| e in d.archive && e.content == Whole(b);
      assert staged != FromArchive(e) ==> e in Swapped(d, staged).archive;
    }
  }

  /** `replace_with_rollback` runs only into an unused slot. */
  ghost predicate CanReplace(d: Disk, slot: Slot, staged: Staged) {
    && d.target.Some? && StagedBuild(d, staged).Some?
    && ((slot == ToRollback && staged == FromPending && d.backup.None?)
        || (slot == ToFailed && staged != FromPending && d.failed.None?))
  }

  lemma ReplacingKeeps(d: Disk, slot: Slot, staged: Staged, steps: nat, b: Build)
    requires CanReplace(d, slot, staged) && OnDisk(d, b)
    ensures OnDisk(After(d, Replaced(d, slot, staged), steps), b)
  {
    var d1 := Kept(d, slot, Torn);
    var d2 := Kept(d, slot, Whole(d.target.value));
    assert OnDisk(d1, b) && OnDisk(d2, b);
    SwapKeeps(d2, staged, b);
  }

  lemma RollingBackKeeps(d: Disk, staged: Staged, generation: nat, steps: nat, b: Build)
    requires CanReplace(d, ToFailed, staged) && OnDisk(d, b)
    ensures OnDisk(After(d, RolledBack(d, staged, generation), steps), b)
  {
    RolledBackAt(d, staged, generation, steps);
    ReplacingKeeps(d, ToFailed, staged, steps, b);
    ReplacingKeeps(d, ToFailed, staged, 3, b);
    if steps > 3 {
      ArchivingKeeps(Replaced(d, ToFailed, staged)[2], Upto(steps - 3), generation, b);
    }
  }

  lemma RestoringKeeps(trusted: set<Build>, generation: nat, d: Disk, steps: nat, b: Build)
    requires OnDisk(d, b) && d.failed.None?
    ensures OnDisk(RestoreAppliedTrail(trusted, generation, d).At(steps), b)
  {
    if RestoreAppliedTrail(trusted, generation, d).states != [] {
      RollingBackKeeps(d, FromArchive(Previous(d).value), generation, steps, b);
    }
  }

  lemma UndoingKeeps(trusted: set<Build>, o: Outside, d: Disk, steps: nat, b: Build)
    requires OnDisk(d, b)
    ensures OnDisk(UndoAppliedTrail(trusted, o, d).At(steps), b)
  {
    if d.failed.None? {
      RestoringKeeps(trusted, o.second, d, steps, b);
    } else {
      var base := Cleared(d, FILES, o.first);
      UndoingAt(trusted, o, d, base, steps);
      ArchivingKeeps(d, Upto(steps), o.first, b);
      ArchivingKeeps(d, FILES, o.first, b);
      if steps > FILES {
        RestoringKeeps(trusted, o.second, base, steps - FILES, b);
      }
    }
  }

  lemma ApplyingKeeps(trusted: set<Build>, d: Disk, steps: nat, b: Build)
    requires OnDisk(d, b)
    ensures OnDisk(ApplyTrail(trusted, d).At(steps), b)
  {
    if ApplyTrail(trusted, d).states != [] {
      ApplyAt(trusted, d, steps);
      var recorded := Recorded(d, d.target.value, d.pending.value.build);
      assert OnDisk(recorded, b);
      if d.backup.None? && steps > 8 {
        ReplacingKeeps(recorded, ToRollback, FromPending, steps - 8, b);
      }
    }
  }

  lemma ReconcilingKeeps(action: Action, trusted: set<Build>, generation: nat, d: Disk, receipt: Receipt, steps: nat, b: Build)
    requires OnDisk(d, b)
    ensures OnDisk(ReconcileTrail(action, trusted, generation, d, receipt).At(steps), b)
  {
    if ReconcileTrail(action, trusted, generation, d, receipt).states != [] {
      if d.target.None? {
        var restored := Swapped(d, FromBackup);
        AfterConcat(d, [restored], Retained(restored, generation), steps);
        SwapKeeps(d, FromBackup, b);
        if steps > 1 {
          RetainedAt(restored, generation, steps - 1);
          ArchivingKeeps(restored, Upto(steps - 1), generation, b);
        }
      } else if Of(d.target.value) == receipt.newHash.value {
        RollingBackKeeps(d, FromBackup, generation, steps, b);
      } else {
        RetainedAt(d, generation, steps);
        ArchivingKeeps(d, Upto(steps), generation, b);
      }
    }
  }

  /** An acknowledgement got as far as pruning, the build does not run, and every complete copy
      is a retained file of neither of the two newest generations that was offered for deletion
      before the run stopped. */
  ghost predicate SweptAway(trusted: set<Build>, o: Outside, d: Disk, steps: nat, b: Build) {
    && Acknowledges(trusted, d) && steps > FILES && d.target != Some(b)
    && var archive := Cleared(d, FILES, o.first).archive;
       var i := if steps - FILES <= |o.listing| then steps - FILES else |o.listing|;
       forall e :: e in archive && e.content == Whole(b) ==> e in Swept(archive, o.listing, i)
  }

  lemma AcknowledgingLoses(trusted: set<Build>, o: Outside, d: Disk, steps: nat, b: Build)
    requires OnDisk(d, b)
    ensures OnDisk(RunTrail(Acknowledge, trusted, o, d).At(steps), b) <==> !SweptAway(trusted, o, d, steps, b)
  {
    if Acknowledges(trusted, d) {
      AcknowledgeAt(trusted, o, d, steps);
      ArchivingKeeps(d, Upto(steps), o.first, b);
      ArchivingKeeps(d, FILES, o.first, b);
    }
  }

  /** A run of any action, started on any disk and stopped anywhere, removes the last complete
      copy of a build if and only if an acknowledgement prunes it away. */
  lemma LostExactlyWhenSwept(action: Action, trusted: set<Build>, o: Outside, d: Disk, steps: nat, b: Build)
    requires OnDisk(d, b)
    ensures OnDisk(RunTrail(action, trusted, o, d).At(steps), b) <==>
            !(action == Acknowledge && SweptAway(trusted, o, d, steps, b))
  {
    if action == Acknowledge {
      AcknowledgingLoses(trusted, o, d, steps, b);
    } else if d.journal.Some? {
      ReconcilingKeeps(action, trusted, o.first, d, d.journal.value, steps, b);
    } else if action == Recover {
      UndoingKeeps(trusted, o, d, steps, b);
    } else if action == Apply {
      ApplyingKeeps(trusted, d, steps, b);
    }
  }

  function Generations(archive: set<Entry>): set<nat> { set e | e in archive :: e.generation }

  function Newer(archive: set<Entry>, generation: nat): set<nat> {
    set g | g in Generations(archive) && g > generation
  }

  /** A retained file is deleted exactly when its generation is not among the two newest. */
  lemma OutdatedIsThirdNewest(archive: set<Entry>, generation: nat)
    ensures Outdated(archive, generation) <==> |Newer(archive, generation)| >= 2
  {
    var newer := Newer(archive, generation);
    if Outdated(archive, generation) {
      var x, y :| x in archive && y in archive && generation < x.generation < y.generation;
      assert {x.generation, y.generation} <= newer;
      AtLeastTwo(newer, x.generation, y.generation);
    }
    if |newer| >= 2 {
      var g :| g in newer;
      assert |newer - {g}| >= 1;
      var h :| h in newer - {g};
      var x :| x in archive && x.generation == g;
      var y :| y in archive && y.generation == h;
      assert Outdated(archive, generation);
    }
  }

  lemma AtLeastTwo(s: set<nat>, x: nat, y: nat)
    requires x in s && y in s && x != y
    ensures |s| >= 2
  {
    assert |s - {x}| == |s| - 1 && y in s - {x};
  }

  // ----- safety over every sequence of runs

  /** What the receipt of an interrupted update says about the files. */
  ghost predicate ReceiptSafe(d: Disk, r: Receipt) {
    match (r.oldHash, r.newHash)
    case (Some(Of(o)), Some(Of(n))) =>
      d.target == Some(o)
      || (&& d.target == Some(n) && d.ledger.ended && (d.ledger.last.Some? ==> d.ledger.last == Some((o, n)))
          && (d.backup == Some(Whole(o)) || (d.backup.None? && HasCopy(d.archive, o))))
    case (Some(Of(o)), _) => d.target == Some(o) && d.backup.None?
    case (_, None) => d.backup.None?
    case _ => false
  }

  ghost predicate Safe(trusted: set<Build>, d: Disk) {
    && d.target.Some? && d.target.value in trusted
    && (d.journal.None? ==> d.backup.None?)
    && (d.journal.Some? ==> ReceiptSafe(d, d.journal.value))
  }

  lemma ArchivingIsSafe(trusted: set<Build>, d: Disk, k: nat, generation: nat)
    requires Safe(trusted, d)
    ensures Safe(trusted, Cleared(d, k, generation))
  {
    var c := Cleared(d, k, generation);
    if k > 0 && d.backup.Some? {
      var e := Entry(generation, Rollback, d.backup.value);
      assert e in c.archive;
      assert forall o :: d.backup == Some(Whole(o)) ==> IsCopy(e, o);
    }
    assert d.archive <= c.archive;
    assert forall o :: HasCopy(d.archive, o) ==> HasCopy(c.archive, o);
  }

  lemma RollingBackIsSafe(trusted: set<Build>, d: Disk, staged: Staged, generation: nat, steps: nat)
    requires Safe(trusted, d) && CanReplace(d, ToFailed, staged)
    requires StagedBuild(d, staged).value in trusted
    requires d.journal.None? || (staged == FromBackup && d.journal.value.oldHash == Some(Of(d.backup.value.build))
                                 && d.journal.value.newHash.Some? && d.journal.value.newHash.value.Of?)
    ensures Safe(trusted, After(d, RolledBack(d, staged, generation), steps))
  {
    var replaced := Replaced(d, ToFailed, staged);
    RolledBackAt(d, staged, generation, steps);
    assert Safe(trusted, replaced[0]) && Safe(trusted, replaced[1]) && Safe(trusted, replaced[2]);
    if steps > 3 {
      ArchivingIsSafe(trusted, replaced[2], Upto(steps - 3), generation);
    }
  }

  lemma RestoringIsSafe(trusted: set<Build>, generation: nat, d: Disk, steps: nat)
    requires Safe(trusted, d) && d.journal.None? && d.failed.None?
    ensures Safe(trusted, RestoreAppliedTrail(trusted, generation, d).At(steps))
  {
    if RestoreAppliedTrail(trusted, generation, d).states != [] {
      RollingBackIsSafe(trusted, d, FromArchive(Previous(d).value), generation, steps);
    }
  }

  lemma UndoingIsSafe(trusted: set<Build>, o: Outside, d: Disk, steps: nat)
    requires Safe(trusted, d) && d.journal.None?
    ensures Safe(trusted, UndoAppliedTrail(trusted, o, d).At(steps))
  {
    if d.failed.None? {
      RestoringIsSafe(trusted, o.second, d, steps);
    } else {
      var base := Cleared(d, FILES, o.first);
      UndoingAt(trusted, o, d, base, steps);
      ArchivingIsSafe(trusted, d, Upto(steps), o.first);
      ArchivingIsSafe(trusted, d, FILES, o.first);
      if steps > FILES {
        RestoringIsSafe(trusted, o.second, base, steps - FILES);
      }
    }
  }

  lemma ApplyingIsSafe(trusted: set<Build>, d: Disk, steps: nat)
    requires Safe(trusted, d) && d.journal.None?
    ensures Safe(trusted, ApplyTrail(trusted, d).At(steps))
  {
    if ApplyTrail(trusted, d).states != [] {
      ApplyAt(trusted, d, steps);
      var recorded := Recorded(d, d.target.value, d.pending.value.build);
      var replaced := Replaced(recorded, ToRollback, FromPending);
      assert Safe(trusted, replaced[0]) && Safe(trusted, replaced[1]) && Safe(trusted, replaced[2]);
    }
  }

  lemma ReconcilingIsSafe(action: Action, trusted: set<Build>, generation: nat, d: Disk, steps: nat)
    requires Safe(trusted, d) && d.journal.Some?
    ensures Safe(trusted, ReconcileTrail(action, trusted, generation, d, d.journal.value).At(steps))
  {
    var t := ReconcileTrail(action, trusted, generation, d, d.journal.value);
    if t.states != [] {
      if Of(d.target.value) == d.journal.value.newHash.value {
        RollingBackIsSafe(trusted, d, FromBackup, generation, steps);
      } else {
        RetainedAt(d, generation, steps);
        ArchivingIsSafe(trusted, d, Upto(steps), generation);
      }
    }
  }

  lemma AcknowledgingIsSafe(trusted: set<Build>, o: Outside, d: Disk, steps: nat)
    requires Safe(trusted, d)
    ensures Safe(trusted, RunTrail(Acknowledge, trusted, o, d).At(steps))
  {
    if Acknowledges(trusted, d) {
      AcknowledgeAt(trusted, o, d, steps);
      ArchivingIsSafe(trusted, d, Upto(steps), o.first);
    }
  }

  lemma RunIsSafe(action: Action, trusted: set<Build>, o: Outside, d: Disk, steps: nat)
    requires Safe(trusted, d)
    ensures Safe(trusted, RunTrail(action, trusted, o, d).At(steps))
  {
    if action == Acknowledge {
      AcknowledgingIsSafe(trusted, o, d, steps);
    } else if d.journal.Some? {
      ReconcilingIsSafe(action, trusted, o.first, d, steps);
    } else if action == Recover {
      UndoingIsSafe(trusted, o, d, steps);
    } else if action == Apply {
      ApplyingIsSafe(trusted, d, steps);
    }
  }

  /** What happens to an installation: a helper run that stops after some steps; the transfer of
      a package into the free pending slot (torn when it was interrupted) with its papers; the
      installation of delivered trust, which takes papers and retains what it replaced; and the
      discarding of an unapplied package. */
  datatype Event =
    | Helper(action: Action, outside: Outside, steps: nat)
    | Transfer(package: Content, papers: set<Paper>)
    | InstallTrust(taken: set<Paper>, generation: nat)
    | Discard(generation: nat, steps: nat)

  function Happens(trusted: set<Build>, d: Disk, e: Event): Disk {
    match e
    case Helper(action, outside, steps) => RunTrail(action, trusted, outside, d).At(steps)
    case Transfer(package, papers) =>
      if d.pending.Some? then d else d.(pending := Some(package), papers := d.papers + papers)
    case InstallTrust(taken, generation) =>
      d.(papers := d.papers - taken, archive := d.archive + {Entry(generation, Trust, Text)})
    case Discard(generation, steps) => if d.journal.Some? then d else After(d, Retained(d, generation), steps)
  }

  lemma EventIsSafe(trusted: set<Build>, d: Disk, e: Event)
    requires Safe(trusted, d)
    ensures Safe(trusted, Happens(trusted, d, e))
  {
    match e
    case Helper(action, outside, steps) => RunIsSafe(action, trusted, outside, d, steps);
    case Transfer(_, _) =>
    case InstallTrust(_, _) => assert d.archive <= Happens(trusted, d, e).archive;
      assert forall o :: HasCopy(d.archive, o) ==> HasCopy(Happens(trusted, d, e).archive, o);
    case Discard(generation, steps) =>
      RetainedAt(d, generation, steps);
      ArchivingIsSafe(trusted, d, Upto(steps), generation);
  }

  /** The event prunes the last complete copy of the build. */
  ghost predicate Sweeps(trusted: set<Build>, d: Disk, e: Event, b: Build) {
    e.Helper? && e.action == Acknowledge && SweptAway(trusted, e.outside, d, e.steps, b)
  }

  lemma EventLoses(trusted: set<Build>, d: Disk, e: Event, b: Build)
    requires OnDisk(d, b)
    ensures OnDisk(Happens(trusted, d, e), b) <==> !Sweeps(trusted, d, e, b)
  {
    match e
    case Helper(action, outside, steps) => LostExactlyWhenSwept(action, trusted, outside, d, steps, b);
    case Transfer(_, _) =>
    case InstallTrust(_, _) => assert d.archive <= Happens(trusted, d, e).archive;
    case Discard(generation, steps) =>
      RetainedAt(d, generation, steps);
      ArchivingKeeps(d, Upto(steps), generation, b);
  }

  function History(trusted: set<Build>, d: Disk, events: seq<Event>): Disk
    decreases |events|
  {
    if events == [] then d else History(trusted, Happens(trusted, d, events[0]), events[1..])
  }

  /** Over every history of runs stopped anywhere: the target is never absent, and while a
      complete receipt (old, new) exists it is the old build, or the new one with the old one
      in the backup slot or, once an acknowledgement began, in the archive. */
  lemma {:induction false} HistoryIsSafe(trusted: set<Build>, d: Disk, events: seq<Event>)
    requires Safe(trusted, d)
    ensures Safe(trusted, History(trusted, d, events))
    decreases |events|
  {
    if events != [] {
      EventIsSafe(trusted, d, events[0]);
      HistoryIsSafe(trusted, Happens(trusted, d, events[0]), events[1..]);
    }
  }

  /** Some event of the history pruned the last complete copy the build had by then. */
  ghost predicate SweptDuring(trusted: set<Build>, d: Disk, events: seq<Event>, b: Build)
    decreases |events|
  {
    events != [] &&
    (Sweeps(trusted, d, events[0], b) || SweptDuring(trusted, Happens(trusted, d, events[0]), events[1..], b))
  }

  /** At some moment of the history the build has no complete copy. */
  ghost predicate GoneDuring(trusted: set<Build>, d: Disk, events: seq<Event>, b: Build)
    decreases |events|
  {
    events != [] &&
    (!OnDisk(Happens(trusted, d, events[0]), b) || GoneDuring(trusted, Happens(trusted, d, events[0]), events[1..], b))
  }

  /** Over every history, a build that was complete on the disk is ever gone if and only if an
      acknowledgement pruned its last copy; without that it is still there at the end. */
  lemma {:induction false} HistoryLosesOnlySwept(trusted: set<Build>, d: Disk, events: seq<Event>, b: Build)
    requires OnDisk(d, b)
    ensures GoneDuring(trusted, d, events, b) <==> SweptDuring(trusted, d, events, b)
    ensures !SweptDuring(trusted, d, events, b) ==> OnDisk(History(trusted, d, events), b)
    decreases |events|
  {
    if events != [] {
      EventLoses(trusted, d, events[0], b);
      if !Sweeps(trusted, d, events[0], b) {
        HistoryLosesOnlySwept(trusted, Happens(trusted, d, events[0]), events[1..], b);
      }
    }
  }

  /** In every reachable state without a journal, a staged verified package is applied by an
      uninterrupted run: the backup slot is always free by then. */
  lemma ApplySucceeds(trusted: set<Build>, o: Outside, d: Disk)
    requires Safe(trusted, d) && d.journal.None?
    requires d.pending.Some? && d.pending.value.Whole? && d.pending.value.build in trusted
    ensures var t := RunTrail(Apply, trusted, o, d);
      && t.ok && |t.states| == 11
      && t.End().target == Some(d.pending.value.build) && t.End().backup == Some(Whole(d.target.value))
  {
    ApplyAt(trusted, d, 11);
  }
}
