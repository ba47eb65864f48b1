/** The update helper as the object that changes the installation directory step by step. */
module InstallationObject {
  import opened Wrappers
  import opened UpdateHelper
  import opened UpdateSafety

  /** The names in the order of retention. */
  const NAMES: seq<Name> := [
    Rollback, Failed, Pending, Note(Manifest), Note(Signature), Note(Authority), Note(AuthoritySignature),
    Note(Transitions), Note(DeliveredHelper), Journal]

  /** One rename of `retain_update_evidence`; nothing happens when the file is absent. */
  function Renamed(d: Disk, name: Name, generation: nat): Disk {
    match name
    case Rollback =>
      if d.backup.None? then d
      else d.(backup := None, archive := d.archive + {Entry(generation, Rollback, d.backup.value)})
    case Failed =>
      if d.failed.None? then d
      else d.(failed := None, archive := d.archive + {Entry(generation, Failed, d.failed.value)})
    case Pending =>
      if d.pending.None? then d
      else d.(pending := None, archive := d.archive + {Entry(generation, Pending, d.pending.value)})
    case Note(p) =>
      if p !in d.papers then d else d.(papers := d.papers - {p}, archive := d.archive + {Entry(generation, name, Text)})
    case Journal =>
      if d.journal.None? then d else d.(journal := None, archive := d.archive + {Entry(generation, Journal, Text)})
    case Trust => d
  }

  lemma OrderIsPosition(k: nat)
    requires k < FILES
    ensures Order(NAMES[k]) == k
  {
  }

  lemma PapersMoved(papers: set<Paper>, k: nat, generation: nat)
    requires k < FILES
    ensures MovedPapers(papers, k + 1, generation) == MovedPapers(papers, k, generation)
      + (if NAMES[k].Note? && NAMES[k].paper in papers then {Entry(generation, NAMES[k], Text)} else {})
    ensures StillThere(papers, k + 1) == StillThere(papers, k) - (if NAMES[k].Note? then {NAMES[k].paper} else {})
  {
    OrderIsPosition(k);
    forall p | p in papers
      ensures Order(Note(p)) < k + 1 <==> Order(Note(p)) < k || NAMES[k] == Note(p)
    {
    }
  }

  lemma ExecutableRenamed(d: Disk, k: nat, generation: nat)
    requires k < 3
    ensures Renamed(Cleared(d, k, generation), NAMES[k], generation) == Cleared(d, k + 1, generation)
  {
    PapersMoved(d.papers, k, generation);
    assert Renamed(Cleared(d, k, generation), NAMES[k], generation).archive == Cleared(d, k + 1, generation).archive;
  }

  lemma PaperRenamed(d: Disk, k: nat, generation: nat)
    requires 3 <= k < 9
    ensures Renamed(Cleared(d, k, generation), NAMES[k], generation) == Cleared(d, k + 1, generation)
  {
    OrderIsPosition(k);
    PapersMoved(d.papers, k, generation);
    var name := NAMES[k];
    assert name.Note? && (name.paper in StillThere(d.papers, k) <==> name.paper in d.papers);
    assert Renamed(Cleared(d, k, generation), name, generation).archive == Cleared(d, k + 1, generation).archive;
  }

  lemma JournalRenamed(d: Disk, generation: nat)
    ensures Renamed(Cleared(d, 9, generation), NAMES[9], generation) == Cleared(d, FILES, generation)
  {
    PapersMoved(d.papers, 9, generation);
    assert Renamed(Cleared(d, 9, generation), NAMES[9], generation).archive == Cleared(d, FILES, generation).archive;
  }

  /** Renaming one file after the other amounts to what is specified for the first `k`. */
  lemma OneMoreRenamed(d: Disk, k: nat, generation: nat)
    requires k < FILES
    ensures Renamed(Cleared(d, k, generation), NAMES[k], generation) == Cleared(d, k + 1, generation)
  {
    if k < 3 {
      ExecutableRenamed(d, k, generation);
    } else if k < 9 {
      PaperRenamed(d, k, generation);
    } else {
      JournalRenamed(d, generation);
    }
  }

  class Installation {
    var target: Option<Build>
    var backup: Option<Content>
    var failed: Option<Content>
    var pending: Option<Content>
    var papers: set<Paper>
    var journal: Option<Receipt>
    var ledger: Ledger
    var archive: set<Entry>

    function Snapshot(): Disk
      reads this
    {
      Disk(target, backup, failed, pending, papers, journal, ledger, archive)
    }

    method RenameToRetained(name: Name, generation: nat)
      modifies this
      ensures Snapshot() == Renamed(old(Snapshot()), name, generation)
    {
      match name
      case Rollback =>
        if backup.Some? { archive := archive + {Entry(generation, Rollback, backup.value)}; backup := None; }
      case Failed =>
        if failed.Some? { archive := archive + {Entry(generation, Failed, failed.value)}; failed := None; }
      case Pending =>
        if pending.Some? { archive := archive + {Entry(generation, Pending, pending.value)}; pending := None; }
      case Note(p) =>
        if p in papers { archive := archive + {Entry(generation, name, Text)}; papers := papers - {p}; }
      case Journal =>
        if journal.Some? { archive := archive + {Entry(generation, Journal, Text)}; journal := None; }
      case Trust =>
    }

    /** Archives the evidence, journal last; stops when `steps` run out. */
    method RetainEvidence(generation: nat, steps: nat) returns (left: nat, finished: bool)
      modifies this
      ensures finished <==> steps >= FILES
      ensures finished ==> left == steps - FILES
      ensures Snapshot() == After(old(Snapshot()), Retained(old(Snapshot()), generation), steps)
    {
      left := steps;
      var k := 0;
      RetainedAt(Snapshot(), generation, steps);
      while k < FILES
        invariant k <= FILES && left == steps - k
        invariant Snapshot() == Cleared(old(Snapshot()), k, generation)
      {
        if left == 0 { return left, false; }
        OneMoreRenamed(old(Snapshot()), k, generation);
        RenameToRetained(NAMES[k], generation);
        k := k + 1;
        left := left - 1;
      }
      return left, true;
    }

    /** Deletes the listed files of neither of the two newest generations. */
    method PruneEvidence(listing: seq<Entry>, steps: nat) returns (finished: bool)
      modifies this`archive
      ensures finished <==> steps >= |listing|
      ensures Snapshot() == After(old(Snapshot()), PruneStates(old(Snapshot()), listing), steps)
    {
      var before := archive;
      var i := 0;
      PruneAt(Snapshot(), listing, steps);
      while i < |listing|
        invariant i <= |listing| && i <= steps
        invariant Snapshot() == Pruned(old(Snapshot()), listing, i)
      {
        if i == steps { return false; }
        SweptGrows(before, listing, i);
        if Outdated(before, listing[i].generation) {
          archive := archive - {listing[i]};
        }
        i := i + 1;
      }
      return true;
    }

    method KeepCopy(slot: Slot, copy: Content)
      modifies this
      ensures Snapshot() == Kept(old(Snapshot()), slot, copy)
    {
      match slot
      case ToRollback => backup := Some(copy);
      case ToFailed => failed := Some(copy);
    }

    /** The atomic rename of the verified staged file onto the target. */
    method SwapIn(staged: Staged)
      requires StagedBuild(Snapshot(), staged).Some?
      modifies this
      ensures Snapshot() == Swapped(old(Snapshot()), staged)
    {
      match staged
      case FromPending => target := Some(pending.value.build); pending := None;
      case FromBackup => target := Some(backup.value.build); backup := None;
      case FromArchive(e) => target := Some(e.content.build); archive := archive - {e};
    }

    /** Keeps a copy of the target in an unused slot, then renames the staged build over it. */
    method ReplaceWithRollback(slot: Slot, staged: Staged, steps: nat) returns (left: nat, finished: bool)
      requires target.Some?
      requires StagedBuild(Snapshot(), staged).Some?
      requires (slot == ToRollback && staged == FromPending) || (slot == ToFailed && staged != FromPending)
      modifies this
      ensures finished <==> steps >= 3
      ensures finished ==> left == steps - 3
      ensures Snapshot() == After(old(Snapshot()), Replaced(old(Snapshot()), slot, staged), steps)
      ensures target.Some?
    {
      left := steps;
      if left == 0 { return left, false; }
      KeepCopy(slot, Torn);
      left := left - 1;
      if left == 0 { return left, false; }
      KeepCopy(slot, Whole(target.value));
      left := left - 1;
      if left == 0 { return left, false; }
      SwapIn(staged);
      return left - 1, true;
    }

    method RollBack(staged: Staged, generation: nat, steps: nat) returns (finished: bool)
      requires target.Some? && staged != FromPending
      requires StagedBuild(Snapshot(), staged).Some?
      modifies this
      ensures finished <==> steps >= 3 + FILES
      ensures Snapshot() == After(old(Snapshot()), RolledBack(old(Snapshot()), staged, generation), steps)
    {
      ghost var replaced := Replaced(Snapshot(), ToFailed, staged);
      AfterConcat(Snapshot(), replaced, Retained(replaced[2], generation), steps);
      var left;
      left, finished := ReplaceWithRollback(ToFailed, staged, steps);
      if finished {
        left, finished := RetainEvidence(generation, left);
      }
    }

    method WriteJournal(oldBuild: Build, newBuild: Build, steps: nat) returns (left: nat, finished: bool)
      modifies this
      ensures finished <==> steps >= 5
      ensures finished ==> left == steps - 5
      ensures Snapshot() == After(old(Snapshot()), JournalWritten(old(Snapshot()), oldBuild, newBuild), steps)
    {
      left := steps;
      if left == 0 { return left, false; }
      journal := Some(Receipt(None, None));
      left := left - 1;
      if left == 0 { return left, false; }
      journal := Some(Receipt(Some(Cut), None));
      left := left - 1;
      if left == 0 { return left, false; }
      journal := Some(Receipt(Some(Of(oldBuild)), None));
      left := left - 1;
      if left == 0 { return left, false; }
      journal := Some(Receipt(Some(Of(oldBuild)), Some(Cut)));
      left := left - 1;
      if left == 0 { return left, false; }
      journal := Some(Receipt(Some(Of(oldBuild)), Some(Of(newBuild))));
      return left - 1, true;
    }

    /** Appends the line and its terminator, however the file ends. */
    method AppendLedger(oldBuild: Build, newBuild: Build, steps: nat) returns (left: nat, finished: bool)
      modifies this`ledger
      ensures finished <==> steps >= 3
      ensures finished ==> left == steps - 3
      ensures Snapshot() == After(old(Snapshot()), Appended(old(Snapshot()), oldBuild, newBuild), steps)
    {
      left := steps;
      if left == 0 { return left, false; }
      var fromStart := ledger.ended;
      ledger := Ledger(None, false);
      left := left - 1;
      if left == 0 { return left, false; }
      if fromStart {
        ledger := ledger.(last := Some((oldBuild, newBuild)));
      }
      left := left - 1;
      if left == 0 { return left, false; }
      ledger := ledger.(ended := true);
      return left - 1, true;
    }

    method Reconcile(action: Action, trusted: set<Build>, generation: nat, receipt: Receipt, steps: nat) returns (ok: bool)
      requires journal == Some(receipt)
      modifies this
      ensures var t := ReconcileTrail(action, trusted, generation, old(Snapshot()), receipt);
        Snapshot() == t.At(steps) && (ok <==> t.Succeeds(steps))
    {
      if receipt.oldHash.None? || receipt.newHash.None? { return false; }
      var oldHash, newHash := receipt.oldHash.value, receipt.newHash.value;
      var left, finished := steps, true;
      if target.Some? {
        if Of(target.value) != oldHash && Of(target.value) != newHash { return false; }
        if target.value !in trusted { return false; }
        if Of(target.value) == newHash {
          if action == Apply { return true; }
          if !Matches(backup, oldHash) || backup.value.build !in trusted || failed.Some? { return false; }
          finished := RollBack(FromBackup, generation, left);
          return finished;
        }
        left, finished := RetainEvidence(generation, left);
        return finished;
      }
      if !Matches(backup, oldHash) || backup.value.build !in trusted || left == 0 {
        return false;
      }
      ghost var restored := Swapped(Snapshot(), FromBackup);
      AfterConcat(Snapshot(), [restored], Retained(restored, generation), steps);
      SwapIn(FromBackup);
      left, finished := RetainEvidence(generation, left - 1);
      return finished;
    }

    /** One run of the helper. It leaves the state of its trail at the stopping point, and keeps
        the installation safe. */
    method Run(action: Action, trusted: set<Build>, o: Outside, steps: nat) returns (ok: bool)
      modifies this
      ensures var t := RunTrail(action, trusted, o, old(Snapshot()));
        Snapshot() == t.At(steps) && (ok <==> t.Succeeds(steps))
      ensures Safe(trusted, old(Snapshot())) ==> Safe(trusted, Snapshot())
    {
      if Safe(trusted, Snapshot()) {
        RunIsSafe(action, trusted, o, Snapshot(), steps);
      }
      if action == Acknowledge {
        ok := RunAcknowledge(trusted, o, steps);
        return;
      }
      if journal.Some? {
        ok := Reconcile(action, trusted, o.first, journal.value, steps);
        return;
      }
      match action {
        case AutoRecover => return false;
        case Recover => ok := UndoApplied(trusted, o, steps); return;
        case Apply => ok := ApplyStaged(trusted, steps); return;
      }
    }

    method RunAcknowledge(trusted: set<Build>, o: Outside, steps: nat) returns (ok: bool)
      modifies this
      ensures var t := AcknowledgeTrail(trusted, o, old(Snapshot()));
        Snapshot() == t.At(steps) && (ok <==> t.Succeeds(steps))
    {
      if journal.None? { return true; }
      if journal.value.newHash.None? || target.None? { return false; }
      if Of(target.value) != journal.value.newHash.value || target.value !in trusted { return false; }
      ghost var cleared := Cleared(Snapshot(), FILES, o.first);
      AfterConcat(Snapshot(), Retained(Snapshot(), o.first), PruneStates(cleared, o.listing), steps);
      RetainedAt(Snapshot(), o.first, FILES);
      RetainedAt(Snapshot(), o.first, steps);
      var left, finished := RetainEvidence(o.first, steps);
      if !finished { return false; }
      ok := PruneEvidence(o.listing, left);
    }

    method RestoreApplied(trusted: set<Build>, generation: nat, steps: nat) returns (ok: bool)
      modifies this
      ensures var t := RestoreAppliedTrail(trusted, generation, old(Snapshot()));
        Snapshot() == t.At(steps) && (ok <==> t.Succeeds(steps))
    {
      if ledger.last.None? || target != Some(ledger.last.value.1) { return false; }
      var previous := Newest(archive, ledger.last.value.0);
      if previous.None? || previous.value.content.build !in trusted { return false; }
      ok := RollBack(FromArchive(previous.value), generation, steps);
    }

    method UndoApplied(trusted: set<Build>, o: Outside, steps: nat) returns (ok: bool)
      modifies this
      ensures var t := UndoAppliedTrail(trusted, o, old(Snapshot()));
        Snapshot() == t.At(steps) && (ok <==> t.Succeeds(steps))
    {
      if failed.None? {
        ok := RestoreApplied(trusted, o.second, steps);
        return;
      }
      ghost var base := Cleared(Snapshot(), FILES, o.first);
      AfterConcat(Snapshot(), Retained(Snapshot(), o.first), RestoreAppliedTrail(trusted, o.second, base).states, steps);
      RetainedAt(Snapshot(), o.first, FILES);
      var left, finished := RetainEvidence(o.first, steps);
      if !finished { return false; }
      RetainedAt(old(Snapshot()), o.first, steps);
      ok := RestoreApplied(trusted, o.second, left);
    }

    method ApplyStaged(trusted: set<Build>, steps: nat) returns (ok: bool)
      modifies this
      ensures var t := ApplyTrail(trusted, old(Snapshot()));
        Snapshot() == t.At(steps) && (ok <==> t.Succeeds(steps))
    {
      if target.None? || pending.None? || !pending.value.Whole? || pending.value.build !in trusted { return false; }
      ApplyAt(trusted, Snapshot(), steps);
      var oldBuild, newBuild := target.value, pending.value.build;
      var left, finished := WriteJournal(oldBuild, newBuild, steps);
      if !finished { return false; }
      left, finished := AppendLedger(oldBuild, newBuild, left);
      if !finished || backup.Some? { return false; }
      left, finished := ReplaceWithRollback(ToRollback, FromPending, left);
      return finished;
    }
  }

  lemma SweptGrows(archive: set<Entry>, listing: seq<Entry>, i: nat)
    requires i < |listing|
    ensures Swept(archive, listing, i + 1) == Swept(archive, listing, i)
      + (if Outdated(archive, listing[i].generation) then {listing[i]} else {})
  {
    assert listing[..i + 1] == listing[..i] + [listing[i]];
  }
}
