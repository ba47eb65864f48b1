/** What each action of the update helper ends with, file by file: what stays, what goes to the
    archive under which name, and what is deleted. */
module UpdateOutcomes {
  import opened Wrappers
  import opened UpdateHelper
  import opened UpdateSafety
  import opened UpdateRecovery
  import opened UpdateLedger

  /** The archive entry is what a file of the disk becomes when it is retained. */
  predicate FileOf(d: Disk, e: Entry) {
    match e.name
    case Rollback => d.backup == Some(e.content)
    case Failed => d.failed == Some(e.content)
    case Pending => d.pending == Some(e.content)
    case Note(paper) => paper in d.papers && e.content == Text
    case Journal => d.journal.Some? && e.content == Text
    case Trust => false
  }

  /** All evidence has gone to the archive under one generation, nothing else entered it, and
      nothing left it; target and ledger are as before. */
  ghost predicate Archived(before: Disk, after: Disk, generation: nat) {
    && after.target == before.target && after.ledger == before.ledger
    && after.backup.None? && after.failed.None? && after.pending.None? && after.papers == {} && after.journal.None?
    && forall e :: e in after.archive <==> e in before.archive || (e.generation == generation && FileOf(before, e))
  }

  lemma ClearedIsArchived(d: Disk, generation: nat)
    ensures Archived(d, Cleared(d, FILES, generation), generation)
  {
    forall e
      ensures e in Cleared(d, FILES, generation).archive <==> e in d.archive || (e.generation == generation && FileOf(d, e))
    {
      InCleared(d, generation, e);
    }
    assert forall p: Paper :: Order(Note(p)) < FILES;
  }

  lemma InCleared(d: Disk, generation: nat, e: Entry)
    ensures e in Cleared(d, FILES, generation).archive <==> e in d.archive || (e.generation == generation && FileOf(d, e))
  {
    match e.name
    case Note(p) =>
      assert Order(Note(p)) < FILES;
      assert e in MovedPapers(d.papers, FILES, generation) <==>
        p in d.papers && e == Entry(generation, Note(p), Text);
    case _ =>
  }

  lemma RetainingEnds(d: Disk, generation: nat)
    ensures Archived(d, Trail(d, Retained(d, generation), true).End(), generation)
  {
    RetainedAt(d, generation, FILES);
    ClearedIsArchived(d, generation);
  }

  lemma RollingBackEnds(d: Disk, staged: Staged, generation: nat)
    requires d.target.Some?
    ensures Archived(Replaced(d, ToFailed, staged)[2], Trail(d, RolledBack(d, staged, generation), true).End(), generation)
  {
    RolledBackAt(d, staged, generation, 3 + FILES);
    ClearedIsArchived(Replaced(d, ToFailed, staged)[2], generation);
  }

  // ----- a journal is there

  /** The receipt's old build waits in the backup slot. */
  ghost predicate Restorable(trusted: set<Build>, d: Disk) {
    && d.journal.Some? && d.journal.value.oldHash.Some?
    && exists o :: o in trusted && d.backup == Some(Whole(o)) && Of(o) == d.journal.value.oldHash.value
  }

  predicate Readable(d: Disk) {
    d.journal.Some? && d.journal.value.oldHash.Some? && d.journal.value.newHash.Some?
  }

  /** The old build runs: every action but acknowledgement archives the evidence of the update and
      ends well, so that the next update can be staged. */
  lemma OldBuildIsArchived(action: Action, trusted: set<Build>, w: Outside, d: Disk)
    requires action != Acknowledge && Readable(d) && d.target.Some? && d.target.value in trusted
    requires d.journal.value.oldHash == Some(Of(d.target.value)) && d.journal.value.oldHash != d.journal.value.newHash
    ensures var t := RunTrail(action, trusted, w, d); t.ok && Archived(d, t.End(), w.first)
  {
    RetainingEnds(d, w.first);
  }

  /** The new build runs: a further apply leaves everything and ends well; a recovery brings the
      old build back and archives what it replaced, exactly when the backup slot holds the trusted
      old build and the failed slot is empty, and otherwise leaves everything and fails. */
  lemma NewBuildIsKeptOrRolledBack(action: Action, trusted: set<Build>, w: Outside, d: Disk)
    requires action != Acknowledge && Readable(d) && d.target.Some? && d.target.value in trusted
    requires d.journal.value.newHash == Some(Of(d.target.value))
    ensures var t := RunTrail(action, trusted, w, d);
      && (action == Apply ==> t.ok && t.End() == d)
      && (action != Apply ==> (t.ok <==> Restorable(trusted, d) && d.failed.None?) && (!t.ok ==> t.End() == d))
      && (action != Apply && t.ok ==>
            Archived(d.(target := Some(d.backup.value.build), backup := None, failed := Some(Whole(d.target.value))),
                     t.End(), w.first))
  {
    var t := RunTrail(action, trusted, w, d);
    if action != Apply && t.ok {
      RollingBackEnds(d, FromBackup, w.first);
    }
  }

  /** Every other case of a journal leaves the disk as it is and fails: a digest that cannot be
      read, a target that is neither build, and one that is not trusted. */
  lemma OtherwiseStops(action: Action, trusted: set<Build>, w: Outside, d: Disk, steps: nat)
    requires action != Acknowledge && d.journal.Some? && d.target.Some?
    requires !Readable(d) || d.target.value !in trusted
          || (Some(Of(d.target.value)) != d.journal.value.oldHash && Some(Of(d.target.value)) != d.journal.value.newHash)
    ensures var t := RunTrail(action, trusted, w, d); !t.ok && t.At(steps) == d
  {
  }

  /** Without a target, the old build comes back from the backup slot and the rest is archived. */
  lemma MissingTargetIsArchived(action: Action, trusted: set<Build>, w: Outside, d: Disk)
    requires action != Acknowledge && Readable(d) && d.target.None?
    ensures var t := RunTrail(action, trusted, w, d);
      && (t.ok <==> Restorable(trusted, d)) && (!t.ok ==> t.End() == d)
      && (t.ok ==> Archived(d.(target := Some(d.backup.value.build), backup := None), t.End(), w.first))
  {
    if Restorable(trusted, d) {
      var restored := Swapped(d, FromBackup);
      AfterConcat(d, [restored], Retained(restored, w.first), 1 + FILES);
      RetainingEnds(restored, w.first);
    }
  }

  // ----- no journal is there

  /** An apply without a journal writes receipt and ledger line, keeps the running build in the
      backup slot and puts the staged one in its place, exactly when the staged build is trusted
      and the backup slot empty. Without a trusted staged build nothing is written. */
  lemma ApplyEnds(trusted: set<Build>, w: Outside, d: Disk)
    requires d.journal.None? && d.target.Some?
    ensures var t := RunTrail(Apply, trusted, w, d);
      var staged := exists n :: n in trusted && d.pending == Some(Whole(n));
      && (t.ok <==> staged && d.backup.None?)
      && (!staged ==> t.End() == d)
      && (t.ok ==>
            var o, n := d.target.value, d.pending.value.build;
            t.End() == d.(target := Some(n), backup := Some(Whole(o)), pending := None, journal := Some(Complete(o, n)),
                          ledger := Ledger(if d.ledger.ended then Some((o, n)) else None, true)))
  {
    if d.pending.Some? && d.pending.value.Whole? && d.pending.value.build in trusted {
      ApplyAt(trusted, d, |ApplyTrail(trusted, d).states|);
    }
  }

  /** What a recovery without a journal starts from: with a failed copy in its slot, everything is
      archived first. */
  ghost predicate Base(d: Disk, w: Outside, base: Disk) {
    if d.failed.Some? then Archived(d, base, w.first) else base == d
  }

  /** The copy that undoes the last applied update has left the archive for the target, and all
      else has been archived. */
  ghost predicate RestoredFrom(d: Disk, base: Disk, e: Entry, end: Disk, generation: nat) {
    && d.target.Some? && base.ledger.last.Some? && IsNewest(base.archive, base.ledger.last.value.0, e)
    && Archived(base.(target := Some(base.ledger.last.value.0), failed := Some(Whole(d.target.value)), archive := base.archive - {e}),
                end, generation)
  }

  /** A recovery without a journal: it undoes the last applied update from a retained copy of the
      newest generation, takes that copy out of the archive and archives everything else, and
      otherwise ends at its base. */
  lemma RecoverEnds(trusted: set<Build>, w: Outside, d: Disk)
    requires d.journal.None? && d.target.Some?
    ensures var t := RunTrail(Recover, trusted, w, d);
      exists base :: Base(d, w, base)
        && (!t.ok ==> t.End() == base)
        && (t.ok ==> exists e :: RestoredFrom(d, base, e, t.End(), w.second))
  {
    var t := RunTrail(Recover, trusted, w, d);
    var base := if d.failed.Some? then Cleared(d, FILES, w.first) else d;
    if d.failed.Some? {
      ClearedIsArchived(d, w.first);
      UndoingAt(trusted, w, d, base, |t.states|);
      RetainedAt(d, w.first, FILES);
    }
    assert Base(d, w, base);
    var rest := RestoreAppliedTrail(trusted, w.second, base);
    assert t.End() == rest.End();
    if t.ok {
      RollingBackEnds(base, FromArchive(Previous(base).value), w.second);
      assert RestoredFrom(d, base, Previous(base).value, t.End(), w.second);
    }
  }

  /** Automatic recovery without a journal does nothing. */
  lemma AutoRecoverEnds(trusted: set<Build>, w: Outside, d: Disk, steps: nat)
    requires d.journal.None?
    ensures var t := RunTrail(AutoRecover, trusted, w, d); !t.ok && t.At(steps) == d
  {
  }

  // ----- acknowledging

  /** An acknowledgement of the running new build archives everything and deletes exactly the
      listed retained files, papers and journals included, of neither of the two newest
      generations. Without a journal it does nothing and ends well; in every other case it does
      nothing and fails. */
  lemma HealthyStartEnds(trusted: set<Build>, w: Outside, d: Disk)
    ensures var t := RunTrail(Acknowledge, trusted, w, d);
      var healthy := d.journal.Some? && d.target.Some? && d.target.value in trusted
                     && d.journal.value.newHash == Some(Of(d.target.value));
      && (t.ok <==> d.journal.None? || healthy)
      && (!healthy ==> t.End() == d)
      && (healthy ==> exists all ::
            && Archived(d, all, w.first) && t.End() == all.(archive := t.End().archive)
            && forall e :: e in t.End().archive <==>
                 e in all.archive && !(e in w.listing && Outdated(all.archive, e.generation)))
  {
    if Acknowledges(trusted, d) {
      var t := RunTrail(Acknowledge, trusted, w, d);
      var all := Cleared(d, FILES, w.first);
      ClearedIsArchived(d, w.first);
      AcknowledgeAt(trusted, w, d, |t.states|);
      assert w.listing[..|w.listing|] == w.listing;
      assert t.End() == Pruned(all, w.listing, |w.listing|);
    }
  }

  // ----- a stopped update does not block the next

  /** An apply of `n` that stopped once its receipt can be read and before the swap; a further
      apply clears it away, and after the next transfer one more apply brings that build. */
  lemma NextUpdateApplies(trusted: set<Build>, w: Outside, start: Disk, o: Build, n: Build, steps: nat,
                          second: Outside, m: Build, papers: set<Paper>, third: Outside)
    requires Ready(trusted, start, o, n) && 4 <= steps < 11 && m in trusted
    ensures var cleared := RunTrail(Apply, trusted, second, RunTrail(Apply, trusted, w, start).At(steps)).End();
      var staged := Happens(trusted, cleared, Transfer(Whole(m), papers));
      var applied := RunTrail(Apply, trusted, third, staged);
      && cleared.target == Some(o) && cleared.journal.None? && cleared.pending.None? && cleared.papers == {}
      && applied.ok && applied.End().target == Some(m) && applied.End().backup == Some(Whole(o))
      && applied.End().papers == papers
  {
    var stopped := RunTrail(Apply, trusted, w, start).At(steps);
    ApplyAt(trusted, start, steps);
    OldBuildIsArchived(Apply, trusted, second, stopped);
    var cleared := RunTrail(Apply, trusted, second, stopped).End();
    ApplyEnds(trusted, third, Happens(trusted, cleared, Transfer(Whole(m), papers)));
  }

  // ----- at every stopping point

  /** The file is still there, or in the archive under the given generation. */
  ghost predicate Somewhere(d: Disk, after: Disk, generation: nat, name: Name, content: Content)  {
    FileOf(after, Entry(0, name, content)) || Entry(generation, name, content) in after.archive
  }

  lemma RetainingKeepsFiles(d: Disk, generation: nat, steps: nat, name: Name, content: Content)
    requires FileOf(d, Entry(0, name, content))
    ensures FileOf(After(d, Retained(d, generation), steps), Entry(0, name, content)) <==>
            !(Order(name) < steps)
    ensures Order(name) < steps ==> Entry(generation, name, content) in After(d, Retained(d, generation), steps).archive
    ensures d.archive <= After(d, Retained(d, generation), steps).archive
  {
    RetainedAt(d, generation, steps);
    assert Order(name) < FILES;
  }

  /** Wherever a run that archives an undone update stops, each of its files is either still in its
      place or in the archive: the first `steps` names in the order of retention have moved. */
  lemma StoppedArchiving(action: Action, trusted: set<Build>, w: Outside, d: Disk, steps: nat, name: Name, content: Content)
    requires action != Acknowledge && Readable(d) && d.target.Some? && d.target.value in trusted
    requires d.journal.value.oldHash == Some(Of(d.target.value)) && d.journal.value.oldHash != d.journal.value.newHash
    requires FileOf(d, Entry(0, name, content))
    ensures var after := RunTrail(action, trusted, w, d).At(steps);
      && (FileOf(after, Entry(0, name, content)) <==> steps <= Order(name))
      && (steps > Order(name) ==> Entry(w.first, name, content) in after.archive)
      && d.archive <= after.archive && after.target == d.target && after.ledger == d.ledger
  {
    RetainingKeepsFiles(d, w.first, steps, name, content);
    RetainedAt(d, w.first, steps);
  }

  /** What stands in the journal after so many steps of an apply. */
  function JournalAfter(steps: nat, o: Build, n: Build): Option<Receipt> {
    if steps == 0 then None
    else if steps == 1 then Some(Receipt(None, None))
    else if steps == 2 then Some(Receipt(Some(Cut), None))
    else if steps == 3 then Some(Receipt(Some(Of(o)), None))
    else if steps == 4 then Some(Receipt(Some(Of(o)), Some(Cut)))
    else Some(Receipt(Some(Of(o)), Some(Of(n))))
  }

  /** Where a stopped apply leaves every file: the receipt comes line by line, then the ledger's line,
      then the copy of the running build, first torn, and the swap last. */
  lemma StoppedApply(trusted: set<Build>, w: Outside, d: Disk, o: Build, n: Build, steps: nat)
    requires Ready(trusted, d, o, n)
    ensures RunTrail(Apply, trusted, w, d).At(steps) ==
      d.(journal := JournalAfter(steps, o, n),
         ledger := if steps <= 5 then d.ledger
                   else Ledger(if steps >= 7 && d.ledger.ended then Some((o, n)) else None, steps >= 8),
         backup := if steps <= 8 then None else if steps == 9 then Some(Torn) else Some(Whole(o)),
         target := Some(if steps <= 10 then o else n),
         pending := if steps <= 10 then Some(Whole(n)) else None)
  {
    ApplyAt(trusted, d, steps);
  }

  /** Where a stopped recovery of an applied update leaves every file: the copy of the new build, first
      torn, then the swap, and then the archive. */
  lemma StoppedRollback(action: Action, trusted: set<Build>, w: Outside, d: Disk, o: Build, n: Build, steps: nat)
    requires Recovery(action) && o != n && {o, n} <= trusted && d.journal == Some(Complete(o, n))
    requires d.target == Some(n) && d.backup == Some(Whole(o)) && d.failed.None?
    ensures var after := RunTrail(action, trusted, w, d).At(steps);
      && (steps <= 3 ==>
            after == d.(failed := if steps == 0 then None else if steps == 1 then Some(Torn) else Some(Whole(n)),
                        target := Some(if steps < 3 then n else o), backup := if steps < 3 then d.backup else None))
      && (steps >= 3 ==> after.target == Some(o) && after.ledger == d.ledger && after.backup.None?)
      && (steps >= 3 + FILES ==> Archived(d.(target := Some(o), backup := None, failed := Some(Whole(n))), after, w.first))
  {
    RecoveryStates(action, trusted, w, o, n, d);
    RolledBackAt(d, FromBackup, w.first, steps);
    if steps >= 3 + FILES {
      ClearedIsArchived(Replaced(d, ToFailed, FromBackup)[2], w.first);
    }
  }
}
