/** When recovery can still finish, and which builds it can bring back. */
module UpdateRecovery {
  import opened Wrappers
  import opened UpdateHelper
  import opened UpdateSafety

  // ----- while the receipt of an update is there

  function Complete(o: Build, n: Build): Receipt { Receipt(Some(Of(o)), Some(Of(n))) }

  /** An update from `o` to `n` whose receipt is complete and not being acknowledged, or that
      recovery has already undone. */
  ghost predicate Undoable(d: Disk, o: Build, n: Build) {
    || (&& d.journal == Some(Complete(o, n))
        && (d.target == Some(o) || (d.target == Some(n) && d.backup == Some(Whole(o)))))
    || (d.journal.None? && d.target == Some(o))
  }

  /** The new build still runs and a copy from an earlier attempt occupies the failed slot. */
  predicate Jammed(d: Disk, n: Build) { d.target == Some(n) && d.failed.Some? }

  /** Distance from the undone update; swapping back, then emptying the backup slot, then
      archiving the journal bring it down. */
  function Phase(d: Disk, o: Build): nat {
    (if d.target == Some(o) then 0 else 4) + (if d.backup.Some? then 2 else 0) + (if d.journal.Some? then 1 else 0)
  }

  predicate Recovery(action: Action) { action == Recover || action == AutoRecover }

  lemma RecoveryStates(action: Action, trusted: set<Build>, w: Outside, o: Build, n: Build, d: Disk)
    requires Recovery(action) && o != n && {o, n} <= trusted && Undoable(d, o, n) && d.journal.Some?
    ensures RunTrail(action, trusted, w, d) ==
      if Jammed(d, n) then Stop(d)
      else if d.target == Some(n) then Trail(d, RolledBack(d, FromBackup, w.first), true)
      else Trail(d, Retained(d, w.first), true)
  {
  }

  lemma RollingBackAdvances(o: Build, n: Build, generation: nat, d: Disk, steps: nat)
    requires o != n && Undoable(d, o, n) && d.journal.Some? && d.target == Some(n)
    ensures var a := After(d, RolledBack(d, FromBackup, generation), steps);
      && Undoable(a, o, n)
      && Phase(a, o) == (if steps < 3 then 7 else if steps < 3 + FILES then 1 else 0)
      && (a.failed.Some? <==> (steps == 0 && d.failed.Some?) || 1 <= steps < 5)
  {
    RolledBackAt(d, FromBackup, generation, steps);
  }

  lemma RetainingAdvances(o: Build, n: Build, generation: nat, d: Disk, steps: nat)
    requires Undoable(d, o, n) && d.target == Some(o)
    ensures Undoable(After(d, Retained(d, generation), steps), o, n)
    ensures Phase(After(d, Retained(d, generation), steps + 1), o) <= Phase(After(d, Retained(d, generation), steps), o)
  {
    RetainedAt(d, generation, steps);
    RetainedAt(d, generation, steps + 1);
  }

  /** A recovery run, stopped anywhere, stays within the undoable states; it never moves back
      a phase; and it leaves a jammed installation exactly as it is. */
  lemma RecoveryAdvances(action: Action, trusted: set<Build>, w: Outside, o: Build, n: Build, d: Disk, steps: nat)
    requires Recovery(action) && o != n && {o, n} <= trusted && Undoable(d, o, n) && d.journal.Some?
    ensures Undoable(RunTrail(action, trusted, w, d).At(steps), o, n)
    ensures Phase(RunTrail(action, trusted, w, d).At(steps + 1), o) <= Phase(RunTrail(action, trusted, w, d).At(steps), o)
    ensures Jammed(d, n) ==> RunTrail(action, trusted, w, d).At(steps) == d
  {
    RecoveryStates(action, trusted, w, o, n, d);
    var t := RunTrail(action, trusted, w, d);
    if Jammed(d, n) {
      assert t.At(steps) == d == t.At(steps + 1);
    } else if d.target == Some(n) {
      RollingBackAdvances(o, n, w.first, d, steps);
      RollingBackAdvances(o, n, w.first, d, steps + 1);
    } else {
      RetainingAdvances(o, n, w.first, d, steps);
    }
  }

  /** An uninterrupted recovery run ends with the old build and an archived journal exactly
      when the installation is not jammed. */
  lemma RecoveryFinishes(action: Action, trusted: set<Build>, w: Outside, o: Build, n: Build, d: Disk)
    requires Recovery(action) && o != n && {o, n} <= trusted && Undoable(d, o, n) && d.journal.Some?
    ensures var t := RunTrail(action, trusted, w, d);
      && (t.End().target == Some(o) && t.End().journal.None? <==> !Jammed(d, n))
      && (t.ok <==> !Jammed(d, n))
  {
    RecoveryStates(action, trusted, w, o, n, d);
    var t := RunTrail(action, trusted, w, d);
    if Jammed(d, n) {
      assert t.End() == d;
    } else if d.target == Some(n) {
      RollingBackAdvances(o, n, w.first, d, 3 + FILES);
      assert t.End() == After(d, RolledBack(d, FromBackup, w.first), 3 + FILES);
    } else {
      RetainedAt(d, w.first, FILES);
    }
  }

  /** One attempt to recover: the action, the outside it meets, and how far it gets. */
  datatype Attempt = Attempt(action: Action, outside: Outside, steps: nat)

  predicate AllRecover(tries: seq<Attempt>) { forall i :: 0 <= i < |tries| ==> Recovery(tries[i].action) }

  function Tried(trusted: set<Build>, d: Disk, a: Attempt): Disk { RunTrail(a.action, trusted, a.outside, d).At(a.steps) }

  /** Recovery attempts, each stopped after some steps, for as long as a journal is there. */
  function Retried(trusted: set<Build>, d: Disk, tries: seq<Attempt>): Disk
    decreases |tries|
  {
    if tries == [] || d.journal.None? then d else Retried(trusted, Tried(trusted, d, tries[0]), tries[1..])
  }

  lemma {:induction false} RetriesStayUndoable(trusted: set<Build>, o: Build, n: Build, d: Disk, tries: seq<Attempt>)
    requires o != n && {o, n} <= trusted && Undoable(d, o, n) && AllRecover(tries)
    ensures Undoable(Retried(trusted, d, tries), o, n)
    decreases |tries|
  {
    if tries != [] && d.journal.Some? {
      RecoveryAdvances(tries[0].action, trusted, tries[0].outside, o, n, d, tries[0].steps);
      RetriesStayUndoable(trusted, o, n, Tried(trusted, d, tries[0]), tries[1..]);
    }
  }

  /** An apply stopped at any step after its receipt was complete is undoable. */
  lemma ApplyIsUndoable(trusted: set<Build>, w: Outside, d: Disk, n: Build, steps: nat)
    requires Safe(trusted, d) && d.journal.None? && d.pending == Some(Whole(n)) && n in trusted && steps >= 5
    ensures var a := RunTrail(Apply, trusted, w, d).At(steps);
      && Undoable(a, d.target.value, n) && a.failed == d.failed && a.papers == d.papers && a.archive == d.archive
      && a.journal == Some(Complete(d.target.value, n))
      && (steps >= 11 ==> a.target == Some(n)) && (steps < 11 ==> a.target == d.target)
  {
    ApplyAt(trusted, d, steps);
  }

  /** From any stopping point of an apply whose receipt is complete, after any number of
      stopped recovery attempts: either recovery has already put the old build back, or one
      uninterrupted run does so unless the installation is jammed, in which case no recovery
      attempt changes anything. */
  lemma RecoverySettles(trusted: set<Build>, w: Outside, start: Disk, n: Build, steps: nat, tries: seq<Attempt>,
                        last: Action, later: Outside)
    requires Safe(trusted, start) && start.journal.None? && start.pending == Some(Whole(n))
    requires n in trusted && start.target != Some(n) && steps >= 5 && Recovery(last) && AllRecover(tries)
    ensures var o := start.target.value;
      var d := Retried(trusted, RunTrail(Apply, trusted, w, start).At(steps), tries);
      var t := RunTrail(last, trusted, later, d);
      && (d.journal.None? ==> d.target == Some(o))
      && (d.journal.Some? ==> (t.End().target == Some(o) && t.End().journal.None? <==> !Jammed(d, n)))
      && (d.journal.Some? && Jammed(d, n) ==> forall k: nat :: t.At(k) == d)
  {
    var o := start.target.value;
    ApplyIsUndoable(trusted, w, start, n, steps);
    var stopped := RunTrail(Apply, trusted, w, start).At(steps);
    RetriesStayUndoable(trusted, o, n, stopped, tries);
    var d := Retried(trusted, stopped, tries);
    if d.journal.Some? {
      RecoveryFinishes(last, trusted, later, o, n, d);
      RecoveryStates(last, trusted, later, o, n, d);
    }
  }

  // ----- when the failed slot is in the way

  /** How far the first attempt got that took any step. */
  function FirstProgress(tries: seq<Attempt>): nat {
    if tries == [] then 0 else if tries[0].steps > 0 then tries[0].steps else FirstProgress(tries[1..])
  }

  lemma {:induction false} UndoneStaysUnjammed(trusted: set<Build>, o: Build, n: Build, d: Disk, tries: seq<Attempt>)
    requires o != n && {o, n} <= trusted && Undoable(d, o, n) && AllRecover(tries) && d.target == Some(o)
    ensures Retried(trusted, d, tries).target == Some(o)
    decreases |tries|
  {
    if tries != [] && d.journal.Some? {
      var a := tries[0];
      RecoveryStates(a.action, trusted, a.outside, o, n, d);
      RetainedAt(d, a.outside.first, a.steps);
      RecoveryAdvances(a.action, trusted, a.outside, o, n, d, a.steps);
      UndoneStaysUnjammed(trusted, o, n, Tried(trusted, d, a), tries[1..]);
    }
  }

  lemma {:induction false} JammedStays(trusted: set<Build>, o: Build, n: Build, d: Disk, tries: seq<Attempt>)
    requires o != n && {o, n} <= trusted && Undoable(d, o, n) && AllRecover(tries) && Jammed(d, n)
    ensures Retried(trusted, d, tries) == d
    decreases |tries|
  {
    if tries != [] && d.journal.Some? {
      RecoveryAdvances(tries[0].action, trusted, tries[0].outside, o, n, d, tries[0].steps);
      JammedStays(trusted, o, n, d, tries[1..]);
    }
  }

  /** From a state that is not jammed, attempts to recover end jammed if and only if the first
      one that took a step stopped after creating the failed copy and before the swap. */
  lemma {:induction false} RetriesJamExactly(trusted: set<Build>, o: Build, n: Build, d: Disk, tries: seq<Attempt>)
    requires o != n && {o, n} <= trusted && Undoable(d, o, n) && !Jammed(d, n) && AllRecover(tries)
    ensures Jammed(Retried(trusted, d, tries), n) <==> d.target == Some(n) && 1 <= FirstProgress(tries) <= 2
    decreases |tries|
  {
    if d.target == Some(o) {
      UndoneStaysUnjammed(trusted, o, n, d, tries);
    } else if tries != [] {
      var a := tries[0];
      var next := Tried(trusted, d, a);
      RecoveryStates(a.action, trusted, a.outside, o, n, d);
      RecoveryAdvances(a.action, trusted, a.outside, o, n, d, a.steps);
      RollingBackAdvances(o, n, a.outside.first, d, a.steps);
      RolledBackAt(d, FromBackup, a.outside.first, a.steps);
      if a.steps == 0 {
        RetriesJamExactly(trusted, o, n, d, tries[1..]);
      } else if a.steps <= 2 {
        JammedStays(trusted, o, n, next, tries[1..]);
      } else {
        UndoneStaysUnjammed(trusted, o, n, next, tries[1..]);
      }
    }
  }

  /** Once jammed, apply and recovery leave the new build in place for good; only an
      acknowledgement of the new build clears the receipt. */
  lemma JamIsFinal(action: Action, trusted: set<Build>, w: Outside, o: Build, n: Build, d: Disk, steps: nat)
    requires action != Acknowledge && o != n && {o, n} <= trusted
    requires Undoable(d, o, n) && d.journal.Some? && Jammed(d, n)
    ensures RunTrail(action, trusted, w, d).At(steps) == d
    ensures RunTrail(Acknowledge, trusted, w, d).End().journal.None?
         && RunTrail(Acknowledge, trusted, w, d).End().target == Some(n)
  {
    if action != Apply {
      RecoveryStates(action, trusted, w, o, n, d);
    }
    AcknowledgeAt(trusted, w, d, |RunTrail(Acknowledge, trusted, w, d).states|);
  }

  /** A journal cut before its second digest line is final: no action changes the disk. */
  lemma TornReceiptIsFinal(action: Action, trusted: set<Build>, w: Outside, d: Disk, steps: nat)
    requires d.journal.Some? && d.journal.value.newHash.None?
    ensures RunTrail(action, trusted, w, d).At(steps) == d
  {
  }

  lemma TornByThen(trusted: set<Build>, w: Outside, start: Disk, n: Build, steps: nat)
    requires Safe(trusted, start) && start.journal.None? && start.pending == Some(Whole(n)) && n in trusted && 1 <= steps < 5
    ensures var stopped := RunTrail(Apply, trusted, w, start).At(steps);
      && stopped.journal.Some? && stopped == start.(journal := stopped.journal)
      && (stopped.journal.value.newHash.None? <==> steps < 4)
      && (steps == 4 ==> stopped.journal.value == Receipt(Some(Of(start.target.value)), Some(Cut)))
  {
    ApplyAt(trusted, start, steps);
  }

  /** An apply that stopped after it created the journal is undone by one uninterrupted recovery
      exactly when the second digest line had begun to be written and it did not swap over a
      failed copy left behind by an earlier recovery. */
  lemma StoppedApplyRecovers(trusted: set<Build>, w: Outside, start: Disk, n: Build, steps: nat, action: Action, later: Outside)
    requires Safe(trusted, start) && start.journal.None? && start.pending == Some(Whole(n))
    requires n in trusted && start.target != Some(n) && steps >= 1 && Recovery(action)
    ensures var t := RunTrail(action, trusted, later, RunTrail(Apply, trusted, w, start).At(steps));
      t.End().target == start.target && t.End().journal.None? <==>
      steps >= 4 && !(steps >= 11 && start.failed.Some?)
  {
    var stopped := RunTrail(Apply, trusted, w, start).At(steps);
    if steps >= 5 {
      ApplyIsUndoable(trusted, w, start, n, steps);
      RecoveryFinishes(action, trusted, later, start.target.value, n, stopped);
    } else {
      TornByThen(trusted, w, start, n, steps);
      if steps < 4 {
        TornReceiptIsFinal(action, trusted, later, stopped, 0);
      } else {
        RetainedAt(stopped, later.first, FILES);
      }
    }
  }

  /** Every applied update can be jammed: its recovery stops after it created the failed copy. */
  lemma RecoveryCanJam(trusted: set<Build>, w: Outside, start: Disk, n: Build, action: Action, later: Outside, steps: nat)
    requires Safe(trusted, start) && start.journal.None? && start.failed.None?
    requires start.pending == Some(Whole(n)) && n in trusted && start.target != Some(n)
    requires Recovery(action) && (steps == 1 || steps == 2)
    ensures var jammed := RunTrail(action, trusted, later, RunTrail(Apply, trusted, w, start).End()).At(steps);
      Undoable(jammed, start.target.value, n) && jammed.journal.Some? && Jammed(jammed, n)
  {
    var o := start.target.value;
    ApplySucceeds(trusted, w, start);
    ApplyIsUndoable(trusted, w, start, n, 11);
    var applied := RunTrail(Apply, trusted, w, start).End();
    RecoveryStates(action, trusted, later, o, n, applied);
    RollingBackAdvances(o, n, later.first, applied, steps);
    RolledBackAt(applied, FromBackup, later.first, steps);
  }

  /** The branch for a target that something else removed: the old build comes back exactly
      when the backup is the receipt's old build and trusted; otherwise nothing changes. */
  lemma MissingTarget(action: Action, trusted: set<Build>, w: Outside, d: Disk, o: Build, n: Build)
    requires action != Acknowledge && d.target.None? && d.journal == Some(Complete(o, n))
    ensures var t := RunTrail(action, trusted, w, d);
      && (t.End().target == Some(o) && t.End().journal.None? <==> d.backup == Some(Whole(o)) && o in trusted)
      && (!(d.backup == Some(Whole(o)) && o in trusted) ==> t.End() == d && !t.ok)
  {
    var restored := Swapped(d, FromBackup);
    AfterConcat(d, [restored], Retained(restored, w.first), 1 + FILES);
    RetainedAt(restored, w.first, FILES);
  }

  // ----- once the receipt is gone

  /** A recovery would find a retained copy of the build, or makes one by archiving. */
  predicate CopyInReach(d: Disk, b: Build) {
    HasCopy(d.archive, b) || (d.failed.Some? && d.backup == Some(Whole(b)))
  }

  lemma CopiesAfterClearing(d: Disk, generation: nat, b: Build)
    ensures HasCopy(Cleared(d, FILES, generation).archive, b) <==> HasCopy(d.archive, b) || d.backup == Some(Whole(b))
  {
    var archive := Cleared(d, FILES, generation).archive;
    assert d.archive <= archive;
    if d.backup == Some(Whole(b)) {
      assert IsCopy(Entry(generation, Rollback, Whole(b)), b) && Entry(generation, Rollback, Whole(b)) in archive;
    }
    if HasCopy(archive, b) {
      var e :| e in archive && IsCopy(e, b);
      assert e in d.archive || e in Moved(d.backup, Rollback, FILES, generation);
    }
    if HasCopy(d.archive, b) {
      var e :| e in d.archive && IsCopy(e, b);
      assert e in archive;
    }
  }

  lemma RestoreEnds(trusted: set<Build>, generation: nat, d: Disk)
    requires d.target.Some?
    ensures var t := RestoreAppliedTrail(trusted, generation, d);
      && (t.ok <==> d.ledger.last.Some? && d.target == Some(d.ledger.last.value.1) && HasCopy(d.archive, d.ledger.last.value.0)
                    && d.ledger.last.value.0 in trusted)
      && (t.ok ==> t.End().target == Some(d.ledger.last.value.0))
      && (!t.ok ==> t.End() == d)
  {
    var t := RestoreAppliedTrail(trusted, generation, d);
    if t.ok {
      RolledBackAt(d, FromArchive(Previous(d).value), generation, 3 + FILES);
      assert t.End() == After(d, RolledBack(d, FromArchive(Previous(d).value), generation), 3 + FILES);
    }
  }

  /** Exactly when a recovery without a journal replaces the running build, and by which: the
      last ledger entry names it as replaced by what runs now, and a trusted copy is in reach. */
  lemma RecoverWithoutJournal(trusted: set<Build>, w: Outside, d: Disk)
    requires d.journal.None? && d.target.Some?
    ensures var t := RunTrail(Recover, trusted, w, d);
      && (t.ok <==> d.ledger.last.Some? && d.target == Some(d.ledger.last.value.1) && d.ledger.last.value.0 in trusted
                    && CopyInReach(d, d.ledger.last.value.0))
      && t.End().target == (if t.ok then Some(d.ledger.last.value.0) else d.target)
      && (t.End().target != d.target <==> t.ok && d.ledger.last.value.0 != d.ledger.last.value.1)
  {
    var t := RunTrail(Recover, trusted, w, d);
    if d.failed.None? {
      RestoreEnds(trusted, w.second, d);
    } else {
      var base := Cleared(d, FILES, w.first);
      var rest := RestoreAppliedTrail(trusted, w.second, base);
      RestoreEnds(trusted, w.second, base);
      UndoingAt(trusted, w, d, base, |t.states|);
      RetainedAt(d, w.first, FILES);
      if d.ledger.last.Some? {
        CopiesAfterClearing(d, w.first, d.ledger.last.value.0);
      }
    }
  }

  /** An apply stopped once its receipt names the old build, before the swap, is undone by
      archiving alone. */
  lemma StoppedEarlyIsArchived(trusted: set<Build>, w: Outside, start: Disk, n: Build, steps: nat, first: Outside)
    requires Safe(trusted, start) && start.journal.None? && start.pending == Some(Whole(n))
    requires n in trusted && start.target != Some(n) && 4 <= steps < 11
    ensures var stopped := RunTrail(Apply, trusted, w, start).At(steps);
      && RunTrail(Recover, trusted, first, stopped).End() == Cleared(stopped, FILES, first.first)
      && Cleared(stopped, FILES, first.first).target == start.target && stopped.archive == start.archive
      && Cleared(stopped, FILES, first.first).journal.None? && Cleared(stopped, FILES, first.first).failed.None?
      && Cleared(stopped, FILES, first.first).ledger == stopped.ledger
      && (steps <= 5 ==> stopped.ledger == start.ledger && stopped.backup.None?)
      && (steps >= 6 && stopped.ledger.last.Some? ==> stopped.ledger.last == Some((start.target.value, n)))
  {
    var stopped := RunTrail(Apply, trusted, w, start).At(steps);
    ApplyAt(trusted, start, steps);
    if steps >= 5 {
      RecoveryStates(Recover, trusted, first, start.target.value, n, stopped);
    }
    RetainedAt(stopped, first.first, FILES);
  }

  /** Recovery is not idempotent once the journal is gone: after a recovery that kept the
      running build, a further one undoes the earlier update too, exactly when the apply had not
      begun its ledger line, the last line names that earlier update, and a trusted copy of the
      build it replaced is retained. Automatic recovery then changes nothing. */
  lemma SecondRecoveryGoesFurther(trusted: set<Build>, w: Outside, start: Disk, n: Build, steps: nat,
                                  first: Outside, second: Outside)
    requires Safe(trusted, start) && start.journal.None? && start.pending == Some(Whole(n))
    requires n in trusted && start.target != Some(n) && 4 <= steps < 11
    ensures var kept := RunTrail(Recover, trusted, first, RunTrail(Apply, trusted, w, start).At(steps)).End();
      && kept.target == start.target && kept.journal.None?
      && (RunTrail(Recover, trusted, second, kept).End().target != start.target <==>
            steps <= 5 && start.ledger.last.Some? && start.target == Some(start.ledger.last.value.1)
            && start.ledger.last.value.0 != start.ledger.last.value.1 && start.ledger.last.value.0 in trusted
            && HasCopy(start.archive, start.ledger.last.value.0))
      && RunTrail(AutoRecover, trusted, second, kept).End() == kept
  {
    hide Cleared, ApplyTrail;
    var stopped := RunTrail(Apply, trusted, w, start).At(steps);
    StoppedEarlyIsArchived(trusted, w, start, n, steps, first);
    RecoverWithoutJournal(trusted, second, Cleared(stopped, FILES, first.first));
    if start.ledger.last.Some? {
      CopiesAfterClearing(stopped, first.first, start.ledger.last.value.0);
    }
  }

  // ----- for good

  /** Over every history without an acknowledgement, whatever is transferred, delivered or
      discarded meanwhile: a jammed installation keeps running the new build, with the same
      receipt, ledger, backup and failed copy. */
  lemma {:induction false} JamIsForGood(trusted: set<Build>, o: Build, n: Build, d: Disk, events: seq<Event>)
    requires o != n && {o, n} <= trusted && Undoable(d, o, n) && d.journal.Some? && Jammed(d, n)
    requires forall i :: 0 <= i < |events| ==> !(events[i].Helper? && events[i].action == Acknowledge)
    ensures var end := History(trusted, d, events);
      end == d.(pending := end.pending, papers := end.papers, archive := end.archive)
    decreases |events|
  {
    if events != [] {
      if events[0].Helper? {
        JamIsFinal(events[0].action, trusted, events[0].outside, o, n, d, events[0].steps);
      }
      JamIsForGood(trusted, o, n, Happens(trusted, d, events[0]), events[1..]);
    }
  }

  /** Over every history, acknowledgements included: a receipt without a second digest line stays,
      and the target, the ledger, the backup and the failed copy with it. */
  lemma {:induction false} TornReceiptIsForGood(trusted: set<Build>, d: Disk, events: seq<Event>)
    requires d.journal.Some? && d.journal.value.newHash.None?
    ensures var end := History(trusted, d, events);
      end == d.(pending := end.pending, papers := end.papers, archive := end.archive)
    decreases |events|
  {
    if events != [] {
      if events[0].Helper? {
        TornReceiptIsFinal(events[0].action, trusted, events[0].outside, d, events[0].steps);
      }
      TornReceiptIsForGood(trusted, Happens(trusted, d, events[0]), events[1..]);
    }
  }
}
