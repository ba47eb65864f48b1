/** Undoing an acknowledged update: what pruning leaves of the replaced build, and when the ledger
    still names it. */
module UpdateLedger {
  import opened Wrappers
  import opened UpdateHelper
  import opened UpdateSafety
  import opened UpdateRecovery

  // ----- what pruning leaves for recovery

  /** Every retained file of an old generation is offered for deletion and can be deleted. */
  predicate FullListing(archive: set<Entry>, listing: seq<Entry>) {
    forall e :: e in archive && Outdated(archive, e.generation) ==> e in listing
  }

  /** A rollback copy of the build that survives pruning. */
  predicate RecentCopy(archive: set<Entry>, b: Build) {
    exists e :: e in archive && IsCopy(e, b) && !Outdated(archive, e.generation)
  }

  lemma PruningCopies(archive: set<Entry>, listing: seq<Entry>, b: Build)
    requires FullListing(archive, listing)
    ensures HasCopy(archive - Swept(archive, listing, |listing|), b) <==> RecentCopy(archive, b)
  {
    assert listing[..|listing|] == listing;
    var pruned := archive - Swept(archive, listing, |listing|);
    if RecentCopy(archive, b) {
      var e :| e in archive && IsCopy(e, b) && !Outdated(archive, e.generation);
      assert e in pruned;
    }
    if HasCopy(pruned, b) {
      var e :| e in pruned && IsCopy(e, b);
      assert e in archive && !Outdated(archive, e.generation);
    }
  }

  /** A finished acknowledgement keeps target and ledger and leaves what pruning left. */
  lemma AcknowledgeEnds(trusted: set<Build>, w: Outside, d: Disk)
    requires Acknowledges(trusted, d)
    ensures var archive := Cleared(d, FILES, w.first).archive;
      RunTrail(Acknowledge, trusted, w, d).ok && RunTrail(Acknowledge, trusted, w, d).End() ==
      Disk(d.target, None, None, None, {}, None, d.ledger, archive - Swept(archive, w.listing, |w.listing|))
  {
    var cleared := Cleared(d, FILES, w.first);
    AcknowledgeAt(trusted, w, d, |RunTrail(Acknowledge, trusted, w, d).states|);
    RetainedAt(d, w.first, FILES);
    assert cleared.papers == {};
    assert Pruned(cleared, w.listing, |w.listing|).archive == cleared.archive - Swept(cleared.archive, w.listing, |w.listing|);
  }

  lemma RestoresWhenCopied(trusted: set<Build>, w: Outside, d: Disk, o: Build, n: Build)
    requires d.journal.None? && d.failed.None? && d.target == Some(n) && o != n && o in trusted
    ensures RunTrail(Recover, trusted, w, d).End().target == Some(o) <==>
            d.ledger.last == Some((o, n)) && HasCopy(d.archive, o)
  {
    RecoverWithoutJournal(trusted, w, d);
  }

  /** After a finished acknowledgement, whatever history led to it, recovery brings back the build
      that was replaced exactly when the ledger's last line names the update and a rollback copy
      is in one of the two newest generations. */
  lemma RestorableExactlyWhenRecent(trusted: set<Build>, w: Outside, d: Disk, later: Outside, o: Build, n: Build)
    requires Acknowledges(trusted, d) && d.target == Some(n) && o != n && o in trusted
    requires FullListing(Cleared(d, FILES, w.first).archive, w.listing)
    ensures var acknowledged := RunTrail(Acknowledge, trusted, w, d).End();
      && acknowledged.target == Some(n) && acknowledged.journal.None?
      && (RunTrail(Recover, trusted, later, acknowledged).End().target == Some(o) <==>
          d.ledger.last == Some((o, n)) && RecentCopy(Cleared(d, FILES, w.first).archive, o))
  {
    AcknowledgeEnds(trusted, w, d);
    var acknowledged := RunTrail(Acknowledge, trusted, w, d).End();
    RestorableFrom(trusted, w.listing, Cleared(d, FILES, w.first).archive, acknowledged, later, o, n);
  }

  lemma RestorableFrom(trusted: set<Build>, listing: seq<Entry>, archive: set<Entry>, d: Disk, later: Outside, o: Build, n: Build)
    requires d.target == Some(n) && d.journal.None? && d.failed.None?
    requires d.archive == archive - Swept(archive, listing, |listing|)
    requires FullListing(archive, listing) && o != n && o in trusted
    ensures RunTrail(Recover, trusted, later, d).End().target == Some(o) <==>
            d.ledger.last == Some((o, n)) && RecentCopy(archive, o)
  {
    PruningCopies(archive, listing, o);
    RestoresWhenCopied(trusted, later, d, o, n);
  }

  lemma ArchivingIsNotNewer(d: Disk, generation: nat)
    ensures Outdated(Cleared(d, FILES, generation).archive, generation) <==> Outdated(d.archive, generation)
  {
    var archive := Cleared(d, FILES, generation).archive;
    assert d.archive <= archive;
    assert forall e :: e in archive && e.generation > generation ==> e in d.archive;
  }

  /** An update that is acknowledged in one go keeps its rollback copy, as long as the clock gave
      its generation a larger number than all but one generation before it. */
  lemma FirstAcknowledgementKeepsCopy(trusted: set<Build>, w: Outside, d: Disk, o: Build)
    requires Acknowledges(trusted, d) && d.backup == Some(Whole(o))
    requires !Outdated(d.archive, w.first)
    requires FullListing(Cleared(d, FILES, w.first).archive, w.listing)
    ensures HasCopy(RunTrail(Acknowledge, trusted, w, d).End().archive, o)
  {
    var archive := Cleared(d, FILES, w.first).archive;
    AcknowledgeEnds(trusted, w, d);
    PruningCopies(archive, w.listing, o);
    ArchivingIsNotNewer(d, w.first);
    assert Entry(w.first, Rollback, Whole(o)) in archive;
  }

  // ----- acknowledgements stopped in turn

  /** One acknowledgement that stops before it gets to the journal. */
  datatype Stopped = Stopped(outside: Outside, steps: nat)

  function Interrupted(trusted: set<Build>, d: Disk, stops: seq<Stopped>): Disk
    decreases |stops|
  {
    if stops == [] then d
    else Interrupted(trusted, RunTrail(Acknowledge, trusted, stops[0].outside, d).At(stops[0].steps), stops[1..])
  }

  /** The clock gives every stop a generation between these two. */
  predicate Between(stops: seq<Stopped>, low: nat, high: nat) {
    forall i :: 0 <= i < |stops| ==> low < stops[i].outside.first < high && stops[i].steps < FILES
  }

  lemma OneStop(trusted: set<Build>, d: Disk, w: Outside, steps: nat)
    requires Acknowledges(trusted, d) && steps < FILES
    ensures var next := RunTrail(Acknowledge, trusted, w, d).At(steps);
      && next == Cleared(d, steps, w.first) && Acknowledges(trusted, next) && d.archive <= next.archive
      && next.target == d.target && (steps == 0 ==> next == d)
      && (d.backup.None? ==> next.backup.None?)
      && forall e :: e in next.archive - d.archive ==> e.generation == w.first && (d.backup.None? ==> e.name != Rollback)
  {
    AcknowledgeAt(trusted, w, d, steps);
    RetainedAt(d, w.first, 0);
  }

  lemma {:induction false} StopsOnlyAdd(trusted: set<Build>, d: Disk, stops: seq<Stopped>, low: nat, high: nat)
    requires Acknowledges(trusted, d) && Between(stops, low, high) && d.backup.None?
    ensures var end := Interrupted(trusted, d, stops);
      && Acknowledges(trusted, end) && end.target == d.target && end.backup.None? && d.archive <= end.archive
      && forall e :: e in end.archive - d.archive ==> low < e.generation < high && e.name != Rollback
    decreases |stops|
  {
    if stops != [] {
      var next := RunTrail(Acknowledge, trusted, stops[0].outside, d).At(stops[0].steps);
      OneStop(trusted, d, stops[0].outside, stops[0].steps);
      StopsOnlyAdd(trusted, next, stops[1..], low, high);
      var end := Interrupted(trusted, next, stops[1..]);
      assert forall e :: e in end.archive - d.archive ==> e in end.archive - next.archive || e in next.archive - d.archive;
    }
  }

  /** After the stop that archived the rollback copy, no further stop archived anything. */
  predicate Together(trusted: set<Build>, d: Disk, stops: seq<Stopped>)
    decreases |stops|
  {
    stops == [] ||
    var next := RunTrail(Acknowledge, trusted, stops[0].outside, d).At(stops[0].steps);
      if stops[0].steps == 0 then Together(trusted, next, stops[1..])
      else Interrupted(trusted, next, stops[1..]).archive == next.archive
  }

  /** The clock never goes back: each stop has a larger generation than all before it. */
  predicate Rising(d: Disk, stops: seq<Stopped>, last: nat) {
    && (forall e :: e in d.archive ==> e.generation < last)
    && (forall e, i :: e in d.archive && 0 <= i < |stops| ==> e.generation < stops[i].outside.first)
    && (forall i :: 0 <= i < |stops| ==> stops[i].outside.first < last && stops[i].steps < FILES)
    && (forall i, j :: 0 <= i < j < |stops| ==> stops[i].outside.first < stops[j].outside.first)
  }

  /** The only copy is in this generation; it stays recent unless something newer but the last
      generation is there. */
  lemma RecentUnlessBetween(archive: set<Entry>, o: Build, g: nat, last: nat)
    requires Entry(g, Rollback, Whole(o)) in archive && g <= last
    requires forall e :: e in archive && IsCopy(e, o) ==> e.generation == g
    requires forall e :: e in archive ==> e.generation <= last
    requires exists e :: e in archive && e.generation == last
    ensures RecentCopy(archive, o) <==> !exists e :: e in archive && g < e.generation < last
  {
    assert IsCopy(Entry(g, Rollback, Whole(o)), o);
    if x: Entry :| x in archive && g < x.generation < last {
      var y: Entry :| y in archive && y.generation == last;
      assert g < x.generation < y.generation;
    }
  }

  lemma LastClearing(d: Disk, last: nat)
    requires d.journal.Some? && d.backup.None?
    ensures var archive := Cleared(d, FILES, last).archive;
      && d.archive <= archive && (exists e :: e in archive && e.generation == last)
      && forall e :: e in archive - d.archive ==> e.generation == last && e.name != Rollback
  {
    assert Entry(last, Journal, Text) in Cleared(d, FILES, last).archive;
  }

  /** The first stop with progress archived the copy; what the others archived decides. */
  lemma SpreadDecides(trusted: set<Build>, d: Disk, first: Stopped, rest: seq<Stopped>, last: nat, o: Build)
    requires Acknowledges(trusted, d) && d.backup == Some(Whole(o)) && !HasCopy(d.archive, o)
    requires Rising(d, [first] + rest, last) && first.steps > 0
    ensures var next := RunTrail(Acknowledge, trusted, first.outside, d).At(first.steps);
      var end := Interrupted(trusted, next, rest);
      && Acknowledges(trusted, end)
      && (RecentCopy(Cleared(end, FILES, last).archive, o) <==> end.archive == next.archive)
  {
    var g := first.outside.first;
    var stops := [first] + rest;
    assert stops[0] == first && forall i :: 0 <= i < |rest| ==> stops[i + 1] == rest[i];
    assert Between(rest, g, last);
    var next := RunTrail(Acknowledge, trusted, first.outside, d).At(first.steps);
    OneStop(trusted, d, first.outside, first.steps);
    StopsOnlyAdd(trusted, next, rest, g, last);
    var end := Interrupted(trusted, next, rest);
    LastClearing(end, last);
    FirstCopies(d, first.steps, g, o);
    SpreadInArchive(d.archive, next.archive, end.archive, Cleared(end, FILES, last).archive, g, last, o);
  }

  lemma FirstCopies(d: Disk, steps: nat, g: nat, o: Build)
    requires d.backup == Some(Whole(o)) && steps > 0
    ensures Entry(g, Rollback, Whole(o)) in Cleared(d, steps, g).archive
  {
  }

  lemma SpreadInArchive(before: set<Entry>, next: set<Entry>, end: set<Entry>, archive: set<Entry>, g: nat, last: nat, o: Build)
    requires before <= next <= end <= archive && g < last && !HasCopy(before, o)
    requires Entry(g, Rollback, Whole(o)) in next && forall e :: e in before ==> e.generation < g
    requires forall e :: e in next - before ==> e.generation == g
    requires forall e :: e in end - next ==> g < e.generation < last && e.name != Rollback
    requires forall e :: e in archive - end ==> e.generation == last && e.name != Rollback
    requires exists e :: e in archive && e.generation == last
    ensures RecentCopy(archive, o) <==> end == next
  {
    forall e | e in archive
      ensures e.generation <= last && (IsCopy(e, o) ==> e.generation == g)
      ensures g < e.generation < last <==> e in end - next
    {
      assert e in archive - end || e in end - next || e in next - before || e in before;
    }
    RecentUnlessBetween(archive, o, g, last);
    if end != next {
      var e :| e in end - next;
      assert e in archive;
    }
  }

  lemma NothingStopped(d: Disk, last: nat, o: Build)
    requires d.journal.Some? && d.backup == Some(Whole(o)) && forall e :: e in d.archive ==> e.generation < last
    ensures RecentCopy(Cleared(d, FILES, last).archive, o)
  {
    var archive := Cleared(d, FILES, last).archive;
    assert IsCopy(Entry(last, Rollback, Whole(o)), o) && Entry(last, Rollback, Whole(o)) in archive;
    assert forall e :: e in archive ==> e.generation <= last;
  }

  lemma {:induction false} TogetherStaysRecent(trusted: set<Build>, d: Disk, stops: seq<Stopped>, last: nat, o: Build)
    requires Acknowledges(trusted, d) && d.backup == Some(Whole(o)) && !HasCopy(d.archive, o) && Rising(d, stops, last)
    ensures var end := Interrupted(trusted, d, stops);
      && Acknowledges(trusted, end)
      && (RecentCopy(Cleared(end, FILES, last).archive, o) <==> Together(trusted, d, stops))
    decreases |stops|
  {
    if stops == [] {
      NothingStopped(d, last, o);
    } else if stops[0].steps == 0 {
      OneStop(trusted, d, stops[0].outside, 0);
      TogetherStaysRecent(trusted, d, stops[1..], last, o);
    } else {
      assert stops == [stops[0]] + stops[1..];
      SpreadDecides(trusted, d, stops[0], stops[1..], last, o);
    }
  }

  /** Over any number of stopped acknowledgements and a finished one, the rollback copy of the
      update survives exactly when nothing was archived between the stop that archived the copy
      and the one that finished, that is, unless two later attempts archived something. */
  lemma CopySurvivesStops(trusted: set<Build>, d: Disk, stops: seq<Stopped>, w: Outside, o: Build)
    requires Acknowledges(trusted, d) && d.backup == Some(Whole(o)) && !HasCopy(d.archive, o) && Rising(d, stops, w.first)
    requires FullListing(Cleared(Interrupted(trusted, d, stops), FILES, w.first).archive, w.listing)
    ensures HasCopy(RunTrail(Acknowledge, trusted, w, Interrupted(trusted, d, stops)).End().archive, o) <==>
            Together(trusted, d, stops)
  {
    var end := Interrupted(trusted, d, stops);
    TogetherStaysRecent(trusted, d, stops, w.first, o);
    AcknowledgeEnds(trusted, w, end);
    PruningCopies(Cleared(end, FILES, w.first).archive, w.listing, o);
  }

  /** A witness that stopped acknowledgements lose it: the first one stops after the rollback
      copy, the second after the first paper, and the third archives the rest under a third
      generation and prunes the first. The old build is then gone for good. */
  lemma ThirdAcknowledgementLosesCopy(trusted: set<Build>, d: Disk, o: Build, n: Build,
                                      a: Outside, b: Outside, c: Outside, later: Outside)
    requires d.target == Some(n) && d.journal == Some(Complete(o, n)) && n in trusted && o != n
    requires d.backup == Some(Whole(o)) && d.failed.None? && d.pending.None? && {Manifest, Signature} <= d.papers
    requires !InArchive(d.archive, o) && a.first < b.first < c.first
    ensures var first := RunTrail(Acknowledge, trusted, a, d).At(1);
      var second := RunTrail(Acknowledge, trusted, b, first).At(4);
      var third := RunTrail(Acknowledge, trusted, c, second);
      FullListing(Cleared(second, FILES, c.first).archive, c.listing) ==>
        && third.ok && !OnDisk(third.End(), o)
        && RunTrail(Recover, trusted, later, third.End()).End().target != Some(o)
  {
    hide Cleared, RunTrail, Swept;
    OneStop(trusted, d, a, 1);
    var first := Cleared(d, 1, a.first);
    OneStop(trusted, first, b, 4);
    var second := Cleared(first, 4, b.first);
    if FullListing(Cleared(second, FILES, c.first).archive, c.listing) {
      ThirdSweeps(d, o, a.first, b.first, c.first);
      ThirdEnds(trusted, c, second, o, n);
      RecoverWithoutJournal(trusted, later, RunTrail(Acknowledge, trusted, c, second).End());
    }
  }

  lemma ThirdSweeps(d: Disk, o: Build, a: nat, b: nat, c: nat)
    requires d.backup == Some(Whole(o)) && d.failed.None? && d.pending.None? && {Manifest, Signature} <= d.papers
    requires !InArchive(d.archive, o) && a < b < c && d.journal.Some?
    ensures var archive := Cleared(Cleared(Cleared(d, 1, a), 4, b), FILES, c).archive;
      && Outdated(archive, a)
      && forall e :: e in archive && e.content == Whole(o) ==> e.generation == a
  {
    var archive := Cleared(Cleared(Cleared(d, 1, a), 4, b), FILES, c).archive;
    assert Entry(b, Note(Manifest), Text) in archive;
    assert Entry(c, Journal, Text) in archive;
  }

  lemma ThirdEnds(trusted: set<Build>, w: Outside, d: Disk, o: Build, n: Build)
    requires Acknowledges(trusted, d) && d.target == Some(n) && o != n
    requires FullListing(Cleared(d, FILES, w.first).archive, w.listing)
    requires forall e :: e in Cleared(d, FILES, w.first).archive && e.content == Whole(o) ==>
      Outdated(Cleared(d, FILES, w.first).archive, e.generation)
    ensures RunTrail(Acknowledge, trusted, w, d).ok
    ensures var end := RunTrail(Acknowledge, trusted, w, d).End();
      end.target == Some(n) && end.journal.None? && end.failed.None? && end.ledger == d.ledger
      && !OnDisk(end, o) && !HasCopy(end.archive, o)
  {
    AcknowledgeEnds(trusted, w, d);
    SweepingLoses(Cleared(d, FILES, w.first).archive, w.listing, o);
  }

  lemma SweepingLoses(archive: set<Entry>, listing: seq<Entry>, o: Build)
    requires FullListing(archive, listing)
    requires forall e :: e in archive && e.content == Whole(o) ==> Outdated(archive, e.generation)
    ensures var kept := archive - Swept(archive, listing, |listing|);
      !InArchive(kept, o) && !HasCopy(kept, o)
  {
    assert listing[..|listing|] == listing;
  }

  // ----- when the ledger ends its last line

  /** The run is an apply that gets as far as writing. */
  ghost predicate Writes(trusted: set<Build>, d: Disk, e: Event) {
    e.Helper? && e.action == Apply && d.journal.None? && ApplyTrail(trusted, d).states != []
  }

  /** An apply that stops between the start of its ledger line and its terminator. */
  ghost predicate Tears(trusted: set<Build>, d: Disk, e: Event) { Writes(trusted, d, e) && 6 <= e.steps <= 7 }

  /** An apply that gets to the terminator. */
  ghost predicate Ends(trusted: set<Build>, d: Disk, e: Event) { Writes(trusted, d, e) && e.steps >= 8 }

  lemma RestoringKeepsLedger(trusted: set<Build>, generation: nat, d: Disk, steps: nat)
    ensures RestoreAppliedTrail(trusted, generation, d).At(steps).ledger == d.ledger
  {
    if RestoreAppliedTrail(trusted, generation, d).states != [] {
      RolledBackAt(d, FromArchive(Previous(d).value), generation, steps);
    }
  }

  lemma UndoingKeepsLedger(trusted: set<Build>, o: Outside, d: Disk, steps: nat)
    ensures UndoAppliedTrail(trusted, o, d).At(steps).ledger == d.ledger
  {
    if d.failed.None? {
      RestoringKeepsLedger(trusted, o.second, d, steps);
    } else {
      var base := Cleared(d, FILES, o.first);
      UndoingAt(trusted, o, d, base, steps);
      if steps > FILES {
        RestoringKeepsLedger(trusted, o.second, base, steps - FILES);
      }
    }
  }

  lemma ReconcilingKeepsLedger(action: Action, trusted: set<Build>, generation: nat, d: Disk, receipt: Receipt, steps: nat)
    ensures ReconcileTrail(action, trusted, generation, d, receipt).At(steps).ledger == d.ledger
  {
    var t := ReconcileTrail(action, trusted, generation, d, receipt);
    if t.states != [] {
      if d.target.None? {
        var restored := Swapped(d, FromBackup);
        AfterConcat(d, [restored], Retained(restored, generation), steps);
        RetainedAt(restored, generation, if steps > 1 then steps - 1 else 0);
      } else if Of(d.target.value) == receipt.newHash.value {
        RolledBackAt(d, FromBackup, generation, steps);
      } else {
        RetainedAt(d, generation, steps);
      }
    }
  }

  lemma AcknowledgingKeepsLedger(trusted: set<Build>, o: Outside, d: Disk, steps: nat)
    ensures RunTrail(Acknowledge, trusted, o, d).At(steps).ledger == d.ledger
  {
    if Acknowledges(trusted, d) {
      AcknowledgeAt(trusted, o, d, steps);
    }
  }

  lemma OthersKeepLedger(trusted: set<Build>, d: Disk, e: Event)
    requires !Writes(trusted, d, e)
    ensures Happens(trusted, d, e).ledger == d.ledger
  {
    match e
    case Helper(action, outside, steps) =>
      if action == Acknowledge {
        AcknowledgingKeepsLedger(trusted, outside, d, steps);
      } else if d.journal.Some? {
        ReconcilingKeepsLedger(action, trusted, outside.first, d, d.journal.value, steps);
      } else if action == Recover {
        UndoingKeepsLedger(trusted, outside, d, steps);
      }
    case Discard(generation, steps) => RetainedAt(d, generation, steps);
    case _ =>
  }

  lemma EventEnds(trusted: set<Build>, d: Disk, e: Event)
    ensures Happens(trusted, d, e).ledger.ended ==
      (if Tears(trusted, d, e) then false else Ends(trusted, d, e) || d.ledger.ended)
  {
    if Writes(trusted, d, e) {
      ApplyAt(trusted, d, e.steps);
    } else {
      OthersKeepLedger(trusted, d, e);
    }
  }

  /** Event `k` tore the ledger's last line, and no apply has ended it since. */
  ghost predicate TornAt(trusted: set<Build>, d: Disk, events: seq<Event>, k: nat) {
    && k < |events| && Tears(trusted, History(trusted, d, events[..k]), events[k])
    && forall j :: k < j < |events| ==> !Ends(trusted, History(trusted, d, events[..j]), events[j])
  }

  lemma {:induction false} HistoryLast(trusted: set<Build>, d: Disk, events: seq<Event>)
    requires events != []
    ensures History(trusted, d, events) ==
            Happens(trusted, History(trusted, d, events[..|events| - 1]), events[|events| - 1])
    decreases |events|
  {
    if |events| == 1 {
      assert events[1..] == [] && events[..0] == [];
    } else {
      HistoryLast(trusted, Happens(trusted, d, events[0]), events[1..]);
      assert events[..|events| - 1][1..] == events[1..][..|events| - 2];
    }
  }

  lemma TornEarlier(trusted: set<Build>, d: Disk, events: seq<Event>, last: nat, k: nat)
    requires |events| == last + 1 && k < last
    ensures TornAt(trusted, d, events, k) <==>
      TornAt(trusted, d, events[..last], k) && !Ends(trusted, History(trusted, d, events[..last]), events[last])
  {
    var prior := events[..last];
    assert forall j :: 0 <= j <= last ==> prior[..j] == events[..j];
  }

  /** The last event tears, or leaves torn what was. */
  lemma TornStep(trusted: set<Build>, d: Disk, events: seq<Event>, last: nat)
    requires |events| == last + 1
    ensures var now, e := History(trusted, d, events[..last]), events[last];
      (exists k :: TornAt(trusted, d, events, k)) <==>
      Tears(trusted, now, e) || (!Ends(trusted, now, e) && exists k :: TornAt(trusted, d, events[..last], k))
  {
    hide Tears, Ends, Happens, History;
    var prior, e := events[..last], events[last];
    var now := History(trusted, d, prior);
    if k: nat :| TornAt(trusted, d, events, k) {
      if k < last {
        TornEarlier(trusted, d, events, last, k);
        assert TornAt(trusted, d, prior, k);
      }
    }
    if k: nat :| TornAt(trusted, d, prior, k) {
      if !Ends(trusted, now, e) {
        TornEarlier(trusted, d, events, last, k);
        assert TornAt(trusted, d, events, k);
      }
    }
    if Tears(trusted, now, e) {
      assert TornAt(trusted, d, events, last);
    }
  }

  /** Over every history, the ledger ends in the middle of a line if and only if an apply was
      stopped inside its append and none has ended the line since. */
  lemma {:induction false} UnendedExactlyWhenTorn(trusted: set<Build>, d: Disk, events: seq<Event>)
    requires d.ledger.ended
    ensures !History(trusted, d, events).ledger.ended <==> exists k :: TornAt(trusted, d, events, k)
    decreases |events|
  {
    hide TornAt, Happens;
    if events == [] {
      NeverTornAtFirst(trusted, d);
    } else {
      var last := |events| - 1;
      HistoryLast(trusted, d, events);
      EventEnds(trusted, History(trusted, d, events[..last]), events[last]);
      UnendedExactlyWhenTorn(trusted, d, events[..last]);
      TornStep(trusted, d, events, last);
    }
  }

  lemma NeverTornAtFirst(trusted: set<Build>, d: Disk)
    ensures !exists k :: TornAt(trusted, d, [], k)
  {
  }

  // ----- undoing what was acknowledged

  /** A disk on which an apply of `n` runs through. */
  ghost predicate Ready(trusted: set<Build>, d: Disk, o: Build, n: Build) {
    && Safe(trusted, d) && d.journal.None? && d.target == Some(o) && o != n
    && d.pending == Some(Whole(n)) && n in trusted
  }

  lemma AppliedDisk(trusted: set<Build>, w: Outside, d: Disk, o: Build, n: Build)
    requires Ready(trusted, d, o, n)
    ensures var applied := RunTrail(Apply, trusted, w, d).End();
      && Acknowledges(trusted, applied) && applied.target == Some(n) && applied.backup == Some(Whole(o))
      && applied.archive == d.archive && applied.ledger == Ledger(if d.ledger.ended then Some((o, n)) else None, true)
  {
    ApplySucceeds(trusted, w, d);
    ApplyAt(trusted, d, 11);
  }

  lemma AppliedCopyIsRecent(trusted: set<Build>, w: Outside, d: Disk, o: Build, n: Build, a: Outside)
    requires Ready(trusted, d, o, n) && !Outdated(d.archive, a.first)
    ensures RecentCopy(Cleared(RunTrail(Apply, trusted, w, d).End(), FILES, a.first).archive, o)
  {
    var applied := RunTrail(Apply, trusted, w, d).End();
    AppliedDisk(trusted, w, d, o, n);
    ArchivingIsNotNewer(applied, a.first);
    assert IsCopy(Entry(a.first, Rollback, Whole(o)), o);
    assert Entry(a.first, Rollback, Whole(o)) in Cleared(applied, FILES, a.first).archive;
  }

  /** An update applied and acknowledged without a stop can be undone afterwards if and only if
      the ledger ended its last line when the apply began and the rollback copy is in one of the
      two newest generations. */
  lemma AcknowledgedUndoes(trusted: set<Build>, w: Outside, d: Disk, o: Build, n: Build, a: Outside, later: Outside)
    requires Ready(trusted, d, o, n)
    requires FullListing(Cleared(RunTrail(Apply, trusted, w, d).End(), FILES, a.first).archive, a.listing)
    ensures var applied := RunTrail(Apply, trusted, w, d).End();
      var acknowledged := RunTrail(Acknowledge, trusted, a, applied).End();
      RunTrail(Recover, trusted, later, acknowledged).End().target == Some(o) <==>
      d.ledger.ended && RecentCopy(Cleared(applied, FILES, a.first).archive, o)
  {
    var applied := RunTrail(Apply, trusted, w, d).End();
    AppliedDisk(trusted, w, d, o, n);
    RestorableExactlyWhenRecent(trusted, a, applied, later, o, n);
  }

  /** The same over every history before it: an earlier apply that stopped inside its append, with
      none that ended the line since, is what makes the later update impossible to undo. */
  lemma UndoneUnlessTorn(trusted: set<Build>, start: Disk, events: seq<Event>, w: Outside, o: Build, n: Build,
                         a: Outside, later: Outside)
    requires start.ledger.ended && Ready(trusted, History(trusted, start, events), o, n)
    requires var applied := RunTrail(Apply, trusted, w, History(trusted, start, events)).End();
      FullListing(Cleared(applied, FILES, a.first).archive, a.listing)
    requires !Outdated(History(trusted, start, events).archive, a.first)
    ensures var applied := RunTrail(Apply, trusted, w, History(trusted, start, events)).End();
      var acknowledged := RunTrail(Acknowledge, trusted, a, applied).End();
      RunTrail(Recover, trusted, later, acknowledged).End().target == Some(o) <==>
      !exists k :: TornAt(trusted, start, events, k)
  {
    var d := History(trusted, start, events);
    UnendedExactlyWhenTorn(trusted, start, events);
    AppliedCopyIsRecent(trusted, w, d, o, n, a);
    AcknowledgedUndoes(trusted, w, d, o, n, a, later);
  }

  lemma TornThenReady(trusted: set<Build>, w: Outside, d: Disk, o: Build, n: Build, m: Build, papers: set<Paper>, r: Outside)
    requires Ready(trusted, d, o, n) && m in trusted && m != o
    ensures var archived := RunTrail(Recover, trusted, r, RunTrail(Apply, trusted, w, d).At(7)).End();
      var next := Happens(trusted, archived, Transfer(Whole(m), papers));
      Ready(trusted, next, o, m) && !next.ledger.ended
  {
    StoppedEarlyIsArchived(trusted, w, d, n, 7, r);
    ApplyAt(trusted, d, 7);
  }

  /** A witness: an apply of `n` stops before the terminator of its ledger line, recovery archives
      it, and `m` is then transferred, applied and acknowledged without a stop. Its rollback copy
      is recent, and yet it cannot be undone. */
  lemma TornLineLosesUndo(trusted: set<Build>, w: Outside, d: Disk, o: Build, n: Build, m: Build, papers: set<Paper>,
                          r: Outside, a: Outside, later: Outside)
    requires Ready(trusted, d, o, n) && m in trusted && m != o
    ensures var archived := RunTrail(Recover, trusted, r, RunTrail(Apply, trusted, w, d).At(7)).End();
      var next := Happens(trusted, archived, Transfer(Whole(m), papers));
      var applied := RunTrail(Apply, trusted, w, next).End();
      var acknowledged := RunTrail(Acknowledge, trusted, a, applied).End();
      && Ready(trusted, next, o, m)
      && (FullListing(Cleared(applied, FILES, a.first).archive, a.listing) && !Outdated(next.archive, a.first) ==>
            && HasCopy(acknowledged.archive, o) && acknowledged.target == Some(m)
            && RunTrail(Recover, trusted, later, acknowledged).End().target != Some(o))
  {
    hide RunTrail, Cleared, Happens, Ready, Swept;
    TornThenReady(trusted, w, d, o, n, m, papers, r);
    var archived := RunTrail(Recover, trusted, r, RunTrail(Apply, trusted, w, d).At(7)).End();
    var next := Happens(trusted, archived, Transfer(Whole(m), papers));
    var applied := RunTrail(Apply, trusted, w, next).End();
    AppliedDisk(trusted, w, next, o, m);
    if FullListing(Cleared(applied, FILES, a.first).archive, a.listing) && !Outdated(next.archive, a.first) {
      AppliedCopyIsRecent(trusted, w, next, o, m, a);
      AcknowledgedUndoes(trusted, w, next, o, m, a, later);
      AcknowledgeEnds(trusted, a, applied);
      PruningCopies(Cleared(applied, FILES, a.first).archive, a.listing, o);
    }
  }
}
