/** The update helper: apply, recover, automatic recovery and acknowledgement of an
    executable swap, as the durable steps they take on the installation directory.

    A run may stop after any step (a crash, an I/O error and a failed check all stop it
    there), so every statement about "any stopping point" is a statement about the trail of
    disk states a run goes through. */
module UpdateHelper {
  import opened Wrappers

  /** Identity of an executable's bytes; equal digests mean equal builds. */
  type Build = nat

  /** A file written by copying is torn until the copy is complete. The files that are no
      executables of the editor are only papers here. */
  datatype Content = Whole(build: Build) | Torn | Text

  /** A digest read from the journal. A line cut short by a crash matches no file. */
  datatype Digest = Of(build: Build) | Cut

  /** The journal's two digest lines; a torn journal may lack them. */
  datatype Receipt = Receipt(oldHash: Option<Digest>, newHash: Option<Digest>)

  /** The signed metadata and the trust files delivered with a package. */
  datatype Paper = Manifest | Signature | Authority | AuthoritySignature | Transitions | DeliveredHelper

  /** The files that are retained under a generation suffix. */
  datatype Name = Rollback | Failed | Pending | Note(paper: Paper) | Journal | Trust

  /** One retained file, `name.retained-generation`. */
  datatype Entry = Entry(generation: nat, name: Name, content: Content)

  /** The applied-update ledger as recovery reads it: the replaced build and its successor if
      the last line names them and nothing else, and whether the file ends a line. A cut line,
      and two lines run together, name no builds. */
  datatype Ledger = Ledger(last: Option<(Build, Build)>, ended: bool)

  datatype Disk = Disk(
    target: Option<Build>,        // bareline.exe, only ever replaced by renaming a verified file
    backup: Option<Content>,      // bareline.rollback.exe
    failed: Option<Content>,      // bareline.failed.exe
    pending: Option<Content>,     // bareline.pending.exe
    papers: set<Paper>,           // bareline.update.json and the other staged papers
    journal: Option<Receipt>,     // bareline.update-journal
    ledger: Ledger,               // the applied-update ledger
    archive: set<Entry>)                    // *.retained-<generation>

  datatype Action = Apply | Recover | AutoRecover | Acknowledge

  /** What one run learns from outside: the clock at the two times it may archive evidence, and
      the retained files in the order in which a directory listing offers them for deletion. A
      file that cannot be deleted now is simply not in the listing. */
  datatype Outside = Outside(first: nat, second: nat, listing: seq<Entry>)

  /** The disk after the first `steps` of the given successive states. */
  function After(d: Disk, states: seq<Disk>, steps: nat): Disk {
    if steps == 0 || states == [] then d
    else if steps <= |states| then states[steps - 1]
    else states[|states| - 1]
  }

  lemma AfterConcat(d: Disk, first: seq<Disk>, second: seq<Disk>, steps: nat)
    ensures After(d, first + second, steps) ==
      if steps <= |first| then After(d, first, steps)
      else After(After(d, first, |first|), second, steps - |first|)
  {
  }

  /** The durable states a run goes through after `start`; `ok` when its last step ends it
      successfully rather than with an error. */
  datatype Trail = Trail(start: Disk, states: seq<Disk>, ok: bool) {
    /** Where a run that takes at most `steps` steps leaves the disk. */
    function At(steps: nat): Disk { After(start, states, steps) }

    /** Where an uninterrupted run leaves the disk. */
    function End(): Disk { At(|states|) }

    /** The result of a run that takes at most `steps` steps. */
    predicate Succeeds(steps: nat) { ok && steps >= |states| }
  }

  predicate Matches(content: Option<Content>, digest: Digest) {
    content.Some? && content.value.Whole? && Of(content.value.build) == digest
  }

  // ----- retaining evidence

  /** Number of files that are retained in one go. */
  const FILES := 10

  /** Place of a file in the order of retention; the apply journal comes last. */
  function Order(name: Name): nat {
    match name
    case Rollback => 0
    case Failed => 1
    case Pending => 2
    case Note(Manifest) => 3
    case Note(Signature) => 4
    case Note(Authority) => 5
    case Note(AuthoritySignature) => 6
    case Note(Transitions) => 7
    case Note(DeliveredHelper) => 8
    case Journal => 9
    case Trust => FILES
  }

  function Moved(file: Option<Content>, name: Name, k: nat, generation: nat): set<Entry> {
    if file.Some? && Order(name) < k then {Entry(generation, name, file.value)} else {}
  }

  function MovedPapers(papers: set<Paper>, k: nat, generation: nat): set<Entry> {
    set p | p in papers && Order(Note(p)) < k :: Entry(generation, Note(p), Text)
  }

  function StillThere(papers: set<Paper>, k: nat): set<Paper> { set p | p in papers && Order(Note(p)) >= k }

  function Left<T>(file: Option<T>, name: Name, k: nat): Option<T> {
    if Order(name) < k then None else file
  }

  /** `retain_update_evidence` after the first `k` names: each of those files that was there
      has taken its retained name, under one generation. */
  function Cleared(d: Disk, k: nat, generation: nat): Disk {
    d.(backup := Left(d.backup, Rollback, k), failed := Left(d.failed, Failed, k), pending := Left(d.pending, Pending, k),
       papers := StillThere(d.papers, k),
       journal := Left(d.journal, Journal, k),
       archive := d.archive + Moved(d.backup, Rollback, k, generation) + Moved(d.failed, Failed, k, generation)
                  + Moved(d.pending, Pending, k, generation) + MovedPapers(d.papers, k, generation)
                  + Moved(if d.journal.Some? then Some(Text) else None, Journal, k, generation))
  }

  /** The ten renames of `retain_update_evidence`, one state after each; nothing happens for a
      file that is absent. */
  function Retained(d: Disk, generation: nat): seq<Disk> {
    seq(FILES, i requires 0 <= i < FILES => Cleared(d, i + 1, generation))
  }

  lemma RetainedAt(d: Disk, generation: nat, steps: nat)
    ensures |Retained(d, generation)| == FILES && Cleared(d, 0, generation) == d
    ensures After(d, Retained(d, generation), steps) == Cleared(d, if steps <= FILES then steps else FILES, generation)
  {
  }

  // ----- pruning retained evidence

  /** At least two generations are newer than this one. */
  predicate Outdated(archive: set<Entry>, generation: nat) {
    exists x, y :: x in archive && y in archive && generation < x.generation < y.generation
  }

  function Swept(archive: set<Entry>, listing: seq<Entry>, i: nat): set<Entry>
    requires i <= |listing|
  {
    set e | e in listing[..i] && Outdated(archive, e.generation)
  }

  /** `prune_retained_evidence` after the first `i` files of the listing: of those, the ones of
      neither of the two newest generations are gone. */
  function Pruned(d: Disk, listing: seq<Entry>, i: nat): Disk
    requires i <= |listing|
  {
    d.(archive := d.archive - Swept(d.archive, listing, i))
  }

  function PruneStates(d: Disk, listing: seq<Entry>): seq<Disk> {
    seq(|listing|, i requires 0 <= i < |listing| => Pruned(d, listing, i + 1))
  }

  // ----- replacing the executable

  /** Where the verified replacement handle comes from. */
  datatype Staged = FromPending | FromBackup | FromArchive(entry: Entry)

  /** The file at `staged`, when it is a whole build. */
  function StagedBuild(d: Disk, staged: Staged): Option<Build> {
    match staged
    case FromPending => if d.pending.Some? && d.pending.value.Whole? then Some(d.pending.value.build) else None
    case FromBackup => if d.backup.Some? && d.backup.value.Whole? then Some(d.backup.value.build) else None
    case FromArchive(e) => if e in d.archive && e.content.Whole? then Some(e.content.build) else None
  }

  /** The atomic rename of a verified handle onto the target. */
  function Swapped(d: Disk, staged: Staged): Disk {
    var after := d.(target := StagedBuild(d, staged));
    match staged
    case FromPending => after.(pending := None)
    case FromBackup => after.(backup := None)
    case FromArchive(e) => after.(archive := d.archive - {e})
  }

  /** `replace_with_rollback` keeps a copy under one of these names. */
  datatype Slot = ToRollback | ToFailed

  /** The copy of the current target that `replace_with_rollback` keeps first. */
  function Kept(d: Disk, slot: Slot, copy: Content): Disk {
    match slot
    case ToRollback => d.(backup := Some(copy))
    case ToFailed => d.(failed := Some(copy))
  }

  /** `replace_with_rollback` into an unused slot: create the copy, complete it, swap. */
  function Replaced(d: Disk, slot: Slot, staged: Staged): seq<Disk>
    requires d.target.Some?
  {
    var d1 := Kept(d, slot, Torn);
    var d2 := Kept(d, slot, Whole(d.target.value));
    [d1, d2, Swapped(d2, staged)]
  }

  /** Rolling back to a staged earlier build: swap it in, then archive the evidence. */
  function RolledBack(d: Disk, staged: Staged, generation: nat): seq<Disk>
    requires d.target.Some?
  {
    var replaced := Replaced(d, ToFailed, staged);
    replaced + Retained(replaced[2], generation)
  }

  // ----- the build a ledger entry names

  predicate IsCopy(e: Entry, b: Build) { e.name == Rollback && e.content == Whole(b) }

  /** A retained rollback copy of the build. */
  predicate HasCopy(archive: set<Entry>, b: Build) { exists e :: e in archive && IsCopy(e, b) }

  predicate IsNewest(archive: set<Entry>, b: Build, e: Entry) {
    e in archive && IsCopy(e, b) && forall x :: x in archive && IsCopy(x, b) ==> x.generation <= e.generation
  }

  lemma {:induction false} NewestExists(archive: set<Entry>, b: Build)
    requires HasCopy(archive, b)
    ensures exists e :: IsNewest(archive, b, e)
    decreases archive
  {
    var e :| e in archive && IsCopy(e, b);
    var rest := archive - {e};
    if HasCopy(rest, b) {
      NewestExists(rest, b);
      var x :| IsNewest(rest, b, x);
      assert IsNewest(archive, b, if x.generation >= e.generation then x else e);
    } else {
      assert IsNewest(archive, b, e);
    }
  }

  /** `recovery_source` looks through the retained rollback copies, newest generation first. */
  function Newest(archive: set<Entry>, b: Build): (r: Option<Entry>)
    ensures r.Some? <==> HasCopy(archive, b)
    ensures r.Some? ==> IsNewest(archive, b, r.value)
  {
    if HasCopy(archive, b) then
      NewestExists(archive, b);
      var e :| e in archive && IsNewest(archive, b, e);
      Some(e)
    else None
  }

  // ----- runs

  function Stop(d: Disk): Trail { Trail(d, [], false) }

  /** A journal is present: apply, recover and automatic recovery reconcile it. */
  function ReconcileTrail(action: Action, trusted: set<Build>, generation: nat, d: Disk, receipt: Receipt): Trail
  {
    if receipt.oldHash.None? || receipt.newHash.None? then Stop(d)
    else
      var oldHash, newHash := receipt.oldHash.value, receipt.newHash.value;
      match d.target
      case Some(current) =>
        if Of(current) != oldHash && Of(current) != newHash then Stop(d)
        else if current !in trusted then Stop(d)
        else if Of(current) == newHash then
          if action == Apply then Trail(d, [], true)
          else if !Matches(d.backup, oldHash) || d.backup.value.build !in trusted || d.failed.Some? then Stop(d)
          else Trail(d, RolledBack(d, FromBackup, generation), true)
        else Trail(d, Retained(d, generation), true)
      case None =>
        if !Matches(d.backup, oldHash) || d.backup.value.build !in trusted then Stop(d)
        else
          var restored := Swapped(d, FromBackup);
          Trail(d, [restored] + Retained(restored, generation), true)
  }

  /** The journal's text reaches the disk in order: empty, cut inside the old digest, the old
      line, cut inside the new digest, both lines. */
  function JournalWritten(d: Disk, oldBuild: Build, newBuild: Build): seq<Disk> {
    [d.(journal := Some(Receipt(None, None))),
     d.(journal := Some(Receipt(Some(Cut), None))),
     d.(journal := Some(Receipt(Some(Of(oldBuild)), None))),
     d.(journal := Some(Receipt(Some(Of(oldBuild)), Some(Cut)))),
     d.(journal := Some(Receipt(Some(Of(oldBuild)), Some(Of(newBuild)))))]
  }

  /** `append_ledger` does not look how the file ends: the line may be cut, then lacks its
      terminator, and on an unended line it names nothing. */
  function Appended(d: Disk, oldBuild: Build, newBuild: Build): seq<Disk> {
    var entry := if d.ledger.ended then Some((oldBuild, newBuild)) else None;
    [d.(ledger := Ledger(None, false)), d.(ledger := Ledger(entry, false)), d.(ledger := Ledger(entry, true))]
  }

  /** The disk of an apply once journal and ledger are written. */
  function Recorded(d: Disk, oldBuild: Build, newBuild: Build): Disk {
    Appended(JournalWritten(d, oldBuild, newBuild)[4], oldBuild, newBuild)[2]
  }

  function ApplyTrail(trusted: set<Build>, d: Disk): Trail
  {
    if d.target.None? || StagedBuild(d, FromPending).None? || d.pending.value.build !in trusted then Stop(d)
    else
      var oldBuild, newBuild := d.target.value, d.pending.value.build;
      var written := JournalWritten(d, oldBuild, newBuild);
      var recorded := written + Appended(written[4], oldBuild, newBuild);
      if d.backup.Some? then Trail(d, recorded, false)
      else Trail(d, recorded + Replaced(Recorded(d, oldBuild, newBuild), ToRollback, FromPending), true)
  }

  /** The retained build that the ledger's last entry names, while its update runs. */
  function Previous(d: Disk): Option<Entry> {
    if d.ledger.last.Some? && d.target == Some(d.ledger.last.value.1) then Newest(d.archive, d.ledger.last.value.0) else None
  }

  function RestoreAppliedTrail(trusted: set<Build>, generation: nat, d: Disk): Trail {
    var previous := Previous(d);
    if previous.None? || previous.value.content.build !in trusted then Stop(d)
    else Trail(d, RolledBack(d, FromArchive(previous.value), generation), true)
  }

  /** Recovery without a journal archives a leftover failed copy, then undoes the last
      applied update. */
  function UndoAppliedTrail(trusted: set<Build>, o: Outside, d: Disk): Trail {
    if d.failed.None? then RestoreAppliedTrail(trusted, o.second, d)
    else
      var rest := RestoreAppliedTrail(trusted, o.second, Cleared(d, FILES, o.first));
      Trail(d, Retained(d, o.first) + rest.states, rest.ok)
  }

  predicate Acknowledges(trusted: set<Build>, d: Disk) {
    && d.journal.Some? && d.journal.value.newHash.Some? && d.target.Some?
    && Of(d.target.value) == d.journal.value.newHash.value && d.target.value in trusted
  }

  /** A healthy start archives the evidence and then prunes old generations. */
  function AcknowledgeTrail(trusted: set<Build>, o: Outside, d: Disk): Trail
  {
    if d.journal.None? then Trail(d, [], true)
    else if !Acknowledges(trusted, d) then Stop(d)
    else Trail(d, Retained(d, o.first) + PruneStates(Cleared(d, FILES, o.first), o.listing), true)
  }

  function RunTrail(action: Action, trusted: set<Build>, o: Outside, d: Disk): Trail
  {
    if action == Acknowledge then AcknowledgeTrail(trusted, o, d)
    else if d.journal.Some? then ReconcileTrail(action, trusted, o.first, d, d.journal.value)
    else match action
      case Recover => UndoAppliedTrail(trusted, o, d)
      case Apply => ApplyTrail(trusted, d)
      case _ => Stop(d)
  }
}
