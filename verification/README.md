# Verified models of BareLine

This project models the parts of BareLine with the most state and the strongest promises, and
proves what they keep over every run. Each model follows the code branch by branch; where the
code works in place, a class or a method with a loop does so too and is proved equal to a
specification, and the theorems are about that specification. Nothing here runs the program.

`dafny verify dfyconfig.toml` checks everything.

## What is modelled

**Swapping the executable** (`UpdateHelper`, `UpdateSafety`, `UpdateRecovery`, `UpdateLedger`,
`UpdateOutcomes`, `InstallationObject`). `Installation` is the installation directory with its executables, staged
papers, journal, ledger and retained files, each under its generation. Every durable step of apply,
recover, automatic recovery and acknowledge, pruning included, is one state of a `Trail`, so a stop
"anywhere" is an arbitrary prefix. The receipt takes five steps and the ledger line three: part of the
line, the whole line, its terminator. `replace_with_rollback` copies the running build first and
renames the verified replacement over it, so the target is never absent; the missing-target branch of
the helper is kept and characterised, but only an outside hand can reach it. Builds stand for their
SHA-256 digests, and `trusted` is the set that Authenticode accepts. `UpdateOutcomes` says file by file what every action
ends with: what stays, what goes to the archive under which name, and what is deleted. What came out:

- A run, stopped anywhere, removes the last complete copy of a build if and only if it is an
  acknowledgement that prunes it: the build does not run, and all its copies are retained files of
  neither of the two newest generations (`LostExactlyWhenSwept`, `HistoryLosesOnlySwept`).
- While a complete receipt exists the target holds the old or the new build, and the old one stays
  in the backup slot or the archive (`HistoryIsSafe`).
- That an acknowledged update can be undone is not true of the code in two ways. The ledger append
  never looks how the file ended, so an apply that stops inside it makes the next line unreadable:
  an update applied and acknowledged without a stop can be undone if and only if the ledger ended its
  last line when that apply began and the rollback copy is in one of the two newest generations
  (`AcknowledgedUndoes`), and over every history the first half fails exactly when an earlier apply
  stopped inside its append and none has ended the line since (`UnendedExactlyWhenTorn`,
  `UndoneUnlessTorn`, with a run in `TornLineLosesUndo`). And an acknowledgement that is stopped
  spreads one update's evidence over generations: over any stops the copy survives exactly when
  nothing was archived between the stop that archived it and the run that finished
  (`CopySurvivesStops`, with a run in `ThirdAcknowledgementLosesCopy`).
- That recovery always finishes is not true of the code. A failed copy in the way of the swap makes
  every attempt fail; one more run ends with the old build exactly when the installation is not
  jammed in this way (`RecoveryFinishes`, `JamIsFinal`; over every history, `JamIsForGood`). Two
  routes lead there: a recovery that stops after it created the failed copy and before the swap
  (`RecoveryCanJam`, `RetriesJamExactly`), and an apply that swaps over a failed copy which an earlier
  recovery left behind (`StoppedApplyRecovers`).
- A receipt cut before its second digest line blocks every action, over every history
  (`TornReceiptIsForGood`).
- Without a journal, a recovery replaces the running build exactly when the ledger's last entry names
  it as replaced by what runs now and a trusted retained copy is in reach (`RecoverWithoutJournal`),
  so a second `--recover` can undo an earlier update as well (`SecondRecoveryGoesFurther`).

**Closing and leaving** (`CloseProtocol`, `CloseSafety`, `CloseRuns`, `CloseOutcomes`, `ExitDiscard`,
`ShellMethods`).
The state holds the editors with owner, revision, content, what was last saved and the read-only flag,
the pending close, the session save under way, the accepted reloads and the set of document revisions
for which Don't Save was answered. One event is one drain of the pending close with arbitrary outside
answers, an edit, a save, a new tab, a permutation of the tabs, a worker outcome, a new request, an
accepted reload or Interpret As, its landing (a new owner in the tab, with the flag copied or not),
its failure, or the end of the session save. Prompts, the launch hand-off and the Replace in Files
gate are answers in `Outside`. `CloseOutcomes` states on the editors and `Outside` exactly when a
close takes its tab away, which tab follows, what waits otherwise, and when the program leaves. What
came out besides:

- An exit rests on the request it serves: waiting consents were captured by a Don't Save answer to
  this very request, never by one that was cancelled since. The usual exit goes through the session
  save, and then happens only with exactly the documents that a granted drain saw
  (`ExitOnlyWithConsent`). After Save All only dirty documents are looked for, so a document with an
  edit in flight does not stop the exit.
- A dirty document leaves only by a discard that was answered for its revision and kept since, or by
  a reload accepted at its revision (`NoSilentLoss`). A reload is confirmed only if the document is
  dirty when it is asked for: one accepted while the document is clean, with a background save of an
  older content finishing meanwhile, replaces a dirty document silently (`SaveMakesReloadSilent`).
- A granted exit that is then refused by the gate, a launch or a failed session leaves the consented
  documents read-only, whether the grant was polled or given with the answer
  (`RefusedExitStaysFrozen`, `RefusedAnswerStaysFrozen`). Where the session save takes over, the exit
  may still complete there.
- A tab whose document is replaced while a discard waits has a new owner, which the waiting consent
  no longer finds. When the discard is then cancelled, the tab's flag is as before exactly when its
  document was not replaced or the replacement's own flag happens to be the old one
  (`CancelledDiscardFlags`); the reload copies the freeze, so a writable document comes back read-only
  with nothing waiting that could restore it (`ReloadedTabStaysReadOnly`). The outcomes in
  `ExitDiscardSettles` speak of the documents still open. A document close whose target was replaced
  is dropped and its freeze kept in the same way.
- Another application close that is queued while a discard waits drops the waiting consents. Any
  answer but Don't Save, Cancel included, leaves every frozen document read-only and its recovery
  retiring; Don't Save captures the temporary freeze as if it were the user's own flag. Exactly when
  the documents are given back all the same is `RequeuedExitGivesBack`; a document that was writable
  and is still frozen never is (`RequeuedExitForgets`, with a run in `RequeuedExitForgetsFlag`).
- A document discard that meets a busy document drops the request and keeps the freeze
  (`DocumentDiscardOutcome`).

**Comparison** (`Comparison`, `ControlSafety`, `CompareController`). The controller with its bounded
worker, whose steps (taking, finishing, dying) interleave with the calls in any order.

**The difference engine** (`TextLines`, `Myers`, `Anchors`, `Alignment`, `Diff`, `Windows`). From the
chunks of two documents to the hunks: the pass that splits lines across chunk ends, the patience piles
that choose the anchors, the bounded Myers search with its trace in place on one array, the trimmed
gaps, and the hunk loop. The alignment of a gap is a longest one, the anchors are a longest ascending
choice of the lines that both sides have exactly once, and without a coarse gap the whole alignment is
a longest one through the anchors (`Align`, `FindAnchors`, `Anchored`). A comparison that meets no
limit of the whole text answers with exactly the gaps of that alignment, and so does every window
(`Compare`, `CompareBatches`). Whatever limit is met and where,
the hunks are an edit script from left to right, which is what the
theorems about copying hunks start from. What the compare options make of a line is any function.

**UTF-8, paging, edits and hunks** (`Utf8`, `Paging`, `EditScripts`, `HunkScripts`, `Merge`). One
theory of well-formed UTF-8 (section 4 of RFC 3629) and its boundaries serves the page resolver, the
windowed copy, the broker's reads and the edit checks. One theory of edit scripts serves the journal
replay, the difference engine's hunks and the broker's transactions. The page resolver slices out of
range for a page that starts one to three bytes behind the end; `Resolve` says exactly when. Tickets
come from `MemorySource::read`, which refuses ranges that end behind the source, so no such page is
asked for.

**The extension broker** (`Session`, `Broker`, `BrokerSafety`, `BrokerOutcomes`,
`InvocationObject`). Grants, pending
and staged transactions, requests and the final outcome of the child process; exactly which requests
are served, and that a finished invocation holds the last proposal acknowledged and not withdrawn. A paged invocation is
read-only provided the session it is given has nothing staged; `PagedProposal` says exactly when it
is not.

**Records, streams and images** (`Crc32c`, `CrcDivision`, `JournalFrames`, `Journal`, `LittleEndian`, `Framing`,
`SignedImage`). CRC32C as bit-vector arithmetic over records of any length and as the division of polynomials that
section 12.1 of RFC 3720 prescribes, the recovery journal's frames and scan, the byte stream behind the source digest in both its
producers, and the chunked comparison of a signed image.

**Text forms** (`LineEndings`, `WordTable`). Conversion of line endings against lines and positions,
and the merged table of word characters. `Wrappers`, `Slices` and `BitNumbers` are small helpers.

## Model

| member | source | states |
|---|---|---|
| InstallationObject.Installation.ReplaceWithRollback | crates/platform-windows/src/update.rs:387-408 | Stopped after any number of steps, the copy-then-rename leaves exactly the corresponding state of `Replaced`: the target is old or new, never absent |
| InstallationObject.Installation.RetainEvidence | crates/platform-windows/src/update/lifecycle.rs:29-40 | Backup, failed and pending files are archived in that order and the journal last, stopped anywhere |
| InstallationObject.Installation.Reconcile | apps/update-helper/src/main.rs:181-234 | With a journal, the run leaves exactly the state of the reconciliation trail at its stopping point, whose end is given file by file for every action and target |
| InstallationObject.Installation.ApplyStaged | apps/update-helper/src/main.rs:288-330 | Receipt line by line, ledger line in parts, backup copy and swap in order, stopped anywhere |
| InstallationObject.Installation.AppendLedger | crates/platform-windows/src/update/lifecycle.rs:137-149 | Stopped after any number of steps: part of the line, the whole line, the terminator; the entry is readable only if the file ended a line before |
| InstallationObject.Installation.UndoApplied | apps/update-helper/src/main.rs:238-264 | Recovery without a journal: archive a leftover failed copy, then restore the build the ledger names while its update runs |
| InstallationObject.Installation.RestoreApplied | crates/platform-windows/src/update/lifecycle.rs:277-324 | Only the ledger's last replaced build, retained and trusted, is restored, and only while the build that replaced it runs |
| InstallationObject.Installation.PruneEvidence | crates/platform-windows/src/update/lifecycle.rs:336-369 | Stopped after any number of files, exactly the listed files of neither of the two newest generations are gone |
| InstallationObject.Installation.RunAcknowledge | apps/update-helper/src/main.rs:147-178 | A healthy start archives everything, the journal last, and then prunes, stopped anywhere |
| InstallationObject.Installation.Run | apps/update-helper/src/main.rs:147-330 | Every action, stopped after any number of steps, leaves exactly the state of its trail and keeps the installation safe |
| UpdateSafety.LostExactlyWhenSwept | apps/update-helper/src/main.rs:147-330 | From any disk, any action stopped anywhere removes the last complete copy of a build if and only if an acknowledgement prunes it away |
| UpdateSafety.OutdatedIsThirdNewest | crates/platform-windows/src/update/lifecycle.rs:353-359 | A retained file is outdated exactly when at least two generations are newer than its own |
| UpdateSafety.RunIsSafe | apps/update-helper/src/main.rs:147-330 | One run of any action, stopped anywhere, keeps the target present and trusted and the receipt truthful |
| UpdateSafety.HistoryIsSafe | apps/update-helper/src/main.rs:147-330 | Over every history of stopped runs and package transfers: while a complete receipt (old, new) exists the target is old, or new with old in the backup slot or the archive |
| UpdateSafety.HistoryLosesOnlySwept | apps/update-helper/src/main.rs:147-330 | Over every history of stopped runs, transfers, trust installations and discards, a build once complete on the disk is ever gone if and only if an acknowledgement pruned its last copy |
| UpdateSafety.ApplySucceeds | apps/update-helper/src/main.rs:302-330 | In every reachable state without a journal, a verified staged package is applied by an uninterrupted run |
| UpdateOutcomes.OldBuildIsArchived | apps/update-helper/src/main.rs:192-220 | With a readable journal and the trusted old build running, every action but acknowledgement ends well with journal, backup, failed and pending files and papers gone, each in the archive under the run's generation, nothing else there changed |
| UpdateOutcomes.NewBuildIsKeptOrRolledBack | apps/update-helper/src/main.rs:192-214 | With the new build running, an apply leaves everything and ends well; a recovery brings the old build back and archives the rest exactly when its trusted backup is there and the failed slot is empty, and otherwise leaves everything |
| UpdateOutcomes.OtherwiseStops | apps/update-helper/src/main.rs:181-201 | An unreadable digest, a target that is neither build or an untrusted one stops every action with nothing changed |
| UpdateOutcomes.MissingTargetIsArchived | apps/update-helper/src/main.rs:222-231 | Without a target, the old build comes back from its backup and the rest is archived, exactly when it can |
| UpdateOutcomes.ApplyEnds | apps/update-helper/src/main.rs:288-330 | Without a journal, an apply ends with exactly receipt, ledger line, backup and swap, if and only if a trusted build is staged and the backup slot empty; without such a build nothing is written |
| UpdateOutcomes.RecoverEnds | apps/update-helper/src/main.rs:235-264 | A recovery without a journal takes the newest retained copy out of the archive and archives everything else, or ends where archiving a leftover failed copy brought it |
| UpdateOutcomes.HealthyStartEnds | apps/update-helper/src/main.rs:147-178 | An acknowledgement archives every file and deletes exactly the listed entries of neither of the two newest generations; in every other case nothing changes |
| UpdateOutcomes.NextUpdateApplies | apps/update-helper/src/main.rs:181-330 | After an apply stopped from its second digest line to before the swap, one more apply, a transfer and a third apply end with the newly transferred build |
| UpdateOutcomes.StoppedArchiving | crates/platform-windows/src/update/lifecycle.rs:29-40 | Wherever archiving stops, each file is in its place or in the archive, by its rank in the order of retention |
| UpdateOutcomes.StoppedApply | apps/update-helper/src/main.rs:302-330 | Where an apply stopped after any number of steps leaves journal, ledger, backup, target and staged package |
| UpdateOutcomes.StoppedRollback | crates/platform-windows/src/update.rs:387-408 | Where a stopped recovery leaves the failed copy, the target and the backup, and that all is archived at its end |
| UpdateRecovery.RecoveryAdvances | apps/update-helper/src/main.rs:192-221 | A recovery stopped anywhere stays undoable and never moves back a phase over target, backup and journal |
| UpdateRecovery.RecoveryFinishes | apps/update-helper/src/main.rs:192-221 | One uninterrupted recovery ends with the old build and an archived journal if and only if the new build does not run beside an occupied failed slot |
| UpdateRecovery.RecoverySettles | apps/update-helper/src/main.rs:181-234 | From any stopping point of an apply with a complete receipt, after any number of stopped recoveries: the old build is back, or one more run brings it back unless jammed |
| UpdateRecovery.RetriesJamExactly | apps/update-helper/src/main.rs:202-213 | From a state that is not jammed, any recovery attempts end jammed if and only if the first one that took a step stopped between the failed copy and the swap |
| UpdateRecovery.JamIsFinal | apps/update-helper/src/main.rs:198-213 | Once jammed, apply and recovery change nothing at all; acknowledging the new build still clears the receipt |
| UpdateRecovery.JamIsForGood | apps/update-helper/src/main.rs:147-330 | Over every history without an acknowledgement, a jammed installation keeps its target, backup, failed copy, journal and ledger; only packages, papers and what is archived of them change |
| UpdateRecovery.TornReceiptIsForGood | apps/update-helper/src/main.rs:147-234 | Over every history at all, a receipt without a readable second digest keeps everything but staged packages, papers and archived papers as it is |
| UpdateRecovery.RecoveryCanJam | crates/platform-windows/src/update.rs:395-407 | Every applied update can be jammed by a recovery that stops after creating the failed copy |
| UpdateRecovery.StoppedApplyRecovers | apps/update-helper/src/main.rs:308-330 | A stopped apply is undone by one recovery if and only if the second digest line had begun to be written and it did not swap over a failed copy left by an earlier recovery |
| UpdateRecovery.MissingTarget | apps/update-helper/src/main.rs:222-231 | A target that something else removed comes back exactly when the backup is the receipt's trusted old build; otherwise nothing changes |
| UpdateRecovery.RecoverWithoutJournal | apps/update-helper/src/main.rs:238-264 | Without a journal, a recovery changes the target if and only if the last ledger entry names another build as replaced by the running one and a trusted copy of it is retained, or is about to be by archiving a leftover failed copy's evidence |
| UpdateRecovery.SecondRecoveryGoesFurther | apps/update-helper/src/main.rs:235-264 | After an apply that stopped anywhere from its second digest line to before the swap, and a recovery that kept the running build, a further recovery undoes the earlier update too, if and only if the ledger line had not begun and the earlier entry and copy allow it; automatic recovery changes nothing |
| UpdateLedger.RestorableExactlyWhenRecent | apps/update-helper/src/main.rs:168-178 | After any finished acknowledgement, the replaced build can be restored if and only if the ledger's last line is the readable entry of this update and a rollback copy is in one of the two newest generations |
| UpdateLedger.FirstAcknowledgementKeepsCopy | apps/update-helper/src/main.rs:168-178 | An update acknowledged in one go keeps its rollback copy, unless two generations already claim to be newer |
| UpdateLedger.CopySurvivesStops | crates/platform-windows/src/update/lifecycle.rs:336-369 | Over any number of stopped acknowledgements and a finished one, the rollback copy survives if and only if nothing was archived between the stop that archived it and the run that finished |
| UpdateLedger.ThirdAcknowledgementLosesCopy | crates/platform-windows/src/update/lifecycle.rs:336-369 | Two stopped acknowledgements and a third one lose the old build, so no recovery brings it back |
| UpdateLedger.UnendedExactlyWhenTorn | crates/platform-windows/src/update/lifecycle.rs:137-149 | Over every history, the ledger stands inside a line if and only if an apply stopped inside its append and none has ended the line since |
| UpdateLedger.AcknowledgedUndoes | crates/platform-windows/src/update/lifecycle.rs:277-324 | An update applied and acknowledged without a stop can be undone if and only if the ledger had ended its last line before and the copy is recent |
| UpdateLedger.UndoneUnlessTorn | crates/platform-windows/src/update/lifecycle.rs:277-324 | Over every history before such an update, with its copy recent: it can be undone if and only if no earlier apply left the ledger torn |
| UpdateLedger.TornLineLosesUndo | crates/platform-windows/src/update/lifecycle.rs:137-149 | A run in which a stopped append and its recovery make the next, uninterrupted update impossible to undo although its copy is kept |
| ShellMethods.Shell.DrainPendingClose | apps/bareline/src/shell.rs:2266-2307 | In place, one drain leaves exactly the protocol's next state, keeps the invariant and exits only with the served request's consents |
| ShellMethods.Shell.QueueActiveClose | apps/bareline/src/shell.rs:2310-2334 | The queued target carries the active document's owner, revision and read-only flag |
| ShellMethods.Shell.ConfirmCloseDocument | apps/bareline/src/shell.rs:2339-2450 | The prompt's answer sets the target and the freeze as the protocol says, whose outcome is given for every document and answer |
| ShellMethods.Shell.CloseDocumentWithRenderer | apps/bareline/src/shell.rs:2463-2579 | The whole document close, from finding the owner's tab to the outcome of the discard |
| ShellMethods.Shell.RemoveTab | apps/bareline/src/shell.rs:2526-2542 | The tab goes, the active tab stays or the next or previous one follows, and an emptied strip takes a fresh document when there is one |
| ShellMethods.Shell.ApplicationCloseReady | apps/bareline/src/shell.rs:2588-2606 | Busy services and the gate put the request back or drop it |
| ShellMethods.Shell.RequestClose | apps/bareline/src/shell.rs:2607-2633 | The exit is reached only behind confirmation, launches and session |
| ShellMethods.Shell.ConfirmExitPrompt | apps/bareline/src/shell.rs:2635-2703 | The exit prompt and its three answers |
| ShellMethods.Shell.DiscardForExitIndexes | apps/bareline/src/shell.rs:2704-2727 | Don't Save captures owner, revision and flag of every unsaved document and freezes it |
| ShellMethods.Shell.DiscardForExitIdentities | apps/bareline/src/shell.rs:2728-2790 | One poll of the discard: granted, waiting or cancelled |
| ShellMethods.Shell.ExitDiscardStillCurrent | apps/bareline/src/shell.rs:2791-2801 | True exactly when every unsaved document is consented at its present revision |
| ShellMethods.Shell.CancelExitDiscard | apps/bareline/src/shell.rs:2802-2814 | In place, every open consented document gets its flag and recovery back |
| ShellMethods.Shell.SessionHolds | apps/bareline/src/shell/session.rs:708-755 | The session save takes over the exit with a capture of the documents, or has failed and lets it pass |
| ShellMethods.Shell.CompleteSessionSave | apps/bareline/src/shell/session.rs:350-388 | The end of the save exits only when no document changed, nothing is busy and no launch waits |
| ShellMethods.Shell.CaptureConsents | apps/bareline/src/shell.rs:2704-2727 | In place, the consents of every unsaved document and its freeze |
| ShellMethods.Shell.RequestReload | crates/app/src/workspace.rs:2709-2756 | A reload is accepted for an idle document, confirmed when dirty |
| ShellMethods.Shell.CompleteReload | crates/app/src/workspace/pump_reload.rs:21-169 | Its landing puts a new owner into the tab, clean and with the flag copied, unless the guard keeps the document |
| CloseRuns.ExitOnlyWithConsent | apps/bareline/src/shell.rs:2588-2703 | Over every interleaving, the exit is reached by a drain whose request stands behind it (each unsaved document has a waiting consent at its present revision, captured by a Don't Save answer since which nothing replaced it, or one captured by this answer; after Save All no document is dirty), or by the session save with nothing busy and exactly the documents an earlier granted drain saw |
| CloseRuns.NoSilentLoss | apps/bareline/src/shell.rs:2415-2579 | Over every interleaving, a dirty document leaves only by a document close with a Don't Save answer for exactly its revision, given in this drain or kept waiting ever since, or by a reload accepted at its revision, confirmed if it was dirty then |
| CloseRuns.SaveMakesReloadSilent | crates/app/src/workspace.rs:2709-2756 | A run in which a reload accepted while the document is clean replaces a dirty one without any answer |
| CloseSafety.DocumentDrain | apps/bareline/src/shell.rs:2463-2579 | A document close leaves every editor but the captured owner's exactly as it was, and removes that one only idle, at the captured revision, and clean or discarded; the active index stays in range and on its editor |
| CloseOutcomes.DocumentCloses | apps/bareline/src/shell.rs:2339-2579 | A drained document close takes its tab away if and only if the document is idle at the captured revision and clean after its save, or discarded and retired, or still the one meant and clean or declined and retired; otherwise every tab stays. Which tab follows, and when the strip is empty |
| CloseOutcomes.AskedCloses | apps/bareline/src/shell.rs:2339-2450 | What a close that asks about the document leaves behind under every answer: the document's flags, the recorded answer and the request that waits, a queued save included |
| CloseOutcomes.SavedCloses | apps/bareline/src/shell.rs:2493-2507 | A close after a queued save waits while the document is busy, goes when it stayed dirty, and takes the tab when it is clean |
| CloseOutcomes.DiscardedCloses | apps/bareline/src/shell.rs:2508-2569 | A discarding close takes the tab when recovery is retired, waits while it is pending, gives the flag back when it failed, and is dropped by a busy document |
| CloseOutcomes.UnreachedCloses | apps/bareline/src/shell.rs:2266-2307 | A drain that does not reach the document changes nothing while the user interacts and otherwise drops the request and thaws a changed document |
| CloseOutcomes.CleanTabCloses | apps/bareline/src/shell.rs:2310-2352 | The request to close a clean idle tab and one drain take it away |
| CloseOutcomes.RequestsRemember | apps/bareline/src/shell.rs:2310-2334 | What a request to close the active tab, or a placeholder, remembers of the document, and that none is queued behind another |
| CloseOutcomes.TabComesAndGoes | apps/bareline/src/shell.rs:2310-2579 | A fresh tab opened, shown, closed and drained leaves every other tab as it was |
| CloseOutcomes.ApplicationLeaves | apps/bareline/src/shell.rs:2588-2703 | A drained application close leaves the program if and only if nothing is busy, everything is saved or declined and retired, and neither session nor launch holds it; what waits otherwise and what the session comes to |
| CloseOutcomes.SavedAllLeaves | apps/bareline/src/shell.rs:2284-2303 | The same after Save All, where only dirty documents count |
| CloseOutcomes.PollGrants | apps/bareline/src/shell.rs:2728-2801 | One poll of a waiting discard grants, waits or ends exactly under these conditions on the consented documents |
| CloseOutcomes.WrittenLeaves | apps/bareline/src/shell/session.rs:350-388 | An exit that waited for the session goes on exactly with every document as captured, nothing busy and no launch waiting |
| CloseOutcomes.ReloadReplaces | crates/app/src/workspace.rs:2709-2803 | A reload of an idle document, confirmed and retired when dirty, puts a clean document with a new owner into the same tab; a busy or unconfirmed dirty one is never accepted |
| CloseOutcomes.ReloadWaitsOrEnds | crates/app/src/workspace.rs:2765-2803 | A reload of a dirty document waits for its recovery to be retired and is given up, with the recovery resumed, when that fails |
| CloseRuns.RunKeepsInv | apps/bareline/src/shell.rs:2266-2307 | Distinct owners, a valid active index and recorded consents hold over every run |
| CloseSafety.DrainKeepsInv | apps/bareline/src/shell.rs:2266-2307 | One drain keeps the invariant and forgets no recorded answer |
| CloseSafety.DrainRecordsUnsaved | apps/bareline/src/shell.rs:2415-2450 | Whatever one drain records as answered is the identity of a document that was open and unsaved under a Don't Save answer |
| CloseSafety.DiscardForExitOutcome | apps/bareline/src/shell.rs:2728-2790 | A poll grants only when every unsaved editor is consented; otherwise it waits with the same consents or cancels |
| ExitDiscard.CancelGivesBack | apps/bareline/src/shell.rs:2802-2814 | After cancelling, every open consented editor has its captured flag and resumed recovery |
| ExitDiscard.ConsentsCapture | apps/bareline/src/shell.rs:2704-2727 | The consents name each unsaved editor once with its revision and flag, and nobody else |
| ExitDiscard.DiscardingDrainOutcome | apps/bareline/src/shell.rs:2288-2304 | One drain of a waiting exit discard cancels with flags given back, waits unchanged, or is granted to a fully consented window |
| ExitDiscard.ExitDiscardSettles | apps/bareline/src/shell.rs:2704-2814 | From the Don't Save answer through any interleaving that queues no other application close: granted, still waiting with the captured consents, or every document still open with its flag as before |
| ExitDiscard.CancelledDiscardFlags | apps/bareline/src/shell.rs:2802-2814 | Through any interleaving and a cancelling drain, each frozen tab, followed through its replacements, has the flag from before if and only if its document was not replaced or the replacement's flag equals it |
| ExitDiscard.ReloadedTabStaysReadOnly | crates/app/src/workspace/pump_reload.rs:21-169 | A run in which a document reloaded during a waiting discard stays read-only with nothing pending |
| ExitDiscard.RefusedExitStaysFrozen | apps/bareline/src/shell.rs:2607-2633 | Exactly when a granted exit goes through; a refused one changes no read-only flag, so the freeze stays |
| ExitDiscard.RefusedAnswerStaysFrozen | apps/bareline/src/shell.rs:2607-2633 | The same for a grant given with the Don't Save answer itself: session and launches decide, the request is gone, and every unsaved document stays frozen |
| ExitDiscard.CaptureResult | apps/bareline/src/shell.rs:2704-2790 | What a Don't Save answer makes of every editor and of the request, by whether some unsaved document's recovery fails or waits |
| ExitDiscard.RequeuedExitGivesBack | apps/bareline/src/shell.rs:2259-2307 | From every waiting discard, after another application close and one drain: the waiting consents are given back if and only if each consented editor, as the second capture found it, allows it under the answer given |
| ExitDiscard.RequeuedCancelStaysFrozen | apps/bareline/src/shell.rs:2259-2307 | Any answer but Don't Save leaves every editor as it is and nothing waiting that could give it back |
| ExitDiscard.RequeuedExitForgets | apps/bareline/src/shell.rs:2259-2307 | Whatever is answered, a frozen document stays read-only, and no consent that waits afterwards says it was writable |
| ExitDiscard.RequeuedExitForgetsFlag | apps/bareline/src/shell.rs:2259-2307 | A run in which that loses a document's writable flag under every second answer |
| CloseSafety.DocumentDiscardOutcome | apps/bareline/src/shell.rs:2463-2569 | A drained document discard ends with the tab gone, waiting, or given back; with a busy document nothing changes and the freeze stays |
| CompareObject.CompareController.StartInputs | crates/app/src/compare.rs:241-289 | In place, starting leaves exactly the specified state and error |
| CompareObject.CompareController.PollInputs | crates/app/src/compare.rs:322-341 | In place, polling leaves exactly the specified state, which accepts every answer that arrived for current inputs |
| CompareObject.CompareController.AcceptInputs | crates/app/src/compare.rs:357-393 | The current hunk is the remembered one, else the first |
| CompareObject.CompareController.VisibleInputHunks | crates/app/src/compare.rs:400-409 | Hunks for current snapshots only, otherwise none and a stale state |
| CompareObject.CompareController.NavigateHunks | crates/app/src/compare.rs:413-425 | Next or previous hunk, wrapping |
| CompareObject.CompareController.NavigateOffset | crates/app/src/compare.rs:426-441 | The first of the hunks nearest to an offset becomes current |
| CompareObject.CompareController.Counter | crates/app/src/compare.rs:442-446 | The position is zero exactly when there are no hunks, and never above the total |
| CompareObject.CompareController.MergeCurrent | crates/app/src/compare.rs:456-480 | In place, merging leaves exactly the specified state and outcome |
| ControlSafety.StepsKeepInv | crates/app/src/compare.rs:141-480 | The controller's invariant holds after every sequence of calls and worker steps |
| ControlSafety.StatusIsExact | crates/app/src/compare.rs:212-446 | After any history: pending exactly while running, result and snapshots exactly when exact or coarse, current index in range |
| ControlSafety.VisibleIsCurrent | crates/app/src/compare.rs:400-409 | After any history, visible hunks were computed by the worker under the options in force for inputs still current with the caller's |
| ControlSafety.PollAcceptsOwnRequest | crates/app/src/compare.rs:322-341 | A late response to a superseded request is never accepted |
| ControlSafety.PollAnswers | crates/app/src/compare.rs:322-393 | After any history, one poll of a pending comparison: stale for changed inputs, otherwise exactly the answer that arrived, shown with the captured inputs and the remembered or first hunk when exact or coarse; without an answer nothing while the worker lives, and a failure only when it does not |
| ControlSafety.StartAnswers | crates/app/src/compare.rs:241-289 | After any history, exactly when a start is refused and why, and what it queues and remembers |
| ControlSafety.ComparisonIsShown | crates/app/src/compare.rs:241-480 | A comparison started after any history, taken, finished and polled shows exactly what the worker found, and its current hunk can be merged |
| ControlSafety.VisibleExactlyWhileCurrent | crates/app/src/compare.rs:400-409 | After any history, the hunks of the result are visible exactly while its inputs are current |
| ControlSafety.CancelAndInvalidate | crates/app/src/compare.rs:290-320 | Cancelling ends a running comparison and keeps a shown one; invalidating and new options drop both |
| ControlSafety.MergeOnce | crates/app/src/compare.rs:456-480 | A merge succeeds only on a hunk of the current result, and a second one is stale until another comparison finishes |
| ControlSafety.RememberedHunkReturns | crates/app/src/compare.rs:248-252 | After a restart the hunk with the remembered stable id is current again |
| ControlSafety.NavigateInverse | crates/app/src/compare.rs:413-425 | Forward and back returns to the same state |
| ControlSafety.ForwardVisits | crates/app/src/compare.rs:413-425 | Going forward visits every hunk in order and a full round comes back |
| ControlSafety.DistanceIsNearest | crates/app/src/compare.rs:426-441 | The distance of a hunk is that of the nearest offset it reaches over |
| Utf8.BoundarySplits | crates/document/src/lib.rs:250-252 | The byte test finds exactly the offsets that split a well-formed text into two well-formed texts |
| Utf8.BoundaryNear | crates/app/src/compare.rs:559-590 | A boundary lies at most three bytes below and above every offset |
| Utf8.RangeWellFormed | crates/document/src/lib.rs:253-261 | Boundaries cut well-formed text into well-formed parts |
| Paging.SearchDown | crates/app/src/compare.rs:559-590 | Stops within three bytes at the nearest boundary below, for every page start at most three bytes behind the end |
| Paging.SearchUp | crates/app/src/compare.rs:559-590 | Stops within three bytes at the nearest boundary above |
| Paging.Resolve | crates/app/src/compare.rs:559-590 | Publishes exactly the page's bytes for every page inside the document, and says exactly when the slice is out of range |
| Paging.PagesAreText | crates/app/src/compare.rs:559-590 | All pages put together are the document |
| Paging.NextWindow | crates/app/src/compare.rs:862-874 | The longest answered window of those tried, at most three bytes short, and always found when aligned reads succeed |
| Paging.AppendRange | crates/app/src/compare.rs:849-878 | Copies exactly the range in aligned windows of at most 64 KiB that tile it, and never takes its error exit when aligned reads succeed |
| Paging.ReadBytes | crates/app/src/extensions.rs:247-266 | Answers exactly the requested bytes for every range within the limit, wherever it cuts a scalar |
| Paging.Lower | crates/app/src/extensions.rs:256-258 | Widening downwards stops at a boundary within three bytes |
| Paging.Upper | crates/app/src/extensions.rs:259-261 | Widening upwards stops at a boundary within three bytes |
| Paging.AdjacentReadsJoin | crates/app/src/extensions.rs:247-266 | The answers of adjacent reads join to the bytes of the whole range if and only if every single range can be served |
| EditScripts.Apply | fuzz/fuzz_targets/journal_replay.rs:191-206 | The cursor pass accepts exactly the fitting transactions and computes their result |
| EditScripts.ForwardIsBackward | fuzz/fuzz_targets/journal_replay.rs:191-206 | The cursor pass equals replacement in place from the back, several edits at one offset included |
| EditScripts.InverseRestores | fuzz/fuzz_targets/journal_replay.rs:191-206 | The inverse list fits the produced text and restores the original |
| EditScripts.InverseIsInvolution | fuzz/fuzz_targets/journal_replay.rs:191-206 | Inverting twice gives the transaction back |
| EditScripts.ReplayJournal | fuzz/fuzz_targets/journal_replay.rs:171-181 | Replays a run of transactions, accepting exactly those that each fit |
| EditScripts.UndoRestores | fuzz/fuzz_targets/journal_replay.rs:171-181 | Undoing a whole run restores the baseline |
| EditScripts.UndoToPrefix | fuzz/fuzz_targets/journal_replay.rs:171-181 | Undoing the tail of a run brings back exactly the text of the replayed prefix |
| HunkScripts.ReplaceHunks | fuzz/fuzz_targets/diff_script.rs:39-46 | Replacing the hunks of a script from the last to the first turns the left text into the right one |
| HunkScripts.ScriptReplaces | fuzz/fuzz_targets/diff_script.rs:39-46 | Every hunk script, replaced in place, yields the right text |
| HunkScripts.CopyOneHunk | crates/app/src/compare.rs:726-794 | Copying any one hunk leaves a valid script of the remaining, shifted hunks |
| HunkScripts.FlipIsScript | crates/app/src/compare.rs:747-750 | A script read from right to left is a script |
| HunkScripts.CopyAllMakesEqual | crates/app/src/compare.rs:726-794 | Copying every hunk, in any order and either direction, makes the texts equal |
| HunkScripts.ScriptsJoin | crates/diff/src/lib.rs:938-961 | Scripts of consecutive parts, the later one moved, make a script of the whole |
| TextLines.SplitLines | crates/diff/src/lib.rs:247-304 | However the chunks cut the text, a CRLF across two chunks included, the pass finds exactly its lines, and refuses exactly for a line that is too long or too many lines |
| TextLines.PushLine | crates/diff/src/lib.rs:305-332 | One line more, unless the limits refuse it |
| TextLines.LinesEndAtBreaks | crates/diff/src/lib.rs:247-304 | Behind any offset the next line ends with the next break, CR and LF together, or with the text |
| Myers.Search | crates/diff/src/lib.rs:369-402 | The rounds on one array leave a trace of exactly the furthest points, and end in the first round that reaches the end of both sides |
| Myers.WayBack | crates/diff/src/lib.rs:403-435 | The way back through the trace gives an alignment that leaves out exactly as many elements as there were rounds |
| Myers.NoneIsLonger | crates/diff/src/lib.rs:369-435 | No alignment of the two sides leaves out fewer elements than the rounds of the search |
| Myers.FirstDoneIsEnd | crates/diff/src/lib.rs:395-398 | The first point that uses up both sides lies exactly at their ends, although the search may overshoot either |
| Myers.Align | crates/diff/src/lib.rs:369-435 | A longest alignment, exactly when some alignment leaves out fewer elements than the budget has rounds |
| Anchors.Candidates | crates/diff/src/lib.rs:484-507 | Exactly the lines that both sides have once, in order |
| Anchors.Ascend | crates/diff/src/lib.rs:508-529 | The patience piles and their links give a longest ascending chain |
| Anchors.FindAnchors | crates/diff/src/lib.rs:484-530 | The anchors are unique on both sides, ascending, and as many as can be |
| Alignment.AlignGap | crates/diff/src/lib.rs:539-564 | Trimming equal edges loses nothing: the gap is aligned as long as possible, or, exactly when its middle exceeds the rounds, only its edges are paired |
| Alignment.Anchored | crates/diff/src/lib.rs:478-571 | The pairs are those of every gap and the anchors, each gap settled within its own rounds; without a coarse gap no alignment through the anchors is longer; every coarse block starts right behind a pair or at the start; equal sides pair line by line |
| Diff.LineScript | crates/diff/src/lib.rs:671-741 | The gaps between the pairs of any matching are a script of the lines |
| Diff.BytesFollowLines | crates/diff/src/lib.rs:675-686 | Where lines cover both texts and equal lines have equal bytes, the byte ranges of a script of lines are a script of the bytes |
| Diff.HunksOf | crates/diff/src/lib.rs:668-744 | The loop places exactly the gaps, insertions in front of the next line, and flags exactly those that start a coarse block |
| Diff.SameBytes | crates/diff/src/lib.rs:437-470 | The two cursors say whether the texts are equal, however each is cut into chunks |
| Diff.NoHunksExactlyWhenSame | crates/diff/src/lib.rs:668-744 | No hunk is found if and only if the compared lines are the same |
| Diff.HunkedIsUnpaired | crates/diff/src/lib.rs:668-744 | The hunks hold exactly the lines of both sides that no pair holds |
| Diff.Compare | crates/diff/src/lib.rs:635-814 | Exactly the answer of the alignment: nothing for equal texts, the whole texts as one coarse hunk exactly when a limit of the whole is met, and otherwise exactly the unpaired lines between a largest choice of anchors and longest aligned gaps, coarse exactly where a gap exceeds its rounds. Under significant options a script from left to right whatever limit is met; nonempty, ordered and apart under any, unless both texts are empty and time was up at once; empty exactly when the compared lines agree, and exact whenever the limits suffice |
| Windows.Window | crates/diff/src/lib.rs:972-992 | Whole lines, at most the allowed number, within the cap unless a single one is longer, and as many as fit |
| Windows.CompareBatches | crates/diff/src/lib.rs:818-971 | Consecutive windows of both texts, each answered as its comparison alone or as one coarse block when too large or out of time; their hunks together are a script under significant options, and in order under any |
| Merge.PrepareMerge | crates/app/src/compare.rs:726-794 | Stale exactly for other states; a transaction exactly when both ranges are readable within the cap and nothing was cancelled, and then applying it copies the hunk across and keeps well-formed text well formed |
| Merge.MergeLeavesScript | crates/app/src/compare.rs:747-794 | The merged documents are the ones that a script with one hunk fewer relates |
| Merge.MergeStaysWellFormed | crates/app/src/compare.rs:726-794 | For every transaction prepared from two readable ranges the destination stays well formed and its scalars are those outside the hunk plus those copied |
| Session.BeginKeepsBounded | crates/extensions-protocol/src/broker.rs:149-206 | Beginning keeps at most 32 pending transactions and every staged one pending |
| Session.AppendKeepsBounded | crates/extensions-protocol/src/broker.rs:209-232 | Appending keeps all staged bytes within half the memory limit |
| Session.CommitKeepsBounded | crates/extensions-protocol/src/broker.rs:245-266 | An authorised commit takes the transaction out of both tables, whatever becomes of it, and keeps the limits |
| Broker.Validate | crates/app/src/extensions.rs:228-246 | Accepts exactly the short, ascending, in-range edit lists on boundaries |
| Broker.AcceptedApplies | crates/app/src/extensions.rs:228-246 | Accepted edits apply to the whole snapshot in one pass, and the result is well-formed UTF-8 |
| InvocationObject.InvocationBroker.RequestWithText | crates/app/src/extensions.rs:82-205 | In place, every request leaves exactly the specified state and answer, keeps the broker's invariant, and serves an identifier only the first time |
| InvocationObject.InvocationBroker.ReadSource | crates/app/src/extensions.rs:104-118 | A text read answers the snapshot's bytes or the paged reader's, of exactly the asked length |
| InvocationObject.InvocationBroker.ReadRaw | crates/app/src/extensions.rs:120-138 | An original read answers exactly the asked length for the captured generation |
| InvocationObject.InvocationBroker.ProposeBegin | crates/app/src/extensions.rs:139-150 | A transaction begins only for the captured document and only one is accepted |
| InvocationObject.InvocationBroker.ProposeCommit | crates/app/src/extensions.rs:155-166 | Staged edits become the proposal only when the snapshot accepts them |
| InvocationObject.InvocationBroker.ProposeEdits | crates/app/src/extensions.rs:167-184 | Direct edits become the held proposal under the same checks |
| InvocationObject.InvocationBroker.AddPanel | crates/app/src/extensions.rs:185-195 | Declared panels within count and byte limits |
| BrokerSafety.HandleKeepsInv | crates/app/src/extensions.rs:82-205 | Every request keeps the limits, the validity of the proposal and the read-only paged mode |
| BrokerSafety.NoIdServedTwice | crates/app/src/extensions.rs:90-93 | Over any run, two requests with one identifier are never both served |
| BrokerSafety.NothingServedUngranted | crates/extensions-protocol/src/broker.rs:99-148 | Over any run, nothing but a cancellation is served without a grant the session was handed with |
| BrokerSafety.ReadsAreExact | crates/app/src/extensions.rs:96-119 | Over any run, every answered text read of a resident snapshot gives exactly the captured bytes of its range |
| BrokerSafety.PagedProposal | crates/app/src/extensions.rs:155-166 | A paged invocation gets a proposal if and only if it commits text that was staged for the captured revision before, is still live, and the snapshot accepts |
| BrokerSafety.CancelWithdraws | crates/app/src/extensions.rs:196-200 | An accepted cancellation drops the proposal, and over every later run its transaction can be neither extended nor committed until it is begun again |
| BrokerSafety.FinishedTransactionApplies | crates/app/src/extensions.rs:206-226 | A failed child never yields a transaction; otherwise a transaction is for the captured revision, fits the snapshot in one pass and leaves well-formed text; paged invocations have none |
| BrokerOutcomes.HoldsLastProposal | crates/app/src/extensions.rs:82-205 | Over any run, the broker holds exactly the last proposal acknowledged and not withdrawn since: direct edits as sent, a commit as what its acknowledged chunks decode to in order; and exactly the acknowledged panels |
| BrokerOutcomes.FinishedHoldsLast | crates/app/src/extensions.rs:206-226 | A finished invocation is nothing from a failed child, and otherwise that proposal for the captured revision, or none, and those panels |
| BrokerOutcomes.DirectAcknowledged | crates/app/src/extensions.rs:167-184 | Direct edits are acknowledged, and then held, if and only if request, grant, document and revision match, nothing is held yet, and the edits are few, ordered, inside and on boundaries |
| BrokerOutcomes.BeginAcknowledged | crates/app/src/extensions.rs:139-150 | Exactly when a transaction begins, empty and under the request's identifier |
| BrokerOutcomes.AppendAcknowledged | crates/app/src/extensions.rs:151-154 | Exactly when a chunk is appended to a live transaction |
| BrokerOutcomes.CommitAcknowledged | crates/app/src/extensions.rs:155-166 | Exactly when a commit is acknowledged, and that its decoded text is held |
| BrokerOutcomes.PanelAcknowledged | crates/app/src/extensions.rs:185-195 | Exactly when a panel is shown, behind those shown before |
| BrokerOutcomes.CancelAcknowledged | crates/app/src/extensions.rs:196-200 | Exactly when a cancellation is acknowledged |
| BrokerOutcomes.ReadAnswered | crates/app/src/extensions.rs:96-119 | Exactly when a text read is answered, with the bytes of its source |
| BrokerOutcomes.OriginalAnswered | crates/app/src/extensions.rs:120-138 | Exactly when an original read is answered |
| BrokerOutcomes.ExpiryKeepsLive | crates/extensions-protocol/src/broker.rs:171-181 | Expiry drops exactly the transactions whose deadline has come |
| BrokerSafety.LandsEitherWay | crates/app/src/extensions.rs:211-220 | The proposal lands forward or in place from the back with the same text |
| Crc32c.ComputeChecksum | fuzz/fuzz_targets/journal_replay.rs:102-111 | The branch-free loops compute the recursive checksum |
| Crc32c.RunIsLinear | fuzz/fuzz_targets/journal_replay.rs:102-111 | The loop is linear in register and record together |
| Crc32c.ChecksumIsAffine | fuzz/fuzz_targets/journal_replay.rs:102-111 | Combining three records of one length combines their checksums |
| Crc32c.RunIsInjective | fuzz/fuzz_targets/journal_replay.rs:102-111 | Every record acts on the register one to one |
| Crc32c.DetectsBurst | fuzz/fuzz_targets/journal_replay.rs:102-111 | Records of any equal length that differ within four consecutive bytes have the same checksum only if they are equal |
| CrcDivision.ChecksumIsRemainder | crates/file-io/src/recovery/mod.rs:558-567 | The checksum of any record is the complement of the one remainder that its bits, the first 32 complemented and 32 zeros behind them, leave under division by the CRC32C generator |
| CrcDivision.RemainderIsUnique | crates/file-io/src/recovery/mod.rs:558-567 | Division by the generator leaves one quotient and one remainder |
| CrcDivision.KnownValue | crates/file-io/src/recovery/mod.rs:1295-1297 | The published check value of the digits 1 to 9 |
| JournalFrames.Scan | crates/file-io/src/recovery/mod.rs:657-723 | The scan loop computes the specified records and damage verdict |
| JournalFrames.ScanIsExact | crates/file-io/src/recovery/mod.rs:664-723 | Of any bytes, the scan takes a run of whole valid records from the front and reports no damage exactly when they are everything |
| JournalFrames.CutScansAsWhole | crates/file-io/src/recovery/mod.rs:664-690 | A journal cut after any number of bytes scans as its whole records, and as damaged exactly when the cut is inside one |
| JournalFrames.PrefixSurvives | fuzz/fuzz_targets/journal_replay.rs:123-127 | Intact records in front survive any tail |
| JournalFrames.DamageEndsScan | crates/file-io/src/recovery/mod.rs:680-686 | A record whose content lost its checksum ends the scan right before it |
| JournalFrames.FieldDamageEndsScan | crates/file-io/src/recovery/mod.rs:680-686 | Any damage of the stored checksum alone ends the scan right before the record |
| Journal.CrcDetectsBurst | fuzz/fuzz_targets/journal_replay.rs:102-111 | Damage of at most four consecutive bytes changes the stored checksum |
| Journal.BurstEndsScan | fuzz/fuzz_targets/journal_replay.rs:128-136 | Such damage in the content of a record, or any in its stored checksum, ends the scan right before that record |
| Framing.ReleaseStream | scripts/release_config.py:240-249 | The release script feeds exactly the framed stream, with full-block reads, and fails exactly for oversized or unreadable inputs |
| Framing.JourneyStream | xtask/src/journey.rs:256-279 | The journey tool feeds the same framing for any pattern of short reads, and fails exactly for paths that are not UTF-8 or not readable |
| Framing.EmitFile | xtask/src/journey.rs:267-279 | The read loop emits one length-prefixed piece per read and an empty one at the end |
| Framing.PathsReadBack | scripts/release_config.py:243-243 | Splitting the listing and dropping empty entries gives exactly the listed paths |
| Framing.StreamReadsBack | scripts/release_config.py:240-249 | The stream parses back to status, diff and every path with its content, however files were read |
| Framing.StreamsSeparateSources | scripts/release_config.py:240-249 | Equal streams come from equal status, diff and files |
| Framing.FullReadsAgree | xtask/src/journey.rs:256-279 | Both producers emit the same stream for the same tree under full-block reads |
| Framing.StreamsSeparateTrees | xtask/src/journey.rs:256-279 | One stream means one tree, whichever producer and whatever reads on either side |
| LittleEndian.DecodeEncode | scripts/release_config.py:242-242 | Fixed-width lengths read back |
| LittleEndian.EncodeDecode | scripts/release_config.py:242-242 | Every fixed-width field is the encoding of what it reads as |
| SignedImage.VerifySigned | scripts/release_pipeline.py:183-212 | Accepts exactly the images with agreeing headers, an unsigned original, an aligned certificate to the end of file, zero padding, and equal bytes outside checksum and security entry, for every length and chunk position |
| SignedImage.OffsetsSurvive | scripts/release_pipeline.py:167-181 | Header parsing reads none of the bytes that signing rewrites |
| SignedImage.OffsetsAreFields | scripts/release_pipeline.py:167-181 | Exactly the images with an accepted header have offsets, and they are the places of the checksum field and the certificate directory in a header laid out field by field |
| SignedImage.AcceptedIsSigning | scripts/release_pipeline.py:183-212 | An image passes if and only if it is the unsigned one with its checksum and entry written, fewer than eight zeros and a certificate of at least eight bytes |
| SignedImage.SigningIsAccepted | scripts/release_pipeline.py:183-212 | Every checksum and every such certificate gives an image that passes |
| LineEndings.NormalizeEol | crates/app/src/data_tools.rs:400-411 | The loop replaces each break and nothing else |
| LineEndings.NormalizedIsJoin | crates/app/src/data_tools.rs:400-411 | Conversion is joining the lines with the new ending |
| LineEndings.LinesKept | crates/app/src/data_tools.rs:400-411 | Conversion keeps every line of every text |
| LineEndings.LastConversionWins | crates/app/src/data_tools.rs:400-411 | Of two conversions only the last shows |
| LineEndings.SameLinesSameText | crates/app/src/data_tools.rs:400-411 | Two texts convert to the same text exactly when their lines are equal |
| LineEndings.NormalizedWellFormed | crates/app/src/data_tools.rs:400-411 | Converted text stays well-formed UTF-8 |
| LineEndings.FloorBoundary | crates/app/src/data_tools.rs:370-376 | The nearest boundary below, at most three bytes away |
| LineEndings.LineColumn | crates/app/src/data_tools.rs:353-368 | Line and column are the number of lines of the prefix and the characters of its last line |
| LineEndings.CharsAreScalars | crates/app/src/data_tools.rs:367-367 | Counting starting bytes counts scalars |
| LineEndings.PositionSurvives | crates/app/src/data_tools.rs:353-411 | At every offset of every text, line and column are the same before and after conversion |
| LineEndings.DetectsConversion | crates/app/src/data_tools.rs:378-385 | A converted text with any break is detected as what it was converted to |
| LineEndings.DetectsFirst | crates/app/src/data_tools.rs:378-385 | The detected ending is the first break of the text, whatever follows |
| LineEndings.TrailingIsLast | crates/app/src/data_tools.rs:387-397 | The trailing break is the one the text ends with |
| LineEndings.TrailingConverts | crates/app/src/data_tools.rs:387-397 | Conversion turns a break at the end into the new ending and adds none |
| WordTable.Collect | crates/search/build.rs:6-24 | First and Last lines become one range, single lines their own, and an unmatched Last stops the build |
| WordTable.Merge | crates/search/build.rs:25-35 | The merged table covers exactly the given code points, and is canonical for nonempty ranges |
| WordTable.BuildTable | crates/search/build.rs:6-35 | The build goes through exactly when every closing entry has its opening one; the table covers exactly the joiners and the code points that word entries list singly or as ranges, and is the only canonical table that does |
| WordTable.CollectedIsListed | crates/search/build.rs:6-24 | The collected ranges cover exactly the code points that the entries list |
| WordTable.CanonicalIsUnique | crates/search/build.rs:25-35 | Two canonical tables for the same code points are the same |

## Left out

- UpdateRecovery.RecoverySettles: the old build is reached unless the failed slot is occupied while the new build runs, because in that state the code never recovers.
- ExitDiscard.ExitDiscardSettles: no other application close is queued meanwhile, because then the code forgets the read-only flags, and only documents still open are spoken of, because a replacement keeps the freeze; both cases are characterised separately.
- Paging.NextWindow: a short window is retried at most three bytes shorter, as in the code; that windows are found rests on aligned reads succeeding.
- BrokerSafety.CancelWithdraws: a later run may begin a transaction under the same identifier anew, as the code allows; from there on it is another transaction.
- Diff.Compare: time, memory and cancellation are the round budget of each gap and one verdict on the rest. Stable identifiers, hunk kinds, moved blocks and the spans inside changed lines are left out (only that time may run out over them is kept), and so is how the options normalise a line; a cancelled or failed comparison has no hunks.
- Windows.CompareBatches: every batch is taken; a receiver that refuses one ends the comparison there. Lines are those of the comparison.
- BrokerSafety.FinishedTransactionApplies: the session handed to the broker has nothing staged, as the shell creates it; what a session with staged text could commit in a paged invocation is in BrokerSafety.PagedProposal.
- WordTable.Merge: the gaps between ranges need ranges that do not end before they start, as in the published character list.
- Metadata floors, the manifest check and the failed-launch counter of the update helper: other crates decide them and they do not touch the executables. Trust delivery is one event that takes papers and retains a file, without its own journal.
- UpdateLedger.RestorableExactlyWhenRecent: every old retained file can be listed and deleted; one that cannot is kept by the code, and LostExactlyWhenSwept covers any listing.
- UpdateLedger.UndoneUnlessTorn: the ledger's limit of 1 MiB, and two digests cut and glued to 64 digits that name no build, are not modelled; the ledger of metadata floors, appended the same way, is read by another crate.
- Retained names: two retentions within one nanosecond, whose names would collide, do not arise.
- SHA-256, Authenticode and minisign: builds stand for their digests, and the trusted builds are a set.
- The journal's other two lines and its 1 KiB limit: neither is read back by recovery.
- The memory spill that moves a document to disk and keeps its owner, the save queue, batch tab closing and everything the shell draws.
- The alignment map, the debounce delay, swapping sides and the saved comparison sessions.
- Merging under the policy that keeps ignored text: it compares the tokens of a hunk, and their rules come from the Unicode tables.
- The paged comparison worker and the streamed transaction around the windowed copy: only the page resolver and the append loop are modelled.
- The broker's session is a value, not an object: the order of its tables and aliasing are not modelled. Its deadlines are a clock value handed to each request, and 64-bit identifiers, offsets and generations are unbounded.
- The decoder of staged edits: any function from bytes to edit lists.
- The journal's JSON and blob checks: any predicate over the record and those before it. Cancellation and the checks after the scan loop are left out.
- Reading the character list as text: entries are given, and the library sort is an insertion sort with the same result. Adding one to the last 32-bit code point does not arise, as code points end at 0x10FFFF.
- The second hash of both signing inputs after the comparison: the files are values that do not change.
- Running git: its outputs are inputs. The digest itself: the stream that is fed to it is the result.
- The other fuzz targets, the benchmarks, the packaging scripts and the localisation check: their properties can each be read from one body.
