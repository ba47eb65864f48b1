/** What every interleaving of edits, tab changes, worker answers, prompts and drains keeps. */
module CloseSafety {
  import opened Wrappers
  import opened CloseProtocol

  /** The document behind an editor, without the two flags a discard may set. */
  function Text(e: Editor): Editor { e.(readOnly := false, retiring := false) }

  /** The same documents in the same tabs; only read-only flags and retirement differ. */
  ghost predicate SameDocuments(a: seq<Editor>, b: seq<Editor>) {
    |a| == |b| && forall i :: 0 <= i < |a| ==> Text(a[i]) == Text(b[i])
  }

  ghost predicate Distinct(editors: seq<Editor>) {
    forall i, j :: 0 <= i < j < |editors| ==> editors[i].owner != editors[j].owner
  }

  ghost predicate Inv(s: State) {
    && Distinct(s.editors)
    && (forall i :: 0 <= i < |s.editors| ==> s.editors[i].owner < s.nextOwner)
    && (if s.editors == [] then s.active == 0 else s.active < |s.editors|)
    && match s.pending
       case Document(t) => t.discarding ==> (t.owner, t.revision) in s.discarded && !t.saving
       case ApplicationDiscarding(consents) => Identities(consents) <= s.discarded
       case _ => true
  }

  lemma {:induction false} CancelKeepsDocuments(editors: seq<Editor>, consents: seq<Consent>)
    ensures SameDocuments(editors, CancelDiscard(editors, consents))
    decreases |consents|
  {
    if consents != [] {
      var c := consents[0];
      match IndexOf(editors, c.owner)
      case None => CancelKeepsDocuments(editors, consents[1..]);
      case Some(i) => CancelKeepsDocuments(editors[i := Restored(editors[i], c.wasReadOnly)], consents[1..]);
    }
  }

  lemma {:induction false} DiscardKeepsDocuments(editors: seq<Editor>, indexes: seq<nat>, outcome: DiscardPoll)
    requires InRange(indexes, |editors|)
    ensures SameDocuments(editors, DiscardRecoveries(editors, indexes, outcome).0)
    ensures forall i :: 0 <= i < |editors| ==>
      DiscardRecoveries(editors, indexes, outcome).0[i].readOnly == editors[i].readOnly
    decreases |indexes|
  {
    if indexes != [] {
      var i := indexes[0];
      var asked := editors[i := editors[i].(retiring := true)];
      if editors[i].ownsText {
        match editors[i].poll
        case TombstoneFailed =>
        case StillPending => DiscardKeepsDocuments(asked, indexes[1..], StillPending);
        case CleanupPending =>
          DiscardKeepsDocuments(asked, indexes[1..], if outcome.StillPending? then outcome else CleanupPending);
        case Durable => DiscardKeepsDocuments(asked, indexes[1..], outcome);
      } else {
        DiscardKeepsDocuments(editors, indexes[1..], outcome);
      }
    }
  }

  lemma SameTwice(a: seq<Editor>, b: seq<Editor>, c: seq<Editor>)
    requires SameDocuments(a, b) && SameDocuments(b, c)
    ensures SameDocuments(a, c)
  {
  }

  lemma SettleOutcome(s: State, consents: seq<Consent>, outcome: DiscardPoll)
    ensures var (after, granted) := Settle(s, consents, outcome);
      && SameDocuments(s.editors, after.editors)
      && after == s.(editors := after.editors, pending := after.pending)
      && (granted ==> StillCurrent(after.editors, consents) && after.pending == s.pending)
      && (!granted ==> after.pending == ApplicationDiscarding(consents) || after.pending == s.pending)
  {
    CancelKeepsDocuments(s.editors, consents);
  }

  /** The three outcomes of one poll of an exit discard: granted only when every unsaved
      editor is consented, still pending with the same consents, or cancelled. */
  lemma DiscardForExitOutcome(s: State, consents: seq<Consent>)
    ensures var (after, granted) := DiscardForExit(s, consents);
      && SameDocuments(s.editors, after.editors)
      && after == s.(editors := after.editors, pending := after.pending)
      && (granted ==> StillCurrent(after.editors, consents) && after.pending == s.pending)
      && (!granted ==> after.pending == ApplicationDiscarding(consents) || after.pending == s.pending)
  {
    match Resolve(s.editors, consents)
    case None => CancelKeepsDocuments(s.editors, consents);
    case Some(indexes) =>
      var (polled, outcome) := DiscardRecoveries(s.editors, indexes, Durable);
      DiscardKeepsDocuments(s.editors, indexes, Durable);
      SettleOutcome(s.(editors := polled), consents, outcome);
      SameTwice(s.editors, polled, DiscardForExit(s, consents).0.editors);
  }

  // ----- exit

  ghost predicate DirtyConsented(s: State) {
    forall i :: 0 <= i < |s.editors| && s.editors[i].Dirty() ==> s.editors[i].Identity() in s.discarded
  }

  lemma CurrentIsConsented(s: State, consents: seq<Consent>)
    requires StillCurrent(s.editors, consents) && Identities(consents) <= s.discarded
    ensures DirtyConsented(s)
  {
    forall i | 0 <= i < |s.editors| && s.editors[i].Dirty()
      ensures s.editors[i].Identity() in s.discarded
    {
      assert s.editors[i] in s.editors && s.editors[i].Unsaved();
    }
  }

  lemma DrainKeepsInv(s: State, o: Outside)
    requires Inv(s)
    ensures Inv(Drained(s, o))
    ensures Drained(s, o).exited && !s.exited ==> DirtyConsented(Drained(s, o))
    ensures s.discarded <= Drained(s, o).discarded
  {
    hide DrainApplication, DrainDiscarding, CloseDocument;
    var taken := s.(pending := NoClose);
    if !o.interactionWaiting {
      match s.pending
      case NoClose =>
      case Application => ApplicationDrain(taken, o);
      case ApplicationDiscarding(consents) => DiscardingDrain(taken, o, consents);
      case ApplicationAfterSaves =>
      case Document(target) =>
        if o.renderer {
          DocumentDrain(taken, o, target);
        }
    }
  }

  lemma SameDocumentsKeepInv(s: State, editors: seq<Editor>)
    requires Inv(s) && SameDocuments(s.editors, editors)
    ensures Inv(s.(editors := editors))
  {
    forall i | 0 <= i < |editors|
      ensures editors[i].owner == Text(s.editors[i]).owner
    {
      assert Text(s.editors[i]) == Text(editors[i]);
    }
  }

  /** The Don't Save answer records a consent for every unsaved editor before anything else. */
  lemma CaptureOutcome(s: State)
    requires Inv(s) && s.pending.NoClose?
    ensures var (after, granted) := CaptureAndDiscard(s);
      && Inv(after) && SameDocuments(s.editors, after.editors) && s.discarded <= after.discarded
      && after.exited == s.exited && (granted ==> DirtyConsented(after))
  {
    hide Consents, DiscardForExit;
    var consents := Consents(s.editors);
    var frozen := s.(editors := Frozen(s.editors), discarded := s.discarded + Identities(consents));
    SameDocumentsKeepInv(s, frozen.editors);
    DiscardForExitOutcome(frozen, consents);
    var (after, granted) := DiscardForExit(frozen, consents);
    SameDocumentsKeepInv(frozen, after.editors);
    if granted {
      CurrentIsConsented(after, consents);
    }
  }

  lemma ConfirmExitOutcome(s: State, o: Outside)
    requires Inv(s) && s.pending.NoClose?
    ensures var (after, ok) := ConfirmExit(s, o);
      && Inv(after) && SameDocuments(s.editors, after.editors) && s.discarded <= after.discarded
      && after.exited == s.exited && (ok ==> DirtyConsented(after))
  {
    hide CaptureAndDiscard;
    if forall e :: e in s.editors ==> !e.Unsaved() {
      assert forall i :: 0 <= i < |s.editors| ==> s.editors[i] in s.editors;
    } else if o.prompt == Answer(DontSave) {
      CaptureOutcome(s);
    }
  }

  lemma ApplicationDrain(s: State, o: Outside)
    requires Inv(s) && s.pending.NoClose?
    ensures var after := DrainApplication(s, o);
      && Inv(after) && SameDocuments(s.editors, after.editors) && s.discarded <= after.discarded
      && (after.exited && !s.exited ==> DirtyConsented(after))
  {
    hide ConfirmExit;
    ConfirmExitOutcome(s, o);
    var (after, ok) := ConfirmExit(s, o);
    var (ready, free) := CloseReady(s, o, Application);
    assert ready == s.(pending := ready.pending) && Inv(ready) && (free ==> ready == s);
    assert SameDocuments(s.editors, ready.editors);
    if free {
      assert DrainApplication(s, o) == RequestCloseNow(s, o, false);
    }
  }

  lemma DiscardingDrain(s: State, o: Outside, consents: seq<Consent>)
    requires Inv(s) && s.pending.NoClose? && Identities(consents) <= s.discarded
    ensures var after := DrainDiscarding(s, o, consents);
      && Inv(after) && SameDocuments(s.editors, after.editors) && s.discarded == after.discarded
      && (after.exited && !s.exited ==> DirtyConsented(after))
  {
    hide DiscardForExit;
    DiscardForExitOutcome(s, consents);
    var (after, granted) := DiscardForExit(s, consents);
    SameDocumentsKeepInv(s, after.editors);
    if granted {
      CurrentIsConsented(after, consents);
    }
  }

  // ----- one document

  /** At most the two flags of tab `i` differ. */
  ghost predicate OnlyFlags(a: seq<Editor>, b: seq<Editor>, i: nat) {
    && i < |a| == |b| && Text(a[i]) == Text(b[i])
    && forall k :: 0 <= k < |a| && k != i ==> b[k] == a[k]
  }

  lemma OnlyFlagsKeepInv(s: State, editors: seq<Editor>, i: nat)
    requires Inv(s) && OnlyFlags(s.editors, editors, i)
    ensures Inv(s.(editors := editors))
  {
    assert forall k :: 0 <= k < |editors| ==> Text(s.editors[k]) == Text(editors[k]);
    SameDocumentsKeepInv(s, editors);
  }

  /** Tab `i` left the strip: every other editor is exactly as it was and keeps its place relative
      to the others, the active tab stays in range and, unless tab `i` was active, on the same
      editor. */
  ghost predicate ClosedOnly(s: State, after: State, i: nat) {
    && i < |s.editors|
    && (|s.editors| > 1 ==> after.editors == s.editors[..i] + s.editors[i + 1..])
    && (|s.editors| == 1 ==> after.editors == [] || after.editors == [Fresh(s.nextOwner)])
    && (after.editors != [] ==> after.active < |after.editors|)
    && (s.active != i && s.active < |s.editors| ==>
          after.active < |after.editors| && after.editors[after.active] == s.editors[s.active])
  }

  /** The tab that left held exactly the captured document revision, idle, and either clean or
      discarded by the user's answer for that revision. */
  ghost predicate ClosedRightly(s: State, after: State, i: nat, t: CloseTarget) {
    && ClosedOnly(s, after, i)
    && s.editors[i].Identity() == (t.owner, t.revision) && !s.editors[i].DocumentBusy()
    && (s.editors[i].Dirty() ==> (t.owner, t.revision) in after.discarded)
  }

  lemma OthersLeft(a: seq<Editor>, b: seq<Editor>, i: nat)
    requires OnlyFlags(a, b, i)
    ensures b[..i] + b[i + 1..] == a[..i] + a[i + 1..]
  {
  }

  /** Where the active tab went in the strip without tab `i`. */
  lemma ActiveFollows(editors: seq<Editor>, i: nat, active: nat)
    requires i < |editors| && active < |editors| && active != i
    ensures var left := editors[..i] + editors[i + 1..];
      left[if active > i then active - 1 else active] == editors[active]
  {
  }

  lemma RemovedClosesOnly(s: State, before: State, o: Outside, i: nat)
    requires i < |s.editors| && before == s.(editors := before.editors, discarded := before.discarded)
    requires OnlyFlags(s.editors, before.editors, i) && s.active < |s.editors|
    ensures ClosedOnly(s, Removed(before, o, i), i)
    ensures Removed(before, o, i).discarded == before.discarded && Removed(before, o, i).pending == s.pending
  {
    var left := s.editors[..i] + s.editors[i + 1..];
    OthersLeft(s.editors, before.editors, i);
    assert |left| == |s.editors| - 1;
    if left != [] {
      assert Removed(before, o, i) == before.(editors := left, active := ActiveAfter(s.active, i, |left|));
      if s.active != i {
        ActiveFollows(s.editors, i, s.active);
      }
    }
  }

  lemma LeftKeepOwners(editors: seq<Editor>, i: nat, bound: nat)
    requires i < |editors| && Distinct(editors) && forall k :: 0 <= k < |editors| ==> editors[k].owner < bound
    ensures var left := editors[..i] + editors[i + 1..];
      Distinct(left) && forall k :: 0 <= k < |left| ==> left[k].owner < bound
  {
    var left := editors[..i] + editors[i + 1..];
    assert forall k :: 0 <= k < |left| ==> left[k] == if k < i then editors[k] else editors[k + 1];
  }

  lemma RemovedKeepsInv(s: State, o: Outside, i: nat)
    requires Inv(s) && i < |s.editors|
    ensures Inv(Removed(s, o, i))
  {
    hide Distinct;
    var left := s.editors[..i] + s.editors[i + 1..];
    LeftKeepOwners(s.editors, i, s.nextOwner);
    if left == [] && o.newDocument {
      OneIsDistinct(Fresh(s.nextOwner));
    } else {
      assert Removed(s, o, i) == s.(editors := left, active := ActiveAfter(s.active, i, |left|));
    }
  }

  lemma OneIsDistinct(e: Editor)
    ensures Distinct([e])
  {
  }

  lemma ConfirmDocumentOutcome(s: State, o: Outside, t: CloseTarget, i: nat)
    requires Inv(s) && s.pending.NoClose? && i < |s.editors| && !t.discarding && !t.saving
    requires s.editors[i].Identity() == (t.owner, t.revision)
    ensures var (asked, confirmed, ok) := ConfirmDocument(s, o, t, i);
      && Inv(asked) && OnlyFlags(s.editors, asked.editors, i) && s.discarded <= asked.discarded
      && asked == s.(editors := asked.editors, discarded := asked.discarded, pending := asked.pending)
      && (ok ==> asked.pending == s.pending && confirmed == t.(wasReadOnly := confirmed.wasReadOnly, discarding := confirmed.discarding))
      && (ok && confirmed.discarding ==> (t.owner, t.revision) in asked.discarded)
  {
    var e := s.editors[i];
    var (asked, confirmed, ok) := ConfirmDocument(s, o, t, i);
    if !e.DocumentBusy() && e.Dirty() && o.platform && o.prompt == Answer(DontSave) {
      assert asked.editors == s.editors[i := e.(readOnly := true)];
      OnlyFlagsKeepInv(s, asked.editors, i);
    } else {
      assert asked == s.(pending := asked.pending) && confirmed == t;
      assert asked.pending.NoClose? || (asked.pending.Document? && !asked.pending.target.discarding);
    }
  }

  /** A document close touches at most the editor of the captured owner, wherever its tab is by
      now: every other editor is exactly as before, its own flags included. It removes that editor
      only while it is idle at the captured revision and either clean or discarded by the user's
      answer for exactly that revision. */
  lemma DocumentDrain(s: State, o: Outside, t: CloseTarget)
    requires Inv(s) && s.pending.NoClose? && (t.discarding ==> (t.owner, t.revision) in s.discarded && !t.saving)
    ensures var after := CloseDocument(s, o, t);
      var found := IndexOf(s.editors, t.owner);
      && Inv(after) && s.discarded <= after.discarded && after.exited == s.exited
      && (found.None? ==> after == s)
      && (found.Some? ==> (OnlyFlags(s.editors, after.editors, found.value) && after.active == s.active)
                          || ClosedRightly(s, after, found.value, t))
  {
    hide IndexOf, Removed, FinishClose, ConfirmDocument;
    match IndexOf(s.editors, t.owner)
    case None =>
    case Some(i) =>
      var e := s.editors[i];
      if e.revision != t.revision {
        OnlyFlagsKeepInv(s, s.editors[i := Restored(e, t.wasReadOnly)], i);
      } else {
        var at := t.(index := i);
        if at.saving || at.discarding {
          FinishDrain(s, s, o, at, i);
        } else {
          ConfirmDocumentOutcome(s, o, at, i);
          var (asked, confirmed, ok) := ConfirmDocument(s, o, at, i);
          if ok {
            FinishDrain(s, asked, o, confirmed, i);
          }
        }
      }
  }

  lemma FinishDrain(s: State, before: State, o: Outside, t: CloseTarget, i: nat)
    requires Inv(s) && Inv(before) && s.pending.NoClose? && i < |s.editors|
    requires before == s.(editors := before.editors, discarded := before.discarded) && s.discarded <= before.discarded
    requires OnlyFlags(s.editors, before.editors, i)
    requires t.discarding ==> (t.owner, t.revision) in before.discarded && !t.saving
    requires s.editors[i].Identity() == (t.owner, t.revision)
    ensures var after := FinishClose(before, o, t, i);
      && Inv(after) && after.discarded == before.discarded && after.exited == s.exited
      && ((OnlyFlags(s.editors, after.editors, i) && after.active == s.active)
          || ClosedRightly(s, after, i, t))
  {
    var e := before.editors[i];
    assert Text(e) == Text(s.editors[i]);
    if e.DocumentBusy() || (e.Dirty() && !t.discarding) {
    } else if t.discarding && e.ownsText {
      var asked := before.(editors := before.editors[i := e.(retiring := true)]);
      OnlyFlagsKeepInv(before, asked.editors, i);
      match e.poll
      case StillPending =>
      case TombstoneFailed => OnlyFlagsKeepInv(before, before.editors[i := Restored(e, t.wasReadOnly)], i);
      case _ => ClosedByRemoval(s, asked, o, t, i);
    } else {
      ClosedByRemoval(s, before, o, t, i);
    }
  }

  lemma ClosedByRemoval(s: State, before: State, o: Outside, t: CloseTarget, i: nat)
    requires Inv(s) && Inv(before) && s.pending.NoClose? && i < |s.editors|
    requires before == s.(editors := before.editors, discarded := before.discarded)
    requires OnlyFlags(s.editors, before.editors, i)
    requires s.editors[i].Identity() == (t.owner, t.revision) && !s.editors[i].DocumentBusy()
    requires s.editors[i].Dirty() ==> (t.owner, t.revision) in before.discarded
    ensures Inv(Removed(before, o, i)) && ClosedRightly(s, Removed(before, o, i), i, t)
    ensures Removed(before, o, i).discarded == before.discarded && Removed(before, o, i).exited == s.exited
  {
    RemovedClosesOnly(s, before, o, i);
    RemovedKeepsInv(before, o, i);
  }

  // ----- every event

  lemma UpdatedKeepsInv(s: State, owner: nat, f: Editor -> Editor)
    requires Inv(s) && forall e :: f(e).owner == e.owner
    ensures Inv(s.(editors := Updated(s.editors, owner, f)))
  {
  }

  lemma ReloadingKeepsInv(s: State, reloading: set<(nat, nat)>)
    requires Inv(s)
    ensures Inv(s.(reloading := reloading))
  {
  }

  lemma AttachKeepsInv(s: State, owner: nat, copiesFlag: bool, guard: bool)
    requires Inv(s)
    ensures Inv(Attached(s, owner, copiesFlag, guard)) && Attached(s, owner, copiesFlag, guard).discarded == s.discarded
  {
    hide IndexOf;
    match IndexOf(s.editors, owner)
    case None =>
    case Some(i) =>
      var e := s.editors[i];
      OnlyFlagsKeepInv(s, s.editors[i := e.(retiring := true)], i);
      OnlyFlagsKeepInv(s, s.editors[i := e.(retiring := false)], i);
  }

  lemma ReorderKeepsInv(s: State, order: seq<nat>, active: nat)
    requires Inv(s)
    ensures Inv(Next(s, Reorder(order, active)))
  {
  }

  lemma SimpleEventKeepsInv(s: State, e: Event)
    requires Inv(s)
    requires e.NewTab? || e.Reload? || e.Activate? || e.QueueActive? || e.QueuePlaceholder? || e.QueueApplication? || e.SessionWritten?
    ensures Inv(Next(s, e)) && s.discarded == Next(s, e).discarded
  {
    hide IndexOf;
  }

  lemma EventKeepsInv(s: State, e: Event)
    requires Inv(s)
    ensures Inv(Next(s, e)) && s.discarded <= Next(s, e).discarded
    ensures e.Drain? && Next(s, e).exited && !s.exited ==> DirtyConsented(Next(s, e))
  {
    hide Inv, Drained, IndexOf, Attached, Updated, Permutation;
    match e
    case Edit(owner, content) => UpdatedKeepsInv(s, owner, (x: Editor) => x.(revision := x.revision + 1, content := content));
    case Saved(owner, content) => UpdatedKeepsInv(s, owner, (x: Editor) => x.(saved := content));
    case Worker(owner, busy, saving, poll) =>
      UpdatedKeepsInv(s, owner, (x: Editor) => x.(busy := busy, saving := saving, poll := poll));
    case UserReadOnly(owner, readOnly) => UpdatedKeepsInv(s, owner, (x: Editor) => x.(readOnly := readOnly));
    case Attach(owner, copiesFlag, guard) => AttachKeepsInv(s, owner, copiesFlag, guard);
    case AbandonReload(owner, resumes) =>
      UpdatedKeepsInv(s, owner, (x: Editor) => x.(retiring := x.retiring && !resumes));
      ReloadingKeepsInv(s.(editors := Updated(s.editors, owner, (x: Editor) => x.(retiring := x.retiring && !resumes))),
                        set r | r in s.reloading && r.0 != owner);
    case Reorder(order, active) => ReorderKeepsInv(s, order, active);
    case Drain(outside) => DrainKeepsInv(s, outside);
    case _ => SimpleEventKeepsInv(s, e);
  }

  // ----- what stands behind an exit

  /** What stands behind an exit, by the request that was served: no unsaved editor without one of
      the waiting consents, or without one captured by this very answer, or, after Save All, no
      dirty editor. */
  ghost predicate ExitConsented(now: State, o: Outside, after: State) {
    match now.pending
    case ApplicationDiscarding(consents) => StillCurrent(after.editors, consents)
    case Application =>
      && StillCurrent(after.editors, Consents(now.editors))
      && (o.prompt == Answer(DontSave) || forall e :: e in after.editors ==> !e.Unsaved())
    case ApplicationAfterSaves => forall e :: e in after.editors ==> !e.Dirty()
    case _ => false
  }

  lemma ConfirmedExit(s: State, o: Outside)
    requires ConfirmExit(s, o).1
    ensures var after := ConfirmExit(s, o).0;
      && StillCurrent(after.editors, Consents(s.editors))
      && (o.prompt == Answer(DontSave) || forall e :: e in after.editors ==> !e.Unsaved())
  {
    hide Consents, Resolve, DiscardRecoveries, DiscardForExit;
    if exists e :: e in s.editors && e.Unsaved() {
      var consents := Consents(s.editors);
      DiscardForExitOutcome(s.(editors := Frozen(s.editors), discarded := s.discarded + Identities(consents)), consents);
    }
  }

  /** The drain grants the exit: the program leaves, or waits only for its session to be written. */
  ghost predicate Grants(now: State, after: State) {
    (after.exited && !now.exited) || (after.session.SavingSession? && !now.session.SavingSession?)
  }

  lemma ApplicationExits(s: State, o: Outside)
    requires Grants(s, DrainApplication(s, o))
    ensures ConfirmExit(s, o).1 && DrainApplication(s, o).editors == ConfirmExit(s, o).0.editors
  {
    hide DiscardForExit;
    var (ready, ok) := CloseReady(s, o, Application);
    assert ok && ready == s;
    if exists e :: e in s.editors && e.Unsaved() {
      var consents := Consents(s.editors);
      DiscardForExitOutcome(s.(editors := Frozen(s.editors), discarded := s.discarded + Identities(consents)), consents);
    }
  }

  lemma FinishKeepsSession(s: State, o: Outside, t: CloseTarget, i: nat)
    requires i < |s.editors|
    ensures FinishClose(s, o, t, i).session == s.session
  {
  }

  lemma CloseKeepsSession(s: State, o: Outside, t: CloseTarget)
    ensures CloseDocument(s, o, t).session == s.session
  {
    hide IndexOf, FinishClose;
    match IndexOf(s.editors, t.owner)
    case None =>
    case Some(i) =>
      var at := t.(index := i);
      var (asked, confirmed, ok) := ConfirmDocument(s, o, at, i);
      FinishKeepsSession(s, o, at, i);
      FinishKeepsSession(asked, o, confirmed, i);
  }

  lemma ExitIsConsented(now: State, o: Outside)
    requires Inv(now) && Grants(now, Drained(now, o))
    ensures ExitConsented(now, o, Drained(now, o))
  {
    hide DrainApplication, CloseDocument, DiscardForExit;
    var taken := now.(pending := NoClose);
    match now.pending
    case Application =>
      ApplicationExits(taken, o);
      ConfirmedExit(taken, o);
    case ApplicationDiscarding(consents) => DiscardForExitOutcome(taken, consents);
    case Document(t) =>
      DocumentDrain(taken, o, t);
      CloseKeepsSession(taken, o, t);
    case _ =>
  }

  lemma DrainIsSafe(now: State, o: Outside)
    ensures Inv(now) ==>
      && Inv(Drained(now, o))
      && (Grants(now, Drained(now, o)) ==> ExitConsented(now, o, Drained(now, o)))
  {
    hide Drained;
    if Inv(now) {
      DrainKeepsInv(now, o);
      if Grants(now, Drained(now, o)) {
        ExitIsConsented(now, o);
      }
    }
  }

  // ----- what may wait

  lemma ConfirmWaits(s: State, o: Outside)
    requires s.pending.NoClose? && ConfirmExit(s, o).0.pending.ApplicationDiscarding?
    ensures o.prompt == Answer(DontSave) && ConfirmExit(s, o).0.pending.consents == Consents(s.editors)
    ensures !ConfirmExit(s, o).1
  {
    hide Consents, DiscardForExit;
    var consents := Consents(s.editors);
    DiscardForExitOutcome(s.(editors := Frozen(s.editors), discarded := s.discarded + Identities(consents)), consents);
  }

  lemma ApplicationWaits(s: State, o: Outside, consents: seq<Consent>)
    requires s.pending.NoClose? && DrainApplication(s, o).pending == ApplicationDiscarding(consents)
    ensures o.prompt == Answer(DontSave) && consents == Consents(s.editors)
  {
    var (ready, ok) := CloseReady(s, o, Application);
    assert ok && ready == s && DrainApplication(s, o) == RequestCloseNow(s, o, false);
    ConfirmWaits(s, o);
  }

  lemma DiscardingWaits(s: State, o: Outside, before: seq<Consent>, consents: seq<Consent>)
    requires s.pending.NoClose? && DrainDiscarding(s, o, before).pending == ApplicationDiscarding(consents)
    ensures consents == before
  {
    DiscardForExitOutcome(s, before);
  }

  lemma FinishNeverWaits(s: State, o: Outside, t: CloseTarget, i: nat)
    requires i < |s.editors| && s.pending.NoClose?
    ensures !FinishClose(s, o, t, i).pending.ApplicationDiscarding?
  {
  }

  lemma DocumentNeverWaits(s: State, o: Outside, t: CloseTarget)
    requires s.pending.NoClose?
    ensures !CloseDocument(s, o, t).pending.ApplicationDiscarding?
  {
    hide IndexOf, FinishClose;
    match IndexOf(s.editors, t.owner)
    case None =>
    case Some(i) =>
      var at := t.(index := i);
      var (asked, confirmed, ok) := ConfirmDocument(s, o, at, i);
      FinishNeverWaits(s, o, at, i);
      if ok {
        FinishNeverWaits(asked, o, confirmed, i);
      }
  }

  lemma OtherEventsNeverWait(now: State, e: Event)
    requires !e.Drain? && Next(now, e).pending.ApplicationDiscarding?
    ensures now.pending == Next(now, e).pending
  {
  }

  lemma WaitingComesFrom(now: State, e: Event, consents: seq<Consent>)
    requires Next(now, e).pending == ApplicationDiscarding(consents) && now.pending != ApplicationDiscarding(consents)
    ensures e.Drain? && e.outside.prompt == Answer(DontSave) && now.pending.Application? && consents == Consents(now.editors)
  {
    hide DrainApplication, DrainDiscarding, CloseDocument;
    var taken := now.(pending := NoClose);
    if !e.Drain? {
      OtherEventsNeverWait(now, e);
    } else if now.pending.Application? {
      ApplicationWaits(taken, e.outside, consents);
    } else if now.pending.ApplicationDiscarding? {
      DiscardingWaits(taken, e.outside, now.pending.consents, consents);
    } else if now.pending.Document? {
      DocumentNeverWaits(taken, e.outside, now.pending.target);
    }
  }

  // ----- what may leave

  ghost predicate Present(editors: seq<Editor>, owner: nat) {
    exists i :: 0 <= i < |editors| && editors[i].owner == owner
  }

  lemma SameDocumentsPresent(a: seq<Editor>, b: seq<Editor>, owner: nat)
    requires SameDocuments(a, b)
    ensures Present(a, owner) <==> Present(b, owner)
  {
    assert forall i :: 0 <= i < |a| ==> Text(a[i]).owner == Text(b[i]).owner;
  }

  lemma OthersStay(s: State, after: State, i: nat, k: nat)
    requires k < |s.editors| && k != i
    requires OnlyFlags(s.editors, after.editors, i) || ClosedOnly(s, after, i)
    ensures Present(after.editors, s.editors[k].owner)
  {
    if OnlyFlags(s.editors, after.editors, i) {
      assert after.editors[k] == s.editors[k];
    } else {
      ActiveFollows(s.editors, i, k);
      assert after.editors[if k > i then k - 1 else k] == s.editors[k];
    }
  }

  /** Unsaved text stays unless this close discards it or the prompt is answered Don't Save. */
  lemma DirtyStays(s: State, o: Outside, t: CloseTarget, i: nat)
    requires IndexOf(s.editors, t.owner) == Some(i) && s.editors[i].Dirty() && !t.discarding
    requires t.saving || o.prompt != Answer(DontSave)
    ensures CloseDocument(s, o, t).editors == s.editors
  {
    hide Removed, Names;
  }

  /** What a document close may take away: unsaved text only at the captured identity, idle, and
      because this request was discarding it or is answered Don't Save now. */
  ghost predicate Discards(e: Editor, o: Outside, t: CloseTarget) {
    && e.Identity() == (t.owner, t.revision) && !e.DocumentBusy() && !t.saving
    && (t.discarding || o.prompt == Answer(DontSave))
  }

  lemma OnlyTargetLeaves(s: State, o: Outside, t: CloseTarget, k: nat)
    requires Inv(s) && s.pending.NoClose? && (t.discarding ==> (t.owner, t.revision) in s.discarded && !t.saving)
    requires k < |s.editors| && s.editors[k].Dirty()
    ensures Present(CloseDocument(s, o, t).editors, s.editors[k].owner) || Discards(s.editors[k], o, t)
  {
    hide IndexOf, CloseDocument, ClosedOnly;
    var after := CloseDocument(s, o, t);
    DocumentDrain(s, o, t);
    match IndexOf(s.editors, t.owner)
    case None => assert after.editors[k] == s.editors[k];
    case Some(i) =>
      if k != i {
        OthersStay(s, after, i, k);
      } else if OnlyFlags(s.editors, after.editors, i) {
        assert Text(after.editors[k]).owner == Text(s.editors[k]).owner;
      } else if !t.discarding && (t.saving || o.prompt != Answer(DontSave)) {
        DirtyStays(s, o, t, i);
        assert after.editors[k] == s.editors[k];
      }
  }

  /** One drain takes away unsaved text only with a document close that discards it. */
  lemma DrainDropsOnlyDiscarded(now: State, o: Outside, k: nat)
    requires Inv(now) && k < |now.editors| && now.editors[k].Dirty()
    ensures Present(Drained(now, o).editors, now.editors[k].owner)
         || (now.pending.Document? && Discards(now.editors[k], o, now.pending.target))
  {
    hide DrainApplication, DrainDiscarding, CloseDocument, Discards;
    var taken := now.(pending := NoClose);
    var owner := now.editors[k].owner;
    assert Present(now.editors, owner);
    match now.pending
    case Application =>
      ApplicationDrain(taken, o);
      SameDocumentsPresent(now.editors, DrainApplication(taken, o).editors, owner);
    case ApplicationDiscarding(consents) =>
      DiscardingDrain(taken, o, consents);
      SameDocumentsPresent(now.editors, DrainDiscarding(taken, o, consents).editors, owner);
    case Document(t) => OnlyTargetLeaves(taken, o, t, k);
    case _ =>
  }

  // ----- what a drain records

  lemma {:induction false} ConsentsNameUnsaved(editors: seq<Editor>)
    ensures forall c :: c in Consents(editors) ==> exists e :: e in editors && e.Unsaved() && e.Identity() == (c.owner, c.revision)
    decreases |editors|
  {
    if editors != [] {
      ConsentsNameUnsaved(editors[1..]);
      forall c | c in Consents(editors)
        ensures exists e :: e in editors && e.Unsaved() && e.Identity() == (c.owner, c.revision)
      {
        if c in Consents(editors[1..]) {
          var e :| e in editors[1..] && e.Unsaved() && e.Identity() == (c.owner, c.revision);
          assert e in editors;
        } else {
          assert editors[0] in editors && c == ConsentOf(editors[0]);
        }
      }
    }
  }

  /** New answers in `after`: only with Don't Save now, and only for unsaved documents as they are. */
  ghost predicate RecordsUnsaved(s: State, o: Outside, after: State) {
    forall id :: id in after.discarded && id !in s.discarded ==>
      o.prompt == Answer(DontSave) && exists e :: e in s.editors && e.Unsaved() && e.Identity() == id
  }

  lemma CaptureRecords(s: State, o: Outside)
    requires o.prompt == Answer(DontSave)
    ensures RecordsUnsaved(s, o, CaptureAndDiscard(s).0)
  {
    hide DiscardForExit, Consents;
    var consents := Consents(s.editors);
    ConsentsNameUnsaved(s.editors);
    DiscardForExitOutcome(s.(editors := Frozen(s.editors), discarded := s.discarded + Identities(consents)), consents);
  }

  lemma ApplicationRecords(s: State, o: Outside)
    ensures RecordsUnsaved(s, o, DrainApplication(s, o))
  {
    hide CaptureAndDiscard, RecordsUnsaved;
    var after := DrainApplication(s, o);
    SameRecords(s, o, after);
    if o.prompt == Answer(DontSave) && after.discarded != s.discarded {
      CaptureRecords(s, o);
      SameDiscarded(s, o, CaptureAndDiscard(s).0, after);
    }
  }

  lemma SameRecords(s: State, o: Outside, after: State)
    ensures after.discarded == s.discarded ==> RecordsUnsaved(s, o, after)
  {
  }

  lemma SameDiscarded(s: State, o: Outside, a: State, b: State)
    requires a.discarded == b.discarded
    ensures RecordsUnsaved(s, o, a) <==> RecordsUnsaved(s, o, b)
  {
  }

  lemma FinishRecords(s: State, o: Outside, t: CloseTarget, i: nat)
    requires i < |s.editors|
    ensures FinishClose(s, o, t, i).discarded == s.discarded
  {
  }

  lemma DocumentRecords(s: State, o: Outside, t: CloseTarget)
    ensures RecordsUnsaved(s, o, CloseDocument(s, o, t))
  {
    hide IndexOf, FinishClose;
    match IndexOf(s.editors, t.owner)
    case None =>
    case Some(i) =>
      var at := t.(index := i);
      var (asked, confirmed, ok) := ConfirmDocument(s, o, at, i);
      assert s.editors[i] in s.editors;
      FinishRecords(s, o, at, i);
      FinishRecords(asked, o, confirmed, i);
  }

  /** A drain records nothing but the user's Don't Save answers in it, each for a document that is
      unsaved at that moment, under its present identity. */
  lemma DrainRecordsUnsaved(now: State, o: Outside)
    ensures RecordsUnsaved(now, o, Drained(now, o))
  {
    hide DrainApplication, DrainDiscarding, CloseDocument;
    var taken := now.(pending := NoClose);
    match now.pending
    case Application => ApplicationRecords(taken, o);
    case ApplicationDiscarding(consents) => DiscardingRecords(taken, o, consents);
    case Document(t) => DocumentRecords(taken, o, t);
    case _ =>
  }

  lemma DiscardingRecords(s: State, o: Outside, consents: seq<Consent>)
    ensures DrainDiscarding(s, o, consents).discarded == s.discarded
  {
    hide DiscardForExit;
    DiscardForExitOutcome(s, consents);
  }

  // ----- the discard of one document

  lemma DiscardServed(s: State, o: Outside, t: CloseTarget, i: nat)
    requires i < |s.editors| && s.active < |s.editors| && s.pending.NoClose? && t.discarding && !t.saving
    requires !s.editors[i].DocumentBusy()
    ensures var after := FinishClose(s, o, t, i);
      || ClosedOnly(s, after, i)
      || after.pending == Document(t)
      || (after.pending.NoClose? && after.editors == s.editors[i := Restored(s.editors[i], t.wasReadOnly)])
  {
    var asked := s.(editors := s.editors[i := s.editors[i].(retiring := true)]);
    RemovedClosesOnly(s, s, o, i);
    RemovedClosesOnly(s, asked, o, i);
  }

  /** A document discard that is drained ends with the tab gone, still waiting for the same
      revision, or given back its flag, unless the workspace finds the document busy: then the
      request is dropped and the temporary freeze stays. */
  lemma DocumentDiscardOutcome(s: State, o: Outside, t: CloseTarget)
    requires Inv(s) && s.pending.NoClose? && t.discarding && !t.saving && (t.owner, t.revision) in s.discarded
    requires IndexOf(s.editors, t.owner).Some?
    ensures var i := IndexOf(s.editors, t.owner).value;
      var e := s.editors[i];
      var after := CloseDocument(s, o, t);
      var stuck := e.revision == t.revision && e.DocumentBusy();
      && (stuck ==> after == s)
      && (!stuck ==>
            || ClosedOnly(s, after, i)
            || after.pending == Document(t.(index := i))
            || (after.pending.NoClose? && after.editors == s.editors[i := Restored(e, t.wasReadOnly)]))
  {
    hide Removed, ClosedOnly;
    var i := IndexOf(s.editors, t.owner).value;
    if s.editors[i].revision == t.revision && !s.editors[i].DocumentBusy() {
      DiscardServed(s, o, t.(index := i), i);
    }
  }
}
