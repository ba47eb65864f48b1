/** Exactly when a queued close takes its tab away, which tab follows, what waits otherwise, and
    exactly when the program leaves. */
module CloseOutcomes {
  import opened Wrappers
  import opened CloseProtocol
  import opened CloseSafety
  import opened ExitDiscard

  // ----- one document

  /** A close of the document in tab `i` is queued. */
  ghost predicate Queued(s: State, t: CloseTarget, i: nat) {
    && Distinct(s.editors) && s.pending == Document(t) && (t.discarding ==> !t.saving)
    && i < |s.editors| && s.editors[i].owner == t.owner
  }

  /** The recovery of the text is out of the way. */
  predicate Retired(e: Editor) { !e.ownsText || e.poll.Durable? || e.poll.CleanupPending? }

  /** The close still means the tab that was active when it was queued, or did not depend on it. */
  predicate StillMeant(s: State, o: Outside, t: CloseTarget, i: nat) {
    t.deferred || (i == s.active && t.tab == o.activeTab)
  }

  /** When the document leaves: idle at the captured revision, and saved, or discarded, or clean. */
  predicate Leaves(s: State, o: Outside, t: CloseTarget, i: nat)
    requires i < |s.editors|
  {
    var e := s.editors[i];
    && !o.interactionWaiting && o.renderer
    && e.revision == t.revision && !e.busy && !e.saving
    && if t.saving then !o.preparing && e.content == e.saved
       else if t.discarding then Retired(e)
       else StillMeant(s, o, t, i)
            && (e.content == e.saved || (o.platform && o.prompt == Answer(DontSave) && Retired(e)))
  }

  /** The document in tab `i` has gone and every other is as it was. The tab that was active stays
      so; if it was the one that went, the next tab follows, or else the one before it. Only the
      last document leaves the strip empty, and only when no fresh one takes its place. */
  ghost predicate TabGone(s: State, o: Outside, i: nat, after: State)
    requires i < |s.editors|
  {
    && (|s.editors| > 1 || !o.newDocument ==>
          after.editors == s.editors[..i] + s.editors[i + 1..] && after.nextOwner == s.nextOwner)
    && (|s.editors| == 1 && o.newDocument ==>
          after.editors == [Editor(s.nextOwner, 0, 0, 0, false, false, false, true, Durable, false)]
          && after.nextOwner == s.nextOwner + 1)
    && (|s.editors| > 1 && s.active < |s.editors| ==>
          && after.active < |after.editors|
          && after.editors[after.active] ==
             if i != s.active then s.editors[s.active]
             else if i + 1 < |s.editors| then s.editors[i + 1] else s.editors[i - 1])
    && (|s.editors| == 1 && s.active == 0 ==> after.active == 0)
    && after.exited == s.exited && after.session == s.session && after.reloading == s.reloading
  }

  ghost predicate SameTabs(s: State, after: State) {
    && |after.editors| == |s.editors| && after.active == s.active && after.nextOwner == s.nextOwner
    && after.exited == s.exited && after.session == s.session && after.reloading == s.reloading
  }

  lemma FoundAt(s: State, t: CloseTarget, i: nat)
    requires Queued(s, t, i)
    ensures IndexOf(s.editors, t.owner) == Some(i)
  {
    var found := IndexOf(s.editors, t.owner);
    assert found.Some?;
    assert found.value == i;
  }

  lemma RemovedIsGone(s: State, o: Outside, i: nat)
    requires i < |s.editors|
    ensures TabGone(s, o, i, Removed(s, o, i)) && Removed(s, o, i).discarded == s.discarded
    ensures Removed(s, o, i).pending == s.pending
  {
    var left := s.editors[..i] + s.editors[i + 1..];
    assert |left| == |s.editors| - 1;
  }

  /** Removing a tab whose own flags changed meanwhile takes away the same tab. */
  lemma RemovedAnyway(s: State, o: Outside, i: nat, e: Editor)
    requires i < |s.editors|
    ensures TabGone(s, o, i, Removed(s.(editors := s.editors[i := e]), o, i))
    ensures Removed(s.(editors := s.editors[i := e]), o, i).discarded == s.discarded
    ensures Removed(s.(editors := s.editors[i := e]), o, i).pending == s.pending
  {
    var changed := s.editors[i := e];
    assert changed[..i] == s.editors[..i] && changed[i + 1..] == s.editors[i + 1..];
    assert Removed(s.(editors := changed), o, i) == Removed(s, o, i);
    RemovedIsGone(s, o, i);
  }

  /** The tab stays, with these flags; every other document is as it was. */
  ghost predicate TabStays(s: State, i: nat, after: State, readOnly: bool, retiring: bool)
    requires i < |s.editors|
  {
    SameTabs(s, after) && after.editors == s.editors[i := s.editors[i].(readOnly := readOnly, retiring := retiring)]
  }

  lemma Untouched(s: State, i: nat, after: State)
    requires i < |s.editors| && SameTabs(s, after) && after.editors == s.editors
    ensures TabStays(s, i, after, s.editors[i].readOnly, s.editors[i].retiring)
  {
  }

  // ----- what a discard does to the document

  /** A discarding close of an idle document, from any state of its flags. */
  lemma DiscardFinishes(s: State, o: Outside, t: CloseTarget, i: nat, e: Editor)
    requires i < |s.editors| && t.discarding && Text(e) == Text(s.editors[i]) && !e.busy && !e.saving
    ensures var after := FinishClose(s.(editors := s.editors[i := e]), o, t, i);
      && (Retired(e) ==> TabGone(s, o, i, after) && after.pending == s.pending)
      && (!Retired(e) && e.poll.StillPending? ==> TabStays(s, i, after, e.readOnly, true) && after.pending == Document(t))
      && (!Retired(e) && e.poll.TombstoneFailed? ==> TabStays(s, i, after, t.wasReadOnly, false) && after.pending == s.pending)
      && after.discarded == s.discarded
  {
    RemovedAnyway(s, o, i, e);
    RemovedAnyway(s, o, i, e.(retiring := true));
    hide Removed, TabGone;
    var changed := s.editors[i := e];
    assert changed[i := e.(retiring := true)] == s.editors[i := e.(retiring := true)];
    assert changed[i := Restored(e, t.wasReadOnly)] == s.editors[i := Restored(e, t.wasReadOnly)];
  }

  lemma PlainFinishes(s: State, o: Outside, t: CloseTarget, i: nat)
    requires i < |s.editors| && !t.discarding
    ensures var e, after := s.editors[i], FinishClose(s, o, t, i);
      && (!e.busy && !e.saving && e.content == e.saved ==>
            TabGone(s, o, i, after) && after.pending == s.pending && after.discarded == s.discarded)
      && (e.busy || e.saving || e.content != e.saved ==> after == s)
  {
    RemovedIsGone(s, o, i);
    hide Removed, TabGone;
  }

  // ----- one drain

  /** The drain gets to the document at the revision the close was queued for. */
  predicate Reaches(s: State, o: Outside, t: CloseTarget, i: nat)
    requires i < |s.editors|
  {
    !o.interactionWaiting && o.renderer && s.editors[i].revision == t.revision
  }

  lemma CloseServed(s: State, o: Outside, t: CloseTarget, i: nat)
    requires Queued(s, t, i) && Reaches(s, o, t, i)
    ensures var taken, at := s.(pending := NoClose), t.(index := i);
      Drained(s, o) ==
      if !t.discarding && !t.saving && !StillMeant(s, o, t, i) then taken
      else if t.saving then
        if s.editors[i].busy || s.editors[i].saving || o.preparing then taken.(pending := Document(at))
        else if s.editors[i].content != s.editors[i].saved then taken
        else FinishClose(taken, o, at, i)
      else if t.discarding then FinishClose(taken, o, at, i)
      else
        var (asked, confirmed, ok) := ConfirmDocument(taken, o, at, i);
        if ok then FinishClose(asked, o, confirmed, i) else asked
  {
    FoundAt(s, t, i);
    hide FinishClose, ConfirmDocument, IndexOf;
  }

  /** A close that waits for a queued save, or that was never answered Don't Save and meets a clean
      or busy document. */
  lemma SavedCloses(s: State, o: Outside, t: CloseTarget, i: nat)
    requires Queued(s, t, i) && Reaches(s, o, t, i) && t.saving
    ensures var e, after := s.editors[i], Drained(s, o);
      && (Leaves(s, o, t, i) ==> TabGone(s, o, i, after) && after.pending.NoClose? && after.discarded == s.discarded)
      && (!Leaves(s, o, t, i) ==>
            TabStays(s, i, after, e.readOnly, e.retiring) && after.discarded == s.discarded
            && after.pending == if e.busy || e.saving || o.preparing then Document(t.(index := i)) else NoClose)
  {
    CloseServed(s, o, t, i);
    var taken := s.(pending := NoClose);
    PlainFinishes(taken, o, t.(index := i), i);
    hide FinishClose, ConfirmDocument, TabGone;
    assert s.editors[i := s.editors[i]] == s.editors;
  }

  lemma DiscardedCloses(s: State, o: Outside, t: CloseTarget, i: nat)
    requires Queued(s, t, i) && Reaches(s, o, t, i) && t.discarding
    ensures var e, after := s.editors[i], Drained(s, o);
      && (Leaves(s, o, t, i) ==> TabGone(s, o, i, after) && after.pending.NoClose? && after.discarded == s.discarded)
      && (!Leaves(s, o, t, i) ==>
            var idle := !e.busy && !e.saving;
            && TabStays(s, i, after, if idle && e.poll.TombstoneFailed? then t.wasReadOnly else e.readOnly,
                        if idle then e.poll.StillPending? else e.retiring)
            && after.discarded == s.discarded
            && after.pending == if idle && e.poll.StillPending? then Document(t.(index := i)) else NoClose)
  {
    CloseServed(s, o, t, i);
    var taken := s.(pending := NoClose);
    assert s.editors[i := s.editors[i]] == s.editors;
    if !s.editors[i].busy && !s.editors[i].saving {
      DiscardFinishes(taken, o, t.(index := i), i, s.editors[i]);
      hide FinishClose, ConfirmDocument, TabGone;
    } else {
      hide ConfirmDocument, TabGone;
    }
  }

  /** What waits after a close that asks about the document. */
  function Asked(o: Outside, t: CloseTarget, i: nat, e: Editor): PendingClose {
    if e.busy || e.saving then Document(t.(index := i, deferred := true))
    else if e.content == e.saved || !o.platform then NoClose
    else match o.prompt
      case Waiting => Document(t.(index := i))
      case Answer(Save) =>
        if o.saveStarted then Document(t.(index := i, saving := true))
        else if o.saveWaiting then Document(t.(index := i))
        else NoClose
      case Answer(DontSave) =>
        if !Retired(e) && e.poll.StillPending? then Document(t.(index := i, discarding := true, wasReadOnly := e.readOnly)) else NoClose
      case _ => NoClose
  }

  /** The drain gets as far as a Don't Save answer for the document. */
  predicate Declined(o: Outside, e: Editor) {
    !e.busy && !e.saving && e.content != e.saved && o.platform && o.prompt == Answer(DontSave)
  }

  lemma DeclinedCloses(s: State, o: Outside, t: CloseTarget, i: nat)
    requires Queued(s, t, i) && Reaches(s, o, t, i) && !t.saving && !t.discarding && StillMeant(s, o, t, i)
    requires Declined(o, s.editors[i])
    ensures var e, after := s.editors[i], Drained(s, o);
      && after.discarded == s.discarded + {e.Identity()}
      && (Retired(e) ==> TabGone(s, o, i, after) && after.pending.NoClose?)
      && (!Retired(e) ==>
            && TabStays(s, i, after, e.poll.StillPending? || e.readOnly, e.poll.StillPending?)
            && after.pending == Asked(o, t, i, e))
  {
    CloseServed(s, o, t, i);
    var e := s.editors[i];
    var base := s.(pending := NoClose, discarded := s.discarded + {e.Identity()});
    var confirmed := t.(index := i, owner := e.owner, revision := e.revision, wasReadOnly := e.readOnly, discarding := true);
    DiscardFinishes(base, o, confirmed, i, e.(readOnly := true));
    hide FinishClose, TabGone;
    assert confirmed == t.(index := i, wasReadOnly := e.readOnly, discarding := true);
  }

  lemma UndeclinedServed(s: State, o: Outside, t: CloseTarget, i: nat)
    requires Queued(s, t, i) && Reaches(s, o, t, i) && !t.saving && !t.discarding && StillMeant(s, o, t, i)
    requires !Declined(o, s.editors[i])
    ensures var taken, at, e := s.(pending := NoClose), t.(index := i), s.editors[i];
      Drained(s, o) ==
      if !e.busy && !e.saving && e.content == e.saved then FinishClose(taken, o, at, i)
      else taken.(pending := Asked(o, at, i, e))
  {
    hide FinishClose, ConfirmDocument, Asked, Drained;
    CloseServed(s, o, t, i);
    NotDeclined(s.(pending := NoClose), o, t.(index := i), i);
  }

  lemma UndeclinedCloses(s: State, o: Outside, t: CloseTarget, i: nat)
    requires Queued(s, t, i) && Reaches(s, o, t, i) && !t.saving && !t.discarding && StillMeant(s, o, t, i)
    requires !Declined(o, s.editors[i])
    ensures var e, after := s.editors[i], Drained(s, o);
      && after.discarded == s.discarded
      && (Leaves(s, o, t, i) ==> TabGone(s, o, i, after) && after.pending.NoClose?)
      && (!Leaves(s, o, t, i) ==> TabStays(s, i, after, e.readOnly, e.retiring) && after.pending == Asked(o, t, i, e))
  {
    hide FinishClose, TabGone, ConfirmDocument, Drained;
    UndeclinedServed(s, o, t, i);
    PlainFinishes(s.(pending := NoClose), o, t.(index := i), i);
    if TabGone(s.(pending := NoClose), o, i, Drained(s, o)) {
      GoneAnyway(s, o, i, Drained(s, o));
    }
    assert s.editors[i := s.editors[i]] == s.editors;
  }

  lemma GoneAnyway(s: State, o: Outside, i: nat, after: State)
    requires i < |s.editors| && TabGone(s.(pending := NoClose), o, i, after)
    ensures TabGone(s, o, i, after)
  {
  }

  lemma NotDeclined(s: State, o: Outside, t: CloseTarget, i: nat)
    requires i < |s.editors| && s.pending.NoClose? && t.index == i && !Declined(o, s.editors[i])
    ensures var e := s.editors[i];
      ConfirmDocument(s, o, t, i) ==
      if !e.busy && !e.saving && e.content == e.saved then (s, t, true) else (s.(pending := Asked(o, t, i, e)), t, false)
  {
    assert t.(index := i) == t;
  }

  /** A close that asks: what becomes of the document and of the request. */
  lemma AskedCloses(s: State, o: Outside, t: CloseTarget, i: nat)
    requires Queued(s, t, i) && Reaches(s, o, t, i) && !t.saving && !t.discarding
    ensures var e, after := s.editors[i], Drained(s, o);
      && after.discarded == s.discarded + (if StillMeant(s, o, t, i) && Declined(o, e) then {e.Identity()} else {})
      && (Leaves(s, o, t, i) ==> TabGone(s, o, i, after) && after.pending.NoClose?)
      && (!Leaves(s, o, t, i) ==>
            var declined := StillMeant(s, o, t, i) && Declined(o, e);
            && TabStays(s, i, after, if declined then e.poll.StillPending? || e.readOnly else e.readOnly,
                        if declined then e.poll.StillPending? else e.retiring)
            && after.pending == if StillMeant(s, o, t, i) then Asked(o, t, i, e) else NoClose)
  {
    if !StillMeant(s, o, t, i) {
      CloseServed(s, o, t, i);
      hide FinishClose, ConfirmDocument, TabGone;
      assert s.editors[i := s.editors[i]] == s.editors;
    } else if Declined(o, s.editors[i]) {
      DeclinedCloses(s, o, t, i);
      hide TabGone, TabStays;
    } else {
      UndeclinedCloses(s, o, t, i);
      hide TabGone, TabStays;
    }
  }

  /** A drain that does not get to the document: nothing while the user interacts; without a
      renderer, or at another revision, the request goes, and a freeze with it. */
  lemma UnreachedCloses(s: State, o: Outside, t: CloseTarget, i: nat)
    requires Queued(s, t, i) && !Reaches(s, o, t, i)
    ensures var e, after := s.editors[i], Drained(s, o);
      var thaws := !o.interactionWaiting && o.renderer && t.discarding;
      && TabStays(s, i, after, if thaws then t.wasReadOnly else e.readOnly, if thaws then false else e.retiring)
      && after.discarded == s.discarded && after.pending == if o.interactionWaiting then s.pending else NoClose
  {
    FoundAt(s, t, i);
    hide FinishClose, ConfirmDocument, IndexOf;
    assert s.editors[i := s.editors[i]] == s.editors;
  }

  /** A drained document close takes its tab away if and only if the document leaves; otherwise
      every tab stays, and at most the flags of this one change. */
  lemma DocumentCloses(s: State, o: Outside, t: CloseTarget, i: nat)
    requires Queued(s, t, i)
    ensures var after := Drained(s, o);
      && (Leaves(s, o, t, i) ==> TabGone(s, o, i, after) && after.pending.NoClose?)
      && (!Leaves(s, o, t, i) ==> exists readOnly, retiring :: TabStays(s, i, after, readOnly, retiring))
  {
    hide TabGone, TabStays;
    if !Reaches(s, o, t, i) {
      UnreachedCloses(s, o, t, i);
    } else if t.saving {
      SavedCloses(s, o, t, i);
    } else if t.discarding {
      DiscardedCloses(s, o, t, i);
    } else {
      AskedCloses(s, o, t, i);
    }
  }

  /** A queued close whose document is gone, or whose tab has another document now, goes. */
  lemma NothingToClose(s: State, o: Outside, t: CloseTarget)
    requires s.pending == Document(t) && forall i :: 0 <= i < |s.editors| ==> s.editors[i].owner != t.owner
    ensures Drained(s, o) == if o.interactionWaiting then s else s.(pending := NoClose)
  {
    assert IndexOf(s.editors, t.owner).None?;
  }

  // ----- leaving the program

  predicate Free(o: Outside) { !o.settingsBusy && !o.ioBusy && o.gate.Pass? }

  predicate AllSaved(editors: seq<Editor>) {
    forall e :: e in editors ==> e.content == e.saved && !e.busy
  }

  /** No session has to be saved first. */
  predicate SessionDone(s: State, o: Outside) {
    s.session.SessionFailed? || (s.session.NotLeaving? && o.session.NotNeeded?)
  }

  /** What the session comes to once an exit is granted. */
  function SessionAfter(s: State, o: Outside): SessionExit {
    if !s.session.NotLeaving? then s.session
    else match o.session
      case SaveStarted => SavingSession(seq(|s.editors|, i requires 0 <= i < |s.editors| => (s.editors[i].owner, s.editors[i].content)))
      case SaveRefused => SessionFailed
      case _ => NotLeaving
  }

  lemma GrantedLeaves(s: State, o: Outside)
    requires !s.exited
    ensures var after := ExitNow(s, o);
      && (after.exited <==> SessionDone(s, o) && o.launchesStillReady) && after.session == SessionAfter(s, o)
      && after == s.(exited := after.exited, session := after.session)
  {
  }

  /** Every unsaved document of the window has its recovery out of the way. */
  predicate AllRetired(editors: seq<Editor>) {
    forall e :: e in editors && (e.content != e.saved || e.busy) ==> Retired(e)
  }

  /** When a drain of an application close grants the exit. */
  predicate ApplicationGrants(s: State, o: Outside) {
    && !o.interactionWaiting && Free(o) && o.launchesReady
    && (AllSaved(s.editors) || (o.prompt == Answer(DontSave) && AllRetired(s.editors)))
  }

  lemma AnswersOfUnsaved(editors: seq<Editor>)
    ensures !Answers(editors, TombstoneFailed) && !Answers(editors, StillPending) <==> AllRetired(editors)
  {
  }

  /** A drained application close leaves the program exactly when it grants and neither session nor
      a launch holds it back; what waits otherwise, and what the session comes to. */
  lemma ApplicationLeaves(s: State, o: Outside)
    requires Distinct(s.editors) && s.pending == Application && !s.exited
    ensures var after := Drained(s, o);
      && (after.exited <==> ApplicationGrants(s, o) && SessionDone(s, o) && o.launchesStillReady)
      && after.session == (if ApplicationGrants(s, o) then SessionAfter(s, o) else s.session)
      && after.pending ==
         (if o.interactionWaiting || o.settingsBusy || o.ioBusy || o.gate.Defer? then Application
          else if o.gate.Dismiss? || !o.launchesReady || AllSaved(s.editors) then NoClose
          else match o.prompt
            case Waiting => Application
            case Answer(Save) => ApplicationAfterSaves
            case Answer(DontSave) =>
              if !Answers(s.editors, TombstoneFailed) && Answers(s.editors, StillPending)
              then ApplicationDiscarding(Consents(s.editors)) else NoClose
            case _ => NoClose)
      && (o.prompt != Answer(DontSave) || AllSaved(s.editors) ==> after.editors == s.editors && after.discarded == s.discarded)
  {
    var taken := s.(pending := NoClose);
    AnswersOfUnsaved(s.editors);
    if !o.interactionWaiting && Free(o) && o.launchesReady {
      SavedIsNotUnsaved(s.editors);
      if AllSaved(s.editors) {
        GrantedLeaves(taken, o);
      } else if o.prompt == Answer(DontSave) {
        CaptureResult(taken);
        CapturedDocuments(taken);
        GrantedLeaves(CaptureAndDiscard(taken).0, o);
      }
    }
  }

  lemma SavedIsNotUnsaved(editors: seq<Editor>)
    ensures AllSaved(editors) <==> forall e :: e in editors ==> !e.Unsaved()
  {
  }

  lemma CapturedDocuments(s: State)
    requires Distinct(s.editors) && s.pending.NoClose?
    ensures Documents(CaptureAndDiscard(s).0.editors) == Documents(s.editors)
  {
    CaptureResult(s);
  }

  /** The same after Save All: only a dirty document ends the request. */
  lemma SavedAllLeaves(s: State, o: Outside)
    requires s.pending == ApplicationAfterSaves && !s.exited
    ensures var after := Drained(s, o);
      var clean := forall e :: e in s.editors ==> e.content == e.saved;
      var grants := !o.interactionWaiting && Free(o) && !o.lifecycleBusy && clean && o.launchesReady;
      && (after.exited <==> grants && SessionDone(s, o) && o.launchesStillReady)
      && after.session == (if grants then SessionAfter(s, o) else s.session)
      && after.pending ==
         (if o.interactionWaiting || o.ioBusy || o.lifecycleBusy then ApplicationAfterSaves
          else if !clean then NoClose
          else if o.settingsBusy || o.gate.Defer? then ApplicationAfterSaves
          else NoClose)
      && after.editors == s.editors && after.discarded == s.discarded && after.active == s.active
  {
    GrantedLeaves(s.(pending := NoClose), o);
  }

  // ----- one poll of a waiting discard

  predicate Consented(consents: seq<Consent>, e: Editor) {
    exists c :: c in consents && c.owner == e.owner
  }

  /** Every consented document is still open at the consented revision. */
  predicate AllOpen(editors: seq<Editor>, consents: seq<Consent>) {
    forall c :: c in consents ==> exists e :: e in editors && e.owner == c.owner && e.revision == c.revision
  }

  /** Some consented document that owns its text answers so. */
  predicate SomeAnswers(editors: seq<Editor>, consents: seq<Consent>, poll: DiscardPoll) {
    exists e :: e in editors && Consented(consents, e) && e.ownsText && e.poll == poll
  }

  lemma FirstOpen(editors: seq<Editor>, c: Consent)
    requires Distinct(editors)
    ensures var i := IndexOf(editors, c.owner);
      (exists e :: e in editors && e.owner == c.owner && e.revision == c.revision) <==>
      i.Some? && editors[i.value].revision == c.revision
  {
    var i := IndexOf(editors, c.owner);
    if i.Some? {
      forall e | e in editors && e.owner == c.owner
        ensures e == editors[i.value]
      {
        var k: nat :| k < |editors| && editors[k] == e;
      }
    } else {
      assert forall k :: 0 <= k < |editors| ==> editors[k].owner != c.owner;
    }
  }

  lemma {:induction false} ResolveFinds(editors: seq<Editor>, consents: seq<Consent>)
    requires Distinct(editors)
    ensures Resolve(editors, consents).Some? <==> AllOpen(editors, consents)
    ensures Resolve(editors, consents).Some? ==> forall i :: 0 <= i < |editors| ==>
      (i in Resolve(editors, consents).value <==> Consented(consents, editors[i]))
    decreases |consents|
  {
    if consents != [] {
      var c, rest := consents[0], consents[1..];
      assert consents == [c] + rest;
      FirstOpen(editors, c);
      ResolveFinds(editors, rest);
      OpenCons(editors, c, rest);
      var found := IndexOf(editors, c.owner);
      if Resolve(editors, consents).Some? {
        forall i | 0 <= i < |editors|
          ensures i in Resolve(editors, consents).value <==> Consented(consents, editors[i])
        {
          ConsentedCons(c, rest, editors[i]);
          assert editors[i].owner == c.owner <==> i == found.value;
        }
      }
    }
  }

  lemma OpenCons(editors: seq<Editor>, c: Consent, rest: seq<Consent>)
    ensures AllOpen(editors, [c] + rest) <==>
      (exists e :: e in editors && e.owner == c.owner && e.revision == c.revision) && AllOpen(editors, rest)
  {
    assert forall x :: x in [c] + rest <==> x == c || x in rest;
  }

  lemma ConsentedCons(c: Consent, rest: seq<Consent>, e: Editor)
    ensures Consented([c] + rest, e) <==> c.owner == e.owner || Consented(rest, e)
  {
    assert c in [c] + rest;
    assert forall x :: x in [c] + rest <==> x == c || x in rest;
  }

  lemma AnswersThere(editors: seq<Editor>, consents: seq<Consent>, indexes: seq<nat>, poll: DiscardPoll)
    requires forall i :: 0 <= i < |editors| ==> (i in indexes <==> Consented(consents, editors[i]))
    ensures AnswersAt(editors, indexes, poll) <==> SomeAnswers(editors, consents, poll)
  {
    if SomeAnswers(editors, consents, poll) {
      var e :| e in editors && Consented(consents, e) && e.ownsText && e.poll == poll;
      var i: nat :| i < |editors| && editors[i] == e;
      assert i in indexes;
    }
  }

  lemma CurrentDespiteFlags(a: seq<Editor>, b: seq<Editor>, consents: seq<Consent>)
    requires SameDocuments(a, b)
    ensures StillCurrent(a, consents) <==> StillCurrent(b, consents)
  {
    forall e | e in a
      ensures exists x :: x in b && Text(x) == Text(e)
    {
      var i: nat :| i < |a| && a[i] == e;
      assert b[i] in b;
    }
    forall e | e in b
      ensures exists x :: x in a && Text(x) == Text(e)
    {
      var i: nat :| i < |b| && b[i] == e;
      assert a[i] in a;
    }
  }

  lemma ConsentedPass(editors: seq<Editor>, consents: seq<Consent>, indexes: seq<nat>)
    requires InRange(indexes, |editors|)
    requires forall i :: 0 <= i < |editors| ==> (i in indexes <==> Consented(consents, editors[i]))
    ensures var (polled, outcome) := DiscardRecoveries(editors, indexes, Durable);
      var failed := SomeAnswers(editors, consents, TombstoneFailed);
      && (outcome.TombstoneFailed? <==> failed)
      && (outcome.StillPending? <==> !failed && SomeAnswers(editors, consents, StillPending))
      && (StillCurrent(polled, consents) <==> StillCurrent(editors, consents))
  {
    hide DiscardRecoveries, StillCurrent, SomeAnswers;
    PassAnswers(editors, indexes, Durable);
    DiscardKeepsDocuments(editors, indexes, Durable);
    AnswersThere(editors, consents, indexes, TombstoneFailed);
    AnswersThere(editors, consents, indexes, StillPending);
    CurrentDespiteFlags(editors, DiscardRecoveries(editors, indexes, Durable).0, consents);
  }

  /** One poll grants the exit, or goes on waiting with the same consents, exactly under these
      conditions on the consented documents; otherwise it ends the request. */
  lemma PollGrants(s: State, consents: seq<Consent>)
    requires Distinct(s.editors) && s.pending.NoClose?
    ensures var (after, granted) := DiscardForExit(s, consents);
      var there := AllOpen(s.editors, consents) && !SomeAnswers(s.editors, consents, TombstoneFailed);
      var waits := SomeAnswers(s.editors, consents, StillPending);
      && (granted <==> there && !waits && StillCurrent(s.editors, consents))
      && after.pending == (if there && waits then ApplicationDiscarding(consents) else NoClose)
  {
    hide Resolve, DiscardRecoveries, StillCurrent, CancelDiscard, SomeAnswers, AllOpen, Consented, Distinct;
    ResolveFinds(s.editors, consents);
    var resolved := Resolve(s.editors, consents);
    if resolved.Some? {
      ConsentedPass(s.editors, consents, resolved.value);
    }
  }

  // ----- requests and what they come to

  /** Closing the active tab of a clean idle document: the request and one drain take it away. */
  lemma CleanTabCloses(s: State, o: Outside)
    requires Distinct(s.editors) && s.pending.NoClose? && s.active < |s.editors|
    requires var e := s.editors[s.active]; !e.busy && !e.saving && e.content == e.saved
    requires !o.interactionWaiting && o.renderer
    ensures var after := Drained(Next(s, QueueActive(o.activeTab)), o);
      TabGone(s, o, s.active, after) && after.pending.NoClose?
  {
    var queued := Next(s, QueueActive(o.activeTab));
    var t := queued.pending.target;
    DocumentCloses(queued, o, t, s.active);
    assert Leaves(queued, o, t, s.active);
    assert TabGone(queued, o, s.active, Drained(queued, o));
  }

  lemma UpdatedAt(s: State, i: nat)
    requires Distinct(s.editors) && i < |s.editors|
    ensures IndexOf(s.editors, s.editors[i].owner) == Some(i)
  {
    var found := IndexOf(s.editors, s.editors[i].owner);
    assert found.Some? && found.value == i;
  }

  /** A reload of an idle document, confirmed when it is dirty and its recovery out of the way, puts
      a clean document with a new owner into the same tab. A busy document, and a dirty one without
      confirmation, is never reloaded. */
  lemma ReloadReplaces(s: State, i: nat, confirmed: bool, copiesFlag: bool, guard: bool)
    requires Distinct(s.editors) && i < |s.editors|
    ensures var e := s.editors[i];
      var accepted := Next(s, Reload(e.owner, confirmed));
      && accepted.editors == s.editors
      && (e.busy || (e.content != e.saved && !confirmed) ==> accepted == s)
      && (!e.busy && (e.content != e.saved ==> confirmed && (e.poll.Durable? || e.poll.CleanupPending?)) ==>
            var after := Next(accepted, Attach(e.owner, copiesFlag, guard));
            && after.editors == s.editors[i := Editor(s.nextOwner, 0, 0, 0, false, false, (copiesFlag && e.readOnly) || guard, true, Durable, false)]
            && after.nextOwner == s.nextOwner + 1 && after.active == s.active && after.pending == s.pending)
  {
    UpdatedAt(s, i);
    UpdatedAt(Next(s, Reload(s.editors[i].owner, confirmed)), i);
  }

  /** An exit that waited for the session goes on exactly when the session was written, nothing is
      busy, no launch waits and every document is as it was captured. */
  lemma WrittenLeaves(s: State, ok: bool, ioBusy: bool, launchesReady: bool)
    requires s.session.SavingSession? && !s.exited
    ensures var after := Next(s, SessionWritten(ok, ioBusy, launchesReady));
      var same := |s.session.documents| == |s.editors|
                  && forall i :: 0 <= i < |s.editors| ==> s.session.documents[i] == (s.editors[i].owner, s.editors[i].content);
      && (after.exited <==> ok && !ioBusy && launchesReady && same && forall i :: 0 <= i < |s.editors| ==> !s.editors[i].busy)
      && after == s.(exited := after.exited,
                     session := if after.exited then s.session else if ok then NotLeaving else SessionFailed)
  {
    var documents := Documents(s.editors);
    assert forall i :: 0 <= i < |s.editors| ==> s.editors[i] in s.editors;
    assert documents == s.session.documents <==>
      |s.session.documents| == |s.editors|
      && forall i :: 0 <= i < |s.editors| ==> s.session.documents[i] == documents[i];
  }

  /** What a request to close a tab remembers: the document at its present revision, with the user's
      flag. The active tab is meant as it is shown; a placeholder may wait for its load. Nothing is
      queued behind another request. */
  lemma RequestsRemember(s: State, tab: Option<nat>, index: nat)
    ensures var active, other := Next(s, QueueActive(tab)), Next(s, QueuePlaceholder(index));
      && active == s.(pending := active.pending) && other == s.(pending := other.pending)
      && active.pending == (if s.pending.NoClose? && s.active < |s.editors| then
                              var e := s.editors[s.active];
                              Document(CloseTarget(s.active, e.owner, e.revision, tab, false, false, e.readOnly, false))
                            else s.pending)
      && other.pending == (if s.pending.NoClose? && index < |s.editors| then
                             var e := s.editors[index];
                             Document(CloseTarget(index, e.owner, e.revision, None, false, false, false, true))
                           else s.pending)
  {
  }

  /** A fresh tab that is opened, shown, closed and drained is as if it had never been. */
  lemma TabComesAndGoes(s: State, o: Outside)
    requires Inv(s) && s.pending.NoClose? && s.editors != [] && !o.interactionWaiting && o.renderer
    ensures var shown := Next(Next(s, NewTab(0, true)), Activate(|s.editors|));
      var after := Drained(Next(shown, QueueActive(o.activeTab)), o);
      && |shown.editors| == |s.editors| + 1 && after.editors == s.editors && after.pending.NoClose?
      && after.active == |s.editors| - 1 && after.discarded == s.discarded
  {
    var shown := Next(Next(s, NewTab(0, true)), Activate(|s.editors|));
    assert shown.editors == s.editors + [Fresh(s.nextOwner)];
    CleanTabCloses(shown, o);
    var queued := Next(shown, QueueActive(o.activeTab));
    AskedCloses(queued, o, queued.pending.target, |s.editors|);
    GoneFromEnd(shown, s, o, Drained(queued, o));
  }

  lemma GoneFromEnd(shown: State, s: State, o: Outside, after: State)
    requires s.editors != [] && shown.editors == s.editors + [Fresh(s.nextOwner)] && shown.active == |s.editors|
    requires Distinct(shown.editors) && TabGone(shown, o, |s.editors|, after)
    ensures after.editors == s.editors && after.active == |s.editors| - 1
  {
    var n := |s.editors|;
    assert shown.editors[..n] == s.editors && shown.editors[n + 1..] == [];
    assert after.editors == s.editors;
    assert after.editors[after.active] == s.editors[n - 1];
    assert forall k :: 0 <= k < n ==> shown.editors[k] == s.editors[k];
    OneTabEach(s.editors, after.active, n - 1);
  }

  lemma OneTabEach(editors: seq<Editor>, i: nat, j: nat)
    requires forall x, y :: 0 <= x < y < |editors| ==> editors[x].owner != editors[y].owner
    requires i < |editors| && j < |editors| && editors[i] == editors[j]
    ensures i == j
  {
  }

  /** A reload whose document is dirty waits while its recovery is being retired and is given up, with
      the recovery resumed, when that fails; either way the document stays. */
  lemma ReloadWaitsOrEnds(s: State, i: nat, copiesFlag: bool, guard: bool)
    requires Distinct(s.editors) && i < |s.editors|
    requires var e := s.editors[i]; e.ownsText && e.content != e.saved && !e.busy && e.Identity() in s.reloading
    requires s.editors[i].poll.StillPending? || s.editors[i].poll.TombstoneFailed?
    ensures var e := s.editors[i];
      var waits := e.poll.StillPending?;
      Next(s, Attach(e.owner, copiesFlag, guard)) ==
      s.(editors := s.editors[i := e.(retiring := waits)],
         reloading := if waits then s.reloading else s.reloading - {e.Identity()})
  {
    UpdatedAt(s, i);
  }
}
