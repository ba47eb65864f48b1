/** The editor shell's close and exit methods, in place: each leaves exactly the state that
    the close protocol says, and a drain keeps what the protocol was proved to keep. */
module ShellMethods {
  import opened Wrappers
  import opened CloseProtocol
  import CloseSafety
  import ExitDiscard

  class Shell {
    var editors: seq<Editor>
    var active: nat
    var pendingClose: PendingClose
    var exited: bool
    var nextOwner: nat
    var session: SessionExit
    var reloading: set<(nat, nat)>
    ghost var discarded: set<(nat, nat)>

    ghost function Now(): State
      reads this
    {
      State(editors, active, pendingClose, exited, nextOwner, session, reloading, discarded)
    }

    /** Position of the document's tab. */
    method FindOwner(owner: nat) returns (found: Option<nat>)
      ensures found == IndexOf(editors, owner)
    {
      var i := 0;
      assert editors[0..] == editors;
      while i < |editors|
        invariant 0 <= i <= |editors|
        invariant IndexOf(editors, owner) ==
          (match IndexOf(editors[i..], owner) case None => None case Some(k) => Some(k + i))
      {
        if editors[i].owner == owner {
          return Some(i);
        }
        assert editors[i..][1..] == editors[i + 1..];
        i := i + 1;
      }
      return None;
    }

    method CancelExitDiscard(consents: seq<Consent>)
      modifies this`editors
      ensures editors == CancelDiscard(old(editors), consents)
      ensures CloseSafety.Distinct(old(editors)) && ExitDiscard.DistinctConsents(consents) ==>
        ExitDiscard.GivenBack(editors, consents)
    {
      if CloseSafety.Distinct(editors) && ExitDiscard.DistinctConsents(consents) {
        ExitDiscard.CancelGivesBack(editors, consents);
      }
      for k := 0 to |consents|
        invariant CancelDiscard(editors, consents[k..]) == CancelDiscard(old(editors), consents)
      {
        assert consents[k..][0] == consents[k] && consents[k..][1..] == consents[k + 1..];
        var found := FindOwner(consents[k].owner);
        if found.Some? {
          editors := editors[found.value := Restored(editors[found.value], consents[k].wasReadOnly)];
        }
      }
    }

    method ExitDiscardStillCurrent(consents: seq<Consent>) returns (current: bool)
      ensures current <==> StillCurrent(editors, consents)
    {
      for i := 0 to |editors|
        invariant forall e :: e in editors[..i] && e.Unsaved() ==> e.Identity() in Identities(consents)
      {
        assert editors[i] in editors;
        assert forall e :: e in editors[..i + 1] ==> e in editors[..i] || e == editors[i];
        if editors[i].Unsaved() && !(exists c :: c in consents && c.owner == editors[i].owner && c.revision == editors[i].revision) {
          assert editors[i].Identity() !in Identities(consents);
          return false;
        }
        if editors[i].Unsaved() {
          var c :| c in consents && c.owner == editors[i].owner && c.revision == editors[i].revision;
          assert (c.owner, c.revision) in Identities(consents);
        }
      }
      assert editors[..|editors|] == editors;
      return true;
    }

    method AskRecoveries(indexes: seq<nat>) returns (outcome: DiscardPoll)
      requires InRange(indexes, |editors|)
      modifies this`editors
      ensures (editors, outcome) == DiscardRecoveries(old(editors), indexes, Durable)
    {
      outcome := Durable;
      for k := 0 to |indexes|
        invariant |editors| == |old(editors)| && InRange(indexes[k..], |editors|)
        invariant DiscardRecoveries(editors, indexes[k..], outcome) == DiscardRecoveries(old(editors), indexes, Durable)
      {
        var i := indexes[k];
        assert indexes[k..][0] == i && indexes[k..][1..] == indexes[k + 1..];
        if editors[i].ownsText {
          var poll := editors[i].poll;
          editors := editors[i := editors[i].(retiring := true)];
          match poll
          case TombstoneFailed => return TombstoneFailed;
          case StillPending => outcome := StillPending;
          case CleanupPending => if !outcome.StillPending? { outcome := CleanupPending; }
          case Durable =>
        }
      }
    }

    ghost function Prefixed(first: seq<nat>, rest: Option<seq<nat>>): Option<seq<nat>> {
      match rest case None => None case Some(more) => Some(first + more)
    }

    method DiscardForExitIdentities(consents: seq<Consent>) returns (granted: bool)
      modifies this`editors, this`pendingClose
      ensures (Now(), granted) == DiscardForExit(old(Now()), consents)
    {
      var indexes: seq<nat> := [];
      assert consents[0..] == consents && forall rest: seq<nat> :: [] + rest == rest;
      for k := 0 to |consents|
        invariant InRange(indexes, |editors|)
        invariant Now() == old(Now())
        invariant Resolve(editors, consents) == Prefixed(indexes, Resolve(editors, consents[k..]))
      {
        assert consents[k..][0] == consents[k] && consents[k..][1..] == consents[k + 1..];
        var found := FindOwner(consents[k].owner);
        if found.None? || editors[found.value].revision != consents[k].revision {
          assert Resolve(editors, consents[k..]).None? && Resolve(editors, consents).None?;
          CancelExitDiscard(consents);
          return false;
        }
        ghost var rest := Resolve(editors, consents[k + 1..]);
        assert rest.Some? ==> indexes + ([found.value] + rest.value) == (indexes + [found.value]) + rest.value;
        indexes := indexes + [found.value];
      }
      assert indexes + [] == indexes;
      var outcome := AskRecoveries(indexes);
      match outcome
      case StillPending =>
        pendingClose := ApplicationDiscarding(consents);
        return false;
      case TombstoneFailed =>
        CancelExitDiscard(consents);
        return false;
      case _ =>
        granted := ExitDiscardStillCurrent(consents);
        if !granted {
          CancelExitDiscard(consents);
        }
    }

    /** Captures and freezes every unsaved document, in tab order. */
    method CaptureConsents() returns (consents: seq<Consent>)
      modifies this`editors
      ensures editors == Frozen(old(editors)) && consents == Consents(old(editors))
    {
      consents := [];
      ghost var before := editors;
      assert before[0..] == before;
      for i := 0 to |editors|
        invariant |editors| == |before|
        invariant consents + Consents(before[i..]) == Consents(before)
        invariant forall k :: 0 <= k < i ==> editors[k] == (if before[k].Unsaved() then before[k].(readOnly := true) else before[k])
        invariant forall k :: i <= k < |editors| ==> editors[k] == before[k]
      {
        assert before[i..][0] == before[i] && before[i..][1..] == before[i + 1..];
        if editors[i].Unsaved() {
          consents := consents + [ConsentOf(editors[i])];
          editors := editors[i := editors[i].(readOnly := true)];
        }
      }
      assert before[|before|..] == [] && consents + [] == consents;
      assert editors == Frozen(before);
    }

    /** Don't Save: captures and freezes every unsaved document, then asks for the discard. */
    method DiscardForExitIndexes() returns (granted: bool)
      modifies this`editors, this`pendingClose, this`discarded
      ensures (Now(), granted) == CaptureAndDiscard(old(Now()))
    {
      hide DiscardForExit, Identities, Consents, Frozen;
      var consents := CaptureConsents();
      discarded := discarded + Identities(consents);
      granted := DiscardForExitIdentities(consents);
    }

    method ConfirmExitPrompt(o: Outside) returns (ok: bool)
      modifies this`editors, this`pendingClose, this`discarded
      ensures (Now(), ok) == ConfirmExit(old(Now()), o)
    {
      if forall e :: e in editors ==> !e.Unsaved() {
        return true;
      }
      match o.prompt
      case Answer(choice) =>
        match choice {
          case DontSave => ok := DiscardForExitIndexes();
          case Save => pendingClose := ApplicationAfterSaves; return false;
          case Cancel => return false;
        }
      case _ => return false;
    }

    method RequestClose(o: Outside, confirmed: bool)
      modifies this
      ensures Now() == RequestCloseNow(old(Now()), o, confirmed)
    {
      if !o.launchesReady {
        return;
      }
      if !confirmed {
        var ok := ConfirmExitPrompt(o);
        if !ok {
          if o.prompt.Waiting? {
            pendingClose := Application;
          }
          return;
        }
      }
      var held := SessionHolds(o);
      if !held && o.launchesStillReady {
        exited := true;
      }
    }

    /** `session_before_exit`: starts saving the session with the documents as they are. */
    method SessionHolds(o: Outside) returns (held: bool)
      modifies this`session
      ensures (Now(), held) == SessionBeforeExit(old(Now()), o)
    {
      match session
      case SessionFailed => return false;
      case SavingSession(_) => return true;
      case NotLeaving =>
        match o.session {
          case NotNeeded => return false;
          case HeldBack => return true;
          case SaveStarted => session := SavingSession(Documents(editors)); return true;
          case SaveRefused => session := SessionFailed; return true;
        }
    }

    /** The exit that waited for the session goes on only with the documents it captured. */
    method CompleteSessionSave(ok: bool, ioBusy: bool, launchesReady: bool)
      modifies this`session, this`exited
      ensures Now() == Next(old(Now()), SessionWritten(ok, ioBusy, launchesReady))
    {
      if !session.SavingSession? {
        return;
      }
      if !ok {
        session := SessionFailed;
        return;
      }
      var same := !ioBusy && |editors| == |session.documents|;
      ghost var captured := session.documents;
      for i := 0 to |editors|
        invariant session == old(session)
        invariant same ==> !ioBusy && |editors| == |captured|
        invariant same ==> forall k :: 0 <= k < i ==> !editors[k].busy && (editors[k].owner, editors[k].content) == captured[k]
        invariant same || ioBusy || |editors| != |captured|
                  || exists k :: 0 <= k < i && (editors[k].busy || (editors[k].owner, editors[k].content) != captured[k])
      {
        same := same && !editors[i].busy && (editors[i].owner, editors[i].content) == session.documents[i];
      }
      assert same ==> Documents(editors) == captured;
      assert same ==> forall e :: e in editors ==> !e.busy;
      assert !same && !ioBusy && Documents(editors) == captured ==> exists k :: 0 <= k < |editors| && editors[k].busy by {
        assert forall k :: 0 <= k < |editors| ==> Documents(editors)[k] == (editors[k].owner, editors[k].content);
      }
      if same && launchesReady {
        exited := true;
      } else {
        session := NotLeaving;
      }
    }

    /** `reload` and `encoding_interpret`: accepted for the idle document at its present revision. */
    method RequestReload(owner: nat, confirmed: bool)
      modifies this`reloading
      ensures Now() == Next(old(Now()), Reload(owner, confirmed))
    {
      var found := FindOwner(owner);
      if found.Some? && !editors[found.value].busy && (!editors[found.value].Dirty() || confirmed) {
        reloading := reloading + {editors[found.value].Identity()};
      }
    }

    /** A finished open, reload or Interpret As: the fresh document takes the tab, or the gate for
        the recovery of its edits delays or abandons it. */
    method CompleteReload(owner: nat, copiesFlag: bool, guard: bool)
      modifies this`editors, this`nextOwner, this`reloading
      ensures Now() == Next(old(Now()), Attach(owner, copiesFlag, guard))
    {
      hide IndexOf;
      var found := FindOwner(owner);
      if found.None? {
        return;
      }
      var i := found.value;
      var e := editors[i];
      var preview := !e.ownsText && !e.Dirty();
      if !preview {
        if e.Identity() !in reloading || e.busy {
          return;
        }
        if e.Dirty() && e.poll.StillPending? {
          editors := editors[i := e.(retiring := true)];
          return;
        }
        if e.Dirty() && e.poll.TombstoneFailed? {
          editors := editors[i := e.(retiring := false)];
          reloading := reloading - {e.Identity()};
          return;
        }
      }
      editors := editors[i := Fresh(nextOwner).(readOnly := (copiesFlag && e.readOnly) || guard)];
      nextOwner := nextOwner + 1;
      reloading := reloading - {e.Identity()};
    }

    method ApplicationCloseReady(o: Outside, request: PendingClose) returns (ready: bool)
      modifies this`pendingClose
      ensures (Now(), ready) == CloseReady(old(Now()), o, request)
    {
      if o.settingsBusy || o.ioBusy || o.gate.Defer? {
        pendingClose := request;
        return false;
      }
      return o.gate.Pass?;
    }

    method ConfirmCloseDocument(o: Outside, t: CloseTarget, i: nat) returns (target: CloseTarget, ok: bool)
      requires i < |editors|
      modifies this`editors, this`pendingClose, this`discarded
      ensures (Now(), target, ok) == ConfirmDocument(old(Now()), o, t, i)
    {
      target := t;
      var e := editors[i];
      if e.DocumentBusy() {
        pendingClose := Document(t.(deferred := true));
        return t, false;
      }
      if !e.Dirty() {
        return t, true;
      }
      if !o.platform {
        return t, false;
      }
      match o.prompt
      case Waiting =>
        pendingClose := Document(t);
        return t, false;
      case PromptFailed => return t, false;
      case Answer(choice) =>
        match choice {
          case Cancel => return t, false;
          case DontSave =>
            target := t.(owner := e.owner, revision := e.revision, wasReadOnly := e.readOnly, discarding := true);
            editors := editors[i := e.(readOnly := true)];
            discarded := discarded + {e.Identity()};
            return target, true;
          case Save =>
            if o.saveStarted {
              pendingClose := Document(t.(saving := true));
            } else if o.saveWaiting {
              pendingClose := Document(t);
            }
            return t, false;
        }
    }

    method RemoveTab(o: Outside, i: nat)
      requires i < |editors|
      modifies this`editors, this`active, this`nextOwner
      ensures Now() == Removed(old(Now()), o, i)
    {
      editors := editors[..i] + editors[i + 1..];
      if editors == [] && o.newDocument {
        editors := [Fresh(nextOwner)];
        nextOwner := nextOwner + 1;
      }
      var last := if editors == [] then 0 else |editors| - 1;
      if active > i {
        active := active - 1;
      } else if active == i {
        active := if i <= last then i else last;
      }
    }

    method CloseTab(o: Outside, t: CloseTarget, i: nat)
      requires i < |editors|
      modifies this
      ensures Now() == FinishClose(old(Now()), o, t, i)
    {
      var e := editors[i];
      if e.DocumentBusy() || (e.Dirty() && !t.discarding) {
        return;
      }
      if t.discarding && e.ownsText {
        editors := editors[i := e.(retiring := true)];
        match e.poll {
          case StillPending => pendingClose := Document(t); return;
          case TombstoneFailed => editors := editors[i := Restored(e, t.wasReadOnly)]; return;
          case _ =>
        }
      }
      RemoveTab(o, i);
    }

    method CloseDocumentWithRenderer(o: Outside, target: CloseTarget)
      modifies this
      ensures Now() == CloseDocument(old(Now()), o, target)
    {
      var found := FindOwner(target.owner);
      if found.None? {
        return;
      }
      var i := found.value;
      var e := editors[i];
      if e.revision != target.revision {
        if target.discarding {
          editors := editors[i := Restored(e, target.wasReadOnly)];
        }
        return;
      }
      var t := target.(index := i);
      if !t.discarding && !t.saving && !t.deferred && !Names(t, active, e, o.activeTab) {
        return;
      }
      if t.saving {
        if e.DocumentBusy() || o.preparing {
          pendingClose := Document(t);
          return;
        }
        if e.Dirty() {
          return;
        }
      } else if !t.discarding {
        var ok;
        t, ok := ConfirmCloseDocument(o, t, i);
        if !ok {
          return;
        }
      }
      CloseTab(o, t, i);
    }

    /** One drain of the queued close. Whatever it does, it keeps the invariant, and it reaches
        the exit only with the consents of the request it served. */
    method DrainPendingClose(o: Outside)
      modifies this
      ensures Now() == Drained(old(Now()), o)
      ensures CloseSafety.Inv(old(Now())) ==>
        && CloseSafety.Inv(Now())
        && (CloseSafety.Grants(old(Now()), Now()) ==> CloseSafety.ExitConsented(old(Now()), o, Now()))
    {
      CloseSafety.DrainIsSafe(Now(), o);
      if o.interactionWaiting {
        return;
      }
      var taken := pendingClose;
      pendingClose := NoClose;
      match taken
      case NoClose =>
      case Application =>
        var ready := ApplicationCloseReady(o, Application);
        if ready {
          RequestClose(o, false);
        }
      case ApplicationDiscarding(consents) =>
        var granted := DiscardForExitIdentities(consents);
        if granted {
          var ready := ApplicationCloseReady(o, ApplicationDiscarding(consents));
          if ready {
            RequestClose(o, true);
          }
        }
      case ApplicationAfterSaves =>
        if o.ioBusy || o.lifecycleBusy {
          pendingClose := ApplicationAfterSaves;
        } else if forall e :: e in editors ==> !e.Dirty() {
          var ready := ApplicationCloseReady(o, ApplicationAfterSaves);
          if ready {
            RequestClose(o, true);
          }
        }
      case Document(target) =>
        if o.renderer {
          CloseDocumentWithRenderer(o, target);
        }
    }

    method QueueActiveClose(tab: Option<nat>)
      modifies this`pendingClose
      ensures Now() == Next(old(Now()), QueueActive(tab))
    {
      if pendingClose.NoClose? && active < |editors| {
        var e := editors[active];
        pendingClose := Document(CloseTarget(active, e.owner, e.revision, tab, false, false, e.readOnly, false));
      }
    }
  }
}
