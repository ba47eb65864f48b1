/** Closing documents and leaving the editor: queued closes, Save / Don't Save consents keyed by
    document owner and revision, the temporary read-only freeze of consented documents, the
    asynchronous discard of their recovery data, reloads that put another document into a tab,
    and the session save an exit may wait for.

    `State` and its functions say what one drain of the queued close does; the class `Shell`
    does it in place. `Event` adds everything that may happen in between. */
module CloseProtocol {
  import opened Wrappers

  /** Answer of a document's recovery retirement. */
  datatype DiscardPoll = Durable | CleanupPending | StillPending | TombstoneFailed

  datatype Editor = Editor(
    owner: nat,          // stable identity of the document
    revision: nat,       // advances with every edit, undo and redo included
    content: nat,        // content state; undo comes back to an earlier one
    saved: nat,          // content state of the last save
    busy: bool,          // an edit is in flight
    saving: bool,        // a queued save holds the file
    readOnly: bool,      // the user's read-only flag, also used as the temporary freeze
    ownsText: bool,      // false for a preview of another document
    poll: DiscardPoll,   // what its recovery retirement answers next
    retiring: bool)      // recovery retirement was requested and not resumed
  {
    function Identity(): (nat, nat) { (owner, revision) }
    predicate Dirty() { content != saved }
    predicate Unsaved() { Dirty() || busy }
    predicate DocumentBusy() { busy || saving }
  }

  datatype CloseTarget = CloseTarget(
    index: nat, owner: nat, revision: nat, tab: Option<nat>,
    saving: bool, discarding: bool, wasReadOnly: bool, deferred: bool)

  datatype Consent = Consent(owner: nat, revision: nat, wasReadOnly: bool)

  datatype PendingClose =
    | NoClose
    | Document(target: CloseTarget)
    | Application
    | ApplicationDiscarding(consents: seq<Consent>)
    | ApplicationAfterSaves

  datatype SaveChoice = Save | DontSave | Cancel

  /** What a save prompt comes back with. */
  datatype Prompt = Waiting | Answer(choice: SaveChoice) | PromptFailed

  /** The gate of a running Replace in Files. */
  datatype Gate = Pass | Defer | Dismiss

  /** What becomes of the session before the program leaves: nothing to save, held back by split
      views with pending edits, a save that started, or one that could not be submitted. */
  datatype SessionAnswer = NotNeeded | HeldBack | SaveStarted | SaveRefused

  /** Whether the session is being saved for an exit, with the owner and content state of every
      document at that time, or failed so that the next exit goes without it. */
  datatype SessionExit = NotLeaving | SavingSession(documents: seq<(nat, nat)>) | SessionFailed

  /** Everything one drain learns from outside the editors. */
  datatype Outside = Outside(
    interactionWaiting: bool, renderer: bool, platform: bool, activeTab: Option<nat>,
    settingsBusy: bool, ioBusy: bool, lifecycleBusy: bool, preparing: bool, gate: Gate,
    prompt: Prompt, saveStarted: bool, saveWaiting: bool,
    launchesReady: bool, session: SessionAnswer, launchesStillReady: bool, newDocument: bool)

  datatype State = State(
    editors: seq<Editor>, active: nat, pending: PendingClose, exited: bool,
    nextOwner: nat,
    session: SessionExit,
    reloading: set<(nat, nat)>,  // identities whose reload or Interpret As was accepted
    discarded: set<(nat, nat)>)  // identities for which the user answered Don't Save

  // ----- editors by owner

  function IndexOf(editors: seq<Editor>, owner: nat): (r: Option<nat>)
    ensures r.Some? ==> r.value < |editors| && editors[r.value].owner == owner
    ensures r.None? ==> forall i :: 0 <= i < |editors| ==> editors[i].owner != owner
  {
    if editors == [] then None
    else if editors[0].owner == owner then Some(0)
    else match IndexOf(editors[1..], owner)
      case None => None
      case Some(i) => Some(i + 1)
  }

  function Restored(e: Editor, wasReadOnly: bool): Editor { e.(readOnly := wasReadOnly, retiring := false) }

  /** `cancel_exit_discard`: the read-only flag and recovery of every consented editor. */
  function CancelDiscard(editors: seq<Editor>, consents: seq<Consent>): (r: seq<Editor>)
    ensures |r| == |editors|
    decreases |consents|
  {
    if consents == [] then editors
    else
      var c := consents[0];
      match IndexOf(editors, c.owner)
      case None => CancelDiscard(editors, consents[1..])
      case Some(i) => CancelDiscard(editors[i := Restored(editors[i], c.wasReadOnly)], consents[1..])
  }

  function ConsentOf(e: Editor): Consent { Consent(e.owner, e.revision, e.readOnly) }

  /** The consents a Don't Save answer captures: every unsaved editor, in tab order. */
  function Consents(editors: seq<Editor>): seq<Consent> {
    if editors == [] then []
    else
      var e := editors[0];
      (if e.Unsaved() then [ConsentOf(e)] else []) + Consents(editors[1..])
  }

  function Frozen(editors: seq<Editor>): (r: seq<Editor>)
    ensures |r| == |editors|
  {
    seq(|editors|, i requires 0 <= i < |editors| =>
      if editors[i].Unsaved() then editors[i].(readOnly := true) else editors[i])
  }

  function Identities(consents: seq<Consent>): set<(nat, nat)> {
    set c | c in consents :: (c.owner, c.revision)
  }

  predicate InRange(indexes: seq<nat>, n: nat) {
    forall k :: 0 <= k < |indexes| ==> indexes[k] < n
  }

  /** The tabs of the consents, unless one is gone or was edited since. */
  function Resolve(editors: seq<Editor>, consents: seq<Consent>): (r: Option<seq<nat>>)
    ensures r.Some? ==> InRange(r.value, |editors|)
  {
    if consents == [] then Some([])
    else match IndexOf(editors, consents[0].owner)
      case None => None
      case Some(i) =>
        if editors[i].revision != consents[0].revision then None
        else match Resolve(editors, consents[1..])
          case None => None
          case Some(rest) => Some([i] + rest)
  }

  /** `discard_recoveries`: asks each document in turn; the first failure ends the pass. */
  function DiscardRecoveries(editors: seq<Editor>, indexes: seq<nat>, outcome: DiscardPoll): (r: (seq<Editor>, DiscardPoll))
    requires InRange(indexes, |editors|)
    ensures |r.0| == |editors|
    decreases |indexes|
  {
    if indexes == [] then (editors, outcome)
    else
      var i := indexes[0];
      if !editors[i].ownsText then DiscardRecoveries(editors, indexes[1..], outcome)
      else
        var asked := editors[i := editors[i].(retiring := true)];
        match editors[i].poll
        case TombstoneFailed => (asked, TombstoneFailed)
        case StillPending => DiscardRecoveries(asked, indexes[1..], StillPending)
        case CleanupPending =>
          DiscardRecoveries(asked, indexes[1..], if outcome.StillPending? then outcome else CleanupPending)
        case Durable => DiscardRecoveries(asked, indexes[1..], outcome)
  }

  /** No unsaved document lacks a consent for exactly its identity. */
  predicate StillCurrent(editors: seq<Editor>, consents: seq<Consent>) {
    forall e :: e in editors && e.Unsaved() ==> e.Identity() in Identities(consents)
  }

  // ----- leaving the application

  function CancelledExit(s: State, consents: seq<Consent>): State { s.(editors := CancelDiscard(s.editors, consents)) }

  /** What the answer of all recoveries makes of the exit; true when it may go on. */
  function Settle(s: State, consents: seq<Consent>, outcome: DiscardPoll): (State, bool) {
    match outcome
    case StillPending => (s.(pending := ApplicationDiscarding(consents)), false)
    case TombstoneFailed => (CancelledExit(s, consents), false)
    case _ => if StillCurrent(s.editors, consents) then (s, true) else (CancelledExit(s, consents), false)
  }

  /** `discard_for_exit_identities`: true when the exit may go on. */
  function DiscardForExit(s: State, consents: seq<Consent>): (State, bool) {
    match Resolve(s.editors, consents)
    case None => (CancelledExit(s, consents), false)
    case Some(indexes) =>
      var (polled, outcome) := DiscardRecoveries(s.editors, indexes, Durable);
      Settle(s.(editors := polled), consents, outcome)
  }

  /** Don't Save on the exit prompt: record the consents, freeze, and ask for the discard. */
  function CaptureAndDiscard(s: State): (State, bool) {
    var consents := Consents(s.editors);
    DiscardForExit(s.(editors := Frozen(s.editors), discarded := s.discarded + Identities(consents)), consents)
  }

  function ConfirmExit(s: State, o: Outside): (State, bool) {
    if forall e :: e in s.editors ==> !e.Unsaved() then (s, true)
    else match o.prompt
      case Answer(DontSave) => CaptureAndDiscard(s)
      case Answer(Save) => (s.(pending := ApplicationAfterSaves), false)
      case _ => (s, false)
  }

  /** The documents as `exit_unchanged` compares them later. */
  function Documents(editors: seq<Editor>): seq<(nat, nat)> {
    seq(|editors|, i requires 0 <= i < |editors| => (editors[i].owner, editors[i].content))
  }

  /** `session_before_exit`: true when the session keeps the program from leaving now. */
  function SessionBeforeExit(s: State, o: Outside): (State, bool) {
    match s.session
    case SessionFailed => (s, false)
    case SavingSession(_) => (s, true)
    case NotLeaving =>
      match o.session
      case NotNeeded => (s, false)
      case HeldBack => (s, true)
      case SaveStarted => (s.(session := SavingSession(Documents(s.editors))), true)
      case SaveRefused => (s.(session := SessionFailed), true)
  }

  function ExitNow(s: State, o: Outside): State {
    var (after, held) := SessionBeforeExit(s, o);
    if !held && o.launchesStillReady then after.(exited := true) else after
  }

  function RequestCloseNow(s: State, o: Outside, confirmed: bool): State {
    if !o.launchesReady then s
    else if confirmed then ExitNow(s, o)
    else
      var (after, ok) := ConfirmExit(s, o);
      if ok then ExitNow(after, o)
      else if o.prompt.Waiting? then after.(pending := Application)
      else after
  }

  /** `application_close_ready`: defers the request while something is busy. */
  function CloseReady(s: State, o: Outside, request: PendingClose): (State, bool) {
    if o.settingsBusy || o.ioBusy then (s.(pending := request), false)
    else match o.gate
      case Pass => (s, true)
      case Defer => (s.(pending := request), false)
      case Dismiss => (s, false)
  }

  function DrainApplication(s: State, o: Outside): State {
    var (ready, ok) := CloseReady(s, o, Application);
    if ok then RequestCloseNow(ready, o, false) else ready
  }

  function DrainDiscarding(s: State, o: Outside, consents: seq<Consent>): State {
    var (polled, granted) := DiscardForExit(s, consents);
    if !granted then polled
    else
      var (ready, ok) := CloseReady(polled, o, ApplicationDiscarding(consents));
      if ok then RequestCloseNow(ready, o, true) else ready
  }

  function DrainAfterSaves(s: State, o: Outside): State {
    if o.ioBusy || o.lifecycleBusy then s.(pending := ApplicationAfterSaves)
    else if exists e :: e in s.editors && e.Dirty() then s
    else
      var (ready, ok) := CloseReady(s, o, ApplicationAfterSaves);
      if ok then RequestCloseNow(ready, o, true) else ready
  }

  // ----- closing one document

  function Fresh(owner: nat): Editor {
    Editor(owner, 0, 0, 0, false, false, false, true, Durable, false)
  }

  /** The active index once tab `i` has left a strip of now `count` tabs. */
  function ActiveAfter(active: nat, i: nat, count: nat): nat {
    if active > i then active - 1
    else if active < i then active
    else if count == 0 then 0
    else if i < count then i
    else count - 1
  }

  /** The editor leaves the strip; the last one to leave makes room for a fresh document. */
  function Removed(s: State, o: Outside, i: nat): State
    requires i < |s.editors|
  {
    var left := s.editors[..i] + s.editors[i + 1..];
    if left == [] && o.newDocument then
      s.(editors := [Fresh(s.nextOwner)], nextOwner := s.nextOwner + 1, active := ActiveAfter(s.active, i, 1))
    else s.(editors := left, active := ActiveAfter(s.active, i, |left|))
  }

  /** `Workspace::close` and what the shell makes of its answer. */
  function FinishClose(s: State, o: Outside, t: CloseTarget, i: nat): State
    requires i < |s.editors|
  {
    var e := s.editors[i];
    if e.DocumentBusy() || (e.Dirty() && !t.discarding) then s
    else if t.discarding && e.ownsText then
      var asked := s.(editors := s.editors[i := e.(retiring := true)]);
      match e.poll
      case StillPending => asked.(pending := Document(t))
      case TombstoneFailed => s.(editors := s.editors[i := Restored(e, t.wasReadOnly)])
      case _ => Removed(asked, o, i)
    else Removed(s, o, i)
  }

  /** The document prompt. True when the close may go on at once, with the target to use. */
  function ConfirmDocument(s: State, o: Outside, t: CloseTarget, i: nat): (r: (State, CloseTarget, bool))
    requires i < |s.editors|
    ensures |r.0.editors| == |s.editors|
  {
    var e := s.editors[i];
    if e.DocumentBusy() then (s.(pending := Document(t.(deferred := true))), t, false)
    else if !e.Dirty() then (s, t, true)
    else if !o.platform then (s, t, false)
    else match o.prompt
      case Waiting => (s.(pending := Document(t)), t, false)
      case Answer(DontSave) =>
        (s.(editors := s.editors[i := e.(readOnly := true)], discarded := s.discarded + {e.Identity()}),
         t.(owner := e.owner, revision := e.revision, wasReadOnly := e.readOnly, discarding := true), true)
      case Answer(Save) =>
        if o.saveStarted then (s.(pending := Document(t.(saving := true))), t, false)
        else if o.saveWaiting then (s.(pending := Document(t)), t, false)
        else (s, t, false)
      case _ => (s, t, false)
  }

  predicate Names(t: CloseTarget, active: nat, e: Editor, tab: Option<nat>) {
    t.index == active && (t.owner, t.revision) == e.Identity() && t.tab == tab
  }

  function CloseDocument(s: State, o: Outside, target: CloseTarget): State {
    match IndexOf(s.editors, target.owner)
    case None => s
    case Some(i) =>
      var e := s.editors[i];
      if e.revision != target.revision then
        if target.discarding then s.(editors := s.editors[i := Restored(e, target.wasReadOnly)]) else s
      else
        var t := target.(index := i);
        if !t.discarding && !t.saving && !t.deferred && !Names(t, s.active, e, o.activeTab) then s
        else if t.saving then
          if e.DocumentBusy() || o.preparing then s.(pending := Document(t))
          else if e.Dirty() then s
          else FinishClose(s, o, t, i)
        else if t.discarding then FinishClose(s, o, t, i)
        else
          var (asked, confirmed, ok) := ConfirmDocument(s, o, t, i);
          if ok then FinishClose(asked, o, confirmed, i) else asked
  }

  /** `drain_pending_close`. */
  function Drained(s: State, o: Outside): State {
    if o.interactionWaiting then s
    else
      var taken := s.(pending := NoClose);
      match s.pending
      case NoClose => taken
      case Application => DrainApplication(taken, o)
      case ApplicationDiscarding(consents) => DrainDiscarding(taken, o, consents)
      case ApplicationAfterSaves => DrainAfterSaves(taken, o)
      case Document(target) => if o.renderer then CloseDocument(taken, o, target) else taken
  }

  // ----- what happens between drains

  datatype Event =
    | Edit(owner: nat, content: nat)
    | Saved(owner: nat, content: nat)
    | Worker(owner: nat, busy: bool, saving: bool, poll: DiscardPoll)
    | UserReadOnly(owner: nat, readOnly: bool)
    | NewTab(content: nat, ownsText: bool)
    | Reload(owner: nat, confirmed: bool)
    | Attach(owner: nat, copiesFlag: bool, guard: bool)
    | AbandonReload(owner: nat, resumes: bool)
    | Reorder(order: seq<nat>, active: nat)
    | Activate(index: nat)
    | QueueActive(tab: Option<nat>)
    | QueuePlaceholder(index: nat)
    | QueueApplication
    | SessionWritten(ok: bool, ioBusy: bool, launchesReady: bool)
    | Drain(outside: Outside)

  function Updated(editors: seq<Editor>, owner: nat, f: Editor -> Editor): seq<Editor> {
    match IndexOf(editors, owner)
    case None => editors
    case Some(i) => editors[i := f(editors[i])]
  }

  // ----- another document in the same tab

  /** The tab of `owner` takes a file's text in place of its own: a loading or failed preview at
      once, a document only after an accepted reload, idle at the revision it had then, and once
      the recovery of its edits is retired. */
  predicate Attaches(s: State, owner: nat) {
    match IndexOf(s.editors, owner)
    case None => false
    case Some(i) =>
      var e := s.editors[i];
      || (!e.ownsText && !e.Dirty())
      || (e.Identity() in s.reloading && !e.busy && (e.Dirty() ==> e.poll.Durable? || e.poll.CleanupPending?))
  }

  /** The fresh document that takes the tab keeps the read-only flag when view settings are
      copied; a guard for binary text sets it. */
  function Successor(s: State, e: Editor, copiesFlag: bool, guard: bool): Editor {
    Fresh(s.nextOwner).(readOnly := (copiesFlag && e.readOnly) || guard)
  }

  /** A finished open, reload or Interpret As of the tab of `owner`. */
  function Attached(s: State, owner: nat, copiesFlag: bool, guard: bool): State {
    match IndexOf(s.editors, owner)
    case None => s
    case Some(i) =>
      var e := s.editors[i];
      if Attaches(s, owner) then
        s.(editors := s.editors[i := Successor(s, e, copiesFlag, guard)], nextOwner := s.nextOwner + 1,
           reloading := s.reloading - {e.Identity()})
      else if e.Identity() in s.reloading && !e.busy then
        match e.poll
        case StillPending => s.(editors := s.editors[i := e.(retiring := true)])
        case _ => s.(editors := s.editors[i := e.(retiring := false)], reloading := s.reloading - {e.Identity()})
      else s
  }

  /** A reload is accepted for the idle document at its present revision, and for unsaved text
      only when the user confirmed to discard it. */
  function Requested(s: State, owner: nat, confirmed: bool): State {
    match IndexOf(s.editors, owner)
    case None => s
    case Some(i) =>
      var e := s.editors[i];
      if e.busy || (e.Dirty() && !confirmed) then s else s.(reloading := s.reloading + {e.Identity()})
  }

  // ----- leaving once the session is written

  /** The exit that waited for the session goes on only with the documents it captured. */
  function Written(s: State, ok: bool, ioBusy: bool, launchesReady: bool): State {
    match s.session
    case SavingSession(documents) =>
      if !ok then s.(session := SessionFailed)
      else if ioBusy || Documents(s.editors) != documents || (exists e :: e in s.editors && e.busy) || !launchesReady then
        s.(session := NotLeaving)
      else s.(exited := true)
    case _ => s
  }

  predicate Permutation(order: seq<nat>, n: nat) {
    && |order| == n
    && (forall i :: 0 <= i < n ==> order[i] < n)
    && (forall i, j :: 0 <= i < j < n ==> order[i] != order[j])
  }

  function QueuedTarget(s: State, index: nat, tab: Option<nat>, wasReadOnly: bool, deferred: bool): CloseTarget
    requires index < |s.editors|
  {
    CloseTarget(index, s.editors[index].owner, s.editors[index].revision, tab, false, false, wasReadOnly, deferred)
  }

  function Next(s: State, e: Event): State {
    match e
    case Edit(owner, content) =>
      s.(editors := Updated(s.editors, owner, (x: Editor) => x.(revision := x.revision + 1, content := content)))
    case Saved(owner, content) => s.(editors := Updated(s.editors, owner, (x: Editor) => x.(saved := content)))
    case Worker(owner, busy, saving, poll) =>
      s.(editors := Updated(s.editors, owner, (x: Editor) => x.(busy := busy, saving := saving, poll := poll)))
    case UserReadOnly(owner, readOnly) =>
      s.(editors := Updated(s.editors, owner, (x: Editor) => x.(readOnly := readOnly)))
    case NewTab(content, ownsText) =>
      s.(editors := s.editors + [Fresh(s.nextOwner).(content := content, ownsText := ownsText)], nextOwner := s.nextOwner + 1)
    case Reload(owner, confirmed) => Requested(s, owner, confirmed)
    case Attach(owner, copiesFlag, guard) => Attached(s, owner, copiesFlag, guard)
    case AbandonReload(owner, resumes) =>
      s.(editors := Updated(s.editors, owner, (x: Editor) => x.(retiring := x.retiring && !resumes)),
         reloading := set r | r in s.reloading && r.0 != owner)
    case Reorder(order, active) =>
      if Permutation(order, |s.editors|) && active < |s.editors| then
        s.(editors := seq(|order|, i requires 0 <= i < |order| => s.editors[order[i]]), active := active)
      else s
    case Activate(index) => if index < |s.editors| then s.(active := index) else s
    case QueueActive(tab) =>
      if s.pending.NoClose? && s.active < |s.editors| then
        s.(pending := Document(QueuedTarget(s, s.active, tab, s.editors[s.active].readOnly, false)))
      else s
    case QueuePlaceholder(index) =>
      if s.pending.NoClose? && index < |s.editors| then
        s.(pending := Document(QueuedTarget(s, index, None, false, true)))
      else s
    case QueueApplication => s.(pending := Application)
    case SessionWritten(ok, ioBusy, launchesReady) => Written(s, ok, ioBusy, launchesReady)
    case Drain(outside) => Drained(s, outside)
  }
}
