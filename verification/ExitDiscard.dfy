/** How the discard of an application close settles: when the documents it froze get their
    read-only flags and their recovery back, and exactly when another application close that is
    queued meanwhile, or a refused exit, keeps them frozen. */
module ExitDiscard {
  import opened Wrappers
  import opened CloseProtocol
  import opened CloseSafety

  // ----- giving back

  predicate DistinctConsents(consents: seq<Consent>) {
    forall i, j :: 0 <= i < j < |consents| ==> consents[i].owner != consents[j].owner
  }

  /** Every open consented editor has its captured read-only flag and resumed recovery. */
  ghost predicate GivenBack(editors: seq<Editor>, consents: seq<Consent>) {
    forall i, c :: 0 <= i < |editors| && c in consents && editors[i].owner == c.owner ==>
      editors[i].readOnly == c.wasReadOnly && !editors[i].retiring
  }

  lemma {:induction false} OtherConsentsUntouched(editors: seq<Editor>, consents: seq<Consent>, i: nat)
    requires i < |editors| && forall c :: c in consents ==> c.owner != editors[i].owner
    ensures CancelDiscard(editors, consents)[i] == editors[i]
    decreases |consents|
  {
    if consents != [] {
      assert consents[0] in consents && forall c :: c in consents[1..] ==> c in consents;
      match IndexOf(editors, consents[0].owner)
      case None => OtherConsentsUntouched(editors, consents[1..], i);
      case Some(k) => OtherConsentsUntouched(editors[k := Restored(editors[k], consents[0].wasReadOnly)], consents[1..], i);
    }
  }

  lemma {:induction false} CancelGivesBack(editors: seq<Editor>, consents: seq<Consent>)
    requires Distinct(editors) && DistinctConsents(consents)
    ensures GivenBack(CancelDiscard(editors, consents), consents)
    decreases |consents|
  {
    if consents != [] {
      var c := consents[0];
      var restored := match IndexOf(editors, c.owner)
        case None => editors
        case Some(k) => editors[k := Restored(editors[k], c.wasReadOnly)];
      var after := CancelDiscard(restored, consents[1..]);
      CancelGivesBack(restored, consents[1..]);
      CancelKeepsDocuments(restored, consents[1..]);
      forall i, d | 0 <= i < |after| && d in consents && after[i].owner == d.owner
        ensures after[i].readOnly == d.wasReadOnly && !after[i].retiring
      {
        assert Text(restored[i]).owner == Text(after[i]).owner;
        if d == c {
          assert forall x :: x in consents[1..] ==> x.owner != c.owner;
          OtherConsentsUntouched(restored, consents[1..], i);
        } else {
          assert d in consents[1..];
        }
      }
    }
  }

  lemma {:induction false} UnsavedAreNamed(editors: seq<Editor>, i: nat)
    requires i < |editors| && editors[i].Unsaved()
    ensures ConsentOf(editors[i]) in Consents(editors)
    decreases |editors|
  {
    if i > 0 {
      UnsavedAreNamed(editors[1..], i - 1);
    }
  }

  lemma {:induction false} NamedAreUnsaved(editors: seq<Editor>, c: Consent)
    requires c in Consents(editors)
    ensures exists i :: 0 <= i < |editors| && editors[i].Unsaved() && c == ConsentOf(editors[i])
    decreases |editors|
  {
    if c in Consents(editors[1..]) {
      NamedAreUnsaved(editors[1..], c);
      var i :| 0 <= i < |editors| - 1 && editors[1..][i].Unsaved() && c == ConsentOf(editors[1..][i]);
      assert editors[i + 1] == editors[1..][i];
    } else {
      assert c == ConsentOf(editors[0]);
    }
  }

  lemma {:induction false} NamedOnce(editors: seq<Editor>)
    requires Distinct(editors)
    ensures DistinctConsents(Consents(editors))
    decreases |editors|
  {
    if editors != [] {
      var rest := Consents(editors[1..]);
      NamedOnce(editors[1..]);
      forall c | c in rest
        ensures c.owner != editors[0].owner
      {
        NamedAreUnsaved(editors[1..], c);
      }
    }
  }

  /** The consents name each unsaved editor once, with its revision and flag, and nobody else. */
  lemma ConsentsCapture(editors: seq<Editor>)
    requires Distinct(editors)
    ensures DistinctConsents(Consents(editors))
    ensures forall i :: 0 <= i < |editors| && editors[i].Unsaved() ==> ConsentOf(editors[i]) in Consents(editors)
    ensures forall c :: c in Consents(editors) ==>
      exists i :: 0 <= i < |editors| && editors[i].Unsaved() && c == ConsentOf(editors[i])
  {
    hide Consents;
    NamedOnce(editors);
    forall i | 0 <= i < |editors| && editors[i].Unsaved()
      ensures ConsentOf(editors[i]) in Consents(editors)
    {
      UnsavedAreNamed(editors, i);
    }
    forall c | c in Consents(editors)
      ensures exists i :: 0 <= i < |editors| && editors[i].Unsaved() && c == ConsentOf(editors[i])
    {
      NamedAreUnsaved(editors, c);
    }
  }

  lemma PollSettles(s: State, consents: seq<Consent>)
    requires Distinct(s.editors) && DistinctConsents(consents)
    ensures var (after, granted) := DiscardForExit(s, consents);
      && after == s.(editors := after.editors, pending := after.pending)
      && (granted ==> after.pending == s.pending && StillCurrent(after.editors, consents))
      && (granted || after.pending == ApplicationDiscarding(consents)
          || (after.pending == s.pending && GivenBack(after.editors, consents)))
  {
    match Resolve(s.editors, consents)
    case None => CancelGivesBack(s.editors, consents);
    case Some(indexes) =>
      DiscardKeepsDocuments(s.editors, indexes, Durable);
      var asked := DiscardRecoveries(s.editors, indexes, Durable).0;
      assert forall i :: 0 <= i < |asked| ==> Text(asked[i]).owner == Text(s.editors[i]).owner;
      CancelGivesBack(asked, consents);
  }

  /** One drain of a pending exit discard: it is cancelled with every consented editor given
      back, still pending with the same consents, or granted to a fully consented window. */
  lemma DiscardingDrainOutcome(s: State, o: Outside, consents: seq<Consent>)
    requires Inv(s) && s.pending.NoClose? && DistinctConsents(consents)
    ensures var after := DrainDiscarding(s, o, consents);
      || (after.pending.NoClose? && after.exited == s.exited && GivenBack(after.editors, consents))
      || (after.pending == ApplicationDiscarding(consents) && after.exited == s.exited)
      || (after.pending.NoClose? && StillCurrent(after.editors, consents))
  {
    PollSettles(s, consents);
    var (polled, granted) := DiscardForExit(s, consents);
    if granted {
      assert DrainDiscarding(s, o, consents).editors == polled.editors;
    }
  }

  /** The run of an exit discard: events happen for as long as exactly these consents wait. */
  function WhileDiscarding(s: State, consents: seq<Consent>, events: seq<Event>): State
    decreases |events|
  {
    if events == [] || s.pending != ApplicationDiscarding(consents) then s
    else WhileDiscarding(Next(s, events[0]), consents, events[1..])
  }

  ghost predicate Settled(s: State, consents: seq<Consent>) {
    || s.pending == ApplicationDiscarding(consents)
    || (s.pending.NoClose? && GivenBack(s.editors, consents))
    || (s.pending.NoClose? && StillCurrent(s.editors, consents))
  }

  lemma {:induction false} DiscardSettles(s: State, consents: seq<Consent>, events: seq<Event>)
    requires Inv(s) && DistinctConsents(consents) && Settled(s, consents)
    requires forall i :: 0 <= i < |events| ==> !events[i].QueueApplication?
    ensures Settled(WhileDiscarding(s, consents, events), consents)
    decreases |events|
  {
    if events != [] && s.pending == ApplicationDiscarding(consents) {
      var e := events[0];
      EventKeepsInv(s, e);
      if e.Drain? && !e.outside.interactionWaiting {
        DiscardingDrainOutcome(s.(pending := NoClose), e.outside, consents);
      } else {
        assert Next(s, e).pending == s.pending;
      }
      DiscardSettles(Next(s, e), consents, events[1..]);
    }
  }

  /** Whoever was unsaved in `before` and is still open has the flag of `before` again. */
  ghost predicate FlagsAsBefore(before: seq<Editor>, after: seq<Editor>) {
    forall i, k :: 0 <= i < |before| && 0 <= k < |after| ==>
      before[i].Unsaved() && after[k].owner == before[i].owner ==>
        after[k].readOnly == before[i].readOnly && !after[k].retiring
  }

  /** From the Don't Save answer through any interleaving that queues no other application
      close, an exit discard is granted with every unsaved document consented, still pending
      with exactly the captured consents, or cancelled, and then every document that was
      unsaved at the answer and is still open has the read-only flag it had then. */
  lemma ExitDiscardSettles(s: State, events: seq<Event>)
    requires Inv(s) && s.pending.NoClose? && CaptureAndDiscard(s).0.pending == ApplicationDiscarding(Consents(s.editors))
    requires forall i :: 0 <= i < |events| ==> !events[i].QueueApplication?
    ensures var after := WhileDiscarding(CaptureAndDiscard(s).0, Consents(s.editors), events);
      || after.pending == ApplicationDiscarding(Consents(s.editors))
      || (after.pending.NoClose? && StillCurrent(after.editors, Consents(s.editors)))
      || (after.pending.NoClose? && FlagsAsBefore(s.editors, after.editors))
  {
    var consents := Consents(s.editors);
    ConsentsCapture(s.editors);
    CaptureOutcome(s);
    DiscardSettles(CaptureAndDiscard(s).0, consents, events);
    var after := WhileDiscarding(CaptureAndDiscard(s).0, consents, events);
    if GivenBack(after.editors, consents) {
      forall i, k | 0 <= i < |s.editors| && 0 <= k < |after.editors|
                    && s.editors[i].Unsaved() && after.editors[k].owner == s.editors[i].owner
        ensures after.editors[k].readOnly == s.editors[i].readOnly && !after.editors[k].retiring
      {
        assert ConsentOf(s.editors[i]) in consents;
      }
    }
  }

  // ----- another document in a consented tab

  /** A tab by the document it shows now and that document's read-only flag. */
  datatype Tab = Tab(owner: nat, readOnly: bool)

  /** The tab after one event: the user may set the flag, and a finished open, reload or Interpret
      As may put a fresh document into it. */
  function Followed(s: State, e: Event, tab: Tab): Tab {
    match e
    case UserReadOnly(owner, readOnly) => if owner == tab.owner then Tab(owner, readOnly) else tab
    case Attach(owner, copiesFlag, guard) =>
      if owner == tab.owner && Attaches(s, owner) then Tab(s.nextOwner, (copiesFlag && tab.readOnly) || guard) else tab
    case _ => tab
  }

  function FollowedWhile(s: State, consents: seq<Consent>, events: seq<Event>, tab: Tab): Tab
    decreases |events|
  {
    if events == [] || s.pending != ApplicationDiscarding(consents) then tab
    else FollowedWhile(Next(s, events[0]), consents, events[1..], Followed(s, events[0], tab))
  }

  ghost predicate Shows(s: State, tab: Tab) {
    forall k :: 0 <= k < |s.editors| && s.editors[k].owner == tab.owner ==> s.editors[k].readOnly == tab.readOnly
  }

  /** The tab shows its first document, or one that is younger than every consent. */
  ghost predicate Younger(s: State, consents: seq<Consent>, tab: Tab, owner: nat) {
    && tab.owner < s.nextOwner && (forall c :: c in consents ==> c.owner < s.nextOwner)
    && (tab.owner != owner ==> forall c :: c in consents ==> c.owner != tab.owner)
  }

  lemma PollKeepsFlags(s: State, consents: seq<Consent>, k: nat)
    requires Distinct(s.editors) && k < |s.editors|
    requires DiscardForExit(s, consents).1 || DiscardForExit(s, consents).0.pending != s.pending
             || forall c :: c in consents ==> c.owner != s.editors[k].owner
    ensures var after := DiscardForExit(s, consents).0;
      |after.editors| == |s.editors| && after.editors[k].readOnly == s.editors[k].readOnly
      && after.editors[k].owner == s.editors[k].owner
  {
    DiscardForExitOutcome(s, consents);
    SameOwners(s.editors, DiscardForExit(s, consents).0.editors);
    match Resolve(s.editors, consents)
    case None => OtherUntouchedUnless(s.editors, consents, k);
    case Some(indexes) =>
      var polled := DiscardRecoveries(s.editors, indexes, Durable).0;
      DiscardKeepsDocuments(s.editors, indexes, Durable);
      SameOwners(s.editors, polled);
      OtherUntouchedUnless(polled, consents, k);
  }

  lemma OtherUntouchedUnless(editors: seq<Editor>, consents: seq<Consent>, k: nat)
    requires k < |editors|
    ensures (forall c :: c in consents ==> c.owner != editors[k].owner) ==> CancelDiscard(editors, consents)[k] == editors[k]
  {
    if forall c :: c in consents ==> c.owner != editors[k].owner {
      OtherConsentsUntouched(editors, consents, k);
    }
  }

  /** What a drain of the waiting discard does to a tab: nothing, unless it is cancelled and the
      tab still shows a consented document. */
  lemma DrainKeepsFlag(s: State, o: Outside, consents: seq<Consent>, tab: Tab)
    requires Inv(s) && s.pending == ApplicationDiscarding(consents) && Shows(s, tab)
    requires Drained(s, o).pending == ApplicationDiscarding(consents) || forall c :: c in consents ==> c.owner != tab.owner
    ensures Shows(Drained(s, o), tab)
  {
    hide DiscardForExit;
    if !o.interactionWaiting {
      var taken := s.(pending := NoClose);
      var (polled, granted) := DiscardForExit(taken, consents);
      DiscardForExitOutcome(taken, consents);
      assert Drained(s, o).editors == polled.editors;
      SameOwners(taken.editors, polled.editors);
      forall k | 0 <= k < |polled.editors| && polled.editors[k].owner == tab.owner
        ensures polled.editors[k].readOnly == tab.readOnly
      {
        PollKeepsFlags(taken, consents, k);
      }
    }
  }

  lemma UpdatedKeepsFlag(s: State, owner: nat, f: Editor -> Editor, tab: Tab)
    requires Shows(s, tab) && forall e :: f(e).owner == e.owner && f(e).readOnly == e.readOnly
    ensures Shows(s.(editors := Updated(s.editors, owner, f)), tab)
  {
  }

  lemma AttachKeepsFlag(s: State, owner: nat, copiesFlag: bool, guard: bool, tab: Tab)
    requires Inv(s) && Shows(s, tab) && tab.owner < s.nextOwner
    ensures var after := Attached(s, owner, copiesFlag, guard);
      var last := Followed(s, Attach(owner, copiesFlag, guard), tab);
      Shows(after, last) && s.nextOwner <= after.nextOwner && last.owner < after.nextOwner
  {
  }

  lemma UserKeepsFlag(s: State, owner: nat, readOnly: bool, tab: Tab)
    requires Inv(s) && Shows(s, tab)
    ensures Shows(Next(s, UserReadOnly(owner, readOnly)), Followed(s, UserReadOnly(owner, readOnly), tab))
  {
  }

  lemma ReorderKeepsFlag(s: State, order: seq<nat>, active: nat, tab: Tab)
    requires Shows(s, tab)
    ensures Shows(Next(s, Reorder(order, active)), tab)
  {
  }

  lemma EventKeepsFlag(s: State, e: Event, tab: Tab)
    requires Inv(s) && !e.Drain? && Shows(s, tab) && tab.owner < s.nextOwner
    ensures Shows(Next(s, e), Followed(s, e, tab)) && s.nextOwner <= Next(s, e).nextOwner
    ensures Followed(s, e, tab).owner < Next(s, e).nextOwner
  {
    hide IndexOf, Attached, Updated, Permutation;
    match e
    case Edit(owner, content) =>
      UpdatedKeepsFlag(s, owner, (x: Editor) => x.(revision := x.revision + 1, content := content), tab);
    case Saved(owner, content) => UpdatedKeepsFlag(s, owner, (x: Editor) => x.(saved := content), tab);
    case Worker(owner, busy, saving, poll) =>
      UpdatedKeepsFlag(s, owner, (x: Editor) => x.(busy := busy, saving := saving, poll := poll), tab);
    case AbandonReload(owner, resumes) =>
      UpdatedKeepsFlag(s, owner, (x: Editor) => x.(retiring := x.retiring && !resumes), tab);
    case UserReadOnly(owner, readOnly) => UserKeepsFlag(s, owner, readOnly, tab);
    case Attach(owner, copiesFlag, guard) => AttachKeepsFlag(s, owner, copiesFlag, guard, tab);
    case Reorder(order, active) => ReorderKeepsFlag(s, order, active, tab);
    case _ =>
  }

  lemma DrainKeepsOwner(s: State, o: Outside, consents: seq<Consent>)
    requires s.pending == ApplicationDiscarding(consents)
    ensures Drained(s, o).nextOwner == s.nextOwner
  {
    hide DiscardForExit;
    DiscardForExitOutcome(s.(pending := NoClose), consents);
  }

  lemma {:induction false} TabShownWhile(s: State, consents: seq<Consent>, events: seq<Event>, tab: Tab, owner: nat)
    requires Inv(s) && s.pending == ApplicationDiscarding(consents) && Shows(s, tab) && Younger(s, consents, tab, owner)
    requires WhileDiscarding(s, consents, events).pending == ApplicationDiscarding(consents)
    ensures var end := WhileDiscarding(s, consents, events);
      var last := FollowedWhile(s, consents, events, tab);
      Inv(end) && Shows(end, last) && Younger(end, consents, last, owner)
    decreases |events|
  {
    hide Next, Followed, Inv;
    if events != [] {
      var e, next := events[0], Next(s, events[0]);
      EventKeepsInv(s, e);
      WaitsOn(s, consents, events);
      OneEvent(s, consents, e, tab, owner);
      TabShownWhile(next, consents, events[1..], Followed(s, e, tab), owner);
    }
  }

  lemma WaitsOn(s: State, consents: seq<Consent>, events: seq<Event>)
    requires s.pending == ApplicationDiscarding(consents) && events != []
    requires WhileDiscarding(s, consents, events).pending == ApplicationDiscarding(consents)
    ensures Next(s, events[0]).pending == ApplicationDiscarding(consents)
  {
  }

  lemma OneEvent(s: State, consents: seq<Consent>, e: Event, tab: Tab, owner: nat)
    requires Inv(s) && s.pending == ApplicationDiscarding(consents) && Shows(s, tab) && Younger(s, consents, tab, owner)
    requires Next(s, e).pending == ApplicationDiscarding(consents)
    ensures Shows(Next(s, e), Followed(s, e, tab)) && Younger(Next(s, e), consents, Followed(s, e, tab), owner)
  {
    hide Drained, Attaches;
    if e.Drain? {
      DrainKeepsFlag(s, e.outside, consents, tab);
      DrainKeepsOwner(s, e.outside, consents);
    } else {
      EventKeepsFlag(s, e, tab);
    }
  }

  /** The drain cancels the waiting discard. */
  ghost predicate Cancels(s: State, o: Outside, consents: seq<Consent>) {
    && s.pending == ApplicationDiscarding(consents) && !o.interactionWaiting
    && !DiscardForExit(s.(pending := NoClose), consents).1 && Drained(s, o).pending.NoClose?
  }

  /** One tab after the cancellation: a consented document has its captured flag, and any other
      document the flag that it had. */
  lemma CancelledTab(s: State, o: Outside, consents: seq<Consent>, tab: Tab, c: Consent, k: nat)
    requires Inv(s) && Cancels(s, o, consents) && DistinctConsents(consents) && c in consents
    requires Shows(s, tab) && Younger(s, consents, tab, c.owner)
    requires k < |Drained(s, o).editors| && Drained(s, o).editors[k].owner == tab.owner
    ensures Drained(s, o).editors[k].readOnly == if tab.owner == c.owner then c.wasReadOnly else tab.readOnly
  {
    var taken := s.(pending := NoClose);
    PollSettles(taken, consents);
    if tab.owner != c.owner {
      DrainKeepsFlag(s, o, consents, tab);
    }
  }

  /** Exactly when a cancelled exit discard gives a tab back the flag it had at the Don't Save
      answer: unless another document was attached to it meanwhile, whose flag was copied from
      the freeze, set by a guard or by the user, and is not that flag. */
  lemma CancelledDiscardFlags(s: State, events: seq<Event>, o: Outside, i: nat, k: nat)
    requires Inv(s) && s.pending.NoClose? && i < |s.editors| && s.editors[i].Unsaved()
    requires CaptureAndDiscard(s).0.pending == ApplicationDiscarding(Consents(s.editors))
    requires Cancels(WhileDiscarding(CaptureAndDiscard(s).0, Consents(s.editors), events), o, Consents(s.editors))
    requires var first := CaptureAndDiscard(s).0;
      var after := Drained(WhileDiscarding(first, Consents(s.editors), events), o);
      var tab := FollowedWhile(first, Consents(s.editors), events, Tab(s.editors[i].owner, true));
      k < |after.editors| && after.editors[k].owner == tab.owner
    ensures var first := CaptureAndDiscard(s).0;
      var after := Drained(WhileDiscarding(first, Consents(s.editors), events), o);
      var tab := FollowedWhile(first, Consents(s.editors), events, Tab(s.editors[i].owner, true));
      after.editors[k].readOnly == s.editors[i].readOnly <==>
      tab.owner == s.editors[i].owner || tab.readOnly == s.editors[i].readOnly
  {
    hide CaptureAndDiscard, Consents, WhileDiscarding, FollowedWhile, Drained, Cancels;
    var consents, first := Consents(s.editors), CaptureAndDiscard(s).0;
    var tab := Tab(s.editors[i].owner, true);
    ConsentsCapture(s.editors);
    CaptureOutcome(s);
    CaptureShows(s, i);
    CancelsWaits(WhileDiscarding(first, consents, events), o, consents);
    TabShownWhile(first, consents, events, tab, tab.owner);
    CancelledTab(WhileDiscarding(first, consents, events), o, consents, FollowedWhile(first, consents, events, tab),
                 ConsentOf(s.editors[i]), k);
  }

  lemma CancelsWaits(s: State, o: Outside, consents: seq<Consent>)
    requires Cancels(s, o, consents)
    ensures s.pending == ApplicationDiscarding(consents)
  {
  }

  lemma CaptureShows(s: State, i: nat)
    requires Inv(s) && s.pending.NoClose? && i < |s.editors| && s.editors[i].Unsaved()
    requires CaptureAndDiscard(s).0.pending == ApplicationDiscarding(Consents(s.editors))
    ensures var first := CaptureAndDiscard(s).0;
      Shows(first, Tab(s.editors[i].owner, true))
      && Younger(first, Consents(s.editors), Tab(s.editors[i].owner, true), s.editors[i].owner)
  {
    hide CaptureAndDiscard, Consents;
    CaptureResult(s);
    ConsentsCapture(s.editors);
    CaptureKeepsOwner(s);
  }

  lemma CaptureKeepsOwner(s: State)
    ensures CaptureAndDiscard(s).0.nextOwner == s.nextOwner
  {
    hide DiscardForExit;
    var consents := Consents(s.editors);
    DiscardForExitOutcome(s.(editors := Frozen(s.editors), discarded := s.discarded + Identities(consents)), consents);
  }

  // ----- asking for the discard, in closed form

  lemma IndexOfOwner(editors: seq<Editor>, i: nat)
    requires Distinct(editors) && i < |editors|
    ensures IndexOf(editors, editors[i].owner) == Some(i)
  {
  }

  function UnsavedFrom(editors: seq<Editor>, k: nat): (r: seq<nat>)
    requires k <= |editors|
    ensures InRange(r, |editors|)
    ensures forall i :: i in r <==> k <= i < |editors| && editors[i].Unsaved()
    decreases |editors| - k
  {
    if k == |editors| then [] else (if editors[k].Unsaved() then [k] else []) + UnsavedFrom(editors, k + 1)
  }

  lemma ConsentsStep(editors: seq<Editor>, k: nat)
    requires k < |editors|
    ensures Consents(editors[k..]) ==
      (if editors[k].Unsaved() then [ConsentOf(editors[k])] else []) + Consents(editors[k + 1..])
  {
    assert editors[k..][1..] == editors[k + 1..];
  }

  lemma ResolveStep(editors: seq<Editor>, k: nat, c: Consent, rest: seq<Consent>, indexes: seq<nat>)
    requires Distinct(editors) && k < |editors| && c.owner == editors[k].owner && c.revision == editors[k].revision
    requires Resolve(editors, rest) == Some(indexes)
    ensures Resolve(editors, [c] + rest) == Some([k] + indexes)
  {
    IndexOfOwner(editors, k);
    assert ([c] + rest)[1..] == rest;
  }

  lemma {:induction false} ConsentsResolve(editors: seq<Editor>, frozen: seq<Editor>, k: nat)
    requires Distinct(editors) && SameDocuments(editors, frozen) && k <= |editors|
    ensures Resolve(frozen, Consents(editors[k..])) == Some(UnsavedFrom(editors, k))
    decreases |editors| - k
  {
    hide IndexOf, Resolve;
    if k == |editors| {
      ResolveNothing(frozen);
    } else {
      ConsentsResolve(editors, frozen, k + 1);
      ConsentsStep(editors, k);
      if editors[k].Unsaved() {
        SameOwners(editors, frozen);
        ResolveStep(frozen, k, ConsentOf(editors[k]), Consents(editors[k + 1..]), UnsavedFrom(editors, k + 1));
      } else {
        assert [] + Consents(editors[k + 1..]) == Consents(editors[k + 1..]);
        assert [] + UnsavedFrom(editors, k + 1) == UnsavedFrom(editors, k + 1);
      }
    }
  }

  lemma ResolveNothing(editors: seq<Editor>)
    ensures Resolve(editors, []) == Some([])
  {
  }

  lemma SameOwners(a: seq<Editor>, b: seq<Editor>)
    requires SameDocuments(a, b)
    ensures forall i :: 0 <= i < |a| ==> a[i].owner == b[i].owner && a[i].revision == b[i].revision
    ensures Distinct(a) ==> Distinct(b)
  {
    assert forall i :: 0 <= i < |a| ==> Text(a[i]).owner == Text(b[i]).owner && Text(a[i]).revision == Text(b[i]).revision;
  }

  /** Some of these editors owns its text and answers so. */
  ghost predicate AnswersAt(editors: seq<Editor>, indexes: seq<nat>, poll: DiscardPoll) {
    exists i :: 0 <= i < |editors| && i in indexes && editors[i].ownsText && editors[i].poll == poll
  }

  lemma AnswersSplit(editors: seq<Editor>, indexes: seq<nat>, poll: DiscardPoll)
    requires indexes != [] && InRange(indexes, |editors|)
    ensures AnswersAt(editors, indexes, poll) <==>
      (editors[indexes[0]].ownsText && editors[indexes[0]].poll == poll) || AnswersAt(editors, indexes[1..], poll)
  {
    assert indexes == [indexes[0]] + indexes[1..];
  }

  lemma AnswersKept(editors: seq<Editor>, i: nat, indexes: seq<nat>, poll: DiscardPoll)
    requires i < |editors|
    ensures AnswersAt(editors[i := editors[i].(retiring := true)], indexes, poll) <==> AnswersAt(editors, indexes, poll)
  {
    var asked := editors[i := editors[i].(retiring := true)];
    assert forall k :: 0 <= k < |editors| ==> asked[k].ownsText == editors[k].ownsText && asked[k].poll == editors[k].poll;
  }

  /** The pass ends in failure when one document fails, and otherwise waits when one waits. */
  lemma {:induction false} PassAnswers(editors: seq<Editor>, indexes: seq<nat>, outcome: DiscardPoll)
    requires InRange(indexes, |editors|) && !outcome.TombstoneFailed?
    ensures var failed := AnswersAt(editors, indexes, TombstoneFailed);
      var result := DiscardRecoveries(editors, indexes, outcome).1;
      && (result.TombstoneFailed? <==> failed)
      && (result.StillPending? <==> !failed && (outcome.StillPending? || AnswersAt(editors, indexes, StillPending)))
    decreases |indexes|
  {
    if indexes != [] {
      var i, rest := indexes[0], indexes[1..];
      var asked := editors[i := editors[i].(retiring := true)];
      AnswersSplit(editors, indexes, TombstoneFailed);
      AnswersSplit(editors, indexes, StillPending);
      AnswersKept(editors, i, rest, TombstoneFailed);
      AnswersKept(editors, i, rest, StillPending);
      if editors[i].ownsText {
        match editors[i].poll
        case TombstoneFailed =>
        case StillPending => PassAnswers(asked, rest, StillPending);
        case CleanupPending => PassAnswers(asked, rest, if outcome.StillPending? then outcome else CleanupPending);
        case Durable => PassAnswers(asked, rest, outcome);
      } else {
        PassAnswers(editors, rest, outcome);
      }
    }
  }

  function Asked(e: Editor): Editor { e.(retiring := e.retiring || e.ownsText) }

  /** Whom the pass marks: nobody but the given editors, and all of them unless it fails. */
  lemma {:induction false} PassMarks(editors: seq<Editor>, indexes: seq<nat>, outcome: DiscardPoll)
    requires InRange(indexes, |editors|)
    ensures var (after, result) := DiscardRecoveries(editors, indexes, outcome);
      && (forall k :: 0 <= k < |editors| && k !in indexes ==> after[k] == editors[k])
      && (!result.TombstoneFailed? ==> forall k :: 0 <= k < |editors| && k in indexes ==> after[k] == Asked(editors[k]))
    decreases |indexes|
  {
    if indexes != [] {
      var i, rest := indexes[0], indexes[1..];
      assert indexes == [i] + rest;
      var asked := editors[i := editors[i].(retiring := true)];
      if editors[i].ownsText {
        match editors[i].poll
        case TombstoneFailed =>
        case StillPending => PassMarks(asked, rest, StillPending);
        case CleanupPending => PassMarks(asked, rest, if outcome.StillPending? then outcome else CleanupPending);
        case Durable => PassMarks(asked, rest, outcome);
      } else {
        PassMarks(editors, rest, outcome);
      }
    }
  }

  /** Some unsaved document of the window answers so. */
  ghost predicate Answers(editors: seq<Editor>, poll: DiscardPoll) {
    exists i :: 0 <= i < |editors| && editors[i].Unsaved() && editors[i].ownsText && editors[i].poll == poll
  }

  /** What a Don't Save answer makes of one editor: an unsaved one keeps its present flag and
      loses its retirement if some recovery fails, and is frozen and retiring otherwise. */
  function Captured(e: Editor, failed: bool): Editor {
    if !e.Unsaved() then e else if failed then e.(retiring := false) else Asked(e.(readOnly := true))
  }

  lemma FrozenAnswers(editors: seq<Editor>, poll: DiscardPoll)
    ensures AnswersAt(Frozen(editors), UnsavedFrom(editors, 0), poll) <==> Answers(editors, poll)
  {
    var frozen, indexes := Frozen(editors), UnsavedFrom(editors, 0);
    assert forall i :: 0 <= i < |editors| ==> frozen[i].ownsText == editors[i].ownsText && frozen[i].poll == editors[i].poll;
    if Answers(editors, poll) {
      var i :| 0 <= i < |editors| && editors[i].Unsaved() && editors[i].ownsText && editors[i].poll == poll;
      assert i in indexes && frozen[i].ownsText;
    }
  }

  lemma FrozenPass(editors: seq<Editor>)
    requires Distinct(editors)
    ensures var (polled, outcome) := DiscardRecoveries(Frozen(editors), UnsavedFrom(editors, 0), Durable);
      && (outcome.TombstoneFailed? <==> Answers(editors, TombstoneFailed))
      && (outcome.StillPending? <==> !Answers(editors, TombstoneFailed) && Answers(editors, StillPending))
      && SameDocuments(editors, polled)
      && (forall k :: 0 <= k < |editors| && !editors[k].Unsaved() ==> polled[k] == editors[k])
      && (!outcome.TombstoneFailed? ==> forall k :: 0 <= k < |editors| ==> polled[k] == Captured(editors[k], false))
  {
    var frozen, indexes := Frozen(editors), UnsavedFrom(editors, 0);
    PassAnswers(frozen, indexes, Durable);
    PassMarks(frozen, indexes, Durable);
    FrozenAnswers(editors, TombstoneFailed);
    FrozenAnswers(editors, StillPending);
    DiscardKeepsDocuments(frozen, indexes, Durable);
    SameTwice(editors, frozen, DiscardRecoveries(frozen, indexes, Durable).0);
  }

  lemma ConsentsCurrent(editors: seq<Editor>, polled: seq<Editor>)
    requires Distinct(editors) && SameDocuments(editors, polled)
    ensures StillCurrent(polled, Consents(editors))
  {
    ConsentsCapture(editors);
    forall e | e in polled && e.Unsaved()
      ensures e.Identity() in Identities(Consents(editors))
    {
      var i :| 0 <= i < |polled| && polled[i] == e;
      assert Text(editors[i]) == Text(e) && editors[i].Unsaved();
      assert ConsentOf(editors[i]) in Consents(editors);
    }
  }

  lemma ConsentsRestore(editors: seq<Editor>, polled: seq<Editor>, k: nat)
    requires Distinct(editors) && SameDocuments(editors, polled) && k < |editors|
    requires !editors[k].Unsaved() ==> polled[k] == editors[k]
    ensures CancelDiscard(polled, Consents(editors))[k] == Captured(editors[k], true)
  {
    var consents := Consents(editors);
    var after := CancelDiscard(polled, consents);
    ConsentsCapture(editors);
    SameOwners(editors, polled);
    if editors[k].Unsaved() {
      CancelGivesBack(polled, consents);
      CancelKeepsDocuments(polled, consents);
      assert ConsentOf(editors[k]) in consents;
      assert Text(polled[k]) == Text(after[k]) && Text(after[k]).owner == editors[k].owner;
    } else {
      OtherConsentsUntouched(polled, consents, k);
    }
  }

  /** The Don't Save answer in closed form: what becomes of every editor and of the request. */
  lemma CaptureResult(s: State)
    requires Distinct(s.editors) && s.pending.NoClose?
    ensures var (after, granted) := CaptureAndDiscard(s);
      var failed, waits := Answers(s.editors, TombstoneFailed), Answers(s.editors, StillPending);
      && |after.editors| == |s.editors|
      && (forall k :: 0 <= k < |s.editors| ==> after.editors[k] == Captured(s.editors[k], failed))
      && after.pending == (if !failed && waits then ApplicationDiscarding(Consents(s.editors)) else NoClose)
      && after.exited == s.exited && after.session == s.session
      && (granted <==> !failed && !waits)
  {
    hide IndexOf, Resolve, DiscardRecoveries, Consents, CancelDiscard;
    var consents, frozen := Consents(s.editors), Frozen(s.editors);
    assert s.editors[0..] == s.editors;
    ConsentsResolve(s.editors, frozen, 0);
    FrozenPass(s.editors);
    var (polled, outcome) := DiscardRecoveries(frozen, UnsavedFrom(s.editors, 0), Durable);
    ConsentsCurrent(s.editors, polled);
    if outcome.TombstoneFailed? {
      forall k | 0 <= k < |s.editors|
        ensures CancelDiscard(polled, consents)[k] == Captured(s.editors[k], true)
      {
        ConsentsRestore(s.editors, polled, k);
      }
    }
  }

  // ----- another application close while a discard waits

  /** The session keeps the program from leaving now, refusing or being saved first. */
  predicate Held(s: State, o: Outside) { SessionBeforeExit(s, o).1 }

  /** The drain of an application close gets as far as a Don't Save answer. */
  ghost predicate AnsweredDontSave(s: State, o: Outside) {
    && !o.settingsBusy && !o.ioBusy && o.gate.Pass? && o.launchesReady && o.prompt == Answer(DontSave)
    && exists e :: e in s.editors && e.Unsaved()
  }

  lemma NotAnswered(s: State, o: Outside)
    requires s.pending.NoClose? && !AnsweredDontSave(s, o)
    ensures DrainApplication(s, o).editors == s.editors && !DrainApplication(s, o).pending.ApplicationDiscarding?
  {
    hide CaptureAndDiscard;
  }

  lemma Answered(s: State, o: Outside)
    requires s.pending.NoClose? && AnsweredDontSave(s, o)
    ensures var (after, granted) := CaptureAndDiscard(s);
      DrainApplication(s, o) == if granted then ExitNow(after, o) else after
  {
    hide CaptureAndDiscard, ExitNow;
    assert CloseReady(s, o, Application) == (s, true);
  }

  lemma ExitOutcome(s: State, after: State, o: Outside)
    requires after.session == s.session
    ensures var end := ExitNow(after, o);
      && end.editors == after.editors && end.pending == after.pending && end.nextOwner == after.nextOwner
      && end.exited == (after.exited || (!Held(s, o) && o.launchesStillReady))
  {
    hide Documents;
  }

  lemma ApplicationDrainResult(s: State, o: Outside)
    requires Distinct(s.editors) && s.pending.NoClose?
    ensures var after := DrainApplication(s, o);
      && (!AnsweredDontSave(s, o) ==> after.editors == s.editors && !after.pending.ApplicationDiscarding?)
      && (AnsweredDontSave(s, o) ==>
            && after.editors == CaptureAndDiscard(s).0.editors && after.pending == CaptureAndDiscard(s).0.pending
            && after.nextOwner == CaptureAndDiscard(s).0.nextOwner
            && after.exited == (s.exited || (CaptureAndDiscard(s).1 && !Held(s, o) && o.launchesStillReady)))
  {
    hide CaptureAndDiscard, DrainApplication, ExitNow, AnsweredDontSave, Answers;
    if AnsweredDontSave(s, o) {
      Answered(s, o);
      CaptureResult(s);
      ExitOutcome(s, CaptureAndDiscard(s).0, o);
    } else {
      NotAnswered(s, o);
    }
  }

  /** One consented editor after the drain, by what the second capture found it to be. */
  ghost predicate BackAgain(e: Editor, c: Consent, answered: bool, failed: bool) {
    if !answered || !e.Unsaved() then e.readOnly == c.wasReadOnly && !e.retiring
    else if failed then e.readOnly == c.wasReadOnly
    else c.wasReadOnly && !e.retiring && !e.ownsText
  }

  /** Exactly when an application close that is queued while a discard waits gives the waiting
      consents back: with any answer but Don't Save nothing changes; a failing second discard
      restores the flags that the second capture found, not those of the first; otherwise the
      documents stay frozen. */
  lemma RequeuedExitGivesBack(s: State, o: Outside, consents: seq<Consent>)
    requires Inv(s) && s.pending == ApplicationDiscarding(consents)
    ensures var after := Drained(Next(s, QueueApplication), o);
      var answered := !o.interactionWaiting && AnsweredDontSave(s, o);
      GivenBack(after.editors, consents) <==>
      forall i, c :: 0 <= i < |s.editors| && c in consents && s.editors[i].owner == c.owner ==>
        BackAgain(s.editors[i], c, answered, Answers(s.editors, TombstoneFailed))
  {
    hide Drained, BackAgain;
    var after := Drained(Next(s, QueueApplication), o);
    RequeuedKeepsCount(s, o);
    forall i, c | 0 <= i < |s.editors| && c in consents && s.editors[i].owner == c.owner
      ensures BackAgain(s.editors[i], c, !o.interactionWaiting && AnsweredDontSave(s, o), Answers(s.editors, TombstoneFailed))
              <==> after.editors[i].readOnly == c.wasReadOnly && !after.editors[i].retiring
    {
      RequeuedTab(s, o, c, i);
    }
    RequeuedKeepsOwners(s, o);
  }

  lemma RequeuedKeepsCount(s: State, o: Outside)
    requires Inv(s)
    ensures |Drained(Next(s, QueueApplication), o).editors| == |s.editors|
  {
    ApplicationDrain(s.(pending := NoClose), o);
  }

  lemma RequeuedKeepsOwners(s: State, o: Outside)
    requires Inv(s)
    ensures var after := Drained(Next(s, QueueApplication), o);
      |after.editors| == |s.editors| && forall i :: 0 <= i < |s.editors| ==> after.editors[i].owner == s.editors[i].owner
  {
    hide DrainApplication;
    var taken := s.(pending := NoClose);
    ApplicationDrain(taken, o);
    SameOwners(s.editors, DrainApplication(taken, o).editors);
  }

  lemma RequeuedTab(s: State, o: Outside, c: Consent, i: nat)
    requires Inv(s) && i < |s.editors|
    ensures var after := Drained(Next(s, QueueApplication), o);
      && |after.editors| == |s.editors|
      && (BackAgain(s.editors[i], c, !o.interactionWaiting && AnsweredDontSave(s, o), Answers(s.editors, TombstoneFailed))
          <==> after.editors[i].readOnly == c.wasReadOnly && !after.editors[i].retiring)
  {
    hide DrainApplication, CaptureAndDiscard, Answers;
    var taken := s.(pending := NoClose);
    if !o.interactionWaiting {
      ApplicationDrainResult(taken, o);
      CaptureResult(taken);
    }
  }

  /** Answering Cancel, or anything but Don't Save, leaves every frozen document as it is, and
      from then on nothing waits that could give it back. */
  lemma RequeuedCancelStaysFrozen(s: State, o: Outside, consents: seq<Consent>)
    requires Inv(s) && s.pending == ApplicationDiscarding(consents) && o.prompt != Answer(DontSave)
    ensures var after := Drained(Next(s, QueueApplication), o);
      after.editors == s.editors && !after.pending.ApplicationDiscarding?
  {
    ApplicationDrainResult(s.(pending := NoClose), o);
  }

  lemma ConsentRemembers(editors: seq<Editor>, i: nat, c: Consent)
    requires Distinct(editors) && i < |editors| && c in Consents(editors) && c.owner == editors[i].owner
    ensures c == ConsentOf(editors[i])
  {
    ConsentsCapture(editors);
  }

  /** The other application close forgets the flag: a document that was writable at the first
      answer and is frozen now is not writable after the drain, whatever is answered, and no
      consent that waits from then on remembers that it was. */
  lemma RequeuedExitForgets(s: State, o: Outside, consents: seq<Consent>, i: nat)
    requires Inv(s) && s.pending == ApplicationDiscarding(consents) && i < |s.editors| && s.editors[i].readOnly
    ensures var after := Drained(Next(s, QueueApplication), o);
      && i < |after.editors| && after.editors[i].owner == s.editors[i].owner && after.editors[i].readOnly
      && (after.pending.ApplicationDiscarding? ==>
            forall c :: c in after.pending.consents && c.owner == s.editors[i].owner ==> c.wasReadOnly)
  {
    hide DrainApplication, CaptureAndDiscard, Consents, IndexOf;
    var taken := s.(pending := NoClose);
    if !o.interactionWaiting {
      ApplicationDrainResult(taken, o);
      CaptureResult(taken);
      forall c | c in Consents(s.editors) && c.owner == s.editors[i].owner
        ensures c.wasReadOnly
      {
        ConsentRemembers(s.editors, i, c);
      }
    }
  }

  /** A window with one writable document that was edited, and an application close queued. */
  function EditedWindow(revision: nat): State {
    State([Editor(0, revision, 1, 0, false, false, false, true, StillPending, false)], 0, Application, false, 1, NotLeaving, {}, {})
  }

  lemma EditedWindowWaits(o: Outside, revision: nat)
    requires !o.interactionWaiting && AnsweredDontSave(EditedWindow(revision), o)
    ensures var first := Drained(EditedWindow(revision), o);
      && first.editors == [Captured(EditedWindow(revision).editors[0], false)] && first.nextOwner == 1
      && first.pending == ApplicationDiscarding([Consent(0, revision, false)])
  {
    hide DrainApplication, CaptureAndDiscard, IndexOf;
    var s := EditedWindow(revision);
    var taken := s.(pending := NoClose);
    var e := s.editors[0];
    ApplicationDrainResult(taken, o);
    CaptureResult(taken);
    CaptureKeepsOwner(taken);
    assert s.editors[1..] == [] && Consents([]) == [];
    assert Consents(s.editors) == [ConsentOf(e)];
    assert e.Unsaved() && e.ownsText && e.poll == StillPending;
  }

  /** A witness: the user answers Don't Save, closes the window again while the discard waits,
      and whatever is answered then, the document that was writable stays read-only. */
  lemma RequeuedExitForgetsFlag(first: Outside, second: Outside, revision: nat)
    requires !first.interactionWaiting && AnsweredDontSave(EditedWindow(revision), first)
    ensures var waiting := Drained(EditedWindow(revision), first);
      var after := Drained(Next(waiting, QueueApplication), second);
      && Inv(EditedWindow(revision)) && !EditedWindow(revision).editors[0].readOnly
      && waiting.pending == ApplicationDiscarding([Consent(0, revision, false)])
      && |after.editors| == 1 && after.editors[0].readOnly
      && !GivenBack(after.editors, [Consent(0, revision, false)])
  {
    hide Drained;
    var waiting := Drained(EditedWindow(revision), first);
    var after := Drained(Next(waiting, QueueApplication), second);
    EditedWindowWaits(first, revision);
    DrainKeepsInv(EditedWindow(revision), first);
    RequeuedExitForgets(waiting, second, [Consent(0, revision, false)], 0);
    RequeuedKeepsCount(waiting, second);
    assert Consent(0, revision, false) in [Consent(0, revision, false)];
  }

  /** A witness for a replaced document: the user answers Don't Save on exit, confirms to reload
      the frozen document while its discard waits, and the next drain cancels because the
      consented document is gone. The reloaded tab stays read-only, and nothing waits. */
  lemma ReloadedTabStaysReadOnly(first: Outside, second: Outside, revision: nat)
    requires !first.interactionWaiting && AnsweredDontSave(EditedWindow(revision), first) && !second.interactionWaiting
    ensures var waiting := Drained(EditedWindow(revision), first);
      var retired := Next(waiting, Worker(0, false, false, Durable));
      var reloaded := Next(Next(retired, Reload(0, true)), Attach(0, true, false));
      var after := Drained(reloaded, second);
      && waiting.pending.ApplicationDiscarding? && after.pending.NoClose?
      && |after.editors| == 1 && after.editors[0].owner == 1 && after.editors[0].readOnly && !after.editors[0].Unsaved()
  {
    hide Drained;
    var waiting := Drained(EditedWindow(revision), first);
    EditedWindowWaits(first, revision);
    var reloaded := Next(Next(Next(waiting, Worker(0, false, false, Durable)), Reload(0, true)), Attach(0, true, false));
    FrozenReloads(waiting, revision);
    GoneCancels(reloaded, second, Consent(0, revision, false));
  }

  lemma FrozenReloads(s: State, revision: nat)
    requires s.editors == [Captured(EditedWindow(revision).editors[0], false)] && s.nextOwner == 1
    ensures var reloaded := Next(Next(Next(s, Worker(0, false, false, Durable)), Reload(0, true)), Attach(0, true, false));
      reloaded.editors == [Fresh(1).(readOnly := true)] && reloaded.pending == s.pending
  {
    hide Captured;
    var frozen := Captured(EditedWindow(revision).editors[0], false);
    FrozenEditor(revision);
    var retired := Next(s, Worker(0, false, false, Durable));
    assert retired.editors == [frozen.(poll := Durable)];
    var requested := Next(retired, Reload(0, true));
    assert requested == retired.(reloading := s.reloading + {(0, revision)});
    assert Attaches(requested, 0);
  }

  lemma FrozenEditor(revision: nat)
    ensures Captured(EditedWindow(revision).editors[0], false)
         == Editor(0, revision, 1, 0, false, false, true, true, StillPending, true)
  {
  }

  lemma GoneCancels(s: State, o: Outside, c: Consent)
    requires s.pending == ApplicationDiscarding([c]) && !o.interactionWaiting
    requires |s.editors| == 1 && s.editors[0].owner != c.owner
    ensures Drained(s, o).pending.NoClose? && Drained(s, o).editors == s.editors
  {
    var taken := s.(pending := NoClose);
    assert [c][0] == c && [c][1..] == [] && IndexOf(s.editors, c.owner).None?;
    assert CancelDiscard(s.editors, []) == s.editors;
    assert CancelDiscard(s.editors, [c]) == s.editors;
    assert DiscardForExit(taken, [c]) == (CancelledExit(taken, [c]), false);
  }

  // ----- a refused exit

  /** A granted exit that does not go through in this drain (the replace gate dismissed it, a
      launch was handed over, the session refused it or is saved first) is not a cancellation:
      no read-only flag changes, so the consented documents keep the temporary freeze. */
  lemma RefusedExitStaysFrozen(s: State, o: Outside, consents: seq<Consent>)
    requires s.pending.NoClose? && !s.exited && DiscardForExit(s, consents).1
    ensures var after := DrainDiscarding(s, o, consents);
      var busy := o.settingsBusy || o.ioBusy;
      && after.exited == (!busy && o.gate.Pass? && o.launchesReady && !Held(s, o) && o.launchesStillReady)
      && (after.pending == ApplicationDiscarding(consents) <==> busy || o.gate.Defer?)
      && |after.editors| == |s.editors|
      && forall i :: 0 <= i < |s.editors| ==> after.editors[i].readOnly == s.editors[i].readOnly
  {
    DiscardKeepsDocuments(s.editors, Resolve(s.editors, consents).value, Durable);
  }

  /** A granted exit that does not go through is not a cancellation either when Don't Save was
      answered in this very drain: session and launches decide, the request is gone, and every
      unsaved document keeps the freeze that the answer put on it. */
  lemma RefusedAnswerStaysFrozen(s: State, o: Outside)
    requires Distinct(s.editors) && s.pending.NoClose? && !s.exited && AnsweredDontSave(s, o)
    requires !Answers(s.editors, TombstoneFailed) && !Answers(s.editors, StillPending)
    ensures var after := DrainApplication(s, o);
      && after.exited == (!Held(s, o) && o.launchesStillReady)
      && after.pending.NoClose? && |after.editors| == |s.editors|
      && forall k :: 0 <= k < |s.editors| ==> after.editors[k] == Captured(s.editors[k], false)
  {
    hide DrainApplication, CaptureAndDiscard;
    ApplicationDrainResult(s, o);
    CaptureResult(s);
  }
}
