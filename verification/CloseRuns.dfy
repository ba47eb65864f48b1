/** Closing and leaving over every interleaving of edits, saves, reloads, tab changes, worker
    answers, prompts and drains: what the program exits with and what may leave the window. */
module CloseRuns {
  import opened Wrappers
  import opened CloseProtocol
  import opened CloseSafety

  function Run(s: State, events: seq<Event>): State
    decreases |events|
  {
    if events == [] then s else Run(Next(s, events[0]), events[1..])
  }

  /** Start of the program: nothing is queued, reloading or discarded. */
  ghost predicate Start(s: State) {
    && Inv(s) && s.pending.NoClose? && !s.exited && !s.session.SavingSession?
    && s.discarded == {} && s.reloading == {}
  }

  lemma {:induction false} RunKeepsInv(s: State, events: seq<Event>)
    requires Inv(s)
    ensures Inv(Run(s, events))
    decreases |events|
  {
    if events != [] {
      EventKeepsInv(s, events[0]);
      RunKeepsInv(Next(s, events[0]), events[1..]);
    }
  }

  lemma {:induction false} RunLast(s: State, events: seq<Event>)
    requires events != []
    ensures Run(s, events) == Next(Run(s, events[..|events| - 1]), events[|events| - 1])
    decreases |events|
  {
    if |events| == 1 {
      assert events[1..] == [] && events[..0] == [];
    } else {
      RunLast(Next(s, events[0]), events[1..]);
      assert events[..|events| - 1][1..] == events[1..][..|events| - 2];
    }
  }

  /** The property came to hold with event `k` and has held since. */
  ghost predicate Since(s: State, events: seq<Event>, k: nat, p: State -> bool) {
    && k < |events| && !p(Run(s, events[..k])) && p(Next(Run(s, events[..k]), events[k]))
    && forall j :: k < j <= |events| ==> p(Run(s, events[..j]))
  }

  lemma SinceEarlier(s: State, events: seq<Event>, last: nat, k: nat, p: State -> bool)
    requires |events| == last + 1 && Since(s, events[..last], k, p) && p(Run(s, events))
    ensures Since(s, events, k, p)
  {
    var prior := events[..last];
    assert prior[..k] == events[..k];
    forall j | k < j <= |events|
      ensures p(Run(s, events[..j]))
    {
      assert if j <= last then prior[..j] == events[..j] else events[..j] == events;
    }
  }

  /** What holds now and did not at first came to hold at some event. */
  lemma {:induction false} CameToHold(s: State, events: seq<Event>, p: State -> bool)
    requires !p(s) && p(Run(s, events))
    ensures exists k: nat :: Since(s, events, k, p)
    decreases |events|
  {
    hide Next;
    if events != [] {
      var last := |events| - 1;
      var prior := events[..last];
      RunLast(s, events);
      if p(Run(s, prior)) {
        CameToHold(s, prior, p);
        var k: nat :| Since(s, prior, k, p);
        SinceEarlier(s, events, last, k, p);
      } else {
        assert events[..last + 1] == events;
        assert Since(s, events, last, p);
      }
    }
  }

  // ----- leaving the application

  /** The waiting consents were captured at event `k` by a Don't Save answer to the exit prompt,
      and nothing has replaced them since. */
  ghost predicate AnsweredAt(s: State, events: seq<Event>, k: nat, consents: seq<Consent>) {
    && k < |events| && events[k].Drain? && events[k].outside.prompt == Answer(DontSave)
    && Run(s, events[..k]).pending.Application? && consents == Consents(Run(s, events[..k]).editors)
    && forall j :: k < j <= |events| ==> Run(s, events[..j]).pending == ApplicationDiscarding(consents)
  }

  lemma ConsentsWereAnswered(s: State, events: seq<Event>, consents: seq<Consent>)
    requires Start(s) && Run(s, events).pending == ApplicationDiscarding(consents)
    ensures exists k: nat :: AnsweredAt(s, events, k, consents)
  {
    hide Next;
    var p := (x: State) => x.pending == ApplicationDiscarding(consents);
    CameToHold(s, events, p);
    var k: nat :| Since(s, events, k, p);
    WaitingComesFrom(Run(s, events[..k]), events[k], consents);
    assert forall j :: k < j <= |events| ==> p(Run(s, events[..j]));
    assert AnsweredAt(s, events, k, consents);
  }

  /** The request that is served has the consent it needs, captured for it alone. */
  ghost predicate ServedWithConsent(s: State, events: seq<Event>, o: Outside) {
    var now := Run(s, events);
    && ExitConsented(now, o, Drained(now, o))
    && (now.pending.ApplicationDiscarding? ==> exists k: nat :: AnsweredAt(s, events, k, now.pending.consents))
  }

  lemma GrantIsServed(s: State, events: seq<Event>, o: Outside)
    requires Start(s) && Grants(Run(s, events), Drained(Run(s, events), o))
    ensures ServedWithConsent(s, events, o)
  {
    hide Drained, ExitConsented;
    var now := Run(s, events);
    RunKeepsInv(s, events);
    DrainIsSafe(now, o);
    if now.pending.ApplicationDiscarding? {
      ConsentsWereAnswered(s, events, now.pending.consents);
    }
  }

  /** Event `k` granted the exit, and ever since it has only waited for the session with the
      documents of that moment. */
  ghost predicate GrantedAt(s: State, events: seq<Event>, k: nat) {
    && k < |events| && events[k].Drain? && ServedWithConsent(s, events[..k], events[k].outside)
    && forall j :: k < j <= |events| ==>
         Run(s, events[..j]).session == SavingSession(Documents(Drained(Run(s, events[..k]), events[k].outside).editors))
  }

  lemma SavingComesFrom(now: State, e: Event)
    requires Next(now, e).session.SavingSession? && Next(now, e).session != now.session
    ensures e.Drain? && !now.session.SavingSession? && Next(now, e).session == SavingSession(Documents(Next(now, e).editors))
  {
    hide IndexOf, CloseDocument;
    if e.Drain? {
      DrainSaves(now, e.outside);
    }
  }

  lemma DrainSaves(now: State, o: Outside)
    ensures var after := Drained(now, o);
      after.session != now.session && after.session.SavingSession? ==>
      !now.session.SavingSession? && after.session == SavingSession(Documents(after.editors))
  {
    hide DiscardForExit, CloseDocument, Documents;
    var taken := now.(pending := NoClose);
    if now.pending.Document? {
      CloseKeepsSession(taken, o, now.pending.target);
    } else if now.pending.ApplicationDiscarding? {
      DiscardForExitOutcome(taken, now.pending.consents);
    } else if now.pending.Application? {
      var consents := Consents(taken.editors);
      DiscardForExitOutcome(taken.(editors := Frozen(taken.editors), discarded := taken.discarded + Identities(consents)), consents);
    }
  }

  lemma SessionWasGranted(s: State, events: seq<Event>)
    requires Start(s) && Run(s, events).session.SavingSession?
    ensures exists k: nat :: GrantedAt(s, events, k)
  {
    hide Next, ServedWithConsent;
    var saving := Run(s, events).session;
    var p := (x: State) => x.session == saving;
    CameToHold(s, events, p);
    var k: nat :| Since(s, events, k, p);
    var now := Run(s, events[..k]);
    SavingComesFrom(now, events[k]);
    DrainIsNext(now, events[k]);
    GrantIsServed(s, events[..k], events[k].outside);
    assert forall j :: k < j <= |events| ==> p(Run(s, events[..j]));
    assert GrantedAt(s, events, k);
  }

  lemma DrainIsNext(now: State, e: Event)
    requires e.Drain?
    ensures Next(now, e) == Drained(now, e.outside)
  {
  }

  /** Over every interleaving, the program leaves in one of two ways. Either a drain serves a
      request that has every consent it needs, waiting consents having been captured by a Don't
      Save answer to this very request. Or the session was written, and then an earlier drain was
      granted in that way, and the documents are those that it left, in the same tabs and with
      the same content, and none has an edit in flight. */
  lemma ExitOnlyWithConsent(s: State, events: seq<Event>, e: Event)
    requires Start(s)
    requires !Run(s, events).exited && Next(Run(s, events), e).exited
    ensures e.Drain? || e.SessionWritten?
    ensures e.Drain? ==>
      ServedWithConsent(s, events, e.outside) && DirtyConsented(Next(Run(s, events), e))
    ensures e.SessionWritten? ==>
      && (forall x :: x in Run(s, events).editors ==> !x.busy)
      && exists k: nat :: GrantedAt(s, events, k)
                     && Documents(Run(s, events).editors) == Documents(Drained(Run(s, events[..k]), events[k].outside).editors)
  {
    hide ServedWithConsent, Documents, Drained;
    RunKeepsInv(s, events);
    if e.Drain? {
      EventKeepsInv(Run(s, events), e);
      GrantIsServed(s, events, e.outside);
    } else if e.SessionWritten? {
      SessionWasGranted(s, events);
      var k: nat :| GrantedAt(s, events, k);
      assert events[..|events|] == events;
    } else {
      OthersNeverExit(Run(s, events), e);
    }
  }

  lemma OthersNeverExit(now: State, e: Event)
    requires !e.Drain? && !e.SessionWritten?
    ensures Next(now, e).exited == now.exited
  {
  }

  // ----- what leaves the window

  ghost predicate Discarding(s: State, id: (nat, nat)) {
    s.pending.Document? && s.pending.target.discarding && (s.pending.target.owner, s.pending.target.revision) == id
  }

  /** The waiting document discard was answered Don't Save at event `k`, for this identity, and has
      waited since. */
  ghost predicate DiscardedAt(s: State, events: seq<Event>, k: nat, id: (nat, nat)) {
    && k < |events| && events[k].Drain? && events[k].outside.prompt == Answer(DontSave)
    && Run(s, events[..k]).pending.Document?
    && (Run(s, events[..k]).pending.target.owner, Run(s, events[..k]).pending.target.revision) == id
    && forall j :: k < j <= |events| ==> Discarding(Run(s, events[..j]), id)
  }

  lemma FinishKeepsTarget(s: State, o: Outside, t: CloseTarget, i: nat)
    requires i < |s.editors| && s.pending.NoClose?
    ensures FinishClose(s, o, t, i).pending == NoClose || FinishClose(s, o, t, i).pending == Document(t)
  {
  }

  lemma CloseDiscards(s: State, o: Outside, t: CloseTarget, id: (nat, nat))
    requires s.pending.NoClose? && Discarding(CloseDocument(s, o, t), id)
    ensures (t.owner, t.revision) == id && (t.discarding || o.prompt == Answer(DontSave))
  {
    hide IndexOf, FinishClose, Names;
    match IndexOf(s.editors, t.owner)
    case None =>
    case Some(i) =>
      var at := t.(index := i);
      var (asked, confirmed, ok) := ConfirmDocument(s, o, at, i);
      FinishKeepsTarget(s, o, at, i);
      if ok {
        FinishKeepsTarget(asked, o, confirmed, i);
      }
  }

  lemma DiscardingComesFrom(now: State, e: Event, id: (nat, nat))
    requires Discarding(Next(now, e), id) && !Discarding(now, id)
    ensures e.Drain? && e.outside.prompt == Answer(DontSave) && now.pending.Document?
    ensures (now.pending.target.owner, now.pending.target.revision) == id
  {
    hide DrainApplication, DrainDiscarding, CloseDocument, IndexOf;
    if e.Drain? {
      var taken := now.(pending := NoClose);
      if now.pending.Document? {
        CloseDiscards(taken, e.outside, now.pending.target, id);
      } else {
        ExitsKeepNoDocument(taken, e.outside);
        if now.pending.ApplicationDiscarding? {
          DiscardingKeepsNoDocument(taken, e.outside, now.pending.consents);
        }
      }
    }
  }

  lemma ExitsKeepNoDocument(s: State, o: Outside)
    requires s.pending.NoClose?
    ensures !DrainApplication(s, o).pending.Document?
  {
    hide DiscardForExit;
    var consents := Consents(s.editors);
    DiscardForExitOutcome(s.(editors := Frozen(s.editors), discarded := s.discarded + Identities(consents)), consents);
  }

  lemma DiscardingKeepsNoDocument(s: State, o: Outside, consents: seq<Consent>)
    requires s.pending.NoClose?
    ensures !DrainDiscarding(s, o, consents).pending.Document?
  {
    hide DiscardForExit;
    DiscardForExitOutcome(s, consents);
  }

  lemma DiscardWasAnswered(s: State, events: seq<Event>, id: (nat, nat))
    requires Start(s) && Discarding(Run(s, events), id)
    ensures exists k: nat :: DiscardedAt(s, events, k, id)
  {
    hide Next;
    var p := (x: State) => Discarding(x, id);
    CameToHold(s, events, p);
    var k: nat :| Since(s, events, k, p);
    DiscardingComesFrom(Run(s, events[..k]), events[k], id);
    assert forall j :: k < j <= |events| ==> p(Run(s, events[..j]));
    assert DiscardedAt(s, events, k, id);
  }

  /** A reload of exactly this revision was accepted at event `k`: the document was idle then, and
      clean or its text confirmed to be discarded. */
  ghost predicate ReloadedAt(s: State, events: seq<Event>, k: nat, id: (nat, nat)) {
    && k < |events| && events[k].Reload?
    && exists e :: e in Run(s, events[..k]).editors && e.Identity() == id && !e.busy && (e.Dirty() ==> events[k].confirmed)
  }

  lemma ReloadingComesFrom(now: State, e: Event, id: (nat, nat))
    requires id in Next(now, e).reloading && id !in now.reloading
    ensures e.Reload?
    ensures exists x :: x in now.editors && x.Identity() == id && !x.busy && (x.Dirty() ==> e.confirmed)
  {
    hide DrainApplication, DrainDiscarding, CloseDocument, DrainAfterSaves;
    if e.Drain? {
      DrainKeepsReloading(now, e.outside);
    } else if e.Reload? {
      var i := IndexOf(now.editors, e.owner).value;
      assert now.editors[i] in now.editors;
    }
  }

  lemma DrainKeepsReloading(now: State, o: Outside)
    ensures Drained(now, o).reloading == now.reloading
  {
    hide DiscardForExit, CloseDocument;
    var taken := now.(pending := NoClose);
    if now.pending.Document? {
      CloseKeepsReloading(taken, o, now.pending.target);
    } else if now.pending.ApplicationDiscarding? {
      DiscardForExitOutcome(taken, now.pending.consents);
    } else if now.pending.Application? {
      var consents := Consents(taken.editors);
      DiscardForExitOutcome(taken.(editors := Frozen(taken.editors), discarded := taken.discarded + Identities(consents)), consents);
    }
  }

  lemma FinishKeepsReloading(s: State, o: Outside, t: CloseTarget, i: nat)
    requires i < |s.editors|
    ensures FinishClose(s, o, t, i).reloading == s.reloading
  {
  }

  lemma CloseKeepsReloading(s: State, o: Outside, t: CloseTarget)
    ensures CloseDocument(s, o, t).reloading == s.reloading
  {
    hide IndexOf, FinishClose;
    match IndexOf(s.editors, t.owner)
    case None =>
    case Some(i) =>
      var at := t.(index := i);
      var (asked, confirmed, ok) := ConfirmDocument(s, o, at, i);
      FinishKeepsReloading(s, o, at, i);
      FinishKeepsReloading(asked, o, confirmed, i);
  }

  lemma ReloadWasRequested(s: State, events: seq<Event>, id: (nat, nat))
    requires Start(s) && id in Run(s, events).reloading
    ensures exists k: nat :: ReloadedAt(s, events, k, id)
  {
    hide Next;
    var p := (x: State) => id in x.reloading;
    CameToHold(s, events, p);
    var k: nat :| Since(s, events, k, p);
    ReloadingComesFrom(Run(s, events[..k]), events[k], id);
    assert ReloadedAt(s, events, k, id);
  }

  lemma OtherEventsKeepPresence(now: State, e: Event, k: nat)
    requires !e.Drain? && k < |now.editors| && now.editors[k].Dirty() && Distinct(now.editors)
    ensures Present(Next(now, e).editors, now.editors[k].owner)
         || (e.Attach? && now.editors[k].Identity() in now.reloading)
  {
    if e.Reorder? && Permutation(e.order, |now.editors|) && e.active < |now.editors| {
      var i := PermutationHits(e.order, k);
      assert Next(now, e).editors[i] == now.editors[k];
    } else if !e.Attach? || e.owner != now.editors[k].owner || !Attaches(now, e.owner) {
      assert Next(now, e).editors[k].owner == now.editors[k].owner;
    } else {
      var i := IndexOf(now.editors, e.owner).value;
      assert i == k;
    }
  }

  /** How unsaved text may leave the window: with the served document close, for exactly this
      revision, answered Don't Save in this drain or while it waited, and never by an answer to
      a request that is gone; or with a reload of exactly this revision that was accepted while
      it was clean or after the user confirmed to discard it. */
  ghost predicate LeftRightly(s: State, events: seq<Event>, e: Event, lost: Editor) {
    var now := Run(s, events);
    || (&& e.Drain? && now.pending.Document? && Discards(lost, e.outside, now.pending.target)
        && (now.pending.target.discarding ==> exists k: nat :: DiscardedAt(s, events, k, lost.Identity())))
    || (e.Attach? && exists k: nat :: ReloadedAt(s, events, k, lost.Identity()))
  }

  /** Over every interleaving: whenever unsaved text is no longer in the window, it left rightly. */
  lemma NoSilentLoss(s: State, events: seq<Event>, e: Event, k: nat)
    requires Start(s) && k < |Run(s, events).editors| && Run(s, events).editors[k].Dirty()
    ensures Present(Next(Run(s, events), e).editors, Run(s, events).editors[k].owner)
         || LeftRightly(s, events, e, Run(s, events).editors[k])
  {
    hide Drained, DiscardedAt, ReloadedAt;
    var now := Run(s, events);
    var lost := now.editors[k];
    RunKeepsInv(s, events);
    if e.Drain? {
      DrainDropsOnlyDiscarded(now, e.outside, k);
      DrainIsNext(now, e);
      if now.pending.Document? && Discarding(now, lost.Identity()) {
        DiscardWasAnswered(s, events, lost.Identity());
      }
    } else {
      OtherEventsKeepPresence(now, e, k);
      if e.Attach? && lost.Identity() in now.reloading {
        ReloadWasRequested(s, events, lost.Identity());
      }
    }
  }

  /** A clean document that was edited once, to content 1, and undone to content 0 again. */
  function UndoneWindow(): State {
    State([Editor(0, 2, 0, 0, false, false, false, true, Durable, false)], 0, NoClose, false, 1, NotLeaving, {}, {})
  }

  /** A witness that asking once is not asking about what is lost: a reload is accepted while the
      document is clean, a save that was under way writes the undone content and so makes the
      document dirty at the same revision, and the reload then takes the tab without a word. */
  lemma SaveMakesReloadSilent()
    ensures var start := UndoneWindow();
      var now := Next(Next(start, Reload(0, false)), Saved(0, 1));
      && Start(start) && |now.editors| == 1 && now.editors[0].Dirty() && now.editors[0].owner == 0
      && !Present(Next(now, Attach(0, true, false)).editors, 0)
  {
    var e := UndoneWindow().editors[0];
    var asked := Next(UndoneWindow(), Reload(0, false));
    assert IndexOf(asked.editors, 0) == Some(0) && asked.reloading == {(0, 2)};
    var now := Next(asked, Saved(0, 1));
    assert now.editors == [e.(saved := 1)] && IndexOf(now.editors, 0) == Some(0);
    assert Attaches(now, 0);
    assert Next(now, Attach(0, true, false)).editors == [Fresh(1)];
  }

  /** Distinct offsets below their number reach every offset. */
  lemma PermutationHits(order: seq<nat>, k: nat) returns (i: nat)
    requires Permutation(order, |order|) && k < |order|
    ensures i < |order| && order[i] == k
  {
    var hit := set j | 0 <= j < |order| :: order[j];
    DistinctCount(order, |order|);
    SubsetOfEqualSize(hit, Below(|order|));
    assert k in hit;
    i :| 0 <= i < |order| && order[i] == k;
  }

  lemma {:induction false} DistinctCount(order: seq<nat>, n: nat)
    requires n <= |order| && forall i, j :: 0 <= i < j < n ==> order[i] != order[j]
    ensures |set j | 0 <= j < n :: order[j]| == n
    decreases n
  {
    var some := set j | 0 <= j < n :: order[j];
    if n > 0 {
      DistinctCount(order, n - 1);
      var fewer := set j | 0 <= j < n - 1 :: order[j];
      assert some == fewer + {order[n - 1]} && order[n - 1] !in fewer;
    }
  }

  function Below(n: nat): (r: set<nat>)
    ensures |r| == n && forall v: nat :: v in r <==> v < n
  {
    if n == 0 then {}
    else
      var rest := Below(n - 1);
      assert n - 1 !in rest;
      rest + {n - 1}
  }

  lemma SubsetOfEqualSize(a: set<nat>, b: set<nat>)
    requires a <= b && |a| == |b|
    ensures a == b
  {
    assert |b - a| == |b| - |a|;
  }
}
