/** Exactly which requests a broker serves, and what a finished invocation holds: the last proposal
    that was acknowledged and not withdrawn, and every panel that was shown. */
module BrokerOutcomes {
  import opened Wrappers
  import opened Utf8
  import opened Session
  import opened Broker
  import opened BrokerSafety

  // ----- what is served

  /** The request comes from the session's extension, in its generation. */
  predicate Belongs(s: ExtensionSession, m: Envelope) {
    s.enabled && m.extensionId == s.id && m.protocol == PROTOCOL_VERSION && m.context.generation == s.generation
  }

  /** It names a grant that the session holds. */
  predicate Carries(s: ExtensionSession, m: Envelope, g: Grant) {
    Belongs(s, m) && m.context.capability == g.capability && m.context.scope == g.scope && g in s.grants
  }

  /** Its identifier is new, and the invocation has requests left. */
  predicate Unseen(b: State, m: Envelope) { |b.seen| < MAX_REQUESTS && m.id !in b.seen }

  /** At most 4096 edits inside the text, on boundaries, one behind the other. */
  predicate Orderly(text: seq<byte>, edits: seq<TextEdit>) {
    && |edits| <= MAX_EDITS
    && (forall i :: 0 <= i < |edits| ==>
          var r := edits[i].range; r.start <= r.end <= |text| && Boundary(text, r.start) && Boundary(text, r.end))
    && forall i, j :: 0 <= i < j < |edits| ==> edits[i].range.end <= edits[j].range.start
  }

  lemma {:induction false} AscendingFrom(text: seq<byte>, edits: seq<TextEdit>, previous: nat)
    ensures Ascending(text, edits, previous) <==>
      && (forall i :: 0 <= i < |edits| ==>
            var r := edits[i].range; r.start <= r.end <= |text| && Boundary(text, r.start) && Boundary(text, r.end))
      && (forall i, j :: 0 <= i < j < |edits| ==> edits[i].range.end <= edits[j].range.start)
      && forall i :: 0 <= i < |edits| ==> previous <= edits[i].range.start
    decreases |edits|
  {
    if edits != [] {
      var rest := edits[1..];
      AscendingFrom(text, rest, edits[0].range.end);
      assert forall i :: 0 < i < |edits| ==> edits[i] == rest[i - 1];
      assert forall i :: 0 <= i < |rest| ==> rest[i] == edits[i + 1];
    }
  }

  lemma AcceptableIsOrderly(text: seq<byte>, edits: seq<TextEdit>)
    ensures Acceptable(text, edits) <==> Orderly(text, edits)
  {
    AscendingFrom(text, edits, 0);
  }

  lemma RefusedOrServed(b: State, m: Envelope, host: Host)
    ensures Handle(b, m, host).1.Ok? ==> Authorize(b.session, m).None? && Unseen(b, m)
    ensures Authorize(b.session, m).None? && Unseen(b, m) ==> Handle(b, m, host) == Serve(b.(seen := b.seen + {m.id}), m, host)
    ensures !(Authorize(b.session, m).None? && Unseen(b, m)) ==> Handle(b, m, host).0 == b
  {
    hide Serve;
  }

  /** A direct proposal is acknowledged, and then held, exactly under these conditions. */
  lemma DirectAcknowledged(b: State, m: Envelope, host: Host)
    requires m.request.ApplyEdits?
    ensures var r, (after, answer) := m.request, Handle(b, m, host);
      && (answer == Ok(Acknowledged) <==>
            && Carries(b.session, m, Grant(DocumentEdit, Document(r.document))) && Unseen(b, m)
            && !b.external && r.document == b.invocation.document && r.revision == b.invocation.revision
            && b.edits.None? && Orderly(b.source.text, r.edits))
      && (answer.Ok? ==> answer.value == Acknowledged && after.edits == Some(r.edits))
      && (answer.Err? ==> after.edits == b.edits)
  {
    AcceptableIsOrderly(b.source.text, m.request.edits);
    hide Acceptable, Orderly;
  }

  /** A panel is shown exactly under these conditions. */
  lemma PanelAcknowledged(b: State, m: Envelope, host: Host)
    requires m.request.Panel?
    ensures var r, (after, answer) := m.request, Handle(b, m, host);
      && (answer == Ok(Acknowledged) <==>
            && Carries(b.session, m, Grant(UiPanel, Extension)) && Unseen(b, m)
            && r.panel in b.allowed && |b.panels| < MAX_PANELS && b.panelBytes + |r.text| <= MAX_CHUNK_BYTES)
      && (answer.Ok? ==> answer.value == Acknowledged && after.panels == b.panels + [(r.panel, r.text)])
      && (answer.Err? ==> after.panels == b.panels)
  {
  }

  /** A cancellation is acknowledged exactly for a pending request. */
  lemma CancelAcknowledged(b: State, m: Envelope, host: Host)
    requires m.request.CancelRequest?
    ensures Handle(b, m, host).1 == Ok(Acknowledged) <==>
      Belongs(b.session, m) && Unseen(b, m) && m.request.request in Ids(b.session.pending)
    ensures Handle(b, m, host).1.Ok? ==> Handle(b, m, host).0.edits.None?
  {
  }

  /** A text read is answered, with the bytes of its source, exactly under these conditions. */
  lemma ReadAnswered(b: State, m: Envelope, host: Host)
    requires m.request.ReadTextRange?
    ensures var r, answer := m.request, Handle(b, m, host).1;
      var length := r.range.end - r.range.start;
      var bytes := if b.external then host.external(r.range)
                   else if r.range.start <= r.range.end <= |b.source.text| then Some(b.source.text[r.range.start..r.range.end])
                   else None;
      && (answer.Ok? <==>
            && Carries(b.session, m, Grant(DocumentRead, Document(r.document))) && Unseen(b, m)
            && r.document == b.invocation.document && r.revision == b.invocation.revision
            && r.range.start <= r.range.end <= b.invocation.textLength && length <= MAX_READ
            && bytes.Some? && |bytes.value| == length)
      && (answer.Ok? ==> answer.value == Bytes(bytes.value))
  {
  }

  lemma OriginalAnswered(b: State, m: Envelope, host: Host)
    requires m.request.ReadOriginalBytes?
    ensures var r, answer := m.request, Handle(b, m, host).1;
      var length := r.range.end - r.range.start;
      var bytes := host.original(r.generation, r.range);
      && (answer.Ok? <==>
            && Carries(b.session, m, Grant(DocumentRead, Document(r.document))) && Unseen(b, m)
            && r.document == b.invocation.document && r.generation == b.invocation.sourceGeneration
            && r.range.start <= r.range.end <= b.invocation.rawLength && length <= MAX_READ
            && bytes.Some? && |bytes.value| == length)
      && (answer.Ok? ==> answer.value == Bytes(bytes.value))
  {
  }

  // ----- transactions that are still live

  /** Pending, with every deadline ahead. */
  predicate Live(s: ExtensionSession, now: nat, id: nat) {
    id in Ids(s.pending) && forall e :: e in s.pending && e.id == id ==> e.value > now
  }

  lemma {:induction false} ExpiredIds(pending: seq<Entry<nat>>, now: nat, id: nat)
    ensures id in Expired(pending, now) <==> exists e :: e in pending && e.id == id && e.value <= now
    decreases |pending|
  {
    if pending != [] {
      ExpiredIds(pending[1..], now, id);
      assert pending == [pending[0]] + pending[1..];
      assert forall e :: e in pending <==> e == pending[0] || e in pending[1..];
    }
  }

  /** Expiry drops exactly what is not live, from both tables. */
  lemma ExpiryKeepsLive(s: ExtensionSession, now: nat, id: nat)
    ensures id in Ids(Expire(s, now).pending) <==> Live(s, now, id)
    ensures id in Ids(s.pending) ==> (id in Ids(Expire(s, now).staged) <==> id in Ids(s.staged) && Live(s, now, id))
  {
    ExpiredIds(s.pending, now, id);
  }

  lemma {:induction false} FindWithout<T>(table: seq<Entry<T>>, gone: set<nat>, id: nat)
    ensures Find(Without(table, gone), id) == if id in gone then None else Find(table, id)
    decreases |table|
  {
    if table != [] {
      FindWithout(table[1..], gone, id);
    }
  }

  lemma FindPut<T>(table: seq<Entry<T>>, id: nat, value: T, other: nat)
    ensures Find(Put(table, id, value), other) == if other == id then Some(value) else Find(table, other)
  {
    FindWithout(table, {id}, other);
  }

  /** A transaction begins exactly under these conditions, empty and under the request's identifier. */
  lemma BeginAcknowledged(b: State, m: Envelope, host: Host)
    requires m.request.BeginEdits?
    ensures var r, (after, answer), live := m.request, Handle(b, m, host), Expire(b.session, host.now);
      && (answer == Ok(Transaction(m.id)) <==>
            && Carries(b.session, m, Grant(DocumentEdit, Document(r.document))) && Unseen(b, m)
            && !b.external && r.document == b.invocation.document && b.edits.None?
            && r.revision == b.invocation.revision && m.id !in Ids(live.pending) && |live.pending| < MAX_PENDING)
      && (answer.Ok? ==> answer.value == Transaction(m.id) && Find(after.session.staged, m.id) == Some(Staged(r.document, r.revision, [])))
  {
  }

  /** Whoever extends or commits a staged transaction needs the edit grant for its document. */
  lemma StagedAuthorized(s: ExtensionSession, m: Envelope)
    requires m.request.AppendChunk? || m.request.CommitEdits?
    ensures var entry := Find(s.staged, m.request.transaction);
      Authorize(s, m).None? <==> entry.Some? && Carries(s, m, Grant(DocumentEdit, Document(entry.value.document)))
  {
  }

  lemma ExpiredStaged(s: ExtensionSession, now: nat, id: nat)
    ensures var live := Expire(s, now);
      && SameGrants(s, live) && (Find(live.staged, id).Some? ==> Find(live.staged, id) == Find(s.staged, id))
  {
    FindWithout(s.staged, Expired(s.pending, now), id);
  }

  lemma SessionAppends(s: ExtensionSession, m: Envelope, now: nat)
    requires m.request.AppendChunk?
    ensures var t, (after, refusal), live := m.request.transaction, Append(s, m, now), Expire(s, now);
      var entry := Find(live.staged, t);
      && (refusal.None? <==> Authorize(live, m).None? && |m.request.chunk| <= MAX_CHUNK_BYTES
                             && Total(live.staged) + |m.request.chunk| <= MEMORY_LIMIT / 2)
      && (refusal.None? ==> entry.Some? && Find(after.staged, t) == Some(entry.value.(bytes := entry.value.bytes + m.request.chunk)))
  {
    hide Expire, Total, Authorize, Put, Without;
    StagedAuthorized(Expire(s, now), m);
  }

  /** A chunk is appended exactly under these conditions. */
  lemma AppendAcknowledged(b: State, m: Envelope, host: Host)
    requires m.request.AppendChunk?
    ensures var t, (after, answer), live := m.request.transaction, Handle(b, m, host), Expire(b.session, host.now);
      var entry := Find(live.staged, t);
      && (answer == Ok(Acknowledged) <==>
            && entry.Some? && Carries(b.session, m, Grant(DocumentEdit, Document(entry.value.document))) && Unseen(b, m)
            && |m.request.chunk| <= MAX_CHUNK_BYTES && Total(live.staged) + |m.request.chunk| <= MEMORY_LIMIT / 2)
      && (answer.Ok? ==>
            && answer.value == Acknowledged && entry.Some?
            && Find(after.session.staged, t) == Some(entry.value.(bytes := entry.value.bytes + m.request.chunk)))
  {
    ExpiredStaged(b.session, host.now, m.request.transaction);
    StagedAuthorized(b.session, m);
    StagedAuthorized(Expire(b.session, host.now), m);
    SessionAppends(b.session, m, host.now);
    RefusedOrServed(b, m, host);
    Dispatch(b.(seen := b.seen + {m.id}), m, host);
    hide Expire, Append, Authorize, Total, Handle, Serve, Find;
  }

  lemma SessionCommits(s: ExtensionSession, m: Envelope, current: nat, now: nat,
                       decode: seq<byte> -> Option<seq<TextEdit>>, accepts: seq<TextEdit> -> bool)
    requires m.request.CommitEdits?
    ensures var edits, live := Commit(s, m, current, now, decode, accepts).1, Expire(s, now);
      var entry := Find(live.staged, m.request.transaction);
      && (edits.Ok? <==>
            && Authorize(live, m).None? && entry.Some? && m.request.revision == current == entry.value.revision
            && decode(entry.value.bytes).Some? && accepts(decode(entry.value.bytes).value))
      && (edits.Ok? ==> Some(edits.value) == decode(entry.value.bytes))
  {
    hide Expire, Authorize, Without;
  }

  /** A commit is acknowledged, and its decoded text then held, exactly under these conditions. */
  lemma CommitAcknowledged(b: State, m: Envelope, host: Host)
    requires m.request.CommitEdits?
    ensures var t, (after, answer), live := m.request.transaction, Handle(b, m, host), Expire(b.session, host.now);
      var entry := Find(live.staged, t);
      && (answer == Ok(Acknowledged) <==>
            && entry.Some? && Carries(b.session, m, Grant(DocumentEdit, Document(entry.value.document))) && Unseen(b, m)
            && b.edits.None? && m.request.revision == b.invocation.revision == entry.value.revision
            && host.decode(entry.value.bytes).Some? && Orderly(b.source.text, host.decode(entry.value.bytes).value))
      && (answer.Ok? ==> answer.value == Acknowledged && entry.Some? && after.edits == host.decode(entry.value.bytes))
      && (answer.Err? ==> after.edits == b.edits)
  {
    ExpiredStaged(b.session, host.now, m.request.transaction);
    StagedAuthorized(b.session, m);
    StagedAuthorized(Expire(b.session, host.now), m);
    SessionCommits(b.session, m, b.invocation.revision, host.now, host.decode, edits => Acceptable(b.source.text, edits));
    var entry := Find(Expire(b.session, host.now).staged, m.request.transaction);
    if entry.Some? && host.decode(entry.value.bytes).Some? {
      AcceptableIsOrderly(b.source.text, host.decode(entry.value.bytes).value);
    }
    RefusedOrServed(b, m, host);
    Dispatch(b.(seen := b.seen + {m.id}), m, host);
    hide Expire, Commit, Authorize, Handle, Serve, Find, Acceptable, Orderly;
  }

  // ----- what a finished invocation holds

  /** The bytes of a transaction as the guest was told: nothing since its begin was acknowledged,
      and then every acknowledged chunk, in order. */
  function Joined(b: State, calls: seq<Call>, answers: seq<Answer>, t: nat): seq<byte>
    requires |calls| == |answers|
  {
    if calls == [] then (match Find(b.session.staged, t) case None => [] case Some(entry) => entry.bytes)
    else
      var n := |calls| - 1;
      var before, m := Joined(b, calls[..n], answers[..n], t), calls[n].message;
      if answers[n].Err? then before
      else match m.request
        case BeginEdits(_, _) => if m.id == t then [] else before
        case AppendChunk(transaction, chunk) => if transaction == t then before + chunk else before
        case _ => before
  }

  /** The last proposal that was acknowledged and not withdrawn since: direct edits as they were
      sent, a commit as the edits that its chunks encode. */
  function Proposed(b: State, calls: seq<Call>, answers: seq<Answer>): Option<seq<TextEdit>>
    requires |calls| == |answers|
  {
    if calls == [] then b.edits
    else
      var n := |calls| - 1;
      var before, m := Proposed(b, calls[..n], answers[..n]), calls[n].message;
      if answers[n].Err? then before
      else match m.request
        case ApplyEdits(_, _, edits) => Some(edits)
        case CommitEdits(transaction, _) => calls[n].host.decode(Joined(b, calls[..n], answers[..n], transaction))
        case CancelRequest(_) => None
        case _ => before
  }

  /** Every panel that was acknowledged, in order. */
  function Shown(b: State, calls: seq<Call>, answers: seq<Answer>): seq<(string, seq<byte>)>
    requires |calls| == |answers|
  {
    if calls == [] then b.panels
    else
      var n := |calls| - 1;
      var before, m := Shown(b, calls[..n], answers[..n]), calls[n].message;
      if answers[n].Ok? && m.request.Panel? then before + [(m.request.panel, m.request.text)] else before
  }

  lemma {:induction false} RunMore(b: State, calls: seq<Call>, c: Call)
    ensures var (state, answers) := Run(b, calls);
      var (next, answer) := Handle(state, c.message, c.host);
      Run(b, calls + [c]) == (next, answers + [answer])
    decreases |calls|
  {
    hide Handle;
    if calls == [] {
      var (next, answer) := Handle(b, c.message, c.host);
      assert calls + [c] == [c] && [c][1..] == [];
      var none: seq<Answer> := [];
      assert none + [answer] == [answer] && [answer] + none == [answer];
      assert Run(b, calls) == (b, none) && Run(b, [c]) == (next, [answer] + none);
    } else {
      var (next, first) := Handle(b, calls[0].message, calls[0].host);
      RunMore(next, calls[1..], c);
      var more := calls + [c];
      assert more[0] == calls[0] && more[1..] == calls[1..] + [c];
      var (state, answers) := Run(next, calls[1..]);
      var answer := Handle(state, c.message, c.host).1;
      assert [first] + (answers + [answer]) == ([first] + answers) + [answer];
    }
  }

  /** The last request of a run. */
  lemma RunLast(b: State, calls: seq<Call>)
    requires calls != []
    ensures var n := |calls| - 1;
      var (state, answers) := Run(b, calls[..n]);
      var (next, answer) := Handle(state, calls[n].message, calls[n].host);
      && |answers| == n && Run(b, calls) == (next, answers + [answer])
      && (answers + [answer])[..n] == answers && (answers + [answer])[n] == answer
  {
    hide Handle, Run;
    var n := |calls| - 1;
    RunMore(b, calls[..n], calls[n]);
    AnswersMatch(b, calls[..n]);
    Unsnoc(calls);
    var (state, answers) := Run(b, calls[..n]);
    Snoc(answers, Handle(state, calls[n].message, calls[n].host).1);
  }

  lemma Unsnoc(calls: seq<Call>)
    requires calls != []
    ensures calls[..|calls| - 1] + [calls[|calls| - 1]] == calls
  {
  }

  lemma Snoc(answers: seq<Answer>, answer: Answer)
    ensures (answers + [answer])[..|answers|] == answers && (answers + [answer])[|answers|] == answer
  {
  }

  /** What one request makes of a staged transaction. */
  lemma StagedStep(b: State, m: Envelope, host: Host, t: nat)
    ensures var (after, answer) := Handle(b, m, host);
      var was, now := Find(b.session.staged, t), Find(after.session.staged, t);
      var begun := answer.Ok? && m.request.BeginEdits? && m.id == t;
      var extended := answer.Ok? && m.request.AppendChunk? && m.request.transaction == t;
      && (now.Some? && begun ==> now.value.bytes == [])
      && (now.Some? && !begun ==>
            was.Some? && now.value.bytes == was.value.bytes + (if extended then m.request.chunk else []))
  {
    RefusedOrServed(b, m, host);
    if Authorize(b.session, m).None? && Unseen(b, m) {
      Dispatch(b.(seen := b.seen + {m.id}), m, host);
      match m.request
      case BeginEdits(_, _) => BeginStep(b.session, m, b.invocation.revision, host.now, t);
      case AppendChunk(_, _) => AppendStep(b.session, m, host.now, t);
      case CommitEdits(_, _) =>
        CommitStep(b.session, m, b.invocation.revision, host.now, host.decode, edits => Acceptable(b.source.text, edits), t);
      case CancelRequest(r) => FindWithout(b.session.staged, {r}, t);
      case _ =>
    }
    hide Begin, Append, Commit, Find, Authorize, Acceptable, Expire;
  }

  lemma BeginStep(s: ExtensionSession, m: Envelope, current: nat, now: nat, t: nat)
    requires m.request.BeginEdits?
    ensures var (after, refusal) := Begin(s, m, current, now);
      Find(after.staged, t).Some? ==>
        if refusal.None? && m.id == t then Find(after.staged, t).value.bytes == []
        else Find(after.staged, t) == Find(s.staged, t)
  {
    ExpiredStaged(s, now, t);
    var live := Expire(s, now);
    FindPut(live.staged, m.id, Staged(m.request.document, m.request.revision, []), t);
    hide Expire, Authorize, Put, Find;
  }

  lemma AppendStep(s: ExtensionSession, m: Envelope, now: nat, t: nat)
    requires m.request.AppendChunk?
    ensures var (after, refusal) := Append(s, m, now);
      Find(after.staged, t).Some? ==>
        && Find(s.staged, t).Some?
        && Find(after.staged, t).value.bytes ==
           if refusal.None? && m.request.transaction == t then Find(s.staged, t).value.bytes + m.request.chunk
           else Find(s.staged, t).value.bytes
  {
    var live, id := Expire(s, now), m.request.transaction;
    ExpiredStaged(s, now, t);
    FindWithout(live.staged, {id}, t);
    var entry := Find(live.staged, id);
    if entry.Some? {
      FindPut(live.staged, id, entry.value.(bytes := entry.value.bytes + m.request.chunk), t);
    }
    hide Expire, Authorize, Put, Total, Find, Without;
  }

  lemma CommitStep(s: ExtensionSession, m: Envelope, current: nat, now: nat,
                   decode: seq<byte> -> Option<seq<TextEdit>>, accepts: seq<TextEdit> -> bool, t: nat)
    requires m.request.CommitEdits?
    ensures var after := Commit(s, m, current, now, decode, accepts).0;
      Find(after.staged, t).Some? ==> Find(after.staged, t) == Find(s.staged, t)
  {
    var live := Expire(s, now);
    ExpiredStaged(s, now, t);
    FindWithout(live.staged, {m.request.transaction}, t);
    hide Expire, Authorize, Find, Without;
  }

  /** Over any run, a transaction that is still staged holds exactly the acknowledged chunks. */
  lemma {:induction false} StagedIsJoined(b: State, calls: seq<Call>, t: nat)
    ensures |Run(b, calls).1| == |calls|
    ensures Find(Run(b, calls).0.session.staged, t).Some? ==>
      Find(Run(b, calls).0.session.staged, t).value.bytes == Joined(b, calls, Run(b, calls).1, t)
    decreases |calls|
  {
    if calls != [] {
      var n := |calls| - 1;
      hide Handle, Run, Find;
      StagedIsJoined(b, calls[..n], t);
      RunLast(b, calls);
      StagedStep(Run(b, calls[..n]).0, calls[n].message, calls[n].host, t);
    }
  }

  /** What one request makes of the proposal and the panels. */
  lemma HeldStep(b: State, m: Envelope, host: Host)
    ensures var (after, answer) := Handle(b, m, host);
      && after.edits == (if answer.Err? then b.edits
                         else match m.request
                           case ApplyEdits(_, _, edits) => Some(edits)
                           case CommitEdits(t, _) => after.edits
                           case CancelRequest(_) => None
                           case _ => b.edits)
      && after.panels == (if answer.Ok? && m.request.Panel? then b.panels + [(m.request.panel, m.request.text)] else b.panels)
      && (answer.Ok? && m.request.CommitEdits? ==>
            && Find(b.session.staged, m.request.transaction).Some?
            && after.edits == host.decode(Find(b.session.staged, m.request.transaction).value.bytes))
  {
    if m.request.CommitEdits? {
      CommitAcknowledged(b, m, host);
      ExpiredStaged(b.session, host.now, m.request.transaction);
    }
    RefusedOrServed(b, m, host);
    hide Find, Expire, Authorize, Acceptable, Orderly, Begin, Append, Commit;
  }

  /** Over any run, the broker holds exactly the last proposal that was acknowledged and not
      withdrawn since, and exactly the panels that were acknowledged. */
  lemma {:induction false} HoldsLastProposal(b: State, calls: seq<Call>)
    ensures |Run(b, calls).1| == |calls|
    ensures Run(b, calls).0.edits == Proposed(b, calls, Run(b, calls).1)
    ensures Run(b, calls).0.panels == Shown(b, calls, Run(b, calls).1)
    decreases |calls|
  {
    if calls != [] {
      var n := |calls| - 1;
      hide Handle, Run, Find;
      var m := calls[n].message;
      HoldsLastProposal(b, calls[..n]);
      RunLast(b, calls);
      HeldStep(Run(b, calls[..n]).0, m, calls[n].host);
      if m.request.CommitEdits? {
        StagedIsJoined(b, calls[..n], m.request.transaction);
      }
    }
  }

  /** A finished invocation: nothing from a failed child; otherwise the captured text, the last
      proposal for its revision, or none, and every panel. */
  lemma FinishedHoldsLast<E>(b: State, calls: seq<Call>, child: Result<(), E>)
    requires b.edits.None? && b.panels == []
    ensures var (end, answers) := Run(b, calls);
      && |answers| == |calls|
      && Finish(end, child) ==
         match child
         case Err(e) => Err(e)
         case Ok(_) =>
           var proposal := Proposed(b, calls, answers);
           Ok(Output(b.source, if proposal.None? then None else Some((b.source.revision, proposal.value)), Shown(b, calls, answers)))
  {
    HoldsLastProposal(b, calls);
    SourceStays(b, calls);
    hide Run, Proposed, Shown;
  }

  lemma {:induction false} SourceStays(b: State, calls: seq<Call>)
    ensures Run(b, calls).0.source == b.source
    decreases |calls|
  {
    hide Handle;
    if calls != [] {
      SourceStays(Handle(b, calls[0].message, calls[0].host).0, calls[1..]);
    }
  }
}
