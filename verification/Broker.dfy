/** One extension invocation: every request a guest makes is authorised, answered at most once
    and bounded; its edits stay a proposal until the child has succeeded. */
module Broker {
  import opened Wrappers
  import opened Utf8
  import opened Session
  import EditScripts

  const MAX_REQUESTS := 65536
  const MAX_EDITS := 4096
  const MAX_PANELS := 16
  const MAX_READ := MAX_CHUNK_BYTES - 128

  datatype Snapshot = Snapshot(text: seq<byte>, revision: nat, complete: bool)

  datatype Invocation = Invocation(document: nat, revision: nat, sourceGeneration: nat,
                                   textLength: nat, rawLength: nat, grantGeneration: nat)

  /** What the world answers during one request: the clock, the decoder of staged edit lists
      and the two readers behind the broker. */
  datatype Host = Host(now: nat, decode: seq<byte> -> Option<seq<TextEdit>>,
                       original: (nat, Range) -> Option<seq<byte>>,
                       external: Range -> Option<seq<byte>>)

  datatype Refusal =
    | Session(error: BrokerError)
    | ReplayOrRequestLimit | StaleText | RangeLimit | TextUnavailable | StaleOriginal
    | OriginalUnavailable | ReadOnly | OneTransaction | StaleTransaction | PanelLimit | ApiUnavailable

  datatype Value = Bytes(bytes: seq<byte>) | Transaction(id: nat) | Acknowledged

  type Answer = Result<Value, Refusal>

  datatype State = State(
    invocation: Invocation, source: Snapshot, session: ExtensionSession, allowed: set<string>,
    seen: set<nat>, edits: Option<seq<TextEdit>>, panels: seq<(string, seq<byte>)>, panelBytes: nat,
    external: bool)

  datatype NewError = SnapshotOrGrantChanged | GrantChanged

  function New(i: Invocation, source: Snapshot, session: ExtensionSession, panels: set<string>): Result<State, NewError> {
    if i.revision != source.revision || i.textLength != |source.text| || i.grantGeneration != session.generation
       || !source.complete
    then Err(SnapshotOrGrantChanged)
    else Ok(State(i, source, session, panels, {}, None, [], 0, false))
  }

  function NewPaged(i: Invocation, source: Snapshot, session: ExtensionSession, panels: set<string>): Result<State, NewError> {
    if i.grantGeneration != session.generation then Err(GrantChanged)
    else Ok(State(i, source, session, panels, {}, None, [], 0, true))
  }

  // ----- validate

  /** Ascending from `previous`, not overlapping, every end on a boundary of the text. */
  predicate Ascending(text: seq<byte>, edits: seq<TextEdit>, previous: nat) {
    edits == [] ||
    var r := edits[0].range;
      previous <= r.start <= r.end <= |text| && Boundary(text, r.start) && Boundary(text, r.end)
      && Ascending(text, edits[1..], r.end)
  }

  predicate Acceptable(text: seq<byte>, edits: seq<TextEdit>) {
    |edits| <= MAX_EDITS && Ascending(text, edits, 0)
  }

  method Validate(text: seq<byte>, edits: seq<TextEdit>) returns (valid: bool)
    ensures valid <==> Acceptable(text, edits)
  {
    if |edits| > MAX_EDITS {
      return false;
    }
    var previous: nat := 0;
    assert edits[0..] == edits;
    for i := 0 to |edits|
      invariant Ascending(text, edits, 0) <==> Ascending(text, edits[i..], previous)
    {
      assert edits[i..][0] == edits[i] && edits[i..][1..] == edits[i + 1..];
      var start, end := edits[i].range.start, edits[i].range.end;
      if start < previous || start > end || !(start <= |text| && Boundary(text, start))
         || !(end <= |text| && Boundary(text, end)) {
        return false;
      }
      previous := end;
    }
    assert edits[|edits|..] == [];
    return true;
  }

  /** The proposal as a transaction of the document store, which knows what each edit removes. */
  function Script(text: seq<byte>, edits: seq<TextEdit>): (script: seq<EditScripts.Edit<byte>>)
    requires forall i :: 0 <= i < |edits| ==> edits[i].range.start <= edits[i].range.end <= |text|
    ensures |script| == |edits|
  {
    if edits == [] then []
    else
      var r := edits[0].range;
      [EditScripts.Edit(r.start, text[r.start..r.end], edits[0].replacement)] + Script(text, edits[1..])
  }

  lemma {:induction false} AscendingIsInside(text: seq<byte>, edits: seq<TextEdit>, previous: nat)
    requires Ascending(text, edits, previous)
    ensures forall i :: 0 <= i < |edits| ==> edits[i].range.start <= edits[i].range.end <= |text|
  {
    if edits != [] {
      AscendingIsInside(text, edits[1..], edits[0].range.end);
      forall i | 0 <= i < |edits|
        ensures edits[i].range.start <= edits[i].range.end <= |text|
      {
        assert i > 0 ==> edits[i] == edits[1..][i - 1];
      }
    }
  }

  lemma {:induction false} AcceptedFits(text: seq<byte>, edits: seq<TextEdit>, previous: nat)
    requires Ascending(text, edits, previous) && previous <= |text|
    ensures forall i :: 0 <= i < |edits| ==> edits[i].range.start <= edits[i].range.end <= |text|
    ensures EditScripts.Fits(text, Script(text, edits), previous)
    decreases |edits|
  {
    AscendingIsInside(text, edits, previous);
    if edits != [] {
      AcceptedFits(text, edits[1..], edits[0].range.end);
      assert Script(text, edits)[1..] == Script(text, edits[1..]);
    }
  }

  lemma WellFormedPieces(kept: seq<byte>, inserted: Text, rest: seq<byte>)
    requires WellFormed(kept) && WellFormed(rest)
    ensures WellFormed(kept + inserted + rest)
  {
    ConcatWellFormed(kept, inserted);
    ConcatWellFormed(kept + inserted, rest);
  }

  /** Validated edits apply to the whole snapshot in one forward pass, and what that pass still
      has to write from any boundary on is well-formed UTF-8. */
  lemma {:induction false} AcceptedApplies(text: seq<byte>, edits: seq<TextEdit>, previous: nat)
    requires WellFormed(text) && Ascending(text, edits, previous) && previous <= |text| && Boundary(text, previous)
    ensures forall i :: 0 <= i < |edits| ==> edits[i].range.start <= edits[i].range.end <= |text|
    ensures EditScripts.Fits(text, Script(text, edits), previous)
    ensures WellFormed(EditScripts.Forward(text, Script(text, edits), previous))
    decreases |edits|
  {
    AcceptedFits(text, edits, previous);
    if edits == [] {
      RangeWellFormed(text, previous, previous);
    } else {
      var r := edits[0].range;
      AcceptedApplies(text, edits[1..], r.end);
      RangeWellFormed(text, previous, r.start);
      var rest := EditScripts.Forward(text, Script(text, edits[1..]), r.end);
      WellFormedPieces(text[previous..r.start], edits[0].replacement, rest);
      assert Script(text, edits)[1..] == Script(text, edits[1..]);
      ForwardFront(text, edits, previous, rest);
    }
  }

  lemma ForwardFront(text: seq<byte>, edits: seq<TextEdit>, previous: nat, rest: seq<byte>)
    requires edits != [] && Ascending(text, edits, previous) && previous <= |text|
    requires forall i :: 0 <= i < |edits| ==> edits[i].range.start <= edits[i].range.end <= |text|
    requires EditScripts.Fits(text, Script(text, edits), previous)
    requires Script(text, edits)[1..] == Script(text, edits[1..])
    requires rest == EditScripts.Forward(text, Script(text, edits[1..]), edits[0].range.end)
    ensures EditScripts.Forward(text, Script(text, edits), previous)
         == text[previous..edits[0].range.start] + edits[0].replacement + rest
  {
    assert Script(text, edits)[0].End() == edits[0].range.end;
  }

  // ----- request_with_text

  /** Parts of the state that no request changes. */
  predicate SameInvocation(b: State, a: State) {
    && a.invocation == b.invocation && a.source == b.source && a.allowed == b.allowed && a.external == b.external
    && SameGrants(b.session, a.session)
  }

  function ReadText(b: State, document: nat, revision: nat, range: Range, host: Host): Answer {
    if document != b.invocation.document || revision != b.invocation.revision then Err(StaleText)
    else if !(range.start <= range.end <= b.invocation.textLength && range.end - range.start <= MAX_READ) then Err(RangeLimit)
    else
      var bytes :=
        if b.external then host.external(range)
        else if range.end <= |b.source.text| then Some(b.source.text[range.start..range.end])
        else None;
      if bytes.Some? && |bytes.value| == range.end - range.start then Ok(Bytes(bytes.value)) else Err(TextUnavailable)
  }

  function ReadOriginal(b: State, document: nat, generation: nat, range: Range, host: Host): Answer {
    if document != b.invocation.document || generation != b.invocation.sourceGeneration
       || !(range.start <= range.end <= b.invocation.rawLength && range.end - range.start <= MAX_READ)
    then Err(StaleOriginal)
    else
      var bytes := host.original(generation, range);
      if bytes.Some? && |bytes.value| == range.end - range.start then Ok(Bytes(bytes.value)) else Err(OriginalUnavailable)
  }

  function BeginTransaction(b: State, m: Envelope, now: nat): (r: (State, Answer))
    requires m.request.BeginEdits?
    ensures SameInvocation(b, r.0)
  {
    if b.external then (b, Err(ReadOnly))
    else if m.request.document != b.invocation.document || b.edits.Some? then (b, Err(OneTransaction))
    else
      var (session, refusal) := Begin(b.session, m, b.invocation.revision, now);
      (b.(session := session), if refusal.Some? then Err(Session(refusal.value)) else Ok(Transaction(m.id)))
  }

  function AppendStaged(b: State, m: Envelope, now: nat): (r: (State, Answer))
    requires m.request.AppendChunk?
    ensures SameInvocation(b, r.0)
  {
    var (session, refusal) := Append(b.session, m, now);
    (b.(session := session), if refusal.Some? then Err(Session(refusal.value)) else Ok(Acknowledged))
  }

  function CommitStaged(b: State, m: Envelope, host: Host): (r: (State, Answer))
    requires m.request.CommitEdits?
    ensures SameInvocation(b, r.0)
  {
    if b.edits.Some? then (b, Err(OneTransaction))
    else
      var (session, edits) := Commit(b.session, m, b.invocation.revision, host.now, host.decode,
                                     edits => Acceptable(b.source.text, edits));
      if edits.Err? then (b.(session := session), Err(Session(edits.error)))
      else (b.(session := session, edits := Some(edits.value)), Ok(Acknowledged))
  }

  function ApplyDirectly(b: State, document: nat, revision: nat, edits: seq<TextEdit>): (r: (State, Answer))
    ensures SameInvocation(b, r.0)
  {
    if b.external then (b, Err(ReadOnly))
    else if document != b.invocation.document || revision != b.invocation.revision || b.edits.Some? then
      (b, Err(StaleTransaction))
    else if !Acceptable(b.source.text, edits) then (b, Err(Session(InvalidEdits)))
    else (b.(edits := Some(edits)), Ok(Acknowledged))
  }

  function ShowPanel(b: State, panel: string, text: seq<byte>): (r: (State, Answer))
    ensures SameInvocation(b, r.0)
  {
    if panel !in b.allowed || |b.panels| >= MAX_PANELS || b.panelBytes + |text| > MAX_CHUNK_BYTES then (b, Err(PanelLimit))
    else (b.(panelBytes := b.panelBytes + |text|, panels := b.panels + [(panel, text)]), Ok(Acknowledged))
  }

  function CancelStaged(b: State, request: nat): State {
    b.(session := Cancel(b.session, request), edits := None)
  }

  /** The request's own branch, once it is authorised and its identifier is fresh. */
  function Serve(b: State, m: Envelope, host: Host): (r: (State, Answer))
    ensures SameInvocation(b, r.0)
  {
    match m.request
    case ReadTextRange(document, revision, range) => (b, ReadText(b, document, revision, range, host))
    case ReadOriginalBytes(document, generation, range) => (b, ReadOriginal(b, document, generation, range, host))
    case BeginEdits(_, _) => BeginTransaction(b, m, host.now)
    case AppendChunk(_, _) => AppendStaged(b, m, host.now)
    case CommitEdits(_, _) => CommitStaged(b, m, host)
    case ApplyEdits(document, revision, edits) => ApplyDirectly(b, document, revision, edits)
    case Panel(panel, text) => ShowPanel(b, panel, text)
    case CancelRequest(request) => (CancelStaged(b, request), Ok(Acknowledged))
    case InvokeCommand => (b, Err(ApiUnavailable))
  }

  function Handle(b: State, m: Envelope, host: Host): (r: (State, Answer))
    ensures SameInvocation(b, r.0)
  {
    var refusal := Authorize(b.session, m);
    if refusal.Some? then (b, Err(Session(refusal.value)))
    else if |b.seen| >= MAX_REQUESTS || m.id in b.seen then (b, Err(ReplayOrRequestLimit))
    else Serve(b.(seen := b.seen + {m.id}), m, host)
  }

  // ----- finish

  datatype Output = Output(source: Snapshot, transaction: Option<(nat, seq<TextEdit>)>, panels: seq<(string, seq<byte>)>)

  /** `child` is the authenticated outcome of the guest process. */
  function Finish<E>(b: State, child: Result<(), E>): Result<Output, E> {
    match child
    case Err(e) => Err(e)
    case Ok(_) =>
      var transaction := if b.edits.None? then None else Some((b.source.revision, b.edits.value));
      Ok(Output(b.source, transaction, b.panels))
  }
}

/** What holds over every run of requests an invocation can see. */
module BrokerSafety {
  import opened Wrappers
  import opened Utf8
  import opened Session
  import opened Broker
  import EditScripts

  function PanelTotal(panels: seq<(string, seq<byte>)>): nat {
    if panels == [] then 0 else PanelTotal(panels[..|panels| - 1]) + |panels[|panels| - 1].1|
  }

  ghost predicate Inv(b: State) {
    && Bounded(b.session)
    && |b.seen| <= MAX_REQUESTS
    && (b.edits.Some? ==> Acceptable(b.source.text, b.edits.value))
    && (b.external ==> b.edits.None? && b.session.staged == [])
    && |b.panels| <= MAX_PANELS && b.panelBytes == PanelTotal(b.panels) <= MAX_CHUNK_BYTES
    && (forall i :: 0 <= i < |b.panels| ==> b.panels[i].0 in b.allowed)
  }

  lemma BeginKeepsInv(b: State, m: Envelope, now: nat)
    requires Inv(b) && m.request.BeginEdits?
    ensures Inv(BeginTransaction(b, m, now).0)
  {
    BeginKeepsBounded(b.session, m, b.invocation.revision, now);
  }

  lemma AppendKeepsInv(b: State, m: Envelope, now: nat)
    requires Inv(b) && m.request.AppendChunk?
    ensures Inv(AppendStaged(b, m, now).0)
  {
    AppendKeepsBounded(b.session, m, now);
    if b.external {
      NothingToAppendTo(b.session, m, now);
    }
  }

  /** Without staged text there is no transaction to extend. */
  lemma NothingToAppendTo(s: ExtensionSession, m: Envelope, now: nat)
    requires m.request.AppendChunk? && s.staged == []
    ensures Append(s, m, now).0.staged == []
  {
    assert Authorize(Expire(s, now), m).Some?;
  }

  lemma NothingToCommit(s: ExtensionSession, m: Envelope, current: nat, now: nat,
                        decode: seq<byte> -> Option<seq<TextEdit>>, accepts: seq<TextEdit> -> bool)
    requires m.request.CommitEdits? && s.staged == []
    ensures Commit(s, m, current, now, decode, accepts).0.staged == []
    ensures Commit(s, m, current, now, decode, accepts).1.Err?
  {
    assert Authorize(Expire(s, now), m).Some?;
  }

  lemma CommitWasAccepted(s: ExtensionSession, m: Envelope, current: nat, now: nat,
                          decode: seq<byte> -> Option<seq<TextEdit>>, accepts: seq<TextEdit> -> bool)
    requires m.request.CommitEdits?
    ensures var edits := Commit(s, m, current, now, decode, accepts).1; edits.Ok? ==> accepts(edits.value)
  {
  }

  lemma CommitSession(b: State, m: Envelope, now: nat, decode: seq<byte> -> Option<seq<TextEdit>>,
                      accepts: seq<TextEdit> -> bool)
    requires Inv(b) && m.request.CommitEdits?
    ensures var (session, edits) := Commit(b.session, m, b.invocation.revision, now, decode, accepts);
      Bounded(session) && (b.external ==> session.staged == [] && edits.Err?)
  {
    CommitKeepsBounded(b.session, m, b.invocation.revision, now, decode, accepts);
    if b.external {
      NothingToCommit(b.session, m, b.invocation.revision, now, decode, accepts);
    }
  }

  lemma CommitKeepsInv(b: State, m: Envelope, host: Host)
    requires Inv(b) && m.request.CommitEdits?
    ensures Inv(CommitStaged(b, m, host).0)
  {
    var accepts := edits => Acceptable(b.source.text, edits);
    CommitSession(b, m, host.now, host.decode, accepts);
    CommitWasAccepted(b.session, m, b.invocation.revision, host.now, host.decode, accepts);
  }

  lemma ApplyKeepsInv(b: State, document: nat, revision: nat, edits: seq<TextEdit>)
    requires Inv(b)
    ensures var a := ApplyDirectly(b, document, revision, edits).0; Inv(a)
  {
  }

  lemma PanelKeepsInv(b: State, panel: string, text: seq<byte>)
    requires Inv(b)
    ensures var a := ShowPanel(b, panel, text).0; Inv(a)
  {
    assert (b.panels + [(panel, text)])[..|b.panels|] == b.panels;
  }

  lemma CancelKeepsInv(b: State, request: nat)
    requires Inv(b)
    ensures Inv(CancelStaged(b, request))
  {
    DropKeepsBounded(b.session, {request});
  }

  /** Which operation serves which request. */
  lemma Dispatch(b: State, m: Envelope, host: Host)
    ensures m.request.BeginEdits? ==> Serve(b, m, host) == BeginTransaction(b, m, host.now)
    ensures m.request.AppendChunk? ==> Serve(b, m, host) == AppendStaged(b, m, host.now)
    ensures m.request.CommitEdits? ==> Serve(b, m, host) == CommitStaged(b, m, host)
    ensures m.request.ReadTextRange? || m.request.ReadOriginalBytes? || m.request.InvokeCommand? ==>
      Serve(b, m, host).0 == b
  {
  }

  lemma SessionCallKeepsInv(b: State, m: Envelope, host: Host, after: State)
    requires Inv(b)
    requires m.request.BeginEdits? ==> after == BeginTransaction(b, m, host.now).0
    requires m.request.AppendChunk? ==> after == AppendStaged(b, m, host.now).0
    requires m.request.CommitEdits? ==> after == CommitStaged(b, m, host).0
    ensures m.request.BeginEdits? || m.request.AppendChunk? || m.request.CommitEdits? ==> Inv(after)
  {
    if m.request.BeginEdits? {
      BeginKeepsInv(b, m, host.now);
    } else if m.request.AppendChunk? {
      AppendKeepsInv(b, m, host.now);
    } else if m.request.CommitEdits? {
      CommitKeepsInv(b, m, host);
    }
  }

  lemma ServeKeepsInv(b: State, m: Envelope, host: Host)
    requires Inv(b)
    ensures Inv(Serve(b, m, host).0)
  {
    Dispatch(b, m, host);
    match m.request {
      case ApplyEdits(document, revision, edits) => ApplyKeepsInv(b, document, revision, edits);
      case Panel(panel, text) => PanelKeepsInv(b, panel, text);
      case CancelRequest(request) => CancelKeepsInv(b, request);
      case _ => SessionCallKeepsInv(b, m, host, Serve(b, m, host).0);
    }
  }

  lemma SeeingKeepsInv(b: State, id: nat)
    requires Inv(b) && |b.seen| < MAX_REQUESTS && id !in b.seen
    ensures Inv(b.(seen := b.seen + {id}))
  {
  }

  /** Every request keeps the invariant. */
  lemma HandleKeepsInv(b: State, m: Envelope, host: Host)
    requires Inv(b)
    ensures Inv(Handle(b, m, host).0)
  {
    if Authorize(b.session, m).None? && |b.seen| < MAX_REQUESTS && m.id !in b.seen {
      var next := b.(seen := b.seen + {m.id});
      SeeingKeepsInv(b, m.id);
      ServeKeepsInv(next, m, host);
    }
  }

  // ----- runs

  datatype Call = Call(message: Envelope, host: Host)

  function Run(b: State, calls: seq<Call>): (State, seq<Answer>)
    decreases |calls|
  {
    if calls == [] then (b, [])
    else
      var (next, answer) := Handle(b, calls[0].message, calls[0].host);
      var (end, answers) := Run(next, calls[1..]);
      (end, [answer] + answers)
  }

  lemma {:induction false} RunKeepsInv(b: State, calls: seq<Call>)
    requires Inv(b)
    ensures Inv(Run(b, calls).0) && SameInvocation(b, Run(b, calls).0) && |Run(b, calls).1| == |calls|
    decreases |calls|
  {
    if calls != [] {
      HandleKeepsInv(b, calls[0].message, calls[0].host);
      RunKeepsInv(Handle(b, calls[0].message, calls[0].host).0, calls[1..]);
    }
  }

  lemma ServedIsSeen(b: State, m: Envelope, host: Host)
    ensures b.seen <= Handle(b, m, host).0.seen
    ensures Handle(b, m, host).1.Ok? ==> m.id !in b.seen && m.id in Handle(b, m, host).0.seen
  {
  }

  lemma {:induction false} SeenIsRefused(b: State, calls: seq<Call>, id: nat, i: nat)
    requires id in b.seen && i < |calls| && calls[i].message.id == id
    ensures |Run(b, calls).1| == |calls| && Run(b, calls).1[i].Err?
    decreases |calls|
  {
    var next := Handle(b, calls[0].message, calls[0].host).0;
    ServedIsSeen(b, calls[0].message, calls[0].host);
    if i > 0 {
      SeenIsRefused(next, calls[1..], id, i - 1);
    } else {
      AnswersMatch(next, calls[1..]);
    }
  }

  lemma {:induction false} AnswersMatch(b: State, calls: seq<Call>)
    ensures |Run(b, calls).1| == |calls|
    decreases |calls|
  {
    if calls != [] {
      AnswersMatch(Handle(b, calls[0].message, calls[0].host).0, calls[1..]);
    }
  }

  /** Over any run, two requests with one identifier are never both served. */
  lemma {:induction false} NoIdServedTwice(b: State, calls: seq<Call>, i: nat, j: nat)
    requires i < j < |calls| && calls[i].message.id == calls[j].message.id
    ensures |Run(b, calls).1| == |calls|
    ensures Run(b, calls).1[i].Err? || Run(b, calls).1[j].Err?
    decreases |calls|
  {
    var m, host := calls[0].message, calls[0].host;
    var (next, answer) := Handle(b, m, host);
    AnswersMatch(b, calls);
    AnswersMatch(next, calls[1..]);
    if i > 0 {
      NoIdServedTwice(next, calls[1..], i - 1, j - 1);
    } else if answer.Ok? {
      ServedIsSeen(b, m, host);
      SeenIsRefused(next, calls[1..], m.id, j - 1);
    }
  }

  /** A broker as handed out, over a session that has staged nothing yet. */
  ghost predicate Fresh(b: State, i: Invocation, source: Snapshot, session: ExtensionSession, panels: set<string>) {
    && (New(i, source, session, panels) == Ok(b) || NewPaged(i, source, session, panels) == Ok(b))
    && WellFormed(source.text) && session.staged == [] && |session.pending| <= MAX_PENDING
  }

  lemma FreshKeepsInv(b: State, i: Invocation, source: Snapshot, session: ExtensionSession, panels: set<string>)
    requires Fresh(b, i, source, session, panels)
    ensures Inv(b)
  {
    assert PanelTotal([]) == 0;
  }

  /** Whatever the guest asks for, a finished invocation holds a transaction only when the
      child succeeded, and then one that the captured snapshot accepts in a single pass and
      that leaves well-formed text. A paged invocation never holds one. */
  lemma FinishedTransactionApplies<E>(i: Invocation, source: Snapshot, session: ExtensionSession, panels: set<string>,
                                      b: State, calls: seq<Call>, child: Result<(), E>)
    requires Fresh(b, i, source, session, panels)
    ensures Finish(Run(b, calls).0, child).Err? <==> child.Err?
    ensures child.Ok? ==>
      var output := Finish(Run(b, calls).0, child).value;
      && output.source == source
      && (b.external ==> output.transaction.None?)
      && (output.transaction.Some? ==>
        && output.transaction.value.0 == source.revision == i.revision
        && Lands(source.text, output.transaction.value.1))
  {
    hide Run, Lands, Acceptable, Bounded;
    FreshKeepsInv(b, i, source, session, panels);
    RunKeepsInv(b, calls);
    var end := Run(b, calls).0;
    if end.edits.Some? {
      AcceptableLands(source.text, end.edits.value);
    }
  }

  lemma AcceptableLands(text: seq<byte>, edits: seq<TextEdit>)
    requires WellFormed(text) && Acceptable(text, edits)
    ensures Lands(text, edits)
  {
    BoundarySplits(text, 0);
    AcceptedApplies(text, edits, 0);
  }

  ghost predicate Lands(text: seq<byte>, edits: seq<TextEdit>) {
    && |edits| <= MAX_EDITS
    && (forall k :: 0 <= k < |edits| ==> edits[k].range.start <= edits[k].range.end <= |text|)
    && EditScripts.Fits(text, Script(text, edits), 0)
    && WellFormed(EditScripts.Forward(text, Script(text, edits), 0))
  }

  /** The same proposal can land from the back in place, with the same text. */
  lemma LandsEitherWay(text: seq<byte>, edits: seq<TextEdit>)
    requires Lands(text, edits)
    ensures EditScripts.Backward(text, Script(text, edits)) == Some(EditScripts.Forward(text, Script(text, edits), 0))
  {
    EditScripts.ForwardIsBackward(text, Script(text, edits), 0);
    assert text[..0] + EditScripts.Forward(text, Script(text, edits), 0) == EditScripts.Forward(text, Script(text, edits), 0);
  }

  // ----- what a run serves

  /** Every answer of a run was given by one request to a broker for the same invocation. */
  lemma {:induction false} AnsweredInRun(b: State, calls: seq<Call>, i: nat) returns (at: State)
    requires i < |calls|
    ensures |Run(b, calls).1| == |calls| && SameInvocation(b, at)
    ensures Run(b, calls).1[i] == Handle(at, calls[i].message, calls[i].host).1
    decreases |calls|
  {
    AnswersMatch(b, calls);
    at := b;
    if i > 0 {
      var next := Handle(b, calls[0].message, calls[0].host).0;
      at := AnsweredInRun(next, calls[1..], i - 1);
    }
  }

  /** The session holds the grant that the request names; editing a staged transaction takes an
      edit grant for some document. */
  ghost predicate Granted(s: ExtensionSession, request: Request) {
    match request
    case ReadTextRange(document, _, _) => Grant(DocumentRead, Document(document)) in s.grants
    case ReadOriginalBytes(document, _, _) => Grant(DocumentRead, Document(document)) in s.grants
    case ApplyEdits(document, _, _) => Grant(DocumentEdit, Document(document)) in s.grants
    case BeginEdits(document, _) => Grant(DocumentEdit, Document(document)) in s.grants
    case Panel(_, _) => Grant(UiPanel, Extension) in s.grants
    case InvokeCommand => false
    case AppendChunk(_, _) => exists d :: Grant(DocumentEdit, Document(d)) in s.grants
    case CommitEdits(_, _) => exists d :: Grant(DocumentEdit, Document(d)) in s.grants
    case CancelRequest(_) => true
  }

  lemma ServedWasGranted(b: State, m: Envelope, host: Host)
    requires Handle(b, m, host).1.Ok?
    ensures Granted(b.session, m.request)
  {
    if m.request.AppendChunk? || m.request.CommitEdits? {
      var entry := Find(b.session.staged, m.request.transaction);
      assert Grant(DocumentEdit, Document(entry.value.document)) in b.session.grants;
    }
  }

  /** Over any run, nothing is served without a grant that the session was handed with. */
  lemma NothingServedUngranted(b: State, calls: seq<Call>, i: nat)
    requires i < |calls|
    ensures |Run(b, calls).1| == |calls|
    ensures Run(b, calls).1[i].Ok? ==> Granted(b.session, calls[i].message.request)
  {
    var at := AnsweredInRun(b, calls, i);
    if Run(b, calls).1[i].Ok? {
      ServedWasGranted(at, calls[i].message, calls[i].host);
      assert at.session.grants == b.session.grants;
    }
  }

  lemma ReadIsExact(b: State, m: Envelope, host: Host)
    requires m.request.ReadTextRange? && !b.external && Handle(b, m, host).1.Ok?
    ensures var r := m.request.range;
      r.start <= r.end <= |b.source.text| && Handle(b, m, host).1.value == Bytes(b.source.text[r.start..r.end])
  {
  }

  /** Over any run, whatever else the guest did before, a text read of a resident snapshot that
      is answered gives exactly the captured bytes of its range. */
  lemma ReadsAreExact(b: State, calls: seq<Call>, i: nat)
    requires i < |calls| && calls[i].message.request.ReadTextRange? && !b.external
    ensures |Run(b, calls).1| == |calls|
    ensures Run(b, calls).1[i].Ok? ==>
      var r := calls[i].message.request.range;
      r.start <= r.end <= |b.source.text| && Run(b, calls).1[i].value == Bytes(b.source.text[r.start..r.end])
  {
    var at := AnsweredInRun(b, calls, i);
    if Run(b, calls).1[i].Ok? {
      ReadIsExact(at, calls[i].message, calls[i].host);
    }
  }

  /** The transaction that a commit names was staged, for the captured revision, before the
      request, has not expired, and decodes to edits the snapshot accepts. */
  ghost predicate Committable(b: State, m: Envelope, host: Host)
    requires m.request.CommitEdits?
  {
    var live := Expire(b.session, host.now);
    var entry := Find(live.staged, m.request.transaction);
    && Authorize(live, m).None? && entry.Some?
    && m.request.revision == b.invocation.revision == entry.value.revision
    && host.decode(entry.value.bytes).Some? && Acceptable(b.source.text, host.decode(entry.value.bytes).value)
  }

  /** Exactly how a paged invocation can get a proposal in spite of being read-only: by
      committing text that was staged in the session it was handed. */
  lemma PagedProposal(b: State, m: Envelope, host: Host)
    requires b.external && b.edits.None?
    ensures Handle(b, m, host).0.edits.Some? <==>
      && Authorize(b.session, m).None? && |b.seen| < MAX_REQUESTS && m.id !in b.seen
      && m.request.CommitEdits? && Committable(b, m, host)
  {
    if Authorize(b.session, m).None? && |b.seen| < MAX_REQUESTS && m.id !in b.seen {
      Dispatch(b.(seen := b.seen + {m.id}), m, host);
    }
  }

  // ----- cancelled transactions

  lemma UnstagedIsRefused(b: State, m: Envelope, host: Host)
    requires m.request.AppendChunk? || m.request.CommitEdits?
    requires m.request.transaction !in Ids(b.session.staged)
    ensures Handle(b, m, host).1.Err?
  {
    hide Serve;
  }

  lemma AppendStages(s: ExtensionSession, m: Envelope, now: nat)
    requires m.request.AppendChunk?
    ensures Ids(Append(s, m, now).0.staged) <= Ids(s.staged)
  {
  }

  lemma CommitStages(s: ExtensionSession, m: Envelope, current: nat, now: nat,
                     decode: seq<byte> -> Option<seq<TextEdit>>, accepts: seq<TextEdit> -> bool)
    requires m.request.CommitEdits?
    ensures Ids(Commit(s, m, current, now, decode, accepts).0.staged) <= Ids(s.staged)
  {
  }

  /** Only beginning a transaction stages a new one, under the request's own identifier. */
  lemma ServeStages(b: State, m: Envelope, host: Host)
    ensures Ids(Serve(b, m, host).0.session.staged) <= Ids(b.session.staged) + {m.id}
  {
    Dispatch(b, m, host);
    if m.request.AppendChunk? {
      AppendStages(b.session, m, host.now);
    } else if m.request.CommitEdits? {
      CommitStages(b.session, m, b.invocation.revision, host.now, host.decode, edits => Acceptable(b.source.text, edits));
    }
  }

  lemma HandleStages(b: State, m: Envelope, host: Host)
    ensures Ids(Handle(b, m, host).0.session.staged) <= Ids(b.session.staged) + (if m.id in b.seen then {} else {m.id})
  {
    hide Serve;
    if Authorize(b.session, m).None? && |b.seen| < MAX_REQUESTS && m.id !in b.seen {
      ServeStages(b.(seen := b.seen + {m.id}), m, host);
    }
  }

  /** No later request can begin the transaction again: its identifier was seen, as that of every
      transaction begun with this broker, or is not used again. */
  ghost predicate NotBegunAgain(b: State, calls: seq<Call>, id: nat) {
    id in b.seen || forall j :: 0 <= j < |calls| ==> calls[j].message.id != id
  }

  lemma {:induction false} UnstagedStaysRefused(b: State, calls: seq<Call>, id: nat, i: nat)
    requires id !in Ids(b.session.staged) && NotBegunAgain(b, calls, id) && i < |calls|
    requires calls[i].message.request.AppendChunk? || calls[i].message.request.CommitEdits?
    requires calls[i].message.request.transaction == id
    ensures |Run(b, calls).1| == |calls| && Run(b, calls).1[i].Err?
    decreases |calls|
  {
    hide Handle;
    var m, host := calls[0].message, calls[0].host;
    var next := Handle(b, m, host).0;
    AnswersMatch(b, calls);
    if i == 0 {
      UnstagedIsRefused(b, m, host);
    } else {
      HandleStages(b, m, host);
      ServedIsSeen(b, m, host);
      UnstagedStaysRefused(next, calls[1..], id, i - 1);
    }
  }

  lemma CancelUnstages(b: State, m: Envelope, host: Host)
    requires m.request.CancelRequest? && Handle(b, m, host).1.Ok?
    ensures var a := Handle(b, m, host).0;
      a.edits.None? && m.request.request !in Ids(a.session.staged) && b.seen <= a.seen
  {
  }

  /** An accepted cancellation withdraws the proposal, and over every later run the cancelled
      transaction is neither extended nor committed. */
  lemma CancelWithdraws(b: State, m: Envelope, host: Host, calls: seq<Call>, i: nat)
    requires m.request.CancelRequest? && Handle(b, m, host).1.Ok? && i < |calls|
    requires NotBegunAgain(Handle(b, m, host).0, calls, m.request.request)
    requires calls[i].message.request.AppendChunk? || calls[i].message.request.CommitEdits?
    requires calls[i].message.request.transaction == m.request.request
    ensures var a := Handle(b, m, host).0;
      a.edits.None? && |Run(a, calls).1| == |calls| && Run(a, calls).1[i].Err?
  {
    hide Handle, Run;
    CancelUnstages(b, m, host);
    UnstagedStaysRefused(Handle(b, m, host).0, calls, m.request.request, i);
  }
}
