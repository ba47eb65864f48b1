/** The broker as the object that serves one child process. */
module InvocationObject {
  import opened Wrappers
  import opened Utf8
  import opened Session
  import opened Broker
  import BrokerSafety
  import Paging

  class InvocationBroker {
    const invocation: Invocation
    const source: Snapshot
    const allowed: set<string>
    const external: bool
    var session: ExtensionSession
    var seen: set<nat>
    var edits: Option<seq<TextEdit>>
    var panels: seq<(string, seq<byte>)>
    var panelBytes: nat

    function Now(): State
      reads this
    {
      State(invocation, source, session, allowed, seen, edits, panels, panelBytes, external)
    }

    /** The state both ways of creating a broker start from. */
    constructor (start: State)
      ensures Now() == start
    {
      invocation, source, allowed, external := start.invocation, start.source, start.allowed, start.external;
      session, seen, edits := start.session, start.seen, start.edits;
      panels, panelBytes := start.panels, start.panelBytes;
    }

    method ReadSource(range: Range, host: Host) returns (answer: Answer)
      requires WellFormed(source.text)
      ensures answer == ReadText(Now(), invocation.document, invocation.revision, range, host)
    {
      if range.start > range.end || range.end > invocation.textLength || range.end - range.start > MAX_READ {
        return Err(RangeLimit);
      }
      var bytes: Option<seq<byte>>;
      if external {
        bytes := host.external(range);
      } else {
        bytes := Paging.ReadBytes(source.text, range.start, range.end);
      }
      if bytes.None? || |bytes.value| != range.end - range.start {
        return Err(TextUnavailable);
      }
      return Ok(Bytes(bytes.value));
    }

    method ReadRaw(generation: nat, range: Range, host: Host) returns (answer: Answer)
      ensures answer == ReadOriginal(Now(), invocation.document, generation, range, host)
    {
      if generation != invocation.sourceGeneration || range.start > range.end || range.end > invocation.rawLength
         || range.end - range.start > MAX_READ {
        return Err(StaleOriginal);
      }
      var bytes := host.original(generation, range);
      if bytes.None? || |bytes.value| != range.end - range.start {
        return Err(OriginalUnavailable);
      }
      return Ok(Bytes(bytes.value));
    }

    method ProposeBegin(m: Envelope, now: nat) returns (answer: Answer)
      requires m.request.BeginEdits?
      modifies this`session
      ensures (Now(), answer) == BeginTransaction(old(Now()), m, now)
    {
      if external {
        return Err(ReadOnly);
      }
      if m.request.document != invocation.document || edits.Some? {
        return Err(OneTransaction);
      }
      var (after, refusal) := Begin(session, m, invocation.revision, now);
      session := after;
      if refusal.Some? {
        return Err(Refusal.Session(refusal.value));
      }
      return Ok(Transaction(m.id));
    }

    method ProposeCommit(m: Envelope, host: Host) returns (answer: Answer)
      requires m.request.CommitEdits?
      modifies this`session, this`edits
      ensures (Now(), answer) == CommitStaged(old(Now()), m, host)
    {
      if edits.Some? {
        return Err(OneTransaction);
      }
      var text := source.text;
      var (after, decoded) := Commit(session, m, invocation.revision, host.now, host.decode, edits => Acceptable(text, edits));
      session := after;
      if decoded.Err? {
        return Err(Refusal.Session(decoded.error));
      }
      edits := Some(decoded.value);
      return Ok(Acknowledged);
    }

    method ProposeEdits(document: nat, revision: nat, proposed: seq<TextEdit>) returns (answer: Answer)
      modifies this`edits
      ensures (Now(), answer) == ApplyDirectly(old(Now()), document, revision, proposed)
    {
      if external {
        return Err(ReadOnly);
      }
      if document != invocation.document || revision != invocation.revision || edits.Some? {
        return Err(StaleTransaction);
      }
      var valid := Validate(source.text, proposed);
      if !valid {
        return Err(Refusal.Session(InvalidEdits));
      }
      edits := Some(proposed);
      return Ok(Acknowledged);
    }

    method AddPanel(panel: string, text: seq<byte>) returns (answer: Answer)
      modifies this`panels, this`panelBytes
      ensures (Now(), answer) == ShowPanel(old(Now()), panel, text)
    {
      if panel !in allowed || |panels| >= MAX_PANELS || panelBytes + |text| > MAX_CHUNK_BYTES {
        return Err(PanelLimit);
      }
      panelBytes := panelBytes + |text|;
      panels := panels + [(panel, text)];
      return Ok(Acknowledged);
    }

    /** One request: authorised, then counted, then served. It keeps the broker's invariant, and
        an identifier that was served is never served again. */
    method RequestWithText(m: Envelope, host: Host) returns (answer: Answer)
      requires WellFormed(source.text)
      modifies this
      ensures (Now(), answer) == Handle(old(Now()), m, host)
      ensures BrokerSafety.Inv(old(Now())) ==> BrokerSafety.Inv(Now())
      ensures old(seen) <= seen && (answer.Ok? ==> m.id !in old(seen) && m.id in seen)
    {
      hide BeginTransaction, CommitStaged, ApplyDirectly, ShowPanel, BrokerSafety.Inv;
      if BrokerSafety.Inv(Now()) {
        BrokerSafety.HandleKeepsInv(Now(), m, host);
      }
      BrokerSafety.ServedIsSeen(Now(), m, host);
      var refusal := Authorize(session, m);
      if refusal.Some? {
        return Err(Refusal.Session(refusal.value));
      }
      if |seen| >= MAX_REQUESTS || m.id in seen {
        return Err(ReplayOrRequestLimit);
      }
      seen := seen + {m.id};
      match m.request {
        case ReadTextRange(document, revision, range) =>
          if document != invocation.document || revision != invocation.revision {
            return Err(StaleText);
          }
          answer := ReadSource(range, host);
        case ReadOriginalBytes(document, generation, range) =>
          if document != invocation.document {
            return Err(StaleOriginal);
          }
          answer := ReadRaw(generation, range, host);
        case BeginEdits(_, _) => answer := ProposeBegin(m, host.now);
        case AppendChunk(_, _) =>
          var (after, refused) := Append(session, m, host.now);
          session := after;
          answer := if refused.Some? then Err(Refusal.Session(refused.value)) else Ok(Acknowledged);
        case CommitEdits(_, _) => answer := ProposeCommit(m, host);
        case ApplyEdits(document, revision, proposed) => answer := ProposeEdits(document, revision, proposed);
        case Panel(panel, text) => answer := AddPanel(panel, text);
        case CancelRequest(request) =>
          session := Cancel(session, request);
          edits := None;
          answer := Ok(Acknowledged);
        case InvokeCommand => answer := Err(ApiUnavailable);
      }
    }
  }
}
