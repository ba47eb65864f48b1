/** The per-extension grant session: which requests a grant covers, which transactions are
    pending and what text they have staged. The broker drives it one call at a time, so it is
    a value here and each call returns the session it leaves behind. */
module Session {
  import opened Wrappers
  import opened Utf8

  const PROTOCOL_VERSION := 1
  const MAX_CHUNK_BYTES := 1024 * 1024
  const MAX_PENDING := 32
  const MEMORY_LIMIT := 128 * 1024 * 1024

  /** A Rust string: bytes that are well-formed UTF-8. */
  type Text = s: seq<byte> | WellFormed(s) witness []

  datatype Range = Range(start: nat, end: nat)
  datatype TextEdit = TextEdit(range: Range, replacement: Text)

  datatype Capability = DocumentRead | DocumentEdit | UiPanel | Reserved
  datatype Scope = Document(id: nat) | Extension | Elsewhere
  datatype Grant = Grant(capability: Capability, scope: Scope)
  datatype Context = Context(capability: Capability, scope: Scope, generation: nat)

  datatype Request =
    | ReadTextRange(document: nat, revision: nat, range: Range)
    | ReadOriginalBytes(document: nat, generation: nat, range: Range)
    | ApplyEdits(document: nat, revision: nat, edits: seq<TextEdit>)
    | BeginEdits(document: nat, revision: nat)
    | AppendChunk(transaction: nat, chunk: seq<byte>)
    | CommitEdits(transaction: nat, revision: nat)
    | CancelRequest(request: nat)
    | InvokeCommand
    | Panel(panel: string, text: seq<byte>)

  datatype Envelope = Envelope(protocol: nat, id: nat, extensionId: string, context: Context, request: Request)

  datatype BrokerError =
    | Denied | InvalidScope | PendingLimit | DuplicateRequest | UnknownRequest
    | StaleRevision | ChunkLimit | StagingLimit | InvalidEdits

  datatype Staged = Staged(document: nat, revision: nat, bytes: seq<byte>)

  /** A keyed map of the extension session, as its list of entries. */
  datatype Entry<T> = Entry(id: nat, value: T)

  function Find<T>(table: seq<Entry<T>>, id: nat): (found: Option<T>)
    ensures found.Some? <==> id in Ids(table)
  {
    if table == [] then None else if table[0].id == id then Some(table[0].value) else Find(table[1..], id)
  }

  function Ids<T>(table: seq<Entry<T>>): set<nat> {
    if table == [] then {} else {table[0].id} + Ids(table[1..])
  }

  function Without<T>(table: seq<Entry<T>>, gone: set<nat>): (rest: seq<Entry<T>>)
    ensures |rest| <= |table| && Ids(rest) == Ids(table) - gone
  {
    if table == [] then []
    else if table[0].id in gone then Without(table[1..], gone)
    else [table[0]] + Without(table[1..], gone)
  }

  function Put<T>(table: seq<Entry<T>>, id: nat, value: T): (after: seq<Entry<T>>)
    ensures Ids(after) == Ids(table) + {id} && Find(after, id) == Some(value)
  {
    [Entry(id, value)] + Without(table, {id})
  }

  datatype ExtensionSession = ExtensionSession(
    id: string, generation: nat, enabled: bool, grants: seq<Grant>,
    pending: seq<Entry<nat>>, // deadlines
    staged: seq<Entry<Staged>>, timeout: nat)

  /** What a request must be granted, or why it can name no grant. A cancellation needs none. */
  function Required(s: ExtensionSession, request: Request): Result<Option<Grant>, BrokerError> {
    match request
    case ReadTextRange(document, _, _) => Ok(Some(Grant(DocumentRead, Document(document))))
    case ReadOriginalBytes(document, _, _) => Ok(Some(Grant(DocumentRead, Document(document))))
    case ApplyEdits(document, _, _) => Ok(Some(Grant(DocumentEdit, Document(document))))
    case BeginEdits(document, _) => Ok(Some(Grant(DocumentEdit, Document(document))))
    case AppendChunk(t, _) =>
      StagedGrant(Find(s.staged, t))
    case CommitEdits(t, _) =>
      StagedGrant(Find(s.staged, t))
    case Panel(_, _) => Ok(Some(Grant(UiPanel, Extension)))
    case InvokeCommand => Err(Denied)
    case CancelRequest(r) => if Find(s.pending, r).Some? then Ok(None) else Err(UnknownRequest)
  }

  function StagedGrant(entry: Option<Staged>): Result<Option<Grant>, BrokerError> {
    if entry.None? then Err(UnknownRequest) else Ok(Some(Grant(DocumentEdit, Document(entry.value.document))))
  }

  function Authorize(s: ExtensionSession, m: Envelope): Option<BrokerError> {
    if !s.enabled || m.extensionId != s.id || m.protocol != PROTOCOL_VERSION || m.context.generation != s.generation
    then Some(Denied)
    else
      match Required(s, m.request)
      case Err(e) => Some(e)
      case Ok(None) => None
      case Ok(Some(g)) =>
        if m.context.capability != g.capability || m.context.scope != g.scope then Some(InvalidScope)
        else if g in s.grants then None
        else Some(Denied)
  }

  /** Whose session it is and what it was granted. */
  predicate SameGrants(s: ExtensionSession, t: ExtensionSession) {
    s.id == t.id && s.generation == t.generation && s.enabled == t.enabled && s.grants == t.grants
  }

  /** Both the pending entry and the staged text of each transaction go. */
  function Drop(s: ExtensionSession, gone: set<nat>): ExtensionSession {
    s.(pending := Without(s.pending, gone), staged := Without(s.staged, gone))
  }

  function Cancel(s: ExtensionSession, request: nat): ExtensionSession { Drop(s, {request}) }

  function Expired(pending: seq<Entry<nat>>, now: nat): set<nat> {
    if pending == [] then {}
    else (if pending[0].value <= now then {pending[0].id} else {}) + Expired(pending[1..], now)
  }

  /** Every transaction whose deadline has come is cancelled. */
  function Expire(s: ExtensionSession, now: nat): ExtensionSession { Drop(s, Expired(s.pending, now)) }

  function Begin(s: ExtensionSession, m: Envelope, current: nat, now: nat): (r: (ExtensionSession, Option<BrokerError>))
    requires m.request.BeginEdits?
    ensures SameGrants(s, r.0)
  {
    if m.request.revision != current then (s, Some(StaleRevision))
    else
      var s := Expire(s, now);
      var refusal := Authorize(s, m);
      if refusal.Some? then (s, refusal)
      else if Find(s.pending, m.id).Some? then (s, Some(DuplicateRequest))
      else if |s.pending| >= MAX_PENDING then (s, Some(PendingLimit))
      else
        (s.(pending := Put(s.pending, m.id, now + s.timeout),
            staged := Put(s.staged, m.id, Staged(m.request.document, m.request.revision, []))), None)
  }

  /** Bytes staged over all open transactions. */
  function Total(staged: seq<Entry<Staged>>): nat {
    if staged == [] then 0 else |staged[0].value.bytes| + Total(staged[1..])
  }

  function Append(s: ExtensionSession, m: Envelope, now: nat): (r: (ExtensionSession, Option<BrokerError>))
    requires m.request.AppendChunk?
    ensures SameGrants(s, r.0)
  {
    var s := Expire(s, now);
    var refusal := Authorize(s, m);
    var t, chunk := m.request.transaction, m.request.chunk;
    var entry := Find(s.staged, t);
    if refusal.Some? then (s, refusal)
    else if |chunk| > MAX_CHUNK_BYTES then (Cancel(s, t), Some(ChunkLimit))
    else if Total(s.staged) + |chunk| > MEMORY_LIMIT / 2 then (Cancel(s, t), Some(StagingLimit))
    else if entry.None? then (s, Some(UnknownRequest))
    else (s.(staged := Put(s.staged, t, entry.value.(bytes := entry.value.bytes + chunk))), None)
  }

  /** Takes a transaction out of staging, whatever becomes of it. `decode` is the edit list its
      bytes encode, if any; `accepts` is the snapshot owner's check. */
  function Commit(s: ExtensionSession, m: Envelope, current: nat, now: nat,
                  decode: seq<byte> -> Option<seq<TextEdit>>, accepts: seq<TextEdit> -> bool)
    : (r: (ExtensionSession, Result<seq<TextEdit>, BrokerError>))
    requires m.request.CommitEdits?
    ensures SameGrants(s, r.0)
  {
    var s := Expire(s, now);
    var refusal := Authorize(s, m);
    var t := m.request.transaction;
    var entry := Find(s.staged, t);
    if refusal.Some? then (s, Err(refusal.value))
    else if entry.None? then (s, Err(UnknownRequest))
    else
      var s := Cancel(s, t);
      if m.request.revision != current || entry.value.revision != m.request.revision then (s, Err(StaleRevision))
      else
        var edits := decode(entry.value.bytes);
        if edits.None? || !accepts(edits.value) then (s, Err(InvalidEdits))
        else (s, Ok(edits.value))
  }

  // ----- what every call keeps

  /** Staged text belongs to a pending transaction, and both stay within their limits. */
  ghost predicate Bounded(s: ExtensionSession) {
    && Ids(s.staged) <= Ids(s.pending)
    && |s.pending| <= MAX_PENDING
    && Total(s.staged) <= MEMORY_LIMIT / 2
    && Distinct(s.staged)
  }

  /** A key has one entry. */
  ghost predicate Distinct<T>(table: seq<Entry<T>>) {
    table == [] || (table[0].id !in Ids(table[1..]) && Distinct(table[1..]))
  }

  lemma {:induction false} WithoutKeeps(staged: seq<Entry<Staged>>, gone: set<nat>)
    requires Distinct(staged)
    ensures Distinct(Without(staged, gone)) && Total(Without(staged, gone)) <= Total(staged)
  {
    if staged != [] {
      WithoutKeeps(staged[1..], gone);
      var rest := Without(staged[1..], gone);
      assert ([staged[0]] + rest)[1..] == rest;
    }
  }

  /** Taking out one key takes out the bytes of its one entry. */
  lemma {:induction false} WithoutOne(staged: seq<Entry<Staged>>, id: nat)
    requires Distinct(staged)
    ensures var found := Find(staged, id);
      Total(staged) == Total(Without(staged, {id})) + if found.None? then 0 else |found.value.bytes|
  {
    if staged != [] {
      WithoutOne(staged[1..], id);
      var rest := Without(staged[1..], {id});
      assert ([staged[0]] + rest)[1..] == rest;
    }
  }

  lemma DropKeepsBounded(s: ExtensionSession, gone: set<nat>)
    requires Bounded(s)
    ensures Bounded(Drop(s, gone))
  {
    WithoutKeeps(s.staged, gone);
  }

  lemma PutTotal(staged: seq<Entry<Staged>>, id: nat, value: Staged)
    requires Distinct(staged)
    ensures Distinct(Put(staged, id, value))
    ensures var found := Find(staged, id);
      Total(Put(staged, id, value)) == Total(staged) + |value.bytes| - if found.None? then 0 else |found.value.bytes|
  {
    WithoutKeeps(staged, {id});
    WithoutOne(staged, id);
    assert Put(staged, id, value)[1..] == Without(staged, {id});
  }

  lemma BeginKeepsBounded(s: ExtensionSession, m: Envelope, current: nat, now: nat)
    requires Bounded(s) && m.request.BeginEdits?
    ensures Bounded(Begin(s, m, current, now).0)
  {
    DropKeepsBounded(s, Expired(s.pending, now));
    PutTotal(Expire(s, now).staged, m.id, Staged(m.request.document, m.request.revision, []));
  }

  lemma AppendKeepsBounded(s: ExtensionSession, m: Envelope, now: nat)
    requires Bounded(s) && m.request.AppendChunk?
    ensures Bounded(Append(s, m, now).0)
  {
    DropKeepsBounded(s, Expired(s.pending, now));
    var e := Expire(s, now);
    var t := m.request.transaction;
    DropKeepsBounded(e, {t});
    var entry := Find(e.staged, t);
    if entry.Some? {
      PutTotal(e.staged, t, entry.value.(bytes := entry.value.bytes + m.request.chunk));
    }
  }

  /** An authorised commit takes the transaction out of both tables, whatever becomes of it. */
  lemma CommitKeepsBounded(s: ExtensionSession, m: Envelope, current: nat, now: nat,
                           decode: seq<byte> -> Option<seq<TextEdit>>, accepts: seq<TextEdit> -> bool)
    requires Bounded(s) && m.request.CommitEdits?
    ensures var after := Commit(s, m, current, now, decode, accepts).0;
      && Bounded(after)
      && (Authorize(Expire(s, now), m).None? ==>
            m.request.transaction !in Ids(after.staged) && m.request.transaction !in Ids(after.pending))
  {
    DropKeepsBounded(s, Expired(s.pending, now));
    DropKeepsBounded(Expire(s, now), {m.request.transaction});
  }
}
