/** The comparison controller: one bounded worker, results that may arrive late, and hunks that
    must never be shown or merged for documents that have moved on.

    `Control` and its functions are the controller's state and calls; `ControlSafety` says what
    every sequence of calls and worker steps keeps; `CompareController` is the object itself. */
module Comparison {
  import opened Wrappers

  datatype Snap = Snap(document: nat, revision: nat, content: nat, complete: bool)

  /** A captured source: a resident snapshot, or a paged one read directly or by capture. */
  datatype Input = Resident(snap: Snap) | Paged(snap: Snap) | CapturedPaged(snap: Snap)

  /** `a` was captured from the very text that `b` still shows. */
  predicate Current(a: Input, b: Input) {
    && a.snap.document == b.snap.document && a.snap.revision == b.snap.revision && a.snap.content == b.snap.content
    && (a.Resident? <==> b.Resident?)
    && (b.Resident? ==> b.snap.complete)
  }

  datatype Hunk = Hunk(id: nat, leftStart: nat, leftEnd: nat, rightStart: nat, rightEnd: nat)

  datatype Completeness = Exact | Coarse(reason: nat) | Cancelled | Unavailable | Failed

  type Options = nat

  datatype CompareResult = CompareResult(
    leftRevision: nat, rightRevision: nat, options: Options, completeness: Completeness, hunks: seq<Hunk>)

  datatype Status = Awaiting | Running | Done(how: Completeness) | Stale

  datatype CompareError = Busy | WorkerUnavailable | NoResult | StaleSources | MissingHunk | ApplyRefused

  datatype Request = Request(job: nat, left: Input, right: Input, options: Options)

  /** The worker thread: one queued request at most, one running, and finished responses that
      wait for whoever still listens. `computed` records every comparison it ever finished. */
  datatype Worker = Worker(
    alive: bool, queued: Option<Request>, running: Option<Request>,
    responses: map<nat, CompareResult>, computed: set<(Request, CompareResult)>)

  datatype Pending = Pending(job: nat, left: Input, right: Input, cancelled: bool)

  datatype Control = Control(
    status: Status, options: Options,
    result: Option<CompareResult>, snapshots: Option<(Input, Input)>,
    pending: Option<Pending>, worker: Option<Worker>,
    current: Option<nat>, remembered: Option<nat>, nextJob: nat)

  function New(options: Options): Control {
    Control(Awaiting, options, None, None, None, None, None, None, 0)
  }

  function CurrentHunk(c: Control): Option<Hunk> {
    if c.current.Some? && c.result.Some? && c.current.value < |c.result.value.hunks|
    then Some(c.result.value.hunks[c.current.value]) else None
  }

  function Cancel(c: Control): Control {
    c.(pending := None, status := if c.status == Running then Done(Cancelled) else c.status)
  }

  function Invalidate(c: Control): Control {
    Cancel(c).(result := None, snapshots := None, status := Stale)
  }

  function SetOptions(c: Control, options: Options): Control { Invalidate(c.(options := options)) }

  /** `start_inputs_at`; `spawned` says whether a missing worker thread could be created. */
  function Start(c: Control, left: Input, right: Input, spawned: bool): (Control, Option<CompareError>) {
    var kept := c.(remembered := if CurrentHunk(c).Some? then Some(CurrentHunk(c).value.id) else c.remembered);
    var cleared := Cancel(kept).(result := None, snapshots := None);
    if cleared.worker.None? && !spawned then (cleared, Some(WorkerUnavailable))
    else Submit(if cleared.worker.Some? then cleared else cleared.(worker := Some(Worker(true, None, None, map[], {}))), left, right)
  }

  /** Hands a new job to the worker, whose queue holds one. */
  function Submit(c: Control, left: Input, right: Input): (Control, Option<CompareError>)
    requires c.worker.Some?
  {
    var worker := c.worker.value;
    var ready := c.(nextJob := c.nextJob + 1);
    if !worker.alive then (ready.(status := Done(Failed)), Some(WorkerUnavailable))
    else if worker.queued.Some? then (ready.(status := Stale), Some(Busy))
    else (ready.(worker := Some(worker.(queued := Some(Request(c.nextJob, left, right, c.options)))),
                 pending := Some(Pending(c.nextJob, left, right, false)), status := Running), None)
  }

  /** Position of the first hunk with the given stable id. */
  function PositionOf(hunks: seq<Hunk>, id: nat): (r: Option<nat>)
    ensures r.Some? ==> r.value < |hunks| && hunks[r.value].id == id
    ensures r.None? ==> forall i :: 0 <= i < |hunks| ==> hunks[i].id != id
  {
    if hunks == [] then None
    else if hunks[0].id == id then Some(0)
    else match PositionOf(hunks[1..], id)
      case None => None
      case Some(i) => Some(i + 1)
  }

  function Accept(c: Control, result: CompareResult, captured: (Input, Input), left: Input, right: Input): Control {
    if !Current(captured.0, left) || !Current(captured.1, right)
       || result.leftRevision != left.snap.revision || result.rightRevision != right.snap.revision
    then c.(status := Stale)
    else if !result.completeness.Exact? && !result.completeness.Coarse?
    then c.(status := Done(result.completeness), result := None)
    else
      var found := if c.remembered.Some? then PositionOf(result.hunks, c.remembered.value) else None;
      c.(status := Done(result.completeness), result := Some(result), snapshots := Some(captured),
         current := if found.Some? then found else if result.hunks == [] then None else Some(0))
  }

  /** `poll_inputs`. */
  function Poll(c: Control, left: Input, right: Input): (Control, bool) {
    if c.pending.None? then (c, false)
    else
      var p := c.pending.value;
      if !Current(p.left, left) || !Current(p.right, right) then (Invalidate(c), true)
      else if c.worker.Some? && p.job in c.worker.value.responses then
        var taken := c.(pending := None);
        if p.cancelled then (taken.(status := Done(Failed)), true)
        else (Accept(taken, c.worker.value.responses[p.job], (p.left, p.right), left, right), true)
      else if c.worker.Some? && c.worker.value.alive then (c, false)
      else (c.(pending := None, status := Done(Failed)), true)
  }

  /** `visible_input_hunks`: the hunks the caller may paint for these snapshots. */
  function Visible(c: Control, left: Input, right: Input): (Control, seq<Hunk>) {
    var checked :=
      if c.snapshots.Some? && (!Current(c.snapshots.value.0, left) || !Current(c.snapshots.value.1, right))
      then Invalidate(c) else c;
    (checked, if checked.result.Some? then checked.result.value.hunks else [])
  }

  function Navigate(c: Control, previous: bool): Control {
    if c.result.None? || c.result.value.hunks == [] then c
    else
      var count := |c.result.value.hunks|;
      c.(current := Some(
           if previous then (if c.current.None? || c.current.value == 0 then count - 1 else c.current.value - 1)
           else if c.current.None? then 0 else (c.current.value + 1) % count))
  }

  function Distance(h: Hunk, right: bool, offset: nat): nat {
    var (start, end) := if right then (h.rightStart, h.rightEnd) else (h.leftStart, h.leftEnd);
    if offset < start then start - offset else if offset > end then offset - end else 0
  }

  /** The first of the hunks nearest to the offset. */
  ghost predicate Nearest(hunks: seq<Hunk>, right: bool, offset: nat, r: Option<nat>) {
    && (r.None? <==> hunks == [])
    && (r.Some? ==>
          && r.value < |hunks|
          && (forall i :: 0 <= i < |hunks| ==> Distance(hunks[r.value], right, offset) <= Distance(hunks[i], right, offset))
          && (forall i :: 0 <= i < r.value ==> Distance(hunks[r.value], right, offset) < Distance(hunks[i], right, offset)))
  }

  /** `merge`; `applies` is whether the diff engine builds the transaction for the hunk. */
  function Merge(c: Control, left: Input, right: Input, applies: bool): (Control, Result<Hunk, CompareError>) {
    var (seen, hunks) := Visible(c, left, right);
    if hunks == [] then (seen, Err(if seen.status == Stale then StaleSources else NoResult))
    else if seen.status != Done(Exact) && !(seen.status.Done? && seen.status.how.Coarse?) then (seen, Err(NoResult))
    else if CurrentHunk(seen).None? then (seen, Err(MissingHunk))
    else if !applies then (seen, Err(ApplyRefused))
    else (Invalidate(seen), Ok(CurrentHunk(seen).value))
  }

  // ----- the worker's own steps

  function WorkerTakes(w: Worker): Worker {
    if w.alive && w.running.None? then w.(running := w.queued, queued := None) else w
  }

  /** The running comparison finishes; its revisions and options are those of its request. */
  function WorkerFinishes(w: Worker, completeness: Completeness, hunks: seq<Hunk>): Worker {
    if !w.alive || w.running.None? then w
    else
      var q := w.running.value;
      var result := CompareResult(q.left.snap.revision, q.right.snap.revision, q.options, completeness, hunks);
      w.(running := None, responses := w.responses[q.job := result], computed := w.computed + {(q, result)})
  }

  function WorkerDies(w: Worker): Worker { w.(alive := false, queued := None, running := None) }

  datatype Call =
    | DoStart(left: Input, right: Input, spawned: bool)
    | DoCancel
    | DoInvalidate
    | DoSetOptions(options: Options)
    | DoPoll(left: Input, right: Input)
    | DoVisible(left: Input, right: Input)
    | DoNavigate(previous: bool)
    | DoNavigateTo(index: Option<nat>)
    | DoMerge(left: Input, right: Input, applies: bool)
    | Takes
    | Finishes(completeness: Completeness, hunks: seq<Hunk>)
    | Dies

  function Step(c: Control, call: Call): Control {
    match call
    case DoStart(left, right, spawned) => Start(c, left, right, spawned).0
    case DoCancel => Cancel(c)
    case DoInvalidate => Invalidate(c)
    case DoSetOptions(options) => SetOptions(c, options)
    case DoPoll(left, right) => Poll(c, left, right).0
    case DoVisible(left, right) => Visible(c, left, right).0
    case DoNavigate(previous) => Navigate(c, previous)
    case DoNavigateTo(index) =>
      if c.result.Some? && (index.None? <==> c.result.value.hunks == []) && (index.Some? ==> index.value < |c.result.value.hunks|)
      then c.(current := index) else c
    case DoMerge(left, right, applies) => Merge(c, left, right, applies).0
    case Takes => if c.worker.Some? then c.(worker := Some(WorkerTakes(c.worker.value))) else c
    case Finishes(completeness, hunks) =>
      if c.worker.Some? then c.(worker := Some(WorkerFinishes(c.worker.value, completeness, hunks))) else c
    case Dies => if c.worker.Some? then c.(worker := Some(WorkerDies(c.worker.value))) else c
  }

  function Steps(c: Control, calls: seq<Call>): Control
    decreases |calls|
  {
    if calls == [] then c else Steps(Step(c, calls[0]), calls[1..])
  }
}

module ControlSafety {
  import opened Wrappers
  import opened Comparison

  predicate Finished(s: Status) { s == Done(Exact) || (s.Done? && s.how.Coarse?) }

  /** The request with the pending job's number is the pending one, wherever it is. */
  ghost predicate Owns(w: Worker, p: Pending, options: Options) {
    var mine := Request(p.job, p.left, p.right, options);
    && (w.queued.Some? && w.queued.value.job == p.job ==> w.queued.value == mine)
    && (w.running.Some? && w.running.value.job == p.job ==> w.running.value == mine)
    && (p.job in w.responses ==> (mine, w.responses[p.job]) in w.computed)
    && (w.alive ==> w.queued == Some(mine) || w.running == Some(mine) || p.job in w.responses)
  }

  predicate MatchesRequest(q: Request, r: CompareResult) {
    r.leftRevision == q.left.snap.revision && r.rightRevision == q.right.snap.revision && r.options == q.options
  }

  ghost predicate WorkerInv(w: Worker, nextJob: nat) {
    && (w.queued.Some? ==> w.queued.value.job < nextJob && w.queued.value.job !in w.responses)
    && (w.running.Some? ==> w.running.value.job < nextJob && w.running.value.job !in w.responses)
    && (w.queued.Some? && w.running.Some? ==> w.queued.value.job != w.running.value.job)
    && (forall j :: j in w.responses ==> j < nextJob)
    && (!w.alive ==> w.queued.None? && w.running.None?)
    && (forall x :: x in w.computed ==> MatchesRequest(x.0, x.1))
  }

  /** The controller's invariant. */
  ghost predicate Inv(c: Control) {
    && (c.pending.Some? <==> c.status == Running)
    && (c.result.Some? <==> Finished(c.status))
    && (c.snapshots.Some? <==> c.result.Some?)
    && (c.worker.None? ==> c.status != Running && !Finished(c.status))
    && (c.worker.Some? ==> WorkerInv(c.worker.value, c.nextJob))
    && (c.pending.Some? ==> !c.pending.value.cancelled && c.pending.value.job < c.nextJob)
    && (c.pending.Some? ==> Owns(c.worker.value, c.pending.value, c.options))
    && (c.result.Some? ==>
          && (c.current.Some? <==> c.result.value.hunks != [])
          && (c.current.Some? ==> c.current.value < |c.result.value.hunks|)
          && Computed(c, c.snapshots.value.0, c.snapshots.value.1, c.result.value))
  }

  /** The worker really computed this result for these inputs under the present options. */
  ghost predicate Computed(c: Control, left: Input, right: Input, result: CompareResult)
    requires c.worker.Some?
  {
    exists job: nat :: (Request(job, left, right, c.options), result) in c.worker.value.computed
  }

  lemma StartKeepsInv(c: Control, left: Input, right: Input, spawned: bool)
    requires Inv(c)
    ensures Inv(Start(c, left, right, spawned).0)
    ensures Start(c, left, right, spawned).1.None? <==> Start(c, left, right, spawned).0.status == Running
  {
  }

  lemma PollKeepsInv(c: Control, left: Input, right: Input)
    requires Inv(c)
    ensures Inv(Poll(c, left, right).0)
  {
  }

  lemma WorkerKeepsInv(c: Control, call: Call)
    requires Inv(c) && (call.Takes? || call.Finishes? || call.Dies?)
    ensures Inv(Step(c, call))
  {
    if c.worker.Some? {
      var w, after := c.worker.value, Step(c, call).worker.value;
      assert w.computed <= after.computed;
      if c.result.Some? {
        var job: nat :| (Request(job, c.snapshots.value.0, c.snapshots.value.1, c.options), c.result.value) in w.computed;
        assert (Request(job, c.snapshots.value.0, c.snapshots.value.1, c.options), c.result.value) in after.computed;
      }
    }
  }

  lemma StepKeepsInv(c: Control, call: Call)
    requires Inv(c)
    ensures Inv(Step(c, call))
  {
    match call
    case DoStart(left, right, spawned) => StartKeepsInv(c, left, right, spawned);
    case DoPoll(left, right) => PollKeepsInv(c, left, right);
    case Takes => WorkerKeepsInv(c, call);
    case Finishes(_, _) => WorkerKeepsInv(c, call);
    case Dies => WorkerKeepsInv(c, call);
    case _ =>
  }

  /** The invariant holds after every sequence of calls and worker steps. */
  lemma {:induction false} StepsKeepInv(c: Control, calls: seq<Call>)
    requires Inv(c)
    ensures Inv(Steps(c, calls))
    decreases |calls|
  {
    if calls != [] {
      StepKeepsInv(c, calls[0]);
      StepsKeepInv(Step(c, calls[0]), calls[1..]);
    }
  }

  /** After any history, hunks are visible only when the worker computed exactly them, under
      the options in force, for inputs that are still current with the caller's. */
  lemma VisibleIsCurrent(options: Options, calls: seq<Call>, left: Input, right: Input)
    ensures var c := Steps(New(options), calls);
      var (after, hunks) := Visible(c, left, right);
      hunks != [] ==>
        && after == c && Finished(c.status) && c.worker.Some?
        && exists request, result ::
             && (request, result) in c.worker.value.computed && result.hunks == hunks
             && request.options == c.options && Current(request.left, left) && Current(request.right, right)
  {
    StepsKeepInv(New(options), calls);
    var c := Steps(New(options), calls);
    if Visible(c, left, right).1 != [] {
      var (l, r) := c.snapshots.value;
      assert Computed(c, l, r, c.result.value);
      var job: nat :| (Request(job, l, r, c.options), c.result.value) in c.worker.value.computed;
    }
  }

  /** What the status says after any history: pending exactly while running, a result exactly
      when exact or coarse, and then a current hunk exactly when there is one. */
  lemma StatusIsExact(options: Options, calls: seq<Call>)
    ensures var c := Steps(New(options), calls);
      && (c.pending.Some? <==> c.status == Running)
      && (c.result.Some? <==> Finished(c.status)) && (c.snapshots.Some? <==> Finished(c.status))
      && (c.result.Some? ==> (CurrentHunk(c).Some? <==> c.result.value.hunks != []))
  {
    StepsKeepInv(New(options), calls);
  }

  /** A merge never lacks its hunk; it succeeds only on a hunk of the current result, and a
      second merge is refused as stale until another comparison finishes. */
  lemma MergeOnce(options: Options, calls: seq<Call>, left: Input, right: Input, applies: bool)
    ensures var c := Steps(New(options), calls);
      var (after, outcome) := Merge(c, left, right, applies);
      && outcome != Err(MissingHunk)
      && (outcome.Ok? <==> applies && Visible(c, left, right).1 != [])
      && (outcome.Ok? ==> outcome.value in c.result.value.hunks && outcome.value == CurrentHunk(c).value)
      && (outcome.Ok? ==> forall l, r, a :: Merge(after, l, r, a).1 == Err(StaleSources))
  {
    StepsKeepInv(New(options), calls);
  }

  /** A late response to a superseded comparison is never accepted: whatever is accepted was
      computed for the request that is pending. */
  lemma PollAcceptsOwnRequest(options: Options, calls: seq<Call>, left: Input, right: Input)
    ensures var c := Steps(New(options), calls);
      var after := Poll(c, left, right).0;
      Finished(after.status) && !Finished(c.status) ==>
        && c.pending.Some? && after.snapshots == Some((c.pending.value.left, c.pending.value.right))
        && Current(c.pending.value.left, left) && Current(c.pending.value.right, right)
        && (Request(c.pending.value.job, c.pending.value.left, c.pending.value.right, c.options), after.result.value)
             in c.worker.value.computed
  {
    StepsKeepInv(New(options), calls);
  }

  /** A restart from a live result remembers its current hunk: when the next accepted result
      still has a hunk with that stable id, that hunk is current again. */
  lemma RememberedHunkReturns(c: Control, left: Input, right: Input, result: CompareResult, i: nat)
    requires Inv(c) && CurrentHunk(c).Some? && Start(c, left, right, true).1.None?
    requires result.leftRevision == left.snap.revision && result.rightRevision == right.snap.revision
    requires result.completeness.Exact? || result.completeness.Coarse?
    requires Current(left, left) && Current(right, right)
    requires i < |result.hunks| && result.hunks[i].id == CurrentHunk(c).value.id
    ensures var after := Accept(Start(c, left, right, true).0, result, (left, right), left, right);
      CurrentHunk(after).Some? && CurrentHunk(after).value.id == CurrentHunk(c).value.id
  {
  }

  lemma NextIndex(i: nat, count: nat)
    requires i < count
    ensures (i + 1) % count == if i + 1 == count then 0 else i + 1
  {
  }

  /** Going forward and back returns to the same hunk, in either order. */
  lemma NavigateInverse(c: Control, previous: bool)
    requires Inv(c) && CurrentHunk(c).Some?
    ensures Navigate(Navigate(c, previous), !previous) == c
  {
    var count := |c.result.value.hunks|;
    var i := c.current.value;
    NextIndex(i, count);
    NextIndex(if i == 0 then count - 1 else i - 1, count);
    assert Navigate(c, previous).current ==
      Some(if previous then (if i == 0 then count - 1 else i - 1) else if i + 1 == count then 0 else i + 1);
  }

  function Forward(c: Control, times: nat): Control {
    if times == 0 then c else Navigate(Forward(c, times - 1), false)
  }

  /** Going forward visits the hunks in order and wraps once at the last: every hunk is
      reached within one round, and a full round comes back. */
  lemma {:induction false} ForwardVisits(c: Control, times: nat)
    requires Inv(c) && CurrentHunk(c).Some? && times <= |c.result.value.hunks|
    ensures var count := |c.result.value.hunks|;
      var to := c.current.value + times;
      Forward(c, times) == c.(current := Some(if to < count then to else to - count))
  {
    if times > 0 {
      ForwardVisits(c, times - 1);
      NextIndex(Forward(c, times - 1).current.value, |c.result.value.hunks|);
    }
  }

  // ----- every comparison comes to its end

  /** The answer of the worker for the pending comparison. */
  predicate Answered(c: Control) {
    c.pending.Some? && c.worker.Some? && c.pending.value.job in c.worker.value.responses
  }

  /** The hunk that becomes current: the remembered one if it is still there, else the first. */
  ghost predicate Chosen(hunks: seq<Hunk>, remembered: Option<nat>, current: Option<nat>) {
    && (current.None? <==> hunks == [])
    && (current.Some? ==> current.value < |hunks|)
    && (current.Some? ==>
          if remembered.Some? && exists h :: h in hunks && h.id == remembered.value
          then hunks[current.value].id == remembered.value && forall k :: 0 <= k < current.value ==> hunks[k].id != remembered.value
          else current.value == 0)
  }

  lemma {:induction false} PositionIsFirst(hunks: seq<Hunk>, id: nat)
    ensures var p := PositionOf(hunks, id);
      && (p.None? <==> forall h :: h in hunks ==> h.id != id)
      && (p.Some? ==> forall k :: 0 <= k < p.value ==> hunks[k].id != id)
    decreases |hunks|
  {
    if hunks != [] && hunks[0].id != id {
      PositionIsFirst(hunks[1..], id);
      var p := PositionOf(hunks, id);
      assert hunks == [hunks[0]] + hunks[1..];
      if p.Some? {
        forall k | 0 <= k < p.value
          ensures hunks[k].id != id
        {
          assert k > 0 ==> hunks[k] == hunks[1..][k - 1];
        }
      }
    }
  }

  lemma AcceptChooses(c: Control, result: CompareResult, captured: (Input, Input), left: Input, right: Input)
    requires Current(captured.0, left) && Current(captured.1, right)
    requires result.leftRevision == left.snap.revision && result.rightRevision == right.snap.revision
    ensures var after := Accept(c, result, captured, left, right);
      var shown := result.completeness.Exact? || result.completeness.Coarse?;
      && after.status == Done(result.completeness)
      && after == c.(status := after.status, result := after.result, snapshots := after.snapshots, current := after.current)
      && (shown ==> after.result == Some(result) && after.snapshots == Some(captured) && Chosen(result.hunks, c.remembered, after.current))
      && (!shown ==> after.result.None? && after.snapshots == c.snapshots && after.current == c.current)
  {
    if c.remembered.Some? {
      PositionIsFirst(result.hunks, c.remembered.value);
    }
  }

  /** After any history, one poll of a pending comparison: stale when an input is no longer current;
      otherwise the answer if it has arrived, with its own status, and its result with the captured
      inputs and the hunk it comes back to when it is exact or coarse; without an answer nothing
      while the worker lives, and a failure only when it does not. */
  lemma PollAnswers(options: Options, calls: seq<Call>, left: Input, right: Input)
    ensures var c := Steps(New(options), calls);
      var (after, changed) := Poll(c, left, right);
      && (c.pending.None? ==> after == c && !changed)
      && (c.pending.Some? ==>
            var p := c.pending.value;
            if !Current(p.left, left) || !Current(p.right, right) then
              after == c.(pending := None, status := Stale, result := None, snapshots := None) && changed
            else if Answered(c) then
              var answer := c.worker.value.responses[p.job];
              var shown := answer.completeness.Exact? || answer.completeness.Coarse?;
              && changed && after.pending.None? && after.status == Done(answer.completeness)
              && after.result == (if shown then Some(answer) else None)
              && after.snapshots == (if shown then Some((p.left, p.right)) else None)
              && (shown ==> Chosen(answer.hunks, c.remembered, after.current))
              && after.worker == c.worker && after.options == c.options && after.remembered == c.remembered && after.nextJob == c.nextJob
            else if c.worker.Some? && c.worker.value.alive then after == c && !changed
            else after == c.(pending := None, status := Done(Failed)) && changed)
  {
    StepsKeepInv(New(options), calls);
    var c := Steps(New(options), calls);
    if Answered(c) && Current(c.pending.value.left, left) && Current(c.pending.value.right, right) {
      PendingAnswer(c, left, right);
    }
  }

  lemma PendingAnswer(c: Control, left: Input, right: Input)
    requires Inv(c) && Answered(c) && Current(c.pending.value.left, left) && Current(c.pending.value.right, right)
    ensures var p, (after, changed) := c.pending.value, Poll(c, left, right);
      var answer := c.worker.value.responses[p.job];
      var shown := answer.completeness.Exact? || answer.completeness.Coarse?;
      && changed && after.pending.None? && after.status == Done(answer.completeness)
      && after.result == (if shown then Some(answer) else None)
      && after.snapshots == (if shown then Some((p.left, p.right)) else None)
      && (shown ==> Chosen(answer.hunks, c.remembered, after.current))
      && after.worker == c.worker && after.options == c.options && after.remembered == c.remembered && after.nextJob == c.nextJob
  {
    var p := c.pending.value;
    var answer := c.worker.value.responses[p.job];
    assert MatchesRequest(Request(p.job, p.left, p.right, c.options), answer);
    AcceptChooses(c.(pending := None), answer, (p.left, p.right), left, right);
    hide Accept, Chosen;
  }

  /** When a start is refused, and what it leaves: any earlier result is gone, and its current hunk
      is remembered. */
  lemma StartAnswers(options: Options, calls: seq<Call>, left: Input, right: Input, spawned: bool)
    ensures var c := Steps(New(options), calls);
      var (after, refusal) := Start(c, left, right, spawned);
      && refusal == (if c.worker.None? then (if spawned then None else Some(WorkerUnavailable))
                     else if !c.worker.value.alive then Some(WorkerUnavailable)
                     else if c.worker.value.queued.Some? then Some(Busy) else None)
      && after.result.None? && after.snapshots.None? && after.options == c.options
      && after.remembered == (if CurrentHunk(c).Some? then Some(CurrentHunk(c).value.id) else c.remembered)
      && (refusal.None? ==>
            && after.status == Running && after.worker.Some? && after.pending == Some(Pending(c.nextJob, left, right, false))
            && after.worker.value.queued == Some(Request(c.nextJob, left, right, c.options))
            && after.nextJob == c.nextJob + 1)
      && (refusal == Some(Busy) ==> after.status == Stale)
      && (refusal == Some(WorkerUnavailable) && c.worker.Some? ==> after.status == Done(Failed))
  {
  }

  /** A comparison is started, taken by the worker, finished and polled. */
  function Round(c: Control, left: Input, right: Input, how: Completeness, hunks: seq<Hunk>): Control {
    Poll(Step(Step(Start(c, left, right, true).0, Takes), Finishes(how, hunks)), left, right).0
  }

  /** The worker could take a request at once, or is yet to be created. */
  predicate Idle(c: Control) {
    c.worker.None? || (c.worker.value.alive && c.worker.value.queued.None? && c.worker.value.running.None?)
  }

  lemma RoundAnswers(c: Control, left: Input, right: Input, how: Completeness, hunks: seq<Hunk>)
    requires Inv(c) && Idle(c)
    ensures var finished := Step(Step(Start(c, left, right, true).0, Takes), Finishes(how, hunks));
      && Inv(finished) && finished.pending == Some(Pending(c.nextJob, left, right, false)) && Answered(finished)
      && finished.worker.value.responses[c.nextJob] == CompareResult(left.snap.revision, right.snap.revision, c.options, how, hunks)
  {
    var started := Start(c, left, right, true).0;
    StartKeepsInv(c, left, right, true);
    StepKeepsInv(started, Takes);
    StepKeepsInv(Step(started, Takes), Finishes(how, hunks));
  }

  lemma ShownIsMerged(c: Control, left: Input, right: Input)
    requires Inv(c) && c.snapshots == Some((left, right)) && Current(left, left) && Current(right, right)
    ensures Visible(c, left, right) == (c, c.result.value.hunks)
    ensures c.result.value.hunks != [] ==>
      Merge(c, left, right, true).1 == Ok(CurrentHunk(c).value) && CurrentHunk(c).Some?
  {
  }

  /** A comparison that is started, taken, finished and polled shows exactly what the worker found;
      its hunks are visible, and merging copies the current one. */
  lemma ComparisonIsShown(options: Options, calls: seq<Call>, left: Input, right: Input, how: Completeness, hunks: seq<Hunk>)
    requires Idle(Steps(New(options), calls)) && Current(left, left) && Current(right, right) && (how.Exact? || how.Coarse?)
    ensures var c := Steps(New(options), calls);
      var after := Round(c, left, right, how, hunks);
      && after.status == Done(how) && after.snapshots == Some((left, right))
      && after.result == Some(CompareResult(left.snap.revision, right.snap.revision, c.options, how, hunks))
      && Visible(after, left, right) == (after, hunks)
      && (hunks != [] ==> Merge(after, left, right, true).1 == Ok(CurrentHunk(after).value) && CurrentHunk(after).Some?)
  {
    StepsKeepInv(New(options), calls);
    hide Start, Step, Poll, Inv, Visible, Merge, Answered, Idle;
    var c := Steps(New(options), calls);
    RoundAnswers(c, left, right, how, hunks);
    var finished := Step(Step(Start(c, left, right, true).0, Takes), Finishes(how, hunks));
    PendingAnswer(finished, left, right);
    PollKeepsInv(finished, left, right);
    ShownIsMerged(Round(c, left, right, how, hunks), left, right);
  }

  /** After any history, the hunks of the result are visible exactly while its inputs are current;
      otherwise they are gone and the comparison is stale. */
  lemma VisibleExactlyWhileCurrent(options: Options, calls: seq<Call>, left: Input, right: Input)
    ensures var c := Steps(New(options), calls);
      var (after, hunks) := Visible(c, left, right);
      var live := c.snapshots.Some? && Current(c.snapshots.value.0, left) && Current(c.snapshots.value.1, right);
      && (live ==> after == c && c.result.Some? && hunks == c.result.value.hunks)
      && (!live ==> hunks == [])
      && (c.snapshots.Some? && !live ==> after.status == Stale && after.result.None? && after.snapshots.None?)
      && (c.snapshots.None? ==> after == c)
  {
    StepsKeepInv(New(options), calls);
  }

  /** Cancelling ends a running comparison and keeps a shown one; invalidating, and new options, drop
      both. */
  lemma CancelAndInvalidate(options: Options, calls: seq<Call>, chosen: Options)
    ensures var c := Steps(New(options), calls);
      var cancelled, dropped, changed := Step(c, DoCancel), Step(c, DoInvalidate), Step(c, DoSetOptions(chosen));
      && cancelled.pending.None? && cancelled.status == (if c.status == Running then Done(Cancelled) else c.status)
      && cancelled.result == c.result && cancelled.snapshots == c.snapshots && cancelled.current == c.current
      && dropped.pending.None? && dropped.status == Stale && dropped.result.None? && dropped.snapshots.None?
      && changed == dropped.(options := chosen) && dropped.options == c.options
  {
  }

  /** The distance of a hunk is that of the nearest offset it reaches over. */
  lemma DistanceIsNearest(h: Hunk, right: bool, offset: nat)
    requires if right then h.rightStart <= h.rightEnd else h.leftStart <= h.leftEnd
    ensures var start, end := if right then h.rightStart else h.leftStart, if right then h.rightEnd else h.leftEnd;
      && (forall t: nat :: start <= t <= end ==> Distance(h, right, offset) <= Apart(t, offset))
      && exists t: nat :: start <= t <= end && Distance(h, right, offset) == Apart(t, offset)
  {
    var start, end := if right then h.rightStart else h.leftStart, if right then h.rightEnd else h.leftEnd;
    var t := if offset < start then start else if offset > end then end else offset;
    assert start <= t <= end && Distance(h, right, offset) == Apart(t, offset);
  }

  function Apart(a: nat, b: nat): nat { if a < b then b - a else a - b }
}
