/** The comparison controller as the object the shell holds. */
module CompareObject {
  import opened Wrappers
  import opened Comparison
  import opened ControlSafety

  class CompareController {
    var status: Status
    var options: Options
    var result: Option<CompareResult>
    var snapshots: Option<(Input, Input)>
    var pending: Option<Pending>
    var worker: Option<Worker>
    var current: Option<nat>
    var remembered: Option<nat>
    var nextJob: nat

    function Now(): Control
      reads this
    {
      Control(status, options, result, snapshots, pending, worker, current, remembered, nextJob)
    }

    constructor (options: Options)
      ensures Now() == New(options) && Inv(Now())
    {
      this.status := Awaiting;
      this.options := options;
      this.result := None;
      this.snapshots := None;
      this.pending := None;
      this.worker := None;
      this.current := None;
      this.remembered := None;
      this.nextJob := 0;
    }

    method CancelPending()
      modifies this`pending, this`status
      ensures Now() == Cancel(old(Now()))
    {
      pending := None;
      if status == Running {
        status := Done(Cancelled);
      }
    }

    method InvalidateResult()
      modifies this
      ensures Now() == Invalidate(old(Now()))
    {
      CancelPending();
      result := None;
      snapshots := None;
      status := Stale;
    }

    method ChangeOptions(options: Options)
      modifies this
      ensures Now() == SetOptions(old(Now()), options)
    {
      this.options := options;
      InvalidateResult();
    }

    method StartInputs(left: Input, right: Input, spawned: bool) returns (error: Option<CompareError>)
      modifies this
      ensures (Now(), error) == Start(old(Now()), left, right, spawned)
    {
      if current.Some? && result.Some? && current.value < |result.value.hunks| {
        remembered := Some(result.value.hunks[current.value].id);
      }
      CancelPending();
      result := None;
      snapshots := None;
      if worker.None? {
        if !spawned {
          return Some(WorkerUnavailable);
        }
        worker := Some(Worker(true, None, None, map[], {}));
      }
      error := SubmitJob(left, right);
    }

    method SubmitJob(left: Input, right: Input) returns (error: Option<CompareError>)
      requires worker.Some?
      modifies this
      ensures (Now(), error) == Submit(old(Now()), left, right)
    {
      var job := nextJob;
      nextJob := job + 1;
      if !worker.value.alive {
        status := Done(Failed);
        return Some(WorkerUnavailable);
      }
      if worker.value.queued.Some? {
        status := Stale;
        return Some(Busy);
      }
      worker := Some(worker.value.(queued := Some(Request(job, left, right, options))));
      pending := Some(Pending(job, left, right, false));
      status := Running;
      return None;
    }

    method FindHunk(hunks: seq<Hunk>, id: nat) returns (found: Option<nat>)
      ensures found == PositionOf(hunks, id)
    {
      assert hunks[0..] == hunks;
      for i := 0 to |hunks|
        invariant PositionOf(hunks, id) ==
          (match PositionOf(hunks[i..], id) case None => None case Some(k) => Some(k + i))
      {
        if hunks[i].id == id {
          return Some(i);
        }
        assert hunks[i..][1..] == hunks[i + 1..];
      }
      return None;
    }

    method AcceptInputs(r: CompareResult, captured: (Input, Input), left: Input, right: Input)
      modifies this
      ensures Now() == Accept(old(Now()), r, captured, left, right)
    {
      if !Current(captured.0, left) || !Current(captured.1, right)
         || r.leftRevision != left.snap.revision || r.rightRevision != right.snap.revision {
        status := Stale;
        return;
      }
      status := Done(r.completeness);
      if !r.completeness.Exact? && !r.completeness.Coarse? {
        result := None;
        return;
      }
      var found: Option<nat> := None;
      if remembered.Some? {
        found := FindHunk(r.hunks, remembered.value);
      }
      current := if found.Some? then found else if r.hunks == [] then None else Some(0);
      snapshots := Some(captured);
      result := Some(r);
    }

    method PollInputs(left: Input, right: Input) returns (changed: bool)
      modifies this
      ensures (Now(), changed) == Poll(old(Now()), left, right)
    {
      if pending.None? {
        return false;
      }
      var p := pending.value;
      if !Current(p.left, left) || !Current(p.right, right) {
        InvalidateResult();
        return true;
      }
      var answered := worker.Some? && p.job in worker.value.responses;
      if !answered && worker.Some? && worker.value.alive {
        return false;
      }
      pending := None;
      if answered && !p.cancelled {
        AcceptInputs(worker.value.responses[p.job], (p.left, p.right), left, right);
      } else {
        status := Done(Failed);
      }
      return true;
    }

    method VisibleInputHunks(left: Input, right: Input) returns (hunks: seq<Hunk>)
      modifies this
      ensures (Now(), hunks) == Visible(old(Now()), left, right)
    {
      if snapshots.Some? && (!Current(snapshots.value.0, left) || !Current(snapshots.value.1, right)) {
        InvalidateResult();
      }
      hunks := if result.Some? then result.value.hunks else [];
    }

    method NavigateHunks(previous: bool) returns (hunk: Option<Hunk>)
      modifies this`current
      ensures Now() == Navigate(old(Now()), previous)
      ensures result.Some? && result.value.hunks != [] ==> hunk == CurrentHunk(Now())
    {
      if result.None? || result.value.hunks == [] {
        return None;
      }
      var count := |result.value.hunks|;
      match (current, previous) {
        case (Some(i), true) => current := Some(if i == 0 then count - 1 else i - 1);
        case (None, true) => current := Some(count - 1);
        case (Some(i), false) => current := Some((i + 1) % count);
        case (None, false) => current := Some(0);
      }
      return CurrentHunk(Now());
    }

    /** The nearest hunk to an offset becomes current; the first of several. */
    method NavigateOffset(right: bool, offset: nat)
      modifies this`current
      ensures result.None? ==> Now() == old(Now())
      ensures result.Some? ==> Nearest(result.value.hunks, right, offset, current)
      ensures Now() == old(Now()).(current := current)
    {
      if result.None? {
        return;
      }
      var hunks := result.value.hunks;
      var best: Option<nat> := None;
      for i := 0 to |hunks|
        invariant Nearest(hunks[..i], right, offset, best)
      {
        if best.None? || Distance(hunks[i], right, offset) < Distance(hunks[best.value], right, offset) {
          best := Some(i);
        }
      }
      assert hunks[..|hunks|] == hunks;
      current := best;
    }

    method Counter() returns (position: nat, total: nat)
      ensures total == if result.Some? then |result.value.hunks| else 0
      ensures position == if current.Some? && current.value < total then current.value + 1 else 0
      ensures Inv(Now()) ==> (position == 0 <==> total == 0) && position <= total
    {
      total := if result.Some? then |result.value.hunks| else 0;
      position := if current.Some? && current.value < total then current.value + 1 else 0;
    }

    method MergeCurrent(left: Input, right: Input, applies: bool) returns (outcome: Result<Hunk, CompareError>)
      modifies this
      ensures (Now(), outcome) == Merge(old(Now()), left, right, applies)
    {
      var hunks := VisibleInputHunks(left, right);
      if hunks == [] {
        return Err(if status == Stale then StaleSources else NoResult);
      }
      if status != Done(Exact) && !(status.Done? && status.how.Coarse?) {
        return Err(NoResult);
      }
      var hunk := CurrentHunk(Now());
      if hunk.None? {
        return Err(MissingHunk);
      }
      if !applies {
        return Err(ApplyRefused);
      }
      InvalidateResult();
      return Ok(hunk.value);
    }
  }
}
