/** Copying one hunk of a comparison into the other document: the transaction the worker
    prepares, and what applying it does to the texts and to the hunks that remain. */
module Merge {
  import opened Wrappers
  import opened Utf8
  import Paging
  import opened HunkScripts
  import EditScripts

  datatype ApplyError = Stale | InvalidRange | BudgetExceeded | Unavailable

  /** A captured side. A resident snapshot answers at once; a paged one may fail to open and
      may fail on any read. */
  datatype Side = Side(text: seq<byte>, revision: nat, state: nat, paged: bool, opens: bool, answers: (nat, nat) -> bool)

  /** A hunk with the revisions and content states it was computed for. */
  datatype DiffHunk = DiffHunk(place: Hunk, leftRevision: nat, leftState: nat, rightRevision: nat, rightState: nat)

  datatype Transaction = Transaction(baseRevision: nat, start: nat, end: nat, insert: seq<byte>)

  predicate MatchesStates(h: DiffHunk, left: Side, right: Side) {
    h.leftRevision == left.revision && h.rightRevision == right.revision
    && h.leftState == left.state && h.rightState == right.state
  }

  function InputText(side: Side, start: nat, end: nat, cap: nat): Result<seq<byte>, ApplyError> {
    if end > start + cap then Err(BudgetExceeded)
    else if !side.paged then
      if Paging.Read(side.text, start, end, cap).Some? then Ok(side.text[start..end]) else Err(InvalidRange)
    else if !side.opens then Err(Unavailable)
    else if !(start <= end <= |side.text|) then Err(BudgetExceeded)
    else if Boundary(side.text, start) && Boundary(side.text, end) && side.answers(start, end) then Ok(side.text[start..end])
    else Err(Unavailable)
  }

  /** `prepare_input_merge` under the policy that copies the selected range. */
  method PrepareMerge(left: Side, right: Side, hunk: DiffHunk, direction: Direction, cap: nat, cancelled: bool)
    returns (r: Result<Transaction, ApplyError>)
    ensures r == Err(Stale) <==> !MatchesStates(hunk, left, right)
    ensures var h := hunk.place;
      r.Ok? <==> (MatchesStates(hunk, left, right) && !cancelled
                  && InputText(left, h.leftStart, h.leftEnd, cap).Ok? && InputText(right, h.rightStart, h.rightEnd, cap).Ok?)
    ensures r.Ok? ==> Copies(r.value, left, right, hunk.place, direction)
    ensures r.Ok? ==> |r.value.insert| <= cap
    ensures r.Ok? && WellFormed(left.text) && WellFormed(right.text) ==>
      WellFormed(if direction.LeftToRight? then EditScripts.ReplaceRange(right.text, r.value.start, r.value.end, r.value.insert)
                 else EditScripts.ReplaceRange(left.text, r.value.start, r.value.end, r.value.insert))
  {
    if !MatchesStates(hunk, left, right) {
      return Err(Stale);
    }
    var h := hunk.place;
    var a := InputText(left, h.leftStart, h.leftEnd, cap);
    if a.Err? {
      return Err(a.error);
    }
    var b := InputText(right, h.rightStart, h.rightEnd, cap);
    if b.Err? {
      return Err(b.error);
    }
    var insert := if direction.LeftToRight? then a.value else b.value;
    if cancelled {
      return Err(Unavailable);
    }
    var t := if direction.LeftToRight? then Transaction(right.revision, h.rightStart, h.rightEnd, insert)
             else Transaction(left.revision, h.leftStart, h.leftEnd, insert);
    if WellFormed(left.text) && WellFormed(right.text) {
      MergeStaysWellFormed(t, left, right, h, direction, cap);
    }
    return Ok(t);
  }

  /** The transaction is for the destination's captured revision and turns its text into the
      one with the hunk copied across. */
  ghost predicate Copies(t: Transaction, left: Side, right: Side, h: Hunk, direction: Direction) {
    && h.leftStart <= h.leftEnd <= |left.text| && h.rightStart <= h.rightEnd <= |right.text|
    && match direction
       case LeftToRight =>
         && t.baseRevision == right.revision && t.start <= t.end <= |right.text|
         && EditScripts.ReplaceRange(right.text, t.start, t.end, t.insert) == CopiedRight(left.text, right.text, h)
       case RightToLeft =>
         && t.baseRevision == left.revision && t.start <= t.end <= |left.text|
         && EditScripts.ReplaceRange(left.text, t.start, t.end, t.insert) == CopiedRight(right.text, left.text, h.Flip())
  }

  /** Whatever hunk of a comparison is copied, in whatever direction: the destination becomes
      the text that a valid script with one hunk fewer relates to the source. */
  lemma MergeLeavesScript(t: Transaction, left: Side, right: Side, hunks: seq<Hunk>, i: nat, direction: Direction)
    requires IsScript(left.text, right.text, hunks) && i < |hunks|
    requires Copies(t, left, right, hunks[i], direction)
    ensures var picked := Copy(Comparison(left.text, right.text, hunks), Pick(i, direction));
      match direction
      case LeftToRight =>
        picked.left == left.text && picked.right == EditScripts.ReplaceRange(right.text, t.start, t.end, t.insert)
      case RightToLeft =>
        picked.right == right.text && picked.left == EditScripts.ReplaceRange(left.text, t.start, t.end, t.insert)
    ensures Copy(Comparison(left.text, right.text, hunks), Pick(i, direction)).Valid()
    ensures |Copy(Comparison(left.text, right.text, hunks), Pick(i, direction)).hunks| == |hunks| - 1
  {
    if direction.RightToLeft? {
      FlipIsScript(left.text, right.text, hunks, 0, 0);
      assert Flipped(hunks)[i] == hunks[i].Flip();
    }
  }

  /** A captured range begins and ends on boundaries, and its text is well formed. */
  lemma CapturedIsWellFormed(side: Side, start: nat, end: nat, cap: nat)
    requires WellFormed(side.text) && InputText(side, start, end, cap).Ok?
    ensures start <= end <= |side.text| && Boundary(side.text, start) && Boundary(side.text, end)
    ensures WellFormed(side.text[..start]) && WellFormed(side.text[start..end]) && WellFormed(side.text[end..])
  {
    RangeWellFormed(side.text, start, end);
  }

  /** `after` is well-formed UTF-8, and its scalars are those of the three parts in turn. */
  ghost predicate MadeOf(after: seq<byte>, before: seq<byte>, copied: seq<byte>, rest: seq<byte>) {
    && WellFormed(before) && WellFormed(copied) && WellFormed(rest) && WellFormed(after)
    && Scalars(after) == Scalars(before) + Scalars(copied) + Scalars(rest)
  }

  lemma ReplacingStaysWellFormed(destination: seq<byte>, start: nat, end: nat, insert: seq<byte>)
    requires start <= end <= |destination|
    requires WellFormed(destination[..start]) && WellFormed(insert) && WellFormed(destination[end..])
    ensures MadeOf(EditScripts.ReplaceRange(destination, start, end, insert), destination[..start], insert, destination[end..])
  {
    ConcatWellFormed(destination[..start], insert);
    ConcatWellFormed(destination[..start] + insert, destination[end..]);
  }

  /** What a prepared transaction makes of two well-formed documents: the destination stays
      well-formed UTF-8, and its scalars are those it had outside the hunk plus those of the
      copied range. */
  lemma MergeStaysWellFormed(t: Transaction, left: Side, right: Side, h: Hunk, direction: Direction, cap: nat)
    requires WellFormed(left.text) && WellFormed(right.text) && Copies(t, left, right, h, direction)
    requires InputText(left, h.leftStart, h.leftEnd, cap).Ok? && InputText(right, h.rightStart, h.rightEnd, cap).Ok?
    ensures direction.LeftToRight? ==>
      MadeOf(EditScripts.ReplaceRange(right.text, t.start, t.end, t.insert),
             right.text[..h.rightStart], left.text[h.leftStart..h.leftEnd], right.text[h.rightEnd..])
    ensures direction.RightToLeft? ==>
      MadeOf(EditScripts.ReplaceRange(left.text, t.start, t.end, t.insert),
             left.text[..h.leftStart], right.text[h.rightStart..h.rightEnd], left.text[h.leftEnd..])
  {
    hide MadeOf;
    CapturedIsWellFormed(left, h.leftStart, h.leftEnd, cap);
    CapturedIsWellFormed(right, h.rightStart, h.rightEnd, cap);
    match direction
    case LeftToRight =>
      ReplacingStaysWellFormed(right.text, h.rightStart, h.rightEnd, left.text[h.leftStart..h.leftEnd]);
    case RightToLeft =>
      ReplacingStaysWellFormed(left.text, h.leftStart, h.leftEnd, right.text[h.rightStart..h.rightEnd]);
  }
}
