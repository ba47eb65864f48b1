/** Edit transactions over a text, and difference hunks between two texts.

    A transaction lists edits at pre-transaction offsets. The journal replays it with a
    forward cursor pass; the difference engine's hunks are replayed last to first on one
    string. Both readings, the inverse transaction that undoes one, and what is left of a
    hunk list after one hunk has been copied across are related here. */
module EditScripts {
  import opened Slices
  import opened Wrappers

  datatype Edit<T> = Edit(offset: nat, removed: seq<T>, inserted: seq<T>) {
    function End(): nat { offset + |removed| }
  }

  /** Offsets ascend from `cursor` and removed ranges do not overlap. */
  predicate Sorted<T>(edits: seq<Edit<T>>, cursor: nat) {
    edits == [] || (cursor <= edits[0].offset && Sorted(edits[1..], edits[0].End()))
  }

  /** A transaction the journal replay accepts: sorted from `cursor`, inside the text, and
      every removed text is what the text holds there. */
  predicate Fits<T(==)>(text: seq<T>, edits: seq<Edit<T>>, cursor: nat) {
    if edits == [] then cursor <= |text|
    else
      && cursor <= edits[0].offset
      && edits[0].End() <= |text|
      && text[edits[0].offset..edits[0].End()] == edits[0].removed
      && Fits(text, edits[1..], edits[0].End())
  }

  /** What the cursor pass still has to produce once it stands at `cursor`. */
  function Forward<T>(text: seq<T>, edits: seq<Edit<T>>, cursor: nat): seq<T>
    requires Fits(text, edits, cursor)
  {
    if edits == [] then text[cursor..]
    else text[cursor..edits[0].offset] + edits[0].inserted + Forward(text, edits[1..], edits[0].End())
  }

  /** `replace_range`: `insert` takes the place of text[start..end]. */
  function ReplaceRange<T>(text: seq<T>, start: nat, end: nat, insert: seq<T>): seq<T>
    requires start <= end <= |text|
  {
    text[..start] + insert + text[end..]
  }

  /** The edits replaced in place, last one first. */
  function Backward<T>(text: seq<T>, edits: seq<Edit<T>>): Option<seq<T>>
    decreases |edits|
  {
    if edits == [] then Some(text)
    else
      var last := edits[|edits| - 1];
      if last.End() <= |text| then
        Backward(ReplaceRange(text, last.offset, last.End(), last.inserted), edits[..|edits| - 1])
      else None
  }

  lemma FitsFromHere<T>(text: seq<T>, edits: seq<Edit<T>>, i: nat, cursor: nat)
    requires i < |edits|
    ensures var e := edits[i];
      Fits(text, edits[i..], cursor) <==>
      (cursor <= e.offset && e.End() <= |text| && text[e.offset..e.End()] == e.removed
       && Fits(text, edits[i + 1..], e.End()))
  {
    assert edits[i..][0] == edits[i] && edits[i..][1..] == edits[i + 1..];
  }

  lemma ForwardFromHere<T>(text: seq<T>, edits: seq<Edit<T>>, i: nat, cursor: nat, output: seq<T>)
    requires i < |edits| && Fits(text, edits[i..], cursor) && Fits(text, edits[i + 1..], edits[i].End())
    ensures var e := edits[i];
      output + Forward(text, edits[i..], cursor)
      == output + text[cursor..e.offset] + e.inserted + Forward(text, edits[i + 1..], e.End())
  {
    assert edits[i..][0] == edits[i] && edits[i..][1..] == edits[i + 1..];
  }

  /** The journal fuzzer's `apply`: one cursor, sections copied between edits. Its
      assertions are the None outcome. */
  method Apply<T(==)>(text: seq<T>, edits: seq<Edit<T>>) returns (result: Option<seq<T>>)
    ensures result.Some? <==> Fits(text, edits, 0)
    ensures result.Some? ==> result.value == Forward(text, edits, 0)
  {
    var output: seq<T> := [];
    var cursor: nat := 0;
    assert edits[0..] == edits;
    for i := 0 to |edits|
      invariant cursor <= |text|
      invariant Fits(text, edits, 0) <==> Fits(text, edits[i..], cursor)
      invariant Fits(text, edits[i..], cursor) ==> output + Forward(text, edits[i..], cursor) == Forward(text, edits, 0)
    {
      var edit := edits[i];
      FitsFromHere(text, edits, i, cursor);
      if !(cursor <= edit.offset && edit.End() <= |text|) || text[edit.offset..edit.End()] != edit.removed {
        return None;
      }
      if Fits(text, edits[i..], cursor) {
        ForwardFromHere(text, edits, i, cursor, output);
      }
      output := output + text[cursor..edit.offset] + edit.inserted;
      cursor := edit.End();
    }
    return Some(output + text[cursor..]);
  }

  lemma FitsIsSorted<T>(text: seq<T>, edits: seq<Edit<T>>, cursor: nat)
    requires Fits(text, edits, cursor)
    ensures Sorted(edits, cursor) && cursor <= |text|
  {
  }

  /** Replacing in place from the back, the first edit is the last one to land. */
  lemma {:induction false} BackwardCons<T>(text: seq<T>, first: Edit<T>, rest: seq<Edit<T>>)
    ensures Backward(text, [first] + rest) ==
      match Backward(text, rest)
      case None => None
      case Some(t) =>
        if first.End() <= |t| then Some(ReplaceRange(t, first.offset, first.End(), first.inserted)) else None
    decreases |rest|
  {
    var all := [first] + rest;
    if rest == [] {
      assert all[..0] == [];
    } else {
      var last := rest[|rest| - 1];
      assert all[|all| - 1] == last && all[..|all| - 1] == [first] + rest[..|rest| - 1];
      if last.End() <= |text| {
        BackwardCons(ReplaceRange(text, last.offset, last.End(), last.inserted), first, rest[..|rest| - 1]);
      }
    }
  }

  lemma ReplaceFront<T>(text: seq<T>, first: Edit<T>, cursor: nat, tail: seq<T>)
    requires cursor <= first.offset && first.End() <= |text|
    ensures var t := text[..first.End()] + tail;
      ReplaceRange(t, first.offset, first.End(), first.inserted)
      == text[..cursor] + (text[cursor..first.offset] + first.inserted + tail)
  {
    var t := text[..first.End()] + tail;
    HeadSlices(t, first.offset, first.End());
    HeadSlices(text, first.offset, first.End());
    PrefixJoined(text, cursor, first.offset);
    assert t[..first.End()] == text[..first.End()] && t[first.End()..] == tail;
  }

  /** The cursor pass and the in-place pass from the back agree on every accepted
      transaction, whatever number of edits share an offset. */
  lemma {:induction false} ForwardIsBackward<T>(text: seq<T>, edits: seq<Edit<T>>, cursor: nat)
    requires Fits(text, edits, cursor)
    ensures Backward(text, edits) == Some(text[..cursor] + Forward(text, edits, cursor))
    decreases |edits|
  {
    FitsIsSorted(text, edits, cursor);
    if edits == [] {
      assert text == text[..cursor] + text[cursor..];
    } else {
      var first := edits[0];
      assert edits == [first] + edits[1..];
      ForwardIsBackward(text, edits[1..], first.End());
      BackwardCons(text, first, edits[1..]);
      ReplaceFront(text, first, cursor, Forward(text, edits[1..], first.End()));
    }
  }

  /** The undo transaction: removed and inserted swap, and each offset moves by the length
      change accumulated so far (`delta`). */
  function Inverse<T>(edits: seq<Edit<T>>, cursor: nat, delta: int): seq<Edit<T>>
    requires Sorted(edits, cursor) && cursor + delta >= 0
  {
    if edits == [] then []
    else
      var e := edits[0];
      [Edit(e.offset + delta, e.inserted, e.removed)]
      + Inverse(edits[1..], e.End(), delta + |e.inserted| - |e.removed|)
  }

  lemma RemovedPutBack<T>(text: seq<T>, e: Edit<T>, cursor: nat)
    requires cursor <= e.offset && e.End() <= |text| && text[e.offset..e.End()] == e.removed
    ensures text[cursor..] == text[cursor..e.offset] + e.removed + text[e.End()..]
  {
    Joined(text, cursor, e.offset, e.End());
    Joined(text, cursor, e.End(), |text|);
  }

  lemma ThreeParts<T>(whole: seq<T>, first: seq<T>, second: seq<T>, third: seq<T>)
    requires whole == first + second + third
    ensures |whole| == |first| + |second| + |third| && whole[..|first|] == first
    ensures whole[|first|..|first| + |second|] == second && whole[|first| + |second|..] == third
  {
  }

  /** The output around the first edit, once the cursor stands at `cursor`. */
  lemma OutputParts<T>(text: seq<T>, edits: seq<Edit<T>>, cursor: nat, delta: int, out: seq<T>)
    requires edits != [] && Fits(text, edits, cursor)
    requires 0 <= cursor + delta <= |out| && out[cursor + delta..] == Forward(text, edits, cursor)
    ensures var e := edits[0];
      var start := e.offset + delta;
      && 0 <= cursor + delta <= start <= start + |e.inserted| <= |out|
      && out[cursor + delta..start] == text[cursor..e.offset]
      && out[start..start + |e.inserted|] == e.inserted
      && out[start + |e.inserted|..] == Forward(text, edits[1..], e.End())
  {
    var e := edits[0];
    var from := cursor + delta;
    var kept, tail := text[cursor..e.offset], Forward(text, edits[1..], e.End());
    ThreeParts(out[from..], kept, e.inserted, tail);
    SliceOfSlice(out, from, |out|, from, from + |kept|);
    SliceOfSlice(out, from, |out|, from + |kept|, from + |kept| + |e.inserted|);
    SliceOfSlice(out, from, |out|, from + |kept| + |e.inserted|, |out|);
  }

  lemma FitsCons<T>(text: seq<T>, first: Edit<T>, rest: seq<Edit<T>>, cursor: nat)
    requires cursor <= first.offset && first.End() <= |text| && text[first.offset..first.End()] == first.removed
    requires Fits(text, rest, first.End())
    ensures Fits(text, [first] + rest, cursor)
    ensures Forward(text, [first] + rest, cursor)
         == text[cursor..first.offset] + first.inserted + Forward(text, rest, first.End())
  {
    assert ([first] + rest)[1..] == rest;
  }

  lemma InverseStep<T>(text: seq<T>, edits: seq<Edit<T>>, cursor: nat, delta: int, out: seq<T>, rest: seq<Edit<T>>)
    requires edits != [] && Fits(text, edits, cursor)
    requires 0 <= cursor + delta <= |out| && out[cursor + delta..] == Forward(text, edits, cursor)
    requires var e := edits[0];
      var next := e.offset + |e.inserted| + delta;
      next >= 0 && Fits(out, rest, next) && Forward(out, rest, next) == text[e.End()..]
    ensures var e := edits[0];
      && cursor + delta <= e.offset + delta
      && Fits(out, [Edit(e.offset + delta, e.inserted, e.removed)] + rest, cursor + delta)
      && Forward(out, [Edit(e.offset + delta, e.inserted, e.removed)] + rest, cursor + delta) == text[cursor..]
  {
    OutputParts(text, edits, cursor, delta, out);
    PutBack(text, edits[0], cursor, delta, out, rest);
  }

  lemma PutBack<T>(text: seq<T>, e: Edit<T>, cursor: nat, delta: int, out: seq<T>, rest: seq<Edit<T>>)
    requires cursor <= e.offset && e.End() <= |text| && text[e.offset..e.End()] == e.removed
    requires 0 <= cursor + delta && e.offset + delta + |e.inserted| <= |out|
    requires out[cursor + delta..e.offset + delta] == text[cursor..e.offset]
    requires out[e.offset + delta..e.offset + delta + |e.inserted|] == e.inserted
    requires Fits(out, rest, e.offset + delta + |e.inserted|)
    requires Forward(out, rest, e.offset + delta + |e.inserted|) == text[e.End()..]
    ensures Fits(out, [Edit(e.offset + delta, e.inserted, e.removed)] + rest, cursor + delta)
    ensures Forward(out, [Edit(e.offset + delta, e.inserted, e.removed)] + rest, cursor + delta) == text[cursor..]
  {
    FitsCons(out, Edit(e.offset + delta, e.inserted, e.removed), rest, cursor + delta);
    RemovedPutBack(text, e, cursor);
  }

  /** The inverse of an accepted transaction is itself accepted by the text that the
      transaction produced, and restores what was there before. */
  lemma {:induction false} InverseRestores<T>(text: seq<T>, edits: seq<Edit<T>>, cursor: nat, delta: int, out: seq<T>)
    requires Fits(text, edits, cursor) && Sorted(edits, cursor)
    requires 0 <= cursor + delta <= |out|
    requires out[cursor + delta..] == Forward(text, edits, cursor)
    ensures Fits(out, Inverse(edits, cursor, delta), cursor + delta)
    ensures Forward(out, Inverse(edits, cursor, delta), cursor + delta) == text[cursor..]
    decreases |edits|
  {
    if edits != [] {
      var e := edits[0];
      OutputParts(text, edits, cursor, delta, out);
      InverseRestores(text, edits[1..], e.End(), delta + |e.inserted| - |e.removed|, out);
      InverseStep(text, edits, cursor, delta, out, Inverse(edits[1..], e.End(), delta + |e.inserted| - |e.removed|));
    }
  }

  /** Inverting twice gives the transaction back. */
  lemma {:induction false} InverseIsInvolution<T>(edits: seq<Edit<T>>, cursor: nat, delta: int)
    requires Sorted(edits, cursor) && cursor + delta >= 0
    ensures Sorted(Inverse(edits, cursor, delta), cursor + delta)
    ensures Inverse(Inverse(edits, cursor, delta), cursor + delta, -delta) == edits
    decreases |edits|
  {
    if edits != [] {
      var e := edits[0];
      var next := delta + |e.inserted| - |e.removed|;
      InverseIsInvolution(edits[1..], e.End(), next);
      var inv := Inverse(edits, cursor, delta);
      assert inv[1..] == Inverse(edits[1..], e.End(), next);
      assert edits == [e] + edits[1..];
    }
  }

  // ----- runs of transactions

  /** Every transaction is accepted by the text its predecessors produced. */
  predicate FitsRun<T(==)>(text: seq<T>, run: seq<seq<Edit<T>>>)
    decreases |run|
  {
    run == [] || (Fits(text, run[0], 0) && FitsRun(Forward(text, run[0], 0), run[1..]))
  }

  function Replayed<T>(text: seq<T>, run: seq<seq<Edit<T>>>): seq<T>
    requires FitsRun(text, run)
    decreases |run|
  {
    if run == [] then text else Replayed(Forward(text, run[0], 0), run[1..])
  }

  /** The undo run: inverses in reverse order. */
  function UndoRun<T>(run: seq<seq<Edit<T>>>): seq<seq<Edit<T>>>
    requires forall i :: 0 <= i < |run| ==> Sorted(run[i], 0)
  {
    if run == [] then [] else UndoRun(run[1..]) + [Inverse(run[0], 0, 0)]
  }

  /** The journal fuzzer's reconstruction loop over the replayed records. */
  method ReplayJournal<T(==)>(baseline: seq<T>, run: seq<seq<Edit<T>>>) returns (result: Option<seq<T>>)
    ensures result.Some? <==> FitsRun(baseline, run)
    ensures result.Some? ==> result.value == Replayed(baseline, run)
  {
    var expected := baseline;
    for i := 0 to |run|
      invariant FitsRun(baseline, run) <==> FitsRun(expected, run[i..])
      invariant FitsRun(expected, run[i..]) ==> Replayed(expected, run[i..]) == Replayed(baseline, run)
    {
      assert run[i..][0] == run[i] && run[i..][1..] == run[i + 1..];
      var applied := Apply(expected, run[i]);
      if applied.None? {
        return None;
      }
      expected := applied.value;
    }
    assert run[|run|..] == [];
    return Some(expected);
  }

  lemma {:induction false} RunSplits<T>(text: seq<T>, first: seq<seq<Edit<T>>>, second: seq<seq<Edit<T>>>)
    ensures FitsRun(text, first + second) <==> FitsRun(text, first) && FitsRun(Replayed(text, first), second)
    ensures FitsRun(text, first + second) ==> Replayed(text, first + second) == Replayed(Replayed(text, first), second)
    decreases |first|
  {
    if first == [] {
      assert first + second == second;
    } else {
      assert (first + second)[0] == first[0] && (first + second)[1..] == first[1..] + second;
      if Fits(text, first[0], 0) {
        RunSplits(Forward(text, first[0], 0), first[1..], second);
      }
    }
  }

  lemma {:induction false} RunIsSorted<T>(text: seq<T>, run: seq<seq<Edit<T>>>)
    requires FitsRun(text, run)
    ensures forall i :: 0 <= i < |run| ==> Sorted(run[i], 0)
    decreases |run|
  {
    if run != [] {
      FitsIsSorted(text, run[0], 0);
      RunIsSorted(Forward(text, run[0], 0), run[1..]);
      forall i | 0 <= i < |run| ensures Sorted(run[i], 0) {
        assert i > 0 ==> run[i] == run[1..][i - 1];
      }
    }
  }

  lemma RunOfOne<T>(text: seq<T>, edits: seq<Edit<T>>)
    requires Fits(text, edits, 0)
    ensures FitsRun(text, [edits]) && Replayed(text, [edits]) == Forward(text, edits, 0)
  {
    var after := Forward(text, edits, 0);
    assert [edits][1..] == [];
    assert FitsRun(after, []) && Replayed(after, []) == after;
  }

  lemma {:induction false} UndoRestores<T>(text: seq<T>, run: seq<seq<Edit<T>>>)
    requires FitsRun(text, run)
    ensures forall i :: 0 <= i < |run| ==> Sorted(run[i], 0)
    ensures FitsRun(Replayed(text, run), UndoRun(run))
    ensures Replayed(Replayed(text, run), UndoRun(run)) == text
    decreases |run|
  {
    RunIsSorted(text, run);
    if run != [] {
      var next := Forward(text, run[0], 0);
      UndoRestores(next, run[1..]);
      RunIsSorted(next, run[1..]);
      var undo := [Inverse(run[0], 0, 0)];
      InverseRestores(text, run[0], 0, 0, next);
      assert text[0..] == text && next[0..] == next;
      var final := Replayed(next, run[1..]);
      RunOfOne(next, Inverse(run[0], 0, 0));
      RunSplits(final, UndoRun(run[1..]), undo);
    }
  }

  /** Undoing the transactions after any replayed prefix brings back exactly that prefix's
      text. */
  lemma UndoToPrefix<T>(text: seq<T>, run: seq<seq<Edit<T>>>, kept: nat)
    requires FitsRun(text, run) && kept <= |run|
    ensures FitsRun(text, run[..kept])
    ensures forall i :: 0 <= i < |run[kept..]| ==> Sorted(run[kept..][i], 0)
    ensures FitsRun(Replayed(text, run), UndoRun(run[kept..]))
    ensures Replayed(Replayed(text, run), UndoRun(run[kept..])) == Replayed(text, run[..kept])
  {
    assert run == run[..kept] + run[kept..];
    RunSplits(text, run[..kept], run[kept..]);
    UndoRestores(Replayed(text, run[..kept]), run[kept..]);
  }
}
