/** The comparison in windows: consecutive windows of lines of both texts are compared one after
    the other, and their hunks are delivered as they come. */
module Windows {
  import opened Slices
  import opened Wrappers
  import opened Utf8
  import opened LineEndings
  import opened HunkScripts
  import opened TextLines
  import opened Diff

  /** The next line end behind an offset. */
  function NextEnd(s: Bytes, at: nat): (e: nat)
    requires at < |s|
    ensures at < e <= |s| && EndsLine(s, e) && NoEnds(s, at, e)
    decreases |s| - at
  {
    if EndsLine(s, at + 1) then at + 1 else NextEnd(s, at + 1)
  }

  function LineCount(s: Bytes, from: nat, end: nat): nat
    requires from <= end <= |s|
    decreases end
  {
    if from == end then 0 else LineCount(s, from, end - 1) + (if EndsLine(s, end) then 1 else 0)
  }

  lemma {:induction false} OneLineFurther(s: Bytes, from: nat, at: nat, end: nat)
    requires from <= at < end <= |s| && NoEnds(s, at, end) && EndsLine(s, end)
    ensures LineCount(s, from, end) == LineCount(s, from, at) + 1
  {
    NoLinesBetween(s, from, at, end - 1);
  }

  lemma {:induction false} NoLinesBetween(s: Bytes, from: nat, at: nat, end: nat)
    requires from <= at <= end <= |s| && forall e :: at < e <= end ==> !EndsLine(s, e)
    ensures LineCount(s, from, end) == LineCount(s, from, at)
    decreases end
  {
    if at < end {
      NoLinesBetween(s, from, at, end - 1);
    }
  }

  /** Where `window` ends: whole lines, at most `maxLines`, within the cap unless one line alone is
      longer, and as many as that allows. */
  ghost predicate EndsWindow(s: Bytes, start: nat, cap: nat, maxLines: nat, end: nat) {
    && start <= end <= |s| && (start < |s| ==> start < end) && (start < end ==> EndsLine(s, end))
    && LineCount(s, start, end) <= maxLines
    && (end - start > cap ==> LineCount(s, start, end) == 1)
    && (end < |s| && LineCount(s, start, end) < maxLines ==> NextEnd(s, end) - start > cap)
  }

  /** `window`: whole lines, as many as fit the caps, and one at least however long it is. */
  method Window(s: Bytes, start: nat, cap: nat, maxLines: nat) returns (end: nat)
    requires start <= |s| && maxLines > 0
    ensures EndsWindow(s, start, cap, maxLines, end)
    ensures start <= end <= |s| && (start < |s| ==> start < end)
  {
    hide EndsLine, NoEnds;
    end := start;
    var count := 0;
    while end < |s| && count < maxLines
      invariant start <= end <= |s| && (start < end ==> EndsLine(s, end)) && count <= maxLines
      invariant count == LineCount(s, start, end) && (count == 0 <==> start == end)
      invariant end - start > cap ==> count == 1
      decreases |s| - end
    {
      var next := NextEnd(s, end);
      if count > 0 && next - start > cap {
        break;
      }
      OneLineFurther(s, start, end, next);
      end, count := next, count + 1;
    }
  }

  /** Hunks in order on both sides. */
  predicate InOrder(hunks: seq<Hunk>, l: nat, r: nat) {
    && (forall k :: 0 <= k < |hunks| ==>
          hunks[k].leftStart <= hunks[k].leftEnd <= l && hunks[k].rightStart <= hunks[k].rightEnd <= r)
    && (forall j, k :: 0 <= j < k < |hunks| ==>
          hunks[j].leftEnd <= hunks[k].leftStart && hunks[j].rightEnd <= hunks[k].rightStart)
  }

  lemma MoreInOrder(hunks: seq<Hunk>, l: nat, r: nat, more: seq<Hunk>, l': nat, r': nat)
    requires InOrder(hunks, l, r) && Apart(more, l', r')
    ensures InOrder(hunks + Behind(more, l, r), l + l', r + r')
  {
  }

  /** The options inside a window: only the first window has the text's first line. */
  function Local<K>(o: Options<K>, first: bool): Options<K> {
    Options((raw, inWindow) => o.text(raw, inWindow && first), o.skips)
  }

  lemma LocalIsSignificant<K(!new)>(o: Options<K>, first: bool)
    requires Significant(o)
    ensures Significant(Local(o, first))
  {
  }

  /** Hunks of everything in front of two offsets. */
  ghost predicate Covered<K(!new)>(l: Bytes, r: Bytes, o: Options<K>, lp: nat, rp: nat, hunks: seq<Hunk>) {
    && lp <= |l| && rp <= |r| && InOrder(hunks, lp, rp)
    && (Significant(o) ==> IsScript(l[..lp], r[..rp], hunks))
  }

  /** The hunks of the next window behind those so far. */
  lemma CoverMore<K(!new)>(l: Bytes, r: Bytes, o: Options<K>, lp: nat, rp: nat, hunks: seq<Hunk>, le: nat, re: nat, more: seq<Hunk>)
    requires Covered(l, r, o, lp, rp, hunks) && lp <= le <= |l| && rp <= re <= |r|
    requires Apart(more, le - lp, re - rp) && (Significant(o) ==> IsScript(l[lp..le], r[rp..re], more))
    ensures Covered(l, r, o, le, re, hunks + Behind(more, lp, rp))
  {
    hide IsScript, Significant, Behind, Apart, InOrder;
    MoreInOrder(hunks, lp, rp, more, le - lp, re - rp);
    PrefixJoined(l, lp, le);
    PrefixJoined(r, rp, re);
    if Significant(o) {
      ScriptsJoin(l[..lp], r[..rp], hunks, l[lp..le], r[rp..re], more);
    }
  }

  lemma OneBlock(l: Bytes, r: Bytes)
    requires l != [] || r != []
    ensures Apart([Hunk(0, |l|, 0, |r|)], |l|, |r|) && IsScript(l, r, [Hunk(0, |l|, 0, |r|)])
  {
    WholeIsScript(l, r);
  }

  lemma CoverAll<K(!new)>(l: Bytes, r: Bytes, o: Options<K>, hunks: seq<Hunk>)
    requires Covered(l, r, o, |l|, |r|, hunks)
    ensures InOrder(hunks, |l|, |r|) && (Significant(o) ==> IsScript(l, r, hunks))
  {
    assert l[..|l|] == l && r[..|r|] == r;
  }

  /** One window of the comparison: its ranges in both texts, and the hunks delivered for it, by
      their place in the window. */
  datatype Piece = Piece(lp: nat, le: nat, rp: nat, re: nat, hunks: seq<Hunk>, flags: seq<bool>)

  function OneHunk(p: Piece): seq<Hunk>
    requires p.lp <= p.le && p.rp <= p.re
  {
    [Hunk(0, p.le - p.lp, 0, p.re - p.rp)]
  }

  /** What a piece has to hold: everything left as one coarse block when time is up, a window of
      both texts as one coarse block when it is too large, and otherwise their comparison. */
  ghost predicate Served<K(!new)>(l: Bytes, r: Bytes, o: Options<K>, cap: nat, maxLines: nat, limits: Limits, timely: bool, p: Piece) {
    && p.lp <= p.le <= |l| && p.rp <= p.re <= |r| && (p.lp < |l| || p.rp < |r|)
    && if !timely then p.le == |l| && p.re == |r| && p.hunks == OneHunk(p) && p.flags == [true]
       else
         && EndsWindow(l, p.lp, cap, maxLines, p.le) && EndsWindow(r, p.rp, cap, maxLines, p.re)
         && if p.le - p.lp > cap || p.re - p.rp > cap then p.hunks == OneHunk(p) && p.flags == [true]
            else exists reason ::
                   Answers(l[p.lp..p.le], r[p.rp..p.re], Local(o, p.lp == 0 && p.rp == 0), limits, Compared(p.hunks, p.flags, reason))
  }

  /** Where the pieces so far end. */
  function Reached(pieces: seq<Piece>): (nat, nat) {
    if pieces == [] then (0, 0) else (pieces[|pieces| - 1].le, pieces[|pieces| - 1].re)
  }

  /** Pieces one behind the other, the `n`th served within its own limits. */
  ghost predicate Chained<K(!new)>(l: Bytes, r: Bytes, o: Options<K>, cap: nat, maxLines: nat, limits: nat -> Limits, timely: nat -> bool,
                                  pieces: seq<Piece>) {
    pieces == [] ||
    var n := |pieces| - 1;
      && Chained(l, r, o, cap, maxLines, limits, timely, pieces[..n])
      && (pieces[n].lp, pieces[n].rp) == Reached(pieces[..n])
      && Served(l, r, o, cap, maxLines, limits(n), timely(n), pieces[n])
  }

  /** The hunks of all pieces, by their place in the texts. */
  function HunksOfAll(pieces: seq<Piece>): seq<Hunk> {
    if pieces == [] then []
    else
      var n := |pieces| - 1;
      HunksOfAll(pieces[..n]) + Behind(pieces[n].hunks, pieces[n].lp, pieces[n].rp)
  }

  function FlagsOfAll(pieces: seq<Piece>): seq<bool> {
    if pieces == [] then [] else FlagsOfAll(pieces[..|pieces| - 1]) + pieces[|pieces| - 1].flags
  }

  lemma OneMorePiece<K(!new)>(l: Bytes, r: Bytes, o: Options<K>, cap: nat, maxLines: nat, limits: nat -> Limits, timely: nat -> bool,
                              pieces: seq<Piece>, p: Piece)
    requires Chained(l, r, o, cap, maxLines, limits, timely, pieces) && (p.lp, p.rp) == Reached(pieces)
    requires Served(l, r, o, cap, maxLines, limits(|pieces|), timely(|pieces|), p)
    ensures Chained(l, r, o, cap, maxLines, limits, timely, pieces + [p]) && Reached(pieces + [p]) == (p.le, p.re)
    ensures HunksOfAll(pieces + [p]) == HunksOfAll(pieces) + Behind(p.hunks, p.lp, p.rp)
    ensures FlagsOfAll(pieces + [p]) == FlagsOfAll(pieces) + p.flags
  {
    hide Served, Behind;
    assert (pieces + [p])[..|pieces|] == pieces;
  }

  /** The next piece of the comparison. */
  method NextPiece<K(!new, ==)>(l: Bytes, r: Bytes, o: Options<K>, cap: nat, maxLines: nat, limits: Limits, timely: bool,
                                lp: nat, rp: nat, ghost hunks: seq<Hunk>)
      returns (p: Piece, exact: bool)
    requires lp <= |l| && rp <= |r| && (lp < |l| || rp < |r|) && maxLines > 0 && Covered(l, r, o, lp, rp, hunks)
    ensures Served(l, r, o, cap, maxLines, limits, timely, p) && (p.lp, p.rp) == (lp, rp) && (lp < p.le || rp < p.re)
    ensures lp <= p.le <= |l| && rp <= p.re <= |r|
    ensures Covered(l, r, o, p.le, p.re, hunks + Behind(p.hunks, lp, rp)) && |p.flags| == |p.hunks|
    ensures exact ==> true !in p.flags
  {
    hide Covered, IsScript, Significant, InOrder, Behind, Apart, Delivers, Answers, Served, EndsWindow;
    if !timely {
      p, exact := Piece(lp, |l|, rp, |r|, [Hunk(0, |l| - lp, 0, |r| - rp)], [true]), false;
      BlockCovers(l, r, o, lp, rp, hunks, p);
      BlockServed(l, r, o, cap, maxLines, limits, timely, p);
      return;
    }
    var le := Window(l, lp, cap, maxLines);
    var re := Window(r, rp, cap, maxLines);
    if le - lp > cap || re - rp > cap {
      p, exact := Piece(lp, le, rp, re, [Hunk(0, le - lp, 0, re - rp)], [true]), false;
      BlockCovers(l, r, o, lp, rp, hunks, p);
      BlockServed(l, r, o, cap, maxLines, limits, timely, p);
    } else {
      var c := Compare([l[lp..le]], [r[rp..re]], Local(o, lp == 0 && rp == 0), limits);
      OneChunk(l[lp..le]);
      OneChunk(r[rp..re]);
      WindowDelivers(l[lp..le], r[rp..re], o, lp == 0 && rp == 0, c);
      CoverMore(l, r, o, lp, rp, hunks, le, re, c.hunks);
      p, exact := Piece(lp, le, rp, re, c.hunks, c.flags), c.reason.None?;
      ComparisonServed(l, r, o, cap, maxLines, limits, p, c);
    }
  }

  lemma OneChunk(s: Bytes)
    ensures Flatten([s]) == s
  {
  }

  lemma BlockServed<K(!new)>(l: Bytes, r: Bytes, o: Options<K>, cap: nat, maxLines: nat, limits: Limits, timely: bool, p: Piece)
    requires p.lp <= p.le <= |l| && p.rp <= p.re <= |r| && (p.lp < |l| || p.rp < |r|)
    requires p.hunks == OneHunk(p) && p.flags == [true]
    requires if timely then EndsWindow(l, p.lp, cap, maxLines, p.le) && EndsWindow(r, p.rp, cap, maxLines, p.re)
                              && (p.le - p.lp > cap || p.re - p.rp > cap)
             else p.le == |l| && p.re == |r|
    ensures Served(l, r, o, cap, maxLines, limits, timely, p)
  {
  }

  lemma ComparisonServed<K(!new)>(l: Bytes, r: Bytes, o: Options<K>, cap: nat, maxLines: nat, limits: Limits, p: Piece, c: Compared)
    requires p.lp <= p.le <= |l| && p.rp <= p.re <= |r| && (p.lp < |l| || p.rp < |r|)
    requires EndsWindow(l, p.lp, cap, maxLines, p.le) && EndsWindow(r, p.rp, cap, maxLines, p.re)
    requires p.le - p.lp <= cap && p.re - p.rp <= cap && c.hunks == p.hunks && c.flags == p.flags
    requires Answers(l[p.lp..p.le], r[p.rp..p.re], Local(o, p.lp == 0 && p.rp == 0), limits, c)
    ensures Served(l, r, o, cap, maxLines, limits, true, p)
  {
    assert c == Compared(p.hunks, p.flags, c.reason);
  }

  lemma BlockCovers<K(!new)>(l: Bytes, r: Bytes, o: Options<K>, lp: nat, rp: nat, hunks: seq<Hunk>, p: Piece)
    requires Covered(l, r, o, lp, rp, hunks) && (p.lp, p.rp) == (lp, rp)
    requires lp <= p.le <= |l| && rp <= p.re <= |r| && (lp < p.le || rp < p.re) && p.hunks == OneHunk(p)
    ensures Covered(l, r, o, p.le, p.re, hunks + Behind(p.hunks, lp, rp))
  {
    hide Covered;
    OneBlock(l[lp..p.le], r[rp..p.re]);
    CoverMore(l, r, o, lp, rp, hunks, p.le, p.re, p.hunks);
  }

  /** `compare_batches`: the hunks delivered window by window. Window `n` starts in time when
      `timely(n)`; otherwise the rest is one coarse block. */
  method CompareBatches<K(!new, ==)>(l: Bytes, r: Bytes, o: Options<K>, cap: nat, maxLines: nat, limits: nat -> Limits, timely: nat -> bool)
      returns (hunks: seq<Hunk>, flags: seq<bool>, exact: bool, ghost pieces: seq<Piece>)
    ensures Significant(o) ==> IsScript(l, r, hunks)
    ensures InOrder(hunks, |l|, |r|) && |flags| == |hunks|
    ensures exact ==> true !in flags && |pieces| <= 1
    ensures Chained(l, r, o, cap, Most(maxLines), limits, timely, pieces) && Reached(pieces) == (|l|, |r|)
    ensures hunks == HunksOfAll(pieces) && flags == FlagsOfAll(pieces)
  {
    hide Covered, IsScript, Significant, InOrder, Behind, Served, Chained;
    var lp: nat, rp: nat := 0, 0;
    hunks, flags, exact, pieces := [], [], true, [];
    NothingCovered(l, r, o);
    NoPieces(l, r, o, cap, Most(maxLines), limits, timely);
    var windows := 0;
    while lp < |l| || rp < |r|
      invariant lp <= |l| && rp <= |r| && Covered(l, r, o, lp, rp, hunks)
      invariant |flags| == |hunks| && (exact ==> true !in flags) && windows == |pieces|
      invariant Chained(l, r, o, cap, Most(maxLines), limits, timely, pieces) && Reached(pieces) == (lp, rp)
      invariant hunks == HunksOfAll(pieces) && flags == FlagsOfAll(pieces)
      decreases |l| - lp + |r| - rp
    {
      var p, alone := NextPiece(l, r, o, cap, Most(maxLines), limits(windows), timely(windows), lp, rp, hunks);
      OneMorePiece(l, r, o, cap, Most(maxLines), limits, timely, pieces, p);
      BehindLength(p.hunks, lp, rp);
      hunks, flags, exact := hunks + Behind(p.hunks, lp, rp), flags + p.flags, exact && alone;
      lp, rp, windows, pieces := p.le, p.re, windows + 1, pieces + [p];
    }
    CoverAll(l, r, o, hunks);
    exact := exact && windows <= 1;
  }

  function Most(maxLines: nat): (most: nat)
    ensures 1 <= most <= 64 && (1 <= maxLines <= 64 ==> most == maxLines)
  {
    if maxLines < 1 then 1 else if maxLines > 64 then 64 else maxLines
  }

  lemma NoPieces<K(!new)>(l: Bytes, r: Bytes, o: Options<K>, cap: nat, maxLines: nat, limits: nat -> Limits, timely: nat -> bool)
    ensures Chained(l, r, o, cap, maxLines, limits, timely, []) && Reached([]) == (0, 0)
  {
  }

  lemma NothingCovered<K(!new)>(l: Bytes, r: Bytes, o: Options<K>)
    ensures Covered(l, r, o, 0, 0, [])
  {
  }

  lemma BehindLength(hunks: seq<Hunk>, l: nat, r: nat)
    ensures |Behind(hunks, l, r)| == |hunks|
  {
  }

  lemma WindowDelivers<K(!new)>(l: Bytes, r: Bytes, o: Options<K>, first: bool, c: Compared)
    requires Delivers(Flatten([l]), Flatten([r]), Local(o, first), c)
    requires l != [] || r != []
    ensures Apart(c.hunks, |l|, |r|) && |c.flags| == |c.hunks| && (c.reason.None? ==> true !in c.flags)
    ensures Significant(o) ==> IsScript(l, r, c.hunks)
  {
    hide Significant, IsScript, Apart, Local;
    assert Flatten([l]) == l && Flatten([r]) == r;
    if Significant(o) {
      LocalIsSignificant(o, first);
    }
  }
}
