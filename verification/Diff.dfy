/** The comparison of two texts: hunks between their aligned lines, or one coarse hunk when a limit
    is met, as an edit script from the left text to the right one. */
module Diff {
  import opened Slices
  import opened Wrappers
  import opened Utf8
  import opened LineEndings
  import opened HunkScripts
  import opened Myers
  import opened Anchors
  import opened Alignment
  import opened TextLines

  // ----- hunks of lines

  function GapHunk(from: Pair, to: Pair): seq<Hunk> {
    if from.0 < to.0 || from.1 < to.1 then [Hunk(from.0, to.0, from.1, to.1)] else []
  }

  /** The unpaired lines in front of the first `n` pairs, the end counting as one more. */
  function LineHunks<T>(a: seq<T>, b: seq<T>, pairs: seq<Pair>, n: nat): seq<Hunk>
    requires n <= |pairs| + 1
  {
    if n == 0 then []
    else LineHunks(a, b, pairs, n - 1) + GapHunk(Next(a, b, pairs, n - 1), Stop(a, b, pairs, n - 1))
  }

  function AllHunks<T>(a: seq<T>, b: seq<T>, pairs: seq<Pair>): seq<Hunk> { LineHunks(a, b, pairs, |pairs| + 1) }

  lemma GapIsScript<T>(a: seq<T>, b: seq<T>, from: Pair, to: Pair)
    requires from.0 <= to.0 <= |a| && from.1 <= to.1 <= |b|
    ensures var h := Hunk(0, to.0 - from.0, 0, to.1 - from.1);
      && IsScript(a[from.0..to.0], b[from.1..to.1], [h])
      && (GapHunk(from, to) == [] ==> IsScript(a[from.0..to.0], b[from.1..to.1], []))
      && (GapHunk(from, to) != [] ==> Behind([h], from.0, from.1) == GapHunk(from, to))
  {
  }

  /** A script up to the start of a gap, and on over the gap. */
  lemma OverGap<T>(a: seq<T>, b: seq<T>, hunks: seq<Hunk>, from: Pair, to: Pair)
    requires from.0 <= to.0 <= |a| && from.1 <= to.1 <= |b| && IsScript(a[..from.0], b[..from.1], hunks)
    ensures IsScript(a[..to.0], b[..to.1], hunks + GapHunk(from, to))
  {
    hide IsScript, Behind;
    GapIsScript(a, b, from, to);
    var left, right := a[from.0..to.0], b[from.1..to.1];
    PrefixJoined(a, from.0, to.0);
    PrefixJoined(b, from.1, to.1);
    if GapHunk(from, to) == [] {
      ScriptsJoin(a[..from.0], b[..from.1], hunks, left, right, []);
      assert hunks + GapHunk(from, to) == hunks + Behind([], from.0, from.1) by { NoneMoved(from.0, from.1); }
    } else {
      ScriptsJoin(a[..from.0], b[..from.1], hunks, left, right, [Hunk(0, to.0 - from.0, 0, to.1 - from.1)]);
    }
  }

  lemma NoneMoved(l: nat, r: nat)
    ensures Behind([], l, r) == []
  {
  }

  /** A script up to a pair, and on over the pair. */
  lemma OverPair<T>(a: seq<T>, b: seq<T>, hunks: seq<Hunk>, p: Pair)
    requires p.0 < |a| && p.1 < |b| && a[p.0] == b[p.1] && IsScript(a[..p.0], b[..p.1], hunks)
    ensures IsScript(a[..p.0 + 1], b[..p.1 + 1], hunks)
  {
    OneEqual(a[p.0]);
    NoneMoved(p.0, p.1);
    hide IsScript, Behind;
    assert a[..p.0 + 1] == a[..p.0] + [a[p.0]];
    assert b[..p.1 + 1] == b[..p.1] + [a[p.0]];
    ScriptsJoin(a[..p.0], b[..p.1], hunks, [a[p.0]], [a[p.0]], []);
    assert hunks + [] == hunks;
  }

  lemma OneEqual<T>(x: T)
    ensures IsScript([x], [x], [])
  {
  }

  lemma {:induction false} HunksAreScript<T>(a: seq<T>, b: seq<T>, pairs: seq<Pair>, n: nat)
    requires Matching(a, b, pairs) && n <= |pairs|
    ensures Next(a, b, pairs, n).0 <= |a| && Next(a, b, pairs, n).1 <= |b|
    ensures IsScript(a[..Next(a, b, pairs, n).0], b[..Next(a, b, pairs, n).1], LineHunks(a, b, pairs, n))
    decreases n
  {
    hide IsScript;
    StopInside(a, b, pairs, n);
    if n == 0 {
      NoScript(a, b);
    } else {
      HunksAreScript(a, b, pairs, n - 1);
      StopInside(a, b, pairs, n - 1);
      var from, to := Next(a, b, pairs, n - 1), Stop(a, b, pairs, n - 1);
      OverGap(a, b, LineHunks(a, b, pairs, n - 1), from, to);
      OverPair(a, b, LineHunks(a, b, pairs, n), to);
    }
  }

  lemma NoScript<T>(a: seq<T>, b: seq<T>)
    ensures IsScript(a[..0], b[..0], [])
  {
  }

  /** The gaps between matched lines make a script of the lines. */
  lemma LineScript<T>(a: seq<T>, b: seq<T>, pairs: seq<Pair>)
    requires Matching(a, b, pairs)
    ensures IsScript(a, b, AllHunks(a, b, pairs))
  {
    hide IsScript;
    var n := |pairs|;
    HunksAreScript(a, b, pairs, n);
    StopInside(a, b, pairs, n);
    OverGap(a, b, LineHunks(a, b, pairs, n), Next(a, b, pairs, n), Stop(a, b, pairs, n));
    assert a[..|a|] == a && b[..|b|] == b;
  }

  predicate InHunk(h: Hunk, i: nat, right: bool) {
    if right then h.rightStart <= i < h.rightEnd else h.leftStart <= i < h.leftEnd
  }

  ghost predicate Hunked(hunks: seq<Hunk>, i: nat, right: bool) {
    exists h :: h in hunks && InHunk(h, i, right)
  }

  ghost predicate Paired(pairs: seq<Pair>, i: nat, right: bool) {
    exists p :: p in pairs && i == Side(p, right)
  }

  function Side(p: Pair, right: bool): nat { if right then p.1 else p.0 }

  lemma HunkedMore(hunks: seq<Hunk>, more: seq<Hunk>, i: nat, right: bool)
    ensures Hunked(hunks + more, i, right) <==> Hunked(hunks, i, right) || Hunked(more, i, right)
  {
    assert forall h :: h in hunks + more <==> h in hunks || h in more;
  }

  lemma GapIsHunked(from: Pair, to: Pair, i: nat, right: bool)
    ensures Hunked(GapHunk(from, to), i, right) <==> Side(from, right) <= i < Side(to, right)
  {
    if Side(from, right) <= i < Side(to, right) {
      var h := Hunk(from.0, to.0, from.1, to.1);
      assert h in GapHunk(from, to) && InHunk(h, i, right);
    }
  }

  /** The lines up to a pair that are in no pair are exactly those in a hunk. */
  lemma {:induction false} UnpairedTo<T>(a: seq<T>, b: seq<T>, pairs: seq<Pair>, n: nat, i: nat, right: bool)
    requires Matching(a, b, pairs) && n <= |pairs|
    ensures Hunked(LineHunks(a, b, pairs, n), i, right) <==>
      i < Side(Next(a, b, pairs, n), right) && !Paired(pairs[..n], i, right)
    decreases n
  {
    if n > 0 {
      UnpairedTo(a, b, pairs, n - 1, i, right);
      StopInside(a, b, pairs, n - 1);
      var from, to := Next(a, b, pairs, n - 1), Stop(a, b, pairs, n - 1);
      HunkedMore(LineHunks(a, b, pairs, n - 1), GapHunk(from, to), i, right);
      GapIsHunked(from, to, i, right);
      OneMorePaired(a, b, pairs, n, i, right);
    }
  }

  lemma OneMorePaired<T>(a: seq<T>, b: seq<T>, pairs: seq<Pair>, n: nat, i: nat, right: bool)
    requires Matching(a, b, pairs) && 0 < n <= |pairs|
    ensures Paired(pairs[..n], i, right) <==> Paired(pairs[..n - 1], i, right) || i == Side(pairs[n - 1], right)
    ensures Paired(pairs[..n - 1], i, right) ==> i < Side(Next(a, b, pairs, n - 1), right)
  {
    assert pairs[..n] == pairs[..n - 1] + [pairs[n - 1]];
    if Paired(pairs[..n - 1], i, right) {
      var p :| p in pairs[..n - 1] && i == Side(p, right);
      var k: nat :| k < n - 1 && pairs[k] == p;
    }
  }

  /** The hunks hold exactly the lines of both sides that no pair holds. */
  lemma HunkedIsUnpaired<T>(a: seq<T>, b: seq<T>, pairs: seq<Pair>, i: nat, right: bool)
    requires Matching(a, b, pairs) && i < if right then |b| else |a|
    ensures Hunked(AllHunks(a, b, pairs), i, right) <==> !Paired(pairs, i, right)
  {
    var n := |pairs|;
    UnpairedTo(a, b, pairs, n, i, right);
    StopInside(a, b, pairs, n);
    HunkedMore(LineHunks(a, b, pairs, n), GapHunk(Next(a, b, pairs, n), Stop(a, b, pairs, n)), i, right);
    GapIsHunked(Next(a, b, pairs, n), Stop(a, b, pairs, n), i, right);
    assert pairs[..n] == pairs;
    if Paired(pairs, i, right) {
      PairedInFront(a, b, pairs, i, right);
    }
  }

  lemma PairedInFront<T>(a: seq<T>, b: seq<T>, pairs: seq<Pair>, i: nat, right: bool)
    requires Matching(a, b, pairs) && Paired(pairs, i, right)
    ensures i < Side(Next(a, b, pairs, |pairs|), right)
  {
    var p :| p in pairs && i == Side(p, right);
    var k: nat :| k < |pairs| && pairs[k] == p;
  }

  // ----- hunks of bytes

  function Texts<K>(lines: seq<Line<K>>): (texts: seq<K>)
    ensures |texts| == |lines|
  {
    seq(|lines|, i requires 0 <= i < |lines| => lines[i].text)
  }

  /** Where a line starts, the end standing behind the last. */
  function Offset<K>(lines: seq<Line<K>>, i: nat, len: nat): nat {
    if i < |lines| then lines[i].start else len
  }

  /** The byte range of some lines: empty ones lie in front of the next line. */
  function Span<K>(lines: seq<Line<K>>, from: nat, to: nat, len: nat): (nat, nat) {
    if from < to <= |lines| then (lines[from].start, lines[to - 1].end) else (Offset(lines, to, len), Offset(lines, to, len))
  }

  function Place<K>(a: seq<Line<K>>, b: seq<Line<K>>, h: Hunk, l: nat, r: nat): Hunk {
    var left, right := Span(a, h.leftStart, h.leftEnd, l), Span(b, h.rightStart, h.rightEnd, r);
    Hunk(left.0, left.1, right.0, right.1)
  }

  function Placed<K>(a: seq<Line<K>>, b: seq<Line<K>>, hunks: seq<Hunk>, l: nat, r: nat): seq<Hunk> {
    seq(|hunks|, i requires 0 <= i < |hunks| => Place(a, b, hunks[i], l, r))
  }

  /** The lines lie one behind the other. */
  predicate Ascending<K>(lines: seq<Line<K>>, len: nat) {
    && (forall i :: 0 <= i < |lines| ==> lines[i].start < lines[i].end <= len)
    && (forall i, j :: 0 <= i < j < |lines| ==> lines[i].end <= lines[j].start)
  }

  /** They cover the whole text. */
  predicate Tiles<K>(lines: seq<Line<K>>, len: nat) {
    && Ascending(lines, len) && Offset(lines, 0, len) == 0
    && forall i :: 0 <= i < |lines| ==> lines[i].end == Offset(lines, i + 1, len)
  }

  /** Lines with the same text have the same bytes. */
  ghost predicate Truthful<K>(left: Bytes, right: Bytes, a: seq<Line<K>>, b: seq<Line<K>>)
    requires Ascending(a, |left|) && Ascending(b, |right|)
  {
    forall i, j :: 0 <= i < |a| && 0 <= j < |b| && a[i].text == b[j].text ==>
      left[a[i].start..a[i].end] == right[b[j].start..b[j].end]
  }

  lemma OffsetAscends<K>(lines: seq<Line<K>>, i: nat, j: nat, len: nat)
    requires Ascending(lines, len) && i <= j <= |lines|
    ensures Offset(lines, i, len) <= Offset(lines, j, len) <= len
  {
  }

  lemma OneMoreEqual(left: Bytes, right: Bytes, x: nat, y: nat, z: nat, x': nat, y': nat, z': nat)
    requires x <= y <= z <= |left| && x' <= y' <= z' <= |right|
    requires left[x..y] == right[x'..y'] && left[y..z] == right[y'..z']
    ensures left[x..z] == right[x'..z']
  {
    Joined(left, x, y, z);
    Joined(right, x', y', z');
  }

  lemma {:induction false} SameBytesBetween<K>(left: Bytes, right: Bytes, a: seq<Line<K>>, b: seq<Line<K>>, i: nat, i': nat, j: nat, j': nat)
    requires Tiles(a, |left|) && Tiles(b, |right|) && Truthful(left, right, a, b)
    requires i <= i' <= |a| && j <= j' <= |b| && Texts(a)[i..i'] == Texts(b)[j..j']
    ensures Offset(a, i, |left|) <= Offset(a, i', |left|) <= |left|
    ensures Offset(b, j, |right|) <= Offset(b, j', |right|) <= |right|
    ensures left[Offset(a, i, |left|)..Offset(a, i', |left|)] == right[Offset(b, j, |right|)..Offset(b, j', |right|)]
    decreases i' - i
  {
    hide Texts, Offset, Tiles, Truthful;
    TileOffsets(a, i, i', |left|);
    TileOffsets(b, j, j', |right|);
    assert |Texts(a)[i..i']| == |Texts(b)[j..j']|;
    if i < i' {
      FirstEqual(Texts(a), Texts(b), i, i', j, j');
      SameBytesBetween(left, right, a, b, i + 1, i', j + 1, j');
      OneLine(left, right, a, b, i, j);
      OneMoreEqual(left, right, Offset(a, i, |left|), Offset(a, i + 1, |left|), Offset(a, i', |left|),
                   Offset(b, j, |right|), Offset(b, j + 1, |right|), Offset(b, j', |right|));
    }
  }

  lemma TileOffsets<K>(lines: seq<Line<K>>, i: nat, j: nat, len: nat)
    requires Tiles(lines, len) && i <= j <= |lines|
    ensures Offset(lines, i, len) <= Offset(lines, j, len) <= len
  {
    OffsetAscends(lines, i, j, len);
  }

  lemma OneLine<K>(left: Bytes, right: Bytes, a: seq<Line<K>>, b: seq<Line<K>>, i: nat, j: nat)
    requires Tiles(a, |left|) && Tiles(b, |right|) && Truthful(left, right, a, b)
    requires i < |a| && j < |b| && Texts(a)[i] == Texts(b)[j]
    ensures Offset(a, i, |left|) <= Offset(a, i + 1, |left|) <= |left|
    ensures Offset(b, j, |right|) <= Offset(b, j + 1, |right|) <= |right|
    ensures left[Offset(a, i, |left|)..Offset(a, i + 1, |left|)] == right[Offset(b, j, |right|)..Offset(b, j + 1, |right|)]
  {
    assert a[i].text == b[j].text;
  }

  lemma FirstEqual<T>(a: seq<T>, b: seq<T>, i: nat, i': nat, j: nat, j': nat)
    requires i < i' <= |a| && j <= j' <= |b| && a[i..i'] == b[j..j']
    ensures j < j' && a[i] == b[j] && a[i + 1..i'] == b[j + 1..j']
  {
    assert |a[i..i']| == |b[j..j']|;
    assert a[i] == a[i..i'][0] == b[j..j'][0] == b[j];
    assert a[i + 1..i'] == a[i..i'][1..] == b[j..j'][1..] == b[j + 1..j'];
  }

  lemma SpanIsOffsets<K>(lines: seq<Line<K>>, from: nat, to: nat, len: nat)
    requires Tiles(lines, len) && from <= to <= |lines|
    ensures Span(lines, from, to, len) == (Offset(lines, from, len), Offset(lines, to, len))
  {
  }

  lemma PlacedCons<K>(a: seq<Line<K>>, b: seq<Line<K>>, hunks: seq<Hunk>, l: nat, r: nat)
    requires hunks != []
    ensures var placed := Placed(a, b, hunks, l, r);
      placed != [] && placed[0] == Place(a, b, hunks[0], l, r) && placed[1..] == Placed(a, b, hunks[1..], l, r)
  {
  }

  lemma WholeTail<T>(s: seq<T>, i: nat)
    requires i <= |s|
    ensures s[i..|s|] == s[i..]
  {
  }

  lemma PlacedEnd<K>(left: Bytes, right: Bytes, a: seq<Line<K>>, b: seq<Line<K>>, i: nat, j: nat)
    requires Tiles(a, |left|) && Tiles(b, |right|) && Truthful(left, right, a, b)
    requires Aligned(Texts(a), Texts(b), [], i, j)
    ensures Aligned(left, right, [], Offset(a, i, |left|), Offset(b, j, |right|))
  {
    WholeTail(Texts(a), i);
    WholeTail(Texts(b), j);
    hide Tiles, Truthful;
    SameBytesBetween(left, right, a, b, i, |a|, j, |b|);
    WholeTail(left, Offset(a, i, |left|));
    WholeTail(right, Offset(b, j, |right|));
  }

  /** A script of the lines is a script of the bytes when the lines cover both texts. */
  lemma {:induction false} BytesFollowLines<K>(left: Bytes, right: Bytes, a: seq<Line<K>>, b: seq<Line<K>>, hunks: seq<Hunk>, i: nat, j: nat)
    requires Tiles(a, |left|) && Tiles(b, |right|) && Truthful(left, right, a, b)
    requires Aligned(Texts(a), Texts(b), hunks, i, j)
    ensures Aligned(left, right, Placed(a, b, hunks, |left|, |right|), Offset(a, i, |left|), Offset(b, j, |right|))
    decreases |hunks|
  {
    if hunks == [] {
      PlacedEnd(left, right, a, b, i, j);
      assert Placed(a, b, hunks, |left|, |right|) == [];
    } else {
      AlignedHead(Texts(a), Texts(b), hunks, i, j);
      hide Aligned, Placed, Span, Offset, Truthful, Tiles;
      var h := hunks[0];
      BytesFollowLines(left, right, a, b, hunks[1..], h.leftEnd, h.rightEnd);
      SameBytesBetween(left, right, a, b, i, h.leftStart, j, h.rightStart);
      SpansInside(a, |left|, h.leftStart, h.leftEnd);
      SpansInside(b, |right|, h.rightStart, h.rightEnd);
      PlacedCons(a, b, hunks, |left|, |right|);
      var placed := Placed(a, b, hunks, |left|, |right|);
      AlignedCons(left, right, placed[0], placed, Offset(a, i, |left|), Offset(b, j, |right|));
    }
  }

  lemma SpansInside<K>(lines: seq<Line<K>>, len: nat, from: nat, to: nat)
    requires Tiles(lines, len) && from <= to <= |lines|
    ensures Span(lines, from, to, len) == (Offset(lines, from, len), Offset(lines, to, len))
    ensures Offset(lines, from, len) <= Offset(lines, to, len) <= len
  {
    SpanIsOffsets(lines, from, to, len);
    OffsetAscends(lines, from, to, len);
  }

  // ----- hunks lie apart

  /** Hunks that are not empty, in order, and apart from one another on both sides. */
  predicate Apart(hunks: seq<Hunk>, l: nat, r: nat) {
    && (forall k :: 0 <= k < |hunks| ==>
          hunks[k].leftStart <= hunks[k].leftEnd <= l && hunks[k].rightStart <= hunks[k].rightEnd <= r)
    && (forall k :: 0 <= k < |hunks| ==> hunks[k].leftStart < hunks[k].leftEnd || hunks[k].rightStart < hunks[k].rightEnd)
    && (forall j, k :: 0 <= j < k < |hunks| ==>
          hunks[j].leftEnd < hunks[k].leftStart && hunks[j].rightEnd < hunks[k].rightStart)
  }

  lemma OneMoreApart(hunks: seq<Hunk>, end: Pair, from: Pair, to: Pair)
    requires Apart(hunks, end.0, end.1) && (hunks != [] ==> end.0 < from.0 && end.1 < from.1)
    requires end.0 <= to.0 && end.1 <= to.1 && from.0 <= to.0 && from.1 <= to.1
    ensures Apart(hunks + GapHunk(from, to), to.0, to.1)
  {
  }

  lemma {:induction false} LineHunksApart<T>(a: seq<T>, b: seq<T>, pairs: seq<Pair>, n: nat)
    requires Matching(a, b, pairs) && 0 < n <= |pairs| + 1
    ensures Apart(LineHunks(a, b, pairs, n), Stop(a, b, pairs, n - 1).0, Stop(a, b, pairs, n - 1).1)
    decreases n
  {
    StopInside(a, b, pairs, n - 1);
    var from, to := Next(a, b, pairs, n - 1), Stop(a, b, pairs, n - 1);
    if n == 1 {
      OneMoreApart([], (0, 0), from, to);
    } else {
      LineHunksApart(a, b, pairs, n - 1);
      OneMoreApart(LineHunks(a, b, pairs, n - 1), Stop(a, b, pairs, n - 2), from, to);
    }
  }

  lemma SpanInside<K>(lines: seq<Line<K>>, len: nat, from: nat, to: nat)
    requires Ascending(lines, len) && from <= to <= |lines|
    ensures Span(lines, from, to, len).0 <= Span(lines, from, to, len).1 <= len
    ensures from < to ==> Span(lines, from, to, len).0 < Span(lines, from, to, len).1
  {
  }

  lemma SpansApart<K>(lines: seq<Line<K>>, len: nat, from: nat, to: nat, from': nat, to': nat)
    requires Ascending(lines, len) && from <= to < from' <= to' <= |lines|
    ensures Span(lines, from, to, len).1 < Span(lines, from', to', len).0
  {
    assert lines[to].start < lines[to].end;
  }

  lemma PlacedApart<K>(a: seq<Line<K>>, b: seq<Line<K>>, hunks: seq<Hunk>, l: nat, r: nat)
    requires Ascending(a, l) && Ascending(b, r) && Apart(hunks, |a|, |b|)
    ensures Apart(Placed(a, b, hunks, l, r), l, r)
  {
    hide Span, Ascending;
    var placed := Placed(a, b, hunks, l, r);
    forall k | 0 <= k < |hunks|
      ensures placed[k].leftStart <= placed[k].leftEnd <= l && placed[k].rightStart <= placed[k].rightEnd <= r
      ensures placed[k].leftStart < placed[k].leftEnd || placed[k].rightStart < placed[k].rightEnd
    {
      SpanInside(a, l, hunks[k].leftStart, hunks[k].leftEnd);
      SpanInside(b, r, hunks[k].rightStart, hunks[k].rightEnd);
    }
    forall j, k | 0 <= j < k < |hunks|
      ensures placed[j].leftEnd < placed[k].leftStart && placed[j].rightEnd < placed[k].rightStart
    {
      SpansApart(a, l, hunks[j].leftStart, hunks[j].leftEnd, hunks[k].leftStart, hunks[k].leftEnd);
      SpansApart(b, r, hunks[j].rightStart, hunks[j].rightEnd, hunks[k].rightStart, hunks[k].rightEnd);
    }
  }

  // ----- the lines of a text

  /** Options that leave out no line and tell all others apart: the default ones. */
  ghost predicate Significant<K(!new)>(o: Options<K>) {
    && (forall raw :: !o.skips(raw))
    && (forall raw, first, raw', first' :: o.text(raw, first) == o.text(raw', first') ==> raw == raw')
  }

  /** The default options keep every line as it is. */
  function Default(): Options<Bytes> { Options((raw, first) => raw, raw => false) }

  lemma DefaultIsSignificant()
    ensures Significant(Default())
  {
  }

  predicate FromText<K(==)>(s: Bytes, o: Options<K>, lines: seq<Line<K>>, len: nat) {
    && len <= |s| && Ascending(lines, len)
    && forall i :: 0 <= i < |lines| ==> lines[i].text == o.text(s[lines[i].start..lines[i].end], lines[i].start == 0)
  }

  lemma AppendLine<K>(s: Bytes, o: Options<K>, lines: seq<Line<K>>, start: nat, end: nat)
    requires start < end <= |s| && FromText(s, o, lines, start)
    ensures FromText(s, o, lines + LineOf(s, o, start, end), end)
    ensures Tiles(lines, start) && !o.skips(s[start..end]) ==> Tiles(lines + LineOf(s, o, start, end), end)
  {
  }

  lemma {:induction false} LinesFromText<K(!new)>(s: Bytes, o: Options<K>, n: nat)
    requires n <= |s|
    ensures FromText(s, o, LinesTo(s, o, n), LastEnd(s, n))
    ensures Significant(o) ==> Tiles(LinesTo(s, o, n), LastEnd(s, n))
    ensures |LinesTo(s, o, n)| <= n
    decreases n
  {
    hide FromText, Tiles, LineOf, EndsLine;
    if n > 0 {
      LinesFromText(s, o, n - 1);
      if EndsLine(s, n) {
        AppendLine(s, o, LinesTo(s, o, n - 1), LastEnd(s, n - 1), n);
        AtMostOne(s, o, LastEnd(s, n - 1), n);
      }
    } else {
      NoneFromText(s, o);
    }
  }

  lemma AtMostOne<K>(s: Bytes, o: Options<K>, start: nat, end: nat)
    requires start <= end <= |s|
    ensures |LineOf(s, o, start, end)| <= 1
  {
  }

  lemma NoneFromText<K>(s: Bytes, o: Options<K>)
    ensures FromText(s, o, [], 0) && Tiles<K>([], 0)
  {
  }

  lemma WholeText<K(!new)>(s: Bytes, o: Options<K>)
    ensures FromText(s, o, AllLines(s, o), |s|) && |AllLines(s, o)| <= |s|
    ensures Significant(o) ==> Tiles(AllLines(s, o), |s|)
  {
    LinesFromText(s, o, |s|);
    assert LastEnd(s, |s|) == |s|;
  }

  lemma SignificantIsTruthful<K(!new)>(left: Bytes, right: Bytes, o: Options<K>, a: seq<Line<K>>, b: seq<Line<K>>)
    requires Significant(o) && FromText(left, o, a, |left|) && FromText(right, o, b, |right|)
    ensures Truthful(left, right, a, b)
  {
  }

  // ----- compare

  /** Which hunks of lines start a coarse block. */
  function Flags(hunks: seq<Hunk>, coarse: set<Pair>): seq<bool> {
    seq(|hunks|, i requires 0 <= i < |hunks| => (hunks[i].leftStart, hunks[i].rightStart) in coarse)
  }

  lemma OneMoreHunk<K>(a: seq<Line<K>>, b: seq<Line<K>>, hunks: seq<Hunk>, h: Hunk, l: nat, r: nat, coarse: set<Pair>)
    ensures Placed(a, b, hunks + [h], l, r) == Placed(a, b, hunks, l, r) + [Place(a, b, h, l, r)]
    ensures Flags(hunks + [h], coarse) == Flags(hunks, coarse) + [(h.leftStart, h.rightStart) in coarse]
  {
  }

  lemma NoHunks<K>(a: seq<Line<K>>, b: seq<Line<K>>, pairs: seq<Pair>, l: nat, r: nat, coarse: set<Pair>)
    ensures LineHunks(Texts(a), Texts(b), pairs, 0) == [] && Placed(a, b, [], l, r) == [] && Flags([], coarse) == []
  {
  }

  lemma NextGap<T>(a: seq<T>, b: seq<T>, pairs: seq<Pair>, n: nat)
    requires n <= |pairs|
    ensures LineHunks(a, b, pairs, n + 1) ==
            LineHunks(a, b, pairs, n) + GapHunk(Next(a, b, pairs, n), Stop(a, b, pairs, n))
  {
  }

  /** The hunk loop of `compare`. */
  method HunksOf<K>(a: seq<Line<K>>, b: seq<Line<K>>, pairs: seq<Pair>, coarse: set<Pair>, l: nat, r: nat)
      returns (hunks: seq<Hunk>, flags: seq<bool>)
    requires forall k :: 0 <= k < |pairs| ==> pairs[k].0 < |a| && pairs[k].1 < |b|
    ensures var between := AllHunks(Texts(a), Texts(b), pairs);
      hunks == Placed(a, b, between, l, r) && flags == Flags(between, coarse)
  {
    hide Placed, Flags, Texts, LineHunks;
    hunks, flags := [], [];
    var x, y := 0, 0;
    ghost var between: seq<Hunk> := [];
    NoHunks(a, b, pairs, l, r, coarse);
    for n := 0 to |pairs| + 1
      invariant (x, y) == Next(Texts(a), Texts(b), pairs, n)
      invariant between == LineHunks(Texts(a), Texts(b), pairs, n)
      invariant hunks == Placed(a, b, between, l, r) && flags == Flags(between, coarse)
    {
      var (i, j) := if n < |pairs| then pairs[n] else (|a|, |b|);
      NextGap(Texts(a), Texts(b), pairs, n);
      if x < i || y < j {
        var left := if x < i then (a[x].start, a[i - 1].end) else SamePlace(if i < |a| then a[i].start else l);
        var right := if y < j then (b[y].start, b[j - 1].end) else SamePlace(if j < |b| then b[j].start else r);
        hunks := hunks + [Hunk(left.0, left.1, right.0, right.1)];
        flags := flags + [(x, y) in coarse];
        OneMoreHunk(a, b, between, Hunk(x, i, y, j), l, r, coarse);
        between := between + [Hunk(x, i, y, j)];
      } else {
        assert between + [] == between;
      }
      x, y := i + 1, j + 1;
    }
  }

  function SamePlace(at: nat): (nat, nat) { (at, at) }

  lemma {:induction false} NoHunksBetween<T>(a: seq<T>, b: seq<T>, pairs: seq<Pair>, n: nat)
    requires |a| == |b| && pairs == Diagonal(0, 0, |a|) && n <= |pairs| + 1
    ensures LineHunks(a, b, pairs, n) == []
    decreases n
  {
    if n > 0 {
      NoHunksBetween(a, b, pairs, n - 1);
    }
  }

  /** No hunk is found exactly when the lines are the same. */
  lemma NoHunksExactlyWhenSame<T>(a: seq<T>, b: seq<T>, pairs: seq<Pair>)
    requires Matching(a, b, pairs) && (a == b ==> pairs == Diagonal(0, 0, |a|))
    ensures AllHunks(a, b, pairs) == [] <==> a == b
  {
    if a == b {
      NoHunksBetween(a, b, pairs, |pairs| + 1);
    } else {
      LineScript(a, b, pairs);
      assert a[0..] == a && b[0..] == b;
    }
  }

  lemma {:induction false} GapIsListed<T>(a: seq<T>, b: seq<T>, pairs: seq<Pair>, m: nat, n: nat)
    requires m < n <= |pairs| + 1
    ensures forall h :: h in GapHunk(Next(a, b, pairs, m), Stop(a, b, pairs, m)) ==> h in LineHunks(a, b, pairs, n)
    decreases n
  {
    if m < n - 1 {
      GapIsListed(a, b, pairs, m, n - 1);
    }
  }

  /** The gap that a coarse block opens. */
  lemma GapOf<T>(a: seq<T>, b: seq<T>, pairs: seq<Pair>, c: Pair) returns (n: nat)
    requires Matching(a, b, pairs) && Opens(pairs, c) && c.0 < |a| && c.1 < |b|
    ensures n <= |pairs| && Next(a, b, pairs, n) == c
    ensures c.0 < Stop(a, b, pairs, n).0 && c.1 < Stop(a, b, pairs, n).1
  {
    if c == (0, 0) {
      n := 0;
    } else {
      n := SplitAt(a, b, pairs, (c.0 - 1, c.1 - 1));
      n := n + 1;
      assert pairs[n - 1] == (c.0 - 1, c.1 - 1);
    }
  }

  /** Every coarse block is one of the hunks. */
  lemma BlockIsFlagged<T>(a: seq<T>, b: seq<T>, pairs: seq<Pair>, coarse: set<Pair>, c: Pair)
    requires Matching(a, b, pairs) && Opens(pairs, c) && c.0 < |a| && c.1 < |b| && c in coarse
    ensures true in Flags(AllHunks(a, b, pairs), coarse)
  {
    var n := GapOf(a, b, pairs, c);
    var to := Stop(a, b, pairs, n);
    GapIsListed(a, b, pairs, n, |pairs| + 1);
    var h := Hunk(c.0, to.0, c.1, to.1);
    var hunks := AllHunks(a, b, pairs);
    assert h in GapHunk(c, to);
    var k: nat :| k < |hunks| && hunks[k] == h;
    assert Flags(hunks, coarse)[k];
  }

  lemma AnyBlockIsFlagged<T>(a: seq<T>, b: seq<T>, pairs: seq<Pair>, coarse: set<Pair>)
    requires Matching(a, b, pairs) && coarse != {}
    requires forall c :: c in coarse ==> Opens(pairs, c) && c.0 < |a| && c.1 < |b|
    ensures true in Flags(AllHunks(a, b, pairs), coarse)
  {
    var c: Pair :| c in coarse;
    BlockIsFlagged(a, b, pairs, coarse, c);
  }

  /** One cursor of `same_bytes`: what is left of its chunk, and what is behind. */
  predicate Cursor(s: Bytes, at: nat, x: Bytes, behind: Bytes) { at <= |s| && s[at..] == x + behind }

  lemma CursorStarts(chunks: seq<Bytes>)
    ensures Cursor(Flatten(chunks), 0, [], Flatten(chunks[0..]))
  {
    assert chunks[0..] == chunks;
  }

  lemma NextChunk(s: Bytes, at: nat, chunks: seq<Bytes>, i: nat)
    requires i < |chunks| && Cursor(s, at, [], Flatten(chunks[i..]))
    ensures Cursor(s, at, chunks[i], Flatten(chunks[i + 1..]))
  {
    FlattenFront(chunks, i);
  }

  lemma CursorEnds(s: Bytes, at: nat, chunks: seq<Bytes>)
    requires Cursor(s, at, [], Flatten(chunks[|chunks|..]))
    ensures at == |s|
  {
  }

  lemma CursorMoves(l: Bytes, r: Bytes, at: nat, x: Bytes, x': Bytes, y: Bytes, y': Bytes, n: nat)
    requires Cursor(l, at, x, x') && Cursor(r, at, y, y') && l[..at] == r[..at] && n <= |x| && n <= |y|
    ensures Cursor(l, at + n, x[n..], x') && Cursor(r, at + n, y[n..], y')
    ensures x[..n] == y[..n] <==> l[..at + n] == r[..at + n]
  {
    RestOf(l, at, x, x', n);
    RestOf(r, at, y, y', n);
    PrefixJoined(l, at, at + n);
    PrefixJoined(r, at, at + n);
    if l[..at + n] == r[..at + n] {
      HeadSlices(l, at, at + n);
      HeadSlices(r, at, at + n);
    }
  }

  lemma MovedIn(s: Bytes, at: nat, x: Bytes, behind: Bytes)
    requires Cursor(s, at, x, behind)
    ensures at <= |s|
  {
  }

  lemma Differ(l: Bytes, r: Bytes, n: nat)
    requires n <= |l| && n <= |r| && l[..n] != r[..n]
    ensures l != r
  {
  }

  /** An empty cursor goes on to the next chunk, if there is one. */
  method Refill(ghost s: Bytes, ghost at: nat, chunks: seq<Bytes>, x: Bytes, i: nat) returns (more: bool, x': Bytes, i': nat)
    requires i <= |chunks| && Cursor(s, at, x, Flatten(chunks[i..]))
    ensures i <= i' <= |chunks| && Cursor(s, at, x', Flatten(chunks[i'..])) && (more && x' == [] ==> i < i')
    ensures !more ==> at == |s|
  {
    hide Cursor, Flatten;
    more, x', i' := true, x, i;
    if x == [] {
      if i == |chunks| {
        CursorEnds(s, at, chunks);
        return false, x, i;
      }
      NextChunk(s, at, chunks, i);
      x', i' := chunks[i], i + 1;
    }
  }

  /** The two cursors of `same_bytes`. */
  method SameBytes(left: seq<Bytes>, right: seq<Bytes>) returns (same: bool)
    ensures same <==> Flatten(left) == Flatten(right)
  {
    hide Cursor, Flatten;
    ghost var l, r := Flatten(left), Flatten(right);
    if |Flatten(left)| != |Flatten(right)| {
      return false;
    }
    var i, j, matched := 0, 0, 0;
    var x: Bytes, y: Bytes, more := [], [], true;
    CursorStarts(left);
    CursorStarts(right);
    while true
      invariant i <= |left| && j <= |right| && matched <= |l| && l[..matched] == r[..matched]
      invariant Cursor(l, matched, x, Flatten(left[i..])) && Cursor(r, matched, y, Flatten(right[j..]))
      decreases |left| - i + |right| - j + |l| - matched
    {
      more, x, i := Refill(l, matched, left, x, i);
      if !more {
        break;
      }
      more, y, j := Refill(r, matched, right, y, j);
      if !more {
        break;
      }
      var n := if |x| <= |y| then |x| else |y|;
      CursorMoves(l, r, matched, x, Flatten(left[i..]), y, Flatten(right[j..]), n);
      MovedIn(l, matched + n, x[n..], Flatten(left[i..]));
      if x[..n] != y[..n] {
        Differ(l, r, matched + n);
        return false;
      }
      x, y, matched := x[n..], y[n..], matched + n;
    }
    same := matched == |Flatten(left)|;
    WholeTexts(l, r, matched);
  }

  lemma WholeTexts(l: Bytes, r: Bytes, n: nat)
    requires n == |l| == |r| && l[..n] == r[..n]
    ensures l == r
  {
    assert l[..n] == l && r[..n] == r;
  }

  /** Whether the time budget lets the comparison start, the caps on bytes and lines, the rounds that
      each gap gets, whether time and memory suffice for anchors and hunks, and whether time suffices
      to refine the hunks and to find moved ones. */
  datatype Limits = Limits(starts: bool, maxBytes: nat, maxLines: nat, rounds: nat -> nat, timely: bool, refined: bool)

  /** Hunks, which of them are coarse blocks, and why the comparison is not exact. */
  datatype Compared = Compared(hunks: seq<Hunk>, flags: seq<bool>, reason: Option<CoarseReason>)

  /** Nothing stops the comparison short. */
  ghost predicate Enough<K>(l: Bytes, r: Bytes, o: Options<K>, limits: Limits) {
    && limits.starts && limits.timely && limits.refined && |l| + |r| <= limits.maxBytes && (forall n :: limits.rounds(n) > |l| + |r|)
    && !LongLine(l) && !LongLine(r) && !ManyLines(l, o, limits.maxLines) && !ManyLines(r, o, limits.maxLines)
  }

  function Whole(l: nat, r: nat, reason: CoarseReason): Compared {
    Compared([Hunk(0, l, 0, r)], [true], Some(reason))
  }

  /** What a comparison has to deliver. */
  ghost predicate Delivers<K(!new)>(l: Bytes, r: Bytes, o: Options<K>, c: Compared) {
    && |c.flags| == |c.hunks| && (l != [] || r != [] ==> Apart(c.hunks, |l|, |r|))
    && (Significant(o) ==> IsScript(l, r, c.hunks))
    && (c.reason.None? ==> true !in c.flags)
    && (true !in c.flags ==> (c.hunks == [] <==> Texts(AllLines(l, o)) == Texts(AllLines(r, o))))
    && (c.reason.Some? ==> c == Whole(|l|, |r|, c.reason.value) || (c.reason == Some(OutOfBudget) && c.hunks != []))
  }

  /** The limit that keeps the lines from being aligned at all. */
  ghost predicate Limited<K>(l: Bytes, r: Bytes, o: Options<K>, limits: Limits, reason: CoarseReason) {
    match reason
    case OutOfBudget => !limits.starts || !limits.timely
    case TooManyBytes => |l| + |r| > limits.maxBytes || LongLine(l) || LongLine(r)
    case TooManyLines => ManyLines(l, o, limits.maxLines) || ManyLines(r, o, limits.maxLines)
  }

  /** The hunks are exactly what lies between the pairs of the gaps and of as many anchors as can
      be, each gap settled within its budget, and flagged where a gap was left coarse. */
  ghost predicate Aligns<K(!new)>(l: Bytes, r: Bytes, o: Options<K>, limits: Limits, c: Compared, anchors: seq<Pair>, gaps: seq<Gap>) {
    var a, b := AllLines(l, o), AllLines(r, o);
    var x, y := Texts(a), Texts(b);
    var pairs, coarse := Assembled(anchors, gaps), CoarseOf(gaps);
    var between := AllHunks(x, y, pairs);
    && LargestAnchors(x, y, anchors)
    && |gaps| == |anchors| + 1 && AllSettled(x, y, anchors, limits.rounds, gaps)
    && Matching(x, y, pairs) && Through(pairs, anchors) && (coarse == {} ==> LongestThrough(x, y, anchors, pairs))
    && c == Compared(Placed(a, b, between, |l|, |r|), Flags(between, coarse),
                     if coarse != {} || (!limits.refined && c.hunks != []) then Some(OutOfBudget) else None)
  }

  /** The whole answer of a comparison. */
  ghost predicate Answers<K(!new)>(l: Bytes, r: Bytes, o: Options<K>, limits: Limits, c: Compared) {
    if !limits.starts then c == Whole(|l|, |r|, OutOfBudget)
    else if l == r then c == Compared([], [], None)
    else if exists reason :: Limited(l, r, o, limits, reason) then
      c.reason.Some? && Limited(l, r, o, limits, c.reason.value) && c == Whole(|l|, |r|, c.reason.value)
    else exists anchors, gaps :: Aligns(l, r, o, limits, c, anchors, gaps)
  }

  lemma LimitedAnswers<K(!new)>(l: Bytes, r: Bytes, o: Options<K>, limits: Limits, reason: CoarseReason)
    requires Limited(l, r, o, limits, reason) && (!limits.starts ==> reason == OutOfBudget) && (limits.starts ==> l != r)
    ensures Answers(l, r, o, limits, Whole(|l|, |r|, reason))
  {
  }

  lemma RefusedIsLimited<K>(l: Bytes, r: Bytes, o: Options<K>, limits: Limits, reason: CoarseReason)
    requires Refused(l, o, limits.maxLines, reason) || Refused(r, o, limits.maxLines, reason)
    ensures Limited(l, r, o, limits, reason)
  {
  }

  lemma AlignedAnswers<K(!new)>(l: Bytes, r: Bytes, o: Options<K>, limits: Limits, c: Compared, anchors: seq<Pair>, gaps: seq<Gap>)
    requires limits.starts && limits.timely && l != r && |l| + |r| <= limits.maxBytes
    requires !LongLine(l) && !LongLine(r) && !ManyLines(l, o, limits.maxLines) && !ManyLines(r, o, limits.maxLines)
    requires Aligns(l, r, o, limits, c, anchors, gaps)
    ensures Answers(l, r, o, limits, c)
  {
  }

  lemma WholeIsScript(l: Bytes, r: Bytes)
    ensures IsScript(l, r, [Hunk(0, |l|, 0, |r|)])
  {
    var hunks := [Hunk(0, |l|, 0, |r|)];
    assert hunks[1..] == [];
    assert Aligned(l, r, hunks[1..], |l|, |r|);
  }

  lemma WholeDelivers<K(!new)>(l: Bytes, r: Bytes, o: Options<K>, reason: CoarseReason)
    ensures Delivers(l, r, o, Whole(|l|, |r|, reason))
  {
    WholeIsScript(l, r);
  }

  lemma SameDelivers<K(!new)>(l: Bytes, r: Bytes, o: Options<K>)
    requires l == r
    ensures Delivers(l, r, o, Compared([], [], None))
  {
  }

  /** The hunks of the aligned lines deliver. */
  lemma LinesDeliver<K(!new)>(l: Bytes, r: Bytes, o: Options<K>, pairs: seq<Pair>, coarse: set<Pair>, c: Compared)
    requires var a, b := AllLines(l, o), AllLines(r, o); var between := AllHunks(Texts(a), Texts(b), pairs);
      && Matching(Texts(a), Texts(b), pairs)
      && (Texts(a) == Texts(b) ==> pairs == Diagonal(0, 0, |a|))
      && (forall p :: p in coarse ==> Opens(pairs, p) && p.0 < |a| && p.1 < |b|)
      && c == Compared(Placed(a, b, between, |l|, |r|), Flags(between, coarse), c.reason)
      && (c.reason == None || (c.reason == Some(OutOfBudget) && c.hunks != [])) && (coarse != {} ==> c.reason.Some?)
    ensures Delivers(l, r, o, c) && (coarse != {} <==> true in c.flags)
  {
    hide IsScript, Aligned, Matching, Apart, Tiles, FromText, Truthful, Significant, AllLines, LineHunks, Place, Opens;
    var a, b := AllLines(l, o), AllLines(r, o);
    var x, y := Texts(a), Texts(b);
    WholeText(l, o);
    WholeText(r, o);
    LineHunksApart(x, y, pairs, |pairs| + 1);
    FromTextAscends(l, o, a);
    FromTextAscends(r, o, b);
    PlacedApart(a, b, AllHunks(x, y, pairs), |l|, |r|);
    NoHunksExactlyWhenSame(x, y, pairs);
    if Significant(o) {
      SignificantIsTruthful(l, r, o, a, b);
      LineScript(x, y, pairs);
      BytesAreScript(l, r, a, b, AllHunks(x, y, pairs));
    }
    if coarse != {} {
      AnyBlockIsFlagged(x, y, pairs, coarse);
    } else {
      assert true !in Flags(AllHunks(x, y, pairs), coarse);
    }
  }

  lemma FromTextAscends<K>(s: Bytes, o: Options<K>, lines: seq<Line<K>>)
    requires FromText(s, o, lines, |s|)
    ensures Ascending(lines, |s|)
  {
  }

  lemma BytesAreScript<K>(left: Bytes, right: Bytes, a: seq<Line<K>>, b: seq<Line<K>>, hunks: seq<Hunk>)
    requires Tiles(a, |left|) && Tiles(b, |right|) && Truthful(left, right, a, b) && IsScript(Texts(a), Texts(b), hunks)
    ensures IsScript(left, right, Placed(a, b, hunks, |left|, |right|))
  {
    BytesFollowLines(left, right, a, b, hunks, 0, 0);
  }

  /** `compare`: nothing for the same bytes, one coarse hunk where a limit is met outside the gaps (even
      for the same bytes when time is up at once), and otherwise the hunks between the aligned lines. */
  method Compare<K(!new, ==)>(left: seq<Bytes>, right: seq<Bytes>, o: Options<K>, limits: Limits) returns (c: Compared)
    ensures Answers(Flatten(left), Flatten(right), o, limits, c)
    ensures Delivers(Flatten(left), Flatten(right), o, c)
    ensures Enough(Flatten(left), Flatten(right), o, limits) ==> c.reason.None?
    ensures c.reason.Some? && limits.refined ==> true in c.flags
  {
    hide Delivers, Answers, Limited, Matching, AllLines, LineHunks, Place, Opens, LongLine, ManyLines, SharedOnly, Refused;
    ghost var l, r := Flatten(left), Flatten(right);
    var ll, rl := |Flatten(left)|, |Flatten(right)|;
    if !limits.starts {
      c := WholeBlock(l, r, o, limits, ll, rl, OutOfBudget);
      return;
    }
    var same := SameBytes(left, right);
    if same {
      SameDelivers(l, r, o);
      SameAnswers(l, r, o, limits);
      return Compared([], [], None);
    }
    if ll + rl > limits.maxBytes {
      c := WholeBlock(l, r, o, limits, ll, rl, TooManyBytes);
      return;
    }
    var a := SplitLines(left, o, limits.maxLines);
    if a.Err? {
      RefusedIsLimited(l, r, o, limits, a.error);
      c := WholeBlock(l, r, o, limits, ll, rl, a.error);
      return;
    }
    var b := SplitLines(right, o, limits.maxLines);
    if b.Err? {
      RefusedIsLimited(l, r, o, limits, b.error);
      c := WholeBlock(l, r, o, limits, ll, rl, b.error);
      return;
    }
    if !limits.timely {
      c := WholeBlock(l, r, o, limits, ll, rl, OutOfBudget);
      return;
    }
    c := CompareLines(l, r, o, limits, a.value, b.value, ll, rl);
  }

  lemma SameAnswers<K(!new)>(l: Bytes, r: Bytes, o: Options<K>, limits: Limits)
    requires limits.starts && l == r
    ensures Answers(l, r, o, limits, Compared([], [], None))
  {
  }

  lemma BudgetLimits<K>(l: Bytes, r: Bytes, o: Options<K>, limits: Limits)
    ensures !limits.starts || !limits.timely ==> Limited(l, r, o, limits, OutOfBudget)
    ensures |l| + |r| > limits.maxBytes ==> Limited(l, r, o, limits, TooManyBytes)
  {
  }

  lemma EnoughIsNotLimited<K>(l: Bytes, r: Bytes, o: Options<K>, limits: Limits, reason: CoarseReason)
    requires Limited(l, r, o, limits, reason)
    ensures !Enough(l, r, o, limits)
  {
  }

  /** The two texts as one coarse hunk. */
  method WholeBlock<K(!new)>(ghost l: Bytes, ghost r: Bytes, ghost o: Options<K>, ghost limits: Limits, ll: nat, rl: nat,
                            reason: CoarseReason)
      returns (c: Compared)
    requires ll == |l| && rl == |r| && (!limits.starts ==> reason == OutOfBudget) && (limits.starts ==> l != r)
    requires Limited(l, r, o, limits, reason)
          || (reason == OutOfBudget && (!limits.starts || !limits.timely)) || (reason == TooManyBytes && ll + rl > limits.maxBytes)
    ensures Answers(l, r, o, limits, c) && Delivers(l, r, o, c) && c.reason.Some? && true in c.flags && !Enough(l, r, o, limits)
  {
    hide Delivers, Answers, Limited, Enough;
    BudgetLimits(l, r, o, limits);
    WholeDelivers(l, r, o, reason);
    LimitedAnswers(l, r, o, limits, reason);
    EnoughIsNotLimited(l, r, o, limits, reason);
    c := Whole(ll, rl, reason);
    assert c.flags[0];
  }

  /** The hunks between the aligned lines. */
  method CompareLines<K(!new, ==)>(ghost l: Bytes, ghost r: Bytes, ghost o: Options<K>, limits: Limits,
                                   a: seq<Line<K>>, b: seq<Line<K>>, ll: nat, rl: nat)
      returns (c: Compared)
    requires a == AllLines(l, o) && b == AllLines(r, o) && ll == |l| && rl == |r|
    requires limits.starts && limits.timely && l != r && |l| + |r| <= limits.maxBytes
    requires !LongLine(l) && !LongLine(r) && !ManyLines(l, o, limits.maxLines) && !ManyLines(r, o, limits.maxLines)
    ensures Answers(l, r, o, limits, c) && Delivers(l, r, o, c)
    ensures Enough(l, r, o, limits) ==> c.reason.None?
    ensures c.reason.Some? && limits.refined ==> true in c.flags
  {
    hide Delivers, Answers, Limited, Matching, AllLines, LineHunks, Place, Opens, LongLine, ManyLines, SharedOnly,
      LargestAnchors, AllSettled, Assembled, CoarseOf, Through, LongestThrough;
    var pairs, coarse, anchors, gaps := Anchored(Texts(a), Texts(b), limits.rounds);
    WholeText(l, o);
    WholeText(r, o);
    WholeInside(Texts(a), Texts(b), pairs);
    var hunks, flags := HunksOf(a, b, pairs, coarse, ll, rl);
    c := Compared(hunks, flags, if coarse != {} || (!limits.refined && hunks != []) then Some(OutOfBudget) else None);
    if coarse != {} {
      AnyBlockIsFlagged(Texts(a), Texts(b), pairs, coarse);
    }
    LinesDeliver(l, r, o, pairs, coarse, c);
    AlignedAnswers(l, r, o, limits, c, anchors, gaps);
  }
}
