/** Line endings: CR, LF and CRLF each end a line. Conversion between them, and the line and
    column of an offset before and after. */
module LineEndings {
  import opened Slices
  import opened Wrappers
  import opened Utf8

  type Bytes = seq<byte>

  const CR: byte := 13
  const LF: byte := 10

  predicate IsBreak(b: byte) { b == CR || b == LF }

  predicate BreakFree(s: Bytes) { forall i :: 0 <= i < |s| ==> !IsBreak(s[i]) }

  /** The three line endings a document can have. */
  predicate IsEol(eol: Bytes) { eol == [LF] || eol == [CR, LF] || eol == [CR] }

  /** Bytes of the line break at an offset, 0 when there is none. */
  function WidthAt(s: Bytes, at: nat): (w: nat)
    requires at <= |s|
    ensures at + w <= |s| && w <= 2
  {
    if at == |s| || !IsBreak(s[at]) then 0
    else if s[at] == CR && at + 1 < |s| && s[at + 1] == LF then 2
    else 1
  }

  function BreakWidth(s: Bytes): nat { WidthAt(s, 0) }

  function BreakFrom(s: Bytes, at: nat): (n: nat)
    requires at <= |s|
    ensures at <= n <= |s| && (n < |s| ==> IsBreak(s[n])) && forall i :: at <= i < n ==> !IsBreak(s[i])
    decreases |s| - at
  {
    if at == |s| || IsBreak(s[at]) then at else BreakFrom(s, at + 1)
  }

  /** Length of the stretch in front of the first break. */
  function FirstBreak(s: Bytes): (n: nat)
    ensures n <= |s| && (n < |s| ==> IsBreak(s[n])) && forall i :: 0 <= i < n ==> !IsBreak(s[i])
  {
    BreakFrom(s, 0)
  }

  function LinesFrom(s: Bytes, at: nat): (lines: seq<Bytes>)
    requires at <= |s|
    ensures |lines| >= 1
    decreases |s| - at
  {
    var n := BreakFrom(s, at);
    if n == |s| then [s[at..]] else [s[at..n]] + LinesFrom(s, n + WidthAt(s, n))
  }

  /** The lines of a text, without their breaks. The last one has none. */
  function Lines(s: Bytes): (lines: seq<Bytes>)
    ensures |lines| >= 1
  {
    LinesFrom(s, 0)
  }

  lemma {:induction false} BreakOfTail(s: Bytes, tail: Bytes, k: nat, at: nat)
    requires k <= at <= |s| && tail == s[k..]
    ensures BreakFrom(tail, at - k) == BreakFrom(s, at) - k
    decreases |s| - at
  {
    if at < |s| && !IsBreak(s[at]) {
      BreakOfTail(s, tail, k, at + 1);
    }
  }

  lemma WidthOfTail(s: Bytes, tail: Bytes, k: nat, at: nat)
    requires k <= at <= |s| && tail == s[k..]
    ensures WidthAt(tail, at - k) == WidthAt(s, at)
  {
  }

  lemma LastOfTail(s: Bytes, tail: Bytes, k: nat, at: nat)
    requires k <= at <= |s| && tail == s[k..] && BreakFrom(s, at) == |s| && BreakFrom(tail, at - k) == |tail|
    ensures LinesFrom(s, at) == LinesFrom(tail, at - k)
  {
    hide BreakFrom;
    TailSlices(s, k, at);
  }

  lemma StepOfTail(s: Bytes, tail: Bytes, k: nat, at: nat, n: nat, next: nat)
    requires k <= at <= n < next <= |s| && tail == s[k..] && BreakFrom(s, at) == n && BreakFrom(tail, at - k) == n - k
    requires next == n + WidthAt(s, n) && LinesFrom(s, next) == LinesFrom(tail, next - k)
    ensures LinesFrom(s, at) == LinesFrom(tail, at - k)
  {
    hide BreakFrom, LinesFrom;
    SliceOfTail(s, k, at, n);
    WidthOfTail(s, tail, k, n);
    SameStep(s, at, tail, at - k, s[at..n], LinesFrom(s, next));
  }

  /** The lines from an offset on are the lines of the text from there on. */
  lemma {:induction false} LinesOfTail(s: Bytes, tail: Bytes, k: nat, at: nat)
    requires k <= at <= |s| && tail == s[k..]
    ensures LinesFrom(s, at) == LinesFrom(tail, at - k)
    decreases |s| - at
  {
    hide LinesFrom, BreakFrom;
    BreakOfTail(s, tail, k, at);
    var n := BreakFrom(s, at);
    if n < |s| {
      var next := n + WidthAt(s, n);
      LinesOfTail(s, tail, k, next);
      StepOfTail(s, tail, k, at, n, next);
    } else {
      LastOfTail(s, tail, k, at);
    }
  }

  lemma SameStep(s: Bytes, i: nat, t: Bytes, j: nat, line: Bytes, rest: seq<Bytes>)
    requires i <= |s| && j <= |t|
    requires BreakFrom(s, i) < |s| && BreakFrom(t, j) < |t|
    requires s[i..BreakFrom(s, i)] == line == t[j..BreakFrom(t, j)]
    requires LinesFrom(s, BreakFrom(s, i) + WidthAt(s, BreakFrom(s, i))) == rest
    requires LinesFrom(t, BreakFrom(t, j) + WidthAt(t, BreakFrom(t, j))) == rest
    ensures LinesFrom(s, i) == [line] + rest == LinesFrom(t, j)
  {
  }

  lemma LinesFront(s: Bytes)
    ensures var n := FirstBreak(s);
      Lines(s) == if n == |s| then [s] else [s[..n]] + Lines(s[n + WidthAt(s, n)..])
  {
    var n := FirstBreak(s);
    if n < |s| {
      var next := n + WidthAt(s, n);
      LinesOfTail(s, s[next..], next, next);
      SameStep(s, 0, s, 0, s[..n], LinesFrom(s, next));
    } else {
      assert s[0..] == s;
    }
  }

  function Join(lines: seq<Bytes>, eol: Bytes): Bytes
    requires |lines| >= 1
    decreases |lines|
  {
    if |lines| == 1 then lines[0] else lines[0] + eol + Join(lines[1..], eol)
  }

  /** What conversion has to produce: each break replaced. */
  function Normalized(s: Bytes, eol: Bytes): Bytes
    decreases |s|
  {
    if s == [] then []
    else
      var w := BreakWidth(s);
      if w == 0 then [s[0]] + Normalized(s[1..], eol) else eol + Normalized(s[w..], eol)
  }

  // ----- normalize_eol

  lemma {:induction false} BreakFreeStays(a: Bytes, b: Bytes, eol: Bytes)
    requires BreakFree(a)
    ensures Normalized(a + b, eol) == a + Normalized(b, eol)
    decreases |a|
  {
    if a == [] {
      assert a + b == b;
    } else {
      assert (a + b)[0] == a[0] && (a + b)[1..] == a[1..] + b;
      BreakFreeStays(a[1..], b, eol);
      assert a == [a[0]] + a[1..];
    }
  }

  /** Conversion of a break and what follows it. */
  lemma NormalizedBreak(tail: Bytes, rest: Bytes, w: nat, eol: Bytes)
    requires tail != [] && IsBreak(tail[0]) && w == WidthAt(tail, 0) && rest == tail[w..]
    ensures Normalized(tail, eol) == eol + Normalized(rest, eol)
  {
  }

  /** Conversion up to and including the first break. */
  lemma NormalizedFront(s: Bytes, eol: Bytes)
    ensures var n := FirstBreak(s);
      Normalized(s, eol) ==
      if n == |s| then s else s[..n] + eol + Normalized(s[n + WidthAt(s, n)..], eol)
  {
    hide Normalized, WidthAt, IsBreak;
    var n := FirstBreak(s);
    var head, tail := s[..n], s[n..];
    assert s == head + tail;
    BreakFreeStays(head, tail, eol);
    if n < |s| {
      var w := WidthAt(s, n);
      TailSlices(s, n, n + w);
      WidthOfTail(s, tail, n, n);
      NormalizedBreak(tail, s[n + w..], w, eol);
      ConcatAssociates(head, eol, Normalized(s[n + w..], eol));
    } else {
      NothingNormalized(tail, eol);
    }
  }

  lemma NothingNormalized(s: Bytes, eol: Bytes)
    requires s == []
    ensures Normalized(s, eol) == []
  {
  }

  method FindBreak(rest: Bytes) returns (index: Option<nat>)
    ensures index == if FirstBreak(rest) == |rest| then None else Some(FirstBreak(rest))
  {
    var at := 0;
    while at < |rest|
      invariant at <= |rest| && BreakFree(rest[..at])
    {
      if IsBreak(rest[at]) {
        FirstBreakIs(rest, at);
        return Some(at);
      }
      assert rest[..at + 1] == rest[..at] + [rest[at]];
      at := at + 1;
    }
    FirstBreakIs(rest, |rest|);
    return None;
  }

  lemma FirstBreakIs(s: Bytes, n: nat)
    requires n <= |s| && BreakFree(s[..n]) && (n < |s| ==> IsBreak(s[n]))
    ensures FirstBreak(s) == n
  {
  }

  /** The loop of `normalize_eol`: copy up to the next break, write the line ending, go on behind it. */
  lemma WidthOfBreak(s: Bytes, n: nat)
    requires n < |s| && n == FirstBreak(s)
    ensures WidthAt(s, n) == if s[n] == CR && n + 1 < |s| && s[n + 1] == LF then 2 else 1
  {
  }

  method NormalizeEol(text: Bytes, eol: Bytes) returns (output: Bytes)
    ensures output == Normalized(text, eol)
  {
    hide Normalized, FirstBreak, IsBreak;
    output := [];
    var rest := text;
    var index := FindBreak(rest);
    assert output + Normalized(rest, eol) == Normalized(text, eol);
    while index.Some?
      invariant index == if FirstBreak(rest) == |rest| then None else Some(FirstBreak(rest))
      invariant output + Normalized(rest, eol) == Normalized(text, eol)
      decreases |rest|
    {
      var n := index.value;
      var width := if rest[n] == CR && n + 1 < |rest| && rest[n + 1] == LF then 2 else 1;
      NormalizedFront(rest, eol);
      WidthOfBreak(rest, n);
      ConcatAssociates(output, rest[..n] + eol, Normalized(rest[n + width..], eol));
      output := output + (rest[..n] + eol);
      rest := rest[n + width..];
      index := FindBreak(rest);
    }
    NormalizedFront(rest, eol);
    output := output + rest;
  }

  // ----- lines are kept

  predicate AllBreakFree(lines: seq<Bytes>) { forall i :: 0 <= i < |lines| ==> BreakFree(lines[i]) }

  lemma {:induction false} LinesAreBreakFree(s: Bytes)
    ensures AllBreakFree(Lines(s))
    decreases |s|
  {
    LinesFront(s);
    var n := FirstBreak(s);
    if n < |s| {
      LinesAreBreakFree(s[n + WidthAt(s, n)..]);
    }
  }

  /** Conversion is joining the lines with the new ending. */
  lemma {:induction false} NormalizedIsJoin(s: Bytes, eol: Bytes)
    ensures Normalized(s, eol) == Join(Lines(s), eol)
    decreases |s|
  {
    NormalizedFront(s, eol);
    LinesFront(s);
    var n := FirstBreak(s);
    if n < |s| {
      var rest := s[n + WidthAt(s, n)..];
      NormalizedIsJoin(rest, eol);
      var lines := Lines(s);
      assert lines[0] == s[..n] && lines[1..] == Lines(rest);
    }
  }

  lemma JoinStart(lines: seq<Bytes>, eol: Bytes)
    requires |lines| >= 1 && AllBreakFree(lines) && IsEol(eol)
    ensures var j := Join(lines, eol); eol == [CR] && j != [] ==> j[0] != LF
  {
  }

  lemma LineInFront(line: Bytes, eol: Bytes, rest: Bytes)
    requires BreakFree(line) && IsEol(eol) && (eol == [CR] && rest != [] ==> rest[0] != LF)
    ensures Lines(line + eol + rest) == [line] + Lines(rest)
  {
    var s := line + eol + rest;
    var n := |line|;
    assert s[..n] == line && s[n] == eol[0];
    FirstBreakIs(s, n);
    assert WidthAt(s, n) == |eol|;
    assert s[n + |eol|..] == rest;
    LinesFront(s);
  }

  lemma LinesOfOne(line: Bytes)
    requires BreakFree(line)
    ensures Lines(line) == [line]
  {
    assert line[..|line|] == line;
    FirstBreakIs(line, |line|);
    LinesFront(line);
  }

  /** Break-free lines joined with any of the three endings are read back as they were. */
  lemma {:induction false} LinesOfJoin(lines: seq<Bytes>, eol: Bytes)
    requires |lines| >= 1 && AllBreakFree(lines) && IsEol(eol)
    ensures Lines(Join(lines, eol)) == lines
    decreases |lines|
  {
    if |lines| == 1 {
      LinesOfOne(lines[0]);
      Uncons(lines);
    } else {
      Uncons(lines);
      LinesOfJoin(lines[1..], eol);
      JoinStart(lines[1..], eol);
      LineInFront(lines[0], eol, Join(lines[1..], eol));
    }
  }

  /** Conversion keeps every line of every text. */
  lemma LinesKept(s: Bytes, eol: Bytes)
    requires IsEol(eol)
    ensures Lines(Normalized(s, eol)) == Lines(s)
  {
    NormalizedIsJoin(s, eol);
    LinesAreBreakFree(s);
    LinesOfJoin(Lines(s), eol);
  }

  /** Of two conversions only the last one shows. */
  lemma LastConversionWins(s: Bytes, first: Bytes, last: Bytes)
    requires IsEol(first)
    ensures Normalized(Normalized(s, first), last) == Normalized(s, last)
  {
    LinesKept(s, first);
    NormalizedIsJoin(s, last);
    NormalizedIsJoin(Normalized(s, first), last);
  }

  /** Two texts convert to the same text exactly when they have the same lines. */
  lemma SameLinesSameText(s: Bytes, t: Bytes, eol: Bytes)
    requires IsEol(eol)
    ensures Normalized(s, eol) == Normalized(t, eol) <==> Lines(s) == Lines(t)
  {
    LinesKept(s, eol);
    LinesKept(t, eol);
    NormalizedIsJoin(s, eol);
    NormalizedIsJoin(t, eol);
  }

  // ----- well-formed text stays well formed

  /** A scalar of more than one byte holds no break. */
  lemma ScalarIsBreakFree(s: Bytes)
    requires Width(s) > 1
    ensures Width(s) <= |s| && BreakFree(s[..Width(s)])
  {
  }

  lemma {:induction false} NormalizedWellFormed(s: Bytes, eol: Bytes)
    requires WellFormed(s) && WellFormed(eol)
    ensures WellFormed(Normalized(s, eol))
    decreases |s|
  {
    if s != [] {
      var w := BreakWidth(s);
      if w == 0 {
        var n := Width(s);
        WidthIsLocal(s, []);
        assert BreakFree(s[..n]) by {
          if n > 1 {
            ScalarIsBreakFree(s);
          }
        }
        assert s == s[..n] + s[n..];
        BreakFreeStays(s[..n], s[n..], eol);
        NormalizedWellFormed(s[n..], eol);
        OneScalar(s);
        ConcatWellFormed(s[..n], Normalized(s[n..], eol));
      } else {
        AfterAscii(s, w);
        NormalizedWellFormed(s[w..], eol);
        ConcatWellFormed(eol, Normalized(s[w..], eol));
      }
    }
  }

  lemma OneScalar(s: Bytes)
    requires Width(s) > 0
    ensures Width(s) <= |s| && WellFormed(s[..Width(s)])
  {
    WidthIsLocal(s, []);
    assert s[..Width(s)][Width(s)..] == [];
  }

  lemma AfterAscii(s: Bytes, w: nat)
    requires WellFormed(s) && 1 <= w <= 2 && w <= |s| && s[0] < 0x80 && (w == 2 ==> s[1] < 0x80)
    ensures WellFormed(s[w..])
  {
    if w == 2 {
      assert s[1..][0] == s[1] && s[1..][1..] == s[2..];
    }
  }

  /** A well-formed part in front ends on a boundary. */
  lemma {:induction false} PrefixBoundary(s: Bytes, front: Bytes)
    requires WellFormed(s) && WellFormed(front) && front <= s
    ensures Boundary(s, |front|)
    decreases |s|
  {
    if front != [] && |front| < |s| {
      var n := Width(front);
      WidthIsLocal(front, s[|front|..]);
      assert front + s[|front|..] == s;
      PrefixBoundary(s[n..], front[n..]);
    } else if s != [] {
      BoundarySplits(s, |front|);
      assert s[..0] == [] && s[0..] == s;
    }
  }

  // ----- line_column

  /** Characters of a text: the bytes that start one. */
  function Chars(s: Bytes): nat {
    if s == [] then 0 else (if Continuation(s[0]) then 0 else 1) + Chars(s[1..])
  }

  lemma {:induction false} CharsConcat(a: Bytes, b: Bytes)
    ensures Chars(a + b) == Chars(a) + Chars(b)
    decreases |a|
  {
    if a == [] {
      assert a + b == b;
    } else {
      assert (a + b)[1..] == a[1..] + b;
      CharsConcat(a[1..], b);
    }
  }

  /** On well-formed text that counts the scalars. */
  lemma {:induction false} CharsAreScalars(s: Bytes)
    requires WellFormed(s)
    ensures Chars(s) == Scalars(s)
    decreases |s|
  {
    if s != [] {
      var n := Width(s);
      WidthIsLocal(s, []);
      OneChar(s);
      assert s == s[..n] + s[n..];
      CharsConcat(s[..n], s[n..]);
      CharsAreScalars(s[n..]);
    }
  }

  lemma OneChar(s: Bytes)
    requires Width(s) > 0
    ensures Width(s) <= |s| && Chars(s[..Width(s)]) == 1
  {
    var n := Width(s);
    var front := s[..n];
    assert forall i :: 1 <= i < n ==> Continuation(front[i]);
    TailHasNoChars(front[1..]);
  }

  lemma {:induction false} TailHasNoChars(s: Bytes)
    requires forall i :: 0 <= i < |s| ==> Continuation(s[i])
    ensures Chars(s) == 0
    decreases |s|
  {
    if s != [] {
      TailHasNoChars(s[1..]);
    }
  }

  /** The number of the last of some lines that start on line `line`, and that line. */
  function Last(lines: seq<Bytes>, line: nat): (nat, Bytes)
    requires |lines| >= 1 && line >= 1
  {
    (line - 1 + |lines|, lines[|lines| - 1])
  }

  /** Where a text ends: one-based line, one-based column in characters. */
  function End(before: Bytes): (nat, nat) {
    var (line, rest) := Last(Lines(before), 1);
    (line, Chars(rest) + 1)
  }

  function Floor(text: Bytes, offset: nat): (at: nat)
    ensures at <= offset && at <= |text|
    decreases offset
  {
    if offset > |text| then |text|
    else if Boundary(text, offset) || offset == 0 then offset
    else Floor(text, offset - 1)
  }

  method FloorBoundary(text: Bytes, offset: nat) returns (at: nat)
    requires WellFormed(text)
    ensures at == Floor(text, offset) && Boundary(text, at)
    ensures offset <= |text| ==> offset - at <= 3
  {
    at := if offset <= |text| then offset else |text|;
    ghost var below, above := BoundaryNear(text, at);
    while !Boundary(text, at)
      invariant below <= at <= offset && at <= |text| && Floor(text, at) == Floor(text, offset)
      decreases at
    {
      at := at - 1;
    }
  }

  lemma LastOfCons(first: Bytes, lines: seq<Bytes>, line: nat)
    requires |lines| >= 1 && line >= 1
    ensures Last([first] + lines, line) == Last(lines, line + 1)
  {
  }

  /** The loop of `line_column` stands at `index`, on line `line` which began at `start`. */
  ghost predicate At(before: Bytes, total: (nat, Bytes), line: nat, start: nat, index: nat) {
    && line >= 1 && start <= index <= |before| && BreakFrom(before, index) == BreakFrom(before, start)
    && Last(LinesFrom(before, start), line) == total
  }

  lemma PassByte(before: Bytes, total: (nat, Bytes), line: nat, start: nat, index: nat)
    requires At(before, total, line, start, index) && index < |before| && !IsBreak(before[index])
    ensures At(before, total, line, start, index + 1)
  {
  }

  /** One break further, one line further. */
  lemma PassBreak(before: Bytes, total: (nat, Bytes), line: nat, start: nat, index: nat)
    requires At(before, total, line, start, index) && index < |before| && IsBreak(before[index])
    ensures var next := index + WidthAt(before, index); At(before, total, line + 1, next, next)
  {
    var next := index + WidthAt(before, index);
    LastOfCons(before[start..index], LinesFrom(before, next), line);
  }

  lemma AtStart(before: Bytes)
    ensures At(before, Last(Lines(before), 1), 1, 0, 0)
  {
  }

  lemma AtEnd(before: Bytes, total: (nat, Bytes), line: nat, start: nat)
    requires At(before, total, line, start, |before|)
    ensures start <= |before| && (line, before[start..]) == total
  {
  }

  lemma BreakAt(before: Bytes, from: nat, index: nat)
    requires from <= index < |before| && IsBreak(before[index])
    requires index == if before[from] == CR && from + 1 < |before| && before[from + 1] == LF then from + 1 else from
    ensures IsBreak(before[from]) && from + WidthAt(before, from) == index + 1
  {
  }

  lemma BreakAfter(before: Bytes, at: nat)
    requires at < |before|
    ensures before[at] == CR && at + 1 < |before| && before[at + 1] == LF ==> IsBreak(before[at + 1])
  {
  }

  /** The loop of `line_column`: the line number and where the last line starts. */
  method CountLines(before: Bytes) returns (line: nat, start: nat)
    ensures start <= |before| && (line, before[start..]) == Last(Lines(before), 1)
  {
    hide At, Lines, LinesFrom, IsBreak, WidthAt, Last;
    line, start := 1, 0;
    var index := 0;
    ghost var total := Last(Lines(before), 1);
    AtStart(before);
    while index < |before|
      invariant index <= |before| && At(before, total, line, start, index)
      decreases |before| - index
    {
      ghost var from := index;
      if before[index] == CR && index + 1 < |before| && before[index + 1] == LF {
        index := index + 1;
      }
      if IsBreak(before[index]) {
        BreakAt(before, from, index);
        PassBreak(before, total, line, start, from);
        line := line + 1;
        start := index + 1;
      } else {
        BreakAfter(before, from);
        PassByte(before, total, line, start, from);
      }
      index := index + 1;
    }
    AtEnd(before, total, line, start);
  }

  method LineColumn(text: Bytes, offset: nat) returns (line: nat, column: nat)
    requires WellFormed(text)
    ensures (line, column) == End(text[..Floor(text, offset)])
  {
    var at := FloorBoundary(text, offset);
    var start;
    line, start := CountLines(text[..at]);
    column := Chars(text[..at][start..]) + 1;
  }

  // ----- positions survive conversion

  lemma NormalizedStep(s: Bytes, eol: Bytes)
    requires s != []
    ensures var w := BreakWidth(s);
      w <= |s| && Normalized(s, eol) == if w == 0 then [s[0]] + Normalized(s[1..], eol) else eol + Normalized(s[w..], eol)
  {
  }

  /** The break at the start of a prefix: the same, or the CR of a divided CRLF. */
  lemma WidthOfPrefix(s: Bytes, i: nat)
    requires 0 < i <= |s|
    ensures var w, v := BreakWidth(s), BreakWidth(s[..i]); v == if i < w then i else w
  {
  }

  lemma SamePrefix(front: Bytes, a: Bytes, b: Bytes)
    requires a <= b
    ensures front + a <= front + b
  {
  }

  /** Conversion of a prefix is a prefix of the conversion, even where the cut divides a CRLF. */
  lemma {:induction false} PrefixConverts(s: Bytes, i: nat, eol: Bytes)
    requires i <= |s|
    ensures Normalized(s[..i], eol) <= Normalized(s, eol)
    decreases |s|
  {
    hide Normalized, BreakWidth;
    if s != [] && i > 0 {
      var w := BreakWidth(s);
      NormalizedStep(s, eol);
      NormalizedStep(s[..i], eol);
      WidthOfPrefix(s, i);
      if w == 0 {
        PrefixConverts(s[1..], i - 1, eol);
        assert s[..i][1..] == s[1..][..i - 1];
        SamePrefix([s[0]], Normalized(s[..i][1..], eol), Normalized(s[1..], eol));
      } else {
        var v := if i < w then i else w;
        if i < w {
          assert s[..i][v..] == [];
          NothingNormalized([], eol);
        } else {
          PrefixConverts(s[w..], i - w, eol);
          assert s[..i][w..] == s[w..][..i - w];
        }
        SamePrefix(eol, Normalized(s[..i][v..], eol), Normalized(s[w..], eol));
      }
    } else {
      assert s[..i] == [];
      NothingNormalized(s[..i], eol);
    }
  }

  /** The offset where an offset of the text lies after conversion. */
  function Converted(text: Bytes, offset: nat, eol: Bytes): nat {
    |Normalized(text[..Floor(text, offset)], eol)|
  }

  lemma {:induction false} FloorIsBoundary(text: Bytes, offset: nat)
    requires WellFormed(text)
    ensures Boundary(text, Floor(text, offset))
    decreases offset
  {
    if offset == 0 {
      BoundarySplits(text, 0);
      assert text[..0] == [] && text[0..] == text;
    } else if offset <= |text| && !Boundary(text, offset) {
      FloorIsBoundary(text, offset - 1);
    }
  }

  lemma ConvertedPrefix(text: Bytes, at: nat, eol: Bytes)
    requires WellFormed(text) && at <= |text| && Boundary(text, at) && IsEol(eol)
    ensures var before, converted := Normalized(text[..at], eol), Normalized(text, eol);
      WellFormed(converted) && before <= converted && Boundary(converted, |before|)
  {
    RangeWellFormed(text, at, at);
    EolWellFormed(eol);
    NormalizedWellFormed(text, eol);
    NormalizedWellFormed(text[..at], eol);
    PrefixConverts(text, at, eol);
    PrefixBoundary(Normalized(text, eol), Normalized(text[..at], eol));
  }

  /** Line and column are the same before and after conversion, at every offset of every
      well-formed text. */
  lemma PositionSurvives(text: Bytes, offset: nat, eol: Bytes)
    requires WellFormed(text) && IsEol(eol)
    ensures var converted := Normalized(text, eol);
      && WellFormed(converted) && Converted(text, offset, eol) <= |converted|
      && Boundary(converted, Converted(text, offset, eol))
      && End(converted[..Floor(converted, Converted(text, offset, eol))]) == End(text[..Floor(text, offset)])
  {
    var at := Floor(text, offset);
    FloorIsBoundary(text, offset);
    ConvertedPrefix(text, at, eol);
    SameEnd(text[..at], Normalized(text, eol), eol);
  }

  lemma SameEnd(before: Bytes, converted: Bytes, eol: Bytes)
    requires IsEol(eol) && Normalized(before, eol) <= converted && Boundary(converted, |Normalized(before, eol)|)
    ensures End(converted[..Floor(converted, |Normalized(before, eol)|)]) == End(before)
  {
    LinesKept(before, eol);
    assert converted[..|Normalized(before, eol)|] == Normalized(before, eol);
  }

  lemma EolWellFormed(eol: Bytes)
    requires IsEol(eol)
    ensures WellFormed(eol)
  {
    assert eol[1..] == [] || eol[1..] == [LF];
  }

  // ----- detect_eol and trailing_break

  /** The ending of the first line, if it has one. */
  function DetectEol(s: Bytes): Option<Bytes> {
    var n := FirstBreak(s);
    if n == |s| then None
    else if s[n] == CR && n + 1 < |s| && s[n + 1] == LF then Some([CR, LF])
    else if s[n] == CR then Some([CR])
    else Some([LF])
  }

  function TrailingBreak(s: Bytes): Option<Bytes> {
    if |s| >= 2 && s[|s| - 2..] == [CR, LF] then Some([CR, LF])
    else if s != [] && s[|s| - 1] == LF then Some([LF])
    else if s != [] && s[|s| - 1] == CR then Some([CR])
    else None
  }

  /** A line break stands at an offset: CR and LF together where both are there. */
  predicate StandsAt(s: Bytes, n: nat, eol: Bytes) {
    && IsEol(eol) && n + |eol| <= |s| && s[n..n + |eol|] == eol
    && (eol == [CR] ==> n + 1 == |s| || s[n + 1] != LF)
  }

  /** What is detected is the first break of the text, whatever other breaks follow. */
  lemma DetectsFirst(s: Bytes, eol: Bytes)
    ensures DetectEol(s) == Some(eol) <==> exists n: nat :: n <= |s| && BreakFree(s[..n]) && StandsAt(s, n, eol)
    ensures DetectEol(s).None? <==> BreakFree(s)
  {
    var n := FirstBreak(s);
    if DetectEol(s) == Some(eol) {
      assert BreakFree(s[..n]) && s[n..n + |eol|] == eol;
    }
    if exists k: nat :: k <= |s| && BreakFree(s[..k]) && StandsAt(s, k, eol) {
      var k: nat :| k <= |s| && BreakFree(s[..k]) && StandsAt(s, k, eol);
      assert s[k] == s[k..k + |eol|][0];
      assert |eol| == 2 ==> s[k + 1] == s[k..k + |eol|][1];
      FirstBreakIs(s, k);
    }
  }

  /** What trails is the break the text ends with. */
  lemma TrailingIsLast(s: Bytes, eol: Bytes)
    ensures TrailingBreak(s) == Some(eol) <==>
      IsEol(eol) && |s| >= |eol| && s[|s| - |eol|..] == eol && (eol == [LF] && |s| >= 2 ==> s[|s| - 2] != CR)
    ensures TrailingBreak(s).None? <==> s == [] || !IsBreak(s[|s| - 1])
  {
    if s != [] {
      assert s[|s| - 1..] == [s[|s| - 1]];
    }
    if |s| >= 2 {
      assert s[|s| - 2..] == [s[|s| - 2], s[|s| - 1]];
    }
  }

  lemma ConvertedStart(s: Bytes, eol: Bytes)
    requires IsEol(eol)
    ensures eol == [CR] && Normalized(s, eol) != [] ==> Normalized(s, eol)[0] != LF
  {
    NormalizedIsJoin(s, eol);
    LinesAreBreakFree(s);
    JoinStart(Lines(s), eol);
  }

  /** A converted text with any break at all is detected as what it was converted to. */
  lemma DetectsConversion(s: Bytes, eol: Bytes)
    requires IsEol(eol)
    ensures DetectEol(Normalized(s, eol)) == if DetectEol(s).None? then None else Some(eol)
  {
    NormalizedFront(s, eol);
    var n := FirstBreak(s);
    if n < |s| {
      var rest := Normalized(s[n + WidthAt(s, n)..], eol);
      ConvertedStart(s[n + WidthAt(s, n)..], eol);
      DetectsFront(s[..n], eol, rest);
    }
  }

  lemma DetectsFront(line: Bytes, eol: Bytes, rest: Bytes)
    requires BreakFree(line) && IsEol(eol) && (eol == [CR] && rest != [] ==> rest[0] != LF)
    ensures DetectEol(line + eol + rest) == Some(eol)
  {
    var s := line + eol + rest;
    var n := |line|;
    assert s[..n] == line && s[n] == eol[0];
    FirstBreakIs(s, n);
    assert n + 1 < |s| ==> s[n + 1] == (if |eol| == 2 then eol[1] else rest[0]);
  }

  predicate EndsWithBreak(s: Bytes) { s != [] && IsBreak(s[|s| - 1]) }

  /** A converted text ends with its line ending exactly when its last line is empty. */
  lemma {:induction false} JoinEnd(lines: seq<Bytes>, eol: Bytes)
    requires |lines| >= 1 && AllBreakFree(lines) && IsEol(eol)
    ensures var j, last := Join(lines, eol), lines[|lines| - 1];
      && (EndsWithBreak(j) <==> |lines| > 1 && last == [])
      && (EndsWithBreak(j) ==> TrailingBreak(j) == Some(eol))
    decreases |lines|
  {
    if |lines| > 1 {
      var rest := Join(lines[1..], eol);
      JoinEnd(lines[1..], eol);
      EndOfConcat(lines[0], eol, rest);
      if lines[1..] == [[]] {
        assert rest == [];
      }
    }
  }

  lemma EndAlone(line: Bytes, eol: Bytes)
    requires BreakFree(line) && IsEol(eol)
    ensures EndsWithBreak(line + eol) && TrailingBreak(line + eol) == Some(eol)
  {
    var s := line + eol;
    LastBytes(line, eol);
    TrailingBytes(s);
    assert line != [] ==> !IsBreak(line[|line| - 1]);
    hide TrailingBreak;
  }

  lemma EndBehind(front: Bytes, rest: Bytes, eol: Bytes)
    requires front != [] && rest != [] && IsEol(eol) && front[|front| - 1] == eol[|eol| - 1]
    ensures EndsWithBreak(front + rest) <==> EndsWithBreak(rest)
    ensures TrailingBreak(rest) == Some(eol) && !(eol == [LF] && |rest| == 1) ==> TrailingBreak(front + rest) == Some(eol)
    ensures rest == [LF] && eol == [LF] ==> TrailingBreak(front + rest) == Some(eol)
  {
    LastBytes(front, rest);
    TrailingBytes(rest);
    TrailingBytes(front + rest);
    hide TrailingBreak;
  }

  lemma EndOfConcat(line: Bytes, eol: Bytes, rest: Bytes)
    requires BreakFree(line) && IsEol(eol)
    ensures var j := line + eol + rest;
      && (rest == [] ==> EndsWithBreak(j) && TrailingBreak(j) == Some(eol))
      && (rest != [] ==> (EndsWithBreak(j) <==> EndsWithBreak(rest)))
      && (rest != [] && TrailingBreak(rest) == Some(eol) && !(eol == [LF] && |rest| == 1) ==> TrailingBreak(j) == Some(eol))
      && (rest == [LF] && eol == [LF] ==> TrailingBreak(j) == Some(eol))
  {
    hide TrailingBreak, EndsWithBreak, BreakFree;
    var front := line + eol;
    LastBytes(line, eol);
    if rest == [] {
      EndAlone(line, eol);
      assert front + rest == front;
    } else {
      EndBehind(front, rest, eol);
    }
  }

  lemma LastBytes(front: Bytes, rest: Bytes)
    requires rest != []
    ensures var j := front + rest;
      && j[|j| - 1] == rest[|rest| - 1]
      && (|rest| >= 2 ==> j[|j| - 2] == rest[|rest| - 2])
      && (|rest| == 1 && front != [] ==> j[|j| - 2] == front[|front| - 1])
  {
  }

  /** What trails, by the last two bytes. */
  lemma TrailingBytes(s: Bytes)
    requires s != []
    ensures var last := s[|s| - 1];
      TrailingBreak(s) ==
      if last == LF then (if |s| >= 2 && s[|s| - 2] == CR then Some([CR, LF]) else Some([LF]))
      else if last == CR then Some([CR]) else None
  {
    if |s| >= 2 {
      assert s[|s| - 2..] == [s[|s| - 2], s[|s| - 1]];
    }
  }

  /** Conversion turns a break at the end of a text into the new ending and adds none. */
  lemma TrailingConverts(s: Bytes, eol: Bytes)
    requires IsEol(eol)
    ensures TrailingBreak(Normalized(s, eol)) == if TrailingBreak(s).None? then None else Some(eol)
  {
    NormalizedIsJoin(s, eol);
    LinesAreBreakFree(s);
    JoinEnd(Lines(s), eol);
    EndOfLines(s);
    TrailingIsEnd(s);
    TrailingIsEnd(Normalized(s, eol));
  }

  lemma TrailingIsEnd(s: Bytes)
    ensures TrailingBreak(s).Some? <==> EndsWithBreak(s)
  {
  }

  lemma {:induction false} EndOfLines(s: Bytes)
    ensures EndsWithBreak(s) <==> |Lines(s)| > 1 && Lines(s)[|Lines(s)| - 1] == []
    decreases |s|
  {
    LinesFront(s);
    var n := FirstBreak(s);
    if n < |s| {
      var next := n + WidthAt(s, n);
      EndOfLines(s[next..]);
      if next < |s| {
        assert s[next..][|s| - next - 1] == s[|s| - 1];
      } else {
        LinesOfOne(s[next..]);
      }
    }
  }
}
