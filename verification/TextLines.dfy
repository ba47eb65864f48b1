/** The lines of a compared text, however its bytes come in chunks. */
module TextLines {
  import opened Slices
  import opened Wrappers
  import opened Utf8
  import opened LineEndings

  const MAX_LINE_BYTES: nat := 64 * 1024

  datatype Line<K> = Line(start: nat, end: nat, text: K)

  /** What the compare options make of a line: the text that is compared, given whether the line is
      the first, and whether the line is left out. */
  datatype Options<!K> = Options(text: (Bytes, bool) -> K, skips: Bytes -> bool)

  datatype CoarseReason = TooManyLines | TooManyBytes | OutOfBudget

  /** A line ends behind LF, behind CR without LF, and at the end of the text. */
  predicate EndsLine(s: Bytes, e: nat) {
    && 0 < e <= |s|
    && (s[e - 1] == LF || (s[e - 1] == CR && !(e < |s| && s[e] == LF)) || e == |s|)
  }

  /** The last line end up to an offset, or the start. */
  function LastEnd(s: Bytes, n: nat): (e: nat)
    ensures e <= n && (e > 0 ==> EndsLine(s, e))
    ensures forall k :: e < k <= n ==> !EndsLine(s, k)
  {
    if n == 0 then 0 else if EndsLine(s, n) then n else LastEnd(s, n - 1)
  }

  function LineOf<K>(s: Bytes, o: Options<K>, start: nat, end: nat): seq<Line<K>>
    requires start <= end <= |s|
  {
    if o.skips(s[start..end]) then [] else [Line(start, end, o.text(s[start..end], start == 0))]
  }

  /** The compared lines that end up to an offset. */
  function LinesTo<K>(s: Bytes, o: Options<K>, n: nat): seq<Line<K>>
    requires n <= |s|
  {
    if n == 0 then []
    else if EndsLine(s, n) then LinesTo(s, o, n - 1) + LineOf(s, o, LastEnd(s, n - 1), n)
    else LinesTo(s, o, n - 1)
  }

  function AllLines<K>(s: Bytes, o: Options<K>): seq<Line<K>> { LinesTo(s, o, |s|) }

  lemma {:induction false} NoEndBetween<K>(s: Bytes, o: Options<K>, start: nat, n: nat)
    requires start <= n <= |s| && forall e :: start < e <= n ==> !EndsLine(s, e)
    ensures LinesTo(s, o, n) == LinesTo(s, o, start)
    ensures LastEnd(s, n) == LastEnd(s, start)
    decreases n
  {
    if start < n {
      assert !EndsLine(s, n);
      NoEndBetween(s, o, start, n - 1);
    }
  }

  lemma OneMoreLine<K>(s: Bytes, o: Options<K>, start: nat, n: nat)
    requires start < n <= |s| && (start == 0 || EndsLine(s, start)) && EndsLine(s, n)
    requires forall e :: start < e < n ==> !EndsLine(s, e)
    ensures LinesTo(s, o, n) == LinesTo(s, o, start) + LineOf(s, o, start, n)
  {
    hide EndsLine, LineOf, LastEnd, LinesTo;
    NoEndBetween(s, o, start, n - 1);
    LastIsEnd(s, start);
    EndsOne(s, o, n);
  }

  lemma EndsOne<K>(s: Bytes, o: Options<K>, n: nat)
    requires 0 < n <= |s| && EndsLine(s, n)
    ensures LinesTo(s, o, n) == LinesTo(s, o, n - 1) + LineOf(s, o, LastEnd(s, n - 1), n)
  {
  }

  lemma LastIsEnd(s: Bytes, start: nat)
    requires start == 0 || EndsLine(s, start)
    ensures LastEnd(s, start) == start
  {
  }

  /** Behind any offset, the next line ends with the next break, CR and LF together, or with the text. */
  lemma LinesEndAtBreaks(s: Bytes, start: nat)
    requires start < |s|
    ensures var n := BreakFrom(s, start);
      var end := if n == |s| then |s| else n + WidthAt(s, n);
      && start < end && EndsLine(s, end) && forall e :: start < e < end ==> !EndsLine(s, e)
  {
    var n := BreakFrom(s, start);
    var end := if n == |s| then |s| else n + WidthAt(s, n);
    forall e | start < e < end
      ensures !EndsLine(s, e)
    {
      assert e - 1 < n ==> !IsBreak(s[e - 1]);
    }
  }

  function Flatten(chunks: seq<Bytes>): Bytes {
    if chunks == [] then [] else chunks[0] + Flatten(chunks[1..])
  }

  predicate NoEnds(s: Bytes, start: nat, end: nat) {
    forall e :: start < e < end ==> !EndsLine(s, e)
  }

  /** Some line is too long. */
  ghost predicate LongLine(s: Bytes) {
    exists start: nat, end: nat :: NoEnds(s, start, end) && start + MAX_LINE_BYTES < end <= |s|
  }

  /** As many lines as allowed, and one more behind them. */
  ghost predicate ManyLines<K>(s: Bytes, o: Options<K>, maxLines: nat) {
    exists n: nat :: n < |s| && |LinesTo(s, o, n)| >= maxLines
  }

  /** Why a text is not split. */
  ghost predicate Refused<K>(s: Bytes, o: Options<K>, maxLines: nat, reason: CoarseReason) {
    (reason.TooManyLines? && ManyLines(s, o, maxLines)) || (reason.TooManyBytes? && LongLine(s))
  }

  /** The pass over the chunks: the lines so far, the bytes of the line under way, its start, the
      offset, and whether a CR waits for its LF. */
  datatype Pass<K> = Pass(lines: seq<Line<K>>, raw: Bytes, start: nat, offset: nat, pendingCr: bool)

  /** Where the pass over the chunks stands: the line that starts at `start` reaches to `offset` at
      least, and only a CR at its end may be waiting for its LF. */
  ghost predicate Passing<K>(s: Bytes, o: Options<K>, p: Pass<K>) {
    && p.start <= p.offset <= |s| && p.raw == s[p.start..p.offset]
    && (p.start == 0 || EndsLine(s, p.start)) && p.lines == LinesTo(s, o, p.start)
    && (forall e :: p.start <= e < p.offset - 1 ==> !IsBreak(s[e]))
    && (p.start < p.offset ==> (p.pendingCr <==> s[p.offset - 1] == CR) && s[p.offset - 1] != LF)
    && (p.pendingCr ==> p.start < p.offset)
  }

  lemma NoneEndsBefore<K>(s: Bytes, o: Options<K>, p: Pass<K>)
    requires Passing(s, o, p)
    ensures NoEnds(s, p.start, p.offset)
    ensures p.start < p.offset == |s| ==> EndsLine(s, p.offset)
    ensures p.offset - p.start > MAX_LINE_BYTES ==> LongLine(s)
  {
    forall e | p.start < e < p.offset
      ensures !EndsLine(s, e)
    {
      assert !IsBreak(s[e - 1]);
    }
  }

  /** Every line in front of an offset is within the limits. */
  ghost predicate Within<K>(s: Bytes, o: Options<K>, maxLines: nat, start: nat) {
    && start <= |s|
    && (forall n: nat :: n < start ==> |LinesTo(s, o, n)| < maxLines)
    && (forall from: nat, end: nat :: NoEnds(s, from, end) && end <= start ==> end <= from + MAX_LINE_BYTES)
  }

  lemma OneMoreWithin<K>(s: Bytes, o: Options<K>, maxLines: nat, start: nat, end: nat)
    requires Within(s, o, maxLines, start) && start < end <= |s| && (start == 0 || EndsLine(s, start)) && NoEnds(s, start, end)
    requires |LinesTo(s, o, start)| < maxLines && end - start <= MAX_LINE_BYTES
    ensures Within(s, o, maxLines, end)
  {
    hide LinesTo, EndsLine;
    forall n: nat | n < end
      ensures |LinesTo(s, o, n)| < maxLines
    {
      if start <= n {
        NoEndBetween(s, o, start, n);
      }
    }
    forall from: nat, e: nat | NoEnds(s, from, e) && e <= end
      ensures e <= from + MAX_LINE_BYTES
    {
      assert !(from < start < e) || start == 0;
    }
  }

  lemma NoneWithin<K>(s: Bytes, o: Options<K>, maxLines: nat)
    ensures Within(s, o, maxLines, 0)
  {
  }

  lemma AllWithin<K>(s: Bytes, o: Options<K>, maxLines: nat)
    requires Within(s, o, maxLines, |s|)
    ensures !LongLine(s) && !ManyLines(s, o, maxLines)
  {
  }

  /** `push_line`: the line under way is over. */
  method PushLine<K>(ghost s: Bytes, o: Options<K>, p: Pass<K>, maxLines: nat) returns (next: Result<Pass<K>, CoarseReason>)
    requires p.start < p.offset <= |s| && p.raw == s[p.start..p.offset] && EndsLine(s, p.offset)
    requires (p.start == 0 || EndsLine(s, p.start)) && p.lines == LinesTo(s, o, p.start) && NoEnds(s, p.start, p.offset)
    requires Within(s, o, maxLines, p.start)
    ensures next.Ok? ==> Within(s, o, maxLines, p.offset)
    ensures next.Ok? ==> Passing(s, o, next.value) && next.value.offset == next.value.start == p.offset && !next.value.pendingCr
    ensures next.Err? ==> Refused(s, o, maxLines, next.error)
  {
    if |p.lines| >= maxLines {
      return Err(TooManyLines);
    }
    if p.offset - p.start > MAX_LINE_BYTES {
      return Err(TooManyBytes);
    }
    OneMoreLine(s, o, p.start, p.offset);
    OneMoreWithin(s, o, maxLines, p.start, p.offset);
    var lines := if o.skips(p.raw) then p.lines else p.lines + [Line(p.start, p.offset, o.text(p.raw, p.start == 0))];
    next := Ok(Pass(lines, [], p.offset, p.offset, false));
  }

  /** A waiting CR ends its line, with the LF behind it when there is one. */
  lemma CrEnds<K>(s: Bytes, o: Options<K>, p: Pass<K>, end: nat)
    requires Passing(s, o, p) && p.pendingCr && p.offset < |s|
    requires end == if s[p.offset] == LF then p.offset + 1 else p.offset
    ensures p.start < end <= |s| && EndsLine(s, end) && NoEnds(s, p.start, end)
    ensures p.raw + s[p.offset..end] == s[p.start..end]
    ensures (p.start == 0 || EndsLine(s, p.start)) && p.lines == LinesTo(s, o, p.start)
  {
    NoneEndsBefore(s, o, p);
  }

  /** No break up to an offset, and none in the stretch behind it. */
  lemma StillNoBreak(s: Bytes, start: nat, offset: nat, end: nat)
    requires start <= offset <= end <= |s| && BreakFree(s[offset..end])
    requires forall e :: start <= e < offset ==> !IsBreak(s[e])
    ensures forall e :: start <= e < end ==> !IsBreak(s[e])
  {
    forall e | offset <= e < end
      ensures !IsBreak(s[e])
    {
      assert s[e] == s[offset..end][e - offset];
    }
  }

  lemma NoBreakBefore<K>(s: Bytes, o: Options<K>, p: Pass<K>)
    requires Passing(s, o, p) && !p.pendingCr
    ensures forall e :: p.start <= e < p.offset ==> !IsBreak(s[e])
  {
  }

  /** On past a stretch without a break. */
  lemma PassOn<K>(s: Bytes, o: Options<K>, p: Pass<K>, end: nat)
    requires Passing(s, o, p) && !p.pendingCr && p.offset < end <= |s| && BreakFree(s[p.offset..end])
    ensures Passing(s, o, p.(raw := p.raw + s[p.offset..end], offset := end))
  {
    NoBreakBefore(s, o, p);
    StillNoBreak(s, p.start, p.offset, end);
    Joined(s, p.start, p.offset, end);
    assert !IsBreak(s[end - 1]);
  }

  /** On to the next break. */
  lemma PassBreak<K>(s: Bytes, o: Options<K>, p: Pass<K>, end: nat)
    requires Passing(s, o, p) && !p.pendingCr && p.offset < end <= |s|
    requires BreakFree(s[p.offset..end - 1]) && IsBreak(s[end - 1])
    ensures p.raw + s[p.offset..end] == s[p.start..end] && p.start < end && NoEnds(s, p.start, end)
    ensures s[end - 1] == CR ==> Passing(s, o, p.(raw := p.raw + s[p.offset..end], offset := end, pendingCr := true))
    ensures s[end - 1] != CR ==> EndsLine(s, end)
    ensures (p.start == 0 || EndsLine(s, p.start)) && p.lines == LinesTo(s, o, p.start)
  {
    NoBreakBefore(s, o, p);
    StillNoBreak(s, p.start, p.offset, end - 1);
    Joined(s, p.start, p.offset, end);
    NoneEnd(s, p.start, end);
    hide LinesTo, NoEnds;
  }

  lemma NoneEnd(s: Bytes, start: nat, end: nat)
    requires start < end <= |s| && forall e :: start <= e < end - 1 ==> !IsBreak(s[e])
    ensures NoEnds(s, start, end)
  {
    forall e | start < e < end
      ensures !EndsLine(s, e)
    {
      assert !IsBreak(s[e - 1]);
    }
  }

  /** The bytes up to and with the next break, and whether that is a CR. */
  method NextBreak(rest: Bytes) returns (k: nat, cr: Option<bool>)
    requires rest != []
    ensures 0 < k <= |rest|
    ensures cr.None? ==> k == |rest| && BreakFree(rest[..k])
    ensures cr.Some? ==> BreakFree(rest[..k - 1]) && IsBreak(rest[k - 1]) && (cr.value <==> rest[k - 1] == CR)
  {
    var found := FindBreak(rest);
    match found
    case None =>
      assert rest[..|rest|] == rest;
      return |rest|, None;
    case Some(at) => return at + 1, Some(rest[at] == CR);
  }

  lemma RestOf(s: Bytes, offset: nat, rest: Bytes, behind: Bytes, k: nat)
    requires offset <= |s| && s[offset..] == rest + behind && k <= |rest|
    ensures offset + k <= |s| && s[offset..offset + k] == rest[..k] && s[offset + k..] == rest[k..] + behind
    ensures k < |rest| ==> s[offset + k] == rest[k]
  {
    assert s[offset..offset + k] == s[offset..][..k];
    assert s[offset + k..] == s[offset..][k..];
    assert k < |rest| ==> s[offset + k] == s[offset..][k];
  }

  lemma OffsetInside<K>(s: Bytes, o: Options<K>, p: Pass<K>)
    requires Passing(s, o, p)
    ensures p.start <= p.offset <= |s| && p.raw == s[p.start..p.offset]
    ensures (p.start == 0 || EndsLine(s, p.start)) && p.lines == LinesTo(s, o, p.start)
    ensures p.pendingCr ==> p.start < p.offset
  {
  }

  /** A byte is there after a waiting CR. */
  method EndCr<K>(ghost s: Bytes, o: Options<K>, p: Pass<K>, rest: Bytes, ghost behind: Bytes, maxLines: nat)
      returns (next: Result<Pass<K>, CoarseReason>, more: Bytes)
    requires Passing(s, o, p) && p.pendingCr && rest != [] && p.offset <= |s| && s[p.offset..] == rest + behind
    requires Within(s, o, maxLines, p.start)
    ensures next.Ok? ==> Within(s, o, maxLines, next.value.start)
    ensures next.Ok? ==> Passing(s, o, next.value) && next.value.offset <= |s| && s[next.value.offset..] == more + behind
    ensures next.Ok? ==> |more| <= |rest| && !next.value.pendingCr
    ensures next.Err? ==> Refused(s, o, maxLines, next.error)
  {
    hide Passing, EndsLine, NoEnds, LinesTo, LongLine, ManyLines, Within;
    RestOf(s, p.offset, rest, behind, 0);
    RestOf(s, p.offset, rest, behind, 1);
    var width := if rest[0] == LF then 1 else 0;
    CrEnds(s, o, p, p.offset + width);
    more := rest[width..];
    next := PushLine(s, o, p.(raw := p.raw + rest[..width], offset := p.offset + width, pendingCr := false), maxLines);
  }

  lemma LongIsRefused<K>(s: Bytes, o: Options<K>, maxLines: nat)
    requires LongLine(s)
    ensures Refused(s, o, maxLines, TooManyBytes)
  {
  }

  /** On to the next break or the end of the chunk. */
  method Scan<K>(ghost s: Bytes, o: Options<K>, p: Pass<K>, rest: Bytes, ghost behind: Bytes, maxLines: nat)
      returns (next: Result<Pass<K>, CoarseReason>, more: Bytes)
    requires Passing(s, o, p) && !p.pendingCr && rest != [] && p.offset <= |s| && s[p.offset..] == rest + behind
    requires Within(s, o, maxLines, p.start)
    ensures next.Ok? ==> Within(s, o, maxLines, next.value.start)
    ensures next.Ok? ==> Passing(s, o, next.value) && next.value.offset <= |s| && s[next.value.offset..] == more + behind
    ensures next.Ok? ==> |more| < |rest|
    ensures next.Err? ==> Refused(s, o, maxLines, next.error)
  {
    hide Passing, EndsLine, NoEnds, LinesTo, LongLine, ManyLines, Within, Refused, IsBreak, BreakFree;
    var k, cr := NextBreak(rest);
    var end := p.offset + k;
    RestOf(s, p.offset, rest, behind, k);
    more := rest[k..];
    var after := p.(raw := p.raw + rest[..k], offset := end, pendingCr := cr == Some(true));
    if cr.None? {
      PassOn(s, o, p, end);
      next := Ok(after);
    } else {
      RestOf(s, p.offset, rest, behind, k - 1);
      PassBreak(s, o, p, end);
      if cr.value {
        next := Ok(after);
      } else {
        next := PushLine(s, o, after, maxLines);
      }
    }
    if next.Ok? {
      NoneEndsBefore(s, o, next.value);
      OffsetInside(s, o, next.value);
      if next.value.offset - next.value.start > MAX_LINE_BYTES {
        LongIsRefused(s, o, maxLines);
        next := Err(TooManyBytes);
      }
    }
  }

  /** The pass of `lines` over the chunks of a document, a CR at the end of a chunk waiting for an LF
      at the start of the next. */
  method SplitLines<K>(chunks: seq<Bytes>, o: Options<K>, maxLines: nat) returns (lines: Result<seq<Line<K>>, CoarseReason>)
    ensures lines.Ok? ==> lines.value == AllLines(Flatten(chunks), o)
    ensures lines.Ok? ==> !LongLine(Flatten(chunks)) && !ManyLines(Flatten(chunks), o, maxLines)
    ensures lines.Err? ==> Refused(Flatten(chunks), o, maxLines, lines.error)
  {
    hide Passing, EndsLine, NoEnds, LinesTo, LongLine, ManyLines, Within;
    ghost var s := Flatten(chunks);
    var p: Pass<K> := Pass([], [], 0, 0, false);
    NoLines(s, o);
    NoneWithin(s, o, maxLines);
    for i := 0 to |chunks|
      invariant Within(s, o, maxLines, p.start)
      invariant p.offset <= |s| && Passing(s, o, p) && s[p.offset..] == Flatten(chunks[i..])
    {
      var rest := chunks[i];
      ghost var behind := Flatten(chunks[i + 1..]);
      FlattenFront(chunks, i);
      while rest != []
        invariant Within(s, o, maxLines, p.start)
        invariant p.offset <= |s| && Passing(s, o, p) && s[p.offset..] == rest + behind
        decreases |rest|, p.pendingCr
      {
        var next;
        if p.pendingCr {
          next, rest := EndCr(s, o, p, rest, behind, maxLines);
        } else {
          next, rest := Scan(s, o, p, rest, behind, maxLines);
        }
        if next.Err? {
          return Err(next.error);
        }
        p := next.value;
      }
    }
    NoneEndsBefore(s, o, p);
    OffsetInside(s, o, p);
    NoMore(s, chunks, p.offset);
    if p.start < p.offset {
      var next := PushLine(s, o, p, maxLines);
      if next.Err? {
        return Err(next.error);
      }
      p := next.value;
      OffsetInside(s, o, p);
    }
    AllWithin(s, o, maxLines);
    lines := Ok(p.lines);
  }

  lemma NoLines<K>(s: Bytes, o: Options<K>)
    ensures Passing(s, o, Pass([], [], 0, 0, false))
  {
  }

  lemma FlattenFront(chunks: seq<Bytes>, i: nat)
    requires i < |chunks|
    ensures Flatten(chunks[i..]) == chunks[i] + Flatten(chunks[i + 1..])
  {
    assert chunks[i..][1..] == chunks[i + 1..];
  }

  lemma NoMore(s: Bytes, chunks: seq<Bytes>, offset: nat)
    requires offset <= |s| && s[offset..] == Flatten(chunks[|chunks|..])
    ensures offset == |s|
  {
  }
}
