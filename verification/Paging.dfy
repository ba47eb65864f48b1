/** Byte windows over UTF-8 documents: the page resolver, the windowed copy into the owned
    store and the broker's byte reads. All three take byte ranges that may split a scalar
    while the document store reads only between scalar boundaries. */
module Paging {
  import opened Slices
  import opened Wrappers
  import opened Utf8

  const PAGE := 64 * 1024
  /** Largest byte range the broker serves, and the read limit it widens under. */
  const MAX_CHUNK := 1024 * 1024

  /** A document snapshot answers a range only between boundaries and within the limit. */
  function Read(text: seq<byte>, start: nat, end: nat, limit: nat): Option<seq<byte>> {
    if start <= end <= |text| && Boundary(text, start) && Boundary(text, end) && end - start <= limit
    then Some(text[start..end])
    else None
  }

  // ----- PagedResolver::resolve

  datatype Resolved =
    | Published(bytes: seq<byte>)
    | Refused
    | SliceStop // the byte slice of the widened text is out of range

  /** The bytes of one page of the document. */
  function PageBytes(text: seq<byte>, page: nat): seq<byte> {
    var start := if page * PAGE <= |text| then page * PAGE else |text|;
    var end := if start + PAGE <= |text| then start + PAGE else |text|;
    text[start..end]
  }

  /** First search: the nearest boundary at or below `start`, at most three bytes away. */
  method SearchDown(text: seq<byte>, start: nat) returns (a: Option<nat>)
    requires WellFormed(text)
    ensures a.Some? <==> start <= |text| + 3
    ensures a.Some? ==> a.value <= start && a.value <= |text| && start - a.value <= 3 && Boundary(text, a.value)
    ensures a.Some? ==> forall k :: a.value < k <= start && k <= |text| ==> !Boundary(text, k)
  {
    var at := start;
    ghost var below := |text|;
    if start <= |text| {
      ghost var above;
      below, above := BoundaryNear(text, start);
    }
    while !(at <= |text| && Boundary(text, at)) && at > 0
      invariant at <= start && start - at <= 3 && (below <= start ==> below <= at)
      invariant forall k :: at < k <= start && k <= |text| ==> !Boundary(text, k)
    {
      at := at - 1;
      if start - at > 3 {
        return None;
      }
    }
    return Some(at);
  }

  /** Second search: the nearest boundary at or above `end`, at most three bytes away. */
  method SearchUp(text: seq<byte>, from: nat, end: nat) returns (b: Option<nat>)
    requires WellFormed(text) && from <= end <= |text|
    ensures b.Some? && end <= b.value <= |text| && b.value - end <= 3 && Boundary(text, b.value)
    ensures forall k :: end <= k < b.value ==> !Boundary(text, k)
  {
    var at := end;
    ghost var below, above := BoundaryNear(text, end);
    while !(from <= at && Boundary(text, at)) && at < |text|
      invariant end <= at <= above
      invariant forall k :: end <= k < at ==> !Boundary(text, k)
    {
      at := at + 1;
      if at - end > 3 {
        return None;
      }
    }
    return Some(at);
  }

  /** Widens the page to scalar boundaries, reads, and publishes exactly the page's bytes.
      Publishing itself refuses a page outside the document. */
  method Resolve(text: seq<byte>, page: nat) returns (r: Resolved)
    requires WellFormed(text)
    ensures r.Published? <==> page * PAGE < |text|
    ensures r.Published? ==> r.bytes == PageBytes(text, page)
    ensures r.SliceStop? <==> |text| < page * PAGE <= |text| + 3
  {
    var start := page * PAGE;
    var end := if start + PAGE <= |text| then start + PAGE else |text|;
    var a := SearchDown(text, start);
    if a.None? {
      return Refused;
    }
    var b := SearchUp(text, a.value, end);
    if b.None? {
      return Refused;
    }
    var read := Read(text, a.value, b.value, PAGE + 6);
    if read.None? {
      return Refused;
    }
    if start - a.value > end - a.value {
      return SliceStop;
    }
    var bytes := read.value[start - a.value..end - a.value];
    if start >= |text| || |bytes| != (if |text| - start <= PAGE then |text| - start else PAGE) {
      return Refused;
    }
    SliceOfSlice(text, a.value, b.value, start, end);
    return Published(bytes);
  }

  /** The first `pages` pages one after the other. */
  function Pages(text: seq<byte>, pages: nat): seq<byte> {
    if pages == 0 then [] else Pages(text, pages - 1) + PageBytes(text, pages - 1)
  }

  lemma PageFollows(text: seq<byte>, page: nat, upto: nat, next: nat)
    requires upto == (if page * PAGE <= |text| then page * PAGE else |text|)
    requires next == (if (page + 1) * PAGE <= |text| then (page + 1) * PAGE else |text|)
    ensures upto <= next && text[..upto] + PageBytes(text, page) == text[..next]
  {
    assert (page + 1) * PAGE == page * PAGE + PAGE;
  }

  /** The pages of a document, put together in order, are the document. */
  lemma {:induction false} PagesAreText(text: seq<byte>, pages: nat)
    ensures Pages(text, pages) == if pages * PAGE <= |text| then text[..pages * PAGE] else text
  {
    if pages > 0 {
      PagesAreText(text, pages - 1);
      PageFollows(text, pages - 1, if (pages - 1) * PAGE <= |text| then (pages - 1) * PAGE else |text|,
                  if pages * PAGE <= |text| then pages * PAGE else |text|);
      assert text[..|text|] == text;
    }
  }

  // ----- the append loop of prepare_streamed_range_copy

  datatype CopyError = InvalidRange | Unavailable

  /** The windows tile the range, each between boundaries and at most one page long. */
  predicate Tiles(text: seq<byte>, windows: seq<(nat, nat)>, start: nat, end: nat) {
    if windows == [] then start == end
    else
      var w := windows[|windows| - 1];
      && start <= w.0 < w.1 == end <= |text| && w.1 - w.0 <= PAGE
      && Boundary(text, w.0) && Boundary(text, w.1)
      && Tiles(text, windows[..|windows| - 1], start, w.0)
  }

  /** The store answers a window: it is aligned, bounded, and reading it does not fail. */
  predicate Answers(text: seq<byte>, available: (nat, nat) -> bool, from: nat, to: nat) {
    Read(text, from, to, PAGE).Some? && available(from, to)
  }

  /** Every aligned window of at most one page is answered. */
  ghost predicate AlignedReadsSucceed(text: seq<byte>, available: (nat, nat) -> bool) {
    forall from: nat, to: nat :: Read(text, from, to, PAGE).Some? ==> Answers(text, available, from, to)
  }

  /** Where the next window would end. */
  function Limit(cursor: nat, end: nat): nat { if cursor + PAGE <= end then cursor + PAGE else end }

  /** The ends that are tried: the limit and three bytes less, or only the end of the range. */
  predicate Tried(cursor: nat, end: nat, stop: nat) {
    if Limit(cursor, end) == end then stop == end else Limit(cursor, end) - 3 <= stop <= Limit(cursor, end)
  }

  /** The inner retry loop: the longest of the window ending at the limit and the three shorter
      ones that the store answers. The last window of the range is never shortened. */
  method NextWindow(text: seq<byte>, cursor: nat, end: nat, available: (nat, nat) -> bool) returns (stop: Option<nat>)
    requires WellFormed(text) && cursor < end <= |text|
    ensures stop.Some? ==> cursor < stop.value <= end && Answers(text, available, cursor, stop.value)
    ensures stop.Some? && stop.value < end ==> cursor + PAGE - 3 <= stop.value
    ensures Boundary(text, cursor) && Boundary(text, end) && AlignedReadsSucceed(text, available) ==> stop.Some?
    ensures end <= cursor + PAGE && stop.Some? ==> stop.value == end
    ensures stop.Some? ==> Tried(cursor, end, stop.value)
    ensures forall k: nat :: Tried(cursor, end, k) && (stop.Some? ==> stop.value < k) ==> !Answers(text, available, cursor, k)
  {
    var limit := Limit(cursor, end);
    var at := limit;
    ghost var below, above := BoundaryNear(text, limit);
    while !Answers(text, available, cursor, at)
      invariant cursor < at <= limit && limit - at <= 3
      invariant limit == end ==> at == limit
      invariant forall k: nat :: at < k <= limit ==> !Answers(text, available, cursor, k)
      invariant Boundary(text, cursor) && Boundary(text, end) && AlignedReadsSucceed(text, available) ==>
          below <= at || limit == end
      decreases at
    {
      assert Boundary(text, cursor) && AlignedReadsSucceed(text, available) ==> Read(text, cursor, at, PAGE).None?;
      if at == end || limit - at == 3 || at <= cursor {
        return None;
      }
      at := at - 1;
    }
    return Some(at);
  }

  lemma TilesNothing(text: seq<byte>, start: nat)
    ensures Tiles(text, [], start, start)
  {
  }

  lemma TilesOneMore(text: seq<byte>, windows: seq<(nat, nat)>, start: nat, cursor: nat, stop: nat)
    requires Tiles(text, windows, start, cursor) && start <= cursor && Read(text, cursor, stop, PAGE).Some? && cursor < stop
    ensures Tiles(text, windows + [(cursor, stop)], start, stop)
  {
    assert (windows + [(cursor, stop)])[..|windows|] == windows;
  }

  /** Copies a range in windows of at most 64 KiB. A window that does not end on a boundary is
      retried up to three bytes shorter. `available` stands for the store's own failures. */
  method AppendRange(text: seq<byte>, start: nat, end: nat, store: seq<byte>, available: (nat, nat) -> bool)
    returns (r: Result<seq<byte>, CopyError>, windows: seq<(nat, nat)>)
    requires WellFormed(text)
    ensures r == Err(InvalidRange) <==> !(start <= end <= |text|)
    ensures r.Ok? ==> r.value == store + text[start..end] && Tiles(text, windows, start, end)
    ensures r.Ok? && start < end ==> Boundary(text, start) && Boundary(text, end)
    ensures (start <= end <= |text| && Boundary(text, start) && Boundary(text, end)
             && AlignedReadsSucceed(text, available)) ==> r.Ok?
  {
    windows := [];
    if !(start <= end <= |text|) {
      return Err(InvalidRange), [];
    }
    hide Tiles, Boundary, AlignedReadsSucceed;
    var output := store;
    var cursor: nat := start;
    TilesNothing(text, start);
    assert store + text[start..start] == store;
    while cursor < end
      invariant start <= cursor <= end
      invariant output == store + text[start..cursor]
      invariant Tiles(text, windows, start, cursor)
      invariant cursor > start ==> Boundary(text, start) && Boundary(text, cursor)
    {
      var stop := NextWindow(text, cursor, end, available);
      if stop.None? {
        return Err(Unavailable), windows;
      }
      Joined(text, start, cursor, stop.value);
      ConcatAssociates(store, text[start..cursor], text[cursor..stop.value]);
      output := output + Read(text, cursor, stop.value, PAGE).value;
      TilesOneMore(text, windows, start, cursor, stop.value);
      windows := windows + [(cursor, stop.value)];
      cursor := stop.value;
    }
    return Ok(output), windows;
  }

  // ----- the broker's byte reads

  /** First widening loop: down to the nearest boundary. */
  method Lower(text: seq<byte>, start: nat) returns (left: nat)
    requires WellFormed(text) && start <= |text|
    ensures left <= start && start - left <= 3 && Boundary(text, left)
  {
    left := start;
    ghost var below, above := BoundaryNear(text, start);
    while !Boundary(text, left)
      invariant below <= left <= start
      decreases left
    {
      left := left - 1;
    }
  }

  /** Second widening loop: up to the nearest boundary. */
  method Upper(text: seq<byte>, end: nat) returns (right: nat)
    requires WellFormed(text) && end <= |text|
    ensures end <= right <= |text| && right - end <= 3 && Boundary(text, right)
  {
    right := end;
    ghost var below, above := BoundaryNear(text, end);
    while !Boundary(text, right)
      invariant end <= right <= above
      decreases above - right
    {
      right := right + 1;
    }
  }

  /** A range of the text that one read may serve. */
  predicate Servable(text: seq<byte>, start: nat, end: nat) { start <= end <= |text| && end - start <= MAX_CHUNK - 128 }

  /** The answer of one read: exactly the bytes asked for, or nothing for any other range. */
  predicate Serves(text: seq<byte>, start: nat, end: nat, r: Option<seq<byte>>) {
    (r.Some? <==> Servable(text, start, end)) && (r.Some? ==> r.value == text[start..end])
  }

  /** Serves any byte range up to the transport limit by widening to scalar boundaries. */
  method ReadBytes(text: seq<byte>, start: nat, end: nat) returns (r: Option<seq<byte>>)
    requires WellFormed(text)
    ensures Serves(text, start, end, r)
  {
    if start > end || end > |text| || end - start > MAX_CHUNK - 128 {
      return None;
    }
    var left := Lower(text, start);
    var right := Upper(text, end);
    var read := Read(text, left, right, MAX_CHUNK);
    SliceOfSlice(text, left, right, start, end);
    return Some(read.value[start - left..end - left]);
  }

  /** What a guest gets by appending its answers; nothing as soon as one read is refused. */
  function Appended(answers: seq<Option<seq<byte>>>): Option<seq<byte>> {
    if answers == [] then Some([])
    else
      var n := |answers| - 1;
      match (Appended(answers[..n]), answers[n])
      case (Some(before), Some(last)) => Some(before + last)
      case _ => None
  }

  /** Reading on from cut to cut gives the bytes of the whole range, wherever the cuts split
      scalars, if and only if every single range can be served. */
  lemma {:induction false} AdjacentReadsJoin(text: seq<byte>, cuts: seq<nat>, answers: seq<Option<seq<byte>>>)
    requires |cuts| == |answers| + 1 && cuts[0] <= |text|
    requires forall i :: 0 <= i < |answers| ==> Serves(text, cuts[i], cuts[i + 1], answers[i])
    ensures Appended(answers).Some? <==> forall i :: 0 <= i < |answers| ==> Servable(text, cuts[i], cuts[i + 1])
    ensures Appended(answers).Some? ==>
      cuts[0] <= cuts[|answers|] <= |text| && Appended(answers).value == text[cuts[0]..cuts[|answers|]]
    decreases |answers|
  {
    if answers != [] {
      var n := |answers| - 1;
      AdjacentReadsJoin(text, cuts[..n + 1], answers[..n]);
      if Appended(answers).Some? {
        assert text[cuts[0]..cuts[n + 1]] == text[cuts[0]..cuts[n]] + text[cuts[n]..cuts[n + 1]];
      }
    }
  }
}
