/** The build step that turns the Unicode character list into the table of word ranges: collect,
    sort, merge. */
module WordTable {
  import opened Wrappers

  /** An inclusive range of code points. */
  type Range = (nat, nat)

  predicate Holds(r: Range, c: nat) { r.0 <= c <= r.1 }

  /** Some range holds the code point. */
  ghost predicate Covers(ranges: seq<Range>, c: nat) { exists r :: r in ranges && Holds(r, c) }

  // ----- collecting

  datatype Kind = Single | First | Last

  /** One line of the character list: its code, its general category, and whether its name opens
      or closes a range. */
  datatype Entry = Entry(code: nat, category: string, kind: Kind)

  predicate IsWord(category: string) {
    (category != "" && (category[0] == 'L' || category[0] == 'N' || category[0] == 'M')) || category == "Pc"
  }

  const JOINERS: Range := (0x200C, 0x200D)

  /** The range an entry closes or is, once `start` is the code of the last opening entry. */
  function Closed(e: Entry, start: Option<nat>): Option<Range> {
    match e.kind
    case First => None
    case Last => if start.Some? && IsWord(e.category) then Some((start.value, e.code)) else None
    case Single => if IsWord(e.category) then Some((e.code, e.code)) else None
  }

  function NextOpened(e: Entry, start: Option<nat>): Option<nat> {
    match e.kind
    case First => Some(e.code)
    case Last => None
    case Single => start
  }

  /** No entry closes a range that none has opened. */
  predicate Paired(entries: seq<Entry>, start: Option<nat>) {
    entries == [] ||
    ((entries[0].kind == Last ==> start.Some?) && Paired(entries[1..], NextOpened(entries[0], start)))
  }

  function Collected(entries: seq<Entry>, start: Option<nat>): seq<Range> {
    if entries == [] then []
    else
      var r := Closed(entries[0], start);
      (if r.Some? then [r.value] else []) + Collected(entries[1..], NextOpened(entries[0], start))
  }

  lemma CollectedFromHere(entries: seq<Entry>, i: nat, start: Option<nat>)
    requires i < |entries|
    ensures var e := entries[i];
      && Collected(entries[i..], start)
         == (if Closed(e, start).Some? then [Closed(e, start).value] else []) + Collected(entries[i + 1..], NextOpened(e, start))
      && (Paired(entries[i..], start) <==>
          (e.kind == Last ==> start.Some?) && Paired(entries[i + 1..], NextOpened(e, start)))
  {
    assert entries[i..][0] == entries[i] && entries[i..][1..] == entries[i + 1..];
  }

  /** None where the build script panics. */
  method Collect(entries: seq<Entry>) returns (result: Option<seq<Range>>)
    ensures result == if Paired(entries, None) then Some([JOINERS] + Collected(entries, None)) else None
  {
    var ranges := [JOINERS];
    var start: Option<nat> := None;
    assert entries[0..] == entries;
    for i := 0 to |entries|
      invariant Paired(entries[i..], start) <==> Paired(entries, None)
      invariant ranges + Collected(entries[i..], start) == [JOINERS] + Collected(entries, None)
    {
      CollectedFromHere(entries, i, start);
      var e := entries[i];
      if e.kind == First {
        start := Some(e.code);
        continue;
      }
      if e.kind == Last {
        if start.None? {
          return None;
        }
        if IsWord(e.category) {
          ranges := ranges + [(start.value, e.code)];
        }
        start := None;
      } else if IsWord(e.category) {
        ranges := ranges + [(e.code, e.code)];
      }
    }
    assert entries[|entries|..] == [];
    assert ranges + [] == ranges;
    return Some(ranges);
  }

  // ----- what the entries list

  /** Between an opening entry and a later one, only single entries. */
  predicate OnlySingles(entries: seq<Entry>, j: nat, i: nat)
    requires i <= |entries|
  {
    forall k :: j < k < i ==> entries[k].kind == Single
  }

  /** The entry stands for the code point: it is its code, or closes a range from the nearest opening
      entry in front of it over the code point. */
  ghost predicate Lists(entries: seq<Entry>, i: nat, c: nat)
    requires i < |entries|
  {
    var e := entries[i];
    && IsWord(e.category)
    && match e.kind
       case Single => c == e.code
       case First => false
       case Last => exists j: nat :: j < i && entries[j].kind == First && OnlySingles(entries, j, i) && entries[j].code <= c <= e.code
  }

  /** Every closing entry has an opening one in front of it that none has closed. */
  ghost predicate WellPaired(entries: seq<Entry>) {
    forall i :: 0 <= i < |entries| && entries[i].kind == Last ==>
      exists j: nat :: j < i && entries[j].kind == First && OnlySingles(entries, j, i)
  }

  /** The opening entry in force in front of `n`, by its code. */
  ghost predicate Opens(entries: seq<Entry>, n: nat, start: Option<nat>)
    requires n <= |entries|
  {
    match start
    case None => forall j: nat :: j < n && entries[j].kind == First ==> !OnlySingles(entries, j, n)
    case Some(code) => exists j: nat :: j < n && entries[j].kind == First && OnlySingles(entries, j, n) && entries[j].code == code
  }

  lemma OneOpening(entries: seq<Entry>, n: nat, j: nat, k: nat)
    requires n <= |entries| && j < n && k < n && entries[j].kind == First && entries[k].kind == First
    requires OnlySingles(entries, j, n) && OnlySingles(entries, k, n)
    ensures j == k
  {
  }

  lemma OpensNext(entries: seq<Entry>, n: nat, start: Option<nat>)
    requires n < |entries| && Opens(entries, n, start)
    ensures Opens(entries, n + 1, NextOpened(entries[n], start))
  {
    match entries[n].kind
    case First => assert OnlySingles(entries, n, n + 1);
    case Last =>
      assert forall j: nat :: j < n + 1 && entries[j].kind == First ==> !OnlySingles(entries, j, n + 1);
    case Single =>
      assert forall j: nat :: j < n ==> (OnlySingles(entries, j, n + 1) <==> OnlySingles(entries, j, n));
  }

  /** What one entry adds. */
  lemma ClosedLists(entries: seq<Entry>, n: nat, start: Option<nat>, c: nat)
    requires n < |entries| && Opens(entries, n, start)
    ensures Closed(entries[n], start).Some? && Holds(Closed(entries[n], start).value, c) <==> Lists(entries, n, c)
  {
    if entries[n].kind == Last && start.Some? {
      var j: nat :| j < n && entries[j].kind == First && OnlySingles(entries, j, n) && entries[j].code == start.value;
      if Lists(entries, n, c) {
        var k: nat :| k < n && entries[k].kind == First && OnlySingles(entries, k, n) && entries[k].code <= c <= entries[n].code;
        OneOpening(entries, n, j, k);
      }
    }
  }

  lemma {:induction false} CollectedLists(entries: seq<Entry>, n: nat, start: Option<nat>, c: nat)
    requires n <= |entries| && Opens(entries, n, start)
    ensures Covers(Collected(entries[n..], start), c) <==> exists i: nat :: n <= i < |entries| && Lists(entries, i, c)
    ensures Paired(entries[n..], start) <==>
      forall i: nat :: n <= i < |entries| && entries[i].kind == Last ==>
        exists j: nat :: j < i && entries[j].kind == First && OnlySingles(entries, j, i)
    decreases |entries| - n
  {
    if n < |entries| {
      CollectedFromHere(entries, n, start);
      OpensNext(entries, n, start);
      CollectedLists(entries, n + 1, NextOpened(entries[n], start), c);
      ClosedLists(entries, n, start, c);
      var closed := Closed(entries[n], start);
      var first := if closed.Some? then [closed.value] else [];
      CoversConcat(first, Collected(entries[n + 1..], NextOpened(entries[n], start)), c);
      if closed.Some? {
        CoversOne(closed.value, c);
      }
    } else {
      assert entries[n..] == [];
    }
  }

  /** The collected ranges cover exactly the listed code points, and the build goes through exactly
      when every closing entry has its opening one. */
  lemma CollectedIsListed(entries: seq<Entry>)
    ensures forall c :: Covers(Collected(entries, None), c) <==> exists i: nat :: i < |entries| && Lists(entries, i, c)
    ensures Paired(entries, None) <==> WellPaired(entries)
  {
    assert entries[0..] == entries;
    forall c
      ensures Covers(Collected(entries, None), c) <==> exists i: nat :: i < |entries| && Lists(entries, i, c)
    {
      CollectedLists(entries, 0, None, c);
    }
    CollectedLists(entries, 0, None, 0);
  }

  // ----- sorting

  predicate Before(a: Range, b: Range) { a.0 < b.0 || (a.0 == b.0 && a.1 <= b.1) }

  predicate Sorted(s: seq<Range>) { forall i, j :: 0 <= i < j < |s| ==> Before(s[i], s[j]) }

  /** Stands for the library's sort: the ranges in order, each as often as before. */
  method Sort(ranges: seq<Range>) returns (s: seq<Range>)
    ensures Sorted(s) && multiset(s) == multiset(ranges)
  {
    s := [];
    for i := 0 to |ranges|
      invariant Sorted(s) && multiset(s) == multiset(ranges[..i])
    {
      var k := 0;
      while k < |s| && Before(s[k], ranges[i])
        invariant k <= |s| && forall j :: 0 <= j < k ==> Before(s[j], ranges[i])
      {
        k := k + 1;
      }
      InsertKeepsSorted(s, k, ranges[i]);
      assert s == s[..k] + s[k..] && ranges[..i + 1] == ranges[..i] + [ranges[i]];
      s := s[..k] + [ranges[i]] + s[k..];
    }
    assert ranges[..|ranges|] == ranges;
  }

  lemma InsertKeepsSorted(s: seq<Range>, k: nat, r: Range)
    requires Sorted(s) && k <= |s| && (forall j :: 0 <= j < k ==> Before(s[j], r)) && (k < |s| ==> !Before(s[k], r))
    ensures Sorted(s[..k] + [r] + s[k..])
  {
  }

  // ----- merging

  /** Nonempty ranges, ascending, with at least one code point free between neighbours. */
  predicate Canonical(t: seq<Range>) {
    && (forall i :: 0 <= i < |t| ==> t[i].0 <= t[i].1)
    && (forall i :: 0 <= i < |t| - 1 ==> t[i].1 + 1 < t[i + 1].0)
  }

  predicate Proper(ranges: seq<Range>) { forall r :: r in ranges ==> r.0 <= r.1 }

  /** One step of the loop: extend the last range when the next one touches it, else append. */
  function Absorb(merged: seq<Range>, r: Range): seq<Range> {
    if merged != [] && r.0 <= merged[|merged| - 1].1 + 1 then
      var last := merged[|merged| - 1];
      merged[|merged| - 1 := (last.0, if last.1 >= r.1 then last.1 else r.1)]
    else merged + [r]
  }

  lemma CoversConcat(a: seq<Range>, b: seq<Range>, c: nat)
    ensures Covers(a + b, c) <==> Covers(a, c) || Covers(b, c)
  {
    assert forall r :: r in a || r in b ==> r in a + b;
    assert forall r :: r in a + b ==> r in a || r in b;
  }

  lemma CoversOne(r: Range, c: nat)
    ensures Covers([r], c) <==> Holds(r, c)
  {
    assert r in [r];
  }

  /** A step covers what was covered and the new range, nothing else, even when the ranges are
      empty ones. */
  lemma AbsorbCovers(merged: seq<Range>, r: Range, c: nat)
    requires merged != [] ==> merged[|merged| - 1].0 <= r.0
    ensures Covers(Absorb(merged, r), c) <==> Covers(merged, c) || Holds(r, c)
  {
    if merged != [] && r.0 <= merged[|merged| - 1].1 + 1 {
      var n := |merged| - 1;
      var front, last := merged[..n], merged[n];
      var grown := (last.0, if last.1 >= r.1 then last.1 else r.1);
      assert merged == front + [last] && Absorb(merged, r) == front + [grown];
      CoversConcat(front, [last], c);
      CoversConcat(front, [grown], c);
      CoversOne(last, c);
      CoversOne(grown, c);
    } else {
      CoversConcat(merged, [r], c);
      CoversOne(r, c);
    }
  }

  lemma AbsorbKeepsCanonical(merged: seq<Range>, r: Range)
    requires Canonical(merged) && r.0 <= r.1 && (merged != [] ==> merged[|merged| - 1].0 <= r.0)
    ensures Canonical(Absorb(merged, r))
  {
  }

  /** The merge loop. */
  method Merge(ranges: seq<Range>) returns (merged: seq<Range>)
    requires Sorted(ranges)
    ensures forall c :: Covers(merged, c) <==> Covers(ranges, c)
    ensures Proper(ranges) ==> Canonical(merged)
  {
    merged := [];
    for i := 0 to |ranges|
      invariant forall c :: Covers(merged, c) <==> Covers(ranges[..i], c)
      invariant Proper(ranges) ==> Canonical(merged)
      invariant merged != [] ==> i > 0 && merged[|merged| - 1].0 <= ranges[i - 1].0
    {
      var r := ranges[i];
      ghost var before := merged;
      assert i > 0 ==> Before(ranges[i - 1], ranges[i]);
      if merged != [] && r.0 <= merged[|merged| - 1].1 + 1 {
        var last := merged[|merged| - 1];
        merged := merged[|merged| - 1 := (last.0, if last.1 >= r.1 then last.1 else r.1)];
      } else {
        merged := merged + [r];
      }
      assert merged == Absorb(before, r);
      assert ranges[..i + 1] == ranges[..i] + [r];
      forall c
        ensures Covers(merged, c) <==> Covers(ranges[..i + 1], c)
      {
        AbsorbCovers(before, r, c);
        CoversConcat(ranges[..i], [r], c);
        CoversOne(r, c);
      }
      if Proper(ranges) {
        AbsorbKeepsCanonical(before, r);
      }
    }
    assert ranges[..|ranges|] == ranges;
  }

  // ----- the table as a whole

  /** The whole build step on the entries of the character list: the table covers exactly the
      listed code points and the two joiners, and no other canonical table does, so neither the
      order of the entries nor a repetition shows in it. */
  method BuildTable(entries: seq<Entry>) returns (table: Option<seq<Range>>)
    ensures table.Some? <==> WellPaired(entries)
    ensures table.Some? ==> forall c :: Covers(table.value, c) <==>
      c == 0x200C || c == 0x200D || exists i: nat :: i < |entries| && Lists(entries, i, c)
    ensures table.Some? ==> forall c :: Covers(table.value, c) <==> Holds(JOINERS, c) || Covers(Collected(entries, None), c)
    ensures table.Some? && Proper(Collected(entries, None)) ==> Canonical(table.value)
    ensures table.Some? && Proper(Collected(entries, None)) ==> forall other ::
      Canonical(other) && (forall c :: Covers(other, c) <==> Holds(JOINERS, c) || Covers(Collected(entries, None), c))
      ==> other == table.value
  {
    CollectedIsListed(entries);
    var ranges := Collect(entries);
    if ranges.None? {
      return None;
    }
    var sorted := Sort(ranges.value);
    SameRanges(sorted, ranges.value);
    var merged := Merge(sorted);
    forall c
      ensures Covers(ranges.value, c) <==> Holds(JOINERS, c) || Covers(Collected(entries, None), c)
    {
      CoversConcat([JOINERS], Collected(entries, None), c);
      CoversOne(JOINERS, c);
    }
    if Proper(Collected(entries, None)) {
      forall other | Canonical(other)
        && (forall c :: Covers(other, c) <==> Holds(JOINERS, c) || Covers(Collected(entries, None), c))
        ensures other == merged
      {
        CanonicalIsUnique(other, merged);
      }
    }
    return Some(merged);
  }

  lemma SameRanges(a: seq<Range>, b: seq<Range>)
    requires multiset(a) == multiset(b)
    ensures forall c :: Covers(a, c) <==> Covers(b, c)
    ensures Proper(a) <==> Proper(b)
  {
    assert forall r :: r in a <==> r in multiset(a);
    assert forall r :: r in b <==> r in multiset(b);
  }

  lemma {:induction false} CanonicalAscends(t: seq<Range>, i: nat)
    requires Canonical(t) && i < |t|
    ensures forall j :: i < j < |t| ==> t[i].1 + 1 < t[j].0
    decreases |t| - i
  {
    if i + 1 < |t| {
      CanonicalAscends(t, i + 1);
    }
  }

  /** The first range of a canonical table can be read off what it covers. */
  lemma FirstRange(t: seq<Range>, c: nat)
    requires Canonical(t) && t != []
    ensures Covers(t, c) ==> t[0].0 <= c
    ensures c <= t[0].1 + 1 ==> (Covers(t, c) <==> Holds(t[0], c))
    ensures Covers(t[1..], c) <==> Covers(t, c) && c > t[0].1
  {
    CanonicalAscends(t, 0);
    assert t == [t[0]] + t[1..];
    CoversConcat([t[0]], t[1..], c);
    CoversOne(t[0], c);
    if Covers(t[1..], c) {
      var r :| r in t[1..] && Holds(r, c);
      var j :| 0 <= j < |t[1..]| && t[1..][j] == r;
      assert t[j + 1] == r;
    }
  }

  /** Two canonical tables for the same code points are the same table. */
  lemma {:induction false} CanonicalIsUnique(t: seq<Range>, u: seq<Range>)
    requires Canonical(t) && Canonical(u) && forall c :: Covers(t, c) <==> Covers(u, c)
    ensures t == u
    decreases |t|
  {
    if t == [] || u == [] {
      if t != [] {
        FirstRange(t, t[0].0);
      }
      if u != [] {
        FirstRange(u, u[0].0);
      }
    } else {
      FirstRange(t, t[0].0);
      FirstRange(u, t[0].0);
      FirstRange(u, u[0].0);
      FirstRange(t, u[0].0);
      FirstRange(t, t[0].1 + 1);
      FirstRange(u, t[0].1 + 1);
      FirstRange(t, u[0].1 + 1);
      FirstRange(u, u[0].1 + 1);
      assert t[0] == u[0];
      forall c
        ensures Covers(t[1..], c) <==> Covers(u[1..], c)
      {
        FirstRange(t, c);
        FirstRange(u, c);
      }
      CanonicalIsUnique(t[1..], u[1..]);
      assert t == [t[0]] + t[1..] && u == [u[0]] + u[1..];
    }
  }
}
