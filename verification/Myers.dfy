/** The bounded Myers search that aligns the lines of two texts: the furthest points its rounds
    reach, and why the pairs that its trace gives back are a longest alignment. */
module Myers {
  import opened Wrappers

  type Pair = (nat, nat)

  /** Pairs of equal elements, ascending on both sides. */
  predicate Matching<T(==)>(a: seq<T>, b: seq<T>, pairs: seq<Pair>) {
    && (forall i :: 0 <= i < |pairs| ==> pairs[i].0 < |a| && pairs[i].1 < |b| && a[pairs[i].0] == b[pairs[i].1])
    && (forall i, j :: 0 <= i < j < |pairs| ==> pairs[i].0 < pairs[j].0 && pairs[i].1 < pairs[j].1)
  }

  // ----- how far a round reaches

  /** From a point, as far along its diagonal as the elements are equal. */
  function Slide<T(==)>(a: seq<T>, b: seq<T>, x: nat, y: nat): (end: nat)
    ensures x <= end && (end > x ==> end <= |a| && end - x + y <= |b|)
    ensures forall t :: x <= t < end ==> a[t] == b[t - x + y]
    ensures !(end < |a| && end - x + y < |b| && a[end] == b[end - x + y])
    decreases |a| - x
  {
    if x < |a| && y < |b| && a[x] == b[y] then Slide(a, b, x + 1, y + 1) else x
  }

  /** Round `d` stands on every second diagonal from -d to d. */
  predicate OnRound(d: nat, k: int) { 0 <= k + d && k <= d && (d - k) % 2 == 0 }

  /** Where round `d` enters diagonal `k`: one step down or right from the round before, from
      whichever of the two neighbours is further on. */
  function Start<T(==)>(a: seq<T>, b: seq<T>, d: nat, k: int): (x: nat)
    requires OnRound(d, k)
    ensures x >= k
    decreases d, 0
  {
    if d == 0 then 0
    else if k + d == 0 || (k != d && Reach(a, b, d - 1, k - 1) < Reach(a, b, d - 1, k + 1)) then Reach(a, b, d - 1, k + 1)
    else Reach(a, b, d - 1, k - 1) + 1
  }

  /** The furthest point of diagonal `k` that round `d` gets to, by its left offset. */
  function Reach<T(==)>(a: seq<T>, b: seq<T>, d: nat, k: int): (x: nat)
    requires OnRound(d, k)
    ensures x >= k
    decreases d, 1
  {
    var x := Start(a, b, d, k);
    Slide(a, b, x, x - k)
  }

  /** Both texts are used up, perhaps overshot. */
  predicate Done<T(==)>(a: seq<T>, b: seq<T>, d: nat, k: int)
    requires OnRound(d, k)
  {
    Reach(a, b, d, k) >= |a| && Reach(a, b, d, k) - k >= |b|
  }

  lemma StepRight<T>(a: seq<T>, b: seq<T>, d: nat, k: int)
    requires d > 0 && OnRound(d, k) && k + d > 0
    ensures OnRound(d - 1, k - 1) && Reach(a, b, d, k) >= Reach(a, b, d - 1, k - 1) + 1
  {
  }

  lemma StepDown<T>(a: seq<T>, b: seq<T>, d: nat, k: int)
    requires d > 0 && OnRound(d, k) && k < d
    ensures OnRound(d - 1, k + 1) && Reach(a, b, d, k) >= Reach(a, b, d - 1, k + 1)
  {
  }

  /** A point beyond a text was entered from the round before and did not slide. */
  lemma EnteredBeyond<T>(a: seq<T>, b: seq<T>, d: nat, k: int)
    requires OnRound(d, k) && (Reach(a, b, d, k) > |a| || Reach(a, b, d, k) - k > |b|)
    ensures d > 0
    ensures (OnRound(d - 1, k + 1) && Reach(a, b, d, k) == Reach(a, b, d - 1, k + 1))
         || (OnRound(d - 1, k - 1) && Reach(a, b, d, k) == Reach(a, b, d - 1, k - 1) + 1)
  {
    assert Reach(a, b, d, k) == Start(a, b, d, k);
  }

  /** A point beyond the left text has a neighbour as good two diagonals below. */
  lemma {:induction false} TooFarRight<T>(a: seq<T>, b: seq<T>, d: nat, k: int)
    requires OnRound(d, k) && Reach(a, b, d, k) > |a|
    ensures OnRound(d, k - 2) && Reach(a, b, d, k - 2) >= Reach(a, b, d, k) - 1
    decreases d
  {
    hide Reach;
    EnteredBeyond(a, b, d, k);
    if OnRound(d - 1, k + 1) && Reach(a, b, d, k) == Reach(a, b, d - 1, k + 1) {
      TooFarRight(a, b, d - 1, k + 1);
    }
    StepDown(a, b, d, k - 2);
  }

  /** A point beyond the right text has a neighbour as good two diagonals above, and one in the
      round before. */
  lemma {:induction false} TooFarDown<T>(a: seq<T>, b: seq<T>, d: nat, k: int)
    requires OnRound(d, k) && Reach(a, b, d, k) - k > |b|
    ensures OnRound(d, k + 2) && Reach(a, b, d, k + 2) >= Reach(a, b, d, k) + 1
    ensures d > 0 && OnRound(d - 1, k + 1) && Reach(a, b, d - 1, k + 1) >= Reach(a, b, d, k)
    decreases d
  {
    hide Reach;
    EnteredBeyond(a, b, d, k);
    if OnRound(d - 1, k - 1) && Reach(a, b, d, k) == Reach(a, b, d - 1, k - 1) + 1 {
      TooFarDown(a, b, d - 1, k - 1);
    }
    StepRight(a, b, d, k + 2);
  }

  ghost predicate NeverDoneBefore<T>(a: seq<T>, b: seq<T>, d: nat) {
    forall e: nat, k: int :: e < d && OnRound(e, k) ==> !Done(a, b, e, k)
  }

  lemma DoneTooFarRight<T>(a: seq<T>, b: seq<T>, d: nat, k: int)
    requires OnRound(d, k) && Done(a, b, d, k) && Reach(a, b, d, k) > |a|
    ensures OnRound(d, k - 2) && Done(a, b, d, k - 2)
  {
    hide Reach;
    TooFarRight(a, b, d, k);
  }

  lemma DoneTooFarDown<T>(a: seq<T>, b: seq<T>, d: nat, k: int)
    requires OnRound(d, k) && Done(a, b, d, k) && Reach(a, b, d, k) - k > |b|
    ensures d > 0 && OnRound(d - 1, k + 1) && Done(a, b, d - 1, k + 1)
  {
    hide Reach;
    TooFarDown(a, b, d, k);
  }

  /** The first point that uses up both texts uses up exactly both. */
  lemma FirstDoneIsEnd<T>(a: seq<T>, b: seq<T>, d: nat, k: int)
    requires OnRound(d, k) && Done(a, b, d, k) && NeverDoneBefore(a, b, d)
    requires forall j :: OnRound(d, j) && j < k ==> !Done(a, b, d, j)
    ensures Reach(a, b, d, k) == |a| && k == |a| - |b|
  {
    hide Reach;
    if Reach(a, b, d, k) > |a| {
      DoneTooFarRight(a, b, d, k);
    } else if Reach(a, b, d, k) - k > |b| {
      DoneTooFarDown(a, b, d, k);
    }
  }

  lemma RoundOf(i: nat, j: nat, n: nat)
    requires n <= i && n <= j
    ensures i + j - 2 * n >= 0 && OnRound(i + j - 2 * n, i - j)
  {
    assert i + j - 2 * n - (i - j) == 2 * (j - n);
  }

  /** Steps right and down alone reach every point. */
  lemma {:induction false} ReachesAll<T>(a: seq<T>, b: seq<T>, i: nat, j: nat)
    ensures OnRound(i + j, i - j) && Reach(a, b, i + j, i - j) >= i
    decreases i + j
  {
    hide Reach;
    RoundOf(i, j, 0);
    if i > 0 {
      ReachesAll(a, b, i - 1, j);
      StepRight(a, b, i + j, i - j);
    } else if j > 0 {
      ReachesAll(a, b, i, j - 1);
      StepDown(a, b, i + j, i - j);
    }
  }

  // ----- no alignment is longer

  /** The pairs lie in front of the given offsets. */
  predicate Within(pairs: seq<Pair>, i: nat, j: nat) {
    |pairs| <= i && |pairs| <= j && (pairs != [] ==> pairs[|pairs| - 1].0 < i && pairs[|pairs| - 1].1 < j)
  }

  lemma {:induction false} PairsWithin<T>(a: seq<T>, b: seq<T>, pairs: seq<Pair>)
    requires Matching(a, b, pairs)
    ensures forall i :: 0 <= i < |pairs| ==> pairs[i].0 >= i && pairs[i].1 >= i
    decreases |pairs|
  {
    if pairs != [] {
      PairsWithin(a, b, pairs[..|pairs| - 1]);
      var last := |pairs| - 1;
      forall i | 0 <= i < |pairs|
        ensures pairs[i].0 >= i && pairs[i].1 >= i
      {
        assert i < last ==> pairs[i] == pairs[..last][i];
        assert i == last > 0 ==> pairs[last - 1] == pairs[..last][last - 1];
      }
    }
  }

  lemma Shorter<T>(a: seq<T>, b: seq<T>, pairs: seq<Pair>)
    requires pairs != [] && Matching(a, b, pairs)
    ensures var last := pairs[|pairs| - 1];
      last.0 < |a| && last.1 < |b| && a[last.0] == b[last.1]
      && Matching(a, b, pairs[..|pairs| - 1]) && Within(pairs[..|pairs| - 1], last.0, last.1)
  {
    PairsWithin(a, b, pairs);
  }

  /** Rounds as many as an alignment leaves elements out reach at least as far as it does. */
  lemma {:induction false} MatchingIsReached<T>(a: seq<T>, b: seq<T>, pairs: seq<Pair>, i: nat, j: nat)
    requires Matching(a, b, pairs) && Within(pairs, i, j) && i <= |a| && j <= |b|
    ensures OnRound(i + j - 2 * |pairs|, i - j) && Reach(a, b, i + j - 2 * |pairs|, i - j) >= i
    decreases i + j
  {
    hide Reach, Matching;
    var e := i + j - 2 * |pairs|;
    RoundOf(i, j, |pairs|);
    if pairs != [] && pairs[|pairs| - 1] == (i - 1, j - 1) {
      Shorter(a, b, pairs);
      MatchingIsReached(a, b, pairs[..|pairs| - 1], i - 1, j - 1);
      StepDiagonal(a, b, e, i, j);
    } else if i > 0 && (pairs != [] ==> pairs[|pairs| - 1].0 < i - 1) {
      WithinLess(a, b, pairs, i, j);
      MatchingIsReached(a, b, pairs, i - 1, j);
      StepRight(a, b, e, i - j);
    } else if j > 0 {
      WithinLess(a, b, pairs, i, j);
      MatchingIsReached(a, b, pairs, i, j - 1);
      StepDown(a, b, e, i - j);
    }
  }

  lemma StepDiagonal<T>(a: seq<T>, b: seq<T>, e: nat, i: nat, j: nat)
    requires 0 < i <= |a| && 0 < j <= |b| && a[i - 1] == b[j - 1]
    requires OnRound(e, i - j) && Reach(a, b, e, i - j) >= i - 1
    ensures Reach(a, b, e, i - j) >= i
  {
  }

  lemma WithinLess<T>(a: seq<T>, b: seq<T>, pairs: seq<Pair>, i: nat, j: nat)
    requires Matching(a, b, pairs) && Within(pairs, i, j)
    ensures i > 0 && (pairs != [] ==> pairs[|pairs| - 1].0 < i - 1) ==> Within(pairs, i - 1, j)
    ensures j > 0 && (pairs != [] ==> pairs[|pairs| - 1].1 < j - 1) ==> Within(pairs, i, j - 1)
  {
    PairsWithin(a, b, pairs);
  }

  lemma WholeWithin<T>(a: seq<T>, b: seq<T>, pairs: seq<Pair>)
    requires Matching(a, b, pairs)
    ensures Within(pairs, |a|, |b|)
  {
    PairsWithin(a, b, pairs);
    if pairs != [] {
      assert pairs[|pairs| - 1].0 >= |pairs| - 1 && pairs[|pairs| - 1].1 >= |pairs| - 1;
    }
  }

  /** The first round that is done at the very end. */
  ghost predicate EndsAt<T>(a: seq<T>, b: seq<T>, d: nat) {
    && NeverDoneBefore(a, b, d) && OnRound(d, |a| - |b|) && Reach(a, b, d, |a| - |b|) == |a|
  }

  /** No alignment leaves fewer elements out than the number of rounds. */
  lemma NoneIsLonger<T>(a: seq<T>, b: seq<T>, d: nat, pairs: seq<Pair>)
    requires NeverDoneBefore(a, b, d) && Matching(a, b, pairs)
    ensures |a| + |b| - 2 * |pairs| >= d
  {
    WholeWithin(a, b, pairs);
    MatchingIsReached(a, b, pairs, |a|, |b|);
    assert Done(a, b, |a| + |b| - 2 * |pairs|, |a| - |b|);
  }

  // ----- the search

  function Offset<T>(a: seq<T>, b: seq<T>): nat { |a| + |b| + 1 }

  /** The entry of diagonal `k`. */
  function At<T>(a: seq<T>, b: seq<T>, row: seq<nat>, k: int): nat
    requires |row| == 2 * (|a| + |b|) + 3 && 0 <= Offset(a, b) + k < |row|
  {
    row[Offset(a, b) + k]
  }

  /** A row of the trace holds where the round before `d` got to. */
  ghost predicate Remembers<T>(a: seq<T>, b: seq<T>, row: seq<nat>, d: nat) {
    && |row| == 2 * (|a| + |b|) + 3 && d <= |a| + |b| + 1
    && (d == 0 ==> row[Offset(a, b) + 1] == 0)
    && (d > 0 ==> forall k: int :: OnRound(d - 1, k) ==> At(a, b, row, k) == Reach(a, b, d - 1, k))
  }

  /** What the row says of the next round's start on a diagonal. */
  lemma RowGivesStart<T>(a: seq<T>, b: seq<T>, row: seq<nat>, d: nat, k: int)
    requires Remembers(a, b, row, d) && OnRound(d, k) && d <= |a| + |b|
    ensures Start(a, b, d, k) ==
      if k + d == 0 || (k != d && At(a, b, row, k - 1) < At(a, b, row, k + 1)) then At(a, b, row, k + 1)
      else At(a, b, row, k - 1) + 1
  {
    hide Reach;
    if d == 0 {
      assert k == 0;
    } else {
      assert k + d != 0 ==> OnRound(d - 1, k - 1);
      assert k != d ==> OnRound(d - 1, k + 1);
    }
  }

  /** The row while round `d` is at diagonal `k`: the round before on one parity, what is done of
      this round on the other. */
  ghost predicate Halfway<T>(a: seq<T>, b: seq<T>, row: seq<nat>, d: nat, k: int) {
    && Remembers(a, b, row, d)
    && forall j: int :: OnRound(d, j) && j < k ==> At(a, b, row, j) == Reach(a, b, d, j) && !Done(a, b, d, j)
  }

  /** The two rounds stand on different diagonals. */
  lemma Parities(d: nat, k: int)
    requires OnRound(d, k)
    ensures forall j: int :: OnRound(d, j) && j < k + 2 ==> j <= k
    ensures d > 0 ==> !OnRound(d - 1, k)
    ensures d == 0 ==> k == 0
  {
  }

  lemma OneMoreDiagonal<T>(a: seq<T>, b: seq<T>, row: seq<nat>, d: nat, k: int)
    requires Halfway(a, b, row, d, k) && OnRound(d, k) && d <= |a| + |b| && !Done(a, b, d, k)
    ensures 0 <= Offset(a, b) + k < |row|
    ensures Halfway(a, b, row[Offset(a, b) + k := Reach(a, b, d, k)], d, k + 2)
  {
    assert 0 <= k + d && k <= d;
    hide Reach, Done, OnRound;
    Parities(d, k);
    var after := row[Offset(a, b) + k := Reach(a, b, d, k)];
    assert forall j: int :: 0 <= Offset(a, b) + j < |row| && j != k ==> At(a, b, after, j) == At(a, b, row, j);
  }

  lemma RoundFinished<T>(a: seq<T>, b: seq<T>, row: seq<nat>, d: nat)
    requires Halfway(a, b, row, d, d + 2) && NeverDoneBefore(a, b, d) && d <= |a| + |b|
    ensures Remembers(a, b, row, d + 1) && NeverDoneBefore(a, b, d + 1)
  {
    hide Reach, Done;
  }

  /** What the search leaves behind when it ends in round `d`. */
  ghost predicate Traced<T>(a: seq<T>, b: seq<T>, trace: seq<seq<nat>>, d: nat) {
    && |trace| == d + 1 && d <= |a| + |b| && EndsAt(a, b, d)
    && forall e :: 0 <= e <= d ==> Remembers(a, b, trace[e], e)
  }

  /** The loop along a diagonal. */
  method SlideOn<T(==)>(a: seq<T>, b: seq<T>, from: nat, y: nat) returns (x: nat)
    ensures x == Slide(a, b, from, y)
  {
    x := from;
    while x < |a| && x - from + y < |b| && a[x] == b[x - from + y]
      invariant x >= from && Slide(a, b, x, x - from + y) == Slide(a, b, from, y)
      decreases |a| - x
    {
      x := x + 1;
    }
  }

  /** `myers`, first half: round by round, each on the row that the round before left, until both
      texts are used up. It gives up when more rounds are needed than its budget allows. */
  method Search<T(==)>(a: seq<T>, b: seq<T>, rounds: nat) returns (trace: seq<seq<nat>>, d: nat, found: bool)
    ensures found ==> Traced(a, b, trace, d) && d < rounds
    ensures !found ==> NeverDoneBefore(a, b, rounds)
  {
    hide Reach, Start, Slide, Done, Remembers, Halfway, EndsAt, NeverDoneBefore, At, OnRound;
    var max := |a| + |b|;
    var offset := max + 1;
    var v := new nat[2 * max + 3](_ => 0);
    trace, d, found := [], 0, false;
    FirstRow(a, b, v[..]);
    while d <= max && d < rounds
      invariant d <= rounds && |trace| == d <= max + 1 && v.Length == 2 * max + 3
      invariant forall e :: 0 <= e < d ==> Remembers(a, b, trace[e], e)
      invariant Remembers(a, b, v[..], d) && NeverDoneBefore(a, b, d)
      decreases max + 1 - d
    {
      trace := trace + [v[..]];
      var k: int := -(d as int);
      StartRound(a, b, v[..], d);
      while k <= d
        invariant OnRound(d, k) || k == d + 2
        invariant v.Length == 2 * max + 3 && Halfway(a, b, v[..], d, k)
        decreases d + 2 - k
      {
        var at := offset + k;
        Entry(a, b, v[..], d, k);
        var x: nat := if k + d == 0 || (k != d && v[at - 1] < v[at + 1]) then v[at + 1] else v[at - 1] + 1;
        x := SlideOn(a, b, x, x - k);
        Landed(a, b, d, k, x);
        if x >= |a| && x - k >= |b| {
          Found(a, b, v[..], d, k);
          found := true;
          return;
        }
        NotDone(a, b, d, k);
        OneMoreDiagonal(a, b, v[..], d, k);
        ghost var before := v[..];
        v[at] := x;
        assert v[..] == before[at := x];
        NextOnRound(d, k);
        k := k + 2;
      }
      LastOnRound(d, k);
      RoundFinished(a, b, v[..], d);
      d := d + 1;
    }
    RoundsBounded(a, b, d);
  }

  lemma FirstRow<T>(a: seq<T>, b: seq<T>, row: seq<nat>)
    requires |row| == 2 * (|a| + |b|) + 3 && forall i :: 0 <= i < |row| ==> row[i] == 0
    ensures Remembers(a, b, row, 0) && NeverDoneBefore(a, b, 0)
  {
  }

  lemma StartRound<T>(a: seq<T>, b: seq<T>, row: seq<nat>, d: nat)
    requires Remembers(a, b, row, d)
    ensures OnRound(d, -(d as int)) && Halfway(a, b, row, d, -(d as int))
  {
    hide Reach, Done;
  }

  /** The row entries around diagonal `k` give its start. */
  lemma Entry<T>(a: seq<T>, b: seq<T>, row: seq<nat>, d: nat, k: int)
    requires Halfway(a, b, row, d, k) && OnRound(d, k) && d <= |a| + |b|
    ensures var at := |a| + |b| + 1 + k;
      && 0 < at < |row| - 1
      && Start(a, b, d, k) == if k + d == 0 || (k != d && row[at - 1] < row[at + 1]) then row[at + 1] else row[at - 1] + 1
  {
    hide Reach, Done, Start;
    RowGivesStart(a, b, row, d, k);
  }

  lemma Landed<T>(a: seq<T>, b: seq<T>, d: nat, k: int, x: nat)
    requires OnRound(d, k) && x == Slide(a, b, Start(a, b, d, k), Start(a, b, d, k) - k)
    ensures x == Reach(a, b, d, k)
  {
  }

  lemma NotDone<T>(a: seq<T>, b: seq<T>, d: nat, k: int)
    requires OnRound(d, k) && !(Reach(a, b, d, k) >= |a| && Reach(a, b, d, k) - k >= |b|)
    ensures !Done(a, b, d, k)
  {
  }

  lemma NextOnRound(d: nat, k: int)
    requires OnRound(d, k)
    ensures OnRound(d, k + 2) || k == d
  {
  }

  lemma LastOnRound(d: nat, k: int)
    requires k > d && (OnRound(d, k) || k == d + 2)
    ensures k == d + 2
  {
  }

  lemma Found<T>(a: seq<T>, b: seq<T>, row: seq<nat>, d: nat, k: int)
    requires Halfway(a, b, row, d, k) && OnRound(d, k) && NeverDoneBefore(a, b, d)
    requires Reach(a, b, d, k) >= |a| && Reach(a, b, d, k) - k >= |b|
    ensures EndsAt(a, b, d)
  {
    hide Reach;
    FirstDoneIsEnd(a, b, d, k);
  }

  lemma DoneByThen<T>(a: seq<T>, b: seq<T>)
    ensures OnRound(|a| + |b|, |a| - |b|) && Done(a, b, |a| + |b|, |a| - |b|)
  {
    hide Reach;
    ReachesAll(a, b, |a|, |b|);
  }

  lemma RoundsBounded<T>(a: seq<T>, b: seq<T>, d: nat)
    requires NeverDoneBefore(a, b, d)
    ensures d <= |a| + |b|
  {
    hide Done;
    DoneByThen(a, b);
  }

  // ----- the way back

  /** What a row of the trace says of the step into round `d` on diagonal `k`. */
  lemma StepInto<T>(a: seq<T>, b: seq<T>, row: seq<nat>, d: nat, k: int)
    requires Remembers(a, b, row, d) && OnRound(d, k) && 0 < d <= |a| + |b|
    ensures var at := |a| + |b| + 1 + k;
      && 0 < at < |row| - 1
      && var before := if k + d == 0 || (k != d && row[at - 1] < row[at + 1]) then k + 1 else k - 1;
      && OnRound(d - 1, before) && row[|a| + |b| + 1 + before] == Reach(a, b, d - 1, before) >= before
      && Start(a, b, d, k) == Reach(a, b, d - 1, before) + (if before < k then 1 else 0)
  {
    hide Reach, Start;
    RowGivesStart(a, b, row, d, k);
    if k + d == 0 || (k != d && At(a, b, row, k - 1) < At(a, b, row, k + 1)) {
      assert OnRound(d - 1, k + 1);
    } else {
      assert OnRound(d - 1, k - 1);
    }
  }

  /** Between where a round enters a diagonal and where it gets to, the elements are equal. */
  lemma SlidOver<T>(a: seq<T>, b: seq<T>, d: nat, k: int, t: nat)
    requires OnRound(d, k) && Start(a, b, d, k) <= t < Reach(a, b, d, k)
    ensures 0 <= t < |a| && 0 <= t - k < |b| && a[t] == b[t - k]
  {
  }

  /** The pairs found so far, the last one first, none in front of the given point. */
  predicate Collected<T(==)>(a: seq<T>, b: seq<T>, pairs: seq<Pair>, x: int, y: int) {
    && (forall i :: 0 <= i < |pairs| ==>
          x <= pairs[i].0 < |a| && y <= pairs[i].1 < |b| && a[pairs[i].0] == b[pairs[i].1])
    && (forall i, j :: 0 <= i < j < |pairs| ==> pairs[j].0 < pairs[i].0 && pairs[j].1 < pairs[i].1)
  }

  lemma CollectOne<T>(a: seq<T>, b: seq<T>, pairs: seq<Pair>, x: nat, y: nat)
    requires Collected(a, b, pairs, x + 1, y + 1) && x < |a| && y < |b| && a[x] == b[y]
    ensures Collected(a, b, pairs + [(x, y)], x, y)
  {
  }

  lemma CollectedBelow<T>(a: seq<T>, b: seq<T>, pairs: seq<Pair>, x: int, y: int, x': int, y': int)
    requires Collected(a, b, pairs, x, y) && x' <= x && y' <= y
    ensures Collected(a, b, pairs, x', y')
  {
  }

  function Reversed(pairs: seq<Pair>): seq<Pair> {
    seq(|pairs|, i requires 0 <= i < |pairs| => pairs[|pairs| - 1 - i])
  }

  lemma CollectedMatches<T>(a: seq<T>, b: seq<T>, pairs: seq<Pair>, x: nat, y: nat)
    requires Collected(a, b, pairs, x, y)
    ensures Matching(a, b, Reversed(pairs)) && |Reversed(pairs)| == |pairs|
  {
  }

  lemma RoundZero<T>(a: seq<T>, b: seq<T>, k: int)
    requires OnRound(0, k)
    ensures k == 0 && Start(a, b, 0, k) == 0
  {
  }

  /** `myers`, second half: from the end back to the start, sliding back along each diagonal to
      where its round entered it. Every round leaves one element out. */
  method WayBack<T(==)>(a: seq<T>, b: seq<T>, trace: seq<seq<nat>>, final: nat) returns (pairs: seq<Pair>)
    requires Traced(a, b, trace, final)
    ensures Matching(a, b, pairs) && |a| + |b| == 2 * |pairs| + final
  {
    hide Reach, Start, Remembers, OnRound, Collected, Matching, NeverDoneBefore, At;
    var offset := |a| + |b| + 1;
    var x: nat, y: nat, d: nat := |a|, |b|, final;
    pairs := [];
    NoneCollected(a, b);
    while d > 0
      invariant x <= |a| && y <= |b| && d <= final
      invariant OnRound(d, x - y) && Reach(a, b, d, x - y) == x
      invariant Collected(a, b, pairs, x, y)
      invariant |a| + |b| == x + y + 2 * |pairs| + (final - d)
    {
      var v, k := trace[d], x - y;
      StepInto(a, b, v, d, k);
      var at := offset + k;
      var before := if k + d == 0 || (k != d && v[at - 1] < v[at + 1]) then k + 1 else k - 1;
      var px := v[offset + before];
      var py: nat := px - before;
      StartBelow(a, b, d, k);
      while x > px && y > py
        invariant x - y == k && Start(a, b, d, k) <= x <= Reach(a, b, d, k)
        invariant x <= |a| && y <= |b|
        invariant Collected(a, b, pairs, x, y)
        invariant |a| + |b| == x + y + 2 * |pairs| + (final - d)
      {
        SlidOver(a, b, d, k, x - 1);
        x, y := x - 1, y - 1;
        CollectOne(a, b, pairs, x, y);
        pairs := pairs + [(x, y)];
      }
      CollectedBelow(a, b, pairs, x, y, px, py);
      x, y, d := px, py, d - 1;
    }
    RoundZero(a, b, x - y);
    while x > 0 && y > 0
      invariant x == y <= |a| && y <= |b| && x <= Reach(a, b, 0, 0)
      invariant Collected(a, b, pairs, x, y)
      invariant |a| + |b| == x + y + 2 * |pairs| + final
    {
      SlidOver(a, b, 0, 0, x - 1);
      x, y := x - 1, y - 1;
      CollectOne(a, b, pairs, x, y);
      pairs := pairs + [(x, y)];
    }
    CollectedMatches(a, b, pairs, x, y);
    pairs := Reversed(pairs);
  }

  lemma NoneCollected<T>(a: seq<T>, b: seq<T>)
    ensures Collected(a, b, [], |a|, |b|)
  {
  }

  lemma StartBelow<T>(a: seq<T>, b: seq<T>, d: nat, k: int)
    requires OnRound(d, k)
    ensures Start(a, b, d, k) <= Reach(a, b, d, k)
  {
  }

  lemma NothingMatches<T>(a: seq<T>, b: seq<T>)
    ensures Matching(a, b, [])
  {
  }

  /** A longest alignment of two texts. */
  ghost predicate Longest<T(!new)>(a: seq<T>, b: seq<T>, pairs: seq<Pair>) {
    Matching(a, b, pairs) && forall other :: Matching(a, b, other) ==> |other| <= |pairs|
  }

  /** Every alignment leaves out at least as many elements as there are rounds. */
  ghost predicate Exceeds<T(!new)>(a: seq<T>, b: seq<T>, rounds: nat) {
    forall other :: Matching(a, b, other) ==> |a| + |b| - 2 * |other| >= rounds
  }

  /** `myers`: a longest alignment, exactly when some alignment leaves out fewer elements than the
      budget has rounds. */
  method Align<T(!new, ==)>(a: seq<T>, b: seq<T>, rounds: nat) returns (pairs: Option<seq<Pair>>)
    ensures pairs.Some? ==> Longest(a, b, pairs.value) && |a| + |b| - 2 * |pairs.value| < rounds
    ensures pairs.None? ==> Exceeds(a, b, rounds)
    ensures rounds > |a| + |b| ==> pairs.Some?
  {
    var trace, d, found := Search(a, b, rounds);
    if !found {
      forall other | Matching(a, b, other)
        ensures |a| + |b| - 2 * |other| >= rounds
      {
        NoneIsLonger(a, b, rounds, other);
      }
      NothingMatches(a, b);
      return None;
    }
    var back := WayBack(a, b, trace, d);
    forall other | Matching(a, b, other)
      ensures |other| <= |back|
    {
      NoneIsLonger(a, b, d, other);
    }
    pairs := Some(back);
  }
}
