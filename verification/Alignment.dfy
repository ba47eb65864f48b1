/** The lines of two texts aligned around their anchors: equal edges of a gap pair directly, and the
    bounded search aligns its middle or leaves it as one coarse block. */
module Alignment {
  import opened Slices
  import opened Wrappers
  import opened Myers
  import opened Anchors

  /** A matching of the lines from (x, y) to (i, j). */
  predicate MatchingIn<T(==)>(a: seq<T>, b: seq<T>, pairs: seq<Pair>, x: nat, y: nat, i: nat, j: nat) {
    && Matching(a, b, pairs)
    && forall k :: 0 <= k < |pairs| ==> x <= pairs[k].0 < i && y <= pairs[k].1 < j
  }

  /** No matching of a gap is longer. */
  ghost predicate GapBound<T(!new)>(a: seq<T>, b: seq<T>, x: nat, y: nat, i: nat, j: nat, n: nat) {
    forall m: seq<Pair> :: MatchingIn(a, b, m, x, y, i, j) ==> |m| <= n
  }

  function Diagonal(x: nat, y: nat, n: nat): (d: seq<Pair>)
    ensures |d| == n
  {
    seq(n, k requires 0 <= k < n => (x + k, y + k))
  }

  function Moved(pairs: seq<Pair>, x: nat, y: nat): seq<Pair> {
    seq(|pairs|, k requires 0 <= k < |pairs| => (x + pairs[k].0, y + pairs[k].1))
  }

  lemma PairsJoin<T>(a: seq<T>, b: seq<T>, some: seq<Pair>, more: seq<Pair>, x: nat, y: nat, x': nat, y': nat, i: nat, j: nat)
    requires MatchingIn(a, b, some, x, y, x', y') && MatchingIn(a, b, more, x', y', i, j)
    requires x <= x' <= i && y <= y' <= j
    ensures MatchingIn(a, b, some + more, x, y, i, j)
  {
  }

  lemma MovedMatches<T>(a: seq<T>, b: seq<T>, pairs: seq<Pair>, x: nat, y: nat, i: nat, j: nat)
    requires x <= i <= |a| && y <= j <= |b| && Matching(a[x..i], b[y..j], pairs)
    ensures MatchingIn(a, b, Moved(pairs, x, y), x, y, i, j)
  {
  }

  lemma DiagonalMatches<T>(a: seq<T>, b: seq<T>, x: nat, y: nat, n: nat)
    requires x + n <= |a| && y + n <= |b| && a[x..x + n] == b[y..y + n]
    ensures MatchingIn(a, b, Diagonal(x, y, n), x, y, x + n, y + n)
  {
    var pairs := Diagonal(x, y, n);
    forall k | 0 <= k < n
      ensures a[pairs[k].0] == b[pairs[k].1]
    {
      assert a[x + k] == a[x..x + n][k] && b[y + k] == b[y..y + n][k];
    }
  }

  lemma Widen<T>(a: seq<T>, b: seq<T>, pairs: seq<Pair>, x: nat, y: nat, i: nat, j: nat, i': nat, j': nat)
    requires MatchingIn(a, b, pairs, x, y, i, j) && i <= i' && j <= j'
    ensures MatchingIn(a, b, pairs, x, y, i', j')
  {
  }

  // ----- trimming equal edges loses nothing

  lemma WithoutFirst<T(!new)>(a: seq<T>, b: seq<T>, x: nat, y: nat, i: nat, j: nat, n: nat)
    requires GapBound(a, b, x + 1, y + 1, i, j, n)
    ensures GapBound(a, b, x, y, i, j, n + 1)
  {
    forall m: seq<Pair> | MatchingIn(a, b, m, x, y, i, j)
      ensures |m| <= n + 1
    {
      if m != [] {
        assert forall k :: 0 <= k < |m| - 1 ==> m[1..][k] == m[k + 1] && m[0].0 < m[k + 1].0 && m[0].1 < m[k + 1].1;
        assert MatchingIn(a, b, m[1..], x + 1, y + 1, i, j);
      }
    }
  }

  lemma WithoutLast<T(!new)>(a: seq<T>, b: seq<T>, x: nat, y: nat, i: nat, j: nat, n: nat)
    requires GapBound(a, b, x, y, i, j, n)
    ensures GapBound(a, b, x, y, i + 1, j + 1, n + 1)
  {
    forall m: seq<Pair> | MatchingIn(a, b, m, x, y, i + 1, j + 1)
      ensures |m| <= n + 1
    {
      if m != [] {
        assert forall k :: 0 <= k < |m| - 1 ==> m[k].0 < m[|m| - 1].0 && m[k].1 < m[|m| - 1].1;
        assert MatchingIn(a, b, m[..|m| - 1], x, y, i, j);
      }
    }
  }

  lemma {:induction false} Trimmed<T(!new)>(a: seq<T>, b: seq<T>, x: nat, y: nat, i: nat, j: nat, front: nat, back: nat, n: nat)
    requires GapBound(a, b, x + front, y + front, i, j, n)
    ensures GapBound(a, b, x, y, i + back, j + back, front + n + back)
    decreases front + back
  {
    if front > 0 {
      WithoutFirst(a, b, x + front - 1, y + front - 1, i, j, n);
      Trimmed(a, b, x, y, i, j, front - 1, back, n + 1);
    } else if back > 0 {
      WithoutLast(a, b, x, y, i, j, n);
      Trimmed(a, b, x, y, i + 1, j + 1, 0, back - 1, n + 1);
    }
  }

  function MovedBack(pairs: seq<Pair>, x: nat, y: nat): seq<Pair>
    requires forall k :: 0 <= k < |pairs| ==> x <= pairs[k].0 && y <= pairs[k].1
  {
    seq(|pairs|, k requires 0 <= k < |pairs| => (pairs[k].0 - x, pairs[k].1 - y))
  }

  lemma MovedBackMatches<T>(a: seq<T>, b: seq<T>, pairs: seq<Pair>, x: nat, y: nat, i: nat, j: nat)
    requires x <= i <= |a| && y <= j <= |b| && MatchingIn(a, b, pairs, x, y, i, j)
    ensures Matching(a[x..i], b[y..j], MovedBack(pairs, x, y))
  {
  }

  lemma LongestBounds<T(!new)>(a: seq<T>, b: seq<T>, pairs: seq<Pair>, x: nat, y: nat, i: nat, j: nat)
    requires x <= i <= |a| && y <= j <= |b| && Longest(a[x..i], b[y..j], pairs)
    ensures GapBound(a, b, x, y, i, j, |pairs|)
  {
    forall m: seq<Pair> | MatchingIn(a, b, m, x, y, i, j)
      ensures |m| <= |pairs|
    {
      MovedBackMatches(a, b, m, x, y, i, j);
    }
  }

  lemma PairsTakeRoom<T>(a: seq<T>, b: seq<T>, pairs: seq<Pair>, x: nat, y: nat, i: nat, j: nat)
    requires MatchingIn(a, b, pairs, x, y, i, j) && pairs != []
    ensures x < i && y < j
  {
    assert x <= pairs[0].0 < i && y <= pairs[0].1 < j;
  }

  lemma EmptyBound<T(!new)>(a: seq<T>, b: seq<T>, x: nat, y: nat, i: nat, j: nat)
    requires x >= i || y >= j
    ensures GapBound(a, b, x, y, i, j, 0)
  {
    forall m: seq<Pair> | MatchingIn(a, b, m, x, y, i, j)
      ensures m == []
    {
      if m != [] {
        PairsTakeRoom(a, b, m, x, y, i, j);
      }
    }
  }

  // ----- one gap

  /** A coarse block: unpaired lines on both sides, in front of the pairs' next one. */
  predicate Block(pairs: seq<Pair>, x: nat, y: nat, i: nat, j: nat, start: Pair) {
    && x <= start.0 < i && y <= start.1 < j && start.0 - x == start.1 - y
    && (forall k :: 0 <= k < |pairs| ==>
          (pairs[k].0 < start.0 && pairs[k].1 < start.1) || (pairs[k].0 > start.0 && pairs[k].1 > start.1))
    && (start.0 > x ==> (start.0 - 1, start.1 - 1) in pairs)
  }

  /** The equal front of a gap, and then its equal back, as far as they go. */
  predicate Trims<T(==)>(a: seq<T>, b: seq<T>, x: nat, y: nat, i: nat, j: nat, front: nat, back: nat) {
    && x + front <= i - back && i <= |a| && y + front <= j - back && j <= |b|
    && a[x..x + front] == b[y..y + front] && a[i - back..i] == b[j - back..j]
    && !(x + front < i && y + front < j && a[x + front] == b[y + front])
    && !(x + front < i - back && y + front < j - back && a[i - back - 1] == b[j - back - 1])
  }

  /** What becomes of a gap: its pairs, and where it is left as a coarse block. */
  datatype Gap = Gap(pairs: seq<Pair>, capped: Option<Pair>)

  /** The middle between the edges has lines on both sides and no alignment within the budget. */
  ghost predicate Middle<T(!new)>(a: seq<T>, b: seq<T>, x: nat, y: nat, i: nat, j: nat, rounds: nat)
    requires x <= i <= |a| && y <= j <= |b|
  {
    x < i && y < j && Exceeds(a[x..i], b[y..j], rounds)
  }

  /** A gap is aligned as long as possible; or, exactly when its middle exceeds the budget, only
      its edges are paired and the middle is one coarse block. */
  ghost predicate Settled<T(!new)>(a: seq<T>, b: seq<T>, x: nat, y: nat, i: nat, j: nat, rounds: nat, g: Gap) {
    && MatchingIn(a, b, g.pairs, x, y, i, j)
    && (g.capped.None? ==> GapBound(a, b, x, y, i, j, |g.pairs|))
    && exists front: nat, back: nat :: Trims(a, b, x, y, i, j, front, back)
         && (g.capped.Some? <==> Middle(a, b, x + front, y + front, i - back, j - back, rounds))
         && (g.capped.Some? ==>
               && g.capped.value == (x + front, y + front)
               && g.pairs == Diagonal(x, y, front) + Diagonal(i - back, j - back, back))
  }

  lemma OneBehind<T>(a: seq<T>, b: seq<T>, x: nat, y: nat, i: nat, j: nat)
    requires x <= i < |a| && y <= j < |b| && a[x..i] == b[y..j] && a[i] == b[j]
    ensures a[x..i + 1] == b[y..j + 1]
  {
    assert a[x..i + 1] == a[x..i] + [a[i]];
    assert b[y..j + 1] == b[y..j] + [b[j]];
  }

  lemma OneInFront<T>(a: seq<T>, b: seq<T>, x: nat, y: nat, i: nat, j: nat)
    requires 0 < x <= i <= |a| && 0 < y <= j <= |b| && a[x..i] == b[y..j] && a[x - 1] == b[y - 1]
    ensures a[x - 1..i] == b[y - 1..j]
  {
    assert a[x - 1..i] == [a[x - 1]] + a[x..i];
    assert b[y - 1..j] == [b[y - 1]] + b[y..j];
  }

  lemma EqualAt<T>(a: seq<T>, b: seq<T>, x: nat, y: nat, i: nat, j: nat, x': nat, y': nat)
    requires x <= x' < i <= |a| && y <= y' && y <= j <= |b| && x' - x == y' - y && a[x..i] == b[y..j]
    ensures y' < j && a[x'] == b[y']
  {
    assert a[x'] == a[x..i][x' - x] == b[y..j][y' - y] == b[y'];
  }

  /** Equal gaps pair from the front to the end. */
  lemma WholeFront<T>(a: seq<T>, b: seq<T>, x: nat, y: nat, i: nat, j: nat, x': nat, y': nat)
    requires x <= x' <= i <= |a| && y <= y' <= j <= |b| && x' - x == y' - y
    requires !(x' < i && y' < j && a[x'] == b[y'])
    ensures a[x..i] == b[y..j] ==> x' == i && y' == j
  {
    if a[x..i] == b[y..j] && x' < i {
      EqualAt(a, b, x, y, i, j, x', y');
    }
  }

  lemma BlockBetween(x: nat, y: nat, front: nat, xe: nat, ye: nat, i: nat, j: nat)
    requires x + front < xe <= i && y + front < ye <= j
    ensures Block(Diagonal(x, y, front) + Diagonal(xe, ye, i - xe), x, y, i, j, (x + front, y + front))
  {
    var pairs := Diagonal(x, y, front) + Diagonal(xe, ye, i - xe);
    assert front > 0 ==> pairs[front - 1] == (x + front - 1, y + front - 1);
  }

  /** The differing middle of a gap. */
  method AlignMiddle<T(!new, ==)>(a: seq<T>, b: seq<T>, x: nat, y: nat, i: nat, j: nat, rounds: nat)
      returns (pairs: seq<Pair>, capped: Option<Pair>)
    requires x <= i <= |a| && y <= j <= |b|
    ensures MatchingIn(a, b, pairs, x, y, i, j)
    ensures capped.None? ==> GapBound(a, b, x, y, i, j, |pairs|)
    ensures capped.Some? <==> Middle(a, b, x, y, i, j, rounds)
    ensures capped.Some? ==> capped.value == (x, y) && pairs == []
    ensures x == i || y == j ==> pairs == [] && capped.None?
    ensures rounds > |a| + |b| ==> capped.None?
  {
    hide Longest, Exceeds;
    pairs, capped := [], None;
    if x < i && y < j {
      var inner := Align(a[x..i], b[y..j], rounds);
      if inner.None? {
        return pairs, Some((x, y));
      }
      LongestFits(a[x..i], b[y..j], inner.value, rounds);
      LongestBounds(a, b, inner.value, x, y, i, j);
      LongestMatches(a[x..i], b[y..j], inner.value);
      MovedMatches(a, b, inner.value, x, y, i, j);
      pairs := Moved(inner.value, x, y);
    } else {
      EmptyBound(a, b, x, y, i, j);
    }
  }

  lemma LongestFits<T(!new)>(a: seq<T>, b: seq<T>, pairs: seq<Pair>, rounds: nat)
    requires Longest(a, b, pairs) && |a| + |b| - 2 * |pairs| < rounds
    ensures !Exceeds(a, b, rounds)
  {
  }

  lemma LongestMatches<T(!new)>(a: seq<T>, b: seq<T>, pairs: seq<Pair>)
    requires Longest(a, b, pairs)
    ensures Matching(a, b, pairs)
  {
  }

  lemma NothingBetween(pairs: seq<Pair>, more: seq<Pair>)
    ensures pairs + [] + more == pairs + more && (more == [] ==> pairs + more == pairs)
  {
  }

  lemma NoDiagonal(x: nat, y: nat)
    ensures Diagonal(x, y, 0) == []
  {
  }

  lemma DiagonalGrows(x: nat, y: nat, n: nat)
    ensures Diagonal(x, y, n + 1) == Diagonal(x, y, n) + [(x + n, y + n)]
  {
  }

  /** The equal front of a gap. */
  method PairFront<T(==)>(a: seq<T>, b: seq<T>, x: nat, y: nat, i: nat, j: nat) returns (pairs: seq<Pair>, n: nat)
    requires x <= i <= |a| && y <= j <= |b|
    ensures x + n <= i && y + n <= j && a[x..x + n] == b[y..y + n] && pairs == Diagonal(x, y, n)
    ensures !(x + n < i && y + n < j && a[x + n] == b[y + n])
  {
    hide Diagonal;
    pairs, n := [], 0;
    NoDiagonal(x, y);
    while x + n < i && y + n < j && a[x + n] == b[y + n]
      invariant x + n <= i && y + n <= j && pairs == Diagonal(x, y, n) && a[x..x + n] == b[y..y + n]
    {
      OneBehind(a, b, x, y, x + n, y + n);
      DiagonalGrows(x, y, n);
      pairs, n := pairs + [(x + n, y + n)], n + 1;
    }
  }

  /** The equal back of a gap. */
  method TrimBack<T(==)>(a: seq<T>, b: seq<T>, x: nat, y: nat, i: nat, j: nat) returns (n: nat)
    requires x <= i <= |a| && y <= j <= |b|
    ensures x <= i - n && y <= j - n && a[i - n..i] == b[j - n..j]
    ensures !(x < i - n && y < j - n && a[i - n - 1] == b[j - n - 1])
  {
    n := 0;
    while x < i - n && y < j - n && a[i - n - 1] == b[j - n - 1]
      invariant x <= i - n && y <= j - n && a[i - n..i] == b[j - n..j]
    {
      OneInFront(a, b, i - n, j - n, i, j);
      n := n + 1;
    }
  }

  method AlignGap<T(!new, ==)>(a: seq<T>, b: seq<T>, x: nat, y: nat, i: nat, j: nat, rounds: nat)
      returns (pairs: seq<Pair>, capped: Option<Pair>)
    requires x <= i <= |a| && y <= j <= |b|
    ensures MatchingIn(a, b, pairs, x, y, i, j)
    ensures capped.None? ==> GapBound(a, b, x, y, i, j, |pairs|)
    ensures Settled(a, b, x, y, i, j, rounds, Gap(pairs, capped))
    ensures capped.Some? ==> Block(pairs, x, y, i, j, capped.value)
    ensures rounds > |a| + |b| ==> capped.None?
    ensures a[x..i] == b[y..j] ==> capped.None? && pairs == Diagonal(x, y, i - x)
  {
    hide MatchingIn, GapBound, Block, Diagonal, Trims, Middle, Settled;
    var inner: seq<Pair>, front, back;
    pairs, front := PairFront(a, b, x, y, i, j);
    DiagonalMatches(a, b, x, y, front);
    WholeFront(a, b, x, y, i, j, x + front, y + front);
    back := TrimBack(a, b, x + front, y + front, i, j);
    var xe, ye := i - back, j - back;
    EdgesTrim(a, b, x, y, i, j, front, back);
    DiagonalMatches(a, b, xe, ye, back);
    inner, capped := AlignMiddle(a, b, x + front, y + front, xe, ye, rounds);
    PairsJoin(a, b, pairs, inner, x, y, x + front, y + front, xe, ye);
    PairsJoin(a, b, pairs + inner, Diagonal(xe, ye, back), x, y, xe, ye, i, j);
    NothingBetween(pairs, Diagonal(xe, ye, back));
    NoDiagonal(xe, ye);
    if capped.Some? {
      MiddleHasRoom(a, b, x + front, y + front, xe, ye, rounds);
      BlockBetween(x, y, front, xe, ye, i, j);
    } else {
      Trimmed(a, b, x, y, xe, ye, front, back, |inner|);
    }
    pairs := pairs + inner + Diagonal(xe, ye, back);
    EdgesSettle(a, b, x, y, i, j, rounds, Gap(pairs, capped), front, back);
  }

  lemma EdgesTrim<T>(a: seq<T>, b: seq<T>, x: nat, y: nat, i: nat, j: nat, front: nat, back: nat)
    requires x + front <= i - back && i <= |a| && y + front <= j - back && j <= |b|
    requires a[x..x + front] == b[y..y + front] && a[i - back..i] == b[j - back..j]
    requires !(x + front < i && y + front < j && a[x + front] == b[y + front])
    requires !(x + front < i - back && y + front < j - back && a[i - back - 1] == b[j - back - 1])
    ensures Trims(a, b, x, y, i, j, front, back)
  {
  }

  lemma MiddleHasRoom<T(!new)>(a: seq<T>, b: seq<T>, x: nat, y: nat, i: nat, j: nat, rounds: nat)
    requires x <= i <= |a| && y <= j <= |b| && Middle(a, b, x, y, i, j, rounds)
    ensures x < i && y < j
  {
  }

  lemma EdgesSettle<T(!new)>(a: seq<T>, b: seq<T>, x: nat, y: nat, i: nat, j: nat, rounds: nat, g: Gap, front: nat, back: nat)
    requires MatchingIn(a, b, g.pairs, x, y, i, j) && (g.capped.None? ==> GapBound(a, b, x, y, i, j, |g.pairs|))
    requires Trims(a, b, x, y, i, j, front, back) && x + front <= i - back <= |a| && y + front <= j - back <= |b|
    requires g.capped.Some? <==> Middle(a, b, x + front, y + front, i - back, j - back, rounds)
    requires g.capped.Some? ==>
      && g.capped.value == (x + front, y + front)
      && g.pairs == Diagonal(x, y, front) + Diagonal(i - back, j - back, back)
    ensures Settled(a, b, x, y, i, j, rounds, g)
  {
    hide MatchingIn, GapBound, Middle, Diagonal;
  }

  // ----- all gaps

  predicate Through(pairs: seq<Pair>, anchors: seq<Pair>) {
    forall k :: 0 <= k < |anchors| ==> anchors[k] in pairs
  }

  /** At most `n` pairs of a matching lie in front of a point. */
  predicate AtMost(pairs: seq<Pair>, x: nat, y: nat, n: nat) {
    forall t :: 0 <= t < |pairs| && pairs[t].0 < x && pairs[t].1 < y ==> t < n
  }

  /** The gaps end at the anchors and at the end. */
  function Stop<T>(a: seq<T>, b: seq<T>, anchors: seq<Pair>, n: nat): Pair
    requires n <= |anchors|
  {
    if n < |anchors| then anchors[n] else (|a|, |b|)
  }

  /** A gap starts behind the stop before it. */
  function Next<T>(a: seq<T>, b: seq<T>, anchors: seq<Pair>, n: nat): Pair
    requires n <= |anchors| + 1
  {
    if n == 0 then (0, 0) else (Stop(a, b, anchors, n - 1).0 + 1, Stop(a, b, anchors, n - 1).1 + 1)
  }

  /** The part of a matching between two indices. */
  lemma PartMatches<T>(a: seq<T>, b: seq<T>, m: seq<Pair>, s: nat, t: nat, x: nat, y: nat, i: nat, j: nat)
    requires Matching(a, b, m) && s < t <= |m|
    requires x <= m[s].0 && y <= m[s].1 && m[t - 1].0 < i && m[t - 1].1 < j
    ensures MatchingIn(a, b, m[s..t], x, y, i, j)
  {
    var part := m[s..t];
    assert forall k :: 0 <= k < |part| ==> part[k] == m[s + k];
    forall k | 0 <= k < |part|
      ensures x <= part[k].0 < i && y <= part[k].1 < j
    {
      assert part[k] == m[s + k];
      assert k > 0 ==> m[s].0 < m[s + k].0 && m[s].1 < m[s + k].1;
      assert s + k < t - 1 ==> m[s + k].0 < m[t - 1].0 && m[s + k].1 < m[t - 1].1;
    }
  }

  /** A matching that goes through a stop has all its other pairs in front of it or behind it. */
  lemma SplitAt<T>(a: seq<T>, b: seq<T>, m: seq<Pair>, p: Pair) returns (s: nat)
    requires Matching(a, b, m) && p in m
    ensures s < |m| && m[s] == p
    ensures forall k :: 0 <= k < |m| ==> (k < s <==> m[k].0 < p.0) && (k < s <==> m[k].1 < p.1)
    ensures forall k :: s < k < |m| ==> m[k].0 > p.0 && m[k].1 > p.1
  {
    s :| s < |m| && m[s] == p;
  }

  /** Where the pairs of a gap start in a matching through the anchors. */
  lemma GapFirst<T>(a: seq<T>, b: seq<T>, m: seq<Pair>, anchors: seq<Pair>, n: nat, count: nat) returns (s: nat)
    requires Matching(a, b, m) && Through(m, anchors) && n <= |anchors|
    requires AtMost(m, Next(a, b, anchors, n).0, Next(a, b, anchors, n).1, count)
    ensures s <= count && s <= |m|
    ensures s < |m| ==> m[s].0 >= Next(a, b, anchors, n).0 && m[s].1 >= Next(a, b, anchors, n).1
  {
    if n == 0 {
      s := 0;
    } else {
      s := SplitAt(a, b, m, anchors[n - 1]);
      s := s + 1;
      assert m[s - 1] == anchors[n - 1];
    }
  }

  lemma GapAtMost<T(!new)>(a: seq<T>, b: seq<T>, m: seq<Pair>, x: nat, y: nat, i: nat, j: nat, s: nat, t: nat, g: nat)
    requires Matching(a, b, m) && GapBound(a, b, x, y, i, j, g) && s <= t <= |m|
    requires s < |m| ==> x <= m[s].0 && y <= m[s].1
    requires t > 0 ==> m[t - 1].0 < i && m[t - 1].1 < j
    ensures t <= s + g
  {
    if s < t {
      PartMatches(a, b, m, s, t, x, y, i, j);
      assert |m[s..t]| <= g;
    }
  }

  /** One more gap and its stop. */
  lemma StopAtMost<T(!new)>(a: seq<T>, b: seq<T>, m: seq<Pair>, anchors: seq<Pair>, n: nat, count: nat, g: nat)
    requires Matching(a, b, m) && Through(m, anchors) && n <= |anchors|
    requires AtMost(m, Next(a, b, anchors, n).0, Next(a, b, anchors, n).1, count)
    requires var from, to := Next(a, b, anchors, n), Stop(a, b, anchors, n); GapBound(a, b, from.0, from.1, to.0, to.1, g)
    ensures var next := Next(a, b, anchors, n + 1);
      AtMost(m, next.0, next.1, count + g + (if n < |anchors| then 1 else 0))
  {
    hide GapBound, Matching;
    var from, to, next := Next(a, b, anchors, n), Stop(a, b, anchors, n), Next(a, b, anchors, n + 1);
    var s := GapFirst(a, b, m, anchors, n, count);
    if n < |anchors| {
      var e := SplitAt(a, b, m, to);
      if s <= e {
        GapAtMost(a, b, m, from.0, from.1, to.0, to.1, s, e, g);
      }
    } else {
      WholeInside(a, b, m);
      GapAtMost(a, b, m, from.0, from.1, to.0, to.1, s, |m|, g);
    }
  }

  lemma WholeInside<T>(a: seq<T>, b: seq<T>, m: seq<Pair>)
    requires Matching(a, b, m)
    ensures forall k :: 0 <= k < |m| ==> m[k].0 < |a| && m[k].1 < |b|
  {
  }

  /** No alignment through the anchors is longer. */
  ghost predicate LongestThrough<T(!new)>(a: seq<T>, b: seq<T>, anchors: seq<Pair>, pairs: seq<Pair>) {
    forall m: seq<Pair> :: Matching(a, b, m) && Through(m, anchors) ==> |m| <= |pairs|
  }

  ghost predicate LongestSoFar<T(!new)>(a: seq<T>, b: seq<T>, anchors: seq<Pair>, n: nat, count: nat)
    requires n <= |anchors| + 1
  {
    forall m: seq<Pair> :: Matching(a, b, m) && Through(m, anchors) ==>
      AtMost(m, Next(a, b, anchors, n).0, Next(a, b, anchors, n).1, count)
  }

  lemma OneMoreGap<T(!new)>(a: seq<T>, b: seq<T>, anchors: seq<Pair>, n: nat, count: nat, g: nat)
    requires n <= |anchors| && LongestSoFar(a, b, anchors, n, count)
    requires var from, to := Next(a, b, anchors, n), Stop(a, b, anchors, n); GapBound(a, b, from.0, from.1, to.0, to.1, g)
    ensures LongestSoFar(a, b, anchors, n + 1, count + g + (if n < |anchors| then 1 else 0))
  {
    hide GapBound, Matching, AtMost, Through;
    forall m: seq<Pair> | Matching(a, b, m) && Through(m, anchors)
      ensures AtMost(m, Next(a, b, anchors, n + 1).0, Next(a, b, anchors, n + 1).1,
                     count + g + (if n < |anchors| then 1 else 0))
    {
      StopAtMost(a, b, m, anchors, n, count, g);
    }
  }

  lemma AllGaps<T(!new)>(a: seq<T>, b: seq<T>, anchors: seq<Pair>, pairs: seq<Pair>)
    requires LongestSoFar(a, b, anchors, |anchors| + 1, |pairs|)
    ensures LongestThrough(a, b, anchors, pairs)
  {
    forall m: seq<Pair> | Matching(a, b, m) && Through(m, anchors)
      ensures |m| <= |pairs|
    {
      WholeInside(a, b, m);
      assert AtMost(m, |a| + 1, |b| + 1, |pairs|);
      assert m != [] ==> m[|m| - 1].0 < |a|;
    }
  }

  /** A coarse block of the whole: a pair or the start right in front of it, and nothing paired
      with its first lines. */
  predicate Opens(pairs: seq<Pair>, start: Pair) {
    && (forall k :: 0 <= k < |pairs| ==>
          (pairs[k].0 < start.0 && pairs[k].1 < start.1) || (pairs[k].0 > start.0 && pairs[k].1 > start.1))
    && (start == (0, 0) || (start.0 > 0 && start.1 > 0 && (start.0 - 1, start.1 - 1) in pairs))
  }

  /** Every coarse block opens one, and lies in front of a point. */
  predicate Blocks(pairs: seq<Pair>, coarse: set<Pair>, x: nat, y: nat) {
    forall c :: c in coarse ==> Opens(pairs, c) && c.0 < x && c.1 < y
  }

  lemma MorePairsKeepBlocks<T>(a: seq<T>, b: seq<T>, pairs: seq<Pair>, more: seq<Pair>, coarse: set<Pair>, x: nat, y: nat, i: nat, j: nat)
    requires Blocks(pairs, coarse, x, y) && MatchingIn(a, b, more, x, y, i, j) && x <= i && y <= j
    ensures Blocks(pairs + more, coarse, i, j)
  {
  }

  lemma OneMoreBlock<T>(a: seq<T>, b: seq<T>, pairs: seq<Pair>, more: seq<Pair>, coarse: set<Pair>, x: nat, y: nat, i: nat, j: nat, start: Pair)
    requires Blocks(pairs + more, coarse, i, j) && MatchingIn(a, b, pairs, 0, 0, x, y) && Block(more, x, y, i, j, start)
    requires (x == 0 && y == 0) || (x > 0 && y > 0 && (x - 1, y - 1) in pairs)
    ensures Blocks(pairs + more, coarse + {start}, i, j) && start.0 < i && start.1 < j
  {
  }

  lemma StopInside<T>(a: seq<T>, b: seq<T>, anchors: seq<Pair>, n: nat)
    requires Matching(a, b, anchors) && n <= |anchors|
    ensures Next(a, b, anchors, n).0 <= Stop(a, b, anchors, n).0 <= |a|
    ensures Next(a, b, anchors, n).1 <= Stop(a, b, anchors, n).1 <= |b|
    ensures n < |anchors| ==> Stop(a, b, anchors, n).0 < |a|
  {
  }

  lemma StopMatches<T>(a: seq<T>, b: seq<T>, anchors: seq<Pair>, n: nat)
    requires Matching(a, b, anchors) && n < |anchors|
    ensures var p := anchors[n]; MatchingIn(a, b, [p], p.0, p.1, p.0 + 1, p.1 + 1)
  {
  }

  // ----- what is left of the gaps

  /** The pairs of some gaps, each with the anchor behind it. */
  function Assembled(anchors: seq<Pair>, gaps: seq<Gap>): seq<Pair> {
    if gaps == [] then []
    else
      var n := |gaps| - 1;
      Assembled(anchors, gaps[..n]) + gaps[n].pairs + (if n < |anchors| then [anchors[n]] else [])
  }

  function CoarseOf(gaps: seq<Gap>): set<Pair> {
    if gaps == [] then {}
    else
      var n := |gaps| - 1;
      CoarseOf(gaps[..n]) + (if gaps[n].capped.Some? then {gaps[n].capped.value} else {})
  }

  /** The gap between two anchors, or before the first or behind the last, is settled within its
      own budget. */
  ghost predicate GapSettled<T(!new)>(a: seq<T>, b: seq<T>, anchors: seq<Pair>, n: nat, rounds: nat, g: Gap)
    requires n <= |anchors|
  {
    var (x, y) := Next(a, b, anchors, n); var (i, j) := Stop(a, b, anchors, n);
    Settled(a, b, x, y, i, j, rounds, g)
  }

  /** Every gap is. */
  ghost predicate AllSettled<T(!new)>(a: seq<T>, b: seq<T>, anchors: seq<Pair>, rounds: nat -> nat, gaps: seq<Gap>) {
    |gaps| <= |anchors| + 1 && forall n :: 0 <= n < |gaps| ==> GapSettled(a, b, anchors, n, rounds(n), gaps[n])
  }

  lemma OneMoreSettled<T(!new)>(a: seq<T>, b: seq<T>, anchors: seq<Pair>, rounds: nat -> nat, gaps: seq<Gap>, g: Gap)
    requires AllSettled(a, b, anchors, rounds, gaps) && |gaps| <= |anchors|
    requires GapSettled(a, b, anchors, |gaps|, rounds(|gaps|), g)
    ensures AllSettled(a, b, anchors, rounds, gaps + [g])
  {
    hide GapSettled;
    var more := gaps + [g];
    assert forall n :: 0 <= n < |gaps| ==> more[n] == gaps[n];
  }

  lemma OneMoreAssembled(anchors: seq<Pair>, gaps: seq<Gap>, g: Gap)
    ensures Assembled(anchors, gaps + [g]) ==
      Assembled(anchors, gaps) + g.pairs + (if |gaps| < |anchors| then [anchors[|gaps|]] else [])
    ensures CoarseOf(gaps + [g]) == CoarseOf(gaps) + (if g.capped.Some? then {g.capped.value} else {})
  {
    assert (gaps + [g])[..|gaps|] == gaps;
  }

  /** One gap of `anchored` with the anchor behind it. */
  method AlignNext<T(!new, ==)>(a: seq<T>, b: seq<T>, ghost anchors: seq<Pair>, ghost n: nat, x: nat, y: nat, i: nat, j: nat,
                            rounds: nat, before: seq<Pair>, blocks: set<Pair>)
      returns (pairs: seq<Pair>, coarse: set<Pair>, ghost g: Gap)
    requires Matching(a, b, anchors) && n <= |anchors|
    requires (x, y) == Next(a, b, anchors, n) && (i, j) == Stop(a, b, anchors, n)
    requires MatchingIn(a, b, before, 0, 0, x, y) && Blocks(before, blocks, x, y)
    requires (x == 0 && y == 0) || (x > 0 && y > 0 && (x - 1, y - 1) in before)
    ensures MatchingIn(a, b, pairs, 0, 0, i + 1, j + 1) && Blocks(pairs, coarse, i + 1, j + 1)
    ensures before <= pairs && blocks <= coarse && forall c :: c in coarse ==> c in blocks || (c.0 < |a| && c.1 < |b|)
    ensures GapSettled(a, b, anchors, n, rounds, g)
    ensures pairs == before + g.pairs + (if n < |anchors| then [anchors[n]] else [])
    ensures coarse == blocks + (if g.capped.Some? then {g.capped.value} else {})
    ensures n < |anchors| ==> (i, j) in pairs
    ensures coarse == {} && LongestSoFar(a, b, anchors, n, |before|) ==> LongestSoFar(a, b, anchors, n + 1, |pairs|)
    ensures rounds > |a| + |b| ==> coarse == blocks
    ensures x <= i && y <= j && i <= |a| && j <= |b|
    ensures a[x..i] == b[y..j] ==>
      coarse == blocks && pairs == before + Diagonal(x, y, if n < |anchors| then i + 1 - x else i - x)
  {
    hide MatchingIn, Blocks, Block, GapBound, LongestSoFar, Diagonal, Matching, Settled;
    StopInside(a, b, anchors, n);
    var gap, capped := AlignGap(a, b, x, y, i, j, rounds);
    g := Gap(gap, capped);
    PairsJoin(a, b, before, gap, 0, 0, x, y, i, j);
    MorePairsKeepBlocks(a, b, before, gap, blocks, x, y, i, j);
    pairs, coarse := before + gap, blocks;
    if capped.Some? {
      OneMoreBlock(a, b, before, gap, blocks, x, y, i, j, capped.value);
      coarse := blocks + {capped.value};
      assert capped.value in coarse;
    } else if LongestSoFar(a, b, anchors, n, |before|) {
      OneMoreGap(a, b, anchors, n, |before|, |gap|);
    }
    if i < |a| {
      assert n < |anchors|;
      StopMatches(a, b, anchors, n);
      PairsJoin(a, b, pairs, [(i, j)], 0, 0, i, j, i + 1, j + 1);
      MorePairsKeepBlocks(a, b, pairs, [(i, j)], coarse, i, j, i + 1, j + 1);
      DiagonalGrows(x, y, i - x);
      ConcatAssociates(before, gap, [(i, j)]);
      assert pairs + [(i, j)] == before + (gap + [(i, j)]);
      pairs := pairs + [(i, j)];
    } else {
      Widen(a, b, pairs, 0, 0, i, j, i + 1, j + 1);
      WidenBlocks(pairs, coarse, i, j);
    }
  }

  lemma WidenBlocks(pairs: seq<Pair>, coarse: set<Pair>, i: nat, j: nat)
    requires Blocks(pairs, coarse, i, j)
    ensures Blocks(pairs, coarse, i + 1, j + 1)
  {
  }

  /** Lines in the same place on both sides: the anchors of a text against itself. */
  lemma OwnAnchors<T(!new)>(a: seq<T>, anchors: seq<Pair>)
    requires SharedOnly(a, a, anchors)
    ensures forall k :: 0 <= k < |anchors| ==> anchors[k].0 == anchors[k].1
  {
  }

  /** What is paired after `n` gaps when both sides are the same. */
  ghost predicate SameSoFar<T>(a: seq<T>, b: seq<T>, anchors: seq<Pair>, n: nat, pairs: seq<Pair>, coarse: set<Pair>)
    requires n <= |anchors| + 1
  {
    a == b ==>
      && coarse == {} && Next(a, b, anchors, n).0 == Next(a, b, anchors, n).1
      && pairs == Diagonal(0, 0, if n <= |anchors| then Next(a, b, anchors, n).0 else |a|)
  }

  lemma SameOnceMore<T(!new)>(a: seq<T>, b: seq<T>, anchors: seq<Pair>, n: nat, pairs: seq<Pair>, coarse: set<Pair>,
                              pairs': seq<Pair>, coarse': set<Pair>)
    requires SharedOnly(a, b, anchors) && n <= |anchors| && SameSoFar(a, b, anchors, n, pairs, coarse)
    requires var (x, y) := Next(a, b, anchors, n); var (i, j) := Stop(a, b, anchors, n);
      && x <= i <= |a| && y <= j <= |b|
      && (a[x..i] == b[y..j] ==>
            coarse' == coarse && pairs' == pairs + Diagonal(x, y, if n < |anchors| then i + 1 - x else i - x))
    ensures SameSoFar(a, b, anchors, n + 1, pairs', coarse')
  {
    if a == b {
      OwnAnchors(a, anchors);
    }
  }

  /** As many anchors as can be. */
  ghost predicate LargestAnchors<T(!new)>(a: seq<T>, b: seq<T>, anchors: seq<Pair>) {
    SharedOnly(a, b, anchors) && forall other :: SharedOnly(a, b, other) ==> |other| <= |anchors|
  }

  /** What is aligned after `n` gaps. */
  ghost predicate Standing<T(!new)>(a: seq<T>, b: seq<T>, anchors: seq<Pair>, rounds: nat -> nat, n: nat,
                                   pairs: seq<Pair>, coarse: set<Pair>, gaps: seq<Gap>) {
    && |gaps| == n <= |anchors| + 1 && AllSettled(a, b, anchors, rounds, gaps)
    && pairs == Assembled(anchors, gaps) && coarse == CoarseOf(gaps)
    && MatchingIn(a, b, pairs, 0, 0, Next(a, b, anchors, n).0, Next(a, b, anchors, n).1)
    && Blocks(pairs, coarse, Next(a, b, anchors, n).0, Next(a, b, anchors, n).1)
    && (forall k :: 0 <= k < n && k < |anchors| ==> anchors[k] in pairs)
    && (coarse == {} ==> LongestSoFar(a, b, anchors, n, |pairs|))
    && (forall c :: c in coarse ==> c.0 < |a| && c.1 < |b|)
    && ((forall n :: rounds(n) > |a| + |b|) ==> coarse == {})
    && SameSoFar(a, b, anchors, n, pairs, coarse)
  }

  /** One gap further. */
  method OneGap<T(!new, ==)>(a: seq<T>, b: seq<T>, anchors: seq<Pair>, rounds: nat -> nat, n: nat,
                             before: seq<Pair>, blocks: set<Pair>, ghost settled: seq<Gap>)
      returns (pairs: seq<Pair>, coarse: set<Pair>, ghost gaps: seq<Gap>)
    requires SharedOnly(a, b, anchors) && n <= |anchors| && Standing(a, b, anchors, rounds, n, before, blocks, settled)
    ensures Standing(a, b, anchors, rounds, n + 1, pairs, coarse, gaps)
  {
    hide MatchingIn, Blocks, LongestSoFar, Diagonal, Matching, SameSoFar, SharedOnly, GapSettled, Assembled, CoarseOf, AllSettled;
    SharedMatches(a, b, anchors);
    var (x, y) := if n == 0 then (0, 0) else (anchors[n - 1].0 + 1, anchors[n - 1].1 + 1);
    var (i, j) := if n < |anchors| then anchors[n] else (|a|, |b|);
    ghost var g;
    pairs, coarse, g := AlignNext(a, b, anchors, n, x, y, i, j, rounds(n), before, blocks);
    SameOnceMore(a, b, anchors, n, before, blocks, pairs, coarse);
    OneMoreSettled(a, b, anchors, rounds, settled, g);
    OneMoreAssembled(anchors, settled, g);
    gaps := settled + [g];
    assert blocks <= coarse;
  }

  /** `anchored`: the pairs of all gaps and their anchors, and where its coarse blocks start. */
  method Anchored<T(!new, ==)>(a: seq<T>, b: seq<T>, rounds: nat -> nat)
      returns (pairs: seq<Pair>, coarse: set<Pair>, anchors: seq<Pair>, ghost gaps: seq<Gap>)
    ensures LargestAnchors(a, b, anchors)
    ensures |gaps| == |anchors| + 1 && AllSettled(a, b, anchors, rounds, gaps)
    ensures pairs == Assembled(anchors, gaps) && coarse == CoarseOf(gaps)
    ensures Matching(a, b, pairs) && Through(pairs, anchors)
    ensures coarse == {} ==> LongestThrough(a, b, anchors, pairs)
    ensures forall c :: c in coarse ==> Opens(pairs, c) && c.0 < |a| && c.1 < |b|
    ensures (forall n :: rounds(n) > |a| + |b|) ==> coarse == {}
    ensures a == b ==> coarse == {} && pairs == Diagonal(0, 0, |a|)
  {
    hide Standing, SharedOnly, LongestThrough, Opens, Matching, Diagonal, Assembled, CoarseOf, AllSettled;
    anchors := FindAnchors(a, b);
    pairs, coarse, gaps := [], {}, [];
    NothingAligned(a, b, anchors, rounds);
    for n := 0 to |anchors| + 1
      invariant Standing(a, b, anchors, rounds, n, pairs, coarse, gaps)
    {
      pairs, coarse, gaps := OneGap(a, b, anchors, rounds, n, pairs, coarse, gaps);
    }
    AllAligned(a, b, anchors, rounds, pairs, coarse, gaps);
  }

  lemma SharedMatches<T(!new)>(a: seq<T>, b: seq<T>, anchors: seq<Pair>)
    requires SharedOnly(a, b, anchors)
    ensures Matching(a, b, anchors)
  {
  }

  lemma NothingAligned<T(!new)>(a: seq<T>, b: seq<T>, anchors: seq<Pair>, rounds: nat -> nat)
    ensures Standing(a, b, anchors, rounds, 0, [], {}, [])
  {
  }

  lemma AllAligned<T(!new)>(a: seq<T>, b: seq<T>, anchors: seq<Pair>, rounds: nat -> nat,
                            pairs: seq<Pair>, coarse: set<Pair>, gaps: seq<Gap>)
    requires Standing(a, b, anchors, rounds, |anchors| + 1, pairs, coarse, gaps)
    ensures |gaps| == |anchors| + 1 && AllSettled(a, b, anchors, rounds, gaps)
    ensures pairs == Assembled(anchors, gaps) && coarse == CoarseOf(gaps)
    ensures Matching(a, b, pairs) && Through(pairs, anchors)
    ensures coarse == {} ==> LongestThrough(a, b, anchors, pairs)
    ensures forall c :: c in coarse ==> Opens(pairs, c) && c.0 < |a| && c.1 < |b|
    ensures (forall n :: rounds(n) > |a| + |b|) ==> coarse == {}
    ensures a == b ==> coarse == {} && pairs == Diagonal(0, 0, |a|)
  {
    hide LongestSoFar, LongestThrough, AllSettled, Assembled, CoarseOf;
    if coarse == {} {
      AllGaps(a, b, anchors, pairs);
    }
  }
}
