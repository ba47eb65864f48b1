/** The anchors between two lists of lines: of the lines that each side has exactly once, a
    longest chain of pairs ascending on both sides. */
module Anchors {
  import opened Wrappers
  import opened Myers

  /** Where a line was first seen and how often. */
  datatype Seen = Seen(first: nat, count: nat)

  ghost predicate Single<T(!new)>(lines: seq<T>, i: nat) {
    i < |lines| && forall j: nat :: j < |lines| && lines[j] == lines[i] ==> j == i
  }

  /** A table of the lines of a list. */
  ghost predicate Tabled<T(!new)>(lines: seq<T>, table: map<T, Seen>) {
    && (forall i: nat :: i < |lines| ==> lines[i] in table)
    && (forall t :: t in table ==> table[t].first < |lines| && lines[table[t].first] == t && table[t].count > 0)
    && (forall t :: t in table ==> (table[t].count == 1 <==> Single(lines, table[t].first)))
  }

  method Table<T(!new, ==)>(lines: seq<T>) returns (table: map<T, Seen>)
    ensures Tabled(lines, table)
  {
    table := map[];
    for i := 0 to |lines|
      invariant Tabled(lines[..i], table)
    {
      var line := lines[i];
      assert lines[..i + 1] == lines[..i] + [line];
      if line in table {
        SeenAgain(lines[..i], table, line);
        table := table[line := Seen(table[line].first, table[line].count + 1)];
      } else {
        SeenFirst(lines[..i], table, line);
        table := table[line := Seen(i, 1)];
      }
    }
    assert lines[..|lines|] == lines;
  }

  lemma SeenAgain<T(!new)>(lines: seq<T>, table: map<T, Seen>, line: T)
    requires Tabled(lines, table) && line in table
    ensures Tabled(lines + [line], table[line := Seen(table[line].first, table[line].count + 1)])
  {
    var more, after := lines + [line], table[line := Seen(table[line].first, table[line].count + 1)];
    assert more[|lines|] == line;
    forall t | t in after
      ensures after[t].count == 1 <==> Single(more, after[t].first)
    {
      SingleMore(lines, line, after[t].first);
    }
  }

  lemma SeenFirst<T(!new)>(lines: seq<T>, table: map<T, Seen>, line: T)
    requires Tabled(lines, table) && line !in table
    ensures Tabled(lines + [line], table[line := Seen(|lines|, 1)])
  {
    var more, after := lines + [line], table[line := Seen(|lines|, 1)];
    forall t | t in after
      ensures after[t].count == 1 <==> Single(more, after[t].first)
    {
      if t != line {
        SingleMore(lines, line, after[t].first);
      }
    }
  }

  lemma SingleMore<T(!new)>(lines: seq<T>, line: T, i: nat)
    requires i < |lines|
    ensures Single(lines + [line], i) <==> Single(lines, i) && lines[i] != line
  {
    var more := lines + [line];
    assert forall j: nat :: j < |lines| ==> more[j] == lines[j];
    assert more[|lines|] == line;
  }

  /** A line that both sides have exactly once. */
  ghost predicate Shared<T(!new)>(a: seq<T>, b: seq<T>, pair: Pair) {
    Single(a, pair.0) && Single(b, pair.1) && a[pair.0] == b[pair.1]
  }

  /** The shared lines in front of `n`, in the order of the left list. */
  ghost predicate AllShared<T(!new)>(a: seq<T>, b: seq<T>, pairs: seq<Pair>, n: nat) {
    && (forall i :: 0 <= i < |pairs| ==> Shared(a, b, pairs[i]) && pairs[i].0 < n)
    && (forall i, j :: 0 <= i < j < |pairs| ==> pairs[i].0 < pairs[j].0)
    && (forall p: Pair :: Shared(a, b, p) && p.0 < n ==> p in pairs)
  }

  method Candidates<T(!new, ==)>(a: seq<T>, b: seq<T>) returns (pairs: seq<Pair>)
    ensures AllShared(a, b, pairs, |a|)
  {
    var left := Table(a);
    var right := Table(b);
    pairs := [];
    for i := 0 to |a|
      invariant AllShared(a, b, pairs, i)
    {
      var line := a[i];
      SharedByTables(a, b, left, right, i);
      if left[line].count == 1 && line in right && right[line].count == 1 {
        OneMoreShared(a, b, pairs, (i, right[line].first));
        pairs := pairs + [(i, right[line].first)];
      }
    }
  }

  lemma SharedByTables<T(!new)>(a: seq<T>, b: seq<T>, left: map<T, Seen>, right: map<T, Seen>, i: nat)
    requires Tabled(a, left) && Tabled(b, right) && i < |a|
    ensures a[i] in left
    ensures left[a[i]].count == 1 && a[i] in right && right[a[i]].count == 1 ==> Shared(a, b, (i, right[a[i]].first))
    ensures forall p: Pair :: p.0 == i && Shared(a, b, p) ==>
      left[a[i]].count == 1 && a[i] in right && right[a[i]].count == 1 && p.1 == right[a[i]].first
  {
  }

  lemma OneMoreShared<T(!new)>(a: seq<T>, b: seq<T>, pairs: seq<Pair>, p: Pair)
    requires AllShared(a, b, pairs, p.0) && Shared(a, b, p)
    ensures AllShared(a, b, pairs + [p], p.0 + 1)
  {
    var more := pairs + [p];
    assert more[|pairs|] == p;
    forall q: Pair | Shared(a, b, q) && q.0 < p.0 + 1
      ensures q in more
    {
      if q.0 == p.0 {
        assert q.1 == p.1;
        assert q == p;
      }
    }
  }

  // ----- a longest ascending chain

  /** How many of the ends lie below a value, the ends being ascending. */
  function Below(values: seq<nat>, ends: seq<nat>, value: nat): (p: nat)
    requires forall t :: 0 <= t < |ends| ==> ends[t] < |values|
    ensures p <= |ends| && (p > 0 ==> values[ends[p - 1]] < value) && (p < |ends| ==> values[ends[p]] >= value)
  {
    if ends == [] then 0
    else if values[ends[|ends| - 1]] < value then |ends|
    else Below(values, ends[..|ends| - 1], value)
  }

  /** The end of each pile: its latest value, ascending from pile to pile. */
  predicate Ended(values: seq<nat>, ends: seq<nat>, rank: seq<nat>) {
    && |rank| <= |values|
    && (forall t :: 0 <= t < |ends| ==> ends[t] < |rank| && rank[ends[t]] == t)
    && (forall s, t :: 0 <= s < t < |ends| ==> values[ends[s]] < values[ends[t]])
  }

  /** No value of a pile is below the pile's end. */
  predicate Sunk(values: seq<nat>, ends: seq<nat>, rank: seq<nat>)
    requires Ended(values, ends, rank)
  {
    forall i :: 0 <= i < |rank| ==> rank[i] < |ends| && values[ends[rank[i]]] <= values[i]
  }

  /** Each value links to a smaller one that was put on the pile before, the first pile's to none. */
  predicate Linked(values: seq<nat>, links: seq<Option<nat>>, rank: seq<nat>) {
    && |links| == |rank| <= |values|
    && (forall i :: 0 <= i < |links| ==> (links[i].None? <==> rank[i] == 0))
    && (forall i :: 0 <= i < |links| && links[i].Some? ==>
          links[i].value < i && rank[links[i].value] == rank[i] - 1 && values[links[i].value] < values[i])
  }

  /** Each value is on a later pile than every smaller value in front of it. */
  ghost predicate Outranks(values: seq<nat>, rank: seq<nat>) {
    |rank| <= |values| && forall i, j :: 0 <= i < j < |rank| && values[i] < values[j] ==> rank[i] < rank[j]
  }

  ghost predicate Piled(values: seq<nat>, ends: seq<nat>, links: seq<Option<nat>>, rank: seq<nat>) {
    Ended(values, ends, rank) && Sunk(values, ends, rank) && Linked(values, links, rank) && Outranks(values, rank)
  }

  function Put(ends: seq<nat>, p: nat, n: nat): seq<nat>
    requires p <= |ends|
  {
    if p == |ends| then ends + [n] else ends[p := n]
  }

  function LinkBelow(ends: seq<nat>, p: nat): Option<nat>
    requires p <= |ends|
  {
    if p > 0 then Some(ends[p - 1]) else None
  }

  lemma EndsAscend(values: seq<nat>, ends: seq<nat>, rank: seq<nat>, p: nat)
    requires Ended(values, ends, rank) && |rank| < |values| && p == Below(values, ends, values[|rank|])
    ensures forall t :: 0 <= t < p ==> values[ends[t]] < values[|rank|]
    ensures forall t :: p <= t < |ends| ==> values[ends[t]] >= values[|rank|]
  {
  }

  lemma PutKeepsEnds(values: seq<nat>, ends: seq<nat>, rank: seq<nat>, p: nat)
    requires Ended(values, ends, rank) && |rank| < |values| && p == Below(values, ends, values[|rank|])
    ensures Ended(values, Put(ends, p, |rank|), rank + [p])
  {
    EndsAscend(values, ends, rank, p);
    hide Below;
    var after := Put(ends, p, |rank|);
    assert after[p] == |rank|;
    assert forall t :: 0 <= t < |after| && t != p ==> after[t] == ends[t];
  }

  lemma PutKeepsSunk(values: seq<nat>, ends: seq<nat>, rank: seq<nat>, p: nat)
    requires Ended(values, ends, rank) && Sunk(values, ends, rank)
    requires |rank| < |values| && p == Below(values, ends, values[|rank|])
    requires Ended(values, Put(ends, p, |rank|), rank + [p])
    ensures Sunk(values, Put(ends, p, |rank|), rank + [p])
  {
    EndsAscend(values, ends, rank, p);
    hide Below, Ended;
    var after, more := Put(ends, p, |rank|), rank + [p];
    assert after[p] == |rank|;
    assert forall t :: 0 <= t < |after| && t != p ==> after[t] == ends[t];
    assert forall i :: 0 <= i < |rank| ==> more[i] == rank[i];
  }

  lemma LinkOne(values: seq<nat>, links: seq<Option<nat>>, rank: seq<nat>, link: Option<nat>, p: nat)
    requires Linked(values, links, rank) && |rank| < |values| && (link.None? <==> p == 0)
    requires link.Some? ==>
      link.value < |rank| && rank[link.value] == p - 1 && values[link.value] < values[|rank|]
    ensures Linked(values, links + [link], rank + [p])
  {
    var after, more := links + [link], rank + [p];
    assert after[|rank|] == link && more[|rank|] == p;
    assert forall i :: 0 <= i < |rank| ==> more[i] == rank[i] && after[i] == links[i];
  }

  lemma LinkKeepsLinked(values: seq<nat>, ends: seq<nat>, links: seq<Option<nat>>, rank: seq<nat>, p: nat)
    requires Ended(values, ends, rank) && Linked(values, links, rank)
    requires |rank| < |values| && p == Below(values, ends, values[|rank|])
    ensures Linked(values, links + [LinkBelow(ends, p)], rank + [p])
  {
    hide Below, Linked;
    LinkOne(values, links, rank, LinkBelow(ends, p), p);
  }

  lemma RankOne(values: seq<nat>, rank: seq<nat>, p: nat)
    requires Outranks(values, rank) && |rank| < |values|
    requires forall i :: 0 <= i < |rank| && values[i] < values[|rank|] ==> rank[i] < p
    ensures Outranks(values, rank + [p])
  {
    var more := rank + [p];
    assert more[|rank|] == p;
    assert forall i :: 0 <= i < |rank| ==> more[i] == rank[i];
  }

  lemma OneMoreOutranks(values: seq<nat>, ends: seq<nat>, rank: seq<nat>, p: nat)
    requires Ended(values, ends, rank) && Sunk(values, ends, rank) && Outranks(values, rank)
    requires |rank| < |values| && p == Below(values, ends, values[|rank|])
    ensures Outranks(values, rank + [p])
  {
    EndsAscend(values, ends, rank, p);
    hide Below, Ended, Outranks;
    forall i | 0 <= i < |rank| && values[i] < values[|rank|]
      ensures rank[i] < p
    {
      assert values[ends[rank[i]]] <= values[i];
    }
    RankOne(values, rank, p);
  }

  /** Positions ascending together with their values. */
  ghost predicate Chain(values: seq<nat>, chain: seq<nat>) {
    && (forall i :: 0 <= i < |chain| ==> chain[i] < |values|)
    && (forall i, j :: 0 <= i < j < |chain| ==> chain[i] < chain[j] && values[chain[i]] < values[chain[j]])
  }

  ghost predicate LongestChain(values: seq<nat>, chain: seq<nat>) {
    Chain(values, chain) && forall other :: Chain(values, other) ==> |other| <= |chain|
  }

  lemma {:induction false} RanksBound(values: seq<nat>, rank: seq<nat>, chain: seq<nat>)
    requires |rank| == |values| && Outranks(values, rank) && Chain(values, chain) && chain != []
    ensures rank[chain[|chain| - 1]] >= |chain| - 1
    decreases |chain|
  {
    if |chain| > 1 {
      var front := chain[..|chain| - 1];
      RanksBound(values, rank, front);
      assert front[|front| - 1] == chain[|chain| - 2];
    }
  }

  /** No chain is longer than there are piles. */
  lemma PilesBound(values: seq<nat>, ends: seq<nat>, links: seq<Option<nat>>, rank: seq<nat>)
    requires Piled(values, ends, links, rank) && |rank| == |values|
    ensures forall other :: Chain(values, other) ==> |other| <= |ends|
  {
    hide Ended, Linked, Outranks;
    forall other | Chain(values, other)
      ensures |other| <= |ends|
    {
      if other != [] {
        RanksBound(values, rank, other);
      }
    }
  }

  lemma PrependKeepsChain(values: seq<nat>, i: nat, chain: seq<nat>)
    requires Chain(values, chain) && i < |values|
    requires chain != [] ==> i < chain[0] && values[i] < values[chain[0]]
    ensures Chain(values, [i] + chain)
  {
  }

  /** The patience piles: each value goes onto the first pile whose end is not below it. */
  method Pile(values: seq<nat>) returns (ends: seq<nat>, links: seq<Option<nat>>, ghost rank: seq<nat>)
    ensures Piled(values, ends, links, rank) && |rank| == |values|
  {
    hide Linked, Outranks, Below;
    ends, links, rank := [], [], [];
    NothingPiled(values);
    for n := 0 to |values|
      invariant |rank| == n && Piled(values, ends, links, rank)
    {
      var p := Below(values, ends, values[n]);
      PutKeepsEnds(values, ends, rank, p);
      PutKeepsSunk(values, ends, rank, p);
      LinkKeepsLinked(values, ends, links, rank, p);
      OneMoreOutranks(values, ends, rank, p);
      links := links + [LinkBelow(ends, p)];
      ends := Put(ends, p, n);
      rank := rank + [p];
    }
  }

  lemma NothingPiled(values: seq<nat>)
    ensures Piled(values, [], [], [])
  {
  }

  /** The chain on the way back: it holds the piles above the next position's. */
  predicate Following(values: seq<nat>, piles: nat, rank: seq<nat>, at: Option<nat>, chain: seq<nat>) {
    && |rank| == |values|
    && match at
       case None => |chain| == piles
       case Some(i) =>
         && i < |values| && rank[i] + |chain| + 1 == piles
         && (chain != [] ==> i < chain[0] < |values| && values[i] < values[chain[0]])
  }

  lemma FollowOn(values: seq<nat>, piles: nat, links: seq<Option<nat>>, rank: seq<nat>, i: nat, chain: seq<nat>)
    requires Linked(values, links, rank) && Following(values, piles, rank, Some(i), chain)
    ensures i < |links| && (links[i].Some? ==> links[i].value < i)
    ensures Following(values, piles, rank, links[i], [i] + chain)
  {
  }

  /** The chain from the last pile's end back along the links. */
  method Ascend(values: seq<nat>) returns (chain: seq<nat>)
    ensures LongestChain(values, chain)
  {
    hide Piled, Linked, Following, Chain, LongestChain;
    var ends, links, rank := Pile(values);
    chain := [];
    var at: Option<nat> := if ends == [] then None else Some(ends[|ends| - 1]);
    StartFollowing(values, ends, links, rank);
    while at.Some?
      invariant Chain(values, chain) && Following(values, |ends|, rank, at, chain)
      decreases if at.Some? then at.value + 1 else 0
    {
      FollowOn(values, |ends|, links, rank, at.value, chain);
      PrependFollowed(values, |ends|, rank, at.value, chain);
      chain := [at.value] + chain;
      at := links[at.value];
    }
    FollowedAll(values, ends, links, rank, chain);
  }

  lemma StartFollowing(values: seq<nat>, ends: seq<nat>, links: seq<Option<nat>>, rank: seq<nat>)
    requires Piled(values, ends, links, rank) && |rank| == |values|
    ensures Chain(values, []) && Linked(values, links, rank)
    ensures Following(values, |ends|, rank, if ends == [] then None else Some(ends[|ends| - 1]), [])
  {
  }

  lemma PrependFollowed(values: seq<nat>, piles: nat, rank: seq<nat>, i: nat, chain: seq<nat>)
    requires Chain(values, chain) && Following(values, piles, rank, Some(i), chain)
    ensures Chain(values, [i] + chain)
  {
    PrependKeepsChain(values, i, chain);
  }

  lemma FollowedAll(values: seq<nat>, ends: seq<nat>, links: seq<Option<nat>>, rank: seq<nat>, chain: seq<nat>)
    requires Piled(values, ends, links, rank) && Chain(values, chain) && Following(values, |ends|, rank, None, chain)
    ensures LongestChain(values, chain)
  {
    hide Piled;
    PilesBound(values, ends, links, rank);
  }

  // ----- the anchors

  ghost predicate SharedOnly<T(!new)>(a: seq<T>, b: seq<T>, pairs: seq<Pair>) {
    Matching(a, b, pairs) && forall i :: 0 <= i < |pairs| ==> Shared(a, b, pairs[i])
  }

  function Rights(pairs: seq<Pair>): seq<nat> {
    seq(|pairs|, i requires 0 <= i < |pairs| => pairs[i].1)
  }

  function Chosen(pairs: seq<Pair>, chain: seq<nat>): seq<Pair>
    requires forall i :: 0 <= i < |chain| ==> chain[i] < |pairs|
  {
    seq(|chain|, i requires 0 <= i < |chain| => pairs[chain[i]])
  }

  lemma ChosenMatches<T(!new)>(a: seq<T>, b: seq<T>, pairs: seq<Pair>, chain: seq<nat>)
    requires AllShared(a, b, pairs, |a|) && Chain(Rights(pairs), chain)
    ensures SharedOnly(a, b, Chosen(pairs, chain))
  {
  }

  lemma {:induction false} SharedIsChain<T(!new)>(a: seq<T>, b: seq<T>, pairs: seq<Pair>, some: seq<Pair>)
      returns (chain: seq<nat>)
    requires AllShared(a, b, pairs, |a|) && SharedOnly(a, b, some)
    ensures |chain| == |some| && Chain(Rights(pairs), chain)
    ensures forall i :: 0 <= i < |some| ==> pairs[chain[i]] == some[i]
    decreases |some|
  {
    if some == [] {
      chain := [];
    } else {
      hide AllShared;
      var front, last := some[..|some| - 1], some[|some| - 1];
      AmongShared(a, b, pairs, last);
      chain := SharedIsChain(a, b, pairs, front);
      var k: nat :| k < |pairs| && pairs[k] == last;
      ChainOneMore(pairs, front, chain, last, k);
      chain := chain + [k];
    }
  }

  lemma AmongShared<T(!new)>(a: seq<T>, b: seq<T>, pairs: seq<Pair>, p: Pair)
    requires AllShared(a, b, pairs, |a|) && Shared(a, b, p)
    ensures forall i, j :: 0 <= i < j < |pairs| ==> pairs[i].0 < pairs[j].0
    ensures exists k: nat :: k < |pairs| && pairs[k] == p
  {
    assert p in pairs;
  }

  lemma ChainOneMore(pairs: seq<Pair>, front: seq<Pair>, chain: seq<nat>, last: Pair, k: nat)
    requires forall i, j :: 0 <= i < j < |pairs| ==> pairs[i].0 < pairs[j].0
    requires |chain| == |front| && Chain(Rights(pairs), chain) && k < |pairs| && pairs[k] == last
    requires forall i :: 0 <= i < |front| ==> pairs[chain[i]] == front[i] && front[i].0 < last.0 && front[i].1 < last.1
    ensures Chain(Rights(pairs), chain + [k])
  {
    forall i | 0 <= i < |chain|
      ensures chain[i] < k
    {
      assert pairs[chain[i]] == front[i];
    }
  }

  /** The anchors: a longest ascending choice of the shared lines. */
  method FindAnchors<T(!new, ==)>(a: seq<T>, b: seq<T>) returns (anchors: seq<Pair>)
    ensures SharedOnly(a, b, anchors)
    ensures forall other :: SharedOnly(a, b, other) ==> |other| <= |anchors|
  {
    var pairs := Candidates(a, b);
    var chain := Ascend(Rights(pairs));
    ChosenMatches(a, b, pairs, chain);
    anchors := Chosen(pairs, chain);
    forall other | SharedOnly(a, b, other)
      ensures |other| <= |anchors|
    {
      var asChain := SharedIsChain(a, b, pairs, other);
    }
  }
}
