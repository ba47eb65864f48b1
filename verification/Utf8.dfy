/** UTF-8 text as bytes (section 4 of RFC 3629) and the boundary test the document store
    uses: an offset is a boundary when no continuation byte follows it. */
module Utf8 {
  import opened Slices

  newtype byte = b: int | 0 <= b < 256

  predicate Continuation(b: byte) { 0x80 <= b < 0xC0 }

  /** Bytes of the scalar at the front of `s`, or 0 when no well-formed scalar is there. */
  function Width(s: seq<byte>): nat {
    if s == [] then 0
    else if s[0] < 0x80 then 1
    else if 0xC2 <= s[0] <= 0xDF then
      if |s| >= 2 && Continuation(s[1]) then 2 else 0
    else if 0xE0 <= s[0] <= 0xEF then
      if |s| >= 3 && Continuation(s[1]) && Continuation(s[2])
         && (s[0] == 0xE0 ==> s[1] >= 0xA0) && (s[0] == 0xED ==> s[1] < 0xA0) then 3 else 0
    else if 0xF0 <= s[0] <= 0xF4 then
      if |s| >= 4 && Continuation(s[1]) && Continuation(s[2]) && Continuation(s[3])
         && (s[0] == 0xF0 ==> s[1] >= 0x90) && (s[0] == 0xF4 ==> s[1] < 0x90) then 4 else 0
    else 0
  }

  predicate WellFormed(s: seq<byte>) {
    s == [] || (Width(s) > 0 && WellFormed(s[Width(s)..]))
  }

  /** Number of scalars of a well-formed text. */
  function Scalars(s: seq<byte>): nat
    requires WellFormed(s)
  {
    if s == [] then 0 else 1 + Scalars(s[Width(s)..])
  }

  predicate Boundary(s: seq<byte>, i: nat) {
    i == |s| || (i < |s| && !Continuation(s[i]))
  }

  /** The scalar at the front does not depend on what follows it. */
  lemma WidthIsLocal(s: seq<byte>, t: seq<byte>)
    requires Width(s) > 0
    ensures Width(s) <= |s| && Width(s + t) == Width(s)
    ensures Width(s[..Width(s)]) == Width(s)
  {
    var n := Width(s);
    assert forall k :: 0 <= k < n ==> (s + t)[k] == s[k] == s[..n][k];
  }

  lemma {:induction false} ConcatWellFormed(a: seq<byte>, b: seq<byte>)
    requires WellFormed(a) && WellFormed(b)
    ensures WellFormed(a + b) && Scalars(a + b) == Scalars(a) + Scalars(b)
    decreases |a|
  {
    if a == [] {
      assert a + b == b;
    } else {
      WidthIsLocal(a, b);
      ConcatWellFormed(a[Width(a)..], b);
      assert (a + b)[Width(a)..] == a[Width(a)..] + b;
    }
  }

  /** Within a well-formed text the byte test finds exactly the offsets that split it into
      two well-formed texts. */
  lemma {:induction false} BoundarySplits(s: seq<byte>, i: nat)
    requires WellFormed(s) && i <= |s|
    ensures Boundary(s, i) <==> WellFormed(s[..i]) && WellFormed(s[i..])
    decreases |s|
  {
    if i == 0 || i == |s| {
      assert s[..0] == [] && s[|s|..] == [] && s[..|s|] == s && s[0..] == s;
    } else {
      var n := Width(s);
      WidthIsLocal(s, []);
      if i < n {
        assert s[i..][0] == s[i];
      } else {
        var rest := s[n..];
        BoundarySplits(rest, i - n);
        TailSlices(s, n, i);
        HeadSlices(s, n, i);
        PrefixJoined(s, n, i);
        WidthIsLocal(s[..n], s[n..i]);
      }
    }
  }

  lemma TailSplits(s: seq<byte>, tail: seq<byte>, length: nat)
    requires WellFormed(tail) && length <= |tail| && Boundary(tail, length)
    requires s == tail[..length]
    ensures WellFormed(s)
  {
    BoundarySplits(tail, length);
  }

  lemma TailBoundary(s: seq<byte>, i: nat, j: nat)
    requires i <= j <= |s| && Boundary(s, j)
    ensures Boundary(s[i..], j - i)
  {
  }

  /** Both texts around two boundaries and the text between them are well formed. */
  lemma RangeWellFormed(s: seq<byte>, i: nat, j: nat)
    requires WellFormed(s) && i <= j <= |s| && Boundary(s, i) && Boundary(s, j)
    ensures WellFormed(s[..i]) && WellFormed(s[i..j]) && WellFormed(s[j..])
  {
    BoundarySplits(s, i);
    BoundarySplits(s, j);
    TailSlices(s, i, j);
    TailBoundary(s, i, j);
    TailSplits(s[i..j], s[i..], j - i);
  }

  /** Every offset of a well-formed text has a boundary at most three bytes below it and one
      at most three bytes above it. */
  lemma {:induction false} BoundaryNear(s: seq<byte>, i: nat) returns (below: nat, above: nat)
    requires WellFormed(s) && i <= |s|
    ensures below <= i <= above <= |s| && i - below <= 3 && above - i <= 3
    ensures Boundary(s, below) && Boundary(s, above)
    decreases |s|
  {
    if s == [] {
      below, above := 0, 0;
    } else {
      var n := Width(s);
      WidthIsLocal(s, []);
      if i < n {
        below := 0;
        above := if i == 0 then 0 else n;
        BoundarySplits(s, n);
        assert WellFormed(s[..n]) by { WidthIsLocal(s, []); assert s[..n][n..] == []; }
      } else {
        below, above := BoundaryNear(s[n..], i - n);
        below, above := below + n, above + n;
      }
    }
  }
}
