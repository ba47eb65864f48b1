/** Difference hunks as an edit script from a left text to a right text, and what copying
    hunks across does to the script that remains. */
module HunkScripts {
  import opened Slices
  import opened Wrappers
  import opened EditScripts

  datatype Hunk = Hunk(leftStart: nat, leftEnd: nat, rightStart: nat, rightEnd: nat) {
    function Flip(): Hunk { Hunk(rightStart, rightEnd, leftStart, leftEnd) }
  }

  datatype Direction = LeftToRight | RightToLeft

  /** The hunks explain every difference between the two texts from the given cursors on:
      they ascend on both sides and the stretches between them are equal. */
  predicate Aligned<T(==)>(left: seq<T>, right: seq<T>, hunks: seq<Hunk>, l: nat, r: nat) {
    if hunks == [] then
      l <= |left| && r <= |right| && left[l..] == right[r..]
    else
      var h := hunks[0];
      && l <= h.leftStart <= h.leftEnd <= |left|
      && r <= h.rightStart <= h.rightEnd <= |right|
      && left[l..h.leftStart] == right[r..h.rightStart]
      && Aligned(left, right, hunks[1..], h.leftEnd, h.rightEnd)
  }

  /** A whole script between two texts. */
  predicate IsScript<T(==)>(left: seq<T>, right: seq<T>, hunks: seq<Hunk>) {
    Aligned(left, right, hunks, 0, 0)
  }

  lemma {:induction false} AlignedBounds<T>(left: seq<T>, right: seq<T>, hunks: seq<Hunk>, l: nat, r: nat)
    requires Aligned(left, right, hunks, l, r)
    ensures l <= |left| && r <= |right|
    ensures forall i :: 0 <= i < |hunks| ==>
      && l <= hunks[i].leftStart <= hunks[i].leftEnd <= |left|
      && r <= hunks[i].rightStart <= hunks[i].rightEnd <= |right|
    decreases |hunks|
  {
    if hunks != [] {
      AlignedBounds(left, right, hunks[1..], hunks[0].leftEnd, hunks[0].rightEnd);
      forall i | 0 <= i < |hunks|
        ensures l <= hunks[i].leftStart <= hunks[i].leftEnd <= |left|
        ensures r <= hunks[i].rightStart <= hunks[i].rightEnd <= |right|
      {
        assert i > 0 ==> hunks[i] == hunks[1..][i - 1];
      }
    }
  }

  /** The hunks read as edits of the left text. */
  function EditsOf<T>(left: seq<T>, right: seq<T>, hunks: seq<Hunk>): seq<Edit<T>>
    requires forall i :: 0 <= i < |hunks| ==>
      hunks[i].leftStart <= hunks[i].leftEnd <= |left| && hunks[i].rightStart <= hunks[i].rightEnd <= |right|
  {
    seq(|hunks|, i requires 0 <= i < |hunks| =>
      var h := hunks[i];
      Edit(h.leftStart, left[h.leftStart..h.leftEnd], right[h.rightStart..h.rightEnd]))
  }

  lemma {:induction false} ScriptFits<T>(left: seq<T>, right: seq<T>, hunks: seq<Hunk>, l: nat, r: nat)
    requires Aligned(left, right, hunks, l, r)
    ensures forall i :: 0 <= i < |hunks| ==>
      hunks[i].leftStart <= hunks[i].leftEnd <= |left| && hunks[i].rightStart <= hunks[i].rightEnd <= |right|
    ensures Fits(left, EditsOf(left, right, hunks), l)
    ensures Forward(left, EditsOf(left, right, hunks), l) == right[r..]
    decreases |hunks|
  {
    AlignedBounds(left, right, hunks, l, r);
    if hunks != [] {
      hide EditsOf;
      var h := hunks[0];
      ScriptFits(left, right, hunks[1..], h.leftEnd, h.rightEnd);
      EditsCons(left, right, hunks);
      ThreeParts(right, r, h.rightStart, h.rightEnd);
    }
  }

  lemma EditsCons<T>(left: seq<T>, right: seq<T>, hunks: seq<Hunk>)
    requires hunks != [] && forall i :: 0 <= i < |hunks| ==>
      hunks[i].leftStart <= hunks[i].leftEnd <= |left| && hunks[i].rightStart <= hunks[i].rightEnd <= |right|
    ensures var h, edits := hunks[0], EditsOf(left, right, hunks);
      && edits != [] && edits[1..] == EditsOf(left, right, hunks[1..])
      && edits[0] == Edit(h.leftStart, left[h.leftStart..h.leftEnd], right[h.rightStart..h.rightEnd])
      && edits[0].End() == h.leftEnd
  {
  }

  lemma ThreeParts<T>(text: seq<T>, a: nat, b: nat, c: nat)
    requires a <= b <= c <= |text|
    ensures text[a..] == text[a..b] + text[b..c] + text[c..]
  {
  }

  /** Hunks replaced on one string, last one first; None where a slice would leave its text. */
  function InPlace<T>(text: seq<T>, right: seq<T>, hunks: seq<Hunk>): Option<seq<T>>
    decreases |hunks|
  {
    if hunks == [] then Some(text)
    else
      var h := hunks[|hunks| - 1];
      if h.leftStart <= h.leftEnd <= |text| && h.rightStart <= h.rightEnd <= |right| then
        InPlace(ReplaceRange(text, h.leftStart, h.leftEnd, right[h.rightStart..h.rightEnd]), right, hunks[..|hunks| - 1])
      else None
  }

  /** The difference fuzzer's replay loop. */
  method ReplaceHunks<T>(left: seq<T>, right: seq<T>, hunks: seq<Hunk>) returns (script: Option<seq<T>>)
    ensures script == InPlace(left, right, hunks)
    ensures IsScript(left, right, hunks) ==> script == Some(right)
  {
    var text := left;
    var i := |hunks|;
    assert hunks[..i] == hunks;
    while i > 0
      invariant 0 <= i <= |hunks|
      invariant InPlace(text, right, hunks[..i]) == InPlace(left, right, hunks)
    {
      i := i - 1;
      var h := hunks[i];
      assert hunks[..i + 1][i] == h && hunks[..i + 1][..i] == hunks[..i];
      if !(h.leftStart <= h.leftEnd <= |text| && h.rightStart <= h.rightEnd <= |right|) {
        script := None;
        ScriptReplaces(left, right, hunks);
        return;
      }
      text := ReplaceRange(text, h.leftStart, h.leftEnd, right[h.rightStart..h.rightEnd]);
    }
    script := Some(text);
    ScriptReplaces(left, right, hunks);
  }

  lemma {:induction false} InPlaceIsBackward<T>(text: seq<T>, left: seq<T>, right: seq<T>, hunks: seq<Hunk>)
    requires forall i :: 0 <= i < |hunks| ==>
      hunks[i].leftStart <= hunks[i].leftEnd <= |left| && hunks[i].rightStart <= hunks[i].rightEnd <= |right|
    ensures InPlace(text, right, hunks) == Backward(text, EditsOf(left, right, hunks))
    decreases |hunks|
  {
    if hunks != [] {
      var last := |hunks| - 1;
      var h := hunks[last];
      var edits := EditsOf(left, right, hunks);
      assert edits[..last] == EditsOf(left, right, hunks[..last]);
      assert edits[last].End() == h.leftEnd;
      if h.leftEnd <= |text| {
        InPlaceIsBackward(ReplaceRange(text, h.leftStart, h.leftEnd, right[h.rightStart..h.rightEnd]), left, right, hunks[..last]);
      }
    }
  }

  /** Hunks that form a script turn the left text into the right one. */
  lemma ScriptReplaces<T>(left: seq<T>, right: seq<T>, hunks: seq<Hunk>)
    ensures IsScript(left, right, hunks) ==> InPlace(left, right, hunks) == Some(right)
  {
    if IsScript(left, right, hunks) {
      ScriptFits(left, right, hunks, 0, 0);
      InPlaceIsBackward(left, left, right, hunks);
      ForwardIsBackward(left, EditsOf(left, right, hunks), 0);
      assert left[..0] + right[0..] == right;
    }
  }

  // ----- copying hunks across

  /** The right text after hunk `h` has been copied onto it. */
  function CopiedRight<T>(left: seq<T>, right: seq<T>, h: Hunk): seq<T>
    requires h.leftStart <= h.leftEnd <= |left| && h.rightStart <= h.rightEnd <= |right|
  {
    ReplaceRange(right, h.rightStart, h.rightEnd, left[h.leftStart..h.leftEnd])
  }

  /** Hunks whose right ranges moved by `shift`. */
  function Shifted(hunks: seq<Hunk>, shift: int): seq<Hunk>
    requires forall i :: 0 <= i < |hunks| ==> hunks[i].rightStart + shift >= 0 && hunks[i].rightEnd + shift >= 0
  {
    seq(|hunks|, i requires 0 <= i < |hunks| =>
      var h := hunks[i]; h.(rightStart := h.rightStart + shift, rightEnd := h.rightEnd + shift))
  }

  lemma {:induction false} ShiftKeepsAlignment<T>(left: seq<T>, right: seq<T>, other: seq<T>, hunks: seq<Hunk>,
                                                  l: nat, r: nat, shift: int)
    requires Aligned(left, right, hunks, l, r)
    requires 0 <= r + shift <= |other| && r <= |right| && other[r + shift..] == right[r..]
    ensures forall i :: 0 <= i < |hunks| ==> hunks[i].rightStart + shift >= 0 && hunks[i].rightEnd + shift >= 0
    ensures Aligned(left, other, Shifted(hunks, shift), l, r + shift)
    decreases |hunks|
  {
    AlignedBounds(left, right, hunks, l, r);
    assert |other| == |right| + shift;
    if hunks != [] {
      hide Shifted;
      var h := hunks[0];
      TailsOfTails(right, other, r, shift, h.rightStart);
      TailsOfTails(right, other, r, shift, h.rightEnd);
      ShiftKeepsAlignment(left, right, other, hunks[1..], h.leftEnd, h.rightEnd, shift);
      forall i | 0 <= i < |hunks|
        ensures hunks[i].rightStart + shift >= 0 && hunks[i].rightEnd + shift >= 0
      {
        assert i > 0 ==> hunks[i] == hunks[1..][i - 1];
      }
      ShiftedCons(hunks, shift);
    }
  }

  /** Texts that agree from `r` on agree on what is between there and `at`, and from `at` on. */
  lemma TailsOfTails<T>(right: seq<T>, other: seq<T>, r: nat, shift: int, at: nat)
    requires 0 <= r + shift <= |other| && r <= at <= |right| && other[r + shift..] == right[r..]
    ensures at + shift <= |other| && other[at + shift..] == right[at..]
    ensures other[r + shift..at + shift] == right[r..at]
  {
    assert |other| == |right| + shift;
    assert other[at + shift..] == other[r + shift..][at - r..];
    assert other[r + shift..at + shift] == other[r + shift..][..at - r];
  }

  lemma ShiftedCons(hunks: seq<Hunk>, shift: int)
    requires hunks != [] && forall i :: 0 <= i < |hunks| ==> hunks[i].rightStart + shift >= 0 && hunks[i].rightEnd + shift >= 0
    ensures forall i :: 0 <= i < |hunks| - 1 ==> hunks[1..][i].rightStart + shift >= 0 && hunks[1..][i].rightEnd + shift >= 0
    ensures var h, moved := hunks[0], Shifted(hunks, shift);
      && moved != [] && moved[0] == h.(rightStart := h.rightStart + shift, rightEnd := h.rightEnd + shift)
      && moved[1..] == Shifted(hunks[1..], shift)
  {
  }

  /** Equal text in front of aligned hunks extends their first equal stretch. */
  lemma ExtendGap<T>(left: seq<T>, right: seq<T>, hunks: seq<Hunk>, l: nat, l': nat, r: nat, r': nat)
    requires l <= l' <= |left| && r <= r' <= |right| && left[l..l'] == right[r..r']
    requires Aligned(left, right, hunks, l', r')
    ensures Aligned(left, right, hunks, l, r)
  {
    var lEnd := if hunks == [] then |left| else hunks[0].leftStart;
    var rEnd := if hunks == [] then |right| else hunks[0].rightStart;
    assert left[l'..lEnd] == right[r'..rEnd];
    assert left[l..lEnd] == left[l..l'] + left[l'..lEnd];
    assert right[r..rEnd] == right[r..r'] + right[r'..rEnd];
  }

  /** How far copying hunk `h` onto the right text moves what follows it. */
  function Growth(h: Hunk): int {
    (h.leftEnd - h.leftStart) - (h.rightEnd - h.rightStart)
  }

  /** Every hunk after `i` still has natural right offsets after hunk `i` was copied. */
  ghost predicate CanRemain(hunks: seq<Hunk>, i: nat)
    requires i < |hunks|
  {
    forall k :: i < k < |hunks| ==>
      hunks[k].rightStart + Growth(hunks[i]) >= 0 && hunks[k].rightEnd + Growth(hunks[i]) >= 0
  }

  /** The script that remains once hunk `i` has been copied from left to right. */
  function Remaining(hunks: seq<Hunk>, i: nat): seq<Hunk>
    requires i < |hunks|
    requires CanRemain(hunks, i)
  {
    hunks[..i] + Shifted(hunks[i + 1..], Growth(hunks[i]))
  }

  lemma CopyFirst<T>(left: seq<T>, right: seq<T>, hunks: seq<Hunk>, l: nat, r: nat)
    requires hunks != [] && Aligned(left, right, hunks, l, r)
    ensures CanRemain(hunks, 0)
    ensures Aligned(left, CopiedRight(left, right, hunks[0]), Remaining(hunks, 0), l, r)
  {
    hide Shifted, CopiedRight;
    AlignedBounds(left, right, hunks, l, r);
    var h := hunks[0];
    var rest := hunks[1..];
    var copied := CopiedRight(left, right, h);
    var shift := Growth(h);
    var moved := h.rightEnd + shift;
    CopiedParts(left, right, h, r);
    ShiftKeepsAlignment(left, right, copied, rest, h.leftEnd, h.rightEnd, shift);
    Joined(left, l, h.leftStart, h.leftEnd);
    ExtendGap(left, copied, Shifted(rest, shift), l, h.leftEnd, r, moved);
    RemainingFirst(hunks);
  }

  /** The text behind the copied hunk, and from `r` up to there. */
  lemma CopiedParts<T>(left: seq<T>, right: seq<T>, h: Hunk, r: nat)
    requires h.leftStart <= h.leftEnd <= |left| && r <= h.rightStart <= h.rightEnd <= |right|
    ensures var copied, moved := CopiedRight(left, right, h), h.rightEnd + Growth(h);
      && r <= moved <= |copied| && copied[moved..] == right[h.rightEnd..]
      && copied[r..moved] == right[r..h.rightStart] + left[h.leftStart..h.leftEnd]
      && copied[..h.rightStart] == right[..h.rightStart]
  {
  }

  lemma RemainingFirst(hunks: seq<Hunk>)
    requires hunks != []
    requires forall k :: 0 <= k < |hunks| - 1 ==>
      hunks[1..][k].rightStart + Growth(hunks[0]) >= 0 && hunks[1..][k].rightEnd + Growth(hunks[0]) >= 0
    ensures CanRemain(hunks, 0) && Remaining(hunks, 0) == Shifted(hunks[1..], Growth(hunks[0]))
  {
    assert forall k :: 0 < k < |hunks| ==> hunks[k] == hunks[1..][k - 1];
    assert hunks[..0] + Shifted(hunks[1..], Growth(hunks[0])) == Shifted(hunks[1..], Growth(hunks[0]));
  }

  lemma {:induction false} CopyOneFrom<T>(left: seq<T>, right: seq<T>, hunks: seq<Hunk>, i: nat, l: nat, r: nat)
    requires i < |hunks| && Aligned(left, right, hunks, l, r)
    ensures hunks[i].leftStart <= hunks[i].leftEnd <= |left|
    ensures r <= hunks[i].rightStart <= hunks[i].rightEnd <= |right|
    ensures CanRemain(hunks, i)
    ensures Aligned(left, CopiedRight(left, right, hunks[i]), Remaining(hunks, i), l, r)
    decreases i
  {
    if i == 0 {
      CopyFirst(left, right, hunks, l, r);
    } else {
      hide Shifted, Remaining, CopiedRight;
      var h := hunks[0];
      var rest := hunks[1..];
      CopyOneFrom(left, right, rest, i - 1, h.leftEnd, h.rightEnd);
      assert hunks[i] == rest[i - 1];
      assert forall k :: i < k < |hunks| ==> hunks[k] == rest[k - 1];
      var copied := CopiedRight(left, right, hunks[i]);
      CopiedParts(left, right, hunks[i], 0);
      HeadSlices(copied, r, hunks[i].rightStart);
      BeforeCopied(copied, right, hunks[i].rightStart, r, h.rightStart);
      RemainingTail(hunks, i);
      AlignedCons(left, copied, h, Remaining(hunks, i), l, r);
    }
  }

  lemma BeforeCopied<T>(a: seq<T>, b: seq<T>, end: nat, from: nat, to: nat)
    requires from <= to <= end <= |a| && end <= |b| && a[..end] == b[..end]
    ensures a[from..to] == b[from..to]
  {
    assert a[0..end] == a[..end] && b[0..end] == b[..end];
    SliceOfSlice(a, 0, end, from, to);
    SliceOfSlice(b, 0, end, from, to);
  }

  lemma AlignedCons<T>(left: seq<T>, right: seq<T>, h: Hunk, hunks: seq<Hunk>, l: nat, r: nat)
    requires hunks != [] && hunks[0] == h && Aligned(left, right, hunks[1..], h.leftEnd, h.rightEnd)
    requires l <= h.leftStart <= h.leftEnd <= |left| && r <= h.rightStart <= h.rightEnd <= |right|
    requires left[l..h.leftStart] == right[r..h.rightStart]
    ensures Aligned(left, right, hunks, l, r)
  {
  }

  lemma RemainingTail(hunks: seq<Hunk>, i: nat)
    requires 0 < i < |hunks| && CanRemain(hunks, i)
    ensures CanRemain(hunks[1..], i - 1)
    ensures Remaining(hunks, i)[0] == hunks[0] && Remaining(hunks, i)[1..] == Remaining(hunks[1..], i - 1)
  {
    assert hunks[1..][i..] == hunks[i + 1..];
  }

  /** Copying any one hunk from left to right leaves a valid script with one hunk fewer. */
  lemma CopyOneHunk<T>(left: seq<T>, right: seq<T>, hunks: seq<Hunk>, i: nat)
    requires i < |hunks| && IsScript(left, right, hunks)
    ensures hunks[i].leftStart <= hunks[i].leftEnd <= |left| && hunks[i].rightStart <= hunks[i].rightEnd <= |right|
    ensures CanRemain(hunks, i)
    ensures IsScript(left, CopiedRight(left, right, hunks[i]), Remaining(hunks, i))
    ensures |Remaining(hunks, i)| == |hunks| - 1
  {
    CopyOneFrom(left, right, hunks, i, 0, 0);
  }

  // ----- scripts one behind the other

  /** Hunks of texts that start at the given offsets of longer ones. */
  function Behind(hunks: seq<Hunk>, l: nat, r: nat): seq<Hunk> {
    seq(|hunks|, i requires 0 <= i < |hunks| =>
      var h := hunks[i]; Hunk(l + h.leftStart, l + h.leftEnd, r + h.rightStart, r + h.rightEnd))
  }

  lemma BehindCons(hunks: seq<Hunk>, l: nat, r: nat)
    requires hunks != []
    ensures var h, moved := hunks[0], Behind(hunks, l, r);
      && moved != [] && moved[0] == Hunk(l + h.leftStart, l + h.leftEnd, r + h.rightStart, r + h.rightEnd)
      && moved[1..] == Behind(hunks[1..], l, r)
  {
  }

  lemma AlignedHead<T>(left: seq<T>, right: seq<T>, hunks: seq<Hunk>, l: nat, r: nat)
    requires hunks != [] && Aligned(left, right, hunks, l, r)
    ensures var h := hunks[0];
      && l <= h.leftStart <= h.leftEnd <= |left| && r <= h.rightStart <= h.rightEnd <= |right|
      && left[l..h.leftStart] == right[r..h.rightStart] && Aligned(left, right, hunks[1..], h.leftEnd, h.rightEnd)
  {
  }

  /** A slice of a tail of a text. */
  lemma BehindSlice<T>(whole: seq<T>, p: nat, tail: seq<T>, i: nat, j: nat)
    requires p <= |whole| && whole[p..] == tail && i <= j <= |tail|
    ensures whole[p + i..p + j] == tail[i..j] && whole[p + i..] == tail[i..]
  {
    SliceOfTail(whole, p, p + i, p + j);
    TailSlices(whole, p, p + i);
  }

  predicate EndsWith<T(==)>(whole: seq<T>, p: nat, tail: seq<T>) { p <= |whole| && whole[p..] == tail }

  /** The equal stretch in front of a hunk, further back. */
  lemma StretchBehind<T>(left: seq<T>, right: seq<T>, p: nat, q: nat, left': seq<T>, right': seq<T>, l: nat, l': nat, r: nat, r': nat)
    requires EndsWith(left, p, left') && EndsWith(right, q, right')
    requires l <= l' <= |left'| && r <= r' <= |right'| && left'[l..l'] == right'[r..r']
    ensures p + l' <= |left| && q + r' <= |right| && left[p + l..p + l'] == right[q + r..q + r']
  {
    BehindSlice(left, p, left', l, l');
    BehindSlice(right, q, right', r, r');
  }

  lemma NoneBehind<T>(left: seq<T>, right: seq<T>, p: nat, q: nat, left': seq<T>, right': seq<T>, l: nat, r: nat)
    requires EndsWith(left, p, left') && EndsWith(right, q, right') && Aligned(left', right', [], l, r)
    ensures Aligned(left, right, [], p + l, q + r) && Behind([], p, q) == []
  {
    BehindSlice(left, p, left', l, l);
    BehindSlice(right, q, right', r, r);
  }

  lemma {:induction false} BehindAligned<T>(left: seq<T>, right: seq<T>, p: nat, q: nat, left': seq<T>, right': seq<T>,
                                           hunks: seq<Hunk>, l: nat, r: nat)
    requires EndsWith(left, p, left') && EndsWith(right, q, right') && Aligned(left', right', hunks, l, r)
    ensures Aligned(left, right, Behind(hunks, p, q), p + l, q + r)
    decreases |hunks|
  {
    hide Behind, Aligned;
    if hunks == [] {
      NoneBehind(left, right, p, q, left', right', l, r);
    } else {
      AlignedHead(left', right', hunks, l, r);
      var h, behind := hunks[0], Behind(hunks, p, q);
      BehindCons(hunks, p, q);
      BehindAligned(left, right, p, q, left', right', hunks[1..], h.leftEnd, h.rightEnd);
      StretchBehind(left, right, p, q, left', right', l, h.leftStart, r, h.rightStart);
      StretchBehind(left, right, p, q, left', right', h.leftEnd, h.leftEnd, h.rightEnd, h.rightEnd);
      hide EndsWith;
      AlignedCons(left, right, behind[0], behind, p + l, q + r);
    }
  }

  lemma FrontSlice<T>(a: seq<T>, b: seq<T>, i: nat, j: nat)
    requires i <= j <= |a|
    ensures (a + b)[i..j] == a[i..j] && a[i..|a|] == a[i..]
  {
  }

  lemma {:induction false} AlignedJoin<T>(left: seq<T>, right: seq<T>, hunks: seq<Hunk>, l: nat, r: nat,
                                         left': seq<T>, right': seq<T>, more: seq<Hunk>)
    requires Aligned(left, right, hunks, l, r) && IsScript(left', right', more)
    ensures Aligned(left + left', right + right', hunks + Behind(more, |left|, |right|), l, r)
    decreases |hunks|
  {
    var behind := Behind(more, |left|, |right|);
    if hunks == [] {
      assert (left + left')[|left|..] == left' && (right + right')[|right|..] == right';
      BehindAligned(left + left', right + right', |left|, |right|, left', right', more, 0, 0);
      FrontSlice(left, left', l, |left|);
      FrontSlice(right, right', r, |right|);
      ExtendGap(left + left', right + right', behind, l, |left|, r, |right|);
      assert hunks + behind == behind;
    } else {
      AlignedHead(left, right, hunks, l, r);
      hide Behind, Aligned, IsScript;
      var h := hunks[0];
      AlignedJoin(left, right, hunks[1..], h.leftEnd, h.rightEnd, left', right', more);
      FrontSlice(left, left', l, h.leftStart);
      FrontSlice(right, right', r, h.rightStart);
      assert (hunks + behind)[1..] == hunks[1..] + behind;
      AlignedCons(left + left', right + right', h, hunks + behind, l, r);
    }
  }

  /** Scripts of consecutive parts make a script of the whole. */
  lemma ScriptsJoin<T>(left: seq<T>, right: seq<T>, hunks: seq<Hunk>, left': seq<T>, right': seq<T>, more: seq<Hunk>)
    requires IsScript(left, right, hunks) && IsScript(left', right', more)
    ensures IsScript(left + left', right + right', hunks + Behind(more, |left|, |right|))
  {
    AlignedJoin(left, right, hunks, 0, 0, left', right', more);
  }

  function Flipped(hunks: seq<Hunk>): seq<Hunk> {
    seq(|hunks|, i requires 0 <= i < |hunks| => hunks[i].Flip())
  }

  /** A script read from right to left is a script. */
  lemma {:induction false} FlipIsScript<T>(left: seq<T>, right: seq<T>, hunks: seq<Hunk>, l: nat, r: nat)
    requires Aligned(left, right, hunks, l, r)
    ensures Aligned(right, left, Flipped(hunks), r, l)
    ensures Flipped(Flipped(hunks)) == hunks
    decreases |hunks|
  {
    if hunks != [] {
      FlipIsScript(left, right, hunks[1..], hunks[0].leftEnd, hunks[0].rightEnd);
      assert Flipped(hunks)[1..] == Flipped(hunks[1..]);
    }
  }

  /** One copy the user asks for: a hunk of the current comparison and a direction. */
  datatype Pick = Pick(hunk: nat, direction: Direction)

  datatype Comparison<T> = Comparison(left: seq<T>, right: seq<T>, hunks: seq<Hunk>) {
    ghost predicate Valid() { IsScript(left, right, hunks) }

    function Flip(): Comparison<T> { Comparison(right, left, Flipped(hunks)) }
  }

  /** The comparison after copying hunk `i` from left to right. */
  ghost function CopyRight<T>(c: Comparison<T>, i: nat): (after: Comparison<T>)
    requires c.Valid() && i < |c.hunks|
    ensures after.Valid() && |after.hunks| == |c.hunks| - 1 && after.left == c.left
  {
    CopyOneHunk(c.left, c.right, c.hunks, i);
    Comparison(c.left, CopiedRight(c.left, c.right, c.hunks[i]), Remaining(c.hunks, i))
  }

  ghost function Copy<T>(c: Comparison<T>, pick: Pick): (after: Comparison<T>)
    requires c.Valid() && pick.hunk < |c.hunks|
    ensures after.Valid() && |after.hunks| == |c.hunks| - 1
    ensures pick.direction.LeftToRight? ==> after.left == c.left
    ensures pick.direction.RightToLeft? ==> after.right == c.right
  {
    match pick.direction
    case LeftToRight => CopyRight(c, pick.hunk)
    case RightToLeft =>
      FlipIsScript(c.left, c.right, c.hunks, 0, 0);
      var flipped := CopyRight(c.Flip(), pick.hunk);
      FlipIsScript(flipped.left, flipped.right, flipped.hunks, 0, 0);
      flipped.Flip()
  }

  /** Picks that each name a hunk still present. */
  predicate Picks(picks: seq<Pick>, hunks: nat) {
    picks == [] || (picks[0].hunk < hunks && Picks(picks[1..], hunks - 1))
  }

  ghost function CopyMany<T>(c: Comparison<T>, picks: seq<Pick>): (after: Comparison<T>)
    requires c.Valid() && Picks(picks, |c.hunks|)
    ensures after.Valid() && |after.hunks| == |c.hunks| - |picks|
    decreases |picks|
  {
    if picks == [] then c else CopyMany(Copy(c, picks[0]), picks[1..])
  }

  /** Copying every hunk, in any order and each in either direction, makes the two texts
      equal; with one direction throughout, the source text is left alone and copied. */
  lemma {:induction false} CopyAllMakesEqual<T>(c: Comparison<T>, picks: seq<Pick>)
    requires c.Valid() && Picks(picks, |c.hunks|) && |picks| == |c.hunks|
    ensures CopyMany(c, picks).left == CopyMany(c, picks).right
    ensures (forall p :: p in picks ==> p.direction.LeftToRight?) ==> CopyMany(c, picks).right == c.left
    ensures (forall p :: p in picks ==> p.direction.RightToLeft?) ==> CopyMany(c, picks).left == c.right
    decreases |picks|
  {
    if picks == [] {
      assert c.left[0..] == c.left && c.right[0..] == c.right;
    } else {
      CopyAllMakesEqual(Copy(c, picks[0]), picks[1..]);
      assert forall p :: p in picks[1..] ==> p in picks;
    }
  }
}
