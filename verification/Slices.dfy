/** Facts about slices of sequences, kept apart from the texts they are used on. */
module Slices {
  lemma SliceOfSlice<T>(s: seq<T>, left: nat, right: nat, start: nat, end: nat)
    requires left <= start <= end <= right <= |s|
    ensures s[left..right][start - left..end - left] == s[start..end]
  {
    var inner := s[left..right][start - left..end - left];
    assert forall k :: 0 <= k < end - start ==> inner[k] == s[left..right][start - left + k] == s[start + k];
  }

  lemma TailSlices<T>(s: seq<T>, from: nat, i: nat)
    requires from <= i <= |s|
    ensures s[from..][..i - from] == s[from..i] && s[from..][i - from..] == s[i..]
  {
    var tail := s[from..];
    var front := tail[..i - from];
    assert forall k :: 0 <= k < i - from ==> front[k] == tail[k] == s[from + k];
    var rest := tail[i - from..];
    assert forall k :: 0 <= k < |s| - i ==> rest[k] == tail[i - from + k] == s[i + k];
  }

  lemma HeadSlices<T>(s: seq<T>, i: nat, end: nat)
    requires i <= end <= |s|
    ensures s[..end][..i] == s[..i] && s[..end][i..] == s[i..end]
  {
    var rest := s[..end][i..];
    assert forall k :: 0 <= k < end - i ==> rest[k] == s[..end][i + k] == s[i + k];
  }

  lemma Joined<T>(s: seq<T>, i: nat, j: nat, k: nat)
    requires i <= j <= k <= |s|
    ensures s[i..j] + s[j..k] == s[i..k]
  {
  }

  lemma PrefixJoined<T>(s: seq<T>, i: nat, j: nat)
    requires i <= j <= |s|
    ensures s[..i] + s[i..j] == s[..j]
  {
  }

  lemma ConcatAssociates<T>(a: seq<T>, b: seq<T>, c: seq<T>)
    ensures (a + b) + c == a + (b + c)
  {
  }

  lemma SliceOfTail<T>(s: seq<T>, from: nat, i: nat, j: nat)
    requires from <= i <= j <= |s|
    ensures s[from..][i - from..j - from] == s[i..j]
  {
    var inner := s[from..][i - from..j - from];
    assert forall k :: 0 <= k < j - i ==> inner[k] == s[from..][i - from + k] == s[i + k];
  }

  lemma AppendCons<T>(done: seq<T>, p: T, rest: seq<T>)
    ensures (done + [p]) + rest == done + ([p] + rest)
  {
  }

  lemma Uncons<T>(s: seq<T>)
    requires s != []
    ensures s == [s[0]] + s[1..]
  {
  }
}
