/** The string helpers of src/io.c: word scanning and n-ary concatenation. */
module Io {
  import opened Common

  /** Length of the longest prefix that holds neither whitespace nor NUL. */
  function WordLen(s: string): (n: nat)
    ensures n <= |s|
    ensures forall i :: 0 <= i < n ==> !IsSpace(s[i]) && s[i] != '\0'
    ensures n < |s| ==> IsSpace(s[n]) || s[n] == '\0'
  {
    if s == [] || IsSpace(s[0]) || s[0] == '\0' then 0 else 1 + WordLen(s[1..])
  }

  /** Any prefix free of whitespace and NUL that is followed by a delimiter
      or the end is the one WordLen measures. */
  lemma {:induction false} WordLenUnique(s: string, n: nat)
    requires n <= |s|
    requires forall i :: 0 <= i < n ==> !IsSpace(s[i]) && s[i] != '\0'
    requires n < |s| ==> IsSpace(s[n]) || s[n] == '\0'
    ensures WordLen(s) == n
  {
  }

  /** `SkipWord`: index loop up to the first whitespace or NUL. */
  method SkipWord(s: string) returns (idx: nat)
    ensures idx == WordLen(s)
    ensures idx <= |s| && (idx == |s| || IsSpace(s[idx]) || s[idx] == '\0')
  {
    idx := 0;
    while idx < |s| && !IsSpace(s[idx]) && s[idx] != '\0'
      invariant idx <= |s|
      invariant forall i :: 0 <= i < idx ==> !IsSpace(s[i]) && s[i] != '\0'
      decreases |s| - idx
    {
      idx := idx + 1;
    }
    WordLenUnique(s, idx);
  }

  /** `GetWord`: NULL (None) for an empty word, otherwise a copy of it. */
  method GetWord(s: string) returns (w: Option<string>)
    ensures w.None? <==> WordLen(s) == 0
    ensures w.Some? ==> w.value == s[..WordLen(s)] && |w.value| > 0
    ensures w.Some? ==> w.value + s[|w.value|..] == s
  {
    var offset := SkipWord(s);
    if offset == 0 {
      return None;
    }
    w := Some(s[..offset]);
  }

  /** The arguments of `MultiStrCat` joined in order. */
  function Concat(parts: seq<string>): string
  {
    if parts == [] then [] else Concat(parts[..|parts| - 1]) + parts[|parts| - 1]
  }

  function TotalLength(parts: seq<string>): nat
  {
    if parts == [] then 0 else TotalLength(parts[..|parts| - 1]) + |parts[|parts| - 1]|
  }

  lemma {:induction false} ConcatLength(parts: seq<string>)
    ensures |Concat(parts)| == TotalLength(parts)
  {
    if parts != [] {
      ConcatLength(parts[..|parts| - 1]);
    }
  }

  /** Every character of the result comes from the argument it was copied from. */
  lemma {:induction false} ConcatAt(parts: seq<string>, k: nat, j: nat)
    requires k < |parts| && j < |parts[k]|
    ensures TotalLength(parts[..k]) + j < |Concat(parts)|
    ensures Concat(parts)[TotalLength(parts[..k]) + j] == parts[k][j]
  {
    var n := |parts|;
    var init := parts[..n - 1];
    ConcatLength(init);
    ConcatLength(parts);
    if k == n - 1 {
      assert parts[..k] == init;
    } else {
      assert init[..k] == parts[..k];
      ConcatAt(init, k, j);
    }
  }

  /** `MultiStrCat`: the first loop sizes the result, the second appends
      each argument in turn as `strcat` does. */
  method MultiStrCat(parts: seq<string>) returns (str: string)
    requires forall k :: 0 <= k < |parts| ==> NoNul(parts[k])
    ensures str == Concat(parts)
    ensures |str| == TotalLength(parts)
  {
    var size := 0;
    var i := 0;
    while i < |parts|
      invariant i <= |parts|
      invariant size == TotalLength(parts[..i])
    {
      assert parts[..i + 1][..i] == parts[..i];
      size := size + |parts[i]|;
      i := i + 1;
    }
    assert parts[..|parts|] == parts;
    str := [];
    i := 0;
    while i < |parts|
      invariant i <= |parts|
      invariant str == Concat(parts[..i])
    {
      assert parts[..i + 1][..i] == parts[..i];
      str := str + parts[i];
      i := i + 1;
    }
    ConcatLength(parts);
  }
}
