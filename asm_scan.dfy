/** How the scans of src/back_end/asm/asm.c read a text whose label
    ranges were overwritten with spaces: `AssemblerSkipSpaces` and
    `GetWord` stop at the same places in two texts that agree on what
    those loops read.  `WordsBefore` counts the words such a scan meets,
    the count pass 1 keeps for each label. */
module AsmScan {
  import opened Common
  import Io
  import opened Asm

  /** The end of the word `GetWord` reads at `j`: the first blank or NUL
      from `j` on. */
  function WordEnd(t: string, j: nat): (e: nat)
    requires j <= |t|
    ensures j <= e <= |t| && (IsSpace(At(t, e)) || At(t, e) == '\0')
    ensures forall k :: j <= k < e ==> !IsSpace(t[k]) && t[k] != '\0'
    decreases |t| - j
  {
    if j < |t| && !IsSpace(t[j]) && t[j] != '\0' then WordEnd(t, j + 1) else j
  }

  /** `WordEnd` is where the word `WordAt` reads ends. */
  lemma WordEndAt(t: string, j: nat)
    requires j <= |t|
    ensures WordEnd(t, j) == j + |WordAt(t, j)|
  {
    var n := WordEnd(t, j) - j;
    assert forall k :: 0 <= k < n ==> t[j..][k] == t[j + k];
    Io.WordLenUnique(t[j..], n);
  }

  /** The words a scan of `t` from `i` meets before index `p`: blanks and
      `;` comments skipped as `AssemblerSkipSpaces` skips them, then one
      word read as `GetWord` reads it, and on from the end of the word. */
  function WordsBefore(t: string, i: nat, p: nat): (n: nat)
    requires i <= |t|
    ensures n <= |t| - i
    ensures p <= SkipSpaces(t, i) ==> n == 0
    decreases |t| - i
  {
    var j := SkipSpaces(t, i);
    var e := WordEnd(t, j);
    if j >= p || e == j then 0 else 1 + WordsBefore(t, e, p)
  }

  /** Up to any `p` past the word the scan from `i` reads first, the
      count is that word (if there is one) and the count after it. */
  lemma WordsAfterWord(t: string, i: nat, p: nat)
    requires i <= |t| && WordEnd(t, SkipSpaces(t, i)) <= p
    ensures WordsBefore(t, i, p) == (if WordEnd(t, SkipSpaces(t, i)) == SkipSpaces(t, i) then 0 else 1)
                                    + WordsBefore(t, WordEnd(t, SkipSpaces(t, i)), p)
  {
    if WordEnd(t, SkipSpaces(t, i)) == SkipSpaces(t, i) {
      SkipSpacesAtWord(t, SkipSpaces(t, i));
    }
  }

  /** The whitespace loop in `t` from `x` reaches where it reaches from
      the end of the run it meets in `s`, when the two agree on that run. */
  lemma {:induction false} SpacesEndAgree(s: string, t: string, x: nat)
    requires x <= |s| == |t|
    requires forall q :: x <= q < SpacesEnd(s, x) ==> t[q] == s[q]
    ensures SpacesEnd(t, x) == SpacesEnd(t, SpacesEnd(s, x))
    decreases |s| - x
  {
    if x < |s| && IsSpace(s[x]) {
      SpacesEndAgree(s, t, x + 1);
    }
  }

  /** A comment ends at the same place in two texts that agree on it and
      on the character that ends it. */
  lemma {:induction false} CommentEndAgree(s: string, t: string, x: nat)
    requires x <= |s| == |t|
    requires forall q :: x <= q <= CommentEnd(s, x) && q < |s| ==> t[q] == s[q]
    ensures CommentEnd(t, x) == CommentEnd(s, x)
    decreases |s| - x
  {
    if x < |s| && s[x] != '\n' && s[x] != '\0' {
      CommentEndAgree(s, t, x + 1);
    }
  }

  /** The comment loop of `s` from `m`, read in `t`: where `t` agrees with
      `s` up to the stop, the scan of `t` goes on from that stop. */
  lemma {:induction false} SkipCommentsAgree(s: string, t: string, m: nat)
    requires m <= |s| == |t| && !IsSpace(At(s, m))
    requires forall q :: m <= q < SkipComments(s, m) ==> t[q] == s[q]
    requires At(s, SkipComments(s, m)) != '\0' || At(t, SkipComments(s, m)) == '\0'
    ensures SkipSpaces(t, m) == SkipSpaces(t, SkipComments(s, m))
    decreases |s| - m
  {
    if At(s, m) == ';' {
      var c := CommentEnd(s, m);
      var n := SpacesEnd(s, c);
      assert SkipComments(s, m) == SkipComments(s, n);
      assert t[m] == ';';
      CommentEndAgree(s, t, m);
      SpacesEndAgree(s, t, c);
      SkipCommentsAgree(s, t, n);
    }
  }

  /** `AssemblerSkipSpaces` from `x` in `t` goes on from where it stops
      in `s`, when the texts agree before that stop and `t` keeps a NUL
      found there. */
  lemma SkipAgree(s: string, t: string, x: nat)
    requires x <= |s| == |t|
    requires forall q :: x <= q < SkipSpaces(s, x) ==> t[q] == s[q]
    requires At(s, SkipSpaces(s, x)) != '\0' || At(t, SkipSpaces(s, x)) == '\0'
    ensures SkipSpaces(t, x) == SkipSpaces(t, SkipSpaces(s, x))
  {
    SpacesEndAgree(s, t, x);
    SkipCommentsAgree(s, t, SpacesEnd(s, x));
  }

  /** A run of spaces is skipped whole. */
  lemma {:induction false} SpacesRun(t: string, x: nat, z: nat)
    requires x <= z <= |t|
    requires forall q :: x <= q < z ==> t[q] == ' '
    ensures SkipSpaces(t, x) == SkipSpaces(t, z)
    decreases z - x
  {
    if x < z {
      SpacesRun(t, x + 1, z);
      assert SpacesEnd(t, x) == SpacesEnd(t, x + 1);
    }
  }

  /** A word ends at the same place in two texts that agree on it and on
      the character that ends it. */
  lemma {:induction false} WordEndAgree(s: string, t: string, x: nat)
    requires x <= |s| == |t|
    requires forall q :: x <= q <= WordEnd(s, x) && q < |s| ==> t[q] == s[q]
    ensures WordEnd(t, x) == WordEnd(s, x)
    decreases |s| - x
  {
    if x < |s| && !IsSpace(s[x]) && s[x] != '\0' {
      WordEndAgree(s, t, x + 1);
    }
  }
}
