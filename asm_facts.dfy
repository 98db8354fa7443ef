/** Properties of the assembler of src/back_end/asm/asm.c that relate
    several of the functions of module `Asm`: what pass 1 records, how
    pass 2 reads the words it pushes, and what the tables answer. */
module AsmFacts {
  import opened Common
  import HT = HashTable
  import opened Asm
  import opened AsmScan

  // ---------------------------------------------------------------------
  // Pass 1

  /** The blanked range `r` of a label named `name`: it starts at the
      `:` and ends right after the name. */
  predicate RangeOk(s: string, r: (nat, nat), name: string)
  {
    r.0 < r.1 <= |s| && s[r.0] == ':' && name != [] && |name| < r.1 - r.0
    && s[r.1 - |name|..r.1] == name
  }

  /** What pass 1 has recorded, read against the text `s`: one blanked
      range per label, in text order and not overlapping; the counts of
      the labels never decrease and never pass the words counted. */
  ghost predicate Recorded(s: string, acc: Labels)
  {
    |acc.defs| == |acc.blanks|
    && (forall k :: 0 <= k < |acc.blanks| ==> RangeOk(s, acc.blanks[k], acc.defs[k].0))
    && (forall k :: 0 <= k < |acc.defs| ==> acc.defs[k].1 <= acc.count)
    && (forall k :: 0 < k < |acc.defs| ==> acc.defs[k - 1].1 <= acc.defs[k].1)
    && (forall k :: 0 < k < |acc.blanks| ==> acc.blanks[k - 1].1 <= acc.blanks[k].0)
  }

  /** Every blanked range lies before `i`. */
  predicate Behind(acc: Labels, i: nat)
  {
    acc.blanks == [] || acc.blanks[|acc.blanks| - 1].1 <= i
  }

  /** A label recorded after the others keeps the record in order. */
  lemma RecordedSnoc(s: string, acc: Labels, w: string, r: (nat, nat))
    requires Recorded(s, acc) && Behind(acc, r.0) && RangeOk(s, r, w)
    ensures Recorded(s, Labels(acc.defs + [(w, acc.count)], acc.blanks + [r], acc.count))
  {
  }

  /** Counting more words keeps the record in order. */
  lemma RecordedCount(s: string, acc: Labels, c: nat)
    requires Recorded(s, acc) && acc.count <= c
    ensures Recorded(s, acc.(count := c))
  {
  }

  /** The label part of an iteration keeps the record in order and moves
      past it. */
  lemma LabelRecorded(s: string, i: nat, acc: Labels, l: Outcome<(nat, Labels)>)
    requires i <= |s| && CChars(s) && Recorded(s, acc) && Behind(acc, i)
    requires l == LabelAt(s, i, acc)
    ensures l.Ok? ==> Recorded(s, l.value.1) && Behind(l.value.1, l.value.0)
  {
    if At(s, i) == ':' {
      var j := SkipSpaces(s, i + 1);
      var w := WordAt(s, j);
      if w != [] {
        var e: nat := j + |w|;
        assert l == Ok((e, Labels(acc.defs + [(w, acc.count)], acc.blanks + [(i, e)], acc.count)));
        assert RangeOk(s, (i, e), w) by {
          assert e - |w| == j;
        }
        RecordedSnoc(s, acc, w, (i, e));
      }
    }
  }

  /** A pass-1 iteration whose label part succeeds goes on past it and
      counts one more word when there is one. */
  lemma StepAfterLabel(s: string, i: nat, acc: Labels, l: Outcome<(nat, Labels)>, r: Outcome<(nat, Labels)>)
    requires i <= |s| && CChars(s) && At(s, i) != '\0'
    requires l == LabelAt(s, SkipSpaces(s, i), acc) && l.Ok? && r == FirstStep(s, i, acc)
    ensures r.Ok? && l.value.0 <= r.value.0
    ensures r.value.1 == l.value.1.(count := if WordAt(s, SkipSpaces(s, l.value.0)) != [] then l.value.1.count + 1 else l.value.1.count)
  {
  }

  /** One pass-1 iteration keeps the record in order and moves past it. */
  lemma StepRecorded(s: string, i: nat, acc: Labels, r: Outcome<(nat, Labels)>)
    requires i <= |s| && CChars(s) && At(s, i) != '\0'
    requires Recorded(s, acc) && Behind(acc, i)
    requires r == FirstStep(s, i, acc)
    ensures r.Ok? ==> Recorded(s, r.value.1) && Behind(r.value.1, r.value.0)
  {
    var l := LabelAt(s, SkipSpaces(s, i), acc);
    if l.Ok? {
      LabelRecorded(s, SkipSpaces(s, i), acc, l);
      StepAfterLabel(s, i, acc, l, r);
      RecordedCount(s, l.value.1, r.value.1.count);
    }
  }

  /** The rest of pass 1 keeps the record in order. */
  lemma {:induction false} FromRecorded(s: string, i: nat, acc: Labels)
    requires i <= |s| && CChars(s)
    requires Recorded(s, acc) && Behind(acc, i)
    ensures FirstFrom(s, i, acc).Ok? ==> Recorded(s, FirstFrom(s, i, acc).value)
    decreases |s| - i
  {
    if At(s, i) != '\0' {
      var r := FirstStep(s, i, acc);
      FirstFromStep(s, i, acc, r);
      if r.Ok? {
        StepRecorded(s, i, acc, r);
        FromRecorded(s, r.value.0, r.value.1);
      }
    }
  }

  /** Whether `q` is blanked, as an index into the ranges. */
  lemma {:induction false} CoveredAt(blanks: seq<(nat, nat)>, q: nat)
    ensures Covered(blanks, q) <==> exists k :: 0 <= k < |blanks| && blanks[k].0 <= q < blanks[k].1
    decreases |blanks|
  {
    if blanks != [] {
      var b := blanks[..|blanks| - 1];
      CoveredAt(b, q);
      if Covered(b, q) {
        var k :| 0 <= k < |b| && b[k].0 <= q < b[k].1;
        assert blanks[k] == b[k];
      }
      if !Covered(blanks, q) {
        forall k | 0 <= k < |blanks|
          ensures !(blanks[k].0 <= q < blanks[k].1)
        {
          if k < |b| {
            assert blanks[k] == b[k];
          }
        }
      }
    }
  }

  /** One pass-1 iteration from `i` spelt out in indices: the label part
      runs from the blanks' end `i1` to `e` (empty when there is no `:`),
      the word counted ends at `next`, and a label adds one record, counted
      as the words so far, whose range runs from `i1` to `e`. */
  predicate Step(s: string, i: nat, acc: Labels, e: nat, next: nat, acc1: Labels)
  {
    i <= e <= |s| && SkipSpaces(s, i) <= e && next == WordEnd(s, SkipSpaces(s, e))
    && acc1.count == acc.count + (if next == SkipSpaces(s, e) then 0 else 1)
    && (SkipSpaces(s, i) == e ==> acc1.defs == acc.defs && acc1.blanks == acc.blanks)
    && (SkipSpaces(s, i) < e ==>
          s[SkipSpaces(s, i)] == ':' && |acc1.defs| == |acc.defs| + 1 && acc1.defs[..|acc.defs|] == acc.defs
          && acc1.defs[|acc.defs|].1 == acc.count && acc1.blanks == acc.blanks + [(SkipSpaces(s, i), e)])
  }

  /** Each successful pass-1 iteration is a `Step` whose label part ends
      where `LabelAt` stops. */
  lemma StepParts(s: string, i: nat, acc: Labels, r: Outcome<(nat, Labels)>)
    requires i <= |s| && CChars(s) && At(s, i) != '\0' && r == FirstStep(s, i, acc) && r.Ok?
    ensures LabelAt(s, SkipSpaces(s, i), acc).Ok?
    ensures Step(s, i, acc, LabelAt(s, SkipSpaces(s, i), acc).value.0, r.value.0, r.value.1)
  {
    var l := LabelAt(s, SkipSpaces(s, i), acc);
    WordEndAt(s, SkipSpaces(s, l.value.0));
  }

  /** `fin` keeps what `acc` recorded as a prefix, one range per label,
      and starts every range it adds at a `:` at or after `i`. */
  predicate Extends(s: string, i: nat, acc: Labels, fin: Labels)
  {
    |acc.defs| <= |fin.defs| == |fin.blanks| && |acc.blanks| <= |fin.blanks|
    && fin.defs[..|acc.defs|] == acc.defs && fin.blanks[..|acc.blanks|] == acc.blanks
    && forall k :: |acc.blanks| <= k < |fin.blanks| ==> i <= fin.blanks[k].0 < |s| && s[fin.blanks[k].0] == ':'
  }

  /** Two extensions, the second from further on, make one. */
  lemma ExtendsTrans(s: string, i: nat, j: nat, a: Labels, b: Labels, c: Labels)
    requires i <= j && Extends(s, i, a, b) && Extends(s, j, b, c)
    ensures Extends(s, i, a, c)
  {
    PrefixOfPrefix(c.defs, b.defs, a.defs);
    PrefixOfPrefix(c.blanks, b.blanks, a.blanks);
    forall k | |a.blanks| <= k < |c.blanks|
      ensures i <= c.blanks[k].0 < |s| && s[c.blanks[k].0] == ':'
    {
      if k < |b.blanks| {
        assert c.blanks[k] == b.blanks[k];
      }
    }
  }

  /** A prefix of a prefix is a prefix. */
  lemma PrefixOfPrefix<T>(c: seq<T>, b: seq<T>, a: seq<T>)
    requires |a| <= |b| <= |c| && c[..|b|] == b && b[..|a|] == a
    ensures c[..|a|] == a
  {
    assert c[..|a|] == c[..|b|][..|a|];
  }

  /** One pass-1 iteration extends the record from where it starts. */
  lemma StepShape(s: string, i: nat, acc: Labels, e: nat, next: nat, acc1: Labels)
    requires Step(s, i, acc, e, next, acc1) && |acc.defs| == |acc.blanks|
    ensures Extends(s, i, acc, acc1)
  {
    if SkipSpaces(s, i) < e {
      assert acc1.blanks[..|acc.blanks|] == acc.blanks;
    } else {
      assert acc1.defs[..|acc.defs|] == acc.defs;
      assert acc1.blanks[..|acc.blanks|] == acc.blanks;
    }
  }

  /** The rest of pass 1 from `i` extends the record from `i`. */
  lemma {:induction false} FromShape(s: string, i: nat, acc: Labels, fin: Labels)
    requires i <= |s| && CChars(s) && FirstFrom(s, i, acc) == Ok(fin) && |acc.defs| == |acc.blanks|
    ensures Extends(s, i, acc, fin)
    decreases |s| - i
  {
    if At(s, i) == '\0' {
      assert fin.defs[..|acc.defs|] == acc.defs;
      assert fin.blanks[..|acc.blanks|] == acc.blanks;
    } else {
      var r := FirstStep(s, i, acc);
      FirstFromStep(s, i, acc, r);
      StepParts(s, i, acc, r);
      StepShape(s, i, acc, LabelAt(s, SkipSpaces(s, i), acc).value.0, r.value.0, r.value.1);
      FromShape(s, r.value.0, r.value.1, fin);
      ExtendsTrans(s, i, r.value.0, acc, r.value.1, fin);
    }
  }

  /** The scan of an iteration read in the blanked text `t`: `t` agrees
      with `s` from `i` except that `[i1, e)`, a label from its `:` on, is
      blank, so the scan skips to the word after the label and that word
      ends where it ends in `s`. */
  lemma BlankedScan(s: string, t: string, i: nat, e: nat)
    requires i <= e <= |s| == |t| && SkipSpaces(s, i) <= e
    requires SkipSpaces(s, i) < e ==> s[SkipSpaces(s, i)] == ':'
    requires forall q :: i <= q <= WordEnd(s, SkipSpaces(s, e)) && q < |s| ==>
               t[q] == if SkipSpaces(s, i) <= q < e then ' ' else s[q]
    ensures SkipSpaces(t, i) == SkipSpaces(s, e)
    ensures WordEnd(t, SkipSpaces(s, e)) == WordEnd(s, SkipSpaces(s, e))
  {
    var i1, i2 := SkipSpaces(s, i), SkipSpaces(s, e);
    SkipAgree(s, t, i);
    SpacesRun(t, i1, e);
    SkipAgree(s, t, e);
    SkipSpacesAtWord(t, i2);
    WordEndAgree(s, t, i2);
  }

  /** The words of the blanked text `t` an iteration passes over: none
      before the label, and up to any `p` past the iteration's end the
      word it counts and those after it. */
  lemma BlankedWords(s: string, t: string, i: nat, acc: Labels, e: nat, next: nat, acc1: Labels)
    requires |s| == |t| && Step(s, i, acc, e, next, acc1)
    requires forall q :: i <= q <= next && q < |s| ==> t[q] == if SkipSpaces(s, i) <= q < e then ' ' else s[q]
    ensures WordsBefore(t, i, SkipSpaces(s, i)) == 0
    ensures forall p :: next <= p ==> WordsBefore(t, i, p) == acc1.count - acc.count + WordsBefore(t, next, p)
  {
    BlankedScan(s, t, i, e);
    forall p | next <= p
      ensures WordsBefore(t, i, p) == acc1.count - acc.count + WordsBefore(t, next, p)
    {
      WordsAfterWord(t, i, p);
    }
  }

  /** The count each label of the rest of pass 1 from `i` records: the
      words counted before `i` and the words a scan of the blanked text
      `t` meets from `i` up to the label's `:`. */
  lemma {:induction false} FromCounts(s: string, t: string, i: nat, acc: Labels, fin: Labels)
    requires i <= |s| == |t| && CChars(s) && FirstFrom(s, i, acc) == Ok(fin)
    requires |acc.defs| == |acc.blanks| && |fin.defs| == |fin.blanks|
    requires forall k :: 0 <= k < |acc.blanks| ==> acc.blanks[k].1 <= i
    requires forall q :: i <= q < |s| ==> t[q] == if Covered(fin.blanks, q) then ' ' else s[q]
    ensures forall k :: |acc.defs| <= k < |fin.defs| ==> fin.defs[k].1 == acc.count + WordsBefore(t, i, fin.blanks[k].0)
    decreases |s| - i
  {
    if At(s, i) != '\0' {
      var r := FirstStep(s, i, acc);
      FirstFromStep(s, i, acc, r);
      StepParts(s, i, acc, r);
      var e, next, acc1 := LabelAt(s, SkipSpaces(s, i), acc).value.0, r.value.0, r.value.1;
      StepShape(s, i, acc, e, next, acc1);
      FromShape(s, next, acc1, fin);
      StepBlanked(s, t, i, acc, e, next, acc1, fin);
      FromCounts(s, t, next, acc1, fin);
      BlankedWords(s, t, i, acc, e, next, acc1);
      StepCounts(t, i, acc, e, next, acc1, fin, SkipSpaces(s, i));
    }
  }

  /** The counts of the labels from `i` on, given those from the end
      `next` of the iteration at `i` on and the words the blanked text `t`
      shows between. */
  lemma StepCounts(t: string, i: nat, acc: Labels, e: nat, next: nat, acc1: Labels, fin: Labels, i1: nat)
    requires i <= next <= |t| && i1 <= e && acc.count <= acc1.count
    requires i1 == e ==> acc1.defs == acc.defs && acc1.blanks == acc.blanks
    requires i1 < e ==> |acc1.defs| == |acc.defs| + 1 && acc1.defs[|acc.defs|].1 == acc.count
                        && |acc1.blanks| == |acc.blanks| + 1 && acc1.blanks[|acc.blanks|].0 == i1
    requires |acc.defs| == |acc.blanks| && |acc1.defs| <= |fin.defs| == |fin.blanks|
    requires fin.defs[..|acc1.defs|] == acc1.defs && fin.blanks[..|acc1.blanks|] == acc1.blanks
    requires forall k :: |acc1.blanks| <= k < |fin.blanks| ==> next <= fin.blanks[k].0
    requires WordsBefore(t, i, i1) == 0
    requires forall p :: next <= p ==> WordsBefore(t, i, p) == acc1.count - acc.count + WordsBefore(t, next, p)
    requires forall k :: |acc1.defs| <= k < |fin.defs| ==> fin.defs[k].1 == acc1.count + WordsBefore(t, next, fin.blanks[k].0)
    ensures forall k :: |acc.defs| <= k < |fin.defs| ==> fin.defs[k].1 == acc.count + WordsBefore(t, i, fin.blanks[k].0)
  {
    forall k | |acc.defs| <= k < |fin.defs|
      ensures fin.defs[k].1 == acc.count + WordsBefore(t, i, fin.blanks[k].0)
    {
      if k < |acc1.defs| {
        assert fin.defs[k] == acc1.defs[k];
        assert fin.blanks[k] == acc1.blanks[k];
      }
    }
  }

  /** Over one iteration the blanked text shows exactly the label's range
      as blank, and every range recorded so far ends at the iteration's end. */
  lemma StepBlanked(s: string, t: string, i: nat, acc: Labels, e: nat, next: nat, acc1: Labels, fin: Labels)
    requires |s| == |t| && Step(s, i, acc, e, next, acc1)
    requires forall k :: 0 <= k < |acc.blanks| ==> acc.blanks[k].1 <= i
    requires Extends(s, next, acc1, fin)
    requires forall q :: i <= q < |s| ==> t[q] == if Covered(fin.blanks, q) then ' ' else s[q]
    ensures forall q :: i <= q <= next && q < |s| ==> t[q] == if SkipSpaces(s, i) <= q < e then ' ' else s[q]
    ensures forall k :: 0 <= k < |acc1.blanks| ==> acc1.blanks[k].1 <= next
  {
    var i1 := SkipSpaces(s, i);
    forall q | i <= q <= next && q < |s|
      ensures t[q] == if i1 <= q < e then ' ' else s[q]
    {
      StepCover(s, i, acc, acc1, fin.blanks, next, i1, e, q);
    }
    forall k | 0 <= k < |acc1.blanks|
      ensures acc1.blanks[k].1 <= next
    {
      if k < |acc.blanks| {
        assert acc1.blanks[k] == acc.blanks[k];
      }
    }
  }

  /** Over one iteration from `i` to `next` the final ranges blank
      exactly the label's range `[i1, e)`: earlier ranges end before `i`,
      later ones start at a `:` at or after `next`, where a word ended. */
  lemma StepCover(s: string, i: nat, acc: Labels, acc1: Labels, blanks: seq<(nat, nat)>, next: nat, i1: nat, e: nat, q: nat)
    requires i <= q <= next && q < |s|
    requires forall k :: 0 <= k < |acc.blanks| ==> acc.blanks[k].1 <= i
    requires |acc1.blanks| <= |blanks| && blanks[..|acc1.blanks|] == acc1.blanks
    requires acc1.blanks == acc.blanks || (acc1.blanks == acc.blanks + [(i1, e)] && i1 < e)
    requires acc1.blanks == acc.blanks ==> i1 == e
    requires forall k :: |acc1.blanks| <= k < |blanks| ==> next <= blanks[k].0 < |s| && s[blanks[k].0] == ':'
    requires IsSpace(At(s, next)) || At(s, next) == '\0'
    ensures Covered(blanks, q) <==> i1 <= q < e
  {
    CoveredAt(blanks, q);
    if i1 <= q < e {
      assert blanks[|acc.blanks|] == acc1.blanks[|acc.blanks|] == (i1, e);
    }
    if Covered(blanks, q) {
      var k :| 0 <= k < |blanks| && blanks[k].0 <= q < blanks[k].1;
      if k < |acc1.blanks| {
        assert blanks[k] == acc1.blanks[k];
      }
    }
  }

  /** After a successful pass 1, each label's range starts at its `:`
      and ends with its name, the ranges come in text order without
      overlapping, and each label stands for the number of words a scan
      of the blanked text meets before its `:`. */
  lemma PassOneRecords(s: string)
    requires CChars(s)
    ensures First(s).Ok? ==> Recorded(s, First(s).value)
    ensures First(s).Ok? ==>
              forall k :: 0 <= k < |First(s).value.defs| ==>
                First(s).value.defs[k].1 == WordsBefore(Blank(s, First(s).value.blanks), 0, First(s).value.blanks[k].0)
  {
    FromRecorded(s, 0, Labels([], [], 0));
    if First(s).Ok? {
      var fin := First(s).value;
      FromShape(s, 0, Labels([], [], 0), fin);
      FromCounts(s, Blank(s, fin.blanks), 0, Labels([], [], 0), fin);
    }
  }

  // ---------------------------------------------------------------------
  // What the tables answer in pass 2

  /** A label reference resolves to the count recorded at the last
      definition of that name (a redefinition wins), cut to an `int`,
      and a name never defined is `ASM_INVALID_LABEL`. */
  lemma LabelReference(defs: seq<(string, nat)>, w: string, i: nat, tpl: HT.Table<int>)
    requires Named(defs) && CName(w) && HT.Inv(tpl)
    ensures Value(w, i, LabelRef, Insertions(defs), tpl)
            == match LastValue(defs, w)
               case None => Fail(AsmInvalidLabel, i)
               case Some(c) => Ok(Wrap32(c))
  {
    InsertionsFind(defs, w);
  }

  /** A mnemonic stands for the id of its last row in the template list,
      and a word that names no row is `ASM_INVALID_INSTRUCTION`. */
  lemma MnemonicId(rows: seq<(string, int)>, w: string, i: nat, labels: HT.Table<nat>)
    requires Named(rows) && CName(w) && HT.Inv(labels)
    ensures Value(w, i, Instruction, labels, Insertions(rows))
            == match LastValue(rows, w)
               case None => Fail(AsmInvalidInstruction, i)
               case Some(id) => Ok(id)
  {
    InsertionsFind(rows, w);
  }

  /** A memory operand is `[`, a register name of three characters and
      `]`, and stands for that register's id; anything else is
      `ASM_INVALID_REGISTER`. */
  lemma MemoryOperand(rows: seq<(string, int)>, w: string, i: nat, labels: HT.Table<nat>)
    requires Named(rows) && CName(w) && HT.Inv(labels)
    ensures Value(w, i, Memory, labels, Insertions(rows)).Ok? <==>
              |w| == 5 && w[0] == '[' && w[4] == ']' && LastValue(rows, w[1..4]).Some?
    ensures Value(w, i, Memory, labels, Insertions(rows)).Ok? ==>
              Value(w, i, Memory, labels, Insertions(rows)).value == LastValue(rows, w[1..4]).value
    ensures Value(w, i, Memory, labels, Insertions(rows)).Fail? ==>
              Value(w, i, Memory, labels, Insertions(rows)) == Fail(AsmInvalidRegister, i)
  {
    if |w| == 5 && w[0] == '[' && w[4] == ']' {
      InsertionsFind(rows, w[1..4]);
    }
  }

  /** What `atoi` reads from a few words: the leading digits after an
      optional sign, and 0 when there are none. */
  lemma AtoiWords()
    ensures Atoi("0") == 0 && Atoi("00") == 0 && Atoi("-0") == 0 && Atoi("x") == 0
    ensures Atoi("-7") == -7 && Atoi("12abc") == 12
  {
    AtoiZeros();
    AtoiSigned();
    AtoiTrailing();
  }

  /** `atoi` on any word that is an optional sign, a run of digits and a
      rest that does not go on with a digit: the run's value, negated
      after a minus, cut to an `int`.  With neither sign nor digits the
      value is 0. */
  lemma AtoiRule(sign: string, d: string, rest: string)
    requires sign == "" || sign == "-" || sign == "+"
    requires forall k :: 0 <= k < |d| ==> IsDigit(d[k])
    requires rest == [] || !IsDigit(rest[0])
    requires sign == [] && d == [] && rest != [] ==> rest[0] != '-' && rest[0] != '+'
    ensures Atoi(sign + d + rest) == CInt(if sign == "-" then -(DecValue(d) as int) else DecValue(d))
  {
    AtoiParts(sign, d, rest);
    AtoiOf(sign + d + rest, |sign|, d, sign == "-");
  }

  /** Where the sign, the digits and the rest of such a word lie. */
  lemma AtoiParts(sign: string, d: string, rest: string)
    requires sign == "" || sign == "-" || sign == "+"
    requires forall k :: 0 <= k < |d| ==> IsDigit(d[k])
    requires rest == [] || !IsDigit(rest[0])
    requires sign == [] && d == [] && rest != [] ==> rest[0] != '-' && rest[0] != '+'
    ensures var w := sign + d + rest;
            |sign| == (if |w| > 0 && (w[0] == '-' || w[0] == '+') then 1 else 0)
            && (sign == "-" <==> |sign| == 1 && w[0] == '-')
            && DigitsEnd(w, |sign|) == |sign| + |d| && w[|sign|..|sign| + |d|] == d
  {
    var w := sign + d + rest;
    var b := |sign|;
    if sign != [] {
      assert w[0] == sign[0];
    } else if d != [] {
      assert w[0] == d[0];
    } else if rest != [] {
      assert w[0] == rest[0];
    }
    DigitsEndRun(w, b, b + |d|);
    assert w[b..b + |d|] == d;
  }

  /** `atoi` on `w` whose sign takes `b` characters (a minus when `neg`)
      and whose digits after it are `d`. */
  lemma AtoiOf(w: string, b: nat, d: string, neg: bool)
    requires b + |d| <= |w| && b == if |w| > 0 && (w[0] == '-' || w[0] == '+') then 1 else 0
    requires neg <==> b == 1 && w[0] == '-'
    requires forall k :: 0 <= k < |d| ==> IsDigit(d[k])
    requires DigitsEnd(w, b) == b + |d| && w[b..b + |d|] == d
    ensures Atoi(w) == CInt(if neg then -(DecValue(d) as int) else DecValue(d))
  {
  }

  /** A run of digits from `b` to a non-digit or the end is what
      `DigitsEnd` measures. */
  lemma {:induction false} DigitsEndRun(w: string, b: nat, e: nat)
    requires b <= e <= |w| && (e == |w| || !IsDigit(w[e]))
    requires forall k :: b <= k < e ==> IsDigit(w[k])
    ensures DigitsEnd(w, b) == e
    decreases e - b
  {
    if b < e {
      DigitsEndRun(w, b + 1, e);
    }
  }

  lemma AtoiZeros()
    ensures Atoi("0") == 0 && Atoi("00") == 0 && Atoi("x") == 0
  {
    assert DigitsEnd("0", 0) == 1;
    assert DigitsEnd("00", 0) == 2;
    assert DigitsEnd("x", 0) == 0;
    assert "0"[0..1] == "0" && "0"[..0] == "";
    assert "00"[0..2] == "00" && "00"[..1] == "0";
    assert "x"[0..0] == "";
  }

  lemma AtoiSigned()
    ensures Atoi("-0") == 0 && Atoi("-7") == -7
  {
    assert DigitsEnd("-0", 1) == 2;
    assert DigitsEnd("-7", 1) == 2;
    assert "-0"[1..2] == "0" && "0"[..0] == "";
    assert "-7"[1..2] == "7" && "7"[..0] == "";
    assert DecValue("7") == 7;
  }

  lemma AtoiTrailing()
    ensures Atoi("12abc") == 12
  {
    assert DigitsEnd("12abc", 0) == 2;
    assert "12abc"[0..2] == "12";
    assert DecValue("12") == 12 by {
      assert "12"[..1] == "1";
    }
  }

  /** `PUSH` takes what `atoi` reads, and rejects a word that reads as 0
      unless it is exactly `0`: `00`, `-0` and `x` are refused while
      `12abc` is 12. */
  lemma NumberWords(i: nat, labels: HT.Table<nat>, tpl: HT.Table<int>)
    requires HT.Inv(labels) && HT.Inv(tpl)
    ensures Value("0", i, Number, labels, tpl) == Ok(0)
    ensures Value("00", i, Number, labels, tpl) == Fail(AsmInvalidNumber, i)
    ensures Value("-0", i, Number, labels, tpl) == Fail(AsmInvalidNumber, i)
    ensures Value("x", i, Number, labels, tpl) == Fail(AsmInvalidNumber, i)
    ensures Value("-7", i, Number, labels, tpl) == Ok(-7)
    ensures Value("12abc", i, Number, labels, tpl) == Ok(12)
  {
    AtoiWords();
  }

  /** `MAIN` records the size of the bytecode so far as `start_ip` and
      reads no operand. */
  lemma MainMarksStart(s: string, i: nat, labels: HT.Table<nat>, tpl: HT.Table<int>, img: Image)
    requires i <= |s| && CChars(s) && HT.Inv(labels) && HT.Inv(tpl)
    ensures Operand(s, i, MAIN, labels, tpl, img) == Ok((i, Image(img.code, |img.code|)))
  {
  }
}
