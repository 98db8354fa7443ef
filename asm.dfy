/** The two-pass assembler of src/back_end/asm/asm.c.  Pass 1 walks the
    text, records every `: name` label with the number of words counted so
    far and overwrites the label with spaces; pass 2 walks the blanked text
    again and pushes one int per word: the id of a mnemonic, then the value
    of its operand.  The spec functions below read the text as a C string
    (`At` gives NUL past the end); the `Assembler` class runs the same
    walks with index loops over the buffer and is proved against them.

    The mnemonic table and the label table key their words with the
    terminating NUL (see the findings in the README). */
module Asm {
  import opened Common
  import Io
  import HT = HashTable
  import Buffer

  // ---------------------------------------------------------------------
  // Error codes and instruction ids

  /** `AssemblerErr_t`. */
  datatype AsmErr =
    | AsmOk | AsmOverflow | AsmFopenFailed | AsmFwriteFailed
    | AsmIoFailed | AsmBufferFailed | AsmStackFailed | AsmHashTableFailed
    | AsmNoLabel | AsmInvalidInstruction | AsmInvalidLabel | AsmInvalidRegister | AsmInvalidNumber
  {
    /** The value of the C enumerator. */
    function Code(): (c: nat)
      ensures c <= 12
      ensures this == AsmOk <==> c == 0
    {
      match this
      case AsmOk => 0
      case AsmOverflow => 1
      case AsmFopenFailed => 2
      case AsmFwriteFailed => 3
      case AsmIoFailed => 4
      case AsmBufferFailed => 5
      case AsmStackFailed => 6
      case AsmHashTableFailed => 7
      case AsmNoLabel => 8
      case AsmInvalidInstruction => 9
      case AsmInvalidLabel => 10
      case AsmInvalidRegister => 11
      case AsmInvalidNumber => 12
    }
  }

  // `InstructionType`
  const UNDEF: int := 0
  const PUSH: int := 3
  const PUSHR: int := 5
  const POPR: int := 6
  const JA: int := 12
  const JMP: int := 18
  const CALL: int := 19
  const PUSHM: int := 22
  const POPM: int := 23
  const MAIN: int := 24

  /** `instruction_template_list`, in source order: the mnemonics, then
      the registers (whose `RegsType` values 1..3 coincide with the ids of
      IN, OUT and PUSH), then PUSHM and POPM. */
  const TEMPLATES: seq<(string, int)> := [
    ("IN", 1), ("OUT", 2), ("PUSH", 3), ("POP", 4), ("PUSHR", 5), ("POPR", 6),
    ("ADD", 7), ("SUB", 8), ("MUL", 9), ("DIV", 10), ("SQRT", 11),
    ("JA", 12), ("JAE", 13), ("JB", 14), ("JBE", 15), ("JE", 16), ("JNE", 17), ("JMP", 18),
    ("CALL", 19), ("RET", 20), ("HLT", 21), ("MAIN", 24),
    ("RAX", 1), ("RBX", 2), ("RCX", 3), ("PUSHM", 22), ("POPM", 23)
  ]

  /** The operand word an instruction id takes in pass 2. */
  datatype Mode = Instruction | LabelRef | Memory | Number | Register

  /** What the `switch (instruction_type)` of pass 2 does after the
      mnemonic: read one operand, record `start_ip`, nothing, or reach
      `assert(0)` for an id outside the enumeration. */
  datatype Follow = TakesOperand(mode: Mode) | StartHere | Nothing | Unlisted

  function FollowOf(id: int): (f: Follow)
    ensures f.TakesOperand? ==> id in {PUSH, PUSHR, POPR, PUSHM, POPM, CALL} || JA <= id <= JMP
    ensures f == Unlisted <==> !(UNDEF <= id <= MAIN)
    ensures f == StartHere <==> id == MAIN
  {
    if id == PUSH then TakesOperand(Number)
    else if id == PUSHR || id == POPR then TakesOperand(Register)
    else if JA <= id <= JMP || id == CALL then TakesOperand(LabelRef)
    else if id == PUSHM || id == POPM then TakesOperand(Memory)
    else if id == MAIN then StartHere
    else if UNDEF <= id <= MAIN then Nothing
    else Unlisted
  }

  /** The outcome of a step: a value, a failure with its error code and
      the text position the line counter then points at, or an
      `assert(0)`. */
  datatype Outcome<T> = Ok(value: T) | Fail(err: AsmErr, at: nat) | Abort

  // ---------------------------------------------------------------------
  // Text

  /** A buffer of C `char`s: every character is one byte. */
  predicate CChars(s: string)
  {
    forall k :: 0 <= k < |s| ==> s[k] as int < 256
  }

  /** The character at `i` of the NUL-terminated buffer holding `s`. */
  function At(s: string, i: nat): char
  {
    if i < |s| then s[i] else '\0'
  }

  /** The first loop of `AssemblerSkipSpaces`: whitespace. */
  function SpacesEnd(s: string, i: nat): (j: nat)
    requires i <= |s|
    ensures i <= j <= |s| && !IsSpace(At(s, j))
    ensures forall k :: i <= k < j ==> IsSpace(s[k])
    decreases |s| - i
  {
    if i < |s| && IsSpace(s[i]) then SpacesEnd(s, i + 1) else i
  }

  /** The inner loop over a `;` comment: up to the newline or NUL. */
  function CommentEnd(s: string, i: nat): (j: nat)
    requires i <= |s|
    ensures i <= j <= |s| && (At(s, j) == '\n' || At(s, j) == '\0')
    ensures forall k :: i <= k < j ==> s[k] != '\n' && s[k] != '\0'
    decreases |s| - i
  {
    if i < |s| && s[i] != '\n' && s[i] != '\0' then CommentEnd(s, i + 1) else i
  }

  /** The `while (arr[i] == ';')` loop: each comment, then the whitespace
      after it. */
  function SkipComments(s: string, i: nat): (j: nat)
    requires i <= |s| && !IsSpace(At(s, i))
    ensures i <= j <= |s| && !IsSpace(At(s, j)) && At(s, j) != ';'
    decreases |s| - i
  {
    if At(s, i) == ';' then SkipComments(s, SpacesEnd(s, CommentEnd(s, i))) else i
  }

  /** `AssemblerSkipSpaces`: whitespace and `;` comments up to the next
      character that can start a word, or the terminator. */
  function SkipSpaces(s: string, i: nat): (j: nat)
    requires i <= |s|
    ensures i <= j <= |s| && !IsSpace(At(s, j)) && At(s, j) != ';'
  {
    SkipComments(s, SpacesEnd(s, i))
  }

  /** At a character that is neither blank nor `;`, nothing is skipped. */
  lemma SkipSpacesAtWord(s: string, i: nat)
    requires i <= |s| && !IsSpace(At(s, i)) && At(s, i) != ';'
    ensures SkipSpaces(s, i) == i
  {
  }

  /** The newlines among `s[a..b]`: what skipping from `a` to `b` adds
      to `cur_line`. */
  function LinesIn(s: string, a: nat, b: nat): (n: nat)
    requires a <= b <= |s|
    ensures n <= b - a
    decreases b - a
  {
    if a == b then 0 else LinesIn(s, a, b - 1) + (if s[b - 1] == '\n' then 1 else 0)
  }

  lemma {:induction false} LinesSplit(s: string, a: nat, b: nat, c: nat)
    requires a <= b <= c <= |s|
    ensures LinesIn(s, a, c) == LinesIn(s, a, b) + LinesIn(s, b, c)
    decreases c - b
  {
    if b < c {
      LinesSplit(s, a, b, c - 1);
    }
  }

  /** A stretch without newlines adds nothing. */
  lemma {:induction false} LinesNone(s: string, a: nat, b: nat)
    requires a <= b <= |s| && forall k :: a <= k < b ==> s[k] != '\n'
    ensures LinesIn(s, a, b) == 0
    decreases b - a
  {
    if a < b {
      LinesNone(s, a, b - 1);
    }
  }

  /** The word `GetWord(arr + i)` copies: the run of characters up to
      whitespace or NUL. */
  function WordAt(s: string, i: nat): (w: string)
    requires i <= |s|
    ensures i + |w| <= |s| && s[i..i + |w|] == w
    ensures |w| == Io.WordLen(s[i..])
    ensures CChars(s) ==> CName(w)
  {
    s[i..i + Io.WordLen(s[i..])]
  }

  /** A non-empty word starts at `i` exactly when the character there is
      neither blank nor NUL. */
  lemma WordAtEmpty(s: string, i: nat)
    requires i <= |s|
    ensures WordAt(s, i) == [] <==> IsSpace(At(s, i)) || At(s, i) == '\0'
  {
  }

  // ---------------------------------------------------------------------
  // Keyed tables

  /** Every name of `pairs` fits a C string. */
  predicate Named<D>(pairs: seq<(string, D)>)
  {
    forall k :: 0 <= k < |pairs| ==> CName(pairs[k].0)
  }

  /** The map a run of `HashTableInsert`s builds: the last value inserted
      under a name wins. */
  function Bind<D>(pairs: seq<(string, D)>): (m: map<seq<bv8>, D>)
    requires Named(pairs)
  {
    if pairs == [] then map[]
    else Bind(pairs[..|pairs| - 1])[Key(pairs[|pairs| - 1].0) := pairs[|pairs| - 1].1]
  }

  /** The value of the last pair named `name`. */
  function LastValue<D>(pairs: seq<(string, D)>, name: string): (r: Option<D>)
    ensures r.None? <==> forall k :: 0 <= k < |pairs| ==> pairs[k].0 != name
    ensures r.Some? ==> exists k :: 0 <= k < |pairs| && pairs[k] == (name, r.value)
                          && forall q :: k < q < |pairs| ==> pairs[q].0 != name
  {
    if pairs == [] then None
    else if pairs[|pairs| - 1].0 == name then
      assert pairs[|pairs| - 1] == (name, pairs[|pairs| - 1].1);
      Some(pairs[|pairs| - 1].1)
    else LastValue(pairs[..|pairs| - 1], name)
  }

  /** The table after inserting the pairs one after the other under
      NUL-terminated keys, from an empty table. */
  function Insertions<D>(pairs: seq<(string, D)>): (t: HT.Table<D>)
    requires Named(pairs)
    ensures HT.Inv(t) && HT.Holds(t, Bind(pairs))
  {
    if pairs == [] then
      HT.InitHolds<D>();
      HT.Init()
    else
      var (name, d) := pairs[|pairs| - 1];
      var t0 := Insertions(pairs[..|pairs| - 1]);
      HT.InsertHolds(t0, Bind(pairs[..|pairs| - 1]), Key(name), d);
      HT.Insert(t0, Key(name), d)
  }

  /** A lookup in the table of a run of inserts finds the value last
      inserted under that name, and nothing for a name never inserted:
      a redefined label takes its later count. */
  lemma {:induction false} InsertionsFind<D>(pairs: seq<(string, D)>, name: string)
    requires Named(pairs)
    requires CName(name)
    ensures HT.Find(Insertions(pairs), Key(name)) == LastValue(pairs, name)
  {
    HT.FindHolds(Insertions(pairs), Bind(pairs), Key(name));
    BindLast(pairs, name);
  }

  lemma {:induction false} BindLast<D>(pairs: seq<(string, D)>, name: string)
    requires Named(pairs)
    requires CName(name)
    ensures (if Key(name) in Bind(pairs) then Some(Bind(pairs)[Key(name)]) else None) == LastValue(pairs, name)
  {
    if pairs != [] {
      var last := pairs[|pairs| - 1].0;
      BindLast(pairs[..|pairs| - 1], name);
      if Key(last) == Key(name) {
        KeyInjective(last, name);
      }
    }
  }

  /** One more pair is one more insert. */
  lemma InsertionsSnoc<D>(pairs: seq<(string, D)>, name: string, d: D)
    requires Named(pairs) && CName(name)
    ensures Named(pairs + [(name, d)])
    ensures Insertions(pairs + [(name, d)]) == HT.Insert(Insertions(pairs), Key(name), d)
  {
    assert (pairs + [(name, d)])[..|pairs|] == pairs;
  }

  // ---------------------------------------------------------------------
  // AssemblerPush

  /** The digits `atoi` reads from index `b` on. */
  function DigitsEnd(w: string, b: nat): (d: nat)
    requires b <= |w|
    ensures b <= d <= |w| && (d == |w| || !IsDigit(w[d]))
    ensures forall k :: b <= k < d ==> IsDigit(w[k])
    decreases |w| - b
  {
    if b < |w| && IsDigit(w[b]) then DigitsEnd(w, b + 1) else b
  }

  /** `atoi` on a word (which holds no whitespace): an optional sign,
      then the leading digits, saturated as `strtol` does and cut to an
      `int`; no digits at all give 0. */
  function Atoi(w: string): (v: int)
    ensures -0x8000_0000 <= v < 0x8000_0000
  {
    var b := if |w| > 0 && (w[0] == '-' || w[0] == '+') then 1 else 0;
    var m: int := DecValue(w[b..DigitsEnd(w, b)]);
    CInt(if b == 1 && w[0] == '-' then -m else m)
  }

  /** The `switch` of `AssemblerPush` on the word `w` read at `i`: the
      value `w` stands for in `mode`, or the error reported at `i`. */
  function Value(w: string, i: nat, mode: Mode, labels: HT.Table<nat>, tpl: HT.Table<int>): (r: Outcome<int>)
    requires CName(w) && HT.Inv(labels) && HT.Inv(tpl)
    ensures r.Fail? ==> r.at == i && r.err != AsmIoFailed && r.err != AsmOk
    ensures !r.Abort?
  {
    match mode
    case Instruction =>
      (match HT.Find(tpl, Key(w))
       case None => Fail(AsmInvalidInstruction, i)
       case Some(id) => Ok(id))
    case LabelRef =>
      (match HT.Find(labels, Key(w))
       case None => Fail(AsmInvalidLabel, i)
       case Some(count) => Ok(Wrap32(count)))
    case Memory =>
      if |w| != 5 || w[0] != '[' || w[4] != ']' then Fail(AsmInvalidRegister, i)
      else
        (match HT.Find(tpl, Key(w[1..4]))
         case None => Fail(AsmInvalidRegister, i)
         case Some(reg) => Ok(reg))
    case Number =>
      var v := Atoi(w);
      if v == 0 && w != "0" then Fail(AsmInvalidNumber, i) else Ok(v)
    case Register =>
      (match HT.Find(tpl, Key(w))
       case None => Fail(AsmInvalidRegister, i)
       case Some(reg) => Ok(reg))
  }

  /** `AssemblerPush` at `i` in `mode`: the value pushed and the index past
      the word, or the error it reports. */
  function Push(s: string, i: nat, mode: Mode, labels: HT.Table<nat>, tpl: HT.Table<int>): (r: Outcome<(int, nat)>)
    requires i <= |s| && CChars(s) && HT.Inv(labels) && HT.Inv(tpl)
    ensures r.Ok? ==> i < r.value.1 <= |s|
    ensures r.Fail? ==> r.at == i && r.err != AsmOk
    ensures !r.Abort?
  {
    var w := WordAt(s, i);
    if w == [] then Fail(AsmIoFailed, i)
    else
      match Value(w, i, mode, labels, tpl)
      case Ok(v) => Ok((v, i + |w|))
      case Fail(e, at) => Fail(e, at)
  }

  // ---------------------------------------------------------------------
  // Pass 1: FirstIteration

  /** What pass 1 has gathered: each label's name with the word count at
      its definition, the text ranges it blanked, and the words counted. */
  datatype Labels = Labels(defs: seq<(string, nat)>, blanks: seq<(nat, nat)>, count: nat)

  /** The label part of one pass-1 iteration, at `i` past the blanks: with
      no `:` there, nothing; otherwise the name after the `:` (and the
      blanks after it) is recorded with the current count and the range
      from the `:` to the end of the name is to be blanked.  The result
      holds the index past what was read. */
  function LabelAt(s: string, i: nat, acc: Labels): (r: Outcome<(nat, Labels)>)
    requires i <= |s| && CChars(s)
    ensures !r.Abort?
    ensures r.Ok? ==> i <= r.value.0 <= |s| && (At(s, i) == ':' ==> i < r.value.0)
    ensures r.Ok? ==> r.value.1.count == acc.count
    ensures r.Ok? && Named(acc.defs) ==> Named(r.value.1.defs)
    ensures r.Fail? ==> At(s, i) == ':' && r.err == AsmIoFailed && i < r.at <= |s|
  {
    if At(s, i) != ':' then Ok((i, acc))
    else
      var j := SkipSpaces(s, i + 1);
      var w := WordAt(s, j);
      if w == [] then Fail(AsmIoFailed, j)
      else Ok((j + |w|, Labels(acc.defs + [(w, acc.count)], acc.blanks + [(i, j + |w|)], acc.count)))
  }

  /** `LabelAt` on a definition, given the cursor after the blanks and
      the word there. */
  lemma LabelAtDefinition(s: string, i: nat, acc: Labels, k: nat, w: string)
    requires i < |s| && CChars(s) && At(s, i) == ':'
    requires k == SkipSpaces(s, i + 1) && w == WordAt(s, k)
    ensures w == [] ==> LabelAt(s, i, acc) == Fail(AsmIoFailed, k)
    ensures w != [] ==> LabelAt(s, i, acc) == Ok((k + |w|, Labels(acc.defs + [(w, acc.count)], acc.blanks + [(i, k + |w|)], acc.count)))
  {
  }

  /** One iteration of the loop of `FirstIteration` at `i`: blanks, an
      optional label, blanks, then one word counted if there is one.  The
      result holds the index past the word. */
  function FirstStep(s: string, i: nat, acc: Labels): (r: Outcome<(nat, Labels)>)
    requires i <= |s| && CChars(s) && At(s, i) != '\0'
    ensures !r.Abort?
    ensures r.Ok? ==> i < r.value.0 <= |s|
    ensures r.Fail? ==> r.err == AsmIoFailed && i <= r.at <= |s|
    ensures r.Ok? && Named(acc.defs) ==> Named(r.value.1.defs)
  {
    var i1 := SkipSpaces(s, i);
    match LabelAt(s, i1, acc)
    case Fail(e, at) => Fail(e, at)
    case Ok((j, acc1)) =>
      var i2 := SkipSpaces(s, j);
      var n := |WordAt(s, i2)|;
      FirstProgress(s, i, i1, j, i2);
      Ok((i2 + n, acc1.(count := if n != 0 then acc1.count + 1 else acc1.count)))
  }

  /** The loop of `FirstIteration` from index `i` on. */
  function FirstFrom(s: string, i: nat, acc: Labels): (r: Outcome<Labels>)
    requires i <= |s| && CChars(s)
    ensures !r.Abort?
    ensures r.Fail? ==> r.err == AsmIoFailed && i <= r.at <= |s|
    ensures r.Ok? && Named(acc.defs) ==> Named(r.value.defs)
    decreases |s| - i
  {
    if At(s, i) == '\0' then Ok(acc)
    else
      match FirstStep(s, i, acc)
      case Fail(e, at) => Fail(e, at)
      case Ok((j, acc1)) => FirstFrom(s, j, acc1)
  }

  /** The loop from `i` goes on from where its first iteration stops, or
      fails where that iteration fails. */
  lemma FirstFromStep(s: string, i: nat, acc: Labels, r: Outcome<(nat, Labels)>)
    requires i <= |s| && CChars(s) && At(s, i) != '\0' && r == FirstStep(s, i, acc)
    ensures r.Ok? ==> FirstFrom(s, i, acc) == FirstFrom(s, r.value.0, r.value.1)
    ensures r.Fail? ==> FirstFrom(s, i, acc) == Fail(r.err, r.at) && r.err != AsmOk
  {
  }

  /** Each pass-1 iteration moves past at least one character. */
  lemma FirstProgress(s: string, i: nat, i1: nat, j: nat, i2: nat)
    requires i <= |s| && At(s, i) != '\0' && i1 == SkipSpaces(s, i)
    requires i1 <= j <= |s| && (At(s, i1) == ':' ==> i1 < j) && i2 == SkipSpaces(s, j)
    ensures i < i2 + |WordAt(s, i2)|
  {
    if j == i1 {
      SkipSpacesAtWord(s, i1);
      WordAtEmpty(s, i1);
    }
  }

  /** `FirstIteration`. */
  function First(s: string): (r: Outcome<Labels>)
    requires CChars(s)
    ensures r.Ok? ==> Named(r.value.defs)
  {
    FirstFrom(s, 0, Labels([], [], 0))
  }

  /** Whether position `k` lies in one of the blanked ranges. */
  predicate Covered(blanks: seq<(nat, nat)>, k: nat)
  {
    blanks != [] && (Covered(blanks[..|blanks| - 1], k) || blanks[|blanks| - 1].0 <= k < blanks[|blanks| - 1].1)
  }

  /** The text after the label ranges were overwritten with spaces. */
  function Blank(s: string, blanks: seq<(nat, nat)>): (t: string)
    ensures |t| == |s|
    ensures forall k :: 0 <= k < |s| ==> t[k] == if Covered(blanks, k) then ' ' else s[k]
  {
    seq(|s|, k requires 0 <= k < |s| => if Covered(blanks, k) then ' ' else s[k])
  }

  // ---------------------------------------------------------------------
  // Pass 2: SecondIteration

  /** The assembler's output: the bytecode stack's contents and `start_ip`. */
  datatype Image = Image(code: seq<int>, start_ip: nat)

  /** The `switch` of pass 2 at `i`, after the mnemonic `id` was pushed:
      the operand (if any) and the index past it. */
  function Operand(s: string, i: nat, id: int, labels: HT.Table<nat>, tpl: HT.Table<int>, img: Image): (r: Outcome<(nat, Image)>)
    requires i <= |s| && CChars(s) && HT.Inv(labels) && HT.Inv(tpl)
    ensures r.Ok? ==> i <= r.value.0 <= |s|
    ensures r.Fail? ==> r.at == i && r.err != AsmOk
    ensures r.Abort? <==> FollowOf(id) == Unlisted
  {
    match FollowOf(id)
    case Nothing => Ok((i, img))
    case StartHere => Ok((i, img.(start_ip := |img.code|)))
    case Unlisted => Abort
    case TakesOperand(mode) =>
      match Push(s, i, mode, labels, tpl)
      case Fail(e, at) => Fail(e, at)
      case Ok((v, j)) => Ok((j, img.(code := img.code + [v])))
  }

  /** What a pass-2 step method reports against the step's outcome `r`:
      the error code, and on success the index reached and the image. */
  ghost predicate Wrote(r: Outcome<(nat, Image)>, err: AsmErr, j: nat, img: Image)
  {
    match r
    case Ok((n, img')) => err == AsmOk && j == n && img == img'
    case Fail(e, _) => err == e
    case Abort => false
  }

  /** Where a pass-2 step starting at `i` stopped. */
  function Reached(r: Outcome<(nat, Image)>, i: nat): nat
  {
    match r
    case Ok((n, _)) => n
    case Fail(_, at) => at
    case Abort => i
  }

  /** The rest of a pass-2 iteration once the mnemonic `id` was pushed
      and read up to `j`: blanks, its operand, blanks. */
  function OperandAfter(s: string, j: nat, id: int, labels: HT.Table<nat>, tpl: HT.Table<int>, img: Image): (r: Outcome<(nat, Image)>)
    requires j <= |s| && CChars(s) && HT.Inv(labels) && HT.Inv(tpl)
    ensures r.Ok? ==> j <= r.value.0 <= |s|
    ensures r.Fail? ==> j <= r.at <= |s| && r.err != AsmOk
  {
    match Operand(s, SkipSpaces(s, j), id, labels, tpl, img)
    case Fail(e, at) => Fail(e, at)
    case Abort => Abort
    case Ok((k, img2)) => Ok((SkipSpaces(s, k), img2))
  }

  /** One iteration of the loop of `SecondIteration` at `i`: blanks, the
      mnemonic, then its operand.  The result holds the index reached. */
  function SecondStep(s: string, i: nat, labels: HT.Table<nat>, tpl: HT.Table<int>, img: Image): (r: Outcome<(nat, Image)>)
    requires i <= |s| && CChars(s) && HT.Inv(labels) && HT.Inv(tpl)
    ensures r.Ok? ==> i < r.value.0 <= |s|
    ensures r.Fail? ==> i <= r.at <= |s| && r.err != AsmOk
  {
    var i1 := SkipSpaces(s, i);
    match Push(s, i1, Instruction, labels, tpl)
    case Fail(e, at) => Fail(e, at)
    case Ok((id, j)) => OperandAfter(s, j, id, labels, tpl, img.(code := img.code + [id]))
  }

  /** The loop of `SecondIteration` from index `i` on. */
  function SecondFrom(s: string, i: nat, labels: HT.Table<nat>, tpl: HT.Table<int>, img: Image): (r: Outcome<Image>)
    requires i <= |s| && CChars(s) && HT.Inv(labels) && HT.Inv(tpl)
    ensures r.Fail? ==> i <= r.at <= |s| && r.err != AsmOk
    decreases |s| - i
  {
    if At(s, i) == '\0' then Ok(img)
    else
      match SecondStep(s, i, labels, tpl, img)
      case Fail(e, at) => Fail(e, at)
      case Abort => Abort
      case Ok((j, img2)) => SecondFrom(s, j, labels, tpl, img2)
  }

  /** With a table of enumerators, a pass-2 step never aborts. */
  lemma SecondStepListed(s: string, i: nat, labels: HT.Table<nat>, tpl: HT.Table<int>, img: Image)
    requires i <= |s| && CChars(s) && HT.Inv(labels) && HT.Inv(tpl) && IdsListed(tpl)
    ensures !SecondStep(s, i, labels, tpl, img).Abort?
  {
    var i1 := SkipSpaces(s, i);
    var w := WordAt(s, i1);
    if w != [] && HT.Find(tpl, Key(w)).Some? {
      assert FollowOf(HT.Find(tpl, Key(w)).value) != Unlisted;
    }
  }

  /** `SecondStep` split at the mnemonic: its failure, or the operand
      part that follows it. */
  lemma SecondStepParts(s: string, i: nat, labels: HT.Table<nat>, tpl: HT.Table<int>, img: Image, p: Outcome<(int, nat)>)
    requires i <= |s| && CChars(s) && HT.Inv(labels) && HT.Inv(tpl)
    requires p == Push(s, SkipSpaces(s, i), Instruction, labels, tpl)
    ensures p.Fail? ==> SecondStep(s, i, labels, tpl, img) == Fail(p.err, p.at)
    ensures p.Ok? ==> SecondStep(s, i, labels, tpl, img)
                      == OperandAfter(s, p.value.1, p.value.0, labels, tpl, img.(code := img.code + [p.value.0]))
  {
  }

  /** At the terminator, pass 2 is done. */
  lemma SecondFromEnd(s: string, i: nat, labels: HT.Table<nat>, tpl: HT.Table<int>, img: Image)
    requires i <= |s| && CChars(s) && HT.Inv(labels) && HT.Inv(tpl) && At(s, i) == '\0'
    ensures SecondFrom(s, i, labels, tpl, img) == Ok(img)
  {
  }

  /** The loop from `i` goes on from where its first iteration stops, or
      fails where that iteration fails. */
  lemma SecondFromStep(s: string, i: nat, labels: HT.Table<nat>, tpl: HT.Table<int>, img: Image, r: Outcome<(nat, Image)>)
    requires i <= |s| && CChars(s) && HT.Inv(labels) && HT.Inv(tpl) && At(s, i) != '\0'
    requires r == SecondStep(s, i, labels, tpl, img) && !r.Abort?
    ensures r.Ok? ==> SecondFrom(s, i, labels, tpl, img) == SecondFrom(s, r.value.0, labels, tpl, r.value.1)
    ensures r.Fail? ==> SecondFrom(s, i, labels, tpl, img) == Fail(r.err, r.at)
  {
  }

  /** `SecondIteration` on the blanked text: an empty bytecode stack and
      `start_ip` as it was. */
  function Second(s: string, labels: HT.Table<nat>, tpl: HT.Table<int>, start_ip: nat): Outcome<Image>
    requires CChars(s) && HT.Inv(labels) && HT.Inv(tpl)
  {
    SecondFrom(s, 0, labels, tpl, Image([], start_ip))
  }

  /** `Translation` after the table of `instruction_template_list` was
      built: pass 1, then pass 2 over the blanked text with the labels
      pass 1 recorded. */
  function Translate(s: string, tpl: HT.Table<int>, start_ip: nat): Outcome<Image>
    requires CChars(s) && HT.Inv(tpl)
  {
    match First(s)
    case Fail(e, at) => Fail(e, at)
    case Ok(p) =>
      BlankChars(s, p.blanks);
      Second(Blank(s, p.blanks), Insertions(p.defs), tpl, start_ip)
  }

  lemma BlankChars(s: string, blanks: seq<(nat, nat)>)
    requires CChars(s)
    ensures CChars(Blank(s, blanks))
  {
  }

  // ---------------------------------------------------------------------
  // Template ids

  /** Every row maps its mnemonic to an `InstructionType` enumerator. */
  predicate Listed(rows: seq<(string, int)>)
  {
    forall k :: 0 <= k < |rows| ==> UNDEF <= rows[k].1 <= MAIN
  }

  lemma {:induction false} BindListed(rows: seq<(string, int)>, key: seq<bv8>)
    requires Named(rows) && Listed(rows) && key in Bind(rows)
    ensures UNDEF <= Bind(rows)[key] <= MAIN
  {
    var init := rows[..|rows| - 1];
    if key != Key(rows[|rows| - 1].0) {
      BindListed(init, key);
    }
  }

  /** Every mnemonic the table knows stands for an `InstructionType`
      enumerator. */
  ghost predicate IdsListed(tpl: HT.Table<int>)
  {
    HT.Inv(tpl) && forall w :: CName(w) && HT.Find(tpl, Key(w)).Some? ==> FollowOf(HT.Find(tpl, Key(w)).value) != Unlisted
  }

  lemma InsertionsListed(rows: seq<(string, int)>)
    requires Named(rows) && Listed(rows)
    ensures IdsListed(Insertions(rows))
  {
    forall w | CName(w) && HT.Find(Insertions(rows), Key(w)).Some?
      ensures FollowOf(HT.Find(Insertions(rows), Key(w)).value) != Unlisted
    {
      FindListed(rows, w);
    }
  }

  /** A mnemonic found in a table built from listed rows is an enumerator,
      so the `switch` of pass 2 never reaches its `default`. */
  lemma FindListed(rows: seq<(string, int)>, w: string)
    requires Named(rows) && Listed(rows) && CName(w)
    requires HT.Find(Insertions(rows), Key(w)).Some?
    ensures FollowOf(HT.Find(Insertions(rows), Key(w)).value) != Unlisted
  {
    HT.FindHolds(Insertions(rows), Bind(rows), Key(w));
    BindListed(rows, Key(w));
  }

  /** Every row of `instruction_template_list` is a C string naming an
      enumerator. */
  lemma TemplatesListed()
    ensures Named(TEMPLATES) && Listed(TEMPLATES)
  {
    forall k | 0 <= k < |TEMPLATES|
      ensures CName(TEMPLATES[k].0) && UNDEF <= TEMPLATES[k].1 <= MAIN
    {
      // the rows in three runs, each checked on its own
      if k < 9 {
      } else if k < 18 {
      } else {
      }
    }
  }

  /** The loop of `Translation` that inserts each row of
      `instruction_template_list` into a fresh table. */
  method BuildTemplates(rows: seq<(string, int)>) returns (tpl: HT.Table<int>)
    requires Named(rows)
    ensures tpl == Insertions(rows)
  {
    tpl := HT.Init();
    assert rows[..0] == [];
    for k := 0 to |rows|
      invariant Named(rows[..k]) && tpl == Insertions(rows[..k])
    {
      InsertionsPrefix(rows, k);
      tpl := HT.Insert(tpl, Key(rows[k].0), rows[k].1);
    }
    assert rows[..|rows|] == rows;
  }

  /** The rows up to `k + 1` are those up to `k` and one more insert. */
  lemma InsertionsPrefix<D>(rows: seq<(string, D)>, k: nat)
    requires Named(rows) && k < |rows|
    ensures Named(rows[..k]) && Named(rows[..k + 1]) && CName(rows[k].0)
    ensures Insertions(rows[..k + 1]) == HT.Insert(Insertions(rows[..k]), Key(rows[k].0), rows[k].1)
  {
    assert rows[..k + 1] == rows[..k] + [(rows[k].0, rows[k].1)];
    InsertionsSnoc(rows[..k], rows[k].0, rows[k].1);
  }

  // ---------------------------------------------------------------------
  // What pass 1 carries from step to step

  /** The table holds the labels recorded so far.  Sealed behind a
      quantifier over `depth` so that the facts reach the solver only
      where `GatheredFacts` is called. */
  ghost predicate Gathered(defs: seq<(string, nat)>, labels: HT.Table<nat>)
  {
    forall depth: nat :: GatheredAt(defs, labels, depth)
  }

  ghost predicate GatheredAt(defs: seq<(string, nat)>, labels: HT.Table<nat>, depth: nat)
    decreases depth
  {
    if depth > 0 then GatheredAt(defs, labels, depth - 1)
    else Named(defs) && labels == Insertions(defs)
  }

  lemma GatheredFacts(defs: seq<(string, nat)>, labels: HT.Table<nat>)
    requires Gathered(defs, labels)
    ensures Named(defs) && labels == Insertions(defs)
  {
    assert GatheredAt(defs, labels, 0);
  }

  lemma GatheredInv(defs: seq<(string, nat)>, labels: HT.Table<nat>)
    requires Gathered(defs, labels)
    ensures HT.Inv(labels)
  {
    GatheredFacts(defs, labels);
  }

  lemma GatheredSeal(defs: seq<(string, nat)>, labels: HT.Table<nat>)
    requires Named(defs) && labels == Insertions(defs)
    ensures Gathered(defs, labels)
  {
    forall depth: nat
      ensures GatheredAt(defs, labels, depth)
    {
      GatheredAtAll(defs, labels, depth);
    }
  }

  lemma {:induction false} GatheredAtAll(defs: seq<(string, nat)>, labels: HT.Table<nat>, depth: nat)
    requires Named(defs) && labels == Insertions(defs)
    ensures GatheredAt(defs, labels, depth)
    decreases depth
  {
    if depth > 0 {
      GatheredAtAll(defs, labels, depth - 1);
    }
  }

  /** A label definition keeps the table in step with the recorded
      labels. */
  lemma GatheredDefine(defs: seq<(string, nat)>, labels: HT.Table<nat>, w: string, count: nat)
    requires Gathered(defs, labels) && CName(w) && HT.Inv(labels)
    ensures Gathered(defs + [(w, count)], HT.Insert(labels, Key(w), count))
  {
    GatheredFacts(defs, labels);
    InsertionsSnoc(defs, w, count);
    GatheredSeal(defs + [(w, count)], HT.Insert(labels, Key(w), count));
  }

  // ---------------------------------------------------------------------
  // The assembler object

  /** `Assembler`: the input buffer with the line being read, and the
      output, the bytecode stack (held by its contents) and `start_ip`. */
  class Assembler {
    var buffer: Buffer.Buffer
    var cur_line: nat
    var bytecode: seq<int>
    var start_ip: nat

    /** The buffer holds the C string `Text()`: its `size` characters are
        bytes and the slot after them is NUL. */
    ghost predicate Valid()
      reads this`buffer, buffer, buffer.data
    {
      buffer.size < buffer.data.Length && buffer.data[buffer.size] == '\0'
      && CChars(buffer.data[..buffer.size])
    }

    ghost function Text(): (s: string)
      reads this`buffer, buffer, buffer.data
      requires Valid()
      ensures |s| == buffer.size && CChars(s)
    {
      buffer.data[..buffer.size]
    }

    /** The buffer reads as `s` from index `i` on: what the loops still
        have ahead of them when pass 1 has blanked labels behind `i`. */
    ghost predicate Agrees(s: string, i: nat)
      reads this`buffer, buffer, buffer.data
    {
      i <= |s| == buffer.size < buffer.data.Length && buffer.data[buffer.size] == '\0'
      && forall k :: i <= k < |s| ==> buffer.data[k] == s[k]
    }

    /** `AssemblerInit`: reading starts before line 1 with no bytecode. */
    constructor Init(buffer: Buffer.Buffer)
      ensures this.buffer == buffer && cur_line == 0 && bytecode == [] && start_ip == 0
    {
      this.buffer := buffer;
      cur_line := 0;
      bytecode := [];
      start_ip := 0;
    }

    /** The whitespace loops of `AssemblerSkipSpaces`, counting newlines. */
    method SkipBlanks(ghost s: string, i: nat) returns (j: nat)
      requires Agrees(s, i)
      modifies this`cur_line
      ensures j == SpacesEnd(s, i)
      ensures cur_line == old(cur_line) + LinesIn(s, i, j)
    {
      j := i;
      while IsSpace(buffer.data[j]) && j < buffer.size
        invariant i <= j <= |s| && SpacesEnd(s, j) == SpacesEnd(s, i)
        invariant cur_line == old(cur_line) + LinesIn(s, i, j)
        decreases |s| - j
      {
        if buffer.data[j] == '\n' {
          cur_line := cur_line + 1;
        }
        j := j + 1;
      }
    }

    /** The loop over one `;` comment: up to the newline or NUL. */
    method SkipComment(ghost s: string, i: nat) returns (j: nat)
      requires Agrees(s, i)
      ensures j == CommentEnd(s, i)
    {
      j := i;
      while buffer.data[j] != '\n' && buffer.data[j] != '\0' && j < buffer.size
        invariant i <= j <= |s| && CommentEnd(s, j) == CommentEnd(s, i)
        decreases |s| - j
      {
        j := j + 1;
      }
    }

    /** `AssemblerSkipSpaces`: whitespace and comments, counting the
        newlines passed. */
    method Skip(ghost s: string, i: nat) returns (j: nat)
      requires Agrees(s, i)
      modifies this`cur_line
      ensures j == SkipSpaces(s, i)
      ensures cur_line == old(cur_line) + LinesIn(s, i, j)
    {
      j := SkipBlanks(s, i);
      while buffer.data[j] == ';'
        invariant i <= j <= |s| && !IsSpace(At(s, j)) && SkipComments(s, j) == SkipSpaces(s, i)
        invariant cur_line == old(cur_line) + LinesIn(s, i, j)
        decreases |s| - j
      {
        var e := SkipComment(s, j);
        var k := SkipBlanks(s, e);
        LinesNone(s, j, e);
        LinesSplit(s, i, j, e);
        LinesSplit(s, i, e, k);
        j := k;
      }
    }

    /** `GetWord(arr + i)`: the word at `i`, or nothing when there is no
        word there. */
    method ReadWord(ghost s: string, i: nat) returns (word: Option<string>)
      requires Agrees(s, i)
      ensures word.None? <==> WordAt(s, i) == []
      ensures word.Some? ==> word.value == WordAt(s, i)
    {
      assert buffer.data[i..buffer.size] == s[i..];
      word := Io.GetWord(buffer.data[i..buffer.size]);
    }

    /** `SkipWord(arr + i)`: the length of the word at `i`. */
    method WordLength(ghost s: string, i: nat) returns (n: nat)
      requires Agrees(s, i)
      ensures n == |WordAt(s, i)|
    {
      assert buffer.data[i..buffer.size] == s[i..];
      n := Io.SkipWord(buffer.data[i..buffer.size]);
    }

    /** `AssemblerPush` at `i` in `mode`: reads the word there, pushes the
        value it stands for onto the bytecode and returns the index past
        it, or reports the error with nothing pushed. */
    method PushWord(ghost s: string, i: nat, mode: Mode, labels: HT.Table<nat>, tpl: HT.Table<int>)
      returns (err: AsmErr, next: nat, pushed: int)
      requires Agrees(s, i) && CChars(s) && HT.Inv(labels) && HT.Inv(tpl)
      modifies this`bytecode
      ensures match Push(s, i, mode, labels, tpl)
        case Ok((v, j)) => err == AsmOk && next == j && pushed == v && bytecode == old(bytecode) + [v]
        case Fail(e, _) => err == e && bytecode == old(bytecode)
        case Abort => false
    {
      var word := ReadWord(s, i);
      if word.None? {
        return AsmIoFailed, i, 0;
      }
      err, pushed := WordValue(word.value, i, mode, labels, tpl);
      if err == AsmOk {
        bytecode := bytecode + [pushed];
      }
      next := i + |word.value|;
    }

    /** The `switch` of `AssemblerPush` on the word `w` read at `i`. */
    method WordValue(w: string, i: nat, mode: Mode, labels: HT.Table<nat>, tpl: HT.Table<int>)
      returns (err: AsmErr, v: int)
      requires CName(w) && HT.Inv(labels) && HT.Inv(tpl)
      ensures match Value(w, i, mode, labels, tpl)
        case Ok(x) => err == AsmOk && v == x
        case Fail(e, _) => err == e && e != AsmOk
        case Abort => false
    {
      match mode
      case Instruction =>
        var id := HT.Find(tpl, Key(w));
        if id.None? {
          return AsmInvalidInstruction, 0;
        }
        return AsmOk, id.value;
      case LabelRef =>
        var count := HT.Find(labels, Key(w));
        if count.None? {
          return AsmInvalidLabel, 0;
        }
        return AsmOk, Wrap32(count.value);
      case Memory =>
        if |w| != 5 || w[0] != '[' || w[4] != ']' {
          return AsmInvalidRegister, 0;
        }
        var reg := HT.Find(tpl, Key(w[1..4]));
        if reg.None? {
          return AsmInvalidRegister, 0;
        }
        return AsmOk, reg.value;
      case Number =>
        var number := Atoi(w);
        if number == 0 && w != "0" {
          return AsmInvalidNumber, 0;
        }
        return AsmOk, number;
      case Register =>
        var reg := HT.Find(tpl, Key(w));
        if reg.None? {
          return AsmInvalidRegister, 0;
        }
        return AsmOk, reg.value;
    }

    /** The buffer holds `s` with the ranges of `blanks` overwritten by
        spaces. */
    ghost predicate Blanked(s: string, blanks: seq<(nat, nat)>)
      reads this`buffer, buffer, buffer.data
    {
      |s| <= buffer.data.Length
      && forall k :: 0 <= k < |s| ==> buffer.data[k] == if Covered(blanks, k) then ' ' else s[k]
    }

    /** The `for (j = start; j < i; j++) arr[j] = ' '` loop. */
    method BlankRange(ghost s: string, a: nat, b: nat, ghost blanks: seq<(nat, nat)>)
      requires a <= b && Agrees(s, a) && Blanked(s, blanks)
      requires b <= |s|
      modifies buffer.data
      ensures Agrees(s, b) && Blanked(s, blanks + [(a, b)])
    {
      var j := a;
      while j < b
        invariant a <= j <= b
        invariant forall k :: b <= k < |s| ==> buffer.data[k] == s[k]
        invariant buffer.data[buffer.size] == '\0'
        invariant forall k :: 0 <= k < |s| ==> buffer.data[k] == if Covered(blanks, k) || a <= k < j then ' ' else s[k]
      {
        buffer.data[j] := ' ';
        j := j + 1;
      }
      assert (blanks + [(a, b)])[..|blanks|] == blanks;
    }

    /** The label part of one `FirstIteration` step at `i`: nothing
        unless there is a `:` there. */
    method ReadLabel(ghost s: string, i: nat, count: nat, labels: HT.Table<nat>, ghost acc: Labels)
      returns (err: AsmErr, j: nat, labels': HT.Table<nat>, ghost acc': Labels)
      requires Agrees(s, i) && CChars(s) && Blanked(s, acc.blanks) && Gathered(acc.defs, labels) && count == acc.count
      modifies this`cur_line, buffer.data
      ensures match LabelAt(s, i, acc)
        case Ok((n, a)) => err == AsmOk && j == n && acc' == a && Agrees(s, j) && Blanked(s, a.blanks) && Gathered(a.defs, labels') && count == a.count
                           && cur_line == old(cur_line) + LinesIn(s, i, n)
        case Fail(e, at) => err == e && cur_line == old(cur_line) + LinesIn(s, i, at)
        case Abort => false
    {
      if buffer.data[i] != ':' {
        return AsmOk, i, labels, acc;
      }
      err, j, labels', acc' := DefineLabel(s, i, count, labels, acc);
    }

    /** A label definition at `i`: reads the name after the `:`, inserts
        it with the current count and blanks the definition. */
    method DefineLabel(ghost s: string, i: nat, count: nat, labels: HT.Table<nat>, ghost acc: Labels)
      returns (err: AsmErr, j: nat, labels': HT.Table<nat>, ghost acc': Labels)
      requires Agrees(s, i) && CChars(s) && Blanked(s, acc.blanks) && Gathered(acc.defs, labels) && count == acc.count
      requires At(s, i) == ':'
      modifies this`cur_line, buffer.data
      ensures match LabelAt(s, i, acc)
        case Ok((n, a)) => err == AsmOk && j == n && acc' == a && Agrees(s, j) && Blanked(s, a.blanks) && Gathered(a.defs, labels') && count == a.count
                           && cur_line == old(cur_line) + LinesIn(s, i, n)
        case Fail(e, at) => err == e && cur_line == old(cur_line) + LinesIn(s, i, at)
        case Abort => false
    {
      var k := Skip(s, i + 1);
      assert LinesIn(s, i, i + 1) == 0;
      LinesSplit(s, i, i + 1, k);
      var word := ReadWord(s, k);
      LabelAtDefinition(s, i, acc, k, WordAt(s, k));
      if word.None? {
        return AsmIoFailed, k, labels, acc;
      }
      var w := word.value;
      j := k + |w|;
      LinesNone(s, k, j);
      LinesSplit(s, i, k, j);
      GatheredInv(acc.defs, labels);
      labels' := HT.Insert(labels, Key(w), count);
      acc' := Labels(acc.defs + [(w, count)], acc.blanks + [(i, j)], count);
      GatheredDefine(acc.defs, labels, w, count);
      BlankRange(s, i, j, acc.blanks);
      err := AsmOk;
    }

    /** What the loop of `FirstIteration` keeps at `i`: the text ahead is
        `s`, the label definitions behind are blanked and recorded in
        `labels`, and `count` words were counted.  Sealed like
        `Gathered`. */
    ghost predicate Reading(s: string, i: nat, acc: Labels, labels: HT.Table<nat>, count: nat)
      reads this`buffer, buffer, buffer.data
    {
      forall depth: nat :: ReadingAt(s, i, acc, labels, count, depth)
    }

    ghost predicate ReadingAt(s: string, i: nat, acc: Labels, labels: HT.Table<nat>, count: nat, depth: nat)
      reads this`buffer, buffer, buffer.data
      decreases depth
    {
      if depth > 0 then ReadingAt(s, i, acc, labels, count, depth - 1)
      else Agrees(s, i) && CChars(s) && Blanked(s, acc.blanks) && Gathered(acc.defs, labels) && count == acc.count
    }

    lemma ReadingFacts(s: string, i: nat, acc: Labels, labels: HT.Table<nat>, count: nat)
      requires Reading(s, i, acc, labels, count)
      ensures Agrees(s, i) && CChars(s) && Blanked(s, acc.blanks) && Gathered(acc.defs, labels) && count == acc.count
    {
      assert ReadingAt(s, i, acc, labels, count, 0);
    }

    lemma AgreesChar(s: string, i: nat)
      requires Agrees(s, i)
      ensures i < buffer.data.Length && buffer.data[i] == At(s, i)
    {
    }

    lemma ReadingChar(s: string, i: nat, acc: Labels, labels: HT.Table<nat>, count: nat)
      requires i <= |s| && Reading(s, i, acc, labels, count)
      ensures i < buffer.data.Length && buffer.data[i] == At(s, i)
    {
      ReadingFacts(s, i, acc, labels, count);
    }

    lemma ReadingSeal(s: string, i: nat, acc: Labels, labels: HT.Table<nat>, count: nat)
      requires Agrees(s, i) && CChars(s) && Blanked(s, acc.blanks) && Gathered(acc.defs, labels) && count == acc.count
      ensures Reading(s, i, acc, labels, count)
    {
      forall depth: nat
        ensures ReadingAt(s, i, acc, labels, count, depth)
      {
        ReadingAtAll(s, i, acc, labels, count, depth);
      }
    }

    lemma {:induction false} ReadingAtAll(s: string, i: nat, acc: Labels, labels: HT.Table<nat>, count: nat, depth: nat)
      requires Agrees(s, i) && CChars(s) && Blanked(s, acc.blanks) && Gathered(acc.defs, labels) && count == acc.count
      ensures ReadingAt(s, i, acc, labels, count, depth)
      decreases depth
    {
      if depth > 0 {
        ReadingAtAll(s, i, acc, labels, count, depth - 1);
      }
    }

    /** One iteration of the loop of `FirstIteration` at `i`. */
    method ReadStep(ghost s: string, i: nat, count: nat, labels: HT.Table<nat>, ghost acc: Labels)
      returns (err: AsmErr, j: nat, count': nat, labels': HT.Table<nat>, ghost acc': Labels)
      requires i <= |s| && CChars(s) && At(s, i) != '\0' && Reading(s, i, acc, labels, count)
      modifies this`cur_line, buffer.data
      ensures match FirstStep(s, i, acc)
        case Ok((n, a)) => err == AsmOk && j == n && acc' == a && count' == a.count && Reading(s, j, a, labels', count')
                           && cur_line == old(cur_line) + LinesIn(s, i, n)
        case Fail(e, at) => err == e && cur_line == old(cur_line) + LinesIn(s, i, at)
        case Abort => false
    {
      ReadingFacts(s, i, acc, labels, count);
      var i1 := Skip(s, i);
      var k;
      err, k, labels', acc' := ReadLabel(s, i1, count, labels, acc);
      if err != AsmOk {
        LinesSplit(s, i, i1, LabelAt(s, i1, acc).at);
        return err, k, count, labels', acc';
      }
      var i2 := Skip(s, k);
      var offset := WordLength(s, i2);
      count' := if offset != 0 then count + 1 else count;
      acc' := acc'.(count := count');
      j := i2 + offset;
      LinesNone(s, i2, j);
      LinesSplit(s, i, i1, k);
      LinesSplit(s, i, k, i2);
      LinesSplit(s, i, i2, j);
      ReadingSeal(s, j, acc', labels', count');
    }

    /** A buffer that holds the blanked text is valid and reads as it. */
    lemma BlankedText(s: string, blanks: seq<(nat, nat)>)
      requires Agrees(s, |s|) && CChars(s) && Blanked(s, blanks)
      ensures Valid() && Text() == Blank(s, blanks)
    {
      assert buffer.data[..buffer.size] == Blank(s, blanks);
      BlankChars(s, blanks);
    }

    /** The loop of `FirstIteration` from `i` on. */
    method ReadAll(ghost s: string, i: nat, count: nat, labels: HT.Table<nat>, ghost acc: Labels)
      returns (err: AsmErr, labels': HT.Table<nat>, ghost p: Labels, ghost e: nat)
      requires i <= |s| && CChars(s) && count == acc.count && Reading(s, i, acc, labels, count)
      modifies this`cur_line, buffer.data
      ensures match FirstFrom(s, i, acc)
        case Ok(r) => err == AsmOk && p == r && e <= |s| && Reading(s, e, r, labels', r.count)
        case Fail(x, at) => err == x && cur_line == old(cur_line) + LinesIn(s, i, at)
        case Abort => false
    {
      var j, n := i, count;
      labels', p := labels, acc;
      while true
        invariant i <= j <= |s| && Reading(s, j, p, labels', n) && n == p.count
        invariant FirstFrom(s, i, acc) == FirstFrom(s, j, p)
        invariant cur_line == old(cur_line) + LinesIn(s, i, j)
        decreases |s| - j
      {
        ReadingChar(s, j, p, labels', n);
        if buffer.data[j] == '\0' {
          break;
        }
        var k;
        ghost var r := FirstStep(s, j, p);
        FirstFromStep(s, j, p, r);
        err, k, n, labels', p := ReadStep(s, j, n, labels', p);
        if err != AsmOk {
          LinesSplit(s, i, j, r.at);
          return err, labels', p, j;
        }
        LinesSplit(s, i, j, k);
        j := k;
      }
      err, e := AsmOk, j;
    }

    /** `FirstIteration`: records every label with the number of words
        before it, blanks the label definitions out of the buffer, and
        leaves `cur_line` at 1; on an error, `cur_line` is the line it
        was found on. */
    method FirstIteration() returns (err: AsmErr, labels: HT.Table<nat>)
      requires Valid()
      modifies this`cur_line, buffer.data
      ensures match First(old(Text()))
        case Ok(p) => err == AsmOk && labels == Insertions(p.defs) && cur_line == 1
                      && Valid() && Text() == Blank(old(Text()), p.blanks)
        case Fail(e, at) => err == e && cur_line == 1 + LinesIn(old(Text()), 0, at)
        case Abort => false
    {
      ghost var s := Text();
      cur_line := 1;
      ghost var acc := Labels([], [], 0);
      GatheredSeal(acc.defs, HT.Init());
      ReadingSeal(s, 0, acc, HT.Init(), 0);
      ghost var p, e;
      err, labels, p, e := ReadAll(s, 0, 0, HT.Init(), acc);
      if err == AsmOk {
        ReadingFacts(s, e, p, labels, p.count);
        GatheredFacts(p.defs, labels);
        BlankedText(s, p.blanks);
        cur_line := 1;
      }
    }

    /** The `switch` of `SecondIteration` after the mnemonic `id` was
        pushed: the operand it takes, if any, or the `start_ip` mark. */
    method OperandWord(ghost s: string, i: nat, id: int, labels: HT.Table<nat>, tpl: HT.Table<int>)
      returns (err: AsmErr, next: nat)
      requires Agrees(s, i) && CChars(s) && HT.Inv(labels) && HT.Inv(tpl) && FollowOf(id) != Unlisted
      modifies this`bytecode, this`start_ip
      ensures match Operand(s, i, id, labels, tpl, Image(old(bytecode), old(start_ip)))
        case Ok((n, img)) => err == AsmOk && next == n && bytecode == img.code && start_ip == img.start_ip
        case Fail(e, _) => err == e && bytecode == old(bytecode) && start_ip == old(start_ip)
        case Abort => false
    {
      match FollowOf(id)
      case Nothing =>
        return AsmOk, i;
      case StartHere =>
        start_ip := |bytecode|;
        return AsmOk, i;
      case TakesOperand(mode) =>
        var v;
        err, next, v := PushWord(s, i, mode, labels, tpl);
    }

    /** The operand part of a `SecondIteration` step, after the
        mnemonic `id` was pushed and read up to `j`. */
    method OperandPart(ghost s: string, j: nat, id: int, labels: HT.Table<nat>, tpl: HT.Table<int>)
      returns (err: AsmErr, next: nat)
      requires Agrees(s, j) && CChars(s) && HT.Inv(labels) && HT.Inv(tpl) && FollowOf(id) != Unlisted
      modifies this`cur_line, this`bytecode, this`start_ip
      ensures Wrote(OperandAfter(s, j, id, labels, tpl, Image(old(bytecode), old(start_ip))), err, next, Image(bytecode, start_ip))
      ensures cur_line == old(cur_line) + LinesIn(s, j, Reached(OperandAfter(s, j, id, labels, tpl, Image(old(bytecode), old(start_ip))), j))
    {
      var i2 := Skip(s, j);
      var n;
      err, n := OperandWord(s, i2, id, labels, tpl);
      if err != AsmOk {
        return err, n;
      }
      next := Skip(s, n);
      LinesNone(s, i2, n);
      LinesSplit(s, j, i2, n);
      LinesSplit(s, j, n, next);
    }

    /** The mnemonic part of a `SecondIteration` step: blanks, then the
        instruction word pushed as its template id. */
    method MnemonicPart(ghost s: string, i: nat, labels: HT.Table<nat>, tpl: HT.Table<int>)
      returns (err: AsmErr, k: nat, id: int)
      requires Agrees(s, i) && CChars(s) && HT.Inv(labels) && HT.Inv(tpl) && IdsListed(tpl)
      modifies this`cur_line, this`bytecode
      ensures match Push(s, SkipSpaces(s, i), Instruction, labels, tpl)
        case Ok((v, n)) => err == AsmOk && k == n && id == v && FollowOf(id) != Unlisted
                           && bytecode == old(bytecode) + [v] && cur_line == old(cur_line) + LinesIn(s, i, n)
        case Fail(e, at) => err == e && cur_line == old(cur_line) + LinesIn(s, i, at)
        case Abort => false
    {
      var i1 := Skip(s, i);
      err, k, id := PushWord(s, i1, Instruction, labels, tpl);
      if err == AsmOk {
        assert FollowOf(id) != Unlisted by {
          assert HT.Find(tpl, Key(WordAt(s, i1))).Some?;
        }
        LinesNone(s, i1, k);
        LinesSplit(s, i, i1, k);
      }
    }

    /** One iteration of the loop of `SecondIteration` at `i`. */
    method WriteStep(ghost s: string, i: nat, labels: HT.Table<nat>, tpl: HT.Table<int>)
      returns (err: AsmErr, j: nat)
      requires Agrees(s, i) && CChars(s) && HT.Inv(labels) && HT.Inv(tpl) && IdsListed(tpl)
      modifies this`cur_line, this`bytecode, this`start_ip
      ensures Wrote(SecondStep(s, i, labels, tpl, Image(old(bytecode), old(start_ip))), err, j, Image(bytecode, start_ip))
      ensures cur_line == old(cur_line) + LinesIn(s, i, Reached(SecondStep(s, i, labels, tpl, Image(old(bytecode), old(start_ip))), i))
    {
      ghost var img := Image(bytecode, start_ip);
      ghost var r := SecondStep(s, i, labels, tpl, img);
      ghost var p := Push(s, SkipSpaces(s, i), Instruction, labels, tpl);
      SecondStepParts(s, i, labels, tpl, img, p);
      var k, id;
      err, k, id := MnemonicPart(s, i, labels, tpl);
      if err != AsmOk {
        assert r == Fail(p.err, p.at);
        j := k;
      } else {
        ghost var q := OperandAfter(s, k, id, labels, tpl, img.(code := img.code + [id]));
        assert r == q;
        err, j := OperandPart(s, k, id, labels, tpl);
        LinesSplit(s, i, k, Reached(q, k));
      }
    }

    /** The loop of `SecondIteration` from `i` on. */
    method WriteAll(ghost s: string, i: nat, labels: HT.Table<nat>, tpl: HT.Table<int>)
      returns (err: AsmErr)
      requires Agrees(s, i) && CChars(s) && HT.Inv(labels) && HT.Inv(tpl) && IdsListed(tpl)
      modifies this`cur_line, this`bytecode, this`start_ip
      ensures match SecondFrom(s, i, labels, tpl, Image(old(bytecode), old(start_ip)))
        case Ok(img) => err == AsmOk && bytecode == img.code && start_ip == img.start_ip
        case Fail(e, at) => err == e && cur_line == old(cur_line) + LinesIn(s, i, at)
        case Abort => false
    {
      var j := i;
      AgreesChar(s, j);
      while buffer.data[j] != '\0'
        invariant Agrees(s, j) && buffer.data[j] == At(s, j)
        invariant SecondFrom(s, i, labels, tpl, Image(old(bytecode), old(start_ip)))
                  == SecondFrom(s, j, labels, tpl, Image(bytecode, start_ip))
        invariant cur_line == old(cur_line) + LinesIn(s, i, j)
        decreases |s| - j
      {
        ghost var r := SecondStep(s, j, labels, tpl, Image(bytecode, start_ip));
        SecondStepListed(s, j, labels, tpl, Image(bytecode, start_ip));
        SecondFromStep(s, j, labels, tpl, Image(bytecode, start_ip), r);
        var k;
        err, k := WriteStep(s, j, labels, tpl);
        if err != AsmOk {
          assert r.Fail? && Reached(r, j) == r.at;
          LinesSplit(s, i, j, r.at);
          return;
        }
        assert r.Ok? && k == r.value.0 && Image(bytecode, start_ip) == r.value.1;
        LinesSplit(s, i, j, k);
        j := k;
        AgreesChar(s, j);
      }
      SecondFromEnd(s, j, labels, tpl, Image(bytecode, start_ip));
      err := AsmOk;
    }

    /** `SecondIteration`: translates the (blanked) text into bytecode
        from an empty stack, recording where `MAIN` stands, and leaves
        `cur_line` at 1; on an error, `cur_line` is the line it was found
        on. */
    method SecondIteration(labels: HT.Table<nat>, tpl: HT.Table<int>) returns (err: AsmErr)
      requires Valid() && HT.Inv(labels) && HT.Inv(tpl) && IdsListed(tpl)
      modifies this`cur_line, this`bytecode, this`start_ip
      ensures match Second(Text(), labels, tpl, old(start_ip))
        case Ok(img) => err == AsmOk && bytecode == img.code && start_ip == img.start_ip && cur_line == 1
        case Fail(e, at) => err == e && cur_line == 1 + LinesIn(Text(), 0, at)
        case Abort => false
    {
      cur_line := 1;
      bytecode := [];
      err := WriteAll(Text(), 0, labels, tpl);
      if err == AsmOk {
        cur_line := 1;
      }
    }

    /** `Translation`: builds the mnemonic table from
        `instruction_template_list`, runs pass 1 and, when it succeeds,
        pass 2 over the blanked text with the labels it recorded.  A
        pass-1 error leaves `cur_line` at the line it was found on, a
        pass-2 error at the line of the blanked text. */
    method Translation() returns (err: AsmErr)
      requires Valid()
      modifies this`cur_line, this`bytecode, this`start_ip, buffer.data
      ensures match Translate(old(Text()), Insertions(TEMPLATES), old(start_ip))
        case Ok(img) => err == AsmOk && bytecode == img.code && start_ip == img.start_ip && cur_line == 1
        case Fail(e, _) => err == e
        case Abort => false
      ensures match First(old(Text()))
        case Fail(_, at) => cur_line == 1 + LinesIn(old(Text()), 0, at)
        case Ok(p) => Valid() && Text() == Blank(old(Text()), p.blanks)
                      && (Second(Text(), Insertions(p.defs), Insertions(TEMPLATES), old(start_ip)).Fail? ==>
                          cur_line == 1 + LinesIn(Text(), 0, Second(Text(), Insertions(p.defs), Insertions(TEMPLATES), old(start_ip)).at))
        case Abort => false
    {
      TemplatesListed();
      err := TranslateWith(TEMPLATES);
    }

    /** `Translation` over the template rows `rows`. */
    method TranslateWith(rows: seq<(string, int)>) returns (err: AsmErr)
      requires Valid() && Named(rows) && Listed(rows)
      modifies this`cur_line, this`bytecode, this`start_ip, buffer.data
      ensures match Translate(old(Text()), Insertions(rows), old(start_ip))
        case Ok(img) => err == AsmOk && bytecode == img.code && start_ip == img.start_ip && cur_line == 1
        case Fail(e, _) => err == e
        case Abort => false
      ensures match First(old(Text()))
        case Fail(_, at) => cur_line == 1 + LinesIn(old(Text()), 0, at)
        case Ok(p) => Valid() && Text() == Blank(old(Text()), p.blanks)
                      && (Second(Text(), Insertions(p.defs), Insertions(rows), old(start_ip)).Fail? ==>
                          cur_line == 1 + LinesIn(Text(), 0, Second(Text(), Insertions(p.defs), Insertions(rows), old(start_ip)).at))
        case Abort => false
    {
      var tpl := BuildTemplates(rows);
      InsertionsListed(rows);
      var labels;
      err, labels := FirstIteration();
      if err != AsmOk {
        return;
      }
      err := SecondIteration(labels, tpl);
    }
  }
}
