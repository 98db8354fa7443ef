/** The diagnostics of src/back_end/asm/asm_dump.c: the name of an error
    code, the excerpt of the line the assembler stopped on, and the report
    `AssemblerDump` writes before it returns the code it was given. */
module AsmDump {
  import opened Common
  import Asm
  import StackDump

  // ---------------------------------------------------------------------
  // Error names

  /** `ErrorType`: which enumeration a code in `error_table` belongs to. */
  datatype ErrorType = ErrorTypeAsm | ErrorTypeIo | ErrorTypeBuffer | ErrorTypeHashTable

  /** `error_table`, in source order: the name, then the value of the
      enumerator together with its category. */
  const ERROR_TABLE: seq<(string, (int, ErrorType))> := [
    ("ASM_FOPEN_FAILED", (2, ErrorTypeAsm)),
    ("ASM_FWRITE_FAILED", (3, ErrorTypeAsm)),
    ("ASM_NO_LABEL", (8, ErrorTypeAsm)),
    ("ASM_INVALID_INSTRUCTION", (9, ErrorTypeAsm)),
    ("ASM_INVALID_LABEL", (10, ErrorTypeAsm)),
    ("ASM_INVALID_REGISTER", (11, ErrorTypeAsm)),
    ("ASM_INVALID_NUMBER", (12, ErrorTypeAsm)),
    ("IO_FILE_NOT_REGULAR", (1, ErrorTypeIo)),
    ("IO_FILE_NOT_FOUND_OR_NO_ACCESS", (2, ErrorTypeIo)),
    ("BUFFER_OVERFLOW", (1, ErrorTypeBuffer)),
    ("BUFFER_FREAD_FAILED", (2, ErrorTypeBuffer)),
    ("HASH_TABLE_CANT_CALLOC_NODE", (1, ErrorTypeHashTable)),
    ("HASH_TABLE_BUCKETS_OVERFLOW", (2, ErrorTypeHashTable)),
    ("HASH_TABLE_NODE_MEMORY_LEAK", (3, ErrorTypeHashTable))
  ]

  /** No two rows of the table are for the same code of the same category. */
  predicate KeysDistinct<K(==)>(table: seq<(string, K)>)
  {
    forall i, j :: 0 <= i < j < |table| ==> table[i].1 != table[j].1
  }

  lemma ErrorTableDistinct()
    ensures KeysDistinct(ERROR_TABLE)
  {
  }

  /** `AssemblerErrorMessage`: the index loop over `error_table` that
      returns the name of the first row with the category and the code,
      or NULL. */
  method AssemblerErrorMessage(t: ErrorType, error: int) returns (r: Option<string>)
    ensures r == FirstMatch(ERROR_TABLE, (error, t))
  {
    var i := 0;
    while i < |ERROR_TABLE|
      invariant i <= |ERROR_TABLE|
      invariant FirstMatch(ERROR_TABLE[i..], (error, t)) == FirstMatch(ERROR_TABLE, (error, t))
    {
      assert ERROR_TABLE[i..][1..] == ERROR_TABLE[i + 1..];
      if ERROR_TABLE[i].1 == (error, t) {
        return Some(ERROR_TABLE[i].0);
      }
      i := i + 1;
    }
    return None;
  }

  /** With distinct keys, the lookup of a row's key finds that row. */
  lemma {:induction false} LookupRow<K>(table: seq<(string, K)>, i: nat)
    requires KeysDistinct(table) && i < |table|
    ensures FirstMatch(table, table[i].1) == Some(table[i].0)
  {
    FirstMatchAt(table, table[i].1, i);
  }

  /** The assembler errors that have a row in the table. */
  predicate NamedAsm(e: Asm.AsmErr)
  {
    e in {Asm.AsmErr.AsmFopenFailed, Asm.AsmErr.AsmFwriteFailed, Asm.AsmErr.AsmNoLabel, Asm.AsmErr.AsmInvalidInstruction,
          Asm.AsmErr.AsmInvalidLabel, Asm.AsmErr.AsmInvalidRegister, Asm.AsmErr.AsmInvalidNumber}
  }

  /** An assembler error has a name exactly when it is one of the seven
      in the table; `ASM_OK`, `ASM_OVERFLOW` and the four `..._FAILED`
      codes of the other modules come out as NULL. */
  lemma AsmErrorNames(e: Asm.AsmErr)
    ensures FirstMatch(ERROR_TABLE, (e.Code(), ErrorTypeAsm)).Some? <==> NamedAsm(e)
  {
    if NamedAsm(e) {
      ErrorTableDistinct();
      var i: nat := if e.Code() <= 3 then e.Code() - 2 else e.Code() - 6;
      assert ERROR_TABLE[i].1 == (e.Code(), ErrorTypeAsm);
      LookupRow(ERROR_TABLE, i);
    } else {
      UnnamedAsm(e.Code());
    }
  }

  /** No row names the assembler codes outside 2, 3 and 8 to 12. */
  lemma UnnamedAsm(code: int)
    requires code !in {2, 3, 8, 9, 10, 11, 12}
    ensures FirstMatch(ERROR_TABLE, (code, ErrorTypeAsm)).None?
  {
    var rows := ERROR_TABLE;
    assert forall i :: 7 <= i < |rows| ==> rows[i].1.1 != ErrorTypeAsm;
    assert forall i :: 0 <= i < 7 ==> rows[i].1.0 in {2, 3, 8, 9, 10, 11, 12};
    FirstMatchSpec(rows, (code, ErrorTypeAsm));
  }

  // ---------------------------------------------------------------------
  // The excerpt of the current line

  /** The first position from `i` on that holds a newline or NUL: where the
      line through `i` ends. */
  function LineEnd(s: string, i: nat): (e: nat)
    requires i <= |s|
    ensures i <= e <= |s| && (Asm.At(s, e) == '\n' || Asm.At(s, e) == '\0')
    ensures forall k :: i <= k < e ==> s[k] != '\n' && s[k] != '\0'
    decreases |s| - i
  {
    if Asm.At(s, i) == '\n' || Asm.At(s, i) == '\0' then i else LineEnd(s, i + 1)
  }

  /** The first NUL of the buffer: where its C string ends. */
  function StrEnd(s: string): (z: nat)
    ensures z <= |s| && Asm.At(s, z) == '\0'
    ensures forall k :: 0 <= k < z ==> s[k] != '\0'
  {
    if s == [] then 0
    else if s[0] == '\0' then 0
    else 1 + StrEnd(s[1..])
  }

  /** Where line `n + 1` starts: right after the `n`-th newline of the C
      string, or None when the string has fewer newlines. */
  function LineStart(s: string, n: nat): (b: Option<nat>)
    ensures b.Some? ==> b.value <= StrEnd(s) && Asm.LinesIn(s, 0, b.value) == n
    ensures b.Some? && n > 0 ==> 0 < b.value && s[b.value - 1] == '\n'
  {
    if n == 0 then Some(0)
    else match LineStart(s, n - 1)
      case None => None
      case Some(b) =>
        var e := LineEnd(s, b);
        if Asm.At(s, e) == '\n' then
          Asm.LinesNone(s, b, e);
          Asm.LinesSplit(s, 0, b, e);
          assert Asm.LinesIn(s, 0, e + 1) == Asm.LinesIn(s, 0, e) + 1;
          assert StrEnd(s) > e by {
            assert forall k :: 0 <= k <= e ==> s[k] != '\0';
          }
          Some(e + 1)
        else None
  }

  /** The characters of line `cur_line` (counted from 1) up to its newline
      or the NUL; empty when the string has no such line, and for line 0,
      which the walk never reaches. */
  function FileLine(s: string, cur_line: nat): (r: string)
    ensures forall k :: 0 <= k < |r| ==> r[k] != '\n' && r[k] != '\0'
  {
    if cur_line == 0 then ""
    else match LineStart(s, cur_line - 1)
      case None => ""
      case Some(b) => s[b..LineEnd(s, b)]
  }

  /** Line `n + 1` exists exactly when the C string holds at least `n`
      newlines. */
  lemma {:induction false} LineStartExists(s: string, n: nat)
    ensures LineStart(s, n).Some? <==> n <= Asm.LinesIn(s, 0, StrEnd(s))
  {
    if n > 0 {
      LineStartExists(s, n - 1);
      var z := StrEnd(s);
      match LineStart(s, n - 1)
      case None =>
      case Some(b) =>
        var e := LineEnd(s, b);
        Asm.LinesNone(s, b, e);
        Asm.LinesSplit(s, 0, b, e);
        if Asm.At(s, e) == '\n' {
          Asm.LinesSplit(s, 0, e + 1, z);
        } else {
          assert z == e;
        }
    }
  }

  /** A line the string has: its excerpt is the stretch of the buffer
      that starts after `cur_line - 1` newlines and stops before the next
      newline or NUL. */
  lemma FileLineInside(s: string, cur_line: nat)
    requires 1 <= cur_line && cur_line - 1 <= Asm.LinesIn(s, 0, StrEnd(s))
    ensures LineStart(s, cur_line - 1).Some?
    ensures var b := LineStart(s, cur_line - 1).value;
            b + |FileLine(s, cur_line)| <= StrEnd(s)
            && FileLine(s, cur_line) == s[b..b + |FileLine(s, cur_line)|]
            && (Asm.At(s, b + |FileLine(s, cur_line)|) == '\n' || Asm.At(s, b + |FileLine(s, cur_line)|) == '\0')
  {
    LineStartExists(s, cur_line - 1);
    var b := LineStart(s, cur_line - 1).value;
    var e := LineEnd(s, b);
    assert e <= StrEnd(s);
  }

  /** Line 0, or a line past the last newline of the string, gives the
      empty excerpt. */
  lemma FileLineBeyond(s: string, cur_line: nat)
    requires cur_line == 0 || Asm.LinesIn(s, 0, StrEnd(s)) < cur_line - 1
    ensures FileLine(s, cur_line) == ""
  {
    if cur_line > 0 {
      LineStartExists(s, cur_line - 1);
    }
  }

  /** Once a line is missing, every later one is. */
  lemma {:induction false} LineStartGone(s: string, n: nat, m: nat)
    requires n <= m && LineStart(s, n).None?
    ensures LineStart(s, m).None?
    decreases m - n
  {
    if n < m {
      LineStartGone(s, n, m - 1);
    }
  }

  /** The NUL-terminated buffer `data` holds the string `s`. */
  ghost predicate Holds(data: array<char>, s: string)
    reads data
  {
    |s| < data.Length && data[|s|] == '\0' && forall k :: 0 <= k < |s| ==> data[k] == s[k]
  }

  /** The first loop of `GetFileLine`: walks the buffer counting newlines
      until it reaches line `cur_line` or the NUL.  The excerpt is what
      runs from there to the next newline or NUL. */
  method SeekLine(data: array<char>, ghost s: string, cur_line: nat) returns (i: nat)
    requires Holds(data, s)
    ensures i <= |s| && FileLine(s, cur_line) == s[i..LineEnd(s, i)]
  {
    var line_num: nat := 1;
    i := 0;
    ghost var b: nat := 0;
    while cur_line != line_num
      invariant 1 <= line_num && b <= i <= |s|
      invariant cur_line >= 1 ==> line_num <= cur_line
      invariant LineStart(s, line_num - 1) == Some(b)
      invariant forall k :: b <= k < i ==> s[k] != '\n' && s[k] != '\0'
      invariant i == b || cur_line != line_num
      decreases |s| - i
    {
      if data[i] == '\0' {
        break;
      }
      if data[i] == '\n' {
        LineStartNext(s, line_num - 1, b, i);
        line_num := line_num + 1;
        b := i + 1;
      }
      i := i + 1;
    }
    if cur_line == line_num {
      SeekFound(s, cur_line, b);
    } else {
      SeekStopped(s, cur_line, line_num, b, i);
    }
  }

  /** The walk reached line `cur_line` at `b`. */
  lemma SeekFound(s: string, cur_line: nat, b: nat)
    requires cur_line >= 1 && LineStart(s, cur_line - 1) == Some(b)
    ensures b <= |s| && FileLine(s, cur_line) == s[b..LineEnd(s, b)]
  {
  }

  /** The walk met the NUL at `i` on line `n` before line `cur_line`. */
  lemma SeekStopped(s: string, cur_line: nat, n: nat, b: nat, i: nat)
    requires 1 <= n && b <= i <= |s| && LineStart(s, n - 1) == Some(b)
    requires cur_line != n && (cur_line >= 1 ==> n <= cur_line)
    requires Asm.At(s, i) == '\0' && forall k :: b <= k < i ==> s[k] != '\n' && s[k] != '\0'
    ensures FileLine(s, cur_line) == s[i..LineEnd(s, i)] == ""
  {
    LineStartNext(s, n - 1, b, i);
    LineEndAt(s, i, i);
    FileLineGone(s, cur_line, n);
  }

  /** Line `cur_line` is empty once an earlier line `n + 1` is missing. */
  lemma FileLineGone(s: string, cur_line: nat, n: nat)
    requires LineStart(s, n).None? && (cur_line == 0 || n < cur_line)
    ensures FileLine(s, cur_line) == ""
  {
    if cur_line > 0 {
      LineStartGone(s, n, cur_line - 1);
    }
  }

  /** The second loop of `GetFileLine` and its `strndup`: the characters
      up to the next newline or NUL. */
  method CopyLine(data: array<char>, ghost s: string, i: nat) returns (line: string)
    requires Holds(data, s) && i <= |s|
    ensures line == s[i..LineEnd(s, i)]
  {
    var e := i;
    while data[e] != '\n' && data[e] != '\0'
      invariant i <= e <= |s|
      invariant forall k :: i <= k < e ==> s[k] != '\n' && s[k] != '\0'
      decreases |s| - e
    {
      e := e + 1;
    }
    LineEndAt(s, i, e);
    line := data[i..e];
    assert line == s[i..e];
  }

  /** `GetFileLine`: the excerpt of line `cur_line` of the input buffer. */
  method GetFileLine(a: Asm.Assembler) returns (line: string)
    requires a.Valid()
    ensures line == FileLine(a.Text(), a.cur_line)
  {
    assert Holds(a.buffer.data, a.Text());
    var i := SeekLine(a.buffer.data, a.Text(), a.cur_line);
    line := CopyLine(a.buffer.data, a.Text(), i);
  }

  /** The walk past line `n + 1`: its newline starts the next line, and
      its NUL leaves no next line. */
  lemma LineStartNext(s: string, n: nat, b: nat, e: nat)
    requires LineStart(s, n) == Some(b) && b <= e <= |s|
    requires Asm.At(s, e) == '\n' || Asm.At(s, e) == '\0'
    requires forall k :: b <= k < e ==> s[k] != '\n' && s[k] != '\0'
    ensures Asm.At(s, e) == '\n' ==> LineStart(s, n + 1) == Some(e + 1)
    ensures Asm.At(s, e) == '\0' ==> LineStart(s, n + 1).None?
  {
    LineEndAt(s, b, e);
  }

  /** The line end is the first newline or NUL. */
  lemma {:induction false} LineEndAt(s: string, i: nat, e: nat)
    requires i <= e <= |s| && (Asm.At(s, e) == '\n' || Asm.At(s, e) == '\0')
    requires forall k :: i <= k < e ==> s[k] != '\n' && s[k] != '\0'
    ensures LineEnd(s, i) == e
    decreases e - i
  {
    if i < e {
      LineEndAt(s, i + 1, e);
    }
  }

  // ---------------------------------------------------------------------
  // The report

  /** The remark `AssemblerDump` prints under the excerpt for the
      assembler errors that point at a word. */
  datatype Remark =
    | MustBeRegister | InvalidInstruction | InvalidLabel | InvalidRegister | InvalidNumber
    | NoRemark

  function RemarkFor(kind: char, error: int): (m: Remark)
    ensures m != NoRemark ==> kind == 'a' && 8 <= error <= 12
  {
    if kind != 'a' then NoRemark
    else if error == Asm.AsmErr.AsmNoLabel.Code() then MustBeRegister
    else if error == Asm.AsmErr.AsmInvalidInstruction.Code() then InvalidInstruction
    else if error == Asm.AsmErr.AsmInvalidLabel.Code() then InvalidLabel
    else if error == Asm.AsmErr.AsmInvalidRegister.Code() then InvalidRegister
    else if error == Asm.AsmErr.AsmInvalidNumber.Code() then InvalidNumber
    else NoRemark
  }

  /** What `AssemblerDump` writes to stderr: the name of the error, the
      line number, the excerpt and the remark. */
  datatype Report = Report(error: int, message: Option<string>, cur_line: nat, excerpt: string, remark: Remark)

  /** The category of each letter `AssemblerDump` accepts besides `s`. */
  function Category(kind: char): Option<ErrorType>
  {
    match kind
    case 'a' => Some(ErrorTypeAsm)
    case 'b' => Some(ErrorTypeBuffer)
    case 'h' => Some(ErrorTypeHashTable)
    case 'i' => Some(ErrorTypeIo)
    case _ => None
  }

  /** `AssemblerDump`: for the letters `a`, `b`, `h`, `i` and `s` it looks
      the code up in its category's table, reports it with the current
      line and returns the code; any other letter fails `assert(0)`
      (None). */
  method AssemblerDump(a: Asm.Assembler, kind: char, code: int) returns (r: Option<Report>)
    requires a.Valid()
    ensures r.Some? <==> kind in "abhis"
    ensures r.Some? ==> r.value.error == code && r.value.cur_line == a.cur_line
                        && r.value.excerpt == FileLine(a.Text(), a.cur_line)
                        && r.value.remark == RemarkFor(kind, code)
    ensures r.Some? && kind == 's' ==> r.value.message == Some(StackDump.StackErrorMessage(code))
    ensures r.Some? && kind != 's' ==> r.value.message == FirstMatch(ERROR_TABLE, (code, Category(kind).value))
  {
    var message: Option<string>;
    if kind == 's' {
      message := Some(StackDump.StackErrorMessage(code));
    } else if Category(kind).Some? {
      message := AssemblerErrorMessage(Category(kind).value, code);
    } else {
      return None;
    }
    var line := GetFileLine(a);
    return Some(Report(code, message, a.cur_line, line, RemarkFor(kind, code)));
  }

  /** Every assembler error that gets a remark also gets a name. */
  lemma RemarkedNamed(e: Asm.AsmErr)
    requires RemarkFor('a', e.Code()) != NoRemark
    ensures NamedAsm(e) && FirstMatch(ERROR_TABLE, (e.Code(), ErrorTypeAsm)).Some?
  {
    AsmErrorNames(e);
  }
}
