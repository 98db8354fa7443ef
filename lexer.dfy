/** The scanner of src/front_end/lexer.c: one pass over the source text
    that appends tokens to a list and finishes with END.

    `Step` is one turn of the scan loop (comments, then the token table,
    then identifiers, then numbers, then white space); `Scan` repeats it to
    the end of the text; `LexicalAnalysis` is the loop itself, proved to
    compute `Lex`.  A character that no rule consumes leaves the C loop
    spinning on the same position forever; the model reports that as
    `None`. */
module Lexer {
  import opened Common

  datatype TokenType =
    | Undef | Variable | Const
    | Short | Int | Long | Double | Char | Void
    | BoolTrue | BoolFalse
    | Comma | Semicolon
    | RoundOpen | RoundClose | CurlyOpen | CurlyClose | SquareOpen | SquareClose
    | BinAdd | BinSub | BinMul | BinDiv
    | BinLt | BinGt | BinLe | BinGe | BinEe | BinNe
    | Land | Lor
    | Input | Print
    | Assignment
    | StatementIf | StatementElse | StatementWhile | StatementBreak | StatementReturn
    | End

  /** A token with its payload: a table token has none, an identifier owns a
      copy of its text, an integer constant holds the `int` that
      `sscanf("%d")` stores, and a DOUBLE constant keeps its literal text in
      place of the floating-point value. */
  datatype Token =
    | Plain(kind: TokenType)
    | Ident(name: string)
    | IntConst(value: int)
    | DoubleConst(lexeme: string)
  {
    function Type(): (t: TokenType)
      ensures t == Variable <==> this.Ident?
      ensures t == Const <==> this.IntConst? || this.DoubleConst?
    {
      match this
      case Plain(k) => if k == Variable || k == Const then Undef else k
      case Ident(_) => Variable
      case IntConst(_) => Const
      case DoubleConst(_) => Const
    }
  }

  /** `reference_types`, in source order: the first row that matches wins. */
  const Table: seq<(string, TokenType)> := [
    ("short", Short), ("int", Int), ("long", Long), ("double", Double), ("char", Char), ("void", Void),
    ("true", BoolTrue), ("false", BoolFalse),
    (",", Comma), (";", Semicolon),
    ("(", RoundOpen), (")", RoundClose), ("{", CurlyOpen), ("}", CurlyClose), ("[", SquareOpen), ("]", SquareClose),
    ("+", BinAdd), ("-", BinSub), ("*", BinMul), ("/", BinDiv),
    ("<", BinLt), (">", BinGt), ("<=", BinLe), (">=", BinGe), ("==", BinEe), ("!=", BinNe),
    ("&&", Land), ("||", Lor),
    ("input", Input), ("print", Print),
    ("=", Assignment),
    ("if", StatementIf), ("else", StatementElse), ("while", StatementWhile), ("break", StatementBreak),
    ("return", StatementReturn)
  ]

  /** A scanner table in the shape of `reference_types`: no row is empty,
      none yields END or a payload-carrying type, and every row starts with
      a lower-case letter or a punctuation mark.  The scanner is stated for
      any such table; `Table` is the one the lexer uses. */
  predicate TableOk(rows: seq<(string, TokenType)>)
  {
    forall r :: 0 <= r < |rows| ==>
      |rows[r].0| > 0 && RowStart(rows[r].0[0]) && !Reserved(rows[r].1)
  }

  /** The types no table row may yield: END and the payload-carrying ones. */
  predicate Reserved(k: TokenType)
  {
    match k
    case End => true
    case Variable => true
    case Const => true
    case Undef => true
    case _ => false
  }

  lemma TableIsOk()
    ensures TableOk(Table)
  {
  }

  predicate RowStart(c: char)
  {
    ('a' <= c <= 'z') || c == ',' || c == ';' || c == '(' || c == ')' || c == '{' || c == '}'
    || c == '[' || c == ']' || c == '+' || c == '-' || c == '*' || c == '/' || c == '<' || c == '>'
    || c == '=' || c == '!' || c == '&' || c == '|'
  }

  // ---------------------------------------------------------------------
  // Character runs and prefixes
  // ---------------------------------------------------------------------

  /** The character classes the inner `while` loops skip over. */
  datatype CharClass = Digits | IdentChars | Spaces | LineBody

  predicate InClass(c: char, cls: CharClass)
  {
    match cls
    case Digits => IsDigit(c)
    case IdentChars => IsAlnum(c) || c == '_'
    case Spaces => IsSpace(c)
    case LineBody => c != '\n' && c != '\0'
  }

  /** The end of the longest run of `cls` characters starting at `i`. */
  function RunEnd(s: string, i: nat, cls: CharClass): (j: nat)
    requires i <= |s|
    ensures i <= j <= |s|
    ensures forall k :: i <= k < j ==> InClass(s[k], cls)
    ensures j == |s| || !InClass(s[j], cls)
    decreases |s| - i
  {
    if i == |s| || !InClass(s[i], cls) then i else RunEnd(s, i + 1, cls)
  }

  /** The run is unique: any position with the two properties is its end. */
  lemma {:induction false} RunEndUnique(s: string, i: nat, cls: CharClass, j: nat)
    requires i <= j <= |s|
    requires forall k :: i <= k < j ==> InClass(s[k], cls)
    requires j == |s| || !InClass(s[j], cls)
    ensures RunEnd(s, i, cls) == j
    decreases j - i
  {
    if i < j {
      RunEndUnique(s, i + 1, cls, j);
    }
  }

  /** `strncmp(s, w, |w|) == 0` at position `i`. */
  predicate StartsWith(s: string, i: nat, w: string)
  {
    i + |w| <= |s| && s[i..i + |w|] == w
  }

  /** `strncasecmp(s, w, |w|) == 0` at position `i`: the next `|w|`
      characters equal `w` up to the case of ASCII letters. */
  predicate PrefixCI(s: string, i: nat, w: string)
    ensures PrefixCI(s, i, w) ==> i + |w| <= |s|
    decreases |w|
  {
    i <= |s| && (w == [] || (i < |s| && ToLower(s[i]) == ToLower(w[0]) && PrefixCI(s, i + 1, w[1..])))
  }

  /** The first position from `i` on where the closing star-slash starts,
      or the end. */
  function CloserAt(s: string, i: nat): (j: nat)
    requires i <= |s|
    ensures i <= j <= |s|
    ensures j == |s| || StartsWith(s, j, "*/")
    ensures forall k :: i <= k < j ==> !StartsWith(s, k, "*/")
    decreases |s| - i
  {
    if i == |s| || StartsWith(s, i, "*/") then i else CloserAt(s, i + 1)
  }

  // Where a block comment opened at `i` ends: after its `*/`, or at the
  // end of the text when it is never closed.  The search for `*/` starts
  // at the `/*` itself, so `/*/` is a whole comment.
  function BlockEnd(s: string, i: nat): (j: nat)
    requires i <= |s|
    ensures i <= j <= |s|
  {
    var c := CloserAt(s, i);
    if c < |s| then c + 2 else c
  }

  /** The first table row from `r` on that matches at `i`. */
  function KeywordFrom(rows: seq<(string, TokenType)>, s: string, i: nat, r: nat): (m: Option<nat>)
    requires r <= |rows|
    ensures m.Some? ==> r <= m.value < |rows| && PrefixCI(s, i, rows[m.value].0)
    decreases |rows| - r
  {
    if r == |rows| then None
    else if PrefixCI(s, i, rows[r].0) then Some(r)
    else KeywordFrom(rows, s, i, r + 1)
  }

  function KeywordAt(rows: seq<(string, TokenType)>, s: string, i: nat): Option<nat>
  {
    KeywordFrom(rows, s, i, 0)
  }

  /** The row a scan picks is the first that matches, and it picks none
      exactly when no row matches. */
  lemma {:induction false} KeywordIsFirstMatch(rows: seq<(string, TokenType)>, s: string, i: nat, r: nat)
    requires r <= |rows|
    ensures var m := KeywordFrom(rows, s, i, r);
            (m.Some? ==> r <= m.value < |rows| && PrefixCI(s, i, rows[m.value].0)
                         && forall q :: r <= q < m.value ==> !PrefixCI(s, i, rows[q].0))
            && (m.None? <==> forall q :: r <= q < |rows| ==> !PrefixCI(s, i, rows[q].0))
    decreases |rows| - r
  {
    if r < |rows| && !PrefixCI(s, i, rows[r].0) {
      KeywordIsFirstMatch(rows, s, i, r + 1);
    }
  }

  // ---------------------------------------------------------------------
  // One turn of the scan loop
  // ---------------------------------------------------------------------

  predicate IdentStart(c: char) { IsAlpha(c) || c == '_' }

  /** `strtod` reads past the fraction when an exponent follows it. */
  predicate ExponentAt(s: string, r: nat)
  {
    r < |s| && (s[r] == 'e' || s[r] == 'E')
    && ((r + 1 < |s| && IsDigit(s[r + 1]))
        || (r + 2 < |s| && (s[r + 1] == '+' || s[r + 1] == '-') && IsDigit(s[r + 2])))
  }

  /** The number rule at a digit: a digit run alone is an INT constant; a
      run, a `.` and a second run is a DOUBLE constant, emitted only when
      `strtod` stops exactly where the rule did. */
  function Number(s: string, i: nat): (r: (seq<Token>, nat))
    requires i < |s| && IsDigit(s[i])
    ensures i < r.1 <= |s| && |r.0| <= 1
  {
    var d := RunEnd(s, i, Digits);
    if d < |s| && s[d] == '.' then
      var e := RunEnd(s, d + 1, Digits);
      (if ExponentAt(s, e) then [] else [DoubleConst(s[i..e])], e)
    else
      ([IntConst(CInt(DecValue(s[i..d])))], d)
  }

  // Where the comment checks leave the cursor: past a `//` line (before
  // its newline), then past a `/*` comment.
  function AfterComments(s: string, i: nat): (b: nat)
    requires i <= |s|
    ensures i <= b <= |s|
  {
    var a := if StartsWith(s, i, "//") then RunEnd(s, i, LineBody) else i;
    if StartsWith(s, a, "/*") then BlockEnd(s, a) else a
  }

  /** The rules after the comment checks, at `b`: the token table, an
      identifier, a number followed by white space, or white space. */
  function Rules(rows: seq<(string, TokenType)>, s: string, b: nat): (r: (seq<Token>, nat))
    requires b <= |s|
    ensures b <= r.1 <= |s| && |r.0| <= 1
  {
    match KeywordAt(rows, s, b)
    case Some(row) =>
      ([Plain(rows[row].1)], b + |rows[row].0|)
    case None =>
      if b < |s| && IdentStart(s[b]) then
        var e := RunEnd(s, b + 1, IdentChars);
        ([Ident(s[b..e])], e)
      else if b < |s| && IsDigit(s[b]) then
        var (t, e) := Number(s, b);
        (t, RunEnd(s, e, Spaces))
      else
        ([], RunEnd(s, b, Spaces))
  }

  /** One turn of the `while (*s != '\0')` loop: the tokens it appends and
      where it leaves the cursor. */
  function Step(rows: seq<(string, TokenType)>, s: string, i: nat): (r: (seq<Token>, nat))
    requires i < |s|
    ensures i <= r.1 <= |s| && |r.0| <= 1
  {
    Rules(rows, s, AfterComments(s, i))
  }

  /** The tokens the loop appends from position `i` to the end of the
      text, or None when it reaches a turn that does not move the cursor. */
  function Scan(rows: seq<(string, TokenType)>, s: string, i: nat): (r: Option<seq<Token>>)
    requires i <= |s|
    decreases |s| - i
  {
    if i == |s| then Some([])
    else
      var (t, j) := Step(rows, s, i);
      if j == i then None
      else Prepend(t, Scan(rows, s, j))
  }

  function Prepend(t: seq<Token>, r: Option<seq<Token>>): Option<seq<Token>>
  {
    match r
    case None => None
    case Some(u) => Some(t + u)
  }

  lemma PrependAssoc(a: seq<Token>, b: seq<Token>, r: Option<seq<Token>>)
    ensures Prepend(a, Prepend(b, r)) == Prepend(a + b, r)
  {
    if r.Some? {
      assert a + (b + r.value) == (a + b) + r.value;
    }
  }

  lemma PrependNil(r: Option<seq<Token>>)
    ensures Prepend([], r) == r
  {
    if r.Some? {
      assert [] + r.value == r.value;
    }
  }

  /** `LexicalAnalysis`: the tokens, END appended once, and the distance
      from the start of the text to its terminator. */
  function Lex(s: string): (r: Option<(seq<Token>, nat)>)
  {
    match Scan(Table, s, 0)
    case None => None
    case Some(t) => Some((t + [Plain(End)], |s|))
  }

  // ---------------------------------------------------------------------
  // The loops
  // ---------------------------------------------------------------------

  /** The `while (cls(*s)) ++s;` loops. */
  method SkipRun(s: string, i: nat, cls: CharClass) returns (j: nat)
    requires i <= |s|
    ensures j == RunEnd(s, i, cls)
  {
    j := i;
    while j < |s| && InClass(s[j], cls)
      invariant i <= j <= |s|
      invariant RunEnd(s, j, cls) == RunEnd(s, i, cls)
      decreases |s| - j
    {
      j := j + 1;
    }
  }

  // The block-comment loop: advance to `*/` or the end, then past `*/`.
  method SkipBlockComment(s: string, i: nat) returns (j: nat)
    requires i <= |s|
    ensures j == BlockEnd(s, i)
  {
    j := i;
    while !StartsWith(s, j, "*/") && j < |s|
      invariant i <= j <= |s|
      invariant CloserAt(s, j) == CloserAt(s, i)
      decreases |s| - j
    {
      j := j + 1;
    }
    if StartsWith(s, j, "*/") {
      j := j + 2;
    }
  }

  /** The `for` loop over `reference_types`. */
  method MatchKeyword(rows: seq<(string, TokenType)>, s: string, i: nat) returns (row: Option<nat>)
    ensures row == KeywordAt(rows, s, i)
  {
    for r := 0 to |rows|
      invariant KeywordFrom(rows, s, i, r) == KeywordAt(rows, s, i)
    {
      if PrefixCI(s, i, rows[r].0) {
        return Some(r);
      }
    }
    return None;
  }

  /** The number rule: the digit loops, then `strtod` or `sscanf`. */
  method ScanNumber(s: string, i: nat) returns (t: seq<Token>, e: nat)
    requires i < |s| && IsDigit(s[i])
    ensures (t, e) == Number(s, i)
  {
    var d := SkipRun(s, i, Digits);
    if d < |s| && s[d] == '.' {
      e := SkipRun(s, d + 1, Digits);
      t := if ExponentAt(s, e) then [] else [DoubleConst(s[i..e])];
    } else {
      t := [IntConst(CInt(DecValue(s[i..d])))];
      e := d;
    }
  }

  /** The comment checks at the top of the loop body. */
  method SkipComments(s: string, i: nat) returns (b: nat)
    requires i <= |s|
    ensures b == AfterComments(s, i)
  {
    b := i;
    if StartsWith(s, b, "//") {
      b := SkipRun(s, b, LineBody);
    }
    if StartsWith(s, b, "/*") {
      b := SkipBlockComment(s, b);
    }
  }

  /** The rest of the loop body: the table loop, the identifier rule, the
      number rule and the white-space loop. */
  method ApplyRules(rows: seq<(string, TokenType)>, s: string, b: nat) returns (t: seq<Token>, j: nat)
    requires b <= |s|
    ensures (t, j) == Rules(rows, s, b)
  {
    var row := MatchKeyword(rows, s, b);
    if row.Some? {
      return [Plain(rows[row.value].1)], b + |rows[row.value].0|;
    }
    if b < |s| && IdentStart(s[b]) {
      var e := SkipRun(s, b + 1, IdentChars);
      return [Ident(s[b..e])], e;
    }
    t, j := [], b;
    if b < |s| && IsDigit(s[b]) {
      t, j := ScanNumber(s, b);
    }
    j := SkipRun(s, j, Spaces);
  }

  /** `LexicalAnalysis`: scans the text, appending each token as it is
      recognised, then appends END and returns the length scanned.  Where
      the C loop would spin forever the model stops with None. */
  method LexicalAnalysis(s: string) returns (r: Option<(seq<Token>, nat)>)
    ensures r == Lex(s)
  {
    var tokens: seq<Token> := [];
    var i := 0;
    PrependNil(Scan(Table, s, 0));
    while i < |s|
      invariant i <= |s|
      invariant Scan(Table, s, 0) == Prepend(tokens, Scan(Table, s, i))
      decreases |s| - i
    {
      var b := SkipComments(s, i);
      var t, j := ApplyRules(Table, s, b);
      if j == i {
        return None;
      }
      PrependAssoc(tokens, t, Scan(Table, s, j));
      tokens := tokens + t;
      i := j;
    }
    assert tokens + [] == tokens;
    return Some((tokens + [Plain(End)], i));
  }


  // ---------------------------------------------------------------------
  // Properties
  // ---------------------------------------------------------------------

  /** A turn never appends END. */
  lemma StepNoEnd(rows: seq<(string, TokenType)>, s: string, i: nat)
    requires TableOk(rows) && i < |s|
    ensures forall k :: 0 <= k < |Step(rows, s, i).0| ==> Step(rows, s, i).0[k].Type() != End
  {
  }

  lemma {:induction false} ScanNoEnd(rows: seq<(string, TokenType)>, s: string, i: nat)
    requires TableOk(rows) && i <= |s|
    ensures Scan(rows, s, i).Some? ==>
              forall k :: 0 <= k < |Scan(rows, s, i).value| ==> Scan(rows, s, i).value[k].Type() != End
    decreases |s| - i
  {
    if i < |s| {
      var (t, j) := Step(rows, s, i);
      if j != i {
        StepNoEnd(rows, s, i);
        ScanNoEnd(rows, s, j);
      }
    }
  }

  /** The output ends with END, and END occurs nowhere else; the returned
      length is the length of the text. */
  lemma LexEndsWithOneEnd(s: string)
    ensures Lex(s).Some? ==>
              var t := Lex(s).value.0;
              |t| > 0 && t[|t| - 1] == Plain(End) && Lex(s).value.1 == |s|
              && forall k :: 0 <= k < |t| - 1 ==> t[k].Type() != End
  {
    TableIsOk();
    ScanNoEnd(Table, s, 0);
  }

  /** No row starts with white space, a digit or the terminator. */
  lemma NoRowAt(rows: seq<(string, TokenType)>, s: string, i: nat)
    requires TableOk(rows) && i < |s| && (IsSpace(s[i]) || IsDigit(s[i]) || s[i] == '\0')
    ensures KeywordAt(rows, s, i).None?
  {
    forall r | 0 <= r < |rows|
      ensures !PrefixCI(s, i, rows[r].0)
    {
      assert ToLower(s[i]) != ToLower(rows[r].0[0]);
    }
  }

  /** No row matches at the terminator. */
  lemma NoRowAtEnd(rows: seq<(string, TokenType)>, s: string)
    requires TableOk(rows)
    ensures KeywordAt(rows, s, |s|).None?
  {
    forall r | 0 <= r < |rows|
      ensures !PrefixCI(s, |s|, rows[r].0)
    {
    }
  }

  /** Where no row matches, a letter or `_` starts an identifier token that
      holds exactly the longest run of letters, digits and `_` there. */
  lemma IdentifierIsMaximalRun(rows: seq<(string, TokenType)>, s: string, b: nat)
    requires b < |s| && IdentStart(s[b]) && KeywordAt(rows, s, b).None?
    ensures var (t, e) := Rules(rows, s, b);
            b < e <= |s| && t == [Ident(s[b..e])]
            && (forall k :: b < k < e ==> IsAlnum(s[k]) || s[k] == '_')
            && (e == |s| || !(IsAlnum(s[e]) || s[e] == '_'))
  {
  }

  /** A digit run not followed by `.` is one INT constant holding the value
      `sscanf("%d")` stores for it. */
  lemma IntegerLiteral(rows: seq<(string, TokenType)>, s: string, b: nat, d: nat)
    requires TableOk(rows)
    requires b < d <= |s| && forall k :: b <= k < d ==> IsDigit(s[k])
    requires d == |s| || (!IsDigit(s[d]) && s[d] != '.')
    ensures Rules(rows, s, b).0 == [IntConst(CInt(DecValue(s[b..d])))]
  {
    NoRowAt(rows, s, b);
    RunEndUnique(s, b, Digits, d);
  }

  /** A digit run, `.` and a digit run not followed by an exponent is one
      DOUBLE constant holding that text; followed by an exponent it yields
      no token at all. */
  lemma DoubleLiteral(rows: seq<(string, TokenType)>, s: string, b: nat, d: nat, e: nat)
    requires TableOk(rows)
    requires b < d < e <= |s| && s[d] == '.'
    requires forall k :: b <= k < d ==> IsDigit(s[k])
    requires forall k :: d < k < e ==> IsDigit(s[k])
    requires e == |s| || !IsDigit(s[e])
    ensures Rules(rows, s, b).0 == if ExponentAt(s, e) then [] else [DoubleConst(s[b..e])]
  {
    NoRowAt(rows, s, b);
    RunEndUnique(s, b, Digits, d);
    RunEndUnique(s, d + 1, Digits, e);
  }

  /** A `//` comment emits nothing: scanning resumes at its line end. */
  lemma LineCommentSilent(rows: seq<(string, TokenType)>, s: string, i: nat)
    requires TableOk(rows) && i < |s| && StartsWith(s, i, "//")
    ensures Scan(rows, s, i) == Scan(rows, s, RunEnd(s, i, LineBody))
  {
    var e := RunEnd(s, i, LineBody);
    assert AfterComments(s, i) == e;
    PrependNil(Scan(rows, s, Step(rows, s, i).1));
    if e < |s| {
      NoRowAt(rows, s, e);
      assert AfterComments(s, e) == e;
      assert Step(rows, s, i) == Step(rows, s, e);
    }
  }

  /** A block comment emits nothing: scanning resumes after it, provided
      what follows is not another comment. */
  lemma BlockCommentSilent(rows: seq<(string, TokenType)>, s: string, i: nat)
    requires TableOk(rows) && i < |s| && StartsWith(s, i, "/*")
    requires BlockEnd(s, i) == |s| || s[BlockEnd(s, i)] != '/'
    ensures Scan(rows, s, i) == Scan(rows, s, BlockEnd(s, i))
  {
    var c := BlockEnd(s, i);
    assert s[i..i + 2] == "/*";
    assert !StartsWith(s, i, "//");
    assert AfterComments(s, i) == c;
    if c == |s| {
      NoRowAtEnd(rows, s);
      assert Step(rows, s, i) == ([], c);
      PrependNil(Scan(rows, s, c));
    } else {
      assert AfterComments(s, c) == c;
      assert Step(rows, s, i) == Step(rows, s, c);
    }
  }

  /** White space emits nothing. */
  lemma SpacesSilent(rows: seq<(string, TokenType)>, s: string, i: nat)
    requires TableOk(rows) && i < |s| && IsSpace(s[i])
    ensures Scan(rows, s, i) == Scan(rows, s, RunEnd(s, i, Spaces))
  {
    NoRowAt(rows, s, i);
    assert AfterComments(s, i) == i;
    PrependNil(Scan(rows, s, Step(rows, s, i).1));
  }

  /** No rule applies at `i`: no comment, no row, no identifier, no
      number and no white space. */
  predicate NoRule(rows: seq<(string, TokenType)>, s: string, i: nat)
    requires i < |s|
  {
    !StartsWith(s, i, "//") && !StartsWith(s, i, "/*") && KeywordAt(rows, s, i).None?
    && !IdentStart(s[i]) && !IsDigit(s[i]) && !IsSpace(s[i])
  }

  /** A turn leaves the cursor where it was exactly when no rule applies,
      and then the scan never finishes. */
  lemma StallIffNoRule(rows: seq<(string, TokenType)>, s: string, i: nat)
    requires TableOk(rows) && i < |s|
    ensures Step(rows, s, i).1 == i <==> NoRule(rows, s, i)
    ensures NoRule(rows, s, i) ==> Scan(rows, s, i).None?
  {
  }

  // ---------------------------------------------------------------------
  // Worked inputs
  // ---------------------------------------------------------------------

  /** `firsts[q]` is the first character of row `q`, never an upper-case
      letter. */
  predicate FirstsOf(rows: seq<(string, TokenType)>, firsts: string)
  {
    |firsts| == |rows|
    && forall q :: 0 <= q < |rows| ==>
         rows[q].0 != [] && rows[q].0[0] == firsts[q] && !('A' <= firsts[q] <= 'Z')
  }

  /** The first characters of the rows of `Table`. */
  const FirstChars: string := "sildcvtf,;(){}[]+-*/<><>=!&|ip=iewbr"

  lemma TableFirsts()
    ensures FirstsOf(Table, FirstChars)
  {
  }

  /** No row from `lo` to `hi` of `Table` starts with `c`. */
  predicate NotFirst(c: char, lo: nat, hi: nat)
    requires hi <= |FirstChars|
  {
    forall q :: lo <= q < hi ==> FirstChars[q] != c
  }

  /** Rows `lo` to `hi` are passed over when none starts with the
      character at `i`, in either case. */
  lemma {:induction false} SkipByFirst(rows: seq<(string, TokenType)>, firsts: string, s: string, i: nat, lo: nat, hi: nat)
    requires FirstsOf(rows, firsts) && lo <= hi <= |rows| && i < |s|
    requires forall q :: lo <= q < hi ==> firsts[q] != ToLower(s[i])
    ensures KeywordFrom(rows, s, i, lo) == KeywordFrom(rows, s, i, hi)
    decreases hi - lo
  {
    if lo < hi {
      SkipByFirst(rows, firsts, s, i, lo + 1, hi);
    }
  }

  /** `SkipByFirst` for the lexer's own table. */
  lemma TableSkip(s: string, i: nat, c: char, lo: nat, hi: nat)
    requires i < |s| && ToLower(s[i]) == c && lo <= hi <= |FirstChars| && NotFirst(c, lo, hi)
    ensures KeywordFrom(Table, s, i, lo) == KeywordFrom(Table, s, i, hi)
  {
    TableFirsts();
    SkipByFirst(Table, FirstChars, s, i, lo, hi);
  }

  /** Row `r`, spelled `w`, does not match at `i`. */
  lemma SkipRow(rows: seq<(string, TokenType)>, s: string, i: nat, r: nat, w: string)
    requires r < |rows| && rows[r].0 == w && !PrefixCI(s, i, w)
    ensures KeywordFrom(rows, s, i, r) == KeywordFrom(rows, s, i, r + 1)
  {
  }

  /** Row `r`, spelled `w`, matches at `i`. */
  lemma HitRow(rows: seq<(string, TokenType)>, s: string, i: nat, r: nat, w: string)
    requires r < |rows| && rows[r].0 == w && PrefixCI(s, i, w)
    ensures KeywordFrom(rows, s, i, r) == Some(r)
  {
  }

  lemma EndOfScan(rows: seq<(string, TokenType)>, s: string)
    ensures Scan(rows, s, |s|) == Some([])
  {
  }

  lemma LexOfScan(s: string, t: seq<Token>)
    requires Scan(Table, s, 0) == Some(t)
    ensures Lex(s) == Some((t + [Plain(End)], |s|))
  {
  }

  /** Away from a comment, a matching row makes the turn emit its type and
      move past its spelling. */
  lemma KeywordScan(rows: seq<(string, TokenType)>, s: string, i: nat, r: nat, w: string, t: TokenType)
    requires i < |s| && s[i] != '/'
    requires KeywordAt(rows, s, i) == Some(r) && r < |rows| && rows[r] == (w, t) && w != []
    ensures Scan(rows, s, i) == Prepend([Plain(t)], Scan(rows, s, i + |w|))
  {
    assert !StartsWith(s, i, "//") && !StartsWith(s, i, "/*");
    assert Step(rows, s, i) == ([Plain(t)], i + |w|);
  }

  // Where the characters the worked inputs need stand among the first
  // characters of the rows.

  lemma RelationFirsts()
    ensures NotFirst('<', 0, 20) && NotFirst('>', 0, 21)
    ensures NotFirst('=', 0, 24) && NotFirst('=', 25, 30)
  {
  }

  lemma LetterFirsts()
    ensures NotFirst('i', 0, 1) && NotFirst('i', 2, 28) && NotFirst('i', 29, 31)
    ensures NotFirst('e', 0, 32) && NotFirst('e', 33, 36)
  {
  }

  lemma StrayFirsts()
    ensures NotFirst('@', 0, 36)
    ensures NotFirst('!', 0, 25) && NotFirst('!', 26, 36)
    ensures NotFirst('&', 0, 26) && NotFirst('&', 27, 36)
  {
  }

  /** `<` is LT wherever it stands, even before `=`: row 20 comes first. */
  lemma LessRow(s: string, i: nat)
    requires i < |s| && s[i] == '<'
    ensures KeywordAt(Table, s, i) == Some(20)
  {
    RelationFirsts();
    HitRow(Table, s, i, 20, "<");
    TableSkip(s, i, '<', 0, 20);
  }

  /** `>` is GT wherever it stands, even before `=`. */
  lemma GreaterRow(s: string, i: nat)
    requires i < |s| && s[i] == '>'
    ensures KeywordAt(Table, s, i) == Some(21)
  {
    RelationFirsts();
    HitRow(Table, s, i, 21, ">");
    TableSkip(s, i, '>', 0, 21);
  }

  /** `==` is EE: its row precedes the row of `=`. */
  lemma EqualsRow(s: string, i: nat)
    requires i + 1 < |s| && s[i] == '=' && s[i + 1] == '='
    ensures KeywordAt(Table, s, i) == Some(24)
  {
    RelationFirsts();
    HitRow(Table, s, i, 24, "==");
    TableSkip(s, i, '=', 0, 24);
  }

  /** A `=` not followed by another is ASSIGNMENT. */
  lemma AssignRow(s: string, i: nat)
    requires i < |s| && s[i] == '=' && (i + 1 == |s| || s[i + 1] != '=')
    ensures KeywordAt(Table, s, i) == Some(30)
  {
    RelationFirsts();
    HitRow(Table, s, i, 30, "=");
    SkipRow(Table, s, i, 24, "==");
    TableSkip(s, i, '=', 25, 30);
    TableSkip(s, i, '=', 0, 24);
  }

  lemma LessScan(s: string, i: nat)
    requires i < |s| && s[i] == '<'
    ensures Scan(Table, s, i) == Prepend([Plain(BinLt)], Scan(Table, s, i + 1))
  {
    LessRow(s, i);
    KeywordScan(Table, s, i, 20, "<", BinLt);
  }

  lemma GreaterScan(s: string, i: nat)
    requires i < |s| && s[i] == '>'
    ensures Scan(Table, s, i) == Prepend([Plain(BinGt)], Scan(Table, s, i + 1))
  {
    GreaterRow(s, i);
    KeywordScan(Table, s, i, 21, ">", BinGt);
  }

  lemma AssignScan(s: string, i: nat)
    requires i < |s| && s[i] == '=' && (i + 1 == |s| || s[i + 1] != '=')
    ensures Scan(Table, s, i) == Prepend([Plain(Assignment)], Scan(Table, s, i + 1))
  {
    AssignRow(s, i);
    KeywordScan(Table, s, i, 30, "=", Assignment);
  }

  /** First match wins: wherever `<=` stands, it is scanned as LT then
      ASSIGNMENT, and likewise `>=` as GT then ASSIGNMENT. */
  lemma LessEqualIsTwoTokens(s: string, i: nat)
    requires i + 1 < |s| && s[i + 1] == '=' && (i + 2 == |s| || s[i + 2] != '=')
    ensures s[i] == '<' ==> Scan(Table, s, i) == Prepend([Plain(BinLt), Plain(Assignment)], Scan(Table, s, i + 2))
    ensures s[i] == '>' ==> Scan(Table, s, i) == Prepend([Plain(BinGt), Plain(Assignment)], Scan(Table, s, i + 2))
  {
    AssignScan(s, i + 1);
    if s[i] == '<' {
      LessScan(s, i);
      PrependAssoc([Plain(BinLt)], [Plain(Assignment)], Scan(Table, s, i + 2));
      assert [Plain(BinLt)] + [Plain(Assignment)] == [Plain(BinLt), Plain(Assignment)];
    } else if s[i] == '>' {
      GreaterScan(s, i);
      PrependAssoc([Plain(BinGt)], [Plain(Assignment)], Scan(Table, s, i + 2));
      assert [Plain(BinGt)] + [Plain(Assignment)] == [Plain(BinGt), Plain(Assignment)];
    }
  }

  /** The whole text `<=`. */
  lemma LexLessEqual()
    ensures Lex("<=") == Some(([Plain(BinLt), Plain(Assignment), Plain(End)], 2))
  {
    LessEqualIsTwoTokens("<=", 0);
    EndOfScan(Table, "<=");
    assert [Plain(BinLt), Plain(Assignment)] + [] + [Plain(End)] == [Plain(BinLt), Plain(Assignment), Plain(End)];
  }

  /** `==` is one EE token, not two assignments. */
  lemma EqualsIsOneToken(s: string, i: nat)
    requires i + 1 < |s| && s[i] == '=' && s[i + 1] == '='
    ensures Scan(Table, s, i) == Prepend([Plain(BinEe)], Scan(Table, s, i + 2))
  {
    EqualsRow(s, i);
    KeywordScan(Table, s, i, 24, "==", BinEe);
  }

  /** `int`, in any case, is INT even when more letters follow. */
  lemma IntRow(s: string, i: nat)
    requires PrefixCI(s, i, "int")
    ensures KeywordAt(Table, s, i) == Some(1)
  {
    LetterFirsts();
    HitRow(Table, s, i, 1, "int");
    TableSkip(s, i, 'i', 0, 1);
  }

  /** `if`, in any case, is STATEMENT_IF: the rows of `int` and `input`
      before it do not match. */
  lemma IfRow(s: string, i: nat)
    requires PrefixCI(s, i, "if")
    ensures KeywordAt(Table, s, i) == Some(31)
  {
    LetterFirsts();
    HitRow(Table, s, i, 31, "if");
    SkipRow(Table, s, i, 28, "input");
    TableSkip(s, i, 'i', 29, 31);
    IfRowFrom28(s, i);
  }

  lemma IfRowFrom28(s: string, i: nat)
    requires PrefixCI(s, i, "if")
    ensures KeywordFrom(Table, s, i, 0) == KeywordFrom(Table, s, i, 28)
  {
    LetterFirsts();
    SkipRow(Table, s, i, 1, "int");
    TableSkip(s, i, 'i', 2, 28);
    TableSkip(s, i, 'i', 0, 1);
  }

  /** An `e` that does not begin `else` starts no row. */
  lemma NoRowAtE(s: string, i: nat)
    requires i < |s| && ToLower(s[i]) == 'e' && !PrefixCI(s, i, "else")
    ensures KeywordAt(Table, s, i).None?
  {
    LetterFirsts();
    SkipRow(Table, s, i, 32, "else");
    TableSkip(s, i, 'e', 33, 36);
    TableSkip(s, i, 'e', 0, 32);
  }

  /** `int`, in any case, is scanned as INT and the scan resumes right
      after it, whatever letters follow. */
  lemma IntScan(s: string, i: nat)
    requires PrefixCI(s, i, "int")
    ensures Scan(Table, s, i) == Prepend([Plain(Int)], Scan(Table, s, i + 3))
  {
    IntRow(s, i);
    assert ToLower(s[i]) == 'i';
    KeywordScan(Table, s, i, 1, "int", Int);
  }

  /** Keywords need no word boundary: wherever `integer` stands as a
      word, it is scanned as INT then the identifier `eger`. */
  lemma IntegerIsIntThenIdent(s: string, i: nat)
    requires i + 7 <= |s| && s[i..i + 7] == "integer"
    requires i + 7 == |s| || !(IsAlnum(s[i + 7]) || s[i + 7] == '_')
    ensures Scan(Table, s, i) == Prepend([Plain(Int), Ident("eger")], Scan(Table, s, i + 7))
  {
    EgerScan(s, i);
    IntegerPrefix(s, i);
    IntScan(s, i);
    PrependAssoc([Plain(Int)], [Ident("eger")], Scan(Table, s, i + 7));
    assert [Plain(Int)] + [Ident("eger")] == [Plain(Int), Ident("eger")];
  }

  lemma IntegerPrefix(s: string, i: nat)
    requires i + 7 <= |s| && s[i..i + 7] == "integer"
    ensures PrefixCI(s, i, "int")
  {
    assert s[i] == 'i' && s[i + 1] == 'n' && s[i + 2] == 't';
  }

  lemma EgerScan(s: string, i: nat)
    requires i + 7 <= |s| && s[i..i + 7] == "integer"
    requires i + 7 == |s| || !(IsAlnum(s[i + 7]) || s[i + 7] == '_')
    ensures Scan(Table, s, i + 3) == Prepend([Ident("eger")], Scan(Table, s, i + 7))
  {
    EgerFacts(s, i);
    NoRowAtE(s, i + 3);
    IdentScan(s, i + 3);
  }

  lemma EgerFacts(s: string, i: nat)
    requires i + 7 <= |s| && s[i..i + 7] == "integer"
    requires i + 7 == |s| || !(IsAlnum(s[i + 7]) || s[i + 7] == '_')
    ensures s[i + 3] == 'e' && !PrefixCI(s, i + 3, "else")
    ensures RunEnd(s, i + 4, IdentChars) == i + 7 && s[i + 3..i + 7] == "eger"
  {
    assert s[i + 3] == 'e' && s[i + 4] == 'g' && s[i + 5] == 'e' && s[i + 6] == 'r';
    RunEndUnique(s, i + 4, IdentChars, i + 7);
    assert s[i + 3..i + 7] == s[i..i + 7][3..7];
  }

  /** Where no row matches, a letter or `_` makes the turn emit the
      identifier that runs from it. */
  lemma IdentScan(s: string, b: nat)
    requires b < |s| && IdentStart(s[b]) && KeywordAt(Table, s, b).None?
    ensures var e := RunEnd(s, b + 1, IdentChars);
            Scan(Table, s, b) == Prepend([Ident(s[b..e])], Scan(Table, s, e))
  {
    assert b + 2 <= |s| ==> s[b..b + 2][0] == s[b] != '/';
    assert AfterComments(s, b) == b;
  }

  /** Keywords match in any case: `IF` is STATEMENT_IF. */
  lemma UpperCaseIf()
    ensures Lex("IF") == Some(([Plain(StatementIf), Plain(End)], 2))
  {
    var s := "IF";
    IfRow(s, 0);
    KeywordScan(Table, s, 0, 31, "if", StatementIf);
    EndOfScan(Table, s);
    assert [Plain(StatementIf)] + [] + [Plain(End)] == [Plain(StatementIf), Plain(End)];
  }

  /** A character no row starts with, and that starts no comment,
      identifier, number or white space, stalls the scan. */
  lemma NoRuleStalls(s: string, i: nat)
    requires i < |s| && KeywordAt(Table, s, i).None? && (s[i] == '@' || s[i] == '!' || s[i] == '&')
    ensures Scan(Table, s, i).None?
  {
    assert i + 2 <= |s| ==> s[i..i + 2][0] == s[i] != '/';
    assert !IdentStart(s[i]) && !IsDigit(s[i]) && !IsSpace(s[i]);
    TableIsOk();
    StallIffNoRule(Table, s, i);
  }

  /** `@`, a `!` not before `=`, and a `&` not before another match no
      row. */
  lemma NoRowAtStray(s: string, i: nat)
    requires i < |s|
    requires s[i] == '@' || (s[i] == '!' && (i + 1 == |s| || s[i + 1] != '='))
             || (s[i] == '&' && (i + 1 == |s| || s[i + 1] != '&'))
    ensures KeywordAt(Table, s, i).None?
  {
    StrayFirsts();
    if s[i] == '@' {
      TableSkip(s, i, '@', 0, 36);
    } else if s[i] == '!' {
      SkipRow(Table, s, i, 25, "!=");
      TableSkip(s, i, '!', 26, 36);
      TableSkip(s, i, '!', 0, 25);
    } else {
      SkipRow(Table, s, i, 26, "&&");
      TableSkip(s, i, '&', 27, 36);
      TableSkip(s, i, '&', 0, 26);
    }
  }

  /** Such a character makes no progress, so the scan never finishes. */
  lemma StrayCharacterStalls(s: string, i: nat)
    requires i < |s|
    requires s[i] == '@' || (s[i] == '!' && (i + 1 == |s| || s[i + 1] != '='))
             || (s[i] == '&' && (i + 1 == |s| || s[i + 1] != '&'))
    ensures Scan(Table, s, i).None?
  {
    NoRowAtStray(s, i);
    NoRuleStalls(s, i);
  }

  /** The whole text `@`. */
  lemma LexStray()
    ensures Lex("@").None?
  {
    StrayCharacterStalls("@", 0);
  }
}
