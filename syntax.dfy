/** The recursive-descent parser of src/front_end/syntax.c.

    The token list is the sequence the lexer produced, and the shared
    cursor `*idx` is an index into it: the lexer only appends, so
    `ListNext` walks consecutive slots.  A parser that returns NULL gives
    the tree `Nil`; an `assert(0)` in the source gives `Abort`.

    The first half states every `Get*` function as a function of the
    tokens and the cursor; the class `Parser` at the end runs the same
    parse with the source's loops over a cursor field and is proved to
    agree with it. */
module Syntax {
  import opened Common
  import opened Ast
  import opened Lexer

  /** What the lexer guarantees the parser: the list ends with END.  No
      parser consumes END, so the cursor never runs past it. */
  predicate Tokens(toks: seq<Token>)
  {
    |toks| > 0 && toks[|toks| - 1].Type() == End
  }

  /** The result of an expression parser: a tree, possibly `Nil`, and the
      cursor after it. */
  datatype Parsed = Parsed(t: Tree, next: nat)

  /** The result of a statement parser: an abort, or a tree (possibly
      `Nil`) and the cursor after it. */
  datatype Outcome = Abort | Done(t: Tree, next: nat)

  function Leaf(d: Data): Tree { Node(d, Nil, Nil) }

  // ---------------------------------------------------------------------
  // The precedence ladder
  // ---------------------------------------------------------------------

  /** The level of the ladder a token continues: 0 for `||`
      (`GetLogicalOr`), 1 for `&&` (`GetLogicalAnd`), 2 for `==` `!=`
      (`GetEquality`), 3 for `<` `>` `<=` `>=` (`GetComparison`), 4 for `+`
      `-` (`GetTerm`), 5 for `*` `/` (`GetFactor`), and 6 for any token that
      is no binary operator. */
  function TokLevel(k: TokenType): (lv: nat)
    ensures lv <= 6
  {
    match k
    case Lor => 0
    case Land => 1
    case BinEe => 2
    case BinNe => 2
    case BinLt => 3
    case BinGt => 3
    case BinLe => 3
    case BinGe => 3
    case BinAdd => 4
    case BinSub => 4
    case BinMul => 5
    case BinDiv => 5
    case _ => 6
  }

  /** The node each operator token builds. */
  function TokOp(k: TokenType): Operation
  {
    match k
    case Lor => LOr
    case Land => LAnd
    case BinEe => Ee
    case BinNe => Ne
    case BinLt => Lt
    case BinGt => Gt
    case BinLe => Le
    case BinGe => Ge
    case BinAdd => Add
    case BinSub => Sub
    case BinMul => Mul
    case BinDiv => Div
    case _ => OpUndefined
  }

  /** The operator a token continues at precedence level `lv`. */
  function BinaryOp(lv: nat, k: TokenType): (r: Option<Operation>)
    ensures r.Some? ==> k != End
  {
    if lv < 6 && TokLevel(k) == lv then Some(TokOp(k)) else None
  }

  /** Level `lv` of the ladder at cursor `i`: level 6 is `GetPrimary`,
      every other level parses an operand one level tighter and then
      folds `op operand` pairs to the left while the token continues it. */
  function Binary(toks: seq<Token>, i: nat, lv: nat): (r: Parsed)
    requires Tokens(toks) && i < |toks| && lv <= 6
    ensures i <= r.next < |toks|
    decreases |toks| - i, 7 - lv, 1
  {
    if lv == 6 then Primary(toks, i)
    else
      var first := Binary(toks, i, lv + 1);
      Chain(toks, lv, first.t, first.next)
  }

  /** The `while` loop of one level, with `acc` the tree built so far. */
  function Chain(toks: seq<Token>, lv: nat, acc: Tree, j: nat): (r: Parsed)
    requires Tokens(toks) && j < |toks| && lv < 6
    ensures j <= r.next < |toks|
    decreases |toks| - j, 7 - lv, 0
  {
    match BinaryOp(lv, toks[j].Type())
    case None => Parsed(acc, j)
    case Some(op) =>
      var operand := Binary(toks, j + 1, lv + 1);
      Chain(toks, lv, Node(Op(op), acc, operand.t), operand.next)
  }

  /** `GetPrimary`: an identifier, a number or a boolean is one leaf; a
      `(` parses an expression; a `)` is then skipped whether or not a
      `(` opened it, and anything else gives NULL. */
  function Primary(toks: seq<Token>, i: nat): (r: Parsed)
    requires Tokens(toks) && i < |toks|
    ensures i <= r.next < |toks|
    decreases |toks| - i, 0, 0
  {
    var tok := toks[i];
    if tok.Ident? then Parsed(Leaf(Var(tok.name)), i + 1)
    else if tok.IntConst? then Parsed(Leaf(Num(ConstInt, tok.value)), i + 1)
    else if tok.DoubleConst? then Parsed(Leaf(Real(tok.lexeme)), i + 1)
    else if tok.Type() == BoolTrue then Parsed(Leaf(Num(ConstInt, 1)), i + 1)
    else if tok.Type() == BoolFalse then Parsed(Leaf(Num(ConstInt, 0)), i + 1)
    else
      var inner := if tok.Type() == RoundOpen then Binary(toks, i + 1, 0) else Parsed(Nil, i);
      if toks[inner.next].Type() == RoundClose then Parsed(inner.t, inner.next + 1) else inner
  }

  /** `GetExpression`. */
  function Expression(toks: seq<Token>, i: nat): (r: Parsed)
    requires Tokens(toks) && i < |toks|
    ensures i <= r.next < |toks|
  {
    Binary(toks, i, 0)
  }

  // ---------------------------------------------------------------------
  // Statements
  // ---------------------------------------------------------------------

  /** `GetDataType`: the declared type a type keyword stands for. */
  function DeclType(k: TokenType): (r: Option<ConstType>)
    ensures r.Some? <==> k in {Short, Int, Long, Double, Char, Void}
  {
    match k
    case Short => Some(ConstShort)
    case Int => Some(ConstInt)
    case Long => Some(ConstLong)
    case Double => Some(ConstDouble)
    case Char => Some(ConstChar)
    case Void => Some(ConstVoid)
    case _ => None
  }

  /** The right-linked SENTINEL chain of a block: one SENTINEL per
      statement, holding it in `left`, then a last SENTINEL with `left`
      NULL and `tail` (NULL as parsed) in `right`. */
  function SentinelChain(ss: seq<Tree>, tail: Tree): (r: Tree)
    ensures r.Node? && r.data == Op(Sentinel)
    decreases |ss|
  {
    if ss == [] then Node(Op(Sentinel), Nil, tail)
    else Node(Op(Sentinel), ss[0], SentinelChain(ss[1..], tail))
  }

  /** The `end_block` walk of `GetIfStatement` followed by the store into
      `end_block->right`: `x` replaces the NULL at the end of the right
      spine. */
  function SetLast(t: Tree, x: Tree): (r: Tree)
    ensures t.Node? ==> r.Node? && r.data == t.data && r.left == t.left
  {
    match t
    case Nil => x
    case Node(d, l, rt) => if rt == Nil then Node(d, l, x) else Node(d, l, SetLast(rt, x))
  }

  /** `GetVarDec`: `T x;` is DECL(T) with right VAR x, and `T x = e;` is
      DECL(T) with right ASSIGNMENT(VAR x, e); without a type keyword it
      is NULL. */
  function VarDec(toks: seq<Token>, i: nat): (r: Outcome)
    requires Tokens(toks) && i < |toks|
    ensures r.Done? ==> i <= r.next < |toks| && (r.t != Nil ==> i < r.next)
    decreases |toks| - i, 1, 0
  {
    match DeclType(toks[i].Type())
    case None => Done(Nil, i)
    case Some(ct) =>
      if !toks[i + 1].Ident? then Abort
      else
        var x := Leaf(Var(toks[i + 1].name));
        var k := toks[i + 2].Type();
        if k == TokenType.Assignment then
          var e := Binary(toks, i + 3, 0);
          if e.t == Nil || toks[e.next].Type() != Semicolon then Abort
          else Done(Node(Decl(ct), Nil, Node(Op(Operation.Assignment), x, e.t)), e.next + 1)
        else if k == Semicolon then Done(Node(Decl(ct), Nil, x), i + 3)
        else Abort
  }

  /** Whether `GetAssignment` sees a target: an identifier followed by `=`. */
  predicate TargetAt(toks: seq<Token>, i: nat)
    requires Tokens(toks) && i < |toks|
  {
    toks[i].Ident? && toks[i + 1].Type() == TokenType.Assignment
  }

  /** `GetAssignment`: NULL unless a target leads; otherwise the targets
      nest to the left and the final expression is the outermost right
      child. */
  function Assign(toks: seq<Token>, i: nat): (r: Outcome)
    requires Tokens(toks) && i < |toks|
    ensures r.Done? ==> i <= r.next < |toks| && (r.t != Nil ==> i < r.next)
    decreases |toks| - i, 1, 0
  {
    if !TargetAt(toks, i) then Done(Nil, i)
    else AssignLoop(toks, Leaf(Var(toks[i].name)), i + 1)
  }

  /** The `while (1)` loop of `GetAssignment`, at an `=` (so the
      `assert(0)` at its head is never reached), with `acc` the tree so far. */
  function AssignLoop(toks: seq<Token>, acc: Tree, j: nat): (r: Outcome)
    requires Tokens(toks) && j < |toks| && toks[j].Type() == TokenType.Assignment
    ensures r.Done? ==> j < r.next < |toks| && r.t != Nil
    decreases |toks| - j
  {
    if TargetAt(toks, j + 1) then
      AssignLoop(toks, Node(Op(Operation.Assignment), acc, Leaf(Var(toks[j + 1].name))), j + 2)
    else
      var e := Binary(toks, j + 1, 0);
      if toks[e.next].Type() == Semicolon then Done(Node(Op(Operation.Assignment), acc, e.t), e.next + 1)
      else Abort
  }

  /** `GetIfStatement`: IF(condition, block), then the optional else
      part. */
  function If(toks: seq<Token>, i: nat): (r: Outcome)
    requires Tokens(toks) && i < |toks|
    ensures r.Done? ==> i <= r.next < |toks| && (r.t != Nil ==> i < r.next)
    decreases |toks| - i, 1, 0
  {
    if toks[i].Type() != StatementIf then Done(Nil, i)
    else
      match Condition(toks, i + 1)
      case None => Abort
      case Some((c, j)) =>
        match Block(toks, j)
        case Abort => Abort
        case Done(b, k) => if b == Nil then Abort else ElsePart(toks, c, b, k)
  }

  /** The `( condition )` of `GetIfStatement` and `GetWhileStatement`:
      the condition and the cursor after `)`; None where the code
      asserts (no `(`, a NULL condition, no `)`). */
  function Condition(toks: seq<Token>, i: nat): (r: Option<(Tree, nat)>)
    requires Tokens(toks) && i < |toks|
    ensures r.Some? ==> i < r.value.1 < |toks| && r.value.0 != Nil
  {
    if toks[i].Type() != RoundOpen then None
    else
      var e := Binary(toks, i + 1, 0);
      if e.t == Nil || toks[e.next].Type() != RoundClose then None else Some((e.t, e.next + 1))
  }

  /** The tail of `GetIfStatement` at cursor `k`, after the condition and
      the block: an `else if` is attached as the right child of the
      block's last SENTINEL, and a plain `else` is attached there wrapped
      in ELSE(NULL, block). */
  function ElsePart(toks: seq<Token>, cond: Tree, b: Tree, k: nat): (r: Outcome)
    requires Tokens(toks) && k < |toks|
    ensures r.Done? ==> k <= r.next < |toks| && r.t != Nil
    decreases |toks| - k, 1, 1
  {
    if toks[k].Type() != StatementElse then Done(Node(Op(Operation.If), cond, b), k)
    else if toks[k + 1].Type() == StatementIf then
      match If(toks, k + 1)
      case Abort => Abort
      case Done(n, m) => Done(Node(Op(Operation.If), cond, SetLast(b, n)), m)
    else
      match Block(toks, k + 1)
      case Abort => Abort
      case Done(eb, m) =>
        if eb == Nil then Abort
        else Done(Node(Op(Operation.If), cond, SetLast(b, Node(Op(Else), Nil, eb))), m)
  }

  /** `GetWhileStatement`: WHILE(condition, block). */
  function While(toks: seq<Token>, i: nat): (r: Outcome)
    requires Tokens(toks) && i < |toks|
    ensures r.Done? ==> i <= r.next < |toks| && (r.t != Nil ==> i < r.next)
    decreases |toks| - i, 1, 0
  {
    if toks[i].Type() != StatementWhile then Done(Nil, i)
    else
      match Condition(toks, i + 1)
      case None => Abort
      case Some((c, j)) =>
        match Block(toks, j)
        case Abort => Abort
        case Done(b, k) => if b == Nil then Abort else Done(Node(Op(Operation.While), c, b), k)
  }

  /** `GetReturnStatement`: RETURN with the expression statement as its
      right child. */
  function Return(toks: seq<Token>, i: nat): (r: Outcome)
    requires Tokens(toks) && i < |toks|
    ensures r.Done? ==> i <= r.next < |toks| && (r.t != Nil ==> i < r.next)
    decreases |toks| - i, 1, 0
  {
    if toks[i].Type() != StatementReturn then Done(Nil, i)
    else
      match ExprStatement(toks, i + 1)
      case Abort => Abort
      case Done(e, j) => if e == Nil then Abort else Done(Node(Op(Operation.Return), Nil, e), j)
  }

  /** `GetExprStatement`: an expression and its `;`.  A NULL expression
      gives NULL, with the cursor wherever the expression left it. */
  function ExprStatement(toks: seq<Token>, i: nat): (r: Outcome)
    requires Tokens(toks) && i < |toks|
    ensures r.Done? ==> i <= r.next < |toks| && (r.t != Nil ==> i < r.next)
    decreases |toks| - i, 1, 0
  {
    var e := Binary(toks, i, 0);
    if e.t == Nil then Done(Nil, e.next)
    else if toks[e.next].Type() == Semicolon then Done(e.t, e.next + 1)
    else Abort
  }

  /** `GetBlock`: `{`, the statements up to the first NULL one, `}`. */
  function Block(toks: seq<Token>, i: nat): (r: Outcome)
    requires Tokens(toks) && i < |toks|
    ensures r.Done? ==> i <= r.next < |toks| && (r.t != Nil ==> i < r.next)
    decreases |toks| - i, 1, 0
  {
    if toks[i].Type() != CurlyOpen then Done(Nil, i)
    else
      match Statements(toks, i + 1)
      case None => Abort
      case Some((ss, j)) =>
        if toks[j].Type() == CurlyClose then Done(SentinelChain(ss, Nil), j + 1) else Abort
  }

  /** The loop of `GetBlock`: statements until `GetStatement` gives NULL. */
  function Statements(toks: seq<Token>, i: nat): (r: Option<(seq<Tree>, nat)>)
    requires Tokens(toks) && i < |toks|
    ensures r.Some? ==> i <= r.value.1 < |toks| && forall k :: 0 <= k < |r.value.0| ==> r.value.0[k] != Nil
    decreases |toks| - i, 4, 0
  {
    match Statement(toks, i)
    case Abort => None
    case Done(s, j) =>
      if s == Nil then Some(([], j))
      else
        match Statements(toks, j)
        case None => None
        case Some((ss, k)) => Some(([s] + ss, k))
  }

  /** Entry `k` of the `statements[]` table of `GetStatement`. */
  function StatementParser(toks: seq<Token>, k: nat, i: nat): (r: Outcome)
    requires Tokens(toks) && i < |toks| && k < 7
    ensures r.Done? ==> i <= r.next < |toks| && (r.t != Nil ==> i < r.next)
    decreases |toks| - i, 2, 0
  {
    if k == 0 then VarDec(toks, i)
    else if k == 1 then Assign(toks, i)
    else if k == 2 then If(toks, i)
    else if k == 3 then While(toks, i)
    else if k == 4 then Return(toks, i)
    else if k == 5 then Block(toks, i)
    else ExprStatement(toks, i)
  }

  /** The loop of `GetStatement` from table entry `k` on: the first
      non-NULL result wins, and the last entry's result is taken as it is. */
  function TryFrom(toks: seq<Token>, k: nat, i: nat): (r: Outcome)
    requires Tokens(toks) && i < |toks| && k < 7
    ensures r.Done? ==> i <= r.next < |toks| && (r.t != Nil ==> i < r.next)
    decreases |toks| - i, 3, 7 - k
  {
    match StatementParser(toks, k, i)
    case Abort => Abort
    case Done(t, j) => if t != Nil || k == 6 then Done(t, j) else TryFrom(toks, k + 1, j)
  }

  /** `GetStatement`. */
  function Statement(toks: seq<Token>, i: nat): (r: Outcome)
    requires Tokens(toks) && i < |toks|
    ensures r.Done? ==> i <= r.next < |toks| && (r.t != Nil ==> i < r.next)
    decreases |toks| - i, 3, 8
  {
    TryFrom(toks, 0, i)
  }

  /** `GetG`: one if-statement, kept only when END follows it; None is an
      abort. */
  function Program(toks: seq<Token>): (r: Option<Tree>)
    requires Tokens(toks)
  {
    match If(toks, 0)
    case Abort => None
    case Done(t, j) => if toks[j].Type() == End then Some(t) else Some(Nil)
  }

  /** `SyntaxAnalysis`: it writes through the root returned by `GetG`, so
      a NULL root crashes like an abort. */
  function SyntaxAnalysis(toks: seq<Token>): (r: Option<Tree>)
    requires Tokens(toks)
    ensures r.Some? ==> r.value != Nil
  {
    match Program(toks)
    case None => None
    case Some(t) => if t == Nil then None else Some(t)
  }

  // ---------------------------------------------------------------------
  // Precedence and associativity: printing an expression tree and parsing
  // the tokens gives the tree back
  // ---------------------------------------------------------------------

  /** The ladder level an operation belongs to; 6 for any other. */
  function OpLevel(op: Operation): (lv: nat)
    ensures lv <= 6
  {
    match op
    case LOr => 0
    case LAnd => 1
    case Ee => 2
    case Ne => 2
    case Lt => 3
    case Gt => 3
    case Le => 3
    case Ge => 3
    case Add => 4
    case Sub => 4
    case Mul => 5
    case Div => 5
    case _ => 6
  }

  /** The token that spells a binary operation. */
  function OpToken(op: Operation): TokenType
  {
    match op
    case LOr => Lor
    case LAnd => Land
    case Ee => BinEe
    case Ne => BinNe
    case Lt => BinLt
    case Gt => BinGt
    case Le => BinLe
    case Ge => BinGe
    case Add => BinAdd
    case Sub => BinSub
    case Mul => BinMul
    case Div => BinDiv
    case _ => Undef
  }

  /** An operator token builds the operation of its own level, which the
      token spells. */
  lemma TokOpLevel(k: TokenType)
    requires TokLevel(k) < 6
    ensures OpLevel(TokOp(k)) == TokLevel(k) && OpToken(TokOp(k)) == k
  {
    match k
    case Lor =>
    case Land =>
    case BinEe =>
    case BinNe =>
    case BinLt =>
    case BinGt =>
    case BinLe =>
    case BinGe =>
    case BinAdd =>
    case BinSub =>
    case BinMul =>
    case BinDiv =>
    case _ =>
  }

  /** The leaves of an expression: what `GetPrimary` builds from one token. */
  predicate LeafData(d: Data)
  {
    d.Var? || (d.Num? && d.ctype == ConstInt) || d.Real?
  }

  function LeafToken(d: Data): Token
    requires LeafData(d)
  {
    if d.Var? then Ident(d.name) else if d.Num? then IntConst(d.value) else DoubleConst(d.lexeme)
  }

  /** Expression trees without NULL operands. */
  predicate Expr(t: Tree)
  {
    match t
    case Nil => false
    case Node(d, l, r) =>
      if d.Op? then OpLevel(d.op) < 6 && Expr(l) && Expr(r)
      else LeafData(d) && l == Nil && r == Nil
  }

  /** The level of an expression's root: its operator's, or 6 for a leaf. */
  function Prec(t: Tree): (lv: nat)
    ensures lv <= 6
  {
    if t.Node? && t.data.Op? then OpLevel(t.data.op) else 6
  }

  /** The tokens of `t` where an operand of level `lv` is expected:
      parenthesised when its root is looser than `lv`. */
  function Print(t: Tree, lv: nat): (p: seq<Token>)
    requires Expr(t)
    ensures |p| > 0
    decreases t, 1
  {
    if Prec(t) < lv then [Plain(RoundOpen)] + Raw(t) + [Plain(RoundClose)] else Raw(t)
  }

  /** The tokens of `t`: the left operand at the operator's level, the
      operator, the right operand one level tighter. */
  function Raw(t: Tree): (p: seq<Token>)
    requires Expr(t)
    ensures |p| > 0
    decreases t, 0
  {
    var lv := Prec(t);
    if lv == 6 then [LeafToken(t.data)]
    else Print(t.left, lv) + [Plain(OpToken(t.data.op))] + Print(t.right, lv + 1)
  }

  /** The leftmost operand of the run of level-`lv` operators at the root. */
  function Base(t: Tree, lv: nat): (b: Tree)
    requires Expr(t)
    ensures Expr(b) && (lv < 6 ==> Prec(b) != lv) && Size(b) <= Size(t)
    ensures Prec(t) == lv < 6 ==> Size(b) < Size(t)
  {
    if Prec(t) == lv < 6 then Base(t.left, lv) else t
  }

  /** The tokens after that operand: `op operand` pairs of level `lv`. */
  function Rest(t: Tree, lv: nat): (p: seq<Token>)
    requires Expr(t) && lv < 6
  {
    if Prec(t) == lv then Rest(t.left, lv) + [Plain(OpToken(t.data.op))] + Print(t.right, lv + 1) else []
  }

  /** `t` with that leftmost operand replaced by `acc`. */
  function Graft(t: Tree, lv: nat, acc: Tree): Tree
    requires Expr(t)
  {
    if Prec(t) == lv < 6 then Node(t.data, Graft(t.left, lv, acc), t.right) else acc
  }

  lemma {:induction false} GraftBase(t: Tree, lv: nat)
    requires Expr(t)
    ensures Graft(t, lv, Base(t, lv)) == t
  {
    if Prec(t) == lv < 6 {
      GraftBase(t.left, lv);
    }
  }

  /** A root of another level prints alike at `lv` and `lv + 1`. */
  lemma PrintShift(t: Tree, lv: nat)
    requires Expr(t) && Prec(t) != lv
    ensures Print(t, lv) == Print(t, lv + 1)
  {
  }

  /** A run of level-`lv` operators prints as its leftmost operand
      followed by the `op operand` pairs, which start with an operator of
      level `lv`. */
  lemma {:induction false} RawSplit(t: Tree, lv: nat)
    requires Expr(t) && lv < 6 && Prec(t) == lv
    ensures Raw(t) == Print(Base(t, lv), lv + 1) + Rest(t, lv)
    ensures |Rest(t, lv)| > 0 && TokLevel(Rest(t, lv)[0].Type()) == lv
  {
    var l, o, r := t.left, [Plain(OpToken(t.data.op))], Print(t.right, lv + 1);
    assert Raw(t) == Print(l, lv) + o + r;
    assert Rest(t, lv) == Rest(l, lv) + o + r;
    if Prec(l) == lv {
      RawSplit(l, lv);
      Regroup(Print(Base(l, lv), lv + 1), Rest(l, lv), o, r);
    } else {
      PrintShift(l, lv);
      OpTokenLevel(t.data.op);
      Regroup(Print(l, lv + 1), [], o, r);
    }
  }

  lemma Regroup(a: seq<Token>, b: seq<Token>, o: seq<Token>, r: seq<Token>)
    requires |o| > 0
    ensures a + b + o + r == a + (b + o + r)
    ensures (b + o + r)[0] == if b == [] then o[0] else b[0]
  {
  }

  /** The token of a binary operation continues exactly its level, with
      that operation. */
  lemma OpTokenLevel(op: Operation)
    requires OpLevel(op) < 6
    ensures TokLevel(OpToken(op)) == OpLevel(op)
    ensures BinaryOp(OpLevel(op), OpToken(op)) == Some(op)
  {
  }

  /** Tokens `toks[i..]` start with `p`. */
  predicate At(toks: seq<Token>, i: nat, p: seq<Token>)
    decreases |p|
  {
    i + |p| <= |toks| && (p == [] || (toks[i] == p[0] && At(toks, i + 1, p[1..])))
  }

  lemma {:induction false} AtSplit(toks: seq<Token>, i: nat, a: seq<Token>, b: seq<Token>)
    requires At(toks, i, a + b)
    ensures At(toks, i, a) && At(toks, i + |a|, b)
    decreases |a|
  {
    if a != [] {
      assert (a + b)[1..] == a[1..] + b;
      AtSplit(toks, i + 1, a[1..], b);
    } else {
      assert a + b == b;
    }
  }

  /** Whether a token would continue a level from `lv` on. */
  predicate Continues(k: TokenType, lv: nat)
  {
    lv <= TokLevel(k) < 6
  }

  /** Parsing at level `lv` the tokens of `t` printed for that level,
      followed by a token that continues no level from `lv` on, gives `t`
      and stops at that token (`e`).  So every level associates to the
      left and binds as the ladder orders it. */
  lemma {:induction false} ParsePrint(toks: seq<Token>, i: nat, e: nat, t: Tree, lv: nat)
    requires Tokens(toks) && Expr(t) && lv <= 6
    requires At(toks, i, Print(t, lv)) && e == i + |Print(t, lv)| && e < |toks|
    requires !Continues(toks[e].Type(), lv)
    ensures Binary(toks, i, lv) == Parsed(t, e)
    decreases Size(t), Measure(t, lv), 2
  {
    if lv == 6 {
      ParsePrimary(toks, i, e, t);
    } else if Prec(t) != lv {
      ParseTighter(toks, i, e, t, lv);
    } else {
      ParseRun(toks, i, e, t, lv);
    }
  }

  function Measure(t: Tree, lv: nat): nat
    requires lv <= 6
  {
    if Prec(t) < lv then 106 - lv else Prec(t) - lv
  }

  /** Level 6: a leaf token, or an expression in parentheses. */
  lemma {:induction false} ParsePrimary(toks: seq<Token>, i: nat, e: nat, t: Tree)
    requires Tokens(toks) && Expr(t)
    requires At(toks, i, Print(t, 6)) && e == i + |Print(t, 6)| && e < |toks|
    ensures Binary(toks, i, 6) == Parsed(t, e)
    decreases Size(t), Measure(t, 6), 1
  {
    if Prec(t) < 6 {
      var raw := Raw(t);
      var c := i + 1 + |raw|;
      assert Print(t, 6) == [Plain(RoundOpen)] + (raw + [Plain(RoundClose)]);
      AtSplit(toks, i, [Plain(RoundOpen)], raw + [Plain(RoundClose)]);
      AtSplit(toks, i + 1, raw, [Plain(RoundClose)]);
      assert toks[i] == Plain(RoundOpen);
      assert toks[c] == Plain(RoundClose);
      ParsePrint(toks, i + 1, c, t, 0);
      PrimaryParen(toks, i, t, c);
    } else {
      assert toks[i] == LeafToken(t.data);
    }
  }

  /** `(` expression `)` at level 6. */
  lemma PrimaryParen(toks: seq<Token>, i: nat, t: Tree, c: nat)
    requires Tokens(toks) && i < c < |toks| - 1
    requires toks[i] == Plain(RoundOpen) && toks[c] == Plain(RoundClose)
    requires Binary(toks, i + 1, 0) == Parsed(t, c)
    ensures Binary(toks, i, 6) == Parsed(t, c + 1)
  {
  }

  /** One turn of the loop of level `lv`. */
  lemma ChainStep(toks: seq<Token>, lv: nat, acc: Tree, j: nat, op: Operation, operand: Parsed)
    requires Tokens(toks) && j < |toks| && lv < 6 && BinaryOp(lv, toks[j].Type()) == Some(op)
    requires j + 1 < |toks| && operand == Binary(toks, j + 1, lv + 1)
    ensures Chain(toks, lv, acc, j) == Chain(toks, lv, Node(Op(op), acc, operand.t), operand.next)
  {
  }

  /** The loop of level `lv` stops at a token that does not continue it. */
  lemma ChainStop(toks: seq<Token>, lv: nat, acc: Tree, j: nat)
    requires Tokens(toks) && j < |toks| && lv < 6 && !Continues(toks[j].Type(), lv)
    ensures Chain(toks, lv, acc, j) == Parsed(acc, j)
  {
    StopsAt(lv, toks[j].Type());
  }

  lemma StopsAt(lv: nat, k: TokenType)
    requires !Continues(k, lv)
    ensures BinaryOp(lv, k).None?
  {
  }

  /** A root of another level passes through level `lv` untouched. */
  lemma {:induction false} ParseTighter(toks: seq<Token>, i: nat, e: nat, t: Tree, lv: nat)
    requires Tokens(toks) && Expr(t) && lv < 6 && Prec(t) != lv
    requires At(toks, i, Print(t, lv)) && e == i + |Print(t, lv)| && e < |toks|
    requires !Continues(toks[e].Type(), lv)
    ensures Binary(toks, i, lv) == Parsed(t, e)
    decreases Size(t), Measure(t, lv), 1
  {
    PrintShift(t, lv);
    ParsePrint(toks, i, e, t, lv + 1);
    ChainStop(toks, lv, t, e);
    RunGlue(toks, i, lv, t, t, e, e);
  }

  /** A root of level `lv`: its leftmost operand one level tighter, then
      the loop over the `op operand` pairs. */
  lemma {:induction false} ParseRun(toks: seq<Token>, i: nat, e: nat, t: Tree, lv: nat)
    requires Tokens(toks) && Expr(t) && lv < 6 && Prec(t) == lv
    requires At(toks, i, Print(t, lv)) && e == i + |Print(t, lv)| && e < |toks|
    requires !Continues(toks[e].Type(), lv)
    ensures Binary(toks, i, lv) == Parsed(t, e)
    decreases Size(t), Measure(t, lv), 1
  {
    var b := Base(t, lv);
    var j := RunLayout(toks, i, e, t, lv);
    GraftBase(t, lv);
    ParsePrint(toks, i, j, b, lv + 1);
    ChainRest(toks, j, e, t, lv, b);
    ChainStop(toks, lv, t, e);
    RunGlue(toks, i, lv, t, b, j, e);
  }

  /** Where the leftmost operand of a run ends: the tokens of `t` at
      level `lv` are those of the operand, from `i` to `j`, and the `op
      operand` pairs, from `j` to `e`, which start with an operator of
      level `lv`. */
  lemma RunLayout(toks: seq<Token>, i: nat, e: nat, t: Tree, lv: nat) returns (j: nat)
    requires Expr(t) && lv < 6 && Prec(t) == lv
    requires At(toks, i, Print(t, lv)) && e == i + |Print(t, lv)| && e < |toks|
    ensures At(toks, i, Print(Base(t, lv), lv + 1)) && j == i + |Print(Base(t, lv), lv + 1)|
    ensures At(toks, j, Rest(t, lv)) && e == j + |Rest(t, lv)|
    ensures j < e && TokLevel(toks[j].Type()) == lv
  {
    var pb := Print(Base(t, lv), lv + 1);
    var rest := Rest(t, lv);
    RawSplit(t, lv);
    AtSplit(toks, i, pb, rest);
    j := i + |pb|;
    assert toks[j] == rest[0];
  }

  /** Binary at level `lv` is the loop of level `lv` started on the
      operand of level `lv + 1`. */
  lemma RunGlue(toks: seq<Token>, i: nat, lv: nat, t: Tree, b: Tree, j: nat, e: nat)
    requires Tokens(toks) && lv < 6 && i < |toks| && e < |toks|
    requires Binary(toks, i, lv + 1) == Parsed(b, j)
    requires Chain(toks, lv, b, j) == Chain(toks, lv, t, e)
    requires Chain(toks, lv, t, e) == Parsed(t, e)
    ensures Binary(toks, i, lv) == Parsed(t, e)
  {
  }

  /** The loop of level `lv` over the `op operand` pairs of `t`'s run,
      from `j` to `e`, builds `t` around whatever operand it starts from. */
  lemma {:induction false} ChainRest(toks: seq<Token>, j: nat, e: nat, t: Tree, lv: nat, acc: Tree)
    requires Tokens(toks) && Expr(t) && lv < 6
    requires At(toks, j, Rest(t, lv)) && e == j + |Rest(t, lv)| && e < |toks|
    requires !Continues(toks[e].Type(), lv + 1)
    ensures Chain(toks, lv, acc, j) == Chain(toks, lv, Graft(t, lv, acc), e)
    decreases Size(t), 0, 0
  {
    if Prec(t) == lv {
      var j1 := PairLayout(toks, j, e, t, lv);
      ChainRest(toks, j, j1, t.left, lv, acc);
      PairStep(toks, lv, Graft(t.left, lv, acc), j1, e, t.right, t.data.op);
    }
  }

  /** One `op operand` pair of level `lv`, from `j` to `e`: the loop
      builds the node of `op` over what it has and the operand. */
  lemma {:induction false} PairStep(toks: seq<Token>, lv: nat, acc: Tree, j: nat, e: nat, r: Tree, op: Operation)
    requires Tokens(toks) && Expr(r) && lv < 6 && j < |toks|
    requires BinaryOp(lv, toks[j].Type()) == Some(op)
    requires At(toks, j + 1, Print(r, lv + 1)) && e == j + 1 + |Print(r, lv + 1)| && e < |toks|
    requires !Continues(toks[e].Type(), lv + 1)
    ensures Chain(toks, lv, acc, j) == Chain(toks, lv, Node(Op(op), acc, r), e)
    decreases Size(r), 200, 0
  {
    ParsePrint(toks, j + 1, e, r, lv + 1);
    ChainStep(toks, lv, acc, j, op, Parsed(r, e));
  }

  /** The pairs of a run of level `lv`: those of the left operand's run,
      from `j` to `j1`, then the root's operator at `j1` and its right
      operand up to `e`. */
  lemma PairLayout(toks: seq<Token>, j: nat, e: nat, t: Tree, lv: nat) returns (j1: nat)
    requires Expr(t) && lv < 6 && Prec(t) == lv
    requires At(toks, j, Rest(t, lv)) && e == j + |Rest(t, lv)| && e < |toks|
    ensures j1 == j + |Rest(t.left, lv)| && At(toks, j, Rest(t.left, lv))
    ensures j1 + 1 < |toks| && BinaryOp(lv, toks[j1].Type()) == Some(t.data.op)
    ensures At(toks, j1 + 1, Print(t.right, lv + 1)) && e == j1 + 1 + |Print(t.right, lv + 1)|
  {
    var op := t.data.op;
    var pr := Print(t.right, lv + 1);
    var rl := Rest(t.left, lv);
    j1 := j + |rl|;
    assert Rest(t, lv) == rl + ([Plain(OpToken(op))] + pr);
    AtSplit(toks, j, rl, [Plain(OpToken(op))] + pr);
    AtSplit(toks, j1, [Plain(OpToken(op))], pr);
    OpTokenLevel(op);
    assert toks[j1] == Plain(OpToken(op));
  }

  /** `toks[i..]` starts with `p` when that slice is `p`. */
  lemma {:induction false} AtSlice(toks: seq<Token>, i: nat, p: seq<Token>)
    requires i + |p| <= |toks| && toks[i..i + |p|] == p
    ensures At(toks, i, p)
    decreases |p|
  {
    if p != [] {
      assert toks[i + 1..i + 1 + |p[1..]|] == p[1..];
      AtSlice(toks, i + 1, p[1..]);
    }
  }

  /** An expression printed at the loosest level and followed by a token
      that is no binary operator parses back to itself, and the parse
      stops at that token. */
  lemma ExpressionOfPrint(t: Tree, tail: seq<Token>)
    requires Expr(t) && Tokens(tail) && TokLevel(tail[0].Type()) == 6
    ensures Tokens(Print(t, 0) + tail)
    ensures Expression(Print(t, 0) + tail, 0) == Parsed(t, |Print(t, 0)|)
  {
    var p := Print(t, 0);
    var toks := p + tail;
    assert toks[0..|p|] == p;
    AtSlice(toks, 0, p);
    assert toks[|p|] == tail[0];
    ParsePrint(toks, 0, |p|, t, 0);
  }

  /** A leaf is an expression of level 6 and prints as its token. */
  lemma LeafPrint(d: Data, lv: nat)
    requires LeafData(d) && lv <= 6
    ensures Expr(Leaf(d)) && Prec(Leaf(d)) == 6 && Print(Leaf(d), lv) == [LeafToken(d)]
  {
  }

  /** An operator node over two expressions is an expression of its
      operator's level, printed around its operator's token. */
  lemma NodeRaw(op: Operation, l: Tree, r: Tree)
    requires Expr(l) && Expr(r) && OpLevel(op) < 6
    ensures Expr(Node(Op(op), l, r)) && Prec(Node(Op(op), l, r)) == OpLevel(op)
    ensures Raw(Node(Op(op), l, r)) == Print(l, OpLevel(op)) + [Plain(OpToken(op))] + Print(r, OpLevel(op) + 1)
  {
  }

  /** `a op1 b op2 c` with both operators on one level groups to the left:
      `(a op1 b) op2 c`. */
  lemma LeftAssociative(a: Data, b: Data, c: Data, op1: Operation, op2: Operation, tail: seq<Token>)
    requires LeafData(a) && LeafData(b) && LeafData(c)
    requires OpLevel(op1) == OpLevel(op2) < 6
    requires Tokens(tail) && TokLevel(tail[0].Type()) == 6
    ensures Tokens([LeafToken(a), Plain(OpToken(op1)), LeafToken(b), Plain(OpToken(op2)), LeafToken(c)] + tail)
    ensures Expression([LeafToken(a), Plain(OpToken(op1)), LeafToken(b), Plain(OpToken(op2)), LeafToken(c)] + tail, 0)
            == Parsed(Node(Op(op2), Node(Op(op1), Leaf(a), Leaf(b)), Leaf(c)), 5)
  {
    var lv := OpLevel(op1);
    LeafPrint(a, lv);
    LeafPrint(b, lv + 1);
    LeafPrint(c, lv + 1);
    var ab := Node(Op(op1), Leaf(a), Leaf(b));
    NodeRaw(op1, Leaf(a), Leaf(b));
    assert Print(ab, lv) == [LeafToken(a), Plain(OpToken(op1)), LeafToken(b)];
    var t := Node(Op(op2), ab, Leaf(c));
    NodeRaw(op2, ab, Leaf(c));
    assert Print(t, 0) == Raw(t);
    assert Print(t, 0) == [LeafToken(a), Plain(OpToken(op1)), LeafToken(b), Plain(OpToken(op2)), LeafToken(c)];
    ExpressionOfPrint(t, tail);
  }

  /** Of two operators of different levels the tighter one takes the
      operands next to it, whichever comes first:
      `a loose b tight c` is `a loose (b tight c)` and `a tight b loose c`
      is `(a tight b) loose c`. */
  lemma TighterBindsFirst(a: Data, b: Data, c: Data, loose: Operation, tight: Operation, tail: seq<Token>)
    requires LeafData(a) && LeafData(b) && LeafData(c)
    requires OpLevel(loose) < OpLevel(tight) < 6
    requires Tokens(tail) && TokLevel(tail[0].Type()) == 6
    ensures Tokens([LeafToken(a), Plain(OpToken(loose)), LeafToken(b), Plain(OpToken(tight)), LeafToken(c)] + tail)
    ensures Expression([LeafToken(a), Plain(OpToken(loose)), LeafToken(b), Plain(OpToken(tight)), LeafToken(c)] + tail, 0)
            == Parsed(Node(Op(loose), Leaf(a), Node(Op(tight), Leaf(b), Leaf(c))), 5)
    ensures Expression([LeafToken(a), Plain(OpToken(tight)), LeafToken(b), Plain(OpToken(loose)), LeafToken(c)] + tail, 0)
            == Parsed(Node(Op(loose), Node(Op(tight), Leaf(a), Leaf(b)), Leaf(c)), 5)
  {
    var lo, hi := OpLevel(loose), OpLevel(tight);
    LeafPrint(a, lo);
    LeafPrint(b, hi);
    LeafPrint(c, hi + 1);
    var bc := Node(Op(tight), Leaf(b), Leaf(c));
    NodeRaw(tight, Leaf(b), Leaf(c));
    var t1 := Node(Op(loose), Leaf(a), bc);
    NodeRaw(loose, Leaf(a), bc);
    assert Print(t1, 0) == [LeafToken(a), Plain(OpToken(loose)), LeafToken(b), Plain(OpToken(tight)), LeafToken(c)];
    ExpressionOfPrint(t1, tail);
    LeafPrint(a, hi);
    LeafPrint(b, hi + 1);
    LeafPrint(c, lo + 1);
    var ab := Node(Op(tight), Leaf(a), Leaf(b));
    NodeRaw(tight, Leaf(a), Leaf(b));
    var t2 := Node(Op(loose), ab, Leaf(c));
    NodeRaw(loose, ab, Leaf(c));
    assert Print(t2, 0) == [LeafToken(a), Plain(OpToken(tight)), LeafToken(b), Plain(OpToken(loose)), LeafToken(c)];
    ExpressionOfPrint(t2, tail);
  }

  // ---------------------------------------------------------------------
  // Statements: shapes and order
  // ---------------------------------------------------------------------

  /** The node reached from `t` by following `right` `k` times. */
  function Walk(t: Tree, k: nat): Tree
  {
    if k == 0 || t == Nil then t else Walk(t.right, k - 1)
  }

  /** After `k` steps along a block's chain the rest of the chain holds
      the statements from the `k`-th on: the `k`-th SENTINEL holds the
      `k`-th statement in `left`, and the one after the last statement
      holds NULL in `left` and the tail in `right`. */
  lemma {:induction false} SentinelChainWalk(ss: seq<Tree>, tail: Tree, k: nat)
    requires k <= |ss|
    ensures Walk(SentinelChain(ss, tail), k) == SentinelChain(ss[k..], tail)
    ensures k < |ss| ==> Walk(SentinelChain(ss, tail), k).left == ss[k]
    ensures k == |ss| ==> Walk(SentinelChain(ss, tail), k) == Node(Op(Sentinel), Nil, tail)
    decreases k
  {
    if k > 0 {
      SentinelChainWalk(ss[1..], tail, k - 1);
      assert ss[1..][k - 1..] == ss[k..];
    }
  }

  /** A block's chain has exactly one SENTINEL more than the block has
      statements: the walk falls off the end one step after the empty one. */
  lemma SentinelCount(ss: seq<Tree>)
    ensures Walk(SentinelChain(ss, Nil), |ss|) == Node(Op(Sentinel), Nil, Nil)
    ensures Walk(SentinelChain(ss, Nil), |ss| + 1) == Nil
  {
    SentinelChainWalk(ss, Nil, |ss|);
    WalkStep(SentinelChain(ss, Nil), |ss|);
  }

  lemma {:induction false} WalkStep(t: Tree, k: nat)
    requires Walk(t, k) != Nil
    ensures Walk(t, k + 1) == Walk(t, k).right
    decreases k
  {
    if k > 0 {
      WalkStep(t.right, k - 1);
    }
  }

  /** The `end_block` store of `GetIfStatement` on a parsed block puts the
      else part in the `right` of the block's last SENTINEL. */
  lemma {:induction false} SetLastChain(ss: seq<Tree>, x: Tree)
    ensures SetLast(SentinelChain(ss, Nil), x) == SentinelChain(ss, x)
    decreases |ss|
  {
    if ss != [] {
      SetLastChain(ss[1..], x);
    }
  }

  /** A keyword-led statement parser gives NULL, without moving the
      cursor, exactly when the leading token is not its keyword. */
  lemma KeywordLed(toks: seq<Token>, i: nat)
    requires Tokens(toks) && i < |toks|
    ensures VarDec(toks, i) == Done(Nil, i) <==> DeclType(toks[i].Type()).None?
    ensures Assign(toks, i) == Done(Nil, i) <==> !TargetAt(toks, i)
    ensures If(toks, i) == Done(Nil, i) <==> toks[i].Type() != StatementIf
    ensures While(toks, i) == Done(Nil, i) <==> toks[i].Type() != StatementWhile
    ensures Return(toks, i) == Done(Nil, i) <==> toks[i].Type() != StatementReturn
    ensures Block(toks, i) == Done(Nil, i) <==> toks[i].Type() != CurlyOpen
  {
  }

  /** Every entry of the table but the last gives NULL only at the cursor
      it was called with. */
  lemma NullKeepsCursor(toks: seq<Token>, k: nat, i: nat)
    requires Tokens(toks) && i < |toks| && k < 6
    requires StatementParser(toks, k, i).Done? && StatementParser(toks, k, i).t == Nil
    ensures StatementParser(toks, k, i).next == i
  {
    if k == 2 {
      assert If(toks, i) == Done(Nil, i);
    }
  }

  /** `GetStatement` takes the first entry of the table, in the order
      VarDec, Assignment, If, While, Return, Block, ExprStatement, that
      does not give NULL; ExprStatement's result is taken as it is. */
  lemma StatementPicksFirst(toks: seq<Token>, i: nat, k: nat)
    requires Tokens(toks) && i < |toks| && k < 7
    requires forall q :: 0 <= q < k ==> StatementParser(toks, q, i) == Done(Nil, i)
    requires k == 6 || StatementParser(toks, k, i).Abort? || StatementParser(toks, k, i).t != Nil
    ensures Statement(toks, i) == StatementParser(toks, k, i)
  {
    TrySkip(toks, i, 0, k);
  }

  lemma {:induction false} TrySkip(toks: seq<Token>, i: nat, q: nat, k: nat)
    requires Tokens(toks) && i < |toks| && q <= k < 7
    requires forall p :: q <= p < k ==> StatementParser(toks, p, i) == Done(Nil, i)
    requires k == 6 || StatementParser(toks, k, i).Abort? || StatementParser(toks, k, i).t != Nil
    ensures TryFrom(toks, q, i) == StatementParser(toks, k, i)
    decreases k - q
  {
    if q < k {
      TrySkip(toks, i, q + 1, k);
    }
  }

  /** A token that starts no operand and continues no level: no
      identifier, number, boolean, bracket or binary operator. */
  predicate StartsNothing(tok: Token)
  {
    !tok.Ident? && !tok.IntConst? && !tok.DoubleConst?
    && match tok.Type()
       case BoolTrue => false
       case BoolFalse => false
       case RoundOpen => false
       case RoundClose => false
       case _ => TokLevel(tok.Type()) == 6
  }

  /** At such a token every level of the ladder gives NULL and leaves
      the cursor where it was. */
  lemma {:induction false} NoOperand(toks: seq<Token>, i: nat, lv: nat)
    requires Tokens(toks) && i < |toks| && lv <= 6 && StartsNothing(toks[i])
    ensures Binary(toks, i, lv) == Parsed(Nil, i)
    decreases 6 - lv
  {
    if lv < 6 {
      NoOperand(toks, i, lv + 1);
      StopsAt(lv, toks[i].Type());
    }
  }

  /** At a `}` no statement parser applies, so `GetStatement` gives NULL
      at the cursor. */
  lemma NoStatementAtClose(toks: seq<Token>, i: nat)
    requires Tokens(toks) && i < |toks| && toks[i].Type() == CurlyClose
    ensures Statement(toks, i) == Done(Nil, i)
  {
    KeywordLed(toks, i);
    NoOperand(toks, i, 0);
    StatementPicksFirst(toks, i, 6);
  }

  /** `{}` is a block of one SENTINEL with both children NULL. */
  lemma EmptyBlock(toks: seq<Token>, i: nat)
    requires Tokens(toks) && i + 1 < |toks|
    requires toks[i].Type() == CurlyOpen && toks[i + 1].Type() == CurlyClose
    ensures Block(toks, i) == Done(Node(Op(Sentinel), Nil, Nil), i + 2)
  {
    NoStatementAtClose(toks, i + 1);
  }

  /** `T x = e;`: DECL(T) whose right child is ASSIGNMENT(VAR x, e). */
  lemma VarDecInit(toks: seq<Token>, i: nat, t: Tree, e: nat)
    requires Tokens(toks) && i + 3 < |toks| && Expr(t)
    requires DeclType(toks[i].Type()).Some? && toks[i + 1].Ident?
    requires toks[i + 2].Type() == TokenType.Assignment
    requires At(toks, i + 3, Print(t, 0)) && e == i + 3 + |Print(t, 0)| && e < |toks|
    requires toks[e].Type() == Semicolon
    ensures VarDec(toks, i)
            == Done(Node(Decl(DeclType(toks[i].Type()).value), Nil,
                         Node(Op(Operation.Assignment), Leaf(Var(toks[i + 1].name)), t)), e + 1)
  {
    ParsePrint(toks, i + 3, e, t, 0);
  }

  /** `T x;`: DECL(T) whose right child is VAR x. */
  lemma VarDecPlain(toks: seq<Token>, i: nat)
    requires Tokens(toks) && i + 2 < |toks|
    requires DeclType(toks[i].Type()).Some? && toks[i + 1].Ident? && toks[i + 2].Type() == Semicolon
    ensures VarDec(toks, i) == Done(Node(Decl(DeclType(toks[i].Type()).value), Nil, Leaf(Var(toks[i + 1].name))), i + 3)
  {
  }

  /** The tokens `x1 = x2 = … xn =`. */
  function Targets(xs: seq<string>): (p: seq<Token>)
    ensures |p| == 2 * |xs|
  {
    if xs == [] then [] else [Ident(xs[0]), Plain(TokenType.Assignment)] + Targets(xs[1..])
  }

  /** The targets nested to the left under ASSIGNMENT nodes, starting
      from `acc`. */
  function Nest(acc: Tree, xs: seq<string>): Tree
    decreases |xs|
  {
    if xs == [] then acc else Nest(Node(Op(Operation.Assignment), acc, Leaf(Var(xs[0]))), xs[1..])
  }

  /** No token of a printed expression is `=`. */
  predicate NoAssignToken(p: seq<Token>)
  {
    forall k :: 0 <= k < |p| ==> p[k].Type() != TokenType.Assignment
  }

  lemma {:induction false} PrintNoAssign(t: Tree, lv: nat)
    requires Expr(t)
    ensures NoAssignToken(Print(t, lv)) && NoAssignToken(Raw(t))
    decreases t
  {
    if Prec(t) < 6 {
      var op := t.data.op;
      PrintNoAssign(t.left, Prec(t));
      PrintNoAssign(t.right, Prec(t) + 1);
      OpTokenLevel(op);
      NoAssignConcat(Print(t.left, Prec(t)), [Plain(OpToken(op))]);
      NoAssignConcat(Print(t.left, Prec(t)) + [Plain(OpToken(op))], Print(t.right, Prec(t) + 1));
    }
    if Prec(t) < lv {
      NoAssignConcat([Plain(RoundOpen)], Raw(t));
      NoAssignConcat([Plain(RoundOpen)] + Raw(t), [Plain(RoundClose)]);
    }
  }

  lemma NoAssignConcat(a: seq<Token>, b: seq<Token>)
    requires NoAssignToken(a) && NoAssignToken(b)
    ensures NoAssignToken(a + b)
  {
    forall k | 0 <= k < |a + b| ensures (a + b)[k].Type() != TokenType.Assignment {
      if k >= |a| {
        assert (a + b)[k] == b[k - |a|];
      }
    }
  }

  /** `x1 = … = xn = e;`: the targets nest to the left and `e` is the
      outermost right child. */
  lemma AssignChain(toks: seq<Token>, i: nat, xs: seq<string>, t: Tree, e: nat)
    requires Tokens(toks) && |xs| >= 1 && Expr(t)
    requires At(toks, i, Targets(xs) + Print(t, 0)) && e == i + 2 * |xs| + |Print(t, 0)| && e < |toks|
    requires toks[e].Type() == Semicolon
    ensures Assign(toks, i) == Done(Node(Op(Operation.Assignment), Nest(Leaf(Var(xs[0])), xs[1..]), t), e + 1)
  {
    TargetsLayout(toks, i, xs, Print(t, 0));
    AssignTail(toks, i + 1, Leaf(Var(xs[0])), xs[1..], t, e);
  }

  /** The first target of `x1 = … xn =` followed by `p`. */
  lemma TargetsLayout(toks: seq<Token>, j: nat, xs: seq<string>, p: seq<Token>)
    requires xs != [] && At(toks, j, Targets(xs) + p)
    ensures j + 1 < |toks| && toks[j] == Ident(xs[0]) && toks[j + 1] == Plain(TokenType.Assignment)
    ensures At(toks, j + 2, Targets(xs[1..]) + p)
  {
    assert Targets(xs) + p == [Ident(xs[0]), Plain(TokenType.Assignment)] + (Targets(xs[1..]) + p);
    AtSplit(toks, j, [Ident(xs[0]), Plain(TokenType.Assignment)], Targets(xs[1..]) + p);
  }

  /** A printed expression followed by `;` does not start with a target. */
  lemma ExprNotTarget(toks: seq<Token>, j: nat, t: Tree, e: nat)
    requires Tokens(toks) && Expr(t)
    requires At(toks, j, Print(t, 0)) && e == j + |Print(t, 0)| && e < |toks|
    requires toks[e].Type() == Semicolon
    ensures !TargetAt(toks, j)
  {
    var p := Print(t, 0);
    PrintNoAssign(t, 0);
    if |p| > 1 {
      assert p == [p[0], p[1]] + p[2..];
      AtSplit(toks, j, [p[0], p[1]], p[2..]);
      assert toks[j + 1] == p[1];
    } else {
      assert p == [p[0]] + [];
      AtSplit(toks, j, [p[0]], []);
    }
  }

  /** The loop of `GetAssignment` at an `=` followed by `x1 = … xn = e;`. */
  lemma {:induction false} AssignTail(toks: seq<Token>, j: nat, acc: Tree, xs: seq<string>, t: Tree, e: nat)
    requires Tokens(toks) && j < |toks| && toks[j].Type() == TokenType.Assignment && Expr(t)
    requires At(toks, j + 1, Targets(xs) + Print(t, 0)) && e == j + 1 + 2 * |xs| + |Print(t, 0)| && e < |toks|
    requires toks[e].Type() == Semicolon
    ensures AssignLoop(toks, acc, j) == Done(Node(Op(Operation.Assignment), Nest(acc, xs), t), e + 1)
    decreases |xs|
  {
    if xs == [] {
      assert Targets(xs) + Print(t, 0) == Print(t, 0);
      ExprNotTarget(toks, j + 1, t, e);
      ParsePrint(toks, j + 1, e, t, 0);
    } else {
      TargetsLayout(toks, j + 1, xs, Print(t, 0));
      AssignTail(toks, j + 2, Node(Op(Operation.Assignment), acc, Leaf(Var(xs[0]))), xs[1..], t, e);
    }
  }

  /** The top level accepts exactly one if-statement followed by END, and
      its tree is the program's. */
  lemma TopLevel(toks: seq<Token>)
    requires Tokens(toks)
    ensures SyntaxAnalysis(toks).Some? <==>
              If(toks, 0).Done? && If(toks, 0).t != Nil && toks[If(toks, 0).next].Type() == End
    ensures SyntaxAnalysis(toks).Some? ==> SyntaxAnalysis(toks).value == If(toks, 0).t
    ensures toks[0].Type() != StatementIf ==> SyntaxAnalysis(toks).None?
  {
  }

  /** The lexer's output is a token list the parser accepts as input. */
  lemma LexedTokens(s: string)
    requires Lex(s).Some?
    ensures Tokens(Lex(s).value.0)
  {
    LexEndsWithOneEnd(s);
  }
}
