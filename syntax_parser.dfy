/** The parser of src/front_end/syntax.c as the code runs it: every `Get*`
    function advances one shared cursor (`*idx`) over the token list and
    builds its node.  Each method is proved to return what the matching
    function of the `Syntax` module describes and to leave the cursor where
    that function says parsing stops; `Abort` stands for the `assert(0)`
    error paths, after which the program does not go on. */
module SyntaxParser {
  import opened Common
  import opened Ast
  import opened Lexer
  import opened Syntax

  class Parser {
    const toks: seq<Token>
    var idx: nat

    ghost predicate Valid()
      reads this
    {
      Tokens(toks) && idx < |toks|
    }

    /** `idx = ListFront(tokens)`. */
    constructor (tokens: seq<Token>)
      requires Tokens(tokens)
      ensures toks == tokens && idx == 0 && Valid()
    {
      toks := tokens;
      idx := 0;
    }

    /** One level of the ladder (`GetLogicalOr` … `GetFactor` for levels
        0 to 5, `GetPrimary` for level 6): the first operand, then the
        `while` loop over the level's operators. */
    method GetBinary(lv: nat) returns (t: Tree)
      requires Valid() && lv <= 6
      modifies this
      ensures Valid() && Binary(toks, old(idx), lv) == Parsed(t, idx)
      decreases |toks| - idx, 7 - lv, 1
    {
      if lv == 6 {
        t := GetPrimary();
        return;
      }
      t := GetBinary(lv + 1);
      t := GetChain(lv, t, Chain(toks, lv, t, idx));
    }

    /** The `while` loop of one level: `op operand` pairs folded to the
        left onto `acc` while the token continues the level. */
    method GetChain(lv: nat, acc: Tree, ghost target: Parsed) returns (t: Tree)
      requires Valid() && lv < 6 && Chain(toks, lv, acc, idx) == target
      modifies this
      ensures Valid() && target == Parsed(t, idx)
      decreases |toks| - idx, 7 - lv, 0
    {
      t := acc;
      var op := BinaryOp(lv, toks[idx].Type());
      while op.Some?
        invariant Valid()
        invariant op == BinaryOp(lv, toks[idx].Type())
        invariant Chain(toks, lv, t, idx) == target
        decreases |toks| - idx
      {
        ghost var j, prev := idx, t;
        assert toks[j].Type() != End;
        idx := idx + 1;
        ghost var p := Binary(toks, idx, lv + 1);
        ChainStep(toks, lv, prev, j, op.value, p);
        var operand := GetBinary(lv + 1);
        t := Node(Op(op.value), t, operand);
        op := BinaryOp(lv, toks[idx].Type());
      }
    }

    /** `GetPrimary`. */
    method GetPrimary() returns (t: Tree)
      requires Valid()
      modifies this
      ensures Valid() && Primary(toks, old(idx)) == Parsed(t, idx)
      decreases |toks| - idx, 0, 0
    {
      var tok := toks[idx];
      if tok.Ident? {
        idx := idx + 1;
        return Leaf(Var(tok.name));
      }
      if tok.IntConst? {
        idx := idx + 1;
        return Leaf(Num(ConstInt, tok.value));
      }
      if tok.DoubleConst? {
        idx := idx + 1;
        return Leaf(Real(tok.lexeme));
      }
      if tok.Type() == BoolTrue {
        idx := idx + 1;
        return Leaf(Num(ConstInt, 1));
      }
      if tok.Type() == BoolFalse {
        idx := idx + 1;
        return Leaf(Num(ConstInt, 0));
      }
      t := Nil;
      if tok.Type() == RoundOpen {
        idx := idx + 1;
        t := GetBinary(0);
      }
      if toks[idx].Type() == RoundClose {
        idx := idx + 1;
      }
    }

    /** `GetExpression`. */
    method GetExpression() returns (t: Tree)
      requires Valid()
      modifies this
      ensures Valid() && Expression(toks, old(idx)) == Parsed(t, idx)
    {
      t := GetBinary(0);
    }

    /** `GetStatement`: the `for` loop over the `statements[]` table. */
    method GetStatement() returns (r: Outcome)
      requires Valid()
      modifies this
      ensures r == Statement(toks, old(idx)) && (r.Done? ==> Valid() && idx == r.next)
      decreases |toks| - idx, 3, 8
    {
      var k := 0;
      while true
        invariant k < 7 && Valid() && old(idx) <= idx
        invariant TryFrom(toks, k, idx) == Statement(toks, old(idx))
        decreases 7 - k
      {
        r := RunEntry(k);
        if r.Abort? || r.t != Nil || k == 6 {
          return;
        }
        k := k + 1;
      }
    }

    /** `statements[k](tokens, idx)`. */
    method RunEntry(k: nat) returns (r: Outcome)
      requires Valid() && k < 7
      modifies this
      ensures r == StatementParser(toks, k, old(idx)) && (r.Done? ==> Valid() && idx == r.next)
      decreases |toks| - idx, 2, 0
    {
      if k == 0 {
        r := GetVarDec();
      } else if k == 1 {
        r := GetAssignment();
      } else if k == 2 {
        r := GetIf();
      } else if k == 3 {
        r := GetWhile();
      } else if k == 4 {
        r := GetReturn();
      } else if k == 5 {
        r := GetBlock();
      } else {
        r := GetExprStatement();
      }
    }

    /** `GetIfStatement`, with the `end_block` store done by `SetLast`. */
    method GetIf() returns (r: Outcome)
      requires Valid()
      modifies this
      ensures r == Syntax.If(toks, old(idx)) && (r.Done? ==> Valid() && idx == r.next)
      decreases |toks| - idx, 1, 0
    {
      if toks[idx].Type() != StatementIf {
        return Done(Nil, idx);
      }
      idx := idx + 1;
      var c := GetCondition();
      if c.None? {
        return Abort;
      }
      var cond := c.value;
      var block := GetBlock();
      if block.Abort? || block.t == Nil {
        return Abort;
      }
      r := GetElse(cond, block.t);
    }

    /** `(` condition `)`. */
    method GetCondition() returns (r: Option<Tree>)
      requires Valid()
      modifies this
      ensures r.Some? <==> Condition(toks, old(idx)).Some?
      ensures r.Some? ==> Valid() && (r.value, idx) == Condition(toks, old(idx)).value
    {
      if toks[idx].Type() != RoundOpen {
        return None;
      }
      idx := idx + 1;
      var cond := GetBinary(0);
      if cond == Nil || toks[idx].Type() != RoundClose {
        return None;
      }
      idx := idx + 1;
      return Some(cond);
    }

    /** The else part of `GetIfStatement`. */
    method GetElse(cond: Tree, block: Tree) returns (r: Outcome)
      requires Valid()
      modifies this
      ensures r == ElsePart(toks, cond, block, old(idx)) && (r.Done? ==> Valid() && idx == r.next)
      decreases |toks| - idx, 1, 1
    {
      if toks[idx].Type() != StatementElse {
        return Done(Node(Op(Operation.If), cond, block), idx);
      }
      idx := idx + 1;
      if toks[idx].Type() == StatementIf {
        var next := GetIf();
        if next.Abort? {
          return Abort;
        }
        return Done(Node(Op(Operation.If), cond, SetLast(block, next.t)), idx);
      }
      var elseBlock := GetBlock();
      if elseBlock.Abort? || elseBlock.t == Nil {
        return Abort;
      }
      return Done(Node(Op(Operation.If), cond, SetLast(block, Node(Op(Else), Nil, elseBlock.t))), idx);
    }

    /** `GetWhileStatement`. */
    method GetWhile() returns (r: Outcome)
      requires Valid()
      modifies this
      ensures r == Syntax.While(toks, old(idx)) && (r.Done? ==> Valid() && idx == r.next)
      decreases |toks| - idx, 1, 0
    {
      if toks[idx].Type() != StatementWhile {
        return Done(Nil, idx);
      }
      idx := idx + 1;
      var c := GetCondition();
      if c.None? {
        return Abort;
      }
      var cond := c.value;
      var block := GetBlock();
      if block.Abort? || block.t == Nil {
        return Abort;
      }
      return Done(Node(Op(Operation.While), cond, block.t), idx);
    }

    /** `GetReturnStatement`. */
    method GetReturn() returns (r: Outcome)
      requires Valid()
      modifies this
      ensures r == Syntax.Return(toks, old(idx)) && (r.Done? ==> Valid() && idx == r.next)
      decreases |toks| - idx, 1, 0
    {
      if toks[idx].Type() != StatementReturn {
        return Done(Nil, idx);
      }
      idx := idx + 1;
      var e := GetExprStatement();
      if e.Abort? || e.t == Nil {
        return Abort;
      }
      return Done(Node(Op(Operation.Return), Nil, e.t), idx);
    }

    /** `GetExprStatement`. */
    method GetExprStatement() returns (r: Outcome)
      requires Valid()
      modifies this
      ensures r == ExprStatement(toks, old(idx)) && (r.Done? ==> Valid() && idx == r.next)
      decreases |toks| - idx, 1, 0
    {
      var e := GetBinary(0);
      if e == Nil {
        return Done(Nil, idx);
      }
      if toks[idx].Type() != Semicolon {
        return Abort;
      }
      idx := idx + 1;
      return Done(e, idx);
    }

    /** `GetBlock`: the loop stores each statement in the current
        SENTINEL's `left` until `GetStatement` gives NULL. */
    method GetBlock() returns (r: Outcome)
      requires Valid()
      modifies this
      ensures r == Block(toks, old(idx)) && (r.Done? ==> Valid() && idx == r.next)
      decreases |toks| - idx, 1, 0
    {
      if toks[idx].Type() != CurlyOpen {
        return Done(Nil, idx);
      }
      idx := idx + 1;
      ghost var start := idx;
      var ss: seq<Tree> := [];
      PrefixedNone(Statements(toks, idx));
      while true
        invariant Valid() && start <= idx
        invariant Statements(toks, start) == Prefixed(ss, Statements(toks, idx))
        decreases |toks| - idx
      {
        var s := GetStatement();
        if s.Abort? {
          return Abort;
        }
        if s.t == Nil {
          break;
        }
        PrefixedStep(ss, s.t, Statements(toks, idx));
        ss := ss + [s.t];
      }
      assert ss + [] == ss;
      if toks[idx].Type() != CurlyClose {
        return Abort;
      }
      idx := idx + 1;
      return Done(SentinelChain(ss, Nil), idx);
    }

    /** `GetVarDec`. */
    method GetVarDec() returns (r: Outcome)
      requires Valid()
      modifies this
      ensures r == VarDec(toks, old(idx)) && (r.Done? ==> Valid() && idx == r.next)
      decreases |toks| - idx, 1, 0
    {
      var ct := DeclType(toks[idx].Type());
      if ct.None? {
        return Done(Nil, idx);
      }
      idx := idx + 1;
      if !toks[idx].Ident? {
        return Abort;
      }
      var x := Leaf(Var(toks[idx].name));
      idx := idx + 1;
      var k := toks[idx].Type();
      if k == TokenType.Assignment {
        idx := idx + 1;
        var e := GetBinary(0);
        if e == Nil || toks[idx].Type() != Semicolon {
          return Abort;
        }
        idx := idx + 1;
        return Done(Node(Decl(ct.value), Nil, Node(Op(Operation.Assignment), x, e)), idx);
      } else if k == Semicolon {
        idx := idx + 1;
        return Done(Node(Decl(ct.value), Nil, x), idx);
      }
      return Abort;
    }

    /** `GetAssignment`: the `while (1)` loop consumes an `=`, then either
        one more target or the final expression. */
    method GetAssignment() returns (r: Outcome)
      requires Valid()
      modifies this
      ensures r == Assign(toks, old(idx)) && (r.Done? ==> Valid() && idx == r.next)
      decreases |toks| - idx, 1, 0
    {
      if !TargetAt(toks, idx) {
        return Done(Nil, idx);
      }
      var acc := Leaf(Var(toks[idx].name));
      idx := idx + 1;
      while true
        invariant Valid() && toks[idx].Type() == TokenType.Assignment
        invariant AssignLoop(toks, acc, idx) == Assign(toks, old(idx))
        decreases |toks| - idx
      {
        idx := idx + 1;
        if TargetAt(toks, idx) {
          acc := Node(Op(Operation.Assignment), acc, Leaf(Var(toks[idx].name)));
          idx := idx + 1;
        } else {
          var e := GetBinary(0);
          acc := Node(Op(Operation.Assignment), acc, e);
          if toks[idx].Type() != Semicolon {
            return Abort;
          }
          idx := idx + 1;
          return Done(acc, idx);
        }
      }
    }

    /** `GetG`: one if-statement, then END. */
    method GetG() returns (r: Option<Tree>)
      requires Valid() && idx == 0
      modifies this
      ensures r == Program(toks)
    {
      var t := GetIf();
      if t.Abort? {
        return None;
      }
      if toks[idx].Type() == End {
        return Some(t.t);
      }
      return Some(Nil);
    }
  }

  /** `SyntaxAnalysis`: the parse from the front of the list; a NULL root
      crashes on the store through it, like an abort. */
  method Parse(tokens: seq<Token>) returns (r: Option<Tree>)
    requires Tokens(tokens)
    ensures r == SyntaxAnalysis(tokens)
  {
    var parser := new Parser(tokens);
    var g := parser.GetG();
    if g.None? || g.value == Nil {
      return None;
    }
    return g;
  }

  /** The statements gathered so far in front of those still to parse. */
  function Prefixed(ss: seq<Tree>, rest: Option<(seq<Tree>, nat)>): Option<(seq<Tree>, nat)>
  {
    match rest
    case None => None
    case Some((xs, j)) => Some((ss + xs, j))
  }

  lemma PrefixedStep(ss: seq<Tree>, s: Tree, rest: Option<(seq<Tree>, nat)>)
    ensures Prefixed(ss, Prefixed([s], rest)) == Prefixed(ss + [s], rest)
  {
    if rest.Some? {
      assert ss + ([s] + rest.value.0) == ss + [s] + rest.value.0;
    }
  }

  lemma PrefixedNone(rest: Option<(seq<Tree>, nat)>)
    ensures Prefixed([], rest) == rest
  {
    if rest.Some? {
      assert [] + rest.value.0 == rest.value.0;
    }
  }
}
