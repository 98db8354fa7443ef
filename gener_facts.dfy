/** How the code generator of src/back_end/asm_gener.c meets the blocks
    the parser of src/front_end/syntax.c builds: every block ends in a
    SENTINEL link whose left child is NULL. */
module GenerFacts {
  import opened Ast
  import SX = Syntax
  import AG = AsmGener
  import Lexer

  /** `SentinelHandler` as written: `AST_NodeHandler(node->left, ...)`
      whether or not the left child is NULL, then the end of the link. */
  function InnerAsWritten(tpl: AG.Templates, g: AG.Gen, t: Tree): (r: AG.Outcome)
    requires AG.GenOk(g) && AG.CNames(t) && t.Node?
    ensures t.left.Nil? ==> r.Abort?
  {
    AG.SameBooks(g, g.(scope_level := g.scope_level + 1));
    match AG.NodeGen(tpl, g.(scope_level := g.scope_level + 1), t.left)
    case Abort => AG.Outcome.Abort
    case Done(g1) =>
      var g2 := g1.(scope_level := g1.scope_level - 1);
      AG.SameBooks(g1, g2);
      AG.BlockEndGen(tpl, g2, t)
  }

  /** A block the parser returns is a SENTINEL chain whose link after the
      last statement holds NULL on both sides. */
  lemma ParsedBlockLastLink(toks: seq<Lexer.Token>, i: nat)
    requires SX.Tokens(toks) && i < |toks|
    requires SX.Block(toks, i).Done? && SX.Block(toks, i).t != Nil
    ensures SX.Statements(toks, i + 1).Some?
    ensures SX.Walk(SX.Block(toks, i).t, |SX.Statements(toks, i + 1).value.0|) == Node(Op(Sentinel), Nil, Nil)
  {
    SX.SentinelCount(SX.Statements(toks, i + 1).value.0);
  }

  /** As written, the generator stops with `assert(0)` (a NULL
      dereference without assertions) at the last link of every parsed
      block, whatever the state. */
  lemma LastLinkAsWrittenAborts(tpl: AG.Templates, g: AG.Gen, toks: seq<Lexer.Token>, i: nat)
    requires SX.Tokens(toks) && i < |toks|
    requires SX.Block(toks, i).Done? && SX.Block(toks, i).t != Nil
    requires AG.GenOk(g)
    ensures var last := SX.Walk(SX.Block(toks, i).t, |SX.Statements(toks, i + 1).value.0|);
            AG.CNames(last) && last.Node? && InnerAsWritten(tpl, g, last).Abort?
  {
    ParsedBlockLastLink(toks, i);
  }

  /** With the NULL skipped, the last link of a block only closes it:
      the exit call and `SymbolTableExitScope`, or a stop when there is
      no current scope. */
  lemma LastLinkCloses(tpl: AG.Templates, g: AG.Gen)
    requires AG.GenOk(g)
    ensures AG.InnerGen(tpl, g, Node(Op(Sentinel), Nil, Nil)) == AG.EndBlock(g)
    ensures AG.InnerGen(tpl, g, Node(Op(Sentinel), Nil, Nil)).Done? <==> g.table.current != -1
  {
    var t := Node(Op(Sentinel), Nil, Nil);
    var g1 := g.(scope_level := g.scope_level + 1);
    AG.SameBooks(g, g1);
    assert AG.LeftGen(tpl, g1, Nil) == AG.Outcome.Done(g1);
    assert g1.(scope_level := g1.scope_level - 1) == g;
  }
}
