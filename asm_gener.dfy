/** The code generator of src/back_end/asm_gener.c.

    `AssemblyCodeGeneration` walks the syntax tree and appends assembly text
    to a character buffer, keeping a symbol table whose scopes follow the
    program's blocks, a block-nesting counter `scope_level` and two label
    counters (`if_cnt` for if/while statements, `bool_cnt` for
    comparisons).  The handlers are written here twice: as functions on a
    value `Gen` holding exactly that state (the specification), and as the
    methods of the class `Generator`, whose fields hold that state and
    which are proved to leave what the functions say.  The generator
    keeps the text it appends as a string and the symbol table as a value
    (`SymbolTable.TableState`); `AssemblyCodeGeneration` appends the text
    to the caller's `Buffer.Buffer` with one `BufferPush` at the end.

    Where the C code dereferences NULL, trips an `assert(0)` or reads a
    union member that is not the one stored, the walk ends: the outcome is
    `Abort`.  The walk also records, as a trace, the counter values its
    labels were made from (`if_used`, `bool_used`); the C program does not
    keep these, they exist to state that no label number is used twice. */
module AsmGener {
  import opened Common
  import Ast
  import ST = SymbolTable
  import Buffer

  // ---------------------------------------------------------------------
  // Instruction text

  /** The six templates the generator uses but whose text is defined
      outside include/back_end/asm_instructions.h; the model takes them as
      parameters.  Label templates mark the counter's place with '#'. */
  datatype Templates = Templates(
    if_statement: string, endif: string, begif: string, begif_jmp: string,
    get_rcx_by_offset: string, set_rcx_by_offset: string)

  const ASM_BASE: string :=
    "PUSH 0\nPOPR RAX\n\nPUSH 0\nPOPR RBX\n\nPUSH 0\nPOPR RCX\n\nCALL main\nHLT\n\n\n"
  const MOVE_RAX_BY_ONE: string :=
    ": move_rax_by_one\nPUSH 1\nPUSHR RAX\nADD\nPOPR RAX\nRET\n\n\n"
  const MOVE_RAX_BY_ONE_CALL: string := "CALL move_rax_by_one\n"
  const ENTER_SCOPE: string :=
    ": enter_scope\nPUSHR RBX\nPOPM [RAX]\nPUSHR RAX\nPOPR  RBX\nCALL move_rax_by_one\nRET\n\n\n"
  const ENTER_SCOPE_CALL: string := "CALL enter_scope\n"
  const EXIT_SCOPE: string := ": exit_scope\nPUSHR RBX\nPOPR RAX\nPUSHM [RBX]\nPOPR RBX\nRET\n\n\n"
  const EXIT_SCOPE_CALL: string := "CALL exit_scope\n"
  const SET_RCX_OFFSET: string := ": set_rcx_offset\nPUSHR RBX\nADD\nPOPR RCX\nRET\n\n\n"
  const BOOL_CMP: string :=
    " false_comparison_result#\nPUSH 1\nJMP truth_comparison_result#\n"
    + ":   false_comparison_result#\nPUSH 0\n:   truth_comparison_result#\n\n"
  const UNARY_BOOL_CMP: string :=
    "PUSH 1\nJA false_comparison_result#\nPUSH 1\nJMP truth_comparison_result#\n"
    + ":   false_comparison_result#\nPUSH 0\n:   truth_comparison_result#\n\n"
  const RAM_PUSH: string := "POPM [RAX]\nCALL move_rax_by_one\n\n"
  const RET: string := "RET\n\n"
  const OUT: string := "OUT\n\n"
  /** One step up the saved-frame chain in a variable access. */
  const HOP: string := "PUSHM [RCX]\nPOPR   RCX\n"

  /** What `AssemblyCodeGeneration` pushes before walking the tree. */
  function Prologue(tpl: Templates): string
  {
    ASM_BASE + MOVE_RAX_BY_ONE + ENTER_SCOPE + EXIT_SCOPE + SET_RCX_OFFSET
    + tpl.get_rcx_by_offset + tpl.set_rcx_by_offset
  }

  /** The instruction an arithmetic handler ends with. */
  function ArithInstr(op: Ast.Operation): string
    requires op in {Ast.Add, Ast.Sub, Ast.Mul, Ast.Div}
  {
    match op
    case Add => "ADD\n"
    case Sub => "SUB\n"
    case Mul => "MUL\n"
    case Div => "DIV\n"
  }

  predicate IsCompare(op: Ast.Operation)
  {
    op in {Ast.Lt, Ast.Le, Ast.Gt, Ast.Ge, Ast.Ee, Ast.Ne}
  }

  /** The jump a comparison handler emits before the `bool_cmp` block: the
      jump to the false branch, so it is taken exactly when the comparison
      fails. */
  function FalseJump(op: Ast.Operation): (j: string)
    requires IsCompare(op)
    ensures |j| >= 2 && j[0] == 'J'
  {
    match op
    case Lt => "JBE"
    case Le => "JB"
    case Gt => "JAE"
    case Ge => "JA"
    case Ee => "JNE"
    case Ne => "JE"
  }

  // ---------------------------------------------------------------------
  // Labels

  /** The number of placeholders in a template. */
  function Hashes(s: string): nat
  {
    if s == [] then 0 else (if s[0] == '#' then 1 else 0) + Hashes(s[1..])
  }

  /** The template with every '#' replaced by `num`. */
  function Expand(s: string, num: string): (r: string)
    ensures |r| == |s| + Hashes(s) * (|num| - 1)
    ensures '#' !in num ==> '#' !in r
  {
    if s == [] then [] else (if s[0] == '#' then num else [s[0]]) + Expand(s[1..], num)
  }

  /** `CntLabel`: the template with every '#' replaced by "_" and the
      counter in decimal (`"_%zu"`). */
  function Label(s: string, cnt: nat): (r: string)
    ensures '#' !in r
    ensures |r| == |s| + Hashes(s) * |NatToDec(cnt)|
  {
    var num := "_" + NatToDec(cnt);
    assert '#' !in num by {
      assert forall i :: 0 <= i < |NatToDec(cnt)| ==> num[i + 1] == NatToDec(cnt)[i];
    }
    Expand(s, num)
  }

  lemma {:induction false} ExpandAppend(a: string, b: string, num: string)
    ensures Expand(a + b, num) == Expand(a, num) + Expand(b, num)
  {
    if a == [] {
      assert a + b == b;
    } else {
      assert (a + b)[0] == a[0] && (a + b)[1..] == a[1..] + b;
      ExpandAppend(a[1..], b, num);
    }
  }

  /** Equal expansions of a template with a placeholder, by numbers of the
      same length, used the same number. */
  lemma {:induction false} ExpandSameLength(s: string, n1: string, n2: string)
    requires '#' in s && |n1| == |n2| && Expand(s, n1) == Expand(s, n2)
    ensures n1 == n2
  {
    if s[0] == '#' {
      assert Expand(s, n1)[..|n1|] == n1;
      assert Expand(s, n2)[..|n2|] == n2;
    } else {
      assert s == [s[0]] + s[1..];
      assert Expand(s, n1)[1..] == Expand(s[1..], n1);
      assert Expand(s, n2)[1..] == Expand(s[1..], n2);
      ExpandSameLength(s[1..], n1, n2);
    }
  }

  lemma {:induction false} HashesPositive(s: string)
    requires '#' in s
    ensures Hashes(s) >= 1
  {
    if s[0] != '#' {
      assert s == [s[0]] + s[1..];
      HashesPositive(s[1..]);
    }
  }

  /** Different counters give different labels from a template that has a
      placeholder: label names never collide across counter values. */
  lemma LabelInjective(s: string, a: nat, b: nat)
    requires '#' in s && Label(s, a) == Label(s, b)
    ensures a == b
  {
    HashesPositive(s);
    var na, nb := "_" + NatToDec(a), "_" + NatToDec(b);
    if |NatToDec(a)| == |NatToDec(b)| {
      ExpandSameLength(s, na, nb);
      assert NatToDec(a) == na[1..] == nb[1..] == NatToDec(b);
      NatToDecInjective(a, b);
    } else {
      ScaleInjective(Hashes(s), |NatToDec(a)|, |NatToDec(b)|);
    }
  }

  lemma ScaleInjective(h: nat, x: nat, y: nat)
    requires h >= 1 && x != y
    ensures h * x != h * y
  {
    if x < y {
      assert h * y == h * x + h * (y - x);
    } else {
      assert h * x == h * y + h * (x - y);
    }
  }

  /** `n` copies of `s`. */
  function Repeat(s: string, n: nat): (r: string)
    ensures |r| == n * |s|
  {
    if n == 0 then [] else Repeat(s, n - 1) + s
  }

  // ---------------------------------------------------------------------
  // The generator's state

  /** `ASM_GenerSetup` as a value: the nesting counter, the two label
      counters, the buffer's contents and the symbol table, plus the traces
      of label numbers used.  (`while_cnt` is initialised and never used.) */
  datatype Gen = Gen(
    scope_level: nat, if_cnt: nat, bool_cnt: nat, code: string, table: ST.TableState,
    if_used: seq<nat>, bool_used: seq<nat>)

  datatype Outcome = Abort | Done(g: Gen)

  /** Every variable name can be a C string. */
  predicate CNames(t: Ast.Tree)
  {
    match t
    case Nil => true
    case Node(d, l, r) => (d.Var? ==> CName(d.name)) && CNames(l) && CNames(r)
  }

  /** What the walk keeps: a well-formed table with no saved cursor whose
      chain from the current scope is live (the generator never opens a
      branch, and only ever exits the current scope), and label traces
      holding every counter value passed so far, once each and in order. */
  ghost predicate GenOk(g: Gen)
  {
    forall depth: nat :: Kept(g, depth)
  }

  /** The facts of `GenOk`, stated `depth` recursion levels down.  `GenOk`
      asks for them at every depth, so the solver meets them only where a
      step names depth 0 (`Unseal`) and establishes them by `Seal`. */
  ghost predicate Kept(g: Gen, depth: nat)
    decreases depth
  {
    if depth > 0 then Kept(g, depth - 1)
    else
      ST.WF(g.table) && g.table.saved == [] && ST.ChainLive(g.table.scopes, g.table.current)
      && g.if_used == Range(0, g.if_cnt) && g.bool_used == Range(0, g.bool_cnt)
  }

  lemma Unseal(g: Gen)
    requires GenOk(g)
    ensures ST.WF(g.table) && g.table.saved == [] && ST.ChainLive(g.table.scopes, g.table.current)
    ensures g.if_used == Range(0, g.if_cnt) && g.bool_used == Range(0, g.bool_cnt)
  {
    assert Kept(g, 0);
  }

  lemma Seal(g: Gen)
    requires ST.WF(g.table) && g.table.saved == [] && ST.ChainLive(g.table.scopes, g.table.current)
    requires g.if_used == Range(0, g.if_cnt) && g.bool_used == Range(0, g.bool_cnt)
    ensures GenOk(g)
  {
    forall depth: nat
      ensures Kept(g, depth)
    {
      KeptAt(g, depth);
    }
  }

  lemma {:induction false} KeptAt(g: Gen, depth: nat)
    requires Kept(g, 0)
    ensures Kept(g, depth)
    decreases depth
  {
    if depth > 0 {
      KeptAt(g, depth - 1);
    }
  }

  /** The numbers from `a` up to, but not including, `b`. */
  function Range(a: nat, b: nat): (r: seq<nat>)
    requires a <= b
    ensures |r| == b - a
    decreases b - a
  {
    if a == b then [] else Range(a, b - 1) + [b - 1]
  }

  /** The `i`-th number of `Range(a, b)` is `a + i`: no number repeats. */
  lemma {:induction false} RangeAt(a: nat, b: nat, i: nat)
    requires a <= b && i < b - a
    ensures Range(a, b)[i] == a + i
    decreases b - a
  {
    if i < b - a - 1 {
      RangeAt(a, b - 1, i);
    }
  }

  /** `h` is a state the walk can reach from `g`: the buffer only grew
      and the counters only grew. */
  ghost predicate Extends(g: Gen, h: Gen)
  {
    GenOk(h) && g.code <= h.code && g.if_cnt <= h.if_cnt && g.bool_cnt <= h.bool_cnt
  }

  lemma ExtendsRefl(g: Gen)
    requires GenOk(g)
    ensures Extends(g, g)
  {
  }

  /** A step that leaves the table, the counters and the traces alone
      keeps `GenOk`. */
  lemma SameBooks(g: Gen, h: Gen)
    ensures (GenOk(g) && h.table == g.table && h.if_cnt == g.if_cnt && h.if_used == g.if_used
             && h.bool_cnt == g.bool_cnt && h.bool_used == g.bool_used) ==> GenOk(h)
  {
    if GenOk(g) && h.table == g.table && h.if_cnt == g.if_cnt && h.if_used == g.if_used
       && h.bool_cnt == g.bool_cnt && h.bool_used == g.bool_used {
      Unseal(g);
      Seal(h);
    }
  }

  /** Bumping a counter while recording its value keeps `GenOk`. */
  lemma NextKeeps(g: Gen)
    ensures GenOk(g) ==> GenOk(g.(if_cnt := g.if_cnt + 1, if_used := g.if_used + [g.if_cnt]))
    ensures GenOk(g) ==> GenOk(g.(bool_cnt := g.bool_cnt + 1, bool_used := g.bool_used + [g.bool_cnt]))
  {
    if GenOk(g) {
      Unseal(g);
      Seal(g.(if_cnt := g.if_cnt + 1, if_used := g.if_used + [g.if_cnt]));
      Seal(g.(bool_cnt := g.bool_cnt + 1, bool_used := g.bool_used + [g.bool_cnt]));
    }
  }

  lemma ExtendsTrans(a: Gen, b: Gen, c: Gen)
    requires Extends(a, b) && Extends(b, c)
    ensures Extends(a, c)
  {
    assert c.code[..|a.code|] == b.code[..|a.code|];
  }

  /** Expressions leave the table, the nesting counter and the if labels
      alone. */
  ghost predicate Quiet(g: Gen, h: Gen)
  {
    h.table == g.table && h.scope_level == g.scope_level
    && h.if_cnt == g.if_cnt && h.if_used == g.if_used
  }

  // ---------------------------------------------------------------------
  // Single steps

  /** `BufferPush` of `s`. */
  function Emit(g: Gen, s: string): (r: Gen)
    ensures GenOk(g) ==> Extends(g, r) && Quiet(g, r) && r.bool_cnt == g.bool_cnt
  {
    SameBooks(g, g.(code := g.code + s));
    g.(code := g.code + s)
  }

  /** Two pushes are one push of the two texts in a row. */
  lemma EmitTwice(g: Gen, a: string, b: string)
    ensures Emit(Emit(g, a), b) == Emit(g, a + b)
  {
    assert g.code + a + b == g.code + (a + b);
  }

  /** `++if_cnt` after its value has been used for labels. */
  function TakeIf(g: Gen): (r: Gen)
    ensures GenOk(g) ==> Extends(g, r)
    ensures r.if_cnt == g.if_cnt + 1 && r.if_used == g.if_used + [g.if_cnt]
    ensures r.code == g.code && r.table == g.table && r.scope_level == g.scope_level
  {
    NextKeeps(g);
    g.(if_cnt := g.if_cnt + 1, if_used := g.if_used + [g.if_cnt])
  }

  /** `bool_cnt++` after its value has been used for a label. */
  function TakeBool(g: Gen): (r: Gen)
    ensures GenOk(g) ==> Extends(g, r) && Quiet(g, r)
    ensures r.bool_cnt == g.bool_cnt + 1 && r.bool_used == g.bool_used + [g.bool_cnt]
    ensures r.code == g.code
  {
    NextKeeps(g);
    g.(bool_cnt := g.bool_cnt + 1, bool_used := g.bool_used + [g.bool_cnt])
  }

  /** `SymbolTableEnterScope` then `BufferPush(enter_scope_call)`. */
  function Open(g: Gen): (r: Gen)
    requires GenOk(g)
    ensures Extends(g, r) && r.scope_level == g.scope_level
    ensures r.code == g.code + ENTER_SCOPE_CALL
  {
    OpenAt(g, 1)
  }

  function OpenAt(g: Gen, depth: nat): (r: Gen)
    requires GenOk(g)
    ensures Extends(g, r) && r.scope_level == g.scope_level
    ensures r.code == g.code + ENTER_SCOPE_CALL
    decreases depth
  {
    if depth > 0 then OpenAt(g, depth - 1)
    else
      Unseal(g);
      ST.EnterKeepsChainLive(g.table);
      Seal(g.(table := ST.AfterEnter(g.table)));
      Emit(g.(table := ST.AfterEnter(g.table)), ENTER_SCOPE_CALL)
  }

  lemma OpenIs(g: Gen)
    requires GenOk(g)
    ensures ST.WF(g.table) && ST.CursorLive(g.table)
    ensures Open(g) == Emit(g.(table := ST.AfterEnter(g.table)), ENTER_SCOPE_CALL)
  {
    Unseal(g);
    ST.EnterKeepsChainLive(g.table);
    assert OpenAt(g, 1) == OpenAt(g, 0);
  }

  /** `SymbolTableExitScope`. */
  function Close(g: Gen): (r: Gen)
    requires GenOk(g) && g.table.current != -1
    ensures Extends(g, r) && r.scope_level == g.scope_level && r.code == g.code
  {
    Unseal(g);
    ST.ExitKeepsChainLive(g.table);
    Seal(g.(table := ST.AfterExit(g.table)));
    var r := g.(table := ST.AfterExit(g.table));
    assert Emit(r, []) == r;
    r
  }

  /** The number of comparison labels an expression takes: one per
      comparison and per logical operation, where `||` walks its operands
      twice (once to add them, once to multiply them). */
  function BoolOps(t: Ast.Tree): nat
  {
    match t
    case Nil => 0
    case Node(d, l, r) =>
      if !d.Op? then 0
      else if d.op in {Ast.Add, Ast.Sub, Ast.Mul, Ast.Div} then BoolOps(l) + BoolOps(r)
      else if IsCompare(d.op) || d.op == Ast.LAnd then BoolOps(l) + BoolOps(r) + 1
      else if d.op == Ast.LOr then 2 * (BoolOps(l) + BoolOps(r)) + 1
      else if d.op == Ast.Call then ArgsBoolOps(l)
      else 0
  }

  function ArgsBoolOps(s: Ast.Tree): nat
  {
    if s.Nil? then 0 else BoolOps(s.right) + ArgsBoolOps(s.left)
  }

  // ---------------------------------------------------------------------
  // Variables

  datatype Access = Get | Set

  /** The number of saved-frame hops `for (i = symbol level; i <
      scope_level - 1; i++)` makes; `scope_level - 1` is unsigned, so at
      nesting 0 it wraps and the loop overruns the 256-byte buffer: None. */
  function Hops(symbol_level: nat, scope_level: nat): (h: Option<nat>)
    ensures h.None? <==> scope_level == 0
    ensures h.Some? ==> symbol_level + h.value == scope_level - 1 || (h.value == 0 && symbol_level >= scope_level - 1)
  {
    if scope_level == 0 then None
    else if symbol_level < scope_level - 1 then Some(scope_level - 1 - symbol_level)
    else Some(0)
  }

  /** The text a variable access pushes: a comment naming the variable,
      RCX loaded from RBX, one hop per scope between the current frame and
      the variable's, then the offset and the call to the get or set
      routine. */
  function AccessText(tpl: Templates, kind: Access, name: string, hops: nat, offset: nat): string
  {
    (if kind == Get then "; get variable \"" else "; set variable \"") + name + "\"\n"
    + "PUSHR  RBX\nPOPR   RCX\n"
    + Repeat(HOP, hops)
    + "PUSH " + NatToDec(offset) + "\n"
    + (if kind == Get then "CALL get_rcx_by_offset\n\n" else "CALL set_rcx_by_offset\n\n")
  }

  /** `GetVariableHandler` / `SetVariableHandler`: the innermost visible
      declaration of `name` decides the hops and the offset; an undeclared
      name is reported on stderr and nothing is emitted. */
  function AccessGen(tpl: Templates, g: Gen, name: string, kind: Access): (r: Outcome)
    requires GenOk(g) && CName(name)
    ensures r.Done? ==> Extends(g, r.g) && Quiet(g, r.g) && r.g.bool_cnt == g.bool_cnt
    ensures Visible(g, name).None? ==> r == Done(g)
    ensures r.Abort? <==> Visible(g, name).Some? && g.scope_level == 0
  {
    match Visible(g, name)
    case None => Done(g)
    case Some(d) =>
      match Hops(d.scope_level, g.scope_level)
      case None => Abort
      case Some(h) => Done(Emit(g, AccessText(tpl, kind, name, h, d.symbol_ram_offset)))
  }

  /** `SymbolTableLookUp` of `name` from the current scope outwards. */
  function Visible(g: Gen, name: string): Option<ST.SymbolData>
    requires GenOk(g) && CName(name)
  {
    Unseal(g);
    ST.Resolve(g.table.scopes, g.table.current, Key(name))
  }

  /** The target of a set: a variable node, or the walk ends. */
  function SetGen(tpl: Templates, g: Gen, v: Ast.Tree): (r: Outcome)
    requires GenOk(g) && CNames(v)
    ensures r.Done? ==> Extends(g, r.g) && Quiet(g, r.g) && r.g.bool_cnt == g.bool_cnt
  {
    if v.Node? && v.data.Var? then AccessGen(tpl, g, v.data.name, Set) else Abort
  }

  /** The state after declaring the variable held by `v` in the current
      scope: `scope_ram_offset++`, then `SymbolTableInsert` with the new
      offset (a name already declared in that scope keeps its symbol). */
  function Declare(g: Gen, v: Ast.Tree): (r: Gen)
    requires GenOk(g) && g.table.current != -1 && CNames(v) && v.Node? && v.data.Var?
    ensures Extends(g, r) && r.scope_level == g.scope_level && r.code == g.code
    ensures r.table.current == g.table.current
  {
    Unseal(g);
    ST.BumpKeepsChainLive(g.table);
    var b := ST.AfterBump(g.table);
    var k := b.scopes[b.current].ram_offset;
    ST.InsertThenLookUp(b, v.data.name, ST.SymVariable, ST.DataInt, v, k);
    var r := g.(table := ST.AfterInsert(b, v.data.name, ST.SymVariable, ST.DataInt, v, k));
    Seal(r);
    assert Emit(r, []) == r;
    r
  }

  /** The current scope's frame offset (`scope_ram_offset`). */
  ghost function Offset(g: Gen): nat
    requires GenOk(g) && g.table.current != -1
  {
    Unseal(g);
    g.table.scopes[g.table.current].ram_offset
  }

  /** The current scope's nesting level. */
  ghost function Level(g: Gen): nat
    requires GenOk(g) && g.table.current != -1
  {
    Unseal(g);
    g.table.scopes[g.table.current].level
  }

  /** `name` as declared in the current scope alone. */
  ghost function Here(g: Gen, name: string): Option<ST.SymbolData>
    requires GenOk(g) && g.table.current != -1 && CName(name)
  {
    Unseal(g);
    ST.BumpKeepsChainLive(g.table);
    ST.FindCurrent(g.table, name)
  }

  /** A declaration bumps the frame offset by one and makes the name
      visible from the current scope: as a fresh integer variable at the
      new offset, or, when the scope already declared it, as before. */
  lemma DeclareBinds(g: Gen, v: Ast.Tree)
    requires GenOk(g) && g.table.current != -1 && CNames(v) && v.Node? && v.data.Var?
    ensures Declare(g, v).table.current != -1
    ensures Offset(Declare(g, v)) == Offset(g) + 1 && Level(Declare(g, v)) == Level(g)
    ensures Visible(Declare(g, v), v.data.name)
            == if Here(g, v.data.name).Some? then Here(g, v.data.name)
               else Some(ST.SymbolData(ST.SymVariable, ST.DataInt, Level(g), v, Offset(g) + 1))
  {
    var r := Declare(g, v);
    Unseal(g);
    Unseal(r);
    ST.BumpKeepsChainLive(g.table);
    var b := ST.AfterBump(g.table);
    var k := b.scopes[b.current].ram_offset;
    ST.InsertThenLookUp(b, v.data.name, ST.SymVariable, ST.DataInt, v, k);
    assert b.scopes[b.current].symbols == g.table.scopes[g.table.current].symbols;
  }

  // ---------------------------------------------------------------------
  // The walk

  /** `AST_NodeHandler`: statements by their tag, anything else as an
      expression.  The nesting counter is back where it was when a
      statement is done. */
  function NodeGen(tpl: Templates, g: Gen, t: Ast.Tree): (r: Outcome)
    requires GenOk(g) && CNames(t)
    ensures r.Done? ==> Extends(g, r.g) && r.g.scope_level == g.scope_level
    decreases t, 6
  {
    if t.Nil? then Abort else StmtGen(tpl, g, t)
  }

  /** `AST_NodeHandler` on a node: the handler its tag selects. */
  function StmtGen(tpl: Templates, g: Gen, t: Ast.Tree): (r: Outcome)
    requires GenOk(g) && CNames(t) && t.Node?
    ensures r.Done? ==> Extends(g, r.g) && r.g.scope_level == g.scope_level
    decreases t, 5
  {
    match t.data
      case Op(Sentinel) => SentinelGen(tpl, g, t)
      case Decl(_) => DeclGen(tpl, g, t)
      case Op(Return) => ReturnGen(tpl, g, t)
      case Op(Print) => PrintGen(tpl, g, t)
      case Op(Assignment) => AssignGen(tpl, g, t)
      case Op(If) => IfGen(tpl, g, t)
      case Op(While) => WhileGen(tpl, g, t)
      case _ =>
        var r := ExprGen(tpl, g, t);
        r
  }

  /** `SentinelHandler`: a block link.  The statement on the left is
      walked one nesting level deeper; the last link of a block (no right
      child) ends the block, any other link goes on to the next. */
  function SentinelGen(tpl: Templates, g: Gen, t: Ast.Tree): (r: Outcome)
    requires GenOk(g) && CNames(t) && t.Node?
    ensures r.Done? ==> Extends(g, r.g) && r.g.scope_level == g.scope_level
    decreases t, 3
  {
    match BeginBlock(g)
    case Abort => Abort
    case Done(g1) =>
      match InnerGen(tpl, g1, t)
      case Abort => Abort
      case Done(g2) => ExtendsTrans(g, g1, g2); Done(g2)
  }

  /** The block of `SentinelHandler`: the left child one nesting level
      deeper, then `BlockEndGen`.  The last link of every parsed block has
      a NULL left child, which the code as written hands to
      `AST_NodeHandler` (`InnerAsWritten`); here it is skipped. */
  function InnerGen(tpl: Templates, g: Gen, t: Ast.Tree): (r: Outcome)
    requires GenOk(g) && CNames(t) && t.Node?
    ensures r.Done? ==> Extends(g, r.g) && r.g.scope_level == g.scope_level
    decreases t, 2
  {
    SameBooks(g, g.(scope_level := g.scope_level + 1));
    match LeftGen(tpl, g.(scope_level := g.scope_level + 1), t.left)
    case Abort => Abort
    case Done(g1) =>
      var g2 := g1.(scope_level := g1.scope_level - 1);
      SameBooks(g1, g2);
      match BlockEndGen(tpl, g2, t)
      case Abort => Abort
      case Done(g3) => ExtendsTrans(g, g2, g3); Done(g3)
  }

  /** The statement a block link holds: nothing to do for the NULL of
      the last link. */
  function LeftGen(tpl: Templates, g: Gen, l: Ast.Tree): (r: Outcome)
    requires GenOk(g) && CNames(l)
    ensures r.Done? ==> Extends(g, r.g) && r.g.scope_level == g.scope_level
    ensures l.Nil? ==> r == Done(g)
    decreases l, 7
  {
    if l.Nil? then ExtendsRefl(g); Done(g) else NodeGen(tpl, g, l)
  }

  /** The end of `SentinelHandler`: the next statement, or, after the
      last one, `EndBlock`. */
  function BlockEndGen(tpl: Templates, g: Gen, t: Ast.Tree): (r: Outcome)
    requires GenOk(g) && CNames(t) && t.Node?
    ensures r.Done? ==> Extends(g, r.g) && r.g.scope_level == g.scope_level
    decreases t, 1
  {
    if t.right.Node? then NodeGen(tpl, g, t.right) else EndBlock(g)
  }

  /** The start of `SentinelHandler`: when the nesting counter is one past
      the current scope's level a scope is entered; more than one past is
      an `assert(0)`, and a NULL current scope is dereferenced. */
  function BeginBlock(g: Gen): (r: Outcome)
    requires GenOk(g)
    ensures r.Done? ==> Extends(g, r.g) && r.g.scope_level == g.scope_level
  {
    Unseal(g);
    if g.table.current == -1 then Abort
    else
      var level := g.table.scopes[g.table.current].level;
      if g.scope_level > level + 1 then Abort
      else if g.scope_level == level + 1 then Done(Open(g))
      else ExtendsRefl(g); Done(g)
  }

  /** The end of a block in `SentinelHandler`: the exit call, unless the
      current scope is the global one, then `SymbolTableExitScope` (which
      would dereference a NULL current scope). */
  function EndBlock(g: Gen): (r: Outcome)
    requires GenOk(g)
    ensures r.Done? ==> Extends(g, r.g) && r.g.scope_level == g.scope_level
    ensures r.Done? <==> g.table.current != -1
  {
    if g.table.current == -1 then Abort
    else
      var g1 := if g.table.current != g.table.global then Emit(g, EXIT_SCOPE_CALL) else g;
      ExtendsRefl(g);
      ExtendsTrans(g, g1, Close(g1));
      Done(Close(g1))
  }

  /** `DeclarationHandler`: a declaration has no left child and a right
      child; a variable node with a right child (the body) declares a
      function, anything else a variable. */
  function DeclGen(tpl: Templates, g: Gen, t: Ast.Tree): (r: Outcome)
    requires GenOk(g) && CNames(t) && t.Node?
    ensures r.Done? ==> Extends(g, r.g) && r.g.scope_level == g.scope_level
    decreases t, 3
  {
    if t.right.Nil? || t.left.Node? then Abort
    else if t.right.data.Var? && t.right.right.Node? then FuncDecGen(tpl, g, t.right)
    else VarDecGen(tpl, g, t.right)
  }

  /** `FuncDecHandler`: the label ": name", a new scope, the parameters,
      then the body. */
  function FuncDecGen(tpl: Templates, g: Gen, f: Ast.Tree): (r: Outcome)
    requires GenOk(g) && CNames(f) && f.Node? && f.data.Var?
    ensures r.Done? ==> Extends(g, r.g) && r.g.scope_level == g.scope_level
    decreases f, 2
  {
    var g1 := Open(Emit(g, ": " + f.data.name + "\n"));
    ExtendsTrans(g, Emit(g, ": " + f.data.name + "\n"), g1);
    match ParamsGen(g1, f.left)
    case Abort => Abort
    case Done(g2) =>
      ExtendsTrans(g, g1, g2);
      match NodeGen(tpl, g2, f.right)
      case Abort => Abort
      case Done(g3) => ExtendsTrans(g, g2, g3); Done(g3)
  }

  /** The parameter loop of `FuncDecHandler`, down the left spine. */
  function ParamsGen(g: Gen, v: Ast.Tree): (r: Outcome)
    requires GenOk(g) && CNames(v)
    ensures r.Done? ==> Extends(g, r.g) && r.g.scope_level == g.scope_level
    decreases v
  {
    if v.Nil? then ExtendsRefl(g); Done(g)
    else
      match ParamGen(g, v)
      case Abort => Abort
      case Done(g1) =>
        match ParamsGen(g1, v.left)
        case Abort => Abort
        case Done(g2) => ExtendsTrans(g, g1, g2); Done(g2)
  }

  /** `ParamDecHandler`: push the argument into the frame, then declare the
      parameter named by the right child at the new offset. */
  function ParamGen(g: Gen, v: Ast.Tree): (r: Outcome)
    requires GenOk(g) && CNames(v) && v.Node?
    ensures r.Done? ==> Extends(g, r.g) && r.g.scope_level == g.scope_level
  {
    var g1 := Emit(g, RAM_PUSH);
    if g1.table.current == -1 || v.right.Nil? || !v.right.data.Var? then Abort
    else ExtendsTrans(g, g1, Declare(g1, v.right)); Done(Declare(g1, v.right))
  }

  /** The node whose name a variable declaration declares: the target of
      `int x = e;`, or the identifier itself in `int x;`. */
  function DeclaredNode(v: Ast.Tree): (n: Ast.Tree)
    requires v.Node?
    ensures n < v || n == v
  {
    if v.data == Ast.Op(Ast.Assignment) then v.left else v
  }

  /** `VarDecHandler` with the declared name taken from `DeclaredNode`: the
      initial value (or a bare frame bump), then the declaration at the
      new offset. */
  function VarDecGen(tpl: Templates, g: Gen, v: Ast.Tree): (r: Outcome)
    requires GenOk(g) && CNames(v) && v.Node?
    ensures r.Done? ==> Extends(g, r.g) && r.g.scope_level == g.scope_level
    decreases v, 2
  {
    match VarDecInit(tpl, g, v)
    case Abort => Abort
    case Done(g1) =>
      var n := DeclaredNode(v);
      if g1.table.current == -1 || n.Nil? || !n.data.Var? then Abort
      else ExtendsTrans(g, g1, Declare(g1, n)); Done(Declare(g1, n))
  }

  /** The first half of `VarDecHandler`: `int x = e;` evaluates `e` and
      stores it into the frame; anything else only moves RAX. */
  function VarDecInit(tpl: Templates, g: Gen, v: Ast.Tree): (r: Outcome)
    requires GenOk(g) && CNames(v) && v.Node?
    ensures r.Done? ==> Extends(g, r.g) && Quiet(g, r.g)
    decreases v, 1
  {
    if v.data == Ast.Op(Ast.Assignment) then
      match ExprGen(tpl, g, v.right)
      case Abort => Abort
      case Done(g1) => ExtendsTrans(g, g1, Emit(g1, RAM_PUSH)); Done(Emit(g1, RAM_PUSH))
    else Done(Emit(g, MOVE_RAX_BY_ONE_CALL))
  }

  /** `VarDecHandler` as written: the name is always read from the right
      child's left child, which is NULL for `int x;`. */
  function VarDecAsWritten(tpl: Templates, g: Gen, v: Ast.Tree): (r: Outcome)
    requires GenOk(g) && CNames(v) && v.Node?
    ensures r.Done? ==> Extends(g, r.g) && r.g.scope_level == g.scope_level
  {
    match VarDecInit(tpl, g, v)
    case Abort => Abort
    case Done(g1) =>
      if g1.table.current == -1 || v.left.Nil? || !v.left.data.Var? then Abort
      else ExtendsTrans(g, g1, Declare(g1, v.left)); Done(Declare(g1, v.left))
  }

  /** `int x;` parses as the bare identifier node; `VarDecHandler` as
      written reads its left child, which is NULL, and the walk ends. */
  lemma BareDeclAsWrittenAborts(tpl: Templates, g: Gen, name: string)
    requires GenOk(g) && CName(name)
    ensures VarDecAsWritten(tpl, g, Ast.Node(Ast.Var(name), Ast.Nil, Ast.Nil)) == Abort
  {
  }

  /** With the declared node taken from `DeclaredNode`, `int x;` declares
      `x`: it is visible afterwards, at the bumped offset unless the scope
      already held it. */
  lemma BareDeclDeclares(tpl: Templates, g: Gen, name: string)
    requires GenOk(g) && g.table.current != -1 && CName(name)
    ensures var v := Ast.Node(Ast.Var(name), Ast.Nil, Ast.Nil);
            VarDecGen(tpl, g, v).Done? && Visible(VarDecGen(tpl, g, v).g, name).Some?
  {
    var v := Ast.Node(Ast.Var(name), Ast.Nil, Ast.Nil);
    var g1 := Emit(g, MOVE_RAX_BY_ONE_CALL);
    assert VarDecInit(tpl, g, v) == Done(g1);
    assert g1.table == g.table;
    DeclareBinds(g1, v);
  }

  /** `ReturnHandler`: the value, one exit call per level of the current
      scope, one `SymbolTableExitScope`, then RET. */
  function ReturnGen(tpl: Templates, g: Gen, t: Ast.Tree): (r: Outcome)
    requires GenOk(g) && CNames(t) && t.Node?
    ensures r.Done? ==> Extends(g, r.g) && r.g.scope_level == g.scope_level
    decreases t, 3
  {
    match ExprGen(tpl, g, t.right)
    case Abort => Abort
    case Done(g1) =>
      match LeaveGen(g1)
      case Abort => Abort
      case Done(g2) => ExtendsTrans(g, g1, g2); Done(g2)
  }

  /** The end of `ReturnHandler`: one exit call per level of the current
      scope, one `SymbolTableExitScope`, then RET; a NULL current scope is
      dereferenced. */
  function LeaveGen(g: Gen): (r: Outcome)
    requires GenOk(g)
    ensures r.Done? ==> Extends(g, r.g) && r.g.scope_level == g.scope_level
  {
    Unseal(g);
    if g.table.current == -1 then Abort
    else
      var g1 := Emit(g, Repeat(EXIT_SCOPE_CALL, g.table.scopes[g.table.current].level));
      var g2 := Close(g1);
      ExtendsTrans(g, g1, g2);
      ExtendsTrans(g, g2, Emit(g2, RET));
      Done(Emit(g2, RET))
  }

  /** `PrintHandler`: the value, then OUT. */
  function PrintGen(tpl: Templates, g: Gen, t: Ast.Tree): (r: Outcome)
    requires GenOk(g) && CNames(t) && t.Node?
    ensures r.Done? ==> Extends(g, r.g) && r.g.scope_level == g.scope_level
    decreases t, 3
  {
    match ExprGen(tpl, g, t.right)
    case Abort => Abort
    case Done(g1) => ExtendsTrans(g, g1, Emit(g1, OUT)); Done(Emit(g1, OUT))
  }

  /** `AssignmentHandler`: `a = b = e` is the node (a = b) = e; the value
      is evaluated and stored once per target, innermost target first. */
  function AssignGen(tpl: Templates, g: Gen, t: Ast.Tree): (r: Outcome)
    requires GenOk(g) && CNames(t) && t.Node?
    ensures r.Done? ==> Extends(g, r.g) && Quiet(g, r.g)
    decreases t, 3
  {
    ChainGen(tpl, g, t, t.left)
  }

  /** The loop of `AssignmentHandler` from the target node `a` on. */
  function ChainGen(tpl: Templates, g: Gen, t: Ast.Tree, a: Ast.Tree): (r: Outcome)
    requires GenOk(g) && CNames(t) && t.Node? && CNames(a)
    ensures r.Done? ==> Extends(g, r.g) && Quiet(g, r.g)
    decreases t, 2, a
  {
    if a.Nil? then Abort
    else
      match ExprGen(tpl, g, t.right)
      case Abort => Abort
      case Done(g1) =>
        match SetGen(tpl, g1, if a.right.Node? then a.right else a)
        case Abort => Abort
        case Done(g2) =>
          ExtendsTrans(g, g1, g2);
          if a.right.Nil? then Done(g2)
          else
            match ChainGen(tpl, g2, t, a.left)
            case Abort => Abort
            case Done(g3) => ExtendsTrans(g, g2, g3); Done(g3)
  }

  /** `IfStatementHandler`: the condition, then `IfBody`. */
  function IfGen(tpl: Templates, g: Gen, t: Ast.Tree): (r: Outcome)
    requires GenOk(g) && CNames(t) && t.Node?
    ensures r.Done? ==> Extends(g, r.g) && r.g.scope_level == g.scope_level
    decreases t, 3
  {
    match ExprGen(tpl, g, t.left)
    case Abort => Abort
    case Done(g1) =>
      match IfBody(tpl, g1, t)
      case Abort => Abort
      case Done(g2) => ExtendsTrans(g, g1, g2); Done(g2)
  }

  /** The rest of `IfStatementHandler`: the `if_statement` label, a new
      scope, the body, then the `endif` label; both labels carry the
      `if_cnt` value left by the condition, which is then bumped. */
  function IfBody(tpl: Templates, g: Gen, t: Ast.Tree): (r: Outcome)
    requires GenOk(g) && CNames(t) && t.Node?
    ensures r.Done? ==> Extends(g, r.g) && r.g.scope_level == g.scope_level
    decreases t, 2
  {
    var g1 := IfHead(tpl, g);
    match NodeGen(tpl, g1, t.right)
    case Abort => Abort
    case Done(g2) =>
      ExtendsTrans(g, g1, g2);
      ExtendsTrans(g, g2, Emit(g2, Label(tpl.endif, g.if_cnt)));
      Done(Emit(g2, Label(tpl.endif, g.if_cnt)))
  }

  /** The `if_statement` label and the new scope of an if statement. */
  function IfHead(tpl: Templates, g: Gen): (r: Gen)
    requires GenOk(g)
    ensures Extends(g, r) && r.scope_level == g.scope_level && r.if_cnt == g.if_cnt + 1
  {
    var g1 := Emit(TakeIf(g), Label(tpl.if_statement, g.if_cnt));
    ExtendsTrans(g, TakeIf(g), g1);
    ExtendsTrans(g, g1, Open(g1));
    Open(g1)
  }

  /** `WhileStatementHandler`: the `begif` label, the condition, the
      `if_statement` label, a new scope, the body, then the `begif_jmp`
      and `endif` labels; all four carry the `if_cnt` value of entry. */
  function WhileGen(tpl: Templates, g: Gen, t: Ast.Tree): (r: Outcome)
    requires GenOk(g) && CNames(t) && t.Node?
    ensures r.Done? ==> Extends(g, r.g) && r.g.scope_level == g.scope_level
    decreases t, 3
  {
    var g1 := Emit(TakeIf(g), Label(tpl.begif, g.if_cnt));
    ExtendsTrans(g, TakeIf(g), g1);
    match ExprGen(tpl, g1, t.left)
    case Abort => Abort
    case Done(g2) =>
      match LoopGen(tpl, g2, t, g.if_cnt)
      case Abort => Abort
      case Done(g3) => ExtendsTrans(g, g1, g2); ExtendsTrans(g, g2, g3); Done(g3)
  }

  /** The rest of `WhileStatementHandler` after the condition, with `n`
      the label number: the `if_statement` label, a new scope, the body,
      then the `begif_jmp` and `endif` labels. */
  function LoopGen(tpl: Templates, g: Gen, t: Ast.Tree, n: nat): (r: Outcome)
    requires GenOk(g) && CNames(t) && t.Node?
    ensures r.Done? ==> Extends(g, r.g) && r.g.scope_level == g.scope_level
    decreases t, 2
  {
    var g1 := Open(Emit(g, Label(tpl.if_statement, n)));
    ExtendsTrans(g, Emit(g, Label(tpl.if_statement, n)), g1);
    match NodeGen(tpl, g1, t.right)
    case Abort => Abort
    case Done(g2) =>
      var g3 := Emit(Emit(g2, Label(tpl.begif_jmp, n)), Label(tpl.endif, n));
      ExtendsTrans(g2, Emit(g2, Label(tpl.begif_jmp, n)), g3);
      ExtendsTrans(g, g1, g2);
      ExtendsTrans(g, g2, g3);
      Done(g3)
  }

  /** `ExpressionHandler`: variables are read, integer constants pushed,
      arithmetic, comparisons, logical operations and calls dispatched;
      any other node is an `assert(0)`.  An expression changes neither the
      table nor the nesting counter nor the if labels, and takes exactly
      `BoolOps(t)` comparison labels. */
  function ExprGen(tpl: Templates, g: Gen, t: Ast.Tree): (r: Outcome)
    requires GenOk(g) && CNames(t)
    ensures r.Done? ==> Extends(g, r.g) && Quiet(g, r.g) && r.g.bool_cnt == g.bool_cnt + BoolOps(t)
    decreases t, 4
  {
    if t.Nil? then Abort
    else match t.data
      case Var(name) => AccessGen(tpl, g, name, Get)
      case Num(ctype, v) =>
        if ctype == Ast.ConstInt then Done(Emit(g, "PUSH " + IntToDec(v) + "\n")) else Abort
      case Op(op) => OpGen(tpl, g, t, op)
      case _ => Abort
  }

  /** `ExpressionHandler` on an operator node. */
  function OpGen(tpl: Templates, g: Gen, t: Ast.Tree, op: Ast.Operation): (r: Outcome)
    requires GenOk(g) && CNames(t) && t.Node? && t.data == Ast.Op(op)
    ensures r.Done? ==> Extends(g, r.g) && Quiet(g, r.g) && r.g.bool_cnt == g.bool_cnt + BoolOps(t)
    decreases t, 3
  {
        if op in {Ast.Add, Ast.Sub, Ast.Mul, Ast.Div} then ArithGen(tpl, g, t, ArithInstr(op))
        else if IsCompare(op) then CompareGen(tpl, g, t, FalseJump(op))
        else if op == Ast.LAnd then LandGen(tpl, g, t)
        else if op == Ast.LOr then LorGen(tpl, g, t)
        else if op == Ast.Call then CallGen(tpl, g, t)
        else Abort
  }

  /** The arithmetic handlers: both operands must be present; left, then
      right, then the instruction. */
  function ArithGen(tpl: Templates, g: Gen, t: Ast.Tree, instr: string): (r: Outcome)
    requires GenOk(g) && CNames(t) && t.Node?
    ensures r.Done? ==> Extends(g, r.g) && Quiet(g, r.g)
                        && r.g.bool_cnt == g.bool_cnt + BoolOps(t.left) + BoolOps(t.right)
    decreases t, 1
  {
    if t.left.Nil? || t.right.Nil? then Abort
    else
      match ExprGen(tpl, g, t.left)
      case Abort => Abort
      case Done(g1) =>
        match ExprGen(tpl, g1, t.right)
        case Abort => Abort
        case Done(g2) =>
          ExtendsTrans(g, g1, g2);
          ExtendsTrans(g, g2, Emit(g2, instr));
          Done(Emit(g2, instr))
  }

  /** The comparison handlers: both operands, then the jump to the false
      branch and the `bool_cmp` block labelled with `bool_cnt`, which is
      then bumped. */
  function CompareGen(tpl: Templates, g: Gen, t: Ast.Tree, jump: string): (r: Outcome)
    requires GenOk(g) && CNames(t) && t.Node?
    ensures r.Done? ==> Extends(g, r.g) && Quiet(g, r.g)
                        && r.g.bool_cnt == g.bool_cnt + BoolOps(t.left) + BoolOps(t.right) + 1
    decreases t, 1
  {
    if t.left.Nil? || t.right.Nil? then Abort
    else
      match ExprGen(tpl, g, t.left)
      case Abort => Abort
      case Done(g1) =>
        match ExprGen(tpl, g1, t.right)
        case Abort => Abort
        case Done(g2) =>
          var g3 := Emit(Emit(TakeBool(g2), jump), Label(BOOL_CMP, g2.bool_cnt));
          ExtendsTrans(g2, TakeBool(g2), Emit(TakeBool(g2), jump));
          ExtendsTrans(g2, Emit(TakeBool(g2), jump), g3);
          ExtendsTrans(g, g1, g2);
          ExtendsTrans(g, g2, g3);
          Done(g3)
  }

  /** `LandHandler`: the product of the operands, then the `unary_bool_cmp`
      block. */
  function LandGen(tpl: Templates, g: Gen, t: Ast.Tree): (r: Outcome)
    requires GenOk(g) && CNames(t) && t.Node?
    ensures r.Done? ==> Extends(g, r.g) && Quiet(g, r.g)
                        && r.g.bool_cnt == g.bool_cnt + BoolOps(t.left) + BoolOps(t.right) + 1
    decreases t, 2
  {
    match ArithGen(tpl, g, t, "MUL\n")
    case Abort => Abort
    case Done(g1) =>
      var g2 := Emit(TakeBool(g1), Label(UNARY_BOOL_CMP, g1.bool_cnt));
      ExtendsTrans(g1, TakeBool(g1), g2);
      ExtendsTrans(g, g1, g2);
      Done(g2)
  }

  /** `LorHandler`: the sum of the operands, their product, SUB, then the
      `unary_bool_cmp` block; the operands are generated twice. */
  function LorGen(tpl: Templates, g: Gen, t: Ast.Tree): (r: Outcome)
    requires GenOk(g) && CNames(t) && t.Node?
    ensures r.Done? ==> Extends(g, r.g) && Quiet(g, r.g)
                        && r.g.bool_cnt == g.bool_cnt + 2 * (BoolOps(t.left) + BoolOps(t.right)) + 1
    decreases t, 2
  {
    match ArithGen(tpl, g, t, "ADD\n")
    case Abort => Abort
    case Done(g1) =>
      match ArithGen(tpl, g1, t, "MUL\n")
      case Abort => Abort
      case Done(g2) =>
        var g3 := Emit(Emit(TakeBool(g2), "SUB\n"), Label(UNARY_BOOL_CMP, g2.bool_cnt));
        ExtendsTrans(g2, TakeBool(g2), Emit(TakeBool(g2), "SUB\n"));
        ExtendsTrans(g2, Emit(TakeBool(g2), "SUB\n"), g3);
        ExtendsTrans(g, g1, g2);
        ExtendsTrans(g, g2, g3);
        Done(g3)
  }

  /** `FuncCallHandler`: the arguments, then "CALL name"; the callee must
      be a variable node. */
  function CallGen(tpl: Templates, g: Gen, t: Ast.Tree): (r: Outcome)
    requires GenOk(g) && CNames(t) && t.Node?
    ensures r.Done? ==> Extends(g, r.g) && Quiet(g, r.g) && r.g.bool_cnt == g.bool_cnt + ArgsBoolOps(t.left)
    decreases t, 2
  {
    match ArgsGen(tpl, g, t.left)
    case Abort => Abort
    case Done(g1) =>
      if t.right.Nil? || !t.right.data.Var? then Abort
      else
        ExtendsTrans(g, g1, Emit(g1, "CALL " + t.right.data.name + "\n"));
        Done(Emit(g1, "CALL " + t.right.data.name + "\n"))
  }

  /** The argument loop of `FuncCallHandler`, down the left spine. */
  function ArgsGen(tpl: Templates, g: Gen, s: Ast.Tree): (r: Outcome)
    requires GenOk(g) && CNames(s)
    ensures r.Done? ==> Extends(g, r.g) && Quiet(g, r.g) && r.g.bool_cnt == g.bool_cnt + ArgsBoolOps(s)
    decreases s
  {
    if s.Nil? then ExtendsRefl(g); Done(g)
    else
      match ExprGen(tpl, g, s.right)
      case Abort => Abort
      case Done(g1) =>
        match ArgsGen(tpl, g1, s.left)
        case Abort => Abort
        case Done(g2) => ExtendsTrans(g, g1, g2); Done(g2)
  }

  /** Seven appends in a row append their concatenation. */
  lemma Append7(s: string, a: string, b: string, c: string, d: string, e: string, f: string, h: string)
    ensures s + a + b + c + d + e + f + h == s + (a + b + c + d + e + f + h)
  {
  }

  /** The state the walk starts from: the buffer holding `initial` and
      the prologue, a fresh table (`SymbolTableInit`, whose global scope's
      RAM offset is already 0), nesting 0 and both counters 0. */
  function Start(tpl: Templates, initial: string): (g: Gen)
    ensures GenOk(g) && g.code == initial + Prologue(tpl)
    ensures g.if_cnt == 0 && g.bool_cnt == 0 && g.if_used == [] && g.bool_used == []
  {
    var code := initial + ASM_BASE + MOVE_RAX_BY_ONE + ENTER_SCOPE + EXIT_SCOPE + SET_RCX_OFFSET
                + tpl.get_rcx_by_offset + tpl.set_rcx_by_offset;
    Append7(initial, ASM_BASE, MOVE_RAX_BY_ONE, ENTER_SCOPE, EXIT_SCOPE, SET_RCX_OFFSET,
            tpl.get_rcx_by_offset, tpl.set_rcx_by_offset);
    var st := ST.InitState();
    assert ST.ChainLive(st.scopes, st.current);
    Seal(Gen(0, 0, 0, code, st, [], []));
    Gen(0, 0, 0, code, st, [], [])
  }

  /** `SymbolTableDestroy` at the end of the walk: with no saved cursor
      and a live chain it always succeeds and leaves no current scope. */
  function Finish(g: Gen): (r: Gen)
    requires GenOk(g)
    ensures r.table.current == -1
    ensures r == g.(table := r.table)
  {
    Unseal(g);
    ST.DestroyFreesChain(g.table);
    g.(table := ST.AfterDestroy(g.table).value)
  }

  /** `AssemblyCodeGeneration` on a buffer holding `initial`: the
      prologue, the walk from the root, then `SymbolTableDestroy`.  Every
      label number from 0 up to the final counters was used exactly once. */
  function Generate(tpl: Templates, root: Ast.Tree, initial: string): (r: Outcome)
    requires CNames(root)
  {
    match NodeGen(tpl, Start(tpl, initial), root)
    case Abort => Abort
    case Done(g1) => Done(Finish(g1))
  }

  /** A successful generation keeps the buffer's old contents and the
      prologue in front, leaves no current scope, and used every label
      number from 0 up to the final counters exactly once, in order. */
  lemma GenerateOutput(tpl: Templates, root: Ast.Tree, initial: string)
    requires CNames(root)
    ensures Generate(tpl, root, initial).Done? ==>
              var g := Generate(tpl, root, initial).g;
              initial + Prologue(tpl) <= g.code && g.table.current == -1
              && g.if_used == Range(0, g.if_cnt) && g.bool_used == Range(0, g.bool_cnt)
  {
    var g0 := Start(tpl, initial);
    if NodeGen(tpl, g0, root).Done? {
      var g1 := NodeGen(tpl, g0, root).g;
      Unseal(g1);
    }
  }

  /** No two if/while statements of a program share a label, and no two
      comparisons do: each trace holds every counter value once, and
      different values expand a template with a placeholder to different
      labels.  `cmp` picks the comparison trace. */
  lemma GeneratedLabelsDistinct(tpl: Templates, root: Ast.Tree, initial: string, cmp: bool,
                                s: string, i: nat, j: nat)
    requires CNames(root) && '#' in s && Generate(tpl, root, initial).Done?
    requires var g := Generate(tpl, root, initial).g;
             i < j < |if cmp then g.bool_used else g.if_used|
    ensures var g := Generate(tpl, root, initial).g;
            var trace := if cmp then g.bool_used else g.if_used;
            Label(s, trace[i]) != Label(s, trace[j])
  {
    var g := Generate(tpl, root, initial).g;
    var trace := if cmp then g.bool_used else g.if_used;
    GenerateOutput(tpl, root, initial);
    var n := if cmp then g.bool_cnt else g.if_cnt;
    assert trace == Range(0, n);
    RangeAt(0, n, i);
    RangeAt(0, n, j);
    if Label(s, trace[i]) == Label(s, trace[j]) {
      LabelInjective(s, trace[i], trace[j]);
    }
  }

  // ---------------------------------------------------------------------
  // The generator as the C code runs it

  /** `CntLabel`: copies the template, writing "_" and the counter in
      place of every '#'. */
  method CntLabel(s: string, cnt: nat) returns (r: string)
    ensures r == Label(s, cnt)
  {
    var num := "_" + NatToDec(cnt);
    r := [];
    var i := 0;
    while i < |s|
      invariant 0 <= i <= |s| && r == Expand(s[..i], num)
    {
      assert s[..i + 1] == s[..i] + [s[i]];
      ExpandAppend(s[..i], [s[i]], num);
      assert Expand([s[i]], num) == (if s[i] == '#' then num else [s[i]]) + Expand([], num);
      if s[i] == '#' {
        r := r + num;
      } else {
        r := r + [s[i]];
      }
      i := i + 1;
    }
    assert s[..|s|] == s;
  }

  /** `ASM_GenerSetup`: the buffer it writes to, the symbol table, the
      nesting counter and the label counters.  The table is held as the
      value the symbol table's operations are proved against. */
  class Generator {
    const tpl: Templates
    var code: string
    var table: ST.TableState
    var scope_level: nat
    var if_cnt: nat
    var bool_cnt: nat
    ghost var if_used: seq<nat>
    ghost var bool_used: seq<nat>

    ghost function State(): Gen
      reads this
    {
      Gen(scope_level, if_cnt, bool_cnt, code, table, if_used, bool_used)
    }

    /** The walk's invariant holds of the state. */
    ghost predicate Valid()
      reads this
    {
      GenOk(State())
    }

    /** The setup `AssemblyCodeGeneration` builds around a buffer: a
        freshly initialised table, nesting 0 and both counters 0. */
    constructor (tpl: Templates, code: string)
      ensures Valid() && this.tpl == tpl
      ensures State() == Gen(0, 0, 0, code, ST.InitState(), [], [])
    {
      this.tpl := tpl;
      this.code := code;
      table := ST.InitState();
      scope_level, if_cnt, bool_cnt := 0, 0, 0;
      if_used, bool_used := [], [];
      new;
      assert ST.ChainLive(table.scopes, table.current);
      Seal(State());
    }

    /** The body of `AssemblyCodeGeneration` on a fresh generator: the
        prologue, the walk, then `SymbolTableDestroy`. */
    method Run(root: Ast.Tree) returns (ok: bool)
      requires Valid() && if_cnt == 0 && bool_cnt == 0 && if_used == [] && bool_used == []
      requires scope_level == 0 && table == ST.InitState() && CNames(root)
      modifies this
      ensures ok <==> Generate(tpl, root, old(code)).Done?
      ensures ok ==> State() == Generate(tpl, root, old(code)).g
    {
      Prologue();
      ok := Node(root);
      if ok {
        Destroy();
      }
    }

    /** The prologue `AssemblyCodeGeneration` writes before the walk. */
    method Prologue()
      requires Valid() && if_cnt == 0 && bool_cnt == 0 && if_used == [] && bool_used == []
      requires scope_level == 0 && table == ST.InitState()
      modifies this
      ensures State() == Start(tpl, old(code)) && Valid()
    {
      Push(ASM_BASE);
      Push(MOVE_RAX_BY_ONE);
      Push(ENTER_SCOPE);
      Push(EXIT_SCOPE);
      Push(SET_RCX_OFFSET);
      Push(tpl.get_rcx_by_offset);
      Push(tpl.set_rcx_by_offset);
    }

    /** `BufferPush` of a whole string. */
    method Push(s: string)
      requires Valid()
      modifies this
      ensures State() == Emit(old(State()), s) && Valid()
    {
      code := code + s;
    }

    /** `++if_cnt`. */
    method BumpIf()
      requires Valid()
      modifies this
      ensures State() == TakeIf(old(State())) && Valid()
    {
      if_cnt, if_used := if_cnt + 1, if_used + [if_cnt];
    }

    /** `bool_cnt++`. */
    method BumpBool()
      requires Valid()
      modifies this
      ensures State() == TakeBool(old(State())) && Valid()
    {
      bool_cnt, bool_used := bool_cnt + 1, bool_used + [bool_cnt];
    }

    /** `SymbolTableEnterScope` then the `enter_scope` call. */
    method OpenScope()
      requires Valid()
      modifies this
      ensures State() == Open(old(State())) && Valid()
    {
      ghost var g := State();
      Unseal(g);
      ST.EnterKeepsChainLive(table);
      table := ST.AfterEnter(table);
      Seal(State());
      assert State() == g.(table := ST.AfterEnter(g.table));
      Push(ENTER_SCOPE_CALL);
      OpenIs(g);
    }

    /** `SymbolTableExitScope`. */
    method CloseScope()
      requires Valid() && table.current != -1
      modifies this
      ensures State() == Close(old(State())) && Valid()
    {
      Unseal(State());
      ST.ExitKeepsChainLive(table);
      table := ST.AfterExit(table);
      Seal(State());
    }

    /** `scope_ram_offset++` then `SymbolTableInsert` at the new offset. */
    method DeclareVar(v: Ast.Tree)
      requires Valid() && table.current != -1 && CNames(v) && v.Node? && v.data.Var?
      modifies this
      ensures State() == Declare(old(State()), v) && Valid()
    {
      ghost var g := State();
      Unseal(g);
      ST.BumpKeepsChainLive(table);
      table := ST.AfterBump(table);
      var k := table.scopes[table.current].ram_offset;
      ST.InsertThenLookUp(table, v.data.name, ST.SymVariable, ST.DataInt, v, k);
      table := ST.AfterInsert(table, v.data.name, ST.SymVariable, ST.DataInt, v, k);
      Seal(State());
      assert State() == Declare(g, v);
    }

    /** `SymbolTableDestroy` once the walk is done. */
    method Destroy()
      requires Valid()
      modifies this
      ensures State() == Finish(old(State()))
    {
      Unseal(State());
      ST.DestroyFreesChain(table);
      table := ST.AfterDestroy(table).value;
    }

    /** `AST_NodeHandler`. */
    method Node(t: Ast.Tree) returns (ok: bool)
      requires Valid() && CNames(t)
      modifies this
      ensures ok <==> NodeGen(tpl, old(State()), t).Done?
      ensures ok ==> State() == NodeGen(tpl, old(State()), t).g && Valid()
      decreases t, 4
    {
      if t.Nil? {
        return false;
      }
      ghost var r := StmtGen(tpl, State(), t);
      match t.data
      case Op(Sentinel) => ok := Sentinel(t);
      case Decl(_) => ok := Declaration(t);
      case Op(Return) => ok := Return(t);
      case Op(Print) => ok := Print(t);
      case Op(Assignment) => ok := Assignment(t);
      case Op(If) => ok := If(t);
      case Op(While) => ok := While(t);
      case _ => ok := Expression(t);
    }

    /** `SentinelHandler`. */
    method Sentinel(t: Ast.Tree) returns (ok: bool)
      requires Valid() && CNames(t) && t.Node?
      modifies this
      ensures ok <==> SentinelGen(tpl, old(State()), t).Done?
      ensures ok ==> State() == SentinelGen(tpl, old(State()), t).g && Valid()
      decreases t, 3
    {
      ok := Begin();
      if ok {
        ok := Inner(t);
      }
    }

    /** The start of `SentinelHandler`. */
    method Begin() returns (ok: bool)
      requires Valid()
      modifies this
      ensures ok <==> BeginBlock(old(State())).Done?
      ensures ok ==> State() == BeginBlock(old(State())).g && Valid()
    {
      Unseal(State());
      if table.current == -1 {
        return false;
      }
      var level := table.scopes[table.current].level;
      if scope_level > level {
        if scope_level == level + 1 {
          OpenScope();
        } else {
          return false;
        }
      }
      ok := true;
    }

    /** The block of `SentinelHandler`. */
    method Inner(t: Ast.Tree) returns (ok: bool)
      requires Valid() && CNames(t) && t.Node?
      modifies this
      ensures ok <==> InnerGen(tpl, old(State()), t).Done?
      ensures ok ==> State() == InnerGen(tpl, old(State()), t).g && Valid()
      decreases t, 2
    {
      SameBooks(State(), State().(scope_level := scope_level + 1));
      scope_level := scope_level + 1;
      ok := true;
      if t.left.Node? {
        ok := Node(t.left);
      }
      if ok {
        SameBooks(State(), State().(scope_level := scope_level - 1));
        scope_level := scope_level - 1;
        ok := BlockEnd(t);
      }
    }

    /** The end of `SentinelHandler`. */
    method BlockEnd(t: Ast.Tree) returns (ok: bool)
      requires Valid() && CNames(t) && t.Node?
      modifies this
      ensures ok <==> BlockEndGen(tpl, old(State()), t).Done?
      ensures ok ==> State() == BlockEndGen(tpl, old(State()), t).g && Valid()
      decreases t, 1
    {
      if t.right.Node? {
        ok := Node(t.right);
      } else {
        ok := End();
      }
    }

    /** `EndBlock`: the exit call and `SymbolTableExitScope`. */
    method End() returns (ok: bool)
      requires Valid()
      modifies this
      ensures ok <==> EndBlock(old(State())).Done?
      ensures ok ==> State() == EndBlock(old(State())).g && Valid()
    {
      if table.current == -1 {
        return false;
      }
      if table.current != table.global {
        Push(EXIT_SCOPE_CALL);
      }
      CloseScope();
      ok := true;
    }

    /** `DeclarationHandler`. */
    method Declaration(t: Ast.Tree) returns (ok: bool)
      requires Valid() && CNames(t) && t.Node?
      modifies this
      ensures ok <==> DeclGen(tpl, old(State()), t).Done?
      ensures ok ==> State() == DeclGen(tpl, old(State()), t).g && Valid()
      decreases t, 3
    {
      if t.right.Nil? || t.left.Node? {
        return false;
      }
      if t.right.data.Var? && t.right.right.Node? {
        ok := FuncDec(t.right);
      } else {
        ok := VarDec(t.right);
      }
    }

    /** `FuncDecHandler`. */
    method FuncDec(f: Ast.Tree) returns (ok: bool)
      requires Valid() && CNames(f) && f.Node? && f.data.Var?
      modifies this
      ensures ok <==> FuncDecGen(tpl, old(State()), f).Done?
      ensures ok ==> State() == FuncDecGen(tpl, old(State()), f).g && Valid()
      decreases f, 2
    {
      Push(": " + f.data.name + "\n");
      OpenScope();
      ghost var g1 := State();
      var v := f.left;
      while v.Node?
        invariant Valid() && CNames(v)
        invariant ParamsGen(g1, f.left) == ParamsGen(State(), v)
        decreases v
      {
        ok := ParamDec(v);
        if !ok {
          return;
        }
        v := v.left;
      }
      ok := Node(f.right);
    }

    /** `ParamDecHandler`. */
    method ParamDec(v: Ast.Tree) returns (ok: bool)
      requires Valid() && CNames(v) && v.Node?
      modifies this
      ensures ok <==> ParamGen(old(State()), v).Done?
      ensures ok ==> State() == ParamGen(old(State()), v).g && Valid()
    {
      Push(RAM_PUSH);
      if table.current == -1 || v.right.Nil? || !v.right.data.Var? {
        return false;
      }
      DeclareVar(v.right);
      ok := true;
    }

    /** `VarDecHandler`, with the declared name taken from `DeclaredNode`. */
    method VarDec(v: Ast.Tree) returns (ok: bool)
      requires Valid() && CNames(v) && v.Node?
      modifies this
      ensures ok <==> VarDecGen(tpl, old(State()), v).Done?
      ensures ok ==> State() == VarDecGen(tpl, old(State()), v).g && Valid()
      decreases v, 2
    {
      if v.data == Ast.Op(Ast.Assignment) {
        ok := Expression(v.right);
        if !ok {
          return;
        }
        Push(RAM_PUSH);
      } else {
        Push(MOVE_RAX_BY_ONE_CALL);
      }
      var n := DeclaredNode(v);
      if table.current == -1 || n.Nil? || !n.data.Var? {
        return false;
      }
      DeclareVar(n);
      ok := true;
    }

    /** `ReturnHandler`. */
    method Return(t: Ast.Tree) returns (ok: bool)
      requires Valid() && CNames(t) && t.Node?
      modifies this
      ensures ok <==> ReturnGen(tpl, old(State()), t).Done?
      ensures ok ==> State() == ReturnGen(tpl, old(State()), t).g && Valid()
      decreases t, 3
    {
      ok := Expression(t.right);
      if ok {
        ok := Leave();
      }
    }

    /** The end of `ReturnHandler`. */
    method Leave() returns (ok: bool)
      requires Valid()
      modifies this
      ensures ok <==> LeaveGen(old(State())).Done?
      ensures ok ==> State() == LeaveGen(old(State())).g && Valid()
    {
      Unseal(State());
      if table.current == -1 {
        return false;
      }
      ghost var g1 := State();
      var level := table.scopes[table.current].level;
      var i := 0;
      while i < level
        invariant i <= level && Valid()
        invariant State() == Emit(g1, Repeat(EXIT_SCOPE_CALL, i))
      {
        EmitTwice(g1, Repeat(EXIT_SCOPE_CALL, i), EXIT_SCOPE_CALL);
        Push(EXIT_SCOPE_CALL);
        i := i + 1;
      }
      CloseScope();
      Push(RET);
      ok := true;
    }

    /** `PrintHandler`. */
    method Print(t: Ast.Tree) returns (ok: bool)
      requires Valid() && CNames(t) && t.Node?
      modifies this
      ensures ok <==> PrintGen(tpl, old(State()), t).Done?
      ensures ok ==> State() == PrintGen(tpl, old(State()), t).g && Valid()
      decreases t, 3
    {
      ok := Expression(t.right);
      if ok {
        Push(OUT);
      }
    }

    /** `AssignmentHandler`. */
    method Assignment(t: Ast.Tree) returns (ok: bool)
      requires Valid() && CNames(t) && t.Node?
      modifies this
      ensures ok <==> AssignGen(tpl, old(State()), t).Done?
      ensures ok ==> State() == AssignGen(tpl, old(State()), t).g && Valid()
      decreases t, 3
    {
      ghost var g := State();
      var a := t.left;
      if a.Nil? {
        return false;
      }
      while a.right.Node?
        invariant Valid() && CNames(a) && a.Node?
        invariant ChainGen(tpl, g, t, t.left) == ChainGen(tpl, State(), t, a)
        decreases a
      {
        ok := Expression(t.right);
        if !ok {
          return;
        }
        ok := SetVariable(a.right);
        if !ok {
          return;
        }
        a := a.left;
        if a.Nil? {
          return false;
        }
      }
      ok := Expression(t.right);
      if !ok {
        return;
      }
      ok := SetVariable(a);
    }

    /** `IfStatementHandler`. */
    method If(t: Ast.Tree) returns (ok: bool)
      requires Valid() && CNames(t) && t.Node?
      modifies this
      ensures ok <==> IfGen(tpl, old(State()), t).Done?
      ensures ok ==> State() == IfGen(tpl, old(State()), t).g && Valid()
      decreases t, 3
    {
      ok := Expression(t.left);
      if ok {
        ok := IfRest(t);
      }
    }

    /** The part of `IfStatementHandler` after the condition. */
    method IfRest(t: Ast.Tree) returns (ok: bool)
      requires Valid() && CNames(t) && t.Node?
      modifies this
      ensures ok <==> IfBody(tpl, old(State()), t).Done?
      ensures ok ==> State() == IfBody(tpl, old(State()), t).g && Valid()
      decreases t, 2
    {
      var n := IfOpen();
      ok := Node(t.right);
      if ok {
        var if_end := CntLabel(tpl.endif, n);
        Push(if_end);
      }
    }

    /** The `if_statement` label and the new scope; `n` is the label number. */
    method IfOpen() returns (n: nat)
      requires Valid()
      modifies this
      ensures n == old(if_cnt)
      ensures State() == IfHead(tpl, old(State())) && Valid()
    {
      n := if_cnt;
      var if_st := CntLabel(tpl.if_statement, n);
      BumpIf();
      Push(if_st);
      OpenScope();
    }

    /** `WhileStatementHandler`. */
    method While(t: Ast.Tree) returns (ok: bool)
      requires Valid() && CNames(t) && t.Node?
      modifies this
      ensures ok <==> WhileGen(tpl, old(State()), t).Done?
      ensures ok ==> State() == WhileGen(tpl, old(State()), t).g && Valid()
      decreases t, 3
    {
      var n := if_cnt;
      var if_beg := CntLabel(tpl.begif, n);
      BumpIf();
      Push(if_beg);
      ok := Expression(t.left);
      if ok {
        ok := Loop(t, n);
      }
    }

    /** The part of `WhileStatementHandler` after the condition. */
    method Loop(t: Ast.Tree, n: nat) returns (ok: bool)
      requires Valid() && CNames(t) && t.Node?
      modifies this
      ensures ok <==> LoopGen(tpl, old(State()), t, n).Done?
      ensures ok ==> State() == LoopGen(tpl, old(State()), t, n).g && Valid()
      decreases t, 2
    {
      var if_st := CntLabel(tpl.if_statement, n);
      var if_beg_jump := CntLabel(tpl.begif_jmp, n);
      var if_end := CntLabel(tpl.endif, n);
      Push(if_st);
      OpenScope();
      ok := Node(t.right);
      if ok {
        Push(if_beg_jump);
        Push(if_end);
      }
    }

    /** `ExpressionHandler`. */
    method Expression(t: Ast.Tree) returns (ok: bool)
      requires Valid() && CNames(t)
      modifies this
      ensures ok <==> ExprGen(tpl, old(State()), t).Done?
      ensures ok ==> State() == ExprGen(tpl, old(State()), t).g && Valid()
      decreases t, 3
    {
      if t.Nil? {
        return false;
      }
      match t.data
      case Var(name) => ok := Access(name, Get);
      case Num(ctype, v) =>
        if ctype != Ast.ConstInt {
          return false;
        }
        Push("PUSH " + IntToDec(v) + "\n");
        ok := true;
      case Op(op) =>
        ghost var r := OpGen(tpl, State(), t, op);
        if op in {Ast.Add, Ast.Sub, Ast.Mul, Ast.Div} {
          ok := Arith(t, ArithInstr(op));
        } else if IsCompare(op) {
          ok := Compare(t, FalseJump(op));
        } else if op == Ast.LAnd {
          ok := Land(t);
        } else if op == Ast.LOr {
          ok := Lor(t);
        } else if op == Ast.Call {
          ok := FuncCall(t);
        } else {
          ok := false;
        }
      case _ => ok := false;
    }

    /** `AddHandler`, `SubHandler`, `MulHandler`, `DivHandler`. */
    method Arith(t: Ast.Tree, instr: string) returns (ok: bool)
      requires Valid() && CNames(t) && t.Node?
      modifies this
      ensures ok <==> ArithGen(tpl, old(State()), t, instr).Done?
      ensures ok ==> State() == ArithGen(tpl, old(State()), t, instr).g && Valid()
      decreases t, 1
    {
      if t.left.Nil? || t.right.Nil? {
        return false;
      }
      ok := Expression(t.left);
      if !ok {
        return;
      }
      ok := Expression(t.right);
      if ok {
        Push(instr);
      }
    }

    /** `LTHandler` … `NEHandler`. */
    method Compare(t: Ast.Tree, jump: string) returns (ok: bool)
      requires Valid() && CNames(t) && t.Node?
      modifies this
      ensures ok <==> CompareGen(tpl, old(State()), t, jump).Done?
      ensures ok ==> State() == CompareGen(tpl, old(State()), t, jump).g && Valid()
      decreases t, 1
    {
      if t.left.Nil? || t.right.Nil? {
        return false;
      }
      ok := Expression(t.left);
      if !ok {
        return;
      }
      ok := Expression(t.right);
      if !ok {
        return;
      }
      var cmp_label := CntLabel(BOOL_CMP, bool_cnt);
      BumpBool();
      Push(jump);
      Push(cmp_label);
    }

    /** `LandHandler`. */
    method Land(t: Ast.Tree) returns (ok: bool)
      requires Valid() && CNames(t) && t.Node?
      modifies this
      ensures ok <==> LandGen(tpl, old(State()), t).Done?
      ensures ok ==> State() == LandGen(tpl, old(State()), t).g && Valid()
      decreases t, 2
    {
      ok := Arith(t, "MUL\n");
      if !ok {
        return;
      }
      var cmp_label := CntLabel(UNARY_BOOL_CMP, bool_cnt);
      BumpBool();
      Push(cmp_label);
    }

    /** `LorHandler`. */
    method Lor(t: Ast.Tree) returns (ok: bool)
      requires Valid() && CNames(t) && t.Node?
      modifies this
      ensures ok <==> LorGen(tpl, old(State()), t).Done?
      ensures ok ==> State() == LorGen(tpl, old(State()), t).g && Valid()
      decreases t, 2
    {
      ok := Arith(t, "ADD\n");
      if !ok {
        return;
      }
      ok := Arith(t, "MUL\n");
      if !ok {
        return;
      }
      var cmp_label := CntLabel(UNARY_BOOL_CMP, bool_cnt);
      BumpBool();
      Push("SUB\n");
      Push(cmp_label);
    }

    /** `FuncCallHandler`. */
    method FuncCall(t: Ast.Tree) returns (ok: bool)
      requires Valid() && CNames(t) && t.Node?
      modifies this
      ensures ok <==> CallGen(tpl, old(State()), t).Done?
      ensures ok ==> State() == CallGen(tpl, old(State()), t).g && Valid()
      decreases t, 2
    {
      ghost var g := State();
      var s := t.left;
      while s.Node?
        invariant Valid() && CNames(s)
        invariant ArgsGen(tpl, g, t.left) == ArgsGen(tpl, State(), s)
        decreases s
      {
        ok := Expression(s.right);
        if !ok {
          return;
        }
        s := s.left;
      }
      if t.right.Nil? || !t.right.data.Var? {
        return false;
      }
      Push("CALL " + t.right.data.name + "\n");
      ok := true;
    }

    /** `SetVariableHandler` on the node `v`. */
    method SetVariable(v: Ast.Tree) returns (ok: bool)
      requires Valid() && CNames(v)
      modifies this
      ensures ok <==> SetGen(tpl, old(State()), v).Done?
      ensures ok ==> State() == SetGen(tpl, old(State()), v).g && Valid()
    {
      if v.Nil? || !v.data.Var? {
        return false;
      }
      ok := Access(v.data.name, Set);
    }

    /** `GetVariableHandler` / `SetVariableHandler`: the text is built in a
        local buffer, one hop per loop turn, then pushed. */
    method Access(name: string, kind: Access) returns (ok: bool)
      requires Valid() && CName(name)
      modifies this
      ensures ok <==> AccessGen(tpl, old(State()), name, kind).Done?
      ensures ok ==> State() == AccessGen(tpl, old(State()), name, kind).g && Valid()
    {
      ghost var g := State();
      Unseal(g);
      var found := ST.Resolve(table.scopes, table.current, Key(name));
      if found.None? {
        return true;
      }
      if scope_level == 0 {
        return false;
      }
      var d := found.value;
      var hops: string := [];
      var i := d.scope_level;
      ghost var n: nat := 0;
      while i < scope_level - 1
        invariant d.scope_level <= i && n == i - d.scope_level
        invariant i <= scope_level - 1 || i == d.scope_level
        invariant hops == Repeat(HOP, n)
      {
        hops := hops + HOP;
        i := i + 1;
        n := n + 1;
      }
      assert n == Hops(d.scope_level, scope_level).value;
      var text := (if kind == Get then "; get variable \"" else "; set variable \"") + name + "\"\n"
                  + "PUSHR  RBX\nPOPR   RCX\n"
                  + hops
                  + "PUSH " + NatToDec(d.symbol_ram_offset) + "\n"
                  + (if kind == Get then "CALL get_rcx_by_offset\n\n" else "CALL set_rcx_by_offset\n\n");
      Push(text);
      ok := true;
    }
  }

  /** `AssemblyCodeGeneration`: a fresh table and setup around the
      caller's buffer, the prologue, the walk from the root, then
      `SymbolTableDestroy`.  `ok` is false where the C program would have
      stopped. */
  method AssemblyCodeGeneration(tpl: Templates, root: Ast.Tree, code: Buffer.Buffer) returns (ok: bool)
    requires code.Valid() && code.size <= code.capacity && CNames(root)
    modifies code, code.data
    ensures ok <==> Generate(tpl, root, old(code.Contents())).Done?
    ensures ok ==> code.Valid() && code.size <= code.capacity
                   && code.Contents() == Generate(tpl, root, old(code.Contents())).g.code
  {
    ghost var initial := code.Contents();
    var gen := new Generator(tpl, code.data[..code.size]);
    ok := gen.Run(root);
    if ok {
      GenerateOutput(tpl, root, initial);
      PrefixRest(initial, gen.code);
      var _ := code.Push(gen.code[code.size..]);
    }
  }

  lemma PrefixRest(a: string, b: string)
    requires a <= b
    ensures a + b[|a|..] == b
  {
    assert b == b[..|a|] + b[|a|..];
  }
}
