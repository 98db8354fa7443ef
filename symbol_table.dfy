/** The scoped symbol table of src/symbol_table.c, with the frame-offset
    extension the code generator is written against (a per-scope
    `scope_ram_offset` counter and a per-symbol `symbol_ram_offset`).

    Scopes live in an arena: a scope pointer is an index into `scopes`, and
    NULL is -1.  `SymbolTableExitScope` frees the scope it leaves; the model
    keeps the record and marks it dead, and every operation that would read
    a scope through a pointer requires it to be live.  Each scope's map is
    the value model of HashTable/src/hash_table.c, keyed, as the C code
    keys it, by the name's bytes followed by the terminating NUL.

    The pure functions `After*` say what each operation leaves behind; the
    class `SymTable` holds the C structure's fields and its methods are
    proved to leave exactly those states. */
module SymbolTable {
  import opened Common
  import Ast
  import HT = HashTable
  import Stack

  const INITIAL_CAPACITY: nat := 8

  datatype SymbolType = SymVariable | SymConstant | SymFunction | SymParameter

  datatype DataType = DataShort | DataInt | DataLong | DataDouble | DataChar | DataVoid

  datatype SymbolData = SymbolData(
    symbol_type: SymbolType, data_type: DataType, scope_level: nat,
    ast_node: Ast.Tree, symbol_ram_offset: nat)

  /** A scope record; `prev` is an arena index or -1, and `live` is false
      once the scope has been freed. */
  datatype Scope = Scope(level: nat, symbols: HT.Table<SymbolData>, prev: int, ram_offset: nat, live: bool)

  /** The table's fields as a value: the arena, the `current_scope` and
      `global_scope` cursors and the contents of the `end_scopes` stack,
      bottom first. */
  datatype TableState = TableState(scopes: seq<Scope>, current: int, global: nat, saved: seq<int>)

  // ---------------------------------------------------------------------
  // Keys

  /** Every key stored in the map is a terminated key. */
  ghost predicate Keyed(t: HT.Table<SymbolData>)
  {
    forall e :: e in multiset(HT.Flatten(t.buckets)) ==> Terminated(e.key)
  }

  /** Terminated keys match (by the map's prefix comparison) only when they
      are equal, so a lookup of `Key(name)` finds exactly that name. */
  lemma KeyedNoOtherMatch(t: HT.Table<SymbolData>, name: string)
    requires Keyed(t) && CName(name)
    ensures HT.NoOtherMatch(t, Key(name))
  {
    var s := Key(name)[..|name|];
    assert Key(name) == s + [0];
    forall e | e in multiset(HT.Flatten(t.buckets))
      ensures exists w :: (forall i :: 0 <= i < |w| ==> w[i] != 0) && e.key == w + [0]
    {
      var w := e.key[..|e.key| - 1];
      assert e.key == w + [0];
    }
    HT.TerminatedNoOtherMatch(t, s);
  }

  // ---------------------------------------------------------------------
  // Well-formed states

  /** A valid hash map whose keys are all terminated. */
  ghost predicate TableOk(t: HT.Table<SymbolData>)
  {
    HT.Inv(t) && Keyed(t)
  }

  /** Scopes point only at older scopes, a root scope is at level 0, every
      map has a bucket count `HashTableFind` accepts, and every map is a
      valid hash map of terminated keys. */
  ghost predicate ScopesOk(scopes: seq<Scope>)
  {
    Linked(scopes) && TablesOk(scopes)
  }

  /** The link and bucket-count half of `ScopesOk`. */
  ghost predicate Linked(scopes: seq<Scope>)
  {
    forall i :: 0 <= i < |scopes| ==> LinkOk(scopes[i], i)
  }

  /** Scope `s` may sit at arena index `i`. */
  ghost predicate LinkOk(s: Scope, i: int)
  {
    -1 <= s.prev < i && (s.prev == -1 ==> s.level == 0) && 2 <= |s.symbols.buckets| < TWO32
  }

  /** Every map in the arena is valid and keyed by terminated keys. */
  ghost predicate TablesOk(scopes: seq<Scope>)
  {
    Every(scopes, MapOk)
  }

  ghost predicate MapOk(s: Scope)
  {
    TableOk(s.symbols)
  }

  /** `P` holds of every element, stated by recursion on the prefix so
      that the solver unfolds it only on demand. */
  ghost predicate Every<T>(xs: seq<T>, P: T -> bool)
    decreases |xs|
  {
    xs == [] || (Every(xs[..|xs| - 1], P) && P(xs[|xs| - 1]))
  }

  lemma {:induction false} EveryAt<T>(xs: seq<T>, P: T -> bool, i: nat)
    requires Every(xs, P) && i < |xs|
    ensures P(xs[i])
    decreases |xs|
  {
    if i < |xs| - 1 {
      EveryAt(xs[..|xs| - 1], P, i);
    }
  }

  lemma {:induction false} EveryUpdate<T>(xs: seq<T>, P: T -> bool, i: nat, x: T)
    requires Every(xs, P) && i < |xs| && P(x)
    ensures Every(xs[i := x], P)
    decreases |xs|
  {
    var r := xs[i := x];
    if i < |xs| - 1 {
      EveryUpdate(xs[..|xs| - 1], P, i, x);
      assert r[..|r| - 1] == xs[..|xs| - 1][i := x];
    } else {
      assert r[..|r| - 1] == xs[..|xs| - 1];
    }
  }

  lemma EveryAppend<T>(xs: seq<T>, P: T -> bool, x: T)
    requires Every(xs, P) && P(x)
    ensures Every(xs + [x], P)
  {
    assert (xs + [x])[..|xs|] == xs;
  }

  lemma TablesOkAt(scopes: seq<Scope>, i: nat)
    requires TablesOk(scopes) && i < |scopes|
    ensures TableOk(scopes[i].symbols)
  {
    EveryAt(scopes, MapOk, i);
  }

  lemma TablesOkUpdate(scopes: seq<Scope>, i: nat, s: Scope)
    requires TablesOk(scopes) && i < |scopes| && TableOk(s.symbols)
    ensures TablesOk(scopes[i := s])
  {
    assert MapOk(s);
    EveryUpdate(scopes, MapOk, i, s);
  }

  /** A scope with a parent is one level deeper than the parent. */
  ghost predicate Leveled(scopes: seq<Scope>)
    requires Linked(scopes)
  {
    forall i :: 0 <= i < |scopes| ==> LevelOk(scopes, i)
  }

  /** Scope `i` is at level 0 or one level below its parent. */
  ghost predicate LevelOk(scopes: seq<Scope>, i: int)
    requires Linked(scopes) && 0 <= i < |scopes|
  {
    scopes[i].prev != -1 ==> scopes[i].level == scopes[scopes[i].prev].level + 1
  }

  /** The new scope `SymbolTableEnterScope` allocates. */
  function NewScope(scopes: seq<Scope>, cursor: int): (s: Scope)
    requires Linked(scopes) && -1 <= cursor < |scopes|
    ensures TableOk(s.symbols) && s.symbols == HT.Init()
    ensures s.prev == cursor && s.live && s.ram_offset == 0
    ensures s.level == if cursor == -1 then 0 else scopes[cursor].level + 1
  {
    var t := HT.Init<SymbolData>();
    assert multiset(HT.Flatten(t.buckets)) == multiset{};
    var level := if cursor == -1 then 0 else scopes[cursor].level + 1;
    Scope(level, t, cursor, 0, true)
  }

  /** The empty map finds no key. */
  lemma NewScopeEmpty(scopes: seq<Scope>, cursor: int, key: seq<bv8>)
    requires Linked(scopes) && -1 <= cursor < |scopes| && |key| > 0
    ensures HT.Find(NewScope(scopes, cursor).symbols, key).None?
  {
    var t := NewScope(scopes, cursor).symbols;
    assert t.buckets[HT.Index(key, |t.buckets|)] == [];
  }

  lemma AppendScope(scopes: seq<Scope>, cursor: int)
    requires ScopesOk(scopes) && Leveled(scopes) && -1 <= cursor < |scopes|
    ensures ScopesOk(scopes + [NewScope(scopes, cursor)]) && Leveled(scopes + [NewScope(scopes, cursor)])
  {
    var s := NewScope(scopes, cursor);
    var r := scopes + [s];
    AppendLinked(scopes, s);
    AppendLeveled(scopes, s);
    assert MapOk(s);
    EveryAppend(scopes, MapOk, s);
  }

  lemma AppendLinked(scopes: seq<Scope>, s: Scope)
    requires Linked(scopes) && LinkOk(s, |scopes|)
    ensures Linked(scopes + [s])
  {
    var r := scopes + [s];
    forall i | 0 <= i < |r|
      ensures LinkOk(r[i], i)
    {
      if i < |scopes| {
        assert r[i] == scopes[i];
      }
    }
  }

  lemma AppendLeveled(scopes: seq<Scope>, s: Scope)
    requires Linked(scopes) && Leveled(scopes) && LinkOk(s, |scopes|)
    requires s.prev != -1 ==> s.level == scopes[s.prev].level + 1
    ensures Linked(scopes + [s]) && Leveled(scopes + [s])
  {
    var r := scopes + [s];
    AppendLinked(scopes, s);
    forall i | 0 <= i < |r|
      ensures LevelOk(r, i)
    {
      if i < |scopes| {
        assert LevelOk(scopes, i);
        assert r[i] == scopes[i];
        if r[i].prev != -1 {
          assert r[r[i].prev] == scopes[scopes[i].prev];
        }
      } else if s.prev != -1 {
        assert r[s.prev] == scopes[s.prev];
      }
    }
  }

  /** Replacing a scope by one with the same links and level keeps the
      arena well formed. */
  lemma UpdateScope(scopes: seq<Scope>, i: nat, s: Scope)
    requires ScopesOk(scopes) && Leveled(scopes) && i < |scopes|
    requires s.prev == scopes[i].prev && s.level == scopes[i].level && TableOk(s.symbols)
    ensures ScopesOk(scopes[i := s]) && Leveled(scopes[i := s])
  {
    assert LinkOk(scopes[i], i);
    assert HT.Inv(s.symbols);
    UpdateLeveled(scopes, i, s);
    TablesOkUpdate(scopes, i, s);
  }

  lemma UpdateLinked(scopes: seq<Scope>, i: nat, s: Scope)
    requires Linked(scopes) && i < |scopes| && LinkOk(s, i)
    ensures Linked(scopes[i := s])
  {
    var r := scopes[i := s];
    forall j | 0 <= j < |r|
      ensures LinkOk(r[j], j)
    {
      if j != i {
        assert r[j] == scopes[j];
      }
    }
  }

  lemma UpdateLeveled(scopes: seq<Scope>, i: nat, s: Scope)
    requires Linked(scopes) && Leveled(scopes) && i < |scopes| && LinkOk(s, i)
    requires s.prev == scopes[i].prev && s.level == scopes[i].level
    ensures Linked(scopes[i := s]) && Leveled(scopes[i := s])
  {
    var r := scopes[i := s];
    UpdateLinked(scopes, i, s);
    forall j | 0 <= j < |r|
      ensures LevelOk(r, j)
    {
      assert LevelOk(scopes, j);
      assert r[j].level == scopes[j].level && r[j].prev == scopes[j].prev;
      if r[j].prev != -1 {
        assert r[r[j].prev].level == scopes[scopes[j].prev].level;
      }
    }
  }

  ghost predicate WF(st: TableState)
  {
    ScopesOk(st.scopes) && Leveled(st.scopes)
    && st.global < |st.scopes| && -1 <= st.current < |st.scopes|
    && forall k :: 0 <= k < |st.saved| ==> -1 <= st.saved[k] < |st.scopes|
  }

  /** The cursor is NULL or names a scope that has not been freed. */
  predicate CursorLive(st: TableState)
    requires WF(st)
  {
    st.current == -1 || st.scopes[st.current].live
  }

  /** The cursor names a scope that has not been freed. */
  predicate CurrentLive(st: TableState)
    requires WF(st)
  {
    st.current != -1 && st.scopes[st.current].live
  }

  /** Every scope on the prev chain from `c` is live. */
  ghost predicate ChainLive(scopes: seq<Scope>, c: int)
    requires Linked(scopes) && -1 <= c < |scopes|
    decreases c + 1
  {
    c == -1 || (scopes[c].live && ChainLive(scopes, scopes[c].prev))
  }

  /** The scopes on the prev chain from `c`, innermost first. */
  ghost function Chain(scopes: seq<Scope>, c: int): (ch: seq<nat>)
    requires Linked(scopes) && -1 <= c < |scopes|
    ensures forall k :: 0 <= k < |ch| ==> ch[k] <= c
    ensures c == -1 <==> ch == []
    decreases c + 1
  {
    if c == -1 then [] else [c] + Chain(scopes, scopes[c].prev)
  }

  // ---------------------------------------------------------------------
  // The operations on values

  /** The state `SymbolTableInit` builds: one global scope at level 0 with
      an empty map, which is also the current scope, and no saved cursor. */
  function InitState(): (st: TableState)
    ensures WF(st) && CurrentLive(st) && st.current == st.global && st.saved == []
    ensures st.scopes[st.current].level == 0 && st.scopes[st.current].prev == -1
    ensures st.scopes[st.current].symbols == HT.Init()
  {
    var s := NewScope([], -1);
    RootOk(s);
    TableState([s], 0, 0, [])
  }

  /** A lone root scope with a valid map is a well-formed arena. */
  lemma RootOk(s: Scope)
    requires s.prev == -1 && s.level == 0 && TableOk(s.symbols)
    ensures WF(TableState([s], 0, 0, []))
  {
    assert HT.Inv(s.symbols) && LinkOk(s, 0);
    assert MapOk(s);
    EveryAppend([], MapOk, s);
    assert [] + [s] == [s];
    assert LevelOk([s], 0);
  }

  /** `SymbolTableEnterScope`: a new scope with an empty map whose prev is
      the old current scope and whose level is one more than its level (0
      under NULL) becomes current. */
  function AfterEnter(st: TableState): (r: TableState)
    requires WF(st) && CursorLive(st)
    ensures WF(r) && CurrentLive(r) && r.current == |st.scopes|
    ensures r.scopes[..|st.scopes|] == st.scopes && r.global == st.global && r.saved == st.saved
    ensures r.scopes[r.current] == NewScope(st.scopes, st.current)
  {
    AppendScope(st.scopes, st.current);
    var r := st.(scopes := st.scopes + [NewScope(st.scopes, st.current)], current := |st.scopes|);
    assert r.scopes[..|st.scopes|] == st.scopes;
    r
  }

  /** `SymbolTableExitScope`: the current scope is freed; the cursor moves
      to its prev, except that when prev is the global scope and a cursor
      is saved, the most recently saved cursor is popped and restored. */
  function AfterExit(st: TableState): (r: TableState)
    requires WF(st) && CurrentLive(st)
    ensures WF(r) && |r.scopes| == |st.scopes| && r.global == st.global
    ensures !r.scopes[st.current].live
  {
    var cur := st.scopes[st.current];
    TablesOkAt(st.scopes, st.current);
    UpdateScope(st.scopes, st.current, cur.(live := false));
    var scopes := st.scopes[st.current := cur.(live := false)];
    if cur.prev == st.global && |st.saved| > 0 then
      TableState(scopes, st.saved[|st.saved| - 1], st.global, st.saved[..|st.saved| - 1])
    else
      TableState(scopes, cur.prev, st.global, st.saved)
  }

  /** `SymbolTableNewBranch`: the cursor is saved and reset to the global
      scope. */
  function AfterNewBranch(st: TableState): (r: TableState)
    requires WF(st)
    ensures WF(r) && r.current == r.global && r.saved == st.saved + [st.current]
  {
    st.(current := st.global, saved := st.saved + [st.current])
  }

  /** `SymbolTableDelBranch`: exits scopes while the current scope's prev
      is not the global scope, then exits once more.  None when the walk
      reaches a NULL or freed cursor, which the C code would dereference. */
  function AfterDelBranch(st: TableState): (r: Option<TableState>)
    requires WF(st)
    ensures r.Some? ==> WF(r.value) && |r.value.scopes| == |st.scopes| && r.value.global == st.global
    decreases st.current + 1
  {
    if !CurrentLive(st) then None
    else if st.scopes[st.current].prev == st.global then Some(AfterExit(st))
    else AfterDelBranch(AfterExit(st))
  }

  /** The exit loop of `SymbolTableDestroy`: exits scopes until the cursor
      is NULL.  None when it meets a freed scope.  Scopes already freed stay
      freed. */
  function AfterDestroy(st: TableState): (r: Option<TableState>)
    requires WF(st)
    ensures r.Some? ==> WF(r.value) && r.value.current == -1 && |r.value.scopes| == |st.scopes|
    ensures r.Some? ==> forall i :: 0 <= i < |st.scopes| && !st.scopes[i].live ==> !r.value.scopes[i].live
    decreases |st.saved|, st.current + 1
  {
    if st.current == -1 then Some(st)
    else if !st.scopes[st.current].live then None
    else AfterDestroy(AfterExit(st))
  }

  /** `SymbolTableLookUpCurrentScope`: the current scope's map only. */
  function FindCurrent(st: TableState, name: string): Option<SymbolData>
    requires WF(st) && CurrentLive(st) && CName(name)
  {
    HT.Find(st.scopes[st.current].symbols, Key(name))
  }

  /** The walk of `SymbolTableLookUp` from scope `c` outwards. */
  function Resolve(scopes: seq<Scope>, c: int, key: seq<bv8>): Option<SymbolData>
    requires Linked(scopes) && -1 <= c < |scopes| && ChainLive(scopes, c) && |key| > 0
    decreases c + 1
  {
    if c == -1 then None
    else match HT.Find(scopes[c].symbols, key)
      case Some(d) => Some(d)
      case None => Resolve(scopes, scopes[c].prev, key)
  }

  /** `SymbolTableInsert`: nothing changes when the current scope already
      holds the name; otherwise the symbol, stamped with the current
      scope's level, goes into the current scope's map only. */
  function AfterInsert(st: TableState, name: string, symbol_type: SymbolType, data_type: DataType,
                       node: Ast.Tree, offset: nat): (r: TableState)
    requires WF(st) && CurrentLive(st) && CName(name)
    ensures WF(r) && CurrentLive(r) && |r.scopes| == |st.scopes|
    ensures r.current == st.current && r.global == st.global && r.saved == st.saved
    ensures forall i :: 0 <= i < |st.scopes| && i != st.current ==> r.scopes[i] == st.scopes[i]
  {
    var cur := st.scopes[st.current];
    if FindCurrent(st, name).Some? then st
    else
      var d := SymbolData(symbol_type, data_type, cur.level, node, offset);
      TablesOkAt(st.scopes, st.current);
      InsertKeyed(cur.symbols, name, d);
      UpdateScope(st.scopes, st.current, cur.(symbols := HT.Insert(cur.symbols, Key(name), d)));
      st.(scopes := st.scopes[st.current := cur.(symbols := HT.Insert(cur.symbols, Key(name), d))])
  }

  /** Inserting a new name keeps the map valid and its keys terminated. */
  lemma InsertKeyed(t: HT.Table<SymbolData>, name: string, d: SymbolData)
    requires HT.Inv(t) && Keyed(t) && CName(name) && HT.Find(t, Key(name)).None?
    ensures HT.Inv(HT.Insert(t, Key(name), d)) && Keyed(HT.Insert(t, Key(name), d))
  {
    HT.InsertInv(t, Key(name), d);
    HT.InsertNew(t, Key(name), d);
  }

  /** The `scope_ram_offset++` the code generator applies to the current
      scope before it declares a variable or parameter. */
  function AfterBump(st: TableState): (r: TableState)
    requires WF(st) && CurrentLive(st)
    ensures WF(r) && CurrentLive(r) && r.current == st.current
    ensures r.scopes[r.current].ram_offset == st.scopes[st.current].ram_offset + 1
  {
    var cur := st.scopes[st.current];
    TablesOkAt(st.scopes, st.current);
    UpdateScope(st.scopes, st.current, cur.(ram_offset := cur.ram_offset + 1));
    st.(scopes := st.scopes[st.current := cur.(ram_offset := cur.ram_offset + 1)])
  }

  // ---------------------------------------------------------------------
  // Properties

  /** A scope's level is the number of scopes above it on its chain. */
  lemma {:induction false} LevelIsDepth(scopes: seq<Scope>, c: nat)
    requires Linked(scopes) && Leveled(scopes) && c < |scopes|
    ensures scopes[c].level == |Chain(scopes, c)| - 1
    decreases c
  {
    var p := scopes[c].prev;
    assert LevelOk(scopes, c);
    if p != -1 {
      LevelIsDepth(scopes, p);
    }
  }

  /** `SymbolTableLookUp` answers from the innermost scope on the chain
      whose map holds the key: every scope before position `k` lacks it,
      and the answer is scope `k`'s binding, or NULL when `k` runs off the
      chain. */
  lemma {:induction false} ResolveFirst(scopes: seq<Scope>, c: int, key: seq<bv8>) returns (k: nat)
    requires Linked(scopes) && -1 <= c < |scopes| && ChainLive(scopes, c) && |key| > 0
    ensures k <= |Chain(scopes, c)|
    ensures forall j :: 0 <= j < k ==> HT.Find(scopes[Chain(scopes, c)[j]].symbols, key).None?
    ensures k < |Chain(scopes, c)| ==> Resolve(scopes, c, key) == HT.Find(scopes[Chain(scopes, c)[k]].symbols, key)
    ensures k < |Chain(scopes, c)| ==> Resolve(scopes, c, key).Some?
    ensures k == |Chain(scopes, c)| ==> Resolve(scopes, c, key).None?
    decreases c + 1
  {
    if c == -1 {
      return 0;
    }
    var ch := Chain(scopes, c);
    if HT.Find(scopes[c].symbols, key).Some? {
      return 0;
    }
    var k' := ResolveFirst(scopes, scopes[c].prev, key);
    assert ch == [c] + Chain(scopes, scopes[c].prev);
    k := k' + 1;
  }

  /** Lookups from `c` see only the scopes up to index `c`. */
  lemma {:induction false} ResolveFrame(s1: seq<Scope>, s2: seq<Scope>, c: int, key: seq<bv8>)
    requires Linked(s1) && Linked(s2) && -1 <= c < |s1| && c < |s2| && |key| > 0
    requires forall i :: 0 <= i <= c ==> s1[i] == s2[i]
    requires ChainLive(s1, c)
    ensures ChainLive(s2, c) && Resolve(s1, c, key) == Resolve(s2, c, key)
    decreases c + 1
  {
    if c != -1 {
      ResolveFrame(s1, s2, s1[c].prev, key);
    }
  }

  /** Entering a scope changes no lookup: the new scope is empty and the
      old chain hangs below it. */
  lemma EnterKeepsLookups(st: TableState, name: string)
    requires WF(st) && ChainLive(st.scopes, st.current) && CName(name)
    ensures var r := AfterEnter(st);
            ChainLive(r.scopes, r.current)
            && Resolve(r.scopes, r.current, Key(name)) == Resolve(st.scopes, st.current, Key(name))
  {
    var r := AfterEnter(st);
    ResolveFrame(st.scopes, r.scopes, st.current, Key(name));
    NewScopeEmpty(st.scopes, st.current, Key(name));
  }

  /** Exiting the scope just entered restores the cursor (or, when the
      cursor was the global scope and a cursor is saved, restores the saved
      one), frees only the new scope, and changes no lookup. */
  lemma EnterThenExit(st: TableState, name: string)
    requires WF(st) && ChainLive(st.scopes, st.current) && CName(name)
    ensures var r := AfterExit(AfterEnter(st));
            r.scopes == st.scopes + [r.scopes[|st.scopes|]] && !r.scopes[|st.scopes|].live
    ensures var r := AfterExit(AfterEnter(st));
            if st.current == st.global && |st.saved| > 0 then
              r.current == st.saved[|st.saved| - 1] && r.saved == st.saved[..|st.saved| - 1]
            else
              r.current == st.current && r.saved == st.saved
              && ChainLive(r.scopes, r.current)
              && Resolve(r.scopes, r.current, Key(name)) == Resolve(st.scopes, st.current, Key(name))
  {
    EnterExitShape(st);
    var r := AfterExit(AfterEnter(st));
    if !(st.current == st.global && |st.saved| > 0) {
      PrefixAgree(st.scopes, r.scopes);
      ResolveFrame(st.scopes, r.scopes, st.current, Key(name));
    }
  }

  /** The arena and cursors after entering a scope and leaving it again. */
  lemma EnterExitShape(st: TableState)
    requires WF(st) && CursorLive(st)
    ensures var r := AfterExit(AfterEnter(st));
            r.scopes == st.scopes + [r.scopes[|st.scopes|]] && !r.scopes[|st.scopes|].live
    ensures var r := AfterExit(AfterEnter(st));
            if st.current == st.global && |st.saved| > 0 then
              r.current == st.saved[|st.saved| - 1] && r.saved == st.saved[..|st.saved| - 1]
            else
              r.current == st.current && r.saved == st.saved
  {
    var e := AfterEnter(st);
    var m := |st.scopes|;
    assert e.current == m && e.scopes[m].prev == st.current && e.scopes[..m] == st.scopes;
    var r := AfterExit(e);
    var dead := e.scopes[m].(live := false);
    assert r.scopes == e.scopes[m := dead];
    SnocUpdate(e.scopes, st.scopes, dead);
  }

  /** Overwriting the last element of `s + [_]`. */
  lemma SnocUpdate(e: seq<Scope>, s: seq<Scope>, x: Scope)
    requires |e| == |s| + 1 && e[..|s|] == s
    ensures e[|s| := x] == s + [x]
  {
    PrefixAgree(s, e);
  }

  lemma PrefixTrans(r: seq<Scope>, p: seq<Scope>, s: seq<Scope>)
    requires |p| <= |r| && r[..|p|] == p && |s| <= |p| && p[..|s|] == s
    ensures r[..|s|] == s
  {
    assert r[..|s|] == r[..|p|][..|s|];
  }

  /** A sequence that starts with `s1` agrees with it index by index. */
  lemma PrefixAgree(s1: seq<Scope>, s2: seq<Scope>)
    requires |s1| <= |s2| && s2[..|s1|] == s1
    ensures forall i :: 0 <= i < |s1| ==> s1[i] == s2[i]
  {
    forall i | 0 <= i < |s1|
      ensures s1[i] == s2[i]
    {
      assert s2[..|s1|][i] == s2[i];
    }
  }

  /** After an insert the current scope answers for the name: with the
      binding it already had, or else with the new symbol, stamped with
      the current scope's level.  The full lookup then finds the same
      binding, since the current scope is searched first. */
  lemma InsertThenLookUp(st: TableState, name: string, symbol_type: SymbolType, data_type: DataType,
                         node: Ast.Tree, offset: nat)
    requires WF(st) && ChainLive(st.scopes, st.current) && st.current != -1 && CName(name)
    ensures var r := AfterInsert(st, name, symbol_type, data_type, node, offset);
            var d := SymbolData(symbol_type, data_type, st.scopes[st.current].level, node, offset);
            FindCurrent(r, name) == (if FindCurrent(st, name).Some? then FindCurrent(st, name) else Some(d))
            && ChainLive(r.scopes, r.current)
            && Resolve(r.scopes, r.current, Key(name)) == FindCurrent(r, name)
  {
    var r := AfterInsert(st, name, symbol_type, data_type, node, offset);
    var cur := st.scopes[st.current];
    if FindCurrent(st, name).None? {
      var d := SymbolData(symbol_type, data_type, cur.level, node, offset);
      TablesOkAt(st.scopes, st.current);
      KeyedNoOtherMatch(cur.symbols, name);
      HT.InsertThenFind(cur.symbols, Key(name), d);
      ResolveFrame(st.scopes, r.scopes, cur.prev, Key(name));
    }
  }

  /** Entering a scope from a live chain leaves a live chain: the new
      scope is live and its prev chain is the old one. */
  lemma EnterKeepsChainLive(st: TableState)
    requires WF(st) && ChainLive(st.scopes, st.current)
    ensures CursorLive(st)
    ensures var r := AfterEnter(st); ChainLive(r.scopes, r.current)
  {
    var r := AfterEnter(st);
    ResolveFrameLive(st.scopes, r.scopes, st.current);
  }

  /** Exiting the current scope when no cursor is saved moves to its prev,
      whose chain stays live. */
  lemma ExitKeepsChainLive(st: TableState)
    requires WF(st) && st.saved == [] && st.current != -1 && ChainLive(st.scopes, st.current)
    ensures CurrentLive(st)
    ensures var r := AfterExit(st);
            r.saved == [] && r.current == st.scopes[st.current].prev && ChainLive(r.scopes, r.current)
  {
    var c := st.current;
    var r := AfterExit(st);
    assert r.scopes == st.scopes[c := st.scopes[c].(live := false)];
    ResolveFrameLive(st.scopes, r.scopes, st.scopes[c].prev);
  }

  /** Bumping the current scope's RAM offset changes nothing on the chain
      but that counter. */
  lemma BumpKeepsChainLive(st: TableState)
    requires WF(st) && st.current != -1 && ChainLive(st.scopes, st.current)
    ensures CurrentLive(st)
    ensures var r := AfterBump(st);
            r.saved == st.saved && r.global == st.global && ChainLive(r.scopes, r.current)
  {
    var c := st.current;
    var r := AfterBump(st);
    ResolveFrameLive(st.scopes, r.scopes, st.scopes[c].prev);
  }

  /** Marks the scopes `m .. c` freed. */
  ghost function Killed(scopes: seq<Scope>, m: nat, c: nat): (r: seq<Scope>)
    ensures |r| == |scopes|
  {
    seq(|scopes|, i requires 0 <= i < |scopes| =>
      if m <= i <= c then scopes[i].(live := false) else scopes[i])
  }

  /** The scopes `m .. c` form one live chain hanging below the global
      scope: `m`'s prev is the global scope, each later one's prev is the
      one before it. */
  ghost predicate BranchRun(st: TableState, m: nat)
    requires WF(st)
  {
    st.global < m <= st.current
    && (forall i :: m <= i <= st.current ==> st.scopes[i].live)
    && st.scopes[m].prev == st.global
    && (forall i :: m < i <= st.current ==> st.scopes[i].prev == i - 1)
  }

  /** `SymbolTableDelBranch` frees exactly the run of scopes below the
      global scope and restores the most recently saved cursor. */
  lemma {:induction false} DelBranchUnwinds(st: TableState, m: nat)
    requires WF(st) && BranchRun(st, m) && |st.saved| > 0
    ensures AfterDelBranch(st).Some?
    ensures var r := AfterDelBranch(st).value;
            r.current == st.saved[|st.saved| - 1] && r.saved == st.saved[..|st.saved| - 1]
            && r.scopes == Killed(st.scopes, m, st.current)
    decreases st.current
  {
    var x := AfterExit(st);
    var c := st.current;
    assert x.scopes == st.scopes[c := st.scopes[c].(live := false)];
    if c == m {
      assert AfterDelBranch(st) == Some(x);
      KilledBase(st.scopes, m);
    } else {
      assert AfterDelBranch(st) == AfterDelBranch(x);
      assert x.current == c - 1 && x.saved == st.saved;
      DelBranchUnwinds(x, m);
      KilledStep(st.scopes, m, c);
    }
  }

  lemma KilledBase(scopes: seq<Scope>, m: nat)
    requires m < |scopes|
    ensures Killed(scopes, m, m) == scopes[m := scopes[m].(live := false)]
  {
  }

  lemma KilledStep(scopes: seq<Scope>, m: nat, c: nat)
    requires m < c < |scopes|
    ensures Killed(scopes[c := scopes[c].(live := false)], m, c - 1) == Killed(scopes, m, c)
  {
  }

  /** `n` scopes entered one inside another. */
  function EnterN(st: TableState, n: nat): (r: TableState)
    requires WF(st) && CursorLive(st)
    ensures WF(r) && CursorLive(r) && |r.scopes| == |st.scopes| + n
    ensures r.scopes[..|st.scopes|] == st.scopes && r.global == st.global && r.saved == st.saved
    ensures n > 0 ==> r.current == |r.scopes| - 1
    ensures n == 0 ==> r == st
  {
    if n == 0 then st
    else
      var p := EnterN(st, n - 1);
      var r := AfterEnter(p);
      PrefixTrans(r.scopes, p.scopes, st.scopes);
      r
  }

  /** A new branch, any positive number of nested scopes, then
      `SymbolTableDelBranch`, give back the cursor and the saved stack the
      table had, free exactly the scopes entered, and leave every older
      scope as it was. */
  lemma BranchRoundTrip(st: TableState, n: nat)
    requires WF(st) && st.scopes[st.global].live && n > 0
    ensures AfterDelBranch(Branched(st, n)).Some?
    ensures AfterDelBranch(Branched(st, n)).value.current == st.current
    ensures AfterDelBranch(Branched(st, n)).value.saved == st.saved
    ensures AfterDelBranch(Branched(st, n)).value.scopes == Killed(Branched(st, n).scopes, |st.scopes|, |Branched(st, n).scopes| - 1)
    ensures AfterDelBranch(Branched(st, n)).Some?
            && AfterDelBranch(Branched(st, n)).value.scopes[..|st.scopes|] == st.scopes
  {
    var b := AfterNewBranch(st);
    assert b.scopes == st.scopes && CursorLive(b);
    var s := EnterN(b, n);
    EnterNRun(b, n);
    UnwindBranch(st, s);
  }

  /** A new branch with `n` scopes entered below it. */
  ghost function Branched(st: TableState, n: nat): (s: TableState)
    requires WF(st) && st.scopes[st.global].live
    ensures WF(s) && |s.scopes| == |st.scopes| + n && s.saved == st.saved + [st.current]
  {
    EnterN(AfterNewBranch(st), n)
  }

  /** `SymbolTableDelBranch` on a run entered below a new branch. */
  lemma UnwindBranch(st: TableState, s: TableState)
    requires WF(st) && WF(s) && BranchRun(s, |st.scopes|) && s.current == |s.scopes| - 1
    requires s.scopes[..|st.scopes|] == st.scopes && s.global == st.global
    requires s.saved == st.saved + [st.current]
    ensures AfterDelBranch(s) == Some(TableState(Killed(s.scopes, |st.scopes|, |s.scopes| - 1),
                                                 st.current, st.global, st.saved))
    ensures AfterDelBranch(s).Some? && AfterDelBranch(s).value.scopes[..|st.scopes|] == st.scopes
  {
    DelBranchUnwinds(s, |st.scopes|);
    var r := AfterDelBranch(s).value;
    assert s.saved[..|s.saved| - 1] == st.saved;
    assert r.scopes == Killed(s.scopes, |st.scopes|, |s.scopes| - 1);
    KilledPrefix(s.scopes, |st.scopes|, |s.scopes| - 1);
  }

  /** Killing from `m` on leaves the scopes before `m` as they were. */
  lemma KilledPrefix(scopes: seq<Scope>, m: nat, c: nat)
    requires m <= |scopes|
    ensures Killed(scopes, m, c)[..m] == scopes[..m]
  {
    var k := Killed(scopes, m, c);
    forall i | 0 <= i < m
      ensures k[..m][i] == scopes[..m][i]
    {
    }
  }

  /** The scopes `EnterN` adds form a chain hanging below the cursor. */
  lemma {:induction false} EnterNRun(st: TableState, n: nat)
    requires WF(st) && CursorLive(st) && st.current == st.global && n > 0
    ensures BranchRun(EnterN(st, n), |st.scopes|)
    decreases n
  {
    var p := EnterN(st, n - 1);
    assert EnterN(st, n) == AfterEnter(p);
    if n == 1 {
      assert p == st;
    } else {
      EnterNRun(st, n - 1);
    }
    EnterExtendsRun(p, |st.scopes|);
  }

  /** One more scope entered below a run (or below the global scope)
      extends the run. */
  lemma EnterExtendsRun(p: TableState, m: nat)
    requires WF(p) && CursorLive(p) && p.global < m
    requires (p.current == p.global && |p.scopes| == m)
      || (BranchRun(p, m) && p.current == |p.scopes| - 1)
    ensures BranchRun(AfterEnter(p), m)
    ensures AfterEnter(p).current == |AfterEnter(p).scopes| - 1
  {
    var s := AfterEnter(p);
    var top := s.scopes[s.current];
    assert top == NewScope(p.scopes, p.current);
    assert top.live && top.prev == p.current && s.current == |p.scopes|;
    forall i | 0 <= i < |p.scopes|
      ensures s.scopes[i] == p.scopes[i]
    {
      assert s.scopes[..|p.scopes|][i] == p.scopes[i];
    }
    var base := p.current == p.global && |p.scopes| == m;
    forall i | m <= i <= s.current
      ensures s.scopes[i].live
    {
      if i < s.current {
        assert !base && p.scopes[i].live;
      }
    }
    forall i | m < i <= s.current
      ensures s.scopes[i].prev == i - 1
    {
      if i < s.current {
        assert !base && p.scopes[i].prev == i - 1;
      } else if !base {
        assert p.current == s.current - 1;
      }
    }
    assert s.scopes[m].prev == p.global by {
      if !base {
        assert s.scopes[m] == p.scopes[m];
      }
    }
  }

  /** Destroying a table with no saved cursor frees every scope on the
      current chain. */
  lemma {:induction false} DestroyFreesChain(st: TableState)
    requires WF(st) && st.saved == [] && ChainLive(st.scopes, st.current)
    ensures AfterDestroy(st).Some?
    ensures forall i :: i in Chain(st.scopes, st.current) ==> !AfterDestroy(st).value.scopes[i].live
    decreases st.current + 1
  {
    if st.current != -1 {
      var c := st.current;
      var p := st.scopes[c].prev;
      assert st.scopes[c].live && ChainLive(st.scopes, p);
      var x := AfterExit(st);
      assert x.current == p && x.saved == [] && p < c;
      assert x.scopes == st.scopes[c := st.scopes[c].(live := false)];
      ResolveFrameLive(st.scopes, x.scopes, p);
      ChainFrame(st.scopes, x.scopes, p);
      DestroyFreesChain(x);
      assert AfterDestroy(st) == AfterDestroy(x);
      assert Chain(st.scopes, c) == [c] + Chain(x.scopes, p);
      assert !x.scopes[c].live;
    }
  }

  /** Liveness of a chain from `c` depends only on the scopes up to `c`. */
  lemma {:induction false} ResolveFrameLive(s1: seq<Scope>, s2: seq<Scope>, c: int)
    requires Linked(s1) && Linked(s2) && -1 <= c < |s1| && c < |s2|
    requires forall i :: 0 <= i <= c ==> s1[i] == s2[i]
    requires ChainLive(s1, c)
    ensures ChainLive(s2, c)
    decreases c + 1
  {
    if c != -1 {
      ResolveFrameLive(s1, s2, s1[c].prev);
    }
  }

  /** The chain from `c` depends only on the scopes up to `c`. */
  lemma {:induction false} ChainFrame(s1: seq<Scope>, s2: seq<Scope>, c: int)
    requires Linked(s1) && Linked(s2) && -1 <= c < |s1| && c < |s2|
    requires forall i :: 0 <= i <= c ==> s1[i] == s2[i]
    ensures Chain(s1, c) == Chain(s2, c)
    decreases c + 1
  {
    if c != -1 {
      ChainFrame(s1, s2, s1[c].prev);
    }
  }

  // ---------------------------------------------------------------------
  // The table as the C code keeps it

  class SymTable {
    var scopes: seq<Scope>
    var current: int
    const global_scope: nat
    const end_scopes: Stack.Stack<int>

    ghost function Model(): TableState
      reads this, end_scopes, end_scopes.data
      requires end_scopes.Valid()
    {
      TableState(scopes, current, global_scope, end_scopes.Elements())
    }

    ghost predicate Valid()
      reads this, end_scopes, end_scopes.data
    {
      end_scopes.Valid() && end_scopes.capacity > 0 && WF(Model())
    }

    /** `SymbolTableInit`: an empty saved-cursor stack of capacity 8 and
        the global scope, entered from a NULL cursor. */
    constructor Init()
      ensures Valid() && Model() == InitState() && fresh(end_scopes) && fresh(end_scopes.data)
    {
      var stack := Stack.Init<int>(INITIAL_CAPACITY, 8);
      end_scopes := stack.value;
      var init := InitState();
      scopes := init.scopes;
      current := init.current;
      global_scope := init.global;
      new;
      assert Model() == init;
    }

    /** `SymbolTableEnterScope`. */
    method EnterScope()
      requires Valid() && CursorLive(Model())
      modifies this
      ensures Valid()
      ensures Model() == AfterEnter(old(Model()))
    {
      ghost var target := AfterEnter(Model());
      scopes := scopes + [NewScope(scopes, current)];
      current := |scopes| - 1;
      assert Model() == target;
    }

    /** `SymbolTableExitScope`. */
    method ExitScope()
      requires Valid() && CurrentLive(Model())
      modifies this, end_scopes
      ensures Valid()
      ensures Model() == AfterExit(old(Model()))
    {
      ghost var target := AfterExit(Model());
      ghost var saved := end_scopes.Elements();
      var cur := current;
      var dead := scopes[cur := scopes[cur].(live := false)];
      assert target.scopes == dead;
      var empty := end_scopes.Empty();
      if scopes[cur].prev == global_scope && !empty {
        var top := end_scopes.Pop();
        assert top.value == saved[|saved| - 1] && end_scopes.Elements() == saved[..|saved| - 1];
        current := top.value;
        assert target.current == current && target.saved == end_scopes.Elements();
      } else {
        current := scopes[cur].prev;
        assert target.current == current && target.saved == end_scopes.Elements();
      }
      scopes := dead;
      assert Model() == target;
    }

    /** `SymbolTableNewBranch`; the push cannot fail because the stack's
        capacity never drops to zero. */
    method NewBranch()
      requires Valid()
      modifies this, end_scopes, end_scopes.data
      ensures Valid()
      ensures Model() == AfterNewBranch(old(Model()))
    {
      var err := end_scopes.Push(current);
      current := global_scope;
    }

    /** `SymbolTableDelBranch`. */
    method DelBranch()
      requires Valid() && AfterDelBranch(Model()).Some?
      modifies this, end_scopes
      ensures Valid()
      ensures Model() == AfterDelBranch(old(Model())).value
    {
      while scopes[current].prev != global_scope
        invariant Valid()
        invariant AfterDelBranch(Model()) == AfterDelBranch(old(Model()))
        decreases current + 1
      {
        ExitScope();
      }
      ExitScope();
    }

    /** The exit loop of `SymbolTableDestroy`; releasing the stack and the
        table object itself is not modelled. */
    method Destroy()
      requires Valid() && AfterDestroy(Model()).Some?
      modifies this, end_scopes
      ensures Valid()
      ensures Model() == AfterDestroy(old(Model())).value
    {
      while current != -1
        invariant Valid()
        invariant AfterDestroy(Model()) == AfterDestroy(old(Model()))
        decreases |end_scopes.Elements()|, current + 1
      {
        ExitScope();
      }
    }

    /** `SymbolTableLookUpCurrentScope`. */
    method LookUpCurrentScope(name: string) returns (r: Option<SymbolData>)
      requires Valid() && CurrentLive(Model()) && CName(name)
      ensures r == FindCurrent(Model(), name)
    {
      r := HT.Find(scopes[current].symbols, Key(name));
    }

    /** `SymbolTableLookUp`: the walk along the prev links. */
    method LookUp(name: string) returns (r: Option<SymbolData>)
      requires Valid() && ChainLive(scopes, current) && CName(name)
      ensures r == Resolve(scopes, current, Key(name))
    {
      var key := Key(name);
      var cur := current;
      while cur != -1
        invariant -1 <= cur < |scopes| && ChainLive(scopes, cur)
        invariant Resolve(scopes, cur, key) == Resolve(scopes, current, key)
        decreases cur + 1
      {
        var found := HT.Find(scopes[cur].symbols, key);
        if found.Some? {
          return found;
        }
        cur := scopes[cur].prev;
      }
      return None;
    }

    /** `SymbolTableInsert` in its six-argument form.  The "already
        declared" diagnostic is not modelled. */
    method Insert(name: string, symbol_type: SymbolType, data_type: DataType, node: Ast.Tree, offset: nat)
      requires Valid() && CurrentLive(Model()) && CName(name)
      modifies this
      ensures Valid()
      ensures Model() == AfterInsert(old(Model()), name, symbol_type, data_type, node, offset)
    {
      var found := LookUpCurrentScope(name);
      if found.Some? {
        return;
      }
      var cur := scopes[current];
      var d := SymbolData(symbol_type, data_type, cur.level, node, offset);
      ghost var target := AfterInsert(Model(), name, symbol_type, data_type, node, offset);
      TablesOkAt(scopes, current);
      InsertKeyed(cur.symbols, name, d);
      scopes := scopes[current := cur.(symbols := HT.Insert(cur.symbols, Key(name), d))];
      assert Model() == target;
    }

    /** `current_scope->scope_ram_offset++`, as the code generator does
        before each declaration; returns the new offset. */
    method BumpRamOffset() returns (k: nat)
      requires Valid() && CurrentLive(Model())
      modifies this
      ensures Valid()
      ensures Model() == AfterBump(old(Model())) && k == scopes[current].ram_offset
    {
      ghost var target := AfterBump(Model());
      var cur := scopes[current];
      scopes := scopes[current := cur.(ram_offset := cur.ram_offset + 1)];
      k := cur.ram_offset + 1;
      assert Model() == target;
    }
  }
}
