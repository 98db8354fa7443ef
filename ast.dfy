/** The abstract syntax tree of src/ast/ast.c.

    Two views of one structure: `Tree` is the value a parser builds and a
    code generator walks (a NULL child is `Nil`); `Ast` is the node heap,
    an arena of records whose parent/left/right links are indices, on which
    the pointer surgery of `AST_NodeInit`, `AST_NodeDestroy`,
    `GetParentNodePointer` and `PostorderTraversal` is modelled. */
module Ast {
  import opened Common

  datatype ConstType =
    | ConstUndefined | ConstShort | ConstInt | ConstLong | ConstDouble | ConstChar | ConstVoid

  /** The operation tags; `Print` is the extra tag the code generator
      dispatches on (it is not in the header's enumeration). */
  datatype Operation =
    | OpUndefined | Sentinel
    | Add | Sub | Mul | Div
    | Lt | Gt | Le | Ge | Ee | Ne
    | LAnd | LOr
    | Assignment
    | If | Else | While | Break
    | Call | Return
    | Print

  datatype ElemType = TypeUndefined | TypeDeclaration | TypeOperation | TypeVariable | TypeConst

  /** The tagged payload of a node. A DOUBLE constant keeps its literal text
      as an opaque payload instead of a floating-point value. */
  datatype Data =
    | NoData
    | Decl(declType: ConstType)
    | Op(op: Operation)
    | Var(name: string)
    | Num(ctype: ConstType, value: int)
    | Real(lexeme: string)

  function TypeOf(d: Data): (k: ElemType)
    ensures k == TypeUndefined <==> d.NoData?
  {
    match d
    case NoData => TypeUndefined
    case Decl(_) => TypeDeclaration
    case Op(_) => TypeOperation
    case Var(_) => TypeVariable
    case Num(_, _) => TypeConst
    case Real(_) => TypeConst
  }

  datatype Tree = Nil | Node(data: Data, left: Tree, right: Tree)

  function Size(t: Tree): nat
  {
    match t
    case Nil => 0
    case Node(_, l, r) => Size(l) + Size(r) + 1
  }

  function Wrap8(v: int): int { var m := v % 0x100; if m < 0x80 then m else m - 0x100 }
  function Wrap16(v: int): int { var m := v % 0x1_0000; if m < 0x8000 then m else m - 0x1_0000 }
  function Wrap64(v: int): int
  {
    var m := v % TWO64;
    if m < 0x8000_0000_0000_0000 then m else m - TWO64
  }

  /** The payloads `AST_NodeInit` accepts: a constant must have a storable type. */
  predicate Storable(d: Data)
  {
    d.Num? ==> d.ctype in {ConstShort, ConstInt, ConstLong, ConstChar}
  }

  /** What `AST_NodeInit` stores: constants are narrowed to the width of
      their C type, names are copied (values are copies here). */
  function Stored(d: Data): (r: Data)
    requires Storable(d)
    ensures TypeOf(r) == TypeOf(d)
    ensures d.Num? ==> r.Num? && r.ctype == d.ctype
    ensures d.Num? && d.ctype == ConstInt && -0x8000_0000 <= d.value < 0x8000_0000 ==> r == d
    ensures d.Num? && d.ctype == ConstShort ==> r.Num? && -0x8000 <= r.value < 0x8000
    ensures d.Num? && d.ctype == ConstChar ==> r.Num? && -0x80 <= r.value < 0x80
    ensures !d.Num? ==> r == d
  {
    match d
    case Num(c, v) =>
      if c == ConstShort then Num(c, Wrap16(v))
      else if c == ConstChar then Num(c, Wrap8(v))
      else if c == ConstInt then Num(c, Wrap32(v))
      else Num(c, Wrap64(v))
    case _ => d
  }

  /** What `AST_NodeDestroy` leaves in the payload before freeing. */
  function Cleared(d: Data): (r: Data)
  {
    match d
    case Decl(_) => Decl(ConstUndefined)
    case Num(_, _) => Num(ConstUndefined, 0)
    case Real(_) => Num(ConstUndefined, 0)
    case Op(_) => Op(OpUndefined)
    case Var(_) => Var([])
    case NoData => NoData
  }

  datatype Ptr = Null | At(i: nat)

  datatype Side = LeftSlot | RightSlot

  datatype NodeRec = NodeRec(data: Data, parent: Ptr, left: Ptr, right: Ptr, live: bool)

  /** A record as `AST_NodeDestroy` leaves it: payload reset, links NULL, freed. */
  function Dead(d: Data): NodeRec { NodeRec(Cleared(d), Null, Null, Null, false) }

  predicate InHeap(h: seq<NodeRec>, p: Ptr) { p.Null? || p.i < |h| }

  /** `GetParentNodePointer`: the parent's slot that holds the node; None
      for a root, and None when neither of the parent's slots holds it. */
  function ParentSlot(h: seq<NodeRec>, p: Ptr): (r: Option<(nat, Side)>)
    requires p.At? && p.i < |h| && InHeap(h, h[p.i].parent)
    ensures h[p.i].parent.Null? ==> r.None?
    ensures r.Some? ==> At(r.value.0) == h[p.i].parent
    ensures r.Some? && r.value.1 == LeftSlot ==> h[r.value.0].left == p
    ensures r.Some? && r.value.1 == RightSlot ==> h[r.value.0].right == p && h[r.value.0].left != p
    ensures r.None? && h[p.i].parent.At? ==> h[h[p.i].parent.i].left != p && h[h[p.i].parent.i].right != p
  {
    var q := h[p.i].parent;
    if q.Null? then None
    else if h[q.i].left == p then Some((q.i, LeftSlot))
    else if h[q.i].right == p then Some((q.i, RightSlot))
    else None
  }

  /** The heap after the slot that points at `p` is set to NULL. */
  function Detached(h: seq<NodeRec>, p: Ptr): (r: seq<NodeRec>)
    requires p.At? && p.i < |h| && InHeap(h, h[p.i].parent)
    ensures |r| == |h|
  {
    match ParentSlot(h, p)
    case Some((q, LeftSlot)) => h[q := h[q].(left := Null)]
    case Some((q, RightSlot)) => h[q := h[q].(right := Null)]
    case None => h
  }

  /** The heap at `p` is the tree `t`: live nodes with `t`'s payloads and
      shape, every child linked back to its parent, no node reachable twice. */
  ghost predicate Shape(h: seq<NodeRec>, p: Ptr, t: Tree)
    decreases t
  {
    match t
    case Nil => p == Null
    case Node(d, l, r) =>
      p.At? && p.i < |h| && h[p.i].live && h[p.i].data == d
      && InHeap(h, h[p.i].parent)
      && Shape(h, h[p.i].left, l) && Shape(h, h[p.i].right, r)
      && (h[p.i].left.At? ==> h[h[p.i].left.i].parent == p)
      && (h[p.i].right.At? ==> h[h[p.i].right.i].parent == p)
      && Ids(h, h[p.i].left, l) !! Ids(h, h[p.i].right, r)
      && p.i !in Ids(h, h[p.i].left, l) + Ids(h, h[p.i].right, r)
  }

  /** The nodes of the tree at `p`. */
  ghost function Ids(h: seq<NodeRec>, p: Ptr, t: Tree): (r: set<nat>)
    ensures forall k :: k in r ==> k < |h|
    decreases t
  {
    match t
    case Nil => {}
    case Node(_, l, r) =>
      if p.At? && p.i < |h| then {p.i} + Ids(h, h[p.i].left, l) + Ids(h, h[p.i].right, r) else {}
  }

  /** The nodes of the tree at `p` in post-order: left subtree, right subtree, node. */
  ghost function PostorderIds(h: seq<NodeRec>, p: Ptr, t: Tree): seq<nat>
    decreases t
  {
    match t
    case Nil => []
    case Node(_, l, r) =>
      if p.At? && p.i < |h| then PostorderIds(h, h[p.i].left, l) + PostorderIds(h, h[p.i].right, r) + [p.i] else []
  }

  /** No node of a tree holds an undefined payload (`AST_NodeDestroy` asserts on one). */
  predicate Defined(t: Tree)
  {
    match t
    case Nil => true
    case Node(d, l, r) => !d.NoData? && Defined(l) && Defined(r)
  }

  /** A change of the heap outside a tree's nodes leaves that tree as it was. */
  lemma {:induction false} ShapeFrame(h: seq<NodeRec>, h2: seq<NodeRec>, p: Ptr, t: Tree)
    requires |h2| == |h|
    requires forall k :: k in Ids(h, p, t) ==> k < |h| && h2[k] == h[k]
    ensures Shape(h2, p, t) == Shape(h, p, t)
    ensures Ids(h2, p, t) == Ids(h, p, t)
    ensures PostorderIds(h2, p, t) == PostorderIds(h, p, t)
    decreases t
  {
    match t
    case Nil =>
    case Node(_, l, r) =>
      if p.At? && p.i < |h| {
        ShapeFrame(h, h2, h[p.i].left, l);
        ShapeFrame(h, h2, h[p.i].right, r);
      }
  }

  /** The post-order lists every node of the tree exactly once, and each
      node after both of its children. */
  lemma {:induction false} PostorderExactlyOnce(h: seq<NodeRec>, p: Ptr, t: Tree)
    requires Shape(h, p, t)
    ensures |PostorderIds(h, p, t)| == Size(t)
    ensures forall k :: k in Ids(h, p, t) <==> k in PostorderIds(h, p, t)
    ensures forall i, j :: 0 <= i < j < |PostorderIds(h, p, t)| ==> PostorderIds(h, p, t)[i] != PostorderIds(h, p, t)[j]
    decreases t
  {
    match t
    case Nil =>
    case Node(_, l, r) =>
      var n := h[p.i];
      PostorderExactlyOnce(h, n.left, l);
      PostorderExactlyOnce(h, n.right, r);
      DistinctJoin(PostorderIds(h, n.left, l), PostorderIds(h, n.right, r), p.i,
                   Ids(h, n.left, l), Ids(h, n.right, r));
  }

  /** Two repetition-free lists over disjoint sets, followed by an entry
      in neither, form a repetition-free list. */
  lemma DistinctJoin(a: seq<nat>, b: seq<nat>, x: nat, sa: set<nat>, sb: set<nat>)
    requires forall i, j :: 0 <= i < j < |a| ==> a[i] != a[j]
    requires forall i, j :: 0 <= i < j < |b| ==> b[i] != b[j]
    requires forall k :: k in a ==> k in sa
    requires forall k :: k in b ==> k in sb
    requires sa !! sb && x !in sa + sb
    ensures forall i, j :: 0 <= i < j < |a + b + [x]| ==> (a + b + [x])[i] != (a + b + [x])[j]
  {
    var all := a + b + [x];
    forall i, j | 0 <= i < j < |all| ensures all[i] != all[j] {
      if j < |a| {
      } else if j < |a| + |b| {
        if i >= |a| {
        } else {
          assert all[i] in sa && all[j] in sb;
        }
      } else {
        if i < |a| { assert all[i] in sa; } else { assert all[i] in sb; }
      }
    }
  }

  /** Both children of the node at position `i` of `order` occur before it. */
  predicate ChildrenBefore(h: seq<NodeRec>, order: seq<nat>, i: nat)
    requires i < |order|
  {
    order[i] < |h|
    && (h[order[i]].left.At? ==> h[order[i]].left.i in order[..i])
    && (h[order[i]].right.At? ==> h[order[i]].right.i in order[..i])
  }

  /** In the post-order every node comes after its children. */
  lemma {:induction false} PostorderChildrenFirst(h: seq<NodeRec>, p: Ptr, t: Tree)
    requires Shape(h, p, t)
    ensures forall i :: 0 <= i < |PostorderIds(h, p, t)| ==> ChildrenBefore(h, PostorderIds(h, p, t), i)
    decreases t
  {
    match t
    case Nil =>
    case Node(_, l, r) =>
      var n := h[p.i];
      PostorderExactlyOnce(h, n.left, l);
      PostorderExactlyOnce(h, n.right, r);
      PostorderChildrenFirst(h, n.left, l);
      PostorderChildrenFirst(h, n.right, r);
      var a, b := PostorderIds(h, n.left, l), PostorderIds(h, n.right, r);
      if n.left.At? { assert n.left.i in Ids(h, n.left, l); }
      if n.right.At? { assert n.right.i in Ids(h, n.right, r); }
      ChildrenFirstJoin(h, a, b, p.i);
  }

  /** A node listed after the post-orders of its two subtrees, each with
      children first and holding the node's child, comes after its
      children too. */
  lemma ChildrenFirstJoin(h: seq<NodeRec>, a: seq<nat>, b: seq<nat>, x: nat)
    requires forall i :: 0 <= i < |a| ==> ChildrenBefore(h, a, i)
    requires forall i :: 0 <= i < |b| ==> ChildrenBefore(h, b, i)
    requires x < |h| && (h[x].left.At? ==> h[x].left.i in a) && (h[x].right.At? ==> h[x].right.i in b)
    ensures forall i :: 0 <= i < |a + b + [x]| ==> ChildrenBefore(h, a + b + [x], i)
  {
    var all := a + b + [x];
    forall i | 0 <= i < |all| ensures ChildrenBefore(h, all, i) {
      if i < |a| + |b| {
        if i < |a| {
          ChildrenBeforeExtend(h, a, b, i);
        } else {
          ChildrenBeforeShift(h, a, b, i - |a|);
        }
        ChildrenBeforeExtend(h, a + b, [x], i);
      } else {
        assert all[..i] == a + b;
      }
    }
  }

  /** Appending entries keeps the children of an entry before it. */
  lemma ChildrenBeforeExtend(h: seq<NodeRec>, a: seq<nat>, c: seq<nat>, i: nat)
    requires i < |a| && ChildrenBefore(h, a, i)
    ensures ChildrenBefore(h, a + c, i)
  {
    assert (a + c)[..i] == a[..i];
  }

  /** Prepending entries keeps the children of an entry before it. */
  lemma ChildrenBeforeShift(h: seq<NodeRec>, a: seq<nat>, b: seq<nat>, j: nat)
    requires j < |b| && ChildrenBefore(h, b, j)
    ensures ChildrenBefore(h, a + b, |a| + j)
  {
    assert (a + b)[..|a| + j] == a + b[..j];
  }

  /** One `AST_NodeDestroy` on a heap value. */
  function DestroyOne(h: seq<NodeRec>, p: Ptr): (r: seq<NodeRec>)
    requires p.At? && p.i < |h| && InHeap(h, h[p.i].parent)
    ensures |r| == |h|
  {
    Detached(h, p)[p.i := Dead(h[p.i].data)]
  }

  /** The heap after `PostorderTraversal(p, AST_NodeDestroy)`. */
  ghost function AfterDestroy(h: seq<NodeRec>, p: Ptr, t: Tree): (r: seq<NodeRec>)
    ensures |r| == |h|
    decreases t
  {
    match t
    case Nil => h
    case Node(_, l, r) =>
      if p.At? && p.i < |h| then
        var h1 := AfterDestroy(h, h[p.i].left, l);
        var h2 := AfterDestroy(h1, h[p.i].right, r);
        if InHeap(h2, h2[p.i].parent) then DestroyOne(h2, p) else h2
      else h
  }

  /** Detaching a child from a parent whose slot holds it clears that slot. */
  lemma DetachChild(h: seq<NodeRec>, p: nat, c: Ptr)
    requires p < |h| && c.At? && c.i < |h| && h[c.i].parent == At(p)
    requires h[p].left == c || (h[p].right == c && h[p].left != c)
    ensures h[p].left == c ==> Detached(h, c) == h[p := h[p].(left := Null)]
    ensures h[p].left != c ==> Detached(h, c) == h[p := h[p].(right := Null)]
  {
  }

  /** After both subtrees of `p` are destroyed, their nodes are dead, both
      slots of `p` are NULL and nothing else has changed. */
  lemma {:induction false} ChildrenDestroyed(h: seq<NodeRec>, p: Ptr, t: Tree)
    requires p.At? && Shape(h, p, t)
    ensures var n := h[p.i];
            var h1 := AfterDestroy(h, n.left, t.left);
            Shape(h1, n.right, t.right) && Ids(h1, n.right, t.right) == Ids(h, n.right, t.right)
            && PostorderIds(h1, n.right, t.right) == PostorderIds(h, n.right, t.right)
            && (n.right.At? ==> h1[n.right.i].parent == p)
    ensures var n := h[p.i];
            var h2 := AfterDestroy(AfterDestroy(h, n.left, t.left), n.right, t.right);
            forall k :: 0 <= k < |h| ==>
              h2[k] == if k in Ids(h, n.left, t.left) + Ids(h, n.right, t.right) then Dead(h[k].data)
                       else if k == p.i then n.(left := Null, right := Null)
                       else h[k]
    decreases t, 1
  {
    var n := h[p.i];
    var l, r := t.left, t.right;
    var idsL, idsR := Ids(h, n.left, l), Ids(h, n.right, r);
    var h1 := AfterDestroy(h, n.left, l);
    if n.left.At? {
      AfterDestroyEffect(h, n.left, l);
      DetachChild(h, p.i, n.left);
    }
    assert forall k :: 0 <= k < |h| ==>
      h1[k] == if k in idsL then Dead(h[k].data) else if k == p.i then n.(left := Null) else h[k];
    ShapeFrame(h, h1, n.right, r);
    var h2 := AfterDestroy(h1, n.right, r);
    if n.right.At? {
      AfterDestroyEffect(h1, n.right, r);
      DetachChild(h1, p.i, n.right);
    }
  }

  /** Destroying a subtree frees exactly its nodes and clears the slot that
      pointed at it; nothing else changes. */
  lemma {:induction false} AfterDestroyEffect(h: seq<NodeRec>, p: Ptr, t: Tree)
    requires p.At? && Shape(h, p, t)
    requires h[p.i].parent.Null? || h[p.i].parent.i !in Ids(h, p, t)
    ensures forall k :: 0 <= k < |h| ==>
              AfterDestroy(h, p, t)[k] == if k in Ids(h, p, t) then Dead(h[k].data) else Detached(h, p)[k]
    decreases t, 2
  {
    var n := h[p.i];
    ChildrenDestroyed(h, p, t);
    var h2 := AfterDestroy(AfterDestroy(h, n.left, t.left), n.right, t.right);
    assert ParentSlot(h2, p) == ParentSlot(h, p);
  }

  /** The AST handle (`root`, `size`) together with the arena of nodes it
      points into. */
  class Ast {
    var root: Ptr
    var size: nat
    var nodes: seq<NodeRec>

    /** `AST_Init`: an empty tree. */
    constructor ()
      ensures root == Null && size == 0 && nodes == []
    {
      root := Null;
      size := 0;
      nodes := [];
    }

    /** `AST_NodeInit`: a new live node holding the given links; each
        non-NULL child is re-parented to it. */
    method NodeInit(parent: Ptr, left: Ptr, right: Ptr, data: Data) returns (p: Ptr)
      requires InHeap(nodes, parent) && InHeap(nodes, left) && InHeap(nodes, right)
      requires Storable(data)
      modifies this
      ensures root == old(root) && size == old(size)
      ensures p == At(old(|nodes|)) && |nodes| == old(|nodes|) + 1
      ensures nodes[p.i] == NodeRec(Stored(data), parent, left, right, true)
      ensures forall k :: 0 <= k < old(|nodes|) ==>
                nodes[k] == if At(k) == left || At(k) == right then old(nodes[k]).(parent := p) else old(nodes[k])
      ensures left.At? ==> ParentSlot(nodes, left) == Some((p.i, LeftSlot))
      ensures right.At? && right != left ==> ParentSlot(nodes, right) == Some((p.i, RightSlot))
    {
      p := At(|nodes|);
      nodes := nodes + [NodeRec(Stored(data), parent, left, right, true)];
      if left.At? {
        nodes := nodes[left.i := nodes[left.i].(parent := p)];
      }
      if right.At? {
        nodes := nodes[right.i := nodes[right.i].(parent := p)];
      }
    }

    /** `AST_NodeDestroy`: the parent's slot that held the node is set to
        NULL, then the node's links are cleared and it is freed. */
    method NodeDestroy(p: Ptr)
      requires p.At? && p.i < |nodes| && nodes[p.i].live
      requires InHeap(nodes, nodes[p.i].parent)
      requires !nodes[p.i].data.NoData?
      modifies this
      ensures root == old(root) && size == old(size)
      ensures nodes == old(Detached(nodes, p))[p.i := Dead(old(nodes[p.i].data))]
    {
      var slot := ParentSlot(nodes, p);
      match slot {
        case Some((q, LeftSlot)) =>
          nodes := nodes[q := nodes[q].(left := Null)];
        case Some((q, RightSlot)) =>
          nodes := nodes[q := nodes[q].(right := Null)];
        case None =>
      }
      nodes := nodes[p.i := Dead(nodes[p.i].data)];
    }

    /** `PostorderTraversal` with `AST_NodeDestroy` as callback: the left
        subtree, the right subtree, then the node are destroyed. Every node
        of the subtree ends freed, the slot that pointed at the subtree is
        NULL, and every other node is as it was. */
    method DestroySubtree(p: Ptr, ghost t: Tree) returns (count: nat, ghost order: seq<nat>)
      requires p.At? && Shape(nodes, p, t) && Defined(t)
      requires nodes[p.i].parent.Null? || nodes[p.i].parent.i !in Ids(nodes, p, t)
      modifies this
      ensures root == old(root) && size == old(size)
      ensures nodes == AfterDestroy(old(nodes), p, t)
      ensures count == Size(t)
      ensures order == PostorderIds(old(nodes), p, t)
      decreases t
    {
      ghost var h0 := nodes;
      var n := nodes[p.i];
      ChildrenDestroyed(h0, p, t);
      count := 0;
      order := [];
      if n.left.At? {
        var c, o := DestroySubtree(n.left, t.left);
        count, order := c, o;
      }
      if n.right.At? {
        var c, o := DestroySubtree(n.right, t.right);
        count, order := count + c, order + o;
      }
      NodeDestroy(p);
      count := count + 1;
      order := order + [p.i];
    }

    /** `AST_Destroy`: a non-empty tree is destroyed node by node in post-order. */
    method Destroy(ghost t: Tree) returns (ghost order: seq<nat>)
      requires Shape(nodes, root, t) && Defined(t)
      requires root.At? ==> nodes[root.i].parent.Null?
      modifies this
      ensures |nodes| == old(|nodes|)
      ensures order == old(PostorderIds(nodes, root, t))
      ensures forall k :: 0 <= k < |nodes| ==>
                nodes[k] == if k in old(Ids(nodes, root, t)) then Dead(old(nodes[k].data)) else old(nodes[k])
    {
      order := [];
      if root.At? {
        AfterDestroyEffect(nodes, root, t);
        var _, o := DestroySubtree(root, t);
        order := o;
      }
    }

    /** `PostorderTraversal` with no callback: the node count of the subtree. */
    method CountNodes(p: Ptr, ghost t: Tree) returns (count: nat)
      requires p.At? && Shape(nodes, p, t)
      ensures count == Size(t)
      decreases t
    {
      count := 0;
      var n := nodes[p.i];
      if n.left.At? {
        var c := CountNodes(n.left, t.left);
        count := count + c;
      }
      if n.right.At? {
        var c := CountNodes(n.right, t.right);
        count := count + c;
      }
      count := count + 1;
    }
  }
}
