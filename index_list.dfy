/** The index-linked list of List/list.c and clibs/List/list_private.c: an
    array of slots, each with a value and `next`/`prev` slot indices.  Slot
    0 is the fake element closing the cycle of live slots; free slots are
    chained through `next` from `free` and carry `prev == UNINITIALIZED`.

    The order of the live slots and of the free chain are ghost sequences;
    `Chain` ties them to the slot array. */
module IndexList {
  import opened Common

  const FIRST_SIZE: nat := 8
  const UNINITIALIZED: nat := 0xBAD
  const NONE_CAPACITY: nat := 0
  const FAKE: nat := 0

  datatype ListErr =
    | ListOk | ListOverflow | ListWrongCapacity | ListIndexOutOfRange
    | ListInsertBeforeUninitialized | ListEraseUninitialized

  /** A slot: the element's copy (NULL is None) and its neighbours. */
  datatype Node<T> = Node(value: Option<T>, next: nat, prev: nat)

  /** `lo, lo + 1, ..., hi - 1`. */
  function Range(lo: nat, hi: nat): (r: seq<nat>)
    ensures |r| == if lo <= hi then hi - lo else 0
    ensures forall i :: 0 <= i < |r| ==> r[i] == lo + i
  {
    if lo >= hi then [] else seq(hi - lo, i requires 0 <= i => lo + i)
  }

  lemma RangeCons(lo: nat, hi: nat)
    requires lo < hi
    ensures Range(lo, hi) == [lo] + Range(lo + 1, hi)
    ensures Range(lo, hi)[1..] == Range(lo + 1, hi)
  {
    assert Range(lo, hi) == [lo] + Range(lo + 1, hi);
  }

  lemma RangeSnoc(lo: nat, hi: nat)
    requires lo <= hi
    ensures Range(lo, hi) + [hi] == Range(lo, hi + 1)
  {
    assert Range(lo, hi) + [hi] == Range(lo, hi + 1);
  }

  function Head(s: seq<nat>): nat { if s == [] then 0 else s[0] }
  function Last(s: seq<nat>): nat { if s == [] then 0 else s[|s| - 1] }

  /** The slot after the `k`-th of an order, 0 (the fake slot) after the last. */
  function Succ(s: seq<nat>, k: nat): nat { if k + 1 < |s| then s[k + 1] else 0 }
  /** The slot before the `k`-th, 0 before the first. */
  function Pred(s: seq<nat>, k: nat): nat { if 0 < k <= |s| then s[k - 1] else 0 }

  predicate Distinct(s: seq<nat>)
  {
    forall a, b :: 0 <= a < b < |s| ==> s[a] != s[b]
  }

  /** Every slot of `s` is a real slot (not the fake one) below `size`. */
  predicate Within(s: seq<nat>, size: nat)
  {
    forall k :: 0 <= k < |s| ==> 0 < s[k] < size
  }

  predicate Disjoint(a: seq<nat>, b: seq<nat>)
  {
    forall x, y :: 0 <= x < |a| && 0 <= y < |b| ==> a[x] != b[y]
  }

  /** `live` and `free` share out the slots `1 .. size - 1`, each once. */
  ghost predicate Partition(live: seq<nat>, free: seq<nat>, size: nat)
  {
    |live| + |free| + 1 == size
    && Within(live, size) && Within(free, size)
    && Distinct(live) && Distinct(free) && Disjoint(live, free)
    && (forall v :: 0 < v < size ==> v in live || v in free)
  }

  /** `live` is the order of the live slots from `ListFront` to `ListEnd`,
      `free` the free chain from its head; together with the fake slot they
      account for every slot once. */
  ghost predicate Chain<T>(nodes: seq<Node<T>>, live: seq<nat>, free: seq<nat>)
  {
    Partition(live, free, |nodes|)
    && nodes[FAKE] == Node(None, Head(live), Last(live))
    && LiveLinks(nodes, live)
    && FreeLinks(nodes, free)
  }

  /** The slot array with the list's fields: `size` counts the fake slot
      with the live ones and `head` is the free-chain head. */
  ghost predicate State<T>(nodes: seq<Node<T>>, live: seq<nat>, free: seq<nat>, size: nat, head: nat)
  {
    Chain(nodes, live, free) && size == |live| + 1 && head == Head(free)
  }

  /** Each live slot links to its neighbours in the list order. */
  ghost predicate LiveLinks<T>(nodes: seq<Node<T>>, live: seq<nat>)
  {
    forall k {:trigger nodes[live[k]]} :: 0 <= k < |live| && live[k] < |nodes| ==>
      nodes[live[k]].next == Succ(live, k) && nodes[live[k]].prev == Pred(live, k)
  }

  /** Each free slot links to the next one of the free chain and is marked
      UNINITIALIZED. */
  ghost predicate FreeLinks<T>(nodes: seq<Node<T>>, free: seq<nat>)
  {
    forall k {:trigger nodes[free[k]]} :: 0 <= k < |free| && free[k] < |nodes| ==>
      nodes[free[k]].next == Succ(free, k) && nodes[free[k]].prev == UNINITIALIZED
  }

  /** `Values` is fixed by its elements. */
  lemma ValuesPointwise<T>(nodes: seq<Node<T>>, live: seq<nat>, w: seq<Option<T>>)
    requires |w| == |live|
    requires forall k :: 0 <= k < |live| ==> live[k] < |nodes| && w[k] == nodes[live[k]].value
    ensures Values(nodes, live) == w
  {
    assert forall k :: 0 <= k < |live| ==> Values(nodes, live)[k] == w[k];
  }

  /** The values in list order (a slot index past the array, which no
      chain holds, reads as NULL). */
  function Values<T>(nodes: seq<Node<T>>, live: seq<nat>): (r: seq<Option<T>>)
    ensures |r| == |live|
    ensures forall k {:trigger r[k]} :: 0 <= k < |live| && live[k] < |nodes| ==> r[k] == nodes[live[k]].value
  {
    if live == [] then []
    else [if live[0] < |nodes| then nodes[live[0]].value else None] + Values(nodes, live[1..])
  }

  // ---------------------------------------------------------------------
  // RealInsertAfter
  // ---------------------------------------------------------------------

  /** The slot writes of `RealInsertAfter` linking slot `f` after `pos`. */
  function InsertAfterNodes<T>(nodes: seq<Node<T>>, pos: nat, f: nat, x: T): (r: seq<Node<T>>)
    requires pos < |nodes| && f < |nodes| && nodes[pos].next < |nodes|
    ensures |r| == |nodes|
  {
    var nxt := nodes[pos].next;
    var n1 := nodes[pos := nodes[pos].(next := f)];
    var n2 := n1[nxt := n1[nxt].(prev := f)];
    n2[f := Node(Some(x), nxt, pos)]
  }

  /** Where `RealInsertAfter` links the new slot for list position `k`. */
  function InsertPos(live: seq<nat>, k: nat): nat
  {
    Pred(live, k)
  }

  /** The fake slot's links after the insert: `f` becomes the front when
      it goes first and the end when it goes last. */
  lemma InsertAfterFake<T>(nodes: seq<Node<T>>, live: seq<nat>, f: nat, k: nat, x: T)
    requires k <= |live| && 0 < f < |nodes|
    requires nodes[FAKE] == Node(None, Head(live), Last(live)) && LiveLinks(nodes, live)
    requires Within(live, |nodes|)
    ensures var r := InsertAfterNodes(nodes, InsertPos(live, k), f, x);
            var live2 := live[..k] + [f] + live[k..];
            r[FAKE] == Node(None, Head(live2), Last(live2))
  {
    var pos := InsertPos(live, k);
    var r := InsertAfterNodes(nodes, pos, f, x);
    var live2 := live[..k] + [f] + live[k..];
    var nxt := nodes[pos].next;
    assert Head(live2) == if k == 0 then f else live[0] by {
      assert live2[0] == if k == 0 then f else live[0];
    }
    assert Last(live2) == if k == |live| then f else live[|live| - 1] by {
      assert live2[|live2| - 1] == if k == |live| then f else live[|live| - 1];
    }
    if k == 0 {
      assert pos == FAKE && nxt == Head(live);
    } else {
      assert pos == live[k - 1] != FAKE;
      if k < |live| {
        assert nxt == live[k] != FAKE;
      } else {
        assert nxt == FAKE;
      }
    }
  }

  /** The slot `s` after the insert's three writes. */
  lemma InsertAfterNodesAt<T>(nodes: seq<Node<T>>, pos: nat, f: nat, x: T, s: nat)
    requires pos < |nodes| && f < |nodes| && nodes[pos].next < |nodes| && s < |nodes|
    ensures var nxt := nodes[pos].next;
            var r := InsertAfterNodes(nodes, pos, f, x);
            r[s] == if s == f then Node(Some(x), nxt, pos)
                    else nodes[s].(next := if s == pos then f else nodes[s].next,
                                   prev := if s == nxt then f else nodes[s].prev)
  {
  }

  /** What `InsertAfterLive` needs of the old list at position `k`. */
  ghost predicate InsertAfterPre<T>(nodes: seq<Node<T>>, live: seq<nat>, f: nat, k: nat)
  {
    k <= |live| && 0 < f < |nodes|
    && nodes[FAKE] == Node(None, Head(live), Last(live)) && LiveLinks(nodes, live)
    && Within(live, |nodes|) && Distinct(live)
    && (forall m :: 0 <= m < |live| ==> live[m] != f)
  }

  /** A slot before the new one keeps its links, except that its successor
      becomes `f` when it is the one `f` follows. */
  lemma InsertAfterLiveBefore<T>(nodes: seq<Node<T>>, live: seq<nat>, f: nat, k: nat, x: T, m: nat)
    requires InsertAfterPre(nodes, live, f, k) && m < k
    ensures var r := InsertAfterNodes(nodes, InsertPos(live, k), f, x);
            var live2 := live[..k] + [f] + live[k..];
            r[live2[m]].next == Succ(live2, m) && r[live2[m]].prev == Pred(live2, m)
  {
    var pos := InsertPos(live, k);
    var live2 := live[..k] + [f] + live[k..];
    assert nodes[pos].next == if k < |live| then live[k] else 0;
    assert live2[m] == live[m];
    InsertAfterNodesAt(nodes, pos, f, x, live[m]);
    assert live[m] != f && (k < |live| ==> live[m] != live[k]);
    assert nodes[live[m]].next == Succ(live, m) && nodes[live[m]].prev == Pred(live, m);
    if m + 1 < k {
      assert live2[m + 1] == live[m + 1];
    }
    if m > 0 {
      assert live2[m - 1] == live[m - 1];
    }
  }

  /** The new slot sits between `Pred(live, k)` and `live[k]`. */
  lemma InsertAfterLiveAt<T>(nodes: seq<Node<T>>, live: seq<nat>, f: nat, k: nat, x: T)
    requires InsertAfterPre(nodes, live, f, k)
    ensures var r := InsertAfterNodes(nodes, InsertPos(live, k), f, x);
            var live2 := live[..k] + [f] + live[k..];
            r[live2[k]].next == Succ(live2, k) && r[live2[k]].prev == Pred(live2, k)
  {
    var pos := InsertPos(live, k);
    var live2 := live[..k] + [f] + live[k..];
    assert nodes[pos].next == if k < |live| then live[k] else 0;
    assert live2[k] == f;
    InsertAfterNodesAt(nodes, pos, f, x, f);
    if k < |live| {
      assert live2[k + 1] == live[k];
    }
    if k > 0 {
      assert live2[k - 1] == live[k - 1];
    }
  }

  /** A slot after the new one keeps its links, except that its predecessor
      becomes `f` when it is the one `f` precedes. */
  lemma InsertAfterLiveAfter<T>(nodes: seq<Node<T>>, live: seq<nat>, f: nat, k: nat, x: T, m: nat)
    requires InsertAfterPre(nodes, live, f, k) && k < m <= |live|
    ensures var r := InsertAfterNodes(nodes, InsertPos(live, k), f, x);
            var live2 := live[..k] + [f] + live[k..];
            r[live2[m]].next == Succ(live2, m) && r[live2[m]].prev == Pred(live2, m)
  {
    var pos := InsertPos(live, k);
    var live2 := live[..k] + [f] + live[k..];
    assert nodes[pos].next == if k < |live| then live[k] else 0;
    assert live2[m] == live[m - 1];
    InsertAfterNodesAt(nodes, pos, f, x, live[m - 1]);
    assert live[m - 1] != f && (k > 0 ==> live[m - 1] != live[k - 1]);
    assert nodes[live[m - 1]].next == Succ(live, m - 1) && nodes[live[m - 1]].prev == Pred(live, m - 1);
    if m + 1 < |live2| {
      assert live2[m + 1] == live[m];
    }
    if m - 1 > k {
      assert live2[m - 1] == live[m - 2];
    }
  }

  lemma InsertAfterLive<T>(nodes: seq<Node<T>>, live: seq<nat>, f: nat, k: nat, x: T)
    requires InsertAfterPre(nodes, live, f, k)
    ensures var r := InsertAfterNodes(nodes, InsertPos(live, k), f, x);
            var live2 := live[..k] + [f] + live[k..];
            LiveLinks(r, live2)
  {
    var r := InsertAfterNodes(nodes, InsertPos(live, k), f, x);
    var live2 := live[..k] + [f] + live[k..];
    forall m | 0 <= m < |live2|
      ensures r[live2[m]].next == Succ(live2, m) && r[live2[m]].prev == Pred(live2, m)
    {
      if m < k {
        InsertAfterLiveBefore(nodes, live, f, k, x, m);
      } else if m == k {
        InsertAfterLiveAt(nodes, live, f, k, x);
      } else {
        InsertAfterLiveAfter(nodes, live, f, k, x, m);
      }
    }
  }

  lemma InsertAfterFree<T>(nodes: seq<Node<T>>, live: seq<nat>, free: seq<nat>, k: nat, x: T)
    requires free != [] && k <= |live| && 0 < |nodes|
    requires nodes[FAKE] == Node(None, Head(live), Last(live)) && LiveLinks(nodes, live)
    requires FreeLinks(nodes, free)
    requires Within(live, |nodes|) && Within(free, |nodes|) && Distinct(free) && Disjoint(live, free)
    ensures var r := InsertAfterNodes(nodes, InsertPos(live, k), free[0], x);
            var free2 := free[1..];
            FreeLinks(r, free2)
  {
    var pos := InsertPos(live, k);
    var r := InsertAfterNodes(nodes, pos, free[0], x);
    var free2 := free[1..];
    assert nodes[pos].next == if k < |live| then live[k] else 0;
    forall m | 0 <= m < |free2|
      ensures r[free2[m]].next == Succ(free2, m) && r[free2[m]].prev == UNINITIALIZED
    {
      assert free2[m] == free[m + 1];
      assert free[m + 1] != free[0];
      assert Succ(free2, m) == Succ(free, m + 1);
    }
  }

  /** The new order is still made of distinct slots, disjoint from the
      rest of the free chain. */
  lemma InsertAfterDistinct(live: seq<nat>, free: seq<nat>, k: nat)
    requires Distinct(live) && Distinct(free) && free != [] && k <= |live|
    requires forall a, b :: 0 <= a < |live| && 0 <= b < |free| ==> live[a] != free[b]
    ensures var live2 := live[..k] + [free[0]] + live[k..];
            Distinct(live2) && Distinct(free[1..])
            && forall a, b :: 0 <= a < |live2| && 0 <= b < |free[1..]| ==> live2[a] != free[1..][b]
  {
    var live2 := live[..k] + [free[0]] + live[k..];
    forall a, b | 0 <= a < b < |live2|
      ensures live2[a] != live2[b]
    {
      if a < k && b > k {
        assert live2[b] == live[b - 1];
      }
    }
    forall a, b | 0 <= a < |live2| && 0 <= b < |free[1..]|
      ensures live2[a] != free[1..][b]
    {
      assert free[1..][b] == free[b + 1];
    }
  }

  /** The insert writes only links, except in the new slot. */
  lemma InsertAfterNodesValueAt<T>(nodes: seq<Node<T>>, pos: nat, f: nat, x: T, s: nat)
    requires pos < |nodes| && f < |nodes| && nodes[pos].next < |nodes| && s < |nodes|
    ensures InsertAfterNodes(nodes, pos, f, x)[s].value == if s == f then Some(x) else nodes[s].value
  {
  }

  /** The values after the insert: `x` at position `k`. */
  lemma InsertAfterValues<T>(nodes: seq<Node<T>>, live: seq<nat>, f: nat, pos: nat, k: nat, x: T)
    requires k <= |live| && pos < |nodes| && f < |nodes| && nodes[pos].next < |nodes|
    requires forall m :: 0 <= m < |live| ==> live[m] < |nodes| && live[m] != f
    ensures var r := InsertAfterNodes(nodes, pos, f, x);
            Values(r, live[..k] + [f] + live[k..]) == Values(nodes, live)[..k] + [Some(x)] + Values(nodes, live)[k..]
  {
    var r := InsertAfterNodes(nodes, pos, f, x);
    var live2 := live[..k] + [f] + live[k..];
    var v := Values(nodes, live);
    var w := v[..k] + [Some(x)] + v[k..];
    forall m | 0 <= m < |live2|
      ensures live2[m] < |r| && w[m] == r[live2[m]].value
    {
      InsertAfterNodesValueAt(nodes, pos, f, x, live2[m]);
      if m < k {
        assert live2[m] == live[m] && w[m] == v[m];
      } else if m > k {
        assert live2[m] == live[m - 1] && w[m] == v[m - 1];
      }
    }
    ValuesPointwise(r, live2, w);
  }

  /** Moving the free head into the list keeps every slot accounted for. */
  lemma InsertAfterCover(live: seq<nat>, free: seq<nat>, k: nat, size: nat)
    requires free != [] && k <= |live|
    requires forall v :: 0 < v < size ==> v in live || v in free
    ensures var live2 := live[..k] + [free[0]] + live[k..];
            forall v :: 0 < v < size ==> v in live2 || v in free[1..]
  {
    var live2 := live[..k] + [free[0]] + live[k..];
    var free2 := free[1..];
    forall v | 0 < v < size
      ensures v in live2 || v in free2
    {
      if v in live {
        var m :| 0 <= m < |live| && live[m] == v;
        if m < k { assert live2[m] == v; } else { assert live2[m + 1] == v; }
      } else if v != free[0] {
        var m :| 0 <= m < |free| && free[m] == v;
        assert free2[m - 1] == v;
      } else {
        assert live2[k] == v;
      }
    }
  }

  lemma InsertAfterShape(live: seq<nat>, free: seq<nat>, k: nat, size: nat)
    requires Partition(live, free, size) && free != [] && k <= |live|
    ensures Partition(live[..k] + [free[0]] + live[k..], free[1..], size)
  {
    var live2 := live[..k] + [free[0]] + live[k..];
    var free2 := free[1..];
    InsertAfterCover(live, free, k, size);
    InsertAfterDistinct(live, free, k);
    forall m | 0 <= m < |live2|
      ensures 0 < live2[m] < size
    {
      if m < k { assert live2[m] == live[m]; }
      else if m > k { assert live2[m] == live[m - 1]; }
    }
    forall m | 0 <= m < |free2|
      ensures 0 < free2[m] < size
    {
      assert free2[m] == free[m + 1];
    }
  }

  /** `RealInsertAfter` puts the free-chain head into the list at position
      `k`, after the slot `Pred(live, k)`, and advances the free head. */
  lemma InsertAfterChain<T>(nodes: seq<Node<T>>, live: seq<nat>, free: seq<nat>, k: nat, x: T)
    requires Chain(nodes, live, free) && free != [] && k <= |live|
    ensures var r := InsertAfterNodes(nodes, InsertPos(live, k), free[0], x);
            Chain(r, live[..k] + [free[0]] + live[k..], free[1..])
            && Values(r, live[..k] + [free[0]] + live[k..]) == Values(nodes, live)[..k] + [Some(x)] + Values(nodes, live)[k..]
  {
    var live2 := live[..k] + [free[0]] + live[k..];
    var free2 := free[1..];
    InsertAfterShape(live, free, k, |nodes|);
    InsertAfterFake(nodes, live, free[0], k, x);
    InsertAfterLive(nodes, live, free[0], k, x);
    InsertAfterFree(nodes, live, free, k, x);
    assert nodes[InsertPos(live, k)].next == if k < |live| then live[k] else 0;
    InsertAfterValues(nodes, live, free[0], InsertPos(live, k), k, x);
  }

  /** The slots `RealInsertAfter` touches: the one it links after, its
      successor and the free head, which is neither of the other two. */
  lemma InsertAfterSlots<T>(nodes: seq<Node<T>>, live: seq<nat>, free: seq<nat>, k: nat)
    requires Chain(nodes, live, free) && free != [] && k <= |live|
    ensures InsertPos(live, k) < |nodes| && nodes[InsertPos(live, k)].next < |nodes|
    ensures free[0] != InsertPos(live, k) && free[0] != nodes[InsertPos(live, k)].next
    ensures nodes[free[0]].next == Head(free[1..])
  {
    if k > 0 {
      assert nodes[live[k - 1]].next == Succ(live, k - 1);
    }
    assert nodes[free[0]].next == Succ(free, 0);
  }

  /** `RealInsertAfter` on a list whose free slots are the ones after the
      list's: it takes slot `|live| + 1`, the slots it writes exist, and
      the result is a chain with `x` in place `k` and the remaining free
      slots still in index order. */
  lemma InsertEffect<T>(nodes: seq<Node<T>>, live: seq<nat>, free: seq<nat>, k: nat, x: T,
                        r: seq<Node<T>>, live2: seq<nat>, free2: seq<nat>, n2: nat, head: nat)
    requires Chain(nodes, live, free) && k <= |live|
    requires |live| + 3 <= |nodes| && free == Range(|live| + 1, |nodes|)
    requires r == InsertAfterNodes(nodes, InsertPos(live, k), |live| + 1, x)
    requires live2 == live[..k] + [|live| + 1] + live[k..] && free2 == free[1..]
    requires n2 == |live| + 2 && head == Head(free[1..])
    ensures free[0] == |live| + 1
    ensures InsertPos(live, k) < |nodes| && nodes[InsertPos(live, k)].next < |nodes|
    ensures free[0] != InsertPos(live, k) && free[0] != nodes[InsertPos(live, k)].next
    ensures free[1..] == Range(|live| + 2, |nodes|)
    ensures State(r, live2, free2, n2, head)
            && Values(r, live2) == Values(nodes, live)[..k] + [Some(x)] + Values(nodes, live)[k..]
  {
    InsertAfterSlots(nodes, live, free, k);
    InsertAfterChain(nodes, live, free, k, x);
    RangeCons(|live| + 1, |nodes|);
  }

  // ---------------------------------------------------------------------
  // RealDeleteAt
  // ---------------------------------------------------------------------

  /** The slot writes of `RealDeleteAt` on slot `d`: it is emptied, marked
      UNINITIALIZED and pushed on the free chain whose head was `head`,
      and its neighbours are joined. */
  function DeleteNodes<T>(nodes: seq<Node<T>>, d: nat, head: nat): (r: seq<Node<T>>)
    requires d < |nodes| && nodes[d].prev < |nodes| && nodes[d].next < |nodes|
    ensures |r| == |nodes|
  {
    var p := nodes[d].prev;
    var n := nodes[d].next;
    var n1 := nodes[d := Node(None, head, UNINITIALIZED)];
    var n2 := n1[p := n1[p].(next := n)];
    n2[n := n2[n].(prev := p)]
  }

  /** The slot `s` after the delete's writes. */
  lemma DeleteNodesAt<T>(nodes: seq<Node<T>>, d: nat, head: nat, s: nat)
    requires d < |nodes| && nodes[d].prev < |nodes| && nodes[d].next < |nodes| && s < |nodes|
    requires nodes[d].prev != d && nodes[d].next != d
    ensures var p := nodes[d].prev;
            var n := nodes[d].next;
            DeleteNodes(nodes, d, head)[s]
              == if s == d then Node(None, head, UNINITIALIZED)
                 else nodes[s].(next := if s == p then n else nodes[s].next,
                                prev := if s == n then p else nodes[s].prev)
  {
  }

  /** What `DeleteLive` needs of the old list. */
  ghost predicate DeletePre<T>(nodes: seq<Node<T>>, live: seq<nat>, j: nat)
  {
    j < |live| && 0 < |nodes|
    && nodes[FAKE] == Node(None, Head(live), Last(live)) && LiveLinks(nodes, live)
    && Within(live, |nodes|) && Distinct(live)
  }

  /** The fake slot after the delete: the front or end moves on when the
      deleted slot was one of them. */
  lemma DeleteFake<T>(nodes: seq<Node<T>>, live: seq<nat>, head: nat, j: nat)
    requires DeletePre(nodes, live, j)
    ensures var r := DeleteNodes(nodes, live[j], head);
            var live2 := live[..j] + live[j + 1..];
            live[j] < |nodes| && nodes[live[j]].prev < |nodes| && nodes[live[j]].next < |nodes|
            && r[FAKE] == Node(None, Head(live2), Last(live2))
  {
    var d := live[j];
    var live2 := live[..j] + live[j + 1..];
    assert nodes[d].next == Succ(live, j) && nodes[d].prev == Pred(live, j);
    assert j > 0 ==> live[j - 1] != d;
    assert j + 1 < |live| ==> live[j + 1] != d;
    DeleteNodesAt(nodes, d, head, FAKE);
    if live2 != [] {
      assert Head(live2) == if j == 0 then live[1] else live[0] by {
        assert live2[0] == if j == 0 then live[1] else live[0];
      }
      assert Last(live2) == if j == |live| - 1 then live[j - 1] else live[|live| - 1] by {
        assert live2[|live2| - 1] == if j == |live| - 1 then live[j - 1] else live[|live| - 1];
      }
    }
  }

  /** A slot before the deleted one keeps its links, except that the one
      just before it now leads to the deleted one's successor. */
  lemma DeleteLiveBefore<T>(nodes: seq<Node<T>>, live: seq<nat>, head: nat, j: nat, m: nat)
    requires DeletePre(nodes, live, j) && m < j
    ensures var r := DeleteNodes(nodes, live[j], head);
            var live2 := live[..j] + live[j + 1..];
            r[live2[m]].next == Succ(live2, m) && r[live2[m]].prev == Pred(live2, m)
  {
    var d := live[j];
    var live2 := live[..j] + live[j + 1..];
    assert nodes[d].next == Succ(live, j) && nodes[d].prev == Pred(live, j);
    assert live[j - 1] != d;
    assert j + 1 < |live| ==> live[j + 1] != d;
    assert live2[m] == live[m];
    DeleteNodesAt(nodes, d, head, live[m]);
    assert live[m] != d && (j + 1 < |live| ==> live[m] != live[j + 1]);
    assert nodes[live[m]].next == Succ(live, m) && nodes[live[m]].prev == Pred(live, m);
    if m + 1 < j {
      assert live2[m + 1] == live[m + 1];
    } else if m + 1 < |live2| {
      assert live2[m + 1] == live[j + 1];
    }
    if m > 0 {
      assert live2[m - 1] == live[m - 1];
    }
  }

  /** A slot after the deleted one keeps its links, except that the one
      just after it now leads back to the deleted one's predecessor. */
  lemma DeleteLiveAfter<T>(nodes: seq<Node<T>>, live: seq<nat>, head: nat, j: nat, m: nat)
    requires DeletePre(nodes, live, j) && j <= m < |live| - 1
    ensures var r := DeleteNodes(nodes, live[j], head);
            var live2 := live[..j] + live[j + 1..];
            r[live2[m]].next == Succ(live2, m) && r[live2[m]].prev == Pred(live2, m)
  {
    var d := live[j];
    var live2 := live[..j] + live[j + 1..];
    assert nodes[d].next == Succ(live, j) && nodes[d].prev == Pred(live, j);
    assert j > 0 ==> live[j - 1] != d;
    assert live[j + 1] != d;
    assert live2[m] == live[m + 1];
    DeleteNodesAt(nodes, d, head, live[m + 1]);
    assert live[m + 1] != d && (j > 0 ==> live[m + 1] != live[j - 1]);
    assert nodes[live[m + 1]].next == Succ(live, m + 1) && nodes[live[m + 1]].prev == Pred(live, m + 1);
    if m + 1 < |live2| {
      assert live2[m + 1] == live[m + 2];
    }
    if m > j {
      assert live2[m - 1] == live[m];
    } else if m > 0 {
      assert live2[m - 1] == live[j - 1];
    }
  }

  lemma DeleteLive<T>(nodes: seq<Node<T>>, live: seq<nat>, head: nat, j: nat)
    requires DeletePre(nodes, live, j)
    ensures var r := DeleteNodes(nodes, live[j], head);
            var live2 := live[..j] + live[j + 1..];
            r[FAKE] == Node(None, Head(live2), Last(live2))
            && LiveLinks(r, live2)
  {
    DeleteFake(nodes, live, head, j);
    var r := DeleteNodes(nodes, live[j], head);
    var live2 := live[..j] + live[j + 1..];
    forall m | 0 <= m < |live2|
      ensures r[live2[m]].next == Succ(live2, m) && r[live2[m]].prev == Pred(live2, m)
    {
      if m < j {
        DeleteLiveBefore(nodes, live, head, j, m);
      } else {
        DeleteLiveAfter(nodes, live, head, j, m);
      }
    }
  }

  lemma DeleteFree<T>(nodes: seq<Node<T>>, live: seq<nat>, free: seq<nat>, j: nat)
    requires j < |live| && 0 < |nodes|
    requires nodes[FAKE] == Node(None, Head(live), Last(live)) && LiveLinks(nodes, live)
    requires FreeLinks(nodes, free)
    requires Within(live, |nodes|) && Within(free, |nodes|) && Distinct(live) && Disjoint(live, free)
    ensures var r := DeleteNodes(nodes, live[j], Head(free));
            var free2 := [live[j]] + free;
            FreeLinks(r, free2)
  {
    var d := live[j];
    var r := DeleteNodes(nodes, d, Head(free));
    var free2 := [d] + free;
    assert nodes[d].next == Succ(live, j) && nodes[d].prev == Pred(live, j);
    forall m | 0 <= m < |free2|
      ensures r[free2[m]].next == Succ(free2, m) && r[free2[m]].prev == UNINITIALIZED
    {
      if m > 0 {
        assert free2[m] == free[m - 1];
        assert Succ(free2, m) == Succ(free, m - 1);
        assert free[m - 1] != d;
        assert j > 0 ==> free[m - 1] != live[j - 1];
        assert j + 1 < |live| ==> free[m - 1] != live[j + 1];
      }
    }
  }

  lemma DeleteShape(live: seq<nat>, free: seq<nat>, j: nat, size: nat)
    requires j < |live| && Partition(live, free, size)
    ensures Partition(live[..j] + live[j + 1..], [live[j]] + free, size)
  {
    var live2 := live[..j] + live[j + 1..];
    var free2 := [live[j]] + free;
    forall k | 0 <= k < |live2|
      ensures live2[k] == if k < j then live[k] else live[k + 1]
    {
    }
    forall a, b | 0 <= a < b < |live2|
      ensures live2[a] != live2[b]
    {
    }
    forall a, b | 0 <= a < |live2| && 0 <= b < |free2|
      ensures live2[a] != free2[b]
    {
      if b > 0 {
        assert free2[b] == free[b - 1];
      }
    }
    forall a, b | 0 <= a < b < |free2|
      ensures free2[a] != free2[b]
    {
      assert free2[b] == free[b - 1];
    }
    forall v | 0 < v < size
      ensures v in live2 || v in free2
    {
      if v in live {
        var m :| 0 <= m < |live| && live[m] == v;
        if m < j { assert live2[m] == v; } else if m > j { assert live2[m - 1] == v; } else { assert free2[0] == v; }
      } else {
        var m :| 0 <= m < |free| && free[m] == v;
        assert free2[m + 1] == v;
      }
    }
  }

  /** The delete writes only links, except in the deleted slot. */
  lemma DeleteValues<T>(nodes: seq<Node<T>>, live: seq<nat>, j: nat, head: nat)
    requires j < |live|
    requires forall m :: 0 <= m < |live| ==> live[m] < |nodes|
    requires forall m :: 0 <= m < |live| && m != j ==> live[m] != live[j]
    requires nodes[live[j]].prev < |nodes| && nodes[live[j]].next < |nodes|
    ensures Values(DeleteNodes(nodes, live[j], head), live[..j] + live[j + 1..])
            == Values(nodes, live)[..j] + Values(nodes, live)[j + 1..]
  {
    var r := DeleteNodes(nodes, live[j], head);
    var live2 := live[..j] + live[j + 1..];
    var v := Values(nodes, live);
    var w := v[..j] + v[j + 1..];
    forall m | 0 <= m < |live2|
      ensures live2[m] < |r| && w[m] == r[live2[m]].value
    {
      var n := if m < j then m else m + 1;
      assert live2[m] == live[n];
      assert w[m] == v[n];
      assert live[n] != live[j];
      DeleteNodesValueAt(nodes, live[j], head, live[n]);
    }
    ValuesPointwise(r, live2, w);
  }

  /** The delete leaves the value of every other slot alone. */
  lemma DeleteNodesValueAt<T>(nodes: seq<Node<T>>, d: nat, head: nat, s: nat)
    requires d < |nodes| && nodes[d].prev < |nodes| && nodes[d].next < |nodes|
    requires s < |nodes| && s != d
    ensures DeleteNodes(nodes, d, head)[s].value == nodes[s].value
  {
  }

  /** `RealDeleteAt` takes the `j`-th live slot out of the list and makes it
      the free-chain head. */
  lemma DeleteChain<T>(nodes: seq<Node<T>>, live: seq<nat>, free: seq<nat>, j: nat)
    requires Chain(nodes, live, free) && j < |live|
    ensures var r := DeleteNodes(nodes, live[j], Head(free));
            Chain(r, live[..j] + live[j + 1..], [live[j]] + free)
            && Values(r, live[..j] + live[j + 1..]) == Values(nodes, live)[..j] + Values(nodes, live)[j + 1..]
  {
    assert nodes[live[j]].next == Succ(live, j) && nodes[live[j]].prev == Pred(live, j);
    DeleteShape(live, free, j, |nodes|);
    DeleteLive(nodes, live, Head(free), j);
    DeleteFree(nodes, live, free, j);
    DeleteValues(nodes, live, j, Head(free));
  }

  /** The slots `RealDeleteAt` touches exist, and the deleted one is
      neither of its neighbours. */
  lemma DeleteSlots<T>(nodes: seq<Node<T>>, live: seq<nat>, free: seq<nat>, j: nat)
    requires Chain(nodes, live, free) && j < |live|
    ensures live[j] < |nodes| && nodes[live[j]].prev < |nodes| && nodes[live[j]].next < |nodes|
    ensures nodes[live[j]].prev != live[j] && nodes[live[j]].next != live[j]
  {
    assert nodes[live[j]].next == Succ(live, j) && nodes[live[j]].prev == Pred(live, j);
  }

  /** `RealDeleteAt` on a list whose free slots are the ones after the
      list's: the slots it writes exist, the result is a chain with the
      element gone, and an emptied list has every slot free in index order. */
  lemma DeleteEffect<T>(nodes: seq<Node<T>>, live: seq<nat>, free: seq<nat>, j: nat)
    requires Chain(nodes, live, free) && j < |live|
    requires |live| + 3 <= |nodes| && free == Range(|live| + 1, |nodes|)
    ensures live[j] < |nodes| && nodes[live[j]].prev < |nodes| && nodes[live[j]].next < |nodes|
    ensures nodes[live[j]].prev != live[j] && nodes[live[j]].next != live[j]
    ensures var r := DeleteNodes(nodes, live[j], Head(free));
            var live2 := live[..j] + live[j + 1..];
            State(r, live2, [live[j]] + free, |live|, live[j])
            && Values(r, live2) == Values(nodes, live)[..j] + Values(nodes, live)[j + 1..]
            && (live2 == [] ==> [live[j]] + free == Range(1, |nodes|))
  {
    DeleteSlots(nodes, live, free, j);
    DeleteChain(nodes, live, free, j);
    if live == [live[j]] {
      assert 1 in live || 1 in free;
      assert 1 !in free;
      RangeCons(1, |nodes|);
    }
  }

  /** What a walk from `ListFront` along `next` needs: it visits the live
      slots in order, each once, and comes back to the fake slot. */
  ghost predicate Walkable<T>(nodes: seq<Node<T>>, live: seq<nat>)
  {
    0 < |nodes| && nodes[FAKE].next == Head(live) && Distinct(live)
    && forall m :: 0 <= m < |live| ==> 0 < live[m] < |nodes| && nodes[live[m]].next == Succ(live, m)
  }

  /** The slots after the copy loop of `ListLinearization` has freed the
      values of the first `k` live slots. */
  ghost function Cleared<T>(nodes: seq<Node<T>>, live: seq<nat>, k: nat): (r: seq<Node<T>>)
    requires k <= |live| && forall m :: 0 <= m < |live| ==> live[m] < |nodes|
    ensures |r| == |nodes|
    decreases k
  {
    if k == 0 then nodes
    else
      var c := Cleared(nodes, live, k - 1);
      c[live[k - 1] := c[live[k - 1]].(value := None)]
  }

  /** A slot the loop has not reached is as it was. */
  lemma {:induction false} ClearedKeeps<T>(nodes: seq<Node<T>>, live: seq<nat>, k: nat, s: nat)
    requires k <= |live| && forall m :: 0 <= m < |live| ==> live[m] < |nodes|
    requires s < |nodes| && forall m :: 0 <= m < k ==> live[m] != s
    ensures Cleared(nodes, live, k)[s] == nodes[s]
    decreases k
  {
    if k > 0 {
      ClearedKeeps(nodes, live, k - 1, s);
    }
  }

  /** One step of the copy loop: the `k`-th live slot is still as it was,
      its value extends the copied prefix and its link leads to the next. */
  lemma CollectStep<T>(nodes: seq<Node<T>>, live: seq<nat>, k: nat)
    requires Walkable(nodes, live) && k < |live|
    ensures Cleared(nodes, live, k)[live[k]] == nodes[live[k]]
    ensures nodes[live[k]].next == if k + 1 < |live| then live[k + 1] else FAKE
    ensures Values(nodes, live)[..k + 1] == Values(nodes, live)[..k] + [nodes[live[k]].value]
  {
    ClearedKeeps(nodes, live, k, live[k]);
    PrefixSnoc(Values(nodes, live), k);
  }

  lemma PrefixSnoc<X>(s: seq<X>, k: nat)
    requires k < |s|
    ensures s[..k + 1] == s[..k] + [s[k]]
  {
  }

  lemma ChainWalkable<T>(nodes: seq<Node<T>>, live: seq<nat>, free: seq<nat>)
    requires Chain(nodes, live, free)
    ensures Walkable(nodes, live)
  {
    forall m | 0 <= m < |live|
      ensures 0 < live[m] < |nodes| && nodes[live[m]].next == Succ(live, m)
    {
      assert nodes[live[m]].next == Succ(live, m);
    }
  }

  // ---------------------------------------------------------------------
  // ListReallocUp
  // ---------------------------------------------------------------------

  /** The slots after `ListReallocUp` on a full array whose last free slot
      is `f`: twice as many slots, `f` chained to the first new one and the
      new slots chained in order, the last ending at 0. */
  function ReallocUpNodes<T>(nodes: seq<Node<T>>, f: nat): (r: seq<Node<T>>)
    requires f < |nodes|
    ensures |r| == 2 * |nodes|
  {
    var cap := |nodes|;
    nodes[f := nodes[f].(next := cap)]
      + seq(cap, i requires 0 <= i < cap => Node(None, if i + 1 < cap then cap + i + 1 else 0, UNINITIALIZED))
  }

  /** Growing keeps the list and its values and appends the new slots to
      the free chain. */
  lemma ReallocUpChain<T>(nodes: seq<Node<T>>, live: seq<nat>, f: nat)
    requires f < |nodes| && Chain(nodes, live, [f])
    ensures var r := ReallocUpNodes(nodes, f);
            Chain(r, live, [f] + Range(|nodes|, 2 * |nodes|))
            && Values(r, live) == Values(nodes, live)
  {
    var cap := |nodes|;
    var r := ReallocUpNodes(nodes, f);
    forall k | 0 <= k < |live|
      ensures r[live[k]] == nodes[live[k]]
    {
      assert live[k] != [f][0];
    }
    assert 0 < [f][0] == f;
    assert nodes[[f][0]].prev == UNINITIALIZED;
    ReallocUpFree(nodes, f);
    ReallocUpShape(live, f, cap);
    assert Values(r, live) == Values(nodes, live);
  }

  lemma ReallocUpFree<T>(nodes: seq<Node<T>>, f: nat)
    requires f < |nodes| && nodes[f].prev == UNINITIALIZED
    ensures FreeLinks(ReallocUpNodes(nodes, f), [f] + Range(|nodes|, 2 * |nodes|))
  {
    var cap := |nodes|;
    var r := ReallocUpNodes(nodes, f);
    var free2 := [f] + Range(cap, 2 * cap);
    forall m | 0 <= m < |free2|
      ensures r[free2[m]].next == Succ(free2, m) && r[free2[m]].prev == UNINITIALIZED
    {
      if m > 0 {
        assert free2[m] == cap + m - 1;
        assert r[cap + m - 1] == Node(None, if m < cap then cap + m else 0, UNINITIALIZED);
        if m + 1 < |free2| {
          assert free2[m + 1] == cap + m;
        }
      } else {
        assert free2[1] == cap;
      }
    }
  }

  lemma ReallocUpShape(live: seq<nat>, f: nat, cap: nat)
    requires Partition(live, [f], cap)
    ensures Partition(live, [f] + Range(cap, 2 * cap), 2 * cap)
  {
    var free2 := [f] + Range(cap, 2 * cap);
    forall k | 0 <= k < |live|
      ensures live[k] != f
    {
      assert live[k] != [f][0];
    }
    forall m | 0 <= m < |free2|
      ensures 0 < free2[m] < 2 * cap && (m > 0 ==> free2[m] == cap + m - 1)
    {
      if m > 0 {
        assert free2[m] == Range(cap, 2 * cap)[m - 1];
      }
    }
    forall v | 0 < v < 2 * cap
      ensures v in live || v in free2
    {
      if v >= cap {
        assert free2[v - cap + 1] == v;
      } else if v !in live {
        assert v in [f];
        assert free2[0] == v;
      }
    }
  }

  // ---------------------------------------------------------------------
  // Linearization
  // ---------------------------------------------------------------------

  /** The slots `Linearization` is meant to leave in an array of `cap`
      slots holding the values `vals` in list order: value `k` in slot
      `k + 1`, the live slots linked in index order, the free slots after
      them chained in index order. */
  function Linearized<T>(vals: seq<Option<T>>, cap: nat): (r: seq<Node<T>>)
    requires |vals| < cap
    ensures |r| == cap
  {
    var n := |vals|;
    seq(cap, s requires 0 <= s < cap =>
      if s == FAKE then Node(None, 1, n)
      else if s <= n then Node(vals[s - 1], if s < n then s + 1 else 0, s - 1)
      else Node(None, if s + 1 < cap then s + 1 else 0, UNINITIALIZED))
  }

  /** The slot the cut makes last is already free and ends the free chain,
      so resetting its `next` to FAKE changes nothing. */
  lemma LinearizedCut<T>(nodes: seq<Node<T>>, vals: seq<Option<T>>, cap: nat)
    requires |vals| + 2 <= cap <= |nodes| && nodes[..cap] == Linearized(vals, cap)
    ensures nodes[..cap][cap - 1 := nodes[cap - 1].(next := FAKE)] == Linearized(vals, cap)
  {
    var r := Linearized(vals, cap);
    assert nodes[cap - 1] == nodes[..cap][cap - 1] == r[cap - 1];
    assert r[cap - 1].next == FAKE;
  }

  lemma LinearizedLive<T>(vals: seq<Option<T>>, cap: nat)
    requires 0 < |vals| < cap
    ensures var r := Linearized(vals, cap);
            var live := Range(1, |vals| + 1);
            LiveLinks(r, live)
  {
    var r := Linearized(vals, cap);
    var live := Range(1, |vals| + 1);
    forall k | 0 <= k < |live|
      ensures r[live[k]].next == Succ(live, k) && r[live[k]].prev == Pred(live, k)
    {
      assert live[k] == k + 1;
      assert r[k + 1] == Node(vals[k], if k + 1 < |vals| then k + 2 else 0, k);
    }
  }

  lemma LinearizedFree<T>(vals: seq<Option<T>>, cap: nat)
    requires 0 < |vals| < cap
    ensures var r := Linearized(vals, cap);
            var free := Range(|vals| + 1, cap);
            FreeLinks(r, free)
  {
    var n := |vals|;
    var r := Linearized(vals, cap);
    var free := Range(n + 1, cap);
    forall k | 0 <= k < |free|
      ensures r[free[k]].next == Succ(free, k) && r[free[k]].prev == UNINITIALIZED
    {
      assert free[k] == n + 1 + k;
      assert r[n + 1 + k] == Node(None, if n + 2 + k < cap then n + 2 + k else 0, UNINITIALIZED);
    }
  }

  /** The linearized array is a list whose order is the slot order, whose
      values are the given ones, and whose free chain is the slots after. */
  lemma LinearizedChain<T>(vals: seq<Option<T>>, cap: nat)
    requires 0 < |vals| < cap
    ensures var n := |vals|;
            Chain(Linearized(vals, cap), Range(1, n + 1), Range(n + 1, cap))
            && Values(Linearized(vals, cap), Range(1, n + 1)) == vals
  {
    var n := |vals|;
    var r := Linearized(vals, cap);
    var live := Range(1, n + 1);
    var free := Range(n + 1, cap);
    RangeShape(n + 1, cap);
    LinearizedLive(vals, cap);
    LinearizedFree(vals, cap);
    assert r[FAKE] == Node(None, Head(live), Last(live));
    forall k | 0 <= k < n
      ensures Values(r, live)[k] == vals[k]
    {
      assert live[k] == k + 1;
    }
  }

  /** The slots `1 .. n - 1` in order, and `n .. cap - 1` in order, share
      out `1 .. cap - 1`. */
  lemma RangeShape(n: nat, cap: nat)
    requires 0 < n <= cap
    ensures Partition(Range(1, n), Range(n, cap), cap)
  {
    var live := Range(1, n);
    var free := Range(n, cap);
    forall v | 0 < v < cap
      ensures v in live || v in free
    {
      if v < n { assert live[v - 1] == v; } else { assert free[v - n] == v; }
    }
  }

  /** Shrinking an empty list: the fake slot and a free chain of every
      other slot, cut at `cap` with the last one ending at 0. */
  lemma TruncateEmptyChain<T>(nodes: seq<Node<T>>, cap: nat)
    requires Chain(nodes, [], Range(1, |nodes|)) && 2 <= cap <= |nodes|
    ensures Chain(nodes[..cap][cap - 1 := nodes[cap - 1].(next := 0)], [], Range(1, cap))
  {
    var r := nodes[..cap][cap - 1 := nodes[cap - 1].(next := 0)];
    var free := Range(1, |nodes|);
    var free2 := Range(1, cap);
    forall m | 0 <= m < |free2|
      ensures r[free2[m]].next == Succ(free2, m) && r[free2[m]].prev == UNINITIALIZED
    {
      assert free2[m] == free[m];
    }
    forall v | 0 < v < cap
      ensures v in free2
    {
      assert free2[v - 1] == v;
    }
  }

  /** `ListReallocDown` after the capacity is set to `cap`: whether the
      list was linearized (`nodes1`) or empty and left alone, the array cut
      to `cap` slots holds the same values in slots 1 .. n - 1, in order,
      and the free slots after them. */
  lemma ShrinkEffect<T>(nodes0: seq<Node<T>>, live: seq<nat>, free: seq<nat>, nodes1: seq<Node<T>>,
                        cut: seq<Node<T>>, cap: nat, n: nat)
    requires Chain(nodes0, live, free) && |live| + 3 <= cap <= |nodes0| == |nodes1|
    requires live == [] ==> free == Range(1, |nodes0|) && nodes1 == nodes0
    requires live != [] ==> nodes1[..cap] == Linearized(Values(nodes0, live), cap)
    requires cut == nodes1[..cap][cap - 1 := nodes1[cap - 1].(next := FAKE)] && n == |live| + 1
    ensures State(cut, Range(1, n), Range(n, cap), n, n) && Values(cut, Range(1, n)) == Values(nodes0, live)
  {
    var vals := Values(nodes0, live);
    RangeCons(n, cap);
    if live == [] {
      RangeCons(1, |nodes0|);
      TruncateEmptyChain(nodes0, cap);
      assert Range(1, n) == [];
    } else {
      LinearizedChain(vals, cap);
      LinearizedCut(nodes1, vals, cap);
    }
  }

  /** The slots `Linearization` leaves as written: the k-th value is handed
      to `ListSet` at position k + 1, which stores it in slot k + 2, while
      the links are those of `Linearized`.  Slot 1 keeps the NULL its value
      was freed to, and the last value lands in the first free slot, whose
      value the free-slot loop then resets to NULL. */
  function LinearizedAsWritten<T>(vals: seq<Option<T>>, cap: nat): (r: seq<Node<T>>)
    requires |vals| < cap
    ensures |r| == cap
  {
    var n := |vals|;
    seq(cap, s requires 0 <= s < cap =>
      Linearized(vals, cap)[s].(value := if 2 <= s <= n then vals[s - 2] else None))
  }

  /** As written, linearizing shifts every value one place towards the end
      of the list, puts NULL first and loses the last value. */
  lemma LinearizedAsWrittenShifts<T>(vals: seq<Option<T>>, cap: nat)
    requires 0 < |vals| < cap
    ensures Chain(LinearizedAsWritten(vals, cap), Range(1, |vals| + 1), Range(|vals| + 1, cap))
    ensures Values(LinearizedAsWritten(vals, cap), Range(1, |vals| + 1)) == [None] + vals[..|vals| - 1]
  {
    var n := |vals|;
    LinearizedChain(vals, cap);
    LinearizedAsWrittenLinks(vals, cap);
    RelinkValues(Linearized(vals, cap), LinearizedAsWritten(vals, cap), Range(1, n + 1), Range(n + 1, cap));
    LinearizedAsWrittenValues(vals, cap);
  }

  lemma LinearizedAsWrittenLinks<T>(vals: seq<Option<T>>, cap: nat)
    requires 0 < |vals| < cap
    ensures var a := Linearized(vals, cap);
            var b := LinearizedAsWritten(vals, cap);
            b[FAKE] == a[FAKE] && forall s :: 0 <= s < |a| ==> b[s].next == a[s].next && b[s].prev == a[s].prev
  {
  }

  lemma LinearizedAsWrittenValues<T>(vals: seq<Option<T>>, cap: nat)
    requires 0 < |vals| < cap
    ensures Values(LinearizedAsWritten(vals, cap), Range(1, |vals| + 1)) == [None] + vals[..|vals| - 1]
  {
    var n := |vals|;
    var r := LinearizedAsWritten(vals, cap);
    var live := Range(1, n + 1);
    forall k | 0 <= k < n
      ensures Values(r, live)[k] == ([None] + vals[..n - 1])[k]
    {
      assert live[k] == k + 1;
    }
  }

  /** Only links decide `Chain`, apart from the fake slot's NULL value. */
  lemma RelinkValues<T>(a: seq<Node<T>>, b: seq<Node<T>>, live: seq<nat>, free: seq<nat>)
    requires Chain(a, live, free) && |a| == |b| && b[FAKE] == a[FAKE]
    requires forall s :: 0 <= s < |a| ==> b[s].next == a[s].next && b[s].prev == a[s].prev
    ensures Chain(b, live, free)
  {
    forall k | 0 <= k < |live|
      ensures b[live[k]].next == Succ(live, k) && b[live[k]].prev == Pred(live, k)
    {
      assert a[live[k]].next == Succ(live, k) && a[live[k]].prev == Pred(live, k);
    }
    forall k | 0 <= k < |free|
      ensures b[free[k]].next == Succ(free, k) && b[free[k]].prev == UNINITIALIZED
    {
      assert a[free[k]].next == Succ(free, k) && a[free[k]].prev == UNINITIALIZED;
    }
  }

  /** One pushed element is enough to see it: the list `[x]` reads `[NULL]`
      after linearizing. */
  lemma LinearizedAsWrittenLosesValue<T>(x: T)
    ensures Values(LinearizedAsWritten([Some(x)], 3), Range(1, 2)) == [None]
    ensures Values(Linearized([Some(x)], 3), Range(1, 2)) == [Some(x)]
  {
    LinearizedAsWrittenShifts([Some(x)], 3);
    LinearizedChain([Some(x)], 3);
  }

  /** The list `Init` builds: the fake slot alone in the list and every
      other slot on the free chain in index order. */
  lemma EmptyChain<T>(nodes: seq<Node<T>>)
    requires 2 <= |nodes| && nodes[FAKE] == Node(None, 0, 0)
    requires forall s :: 0 < s < |nodes| ==>
               nodes[s].next == (if s + 1 < |nodes| then s + 1 else 0) && nodes[s].prev == UNINITIALIZED
    ensures Chain(nodes, [], Range(1, |nodes|))
  {
    RangeShape(1, |nodes|);
  }

  /** While the array has at most 0xBAD slots, a slot is marked
      UNINITIALIZED exactly when it is free; in a larger array a live slot
      whose predecessor is slot 0xBAD carries the same mark. */
  lemma UninitializedIffFree<T>(nodes: seq<Node<T>>, live: seq<nat>, free: seq<nat>)
    requires Chain(nodes, live, free) && |nodes| <= UNINITIALIZED
    ensures forall s :: 0 < s < |nodes| ==>
              (nodes[s].prev == UNINITIALIZED <==> s in free) && (s in free <==> s !in live)
  {
    forall s | 0 < s < |nodes|
      ensures (nodes[s].prev == UNINITIALIZED <==> s in free) && (s in free <==> s !in live)
    {
      if s in free {
        var k :| 0 <= k < |free| && free[k] == s;
        assert nodes[free[k]].prev == UNINITIALIZED;
        forall j | 0 <= j < |live|
          ensures live[j] != s
        {
          assert live[j] != free[k];
        }
      } else {
        var k :| 0 <= k < |live| && live[k] == s;
        assert nodes[live[k]].prev == Pred(live, k);
      }
    }
  }

  /** A slot other than the fake one that is not marked UNINITIALIZED is
      live, and its `prev` is its predecessor in the list. */
  lemma LiveSlot<T>(nodes: seq<Node<T>>, live: seq<nat>, free: seq<nat>, s: nat) returns (j: nat)
    requires Chain(nodes, live, free) && 0 < s < |nodes| && nodes[s].prev != UNINITIALIZED
    ensures j < |live| && live[j] == s && nodes[s].prev == Pred(live, j)
  {
    forall k | 0 <= k < |free|
      ensures free[k] != s
    {
      assert nodes[free[k]].prev == UNINITIALIZED;
    }
    assert s in live || s in free;
    assert s !in free;
    j :| 0 <= j < |live| && live[j] == s;
    assert nodes[live[j]].prev == Pred(live, j);
  }

  // ---------------------------------------------------------------------
  // The list object
  // ---------------------------------------------------------------------

  /** `List_t`: the slot array with its `size` (live slots plus the fake
      one), `capacity` and free-chain head.  `live` and `freeChain` are the
      orders `Chain` reads off the array. */
  class List<T> {
    var data: array<Node<T>>
    var size: nat
    var capacity: nat
    var free: nat
    ghost var live: seq<nat>
    ghost var freeChain: seq<nat>

    /** The array is a list in the orders `live` and `freeChain`. */
    ghost predicate Linked()
      reads this, data
    {
      data.Length == capacity && State(data[..], live, freeChain, size, free)
    }

    /** What every operation of list.c leaves behind: at least one free
        slot, and the free slots are the ones after the first `size`, in
        index order (deleting always linearizes, inserting takes the free
        head). */
    ghost predicate Valid()
      reads this, data
    {
      Linked() && size + 2 <= capacity && freeChain == Range(size, capacity)
    }

    /** What `ListReallocDown` needs: an empty list has every slot free in
        index order. */
    ghost predicate Shrinkable()
      reads this, data
    {
      Linked() && size + 2 <= capacity && (live == [] ==> freeChain == Range(1, capacity))
    }

    /** The values in list order, from `ListFront` to `ListEnd`. */
    ghost function Elements(): seq<Option<T>>
      reads this, data
    {
      Values(data[..], live)
    }

    /** `ListInit`: eight zeroed slots, the fake one closing on itself and
        slots 1..7 chained as free slots. */
    constructor Init()
      ensures Valid() && fresh(data)
      ensures Elements() == [] && capacity == FIRST_SIZE && free == 1
    {
      data := new Node<T>[FIRST_SIZE](_ => Node(None, 0, 0));
      size := 1;
      capacity := FIRST_SIZE;
      free := 1;
      live := [];
      freeChain := Range(1, FIRST_SIZE);
      new;
      var i := free;
      while i < FIRST_SIZE - 1
        modifies data
        invariant 1 <= i <= FIRST_SIZE - 1
        invariant forall s :: s == FAKE || i <= s < FIRST_SIZE ==> data[s] == Node(None, 0, 0)
        invariant forall s :: 1 <= s < i ==> data[s] == Node(None, s + 1, UNINITIALIZED)
      {
        data[i] := data[i].(next := i + 1, prev := UNINITIALIZED);
        i := i + 1;
      }
      data[FAKE] := data[FAKE].(next := FAKE, prev := FAKE);
      data[FIRST_SIZE - 1] := data[FIRST_SIZE - 1].(next := FAKE, prev := UNINITIALIZED);
      EmptyChain(data[..]);
    }

    /** `ListGet`: the value of a slot; a live slot's is its element, any
        other slot's is NULL unless `Set` wrote to it. */
    method Get(position: nat) returns (r: Option<T>)
      requires Valid() && position < capacity
      ensures forall k :: 0 <= k < |live| && live[k] == position ==> r == Elements()[k]
      ensures position == FAKE ==> r.None?
    {
      r := data[position].value;
    }

    /** `ListNext`: the slot after a live one in list order (0 after the
        last), the first live slot after the fake one, the next free slot
        after a free one. */
    method Next(position: nat) returns (r: nat)
      requires Valid() && position < capacity
      ensures position == FAKE ==> r == Head(live)
      ensures forall k :: 0 <= k < |live| && live[k] == position ==> r == Succ(live, k)
      ensures forall k :: 0 <= k < |freeChain| && freeChain[k] == position ==> r == Succ(freeChain, k)
    {
      r := data[position].next;
      assert forall k :: 0 <= k < |live| ==> data[..][live[k]] == data[live[k]];
      assert forall k :: 0 <= k < |freeChain| ==> data[..][freeChain[k]] == data[freeChain[k]];
    }

    /** `ListPrev`: the slot before a live one (0 before the first), the
        last live slot before the fake one, UNINITIALIZED for a free one. */
    method Prev(position: nat) returns (r: nat)
      requires Valid() && position < capacity
      ensures position == FAKE ==> r == Last(live)
      ensures forall k :: 0 <= k < |live| && live[k] == position ==> r == Pred(live, k)
      ensures position in freeChain ==> r == UNINITIALIZED
    {
      r := data[position].prev;
      assert forall k :: 0 <= k < |live| ==> data[..][live[k]] == data[live[k]];
      assert forall k :: 0 <= k < |freeChain| ==> data[..][freeChain[k]] == data[freeChain[k]];
    }

    /** `ListFront`: the first live slot, 0 for an empty list. */
    method Front() returns (r: nat)
      requires Valid()
      ensures r == Head(live)
      ensures live != [] ==> 0 < r < capacity && Elements()[0] == data[r].value
    {
      r := data[FAKE].next;
    }

    /** `ListEnd`: the last live slot, 0 for an empty list. */
    method End() returns (r: nat)
      requires Valid()
      ensures r == Last(live)
      ensures live != [] ==> 0 < r < capacity && Elements()[|live| - 1] == data[r].value
    {
      r := data[FAKE].prev;
    }

    /** `ListSize`: the number of elements. */
    method Size() returns (n: nat)
      requires Valid()
      ensures n == |Elements()|
    {
      n := size - 1;
    }
  
    /** `ListSet`: LIST_INDEX_OUT_OF_RANGE when slot `position + 1` does
        not exist; otherwise that slot gets `value`, which replaces the
        element stored there when the slot is live. */
    method Set(position: nat, value: T) returns (err: ListErr)
      requires Valid()
      modifies data
      ensures Valid() && live == old(live) && |Elements()| == old(|Elements()|)
      ensures err == ListOk || err == ListIndexOutOfRange
      ensures err == ListIndexOutOfRange <==> position + 1 >= capacity
      ensures forall k :: 0 <= k < |live| ==>
                Elements()[k] == if err == ListOk && live[k] == position + 1 then Some(value) else old(Elements())[k]
    {
      if position + 1 >= capacity {
        return ListIndexOutOfRange;
      }
      data[position + 1] := data[position + 1].(value := Some(value));
      RelinkValues(old(data[..]), data[..], live, freeChain);
      err := ListOk;
    }

    /** `ListReallocUp`, called when the last free slot was just taken:
        doubles the array and chains the new slots, in index order, after
        that last free slot. */
    method ReallocUp() returns (err: ListErr)
      requires Linked() && size + 1 == capacity && freeChain == Range(size, capacity)
      modifies this
      ensures Valid() && fresh(data) && err == ListOk
      ensures capacity == 2 * old(capacity) && size == old(size) && live == old(live)
      ensures Elements() == old(Elements())
    {
      ghost var nodes0 := data[..];
      ghost var f := free;
      assert freeChain == [f];
      var new_data := Grow(data, free, size);
      capacity := capacity * 2;
      data := new_data;
      assert data[..] == ReallocUpNodes(nodes0, f);
      ReallocUpChain(nodes0, live, f);
      freeChain := [f] + Range(|nodes0|, 2 * |nodes0|);
      RangeCons(size, capacity);
      err := ListOk;
    }

    /** The body of `ListReallocUp` on the array: `realloc` to twice the
        slots, the free head `f` chained to slot `size + 1`, and the new
        slots chained up to the last, whose `next` is 0.  (The `free == 0`
        branch of the source cannot be taken: the caller has just used a
        free slot and one is left.) */
    static method Grow(old_data: array<Node<T>>, f: nat, size: nat) returns (data: array<Node<T>>)
      requires 0 < f < old_data.Length && size + 1 == old_data.Length
      ensures fresh(data) && data[..] == ReallocUpNodes(old_data[..], f)
    {
      ghost var grown := ReallocUpNodes(old_data[..], f);
      var capacity := old_data.Length * 2;
      data := new Node<T>[capacity](i reads old_data => if 0 <= i < old_data.Length then old_data[i] else Node(None, 0, 0));
      data[f] := data[f].(next := size + 1);
      var i := size + 1;
      while i < capacity - 1
        invariant size + 1 <= i <= capacity - 1
        invariant forall s :: 0 <= s < i ==> data[s] == grown[s]
      {
        data[i] := data[i].(value := None, next := i + 1, prev := UNINITIALIZED);
        i := i + 1;
      }
      data[capacity - 1] := data[capacity - 1].(value := None, next := FAKE, prev := UNINITIALIZED);
    }

    /** `RealInsertAfter`: the free-chain head becomes the `k`-th element,
        linked after `position`, the slot of the `(k-1)`-th (or the fake
        slot); the array grows once no spare free slot is left. */
    method RealInsertAfter(position: nat, x: T, ghost k: nat) returns (err: ListErr)
      requires Valid() && k <= |live| && position == Pred(live, k)
      modifies this, data
      ensures Valid() && err == ListOk && size == old(size) + 1
      ensures live == old(live[..k] + [size] + live[k..])
      ensures Elements() == old(Elements()[..k] + [Some(x)] + Elements()[k..])
    {
      Attach(position, x, k);
      if size + 1 == capacity {
        err := ReallocUp();
      } else {
        err := ListOk;
      }
    }

    /** The part of `RealInsertAfter` before the growth check: the free
        head takes `x` and enters the list order after `position`. */
    method Attach(position: nat, x: T, ghost k: nat)
      requires Valid() && k <= |live| && position == Pred(live, k)
      modifies this, data
      ensures Linked() && data == old(data) && capacity == old(capacity)
      ensures size + 1 <= capacity && freeChain == Range(size, capacity)
      ensures size == old(size) + 1 && live == old(live[..k] + [size] + live[k..])
      ensures Elements() == old(Elements()[..k] + [Some(x)] + Elements()[k..])
    {
      ghost var nodes0 := data[..];
      ghost var live0 := live;
      ghost var free0 := freeChain;
      ghost var live2 := live0[..k] + [size] + live0[k..];
      ghost var r := InsertAfterNodes(nodes0, position, size, x);
      RangeCons(size, capacity);
      InsertEffect(nodes0, live0, free0, k, x, r, live2, free0[1..], size + 1, Head(free0[1..]));
      var free_position := free;
      var next_free := data[free_position].next;
      assert free_position == free0[0] == size && next_free == Head(free0[1..]);
      Link(data, position, free_position, x);
      assert data[..] == r;
      SetOrder(size + 1, next_free, live2, free0[1..]);
    }

    /** The field updates that follow the slot writes of an insert or an
        erase: the counts, the free head and the two orders become the
        ones the slots now hold. */
    method SetOrder(size2: nat, head: nat, ghost live2: seq<nat>, ghost free2: seq<nat>)
      requires data.Length == capacity && State(data[..], live2, free2, size2, head)
      modifies this
      ensures Linked() && data == old(data) && capacity == old(capacity) && data[..] == old(data[..])
      ensures size == size2 && free == head && live == live2 && freeChain == free2
    {
      free := head;
      size := size2;
      live := live2;
      freeChain := free2;
    }

    /** The slot writes of `RealInsertAfter`, in the source's order. */
    static method Link(data: array<Node<T>>, prev_position: nat, free_position: nat, x: T)
      requires prev_position < data.Length && free_position < data.Length
      requires data[prev_position].next < data.Length
      requires free_position != prev_position && free_position != data[prev_position].next
      modifies data
      ensures data[..] == InsertAfterNodes(old(data[..]), prev_position, free_position, x)
    {
      var next_position := data[prev_position].next;
      data[free_position] := data[free_position].(value := Some(x));
      data[prev_position] := data[prev_position].(next := free_position);
      data[free_position] := data[free_position].(prev := prev_position);
      data[next_position] := data[next_position].(prev := free_position);
      data[free_position] := data[free_position].(next := next_position);
    }

    /** `ListPushBack`: appends after `ListEnd`; the new element's slot is
        the old `size`, so a list only ever pushed to keeps its elements in
        slots 1, 2, ... in order. */
    method PushBack(x: T) returns (err: ListErr)
      requires Valid()
      modifies this, data
      ensures Valid() && err == ListOk
      ensures Elements() == old(Elements()) + [Some(x)]
      ensures live == old(live) + [old(size)]
      ensures old(live) == Range(1, old(size)) ==> live == Range(1, size)
    {
      var end := End();
      ghost var before := Elements();
      err := RealInsertAfter(end, x, |live|);
      assert before[..|before|] + [Some(x)] + before[|before|..] == before + [Some(x)];
      RangeSnoc(1, old(size));
    }
  
    /** `ListInsert`: the element goes before the one in slot
        `position + 1`, after checking that the slot exists and is not
        marked UNINITIALIZED. */
    method Insert(position: nat, x: T) returns (err: ListErr)
      requires Valid()
      modifies this, data
      ensures Valid()
      ensures err == ListOk || err == ListIndexOutOfRange || err == ListInsertBeforeUninitialized
      ensures err == ListIndexOutOfRange <==> position + 1 >= old(capacity)
      ensures err == ListInsertBeforeUninitialized <==>
                position + 1 < old(capacity) && old(data[position + 1].prev) == UNINITIALIZED
      ensures old(capacity) <= UNINITIALIZED ==>
                (err == ListInsertBeforeUninitialized <==> position + 1 < old(capacity) && position + 1 !in old(live))
      ensures err != ListOk ==> live == old(live) && Elements() == old(Elements())
      ensures err == ListOk ==>
                exists j :: 0 <= j < |old(live)| && old(live)[j] == position + 1
                  && live == old(live[..j] + [size] + live[j..])
                  && Elements() == old(Elements()[..j] + [Some(x)] + Elements()[j..])
    {
      if capacity <= UNINITIALIZED {
        UninitializedIffFree(data[..], live, freeChain);
      }
      var real_position := position + 1;
      if real_position >= capacity {
        return ListIndexOutOfRange;
      }
      if data[real_position].prev == UNINITIALIZED {
        return ListInsertBeforeUninitialized;
      }
      ghost var j := LiveSlot(data[..], live, freeChain, real_position);
      err := RealInsertAfter(data[real_position].prev, x, j);
    }

    /** `ListErase`: removes the element in slot `position + 1`, after
        checking that the slot exists and is not marked UNINITIALIZED. */
    method Erase(position: nat) returns (err: ListErr)
      requires Valid()
      modifies this, data
      ensures Valid()
      ensures err == ListOk || err == ListIndexOutOfRange || err == ListEraseUninitialized
      ensures err == ListIndexOutOfRange <==> position + 1 >= old(capacity)
      ensures err == ListEraseUninitialized <==>
                position + 1 < old(capacity) && old(data[position + 1].prev) == UNINITIALIZED
      ensures old(capacity) <= UNINITIALIZED ==>
                (err == ListEraseUninitialized <==> position + 1 < old(capacity) && position + 1 !in old(live))
      ensures err != ListOk ==> live == old(live) && Elements() == old(Elements())
      ensures err == ListOk ==>
                live == Range(1, size) && capacity == size + 2
                && exists j :: 0 <= j < |old(live)| && old(live)[j] == position + 1
                     && Elements() == old(Elements()[..j] + Elements()[j + 1..])
    {
      if capacity <= UNINITIALIZED {
        UninitializedIffFree(data[..], live, freeChain);
      }
      var real_position := position + 1;
      if real_position >= capacity {
        return ListIndexOutOfRange;
      }
      if data[real_position].prev == UNINITIALIZED {
        return ListEraseUninitialized;
      }
      ghost var j := LiveSlot(data[..], live, freeChain, real_position);
      err := RealDeleteAt(real_position, j);
    }

    /** `ListPop`: removes the last element. */
    method Pop() returns (err: ListErr)
      requires Valid() && live != []
      modifies this, data
      ensures Valid() && err == ListOk
      ensures Elements() == old(Elements()[..|Elements()| - 1])
      ensures live == Range(1, size) && capacity == size + 2
    {
      var end := End();
      err := RealDeleteAt(end, |live| - 1);
    }

    /** `RealDeleteAt`: unlinks the `j`-th element's slot, makes it the
        free head, and shrinks the array to `size + 2` slots, which also
        linearizes it. */
    method RealDeleteAt(position: nat, ghost j: nat) returns (err: ListErr)
      requires Valid() && j < |live| && position == live[j]
      modifies this, data
      ensures Valid() && err == ListOk && size == old(size) - 1
      ensures Elements() == old(Elements()[..j] + Elements()[j + 1..])
      ensures live == Range(1, size) && capacity == size + 2
    {
      Detach(position, j);
      err := ReallocDown(NONE_CAPACITY);
      err := ListOk;
    }

    /** The part of `RealDeleteAt` before the shrink: the slot leaves the
        list order and becomes the free head. */
    method Detach(position: nat, ghost j: nat)
      requires Valid() && j < |live| && position == live[j]
      modifies this, data
      ensures Shrinkable() && data == old(data) && capacity == old(capacity)
      ensures size == old(size) - 1
      ensures Elements() == old(Elements()[..j] + Elements()[j + 1..])
    {
      ghost var nodes0 := data[..];
      ghost var live0 := live;
      ghost var free0 := freeChain;
      DeleteEffect(nodes0, live0, free0, j);
      Unlink(data, position, free);
      SetOrder(size - 1, position, live0[..j] + live0[j + 1..], [position] + free0);
    }

    /** The slot writes of `RealDeleteAt`, in the source's order. */
    static method Unlink(data: array<Node<T>>, del_position: nat, head: nat)
      requires del_position < data.Length
      requires data[del_position].prev < data.Length && data[del_position].next < data.Length
      requires data[del_position].prev != del_position && data[del_position].next != del_position
      modifies data
      ensures data[..] == DeleteNodes(old(data[..]), del_position, head)
    {
      var prev_position := data[del_position].prev;
      var next_position := data[del_position].next;
      data[del_position] := data[del_position].(value := None);
      data[del_position] := data[del_position].(prev := UNINITIALIZED);
      data[del_position] := data[del_position].(next := head);
      data[prev_position] := data[prev_position].(next := next_position);
      data[next_position] := data[next_position].(prev := prev_position);
    }

    /** `ListReallocDown`: LIST_WRONG_CAPACITY for a capacity not below the
        current one; otherwise the capacity becomes `size + 2`
        (NONE_CAPACITY) or the one given, the list is linearized and the
        array cut to the new capacity. */
    method ReallocDown(c: nat) returns (err: ListErr)
      requires Shrinkable()
      requires c == NONE_CAPACITY || c >= size + 2 || c >= capacity
      modifies this, data
      ensures err == ListOk || err == ListWrongCapacity
      ensures err == ListWrongCapacity <==> c >= old(capacity)
      ensures err == ListWrongCapacity ==> Shrinkable() && unchanged(this) && unchanged(data)
      ensures err == ListOk ==>
                Valid() && size == old(size) && Elements() == old(Elements())
                && live == Range(1, size) && capacity == (if c == NONE_CAPACITY then size + 2 else c)
    {
      if c >= capacity {
        return ListWrongCapacity;
      } else if c == NONE_CAPACITY {
        capacity := size + 2;
      } else {
        capacity := c;
      }
      Shrink();
      err := ListOk;
    }

    /** The part of `ListReallocDown` after the capacity is set: linearize,
        then cut the array to `capacity` slots. */
    method Shrink()
      requires Chain(data[..], live, freeChain) && size == |live| + 1 && free == Head(freeChain)
      requires size + 2 <= capacity <= data.Length
      requires live == [] ==> freeChain == Range(1, data.Length)
      modifies this, data
      ensures Valid() && size == old(size) && capacity == old(capacity)
      ensures Elements() == Values(old(data[..]), old(live))
      ensures live == Range(1, size)
    {
      ghost var nodes0 := data[..];
      ghost var live0 := live;
      ghost var free0 := freeChain;
      var _ := Linearization();
      ghost var nodes1 := data[..];
      data := Truncate(data, capacity);
      ShrinkEffect(nodes0, live0, free0, nodes1, data[..], capacity, size);
      assert free == size;
      SetOrders(Range(1, size), Range(size, capacity));
    }

    /** Names the orders the slots hold after a shrink; no field of the
        source changes. */
    method SetOrders(ghost live2: seq<nat>, ghost free2: seq<nat>)
      requires data.Length == capacity && State(data[..], live2, free2, size, free)
      modifies this
      ensures Linked() && live == live2 && freeChain == free2
      ensures data == old(data) && data[..] == old(data[..]) && capacity == old(capacity)
      ensures size == old(size) && free == old(free)
    {
      live := live2;
      freeChain := free2;
    }

    /** The `realloc` of `ListReallocDown` and the store after it: the first
        `capacity` slots, the last one's `next` set to 0. */
    static method Truncate(old_data: array<Node<T>>, capacity: nat) returns (data: array<Node<T>>)
      requires 0 < capacity <= old_data.Length
      ensures fresh(data)
      ensures data[..] == old_data[..capacity][capacity - 1 := old_data[capacity - 1].(next := FAKE)]
    {
      data := new Node<T>[capacity](i reads old_data => if 0 <= i < old_data.Length then old_data[i] else Node(None, 0, 0));
      data[capacity - 1] := data[capacity - 1].(next := FAKE);
    }

    /** `ListLinearization`, with each value stored in the slot after the
        previous one (see `LinearizedAsWritten` for the code as written):
        nothing changes for an empty list; otherwise the k-th element moves
        to slot k + 1, the slots are linked in index order and the free
        chain is the slots after them, up to `capacity`, which may be below
        the array's length while `ListReallocDown` shrinks it. */
    method Linearization() returns (err: ListErr)
      requires Chain(data[..], live, freeChain) && size == |live| + 1 && free == Head(freeChain)
      requires size + 2 <= capacity <= data.Length
      modifies this, data
      ensures err == ListOk && data == old(data) && capacity == old(capacity) && size == old(size)
      ensures old(live) == [] ==> unchanged(this) && unchanged(data)
      ensures old(live) != [] ==>
                data[..capacity] == Linearized(Values(old(data[..]), old(live)), capacity)
                && live == Range(1, size) && freeChain == Range(size, capacity) && free == size
    {
      if size - 1 == 0 {
        return ListOk;
      }
      ghost var vals := Values(data[..], live);
      ChainWalkable(data[..], live, freeChain);
      var buffer := Collect(data, live);
      Relink(data, buffer, capacity);
      ghost var relinked := data[..capacity];
      free := size;
      live := Range(1, size);
      freeChain := Range(size, capacity);
      assert data[..capacity] == relinked;
      err := ListOk;
    }

    /** The loops of `ListLinearization` after the copy: the fake slot
        points at slots 1 and n, slots 1..n hold the values and are linked
        in index order, and slots n+1 .. capacity-1 are chained as free
        slots. */
    static method Relink(data: array<Node<T>>, buffer: seq<Option<T>>, capacity: nat)
      requires 0 < |buffer| && |buffer| + 3 <= capacity <= data.Length
      requires data[FAKE].value == None
      modifies data
      ensures data[..capacity] == Linearized(buffer, capacity)
    {
      ghost var target := Linearized(buffer, capacity);
      var size := |buffer| + 1;
      data[FAKE] := data[FAKE].(next := 1, prev := size - 1);
      var buffer_pointer := 0;
      while buffer_pointer < size - 1
        invariant buffer_pointer <= size - 1
        invariant data[FAKE] == target[FAKE]
        invariant forall s :: 1 <= s <= buffer_pointer ==> data[s] == Node(buffer[s - 1], s + 1, s - 1)
      {
        data[buffer_pointer + 1] := data[buffer_pointer + 1].(value := buffer[buffer_pointer]);
        data[buffer_pointer + 1] := data[buffer_pointer + 1].(next := buffer_pointer + 2);
        data[buffer_pointer + 1] := data[buffer_pointer + 1].(prev := buffer_pointer);
        buffer_pointer := buffer_pointer + 1;
      }
      data[size - 1] := data[size - 1].(next := FAKE);
      var i := size;
      while i < capacity
        invariant size <= i <= capacity
        invariant forall s :: 0 <= s < size ==> data[s] == target[s]
        invariant forall s :: size <= s < i ==> data[s] == Node(None, s + 1, UNINITIALIZED)
      {
        data[i] := data[i].(value := None, next := i + 1, prev := UNINITIALIZED);
        i := i + 1;
      }
      data[capacity - 1] := data[capacity - 1].(next := FAKE);
      assert data[..capacity] == target;
    }

    /** The first loop of `ListLinearization`: copies the values out in
        list order, freeing each live slot's value. */
    static method Collect(data: array<Node<T>>, ghost live: seq<nat>) returns (buffer: seq<Option<T>>)
      requires Walkable(data[..], live)
      modifies data
      ensures buffer == Values(old(data[..]), live)
      ensures data[FAKE] == old(data[FAKE])
    {
      ghost var nodes0 := data[..];
      ghost var vals := Values(nodes0, live);
      buffer := [];
      var i := data[FAKE].next;
      ghost var k := 0;
      while i != FAKE
        invariant k <= |live| && i == if k < |live| then live[k] else FAKE
        invariant buffer == vals[..k]
        invariant data[..] == Cleared(nodes0, live, k)
        decreases |live| - k
      {
        CollectStep(nodes0, live, k);
        buffer := buffer + [data[i].value];
        data[i] := data[i].(value := None);
        i := data[i].next;
        k := k + 1;
      }
      ClearedKeeps(nodes0, live, k, FAKE);
      assert vals[..k] == vals;
    }
  }
}
