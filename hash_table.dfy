/** The separate-chaining hash map of HashTable/src/hash_table.c.  Keys are
    byte strings compared by `KeyCmp`, bucket indices come from FNV-1a-64
    and Knuth's multiplicative method, and the bucket array doubles or
    halves on load-factor thresholds.  A bucket's doubly-linked chain is a
    sequence of entries, head first. */
module HashTable {
  import opened Common

  const INITIAL_CAPACITY: nat := 8
  const MAX_CAPACITY: nat := 100000
  const FNV_OFFSET_BASIS: bv64 := 0xCBF2_9CE4_8422_2325
  const FNV_PRIME_64: bv64 := 0x100_0000_01B3
  /** floor((sqrt(5) - 1) / 2 * 2^64) */
  const KNUTH_A: nat := 11400714819323198485

  datatype Entry<D> = Entry(key: seq<bv8>, data: D)

  /** `buckets_size` counts buckets made non-empty by inserts minus those
      emptied by erases, in `size_t`; a rehash keeps it as it is. */
  datatype Table<D> = Table(buckets: seq<seq<Entry<D>>>, buckets_size: nat, element_cnt: nat)

  /** `KeyCmp(...) == 0`: only the first min(len1, len2) bytes are compared. */
  predicate KeyEq(k1: seq<bv8>, k2: seq<bv8>)
  {
    var m := if |k1| < |k2| then |k1| else |k2|;
    k1[..m] == k2[..m]
  }

  /** Two keys match exactly when one is a prefix of the other. */
  lemma KeyEqPrefix(k1: seq<bv8>, k2: seq<bv8>)
    ensures KeyEq(k1, k2) <==> (|k1| <= |k2| && k2[..|k1|] == k1) || (|k2| <= |k1| && k1[..|k2|] == k2)
  {
  }

  /** Keys that carry their C string terminator match only when they are
      the same string. */
  lemma KeyEqTerminated(a: seq<bv8>, b: seq<bv8>)
    requires forall i :: 0 <= i < |a| ==> a[i] != 0
    requires forall i :: 0 <= i < |b| ==> b[i] != 0
    ensures KeyEq(a + [0], b + [0]) <==> a == b
  {
    var a0, b0 := a + [0], b + [0];
    if |a| < |b| {
      assert a0[..|a0|][|a|] != b0[..|a0|][|a|];
    } else if |b| < |a| {
      assert a0[..|b0|][|b|] != b0[..|b0|][|b|];
    } else if a != b {
      var k :| 0 <= k < |a| && a[k] != b[k];
      assert a0[..|a0|][k] != b0[..|a0|][k];
    }
  }

  /** `fnv1a_hash`: 0 for an empty key, otherwise FNV-1a-64. */
  function Fnv1a64(key: seq<bv8>): bv64
  {
    if key == [] then 0 else Fnv1a(key, FNV_OFFSET_BASIS, FNV_PRIME_64)
  }

  /** The accumulator loop of `fnv1a_hash`. */
  method Fnv1aHash(key: seq<bv8>) returns (hash: bv64)
    ensures hash == Fnv1a64(key)
  {
    if key == [] {
      return 0;
    }
    hash := FNV_OFFSET_BASIS;
    var i := 0;
    while i < |key|
      invariant i <= |key|
      invariant hash == Fnv1a(key[..i], FNV_OFFSET_BASIS, FNV_PRIME_64)
    {
      assert key[..i + 1][..i] == key[..i];
      hash := Fnv1aStep(hash, key[i], FNV_PRIME_64);
      i := i + 1;
    }
    assert key[..i] == key;
  }

  /** `(n & (n - 1)) == 0` for a positive `n`. */
  predicate IsPow2(n: nat)
  {
    n == 1 || (n >= 2 && n % 2 == 0 && IsPow2(n / 2))
  }

  /** `__builtin_ctz`. */
  function Ctz(n: nat): (k: nat)
    requires n > 0
    ensures Pow2(k) <= n
  {
    if n % 2 == 1 then 0 else 1 + Ctz(n / 2)
  }

  lemma {:induction false} Pow2Ctz(n: nat)
    requires n > 0 && IsPow2(n)
    ensures Pow2(Ctz(n)) == n
  {
    if n != 1 {
      Pow2Ctz(n / 2);
    }
  }

  /** The multiply step of `fnv_hash_to_index`: the hash times Knuth's
      constant, modulo 2^64. */
  function MulHash(key: seq<bv8>): (m: nat)
    ensures m < TWO64
  {
    ((Fnv1a64(key) as nat) * KNUTH_A) % TWO64
  }

  /** The reduction step of `fnv_hash_to_index`: the top log2(capacity)
      bits of `m` for a power-of-two capacity, otherwise `m` modulo the
      capacity.  Capacity 1 would shift by 64, which C leaves undefined. */
  function Reduce(m: nat, capacity: nat): (i: nat)
    requires m < TWO64 && 2 <= capacity < TWO32
    ensures i < capacity
  {
    if IsPow2(capacity) then
      IndexBound(m, capacity);
      m / Pow2(64 - Ctz(capacity))
    else
      m % capacity
  }

  /** `fnv_hash_to_index`: always a valid bucket.  The bucket is reached
      through a short countdown, `IndexAfter`, so that a proof about tables
      sees the hash arithmetic only where it asks for it (`IndexValue`). */
  function Index(key: seq<bv8>, capacity: nat): (i: nat)
    requires |key| > 0 && 2 <= capacity < TWO32
    ensures i < capacity
  {
    IndexAfter(key, capacity, 3)
  }

  function IndexAfter(key: seq<bv8>, capacity: nat, steps: nat): (i: nat)
    requires |key| > 0 && 2 <= capacity < TWO32
    ensures i < capacity
  {
    if steps == 0 then Reduce(MulHash(key), capacity) else IndexAfter(key, capacity, steps - 1)
  }

  /** The bucket of `key` is the reduced multiplicative hash. */
  lemma IndexValue(key: seq<bv8>, capacity: nat)
    requires |key| > 0 && 2 <= capacity < TWO32
    ensures Index(key, capacity) == Reduce(MulHash(key), capacity)
  {
    assert IndexAfter(key, capacity, 1) == IndexAfter(key, capacity, 0);
    assert IndexAfter(key, capacity, 3) == IndexAfter(key, capacity, 2);
  }

  /** The shift keeps fewer than log2(capacity) significant bits. */
  lemma IndexBound(m: nat, capacity: nat)
    requires m < TWO64 && 2 <= capacity < TWO32 && IsPow2(capacity)
    ensures Ctz(capacity) <= 64
    ensures m / Pow2(64 - Ctz(capacity)) < capacity
  {
    var k := Ctz(capacity);
    Pow2Ctz(capacity);
    Pow2Wide();
    if k > 32 {
      Pow2Add(32, k - 32);
      assert false;
    }
    Pow2Add(64 - k, k);
    var d := Pow2(64 - k);
    assert m < d * capacity;
    DivBelow(m, d, capacity);
  }

  lemma DivBelow(m: nat, d: nat, c: nat)
    requires d > 0 && m < d * c
    ensures m / d < c
  {
  }

  /** Position of the first entry of `chain` whose key matches `key`:
      where the `while (cur_node != NULL)` walks stop. */
  function ChainFind<D>(chain: seq<Entry<D>>, key: seq<bv8>): (r: Option<nat>)
    ensures r.None? <==> forall j :: 0 <= j < |chain| ==> !KeyEq(key, chain[j].key)
    ensures r.Some? ==> r.value < |chain| && KeyEq(key, chain[r.value].key)
                        && forall j :: 0 <= j < r.value ==> !KeyEq(key, chain[j].key)
  {
    if chain == [] then None
    else if KeyEq(key, chain[0].key) then Some(0)
    else match ChainFind(chain[1..], key)
         case None => None
         case Some(j) => Some(j + 1)
  }

  /** All entries, bucket by bucket, head first. */
  function Flatten<D>(buckets: seq<seq<Entry<D>>>): seq<Entry<D>>
  {
    if buckets == [] then [] else Flatten(buckets[..|buckets| - 1]) + buckets[|buckets| - 1]
  }

  /** Every entry sits in the bucket its key hashes to, and keys are
      non-empty (`fnv_hash_to_index` asserts it). */
  ghost predicate Placed<D>(buckets: seq<seq<Entry<D>>>)
  {
    2 <= |buckets| < TWO32 &&
    forall i, j :: 0 <= i < |buckets| && 0 <= j < |buckets[i]| ==>
      |buckets[i][j].key| > 0 && Index(buckets[i][j].key, |buckets|) == i
  }

  /** What the table code keeps true between calls. */
  ghost predicate Inv<D>(t: Table<D>)
  {
    INITIAL_CAPACITY <= |t.buckets| <= MAX_CAPACITY
    && Placed(t.buckets)
    && t.buckets_size < TWO64
    && t.element_cnt == |Flatten(t.buckets)|
  }

  /** `HashTableInit`: eight empty buckets. */
  function Init<D>(): (t: Table<D>)
    ensures Inv(t) && t.element_cnt == 0 && t.buckets_size == 0
  {
    var t := Table(seq(INITIAL_CAPACITY, _ => []), 0, 0);
    FlattenEmpty(t.buckets);
    t
  }

  lemma {:induction false} FlattenEmpty<D>(buckets: seq<seq<Entry<D>>>)
    requires forall i :: 0 <= i < |buckets| ==> buckets[i] == []
    ensures Flatten(buckets) == []
  {
    if buckets != [] {
      FlattenEmpty(buckets[..|buckets| - 1]);
    }
  }

  /** `HashTableFind`: the data of the first matching entry in the key's
      bucket, or NULL (None). */
  function Find<D>(t: Table<D>, key: seq<bv8>): (r: Option<D>)
    requires |key| > 0 && 2 <= |t.buckets| < TWO32
    ensures r.None? <==> ChainFind(t.buckets[Index(key, |t.buckets|)], key).None?
  {
    var chain := t.buckets[Index(key, |t.buckets|)];
    match ChainFind(chain, key)
    case None => None
    case Some(j) => Some(chain[j].data)
  }

  /** Moves one node to the head of its bucket in the new array. */
  function Place<D>(acc: seq<seq<Entry<D>>>, e: Entry<D>): (r: seq<seq<Entry<D>>>)
    requires 2 <= |acc| < TWO32 && |e.key| > 0
    ensures |r| == |acc|
  {
    var i := Index(e.key, |acc|);
    acc[i := [e] + acc[i]]
  }

  /** Moves the nodes of one old chain, head first. */
  function Scatter<D>(acc: seq<seq<Entry<D>>>, chain: seq<Entry<D>>): (r: seq<seq<Entry<D>>>)
    requires 2 <= |acc| < TWO32
    requires forall j :: 0 <= j < |chain| ==> |chain[j].key| > 0
    ensures |r| == |acc|
  {
    if chain == [] then acc
    else Place(Scatter(acc, chain[..|chain| - 1]), chain[|chain| - 1])
  }

  /** Moves the chains of the old buckets, first bucket first. */
  function ScatterAll<D>(acc: seq<seq<Entry<D>>>, buckets: seq<seq<Entry<D>>>): (r: seq<seq<Entry<D>>>)
    requires 2 <= |acc| < TWO32
    requires forall i, j :: 0 <= i < |buckets| && 0 <= j < |buckets[i]| ==> |buckets[i][j].key| > 0
    ensures |r| == |acc|
  {
    if buckets == [] then acc
    else Scatter(ScatterAll(acc, buckets[..|buckets| - 1]), buckets[|buckets| - 1])
  }

  /** `HashTableRealloc`: a fresh bucket array of `new_capacity` chains
      receives every node; the counters are left as they were. */
  function Rehash<D>(t: Table<D>, new_capacity: nat): (r: Table<D>)
    requires INITIAL_CAPACITY <= new_capacity <= MAX_CAPACITY
    requires forall i, j :: 0 <= i < |t.buckets| && 0 <= j < |t.buckets[i]| ==> |t.buckets[i][j].key| > 0
    ensures |r.buckets| == new_capacity
    ensures r.buckets_size == t.buckets_size && r.element_cnt == t.element_cnt
  {
    Table(ScatterAll(seq(new_capacity, _ => []), t.buckets), t.buckets_size, t.element_cnt)
  }

  /** The load-factor test after an insert: `buckets_size / capacity >= 0.75`
      and the doubled capacity stays within the maximum. */
  predicate ShouldGrow(buckets_size: nat, capacity: nat)
  {
    4 * buckets_size >= 3 * capacity && 2 * capacity <= MAX_CAPACITY
  }

  /** The test after an erase: `buckets_size / capacity <= 0.25` and the
      halved capacity stays at least the initial one. */
  predicate ShouldShrink(buckets_size: nat, capacity: nat)
  {
    4 * buckets_size <= capacity && capacity / 2 >= INITIAL_CAPACITY
  }

  /** The table after the chain insert of `HashTableInsert`, before its
      load-factor test. */
  function InsertInChain<D>(t: Table<D>, key: seq<bv8>, data: D): Table<D>
    requires Inv(t) && |key| > 0
  {
    var i := Index(key, |t.buckets|);
    var chain := t.buckets[i];
    match ChainFind(chain, key)
    case Some(j) =>
      t.(buckets := t.buckets[i := chain[j := chain[j].(data := data)]])
    case None =>
      var bs := if chain == [] then (t.buckets_size + 1) % TWO64 else t.buckets_size;
      Table(t.buckets[i := chain + [Entry(key, data)]], bs, t.element_cnt + 1)
  }

  /** `HashTableInsert`: replaces the data of a matching entry (and returns
      at once), or appends a new entry at the tail of the chain and then
      doubles the bucket array when the load factor reaches 0.75. */
  function Insert<D>(t: Table<D>, key: seq<bv8>, data: D): Table<D>
    requires Inv(t) && |key| > 0
  {
    var i := Index(key, |t.buckets|);
    var t1 := InsertInChain(t, key, data);
    if ChainFind(t.buckets[i], key).None? && ShouldGrow(t1.buckets_size, |t.buckets|) then
      InsertInChainKeys(t, key, data);
      Rehash(t1, 2 * |t.buckets|)
    else
      t1
  }

  /** The chain insert keeps every key non-empty. */
  lemma InsertInChainKeys<D>(t: Table<D>, key: seq<bv8>, data: D)
    requires Inv(t) && |key| > 0
    ensures |InsertInChain(t, key, data).buckets| == |t.buckets|
    ensures Placed(InsertInChain(t, key, data).buckets)
  {
  }

  /** The table after the unlink of `HashTableErase`, before its
      load-factor test, when the `j`-th entry of the key's chain goes. */
  function EraseInChain<D>(t: Table<D>, key: seq<bv8>, j: nat): Table<D>
    requires Inv(t) && |key| > 0 && j < |t.buckets[Index(key, |t.buckets|)]|
  {
    var i := Index(key, |t.buckets|);
    var chain := t.buckets[i];
    var bs := if j == 0 && j + 1 == |chain| then (t.buckets_size - 1) % TWO64 else t.buckets_size;
    InFlatten(t.buckets, i, j);
    Table(t.buckets[i := chain[..j] + chain[j + 1..]], bs, t.element_cnt - 1)
  }

  /** `HashTableErase`: unlinks the first matching entry and returns 1,
      halving the bucket array when the load factor drops to 0.25;
      returns 0 and changes nothing when no entry matches. */
  function Erase<D>(t: Table<D>, key: seq<bv8>): (Table<D>, bool)
    requires Inv(t) && |key| > 0
  {
    var i := Index(key, |t.buckets|);
    match ChainFind(t.buckets[i], key)
    case None => (t, false)
    case Some(j) =>
      var t1 := EraseInChain(t, key, j);
      EraseInChainInv(t, key, j);
      if ShouldShrink(t1.buckets_size, |t.buckets|) then (Rehash(t1, |t.buckets| / 2), true)
      else (t1, true)
  }

  function Size<D>(t: Table<D>): (n: nat)
    requires Inv(t)
    ensures n == |Flatten(t.buckets)|
  {
    t.element_cnt
  }

  function Empty<D>(t: Table<D>): (b: bool)
    requires Inv(t)
    ensures b <==> Flatten(t.buckets) == []
  {
    t.element_cnt == 0
  }

  // ---------------------------------------------------------------------
  // Entries, counts and placement
  // ---------------------------------------------------------------------

  /** Replacing one chain replaces its entries in the whole table. */
  lemma {:induction false} FlattenUpdate<D>(buckets: seq<seq<Entry<D>>>, i: nat, chain: seq<Entry<D>>)
    requires i < |buckets|
    ensures multiset(Flatten(buckets[i := chain])) + multiset(buckets[i])
            == multiset(Flatten(buckets)) + multiset(chain)
    ensures |Flatten(buckets[i := chain])| + |buckets[i]| == |Flatten(buckets)| + |chain|
  {
    var n := |buckets|;
    var init := buckets[..n - 1];
    if i == n - 1 {
      assert buckets[i := chain][..n - 1] == init;
      assert multiset(Flatten(buckets[i := chain])) == multiset(Flatten(init)) + multiset(chain) by {
        assert Flatten(buckets[i := chain]) == Flatten(init) + chain;
      }
      assert multiset(Flatten(buckets)) == multiset(Flatten(init)) + multiset(buckets[i]);
      assert |Flatten(buckets[i := chain])| == |Flatten(init)| + |chain|;
    } else {
      assert buckets[i := chain][..n - 1] == init[i := chain];
      assert buckets[i := chain][n - 1] == buckets[n - 1];
      assert init[i] == buckets[i];
      FlattenUpdate(init, i, chain);
      assert Flatten(buckets[i := chain]) == Flatten(init[i := chain]) + buckets[n - 1];
      assert Flatten(buckets) == Flatten(init) + buckets[n - 1];
      assert multiset(Flatten(buckets[i := chain])) == multiset(Flatten(init[i := chain])) + multiset(buckets[n - 1]);
      assert multiset(Flatten(buckets)) == multiset(Flatten(init)) + multiset(buckets[n - 1]);
      calc {
        multiset(Flatten(buckets[i := chain])) + multiset(buckets[i]);
        multiset(Flatten(init[i := chain])) + multiset(init[i]) + multiset(buckets[n - 1]);
        multiset(Flatten(init)) + multiset(chain) + multiset(buckets[n - 1]);
        multiset(Flatten(buckets)) + multiset(chain);
      }
    }
  }

  /** An entry of a chain is an entry of the table. */
  lemma {:induction false} InFlatten<D>(buckets: seq<seq<Entry<D>>>, i: nat, j: nat)
    requires i < |buckets| && j < |buckets[i]|
    ensures buckets[i][j] in multiset(Flatten(buckets))
  {
    var n := |buckets|;
    if i < n - 1 {
      InFlatten(buckets[..n - 1], i, j);
    } else {
      assert buckets[i][j] in buckets[n - 1];
    }
  }

  /** An entry of the table is an entry of some chain. */
  lemma {:induction false} FromFlatten<D>(buckets: seq<seq<Entry<D>>>, e: Entry<D>) returns (i: nat, j: nat)
    requires e in multiset(Flatten(buckets))
    ensures i < |buckets| && j < |buckets[i]| && buckets[i][j] == e
  {
    var n := |buckets|;
    var init := buckets[..n - 1];
    if e in multiset(Flatten(init)) {
      i, j := FromFlatten(init, e);
    } else {
      assert e in multiset(buckets[n - 1]);
      assert e in buckets[n - 1];
      i := n - 1;
      j :| 0 <= j < |buckets[n - 1]| && buckets[n - 1][j] == e;
    }
  }

  /** Moving a node keeps every node in its bucket. */
  lemma PlacePlaced<D>(acc: seq<seq<Entry<D>>>, e: Entry<D>)
    requires Placed(acc) && |e.key| > 0
    ensures Placed(Place(acc, e))
  {
    var i := Index(e.key, |acc|);
    var r: seq<seq<Entry<D>>> := Place(acc, e);
    forall a, b | 0 <= a < |r| && 0 <= b < |r[a]|
      ensures |r[a][b].key| > 0 && Index(r[a][b].key, |r|) == a
    {
      if a != i {
        assert r[a] == acc[a];
      } else if b > 0 {
        assert r[a][b] == acc[i][b - 1];
      }
    }
  }

  /** Moving a node adds exactly that node. */
  lemma PlaceCount<D>(acc: seq<seq<Entry<D>>>, e: Entry<D>)
    requires 2 <= |acc| < TWO32 && |e.key| > 0
    ensures multiset(Flatten(Place(acc, e))) == multiset(Flatten(acc)) + multiset{e}
    ensures |Flatten(Place(acc, e))| == |Flatten(acc)| + 1
  {
    var i := Index(e.key, |acc|);
    var c := [e] + acc[i];
    assert Place(acc, e) == acc[i := c];
    FlattenUpdate(acc, i, c);
    assert multiset(c) == multiset{e} + multiset(acc[i]);
    MultisetCancel(multiset(Flatten(acc[i := c])), multiset(Flatten(acc)) + multiset{e}, multiset(acc[i]));
  }

  lemma MultisetCancel<T>(x: multiset<T>, y: multiset<T>, a: multiset<T>)
    requires x + a == y + a
    ensures x == y
  {
    assert forall v :: x[v] == (x + a)[v] - a[v];
  }

  lemma {:induction false} ScatterPlaced<D>(acc: seq<seq<Entry<D>>>, chain: seq<Entry<D>>)
    requires Placed(acc)
    requires forall j :: 0 <= j < |chain| ==> |chain[j].key| > 0
    ensures Placed(Scatter(acc, chain))
  {
    if chain != [] {
      var init, last := chain[..|chain| - 1], chain[|chain| - 1];
      ScatterPlaced(acc, init);
      PlacePlaced(Scatter(acc, init), last);
    }
  }

  lemma {:induction false} ScatterCount<D>(acc: seq<seq<Entry<D>>>, chain: seq<Entry<D>>)
    requires 2 <= |acc| < TWO32
    requires forall j :: 0 <= j < |chain| ==> |chain[j].key| > 0
    ensures multiset(Flatten(Scatter(acc, chain))) == multiset(Flatten(acc)) + multiset(chain)
    ensures |Flatten(Scatter(acc, chain))| == |Flatten(acc)| + |chain|
  {
    if chain != [] {
      var init, last := chain[..|chain| - 1], chain[|chain| - 1];
      ScatterCount(acc, init);
      PlaceCount(Scatter(acc, init), last);
      assert chain == init + [last];
      assert multiset(chain) == multiset(init) + multiset{last};
    }
  }

  lemma {:induction false} ScatterAllPlaced<D>(acc: seq<seq<Entry<D>>>, buckets: seq<seq<Entry<D>>>)
    requires Placed(acc)
    requires forall i, j :: 0 <= i < |buckets| && 0 <= j < |buckets[i]| ==> |buckets[i][j].key| > 0
    ensures Placed(ScatterAll(acc, buckets))
  {
    if buckets != [] {
      var init := buckets[..|buckets| - 1];
      ScatterAllPlaced(acc, init);
      ScatterPlaced(ScatterAll(acc, init), buckets[|buckets| - 1]);
    }
  }

  lemma {:induction false} ScatterAllCount<D>(acc: seq<seq<Entry<D>>>, buckets: seq<seq<Entry<D>>>)
    requires 2 <= |acc| < TWO32
    requires forall i, j :: 0 <= i < |buckets| && 0 <= j < |buckets[i]| ==> |buckets[i][j].key| > 0
    ensures multiset(Flatten(ScatterAll(acc, buckets))) == multiset(Flatten(acc)) + multiset(Flatten(buckets))
    ensures |Flatten(ScatterAll(acc, buckets))| == |Flatten(acc)| + |Flatten(buckets)|
  {
    if buckets != [] {
      var init := buckets[..|buckets| - 1];
      ScatterAllCount(acc, init);
      ScatterCount(ScatterAll(acc, init), buckets[|buckets| - 1]);
    }
  }

  /** Rehashing keeps the same entries and `element_cnt`, puts every node
      in its bucket under the new capacity, and does not recompute
      `buckets_size`. */
  lemma RehashEffect<D>(t: Table<D>, new_capacity: nat)
    requires Inv(t) && INITIAL_CAPACITY <= new_capacity <= MAX_CAPACITY
    ensures Inv(Rehash(t, new_capacity))
    ensures multiset(Flatten(Rehash(t, new_capacity).buckets)) == multiset(Flatten(t.buckets))
    ensures Rehash(t, new_capacity).buckets_size == t.buckets_size
  {
    var empty: seq<seq<Entry<D>>> := seq(new_capacity, _ => []);
    FlattenEmpty(empty);
    ScatterAllPlaced(empty, t.buckets);
    ScatterAllCount(empty, t.buckets);
  }

  // ---------------------------------------------------------------------
  // Insert
  // ---------------------------------------------------------------------

  /** Overwriting one element swaps it in the multiset. */
  lemma MultisetUpdate<T>(s: seq<T>, j: nat, v: T)
    requires j < |s|
    ensures multiset(s[j := v]) + multiset{s[j]} == multiset(s) + multiset{v}
  {
    assert s == s[..j] + [s[j]] + s[j + 1..];
    assert s[j := v] == s[..j] + [v] + s[j + 1..];
  }

  /** Replacing the data of the `j`-th entry of the key's chain swaps that
      entry for one with the same key and the new data. */
  lemma InsertInChainReplace<D>(t: Table<D>, key: seq<bv8>, data: D, j: nat)
    requires Inv(t) && |key| > 0
    requires ChainFind(t.buckets[Index(key, |t.buckets|)], key) == Some(j)
    ensures var c := t.buckets[Index(key, |t.buckets|)];
            multiset(Flatten(InsertInChain(t, key, data).buckets)) + multiset{c[j]}
            == multiset(Flatten(t.buckets)) + multiset{Entry(c[j].key, data)}
    ensures |Flatten(InsertInChain(t, key, data).buckets)| == |Flatten(t.buckets)|
  {
    var i := Index(key, |t.buckets|);
    var chain := t.buckets[i];
    var r := InsertInChain(t, key, data).buckets;
    var v := Entry(chain[j].key, data);
    assert r == t.buckets[i := chain[j := v]];
    FlattenUpdate(t.buckets, i, chain[j := v]);
    MultisetUpdate(chain, j, v);
    MultisetSwap(multiset(Flatten(r)), multiset(Flatten(t.buckets)), multiset(chain),
                 multiset(chain[j := v]), multiset{chain[j]}, multiset{v});
  }

  /** If `f` is `g` with `c` replaced by `d`, and `d` is `c` with `o`
      replaced by `v`, then `f` is `g` with `o` replaced by `v`. */
  lemma MultisetSwap<T>(f: multiset<T>, g: multiset<T>, c: multiset<T>, d: multiset<T>,
                        o: multiset<T>, v: multiset<T>)
    requires f + c == g + d && d + o == c + v
    ensures f + o == g + v
  {
    forall z
      ensures (f + o)[z] == (g + v)[z]
    {
      assert (f + c)[z] == (g + d)[z] && (d + o)[z] == (c + v)[z];
    }
  }

  /** With no match, the chain insert adds exactly the new entry. */
  lemma InsertInChainAppend<D>(t: Table<D>, key: seq<bv8>, data: D)
    requires Inv(t) && |key| > 0
    requires ChainFind(t.buckets[Index(key, |t.buckets|)], key).None?
    ensures multiset(Flatten(InsertInChain(t, key, data).buckets))
            == multiset(Flatten(t.buckets)) + multiset{Entry(key, data)}
    ensures |Flatten(InsertInChain(t, key, data).buckets)| == |Flatten(t.buckets)| + 1
  {
    var i := Index(key, |t.buckets|);
    var chain := t.buckets[i];
    var r := InsertInChain(t, key, data).buckets;
    var v := Entry(key, data);
    assert r == t.buckets[i := chain + [v]];
    FlattenUpdate(t.buckets, i, chain + [v]);
    assert multiset(chain + [v]) == multiset(chain) + multiset{v};
    MultisetCancel(multiset(Flatten(r)), multiset(Flatten(t.buckets)) + multiset{v}, multiset(chain));
  }

  /** The chain insert keeps the invariant and either swaps one entry's
      data or adds one entry. */
  lemma InsertInChainEffect<D>(t: Table<D>, key: seq<bv8>, data: D)
    requires Inv(t) && |key| > 0
    ensures Inv(InsertInChain(t, key, data))
    ensures var i := Index(key, |t.buckets|);
            match ChainFind(t.buckets[i], key)
            case Some(j) =>
              multiset(Flatten(InsertInChain(t, key, data).buckets)) + multiset{t.buckets[i][j]}
              == multiset(Flatten(t.buckets)) + multiset{Entry(t.buckets[i][j].key, data)}
            case None =>
              multiset(Flatten(InsertInChain(t, key, data).buckets))
              == multiset(Flatten(t.buckets)) + multiset{Entry(key, data)}
  {
    InsertInChainKeys(t, key, data);
    var i := Index(key, |t.buckets|);
    match ChainFind(t.buckets[i], key)
    case Some(j) => InsertInChainReplace(t, key, data, j);
    case None => InsertInChainAppend(t, key, data);
  }

  /** `HashTableInsert` keeps the invariant. */
  lemma InsertInv<D>(t: Table<D>, key: seq<bv8>, data: D)
    requires Inv(t) && |key| > 0
    ensures Inv(Insert(t, key, data))
  {
    InsertInChainEffect(t, key, data);
    var t1 := InsertInChain(t, key, data);
    if ChainFind(t.buckets[Index(key, |t.buckets|)], key).None? && ShouldGrow(t1.buckets_size, |t.buckets|) {
      RehashEffect(t1, 2 * |t.buckets|);
    }
  }

  /** Inserting under a key that is already present replaces that entry's
      data, keeps its key, returns before the load-factor test and leaves
      `element_cnt` and `buckets_size` unchanged. */
  lemma InsertExisting<D>(t: Table<D>, key: seq<bv8>, data: D)
    requires Inv(t) && |key| > 0
    requires Find(t, key).Some?
    ensures var i := Index(key, |t.buckets|);
            var j := ChainFind(t.buckets[i], key).value;
            Insert(t, key, data).buckets == t.buckets[i := t.buckets[i][j := Entry(t.buckets[i][j].key, data)]]
    ensures Insert(t, key, data).element_cnt == t.element_cnt
    ensures Insert(t, key, data).buckets_size == t.buckets_size
    ensures Find(Insert(t, key, data), key) == Some(data)
  {
    var i := Index(key, |t.buckets|);
    var chain := t.buckets[i];
    var j := ChainFind(chain, key).value;
    var c2 := chain[j := Entry(chain[j].key, data)];
    var r := Insert(t, key, data);
    assert chain[j].(data := data) == Entry(chain[j].key, data);
    assert r == InsertInChain(t, key, data);
    assert r.buckets == t.buckets[i := c2];
    ChainFindSameKeys(chain, c2, key);
    assert r.buckets[i] == c2;
  }

  /** `ChainFind` looks only at keys. */
  lemma {:induction false} ChainFindSameKeys<D>(c1: seq<Entry<D>>, c2: seq<Entry<D>>, key: seq<bv8>)
    requires |c1| == |c2| && forall k :: 0 <= k < |c1| ==> c1[k].key == c2[k].key
    ensures ChainFind(c1, key) == ChainFind(c2, key)
  {
    if c1 != [] {
      ChainFindSameKeys(c1[1..], c2[1..], key);
    }
  }

  /** Inserting a new key adds one to `element_cnt`, adds one to
      `buckets_size` exactly when its bucket was empty, and, unless the
      array then grows, appends the entry at the tail of its chain. */
  lemma InsertNew<D>(t: Table<D>, key: seq<bv8>, data: D)
    requires Inv(t) && |key| > 0
    requires Find(t, key).None?
    ensures var i := Index(key, |t.buckets|);
            Insert(t, key, data).buckets_size
              == if t.buckets[i] == [] then (t.buckets_size + 1) % TWO64 else t.buckets_size
    ensures Insert(t, key, data).element_cnt == t.element_cnt + 1
    ensures multiset(Flatten(Insert(t, key, data).buckets)) == multiset(Flatten(t.buckets)) + multiset{Entry(key, data)}
    ensures var i := Index(key, |t.buckets|);
            var t1 := InsertInChain(t, key, data);
            if ShouldGrow(t1.buckets_size, |t.buckets|) then |Insert(t, key, data).buckets| == 2 * |t.buckets|
            else Insert(t, key, data).buckets == t.buckets[i := t.buckets[i] + [Entry(key, data)]]
  {
    InsertInChainEffect(t, key, data);
    var t1 := InsertInChain(t, key, data);
    if ShouldGrow(t1.buckets_size, |t.buckets|) {
      RehashEffect(t1, 2 * |t.buckets|);
    }
  }

  /** No entry of the table other than one stored under `key` itself
      matches `key` under `KeyCmp`. */
  ghost predicate NoOtherMatch<D>(t: Table<D>, key: seq<bv8>)
  {
    forall e :: e in multiset(Flatten(t.buckets)) && KeyEq(key, e.key) ==> e.key == key
  }

  /** Keys that carry their terminator never match another key: the
      symbol table's `strlen + 1` keys meet `NoOtherMatch`. */
  lemma TerminatedNoOtherMatch<D>(t: Table<D>, name: seq<bv8>)
    requires forall i :: 0 <= i < |name| ==> name[i] != 0
    requires forall e :: e in multiset(Flatten(t.buckets)) ==>
               exists s :: (forall i :: 0 <= i < |s| ==> s[i] != 0) && e.key == s + [0]
    ensures NoOtherMatch(t, name + [0])
  {
    forall e | e in multiset(Flatten(t.buckets)) && KeyEq(name + [0], e.key)
      ensures e.key == name + [0]
    {
      var s :| (forall i :: 0 <= i < |s| ==> s[i] != 0) && e.key == s + [0];
      KeyEqTerminated(name, s);
    }
  }

  /** When the key's own chain has no match, no entry of the table stored
      under `key` exists, so under `NoOtherMatch` no entry matches at all. */
  lemma NoMatchAnywhere<D>(t: Table<D>, key: seq<bv8>)
    requires Inv(t) && |key| > 0 && NoOtherMatch(t, key)
    requires ChainFind(t.buckets[Index(key, |t.buckets|)], key).None?
    ensures forall e :: e in multiset(Flatten(t.buckets)) ==> !KeyEq(key, e.key)
  {
    forall e | e in multiset(Flatten(t.buckets))
      ensures !KeyEq(key, e.key)
    {
      var a, b := FromFlatten(t.buckets, e);
    }
  }

  /** A chain holding `v` and otherwise only entries that do not match
      `key` finds `v`. */
  lemma ChainFindOnly<D>(chain: seq<Entry<D>>, key: seq<bv8>, v: Entry<D>, k: nat)
    requires k < |chain| && chain[k] == v && v.key == key
    requires forall m :: 0 <= m < |chain| && chain[m] != v ==> !KeyEq(key, chain[m].key)
    ensures ChainFind(chain, key).Some? && chain[ChainFind(chain, key).value] == v
  {
    assert KeyEq(key, chain[k].key);
  }

  /** Once the entries matching `key` in the table are all stored under
      `key` itself, a find right after an insert returns the inserted
      data, whether or not the insert grew the array. */
  lemma InsertThenFind<D>(t: Table<D>, key: seq<bv8>, data: D)
    requires Inv(t) && |key| > 0
    requires NoOtherMatch(t, key)
    ensures Find(Insert(t, key, data), key) == Some(data)
  {
    var i := Index(key, |t.buckets|);
    if ChainFind(t.buckets[i], key).Some? {
      InsertExisting(t, key, data);
      return;
    }
    NoMatchAnywhere(t, key);
    InsertInv(t, key, data);
    InsertNew(t, key, data);
    var r := Insert(t, key, data);
    var v := Entry(key, data);
    var ri := Index(key, |r.buckets|);
    var chain := r.buckets[ri];
    assert v in multiset(Flatten(r.buckets));
    var a, b := FromFlatten(r.buckets, v);
    forall m | 0 <= m < |chain| && chain[m] != v
      ensures !KeyEq(key, chain[m].key)
    {
      InFlatten(r.buckets, ri, m);
    }
    ChainFindOnly(chain, key, v, b);
  }

  // ---------------------------------------------------------------------
  // Erase
  // ---------------------------------------------------------------------

  /** Unlinking a node keeps every other node in its bucket. */
  lemma EraseInChainPlaced<D>(t: Table<D>, key: seq<bv8>, j: nat)
    requires Inv(t) && |key| > 0 && j < |t.buckets[Index(key, |t.buckets|)]|
    ensures Placed(EraseInChain(t, key, j).buckets)
  {
    var i := Index(key, |t.buckets|);
    var chain := t.buckets[i];
    var r: seq<seq<Entry<D>>> := EraseInChain(t, key, j).buckets;
    assert r == t.buckets[i := chain[..j] + chain[j + 1..]];
    forall a, b | 0 <= a < |r| && 0 <= b < |r[a]|
      ensures |r[a][b].key| > 0 && Index(r[a][b].key, |r|) == a
    {
      if a != i {
        assert r[a] == t.buckets[a];
      } else if b < j {
        assert r[a][b] == chain[b];
      } else {
        assert r[a][b] == chain[b + 1];
      }
    }
  }

  /** Unlinking the `j`-th node of the key's chain removes exactly that
      entry and keeps the invariant. */
  lemma EraseInChainInv<D>(t: Table<D>, key: seq<bv8>, j: nat)
    requires Inv(t) && |key| > 0 && j < |t.buckets[Index(key, |t.buckets|)]|
    ensures Inv(EraseInChain(t, key, j))
    ensures var i := Index(key, |t.buckets|);
            multiset(Flatten(EraseInChain(t, key, j).buckets)) + multiset{t.buckets[i][j]}
            == multiset(Flatten(t.buckets))
  {
    var i := Index(key, |t.buckets|);
    var chain := t.buckets[i];
    var c2 := chain[..j] + chain[j + 1..];
    var r := EraseInChain(t, key, j).buckets;
    assert r == t.buckets[i := c2];
    assert chain == chain[..j] + [chain[j]] + chain[j + 1..];
    assert multiset(c2) + multiset{chain[j]} == multiset(chain) + multiset{};
    FlattenUpdate(t.buckets, i, c2);
    MultisetSwap(multiset(Flatten(r)), multiset(Flatten(t.buckets)), multiset(chain),
                 multiset(c2), multiset{chain[j]}, multiset{});
    assert multiset(Flatten(t.buckets)) + multiset{} == multiset(Flatten(t.buckets));
    EraseInChainPlaced(t, key, j);
  }

  /** `HashTableErase` returns 1 exactly when `HashTableFind` would find the
      key; it then removes exactly the entry the find returns and
      decrements `element_cnt`; otherwise the table is unchanged.  The
      invariant holds either way. */
  lemma EraseEffect<D>(t: Table<D>, key: seq<bv8>)
    requires Inv(t) && |key| > 0
    ensures Inv(Erase(t, key).0)
    ensures Erase(t, key).1 <==> Find(t, key).Some?
    ensures !Erase(t, key).1 ==> Erase(t, key).0 == t
    ensures Erase(t, key).1 ==>
              Erase(t, key).0.element_cnt == t.element_cnt - 1
              && exists e: Entry<D> :: KeyEq(key, e.key) && Some(e.data) == Find(t, key)
                             && multiset(Flatten(Erase(t, key).0.buckets)) + multiset{e} == multiset(Flatten(t.buckets))
  {
    var i := Index(key, |t.buckets|);
    match ChainFind(t.buckets[i], key)
    case None =>
    case Some(j) =>
      EraseInChainInv(t, key, j);
      var t1 := EraseInChain(t, key, j);
      var e := t.buckets[i][j];
      if ShouldShrink(t1.buckets_size, |t.buckets|) {
        RehashEffect(t1, |t.buckets| / 2);
      }
      assert KeyEq(key, e.key) && Some(e.data) == Find(t, key);
  }

  /** The load-factor tests: an insert grows only while the doubled
      capacity stays within 100000, and an erase shrinks only while the
      halved capacity stays at least 8. */
  lemma CapacityBounds<D>(t: Table<D>, key: seq<bv8>, data: D)
    requires Inv(t) && |key| > 0
    ensures |Insert(t, key, data).buckets| == |t.buckets| || |Insert(t, key, data).buckets| == 2 * |t.buckets|
    ensures |Erase(t, key).0.buckets| == |t.buckets| || |Erase(t, key).0.buckets| == |t.buckets| / 2
    ensures |Insert(t, key, data).buckets| <= MAX_CAPACITY && |Erase(t, key).0.buckets| >= INITIAL_CAPACITY
  {
    InsertInv(t, key, data);
    EraseEffect(t, key);
  }

  // ---------------------------------------------------------------------
  // Terminated keys: the table as a map
  // ---------------------------------------------------------------------

  /** Two keys that each end with their only NUL match under `KeyCmp`
      only when they are equal. */
  lemma TerminatedMatch(a: seq<bv8>, b: seq<bv8>)
    requires Terminated(a) && Terminated(b) && KeyEq(a, b)
    ensures a == b
  {
    var a0, b0 := a[..|a| - 1], b[..|b| - 1];
    assert a == a0 + [0] && b == b0 + [0];
    KeyEqTerminated(a0, b0);
  }

  /** The table holds `m`: every entry is stored under a terminated key of
      `m` with that key's value, and each key of `m` has exactly one
      entry. */
  ghost predicate Holds<D>(t: Table<D>, m: map<seq<bv8>, D>)
  {
    HoldsIn(multiset(Flatten(t.buckets)), m)
  }

  /** `Holds` on the table's entries. */
  ghost predicate HoldsIn<D>(f: multiset<Entry<D>>, m: map<seq<bv8>, D>)
  {
    (forall e :: e in f ==> Terminated(e.key) && e.key in m && e.data == m[e.key])
    && (forall k :: k in m ==> f[Entry(k, m[k])] == 1)
  }

  /** The empty table holds the empty map. */
  lemma InitHolds<D>()
    ensures Holds(Init<D>(), map[])
  {
    var t := Init<D>();
    assert |Flatten(t.buckets)| == 0;
  }

  /** A lookup of a terminated key in a table that holds `m` is a lookup
      in `m`. */
  lemma FindHolds<D>(t: Table<D>, m: map<seq<bv8>, D>, k: seq<bv8>)
    requires Inv(t) && Holds(t, m) && Terminated(k)
    ensures Find(t, k) == if k in m then Some(m[k]) else None
  {
    var i := Index(k, |t.buckets|);
    var chain := t.buckets[i];
    if k in m {
      var v := Entry(k, m[k]);
      assert v in multiset(Flatten(t.buckets));
      var a, b := FromFlatten(t.buckets, v);
      assert KeyEq(k, chain[b].key);
      var j := ChainFind(chain, k).value;
      InFlatten(t.buckets, i, j);
      TerminatedMatch(k, chain[j].key);
    } else if ChainFind(chain, k).Some? {
      var j := ChainFind(chain, k).value;
      InFlatten(t.buckets, i, j);
      TerminatedMatch(k, chain[j].key);
      assert false;
    }
  }

  /** Inserting under a terminated key updates the map the table holds,
      whether the key was present, absent, or the array grew. */
  lemma InsertHolds<D>(t: Table<D>, m: map<seq<bv8>, D>, k: seq<bv8>, d: D)
    requires Inv(t) && Holds(t, m) && Terminated(k)
    ensures Inv(Insert(t, k, d)) && Holds(Insert(t, k, d), m[k := d])
  {
    InsertInv(t, k, d);
    FindHolds(t, m, k);
    if k in m {
      InsertPresentHolds(t, m, k, d);
    } else {
      InsertNew(t, k, d);
      AddHolds(multiset(Flatten(t.buckets)), multiset(Flatten(Insert(t, k, d).buckets)), m, m[k := d], k, d);
    }
  }

  /** A key already held keeps its one entry, now with the new value. */
  lemma InsertPresentHolds<D>(t: Table<D>, m: map<seq<bv8>, D>, k: seq<bv8>, d: D)
    requires Inv(t) && Holds(t, m) && Terminated(k) && k in m
    ensures Holds(Insert(t, k, d), m[k := d])
  {
    FindHolds(t, m, k);
    var i := Index(k, |t.buckets|);
    var chain := t.buckets[i];
    var j := ChainFind(chain, k).value;
    InFlatten(t.buckets, i, j);
    TerminatedMatch(k, chain[j].key);
    assert chain[j] == Entry(k, m[k]);
    var r := InsertInChain(t, k, d);
    assert Insert(t, k, d) == r;
    InsertInChainReplace(t, k, d, j);
    ReplaceHolds(multiset(Flatten(t.buckets)), multiset(Flatten(r.buckets)), m, m[k := d], k, d);
  }

  /** The multiset step of an insert under a new key. */
  lemma AddHolds<D>(f: multiset<Entry<D>>, f2: multiset<Entry<D>>, m: map<seq<bv8>, D>,
                    m2: map<seq<bv8>, D>, k: seq<bv8>, d: D)
    requires k !in m && Terminated(k) && m2 == m[k := d]
    requires HoldsIn(f, m)
    requires f2 == f + multiset{Entry(k, d)}
    ensures HoldsIn(f2, m2)
  {
    var v := Entry(k, d);
    assert f[v] == 0;
    forall e | e in f2
      ensures Terminated(e.key) && e.key in m2 && e.data == m2[e.key]
    {
      if e != v {
        assert e in f;
      }
    }
    forall q | q in m2
      ensures f2[Entry(q, m2[q])] == 1
    {
      if q != k {
        assert Entry(q, m2[q]) != v;
      }
    }
  }

  /** The multiset step of a replacing insert: the one entry under `k`
      trades its value for `d`. */
  lemma ReplaceHolds<D>(f: multiset<Entry<D>>, f2: multiset<Entry<D>>, m: map<seq<bv8>, D>,
                        m2: map<seq<bv8>, D>, k: seq<bv8>, d: D)
    requires k in m && Terminated(k) && m2 == m[k := d]
    requires HoldsIn(f, m)
    requires f2 + multiset{Entry(k, m[k])} == f + multiset{Entry(k, d)}
    ensures HoldsIn(f2, m2)
  {
    var o, v := Entry(k, m[k]), Entry(k, d);
    forall z
      ensures f2[z] == f[z] + multiset{v}[z] - multiset{o}[z]
    {
      assert (f2 + multiset{o})[z] == (f + multiset{v})[z];
    }
    if d != m[k] {
      assert f[v] == 0;
      assert f2[o] == 0;
    }
    forall e | e in f2
      ensures Terminated(e.key) && e.key in m2 && e.data == m2[e.key]
    {
      if e != v {
        assert e in f;
      }
    }
    forall q | q in m2
      ensures f2[Entry(q, m2[q])] == 1
    {
      if q != k {
        assert Entry(q, m2[q]) != v && Entry(q, m2[q]) != o;
      }
    }
  }
}
