/** The hash map of HashTable/src/hash_table.c as the code keeps it: a
    bucket array updated in place and two counters.  Each method is proved
    to leave the map in the state the value model of the `HashTable`
    module describes, so the properties proved there carry over. */
module HashTableMap {
  import opened Common
  import HT = HashTable

  class HashMap<D> {
    var buckets: array<seq<HT.Entry<D>>>
    var buckets_size: nat
    var element_cnt: nat

    /** The map as a value. */
    ghost function Model(): HT.Table<D>
      reads this, buckets
    {
      HT.Table(buckets[..], buckets_size, element_cnt)
    }

    ghost predicate Valid()
      reads this, buckets
    {
      HT.Inv(Model())
    }

    /** `HashTableInit`: eight empty buckets and zero counters. */
    constructor Init()
      ensures Valid() && fresh(buckets)
      ensures Model() == HT.Init()
    {
      buckets := new seq<HT.Entry<D>>[HT.INITIAL_CAPACITY](_ => []);
      buckets_size := 0;
      element_cnt := 0;
      new;
      assert buckets[..] == HT.Init<D>().buckets;
    }

    /** `fnv_hash_to_index` over the hash the accumulator loop computes. */
    static method BucketIndex(key: seq<bv8>, capacity: nat) returns (i: nat)
      requires |key| > 0 && 2 <= capacity < TWO32
      ensures i == HT.Index(key, capacity)
    {
      var hash := HT.Fnv1aHash(key);
      i := HT.Reduce(((hash as nat) * HT.KNUTH_A) % TWO64, capacity);
      HT.IndexValue(key, capacity);
    }

    /** The `while (cur_node != NULL)` walk shared by find, insert and
        erase: the position of the first node whose key matches, or the
        chain's length when none does. */
    static method Walk(chain: seq<HT.Entry<D>>, key: seq<bv8>) returns (j: nat)
      ensures j <= |chain|
      ensures j < |chain| <==> HT.ChainFind(chain, key).Some?
      ensures j < |chain| ==> HT.ChainFind(chain, key) == Some(j)
    {
      j := 0;
      while j < |chain| && !HT.KeyEq(key, chain[j].key)
        invariant j <= |chain|
        invariant forall k :: 0 <= k < j ==> !HT.KeyEq(key, chain[k].key)
      {
        j := j + 1;
      }
    }

    method Size() returns (n: nat)
      requires Valid()
      ensures n == HT.Size(Model())
    {
      n := element_cnt;
    }

    method Empty() returns (b: bool)
      requires Valid()
      ensures b == HT.Empty(Model())
    {
      b := element_cnt == 0;
    }

    /** `HashTableFind`. */
    method Find(key: seq<bv8>) returns (r: Option<D>)
      requires Valid() && |key| > 0
      ensures r == HT.Find(Model(), key)
    {
      var i := BucketIndex(key, buckets.Length);
      var chain := buckets[i];
      var j := Walk(chain, key);
      if j < |chain| {
        return Some(chain[j].data);
      }
      return None;
    }

    /** The inner loop of `HashTableRealloc`: moves the nodes of one old
        chain, head first, each to the head of its bucket in `target`. */
    static method MoveChain(target: array<seq<HT.Entry<D>>>, chain: seq<HT.Entry<D>>)
      requires 2 <= target.Length < TWO32
      requires forall j :: 0 <= j < |chain| ==> |chain[j].key| > 0
      modifies target
      ensures target[..] == HT.Scatter(old(target[..]), chain)
    {
      ghost var start := target[..];
      var k := 0;
      while k < |chain|
        invariant k <= |chain|
        invariant target[..] == HT.Scatter(start, chain[..k])
      {
        var node := chain[k];
        var idx := BucketIndex(node.key, target.Length);
        assert chain[..k + 1][..k] == chain[..k];
        target[idx] := [node] + target[idx];
        k := k + 1;
      }
      assert chain[..k] == chain;
    }

    /** `HashTableRealloc`: moves every node, bucket by bucket, to a fresh
        array of `new_capacity` buckets, and counts the nodes it moves; a
        count other than `element_cnt` would be reported as a leak. */
    method Realloc(new_capacity: nat) returns (leak: bool)
      requires Valid() && HT.INITIAL_CAPACITY <= new_capacity <= HT.MAX_CAPACITY
      modifies this
      ensures Valid() && fresh(buckets)
      ensures Model() == HT.Rehash(old(Model()), new_capacity)
      ensures !leak
    {
      var old_buckets := buckets[..];
      assert HT.Placed(old_buckets);
      ghost var empty: seq<seq<HT.Entry<D>>> := seq(new_capacity, _ => []);
      var fresh_buckets := new seq<HT.Entry<D>>[new_capacity](_ => []);
      assert fresh_buckets[..] == empty;
      var moved := 0;
      var i := 0;
      while i < |old_buckets|
        invariant i <= |old_buckets|
        invariant buckets_size == old(buckets_size) && element_cnt == old(element_cnt)
        invariant fresh_buckets[..] == HT.ScatterAll(empty, old_buckets[..i])
        invariant moved == |HT.Flatten(old_buckets[..i])|
      {
        assert old_buckets[..i + 1][..i] == old_buckets[..i];
        MoveChain(fresh_buckets, old_buckets[i]);
        moved := moved + |old_buckets[i]|;
        i := i + 1;
      }
      assert old_buckets[..i] == old_buckets;
      HT.RehashEffect(old(Model()), new_capacity);
      buckets := fresh_buckets;
      leak := moved != element_cnt;
    }

    /** `HashTableInsert`: the walk stops at the first matching node, whose
        data is replaced; otherwise a node is appended at the tail, the
        counters are updated, and the array doubles when the load factor
        reaches 0.75 and the doubled capacity is at most 100000. */
    method Insert(key: seq<bv8>, data: D)
      requires Valid() && |key| > 0
      modifies this, buckets
      ensures Valid()
      ensures Model() == HT.Insert(old(Model()), key, data)
    {
      HT.InsertInv(Model(), key, data);
      var i := BucketIndex(key, buckets.Length);
      var chain := buckets[i];
      var j := Walk(chain, key);
      if j < |chain| {
        buckets[i] := chain[j := chain[j].(data := data)];
        return;
      }
      buckets[i] := chain + [HT.Entry(key, data)];
      if chain == [] {
        buckets_size := (buckets_size + 1) % TWO64;
      }
      element_cnt := element_cnt + 1;
      if HT.ShouldGrow(buckets_size, buckets.Length) {
        HT.InsertInChainEffect(old(Model()), key, data);
        var _ := Realloc(2 * buckets.Length);
      }
    }

    /** `HashTableErase`: unlinks the first matching node and returns true,
        halving the array when the load factor drops to 0.25 and the halved
        capacity is at least 8; returns false and changes nothing when no
        node matches. */
    method Erase(key: seq<bv8>) returns (erased: bool)
      requires Valid() && |key| > 0
      modifies this, buckets
      ensures Valid()
      ensures (Model(), erased) == HT.Erase(old(Model()), key)
    {
      var i := BucketIndex(key, buckets.Length);
      var j := Walk(buckets[i], key);
      if j == |buckets[i]| {
        return false;
      }
      Unlink(key, i, j);
      if HT.ShouldShrink(buckets_size, buckets.Length) {
        var _ := Realloc(buckets.Length / 2);
      }
      return true;
    }

    /** The unlink of `HashTableErase`: the `j`-th node of the key's chain
        goes, `buckets_size` drops when it was the chain's only node and
        `element_cnt` drops by one. */
    method Unlink(ghost key: seq<bv8>, i: nat, j: nat)
      requires Valid() && |key| > 0 && i == HT.Index(key, buckets.Length) && j < |buckets[i]|
      modifies this, buckets
      ensures buckets == old(buckets) && Valid()
      ensures Model() == HT.EraseInChain(old(Model()), key, j)
    {
      HT.EraseInChainInv(Model(), key, j);
      var chain := buckets[i];
      if j == 0 && j + 1 == |chain| {
        buckets_size := (buckets_size - 1) % TWO64;
      }
      buckets[i] := chain[..j] + chain[j + 1..];
      element_cnt := element_cnt - 1;
    }
  }
}
