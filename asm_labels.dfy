/** The tables of src/back_end/asm/asm.c as the code builds them.
    `Translation` inserts each template with `strlen(name)` bytes,
    `FirstIteration` inserts each label with `strlen(word)` bytes and
    `AssemblerPush` looks words up with `word_len` bytes, so the keys
    carry no terminator; `KeyCmp` compares only the first min(len1, len2)
    bytes, so a name that is a prefix of another one in the same bucket
    matches it.  The rest of the model keys every table with the
    terminator (`Asm.Insertions`, `Asm.InsertionsFind`). */
module AsmLabels {
  import opened Common
  import HT = HashTable
  import opened Asm

  /** The key of `name` without its terminator. */
  function BareKey(name: string): (k: seq<bv8>)
    requires CName(name)
    ensures |k| == |name| && k + [0] == Key(name)
  {
    Key(name)[..|name|]
  }

  /** Every name is a non-empty C string. */
  predicate Names<D>(defs: seq<(string, D)>)
  {
    forall k :: 0 <= k < |defs| ==> CName(defs[k].0) && defs[k].0 != []
  }

  /** A table as the code builds it: one `HashTableInsert` per row, under
      the bare key of its name. */
  function AsWritten<D>(defs: seq<(string, D)>): (t: HT.Table<D>)
    requires Names(defs)
    ensures HT.Inv(t)
  {
    if defs == [] then HT.Init()
    else
      var t0 := AsWritten(defs[..|defs| - 1]);
      var (name, c) := defs[|defs| - 1];
      HT.InsertInv(t0, BareKey(name), c);
      HT.Insert(t0, BareKey(name), c)
  }

  /** The hash step of FNV-1a on one byte. */
  lemma StepA()
    ensures Fnv1aStep(HT.FNV_OFFSET_BASIS, 97, HT.FNV_PRIME_64) == 0xAF63_DC4C_8601_EC8C
  {
  }

  lemma StepAf()
    ensures Fnv1aStep(0xAF63_DC4C_8601_EC8C, 102, HT.FNV_PRIME_64) == 0x089C_4007_B545_919E
  {
  }

  /** The bucket of `a` among eight: FNV-1a-64 of the byte 97, times
      Knuth's constant modulo 2^64, shifted right by 61. */
  lemma BucketOfA()
    ensures HT.Index([97], 8) == 3
  {
    HT.IndexValue([97], 8);
    StepA();
    assert HT.Fnv1a64([97]) == 0xAF63_DC4C_8601_EC8C by {
      assert [97 as bv8][..0] == [];
    }
    assert HT.MulHash([97]) == 6973244871359608700;
    Pow2Top();
  }

  /** The bucket of `af` among eight. */
  lemma BucketOfAf()
    ensures HT.Index([97, 102], 8) == 3
  {
    HT.IndexValue([97, 102], 8);
    StepA();
    StepAf();
    var k: seq<bv8> := [97, 102];
    assert k[..1] == [97] && k[1] == 102;
    assert Fnv1a([97], HT.FNV_OFFSET_BASIS, HT.FNV_PRIME_64) == 0xAF63_DC4C_8601_EC8C by {
      assert [97 as bv8][..0] == [];
    }
    assert Fnv1a(k, HT.FNV_OFFSET_BASIS, HT.FNV_PRIME_64)
           == Fnv1aStep(Fnv1a([97], HT.FNV_OFFSET_BASIS, HT.FNV_PRIME_64), 102, HT.FNV_PRIME_64);
    assert HT.Fnv1a64(k) == 0x089C_4007_B545_919E;
    assert HT.MulHash(k) == 7424411546155579894;
    Pow2Top();
  }

  /** For eight buckets the reduction keeps the top three bits. */
  lemma Pow2Top()
    ensures HT.IsPow2(8) && HT.Ctz(8) == 3 && Pow2(61) == 0x2000_0000_0000_0000
  {
    Pow2Wide();
    Pow2Add(61, 3);
  }

  /** For sixteen buckets the reduction keeps the top four bits. */
  lemma Pow2Top16()
    ensures HT.IsPow2(16) && HT.Ctz(16) == 4 && Pow2(60) == 0x1000_0000_0000_0000
  {
    Pow2Wide();
    Pow2Add(60, 4);
  }

  /** One more label is one more insert. */
  lemma AsWrittenSnoc<D>(defs: seq<(string, D)>, name: string, c: D)
    requires Names(defs) && CName(name) && name != []
    ensures Names(defs + [(name, c)])
    ensures AsWritten(defs + [(name, c)]) == HT.Insert(AsWritten(defs), BareKey(name), c)
  {
    assert (defs + [(name, c)])[..|defs|] == defs;
  }

  /** The first insert into the empty table of eight buckets appends to
      an empty bucket and does not grow the array. */
  lemma FirstInsert<D>(key: seq<bv8>, d: D)
    requires |key| > 0
    ensures HT.Inv(HT.Init<D>())
    ensures HT.Insert(HT.Init<D>(), key, d).buckets == HT.Init<D>().buckets[HT.Index(key, 8) := [HT.Entry(key, d)]]
  {
    var t0 := HT.Init<D>();
    var i := HT.Index(key, 8);
    assert |t0.buckets| == 8 && t0.buckets[i] == [];
    assert HT.Find(t0, key).None?;
    HT.InsertNew(t0, key, d);
    assert HT.InsertInChain(t0, key, d).buckets_size == 1;
    assert !HT.ShouldGrow(1, 8);
    assert t0.buckets[i] + [HT.Entry(key, d)] == [HT.Entry(key, d)];
  }

  /** As written, a label whose name is a prefix of a later label's name
      in the same bucket takes the later label's count: the second
      `HashTableInsert` finds the first entry through `KeyCmp`, which
      compares only the shorter length, and overwrites its data. */
  lemma PrefixLabelOverwritten(a: string, b: string, c1: nat, c2: nat)
    requires CName(a) && CName(b) && 0 < |a| < |b| && b[..|a|] == a
    requires HT.Index(BareKey(a), 8) == HT.Index(BareKey(b), 8)
    ensures Names([(a, c1), (b, c2)])
    ensures HT.Find(AsWritten([(a, c1), (b, c2)]), BareKey(a)) == Some(c2)
  {
    SingleRow(a, c1);
    BarePrefix(a, b);
    var t1 := AsWritten([(a, c1)]);
    OverwriteSingle(t1, BareKey(b), HT.Entry(BareKey(a), c1), c2);
    AsWrittenSnoc([(a, c1)], b, c2);
    assert [(a, c1)] + [(b, c2)] == [(a, c1), (b, c2)];
    FindSingle(HT.Insert(t1, BareKey(b), c2), BareKey(a), HT.Entry(BareKey(a), c2));
  }

  /** Inserting a key that extends the key of the one entry of its bucket
      overwrites that entry's data and adds nothing. */
  lemma OverwriteSingle<D>(t: HT.Table<D>, k: seq<bv8>, e: HT.Entry<D>, d: D)
    requires HT.Inv(t) && 0 < |e.key| <= |k| && |t.buckets| == 8
    requires t.buckets[HT.Index(k, 8)] == [e] && k[..|e.key|] == e.key
    ensures |HT.Insert(t, k, d).buckets| == 8
    ensures HT.Insert(t, k, d).buckets[HT.Index(k, 8)] == [e.(data := d)]
  {
    assert HT.KeyEq(k, e.key);
    assert HT.ChainFind([e], k) == Some(0);
    HT.InsertExisting(t, k, d);
  }

  /** The names `a` and `af` meet the premises of
      `PrefixLabelOverwritten`: `:a` and a later `:af` make `JMP a` jump
      to `af`. */
  lemma PrefixLabelsCollide()
    ensures Names([("a", 0), ("af", 2)])
    ensures HT.Index(BareKey("a"), 8) == HT.Index(BareKey("af"), 8)
  {
    assert BareKey("a") == [97];
    assert BareKey("af") == [97, 102];
    BucketOfA();
    BucketOfAf();
  }

  /** The bucket of `A` among eight and among sixteen. */
  lemma BucketOfCapitalA()
    ensures HT.Index([65], 8) == 5 && HT.Index([65], 16) == 11
  {
    HT.IndexValue([65], 8);
    HT.IndexValue([65], 16);
    assert Fnv1aStep(HT.FNV_OFFSET_BASIS, 65, HT.FNV_PRIME_64) == 0xAF63_FC4C_8602_22EC;
    assert HT.Fnv1a64([65]) == 0xAF63_FC4C_8602_22EC by {
      assert [65 as bv8][..0] == [];
    }
    assert HT.MulHash([65]) == 13313581324839103836;
    Pow2Top();
    Pow2Top16();
  }

  /** The hash of `AD`, the first two bytes of `ADD`. */
  lemma HashOfAd()
    ensures Fnv1a([65, 68], HT.FNV_OFFSET_BASIS, HT.FNV_PRIME_64) == 0x0908_5E07_B5A0_E378
  {
    var k: seq<bv8> := [65, 68];
    assert k[..1] == [65] && k[1] == 68;
    assert Fnv1aStep(HT.FNV_OFFSET_BASIS, 65, HT.FNV_PRIME_64) == 0xAF63_FC4C_8602_22EC;
    assert Fnv1a([65], HT.FNV_OFFSET_BASIS, HT.FNV_PRIME_64) == 0xAF63_FC4C_8602_22EC by {
      assert [65 as bv8][..0] == [];
    }
    assert Fnv1aStep(0xAF63_FC4C_8602_22EC, 68, HT.FNV_PRIME_64) == 0x0908_5E07_B5A0_E378;
  }

  /** The bucket of `ADD` among eight and among sixteen. */
  lemma BucketOfAdd()
    ensures HT.Index([65, 68, 68], 8) == 5 && HT.Index([65, 68, 68], 16) == 11
  {
    HT.IndexValue([65, 68, 68], 8);
    HT.IndexValue([65, 68, 68], 16);
    HashOfAd();
    var k: seq<bv8> := [65, 68, 68];
    assert k[..2] == [65, 68] && k[2] == 68;
    assert Fnv1aStep(0x0908_5E07_B5A0_E378, 68, HT.FNV_PRIME_64) == 0xFA1B_0319_A062_1EF4;
    assert HT.Fnv1a64(k) == 0xFA1B_0319_A062_1EF4;
    assert HT.MulHash(k) == 13521607999152634372;
    Pow2Top();
    Pow2Top16();
  }

  /** As written, a word that is a proper prefix of a name in the table and
      falls in the same bucket is found: `AssemblerPush` accepts it and
      pushes that name's value. */
  lemma PrefixWordAccepted<D>(a: string, b: string, d: D)
    requires CName(a) && CName(b) && 0 < |a| < |b| && b[..|a|] == a
    requires HT.Index(BareKey(a), 8) == HT.Index(BareKey(b), 8)
    ensures Names([(b, d)])
    ensures HT.Find(AsWritten([(b, d)]), BareKey(a)) == Some(d)
  {
    SingleRow(b, d);
    BarePrefix(a, b);
    FindSingle(AsWritten([(b, d)]), BareKey(a), HT.Entry(BareKey(b), d));
  }

  /** The table of one row: its entry alone in its bucket of eight. */
  lemma SingleRow<D>(b: string, d: D)
    requires CName(b) && b != []
    ensures Names([(b, d)])
    ensures var t := AsWritten([(b, d)]);
            |t.buckets| == 8 && t.buckets[HT.Index(BareKey(b), 8)] == [HT.Entry(BareKey(b), d)]
  {
    AsWrittenOne(b, d);
    FirstInsert(BareKey(b), d);
  }

  /** The table of one row is one insert into the empty table. */
  lemma AsWrittenOne<D>(b: string, d: D)
    requires CName(b) && b != []
    ensures Names([(b, d)])
    ensures AsWritten([(b, d)]) == HT.Insert(HT.Init(), BareKey(b), d)
  {
    AsWrittenSnoc([], b, d);
    assert [] + [(b, d)] == [(b, d)];
  }

  /** The bare key of a prefix is a prefix of the bare key. */
  lemma BarePrefix(a: string, b: string)
    requires CName(a) && CName(b) && |a| <= |b| && b[..|a|] == a
    ensures BareKey(b)[..|a|] == BareKey(a)
  {
    assert Key(b)[..|a|] == Key(a)[..|a|];
  }

  /** A bucket holding one entry whose key matches under `KeyCmp`. */
  lemma FindSingle<D>(t: HT.Table<D>, k: seq<bv8>, e: HT.Entry<D>)
    requires HT.Inv(t) && |k| > 0 && |t.buckets| == 8
    requires t.buckets[HT.Index(k, 8)] == [e] && |k| <= |e.key| && e.key[..|k|] == k
    ensures HT.Find(t, k) == Some(e.data)
  {
    assert HT.KeyEq(k, e.key);
    assert HT.ChainFind([e], k) == Some(0);
  }

  /** With terminated keys the same word is not found: pass 2 stops with
      `ASM_INVALID_INSTRUCTION` (or `ASM_INVALID_LABEL`). */
  lemma PrefixWordRejected<D>(a: string, b: string, d: D)
    requires CName(a) && CName(b) && a != b && a != [] && b != []
    ensures Named([(b, d)])
    ensures HT.Find(Insertions([(b, d)]), Key(a)).None?
  {
    InsertionsFind([(b, d)], a);
  }

  /** `A` and `ADD` meet the premises of `PrefixWordAccepted`: against a
      table holding `ADD`, the word `A` reads as `ADD`'s id.  They share a
      bucket among sixteen too, the capacity the template table of
      `Translation` grows to. */
  lemma MnemonicPrefixCollides()
    ensures CName("A") && CName("ADD")
    ensures HT.Index(BareKey("A"), 8) == HT.Index(BareKey("ADD"), 8)
    ensures HT.Index(BareKey("A"), 16) == HT.Index(BareKey("ADD"), 16)
  {
    assert BareKey("A") == [65];
    assert BareKey("ADD") == [65, 68, 68];
    BucketOfCapitalA();
    BucketOfAdd();
  }
}
