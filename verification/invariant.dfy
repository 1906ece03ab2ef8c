/**
 * The representation invariant of the dict on values: the two bucket
 * sequences with their `size` and `used` fields, the rehash cursor and the
 * map they stand for. Each step the dict takes (dict.go:108-110, 131-138,
 * 78, 172-181, 217-241) is a lemma here that keeps the invariant.
 */
module DictInvariant {
  import opened Wrappers
  import opened Capacity
  import opened Chains
  import opened Buckets

  /**
   * One table (dict.go:27-32): `size` buckets, unallocated or a power of two
   * from 4 to 2^63, every entry in the bucket its hash selects, no key
   * twice, and `used` counting the entries.
   */
  ghost predicate TableOk<K, V>(hash: K -> nat, bs: Buckets<K, V>, size: int, used: int)
  {
    && |bs| == size
    && (size == 0 || (IsPow2(size) && INITIAL_SIZE <= size <= MAX_SIZE))
    && WellFormed(hash, bs)
    && used == Count(bs)
  }

  /**
   * Both tables are sound; `ri` is -1 or a bucket of table 0 with every
   * bucket below it already migrated; table 1 is allocated exactly while a
   * rehash runs; the pair represents `m`, whose size is the sum of the
   * `used` counters.
   */
  ghost predicate Inv<K(!new), V>(hash: K -> nat, b0: Buckets<K, V>, b1: Buckets<K, V>,
                                  size0: int, size1: int, used0: int, used1: int, ri: int, m: map<K, V>)
  {
    && TableOk(hash, b0, size0, used0)
    && TableOk(hash, b1, size1, used1)
    && (ri == -1 || 0 <= ri <= size0)
    && (ri < 0 ==> size1 == 0)
    && (ri >= 0 ==> size0 > 0 && size1 > 0 && EmptyBelow(b0, ri))
    && Represents(hash, b0, b1, m)
    && |m| == used0 + used1
  }

  /** `New` (dict.go:40-46): two unallocated tables, no rehash, no entries. */
  lemma InvEmpty<K(!new), V>(hash: K -> nat)
    ensures Inv<K, V>(hash, [], [], 0, 0, 0, 0, -1, map[])
  {
    EmptyTableFacts<K, V>(hash, 0);
    assert EmptyTable<K, V>(0) == [];
  }

  /** An entry count above zero means some table has buckets, and table 0 has unless a rehash runs. */
  lemma InvNonEmpty<K(!new), V>(hash: K -> nat, b0: Buckets<K, V>, b1: Buckets<K, V>,
                                size0: int, size1: int, used0: int, used1: int, ri: int, m: map<K, V>)
    requires Inv(hash, b0, b1, size0, size1, used0, used1, ri, m) && |m| > 0
    ensures size0 > 0
    ensures ri < 0 ==> used0 > 0
  {
    if ri < 0 {
      assert b1 == [];
    }
  }

  /** Inserting a new key into table 0 outside a rehash (dict.go:108-110). */
  lemma InvInsert0<K(!new), V>(hash: K -> nat, b0: Buckets<K, V>, b1: Buckets<K, V>,
                               size0: int, size1: int, used0: int, used1: int, ri: int, m: map<K, V>, e: Entry<K, V>)
    requires Inv(hash, b0, b1, size0, size1, used0, used1, ri, m)
    requires ri < 0 && size0 > 0 && e.key !in m
    ensures Inv(hash, Prepend(hash, b0, e), b1, size0, size1, used0 + 1, used1, ri, m[e.key := e.value])
    ensures Lookup(hash, Prepend(hash, b0, e), e.key) == Some(e.value)
  {
    RepresentsDisjoint(hash, b0, b1, m, e.key);
    PrependNew(hash, b0, e);
    RepresentsChange0(hash, b0, b1, m, Prepend(hash, b0, e), e.key, Some(e.value));
  }

  /** Inserting a new key into table 1 during a rehash (dict.go:102-110). */
  lemma InvInsert1<K(!new), V>(hash: K -> nat, b0: Buckets<K, V>, b1: Buckets<K, V>,
                               size0: int, size1: int, used0: int, used1: int, ri: int, m: map<K, V>, e: Entry<K, V>)
    requires Inv(hash, b0, b1, size0, size1, used0, used1, ri, m)
    requires ri >= 0 && e.key !in m
    ensures Inv(hash, b0, Prepend(hash, b1, e), size0, size1, used0, used1 + 1, ri, m[e.key := e.value])
    ensures Lookup(hash, Prepend(hash, b1, e), e.key) == Some(e.value)
  {
    RepresentsDisjoint(hash, b0, b1, m, e.key);
    PrependNew(hash, b1, e);
    RepresentsChange1(hash, b0, b1, m, Prepend(hash, b1, e), e.key, Some(e.value));
  }

  /** A non-empty bucket of table 0 lies at or above the rehash cursor. */
  lemma EmptyBelowKeeps<K, V>(b0: Buckets<K, V>, nb: Buckets<K, V>, ri: int, idx: nat)
    requires 0 <= ri && EmptyBelow(b0, ri) && idx < |b0| && b0[idx] != []
    requires |nb| == |b0| && forall i :: 0 <= i < |b0| && i != idx ==> nb[i] == b0[i]
    ensures EmptyBelow(nb, ri)
  {
    forall i | 0 <= i < ri && i < |nb|
      ensures nb[i] == []
    {
      assert i != idx;
    }
  }

  /** Unlinking an entry of table 0 (dict.go:131-138). */
  lemma InvUnlink0<K(!new), V>(hash: K -> nat, b0: Buckets<K, V>, b1: Buckets<K, V>,
                               size0: int, size1: int, used0: int, used1: int, ri: int, m: map<K, V>, idx: nat, pos: nat)
    requires Inv(hash, b0, b1, size0, size1, used0, used1, ri, m)
    requires idx < |b0| && pos < |b0[idx]|
    ensures b0[idx][pos].key in m
    ensures Inv(hash, Unlink(b0, idx, pos), b1, size0, size1, used0 - 1, used1, ri, m - {b0[idx][pos].key})
  {
    var key := b0[idx][pos].key;
    FindEntry(b0[idx], pos);
    RepresentsDisjoint(hash, b0, b1, m, key);
    UnlinkEntry(hash, b0, idx, pos);
    RepresentsChange0(hash, b0, b1, m, Unlink(b0, idx, pos), key, None);
    if ri >= 0 {
      EmptyBelowKeeps(b0, Unlink(b0, idx, pos), ri, idx);
    }
  }

  /** Unlinking an entry of table 1 (dict.go:131-138). */
  lemma InvUnlink1<K(!new), V>(hash: K -> nat, b0: Buckets<K, V>, b1: Buckets<K, V>,
                               size0: int, size1: int, used0: int, used1: int, ri: int, m: map<K, V>, idx: nat, pos: nat)
    requires Inv(hash, b0, b1, size0, size1, used0, used1, ri, m)
    requires idx < |b1| && pos < |b1[idx]|
    ensures b1[idx][pos].key in m
    ensures Inv(hash, b0, Unlink(b1, idx, pos), size0, size1, used0, used1 - 1, ri, m - {b1[idx][pos].key})
  {
    var key := b1[idx][pos].key;
    FindEntry(b1[idx], pos);
    RepresentsDisjoint(hash, b0, b1, m, key);
    UnlinkEntry(hash, b1, idx, pos);
    RepresentsChange1(hash, b0, b1, m, Unlink(b1, idx, pos), key, None);
  }

  /** Overwriting the value of an entry of table 0 (dict.go:78). */
  lemma InvSetValue0<K(!new), V>(hash: K -> nat, b0: Buckets<K, V>, b1: Buckets<K, V>,
                                 size0: int, size1: int, used0: int, used1: int, ri: int, m: map<K, V>,
                                 idx: nat, pos: nat, v: V)
    requires Inv(hash, b0, b1, size0, size1, used0, used1, ri, m)
    requires idx < |b0| && pos < |b0[idx]|
    ensures Inv(hash, SetValue(b0, idx, pos, v), b1, size0, size1, used0, used1, ri, m[b0[idx][pos].key := v])
  {
    var key := b0[idx][pos].key;
    FindEntry(b0[idx], pos);
    RepresentsDisjoint(hash, b0, b1, m, key);
    SetValueEntry(hash, b0, idx, pos, v);
    RepresentsChange0(hash, b0, b1, m, SetValue(b0, idx, pos, v), key, Some(v));
    if ri >= 0 {
      EmptyBelowKeeps(b0, SetValue(b0, idx, pos, v), ri, idx);
    }
  }

  /** Overwriting the value of an entry of table 1 (dict.go:78). */
  lemma InvSetValue1<K(!new), V>(hash: K -> nat, b0: Buckets<K, V>, b1: Buckets<K, V>,
                                 size0: int, size1: int, used0: int, used1: int, ri: int, m: map<K, V>,
                                 idx: nat, pos: nat, v: V)
    requires Inv(hash, b0, b1, size0, size1, used0, used1, ri, m)
    requires idx < |b1| && pos < |b1[idx]|
    ensures Inv(hash, b0, SetValue(b1, idx, pos, v), size0, size1, used0, used1, ri, m[b1[idx][pos].key := v])
  {
    var key := b1[idx][pos].key;
    FindEntry(b1[idx], pos);
    RepresentsDisjoint(hash, b0, b1, m, key);
    SetValueEntry(hash, b1, idx, pos, v);
    RepresentsChange1(hash, b0, b1, m, SetValue(b1, idx, pos, v), key, Some(v));
  }

  /** Stepping the cursor past an empty bucket (dict.go:217-219). */
  lemma InvSkip<K(!new), V>(hash: K -> nat, b0: Buckets<K, V>, b1: Buckets<K, V>,
                            size0: int, size1: int, used0: int, used1: int, ri: int, m: map<K, V>)
    requires Inv(hash, b0, b1, size0, size1, used0, used1, ri, m)
    requires 0 <= ri < size0 && b0[ri] == []
    ensures Inv(hash, b0, b1, size0, size1, used0, used1, ri + 1, m)
  {
  }

  /**
   * Migrating bucket `ri` (dict.go:225-235): its chain is prepended into
   * table 1, the bucket is emptied and the cursor moves on; the map and the
   * total count stay.
   */
  lemma InvMigrate<K(!new), V>(hash: K -> nat, b0: Buckets<K, V>, b1: Buckets<K, V>,
                               size0: int, size1: int, used0: int, used1: int, ri: int, m: map<K, V>)
    requires Inv(hash, b0, b1, size0, size1, used0, used1, ri, m)
    requires 0 <= ri < size0
    ensures used0 >= |b0[ri]|
    ensures Inv(hash, b0[ri := []], MoveAll(hash, b1, b0[ri]), size0, size1,
                used0 - |b0[ri]|, used1 + |b0[ri]|, ri + 1, m)
  {
    CountUpdate(b0, ri, []);
    RepresentsMigrate(hash, b0, b1, m, ri);
  }

  /** Promotion once table 0 is drained (dict.go:237-241). */
  lemma InvPromote<K(!new), V>(hash: K -> nat, b0: Buckets<K, V>, b1: Buckets<K, V>,
                               size0: int, size1: int, used0: int, used1: int, ri: int, m: map<K, V>)
    requires Inv(hash, b0, b1, size0, size1, used0, used1, ri, m)
    requires ri >= 0 && used0 == 0
    ensures Inv(hash, b1, EmptyTable<K, V>(0), size1, 0, used1, 0, -1, m)
  {
    RepresentsPromote(hash, b0, b1, m);
    EmptyTableFacts<K, V>(hash, 0);
  }

  /** The first allocation of table 0 (dict.go:173-174, 179-181). */
  lemma InvAllocate0<K(!new), V>(hash: K -> nat, b0: Buckets<K, V>, b1: Buckets<K, V>,
                                 size0: int, size1: int, used0: int, used1: int, ri: int, m: map<K, V>, n: nat)
    requires Inv(hash, b0, b1, size0, size1, used0, used1, ri, m)
    requires size0 == 0 && IsPow2(n) && INITIAL_SIZE <= n <= MAX_SIZE
    ensures Inv(hash, EmptyTable<K, V>(n), b1, n, size1, used0, used1, ri, m)
  {
    EmptyTableFacts<K, V>(hash, n);
    RepresentsReplaceEmpty(hash, b0, b1, m, false, n);
  }

  /** Allocating table 1 starts a rehash at bucket 0 (dict.go:175-181). */
  lemma InvAllocate1<K(!new), V>(hash: K -> nat, b0: Buckets<K, V>, b1: Buckets<K, V>,
                                 size0: int, size1: int, used0: int, used1: int, ri: int, m: map<K, V>, n: nat)
    requires Inv(hash, b0, b1, size0, size1, used0, used1, ri, m)
    requires ri < 0 && size0 > 0 && IsPow2(n) && INITIAL_SIZE <= n <= MAX_SIZE
    ensures Inv(hash, b0, EmptyTable<K, V>(n), size0, n, used0, used1, 0, m)
  {
    assert b1 == [];
    EmptyTableFacts<K, V>(hash, n);
    RepresentsReplaceEmpty(hash, b0, b1, m, true, n);
  }
}
