/**
 * The dict itself (dict.go:21-244, 264-269, 329-406): two chained hash tables,
 * table 0 holding the entries and table 1 receiving them while an
 * incremental rehash is under way, with `rehashIndex` the first bucket of
 * table 0 not yet migrated (or -1 when no rehash is running).
 *
 * Every method keeps `Valid()`, which ties the bucket arrays to the ghost map
 * `contents`, the abstract value of the dict.
 */
module HashDict {
  import opened Wrappers
  import opened Capacity
  import opened Chains
  import opened Buckets
  import opened DictInvariant

  /** The errors the dict returns (dict.go:166, dict.go:200). */
  datatype DictError = ResizeFailed | DictIsRehashing

  /**
   * Where an entry sits: table 1 or table 0, bucket, position in the chain.
   * It stands for the `*entry` that `keyIndex` and `loadOrStore` hand back.
   */
  datatype Slot = Slot(incoming: bool, bucket: nat, pos: nat)

  /**
   * The six numbers `fingerprint` mixes (dict.go:331-340). The table objects
   * stand for the addresses of their `buckets` fields; equal fingerprints
   * are equal tuples, so collisions of the mixer are not modelled.
   */
  datatype Metas = Metas(table0: object?, size0: nat, used0: nat, table1: object?, size1: nat, used1: nat)

  /**
   * `sizemask & hash`: the mask is `size - 1` once a table is allocated
   * (dict.go:180), so for a power-of-two size it selects `hash % size`, and
   * it is 0 in a table never allocated.
   */
  function MaskIndex(size: nat, h: nat): (r: nat)
    ensures size > 0 ==> r < size
    ensures size == 0 ==> r == 0
  {
    if size == 0 then 0 else h % size
  }

  /**
   * The guard of `keyIndex` as written (dict.go:58-61): `idx > ht.size`.
   */
  function GuardAsWritten(size: nat, h: nat): bool
  {
    MaskIndex(size, h) > size
  }

  /**
   * The guard never fires. In a table never allocated (size 0) the index is
   * 0 and the bucket slice is empty, so the chain walk that follows reads
   * past its end: `Load` on a new dict indexes an empty slice.
   */
  lemma GuardAsWrittenNeverFires(size: nat, h: nat)
    ensures !GuardAsWritten(size, h)
    ensures size == 0 ==> MaskIndex(size, h) >= size
  {
  }

  /** The chain walk of `keyIndex` and `Delete` (dict.go:62-66, 128-142). */
  method FindInChain<K(==), V>(c: Chain<K, V>, key: K) returns (pos: Option<nat>)
    ensures pos.Some? ==> pos.value < |c| && c[pos.value].key == key
    ensures pos.None? <==> Find(c, key).None?
  {
    var j := 0;
    while j < |c|
      invariant j <= |c|
      invariant forall q :: 0 <= q < j ==> c[q].key != key
    {
      if c[j].key == key {
        return Some(j);
      }
      j := j + 1;
    }
    return None;
  }

  /** One of the two tables (dict.go:27-32); `sizemask` is derived from `size`. */
  class HashTable<K, V> {
    var buckets: array<Chain<K, V>>
    var size: nat
    var used: nat

    /** The zero `hashTable{}`: no buckets, size 0 (dict.go:42, 239). */
    constructor Empty()
      ensures size == 0 && used == 0 && buckets.Length == 0
      ensures fresh(buckets)
    {
      buckets := new Chain<K, V>[0];
      size, used := 0, 0;
    }

    /** Links `e` in front of the chain of bucket `idx` (dict.go:108-110). */
    method PrependAt(idx: nat, e: Entry<K, V>)
      requires idx < buckets.Length
      modifies this, buckets
      ensures buckets == old(buckets) && size == old(size) && used == old(used) + 1
      ensures buckets[..] == old(buckets[..])[idx := [e] + old(buckets[idx])]
    {
      buckets[idx] := [e] + buckets[idx];
      used := used + 1;
    }

    /** Unlinks the entry at position `pos` of bucket `idx` (dict.go:131-138). */
    method UnlinkAt(idx: nat, pos: nat)
      requires idx < buckets.Length && pos < |buckets[idx]| && used > 0
      modifies this, buckets
      ensures buckets == old(buckets) && size == old(size) && used == old(used) - 1
      ensures buckets[..] == Unlink(old(buckets[..]), idx, pos)
    {
      buckets[idx] := RemoveAt(buckets[idx], pos);
      used := used - 1;
    }

    /** Overwrites the value of the entry at position `pos` of bucket `idx` (dict.go:78). */
    method OverwriteAt(idx: nat, pos: nat, v: V)
      requires idx < buckets.Length && pos < |buckets[idx]|
      modifies buckets
      ensures buckets[..] == SetValue(old(buckets[..]), idx, pos, v)
    {
      buckets[idx] := SetValueAt(buckets[idx], pos, v);
    }
  }

  /**
   * The inner loop of `rehash` (dict.go:225-233): every entry of chain `c`
   * of `src` is prepended, in chain order, to its bucket in `dst`, and the
   * counters follow entry by entry.
   */
  method MoveChain<K, V>(hash: K -> nat, src: HashTable<K, V>, dst: HashTable<K, V>, c: Chain<K, V>)
    requires src != dst && dst.buckets.Length > 0 && src.used >= |c|
    modifies src, dst, dst.buckets
    ensures src.buckets == old(src.buckets) && dst.buckets == old(dst.buckets)
    ensures src.size == old(src.size) && dst.size == old(dst.size)
    ensures src.used == old(src.used) - |c| && dst.used == old(dst.used) + |c|
    ensures dst.buckets[..] == MoveAll(hash, old(dst.buckets[..]), c)
  {
    var j := 0;
    while j < |c|
      invariant j <= |c|
      invariant src.buckets == old(src.buckets) && dst.buckets == old(dst.buckets)
      invariant src.size == old(src.size) && dst.size == old(dst.size)
      invariant src.used == old(src.used) - j && dst.used == old(dst.used) + j
      invariant dst.buckets[..] == MoveAll(hash, old(dst.buckets[..]), c[..j])
    {
      var e := c[j];
      var idx := hash(e.key) % dst.buckets.Length;
      assert c[..j + 1][..j] == c[..j];
      dst.buckets[idx] := [e] + dst.buckets[idx];
      src.used := src.used - 1;
      dst.used := dst.used + 1;
      j := j + 1;
    }
    assert c[..j] == c;
  }

  class Dict<K(==,!new), V> {
    /** `SipHash` (hash.go), fixed for the life of the dict. */
    const hash: K -> nat
    var t0: HashTable<K, V>
    var t1: HashTable<K, V>
    var rehashIndex: int
    var iterators: nat
    /** The key-value pairs the dict holds. */
    ghost var contents: map<K, V>

    ghost function Repr(): set<object>
      reads this, t0, t1
    {
      {this, t0, t1, t0.buckets, t1.buckets}
    }

    ghost function B0(): Buckets<K, V>
      reads this`t0, t0, t0.buckets
    {
      t0.buckets[..]
    }

    ghost function B1(): Buckets<K, V>
      reads this`t1, t1, t1.buckets
    {
      t1.buckets[..]
    }

    ghost predicate Valid()
      reads this, t0, t1, t0.buckets, t1.buckets
    {
      && t0 != t1 && t0.buckets != t1.buckets
      && iterators < TWO64
      && Inv(hash, B0(), B1(), t0.size, t1.size, t0.used, t1.used, rehashIndex, contents)
    }

    /** The bucket arrays have their recorded sizes, and table 1 has buckets while a rehash runs. */
    ghost predicate Shaped()
      reads this`t0, this`t1, this`rehashIndex, t0, t1
    {
      t0.buckets.Length == t0.size && t1.buckets.Length == t1.size && (rehashIndex >= 0 ==> t1.size > 0)
    }

    lemma ValidIsShaped()
      requires Valid()
      ensures Shaped()
    {
    }

    /** Outside a rehash table 0 holds every entry, so its `used` is `Len` (dict.go:359-365). */
    lemma UsedIsLen()
      requires Valid() && !IsRehashing()
      ensures t0.used == |contents| && t1.size == 0
    {
      assert B1() == [];
    }

    /** The entries in the order an iterator visits them. */
    ghost function Entries(): Chain<K, V>
      reads this`t0, this`t1, this`rehashIndex, t0, t1, t0.buckets, t1.buckets
    {
      Walk(B0(), B1(), rehashIndex >= 0)
    }

    /**
     * A walk over the dict as it stands (dict.go:272-300) hands out every
     * stored pair exactly once and nothing else.
     */
    lemma EntriesAreContents()
      requires Valid()
      ensures forall e :: e in Entries() <==> e.key in contents && contents[e.key] == e.value
      ensures DistinctKeys(Entries()) && |Entries()| == |contents|
    {
      WalkIsContents(hash, B0(), B1(), contents, rehashIndex >= 0);
    }

    /** `isRehashing` (dict.go:404-406): a rehash runs exactly while table 1 is allocated. */
    function IsRehashing(): (r: bool)
      reads this, t0, t1, t0.buckets, t1.buckets
      ensures Valid() ==> (r <==> t1.size > 0)
    {
      rehashIndex >= 0
    }

    /**
     * The table `loadOrStore` inserts into (dict.go:101-104): table 1 exactly
     * while a rehash runs, and then it is allocated; otherwise table 0, which
     * then holds every entry.
     */
    function Target(): (r: HashTable<K, V>)
      reads this, t0, t1, t0.buckets, t1.buckets
      ensures Valid() ==> (r == t1 <==> IsRehashing()) && (r == t0 <==> !IsRehashing())
      ensures Valid() ==> r.buckets.Length == r.size && (IsRehashing() ==> r.size > 0)
      ensures Valid() && !IsRehashing() ==> r.used == |contents|
    {
      if IsRehashing() then t1 else t0
    }

    /**
     * `fingerprint` (dict.go:330-356) before mixing: the two table objects
     * with their sizes and counts. The counts add up to the number of stored
     * pairs, and table 1 has a size exactly while a rehash runs, so a change
     * in either shows in the fingerprint.
     */
    function Fingerprint(): (r: Metas)
      reads this, t0, t1, t0.buckets, t1.buckets
      ensures Valid() ==> r.used0 + r.used1 == |contents| && r.table0 != r.table1
      ensures Valid() ==> (r.size1 > 0 <==> IsRehashing()) && r.size0 == |B0()| && r.size1 == |B1()|
    {
      Metas(t0, t0.size, t0.used, t1, t1.size, t1.used)
    }

    /** The slot names an entry whose key is `key`. */
    ghost predicate SlotHolds(s: Slot, key: K)
      reads this, t0, t1, t0.buckets, t1.buckets
    {
      var t := if s.incoming then t1 else t0;
      s.bucket < t.buckets.Length && s.pos < |t.buckets[s.bucket]| && t.buckets[s.bucket][s.pos].key == key
    }

    /** The tables are the same objects of the same sizes, and the rehash cursor stayed. */
    twostate predicate SameShape()
      reads this, t0, t1
    {
      && t0 == old(t0) && t1 == old(t1) && t0.buckets == old(t0.buckets) && t1.buckets == old(t1.buckets)
      && t0.size == old(t0.size) && t1.size == old(t1.size)
      && rehashIndex == old(rehashIndex) && iterators == old(iterators)
    }

    /** Nothing about the tables moved. */
    twostate predicate Unmoved()
      reads this, t0, t1, t0.buckets, t1.buckets
    {
      && t0 == old(t0) && t1 == old(t1) && rehashIndex == old(rehashIndex)
      && t0.size == old(t0.size) && t1.size == old(t1.size)
      && t0.used == old(t0.used) && t1.used == old(t1.used)
      && B0() == old(B0()) && B1() == old(B1())
    }

    /**
     * How an insertion moves the capacity (dict.go:96-99, 150-161) when no
     * rehash runs: the first insertion allocates 4 buckets; an emptied
     * table 0 of 4 buckets keeps them, and a larger emptied one starts a
     * rehash into 4; inserting into a full table 0 starts a rehash into a
     * table twice its size, unless it already has 2^63 buckets; a table
     * that is neither empty nor full keeps its size.
     */
    twostate predicate GrewForInsert()
      reads this, t0, t1, t0.buckets, t1.buckets
    {
      && (!old(IsRehashing()) && old(t0.size) == 0 ==> !IsRehashing() && t0.size == INITIAL_SIZE)
      && (!old(IsRehashing()) && old(t0.used) == 0 && old(t0.size) == INITIAL_SIZE ==>
            !IsRehashing() && t0.size == INITIAL_SIZE)
      && (!old(IsRehashing()) && old(t0.used) == 0 && old(t0.size) > INITIAL_SIZE ==>
            IsRehashing() && t0.size == old(t0.size) && t1.size == INITIAL_SIZE)
      && (!old(IsRehashing()) && 0 < old(t0.used) == old(t0.size) < MAX_SIZE ==>
            IsRehashing() && t0.size == old(t0.size) && t1.size == 2 * old(t0.size))
      && (!old(IsRehashing()) && old(t0.used) == old(t0.size) == MAX_SIZE ==>
            !IsRehashing() && t0.size == MAX_SIZE)
      && (!old(IsRehashing()) && 0 < old(t0.used) && old(t0.used) != old(t0.size) ==>
            !IsRehashing() && t0.size == old(t0.size))
    }

    /** `New` (dict.go:40-46). */
    constructor (hash: K -> nat)
      ensures Valid() && fresh(Repr())
      ensures this.hash == hash && contents == map[] && iterators == 0
      ensures !IsRehashing() && t0.size == 0
    {
      this.hash := hash;
      t0 := new HashTable.Empty();
      t1 := new HashTable.Empty();
      rehashIndex := -1;
      iterators := 0;
      contents := map[];
      new;
      assert B0() == [] && B1() == [];
      InvEmpty<K, V>(hash);
    }

    /** `Len` (dict.go:359-365): the number of stored pairs. */
    method Len() returns (n: nat)
      requires Valid()
      ensures n == |contents|
    {
      n := 0;
      for i := 0 to 2
        invariant n == (if i >= 1 then t0.used else 0) + (if i >= 2 then t1.used else 0)
      {
        var ht := if i == 0 then t0 else t1;
        n := n + ht.used;
      }
    }

    /**
     * `Cap` (dict.go:368-373): the size of the table insertions go to. It is
     * 0 or a power of two of at least 4, and it is not 0 while entries exist.
     */
    function Cap(): (r: nat)
      requires Valid()
      reads this, t0, t1, t0.buckets, t1.buckets
      ensures r == 0 || (IsPow2(r) && r >= INITIAL_SIZE)
      ensures |contents| > 0 ==> r > 0
    {
      if IsRehashing() then t1.size else t0.size
    }

    /**
     * `keyIndex` (dict.go:54-72) with the guard corrected to `idx >= size`:
     * finds the entry of `key` in table 0, then in table 1 while rehashing;
     * when there is none, `idx` is the bucket of `Target()` that the key
     * hashes to.
     */
    method KeyIndex(key: K) returns (idx: nat, existed: Option<Slot>)
      requires Valid()
      ensures existed.Some? <==> key in contents
      ensures existed.Some? ==> SlotHolds(existed.value, key) && (existed.value.incoming ==> IsRehashing())
      ensures existed.None? ==> idx == MaskIndex(Target().size, hash(key))
    {
      var h := hash(key);
      idx := 0;
      var i := 0;
      while i < 2
        invariant 0 <= i <= 2
        invariant i >= 1 ==> IsRehashing() && Lookup(hash, B0(), key).None?
        invariant i == 2 ==> Lookup(hash, B1(), key).None? && idx == MaskIndex(t1.size, h)
      {
        var ht := if i == 0 then t0 else t1;
        idx := MaskIndex(ht.size, h);
        if idx >= ht.size {
          return idx, None;
        }
        var pos := FindInChain(ht.buckets[idx], key);
        if pos.Some? {
          FindEntry(ht.buckets[idx], pos.value);
          assert Get(hash, B0(), B1(), key) == MapGet(contents, key);
          return idx, Some(Slot(i == 1, idx, pos.value));
        }
        if !IsRehashing() {
          break;
        }
        i := i + 1;
      }
      assert Get(hash, B0(), B1(), key) == MapGet(contents, key);
      return idx, None;
    }

    /** The value of the entry a slot names. */
    function ValueAt(s: Slot): V
      requires s.bucket < (if s.incoming then t1 else t0).buckets.Length
      requires s.pos < |(if s.incoming then t1 else t0).buckets[s.bucket]|
      reads this, t0, t1, t0.buckets, t1.buckets
    {
      var t := if s.incoming then t1 else t0;
      t.buckets[s.bucket][s.pos].value
    }

    /** The entry behind a slot carries the value `contents` maps its key to. */
    lemma SlotValue(s: Slot, key: K)
      requires Valid() && SlotHolds(s, key)
      ensures key in contents && contents[key] == ValueAt(s)
    {
      var t := if s.incoming then B1() else B0();
      FindEntry(t[s.bucket], s.pos);
      assert Lookup(hash, t, key) == Some(ValueAt(s));
      assert Get(hash, B0(), B1(), key) == MapGet(contents, key);
    }

    /** `Load` (dict.go:83-92). */
    method Load(key: K) returns (r: Option<V>)
      requires Valid()
      modifies Repr()
      ensures Valid() && fresh(Repr() - old(Repr()))
      ensures contents == old(contents) && iterators == old(iterators)
      ensures r == MapGet(contents, key)
      ensures !old(IsRehashing()) || iterators > 0 ==> Unmoved()
    {
      if IsRehashing() {
        RehashStep();
      }
      var _, existed := KeyIndex(key);
      if existed.Some? {
        SlotValue(existed.value, key);
        r := Some(ValueAt(existed.value));
      } else {
        r := None;
      }
    }

    /** Prepends a new entry to bucket `idx` of table 1 or table 0 (dict.go:108-110). */
    method PrependEntry(incoming: bool, idx: nat, e: Entry<K, V>)
      requires Valid() && e.key !in contents
      requires incoming == IsRehashing()
      requires var t := if incoming then t1 else t0; t.size > 0 && idx == hash(e.key) % t.size
      modifies this, (if incoming then t1 else t0), (if incoming then t1 else t0).buckets
      ensures Valid() && SameShape()
      ensures contents == old(contents)[e.key := e.value]
      ensures incoming ==> B0() == old(B0()) && B1() == Prepend(hash, old(B1()), e)
      ensures !incoming ==> B1() == old(B1()) && B0() == Prepend(hash, old(B0()), e)
      ensures Lookup(hash, if incoming then B1() else B0(), e.key) == Some(e.value)
    {
      ghost var b0, b1 := B0(), B1();
      if incoming {
        InvInsert1(hash, b0, b1, t0.size, t1.size, t0.used, t1.used, rehashIndex, contents, e);
      } else {
        InvInsert0(hash, b0, b1, t0.size, t1.size, t0.used, t1.used, rehashIndex, contents, e);
      }
      var ht := if incoming then t1 else t0;
      ht.PrependAt(idx, e);
      contents := contents[e.key := e.value];
      assert incoming ==> B0() == b0 && B1() == Prepend(hash, b1, e);
      assert !incoming ==> B1() == b1 && B0() == Prepend(hash, b0, e);
    }

    /** `loadOrStore` (dict.go:95-113). */
    method LoadOrStore(key: K, value: V) returns (slot: Option<Slot>, loaded: bool)
      requires Valid()
      modifies Repr()
      ensures Valid() && fresh(Repr() - old(Repr()))
      ensures iterators == old(iterators)
      ensures loaded <==> key in old(contents)
      ensures loaded ==> contents == old(contents) && slot.Some? && SlotHolds(slot.value, key)
      ensures !loaded ==> contents == old(contents)[key := value] && slot.None?
      ensures !loaded ==> Lookup(hash, if IsRehashing() then B1() else B0(), key) == Some(value)
      ensures GrewForInsert()
    {
      if IsRehashing() {
        RehashStep();
      }
      var _ := ExpandIfNeeded();
      var idx, existed := KeyIndex(key);
      if existed.Some? {
        return existed, true;
      }
      PrependEntry(IsRehashing(), idx, Entry(key, value));
      return None, false;
    }

    /** Overwrites the value of the entry a slot names (dict.go:77-79). */
    method SetSlotValue(s: Slot, key: K, value: V)
      requires Valid() && SlotHolds(s, key)
      modifies this, (if s.incoming then t1 else t0).buckets
      ensures Valid() && SameShape()
      ensures contents == old(contents)[key := value]
    {
      ghost var b0, b1 := B0(), B1();
      if s.incoming {
        InvSetValue1(hash, b0, b1, t0.size, t1.size, t0.used, t1.used, rehashIndex, contents, s.bucket, s.pos, value);
      } else {
        InvSetValue0(hash, b0, b1, t0.size, t1.size, t0.used, t1.used, rehashIndex, contents, s.bucket, s.pos, value);
      }
      var ht := if s.incoming then t1 else t0;
      ht.OverwriteAt(s.bucket, s.pos, value);
      contents := contents[key := value];
      assert s.incoming ==> B0() == b0 && B1() == SetValue(b1, s.bucket, s.pos, value);
      assert !s.incoming ==> B1() == b1 && B0() == SetValue(b0, s.bucket, s.pos, value);
    }

    /** `Store` (dict.go:75-80): afterwards `key` maps to `value`. */
    method Store(key: K, value: V)
      requires Valid()
      modifies Repr()
      ensures Valid() && fresh(Repr() - old(Repr()))
      ensures contents == old(contents)[key := value] && iterators == old(iterators)
      ensures GrewForInsert()
    {
      var slot, loaded := LoadOrStore(key, value);
      if loaded {
        SetSlotValue(slot.value, key, value);
      }
    }

    /** Unlinks the entry at bucket `idx`, position `pos` of table 1 or table 0 (dict.go:131-138). */
    method UnlinkEntryAt(incoming: bool, idx: nat, pos: nat)
      requires Valid()
      requires var t := if incoming then t1 else t0; idx < t.buckets.Length && pos < |t.buckets[idx]|
      modifies this, (if incoming then t1 else t0), (if incoming then t1 else t0).buckets
      ensures Valid() && SameShape()
      ensures var t := if incoming then old(B1()) else old(B0()); contents == old(contents) - {t[idx][pos].key}
    {
      ghost var b0, b1 := B0(), B1();
      var ht := if incoming then t1 else t0;
      ghost var key := ht.buckets[idx][pos].key;
      if incoming {
        InvUnlink1(hash, b0, b1, t0.size, t1.size, t0.used, t1.used, rehashIndex, contents, idx, pos);
      } else {
        InvUnlink0(hash, b0, b1, t0.size, t1.size, t0.used, t1.used, rehashIndex, contents, idx, pos);
      }
      ht.UnlinkAt(idx, pos);
      contents := contents - {key};
      assert incoming ==> B0() == b0 && B1() == Unlink(b1, idx, pos);
      assert !incoming ==> B1() == b1 && B0() == Unlink(b0, idx, pos);
    }

    /** `Delete` (dict.go:116-147): afterwards `key` is absent. */
    method Delete(key: K)
      requires Valid()
      modifies Repr()
      ensures Valid() && fresh(Repr() - old(Repr()))
      ensures contents == old(contents) - {key} && iterators == old(iterators)
      ensures |old(contents)| == 0 ==> Unmoved()
    {
      var n := Len();
      if n == 0 {
        return;
      }
      StepAndRemove(key);
    }

    /** `Delete` on a non-empty dict (dict.go:120-146): a rehash step, then the table scan. */
    method StepAndRemove(key: K)
      requires Valid() && |contents| > 0
      modifies Repr()
      ensures Valid() && fresh(Repr() - old(Repr()))
      ensures contents == old(contents) - {key} && iterators == old(iterators)
    {
      if IsRehashing() {
        RehashStep();
      }
      RemoveKey(key);
    }

    /**
     * The table scan of `Delete` (dict.go:123-146): the bucket `key` hashes
     * to in table 0, then in table 1 while rehashing; the first entry with
     * that key is unlinked.
     */
    method RemoveKey(key: K)
      requires Valid() && |contents| > 0
      modifies this, t0, t1, t0.buckets, t1.buckets
      ensures Valid() && SameShape()
      ensures contents == old(contents) - {key}
    {
      var h := hash(key);
      assert t0.size > 0 by {
        if !IsRehashing() {
          assert Count(B1()) == 0;
        }
      }
      var i := 0;
      while i < 2
        invariant 0 <= i <= 2
        invariant Valid() && SameShape() && contents == old(contents) && t0.size > 0
        invariant i >= 1 ==> IsRehashing() && Lookup(hash, B0(), key).None?
        invariant i == 2 ==> Lookup(hash, B1(), key).None?
      {
        var ht := if i == 0 then t0 else t1;
        var idx := MaskIndex(ht.size, h);
        var pos := FindInChain(ht.buckets[idx], key);
        if pos.Some? {
          UnlinkEntryAt(i == 1, idx, pos.value);
          return;
        }
        if !IsRehashing() {
          break;
        }
        i := i + 1;
      }
      assert Get(hash, B0(), B1(), key) == MapGet(contents, key);
    }

    /**
     * `expandIfNeeded` (dict.go:150-161): outside a rehash, an empty table 0
     * is resized to 4 buckets and a full one to twice its size; the result
     * of `resizeTo` is passed on.
     */
    method ExpandIfNeeded() returns (err: Outcome<DictError>)
      requires Valid()
      modifies Repr()
      ensures Valid() && fresh(Repr() - old(Repr()))
      ensures contents == old(contents) && iterators == old(iterators)
      ensures t0 == old(t0) && t1 == old(t1)
      ensures IsRehashing() || t0.size > 0
      ensures old(IsRehashing()) ==> err.Pass? && Unmoved()
      ensures !old(IsRehashing()) && old(t0.used) == 0 ==>
        && err.Pass?
        && (old(t0.size) == 0 ==> !IsRehashing() && t0.size == INITIAL_SIZE)
        && (old(t0.size) == INITIAL_SIZE ==> Unmoved())
        && (old(t0.size) > INITIAL_SIZE ==> IsRehashing() && t1.size == INITIAL_SIZE && t0.size == old(t0.size))
      ensures !old(IsRehashing()) && 0 < old(t0.used) == old(t0.size) < MAX_SIZE ==>
        err.Pass? && IsRehashing() && rehashIndex == 0 && t0.size == old(t0.size) && t1.size == 2 * old(t0.size)
      ensures !old(IsRehashing()) && old(t0.used) == old(t0.size) == MAX_SIZE ==>
        err == Fail(ResizeFailed) && Unmoved()
      ensures !old(IsRehashing()) && 0 < old(t0.used) && old(t0.used) != old(t0.size) ==>
        err.Pass? && Unmoved()
    {
      if IsRehashing() {
        return Pass;
      }
      if t0.used == 0 {
        err := ResizeTo(INITIAL_SIZE);
        LeastPow2OfPow2(INITIAL_SIZE);
        return;
      }
      assert t0.size > 0;
      if t0.used == t0.size {
        if t0.size < MAX_SIZE {
          DoubleWithinMax(t0.size);
          LeastPow2OfPow2(2 * t0.size);
        }
        err := ResizeTo((2 * t0.size) % TWO64);
        return;
      }
      return Pass;
    }

    /**
     * `resizeTo` (dict.go:164-183): fails while rehashing or when table 0
     * holds more entries than requested; otherwise rounds the request up
     * with `nextPower` and, unless that is the current size, allocates
     * table 0 (when it has no buckets yet) or table 1 (starting a rehash).
     */
    method ResizeTo(size: nat) returns (err: Outcome<DictError>)
      requires Valid() && size <= MAX_SIZE
      modifies Repr()
      ensures Valid() && fresh(Repr() - old(Repr()))
      ensures contents == old(contents) && iterators == old(iterators)
      ensures t0 == old(t0) && t1 == old(t1)
      ensures err.Fail? <==> old(IsRehashing()) || old(t0.used) > size
      ensures err.Fail? ==> err.error == ResizeFailed
      ensures err.Fail? || LeastPow2(size) == old(t0.size) ==> Unmoved()
      ensures err.Pass? && LeastPow2(size) != old(t0.size) && old(t0.size) == 0 ==>
        !IsRehashing() && t0.size == LeastPow2(size)
      ensures err.Pass? && LeastPow2(size) != old(t0.size) && old(t0.size) != 0 ==>
        IsRehashing() && rehashIndex == 0 && t0.size == old(t0.size) && t1.size == LeastPow2(size)
    {
      if IsRehashing() || t0.used > size {
        return Fail(ResizeFailed);
      }
      var n := NextPower(size);
      if n == t0.size {
        return Pass;
      }
      ghost var b0, b1 := B0(), B1();
      var ht;
      if t0.size == 0 {
        InvAllocate0(hash, b0, b1, t0.size, t1.size, t0.used, t1.used, rehashIndex, contents, n);
        ht := t0;
      } else {
        InvAllocate1(hash, b0, b1, t0.size, t1.size, t0.used, t1.used, rehashIndex, contents, n);
        ht := t1;
        rehashIndex := 0;
      }
      ht.size := n;
      ht.buckets := new Chain<K, V>[n](_ => []);
      assert ht.buckets[..] == EmptyTable(n);
      return Pass;
    }

    /**
     * `Resize` (dict.go:198-207): refused while rehashing, otherwise a
     * `resizeTo` of the entry count, but at least 4; that never fails.
     */
    method Resize() returns (err: Outcome<DictError>)
      requires Valid() && (IsRehashing() || t0.used <= MAX_SIZE)
      modifies Repr()
      ensures Valid() && fresh(Repr() - old(Repr()))
      ensures contents == old(contents) && iterators == old(iterators)
      ensures old(IsRehashing()) ==> err == Fail(DictIsRehashing) && Unmoved()
      ensures !old(IsRehashing()) ==> err.Pass?
      ensures var want := LeastPow2(if old(t0.used) < INITIAL_SIZE then INITIAL_SIZE else old(t0.used));
        !old(IsRehashing()) && want != old(t0.size) && old(t0.size) != 0 ==>
          IsRehashing() && t0.size == old(t0.size) && t1.size == want
      ensures var want := LeastPow2(if old(t0.used) < INITIAL_SIZE then INITIAL_SIZE else old(t0.used));
        !old(IsRehashing()) && want == old(t0.size) ==> Unmoved()
      ensures !old(IsRehashing()) && old(t0.size) == 0 ==> !IsRehashing() && t0.size == INITIAL_SIZE
    {
      if IsRehashing() {
        return Fail(DictIsRehashing);
      }
      var size := t0.used;
      if size < INITIAL_SIZE {
        size := INITIAL_SIZE;
      }
      err := ResizeTo(size);
    }

    /**
     * Moves the chain of bucket `rehashIndex` of table 0 into table 1 and
     * steps past it (dict.go:225-235). Entries are prepended to their new
     * buckets in chain order.
     */
    method MigrateBucket()
      requires Valid() && IsRehashing() && rehashIndex < t0.size
      modifies this, t0, t1, t0.buckets, t1.buckets
      ensures Valid() && IsRehashing()
      ensures t0 == old(t0) && t1 == old(t1) && t0.size == old(t0.size) && t1.size == old(t1.size)
      ensures t0.buckets == old(t0.buckets) && t1.buckets == old(t1.buckets)
      ensures contents == old(contents) && iterators == old(iterators)
      ensures rehashIndex == old(rehashIndex) + 1
      ensures B0() == old(B0())[old(rehashIndex) := []]
      ensures B1() == MoveAll(hash, old(B1()), old(B0())[old(rehashIndex)])
    {
      ghost var b0, b1 := B0(), B1();
      var ri := rehashIndex;
      var c := t0.buckets[ri];
      InvMigrate(hash, b0, b1, t0.size, t1.size, t0.used, t1.used, ri, contents);
      MoveChain(hash, t0, t1, c);
      t0.buckets[ri] := [];
      rehashIndex := ri + 1;
      assert B0() == b0[ri := []];
    }

    /**
     * The scan over empty buckets in `rehash` (dict.go:217-223): the cursor
     * moves past empty buckets of table 0, each costing one unit of the
     * `uint64` budget; the scan gives up when the budget reaches 0, and
     * otherwise stops at a non-empty bucket.
     */
    method SkipEmpty(budget: nat) returns (rest: nat, gaveUp: bool)
      requires Valid() && IsRehashing() && t0.used != 0 && budget < TWO64
      modifies this`rehashIndex
      ensures Valid() && IsRehashing() && rest < TWO64
      ensures rehashIndex >= old(rehashIndex)
      ensures gaveUp ==> rehashIndex > old(rehashIndex) && rest == 0
      ensures !gaveUp ==> rehashIndex < t0.size && |t0.buckets[rehashIndex]| > 0
      ensures forall i :: old(rehashIndex) <= i < rehashIndex ==> t0.buckets[i] == []
      ensures 0 < budget ==> rest <= budget && rehashIndex - old(rehashIndex) == budget - rest
      ensures 0 < budget && !gaveUp ==> 0 < rest
    {
      rest := budget;
      CursorInside(B0(), rehashIndex);
      while |t0.buckets[rehashIndex]| == 0
        invariant Valid() && IsRehashing() && rest < TWO64
        invariant old(rehashIndex) <= rehashIndex < t0.size
        invariant forall i :: old(rehashIndex) <= i < rehashIndex ==> t0.buckets[i] == []
        invariant 0 < budget ==> 0 < rest <= budget && rehashIndex - old(rehashIndex) == budget - rest
        decreases t0.size - rehashIndex
      {
        InvSkip(hash, B0(), B1(), t0.size, t1.size, t0.used, t1.used, rehashIndex, contents);
        rehashIndex := rehashIndex + 1;
        rest := DecU64(rest);
        CursorInside(B0(), rehashIndex);
        if rest == 0 {
          return rest, true;
        }
      }
      return rest, false;
    }

    /** The end of a rehash (dict.go:236-241): table 1 becomes table 0 and a fresh empty table 1 is made. */
    method Promote()
      requires Valid() && IsRehashing() && t0.used == 0
      modifies this
      ensures Valid() && !IsRehashing() && fresh(t1) && fresh(t1.buckets)
      ensures contents == old(contents) && iterators == old(iterators)
      ensures t0 == old(t1) && t0.size == old(t1.size)
    {
      ghost var b1 := B1();
      InvPromote(hash, B0(), b1, t0.size, t1.size, t0.used, t1.used, rehashIndex, contents);
      t0 := t1;
      t1 := new HashTable.Empty();
      rehashIndex := -1;
      assert B0() == b1 && B1() == EmptyTable(0);
    }

    /**
     * One turn of the outer loop of `rehash` (dict.go:216-235): skips empty
     * buckets on the budget, then, unless the budget ran out, migrates the
     * bucket the cursor stopped at. The buckets the cursor has not reached
     * are as they were, and of those it passed exactly one held a chain
     * unless it gave up.
     */
    method RehashRound(budget: nat) returns (rest: nat, gaveUp: bool)
      requires Valid() && IsRehashing() && t0.used != 0 && budget < TWO64
      modifies this, t0, t1, t0.buckets, t1.buckets
      ensures Valid() && IsRehashing() && rest < TWO64
      ensures t0 == old(t0) && t1 == old(t1) && t0.size == old(t0.size) && t1.size == old(t1.size)
      ensures t0.buckets == old(t0.buckets) && t1.buckets == old(t1.buckets)
      ensures contents == old(contents) && iterators == old(iterators)
      ensures old(rehashIndex) < rehashIndex <= t0.size
      ensures forall i :: rehashIndex <= i < t0.size ==> B0()[i] == old(B0())[i]
      ensures Occupied(old(B0()), old(rehashIndex), rehashIndex) == if gaveUp then 0 else 1
      ensures gaveUp ==> rest == 0 && t0.used == old(t0.used)
      ensures 0 < budget ==> rest <= budget && rehashIndex - old(rehashIndex) == budget - rest + (if gaveUp then 0 else 1)
      ensures 0 < budget && !gaveUp ==> 0 < rest
    {
      ghost var b0 := B0();
      rest, gaveUp := SkipEmpty(budget);
      OccupiedSkipsEmpty(b0, old(rehashIndex), old(rehashIndex), rehashIndex);
      if !gaveUp {
        MigrateBucket();
      }
    }

    /**
     * The outer loop of `rehash` (dict.go:214-236): rounds of `RehashRound`
     * on a `uint64` budget of `10 * steps`, until `steps` buckets are
     * migrated, table 0 is drained, or the budget runs out. The buckets of
     * table 0 not yet reached are as they were; at most `steps` of those
     * passed were occupied, and (when `10 * steps` does not wrap) at most
     * `10 * steps` were empty.
     */
    method RehashRounds(steps: nat) returns (gaveUp: bool)
      requires Valid() && IsRehashing() && steps < TWO64
      modifies this, t0, t1, t0.buckets, t1.buckets
      ensures Valid() && IsRehashing()
      ensures contents == old(contents) && iterators == old(iterators)
      ensures t0 == old(t0) && t1 == old(t1) && t0.size == old(t0.size) && t1.size == old(t1.size)
      ensures t0.buckets == old(t0.buckets) && t1.buckets == old(t1.buckets)
      ensures gaveUp ==> t0.used > 0
      ensures old(rehashIndex) <= rehashIndex <= t0.size
      ensures steps > 0 && t0.used != 0 ==> rehashIndex > old(rehashIndex)
      ensures forall i :: rehashIndex <= i < t0.size ==> B0()[i] == old(B0())[i]
      ensures Occupied(old(B0()), old(rehashIndex), rehashIndex) <= steps
      ensures 10 * steps < TWO64 ==>
        rehashIndex - old(rehashIndex) <= Occupied(old(B0()), old(rehashIndex), rehashIndex) + 10 * steps
    {
      ghost var b0, ri0 := B0(), rehashIndex;
      var budget: nat := (10 * steps) % TWO64;
      var left: nat := steps;
      while left > 0 && t0.used != 0
        invariant Valid() && IsRehashing() && budget < TWO64
        invariant contents == old(contents) && iterators == old(iterators)
        invariant t0 == old(t0) && t1 == old(t1) && t0.size == old(t0.size) && t1.size == old(t1.size)
        invariant t0.buckets == old(t0.buckets) && t1.buckets == old(t1.buckets)
        invariant ri0 <= rehashIndex <= t0.size
        invariant left < steps ==> rehashIndex > ri0
        invariant left == steps ==> rehashIndex == ri0
        invariant forall i :: rehashIndex <= i < |b0| ==> B0()[i] == b0[i]
        invariant Occupied(b0, ri0, rehashIndex) == steps - left
        invariant 0 < steps && 10 * steps < TWO64 ==>
          0 < budget && rehashIndex - ri0 == (10 * steps - budget) + (steps - left)
      {
        ghost var ri, bs := rehashIndex, B0();
        budget, gaveUp := RehashRound(budget);
        OccupiedJoin(b0, bs, ri0, ri, rehashIndex);
        if gaveUp {
          return;
        }
        left := left - 1;
      }
      return false;
    }

    /**
     * `rehash` (dict.go:210-244): migrates up to `steps` non-empty buckets,
     * giving up after meeting `10 * steps` empty ones, and promotes table 1
     * to table 0 once table 0 is drained. It reports whether no rehash is
     * left running. The bounds count the buckets of table 0 as they stood:
     * at most `steps` of those the cursor passed were occupied, and (when
     * `10 * steps` does not wrap) at most `10 * steps` were empty.
     */
    method Rehash(steps: nat) returns (finished: bool)
      requires Valid() && steps < TWO64
      modifies Repr()
      ensures Valid() && fresh(Repr() - old(Repr()))
      ensures contents == old(contents) && iterators == old(iterators)
      ensures finished <==> !IsRehashing()
      ensures IsRehashing() ==> t0.used > 0
      ensures !old(IsRehashing()) ==> Unmoved()
      ensures old(IsRehashing()) && IsRehashing() ==>
        && t0 == old(t0) && t1 == old(t1) && t0.size == old(t0.size) && t1.size == old(t1.size)
        && (steps > 0 ==> rehashIndex > old(rehashIndex))
        && old(rehashIndex) <= rehashIndex <= old(t0.size)
        && Occupied(old(B0()), old(rehashIndex), rehashIndex) <= steps
        && (10 * steps < TWO64 ==> rehashIndex - old(rehashIndex) <= Occupied(old(B0()), old(rehashIndex), rehashIndex) + 10 * steps)
      ensures old(IsRehashing()) && !IsRehashing() ==>
        && t0 == old(t1) && t0.size == old(t1.size)
        && Occupied(old(B0()), old(rehashIndex), old(t0.size)) <= steps
    {
      if !IsRehashing() {
        return true;
      }
      ghost var b0, ri0 := B0(), rehashIndex;
      var gaveUp := RehashRounds(steps);
      if gaveUp {
        return false;
      }
      if t0.used == 0 {
        OccupiedDrained(b0, B0(), ri0, rehashIndex);
        Promote();
        return true;
      }
      return false;
    }

    /** A safe iterator registers itself (dict.go:276-277): `iterators++` on a `uint64`. */
    method AddIterator()
      requires Valid()
      modifies this`iterators
      ensures Valid() && iterators == IncU64(old(iterators))
    {
      iterators := IncU64(iterators);
    }

    /** A safe iterator deregisters itself (dict.go:304-305): `iterators--` on a `uint64`. */
    method DropIterator()
      requires Valid()
      modifies this`iterators
      ensures Valid() && iterators == DecU64(old(iterators))
    {
      iterators := DecU64(iterators);
    }

    /** `rehashStep` (dict.go:265-269): one rehash step, unless an iterator is open. */
    method RehashStep()
      requires Valid()
      modifies Repr()
      ensures Valid() && fresh(Repr() - old(Repr()))
      ensures contents == old(contents) && iterators == old(iterators)
      ensures old(iterators) > 0 || !old(IsRehashing()) ==> Unmoved()
      ensures old(iterators) == 0 && old(IsRehashing()) ==>
        !IsRehashing() || rehashIndex > old(rehashIndex)
      ensures old(iterators) == 0 && IsRehashing() ==> t0.used > 0
      ensures old(iterators) == 0 && old(IsRehashing()) && IsRehashing() ==>
        && rehashIndex <= old(t0.size)
        && Occupied(old(B0()), old(rehashIndex), rehashIndex) <= 1
        && rehashIndex - old(rehashIndex) <= Occupied(old(B0()), old(rehashIndex), rehashIndex) + 10
      ensures old(iterators) == 0 && old(IsRehashing()) && !IsRehashing() ==>
        Occupied(old(B0()), old(rehashIndex), old(t0.size)) <= 1
    {
      if iterators == 0 {
        var _ := Rehash(1);
      }
    }

    /**
     * `RehashForAWhile` (dict.go:386-401). The timer is modelled by `ticks`,
     * the number of rounds that start before it fires; each round rehashes
     * up to 100 buckets. It returns early only once the rehash is over.
     */
    method RehashForAWhile(ticks: nat) returns (rehashes: nat)
      requires Valid()
      modifies Repr()
      ensures Valid() && fresh(Repr() - old(Repr()))
      ensures contents == old(contents) && iterators == old(iterators)
      ensures rehashes % 100 == 0 && rehashes <= 100 * ticks
      ensures rehashes < 100 * ticks ==> !IsRehashing()
    {
      rehashes := 0;
      var left: nat := ticks;
      while left > 0
        invariant left <= ticks && rehashes + 100 * left == 100 * ticks && rehashes % 100 == 0
        invariant Valid() && fresh(Repr() - old(Repr()))
        invariant contents == old(contents) && iterators == old(iterators)
      {
        var finished := Rehash(100);
        if finished {
          return;
        }
        rehashes := rehashes + 100;
        left := left - 1;
      }
    }
  }
}
