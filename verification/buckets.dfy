/**
 * A table's bucket array (`hashTable.buckets`, dict.go:27-32) as a sequence of
 * chains, with the bookkeeping facts the dict keeps about it: every entry sits
 * in the bucket its hash selects, `used` counts the entries, and the pair of
 * tables stands for one key-to-value map.
 */
module Buckets {
  import opened Wrappers
  import opened Chains

  type Buckets<K, V> = seq<Chain<K, V>>

  /** The number of entries in all chains: what the table's `used` counter must equal. */
  function Count<K, V>(bs: Buckets<K, V>): nat
  {
    if bs == [] then 0 else Count(bs[..|bs| - 1]) + |bs[|bs| - 1]|
  }

  /** All entries, bucket by bucket in index order and each chain in `next` order. */
  function Flatten<K, V>(bs: Buckets<K, V>): (r: Chain<K, V>)
    ensures |r| == Count(bs)
  {
    if bs == [] then [] else Flatten(bs[..|bs| - 1]) + bs[|bs| - 1]
  }

  /** A table of `n` buckets as `make([]*entry, n)` allocates it: every chain empty. */
  function EmptyTable<K, V>(n: nat): (r: Buckets<K, V>)
    ensures |r| == n && forall i :: 0 <= i < n ==> r[i] == []
  {
    seq(n, _ => [])
  }

  /** Every entry of bucket `i` has a hash whose remainder modulo the size is `i`. */
  ghost predicate Placed<K, V>(hash: K -> nat, bs: Buckets<K, V>)
  {
    forall i, j :: 0 <= i < |bs| && 0 <= j < |bs[i]| ==> hash(bs[i][j].key) % |bs| == i
  }

  ghost predicate WellFormed<K, V>(hash: K -> nat, bs: Buckets<K, V>)
  {
    Placed(hash, bs) && forall i :: 0 <= i < |bs| ==> DistinctKeys(bs[i])
  }

  /** The lookup of one table: the chain of the key's bucket, or nothing in an unallocated table. */
  function Lookup<K(==), V>(hash: K -> nat, bs: Buckets<K, V>, k: K): Option<V>
  {
    if |bs| == 0 then None else Find(bs[hash(k) % |bs|], k)
  }

  /** The lookup across both tables, table 0 first (the order of `keyIndex`). */
  function Get<K(==), V>(hash: K -> nat, b0: Buckets<K, V>, b1: Buckets<K, V>, k: K): Option<V>
  {
    match Lookup(hash, b0, k)
    case Some(v) => Some(v)
    case None => Lookup(hash, b1, k)
  }

  function MapGet<K, V>(m: map<K, V>, k: K): Option<V>
  {
    if k in m then Some(m[k]) else None
  }

  /** The two tables hold disjoint keys and together hold exactly the map `m`. */
  ghost predicate Represents<K(!new), V>(hash: K -> nat, b0: Buckets<K, V>, b1: Buckets<K, V>, m: map<K, V>)
  {
    && (forall k :: Lookup(hash, b0, k).None? || Lookup(hash, b1, k).None?)
    && (forall k :: Get(hash, b0, b1, k) == MapGet(m, k))
  }

  /** All buckets below the rehash cursor `n` are empty. */
  ghost predicate EmptyBelow<K, V>(bs: Buckets<K, V>, n: nat)
  {
    forall i :: 0 <= i < n && i < |bs| ==> bs[i] == []
  }

  // ---------------------------------------------------------------- counting

  lemma {:induction false} CountUpdate<K, V>(bs: Buckets<K, V>, i: nat, c: Chain<K, V>)
    requires i < |bs|
    ensures |bs[i]| <= Count(bs)
    ensures Count(bs[i := c]) == Count(bs) - |bs[i]| + |c|
    decreases |bs|
  {
    var n := |bs| - 1;
    var bs' := bs[i := c];
    if i < n {
      assert bs'[..n] == bs[..n][i := c];
      CountUpdate(bs[..n], i, c);
    } else {
      assert bs'[..n] == bs[..n];
    }
  }

  lemma CountPrefixStep<K, V>(bs: Buckets<K, V>, i: nat)
    requires i < |bs|
    ensures Count(bs[..i + 1]) == Count(bs[..i]) + |bs[i]|
    ensures Flatten(bs[..i + 1]) == Flatten(bs[..i]) + bs[i]
  {
    assert bs[..i + 1][..i] == bs[..i];
  }

  lemma {:induction false} CountEmptyBelow<K, V>(bs: Buckets<K, V>, n: nat)
    requires EmptyBelow(bs, n) && n >= |bs|
    ensures Count(bs) == 0
    decreases |bs|
  {
    if bs != [] {
      CountEmptyBelow(bs[..|bs| - 1], n);
    }
  }

  /** With entries left and every bucket below `n` empty, the cursor `n` is still inside the table. */
  lemma CursorInside<K, V>(bs: Buckets<K, V>, n: nat)
    requires EmptyBelow(bs, n) && Count(bs) > 0
    ensures n < |bs|
  {
    if n >= |bs| {
      CountEmptyBelow(bs, n);
    }
  }

  lemma CountZeroEmpty<K, V>(bs: Buckets<K, V>, i: nat)
    requires Count(bs) == 0 && i < |bs|
    ensures bs[i] == []
  {
    CountUpdate(bs, i, bs[i]);
  }

  lemma {:induction false} CountEmptyTable<K, V>(n: nat)
    ensures Count(EmptyTable<K, V>(n)) == 0
    decreases n
  {
    if n > 0 {
      assert EmptyTable<K, V>(n)[..n - 1] == EmptyTable<K, V>(n - 1);
      CountEmptyTable<K, V>(n - 1);
    }
  }

  /** How many of the buckets `lo .. hi-1` hold a chain: the buckets a rehash over that range migrates. */
  ghost function Occupied<K, V>(bs: Buckets<K, V>, lo: nat, hi: nat): nat
    requires lo <= hi <= |bs|
    decreases hi - lo
  {
    if lo == hi then 0 else Occupied(bs, lo, hi - 1) + (if bs[hi - 1] == [] then 0 else 1)
  }

  /** Counting over `lo .. mid-1` in `bs` and then over `mid .. hi-1` in `cs`, which agrees with `bs` there, counts `lo .. hi-1` of `bs`. */
  lemma {:induction false} OccupiedJoin<K, V>(bs: Buckets<K, V>, cs: Buckets<K, V>, lo: nat, mid: nat, hi: nat)
    requires lo <= mid <= hi <= |bs| && hi <= |cs|
    requires forall i :: mid <= i < hi ==> bs[i] == cs[i]
    ensures Occupied(bs, lo, hi) == Occupied(bs, lo, mid) + Occupied(cs, mid, hi)
    decreases hi - mid
  {
    if mid < hi {
      OccupiedJoin(bs, cs, lo, mid, hi - 1);
    }
  }

  /** Passing empty buckets `mid .. hi-1` adds nothing to the buckets found occupied. */
  lemma {:induction false} OccupiedSkipsEmpty<K, V>(bs: Buckets<K, V>, lo: nat, mid: nat, hi: nat)
    requires lo <= mid <= hi <= |bs|
    requires forall i :: mid <= i < hi ==> bs[i] == []
    ensures Occupied(bs, lo, hi) == Occupied(bs, lo, mid)
    decreases hi - mid
  {
    if mid < hi {
      OccupiedSkipsEmpty(bs, lo, mid, hi - 1);
    }
  }

  /** Once the table `cs` is drained, none of the buckets from `mid` on, where `bs` agrees with it, was occupied. */
  lemma OccupiedDrained<K, V>(bs: Buckets<K, V>, cs: Buckets<K, V>, lo: nat, mid: nat)
    requires lo <= mid <= |bs| == |cs| && Count(cs) == 0
    requires forall i :: mid <= i < |bs| ==> bs[i] == cs[i]
    ensures Occupied(bs, lo, |bs|) == Occupied(bs, lo, mid)
  {
    forall i | mid <= i < |bs|
      ensures bs[i] == []
    {
      CountZeroEmpty(cs, i);
    }
    OccupiedSkipsEmpty(bs, lo, mid, |bs|);
  }

  // ---------------------------------------------------------------- flattening

  lemma {:induction false} FlattenPrefix<K, V>(bs: Buckets<K, V>, n: nat)
    requires n <= |bs|
    ensures Flatten(bs[..n]) <= Flatten(bs)
    decreases |bs|
  {
    if n < |bs| {
      var m := |bs| - 1;
      assert bs[..m][..n] == bs[..n];
      FlattenPrefix(bs[..m], n);
    } else {
      assert bs[..n] == bs;
    }
  }

  /** Entry `p` of bucket `i` is entry `Count(bs[..i]) + p` of the flattened table. */
  lemma FlattenAt<K, V>(bs: Buckets<K, V>, i: nat, p: nat)
    requires i < |bs| && p < |bs[i]|
    ensures Count(bs[..i]) + p < Count(bs)
    ensures Flatten(bs)[Count(bs[..i]) + p] == bs[i][p]
  {
    FlattenPrefix(bs, i + 1);
    CountPrefixStep(bs, i);
  }

  lemma {:induction false} FlattenHas<K, V>(bs: Buckets<K, V>, e: Entry<K, V>)
    ensures e in Flatten(bs) <==> exists i :: 0 <= i < |bs| && e in bs[i]
    decreases |bs|
  {
    if bs != [] {
      var n := |bs| - 1;
      FlattenHas(bs[..n], e);
      if e in Flatten(bs[..n]) {
        var i :| 0 <= i < n && e in bs[..n][i];
        assert e in bs[i];
      }
      if exists i :: 0 <= i < |bs| && e in bs[i] {
        var i :| 0 <= i < |bs| && e in bs[i];
        if i < n {
          assert e in bs[..n][i];
        }
      }
    }
  }

  /** An entry is in a well-formed table exactly when the table's lookup of its key gives its value. */
  lemma FlattenLookup<K, V>(hash: K -> nat, bs: Buckets<K, V>, e: Entry<K, V>)
    requires WellFormed(hash, bs)
    ensures e in Flatten(bs) <==> Lookup(hash, bs, e.key) == Some(e.value)
  {
    FlattenHas(bs, e);
    if e in Flatten(bs) {
      var i :| 0 <= i < |bs| && e in bs[i];
      var j :| 0 <= j < |bs[i]| && bs[i][j] == e;
      FindEntry(bs[i], j);
    }
    if Lookup(hash, bs, e.key) == Some(e.value) {
      var i := hash(e.key) % |bs|;
      var j :| 0 <= j < |bs[i]| && bs[i][j] == Entry(e.key, e.value);
      assert e in bs[i];
    }
  }

  lemma {:induction false} FlattenPrefixDistinct<K, V>(hash: K -> nat, bs: Buckets<K, V>, n: nat)
    requires WellFormed(hash, bs) && 0 < |bs| && n <= |bs|
    ensures DistinctKeys(Flatten(bs[..n]))
    ensures forall e :: e in Flatten(bs[..n]) ==> hash(e.key) % |bs| < n
    decreases n
  {
    if n > 0 {
      var m := n - 1;
      FlattenPrefixDistinct(hash, bs, m);
      CountPrefixStep(bs, m);
      var front: Chain<K, V>, last: Chain<K, V> := Flatten(bs[..m]), bs[m];
      forall x: int, y: int | 0 <= x < y < |front + last|
        ensures (front + last)[x].key != (front + last)[y].key
      {
        if y >= |front| && x < |front| {
          assert front[x] in front;
          assert hash(last[y - |front|].key) % |bs| == m;
        }
      }
      forall e | e in Flatten(bs[..n])
        ensures hash(e.key) % |bs| < n
      {
        if e !in front {
          var j :| 0 <= j < |last| && last[j] == e;
        }
      }
    }
  }

  lemma FlattenDistinct<K, V>(hash: K -> nat, bs: Buckets<K, V>)
    requires WellFormed(hash, bs)
    ensures DistinctKeys(Flatten(bs))
  {
    if |bs| > 0 {
      FlattenPrefixDistinct(hash, bs, |bs|);
      assert bs[..|bs|] == bs;
    }
  }

  // ---------------------------------------------------------------- updates of one table

  /** The chain of `e`'s bucket with `e` linked in front (dict.go:108-109, dict.go:228-229). */
  function Prepend<K, V>(hash: K -> nat, bs: Buckets<K, V>, e: Entry<K, V>): (r: Buckets<K, V>)
    requires |bs| > 0
    ensures |r| == |bs|
  {
    var i := hash(e.key) % |bs|;
    bs[i := [e] + bs[i]]
  }

  /** Linking `e` into its own bucket keeps every entry in the bucket its key hashes to. */
  lemma PrependPlaced<K, V>(hash: K -> nat, bs: Buckets<K, V>, e: Entry<K, V>)
    requires |bs| > 0 && Placed(hash, bs)
    ensures Placed(hash, Prepend(hash, bs, e))
  {
    var i := hash(e.key) % |bs|;
    var r: Buckets<K, V> := Prepend(hash, bs, e);
    forall a: int, b: int | 0 <= a < |r| && 0 <= b < |r[a]|
      ensures hash(r[a][b].key) % |r| == a
    {
      if a == i && b > 0 {
        assert r[a][b] == bs[i][b - 1];
      }
    }
  }

  /** Linking in front an entry whose key the chain lacks keeps the keys of the chain distinct. */
  lemma PrependDistinct<K, V>(e: Entry<K, V>, c: Chain<K, V>)
    requires DistinctKeys(c) && Find(c, e.key).None?
    ensures DistinctKeys([e] + c)
  {
    var r := [e] + c;
    forall a: int, b: int | 0 <= a < b < |r|
      ensures r[a].key != r[b].key
    {
      assert r[b] == c[b - 1];
      if a > 0 {
        assert r[a] == c[a - 1];
      }
    }
  }

  /** Linking `e` in front answers `e`'s value for its key and leaves every other key's lookup alone. */
  lemma PrependLookup<K, V>(hash: K -> nat, bs: Buckets<K, V>, e: Entry<K, V>, k: K)
    requires |bs| > 0
    ensures Lookup(hash, Prepend(hash, bs, e), k) == if k == e.key then Some(e.value) else Lookup(hash, bs, k)
  {
    var i := hash(e.key) % |bs|;
    FindPrepend(e, bs[i], k);
  }

  /** A table stays well formed when an entry of a new key is linked in front of its bucket. */
  lemma PrependWellFormed<K, V>(hash: K -> nat, bs: Buckets<K, V>, e: Entry<K, V>)
    requires |bs| > 0 && WellFormed(hash, bs) && Lookup(hash, bs, e.key).None?
    ensures WellFormed(hash, Prepend(hash, bs, e))
  {
    var i := hash(e.key) % |bs|;
    var r: Buckets<K, V> := Prepend(hash, bs, e);
    PrependPlaced(hash, bs, e);
    PrependDistinct(e, bs[i]);
    forall a | 0 <= a < |r|
      ensures DistinctKeys(r[a])
    {
      if a != i {
        assert r[a] == bs[a];
      }
    }
  }

  lemma PrependNew<K, V>(hash: K -> nat, bs: Buckets<K, V>, e: Entry<K, V>)
    requires |bs| > 0 && WellFormed(hash, bs) && Lookup(hash, bs, e.key).None?
    ensures WellFormed(hash, Prepend(hash, bs, e))
    ensures Count(Prepend(hash, bs, e)) == Count(bs) + 1
    ensures forall k :: Lookup(hash, Prepend(hash, bs, e), k) == if k == e.key then Some(e.value) else Lookup(hash, bs, k)
  {
    var i := hash(e.key) % |bs|;
    CountUpdate(bs, i, [e] + bs[i]);
    PrependWellFormed(hash, bs, e);
    forall k
      ensures Lookup(hash, Prepend(hash, bs, e), k) == if k == e.key then Some(e.value) else Lookup(hash, bs, k)
    {
      PrependLookup(hash, bs, e, k);
    }
  }

  /** Bucket `i` with its entry `j` unlinked (dict.go:129-138). */
  function Unlink<K, V>(bs: Buckets<K, V>, i: nat, j: nat): (r: Buckets<K, V>)
    requires i < |bs| && j < |bs[i]|
    ensures |r| == |bs|
  {
    bs[i := RemoveAt(bs[i], j)]
  }

  lemma UnlinkEntry<K, V>(hash: K -> nat, bs: Buckets<K, V>, i: nat, j: nat)
    requires WellFormed(hash, bs) && i < |bs| && j < |bs[i]|
    ensures WellFormed(hash, Unlink(bs, i, j))
    ensures Count(Unlink(bs, i, j)) == Count(bs) - 1
    ensures forall k :: Lookup(hash, Unlink(bs, i, j), k) == if k == bs[i][j].key then None else Lookup(hash, bs, k)
  {
    var r: Buckets<K, V> := Unlink(bs, i, j);
    var key := bs[i][j].key;
    CountUpdate(bs, i, RemoveAt(bs[i], j));
    forall a: int, b: int | 0 <= a < |r| && 0 <= b < |r[a]|
      ensures hash(r[a][b].key) % |r| == a
    {
      if a == i {
        assert r[a][b] == bs[i][if b < j then b else b + 1];
      }
    }
    FindRemoveAt(bs[i], j, key);
    assert forall a :: 0 <= a < |r| ==> DistinctKeys(r[a]);
    forall k
      ensures Lookup(hash, r, k) == if k == key then None else Lookup(hash, bs, k)
    {
      if hash(k) % |bs| == i {
        FindRemoveAt(bs[i], j, k);
      } else {
        assert k != key;
      }
    }
  }

  /** Bucket `i` with the value of its entry `j` replaced. */
  function SetValue<K, V>(bs: Buckets<K, V>, i: nat, j: nat, v: V): (r: Buckets<K, V>)
    requires i < |bs| && j < |bs[i]|
    ensures |r| == |bs|
  {
    bs[i := SetValueAt(bs[i], j, v)]
  }

  lemma SetValueEntry<K, V>(hash: K -> nat, bs: Buckets<K, V>, i: nat, j: nat, v: V)
    requires WellFormed(hash, bs) && i < |bs| && j < |bs[i]|
    ensures WellFormed(hash, SetValue(bs, i, j, v))
    ensures Count(SetValue(bs, i, j, v)) == Count(bs)
    ensures forall k :: Lookup(hash, SetValue(bs, i, j, v), k) == if k == bs[i][j].key then Some(v) else Lookup(hash, bs, k)
  {
    var r: Buckets<K, V> := SetValue(bs, i, j, v);
    CountUpdate(bs, i, SetValueAt(bs[i], j, v));
    forall a: int, b: int | 0 <= a < |r| && 0 <= b < |r[a]|
      ensures hash(r[a][b].key) % |r| == a
    {
      if a == i && b != j {
        assert r[a][b] == bs[i][b];
      }
    }
    forall k
      ensures Lookup(hash, r, k) == if k == bs[i][j].key then Some(v) else Lookup(hash, bs, k)
    {
      FindSetValueAt(bs[i], j, v, k);
    }
  }

  lemma ClearBucket<K, V>(hash: K -> nat, bs: Buckets<K, V>, i: nat)
    requires WellFormed(hash, bs) && i < |bs|
    ensures WellFormed(hash, bs[i := []])
    ensures Count(bs[i := []]) == Count(bs) - |bs[i]|
    ensures forall k :: Lookup(hash, bs[i := []], k) == if hash(k) % |bs| == i then None else Lookup(hash, bs, k)
  {
    CountUpdate(bs, i, []);
  }

  /** `es` relinked one after the other, each in front of its bucket's chain (dict.go:225-233). */
  function MoveAll<K, V>(hash: K -> nat, bs: Buckets<K, V>, es: Chain<K, V>): (r: Buckets<K, V>)
    requires |bs| > 0
    ensures |r| == |bs|
    decreases |es|
  {
    if es == [] then bs else Prepend(hash, MoveAll(hash, bs, es[..|es| - 1]), es[|es| - 1])
  }

  lemma {:induction false} MoveAllSpec<K, V>(hash: K -> nat, bs: Buckets<K, V>, es: Chain<K, V>)
    requires |bs| > 0 && WellFormed(hash, bs) && DistinctKeys(es)
    requires forall j :: 0 <= j < |es| ==> Lookup(hash, bs, es[j].key).None?
    ensures WellFormed(hash, MoveAll(hash, bs, es))
    ensures Count(MoveAll(hash, bs, es)) == Count(bs) + |es|
    ensures forall k :: Lookup(hash, MoveAll(hash, bs, es), k) == match Find(es, k)
                                                                  case Some(v) => Some(v)
                                                                  case None => Lookup(hash, bs, k)
    decreases |es|
  {
    if es != [] {
      var n := |es| - 1;
      var pre, e := es[..n], es[n];
      assert es == pre + [e];
      MoveAllSpec(hash, bs, pre);
      var mid := MoveAll(hash, bs, pre);
      assert Find(pre, e.key).None?;
      PrependNew(hash, mid, e);
      forall k
        ensures Lookup(hash, MoveAll(hash, bs, es), k) == match Find(es, k)
                                                          case Some(v) => Some(v)
                                                          case None => Lookup(hash, bs, k)
      {
        FindAppend(pre, [e], k);
      }
    }
  }

  lemma EmptyTableFacts<K, V>(hash: K -> nat, n: nat)
    ensures WellFormed(hash, EmptyTable<K, V>(n)) && Count(EmptyTable<K, V>(n)) == 0
    ensures forall k :: Lookup(hash, EmptyTable<K, V>(n), k).None?
  {
    CountEmptyTable<K, V>(n);
  }

  // ---------------------------------------------------------------- the pair of tables

  lemma CountZeroLookup<K, V>(hash: K -> nat, bs: Buckets<K, V>)
    requires Count(bs) == 0
    ensures forall k :: Lookup(hash, bs, k).None?
  {
    forall k | |bs| > 0
      ensures Lookup(hash, bs, k).None?
    {
      CountZeroEmpty(bs, hash(k) % |bs|);
    }
  }

  /** The map after one key's lookup became `o`. */
  function Updated<K(==,!new), V>(m: map<K, V>, key: K, o: Option<V>): (r: map<K, V>)
    ensures MapGet(r, key) == o
    ensures forall k :: k != key ==> MapGet(r, k) == MapGet(m, k)
  {
    match o
    case Some(v) => m[key := v]
    case None => m - {key}
  }

  /**
   * Changing what table 0 holds for one key that table 1 lacks: the pair
   * represents the map updated at that key. Inserting, overwriting and
   * unlinking in table 0 (dict.go:76-79, 101-111, 124-146) are instances.
   */
  lemma RepresentsChange0<K(!new), V>(hash: K -> nat, b0: Buckets<K, V>, b1: Buckets<K, V>, m: map<K, V>,
                                      n0: Buckets<K, V>, key: K, o: Option<V>)
    requires Represents(hash, b0, b1, m) && Lookup(hash, b1, key).None?
    requires forall k :: Lookup(hash, n0, k) == if k == key then o else Lookup(hash, b0, k)
    ensures Represents(hash, n0, b1, Updated(m, key, o))
  {
    forall k
      ensures Get(hash, n0, b1, k) == MapGet(Updated(m, key, o), k)
    {
      assert Get(hash, b0, b1, k) == MapGet(m, k);
    }
  }

  /** The same for table 1, for a key that table 0 lacks. */
  lemma RepresentsChange1<K(!new), V>(hash: K -> nat, b0: Buckets<K, V>, b1: Buckets<K, V>, m: map<K, V>,
                                      n1: Buckets<K, V>, key: K, o: Option<V>)
    requires Represents(hash, b0, b1, m) && Lookup(hash, b0, key).None?
    requires forall k :: Lookup(hash, n1, k) == if k == key then o else Lookup(hash, b1, k)
    ensures Represents(hash, b0, n1, Updated(m, key, o))
  {
    forall k
      ensures Get(hash, b0, n1, k) == MapGet(Updated(m, key, o), k)
    {
      assert Get(hash, b0, b1, k) == MapGet(m, k);
    }
  }

  /** Whichever table holds `key`, the other one does not. */
  lemma RepresentsDisjoint<K(!new), V>(hash: K -> nat, b0: Buckets<K, V>, b1: Buckets<K, V>, m: map<K, V>, key: K)
    requires Represents(hash, b0, b1, m)
    ensures Lookup(hash, b0, key).Some? ==> Lookup(hash, b1, key).None?
    ensures Lookup(hash, b1, key).Some? ==> Lookup(hash, b0, key).None?
    ensures MapGet(m, key) == Get(hash, b0, b1, key)
  {
  }

  /**
   * One rehash step: the chain of source bucket `ri` relinked into table 1 and
   * the bucket emptied (dict.go:225-234) keeps the map and moves `|b0[ri]|`
   * entries from one count to the other.
   */
  lemma RepresentsMigrate<K(!new), V>(hash: K -> nat, b0: Buckets<K, V>, b1: Buckets<K, V>, m: map<K, V>, ri: nat)
    requires WellFormed(hash, b0) && WellFormed(hash, b1) && Represents(hash, b0, b1, m)
    requires ri < |b0| && |b1| > 0
    ensures WellFormed(hash, b0[ri := []]) && Count(b0[ri := []]) == Count(b0) - |b0[ri]|
    ensures WellFormed(hash, MoveAll(hash, b1, b0[ri])) && Count(MoveAll(hash, b1, b0[ri])) == Count(b1) + |b0[ri]|
    ensures Represents(hash, b0[ri := []], MoveAll(hash, b1, b0[ri]), m)
  {
    var es := b0[ri];
    var n0, n1 := b0[ri := []], MoveAll(hash, b1, es);
    forall j | 0 <= j < |es|
      ensures Lookup(hash, b1, es[j].key).None?
    {
      FindEntry(es, j);
      assert Lookup(hash, b0, es[j].key).Some?;
    }
    MoveAllSpec(hash, b1, es);
    ClearBucket(hash, b0, ri);
    forall k
      ensures Lookup(hash, n0, k).None? || Lookup(hash, n1, k).None?
      ensures Get(hash, n0, n1, k) == MapGet(m, k)
    {
      assert Get(hash, b0, b1, k) == MapGet(m, k);
    }
  }

  /** Promotion once table 0 is drained (dict.go:237-240): table 1 alone represents the map. */
  lemma RepresentsPromote<K(!new), V>(hash: K -> nat, b0: Buckets<K, V>, b1: Buckets<K, V>, m: map<K, V>)
    requires Represents(hash, b0, b1, m) && Count(b0) == 0
    ensures Represents(hash, b1, EmptyTable(0), m)
  {
    CountZeroLookup(hash, b0);
    forall k
      ensures Get(hash, b1, EmptyTable(0), k) == MapGet(m, k)
    {
      assert Get(hash, b0, b1, k) == MapGet(m, k);
    }
  }

  /** A table without entries may be replaced by a freshly allocated one (dict.go:172-181). */
  lemma RepresentsReplaceEmpty<K(!new), V>(hash: K -> nat, b0: Buckets<K, V>, b1: Buckets<K, V>, m: map<K, V>,
                                           incoming: bool, n: nat)
    requires Represents(hash, b0, b1, m)
    requires Count(if incoming then b1 else b0) == 0
    ensures incoming ==> Represents(hash, b0, EmptyTable(n), m)
    ensures !incoming ==> Represents(hash, EmptyTable(n), b1, m)
  {
    CountZeroLookup(hash, if incoming then b1 else b0);
    EmptyTableFacts<K, V>(hash, n);
    forall k
      ensures Get(hash, b0, b1, k) == MapGet(m, k)
    {
    }
  }

  // ---------------------------------------------------------------- the iterator's walk

  /** The iterator's order: table 0's buckets, then table 1's while rehashing (dict.go:272-300). */
  function Walk<K, V>(b0: Buckets<K, V>, b1: Buckets<K, V>, rehashing: bool): (r: Chain<K, V>)
  {
    Flatten(b0) + (if rehashing then Flatten(b1) else [])
  }

  /**
   * A walk over an unchanged dict yields every stored entry exactly once:
   * its entries are exactly the pairs of the map, no key appears twice, and
   * its length is the sum of the two `used` counters.
   */
  lemma WalkIsContents<K(!new), V>(hash: K -> nat, b0: Buckets<K, V>, b1: Buckets<K, V>, m: map<K, V>, rehashing: bool)
    requires WellFormed(hash, b0) && WellFormed(hash, b1) && Represents(hash, b0, b1, m)
    requires !rehashing ==> |b1| == 0
    ensures forall e :: e in Walk(b0, b1, rehashing) <==> e.key in m && m[e.key] == e.value
    ensures DistinctKeys(Walk(b0, b1, rehashing))
    ensures |Walk(b0, b1, rehashing)| == Count(b0) + Count(b1)
  {
    var w0, w1 := Flatten(b0), if rehashing then Flatten(b1) else [];
    var w := Walk(b0, b1, rehashing);
    if !rehashing {
      assert Count(b1) == 0;
    }
    forall e
      ensures e in w <==> e.key in m && m[e.key] == e.value
    {
      FlattenLookup(hash, b0, e);
      FlattenLookup(hash, b1, e);
      assert Get(hash, b0, b1, e.key) == MapGet(m, e.key);
    }
    FlattenDistinct(hash, b0);
    FlattenDistinct(hash, b1);
    forall x: int, y: int | 0 <= x < y < |w|
      ensures w[x].key != w[y].key
    {
      if x < |w0| && y >= |w0| {
        var e, f := w0[x], w1[y - |w0|];
        FlattenLookup(hash, b0, e);
        FlattenLookup(hash, b1, f);
      }
    }
  }
}
