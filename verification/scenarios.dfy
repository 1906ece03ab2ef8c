/**
 * Runs of the dict taken from its unit tests (dict_test.go), stated as
 * contracts over fresh dicts whose hash function is left open: each holds
 * whatever the hash is.
 */
module Scenarios {
  import opened Wrappers
  import opened Capacity
  import opened HashDict
  import opened Iteration

  /**
   * `TestStore` (dict_test.go:56-76): a stored value loads back, and a
   * second store of the same key overwrites it without adding an entry.
   */
  method StoreOverwrite<K(==,!new), V>(hash: K -> nat, key: K, v1: V, v2: V)
    returns (first: Option<V>, second: Option<V>, lenFirst: nat, lenSecond: nat)
    ensures first == Some(v1) && second == Some(v2)
    ensures lenFirst == lenSecond == 1
  {
    var d := new Dict(hash);
    d.Store(key, v1);
    first := d.Load(key);
    lenFirst := d.Len();
    d.Store(key, v2);
    second := d.Load(key);
    lenSecond := d.Len();
  }

  /**
   * `TestLoadOrStore` (dict_test.go:95-113): the first call stores and
   * reports nothing loaded; the second finds the entry and leaves the first
   * value in it.
   */
  method LoadOrStoreTwice<K(==,!new), V>(hash: K -> nat, key: K, v1: V, v2: V)
    returns (loaded1: bool, loaded2: bool, held: Option<V>)
    ensures !loaded1 && loaded2 && held == Some(v1)
  {
    var d := new Dict(hash);
    var slot;
    slot, loaded1 := d.LoadOrStore(key, v1);
    slot, loaded2 := d.LoadOrStore(key, v2);
    held := None;
    if slot.Some? {
      d.SlotValue(slot.value, key);
      held := Some(d.ValueAt(slot.value));
    }
  }

  /**
   * `TestDelete` (dict_test.go:114-128): deleting one of two keys makes it
   * absent and leaves the other one loadable.
   */
  method DeleteOneOfTwo<K(==,!new), V>(hash: K -> nat, k1: K, k2: K, v1: V, v2: V)
    returns (gone: Option<V>, kept: Option<V>)
    requires k1 != k2
    ensures gone.None? && kept == Some(v2)
  {
    var d := StoreTwo(hash, k1, k2, v1, v2);
    d.Delete(k1);
    gone := d.Load(k1);
    kept := d.Load(k2);
  }

  /** A fresh dict after storing one key. */
  method StoreOne<K(==,!new), V>(hash: K -> nat, k: K, v: V) returns (d: Dict<K, V>)
    ensures d.Valid() && fresh(d.Repr()) && d.contents == map[k := v]
  {
    d := new Dict(hash);
    d.Store(k, v);
  }

  /** A fresh dict after storing two distinct keys. */
  method StoreTwo<K(==,!new), V>(hash: K -> nat, k1: K, k2: K, v1: V, v2: V) returns (d: Dict<K, V>)
    requires k1 != k2
    ensures d.Valid() && fresh(d.Repr()) && d.contents == map[k1 := v1, k2 := v2]
  {
    d := StoreOne(hash, k1, v1);
    d.Store(k2, v2);
  }

  /** `TestLen` (dict_test.go:130-140): 0 entries in a new dict, 2 after two distinct keys. */
  method LenAfterTwoStores<K(==,!new), V>(hash: K -> nat, k1: K, k2: K, v1: V, v2: V)
    returns (before: nat, after: nat)
    requires k1 != k2
    ensures before == 0 && after == 2
  {
    var d := new Dict(hash);
    before := d.Len();
    d.Store(k1, v1);
    d.Store(k2, v2);
    after := d.Len();
  }

  /**
   * `TestCap` (dict_test.go:141-151): a new dict has capacity 0, and two
   * insertions allocate the first 4 buckets.
   */
  method CapAfterTwoStores(hash: string -> nat) returns (before: nat, after: nat)
    ensures before == 0 && after == INITIAL_SIZE
  {
    var d := new Dict<string, string>(hash);
    before := d.Cap();
    d.Store("foo", "bar");
    d.UsedIsLen();
    d.Store("baz", "qux");
    after := d.Cap();
  }

  /** The keys 0 .. n-1 were inserted into a new dict, which still has its first 4 buckets. */
  ghost predicate HoldsFirstKeys<V>(d: Dict<int, V>, n: nat)
    reads d, d.t0, d.t1, d.t0.buckets, d.t1.buckets
  {
    && d.Valid() && !d.IsRehashing() && d.t0.size == INITIAL_SIZE
    && |d.contents| == n && forall j :: j in d.contents ==> 0 <= j < n
  }

  /** A new dict after its first insertion, of the key 0. */
  method FirstKey(hash: int -> nat) returns (d: Dict<int, int>)
    ensures HoldsFirstKeys(d, 1) && fresh(d.Repr()) && d.iterators == 0
  {
    d := new Dict(hash);
    d.Store(0, 0);
    d.UsedIsLen();
  }

  /** Inserting the next key into a table 0 that is not yet full keeps its size. */
  method StoreNextKey(d: Dict<int, int>, n: nat)
    requires HoldsFirstKeys(d, n) && 0 < n < INITIAL_SIZE
    modifies d.Repr()
    ensures HoldsFirstKeys(d, n + 1) && fresh(d.Repr() - old(d.Repr()))
    ensures d.iterators == old(d.iterators)
  {
    d.UsedIsLen();
    d.Store(n, n);
  }

  /**
   * `TestExpandIfNeeded` (dict_test.go:153-161): the fifth distinct key
   * finds table 0 full at 4 entries and starts a rehash into 8 buckets.
   */
  method ExpandAfterFiveStores(hash: int -> nat) returns (d: Dict<int, int>)
    ensures d.Valid() && d.IsRehashing() && d.t0.size == 4 && d.t1.size == 8 && |d.contents| == 5
  {
    d := FirstKey(hash);
    for i := 1 to 4
      invariant HoldsFirstKeys(d, i) && fresh(d.Repr())
    {
      StoreNextKey(d, i);
    }
    d.UsedIsLen();
    d.Store(4, 4);
  }

  /**
   * `TestResizeTo` (dict_test.go:162-176): on an empty dict `resizeTo(8)`
   * allocates table 0 with 8 buckets; `resizeTo(4)` then succeeds, since
   * only the entry count bounds a shrink, and starts a rehash into 4.
   */
  method ResizeUpThenDown(hash: int -> nat) returns (grow: Outcome<DictError>, shrink: Outcome<DictError>, d: Dict<int, int>)
    ensures grow.Pass? && shrink.Pass?
    ensures d.Valid() && d.IsRehashing() && d.t0.size == 8 && d.t1.size == 4
  {
    d := new Dict(hash);
    LeastPow2Examples();
    assert IsPow2(4);
    LeastPow2OfPow2(4);
    d.UsedIsLen();
    grow := d.ResizeTo(8);
    d.UsedIsLen();
    shrink := d.ResizeTo(4);
  }

  /**
   * The loop of `TestIterator` (dict_test.go:231-238): calling `next` on an
   * unsafe iterator until it answers nil hands out as many entries as the
   * dict holds.
   */
  method CountByIterator<K(==,!new), V>(d: Dict<K, V>) returns (count: nat)
    requires d.Valid()
    modifies d`iterators
    ensures count == |d.contents|
  {
    d.EntriesAreContents();
    ghost var walk := d.Entries();
    var it := new Iterator(d, false);
    count := 0;
    var ent := it.Next(walk);
    while ent.Some?
      invariant d.Valid() && it.Valid() && it.d == d && d.Entries() == walk
      invariant it.Pos() == count + (if ent.Some? then 1 else 0) <= |walk|
      invariant ent.None? ==> count == |walk|
      decreases |walk| - count
    {
      count := count + 1;
      ent := it.Next(walk);
    }
  }

  /** `TestIterator` (dict_test.go:225-244): three stored keys, three entries handed out. */
  method IterateThree(hash: int -> nat) returns (count: nat)
    ensures count == 3
  {
    var d := FirstKey(hash);
    StoreNextKey(d, 1);
    StoreNextKey(d, 2);
    count := CountByIterator(d);
  }

  /**
   * The safe half of the iterator finding on a concrete dict: after one
   * insertion, table 0 has 4 buckets and table 1 none, so a complete safe
   * walk as written registers 5 times, and the one `iterators--` of
   * `release` leaves the counter at 4.
   */
  method SafeWalkLeavesCounter(hash: int -> nat) returns (registrations: nat, counter: nat)
    ensures registrations == 5 && counter == 4
  {
    var d := FirstKey(hash);
    registrations := SafeWalkAsWritten(d);
    counter := DecU64(AddU64(d.iterators, registrations));
  }

  /** A fresh unsafe iterator over `d` that has taken its first entry and with it the fingerprint. */
  method StartUnsafe(d: Dict<int, int>) returns (it: Iterator<int, int>)
    requires HoldsFirstKeys(d, 1)
    modifies d`iterators
    ensures fresh(it) && !it.safe && it.d == d && it.fingerprint == d.Fingerprint()
    ensures HoldsFirstKeys(d, 1) && d.Repr() == old(d.Repr()) && d.iterators == old(d.iterators)
  {
    it := new Iterator(d, false);
    var first := it.Next(d.Entries());
  }

  /**
   * An unsafe iterator that has taken its first entry, and with it the
   * fingerprint, after which a new key is stored: storing changes table
   * 0's `used`, so the fingerprint no longer matches.
   */
  method StoreBehindUnsafe(hash: int -> nat) returns (d: Dict<int, int>, it: Iterator<int, int>)
    ensures d.Valid() && !it.safe && it.d == d && d.Fingerprint() != it.fingerprint
    ensures fresh(d) && fresh(it)
  {
    d := FirstKey(hash);
    ghost var repr := d.Repr();
    it := StartUnsafe(d);
    assert it !in repr;
    d.UsedIsLen();
    var before := d.Fingerprint();
    StoreNextKey(d, 1);
    assert it.fingerprint == before && !it.safe && it.d == d;
    d.UsedIsLen();
  }

  /**
   * An unsafe iterator notices a mutation: `release` (dict.go:303-312)
   * reports the store made after `next` took the fingerprint.
   */
  method UnsafeIteratorSeesStore(hash: int -> nat) returns (err: Outcome<IterError>)
    ensures err.Fail?
  {
    var d, it := StoreBehindUnsafe(hash);
    err := it.Release();
  }

  /**
   * The unsafe half of the iterator finding, as written: a store after the
   * first snapshot changes the fingerprint, but the turn of `next` that
   * ends the walk takes the fingerprint again (dict.go:274-281), so
   * `release` (dict.go:306-310) compares the new metadata with itself and
   * reports nothing.
   */
  method UnsafeWalkMissesStore(hash: int -> nat) returns (changed: bool, err: Outcome<IterError>)
    ensures changed && err.Pass?
  {
    var d, it := StoreBehindUnsafe(hash);
    changed := d.Fingerprint() != it.fingerprint;
    it.SnapshotAgainAsWritten();
    err := it.Release();
  }
}
