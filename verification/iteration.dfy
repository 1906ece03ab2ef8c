/**
 * Iteration over the dict (dict.go:246-312, 315-327, 376-383): a cursor
 * that walks table 0 bucket by bucket and chain by chain, then table 1
 * while a rehash runs, and the `rangeDict` loop built on it.
 */
module Iteration {
  import opened Wrappers
  import opened Capacity
  import opened Chains
  import opened Buckets
  import opened HashDict

  // ---------------------------------------------------------------- the cursor on values

  /** The table a cursor with `tableIndex` `ti` reads. */
  function TableAt<K, V>(b0: Buckets<K, V>, b1: Buckets<K, V>, ti: nat): Buckets<K, V>
  {
    if ti == 0 then b0 else b1
  }

  /**
   * A cursor (`tableIndex`, `bucketIndex`, `entry`) in range: table 1 only
   * while rehashing, the bucket index at most the size, and a current entry
   * (its position in the chain of the bucket before `bucketIndex`) that
   * exists.
   */
  ghost predicate CursorOk<K, V>(b0: Buckets<K, V>, b1: Buckets<K, V>, rehashing: bool,
                                 ti: nat, bi: nat, entry: Option<nat>)
  {
    var bs := TableAt(b0, b1, ti);
    && ti <= 1 && (ti == 1 ==> rehashing)
    && bi <= |bs|
    && (entry.Some? ==> 0 < bi && entry.value < |bs[bi - 1]|)
  }

  /** How many entries of the walk the cursor has handed out. */
  function Visited<K, V>(b0: Buckets<K, V>, b1: Buckets<K, V>, ti: nat, bi: nat, entry: Option<nat>): nat
    requires bi <= |TableAt(b0, b1, ti)| && (entry.Some? ==> 0 < bi)
  {
    var bs := TableAt(b0, b1, ti);
    var done := if entry.Some? then bi - 1 else bi;
    (if ti == 1 then Count(b0) else 0) + Count(bs[..done]) + (if entry.Some? then entry.value + 1 else 0)
  }

  /** Entry `p` of bucket `i` of the table `ti` sits at its place in the walk. */
  lemma WalkAt<K, V>(b0: Buckets<K, V>, b1: Buckets<K, V>, rehashing: bool, ti: nat, i: nat, p: nat)
    requires ti <= 1 && (ti == 1 ==> rehashing)
    requires i < |TableAt(b0, b1, ti)| && p < |TableAt(b0, b1, ti)[i]|
    ensures var bs := TableAt(b0, b1, ti);
      var at := (if ti == 1 then Count(b0) else 0) + Count(bs[..i]) + p;
      at < |Walk(b0, b1, rehashing)| && Walk(b0, b1, rehashing)[at] == bs[i][p]
  {
    FlattenAt(TableAt(b0, b1, ti), i, p);
  }

  /** A cursor never runs past the end of the walk. */
  lemma {:induction false} VisitedBound<K, V>(b0: Buckets<K, V>, b1: Buckets<K, V>, rehashing: bool,
                                              ti: nat, bi: nat, entry: Option<nat>)
    requires CursorOk(b0, b1, rehashing, ti, bi, entry)
    ensures Visited(b0, b1, ti, bi, entry) <= |Walk(b0, b1, rehashing)|
  {
    var bs := TableAt(b0, b1, ti);
    if entry.Some? {
      WalkAt(b0, b1, rehashing, ti, bi - 1, entry.value);
    } else {
      FlattenPrefix(bs, bi);
      assert |Flatten(bs[..bi])| <= |Flatten(bs)|;
    }
  }

  /** Stepping to the next entry of the same chain hands out the next entry of the walk. */
  lemma StepInChain<K, V>(b0: Buckets<K, V>, b1: Buckets<K, V>, rehashing: bool, ti: nat, bi: nat, p: nat)
    requires CursorOk(b0, b1, rehashing, ti, bi, Some(p)) && p + 1 < |TableAt(b0, b1, ti)[bi - 1]|
    ensures CursorOk(b0, b1, rehashing, ti, bi, Some(p + 1))
    ensures Visited(b0, b1, ti, bi, Some(p + 1)) == Visited(b0, b1, ti, bi, Some(p)) + 1
    ensures Visited(b0, b1, ti, bi, Some(p)) < |Walk(b0, b1, rehashing)|
    ensures Walk(b0, b1, rehashing)[Visited(b0, b1, ti, bi, Some(p))] == TableAt(b0, b1, ti)[bi - 1][p + 1]
  {
    WalkAt(b0, b1, rehashing, ti, bi - 1, p + 1);
  }

  /** Leaving a chain at its end hands out nothing. */
  lemma EndOfChain<K, V>(b0: Buckets<K, V>, b1: Buckets<K, V>, rehashing: bool, ti: nat, bi: nat, p: nat)
    requires CursorOk(b0, b1, rehashing, ti, bi, Some(p)) && p + 1 == |TableAt(b0, b1, ti)[bi - 1]|
    ensures CursorOk(b0, b1, rehashing, ti, bi, None)
    ensures Visited(b0, b1, ti, bi, None) == Visited(b0, b1, ti, bi, Some(p))
  {
    CountPrefixStep(TableAt(b0, b1, ti), bi - 1);
    assert TableAt(b0, b1, ti)[..bi - 1 + 1] == TableAt(b0, b1, ti)[..bi];
  }

  /**
   * Entering bucket `bi`: an empty bucket hands out nothing, a non-empty one
   * hands out its first entry, the next entry of the walk.
   */
  lemma EnterBucket<K, V>(b0: Buckets<K, V>, b1: Buckets<K, V>, rehashing: bool, ti: nat, bi: nat)
    requires CursorOk(b0, b1, rehashing, ti, bi, None) && bi < |TableAt(b0, b1, ti)|
    ensures TableAt(b0, b1, ti)[bi] == [] ==>
      && CursorOk(b0, b1, rehashing, ti, bi + 1, None)
      && Visited(b0, b1, ti, bi + 1, None) == Visited(b0, b1, ti, bi, None)
    ensures TableAt(b0, b1, ti)[bi] != [] ==>
      && CursorOk(b0, b1, rehashing, ti, bi + 1, Some(0))
      && Visited(b0, b1, ti, bi + 1, Some(0)) == Visited(b0, b1, ti, bi, None) + 1
      && Visited(b0, b1, ti, bi, None) < |Walk(b0, b1, rehashing)|
      && Walk(b0, b1, rehashing)[Visited(b0, b1, ti, bi, None)] == TableAt(b0, b1, ti)[bi][0]
  {
    var bs := TableAt(b0, b1, ti);
    CountPrefixStep(bs, bi);
    if bs[bi] != [] {
      WalkAt(b0, b1, rehashing, ti, bi, 0);
    }
  }

  /** Moving from the end of table 0 to the start of table 1 hands out nothing. */
  lemma SwitchTable<K, V>(b0: Buckets<K, V>, b1: Buckets<K, V>, rehashing: bool)
    requires CursorOk(b0, b1, rehashing, 0, |b0|, None) && rehashing
    ensures CursorOk(b0, b1, rehashing, 1, 0, None)
    ensures Visited(b0, b1, 1, 0, None) == Visited(b0, b1, 0, |b0|, None)
  {
    assert b0[..|b0|] == b0;
  }

  /** A cursor past the last bucket of the last table has handed out the whole walk. */
  lemma WalkDone<K, V>(b0: Buckets<K, V>, b1: Buckets<K, V>, rehashing: bool, ti: nat)
    requires CursorOk(b0, b1, rehashing, ti, |TableAt(b0, b1, ti)|, None)
    requires ti == 1 || !rehashing
    ensures Visited(b0, b1, ti, |TableAt(b0, b1, ti)|, None) == |Walk(b0, b1, rehashing)|
  {
    var bs := TableAt(b0, b1, ti);
    assert bs[..|bs|] == bs;
  }

  /** How many buckets a cursor has taken out of the tables: `it.entry = ht.buckets[it.bucketIndex]` runs (dict.go:291). */
  function Fetched<K, V>(b0: Buckets<K, V>, ti: nat, bi: nat): nat
  {
    (if ti == 1 then |b0| else 0) + bi
  }

  // ---------------------------------------------------------------- the iterator

  /** `release` of an unsafe iterator panics when the dict changed under it (dict.go:306-310). */
  datatype IterError = FingerprintChanged

  /**
   * `iterator` (dict.go:246-254). `entry` is the position, in the chain of
   * bucket `bucketIndex - 1` of table `tableIndex`, of the entry last handed
   * out, or `None` between buckets.
   */
  class Iterator<K(==,!new), V> {
    const d: Dict<K, V>
    const safe: bool
    var tableIndex: nat
    var bucketIndex: nat
    var entry: Option<nat>
    var fingerprint: Metas
    var waitFirstIteration: bool

    /** The cursor lies inside the tables of `d`; a fresh iterator sits at the start. */
    ghost predicate Valid()
      reads this`tableIndex, this`bucketIndex, this`entry, this`waitFirstIteration
      reads d`t0, d`t1, d`rehashIndex, d.t0, d.t1, d.t0.buckets, d.t1.buckets
    {
      && CursorOk(d.B0(), d.B1(), d.rehashIndex >= 0, tableIndex, bucketIndex, entry)
      && (waitFirstIteration ==> tableIndex == 0 && bucketIndex == 0 && entry.None?)
    }

    /** How many entries of `d.Entries()` the iterator has handed out. */
    ghost function Pos(): nat
      requires Valid()
      reads this`tableIndex, this`bucketIndex, this`entry, this`waitFirstIteration
      reads d`t0, d`t1, d`rehashIndex, d.t0, d.t1, d.t0.buckets, d.t1.buckets
    {
      Visited(d.B0(), d.B1(), tableIndex, bucketIndex, entry)
    }

    /** `newIterator` (dict.go:256-262): at the start of table 0, waiting for its first step. */
    constructor (d: Dict<K, V>, safe: bool)
      requires d.Valid()
      ensures d.Valid() && Valid() && this.d == d && this.safe == safe
      ensures waitFirstIteration && Pos() == 0
    {
      this.d := d;
      this.safe := safe;
      tableIndex, bucketIndex, entry := 0, 0, None;
      fingerprint := Metas(null, 0, 0, null, 0, 0);
      waitFirstIteration := true;
    }

    /**
     * The first-step bookkeeping of `next` (dict.go:274-281), with the flag
     * cleared once used (see Findings in the README): a safe iterator
     * registers itself in `d.iterators`, an unsafe one records the
     * fingerprint.
     */
    method FirstStep()
      requires d.Valid() && Valid() && waitFirstIteration
      modifies this`fingerprint, this`waitFirstIteration, d`iterators
      ensures d.Valid() && Valid() && !waitFirstIteration
      ensures safe ==> d.iterators == IncU64(old(d.iterators)) && fingerprint == old(fingerprint)
      ensures !safe ==> d.iterators == old(d.iterators) && fingerprint == d.Fingerprint()
    {
      if safe {
        d.AddIterator();
      } else {
        fingerprint := d.Fingerprint();
      }
      waitFirstIteration := false;
    }

    /**
     * One turn of the loop in `next` (dict.go:273-299) on a cursor held in
     * locals: step along the current chain, or enter the next bucket, or
     * move from the end of table 0 to table 1 while rehashing. It stops at
     * an entry or at the end of the walk, and otherwise makes progress.
     */
    method Step(ghost b0: Buckets<K, V>, ghost b1: Buckets<K, V>, ghost rehashing: bool, ti: nat, bi: nat, e: Option<nat>)
      returns (ti': nat, bi': nat, e': Option<nat>, stop: bool)
      requires d.Shaped() && b0 == d.B0() && b1 == d.B1() && rehashing == d.IsRehashing()
      requires CursorOk(b0, b1, rehashing, ti, bi, e)
      ensures CursorOk(b0, b1, rehashing, ti', bi', e')
      ensures e'.Some? ==>
        && stop
        && Visited(b0, b1, ti', bi', e') == Visited(b0, b1, ti, bi, e) + 1
        && Visited(b0, b1, ti, bi, e) < |Walk(b0, b1, rehashing)|
        && Walk(b0, b1, rehashing)[Visited(b0, b1, ti, bi, e)] == TableAt(b0, b1, ti')[bi' - 1][e'.value]
      ensures e'.None? ==> Visited(b0, b1, ti', bi', e') == Visited(b0, b1, ti, bi, e)
      ensures e'.None? && stop ==> Visited(b0, b1, ti, bi, e) == |Walk(b0, b1, rehashing)|
      ensures ti' > ti || (ti' == ti && bi' >= bi)
      ensures e.Some? ==> ti' == ti && bi' == bi && (stop <==> e'.Some?)
      ensures e.None? && e'.None? && stop ==> ti' == ti && bi' == bi && Fetched(b0, ti, bi) == |b0| + (if rehashing then |b1| else 0)
      ensures e.None? && !(e'.None? && stop) ==> Fetched(b0, ti', bi') == Fetched(b0, ti, bi) + 1
      ensures !stop ==> ti' > ti || (ti' == ti && bi' > bi) || (ti' == ti && bi' == bi && e.Some? && e'.None?)
    {
      if e.None? {
        ti', bi', e', stop := EnterBucketAt(b0, b1, rehashing, ti, bi);
      } else {
        ti', bi' := ti, bi;
        e' := FollowChain(b0, b1, rehashing, ti, bi, e.value);
        stop := e'.Some?;
      }
    }

    /**
     * A turn of `next` without a current entry (dict.go:274-292): past the
     * last bucket it ends the walk or moves to table 1, then takes the
     * chain of the next bucket.
     */
    method EnterBucketAt(ghost b0: Buckets<K, V>, ghost b1: Buckets<K, V>, ghost rehashing: bool, ti: nat, bi: nat)
      returns (ti': nat, bi': nat, e': Option<nat>, stop: bool)
      requires d.Shaped() && b0 == d.B0() && b1 == d.B1() && rehashing == d.IsRehashing()
      requires CursorOk(b0, b1, rehashing, ti, bi, None)
      ensures CursorOk(b0, b1, rehashing, ti', bi', e') && (e'.Some? ==> stop)
      ensures e'.Some? ==>
        && Visited(b0, b1, ti', bi', e') == Visited(b0, b1, ti, bi, None) + 1
        && Visited(b0, b1, ti, bi, None) < |Walk(b0, b1, rehashing)|
        && Walk(b0, b1, rehashing)[Visited(b0, b1, ti, bi, None)] == TableAt(b0, b1, ti')[bi' - 1][e'.value]
      ensures e'.None? ==> Visited(b0, b1, ti', bi', e') == Visited(b0, b1, ti, bi, None)
      ensures e'.None? && stop ==> Visited(b0, b1, ti, bi, None) == |Walk(b0, b1, rehashing)|
      ensures e'.None? && stop ==> ti' == ti && bi' == bi && Fetched(b0, ti, bi) == |b0| + (if rehashing then |b1| else 0)
      ensures !(e'.None? && stop) ==> Fetched(b0, ti', bi') == Fetched(b0, ti, bi) + 1
      ensures ti' > ti || (ti' == ti && bi' >= bi)
      ensures !stop ==> ti' > ti || (ti' == ti && bi' > bi)
    {
      ti', bi', e' := ti, bi, None;
      var ht := if ti == 0 then d.t0 else d.t1;
      if bi >= ht.size {
        if !d.IsRehashing() || ti != 0 {
          WalkDone(b0, b1, rehashing, ti);
          return ti', bi', e', true;
        }
        SwitchTable(b0, b1, rehashing);
        ti', bi' := 1, 0;
        ht := d.t1;
      }
      EnterBucket(b0, b1, rehashing, ti', bi');
      e' := if ht.buckets[bi'] == [] then None else Some(0);
      bi' := bi' + 1;
      stop := e'.Some?;
    }

    /** A turn of `next` with a current entry (dict.go:293-295): `it.entry = it.entry.next`. */
    method FollowChain(ghost b0: Buckets<K, V>, ghost b1: Buckets<K, V>, ghost rehashing: bool, ti: nat, bi: nat, p: nat)
      returns (e': Option<nat>)
      requires d.Shaped() && b0 == d.B0() && b1 == d.B1()
      requires CursorOk(b0, b1, rehashing, ti, bi, Some(p))
      ensures CursorOk(b0, b1, rehashing, ti, bi, e')
      ensures e'.Some? ==>
        && Visited(b0, b1, ti, bi, e') == Visited(b0, b1, ti, bi, Some(p)) + 1
        && Visited(b0, b1, ti, bi, Some(p)) < |Walk(b0, b1, rehashing)|
        && Walk(b0, b1, rehashing)[Visited(b0, b1, ti, bi, Some(p))] == TableAt(b0, b1, ti)[bi - 1][e'.value]
      ensures e'.None? ==> Visited(b0, b1, ti, bi, e') == Visited(b0, b1, ti, bi, Some(p))
    {
      var ht := if ti == 0 then d.t0 else d.t1;
      if p + 1 < |ht.buckets[bi - 1]| {
        StepInChain(b0, b1, rehashing, ti, bi, p);
        e' := Some(p + 1);
      } else {
        EndOfChain(b0, b1, rehashing, ti, bi, p);
        e' := None;
      }
    }

    /**
     * The walk of `next` (dict.go:273-299): turns of the loop until one
     * reaches an entry or the end of the walk; the cursor moves in locals
     * and is stored back when the walk stops.
     */
    method Advance(ghost walk: Chain<K, V>) returns (r: Option<Entry<K, V>>)
      requires d.Shaped() && Valid() && !waitFirstIteration && walk == d.Entries()
      modifies this`tableIndex, this`bucketIndex, this`entry
      ensures Valid()
      ensures old(Pos()) < |walk| ==> r == Some(walk[old(Pos())]) && Pos() == old(Pos()) + 1
      ensures old(Pos()) >= |walk| ==> r.None? && Pos() == old(Pos())
    {
      ghost var b0, b1, rehashing := d.B0(), d.B1(), d.IsRehashing();
      assert walk == Walk(b0, b1, rehashing);
      var ti, bi, e := Seek(b0, b1, rehashing, tableIndex, bucketIndex, entry);
      tableIndex, bucketIndex, entry := ti, bi, e;
      assert d.B0() == b0 && d.B1() == b1 && (d.rehashIndex >= 0) == rehashing;
      if e.Some? {
        var ht := if ti == 0 then d.t0 else d.t1;
        return Some(ht.buckets[bi - 1][e.value]);
      }
      return None;
    }

    /**
     * The loop of `next` (dict.go:273-299) on a cursor held in locals:
     * turns until one reaches an entry or the end of the walk.
     */
    method Seek(ghost b0: Buckets<K, V>, ghost b1: Buckets<K, V>, ghost rehashing: bool, ti: nat, bi: nat, e: Option<nat>)
      returns (ti': nat, bi': nat, e': Option<nat>)
      requires d.Shaped() && b0 == d.B0() && b1 == d.B1() && rehashing == d.IsRehashing()
      requires CursorOk(b0, b1, rehashing, ti, bi, e)
      ensures CursorOk(b0, b1, rehashing, ti', bi', e')
      ensures e'.Some? ==>
        && Visited(b0, b1, ti', bi', e') == Visited(b0, b1, ti, bi, e) + 1
        && Visited(b0, b1, ti, bi, e) < |Walk(b0, b1, rehashing)|
        && Walk(b0, b1, rehashing)[Visited(b0, b1, ti, bi, e)] == TableAt(b0, b1, ti')[bi' - 1][e'.value]
      ensures e'.None? ==> Visited(b0, b1, ti', bi', e') == Visited(b0, b1, ti, bi, e) == |Walk(b0, b1, rehashing)|
    {
      ghost var walk := Walk(b0, b1, rehashing);
      ghost var start := Visited(b0, b1, ti, bi, e);
      ti', bi', e' := ti, bi, e;
      var stop := false;
      while !stop
        invariant CursorOk(b0, b1, rehashing, ti', bi', e')
        invariant !stop ==> Visited(b0, b1, ti', bi', e') == start
        invariant stop && e'.Some? ==>
          && Visited(b0, b1, ti', bi', e') == start + 1 && start < |walk|
          && walk[start] == TableAt(b0, b1, ti')[bi' - 1][e'.value]
        invariant stop && e'.None? ==> Visited(b0, b1, ti', bi', e') == start == |walk|
        decreases 1 - ti', |TableAt(b0, b1, ti')| - bi', if stop then 0 else if e'.Some? then 2 else 1
      {
        ti', bi', e', stop := Step(b0, b1, rehashing, ti', bi', e');
      }
    }

    /**
     * `next` (dict.go:272-300): hands out the next entry of the walk, or
     * `None` at its end. The first-step bookkeeping runs while the entry is
     * nil and the flag is set, which with the flag cleared is the first call
     * only.
     */
    method Next(ghost walk: Chain<K, V>) returns (r: Option<Entry<K, V>>)
      requires d.Valid() && Valid() && walk == d.Entries()
      modifies this, d`iterators
      ensures d.Valid() && Valid() && !waitFirstIteration && d.Entries() == walk
      ensures old(Pos()) < |walk| ==> r == Some(walk[old(Pos())]) && Pos() == old(Pos()) + 1
      ensures old(Pos()) >= |walk| ==> r.None? && Pos() == old(Pos())
      ensures safe ==> d.iterators == (if old(waitFirstIteration) then IncU64(old(d.iterators)) else old(d.iterators))
      ensures !safe ==> d.iterators == old(d.iterators)
      ensures !safe ==> fingerprint == (if old(waitFirstIteration) then d.Fingerprint() else old(fingerprint))
    {
      ghost var p := Pos();
      if waitFirstIteration {
        FirstStep();
      }
      assert Pos() == p && d.Entries() == walk;
      d.ValidIsShaped();
      r := Advance(walk);
    }

    /**
     * The unsafe branch of the first-step block of `next` as written
     * (dict.go:274-281) on a turn that starts without an entry. Nothing
     * clears `waitFirstInteration`, so the block runs again on every such
     * turn, the one that ends the walk included, and the fingerprint is
     * taken afresh each time.
     */
    method SnapshotAgainAsWritten()
      requires !safe && d.Valid()
      modifies this`fingerprint
      ensures fingerprint == d.Fingerprint() && d.iterators == old(d.iterators)
    {
      fingerprint := d.Fingerprint();
    }

    /**
     * `release` (dict.go:303-312): a safe iterator deregisters itself; an
     * unsafe one fails when the fingerprint differs from the one it recorded.
     */
    method Release() returns (err: Outcome<IterError>)
      requires d.Valid()
      modifies d`iterators
      ensures d.Valid() && d.Entries() == old(d.Entries())
      ensures safe ==> err.Pass? && d.iterators == DecU64(old(d.iterators))
      ensures !safe ==> d.iterators == old(d.iterators)
      ensures !safe ==> (err.Fail? <==> d.Fingerprint() != fingerprint)
    {
      if safe {
        d.DropIterator();
        return Pass;
      }
      var fp := d.Fingerprint();
      if fp != fingerprint {
        return Fail(FingerprintChanged);
      }
      return Pass;
    }
  }

  // ---------------------------------------------------------------- the first step as written

  /**
   * A complete walk with a safe iterator as dict.go:272-300 is written (see
   * Findings in the README). Nothing clears `waitFirstInteration`, so the
   * first-step block (dict.go:274-281) runs on every turn of the loop that
   * starts without a current entry; `registrations` counts the times it
   * executes `it.d.iterators++`: once for each bucket the walk takes and
   * once more for the turn that ends the walk. The cursor is held in
   * locals, and the turns of all the calls of `next` form one loop because
   * `next` keeps no other state between calls.
   */
  method SafeWalkAsWritten<K(==,!new), V>(d: Dict<K, V>) returns (registrations: nat)
    requires d.Valid()
    ensures registrations == d.t0.size + d.t1.size + 1
  {
    var it := new Iterator(d, true);
    d.ValidIsShaped();
    ghost var b0, b1, rehashing := d.B0(), d.B1(), d.IsRehashing();
    ghost var total := |b0| + (if rehashing then |b1| else 0);
    var ti: nat, bi: nat, e: Option<nat> := 0, 0, None;
    var done := false;
    registrations := 0;
    while !done
      invariant it.waitFirstIteration && CursorOk(b0, b1, rehashing, ti, bi, e)
      invariant Visited(b0, b1, ti, bi, e) <= |Walk(b0, b1, rehashing)| && Fetched(b0, ti, bi) <= total
      invariant registrations == Fetched(b0, ti, bi) + (if done then 1 else 0)
      invariant done ==> Fetched(b0, ti, bi) == total
      decreases |Walk(b0, b1, rehashing)| - Visited(b0, b1, ti, bi, e), total - Fetched(b0, ti, bi),
        if done then 0 else if e.Some? then 2 else 1
    {
      if e.None? && it.waitFirstIteration {
        registrations := registrations + 1;
      }
      var stop;
      ti, bi, e, stop := it.Step(b0, b1, rehashing, ti, bi, e);
      VisitedBound(b0, b1, rehashing, ti, bi, e);
      done := e.None? && stop;
    }
  }

  /**
   * The unsafe counterpart of `SafeWalkAsWritten`: a complete walk with an
   * unsafe iterator, where every turn that starts without a current entry
   * runs the unsafe branch of the first-step block and takes the
   * fingerprint again (`SnapshotAgainAsWritten`). `snapshots` counts those
   * turns: one per bucket taken and one for the turn that ends the walk,
   * and `last` is the fingerprint the iterator holds once the walk is over,
   * which is the dict's metadata as it stands at the end.
   */
  method UnsafeWalkAsWritten<K(==,!new), V>(d: Dict<K, V>) returns (snapshots: nat, last: Metas)
    requires d.Valid()
    ensures snapshots == d.t0.size + d.t1.size + 1 && last == d.Fingerprint()
  {
    var it := new Iterator(d, false);
    d.ValidIsShaped();
    ghost var b0, b1, rehashing := d.B0(), d.B1(), d.IsRehashing();
    ghost var total := |b0| + (if rehashing then |b1| else 0);
    var ti: nat, bi: nat, e: Option<nat> := 0, 0, None;
    var done, endTurn := false, false;
    snapshots := 0;
    while !done
      invariant it.d == d && !it.safe && CursorOk(b0, b1, rehashing, ti, bi, e)
      invariant Visited(b0, b1, ti, bi, e) <= |Walk(b0, b1, rehashing)| && Fetched(b0, ti, bi) <= total
      invariant snapshots == Fetched(b0, ti, bi) + (if done then 1 else 0)
      invariant done ==> Fetched(b0, ti, bi) == total && it.fingerprint == d.Fingerprint()
      decreases |Walk(b0, b1, rehashing)| - Visited(b0, b1, ti, bi, e), total - Fetched(b0, ti, bi),
        if done then 0 else if e.Some? then 2 else 1
    {
      if e.None? {
        it.SnapshotAgainAsWritten();
        snapshots := snapshots + 1;
      }
      var stop;
      ti, bi, e, stop := it.Step(b0, b1, rehashing, ti, bi, e);
      VisitedBound(b0, b1, rehashing, ti, bi, e);
      done := e.None? && stop;
    }
    last := it.fingerprint;
  }

  // ---------------------------------------------------------------- ranging

  /**
   * What `rangeDict` has done after handing out `visited`: a prefix of the
   * walk, `fn` answered true on all of it except possibly the last entry,
   * and it stopped early (`more` false short of the end) only on a false.
   */
  ghost predicate Ranged<K, V>(fn: (K, V) -> bool, walk: Chain<K, V>, visited: Chain<K, V>, more: bool)
  {
    && |visited| <= |walk| && visited == walk[..|visited|]
    && (forall i :: 0 <= i < |visited| - 1 ==> fn(visited[i].key, visited[i].value))
    && (more && |visited| > 0 ==> fn(visited[|visited| - 1].key, visited[|visited| - 1].value))
    && (!more && |visited| < |walk| ==> |visited| > 0 && !fn(visited[|visited| - 1].key, visited[|visited| - 1].value))
  }

  /** Handing the next entry of the walk to `fn` keeps `Ranged`. */
  lemma RangedStep<K, V>(fn: (K, V) -> bool, walk: Chain<K, V>, visited: Chain<K, V>)
    requires Ranged(fn, walk, visited, true) && |visited| < |walk|
    ensures var e := walk[|visited|];
      Ranged(fn, walk, visited + [e], fn(e.key, e.value))
  {
    var e := walk[|visited|];
    assert visited + [e] == walk[..|visited| + 1];
  }

  /** Reaching the end of the walk keeps `Ranged` with the loop stopped. */
  lemma RangedEnd<K, V>(fn: (K, V) -> bool, walk: Chain<K, V>, visited: Chain<K, V>)
    requires Ranged(fn, walk, visited, true) && |visited| >= |walk|
    ensures Ranged(fn, walk, visited, false) && visited == walk
  {
  }

  /**
   * The loop of `rangeDict` (dict.go:318-326) once the iterator has
   * registered: `ent` is the entry the last `next` answered, and each turn
   * hands it to `fn` and, while `fn` answers true, asks for the next one.
   * With the first-step flag cleared `next` is the cursor walk alone.
   */
  method Drain<K(==,!new), V>(it: Iterator<K, V>, fn: (K, V) -> bool, ghost walk: Chain<K, V>, ent: Option<Entry<K, V>>)
    returns (visited: Chain<K, V>)
    requires it.d.Shaped() && it.Valid() && !it.waitFirstIteration && it.d.Entries() == walk
    requires ent.Some? ==> it.Pos() == 1 && 0 < |walk| && ent.value == walk[0]
    requires ent.None? ==> |walk| == 0
    modifies it`tableIndex, it`bucketIndex, it`entry
    ensures it.Valid() && Ranged(fn, walk, visited, false)
  {
    visited := [];
    var e := ent;
    var more := true;
    while more && e.Some?
      invariant it.Valid() && Ranged(fn, walk, visited, more)
      invariant more && e.Some? ==> it.Pos() == |visited| + 1 && |visited| < |walk| && e.value == walk[|visited|]
      invariant more && e.None? ==> |visited| >= |walk|
      decreases |walk| - |visited|
    {
      RangedStep(fn, walk, visited);
      visited := visited + [e.value];
      more := fn(e.value.key, e.value.value);
      if more {
        e := it.Advance(walk);
      }
    }
    if more {
      RangedEnd(fn, walk, visited);
    }
  }

  /**
   * The body of `rangeDict` (dict.go:316-326) before the release: the first
   * `next` registers the iterator, and the rest of the walk is drained.
   */
  method Feed<K(==,!new), V>(d: Dict<K, V>, it: Iterator<K, V>, fn: (K, V) -> bool, ghost walk: Chain<K, V>)
    returns (visited: Chain<K, V>)
    requires d.Valid() && it.Valid() && it.d == d && it.waitFirstIteration && d.Entries() == walk
    modifies it, d`iterators
    ensures d.Valid() && it.Valid() && d.Entries() == walk && !it.waitFirstIteration
    ensures Ranged(fn, walk, visited, false)
    ensures it.safe ==> d.iterators == IncU64(old(d.iterators))
    ensures !it.safe ==> d.iterators == old(d.iterators) && it.fingerprint == d.Fingerprint()
  {
    var ent := it.Next(walk);
    d.ValidIsShaped();
    visited := Drain(it, fn, walk, ent);
  }

  /**
   * `rangeDict` (dict.go:315-327): hands the entries of the walk to `fn` in
   * order until `fn` answers false or the walk ends, then releases the
   * iterator. `visited` is what `fn` was called on; the callback does not
   * touch the dict.
   */
  method RangeDict<K(==,!new), V>(d: Dict<K, V>, fn: (K, V) -> bool, safe: bool)
    returns (visited: Chain<K, V>, released: Outcome<IterError>)
    requires d.Valid()
    modifies d`iterators
    ensures d.Valid()
    ensures d.iterators == old(d.iterators) && released == Pass
    ensures Ranged(fn, d.Entries(), visited, false)
  {
    ghost var walk := d.Entries();
    var it := new Iterator(d, safe);
    visited := Feed(d, it, fn, walk);
    released := it.Release();
    DecUndoesInc(old(d.iterators));
    assert d.Entries() == walk;
  }

  /** `Range` (dict.go:376-378): ranging with an unsafe iterator. */
  method Range<K(==,!new), V>(d: Dict<K, V>, fn: (K, V) -> bool) returns (visited: Chain<K, V>)
    requires d.Valid()
    modifies d`iterators
    ensures d.Valid() && d.iterators == old(d.iterators)
    ensures |visited| <= |d.Entries()| && visited == d.Entries()[..|visited|]
    ensures (forall k, v :: fn(k, v)) ==> visited == d.Entries()
    ensures Ranged(fn, d.Entries(), visited, false)
  {
    var released;
    visited, released := RangeDict(d, fn, false);
  }

  /** `RangeSafely` (dict.go:381-383): ranging with a safe iterator. */
  method RangeSafely<K(==,!new), V>(d: Dict<K, V>, fn: (K, V) -> bool) returns (visited: Chain<K, V>)
    requires d.Valid()
    modifies d`iterators
    ensures d.Valid() && d.iterators == old(d.iterators)
    ensures |visited| <= |d.Entries()| && visited == d.Entries()[..|visited|]
    ensures (forall k, v :: fn(k, v)) ==> visited == d.Entries()
    ensures Ranged(fn, d.Entries(), visited, false)
  {
    var released;
    visited, released := RangeDict(d, fn, true);
  }
}
