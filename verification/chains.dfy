/**
 * Bucket chains: the singly linked `entry` lists of dict.go:34-37, as
 * sequences in `next` order. A chain holds each key at most once.
 */
module Chains {
  import opened Wrappers

  datatype Entry<K, V> = Entry(key: K, value: V)

  type Chain<K, V> = seq<Entry<K, V>>

  ghost predicate DistinctKeys<K, V>(c: Chain<K, V>)
  {
    forall i, j :: 0 <= i < j < |c| ==> c[i].key != c[j].key
  }

  /** The value of the first entry of `c` whose key is `k`: what a walk along `next` finds. */
  function Find<K(==), V>(c: Chain<K, V>, k: K): (r: Option<V>)
    ensures r.None? <==> forall j :: 0 <= j < |c| ==> c[j].key != k
    ensures r.Some? ==> exists j :: 0 <= j < |c| && c[j] == Entry(k, r.value)
  {
    if c == [] then None
    else if c[0].key == k then Some(c[0].value)
    else
      var r := Find(c[1..], k);
      assert forall j :: 1 <= j < |c| ==> c[j] == c[1..][j - 1];
      r
  }

  /** In a chain without repeated keys, every entry is the one `Find` returns for its key. */
  lemma FindEntry<K, V>(c: Chain<K, V>, j: nat)
    requires DistinctKeys(c) && j < |c|
    ensures Find(c, c[j].key) == Some(c[j].value)
  {
  }

  /** The entry at position `j` taken out of the chain (the unlink of dict.go:131-136). */
  function RemoveAt<K, V>(c: Chain<K, V>, j: nat): (r: Chain<K, V>)
    requires j < |c|
    ensures |r| == |c| - 1
    ensures forall i :: 0 <= i < j ==> r[i] == c[i]
    ensures forall i :: j <= i < |r| ==> r[i] == c[i + 1]
  {
    c[..j] + c[j + 1..]
  }

  lemma FindPrepend<K, V>(e: Entry<K, V>, c: Chain<K, V>, k: K)
    ensures Find([e] + c, k) == if e.key == k then Some(e.value) else Find(c, k)
  {
    assert ([e] + c)[1..] == c;
  }

  /** Unlinking an entry keeps the keys of the chain distinct. */
  lemma RemoveAtDistinct<K, V>(c: Chain<K, V>, j: nat)
    requires DistinctKeys(c) && j < |c|
    ensures DistinctKeys(RemoveAt(c, j))
  {
    var r := RemoveAt(c, j);
    forall a, b | 0 <= a < b < |r|
      ensures r[a].key != r[b].key
    {
      var a', b' := if a < j then a else a + 1, if b < j then b else b + 1;
      assert r[a] == c[a'] && r[b] == c[b'];
    }
  }

  /** A key no entry of the chain carries, or the unlinked entry's key, is absent after the unlink. */
  lemma RemoveAtAbsent<K, V>(c: Chain<K, V>, j: nat, k: K)
    requires DistinctKeys(c) && j < |c| && (k == c[j].key || Find(c, k).None?)
    ensures Find(RemoveAt(c, j), k).None?
  {
    var r := RemoveAt(c, j);
    forall i | 0 <= i < |r|
      ensures r[i].key != k
    {
      assert r[i] == c[if i < j then i else i + 1];
    }
  }

  /** Unlinking the entry of key `c[j].key` makes exactly that key unfindable. */
  lemma FindRemoveAt<K, V>(c: Chain<K, V>, j: nat, k: K)
    requires DistinctKeys(c) && j < |c|
    ensures DistinctKeys(RemoveAt(c, j))
    ensures Find(RemoveAt(c, j), k) == if k == c[j].key then None else Find(c, k)
  {
    RemoveAtDistinct(c, j);
    if k == c[j].key || Find(c, k).None? {
      RemoveAtAbsent(c, j, k);
    } else {
      var v := Find(c, k).value;
      var i :| 0 <= i < |c| && c[i] == Entry(k, v);
      assert i != j;
      FindEntry(RemoveAt(c, j), if i < j then i else i - 1);
    }
  }

  /** Overwriting the value of the entry at position `j` (`ent.value = value`, dict.go:78). */
  function SetValueAt<K, V>(c: Chain<K, V>, j: nat, v: V): (r: Chain<K, V>)
    requires j < |c|
    ensures |r| == |c| && r[j] == Entry(c[j].key, v)
    ensures forall i :: 0 <= i < |c| && i != j ==> r[i] == c[i]
  {
    c[j := Entry(c[j].key, v)]
  }

  lemma FindSetValueAt<K, V>(c: Chain<K, V>, j: nat, v: V, k: K)
    requires DistinctKeys(c) && j < |c|
    ensures DistinctKeys(SetValueAt(c, j, v))
    ensures Find(SetValueAt(c, j, v), k) == if k == c[j].key then Some(v) else Find(c, k)
  {
    var r := SetValueAt(c, j, v);
    if k == c[j].key {
      FindEntry(r, j);
    } else {
      match Find(c, k)
      case None =>
      case Some(w) =>
        var i :| 0 <= i < |c| && c[i] == Entry(k, w);
        FindEntry(r, i);
    }
  }

  /** A walk along the joined chain `c + d` finds a key in `c` first, and only otherwise in `d`. */
  lemma {:induction false} FindAppend<K, V>(c: Chain<K, V>, d: Chain<K, V>, k: K)
    ensures Find(c + d, k) == match Find(c, k)
                              case Some(v) => Some(v)
                              case None => Find(d, k)
  {
    if c != [] {
      assert (c + d)[1..] == c[1..] + d;
      FindAppend(c[1..], d, k);
    } else {
      assert c + d == d;
    }
  }
}
