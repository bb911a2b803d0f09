/** An insertion-ordered map, the value semantics of a Java `LinkedHashMap`:
    its entries in insertion order, each key at most once. */
module LinkedMaps {
  import opened Wrappers
  import opened Sequences

  datatype Entry<K, V> = Entry(key: K, value: V)

  type LinkedMap<K, V> = seq<Entry<K, V>>

  /** The key set, in iteration order. */
  function Keys<K, V>(m: LinkedMap<K, V>): seq<K>
  {
    seq(|m|, i requires 0 <= i < |m| => m[i].key)
  }

  /** The `values()` view, in iteration order. */
  function Values<K, V>(m: LinkedMap<K, V>): seq<V>
  {
    seq(|m|, i requires 0 <= i < |m| => m[i].value)
  }

  predicate DistinctKeys<K(==), V>(m: LinkedMap<K, V>)
  {
    forall i, j :: 0 <= i < j < |m| ==> m[i].key != m[j].key
  }

  /** In a map with distinct keys, a key determines its entry. */
  lemma EntryOfKeyIsUnique<K, V>(m: LinkedMap<K, V>, a: Entry<K, V>, b: Entry<K, V>)
    requires DistinctKeys(m) && a in m && b in m && a.key == b.key
    ensures a == b
  {
    var i :| 0 <= i < |m| && m[i] == a;
    var j :| 0 <= j < |m| && m[j] == b;
    assert !(i < j) && !(j < i);
  }

  /** `get(k)`: the value stored under `k`, if any. */
  function Get<K(==), V>(m: LinkedMap<K, V>, k: K): (r: Option<V>)
    ensures r.Some? <==> k in Keys(m)
    ensures r.Some? ==> Entry(k, r.value) in m
    decreases |m|
  {
    if |m| == 0 then None
    else if m[0].key == k then
      assert Keys(m)[0] == k;
      Some(m[0].value)
    else
      var r := Get(m[1..], k);
      assert Keys(m) == [m[0].key] + Keys(m[1..]);
      r
  }

  /** In a map with distinct keys, `Get` finds the entry at any position of its key. */
  lemma GetOfKeyAt<K, V>(m: LinkedMap<K, V>, i: int)
    requires 0 <= i < |m| && DistinctKeys(m)
    ensures Get(m, m[i].key) == Some(m[i].value)
  {
    var r := Get(m, m[i].key);
    assert Keys(m)[i] == m[i].key;
    assert m[i] in m;
    EntryOfKeyIsUnique(m, Entry(m[i].key, r.value), m[i]);
  }

  /** Position of the first entry with key `k`. */
  function IndexOf<K(==), V>(m: LinkedMap<K, V>, k: K): (i: nat)
    requires k in Keys(m)
    ensures i < |m| && m[i].key == k
    ensures forall j :: 0 <= j < i ==> m[j].key != k
    decreases |m|
  {
    if m[0].key == k then 0
    else
      assert Keys(m) == [m[0].key] + Keys(m[1..]);
      1 + IndexOf(m[1..], k)
  }

  /** `put(k, v)`: a present key keeps its position and gets the new value;
      an absent key is appended at the end. */
  function Put<K(==), V>(m: LinkedMap<K, V>, k: K, v: V): (r: LinkedMap<K, V>)
    ensures k !in Keys(m) ==> r == m + [Entry(k, v)]
    ensures k in Keys(m) ==> |r| == |m| && Keys(r) == Keys(m) && r[IndexOf(m, k)] == Entry(k, v)
    ensures forall i :: 0 <= i < |m| && m[i].key != k ==> r[i] == m[i]
    ensures DistinctKeys(m) ==> DistinctKeys(r)
  {
    if k in Keys(m) then
      var r := m[IndexOf(m, k) := Entry(k, v)];
      assert Keys(r) == Keys(m);
      r
    else
      var r := m + [Entry(k, v)];
      assert forall i :: 0 <= i < |m| ==> Keys(m)[i] == m[i].key;
      r
  }

  /** `remove(k)`: drops the entry of `k`; the others keep their order. */
  function Remove<K(==), V>(m: LinkedMap<K, V>, k: K): (r: LinkedMap<K, V>)
    ensures k !in Keys(m) ==> r == m
    ensures SubSeq(r, m)
    ensures forall i :: 0 <= i < |m| && m[i].key != k ==> m[i] in r
    ensures DistinctKeys(m) ==> k !in Keys(r)
    decreases |m|
  {
    if |m| == 0 then []
    else if m[0].key == k then
      assert Keys(m)[0] == k;
      SubSeqRefl(m[1..]);
      assert forall i :: 0 <= i < |m| - 1 ==> Keys(m[1..])[i] == m[i + 1].key;
      m[1..]
    else
      var rest := Remove(m[1..], k);
      assert DistinctKeys(m) ==> DistinctKeys(m[1..]);
      assert Keys(m) == [m[0].key] + Keys(m[1..]);
      assert ([m[0]] + rest)[1..] == rest;
      assert Keys([m[0]] + rest) == [m[0].key] + Keys(rest);
      [m[0]] + rest
  }

  /** A subsequence of a map with distinct keys has distinct keys. */
  lemma {:induction false} SubSeqKeepsDistinctKeys<K, V>(a: LinkedMap<K, V>, b: LinkedMap<K, V>)
    requires SubSeq(a, b) && DistinctKeys(b)
    ensures DistinctKeys(a)
    decreases |b|
  {
    if |a| > 0 {
      if a[0] == b[0] && SubSeq(a[1..], b[1..]) {
        SubSeqKeepsDistinctKeys(a[1..], b[1..]);
        SubSeqMembers(a[1..], b[1..]);
        forall j | 0 < j < |a|
          ensures a[0].key != a[j].key
        {
          assert a[j] in a[1..];
          var t :| 0 <= t < |b[1..]| && b[1..][t] == a[j];
          assert b[t + 1] == a[j];
        }
        forall i, j | 0 <= i < j < |a|
          ensures a[i].key != a[j].key
        {
          if i > 0 {
            assert a[i] == a[1..][i - 1] && a[j] == a[1..][j - 1];
          }
        }
      } else {
        SubSeqKeepsDistinctKeys(a, b[1..]);
      }
    }
  }

  /** The entries `removeIf(p)` keeps: those whose value fails `p`. */
  function KeepUnless<K, V>(p: V -> bool): Entry<K, V> -> bool
  {
    (e: Entry<K, V>) => !p(e.value)
  }

  /** `values().removeIf(p)`: drops every entry whose value satisfies `p`. */
  function RemoveWhere<K(==), V>(m: LinkedMap<K, V>, p: V -> bool): (r: LinkedMap<K, V>)
    ensures SubSeq(r, m)
    ensures forall i :: 0 <= i < |r| ==> r[i] in m && !p(r[i].value)
    ensures forall i :: 0 <= i < |m| && !p(m[i].value) ==> m[i] in r
    ensures DistinctKeys(m) ==> DistinctKeys(r)
  {
    var r := Filter(m, KeepUnless(p));
    if DistinctKeys(m) then SubSeqKeepsDistinctKeys(r, m); r else r
  }

  /** Rewrites every value in place; keys and order are unchanged. */
  function MapValues<K, V>(m: LinkedMap<K, V>, f: V -> V): (r: LinkedMap<K, V>)
    ensures |r| == |m| && Keys(r) == Keys(m)
    ensures forall i :: 0 <= i < |m| ==> r[i].value == f(m[i].value)
  {
    seq(|m|, i requires 0 <= i < |m| => Entry(m[i].key, f(m[i].value)))
  }

  /** Removing a key from a map with distinct keys is the same as filtering
      out the entries with that key. */
  lemma {:induction false} RemoveIsFilter<K, V>(m: LinkedMap<K, V>, k: K, keep: Entry<K, V> -> bool)
    requires DistinctKeys(m)
    requires forall e :: keep(e) <==> e.key != k
    ensures Remove(m, k) == Filter(m, keep)
    decreases |m|
  {
    if |m| > 0 {
      if m[0].key == k {
        FilterKeepsAll(m[1..], keep);
      } else {
        RemoveIsFilter(m[1..], k, keep);
      }
    }
  }

  /** The key of every entry is among the keys. */
  lemma KeysOfEntries<K, V>(m: LinkedMap<K, V>)
    ensures forall e :: e in m ==> e.key in Keys(m)
  {
    forall e | e in m
      ensures e.key in Keys(m)
    {
      var i :| 0 <= i < |m| && m[i] == e;
      assert Keys(m)[i] == e.key;
    }
  }

  /** The entries surviving `Remove(m, k)` are exactly those of other keys. */
  lemma RemoveMembers<K, V>(m: LinkedMap<K, V>, k: K)
    ensures DistinctKeys(m) ==> forall e :: e in Remove(m, k) <==> e in m && e.key != k
  {
    var r := Remove(m, k);
    KeysOfEntries(r);
    SubSeqMembers(r, m);
    forall e | e in m && e.key != k
      ensures e in r
    {
      var i :| 0 <= i < |m| && m[i] == e;
    }
    forall e | e in r
      ensures e in m
    {
      var i :| 0 <= i < |r| && r[i] == e;
    }
  }

  /** The entries surviving `RemoveWhere(m, p)` are exactly those whose value fails `p`. */
  lemma RemoveWhereMembers<K, V>(m: LinkedMap<K, V>, p: V -> bool)
    ensures forall e :: e in RemoveWhere(m, p) <==> e in m && !p(e.value)
  {
    var r := RemoveWhere(m, p);
    forall e | e in m && !p(e.value)
      ensures e in r
    {
      var i :| 0 <= i < |m| && m[i] == e;
    }
    forall e | e in r
      ensures e in m && !p(e.value)
    {
      var i :| 0 <= i < |r| && r[i] == e;
    }
  }

  /** Deleting entries deletes the corresponding values, keeping their order. */
  lemma {:induction false} SubSeqValues<K, V>(a: LinkedMap<K, V>, b: LinkedMap<K, V>)
    requires SubSeq(a, b)
    ensures SubSeq(Values(a), Values(b))
    decreases |b|
  {
    if |a| > 0 {
      assert Values(b)[1..] == Values(b[1..]);
      if a[0] == b[0] && SubSeq(a[1..], b[1..]) {
        SubSeqValues(a[1..], b[1..]);
        assert Values(a)[1..] == Values(a[1..]);
      } else {
        SubSeqValues(a, b[1..]);
      }
    }
  }

  /** Looking up a key just appended finds its value. */
  lemma {:induction false} GetAppended<K, V>(m: LinkedMap<K, V>, k: K, v: V)
    requires k !in Keys(m)
    ensures Get(m + [Entry(k, v)], k) == Some(v)
    decreases |m|
  {
    if |m| > 0 {
      assert Keys(m) == [m[0].key] + Keys(m[1..]);
      assert (m + [Entry(k, v)])[1..] == m[1..] + [Entry(k, v)];
      GetAppended(m[1..], k, v);
    }
  }

  /** Removing a key just appended restores the map: `remove` undoes `put`
      of a new key. */
  lemma {:induction false} RemoveAppended<K, V>(m: LinkedMap<K, V>, k: K, v: V)
    requires k !in Keys(m)
    ensures Remove(m + [Entry(k, v)], k) == m
    decreases |m|
  {
    if |m| > 0 {
      assert Keys(m) == [m[0].key] + Keys(m[1..]);
      assert (m + [Entry(k, v)])[1..] == m[1..] + [Entry(k, v)];
      RemoveAppended(m[1..], k, v);
      assert m == [m[0]] + m[1..];
    }
  }

  /** `removeIf` with a test no value passes changes nothing. */
  lemma RemoveWhereKeepsAll<K, V>(m: LinkedMap<K, V>, p: V -> bool)
    requires forall i :: 0 <= i < |m| ==> !p(m[i].value)
    ensures RemoveWhere(m, p) == m
  {
    FilterKeepsAll(m, KeepUnless(p));
  }
}
