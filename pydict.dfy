/**
 * Python dictionaries as the topology code uses them, with one fixed iteration order:
 * insertion order. Assigning to an existing key keeps its position, assigning to a new key
 * appends it, and `del` removes the one entry of that key. The Python 2 dictionaries the
 * code runs on iterate in hash order instead; the order chosen here is one possible order.
 */
module PyDict {
  import opened Wrappers

  datatype Entry<K, V> = Entry(key: K, value: V)

  /** A dictionary as the sequence of its entries, in iteration order. */
  type Dict<K, V> = seq<Entry<K, V>>

  function Keys<K, V>(d: Dict<K, V>): (ks: seq<K>)
    ensures |ks| == |d|
    ensures forall i :: 0 <= i < |d| ==> ks[i] == d[i].key
  {
    seq(|d|, i requires 0 <= i < |d| => d[i].key)
  }

  /** No key occurs twice: what every Python dictionary satisfies. */
  ghost predicate DistinctKeys<K, V>(d: Dict<K, V>) {
    forall i, j :: 0 <= i < j < |d| ==> d[i].key != d[j].key
  }

  /** Position of the entry of `k`. */
  function IndexOf<K(==, !new), V>(d: Dict<K, V>, k: K): (i: nat)
    requires k in Keys(d)
    ensures i < |d| && d[i].key == k
    ensures forall j :: 0 <= j < i ==> d[j].key != k
  {
    if d[0].key == k then 0 else IndexOf(d[1..], k) + 1
  }

  /** `d.get(k)`. */
  function Get<K(==, !new), V>(d: Dict<K, V>, k: K): (r: Option<V>)
    ensures r.Some? <==> k in Keys(d)
  {
    if k in Keys(d) then Some(d[IndexOf(d, k)].value) else None
  }

  /** In a dictionary, the entry at a position is what its key looks up. */
  lemma GetAt<K(!new), V>(d: Dict<K, V>, i: nat)
    requires DistinctKeys(d) && i < |d|
    ensures Get(d, d[i].key) == Some(d[i].value)
  {
    assert d[i].key in Keys(d);
  }

  /** `d[k] = v`: overwrite in place when `k` is present, append otherwise. */
  function Set<K(==, !new), V>(d: Dict<K, V>, k: K, v: V): (r: Dict<K, V>)
    ensures k in Keys(d) ==> Keys(r) == Keys(d)
    ensures k !in Keys(d) ==> Keys(r) == Keys(d) + [k]
    ensures Get(r, k) == Some(v)
    ensures DistinctKeys(d) ==> DistinctKeys(r)
  {
    if k in Keys(d) then d[IndexOf(d, k) := Entry(k, v)] else d + [Entry(k, v)]
  }

  /** `del d[k]`: the entry of `k` goes, the others keep their order. */
  function Delete<K(==, !new), V>(d: Dict<K, V>, k: K): (r: Dict<K, V>)
    requires k in Keys(d)
    ensures |r| == |d| - 1
    ensures forall j :: 0 <= j < |r| ==> r[j] == if j < IndexOf(d, k) then d[j] else d[j + 1]
    ensures DistinctKeys(d) ==> DistinctKeys(r) && k !in Keys(r)
  {
    var i := IndexOf(d, k);
    d[..i] + d[i + 1..]
  }

  /** The first position holding `k` is the one `IndexOf` finds. */
  lemma IndexOfFirst<K(!new), V>(d: Dict<K, V>, k: K, i: nat)
    requires i < |d| && d[i].key == k
    requires forall j :: 0 <= j < i ==> d[j].key != k
    ensures k in Keys(d) && IndexOf(d, k) == i
  {
    assert Keys(d)[i] == k;
  }

  /** Assigning to one key changes what no other key looks up. */
  lemma {:induction false} GetAfterSet<K(!new), V>(d: Dict<K, V>, k: K, v: V, k': K)
    requires k' != k
    ensures Get(Set(d, k, v), k') == Get(d, k')
  {
    var r := Set(d, k, v);
    if k' in Keys(d) {
      var q := IndexOf(d, k');
      assert r[q] == d[q];
      IndexOfFirst(r, k', q);
    }
  }

  /** Deleting one key changes what no other key looks up. */
  lemma {:induction false} GetAfterDelete<K(!new), V>(d: Dict<K, V>, k: K, k': K)
    requires k in Keys(d) && k' != k
    ensures Get(Delete(d, k), k') == Get(d, k')
  {
    var p := IndexOf(d, k);
    var r := Delete(d, k);
    if k' in Keys(d) {
      var q := IndexOf(d, k');
      if q < p {
        assert r[q] == d[q];
        IndexOfFirst(r, k', q);
      } else {
        assert r[q - 1] == d[q];
        IndexOfFirst(r, k', q - 1);
      }
    } else {
      assert forall j :: 0 <= j < |r| ==> r[j].key in Keys(d);
    }
  }
}
