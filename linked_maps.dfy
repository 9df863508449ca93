/**
 * Kotlin's `mutableMapOf()` (a `LinkedHashMap`) as an association list: the keys are
 * pairwise different and kept in insertion order; putting an existing key replaces its
 * value in place, putting a new key appends it.
 */
module LinkedMaps {
  import opened Wrappers

  predicate DistinctKeys<K(==), V>(m: seq<(K, V)>)
  {
    forall i, j :: 0 <= i < j < |m| ==> m[i].0 != m[j].0
  }

  predicate HasKey<K(==), V>(m: seq<(K, V)>, k: K)
  {
    exists i :: 0 <= i < |m| && m[i].0 == k
  }

  /** The position of the first entry with key `k`; -1 when there is none. */
  function IndexOfKey<K(==), V>(m: seq<(K, V)>, k: K): (i: int)
    ensures -1 <= i < |m|
    ensures i >= 0 <==> HasKey(m, k)
    ensures i >= 0 ==> m[i].0 == k && forall j :: 0 <= j < i ==> m[j].0 != k
  {
    if m == [] then -1
    else if m[0].0 == k then 0
    else
      var j := IndexOfKey(m[1..], k);
      assert HasKey(m, k) ==> HasKey(m[1..], k) by {
        if HasKey(m, k) {
          var i :| 0 <= i < |m| && m[i].0 == k;
          assert m[1..][i - 1].0 == k;
        }
      }
      if j < 0 then -1 else j + 1
  }

  /** `map[k]`. */
  function Get<K(==), V>(m: seq<(K, V)>, k: K): (r: Option<V>)
    ensures r.Some? <==> HasKey(m, k)
  {
    var i := IndexOfKey(m, k);
    if i < 0 then None else Some(m[i].1)
  }

  /** `map[k] = v`. */
  function Put<K(==), V>(m: seq<(K, V)>, k: K, v: V): (r: seq<(K, V)>)
    ensures |r| == if HasKey(m, k) then |m| else |m| + 1
    ensures forall i :: 0 <= i < |m| ==> r[i].0 == m[i].0
  {
    var i := IndexOfKey(m, k);
    if i < 0 then m + [(k, v)] else m[i := (k, v)]
  }

  /** In a map with distinct keys, the entry at position `j` is what `Get` finds for its key. */
  lemma GetAt<K, V>(m: seq<(K, V)>, j: int)
    requires DistinctKeys(m) && 0 <= j < |m|
    ensures IndexOfKey(m, m[j].0) == j
    ensures Get(m, m[j].0) == Some(m[j].1)
  {
  }

  /** After `map[k] = v`, `map[k]` is `v` and every other key reads as before. */
  lemma GetPut<K, V>(m: seq<(K, V)>, k: K, v: V, k': K)
    ensures Get(Put(m, k, v), k) == Some(v)
    ensures k' != k ==> Get(Put(m, k, v), k') == Get(m, k')
  {
    var r := Put(m, k, v);
    var i := IndexOfKey(m, k);
    if i < 0 {
      assert r[|m|] == (k, v);
      assert forall j :: 0 <= j < |m| ==> r[j] == m[j];
      assert IndexOfKey(r, k) == |m|;
    } else {
      assert IndexOfKey(r, k) == i;
    }
    if k' != k {
      var j := IndexOfKey(m, k');
      if j >= 0 {
        assert IndexOfKey(r, k') == j;
      } else {
        assert !HasKey(r, k');
      }
    }
  }

  lemma PutDistinct<K, V>(m: seq<(K, V)>, k: K, v: V)
    requires DistinctKeys(m)
    ensures DistinctKeys(Put(m, k, v))
  {
  }

  /** The keys after a put are the old keys and `k`. */
  lemma PutHasKey<K, V>(m: seq<(K, V)>, k: K, v: V, k': K)
    ensures HasKey(Put(m, k, v), k') <==> HasKey(m, k') || k' == k
  {
    GetPut(m, k, v, k');
  }

  /** Reading a map extended by one entry at its end. */
  lemma GetSnoc<K, V>(m: seq<(K, V)>, k: K, v: V, k': K)
    requires !HasKey(m, k)
    ensures Get(m + [(k, v)], k') == if k' == k then Some(v) else Get(m, k')
  {
    var r := m + [(k, v)];
    assert Put(m, k, v) == r;
    GetPut(m, k, v, k');
  }
}
