/** Python's `dict` with its insertion order: the items as a sequence of pairs
    whose keys are pairwise distinct. Assigning to an existing key updates its
    value in place; assigning to a new key appends it. */
module OrderedDict {
  import opened Wrappers

  type Dict<K, V> = seq<(K, V)>

  predicate HasKey<K(==), V>(d: Dict<K, V>, k: K) {
    exists i :: 0 <= i < |d| && d[i].0 == k
  }

  /** The invariant every Python dict keeps: no key occurs twice. */
  predicate KeysUnique<K(==), V>(d: Dict<K, V>) {
    forall i, j :: 0 <= i < j < |d| ==> d[i].0 != d[j].0
  }

  /** `d.get(k)`. */
  function Get<K(==), V>(d: Dict<K, V>, k: K): (r: Option<V>)
    ensures r.Some? <==> HasKey(d, k)
    ensures KeysUnique(d) ==> forall i :: 0 <= i < |d| && d[i].0 == k ==> r == Some(d[i].1)
  {
    if d == [] then None
    else if d[0].0 == k then Some(d[0].1)
    else
      var r := Get(d[1..], k);
      assert forall i :: 1 <= i < |d| ==> d[i] == d[1..][i - 1];
      r
  }

  /** `d[k] = v`. */
  function Put<K(==), V>(d: Dict<K, V>, k: K, v: V): (r: Dict<K, V>)
    requires KeysUnique(d)
    ensures KeysUnique(r)
    ensures |r| == if HasKey(d, k) then |d| else |d| + 1
    ensures forall i :: 0 <= i < |d| ==> r[i] == if d[i].0 == k then (k, v) else d[i]
    ensures !HasKey(d, k) ==> r[|d|] == (k, v)
  {
    if d == [] then [(k, v)]
    else if d[0].0 == k then [(k, v)] + d[1..]
    else
      var rest := Put(d[1..], k, v);
      assert HasKey(d[1..], k) <==> HasKey(d, k) by {
        if HasKey(d, k) {
          var i :| 0 <= i < |d| && d[i].0 == k;
          assert d[1..][i - 1].0 == k;
        }
        if HasKey(d[1..], k) {
          var i :| 0 <= i < |d[1..]| && d[1..][i].0 == k;
          assert d[i + 1].0 == k;
        }
      }
      [d[0]] + rest
  }

  /** `list(d)`: the keys in insertion order. */
  function Keys<K, V>(d: Dict<K, V>): (r: seq<K>)
    ensures |r| == |d| && forall i :: 0 <= i < |d| ==> r[i] == d[i].0
  {
    seq(|d|, i requires 0 <= i < |d| => d[i].0)
  }

  /** A key is present exactly when it is listed among the keys. */
  lemma HasKeyInKeys<K, V>(d: Dict<K, V>, k: K)
    ensures HasKey(d, k) <==> k in Keys(d)
  {
    if k in Keys(d) {
      var i :| 0 <= i < |Keys(d)| && Keys(d)[i] == k;
      assert d[i].0 == k;
    }
    if HasKey(d, k) {
      var i :| 0 <= i < |d| && d[i].0 == k;
      assert Keys(d)[i] == k;
    }
  }

  /** Reading back the key just assigned gives the assigned value. */
  lemma GetPutSame<K, V>(d: Dict<K, V>, k: K, v: V)
    requires KeysUnique(d)
    ensures Get(Put(d, k, v), k) == Some(v)
  {
    var r := Put(d, k, v);
    if HasKey(d, k) {
      var i :| 0 <= i < |d| && d[i].0 == k;
      assert r[i] == (k, v);
    } else {
      assert r[|d|] == (k, v);
    }
  }

  /** Assigning one key leaves every other key's lookup as it was. */
  lemma GetPutOther<K, V>(d: Dict<K, V>, k: K, v: V, k': K)
    requires KeysUnique(d) && k' != k
    ensures Get(Put(d, k, v), k') == Get(d, k')
  {
    var r := Put(d, k, v);
    PutKeys(d, k, v, k');
    if HasKey(d, k') {
      var i :| 0 <= i < |d| && d[i].0 == k';
      assert r[i] == d[i];
    }
  }

  /** A new key is appended at the end; an existing one keeps its position. */
  lemma PutKeys<K, V>(d: Dict<K, V>, k: K, v: V, k': K)
    requires KeysUnique(d)
    ensures HasKey(Put(d, k, v), k') <==> HasKey(d, k') || k' == k
    ensures !HasKey(d, k) ==> Put(d, k, v) == d + [(k, v)]
  {
    var r := Put(d, k, v);
    if HasKey(r, k') {
      var i :| 0 <= i < |r| && r[i].0 == k';
      assert i < |d| ==> r[i] == if d[i].0 == k then (k, v) else d[i];
    }
    if HasKey(d, k') {
      var i :| 0 <= i < |d| && d[i].0 == k';
      assert r[i].0 == k';
    }
    if k' == k {
      assert HasKey(d, k) ==> HasKey(r, k) by {
        if HasKey(d, k) {
          var i :| 0 <= i < |d| && d[i].0 == k;
          assert r[i].0 == k;
        }
      }
      assert !HasKey(d, k) ==> r[|d|].0 == k;
    }
  }
}
