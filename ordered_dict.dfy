/**
 * A Python `dict` as the proxy code uses it: keys are unique and iteration
 * follows insertion order. `d[k] = v` keeps the position of an existing key
 * and appends a new one; `del d[k]` removes one entry and keeps the order of
 * the rest.
 */
module OrderedDict {
  import opened Base

  type Dict<K, V> = seq<(K, V)>

  /** No key appears twice. */
  predicate Valid<K(==), V>(d: Dict<K, V>)
  {
    forall i, j :: 0 <= i < j < |d| ==> d[i].0 != d[j].0
  }

  /** `list(d.keys())`. */
  function Keys<K, V>(d: Dict<K, V>): (ks: seq<K>)
    ensures |ks| == |d|
    ensures forall i :: 0 <= i < |d| ==> ks[i] == d[i].0
  {
    if d == [] then [] else [d[0].0] + Keys(d[1..])
  }

  /** `k in d`. */
  predicate HasKey<K(==), V>(d: Dict<K, V>, k: K)
  {
    exists i :: 0 <= i < |d| && d[i].0 == k
  }

  /** `d.get(k)`: the value stored under `k`, if any. */
  function Get<K(==), V>(d: Dict<K, V>, k: K): (r: Option<V>)
    ensures r.None? <==> !HasKey(d, k)
  {
    if d == [] then None
    else if d[0].0 == k then Some(d[0].1)
    else Get(d[1..], k)
  }

  /** In a valid dict, the value at any entry is the one `Get` finds. */
  lemma {:induction false} GetAt<K, V>(d: Dict<K, V>, i: nat)
    requires Valid(d) && i < |d|
    ensures Get(d, d[i].0) == Some(d[i].1)
  {
    if i > 0 {
      assert d[1..][i - 1] == d[i];
      GetAt(d[1..], i - 1);
    }
  }

  /** In a valid dict, `Get` finds every entry's own value. */
  lemma GetEntries<K, V>(d: Dict<K, V>)
    ensures Valid(d) ==> forall i :: 0 <= i < |d| ==> Get(d, d[i].0) == Some(d[i].1)
  {
    if Valid(d) {
      forall i | 0 <= i < |d| ensures Get(d, d[i].0) == Some(d[i].1) {
        GetAt(d, i);
      }
    }
  }

  /** `d[k] = v`. */
  function Set<K(==), V>(d: Dict<K, V>, k: K, v: V): (r: Dict<K, V>)
    requires Valid(d)
    ensures HasKey(d, k) ==> |r| == |d| && forall i :: 0 <= i < |d| ==> r[i] == (if d[i].0 == k then (k, v) else d[i])
    ensures !HasKey(d, k) ==> r == d + [(k, v)]
  {
    if d == [] then [(k, v)]
    else if d[0].0 == k then [(k, v)] + d[1..]
    else [d[0]] + Set(d[1..], k, v)
  }

  /** `del d[k]` (and a no-op when `k` is absent). */
  function Delete<K(==), V>(d: Dict<K, V>, k: K): (r: Dict<K, V>)
    ensures !HasKey(r, k)
    ensures !HasKey(d, k) ==> r == d
  {
    if d == [] then []
    else if d[0].0 == k then Delete(d[1..], k)
    else [d[0]] + Delete(d[1..], k)
  }

  /** Assignment keeps the keys unique, stores `v` under `k` and leaves every other key alone. */
  lemma SetSpec<K, V>(d: Dict<K, V>, k: K, v: V)
    requires Valid(d)
    ensures Valid(Set(d, k, v))
    ensures Get(Set(d, k, v), k) == Some(v)
    ensures forall k' :: k' != k ==> Get(Set(d, k, v), k') == Get(d, k')
    ensures Keys(Set(d, k, v)) == if HasKey(d, k) then Keys(d) else Keys(d) + [k]
  {
    SetKeys(d, k, v);
    SetGetSelf(d, k, v);
    forall k' | k' != k ensures Get(Set(d, k, v), k') == Get(d, k') {
      SetGetOther(d, k, v, k');
    }
  }

  /** Assignment keeps the key list, or appends a new key, and so keeps the keys unique. */
  lemma SetKeys<K, V>(d: Dict<K, V>, k: K, v: V)
    requires Valid(d)
    ensures Keys(Set(d, k, v)) == if HasKey(d, k) then Keys(d) else Keys(d) + [k]
    ensures Valid(Set(d, k, v))
  {
    if HasKey(d, k) {
      SetKeysExisting(d, k, v);
    } else {
      SetKeysNew(d, k, v);
    }
  }

  lemma SetKeysExisting<K, V>(d: Dict<K, V>, k: K, v: V)
    requires Valid(d) && HasKey(d, k)
    ensures Keys(Set(d, k, v)) == Keys(d)
    ensures Valid(Set(d, k, v))
  {
    var r := Set(d, k, v);
    assert forall i :: 0 <= i < |r| ==> r[i].0 == d[i].0;
    assert Keys(r) == Keys(d);
  }

  lemma SetKeysNew<K, V>(d: Dict<K, V>, k: K, v: V)
    requires Valid(d) && !HasKey(d, k)
    ensures Keys(Set(d, k, v)) == Keys(d) + [k]
    ensures Valid(Set(d, k, v))
  {
    var r := d + [(k, v)];
    forall i, j | 0 <= i < j < |r| ensures r[i].0 != r[j].0 {
      assert r[i] == d[i];
      if j == |d| {
        assert r[j] == (k, v);
      } else {
        assert r[j] == d[j];
      }
    }
    assert Keys(r) == Keys(d) + [k] by {
      assert forall i :: 0 <= i < |d| ==> Keys(r)[i] == Keys(d)[i];
    }
  }

  lemma SetGetSelf<K, V>(d: Dict<K, V>, k: K, v: V)
    requires Valid(d)
    ensures Get(Set(d, k, v), k) == Some(v)
  {
    var r := Set(d, k, v);
    SetKeys(d, k, v);
    if HasKey(d, k) {
      var i :| 0 <= i < |d| && d[i].0 == k;
      assert r[i] == (k, v);
      GetAt(r, i);
    } else {
      assert r[|d|] == (k, v);
      GetAt(r, |d|);
    }
  }

  lemma SetGetOther<K, V>(d: Dict<K, V>, k: K, v: V, k': K)
    requires Valid(d) && k' != k
    ensures Get(Set(d, k, v), k') == Get(d, k')
  {
    var r := Set(d, k, v);
    SetKeys(d, k, v);
    if HasKey(d, k') {
      var j :| 0 <= j < |d| && d[j].0 == k';
      assert r[j] == d[j];
      GetAt(r, j);
      GetAt(d, j);
    } else {
      assert forall i :: 0 <= i < |r| ==> r[i].0 == k || r[i].0 == d[i].0;
      assert !HasKey(r, k');
    }
  }

  /** The tail of a valid dict is valid and does not repeat the head's key. */
  lemma ValidTail<K, V>(d: Dict<K, V>)
    requires Valid(d) && d != []
    ensures Valid(d[1..]) && !HasKey(d[1..], d[0].0)
  {
    forall j | 0 <= j < |d| - 1 ensures d[1..][j].0 != d[0].0 {
      assert d[1..][j] == d[j + 1];
    }
  }

  /** Deleting a present key cuts out exactly its entry. */
  lemma {:induction false} DeleteShape<K, V>(d: Dict<K, V>, k: K, i: nat)
    requires Valid(d) && i < |d| && d[i].0 == k
    ensures Delete(d, k) == d[..i] + d[i + 1..]
  {
    ValidTail(d);
    if i == 0 {
      assert Delete(d, k) == Delete(d[1..], k);
    } else {
      assert d[0].0 != d[i].0;
      assert Delete(d, k) == [d[0]] + Delete(d[1..], k);
      DeleteShape(d[1..], k, i - 1);
      assert d[..i] == [d[0]] + d[1..][..i - 1];
      assert d[i + 1..] == d[1..][i..];
    }
  }

  /** Cutting one entry out of a valid dict leaves a valid dict. */
  lemma ValidCut<K, V>(d: Dict<K, V>, i: nat)
    requires Valid(d) && i < |d|
    ensures Valid(d[..i] + d[i + 1..])
  {
    var r := d[..i] + d[i + 1..];
    forall a, b | 0 <= a < b < |r| ensures r[a].0 != r[b].0 {
      assert r[a] == d[if a < i then a else a + 1];
      assert r[b] == d[if b < i then b else b + 1];
    }
  }

  /** Cutting out one entry does not change the lookup of any other key. */
  lemma GetAfterCut<K, V>(d: Dict<K, V>, i: nat, k': K)
    requires Valid(d) && i < |d| && d[i].0 != k'
    ensures Get(d[..i] + d[i + 1..], k') == Get(d, k')
  {
    var r := d[..i] + d[i + 1..];
    ValidCut(d, i);
    if HasKey(d, k') {
      var j :| 0 <= j < |d| && d[j].0 == k';
      var j' := if j < i then j else j - 1;
      assert r[j'] == d[j];
      GetAt(d, j);
      GetAt(r, j');
    } else {
      forall j | 0 <= j < |r| ensures r[j].0 != k' {
        assert r[j] == d[if j < i then j else j + 1];
      }
    }
  }

  /** Deletion keeps the keys unique, removes exactly `k` and leaves every other key alone. */
  lemma DeleteSpec<K, V>(d: Dict<K, V>, k: K)
    requires Valid(d)
    ensures Valid(Delete(d, k))
    ensures Get(Delete(d, k), k) == None
    ensures forall k' :: k' != k ==> Get(Delete(d, k), k') == Get(d, k')
    ensures HasKey(d, k) ==> |Delete(d, k)| == |d| - 1
  {
    if HasKey(d, k) {
      var i :| 0 <= i < |d| && d[i].0 == k;
      DeleteShape(d, k, i);
      ValidCut(d, i);
      forall k' | k' != k ensures Get(Delete(d, k), k') == Get(d, k') {
        GetAfterCut(d, i, k');
      }
    }
  }
}
