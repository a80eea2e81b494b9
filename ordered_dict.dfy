/** A Python dict: a map that remembers the order in which its keys were first
    inserted. Assigning to an existing key keeps its position; `pop` removes it. */
module OrderedDicts {

  datatype ODict<K(==,!new), V> = ODict(keys: seq<K>, vals: map<K, V>) {

    /** Keys are listed once each, and exactly the keys of the map. */
    ghost predicate Valid() {
      (forall i, j :: 0 <= i < j < |keys| ==> keys[i] != keys[j])
      && (forall k :: k in vals <==> k in keys)
    }

    /** `d[k] = v`. */
    function Put(k: K, v: V): (d: ODict<K, V>)
      requires Valid()
      ensures d.Valid()
      ensures d.vals == vals[k := v]
      ensures k in vals ==> d.keys == keys
      ensures k !in vals ==> d.keys == keys + [k]
    {
      if k in vals then ODict(keys, vals[k := v]) else ODict(keys + [k], vals[k := v])
    }

    /** Assigning a key twice is assigning it the second value. */
    lemma PutTwice(k: K, a: V, b: V)
      requires Valid()
      ensures Put(k, a).Put(k, b) == Put(k, b)
    {
      assert vals[k := a][k := b] == vals[k := b];
    }

    /** `d.pop(k)` for a key that may be absent (`d.pop(k, None)`). */
    function Remove(k: K): (d: ODict<K, V>)
      requires Valid()
      ensures d.Valid()
      ensures d.vals == vals - {k}
      ensures forall i :: 0 <= i < |d.keys| ==> d.keys[i] in keys
      ensures |d.keys| == if k in vals then |keys| - 1 else |keys|
    {
      ODict(Without(keys, k), vals - {k})
    }
  }

  function Empty<K(==,!new), V>(): (d: ODict<K, V>)
    ensures d.Valid() && d.keys == [] && d.vals == map[]
  {
    ODict([], map[])
  }

  /** The list with every occurrence of k dropped, order kept. */
  function Without<K(==,!new)>(s: seq<K>, k: K): (r: seq<K>)
    ensures forall x :: x in r <==> x in s && x != k
    ensures |r| <= |s|
    ensures (forall i, j :: 0 <= i < j < |s| ==> s[i] != s[j]) ==>
      (forall i, j :: 0 <= i < j < |r| ==> r[i] != r[j]) && |r| == if k in s then |s| - 1 else |s|
    decreases |s|
  {
    if s == [] then []
    else
      var t := Without(s[1..], k);
      assert (forall i, j :: 0 <= i < j < |s| ==> s[i] != s[j]) ==> s[0] !in s[1..] by {
        if forall i, j :: 0 <= i < j < |s| ==> s[i] != s[j] {
          forall m | 0 <= m < |s| - 1 ensures s[1..][m] != s[0] {
            assert s[1..][m] == s[m + 1];
          }
        }
      }
      if s[0] == k then t else [s[0]] + t
  }

  /** The values in key order (`d.values()`). */
  function Values<K(==,!new), V>(d: ODict<K, V>): (r: seq<V>)
    requires d.Valid()
    ensures |r| == |d.keys|
    ensures forall i :: 0 <= i < |r| ==> r[i] == d.vals[d.keys[i]]
  {
    seq(|d.keys|, i requires 0 <= i < |d.keys| => d.vals[d.keys[i]])
  }
}
