/**
 * Python dictionaries: a finite map that remembers the order in which its
 * keys were first inserted.  Assigning to an existing key keeps its place;
 * deleting a key removes it from the order.
 */
module PyDicts {

  import opened Wrappers

  datatype Dict<K, V> = Dict(keys: seq<K>, vals: map<K, V>)

  /** Each key occurs once in the order, and the order lists exactly the mapped keys. */
  ghost predicate Valid<K(!new), V>(d: Dict<K, V>)
  {
    && UniqueKeys(d.keys)
    && (forall k :: k in d.vals <==> k in d.keys)
  }

  function Empty<K(==, !new), V>(): (r: Dict<K, V>)
    ensures Valid(r) && r.vals == map[]
  {
    Dict([], map[])
  }

  /** `d[k] = v` */
  function Put<K(==, !new), V>(d: Dict<K, V>, k: K, v: V): (r: Dict<K, V>)
    ensures Valid(d) ==> Valid(r)
    ensures r.vals == d.vals[k := v]
    ensures k in d.vals ==> r.keys == d.keys
    ensures k !in d.vals ==> r.keys == d.keys + [k]
  {
    if k in d.vals then Dict(d.keys, d.vals[k := v]) else Dict(d.keys + [k], d.vals[k := v])
  }

  function RemoveKey<K(==, !new)>(s: seq<K>, k: K): (r: seq<K>)
    ensures forall x :: x in r <==> x in s && x != k
    ensures |r| <= |s|
  {
    if s == [] then []
    else if s[0] == k then RemoveKey(s[1..], k)
    else [s[0]] + RemoveKey(s[1..], k)
  }

  ghost predicate UniqueKeys<K>(s: seq<K>)
  {
    forall i, j :: 0 <= i < j < |s| ==> s[i] != s[j]
  }

  lemma {:induction false} RemoveKeyDistinct<K(!new)>(s: seq<K>, k: K)
    requires UniqueKeys(s)
    ensures UniqueKeys(RemoveKey(s, k))
  {
    if s != [] {
      RemoveKeyDistinct(s[1..], k);
      var t := RemoveKey(s[1..], k);
      if s[0] == k {
        assert RemoveKey(s, k) == t;
      } else {
        var r := RemoveKey(s, k);
        assert r == [s[0]] + t;
        forall i, j | 0 <= i < j < |r| ensures r[i] != r[j] {
          if i == 0 {
            assert r[j] == t[j - 1] && t[j - 1] in t;
            var m :| 0 <= m < |s[1..]| && s[1..][m] == t[j - 1];
            assert s[m + 1] == r[j];
          } else {
            assert r[i] == t[i - 1] && r[j] == t[j - 1];
          }
        }
      }
    }
  }

  /** `del d[k]` (or `d.pop(k)`) on a present key. */
  function Remove<K(==, !new), V>(d: Dict<K, V>, k: K): (r: Dict<K, V>)
    ensures Valid(d) ==> Valid(r)
    ensures r.vals == d.vals - {k}
  {
    RemoveKeyDistinctIfValid(d, k);
    var r := Dict(RemoveKey(d.keys, k), d.vals - {k});
    assert Valid(d) ==> forall x :: x in r.vals <==> x in r.keys;
    r
  }

  lemma RemoveKeyDistinctIfValid<K(!new), V>(d: Dict<K, V>, k: K)
    ensures Valid(d) ==> UniqueKeys(RemoveKey(d.keys, k))
  {
    if Valid(d) {
      RemoveKeyDistinct(d.keys, k);
    }
  }

  /** `d.get(k)` */
  function Get<K(==, !new), V>(d: Dict<K, V>, k: K): (r: Option<V>)
    ensures r.Some? <==> k in d.vals
    ensures r.Some? ==> r.value == d.vals[k]
  {
    if k in d.vals then Some(d.vals[k]) else None
  }

  /** `list(d.items())`, in key order. */
  function Items<K(==, !new), V>(d: Dict<K, V>): (r: seq<(K, V)>)
    requires Valid(d)
    ensures |r| == |d.keys|
    ensures forall i :: 0 <= i < |r| ==> r[i] == (d.keys[i], d.vals[d.keys[i]])
  {
    seq(|d.keys|, i requires 0 <= i < |d.keys| => (d.keys[i], d.vals[d.keys[i]]))
  }
}
