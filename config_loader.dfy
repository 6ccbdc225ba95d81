/**
 * The normalisation helpers of `ConfigLoader` (tf_pwa/config_loader.py): they turn the
 * already-parsed YAML of a configuration file into decay records, the particle map, the
 * particle properties and renamed parameters.  YAML files are not read: a file name is
 * looked up in a given map from names to parsed values.
 */
module ConfigLoader {

  import opened Wrappers
  import opened PyDicts
  import opened MixedRadix
  import Ordering
  import ParticleGraph

  /** A parsed YAML value.  Mappings have string keys and keep their key order. */
  datatype Yaml =
    | YNone
    | YBool(b: bool)
    | YInt(i: int)
    | YStr(s: string)
    | YList(items: seq<Yaml>)
    | YDict(d: Dict<string, Yaml>)

  /** Every mapping inside `y` is a well-formed dictionary (as every Python dict is). */
  ghost predicate WellKeyed(y: Yaml)
  {
    match y
    case YList(items) => forall i :: 0 <= i < |items| ==> WellKeyed(items[i])
    case YDict(d) => Valid(d) && forall k :: k in d.vals ==> WellKeyed(d.vals[k])
    case _ => true
  }

  /** Python truthiness: `None`, `False`, `0` and empty strings, lists and dicts are false. */
  predicate Truthy(y: Yaml)
  {
    match y
    case YNone => false
    case YBool(b) => b
    case YInt(i) => i != 0
    case YStr(s) => s != ""
    case YList(items) => items != []
    case YDict(d) => d.keys != []
  }

  /** `for j in y`: a list yields its items, a string its characters, a dict its keys;
      anything else raises `TypeError`. */
  function Iterate(y: Yaml): (r: Result<seq<Yaml>>)
    ensures r.Err? <==> !(y.YList? || y.YStr? || y.YDict?)
    ensures r.Err? ==> r.error.TypeError?
    ensures y.YList? ==> r == Ok(y.items)
    ensures y.YStr? ==> r.Ok? && |r.value| == |y.s| && forall i :: 0 <= i < |y.s| ==> r.value[i] == YStr([y.s[i]])
    ensures y.YDict? ==> r.Ok? && |r.value| == |y.d.keys| && forall i :: 0 <= i < |y.d.keys| ==> r.value[i] == YStr(y.d.keys[i])
  {
    match y
    case YList(items) => Ok(items)
    case YStr(s) => Ok(seq(|s|, i requires 0 <= i < |s| => YStr([s[i]])))
    case YDict(d) => Ok(seq(|d.keys|, i requires 0 <= i < |d.keys| => YStr(d.keys[i])))
    case _ => Err(TypeError("object is not iterable"))
  }

  // ---------------------------------------------------------------------------
  // Merging dictionaries: `d.update(e)` and the include rule

  /** The keys of `s` that `m` does not have yet, in the order of `s`. */
  function NewKeys<K(==), V>(s: seq<K>, m: map<K, V>): seq<K>
  {
    if s == [] then []
    else NewKeys(s[..|s| - 1], m) + (if s[|s| - 1] in m then [] else [s[|s| - 1]])
  }

  lemma {:induction false} NewKeysMembers<K, V>(s: seq<K>, m: map<K, V>)
    ensures forall x :: x in NewKeys(s, m) <==> x in s && x !in m
  {
    if s != [] {
      NewKeysMembers(s[..|s| - 1], m);
      assert s == s[..|s| - 1] + [s[|s| - 1]];
    }
  }

  lemma {:induction false} NewKeysUnique<K, V>(s: seq<K>, m: map<K, V>)
    requires UniqueKeys(s)
    ensures UniqueKeys(NewKeys(s, m))
  {
    if s != [] {
      var init := s[..|s| - 1];
      NewKeysUnique(init, m);
      NewKeysMembers(init, m);
      assert forall j :: 0 <= j < |init| ==> init[j] == s[j];
      assert s[|s| - 1] !in init;
    }
  }

  lemma {:induction false} NewKeysNone<K, V>(s: seq<K>, m: map<K, V>)
    requires forall x :: x in s ==> x in m
    ensures NewKeys(s, m) == []
  {
    if s != [] {
      NewKeysNone(s[..|s| - 1], m);
      assert s[|s| - 1] in s;
    }
  }

  /** Appending the new keys of a unique list keeps a dictionary's keys unique. */
  lemma AppendNewKeysUnique<K, V>(keys: seq<K>, s: seq<K>, m: map<K, V>)
    requires UniqueKeys(keys) && UniqueKeys(s)
    requires forall k :: k in keys ==> k in m
    ensures UniqueKeys(keys + NewKeys(s, m))
  {
    NewKeysUnique(s, m);
    NewKeysMembers(s, m);
    var r := keys + NewKeys(s, m);
    forall i, j | 0 <= i < j < |r| ensures r[i] != r[j] {
      if j >= |keys| && i < |keys| {
        assert r[i] in keys && r[j] in NewKeys(s, m);
      } else if i >= |keys| {
        assert r[i] == NewKeys(s, m)[i - |keys|] && r[j] == NewKeys(s, m)[j - |keys|];
      }
    }
  }

  /** `d.update(e)`: the keys of `e` are set to its values, new keys go last. */
  function Updated<V>(d: Dict<string, V>, e: Dict<string, V>): Dict<string, V>
  {
    Dict(d.keys + NewKeys(e.keys, d.vals), d.vals + e.vals)
  }

  /** The include rule: the keys of `s` that `d` lacks are added, in the order of `s`;
      the keys `d` already has keep their values. */
  function Included<V>(d: Dict<string, V>, s: Dict<string, V>): Dict<string, V>
  {
    Dict(d.keys + NewKeys(s.keys, d.vals), s.vals + d.vals)
  }

  /** Both merges give well-formed dictionaries. */
  lemma MergesValid<V>(d: Dict<string, V>, e: Dict<string, V>)
    requires Valid(d) && Valid(e)
    ensures Valid(Updated(d, e)) && Valid(Included(d, e))
  {
    AppendNewKeysUnique(d.keys, e.keys, d.vals);
    NewKeysMembers(e.keys, d.vals);
  }

  /** The first `i` entries of `e`. */
  function Prefix<V>(e: Dict<string, V>, i: nat): Dict<string, V>
    requires i <= |e.keys|
  {
    Dict(e.keys[..i], map k | k in e.keys[..i] && k in e.vals :: e.vals[k])
  }

  lemma PrefixAll<V>(e: Dict<string, V>)
    requires Valid(e)
    ensures Prefix(e, |e.keys|) == e
  {
    assert e.keys[..|e.keys|] == e.keys;
  }

  /** The prefix with one more entry of `e`. */
  lemma PrefixNext<V>(e: Dict<string, V>, i: nat)
    requires Valid(e) && i < |e.keys|
    ensures Valid(Prefix(e, i))
    ensures e.keys[i] !in Prefix(e, i).vals
    ensures Prefix(e, i + 1).keys == Prefix(e, i).keys + [e.keys[i]]
    ensures Prefix(e, i + 1).vals == Prefix(e, i).vals[e.keys[i] := e.vals[e.keys[i]]]
  {
    var k := e.keys[i];
    assert e.keys[..i + 1] == e.keys[..i] + [k];
    assert forall j :: 0 <= j < i ==> e.keys[..i][j] == e.keys[j];
    assert k !in e.keys[..i];
  }

  /** Setting one more key `k` extends both merges by that entry. */
  lemma MergeStep<V>(d: Dict<string, V>, p: Dict<string, V>, q: Dict<string, V>, k: string, v: V)
    requires q.keys == p.keys + [k] && q.vals == p.vals[k := v] && k !in p.vals
    ensures Put(Updated(d, p), k, v) == Updated(d, q)
    ensures k !in d.vals ==> Put(Included(d, p), k, v) == Included(d, q)
    ensures k in d.vals ==> Included(d, p) == Included(d, q)
  {
    NewKeysSnoc(p.keys, k, d.vals);
    UnionUpdate(d.vals, p.vals, k, v);
    if k in d.vals {
      UnionShadowed(p.vals, d.vals, k, v);
    } else {
      UnionUpdateLeft(p.vals, d.vals, k, v);
    }
  }

  lemma NewKeysSnoc<K, V>(s: seq<K>, k: K, m: map<K, V>)
    ensures NewKeys(s + [k], m) == NewKeys(s, m) + (if k in m then [] else [k])
  {
    assert (s + [k])[..|s|] == s;
  }

  lemma UnionUpdate<K, V>(a: map<K, V>, b: map<K, V>, k: K, v: V)
    ensures (a + b)[k := v] == a + b[k := v]
  {
  }

  lemma UnionUpdateLeft<K, V>(a: map<K, V>, b: map<K, V>, k: K, v: V)
    requires k !in b
    ensures (a + b)[k := v] == a[k := v] + b
  {
  }

  lemma UnionShadowed<K, V>(a: map<K, V>, b: map<K, V>, k: K, v: V)
    requires k in b
    ensures a[k := v] + b == a + b
  {
  }

  /** `for k, v in e.items(): d[k] = v`. */
  method Update<V>(d: Dict<string, V>, e: Dict<string, V>) returns (r: Dict<string, V>)
    requires Valid(d) && Valid(e)
    ensures Valid(r)
    ensures r == Updated(d, e)
    ensures forall k :: Get(r, k) == if k in e.vals then Some(e.vals[k]) else Get(d, k)
  {
    r := d;
    assert Prefix(e, 0).vals == map[];
    assert r == Updated(d, Prefix(e, 0));
    for i := 0 to |e.keys|
      invariant Valid(r)
      invariant r == Updated(d, Prefix(e, i))
    {
      PrefixNext(e, i);
      MergeStep(d, Prefix(e, i), Prefix(e, i + 1), e.keys[i], e.vals[e.keys[i]]);
      r := Put(r, e.keys[i], e.vals[e.keys[i]]);
    }
    PrefixAll(e);
  }

  /** `_do_include_dict(d, s)` once `s` is loaded: `for i in s: if i not in d: d[i] = s[i]`. */
  method IncludeDict<V>(d: Dict<string, V>, s: Dict<string, V>) returns (r: Dict<string, V>)
    requires Valid(d) && Valid(s)
    ensures Valid(r)
    ensures r == Included(d, s)
    ensures forall k :: k in r.vals <==> k in d.vals || k in s.vals
    ensures forall k :: k in d.vals ==> r.vals[k] == d.vals[k]
    ensures r.keys[..|d.keys|] == d.keys
  {
    r := d;
    assert Prefix(s, 0).vals == map[];
    assert r == Included(d, Prefix(s, 0));
    for i := 0 to |s.keys|
      invariant Valid(r)
      invariant r == Included(d, Prefix(s, i))
    {
      var k := s.keys[i];
      PrefixNext(s, i);
      MergeStep(d, Prefix(s, i), Prefix(s, i + 1), k, s.vals[k]);
      if k !in r.vals {
        r := Put(r, k, s.vals[k]);
      }
    }
    PrefixAll(s);
  }

  /** Including the same dictionary twice adds nothing the first inclusion did not. */
  lemma IncludeIdempotent<V>(d: Dict<string, V>, s: Dict<string, V>)
    requires Valid(d) && Valid(s)
    ensures Included(Included(d, s), s) == Included(d, s)
  {
    var once := Included(d, s);
    MergesValid(d, s);
    NewKeysNone(s.keys, once.vals);
    UnionAbsorbs(s.vals, d.vals);
    assert once.keys + [] == once.keys;
  }

  lemma UnionAbsorbs<K, V>(a: map<K, V>, b: map<K, V>)
    ensures a + (a + b) == a + b
  {
  }

  // ---------------------------------------------------------------------------
  // _list2decay and decay_item

  /** A decay of the `decay` section: the core's name, its daughters and its parameters. */
  datatype DecayRecord = DecayRecord(core: string, outs: seq<Yaml>, params: Dict<string, Yaml>)

  /** The entries of a daughter list that are not mappings, in order. */
  function NonDicts(outs: seq<Yaml>): seq<Yaml>
  {
    if outs == [] then []
    else NonDicts(outs[..|outs| - 1]) + (if outs[|outs| - 1].YDict? then [] else [outs[|outs| - 1]])
  }

  /** The mappings of a daughter list merged in order, a later value replacing an earlier. */
  function MergeParams(outs: seq<Yaml>): Dict<string, Yaml>
  {
    if outs == [] then Empty()
    else
      var p := MergeParams(outs[..|outs| - 1]);
      if outs[|outs| - 1].YDict? then Updated(p, outs[|outs| - 1].d) else p
  }

  /** Every mapping in a daughter list is a well-formed dictionary. */
  ghost predicate DictsValid(outs: seq<Yaml>)
  {
    forall j :: 0 <= j < |outs| && outs[j].YDict? ==> Valid(outs[j].d)
  }

  /** The record `_list2decay(core, outs)` returns. */
  function Record(core: string, outs: seq<Yaml>): DecayRecord
  {
    DecayRecord(core, NonDicts(outs), MergeParams(outs))
  }

  /** `_list2decay(core, outs)`: mappings in the daughter list are parameters, everything
      else is a daughter. */
  method ListToDecay(core: string, outs: seq<Yaml>) returns (dec: DecayRecord)
    requires DictsValid(outs)
    ensures dec == Record(core, outs)
    ensures Valid(dec.params)
  {
    var parts: seq<Yaml> := [];
    var params: Dict<string, Yaml> := Empty();
    for i := 0 to |outs|
      invariant parts == NonDicts(outs[..i])
      invariant params == MergeParams(outs[..i])
      invariant Valid(params)
    {
      assert outs[..i + 1][..i] == outs[..i];
      var j := outs[i];
      if j.YDict? {
        params := Update(params, j.d);
      } else {
        parts := parts + [j];
      }
    }
    assert outs[..|outs|] == outs;
    dec := DecayRecord(core, parts, params);
  }

  /** The daughters are the non-mapping entries, in their order: the list is split
      entry by entry. */
  lemma {:induction false} NonDictsAppend(a: seq<Yaml>, b: seq<Yaml>)
    ensures NonDicts(a + b) == NonDicts(a) + NonDicts(b)
  {
    if b != [] {
      var b' := b[..|b| - 1];
      NonDictsAppend(a, b');
      assert (a + b)[..|a + b| - 1] == a + b';
    } else {
      assert a + b == a;
    }
  }

  lemma {:induction false} NonDictsMembers(outs: seq<Yaml>)
    ensures forall x :: x in NonDicts(outs) <==> x in outs && !x.YDict?
  {
    if outs != [] {
      NonDictsMembers(outs[..|outs| - 1]);
      assert outs == outs[..|outs| - 1] + [outs[|outs| - 1]];
    }
  }

  /** `k` is set by the mapping at index `j` and by no later mapping of the list. */
  ghost predicate SetLastAt(outs: seq<Yaml>, k: string, j: int)
  {
    && 0 <= j < |outs| && outs[j].YDict? && k in outs[j].d.vals
    && forall j' :: j < j' < |outs| && outs[j'].YDict? ==> k !in outs[j'].d.vals
  }

  /** A parameter is present exactly when some mapping of the list sets it, and its value
      comes from the last mapping that does. */
  lemma {:induction false} MergeParamsLastWins(outs: seq<Yaml>, k: string)
    ensures k in MergeParams(outs).vals <==> exists j :: 0 <= j < |outs| && outs[j].YDict? && k in outs[j].d.vals
    ensures forall j :: SetLastAt(outs, k, j) ==> MergeParams(outs).vals[k] == outs[j].d.vals[k]
  {
    if outs != [] {
      var n := |outs| - 1;
      var init := outs[..n];
      MergeParamsLastWins(init, k);
      assert forall j :: 0 <= j < n ==> init[j] == outs[j];
      forall j | SetLastAt(outs, k, j) ensures MergeParams(outs).vals[k] == outs[j].d.vals[k] {
        if j < n {
          assert SetLastAt(init, k, j);
        }
      }
      if k in MergeParams(outs).vals && !(k in MergeParams(init).vals) {
        assert outs[n].YDict? && k in outs[n].d.vals;
      }
    }
  }

  lemma {:induction false} MergeParamsValid(outs: seq<Yaml>)
    requires DictsValid(outs)
    ensures Valid(MergeParams(outs))
  {
    if outs != [] {
      var init := outs[..|outs| - 1];
      assert DictsValid(init) by {
        assert forall j :: 0 <= j < |init| ==> init[j] == outs[j];
      }
      MergeParamsValid(init);
      if outs[|outs| - 1].YDict? {
        MergesValid(MergeParams(init), outs[|outs| - 1].d);
      }
    }
  }

  /** The records of one entry `core: outs` of the decay section, where `its` are the
      entries of `outs`: one record per inner list when every entry is a list (none when
      there are no entries), else a single record. */
  function RecordsOf(core: string, its: seq<Yaml>): seq<DecayRecord>
  {
    if forall m :: 0 <= m < |its| ==> its[m].YList? then
      seq(|its|, m requires 0 <= m < |its| && its[m].YList? => Record(core, its[m].items))
    else [Record(core, its)]
  }

  /** The results of `step` on the first `n` keys, concatenated; the first error
      stops the walk. */
  ghost function Concat<K, E>(keys: seq<K>, step: K -> Result<seq<E>>, n: nat): Result<seq<E>>
    requires n <= |keys|
  {
    if n == 0 then Ok([])
    else
      var prev := Concat(keys, step, n - 1);
      if prev.Err? then prev
      else
        var r := step(keys[n - 1]);
        if r.Err? then Err(r.error) else Ok(prev.value + r.value)
  }

  /** The records of one entry `core: outs` of the decay section, or the error of
      iterating `outs`. */
  ghost function CoreStep(d: Dict<string, Yaml>): string -> Result<seq<DecayRecord>>
  {
    k =>
      if k !in d.vals then Ok([])
      else
        var its := Iterate(d.vals[k]);
        if its.Err? then Err(its.error) else Ok(RecordsOf(k, its.value))
  }

  lemma CoreStepAt(d: Dict<string, Yaml>, k: string)
    requires k in d.vals
    ensures Iterate(d.vals[k]).Err? ==> CoreStep(d)(k) == Err(Iterate(d.vals[k]).error)
    ensures Iterate(d.vals[k]).Ok? ==> CoreStep(d)(k) == Ok(RecordsOf(k, Iterate(d.vals[k]).value))
  {
  }

  /** The records of the first `n` entries of the decay section, or the error raised on
      the first entry whose value cannot be iterated. */
  ghost function DecayRecords(d: Dict<string, Yaml>, n: nat): Result<seq<DecayRecord>>
    requires Valid(d) && n <= |d.keys|
  {
    Concat(d.keys, CoreStep(d), n)
  }

  lemma {:induction false} ConcatErrStays<K, E>(keys: seq<K>, step: K -> Result<seq<E>>, n: nat, m: nat)
    requires n <= m <= |keys|
    requires Concat(keys, step, n).Err?
    ensures Concat(keys, step, m) == Concat(keys, step, n)
  {
    if m > n {
      ConcatErrStays(keys, step, n, m - 1);
    }
  }

  lemma ConcatStep<K, E>(keys: seq<K>, step: K -> Result<seq<E>>, n: nat, acc: seq<E>)
    requires n < |keys| && Concat(keys, step, n) == Ok(acc)
    ensures step(keys[n]).Err? ==> Concat(keys, step, n + 1) == Err(step(keys[n]).error)
    ensures step(keys[n]).Ok? ==> Concat(keys, step, n + 1) == Ok(acc + step(keys[n]).value)
  {
  }

  /** The walk fails exactly when some step fails, and then with that step's error. */
  lemma {:induction false} ConcatErr<K, E>(keys: seq<K>, step: K -> Result<seq<E>>, n: nat)
    requires n <= |keys|
    ensures Concat(keys, step, n).Err? <==> exists i :: 0 <= i < n && step(keys[i]).Err?
    ensures Concat(keys, step, n).Err? ==>
      exists i :: 0 <= i < n && step(keys[i]) == Err(Concat(keys, step, n).error)
  {
    if n > 0 {
      ConcatErr(keys, step, n - 1);
    }
  }

  /** Every element of a successful walk carries the key of the step that made it, and
      the walk only ever grows. */
  lemma {:induction false} ConcatTags<K, E>(keys: seq<K>, step: K -> Result<seq<E>>, tag: E -> K, n: nat)
    requires n <= |keys| && Concat(keys, step, n).Ok?
    requires forall i :: 0 <= i < n ==> Tagged(step(keys[i]), keys[i], tag)
    ensures forall j :: 0 <= j < |Concat(keys, step, n).value| ==> tag(Concat(keys, step, n).value[j]) in keys[..n]
    ensures n > 0 ==> Concat(keys, step, n - 1).Ok? && Concat(keys, step, n - 1).value <= Concat(keys, step, n).value
  {
    if n > 0 {
      ConcatTags(keys, step, tag, n - 1);
      var prev := Concat(keys, step, n - 1).value;
      var r := step(keys[n - 1]).value;
      assert Tagged(step(keys[n - 1]), keys[n - 1], tag);
      assert Concat(keys, step, n).value == prev + r;
      AppendTags(prev, r, tag, keys[..n - 1], keys[n - 1]);
      assert keys[..n] == keys[..n - 1] + [keys[n - 1]];
    }
  }

  ghost predicate Tagged<K, E>(r: Result<seq<E>>, k: K, tag: E -> K)
  {
    r.Ok? ==> forall j :: 0 <= j < |r.value| ==> tag(r.value[j]) == k
  }

  lemma AppendTags<K, E>(prev: seq<E>, r: seq<E>, tag: E -> K, ks: seq<K>, k: K)
    requires forall j :: 0 <= j < |prev| ==> tag(prev[j]) in ks
    requires forall j :: 0 <= j < |r| ==> tag(r[j]) == k
    ensures forall j :: 0 <= j < |prev + r| ==> tag((prev + r)[j]) in ks + [k]
    ensures prev <= prev + r
  {
    var all := prev + r;
    forall j | 0 <= j < |all| ensures tag(all[j]) in ks + [k] {
      if j < |prev| {
        assert all[j] == prev[j];
      } else {
        assert all[j] == r[j - |prev|];
      }
    }
  }

  /** A well-keyed value iterates into well-keyed entries. */
  lemma IterateWellKeyed(y: Yaml)
    requires WellKeyed(y) && Iterate(y).Ok?
    ensures forall m :: 0 <= m < |Iterate(y).value| ==> WellKeyed(Iterate(y).value[m])
  {
  }

  lemma ListDictsValid(items: seq<Yaml>)
    requires forall m :: 0 <= m < |items| ==> WellKeyed(items[m])
    ensures DictsValid(items)
  {
  }

  /** The body of `decay_item` for one entry `core: outs`, given the entries of `outs`. */
  method CoreRecords(core: string, entries: seq<Yaml>) returns (recs: seq<DecayRecord>)
    requires forall m :: 0 <= m < |entries| ==> WellKeyed(entries[m])
    ensures recs == RecordsOf(core, entries)
  {
    var allList := true;
    for m := 0 to |entries|
      invariant allList <==> forall m' :: 0 <= m' < m ==> entries[m'].YList?
    {
      allList := allList && entries[m].YList?;
    }
    recs := [];
    if allList {
      for m := 0 to |entries|
        invariant recs == seq(m, m' requires 0 <= m' < m => Record(core, entries[m'].items))
      {
        ListDictsValid(entries[m].items);
        var dec := ListToDecay(core, entries[m].items);
        recs := recs + [dec];
      }
    } else {
      ListDictsValid(entries);
      var dec := ListToDecay(core, entries);
      recs := [dec];
    }
  }

  /** `decay_item(decay_dict)`. */
  method DecayItem(d: Dict<string, Yaml>) returns (r: Result<seq<DecayRecord>>)
    requires WellKeyed(YDict(d))
    ensures r == DecayRecords(d, |d.keys|)
    ensures r.Err? <==> exists k :: k in d.vals && Iterate(d.vals[k]).Err?
    ensures r.Err? ==> r.error.TypeError?
  {
    var decs: seq<DecayRecord> := [];
    for n := 0 to |d.keys|
      invariant DecayRecords(d, n) == Ok(decs)
    {
      var core := d.keys[n];
      var its := Iterate(d.vals[core]);
      DecayRecordsStep(d, n, decs);
      if its.Err? {
        DecayRecordsErrStays(d, n + 1, |d.keys|);
        r := Err(its.error);
        DecayRecordsAll(d, r);
        return;
      }
      IterateWellKeyed(d.vals[core]);
      var recs := CoreRecords(core, its.value);
      decs := decs + recs;
    }
    r := Ok(decs);
    DecayRecordsAll(d, r);
  }

  lemma DecayRecordsAll(d: Dict<string, Yaml>, r: Result<seq<DecayRecord>>)
    requires Valid(d) && r == DecayRecords(d, |d.keys|)
    ensures r.Err? <==> exists k :: k in d.vals && Iterate(d.vals[k]).Err?
    ensures r.Err? ==> r.error.TypeError?
  {
    DecayRecordsErr(d, |d.keys|);
  }

  lemma DecayRecordsStep(d: Dict<string, Yaml>, n: nat, decs: seq<DecayRecord>)
    requires Valid(d) && n < |d.keys| && DecayRecords(d, n) == Ok(decs)
    ensures Iterate(d.vals[d.keys[n]]).Err? ==> DecayRecords(d, n + 1) == Err(Iterate(d.vals[d.keys[n]]).error)
    ensures Iterate(d.vals[d.keys[n]]).Ok? ==>
      DecayRecords(d, n + 1) == Ok(decs + RecordsOf(d.keys[n], Iterate(d.vals[d.keys[n]]).value))
  {
    ConcatStep(d.keys, CoreStep(d), n, decs);
    CoreStepAt(d, d.keys[n]);
  }

  lemma DecayRecordsErrStays(d: Dict<string, Yaml>, n: nat, m: nat)
    requires Valid(d) && n <= m <= |d.keys|
    requires DecayRecords(d, n).Err?
    ensures DecayRecords(d, m) == DecayRecords(d, n)
  {
    ConcatErrStays(d.keys, CoreStep(d), n, m);
  }

  /** The decay section fails exactly when the value of some core cannot be iterated
      (`None`, a boolean or a number), and the error is a `TypeError`. */
  lemma DecayRecordsErr(d: Dict<string, Yaml>, n: nat)
    requires Valid(d) && n <= |d.keys|
    ensures DecayRecords(d, n).Err? <==> exists i :: 0 <= i < n && Iterate(d.vals[d.keys[i]]).Err?
    ensures DecayRecords(d, n).Err? ==> DecayRecords(d, n).error.TypeError?
    ensures n == |d.keys| ==>
      (DecayRecords(d, n).Err? <==> exists k :: k in d.vals && Iterate(d.vals[k]).Err?)
  {
    var step := CoreStep(d);
    ConcatErr(d.keys, step, n);
    forall i | 0 <= i < n ensures step(d.keys[i]).Err? <==> Iterate(d.vals[d.keys[i]]).Err? {
      CoreStepAt(d, d.keys[i]);
    }
    if Concat(d.keys, step, n).Err? {
      var i :| 0 <= i < n && step(d.keys[i]) == Err(Concat(d.keys, step, n).error);
      CoreStepAt(d, d.keys[i]);
    }
    if n == |d.keys| && exists k :: k in d.vals && Iterate(d.vals[k]).Err? {
      var k :| k in d.vals && Iterate(d.vals[k]).Err?;
      var i :| 0 <= i < |d.keys| && d.keys[i] == k;
    }
  }

  /** Every record names a core of the decay section, and the records of the earlier
      cores come first. */
  lemma DecayRecordsCores(d: Dict<string, Yaml>, n: nat)
    requires Valid(d) && n <= |d.keys|
    requires DecayRecords(d, n).Ok?
    ensures forall i :: 0 <= i < |DecayRecords(d, n).value| ==> DecayRecords(d, n).value[i].core in d.keys[..n]
    ensures n > 0 ==> (DecayRecords(d, n - 1).Ok? && DecayRecords(d, n - 1).value <= DecayRecords(d, n).value)
  {
    var step := CoreStep(d);
    var tag := (e: DecayRecord) => e.core;
    forall i | 0 <= i < n ensures Tagged(step(d.keys[i]), d.keys[i], tag) {
      CoreStepAt(d, d.keys[i]);
    }
    ConcatTags(d.keys, step, tag, n);
  }

  // ---------------------------------------------------------------------------
  // particle_item_list

  /** `particle_map.get(p, [])`. */
  function OrEmpty(o: Option<seq<string>>): seq<string>
  {
    if o.Some? then o.value else []
  }

  /** A particle section `particle_item_list` accepts: every value is a list or a mapping. */
  ghost predicate WFParticles(y: Yaml)
  {
    y.YDict? && forall p :: p in y.d.vals ==> WFCandidate(y.d.vals[p])
  }

  /** A mapping, or a list of names and nested particle sections. */
  ghost predicate WFCandidate(c: Yaml)
  {
    match c
    case YDict(_) => true
    case YList(items) => forall i :: 0 <= i < |items| ==> items[i].YStr? || WFParticles(items[i])
    case _ => false
  }

  /** The particle-map entry of `k` after the first `n` entries of the section `y`
      (`None`: no entry yet).  Only the entries that mention `k` change it. */
  ghost function Listed(y: Yaml, n: nat, k: string): Option<seq<string>>
    requires y.YDict? && n <= |y.d.keys|
    decreases y, 2, n
  {
    if n == 0 then None
    else
      var before := Listed(y, n - 1, k);
      var p := y.d.keys[n - 1];
      if p in y.d.vals && y.d.vals[p].YList? then ListedEntry(y.d.vals[p], p, k, before)
      else before
  }

  /** The entry of `k` after the list `c` of particle `p`: an empty list sets the entry of
      `p` to `[]`, whatever it held. */
  ghost function ListedEntry(c: Yaml, p: string, k: string, before: Option<seq<string>>): Option<seq<string>>
    requires c.YList?
    decreases c, 1, 0
  {
    if c.items == [] then (if p == k then Some([]) else before)
    else ListedItems(c, |c.items|, p, k, before)
  }

  /** The entry of `k` after the first `m` items of the list `c` of particle `p`. */
  ghost function ListedItems(c: Yaml, m: nat, p: string, k: string, start: Option<seq<string>>): Option<seq<string>>
    requires c.YList? && m <= |c.items|
    decreases c, 0, m
  {
    if m == 0 then start
    else ListedItem(c.items[m - 1], p, k, ListedItems(c, m - 1, p, k, start))
  }

  /** The entry of `k` after one item `e` of the list of particle `p`: a name is appended
      to the entry of `p`, a nested section appends its own entry of `k`. */
  ghost function ListedItem(e: Yaml, p: string, k: string, cur: Option<seq<string>>): Option<seq<string>>
    decreases e, 3, 0
  {
    if e.YStr? then (if p == k then Some(OrEmpty(cur) + [e.s]) else cur)
    else if e.YDict? then
      var sub := Listed(e, |e.d.keys|, k);
      if sub.Some? then Some(OrEmpty(cur) + sub.value) else cur
    else cur
  }

  /** The property of `k` after the first `n` entries of the section `y`: the last
      mapping given for `k`, directly or in a nested section. */
  ghost function Props(y: Yaml, n: nat, k: string): Option<Yaml>
    requires y.YDict? && n <= |y.d.keys|
    decreases y, 1, n
  {
    if n == 0 then None
    else
      var before := Props(y, n - 1, k);
      var p := y.d.keys[n - 1];
      if p !in y.d.vals then before
      else
        var c := y.d.vals[p];
        if c.YDict? then (if p == k then Some(c) else before)
        else if c.YList? then PropsItems(c, |c.items|, k, before)
        else before
  }

  ghost function PropsItems(c: Yaml, m: nat, k: string, start: Option<Yaml>): Option<Yaml>
    requires c.YList? && m <= |c.items|
    decreases c, 0, m
  {
    if m == 0 then start
    else PropsItem(c.items[m - 1], k, PropsItems(c, m - 1, k, start))
  }

  /** A nested section replaces the property of every key it gives one for. */
  ghost function PropsItem(e: Yaml, k: string, cur: Option<Yaml>): Option<Yaml>
    decreases e, 2, 0
  {
    if e.YDict? then
      var sub := Props(e, |e.d.keys|, k);
      if sub.Some? then sub else cur
    else cur
  }

  /** `for k, v in map_i.items(): particle_map[k] = particle_map.get(k, []) + v`. */
  method MergeMap(pm: Dict<string, seq<string>>, mi: Dict<string, seq<string>>) returns (r: Dict<string, seq<string>>)
    requires Valid(pm) && Valid(mi)
    ensures Valid(r)
    ensures forall k :: Get(r, k) == if k in mi.vals then Some(OrEmpty(Get(pm, k)) + mi.vals[k]) else Get(pm, k)
  {
    r := pm;
    for i := 0 to |mi.keys|
      invariant Valid(r)
      invariant forall k :: Get(r, k) == if k in mi.keys[..i] then Some(OrEmpty(Get(pm, k)) + mi.vals[k]) else Get(pm, k)
    {
      var k := mi.keys[i];
      assert mi.keys[..i + 1] == mi.keys[..i] + [k];
      assert forall j :: 0 <= j < i ==> mi.keys[..i][j] == mi.keys[j];
      assert k !in mi.keys[..i];
      r := Put(r, k, OrEmpty(Get(r, k)) + mi.vals[k]);
    }
    assert mi.keys[..|mi.keys|] == mi.keys;
  }

  /** `particle_item_list(d)`: the particle map and the particle properties of a section,
      or `ValueError` when a value is neither a list nor a mapping, or a list holds
      something other than names and sections. */
  method ParticleItemList(d: Dict<string, Yaml>) returns (r: Result<(Dict<string, seq<string>>, Dict<string, Yaml>)>)
    requires WellKeyed(YDict(d))
    ensures r.Err? <==> !WFParticles(YDict(d))
    ensures r.Err? ==> r.error.ValueError?
    ensures r.Ok? ==> Valid(r.value.0) && Valid(r.value.1)
    ensures r.Ok? ==> forall k :: Get(r.value.0, k) == Listed(YDict(d), |d.keys|, k)
    ensures r.Ok? ==> forall k :: Get(r.value.1, k) == Props(YDict(d), |d.keys|, k)
    decreases YDict(d), 1
  {
    var y := YDict(d);
    var pm: Dict<string, seq<string>> := Empty();
    var pp: Dict<string, Yaml> := Empty();
    for n := 0 to |d.keys|
      invariant Valid(pm) && Valid(pp)
      invariant forall k :: Get(pm, k) == Listed(y, n, k)
      invariant forall k :: Get(pp, k) == Props(y, n, k)
      invariant forall i :: 0 <= i < n ==> WFCandidate(d.vals[d.keys[i]])
    {
      var step := ParticleEntry(d, n, pm, pp);
      if step.Err? {
        return Err(step.error);
      }
      pm, pp := step.value.0, step.value.1;
    }
    forall p | p in d.vals ensures WFCandidate(d.vals[p]) {
      var i :| 0 <= i < |d.keys| && d.keys[i] == p;
    }
    return Ok((pm, pp));
  }

  /** One entry `p: c` of the section in `particle_item_list`. */
  method ParticleEntry(d: Dict<string, Yaml>, n: nat, pm: Dict<string, seq<string>>, pp: Dict<string, Yaml>)
    returns (r: Result<(Dict<string, seq<string>>, Dict<string, Yaml>)>)
    requires WellKeyed(YDict(d)) && n < |d.keys| && Valid(pm) && Valid(pp)
    requires forall k :: Get(pm, k) == Listed(YDict(d), n, k)
    requires forall k :: Get(pp, k) == Props(YDict(d), n, k)
    ensures r.Err? <==> !WFCandidate(d.vals[d.keys[n]])
    ensures r.Err? ==> r.error.ValueError?
    ensures r.Ok? ==> Valid(r.value.0) && Valid(r.value.1)
    ensures r.Ok? ==> forall k :: Get(r.value.0, k) == Listed(YDict(d), n + 1, k)
    ensures r.Ok? ==> forall k :: Get(r.value.1, k) == Props(YDict(d), n + 1, k)
    decreases YDict(d), 0
  {
    var p := d.keys[n];
    var c := d.vals[p];
    if c.YList? {
      r := ListEntry(pm, pp, p, c);
    } else if c.YDict? {
      r := Ok((pm, Put(pp, p, c)));
    } else {
      r := Err(ValueError("value of particle is neither a list nor a dict"));
    }
  }

  /** One list value `c` of particle `p` in `particle_item_list`. */
  method ListEntry(pm: Dict<string, seq<string>>, pp: Dict<string, Yaml>, p: string, c: Yaml)
    returns (r: Result<(Dict<string, seq<string>>, Dict<string, Yaml>)>)
    requires Valid(pm) && Valid(pp) && c.YList? && WellKeyed(c)
    ensures r.Err? <==> !WFCandidate(c)
    ensures r.Err? ==> r.error.ValueError?
    ensures r.Ok? ==> Valid(r.value.0) && Valid(r.value.1)
    ensures r.Ok? ==> forall k :: Get(r.value.0, k) == ListedEntry(c, p, k, Get(pm, k))
    ensures r.Ok? ==> forall k :: Get(r.value.1, k) == PropsItems(c, |c.items|, k, Get(pp, k))
    decreases c, 0
  {
    var items := c.items;
    if items == [] {
      return Ok((Put(pm, p, []), pp));
    }
    var m1, p1 := pm, pp;
    for j := 0 to |items|
      invariant Valid(m1) && Valid(p1)
      invariant forall k :: Get(m1, k) == ListedItems(c, j, p, k, Get(pm, k))
      invariant forall k :: Get(p1, k) == PropsItems(c, j, k, Get(pp, k))
      invariant forall i :: 0 <= i < j ==> items[i].YStr? || WFParticles(items[i])
    {
      var step := ListItem(m1, p1, p, items[j]);
      if step.Err? {
        return Err(step.error);
      }
      m1, p1 := step.value.0, step.value.1;
    }
    return Ok((m1, p1));
  }

  /** One item `e` of the list of particle `p` in `particle_item_list`. */
  method ListItem(pm: Dict<string, seq<string>>, pp: Dict<string, Yaml>, p: string, e: Yaml)
    returns (r: Result<(Dict<string, seq<string>>, Dict<string, Yaml>)>)
    requires Valid(pm) && Valid(pp) && WellKeyed(e)
    ensures r.Err? <==> !(e.YStr? || WFParticles(e))
    ensures r.Err? ==> r.error.ValueError?
    ensures r.Ok? ==> Valid(r.value.0) && Valid(r.value.1)
    ensures r.Ok? ==> forall k :: Get(r.value.0, k) == ListedItem(e, p, k, Get(pm, k))
    ensures r.Ok? ==> forall k :: Get(r.value.1, k) == PropsItem(e, k, Get(pp, k))
    decreases e, 2
  {
    if e.YStr? {
      return Ok((Put(pm, p, OrEmpty(Get(pm, p)) + [e.s]), pp));
    } else if e.YDict? {
      assert e == YDict(e.d);
      var sub := ParticleItemList(e.d);
      if sub.Err? {
        return Err(sub.error);
      }
      var m1 := MergeMap(pm, sub.value.0);
      var p1 := Update(pp, sub.value.1);
      return Ok((m1, p1));
    } else {
      return Err(ValueError("value of particle map is neither a string nor a dict"));
    }
  }

  /** Every list value of the section `y` holds particle names only. */
  ghost predicate NamesOnly(y: Yaml)
    requires y.YDict?
  {
    forall p :: p in y.d.vals && y.d.vals[p].YList? ==> AllNames(y.d.vals[p].items)
  }

  predicate AllNames(items: seq<Yaml>)
  {
    forall i :: 0 <= i < |items| ==> items[i].YStr?
  }

  function Names(items: seq<Yaml>): seq<string>
    requires AllNames(items)
  {
    seq(|items|, i requires 0 <= i < |items| => items[i].s)
  }

  lemma {:induction false} ListedItemsNames(c: Yaml, m: nat, p: string, k: string, start: Option<seq<string>>)
    requires c.YList? && m <= |c.items| && AllNames(c.items)
    ensures ListedItems(c, m, p, k, start) == if p == k && m > 0 then Some(OrEmpty(start) + Names(c.items[..m])) else start
  {
    if m > 0 {
      ListedItemsNames(c, m - 1, p, k, start);
      if p == k {
        var cur := ListedItems(c, m - 1, p, k, start);
        var s := c.items[m - 1].s;
        assert ListedItems(c, m, p, k, start) == Some(OrEmpty(cur) + [s]);
        assert Names(c.items[..m]) == Names(c.items[..m - 1]) + [s];
        if m == 1 {
          assert Names(c.items[..m - 1]) == [];
          assert OrEmpty(cur) + [s] == OrEmpty(start) + Names(c.items[..m]);
        } else {
          assert OrEmpty(cur) == OrEmpty(start) + Names(c.items[..m - 1]);
          assert OrEmpty(cur) + [s] == OrEmpty(start) + Names(c.items[..m]);
        }
      }
    }
  }

  lemma {:induction false} PropsItemsNames(c: Yaml, m: nat, k: string, start: Option<Yaml>)
    requires c.YList? && m <= |c.items| && AllNames(c.items)
    ensures PropsItems(c, m, k, start) == start
  {
    if m > 0 {
      PropsItemsNames(c, m - 1, k, start);
    }
  }

  /** The first `n` keys of a section hold each key at most once. */
  lemma KeyNotEarlier(d: Dict<string, Yaml>, n: nat)
    requires Valid(d) && 0 < n <= |d.keys|
    ensures d.keys[n - 1] !in d.keys[..n - 1]
    ensures d.keys[..n] == d.keys[..n - 1] + [d.keys[n - 1]]
  {
    assert forall j :: 0 <= j < n - 1 ==> d.keys[..n - 1][j] == d.keys[j];
  }

  lemma {:induction false} ListedNames(y: Yaml, n: nat, k: string)
    requires y.YDict? && Valid(y.d) && NamesOnly(y) && n <= |y.d.keys|
    ensures Listed(y, n, k) ==
      if k in y.d.keys[..n] && y.d.vals[k].YList? then Some(Names(y.d.vals[k].items)) else None
  {
    if n > 0 {
      ListedNames(y, n - 1, k);
      KeyNotEarlier(y.d, n);
      var p := y.d.keys[n - 1];
      var c := y.d.vals[p];
      if c.YList? && c.items != [] {
        ListedItemsNames(c, |c.items|, p, k, Listed(y, n - 1, k));
        assert c.items[..|c.items|] == c.items;
        if p == k {
          assert Listed(y, n - 1, k) == None;
          assert OrEmpty(None) + Names(c.items) == Names(c.items);
        }
      } else if c.YList? {
        assert Names(c.items) == [];
      }
    }
  }

  lemma {:induction false} PropsNames(y: Yaml, n: nat, k: string)
    requires y.YDict? && Valid(y.d) && NamesOnly(y) && n <= |y.d.keys|
    ensures Props(y, n, k) == if k in y.d.keys[..n] && y.d.vals[k].YDict? then Some(y.d.vals[k]) else None
  {
    if n > 0 {
      PropsNames(y, n - 1, k);
      KeyNotEarlier(y.d, n);
      var p := y.d.keys[n - 1];
      var c := y.d.vals[p];
      if c.YList? {
        PropsItemsNames(c, |c.items|, k, Props(y, n - 1, k));
      }
    }
  }

  /** In a section without nested sections, a list value maps its particle to exactly
      the names it lists (an empty list to `[]`), a mapping becomes that particle's
      properties, and no other key gets an entry. */
  lemma SectionOfNames(y: Yaml, k: string)
    requires y.YDict? && Valid(y.d) && NamesOnly(y)
    ensures Listed(y, |y.d.keys|, k) ==
      if k in y.d.vals && y.d.vals[k].YList? then Some(Names(y.d.vals[k].items)) else None
    ensures Props(y, |y.d.keys|, k) ==
      if k in y.d.vals && y.d.vals[k].YDict? then Some(y.d.vals[k]) else None
  {
    ListedNames(y, |y.d.keys|, k);
    PropsNames(y, |y.d.keys|, k);
    assert y.d.keys[..|y.d.keys|] == y.d.keys;
  }

  // ---------------------------------------------------------------------------
  // particle_item and the include rule

  /** `load_config(o)`: a mapping is the configuration itself, a string names a file
      (looked up in `files`, the parsed files); anything else cannot be opened. */
  function LoadConfig(o: Yaml, files: map<string, Yaml>): (r: Result<Yaml>)
    ensures o.YDict? ==> r == Ok(o)
    ensures o.YStr? ==> (r.Ok? <==> o.s in files) && (r.Ok? ==> r.value == files[o.s])
    ensures o.YStr? && r.Err? ==> r.error.FileNotFoundError?
    ensures !o.YDict? && !o.YStr? ==> r.Err? && r.error.TypeError?
  {
    match o
    case YDict(_) => Ok(o)
    case YStr(name) => if name in files then Ok(files[name]) else Err(FileNotFoundError(name))
    case _ => Err(TypeError("expected str or dict"))
  }

  lemma IncludedWellKeyed(d: Dict<string, Yaml>, s: Dict<string, Yaml>)
    requires WellKeyed(YDict(d)) && WellKeyed(YDict(s))
    ensures WellKeyed(YDict(Included(d, s)))
  {
    MergesValid(d, s);
  }

  /** `o` loads to a mapping. */
  predicate LoadsDict(o: Yaml, files: map<string, Yaml>)
  {
    LoadConfig(o, files).Ok? && LoadConfig(o, files).value.YDict?
  }

  /** The entries of the mapping `o` loads to. */
  function Loaded(o: Yaml, files: map<string, Yaml>): map<string, Yaml>
    requires LoadsDict(o, files)
  {
    LoadConfig(o, files).value.d.vals
  }

  /** Why `o` cannot be included: the loading error, or `TypeError` for a loaded value
      that is not a mapping. */
  function LoadError(o: Yaml, files: map<string, Yaml>): Error
    requires !LoadsDict(o, files)
  {
    if LoadConfig(o, files).Err? then LoadConfig(o, files).error
    else TypeError("included configuration is not a dict")
  }

  /** What `_do_include_dict(d, o)` leaves in `d`, or the error it raises. */
  function IncludeOne(d: Dict<string, Yaml>, o: Yaml, files: map<string, Yaml>): Result<Dict<string, Yaml>>
  {
    if LoadsDict(o, files) then Ok(Included(d, LoadConfig(o, files).value.d))
    else Err(LoadError(o, files))
  }

  /** `for i in includes: _do_include_dict(d, i)`, stopping at the first error. */
  function IncludeFold(d: Dict<string, Yaml>, items: seq<Yaml>, files: map<string, Yaml>): Result<Dict<string, Yaml>>
  {
    if items == [] then Ok(d)
    else match IncludeFold(d, items[..|items| - 1], files)
      case Err(e) => Err(e)
      case Ok(acc) => IncludeOne(acc, items[|items| - 1], files)
  }

  /** The whole `$include` rule of `particle_item` on the popped value. */
  function IncludeResult(d: Dict<string, Yaml>, includes: Yaml, files: map<string, Yaml>): Result<Dict<string, Yaml>>
  {
    if !Truthy(includes) then Ok(d)
    else if includes.YList? then IncludeFold(d, includes.items, files)
    else if includes.YStr? then IncludeOne(d, includes, files)
    else Err(ValueError("$include must be string or list of string"))
  }

  /** The list include fails exactly when some file does not load to a mapping, and then
      with the error of the first such file. */
  lemma {:induction false} IncludeFoldErr(d: Dict<string, Yaml>, items: seq<Yaml>, files: map<string, Yaml>)
    ensures IncludeFold(d, items, files).Err? <==> exists i :: 0 <= i < |items| && !LoadsDict(items[i], files)
    ensures IncludeFold(d, items, files).Err? ==>
              exists i :: FirstFailure(items, files, i) && IncludeFold(d, items, files).error == LoadError(items[i], files)
  {
    if items != [] {
      var n := |items| - 1;
      var pre := items[..n];
      IncludeFoldErr(d, pre, files);
      assert forall i :: 0 <= i < n ==> pre[i] == items[i];
      if IncludeFold(d, pre, files).Err? {
        var i :| FirstFailure(pre, files, i) && IncludeFold(d, pre, files).error == LoadError(pre[i], files);
        assert FirstFailure(items, files, i);
      } else if !LoadsDict(items[n], files) {
        assert FirstFailure(items, files, n);
      }
    }
  }

  lemma IncludeFoldSnoc(d: Dict<string, Yaml>, items: seq<Yaml>, i: nat, files: map<string, Yaml>)
    requires i < |items|
    ensures IncludeFold(d, items[..i + 1], files) ==
              match IncludeFold(d, items[..i], files)
              case Err(e) => Err(e)
              case Ok(acc) => IncludeOne(acc, items[i], files)
  {
    assert items[..i + 1][..i] == items[..i];
  }

  lemma {:induction false} IncludeFoldErrStays(d: Dict<string, Yaml>, xs: seq<Yaml>, more: seq<Yaml>, files: map<string, Yaml>)
    requires IncludeFold(d, xs, files).Err?
    ensures IncludeFold(d, xs + more, files) == IncludeFold(d, xs, files)
    decreases |more|
  {
    if more != [] {
      var m := |more| - 1;
      IncludeFoldErrStays(d, xs, more[..m], files);
      assert (xs + more)[..|xs + more| - 1] == xs + more[..m];
    } else {
      assert xs + more == xs;
    }
  }

  /** `items[i]` is the first file that does not load to a mapping. */
  ghost predicate FirstFailure(items: seq<Yaml>, files: map<string, Yaml>, i: int)
  {
    0 <= i < |items| && !LoadsDict(items[i], files) && forall j :: 0 <= j < i ==> LoadsDict(items[j], files)
  }

  /** The mappings the files load to, in order. */
  function LoadedMaps(items: seq<Yaml>, files: map<string, Yaml>): (r: seq<map<string, Yaml>>)
    requires forall j :: 0 <= j < |items| ==> LoadsDict(items[j], files)
    ensures |r| == |items| && forall j :: 0 <= j < |items| ==> r[j] == Loaded(items[j], files)
  {
    seq(|items|, j requires 0 <= j < |items| => Loaded(items[j], files))
  }

  /** `ms[i]` is the first mapping with the key `k`. */
  ghost predicate FirstWithKey(ms: seq<map<string, Yaml>>, k: string, i: int)
  {
    0 <= i < |ms| && k in ms[i] && forall j :: 0 <= j < i ==> k !in ms[j]
  }

  /** `r` is `own` with the mappings `ms` included one after the other: it has the keys
      of all of them, its own keys keep their values, and any other key has the value of
      the first mapping that has it. */
  ghost predicate IncludedInOrder(own: map<string, Yaml>, ms: seq<map<string, Yaml>>, r: map<string, Yaml>)
  {
    && (forall k :: k in r <==> k in own || exists i :: 0 <= i < |ms| && k in ms[i])
    && (forall k :: k in own ==> k in r && r[k] == own[k])
    && (forall k, i :: k !in own && FirstWithKey(ms, k, i) ==> k in r && r[k] == ms[i][k])
  }

  lemma IncludedInOrderSnoc(own: map<string, Yaml>, ms: seq<map<string, Yaml>>, s: map<string, Yaml>, acc: map<string, Yaml>)
    requires IncludedInOrder(own, ms, acc)
    ensures IncludedInOrder(own, ms + [s], s + acc)
  {
    var ms' := ms + [s];
    var r := s + acc;
    forall k | k in r
      ensures k in own || exists i :: 0 <= i < |ms'| && k in ms'[i]
    {
      if k !in acc {
        assert k in ms'[|ms|];
      } else if k !in own {
        var i :| 0 <= i < |ms| && k in ms[i];
        assert k in ms'[i];
      }
    }
    forall k | k in own || exists i :: 0 <= i < |ms'| && k in ms'[i]
      ensures k in r
    {
      if k !in own {
        var i :| 0 <= i < |ms'| && k in ms'[i];
        if i < |ms| {
          assert k in ms[i];
        }
      }
    }
    forall k, i | k !in own && FirstWithKey(ms', k, i)
      ensures k in r && r[k] == ms'[i][k]
    {
      if i < |ms| {
        assert forall j :: 0 <= j <= i ==> ms'[j] == ms[j];
        assert FirstWithKey(ms, k, i);
      } else {
        assert forall j :: 0 <= j < |ms| ==> k !in ms[j] by {
          forall j | 0 <= j < |ms| ensures k !in ms[j] {
            assert ms'[j] == ms[j];
          }
        }
        assert k !in acc;
      }
    }
  }

  /** A list include that succeeds succeeded on all but the last file, and the last
      file's entries sit under the ones already there. */
  lemma IncludeFoldLast(d: Dict<string, Yaml>, items: seq<Yaml>, files: map<string, Yaml>)
    requires items != [] && IncludeFold(d, items, files).Ok?
    ensures IncludeFold(d, items[..|items| - 1], files).Ok? && LoadsDict(items[|items| - 1], files)
    ensures IncludeFold(d, items, files).value.vals ==
              Loaded(items[|items| - 1], files) + IncludeFold(d, items[..|items| - 1], files).value.vals
  {
  }

  lemma LoadedMapsSnoc(items: seq<Yaml>, files: map<string, Yaml>)
    requires items != [] && forall j :: 0 <= j < |items| ==> LoadsDict(items[j], files)
    ensures LoadedMaps(items, files) == LoadedMaps(items[..|items| - 1], files) + [Loaded(items[|items| - 1], files)]
  {
  }

  /** After a list include the section has its own keys with their values, and every
      key of an included file it lacked, with the value of the first file having it. */
  lemma {:induction false} IncludeFoldContents(d: Dict<string, Yaml>, items: seq<Yaml>, files: map<string, Yaml>)
    requires IncludeFold(d, items, files).Ok?
    ensures forall j :: 0 <= j < |items| ==> LoadsDict(items[j], files)
    ensures IncludedInOrder(d.vals, LoadedMaps(items, files), IncludeFold(d, items, files).value.vals)
  {
    if items == [] {
      assert LoadedMaps(items, files) == [];
    } else {
      var pre := items[..|items| - 1];
      IncludeFoldLast(d, items, files);
      IncludeFoldContents(d, pre, files);
      assert forall i :: 0 <= i < |pre| ==> pre[i] == items[i];
      LoadedMapsSnoc(items, files);
      IncludedInOrderSnoc(d.vals, LoadedMaps(pre, files), Loaded(items[|items| - 1], files),
                          IncludeFold(d, pre, files).value.vals);
    }
  }

  /** `_do_include_dict(d, o)`: loads `o` and adds the keys `d` lacks.  A loaded value
      that is not a mapping is refused with `TypeError`. */
  method IncludeFrom(d: Dict<string, Yaml>, o: Yaml, files: map<string, Yaml>) returns (r: Result<Dict<string, Yaml>>)
    requires WellKeyed(YDict(d)) && WellKeyed(o)
    requires forall f :: f in files ==> WellKeyed(files[f])
    ensures r.Err? <==> LoadConfig(o, files).Err? || !LoadConfig(o, files).value.YDict?
    ensures LoadConfig(o, files).Err? ==> r == Err(LoadConfig(o, files).error)
    ensures r.Ok? ==> r.value == Included(d, LoadConfig(o, files).value.d)
    ensures r.Ok? ==> WellKeyed(YDict(r.value))
    ensures r.Ok? ==> forall k :: k in d.vals ==> k in r.value.vals && r.value.vals[k] == d.vals[k]
    ensures r == IncludeOne(d, o, files)
  {
    var s := LoadConfig(o, files);
    if s.Err? {
      return Err(s.error);
    }
    if !s.value.YDict? {
      return Err(TypeError("included configuration is not a dict"));
    }
    var merged := IncludeDict(d, s.value.d);
    IncludedWellKeyed(d, s.value.d);
    return Ok(merged);
  }

  /** `d.pop(k, None)`. */
  function Pop(d: Dict<string, Yaml>, k: string): Yaml
  {
    if k in d.vals then d.vals[k] else YNone
  }

  /** The keys `particle_item` pops before reading the section. */
  predicate Special(k: string)
  {
    k == "$top" || k == "$finals" || k == "$include"
  }

  /** The section without its `$top`, `$finals` and `$include` entries. */
  function Stripped(d: Dict<string, Yaml>): Dict<string, Yaml>
  {
    Remove(Remove(Remove(d, "$top"), "$finals"), "$include")
  }

  /** What `particle_item` returns, and the section it leaves behind. */
  datatype ParticleSection = ParticleSection(
    particleMap: Dict<string, seq<string>>,
    props: Dict<string, Yaml>,
    top: Yaml,
    finals: Yaml,
    rest: Dict<string, Yaml>)

  /** The entry of `k` in `m` when `m` is a mapping that has one, else `under`. */
  function Overlay(m: Yaml, k: string, under: Option<Yaml>): Option<Yaml>
  {
    if m.YDict? && k in m.d.vals then Some(m.d.vals[k]) else under
  }

  /** The popped section keeps every other entry. */
  lemma StrippedFacts(pl: Dict<string, Yaml>)
    requires WellKeyed(YDict(pl))
    ensures WellKeyed(YDict(Stripped(pl)))
    ensures forall k :: k in Stripped(pl).vals <==> k in pl.vals && !Special(k)
    ensures forall k :: k in pl.vals && !Special(k) ==> Stripped(pl).vals[k] == pl.vals[k]
    ensures Pop(Remove(pl, "$top"), "$finals") == Pop(pl, "$finals")
    ensures Pop(Remove(Remove(pl, "$top"), "$finals"), "$include") == Pop(pl, "$include")
  {
  }

  /** The list case of `_do_include_dict`: the files are included one after the other,
      and the first one that fails ends the include with its error. */
  method IncludeList(d: Dict<string, Yaml>, items: seq<Yaml>, files: map<string, Yaml>) returns (r: Result<Dict<string, Yaml>>)
    requires WellKeyed(YDict(d)) && forall i :: 0 <= i < |items| ==> WellKeyed(items[i])
    requires forall f :: f in files ==> WellKeyed(files[f])
    ensures r == IncludeFold(d, items, files)
    ensures r.Ok? ==> WellKeyed(YDict(r.value))
    ensures r.Ok? ==> forall k :: k in d.vals ==> k in r.value.vals && r.value.vals[k] == d.vals[k]
  {
    var acc := d;
    for i := 0 to |items|
      invariant WellKeyed(YDict(acc))
      invariant forall k :: k in d.vals ==> k in acc.vals && acc.vals[k] == d.vals[k]
      invariant IncludeFold(d, items[..i], files) == Ok(acc)
    {
      var step := IncludeFrom(acc, items[i], files);
      IncludeFoldSnoc(d, items, i, files);
      if step.Err? {
        IncludeFoldErrStays(d, items[..i + 1], items[i + 1..], files);
        assert items[..i + 1] + items[i + 1..] == items;
        return Err(step.error);
      }
      acc := step.value;
    }
    assert items[..|items|] == items;
    return Ok(acc);
  }

  /** The `$include` handling of `particle_item`: a string includes one file, a list each
      of its files in order, a false value nothing, and anything else is a `ValueError`. */
  method IncludeAll(d: Dict<string, Yaml>, includes: Yaml, files: map<string, Yaml>) returns (r: Result<Dict<string, Yaml>>)
    requires WellKeyed(YDict(d)) && WellKeyed(includes)
    requires forall f :: f in files ==> WellKeyed(files[f])
    ensures !Truthy(includes) ==> r == Ok(d)
    ensures Truthy(includes) && !includes.YList? && !includes.YStr? ==> r.Err? && r.error.ValueError?
    ensures Truthy(includes) && includes.YStr? && includes.s !in files ==> r.Err? && r.error.FileNotFoundError?
    ensures r.Ok? ==> WellKeyed(YDict(r.value))
    ensures r.Ok? ==> forall k :: k in d.vals ==> k in r.value.vals && r.value.vals[k] == d.vals[k]
    ensures r == IncludeResult(d, includes, files)
  {
    if !Truthy(includes) {
      return Ok(d);
    }
    if includes.YList? {
      assert forall i :: 0 <= i < |includes.items| ==> WellKeyed(includes.items[i]);
      r := IncludeList(d, includes.items, files);
    } else if includes.YStr? {
      r := IncludeFrom(d, includes, files);
    } else {
      return Err(ValueError("$include must be string or list of string"));
    }
  }

  /** `particle_item(particle_list)`.  `rest` is the section as the call leaves it:
      stripped of the three special keys and extended by the included files. */
  method ParticleItem(pl: Dict<string, Yaml>, files: map<string, Yaml>) returns (r: Result<ParticleSection>)
    requires WellKeyed(YDict(pl))
    requires forall f :: f in files ==> WellKeyed(files[f])
    ensures r.Ok? ==> r.value.top == Pop(pl, "$top") && r.value.finals == Pop(pl, "$finals")
    ensures var inc := Pop(pl, "$include");
      Truthy(inc) && !inc.YList? && !inc.YStr? ==> r.Err? && r.error.ValueError?
    ensures var inc := Pop(pl, "$include");
      Truthy(inc) && inc.YStr? && inc.s !in files ==> r.Err? && r.error.FileNotFoundError?
    ensures !Truthy(Pop(pl, "$include")) ==> (r.Ok? <==> WFParticles(YDict(Stripped(pl))))
    ensures r.Ok? && !Truthy(Pop(pl, "$include")) ==> r.value.rest == Stripped(pl)
    ensures var inc := IncludeResult(Stripped(pl), Pop(pl, "$include"), files);
      inc.Err? ==> r == Err(inc.error)
    ensures var inc := IncludeResult(Stripped(pl), Pop(pl, "$include"), files);
      inc.Ok? ==> (r.Ok? <==> WFParticles(YDict(inc.value))) && (r.Ok? ==> r.value.rest == inc.value)
    ensures r.Ok? ==> Valid(r.value.rest) && WFParticles(YDict(r.value.rest))
    ensures r.Ok? ==> forall k :: k in pl.vals && !Special(k) ==>
      k in r.value.rest.vals && r.value.rest.vals[k] == pl.vals[k]
    ensures r.Ok? ==> Valid(r.value.particleMap) && Valid(r.value.props)
    ensures r.Ok? ==> forall k ::
      Get(r.value.particleMap, k) == Listed(YDict(r.value.rest), |r.value.rest.keys|, k)
    ensures r.Ok? ==> forall k ::
      (Get(r.value.props, k) ==
        Overlay(r.value.finals, k, Overlay(r.value.top, k, Props(YDict(r.value.rest), |r.value.rest.keys|, k))))
  {
    StrippedFacts(pl);
    var top := Pop(pl, "$top");
    var rest := Remove(pl, "$top");
    var finals := Pop(rest, "$finals");
    rest := Remove(rest, "$finals");
    var includes := Pop(rest, "$include");
    rest := Remove(rest, "$include");
    var included := IncludeAll(rest, includes, files);
    if included.Err? {
      return Err(included.error);
    }
    rest := included.value;
    r := ReadSection(rest, top, finals);
  }

  /** The end of `particle_item`: the particle map and properties of the section, the
      mappings under `$top` and then `$finals` overriding the properties. */
  method ReadSection(rest: Dict<string, Yaml>, top: Yaml, finals: Yaml) returns (r: Result<ParticleSection>)
    requires WellKeyed(YDict(rest)) && WellKeyed(top) && WellKeyed(finals)
    ensures r.Err? <==> !WFParticles(YDict(rest))
    ensures r.Err? ==> r.error.ValueError?
    ensures r.Ok? ==> r.value.top == top && r.value.finals == finals && r.value.rest == rest
    ensures r.Ok? ==> Valid(r.value.particleMap) && Valid(r.value.props)
    ensures r.Ok? ==> forall k :: Get(r.value.particleMap, k) == Listed(YDict(rest), |rest.keys|, k)
    ensures r.Ok? ==> forall k ::
      (Get(r.value.props, k) == Overlay(finals, k, Overlay(top, k, Props(YDict(rest), |rest.keys|, k))))
  {
    var lists := ParticleItemList(rest);
    if lists.Err? {
      return Err(lists.error);
    }
    var props := lists.value.1;
    if top.YDict? {
      props := Update(props, top.d);
    }
    if finals.YDict? {
      props := Update(props, finals.d);
    }
    return Ok(ParticleSection(lists.value.0, props, top, finals, rest));
  }

  // ---------------------------------------------------------------------------
  // rename_params

  /** `particle_key_map`: the configuration's names of particle parameters. */
  const ParticleKeyMap: map<string, string> := map[
    "Par" := "P", "m0" := "mass", "g0" := "width", "J" := "J",
    "P" := "P", "spins" := "spins", "bw" := "model", "model" := "model"]

  /** `decay_key_map`. */
  const DecayKeyMap: map<string, string> := map["model" := "model"]

  function KeyMap(isParticle: bool): map<string, string>
  {
    if isParticle then ParticleKeyMap else DecayKeyMap
  }

  /** The value `rename_params` gives the key `k2` from the first `n` parameters: that of
      the last parameter whose name maps to `k2`. */
  ghost function Renamed(params: Dict<string, Yaml>, km: map<string, string>, n: nat, k2: string): Option<Yaml>
    requires Valid(params) && n <= |params.keys|
  {
    if n == 0 then None
    else
      var k := params.keys[n - 1];
      if k in km && km[k] == k2 then Some(params.vals[k]) else Renamed(params, km, n - 1, k2)
  }

  /** `rename_params(params, is_particle)`. */
  method RenameParams(params: Dict<string, Yaml>, isParticle: bool) returns (r: Dict<string, Yaml>)
    requires Valid(params)
    ensures Valid(r)
    ensures forall k2 :: Get(r, k2) == Renamed(params, KeyMap(isParticle), |params.keys|, k2)
    ensures forall k2 :: k2 in r.vals ==> k2 in KeyMap(isParticle).Values
  {
    var km := KeyMap(isParticle);
    r := Empty();
    for n := 0 to |params.keys|
      invariant Valid(r)
      invariant forall k2 :: Get(r, k2) == Renamed(params, km, n, k2)
      invariant forall k2 :: k2 in r.vals ==> k2 in km.Values
    {
      var k := params.keys[n];
      if k in km {
        r := Put(r, km[k], params.vals[k]);
      }
    }
  }

  /** Index `i` holds the last of the first `n` parameters whose name maps to `k2`. */
  ghost predicate LastRenamedAt(params: Dict<string, Yaml>, km: map<string, string>, n: nat, k2: string, i: int)
    requires n <= |params.keys|
  {
    && 0 <= i < n && params.keys[i] in km && km[params.keys[i]] == k2
    && forall j :: i < j < n ==> !(params.keys[j] in km && km[params.keys[j]] == k2)
  }

  /** A key of the result comes from some parameter mapped to it, and its value is that of
      the last such parameter; keys no parameter maps to are absent. */
  lemma {:induction false} RenamedLast(params: Dict<string, Yaml>, km: map<string, string>, n: nat, k2: string)
    requires Valid(params) && n <= |params.keys|
    ensures Renamed(params, km, n, k2).Some? <==>
      exists i :: 0 <= i < n && params.keys[i] in km && km[params.keys[i]] == k2
    ensures forall i :: LastRenamedAt(params, km, n, k2, i) ==>
      Renamed(params, km, n, k2) == Some(params.vals[params.keys[i]])
  {
    if n > 0 {
      RenamedLast(params, km, n - 1, k2);
      forall i | LastRenamedAt(params, km, n, k2, i)
        ensures Renamed(params, km, n, k2) == Some(params.vals[params.keys[i]])
      {
        if i < n - 1 {
          assert LastRenamedAt(params, km, n - 1, k2, i);
        }
      }
    }
  }

  /** When `src` is the only parameter name mapped to `k2`, the result's `k2` is the
      parameter `src` (absent when `src` is). */
  lemma RenamedFromOnly(params: Dict<string, Yaml>, km: map<string, string>, k2: string, src: string)
    requires Valid(params)
    requires forall k :: k in params.vals && k in km && km[k] == k2 ==> k == src
    requires src in km && km[src] == k2
    ensures Renamed(params, km, |params.keys|, k2) == Get(params, src)
  {
    var n := |params.keys|;
    RenamedLast(params, km, n, k2);
    if src in params.vals {
      var i :| 0 <= i < n && params.keys[i] == src;
      forall j | i < j < n ensures !(params.keys[j] in km && km[params.keys[j]] == k2) {
        assert params.keys[j] in params.vals && params.keys[j] != params.keys[i];
      }
      assert LastRenamedAt(params, km, n, k2, i);
    } else {
      forall i | 0 <= i < n ensures !(params.keys[i] in km && km[params.keys[i]] == k2) {
        assert params.keys[i] in params.vals;
      }
    }
  }

  /** The particle parameters: `mass` is `m0`, `width` is `g0`, `J` and `spins` keep their
      names; `P` is `Par` or `P` and `model` is `bw` or `model` when only one of the two
      is given; any other name is dropped. */
  lemma ParticleRenames(params: Dict<string, Yaml>, k2: string)
    requires Valid(params)
    ensures k2 == "mass" ==> Renamed(params, ParticleKeyMap, |params.keys|, k2) == Get(params, "m0")
    ensures k2 == "width" ==> Renamed(params, ParticleKeyMap, |params.keys|, k2) == Get(params, "g0")
    ensures k2 == "J" || k2 == "spins" ==> Renamed(params, ParticleKeyMap, |params.keys|, k2) == Get(params, k2)
    ensures k2 == "P" && "Par" !in params.vals ==> Renamed(params, ParticleKeyMap, |params.keys|, k2) == Get(params, "P")
    ensures k2 == "P" && "P" !in params.vals ==> Renamed(params, ParticleKeyMap, |params.keys|, k2) == Get(params, "Par")
    ensures k2 == "model" && "bw" !in params.vals ==> Renamed(params, ParticleKeyMap, |params.keys|, k2) == Get(params, "model")
    ensures k2 == "model" && "model" !in params.vals ==> Renamed(params, ParticleKeyMap, |params.keys|, k2) == Get(params, "bw")
    ensures k2 !in ["mass", "width", "J", "spins", "P", "model"] ==> Renamed(params, ParticleKeyMap, |params.keys|, k2) == None
  {
    if k2 == "P" || k2 == "model" {
      ParticleRenamesAlternatives(params, k2);
    } else {
      ParticleRenamesSingle(params, k2);
    }
  }

  /** The particle keys with one source name each, and the keys nothing renames to. */
  lemma ParticleRenamesSingle(params: Dict<string, Yaml>, k2: string)
    requires Valid(params) && k2 != "P" && k2 != "model"
    ensures k2 == "mass" ==> Renamed(params, ParticleKeyMap, |params.keys|, k2) == Get(params, "m0")
    ensures k2 == "width" ==> Renamed(params, ParticleKeyMap, |params.keys|, k2) == Get(params, "g0")
    ensures k2 == "J" || k2 == "spins" ==> Renamed(params, ParticleKeyMap, |params.keys|, k2) == Get(params, k2)
    ensures k2 !in ["mass", "width", "J", "spins", "P", "model"] ==> Renamed(params, ParticleKeyMap, |params.keys|, k2) == None
  {
    var km := ParticleKeyMap;
    if k2 == "mass" {
      RenamedFromOnly(params, km, k2, "m0");
    } else if k2 == "width" {
      RenamedFromOnly(params, km, k2, "g0");
    } else if k2 == "J" || k2 == "spins" {
      RenamedFromOnly(params, km, k2, k2);
    } else {
      RenamedLast(params, km, |params.keys|, k2);
    }
  }

  /** `P` and `model`, which each have two source names: with only one of them given,
      its value is the one kept. */
  lemma ParticleRenamesAlternatives(params: Dict<string, Yaml>, k2: string)
    requires Valid(params) && (k2 == "P" || k2 == "model")
    ensures k2 == "P" && "Par" !in params.vals ==> Renamed(params, ParticleKeyMap, |params.keys|, k2) == Get(params, "P")
    ensures k2 == "P" && "P" !in params.vals ==> Renamed(params, ParticleKeyMap, |params.keys|, k2) == Get(params, "Par")
    ensures k2 == "model" && "bw" !in params.vals ==> Renamed(params, ParticleKeyMap, |params.keys|, k2) == Get(params, "model")
    ensures k2 == "model" && "model" !in params.vals ==> Renamed(params, ParticleKeyMap, |params.keys|, k2) == Get(params, "bw")
  {
    var km := ParticleKeyMap;
    if k2 == "P" {
      if "Par" !in params.vals {
        RenamedFromOnly(params, km, k2, "P");
      }
      if "P" !in params.vals {
        RenamedFromOnly(params, km, k2, "Par");
      }
    } else {
      if "bw" !in params.vals {
        RenamedFromOnly(params, km, k2, "model");
      }
      if "model" !in params.vals {
        RenamedFromOnly(params, km, k2, "bw");
      }
    }
  }

  /** Decay parameters: only `model` is kept, under its own name. */
  lemma DecayRenames(params: Dict<string, Yaml>, k2: string)
    requires Valid(params)
    ensures Renamed(params, DecayKeyMap, |params.keys|, k2) == if k2 == "model" then Get(params, "model") else None
  {
    if k2 == "model" {
      RenamedFromOnly(params, DecayKeyMap, k2, "model");
    } else {
      RenamedLast(params, DecayKeyMap, |params.keys|, k2);
    }
  }

  // ---------------------------------------------------------------------------
  // all_combine

  function Singletons<T>(xs: seq<T>): seq<seq<T>>
  {
    seq(|xs|, i requires 0 <= i < |xs| => [xs[i]])
  }

  lemma {:induction false} CombineLength<T>(head: seq<seq<T>>, other: seq<seq<T>>)
    ensures |ParticleGraph.Combine(head, other)| == |head| * |other|
  {
    if head != [] {
      CombineLength(head[1..], other);
      assert |head| * |other| == |other| + (|head| - 1) * |other|;
    }
  }

  /** The local `all_combine(out)` of `get_decay_struct`, as the list of what it yields:
      one element of every list, in list order.  There is one result per combination. */
  function AllCombine<T>(out: seq<seq<T>>): (r: seq<seq<T>>)
    ensures |r| == Prod(out)
  {
    if |out| < 1 then [[]]
    else
      var rest := AllCombine(out[1..]);
      CombineLength(Singletons(out[0]), rest);
      ParticleGraph.Combine(Singletons(out[0]), rest)
  }

  /** The picked elements, one per list. */
  function Picks<T>(out: seq<seq<T>>, p: seq<nat>): (r: seq<T>)
    requires |p| == |out| && forall m :: 0 <= m < |out| ==> p[m] < |out[m]|
  {
    seq(|out|, m requires 0 <= m < |out| => out[m][p[m]])
  }

  lemma FactorPositive(a: nat, b: nat)
    requires a * b > 0
    ensures b > 0
  {
  }

  lemma PicksCons<T>(out: seq<seq<T>>, p: seq<nat>)
    requires out != [] && |p| == |out| && forall m :: 0 <= m < |out| ==> p[m] < |out[m]|
    ensures Picks(out, p) == [out[0][p[0]]] + Picks(out[1..], p[1..])
  {
    var rhs := [out[0][p[0]]] + Picks(out[1..], p[1..]);
    forall m | 0 <= m < |out| ensures Picks(out, p)[m] == rhs[m] {
      if m > 0 {
        assert rhs[m] == Picks(out[1..], p[1..])[m - 1];
      }
    }
  }

  /** The k-th combination picks from each list the element given by the mixed-radix
      digits of `k`. */
  lemma {:induction false} AllCombineAt<T>(out: seq<seq<T>>, k: nat)
    requires k < Prod(out)
    ensures AllCombine(out)[k] == Picks(out, Unrank(out, k))
  {
    if out != [] {
      var t := out[1..];
      var q := Prod(t);
      assert Prod(out) == |out[0]| * q;
      FactorPositive(|out[0]|, q);
      DivBelow(k, |out[0]|, q);
      var i, j := k / q, k % q;
      AllCombineAt(t, j);
      var head, other := Singletons(out[0]), AllCombine(t);
      assert AllCombine(out) == ParticleGraph.Combine(head, other);
      ParticleGraph.CombineAt(head, other, i, j);
      assert AllCombine(out)[k] == [out[0][i]] + other[j];
      var p := Unrank(out, k);
      assert p[0] == i && p[1..] == Unrank(t, j);
      PicksCons(out, p);
    }
  }

  /** Every result holds one element of each list, in list order; the results come in
      lexicographic order of the picks, so none repeats a combination. */
  lemma AllCombineOrder<T>(out: seq<seq<T>>, k1: nat, k2: nat)
    requires k1 < k2 < |AllCombine(out)|
    ensures |AllCombine(out)[k1]| == |out|
    ensures forall m :: 0 <= m < |out| ==> AllCombine(out)[k1][m] in out[m]
    ensures Ordering.LexLess(Unrank(out, k1), Unrank(out, k2), NatLess)
    ensures AllCombine(out)[k2] == Picks(out, Unrank(out, k2))
  {
    AllCombineAt(out, k1);
    AllCombineAt(out, k2);
    UnrankIncreasing(out, k1, k2);
  }

  /** A list with no element leaves nothing to combine. */
  lemma AllCombineEmptyList<T>(out: seq<seq<T>>, m: nat)
    requires m < |out| && out[m] == []
    ensures AllCombine(out) == []
  {
    ProdZero(out, m);
  }

  lemma {:induction false} ProdZero<T>(out: seq<seq<T>>, m: nat)
    requires m < |out| && out[m] == []
    ensures Prod(out) == 0
  {
    if m > 0 {
      ProdZero(out[1..], m - 1);
    }
  }

  // ---------------------------------------------------------------------------
  // validate_file_name

  /** The characters `/ \ : * ? " < > |` that cannot appear in a file name. */
  predicate Forbidden(c: char)
  {
    c == '/' || c == '\\' || c == ':' || c == '*' || c == '?' || c == '"' || c == '<' || c == '>' || c == '|'
  }

  /** `validate_file_name(s)`: every forbidden character becomes `_`. */
  function ValidateFileName(s: string): (r: string)
    ensures |r| == |s|
    ensures forall i :: 0 <= i < |s| ==> r[i] == if Forbidden(s[i]) then '_' else s[i]
    ensures forall i :: 0 <= i < |r| ==> !Forbidden(r[i])
  {
    if s == [] then []
    else
      var c := s[|s| - 1];
      ValidateFileName(s[..|s| - 1]) + [if Forbidden(c) then '_' else c]
  }

  /** A validated name is left as it is: validating twice is validating once. */
  lemma ValidateIdempotent(s: string)
    ensures ValidateFileName(ValidateFileName(s)) == ValidateFileName(s)
  {
  }

  /** A name without forbidden characters is already valid. */
  lemma ValidateKeepsValid(s: string)
    requires forall i :: 0 <= i < |s| ==> !Forbidden(s[i])
    ensures ValidateFileName(s) == s
  {
  }
}
