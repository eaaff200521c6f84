/**
 * Plain JavaScript objects with string keys, as `Object.entries` lists them:
 * a key appears once, keys keep their insertion order, assigning to an existing
 * key overwrites its value in place and assigning to a new key appends it.
 * `Object.assign` and object spread are repeated assignment.
 */
module ObjectEntries {
  import opened Wrappers

  type Entries<V> = seq<(string, V)>

  /** `Object.keys`. */
  function Keys<V>(e: Entries<V>): (ks: seq<string>)
    ensures |ks| == |e|
    ensures forall i :: 0 <= i < |e| ==> ks[i] == e[i].0
  {
    if e == [] then [] else [e[0].0] + Keys(e[1..])
  }

  predicate Distinct(ks: seq<string>)
  {
    forall i, j :: 0 <= i < j < |ks| ==> ks[i] != ks[j]
  }

  /** No key appears twice, as in any object. */
  predicate DistinctKeys<V>(e: Entries<V>)
  {
    Distinct(Keys(e))
  }

  /** `obj[k]`, `None` standing for `undefined`. */
  function Get<V>(e: Entries<V>, k: string): (r: Option<V>)
    ensures r.Some? <==> k in Keys(e)
  {
    if e == [] then None else if e[0].0 == k then Some(e[0].1) else Get(e[1..], k)
  }

  /** `obj[k] = v`. */
  function Set<V>(e: Entries<V>, k: string, v: V): Entries<V>
  {
    if e == [] then [(k, v)]
    else if e[0].0 == k then [(k, v)] + e[1..]
    else [e[0]] + Set(e[1..], k, v)
  }

  /** `Object.assign(target, source)`: the entries of `source` assigned in their order. */
  function AssignAll<V>(target: Entries<V>, source: Entries<V>): Entries<V>
    decreases |source|
  {
    if source == [] then target else AssignAll(Set(target, source[0].0, source[0].1), source[1..])
  }

  /** The key order after assigning `source`: the old keys, then each new key where it first appears. */
  function AppendNewKeys<V>(keys: seq<string>, source: Entries<V>): seq<string>
    decreases |source|
  {
    if source == [] then keys
    else AppendNewKeys(if source[0].0 in keys then keys else keys + [source[0].0], source[1..])
  }

  /** Assignment appends a new key and leaves the key order alone otherwise. */
  lemma {:induction false} SetKeys<V>(e: Entries<V>, k: string, v: V)
    ensures Keys(Set(e, k, v)) == if k in Keys(e) then Keys(e) else Keys(e) + [k]
  {
    if e != [] && e[0].0 != k {
      SetKeys(e[1..], k, v);
      assert Keys(e) == [e[0].0] + Keys(e[1..]);
    }
  }

  /** After `obj[k] = v`, reading `k` gives `v` and every other key reads as before. */
  lemma {:induction false} SetGet<V>(e: Entries<V>, k: string, v: V, j: string)
    ensures Get(Set(e, k, v), j) == if j == k then Some(v) else Get(e, j)
  {
    if e != [] && e[0].0 != k {
      SetGet(e[1..], k, v, j);
    }
  }

  /** `Object.assign` orders the keys as `AppendNewKeys` says. */
  lemma {:induction false} AssignAllKeys<V>(target: Entries<V>, source: Entries<V>)
    ensures Keys(AssignAll(target, source)) == AppendNewKeys(Keys(target), source)
    decreases |source|
  {
    if source != [] {
      SetKeys(target, source[0].0, source[0].1);
      AssignAllKeys(Set(target, source[0].0, source[0].1), source[1..]);
    }
  }

  /** The old keys come first, and the keys are exactly the old ones and those of `source`. */
  lemma {:induction false} AppendNewKeysSpec<V>(keys: seq<string>, source: Entries<V>)
    ensures |keys| <= |AppendNewKeys(keys, source)| && AppendNewKeys(keys, source)[..|keys|] == keys
    ensures forall k :: k in AppendNewKeys(keys, source) <==> k in keys || k in Keys(source)
    decreases |source|
  {
    if source != [] {
      var next := if source[0].0 in keys then keys else keys + [source[0].0];
      AppendNewKeysSpec(next, source[1..]);
      assert Keys(source) == [source[0].0] + Keys(source[1..]);
      assert next[..|keys|] == keys;
    }
  }

  /** Appending only new keys keeps the keys distinct. */
  lemma {:induction false} AppendNewKeysDistinct<V>(keys: seq<string>, source: Entries<V>)
    requires Distinct(keys)
    ensures Distinct(AppendNewKeys(keys, source))
    decreases |source|
  {
    if source != [] {
      var next := if source[0].0 in keys then keys else keys + [source[0].0];
      forall i, j | 0 <= i < j < |next|
        ensures next[i] != next[j]
      {
        if j == |keys| {
          assert next[j] == source[0].0 && source[0].0 !in keys;
          assert next[i] == keys[i];
        }
      }
      AppendNewKeysDistinct(next, source[1..]);
    }
  }

  /**
   * After `Object.assign(target, source)` with an object `source`, a key of
   * `source` reads as in `source` and any other key reads as in `target`.
   */
  lemma {:induction false} AssignAllGet<V>(target: Entries<V>, source: Entries<V>, j: string)
    requires DistinctKeys(source)
    ensures Get(AssignAll(target, source), j) == if j in Keys(source) then Get(source, j) else Get(target, j)
    decreases |source|
  {
    if source != [] {
      var t := Set(target, source[0].0, source[0].1);
      assert Keys(source) == [source[0].0] + Keys(source[1..]);
      assert Keys(source[1..]) == Keys(source)[1..];
      AssignAllGet(t, source[1..], j);
      SetGet(target, source[0].0, source[0].1, j);
      if j == source[0].0 {
        assert j !in Keys(source[1..]) by {
          forall a | 0 <= a < |source[1..]|
            ensures Keys(source[1..])[a] != j
          {
            assert Keys(source[1..])[a] == Keys(source)[a + 1];
          }
        }
      }
    }
  }

  /** The keys of an assignment are distinct when those of the target are. */
  lemma AssignAllDistinct<V>(target: Entries<V>, source: Entries<V>)
    requires DistinctKeys(target)
    ensures DistinctKeys(AssignAll(target, source))
  {
    AssignAllKeys(target, source);
    AppendNewKeysDistinct(Keys(target), source);
  }
}
