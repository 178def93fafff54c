/** Python's `dict`, as the dataset classes use it: a key maps to one value,
    iteration follows first insertion, and assigning to a present key
    replaces its value where it stands. */
module OrderedDict {

  /** The keys in insertion order and the value under each. */
  datatype Dict<K(==,!new), V> = Dict(keys: seq<K>, entries: map<K, V>)

  /** The key list has no repeats and names exactly the map's keys. */
  ghost predicate Valid<K(!new), V>(d: Dict<K, V>) {
    (forall i, j :: 0 <= i < j < |d.keys| ==> d.keys[i] != d.keys[j])
    && (forall k :: k in d.entries <==> k in d.keys)
  }

  /** `dict()`. */
  function Empty<K(==,!new), V>(): (d: Dict<K, V>)
    ensures Valid(d) && |d.keys| == 0
  {
    Dict([], map[])
  }

  /** `len(d)`: the number of keys stored. */
  function Len<K(==,!new), V>(d: Dict<K, V>): (r: nat)
    ensures Valid(d) ==> r == |d.entries|
  {
    LenCountsEntries(d);
    |d.keys|
  }

  /** A list without repeats has as many elements as the set it holds. */
  lemma {:induction false} DistinctCard<K>(ks: seq<K>)
    requires forall i, j :: 0 <= i < j < |ks| ==> ks[i] != ks[j]
    ensures |set k | k in ks| == |ks|
  {
    if ks != [] {
      var front, last := ks[..|ks| - 1], ks[|ks| - 1];
      assert forall i :: 0 <= i < |front| ==> front[i] == ks[i];
      DistinctCard(front);
      assert (set k | k in ks) == (set k | k in front) + {last};
      assert last !in (set k | k in front);
    }
  }

  /** In a valid dictionary the key list and the map have the same size. */
  lemma LenCountsEntries<K(!new), V>(d: Dict<K, V>)
    ensures Valid(d) ==> |d.entries| == |d.keys|
  {
    if Valid(d) {
      DistinctCard(d.keys);
      assert d.entries.Keys == set k | k in d.keys;
    }
  }

  /** `d[k] = v`: a new key goes to the end, a present key keeps its place. */
  function Put<K(==,!new), V>(d: Dict<K, V>, k: K, v: V): (r: Dict<K, V>)
    ensures Valid(d) ==> Valid(r)
    ensures |r.keys| == |d.keys| + (if k in d.entries then 0 else 1)
    ensures r.keys[..|d.keys|] == d.keys
  {
    if k in d.entries then Dict(d.keys, d.entries[k := v])
    else Dict(d.keys + [k], d.entries[k := v])
  }

  /** After `d[k] = v`, `k` holds `v` and every other key is as before. */
  lemma PutLookup<K(!new), V>(d: Dict<K, V>, k: K, v: V, j: K)
    ensures k in Put(d, k, v).entries && Put(d, k, v).entries[k] == v
    ensures j != k ==> (j in Put(d, k, v).entries <==> j in d.entries)
    ensures j != k && j in d.entries ==> Put(d, k, v).entries[j] == d.entries[j]
  {
  }

  /** `list(d.values())`. */
  function Values<K(==,!new), V>(d: Dict<K, V>): (r: seq<V>)
    requires Valid(d)
    ensures |r| == |d.keys|
    ensures forall i :: 0 <= i < |r| ==> r[i] == d.entries[d.keys[i]]
  {
    seq(|d.keys|, i requires 0 <= i < |d.keys| => d.entries[d.keys[i]])
  }

  /** `for e in es: d[key(e)] = e`. */
  function PutEach<K(==,!new), V>(d: Dict<K, V>, es: seq<V>, key: V -> K): Dict<K, V> {
    if es == [] then d
    else
      var last := es[|es| - 1];
      Put(PutEach(d, es[..|es| - 1], key), key(last), last)
  }

  /** Inserting a list keeps the dictionary well formed, and keeps every key
      already present in its place. */
  lemma {:induction false} PutEachValid<K(!new), V>(d: Dict<K, V>, es: seq<V>, key: V -> K)
    requires Valid(d)
    ensures Valid(PutEach(d, es, key))
    ensures |PutEach(d, es, key).keys| >= |d.keys|
    ensures PutEach(d, es, key).keys[..|d.keys|] == d.keys
  {
    if es != [] {
      var front := PutEach(d, es[..|es| - 1], key);
      PutEachValid(d, es[..|es| - 1], key);
      var r := PutEach(d, es, key);
      assert r.keys[..|front.keys|] == front.keys;
      assert r.keys[..|d.keys|] == front.keys[..|d.keys|];
    }
  }

  /** After inserting a list, a key is present when it was before or when
      an element of the list has it. */
  lemma {:induction false} PutEachHas<K(!new), V>(d: Dict<K, V>, es: seq<V>, key: V -> K, k: K)
    ensures k in PutEach(d, es, key).entries <==> k in d.entries || exists i :: 0 <= i < |es| && key(es[i]) == k
  {
    if es != [] {
      var n := |es| - 1;
      PutEachHas(d, es[..n], key, k);
      PutLookup(PutEach(d, es[..n], key), key(es[n]), es[n], k);
      assert forall i :: 0 <= i < n ==> es[..n][i] == es[i];
    }
  }

  /** A key holds the LAST element of the list with that key: later
      duplicates overwrite earlier ones. */
  lemma {:induction false} PutEachLast<K(!new), V>(d: Dict<K, V>, es: seq<V>, key: V -> K, i: nat)
    requires i < |es|
    requires forall j :: i < j < |es| ==> key(es[j]) != key(es[i])
    ensures key(es[i]) in PutEach(d, es, key).entries
    ensures PutEach(d, es, key).entries[key(es[i])] == es[i]
  {
    var n := |es| - 1;
    PutLookup(PutEach(d, es[..n], key), key(es[n]), es[n], key(es[i]));
    if i < n {
      PutEachLast(d, es[..n], key, i);
    }
  }

  /** A key no element of the list has keeps its old value. */
  lemma {:induction false} PutEachUntouched<K(!new), V>(d: Dict<K, V>, es: seq<V>, key: V -> K, k: K)
    requires k in d.entries
    requires forall i :: 0 <= i < |es| ==> key(es[i]) != k
    ensures k in PutEach(d, es, key).entries && PutEach(d, es, key).entries[k] == d.entries[k]
  {
    if es != [] {
      var n := |es| - 1;
      PutEachUntouched(d, es[..n], key, k);
      PutLookup(PutEach(d, es[..n], key), key(es[n]), es[n], k);
    }
  }

  /** A key neither the dictionary nor the list has stays absent. */
  lemma {:induction false} PutEachMissing<K(!new), V>(d: Dict<K, V>, es: seq<V>, key: V -> K, k: K)
    requires k !in d.entries
    requires forall i :: 0 <= i < |es| ==> key(es[i]) != k
    ensures k !in PutEach(d, es, key).entries
  {
    if es != [] {
      var n := |es| - 1;
      PutEachMissing(d, es[..n], key, k);
      PutLookup(PutEach(d, es[..n], key), key(es[n]), es[n], k);
    }
  }

  /** Assigning to a new key appends its value to the values. */
  lemma PutFreshValues<K(!new), V>(d: Dict<K, V>, k: K, v: V)
    requires Valid(d) && k !in d.entries
    ensures Values(Put(d, k, v)) == Values(d) + [v]
  {
    var r := Put(d, k, v);
    forall i | 0 <= i < |d.keys| ensures Values(r)[i] == Values(d)[i] {
      assert r.keys[i] == d.keys[i];
      PutLookup(d, k, v, d.keys[i]);
    }
    PutLookup(d, k, v, k);
  }

  /** No two elements of `es` have the same key. */
  predicate DistinctKeys<K(==), V>(es: seq<V>, key: V -> K) {
    forall i, j :: 0 <= i < j < |es| ==> key(es[i]) != key(es[j])
  }

  lemma FrontAndLast<V>(es: seq<V>)
    requires es != []
    ensures es[..|es| - 1] + [es[|es| - 1]] == es
  {
  }

  lemma DistinctFront<K(!new), V>(es: seq<V>, key: V -> K)
    requires es != [] && DistinctKeys(es, key)
    ensures DistinctKeys(es[..|es| - 1], key)
    ensures forall i :: 0 <= i < |es| - 1 ==> key(es[i]) != key(es[|es| - 1])
  {
  }

  /** Assigning every element of a list with distinct keys to an empty
      dictionary stores the whole list, in order. */
  lemma {:induction false} PutEachDistinct<K(!new), V>(es: seq<V>, key: V -> K)
    requires DistinctKeys(es, key)
    ensures Valid(PutEach(Empty(), es, key))
    ensures Values(PutEach(Empty(), es, key)) == es
  {
    PutEachValid(Empty(), es, key);
    if es != [] {
      var n := |es| - 1;
      var front, last := es[..n], es[n];
      DistinctFront(es, key);
      PutEachDistinct(front, key);
      PutEachMissing(Empty(), front, key, key(last));
      var f := PutEach(Empty(), front, key);
      PutFreshValues(f, key(last), last);
      FrontAndLast(es);
    }
  }
}
