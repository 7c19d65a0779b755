/** A Python `dict` with string keys: a map together with the insertion
    order of its keys, which is the order `dict.values()` reports. */
module PyDict {

  /** `x` occurs at most once in `s`. */
  ghost predicate NoDuplicates(s: seq<string>) {
    forall i, j :: 0 <= i < j < |s| ==> s[i] != s[j]
  }

  /** `s` without its occurrences of `k`, the rest in order. */
  function RemoveKey(s: seq<string>, k: string): (r: seq<string>)
    ensures forall x :: x in r <==> x in s && x != k
    ensures k !in s ==> r == s
    ensures NoDuplicates(s) ==> NoDuplicates(r)
    ensures NoDuplicates(s) && k in s ==> |r| == |s| - 1
  {
    if s == [] then []
    else if s[0] == k then RemoveKey(s[1..], k)
    else
      var rest := RemoveKey(s[1..], k);
      assert NoDuplicates(s) ==> forall j :: 0 <= j < |s| - 1 ==> s[1..][j] != s[0];
      assert NoDuplicates(s) ==> NoDuplicates(s[1..]) && s[0] !in rest;
      assert NoDuplicates(s) ==> forall j :: 0 <= j < |rest| ==> ([s[0]] + rest)[j + 1] == rest[j];
      [s[0]] + rest
  }

  /** In a list without duplicates, removing the key at position `i` cuts
      out exactly that position and keeps the other keys in their order. */
  lemma {:induction false} RemoveKeyAt(s: seq<string>, i: nat)
    requires NoDuplicates(s) && i < |s|
    ensures RemoveKey(s, s[i]) == s[..i] + s[i + 1..]
  {
    if i == 0 {
      assert s[1..] == s[..0] + s[1..];
      assert s[i] !in s[1..];
    } else {
      assert NoDuplicates(s[1..]);
      assert s[1..][i - 1] == s[i];
      RemoveKeyAt(s[1..], i - 1);
      assert s[..i] + s[i + 1..] == [s[0]] + (s[1..][..i - 1] + s[1..][i..]);
    }
  }

  datatype Dict<V> = Dict(keys: seq<string>, items: map<string, V>) {

    /** The key order lists each key of the map exactly once. */
    ghost predicate Valid() {
      && NoDuplicates(keys)
      && (forall k :: k in keys <==> k in items)
    }

    /** `d[k] = v`: a new key goes to the end, an existing key keeps its place. */
    function Put(k: string, v: V): (r: Dict<V>)
      requires Valid()
      ensures r.Valid()
      ensures r.items == items[k := v]
      ensures k in items ==> r.keys == keys
      ensures k !in items ==> r.keys == keys + [k]
    {
      Dict(if k in items then keys else keys + [k], items[k := v])
    }

    /** `d.pop(k, None)`: drops `k` if present and is a no-op otherwise. */
    function Pop(k: string): (r: Dict<V>)
      requires Valid()
      ensures r.Valid()
      ensures r.items == items - {k}
      ensures r.keys == RemoveKey(keys, k)
      ensures k !in items ==> r == this
    {
      Dict(RemoveKey(keys, k), items - {k})
    }

    /** `list(d.values())`: the values in key insertion order. */
    function Values(): (r: seq<V>)
      requires Valid()
      ensures |r| == |keys|
      ensures forall i :: 0 <= i < |keys| ==> r[i] == items[keys[i]]
    {
      seq(|keys|, i requires 0 <= i < |keys| => items[keys[i]])
    }
  }

  /** A sequence without duplicates has as many distinct elements as entries. */
  lemma {:induction false} DistinctCount(s: seq<string>)
    requires NoDuplicates(s)
    ensures |set x | x in s| == |s|
  {
    if s != [] {
      assert forall j :: 0 <= j < |s| - 1 ==> s[1..][j] != s[0];
      DistinctCount(s[1..]);
      assert (set x | x in s) == {s[0]} + (set x | x in s[1..]);
    }
  }

  /** A valid dict has as many keys in its order as entries in its map. */
  lemma SizeMatches<V>(d: Dict<V>)
    requires d.Valid()
    ensures |d.items| == |d.keys|
  {
    DistinctCount(d.keys);
    assert d.items.Keys == set x | x in d.keys;
  }
}
