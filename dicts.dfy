/**
  Python's insertion-ordered `dict` with string keys, as a sequence of
  (key, value) pairs. Assigning to an existing key keeps its position and
  replaces its value; a new key goes last. The calculator iterates such
  dicts with `.items()`, so their order matters to it.
 */
module Dicts {
  import opened Results

  type Dict<V> = seq<(string, V)>

  /** The keys in iteration order (with repeats, for a sequence of pairs that has them). */
  function Keys<V>(d: Dict<V>): (ks: seq<string>)
    ensures |ks| == |d|
    ensures forall i :: 0 <= i < |d| ==> ks[i] == d[i].0
  {
    if d == [] then [] else [d[0].0] + Keys(d[1..])
  }

  ghost predicate Distinct(ks: seq<string>) {
    forall i, j :: 0 <= i < j < |ks| ==> ks[i] != ks[j]
  }

  /** What every Python dict satisfies: no key twice. */
  ghost predicate DistinctKeys<V>(d: Dict<V>) {
    Distinct(Keys(d))
  }

  /** `d.get(k)`: the value stored under `k`, if any. */
  function Get<V>(d: Dict<V>, k: string): (r: Option<V>)
    ensures r.None? <==> k !in Keys(d)
    ensures r.Some? ==> exists i :: 0 <= i < |d| && d[i] == (k, r.value)
  {
    if d == [] then None
    else if d[0].0 == k then Some(d[0].1)
    else
      var found := Get(d[1..], k);
      assert found.Some? ==> exists i :: 0 <= i < |d[1..]| && d[1..][i] == (k, found.value);
      assert forall i :: 0 <= i < |d[1..]| ==> d[1..][i] == d[i + 1];
      found
  }

  /** The key order after assigning `k`: unchanged when `k` is present, `k` last otherwise. */
  function AddKey(ks: seq<string>, k: string): seq<string> {
    if k in ks then ks else ks + [k]
  }

  /** The key order after assigning the keys `more`, one after the other. */
  function AddKeys(ks: seq<string>, more: seq<string>): seq<string>
    decreases |more|
  {
    if more == [] then ks else AddKeys(AddKey(ks, more[0]), more[1..])
  }

  /** `d[k] = v`. */
  function Put<V>(d: Dict<V>, k: string, v: V): (r: Dict<V>)
    ensures Get(r, k) == Some(v)
    ensures forall j :: j != k ==> Get(r, j) == Get(d, j)
    ensures Keys(r) == AddKey(Keys(d), k)
    ensures DistinctKeys(d) ==> DistinctKeys(r)
    decreases |d|
  {
    if d == [] then [(k, v)]
    else if d[0].0 == k then
      var replaced := [(k, v)] + d[1..];
      assert Keys(replaced) == Keys(d) by {
        assert forall i :: 0 <= i < |d| ==> Keys(replaced)[i] == Keys(d)[i];
      }
      replaced
    else
      var rest := Put(d[1..], k, v);
      var kept := [d[0]] + rest;
      PutKeysStep(d, k, Keys(rest), Keys(kept));
      AddKeyDistinct(Keys(d), k);
      kept
  }

  lemma PutKeysStep<V>(d: Dict<V>, k: string, restKeys: seq<string>, keys: seq<string>)
    requires d != [] && d[0].0 != k
    requires restKeys == AddKey(Keys(d[1..]), k)
    requires keys == [d[0].0] + restKeys
    ensures keys == AddKey(Keys(d), k)
  {
    assert Keys(d) == [d[0].0] + Keys(d[1..]);
    if k !in Keys(d[1..]) {
      assert [d[0].0] + (Keys(d[1..]) + [k]) == Keys(d) + [k];
    }
  }

  lemma AddKeyDistinct(ks: seq<string>, k: string)
    ensures Distinct(ks) ==> Distinct(AddKey(ks, k))
  {
  }

  /** Assigning keys one after the other never repeats a key. */
  lemma {:induction false} AddKeysDistinct(ks: seq<string>, more: seq<string>)
    ensures Distinct(ks) ==> Distinct(AddKeys(ks, more))
    decreases |more|
  {
    if more != [] {
      AddKeyDistinct(ks, more[0]);
      AddKeysDistinct(AddKey(ks, more[0]), more[1..]);
    }
  }

  /** `{**d, **pairs}`, or `d[k] = v` for each pair in order. */
  function Update<V>(d: Dict<V>, pairs: seq<(string, V)>): (r: Dict<V>)
    ensures Keys(r) == AddKeys(Keys(d), Keys(pairs))
    ensures DistinctKeys(d) ==> DistinctKeys(r)
    decreases |pairs|
  {
    if pairs == [] then d
    else
      assert Keys(pairs) == [pairs[0].0] + Keys(pairs[1..]);
      Update(Put(d, pairs[0].0, pairs[0].1), pairs[1..])
  }

  /** The value of the last pair with key `k`: the one a run of assignments leaves behind. */
  function Last<V>(pairs: seq<(string, V)>, k: string): Option<V>
    decreases |pairs|
  {
    if pairs == [] then None
    else match Last(pairs[1..], k)
      case Some(v) => Some(v)
      case None => if pairs[0].0 == k then Some(pairs[0].1) else None
  }

  /** After `{**d, **pairs}` a key holds its last value in `pairs`, or its value in `d` if `pairs` lacks it. */
  lemma {:induction false} UpdateGet<V>(d: Dict<V>, pairs: seq<(string, V)>, k: string)
    ensures Get(Update(d, pairs), k) == if Last(pairs, k).Some? then Last(pairs, k) else Get(d, k)
    decreases |pairs|
  {
    if pairs != [] {
      UpdateGet(Put(d, pairs[0].0, pairs[0].1), pairs[1..], k);
    }
  }

  /** Of the pairs with key `k`, the last one decides. */
  lemma {:induction false} LastAt<V>(pairs: seq<(string, V)>, k: string, i: nat)
    requires i < |pairs| && pairs[i].0 == k
    requires forall j :: i < j < |pairs| ==> pairs[j].0 != k
    ensures Last(pairs, k) == Some(pairs[i].1)
    decreases i
  {
    if i == 0 {
      LastMissing(pairs[1..], k);
    } else {
      LastAt(pairs[1..], k, i - 1);
    }
  }

  lemma {:induction false} LastMissing<V>(pairs: seq<(string, V)>, k: string)
    requires forall j :: 0 <= j < |pairs| ==> pairs[j].0 != k
    ensures Last(pairs, k) == None
    decreases |pairs|
  {
    if pairs != [] {
      LastMissing(pairs[1..], k);
    }
  }

  /** In a dict without repeated keys the last pair with a key is the only one. */
  lemma LastIsGet<V>(d: Dict<V>, k: string)
    requires DistinctKeys(d)
    ensures Last(d, k) == Get(d, k)
  {
    if k in Keys(d) {
      var i :| 0 <= i < |d| && d[i] == (k, Get(d, k).value);
      LastAt(d, k, i);
    } else {
      LastMissing(d, k);
    }
  }

  /** Assigning more keys keeps the earlier keys first, in their order, and adds exactly the new ones. */
  lemma {:induction false} AddKeysKeepsPrefix(ks: seq<string>, more: seq<string>)
    ensures |AddKeys(ks, more)| >= |ks| && AddKeys(ks, more)[..|ks|] == ks
    ensures forall k :: k in AddKeys(ks, more) <==> k in ks || k in more
    decreases |more|
  {
    if more != [] {
      AddKeysKeepsPrefix(AddKey(ks, more[0]), more[1..]);
      var mid := AddKey(ks, more[0]);
      assert mid[..|ks|] == ks;
      assert forall k :: k in more <==> k == more[0] || k in more[1..];
    }
  }
}
