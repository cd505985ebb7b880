// Association lists that keep insertion order: a Python `dict`, and a
// Redis hash in its small encoding. Setting a key that is present
// replaces its value where it stands; a new key goes at the end.
module Assoc {
  import opened Common

  /** The position of the first entry with key `k`. */
  function Find<K(==), V>(s: seq<(K, V)>, k: K): (r: Option<nat>)
    ensures r.Some? ==> r.value < |s| && s[r.value].0 == k
    ensures r.Some? ==> forall j :: 0 <= j < r.value ==> s[j].0 != k
    ensures r.None? <==> forall j :: 0 <= j < |s| ==> s[j].0 != k
  {
    if s == [] then None
    else if s[0].0 == k then Some(0)
    else
      match Find(s[1..], k)
      case None => None
      case Some(i) => Some(i + 1)
  }

  function Get<K(==), V>(s: seq<(K, V)>, k: K): (r: Option<V>)
    ensures r.None? <==> forall j :: 0 <= j < |s| ==> s[j].0 != k
  {
    match Find(s, k)
    case None => None
    case Some(i) => Some(s[i].1)
  }

  function Keys<K, V>(s: seq<(K, V)>): (r: seq<K>)
    ensures |r| == |s| && forall i :: 0 <= i < |s| ==> r[i] == s[i].0
  {
    if s == [] then [] else [s[0].0] + Keys(s[1..])
  }

  predicate DistinctKeys<K(==), V>(s: seq<(K, V)>)
  {
    forall i, j :: 0 <= i < j < |s| ==> s[i].0 != s[j].0
  }

  /** `d[k] = v`: a present key keeps its place, a new one is appended. */
  function Put<K(==), V>(s: seq<(K, V)>, k: K, v: V): (r: seq<(K, V)>)
    ensures Find(s, k).Some? ==> r == s[Find(s, k).value := (k, v)]
    ensures Find(s, k).None? ==> r == s + [(k, v)]
  {
    match Find(s, k)
    case Some(i) => s[i := (k, v)]
    case None => s + [(k, v)]
  }

  /** Every entry with key `k` taken out, the others in order. */
  function Remove<K(==), V>(s: seq<(K, V)>, k: K): (r: seq<(K, V)>)
    ensures |r| <= |s|
    ensures forall j :: 0 <= j < |r| ==> r[j].0 != k
  {
    if s == [] then []
    else (if s[0].0 == k then [] else [s[0]]) + Remove(s[1..], k)
  }

  /** In a list without repeated keys, the first entry with a key is its only entry. */
  lemma FindDistinct<K, V>(s: seq<(K, V)>, i: nat)
    requires DistinctKeys(s) && i < |s|
    ensures Find(s, s[i].0) == Some(i)
  {
  }

  /** After `d[k] = v`, looking up `k` gives `v` and every other key is unchanged. */
  lemma PutGet<K, V>(s: seq<(K, V)>, k: K, v: V, j: K)
    ensures Get(Put(s, k, v), j) == if j == k then Some(v) else Get(s, j)
  {
    var r := Put(s, k, v);
    if j == k {
      match Find(s, k)
      case Some(i) =>
        assert r[i] == (k, v);
        assert forall j :: 0 <= j < i ==> r[j] == s[j];
      case None =>
        FindLast(s, k, v);
    } else {
      PutGetOther(s, k, v, j);
    }
  }

  lemma {:induction false} FindLast<K, V>(s: seq<(K, V)>, k: K, v: V)
    requires Find(s, k).None?
    ensures Find(s + [(k, v)], k) == Some(|s|)
  {
    if s != [] {
      assert (s + [(k, v)])[1..] == s[1..] + [(k, v)];
      FindLast(s[1..], k, v);
    }
  }

  lemma GetTail<K, V>(s: seq<(K, V)>, j: K)
    requires s != [] && s[0].0 != j
    ensures Get(s, j) == Get(s[1..], j)
  {
    match Find(s[1..], j)
    case None =>
    case Some(i) =>
      assert s[i + 1] == s[1..][i];
  }

  lemma {:induction false} PutGetOther<K, V>(s: seq<(K, V)>, k: K, v: V, j: K)
    requires j != k
    ensures Get(Put(s, k, v), j) == Get(s, j)
  {
    var r := Put(s, k, v);
    if s == [] {
      assert r == [(k, v)];
      GetTail(r, j);
    } else if s[0].0 == k {
      assert r == s[0 := (k, v)];
      assert r[1..] == s[1..];
      GetTail(r, j);
      GetTail(s, j);
    } else {
      var t := Put(s[1..], k, v);
      assert r == [s[0]] + t by {
        match Find(s[1..], k)
        case None =>
          assert Find(s, k).None?;
          assert s == [s[0]] + s[1..];
        case Some(i) =>
          assert Find(s, k) == Some(i + 1);
          assert t == s[1..][i := (k, v)];
          assert s == [s[0]] + s[1..];
      }
      assert r[1..] == t;
      if s[0].0 == j {
        assert Find(r, j) == Some(0) && Find(s, j) == Some(0);
      } else {
        GetTail(r, j);
        GetTail(s, j);
        PutGetOther(s[1..], k, v, j);
      }
    }
  }

  /** `d[k] = v` keeps the keys distinct. */
  lemma PutDistinct<K, V>(s: seq<(K, V)>, k: K, v: V)
    requires DistinctKeys(s)
    ensures DistinctKeys(Put(s, k, v))
  {
  }

  /** Removing `k` leaves nothing under `k` and every other key as it was. */
  lemma {:induction false} RemoveGet<K, V>(s: seq<(K, V)>, k: K, j: K)
    ensures Get(Remove(s, k), j) == if j == k then None else Get(s, j)
  {
    if s != [] {
      RemoveGet(s[1..], k, j);
      var r := Remove(s, k);
      if s[0].0 == k {
        assert r == Remove(s[1..], k);
      } else {
        assert r == [s[0]] + Remove(s[1..], k);
        assert r[1..] == Remove(s[1..], k);
      }
    }
  }
}
