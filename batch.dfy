// The all-or-nothing batch lookup shared by the user and role tables:
// an OR of `id = ?` conditions built in a loop, a filter over the table,
// and a refusal when the number of rows found differs from the number
// of ids asked for.
module Batch {
  import opened Common

  predicate Distinct<T(==)>(s: seq<T>)
  {
    forall i, j :: 0 <= i < j < |s| ==> s[i] != s[j]
  }

  /** The set of entries of a sequence. */
  function Elems<T>(s: seq<T>): set<T>
  {
    if s == [] then {} else {s[0]} + Elems(s[1..])
  }

  lemma {:induction false} ElemsIn<T>(s: seq<T>, x: T)
    ensures x in Elems(s) <==> x in s
  {
    if s != [] {
      ElemsIn(s[1..], x);
      assert x in s <==> x == s[0] || x in s[1..];
    }
  }

  /** The keys of the rows, in table order. */
  function Keys<R>(rows: seq<R>, key: R -> Uuid): (ks: seq<Uuid>)
    ensures |ks| == |rows| && forall i :: 0 <= i < |rows| ==> ks[i] == key(rows[i])
  {
    if rows == [] then [] else [key(rows[0])] + Keys(rows[1..], key)
  }

  /** The rows whose key satisfies the condition, in table order. */
  function Matching<R>(rows: seq<R>, key: R -> Uuid, wanted: set<Uuid>): (m: seq<R>)
    ensures |m| <= |rows|
  {
    if rows == [] then []
    else (if key(rows[0]) in wanted then [rows[0]] else []) + Matching(rows[1..], key, wanted)
  }

  /** The lookup: None unless exactly as many rows were found as ids were given. */
  function AllOrNothing<R>(rows: seq<R>, key: R -> Uuid, ids: seq<Uuid>): Option<seq<R>>
  {
    var m := Matching(rows, key, Elems(ids));
    if |m| != |ids| then None else Some(m)
  }

  lemma {:induction false} ElemsSnoc<T>(s: seq<T>, x: T)
    ensures Elems(s + [x]) == Elems(s) + {x}
  {
    if s == [] {
      assert s + [x] == [x];
      assert [x][1..] == [];
    } else {
      assert (s + [x])[1..] == s[1..] + [x];
      ElemsSnoc(s[1..], x);
    }
  }

  /** A sequence has as many distinct elements as entries exactly when it has no repeats. */
  lemma {:induction false} ElemsCard<T>(s: seq<T>)
    ensures |Elems(s)| <= |s|
    ensures |Elems(s)| == |s| <==> Distinct(s)
  {
    if s != [] {
      var t := s[1..];
      ElemsCard(t);
      ElemsIn(t, s[0]);
      if s[0] in t {
        var k :| 0 <= k < |t| && t[k] == s[0];
        assert s[0] == s[k + 1];
      } else {
        assert |Elems(s)| == |Elems(t)| + 1;
        if Distinct(t) {
          forall i, j | 0 <= i < j < |s| ensures s[i] != s[j] {
            assert s[j] == t[j - 1];
            if i > 0 { assert s[i] == t[i - 1]; } else { assert t[j - 1] in t; }
          }
        } else {
          var i, j :| 0 <= i < j < |t| && t[i] == t[j];
          assert s[i + 1] == s[j + 1];
        }
      }
    }
  }

  /** With unique keys, the filter finds one row per wanted key present in the table. */
  lemma {:induction false} MatchingCount<R>(rows: seq<R>, key: R -> Uuid, wanted: set<Uuid>)
    requires Distinct(Keys(rows, key))
    ensures |Matching(rows, key, wanted)| == |wanted * Elems(Keys(rows, key))|
  {
    if rows != [] {
      var k0 := key(rows[0]);
      var ks := Keys(rows, key);
      var rest := Keys(rows[1..], key);
      assert ks == [k0] + rest;
      assert Distinct(rest) by {
        forall i, j | 0 <= i < j < |rest| ensures rest[i] != rest[j] {
          assert rest[i] == ks[i + 1] && rest[j] == ks[j + 1];
        }
      }
      MatchingCount(rows[1..], key, wanted);
      var below := wanted * Elems(rest);
      assert k0 !in below by {
        forall k | 0 <= k < |rest| ensures rest[k] != k0 {
          assert rest[k] == ks[k + 1];
        }
        ElemsIn(rest, k0);
      }
      assert Elems(ks) == {k0} + Elems(rest);
      var m := Matching(rows, key, wanted);
      if k0 in wanted {
        assert m == [rows[0]] + Matching(rows[1..], key, wanted);
        assert wanted * Elems(ks) == below + {k0};
        assert |below + {k0}| == |below| + 1;
      } else {
        assert m == Matching(rows[1..], key, wanted);
        assert wanted * Elems(ks) == below;
      }
    }
  }

  /**
   * With unique keys in the table, the batch lookup succeeds exactly when the
   * ids have no repeats and every one of them is in the table. In particular a
   * list that names an id twice is always refused.
   */
  lemma AllOrNothingSpec<R>(rows: seq<R>, key: R -> Uuid, ids: seq<Uuid>)
    requires Distinct(Keys(rows, key))
    ensures AllOrNothing(rows, key, ids).Some? <==> (Distinct(ids) && Elems(ids) <= Elems(Keys(rows, key)))
  {
    var w := Elems(ids);
    var k := Elems(Keys(rows, key));
    MatchingCount(rows, key, w);
    ElemsCard(ids);
    assert |w * k| + |w - k| == |w| by {
      assert w == (w * k) + (w - k);
      assert (w * k) * (w - k) == {};
    }
    if w <= k {
      assert w * k == w;
    }
  }

  /** Every row the filter keeps is a table row with a wanted key. */
  lemma {:induction false} MatchingSound<R>(rows: seq<R>, key: R -> Uuid, wanted: set<Uuid>)
    ensures forall x :: x in Matching(rows, key, wanted) ==> x in rows && key(x) in wanted
  {
    if rows != [] {
      MatchingSound(rows[1..], key, wanted);
    }
  }

  /** `Condition::any()` with one `id = ?` added per id: the set of ids it admits. */
  method BuildCondition(ids: seq<Uuid>) returns (cond: set<Uuid>)
    ensures cond == Elems(ids)
  {
    cond := {};
    var i := 0;
    while i < |ids|
      invariant 0 <= i <= |ids|
      invariant cond == Elems(ids[..i])
    {
      assert ids[..i + 1] == ids[..i] + [ids[i]];
      ElemsSnoc(ids[..i], ids[i]);
      cond := cond + {ids[i]};
      i := i + 1;
    }
    assert ids[..i] == ids;
  }
}
