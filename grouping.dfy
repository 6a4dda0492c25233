/**
 * The insert-or-append fold both font-files handlers use to build their
 * `path -> [face]` map: for each (key, value) in input order, push the value
 * onto the key's list if the key is present, otherwise insert a one-element list.
 * This module states what that map holds, independently of the loops.
 */
module Grouping {

  /** The values filed under `key`, in input order. */
  function Faces<K(==), V>(pairs: seq<(K, V)>, key: K): (r: seq<V>)
    ensures |r| <= |pairs|
  {
    if pairs == [] then []
    else
      var last := pairs[|pairs| - 1];
      Faces(pairs[..|pairs| - 1], key) + (if last.0 == key then [last.1] else [])
  }

  /** The keys that occur in the input. */
  function KeysOf<K(==), V>(pairs: seq<(K, V)>): set<K>
  {
    set i | 0 <= i < |pairs| :: pairs[i].0
  }

  /** Position of input `i` inside its key's list: the number of earlier inputs with that key. */
  function Rank<K(==), V>(pairs: seq<(K, V)>, i: nat): nat
    requires i < |pairs|
  {
    |Faces(pairs[..i], pairs[i].0)|
  }

  predicate NoDuplicates<K(==)>(ks: seq<K>)
  {
    forall i, j :: 0 <= i < j < |ks| ==> ks[i] != ks[j]
  }

  /** The keys in order of first occurrence, each once. */
  function DistinctKeys<K(==, !new), V>(pairs: seq<(K, V)>): (ks: seq<K>)
    ensures NoDuplicates(ks)
    ensures forall k :: k in ks <==> k in KeysOf(pairs)
  {
    if pairs == [] then []
    else
      var init := pairs[..|pairs| - 1];
      var k := pairs[|pairs| - 1].0;
      var ks := DistinctKeys(init);
      assert forall x :: x in KeysOf(pairs) <==> x in KeysOf(init) || x == k by {
        forall x | x in KeysOf(pairs) ensures x in KeysOf(init) || x == k {
          var i :| 0 <= i < |pairs| && pairs[i].0 == x;
          if i < |init| { assert init[i] == pairs[i]; }
        }
        forall x | x in KeysOf(init) ensures x in KeysOf(pairs) {
          var i :| 0 <= i < |init| && init[i].0 == x;
          assert pairs[i] == init[i];
        }
      }
      if k in ks then ks else ks + [k]
  }

  /** Sum of the list lengths of the given keys. */
  function SumFaces<K(==), V>(pairs: seq<(K, V)>, ks: seq<K>): nat
  {
    if ks == [] then 0 else SumFaces(pairs, ks[..|ks| - 1]) + |Faces(pairs, ks[|ks| - 1])|
  }

  lemma {:induction false} FacesAppend<K, V>(a: seq<(K, V)>, b: seq<(K, V)>, key: K)
    ensures Faces(a + b, key) == Faces(a, key) + Faces(b, key)
  {
    if b == [] {
      assert a + b == a;
    } else {
      assert (a + b)[..|a + b| - 1] == a + b[..|b| - 1];
      FacesAppend(a, b[..|b| - 1], key);
    }
  }

  /** A key has a non-empty list exactly when it occurs in the input. */
  lemma {:induction false} FacesNonEmpty<K, V>(pairs: seq<(K, V)>, key: K)
    ensures |Faces(pairs, key)| > 0 <==> key in KeysOf(pairs)
  {
    if pairs != [] {
      var init := pairs[..|pairs| - 1];
      FacesNonEmpty(init, key);
      if key in KeysOf(pairs) && pairs[|pairs| - 1].0 != key {
        var i :| 0 <= i < |pairs| && pairs[i].0 == key;
        assert init[i] == pairs[i];
      }
      if key in KeysOf(init) {
        var i :| 0 <= i < |init| && init[i].0 == key;
        assert pairs[i] == init[i];
      }
    }
  }

  /** Input `i` sits in its key's list at position `Rank(pairs, i)`. */
  lemma {:induction false} FaceAtRank<K, V>(pairs: seq<(K, V)>, i: nat)
    requires i < |pairs|
    ensures Rank(pairs, i) < |Faces(pairs, pairs[i].0)|
    ensures Faces(pairs, pairs[i].0)[Rank(pairs, i)] == pairs[i].1
  {
    var key := pairs[i].0;
    assert pairs == pairs[..i + 1] + pairs[i + 1..];
    FacesAppend(pairs[..i + 1], pairs[i + 1..], key);
    assert pairs[..i + 1][..i] == pairs[..i];
  }

  /** Two inputs with the same key keep their relative order in that key's list. */
  lemma {:induction false} RankOrder<K, V>(pairs: seq<(K, V)>, i: nat, j: nat)
    requires i < j < |pairs| && pairs[i].0 == pairs[j].0
    ensures Rank(pairs, i) < Rank(pairs, j)
  {
    var key := pairs[i].0;
    assert pairs[..j] == pairs[..i + 1] + pairs[i + 1..j];
    FacesAppend(pairs[..i + 1], pairs[i + 1..j], key);
    assert pairs[..i + 1][..i] == pairs[..i];
  }

  /** Every entry of a key's list comes from an input with that key. */
  lemma {:induction false} FaceOrigin<K, V>(pairs: seq<(K, V)>, key: K, n: nat)
    requires n < |Faces(pairs, key)|
    ensures exists i :: 0 <= i < |pairs| && pairs[i].0 == key && Rank(pairs, i) == n
  {
    var init := pairs[..|pairs| - 1];
    if n < |Faces(init, key)| {
      FaceOrigin(init, key, n);
      var i :| 0 <= i < |init| && init[i].0 == key && Rank(init, i) == n;
      assert init[..i] == pairs[..i];
      assert pairs[i] == init[i];
    } else {
      assert pairs[..|pairs| - 1] == init;
    }
  }

  lemma {:induction false} SumFacesStep<K, V>(init: seq<(K, V)>, k: K, v: V, ks: seq<K>)
    requires NoDuplicates(ks)
    ensures SumFaces(init + [(k, v)], ks) == SumFaces(init, ks) + (if k in ks then 1 else 0)
  {
    if ks != [] {
      var pre := ks[..|ks| - 1];
      assert NoDuplicates(pre);
      SumFacesStep(init, k, v, pre);
      assert (init + [(k, v)])[..|init + [(k, v)]| - 1] == init;
      assert k in ks <==> k in pre || k == ks[|ks| - 1];
      assert k == ks[|ks| - 1] ==> k !in pre;
    }
  }

  /** The list lengths add up to the input length: no input is lost or duplicated. */
  lemma {:induction false} TotalFaces<K(!new), V>(pairs: seq<(K, V)>)
    ensures SumFaces(pairs, DistinctKeys(pairs)) == |pairs|
  {
    if pairs != [] {
      var init := pairs[..|pairs| - 1];
      var (k, v) := pairs[|pairs| - 1];
      assert pairs == init + [(k, v)];
      var ks := DistinctKeys(init);
      TotalFaces(init);
      SumFacesStep(init, k, v, ks);
      if k !in ks {
        SumFacesStep(init, k, v, ks);
        FacesNonEmpty(init, k);
        assert (ks + [k])[..|ks + [k]| - 1] == ks;
      }
    }
  }

  /** `m` is the map the insert-or-append fold builds from `pairs`. */
  ghost predicate Grouped<K, V>(m: map<K, seq<V>>, pairs: seq<(K, V)>)
  {
    m.Keys == KeysOf(pairs) && forall k :: k in m ==> m[k] == Faces(pairs, k)
  }

  /**
   * One step of the fold: appending to the key's list when the key is
   * present, inserting a one-element list otherwise, keeps the map grouped.
   */
  lemma GroupStep<K, V>(m: map<K, seq<V>>, pairs: seq<(K, V)>, k: K, v: V)
    requires Grouped(m, pairs)
    ensures Grouped(if k in m then m[k := m[k] + [v]] else m[k := [v]], pairs + [(k, v)])
  {
    var next := pairs + [(k, v)];
    assert next[..|next| - 1] == pairs;
    assert KeysOf(next) == KeysOf(pairs) + {k} by {
      forall x | x in KeysOf(next) ensures x in KeysOf(pairs) + {k} {
        var i :| 0 <= i < |next| && next[i].0 == x;
        if i < |pairs| { assert next[i] == pairs[i]; }
      }
      forall x | x in KeysOf(pairs) ensures x in KeysOf(next) {
        var i :| 0 <= i < |pairs| && pairs[i].0 == x;
        assert next[i] == pairs[i];
      }
      assert next[|pairs|].0 == k;
    }
    if k !in m {
      FacesNonEmpty(pairs, k);
    }
  }
}
