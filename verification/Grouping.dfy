/**
 Dictionaries in insertion order, as lists of pairs, and the grouping of a list of pairs by key that both
 the submission parser and the query reader perform while they fill a dictionary.
 */
module Grouping {
  import opened Common

  // ---------------------------------------------------------------- dictionaries

  function Get<V>(entries: seq<(string, V)>, key: string): Option<V> {
    if entries == [] then None
    else if entries[0].0 == key then Some(entries[0].1)
    else Get(entries[1..], key)
  }

  /** d[key] = v: in place when the key is there, at the end otherwise. */
  function Put<V>(entries: seq<(string, V)>, key: string, v: V): seq<(string, V)> {
    if entries == [] then [(key, v)]
    else if entries[0].0 == key then [(key, v)] + entries[1..]
    else [entries[0]] + Put(entries[1..], key, v)
  }

  lemma {:induction false} GetPut<V>(entries: seq<(string, V)>, key: string, v: V, other: string)
    ensures Get(Put(entries, key, v), other) == if other == key then Some(v) else Get(entries, other)
  {
    if entries != [] && entries[0].0 != key {
      GetPut(entries[1..], key, v, other);
    }
  }

  predicate HasKey<V>(entries: seq<(string, V)>, key: string) {
    exists i :: 0 <= i < |entries| && entries[i].0 == key
  }

  ghost predicate DistinctKeys<V>(entries: seq<(string, V)>) {
    forall i, j :: 0 <= i < j < |entries| ==> entries[i].0 != entries[j].0
  }

  lemma {:induction false} PutNew<V>(entries: seq<(string, V)>, key: string, v: V)
    requires !HasKey(entries, key)
    ensures Put(entries, key, v) == entries + [(key, v)]
  {
    if entries != [] {
      assert entries[0].0 != key;
      forall i | 0 <= i < |entries[1..]| ensures entries[1..][i].0 != key {
        assert entries[i + 1].0 != key;
      }
      PutNew(entries[1..], key, v);
    }
  }

  lemma {:induction false} GetAt<V>(bs: seq<(string, V)>, i: nat)
    requires i < |bs| && DistinctKeys(bs)
    ensures Get(bs, bs[i].0) == Some(bs[i].1)
  {
    if i > 0 {
      assert bs[0].0 != bs[i].0 && bs[1..][i - 1] == bs[i];
      GetAt(bs[1..], i - 1);
    }
  }

  // ---------------------------------------------------------------- grouping

  function Select<V>(ps: seq<(string, V)>, key: string): seq<V> {
    if ps == [] then [] else (if ps[0].0 == key then [ps[0].1] else []) + Select(ps[1..], key)
  }

  function Without<V>(ps: seq<(string, V)>, key: string): (r: seq<(string, V)>)
    ensures |r| <= |ps|
    ensures !HasKey(r, key)
  {
    if ps == [] then [] else (if ps[0].0 == key then [] else [ps[0]]) + Without(ps[1..], key)
  }

  /** For each key, in order of first appearance, all its values in order. */
  function Buckets<V>(ps: seq<(string, V)>): seq<(string, seq<V>)>
    decreases |ps|
  {
    if ps == [] then []
    else
      var key := ps[0].0;
      [(key, [ps[0].1] + Select(ps[1..], key))] + Buckets(Without(ps[1..], key))
  }

  /** The bucket list after one more pair. */
  function Insert<V>(bs: seq<(string, seq<V>)>, key: string, v: V): seq<(string, seq<V>)> {
    if bs == [] then [(key, [v])]
    else if bs[0].0 == key then [(key, bs[0].1 + [v])] + bs[1..]
    else [bs[0]] + Insert(bs[1..], key, v)
  }

  lemma {:induction false} SelectSnoc<V>(ps: seq<(string, V)>, p: (string, V), key: string)
    ensures Select(ps + [p], key) == Select(ps, key) + if p.0 == key then [p.1] else []
  {
    var all, last := ps + [p], if p.0 == key then [p.1] else [];
    if ps == [] {
      assert all[0] == p && all[1..] == [];
      assert last + [] == last && [] + last == last;
    } else {
      var first := if ps[0].0 == key then [ps[0].1] else [];
      assert all[0] == ps[0] && all[1..] == ps[1..] + [p];
      SelectSnoc(ps[1..], p, key);
      assert first + (Select(ps[1..], key) + last) == (first + Select(ps[1..], key)) + last;
    }
  }

  lemma {:induction false} WithoutSnoc<V>(ps: seq<(string, V)>, p: (string, V), key: string)
    ensures Without(ps + [p], key) == Without(ps, key) + if p.0 == key then [] else [p]
  {
    var all, last := ps + [p], if p.0 == key then [] else [p];
    if ps == [] {
      assert all[0] == p && all[1..] == [];
      assert last + [] == last && [] + last == last;
    } else {
      var first := if ps[0].0 == key then [] else [ps[0]];
      assert all[0] == ps[0] && all[1..] == ps[1..] + [p];
      WithoutSnoc(ps[1..], p, key);
      assert first + (Without(ps[1..], key) + last) == (first + Without(ps[1..], key)) + last;
    }
  }

  lemma {:induction false} BucketsSnoc<V>(ps: seq<(string, V)>, p: (string, V))
    ensures Buckets(ps + [p]) == Insert(Buckets(ps), p.0, p.1)
    decreases |ps|
  {
    if ps == [] {
      assert ps + [p] == [p];
      assert Select([p][1..], p.0) == [] && Without([p][1..], p.0) == [];
      assert [p.1] + [] == [p.1] && Buckets(Without([p][1..], p.0)) == [];
    } else {
      var key := ps[0].0;
      assert (ps + [p])[1..] == ps[1..] + [p];
      SelectSnoc(ps[1..], p, key);
      WithoutSnoc(ps[1..], p, key);
      if p.0 == key {
        assert [ps[0].1] + (Select(ps[1..], key) + [p.1]) == ([ps[0].1] + Select(ps[1..], key)) + [p.1];
        assert Without(ps[1..], key) + [] == Without(ps[1..], key);
        assert Buckets(ps)[1..] == Buckets(Without(ps[1..], key));
      } else {
        BucketsSnoc(Without(ps[1..], key), p);
        assert Select(ps[1..], key) + [] == Select(ps[1..], key);
        assert Buckets(ps)[1..] == Buckets(Without(ps[1..], key));
      }
    }
  }

  lemma {:induction false} SelectWithout<V>(ps: seq<(string, V)>, drop: string, key: string)
    ensures Select(Without(ps, drop), key) == if drop == key then [] else Select(ps, key)
  {
    if ps != [] {
      SelectWithout(ps[1..], drop, key);
      if ps[0].0 == drop {
        assert Without(ps, drop) == Without(ps[1..], drop);
      } else {
        assert Without(ps, drop)[0] == ps[0] && Without(ps, drop)[1..] == Without(ps[1..], drop);
      }
    }
  }

  /** A key's bucket holds exactly its values, in order; a key without values has none. */
  lemma {:induction false} BucketOf<V>(ps: seq<(string, V)>, key: string)
    ensures Get(Buckets(ps), key) == if Select(ps, key) == [] then None else Some(Select(ps, key))
    decreases |ps|
  {
    if ps != [] {
      BucketOf(Without(ps[1..], ps[0].0), key);
      SelectWithout(ps[1..], ps[0].0, key);
      assert Buckets(ps)[1..] == Buckets(Without(ps[1..], ps[0].0));
      if ps[0].0 == key {
        assert Select(ps, key) == [ps[0].1] + Select(ps[1..], key);
        assert Buckets(ps)[0] == (key, Select(ps, key));
      } else {
        assert Select(ps, key) == [] + Select(ps[1..], key) == Select(ps[1..], key);
        assert Get(Buckets(ps), key) == Get(Buckets(ps)[1..], key);
      }
    }
  }

  /** A key that is left without the first pair's key comes from a later pair. */
  lemma LaterKey<V>(ps: seq<(string, V)>, key: string)
    requires ps != [] && HasKey(Without(ps[1..], ps[0].0), key)
    ensures HasKey(ps, key) && key != ps[0].0
  {
    var rest := Without(ps[1..], ps[0].0);
    WithoutKeepsKeys(ps[1..], ps[0].0);
    var j :| 0 <= j < |rest| && rest[j].0 == key;
    assert HasKey(ps[1..], rest[j].0);
    var k :| 0 <= k < |ps[1..]| && ps[1..][k].0 == rest[j].0;
    assert ps[k + 1].0 == key;
  }

  lemma FirstDistinct<V>(entries: seq<(string, V)>)
    requires entries != [] && DistinctKeys(entries[1..])
    requires forall i :: 0 < i < |entries| ==> entries[i].0 != entries[0].0
    ensures DistinctKeys(entries)
  {
    forall i, j | 0 <= i < j < |entries| ensures entries[i].0 != entries[j].0 {
      if i > 0 { assert entries[1..][i - 1].0 != entries[1..][j - 1].0; }
    }
  }

  lemma {:induction false} BucketKeys<V>(ps: seq<(string, V)>)
    ensures forall i :: 0 <= i < |Buckets(ps)| ==> HasKey(ps, Buckets(ps)[i].0) && Buckets(ps)[i].1 != []
    ensures DistinctKeys(Buckets(ps))
    decreases |ps|
  {
    if ps != [] {
      var rest, bs := Without(ps[1..], ps[0].0), Buckets(ps);
      BucketKeys(rest);
      assert bs[1..] == Buckets(rest) && bs[0].0 == ps[0].0;
      forall i | 0 < i < |bs| ensures HasKey(ps, bs[i].0) && bs[i].0 != ps[0].0 && bs[i].1 != [] {
        assert bs[i] == Buckets(rest)[i - 1];
        LaterKey(ps, bs[i].0);
      }
      FirstDistinct(bs);
    }
  }

  lemma {:induction false} WithoutKeepsKeys<V>(ps: seq<(string, V)>, key: string)
    ensures forall j :: 0 <= j < |Without(ps, key)| ==>
              HasKey(ps, Without(ps, key)[j].0) && Without(ps, key)[j].0 != key
  {
    if ps != [] {
      WithoutKeepsKeys(ps[1..], key);
      var r, r' := Without(ps, key), Without(ps[1..], key);
      forall j | 0 <= j < |r| ensures HasKey(ps, r[j].0) && r[j].0 != key {
        if ps[0].0 != key && j == 0 {
          assert r[j].0 == ps[0].0;
        } else {
          var i := if ps[0].0 == key then j else j - 1;
          assert r[j] == r'[i] && HasKey(ps[1..], r'[i].0);
          var k :| 0 <= k < |ps[1..]| && ps[1..][k].0 == r'[i].0;
          assert ps[k + 1].0 == r[j].0;
        }
      }
    }
  }
}
