/**
 * A JavaScript `Map`: its entries in insertion order. `set` on a present key
 * replaces the value where it stands, on a new key appends; `delete` removes
 * the key; `get` finds its value. Both TypeScript servers keep their players
 * and their client sockets in such maps.
 */
module JsMaps {
  import opened Common

  /** A well-formed map holds each key once. */
  predicate DistinctKeys<K(==), V>(m: seq<(K, V)>)
  {
    forall i, j :: 0 <= i < j < |m| ==> m[i].0 != m[j].0
  }

  function Keys<K(==,!new), V(==,!new)>(m: seq<(K, V)>): (ks: set<K>)
    ensures forall k :: k in ks <==> exists e :: e in m && e.0 == k
  {
    set e | e in m :: e.0
  }

  lemma KeysCons<K(!new), V(!new)>(m: seq<(K, V)>)
    requires |m| > 0
    ensures Keys(m) == {m[0].0} + Keys(m[1..])
  {
    assert forall e :: e in m <==> e == m[0] || e in m[1..];
  }

  /** A map with distinct keys has one entry per key. */
  lemma {:induction false} DistinctKeysCount<K(!new), V(!new)>(m: seq<(K, V)>)
    requires DistinctKeys(m)
    ensures |Keys(m)| == |m|
    decreases |m|
  {
    if |m| > 0 {
      KeysCons(m);
      assert DistinctKeys(m[1..]);
      DistinctKeysCount(m[1..]);
      assert m[0].0 !in Keys(m[1..]);
    }
  }

  /** The values in insertion order: `Array.from(map.values())`. */
  function Values<K, V>(m: seq<(K, V)>): (vs: seq<V>)
    ensures |vs| == |m|
    ensures forall i :: 0 <= i < |m| ==> vs[i] == m[i].1
  {
    seq(|m|, i requires 0 <= i < |m| => m[i].1)
  }

  /** `map.get(k)`: the value of the first entry with the key. */
  function Get<K(==,!new), V(==,!new)>(m: seq<(K, V)>, k: K): (v: Option<V>)
    ensures v.None? <==> k !in Keys(m)
    ensures v.Some? ==> (k, v.value) in m
    decreases |m|
  {
    if |m| == 0 then None
    else
      KeysCons(m);
      if m[0].0 == k then Some(m[0].1) else Get(m[1..], k)
  }

  /** In a map with distinct keys, each entry is what a lookup of its key finds. */
  lemma {:induction false} GetDistinct<K(!new), V(!new)>(m: seq<(K, V)>, i: nat)
    requires DistinctKeys(m) && i < |m|
    ensures Get(m, m[i].0) == Some(m[i].1)
    decreases i
  {
    if i > 0 {
      assert m[1..][i - 1] == m[i];
      GetDistinct(m[1..], i - 1);
    }
  }

  /** `map.set(k, v)`. */
  function Put<K(==,!new), V(==,!new)>(m: seq<(K, V)>, k: K, v: V): (r: seq<(K, V)>)
    ensures Keys(r) == Keys(m) + {k}
    ensures k !in Keys(m) ==> r == m + [(k, v)]
    ensures k in Keys(m) ==> |r| == |m|
    ensures forall i :: 0 <= i < |m| && m[i].0 != k ==> r[i] == m[i]
  {
    if k in Keys(m) then
      var r := seq(|m|, i requires 0 <= i < |m| => if m[i].0 == k then (k, v) else m[i]);
      assert Keys(r) == Keys(m) by {
        forall j | j in Keys(m) ensures j in Keys(r) {
          var e :| e in m && e.0 == j;
          var i :| 0 <= i < |m| && m[i] == e;
          assert r[i].0 == j;
        }
      }
      r
    else
      m + [(k, v)]
  }

  /** `map.delete(k)`: the entries without the key. */
  function Delete<K(==,!new), V(==,!new)>(m: seq<(K, V)>, k: K): (r: seq<(K, V)>)
    ensures forall e :: e in r <==> e in m && e.0 != k
    ensures Keys(r) == Keys(m) - {k}
    ensures |r| <= |m|
    decreases |m|
  {
    if |m| == 0 then []
    else
      var tail := Delete(m[1..], k);
      assert forall e :: e in m <==> e == m[0] || e in m[1..];
      if m[0].0 == k then tail else [m[0]] + tail
  }

  /** Applying `f` to the value under `k`, as a mutation through the object `map.get(k)` returns. */
  function Update<K(==), V>(m: seq<(K, V)>, k: K, f: V -> V): (r: seq<(K, V)>)
    ensures |r| == |m|
    ensures forall i :: 0 <= i < |m| ==> r[i] == if m[i].0 == k then (k, f(m[i].1)) else m[i]
  {
    seq(|m|, i requires 0 <= i < |m| => if m[i].0 == k then (k, f(m[i].1)) else m[i])
  }

  /** Applying `f` to every value, keys and order unchanged. */
  function MapValues<K, V>(m: seq<(K, V)>, f: V -> V): (r: seq<(K, V)>)
    ensures |r| == |m|
    ensures forall i :: 0 <= i < |m| ==> r[i] == (m[i].0, f(m[i].1))
  {
    seq(|m|, i requires 0 <= i < |m| => (m[i].0, f(m[i].1)))
  }

  /** `set` on a non-empty map, split into its first entry and the rest. */
  lemma PutCons<K(!new), V(!new)>(m: seq<(K, V)>, k: K, v: V)
    requires |m| > 0
    ensures Put(m, k, v)[0] == if m[0].0 == k then (k, v) else m[0]
    ensures Put(m, k, v)[1..] == if m[0].0 == k && k !in Keys(m[1..]) then m[1..] else Put(m[1..], k, v)
  {
    KeysCons(m);
    var r := Put(m, k, v);
    if k in Keys(m) {
      if m[0].0 != k || k in Keys(m[1..]) {
        assert k in Keys(m[1..]);
        assert r[1..] == Put(m[1..], k, v);
      } else {
        assert r[1..] == m[1..];
      }
    } else {
      assert r[1..] == m[1..] + [(k, v)];
    }
  }

  /** A lookup after `set` finds the new value under its key and the old ones elsewhere. */
  lemma {:induction false} GetAfterPut<K(!new), V(!new)>(m: seq<(K, V)>, k: K, v: V, j: K)
    ensures Get(Put(m, k, v), j) == if j == k then Some(v) else Get(m, j)
    decreases |m|
  {
    if |m| == 0 {
      assert Put(m, k, v) == [(k, v)];
    } else {
      var r := Put(m, k, v);
      PutCons(m, k, v);
      if r[0].0 != j {
        GetAfterPut(m[1..], k, v, j);
        if m[0].0 == k && k !in Keys(m[1..]) {
          assert Get(r, j) == Get(m[1..], j);
        }
      }
    }
  }

  /** Deleting the key just added by `set` restores the map. */
  lemma {:induction false} DeleteAfterPut<K(!new), V(!new)>(m: seq<(K, V)>, k: K, v: V)
    requires k !in Keys(m)
    ensures Delete(Put(m, k, v), k) == m
    decreases |m|
  {
    if |m| == 0 {
      assert Delete([(k, v)][1..], k) == [];
    } else {
      assert (m + [(k, v)])[1..] == m[1..] + [(k, v)];
      KeysCons(m);
      DeleteAfterPut(m[1..], k, v);
    }
  }

  /** Deleting an absent key changes nothing. */
  lemma {:induction false} DeleteAbsent<K(!new), V(!new)>(m: seq<(K, V)>, k: K)
    requires k !in Keys(m)
    ensures Delete(m, k) == m
    decreases |m|
  {
    if |m| > 0 {
      KeysCons(m);
      DeleteAbsent(m[1..], k);
    }
  }

  lemma PutKeepsDistinct<K(!new), V(!new)>(m: seq<(K, V)>, k: K, v: V)
    requires DistinctKeys(m)
    ensures DistinctKeys(Put(m, k, v))
  {
    var r := Put(m, k, v);
    if k !in Keys(m) {
      forall i, j | 0 <= i < j < |r| ensures r[i].0 != r[j].0 {
        if j == |m| {
          assert r[i] == m[i] && m[i] in m;
        }
      }
    }
  }

  lemma {:induction false} DeleteKeepsDistinct<K(!new), V(!new)>(m: seq<(K, V)>, k: K)
    requires DistinctKeys(m)
    ensures DistinctKeys(Delete(m, k))
    decreases |m|
  {
    if |m| > 0 {
      DeleteKeepsDistinct(m[1..], k);
      var tail := Delete(m[1..], k);
      if m[0].0 != k {
        var r := [m[0]] + tail;
        assert Delete(m, k) == r;
        forall i, j | 0 <= i < j < |r| ensures r[i].0 != r[j].0 {
          assert r[j] == tail[j - 1];
          if i == 0 {
            assert tail[j - 1] in m[1..];
            var n :| 0 <= n < |m[1..]| && m[1..][n] == tail[j - 1];
            assert m[n + 1] == r[j];
            assert m[0].0 != m[n + 1].0;
          } else {
            assert r[i] == tail[i - 1];
            assert tail[i - 1].0 != tail[j - 1].0;
          }
        }
      } else {
        assert Delete(m, k) == tail;
      }
    }
  }

  /** A mutation through `get` shows up in later lookups of that key only. */
  lemma {:induction false} GetAfterUpdate<K(!new), V(!new)>(m: seq<(K, V)>, k: K, f: V -> V, j: K)
    ensures var v := Get(m, j);
      Get(Update(m, k, f), j) == if j == k && v.Some? then Some(f(v.value)) else v
    decreases |m|
  {
    if |m| > 0 {
      assert Update(m, k, f)[1..] == Update(m[1..], k, f);
      KeysCons(m);
      KeysCons(Update(m, k, f));
      GetAfterUpdate(m[1..], k, f, j);
    }
  }

  lemma UpdateKeepsKeys<K(!new), V(!new)>(m: seq<(K, V)>, k: K, f: V -> V)
    ensures Keys(Update(m, k, f)) == Keys(m)
  {
    var r := Update(m, k, f);
    forall j | j in Keys(m) ensures j in Keys(r) {
      var e :| e in m && e.0 == j;
      var i :| 0 <= i < |m| && m[i] == e;
      assert r[i].0 == j;
    }
  }
}
