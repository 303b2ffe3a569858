/** Python dictionaries that remember insertion order, as association lists.
    `Put` behaves like `d[k] = v`: an existing key keeps its position and gets
    the new value, a new key is appended at the end. */
module PyDict {
  import opened Wrappers

  type Dict<K, V> = seq<(K, V)>

  function Keys<K(==), V>(d: Dict<K, V>): (ks: seq<K>)
    ensures |ks| == |d|
    ensures forall i :: 0 <= i < |d| ==> ks[i] == d[i].0
  {
    if d == [] then [] else [d[0].0] + Keys(d[1..])
  }

  function Values<K(==), V>(d: Dict<K, V>): (vs: seq<V>)
    ensures |vs| == |d|
    ensures forall i :: 0 <= i < |d| ==> vs[i] == d[i].1
  {
    if d == [] then [] else [d[0].1] + Values(d[1..])
  }

  predicate HasKey<K(==), V>(d: Dict<K, V>, k: K)
  {
    exists i :: 0 <= i < |d| && d[i].0 == k
  }

  /** Keys are pairwise distinct: every genuine Python dict has this shape. */
  predicate DistinctKeys<K(==), V>(d: Dict<K, V>)
  {
    forall i, j :: 0 <= i < j < |d| ==> d[i].0 != d[j].0
  }

  /** `d.get(k)`: the value stored under the first occurrence of `k`. */
  function Get<K(==), V>(d: Dict<K, V>, k: K): (r: Option<V>)
    ensures r.Some? <==> HasKey(d, k)
    ensures r.Some? ==> exists i :: 0 <= i < |d| && d[i] == (k, r.value)
  {
    if d == [] then None
    else if d[0].0 == k then Some(d[0].1)
    else Get(d[1..], k)
  }

  /** Index of the first entry stored under `k`. */
  function IndexOf<K(==), V>(d: Dict<K, V>, k: K): (i: nat)
    requires HasKey(d, k)
    ensures i < |d| && d[i].0 == k
    ensures forall j :: 0 <= j < i ==> d[j].0 != k
  {
    if d[0].0 == k then 0
    else
      assert HasKey(d[1..], k) by {
        var j :| 0 <= j < |d| && d[j].0 == k;
        assert d[1..][j - 1].0 == k;
      }
      1 + IndexOf(d[1..], k)
  }

  /** `d[k] = v`. */
  function Put<K(==), V>(d: Dict<K, V>, k: K, v: V): (r: Dict<K, V>)
  {
    if d == [] then [(k, v)]
    else if d[0].0 == k then [(k, v)] + d[1..]
    else [d[0]] + Put(d[1..], k, v)
  }

  /** `d[k] = v` replaces the value of an existing key in place and appends
      a new key at the end. */
  lemma {:induction false} PutSpec<K, V>(d: Dict<K, V>, k: K, v: V)
    ensures HasKey(d, k) ==> Put(d, k, v) == d[IndexOf(d, k) := (k, v)]
    ensures !HasKey(d, k) ==> Put(d, k, v) == d + [(k, v)]
  {
    if d != [] && d[0].0 != k {
      PutSpec(d[1..], k, v);
      if HasKey(d, k) {
        assert HasKey(d[1..], k) by {
          var j :| 0 <= j < |d| && d[j].0 == k;
          assert d[1..][j - 1].0 == k;
        }
      }
    }
  }

  /** The dict built by `for k, v in zip(ks, vs): d[k] = v`, starting from `d`. */
  function PutAll<K(==), V>(d: Dict<K, V>, ks: seq<K>, vs: seq<V>): (r: Dict<K, V>)
    decreases |ks|
  {
    if ks == [] || vs == [] then d
    else PutAll(Put(d, ks[0], vs[0]), ks[1..], vs[1..])
  }

  /** Zipping pairs element by element, truncated to the shorter input. */
  function Zip<A, B>(xs: seq<A>, ys: seq<B>): (r: seq<(A, B)>)
    ensures |r| == if |xs| < |ys| then |xs| else |ys|
    ensures forall i :: 0 <= i < |r| ==> r[i] == (xs[i], ys[i])
  {
    if xs == [] || ys == [] then [] else [(xs[0], ys[0])] + Zip(xs[1..], ys[1..])
  }

  predicate Distinct<T(==)>(s: seq<T>)
  {
    forall i, j :: 0 <= i < j < |s| ==> s[i] != s[j]
  }

  /** With pairwise distinct keys, filling an empty dict from `zip(ks, vs)`
      gives exactly the zipped pairs, in order. */
  lemma {:induction false} PutAllDistinctIsZip<K, V>(d: Dict<K, V>, ks: seq<K>, vs: seq<V>)
    requires Distinct(ks)
    requires forall i, k :: 0 <= i < |d| && k in ks ==> d[i].0 != k
    ensures PutAll(d, ks, vs) == d + Zip(ks, vs)
    decreases |ks|
  {
    if ks == [] || vs == [] {
    } else {
      assert ks[0] in ks;
      assert !HasKey(d, ks[0]);
      var d' := Put(d, ks[0], vs[0]);
      PutSpec(d, ks[0], vs[0]);
      assert d' == d + [(ks[0], vs[0])];
      forall i, k | 0 <= i < |d'| && k in ks[1..]
        ensures d'[i].0 != k
      {
        var j :| 0 <= j < |ks[1..]| && ks[1..][j] == k;
        assert ks[j + 1] == k;
        if i == |d| {
          assert ks[0] != ks[j + 1];
        } else {
          assert k in ks;
        }
      }
      assert Distinct(ks[1..]) by {
        forall i, j | 0 <= i < j < |ks[1..]| ensures ks[1..][i] != ks[1..][j] {
          assert ks[i + 1] != ks[j + 1];
        }
      }
      PutAllDistinctIsZip(d', ks[1..], vs[1..]);
      assert Zip(ks, vs) == [(ks[0], vs[0])] + Zip(ks[1..], vs[1..]);
    }
  }

  /** After `d[k] = v`, `d.get(k)` is `v`. */
  lemma {:induction false} GetPut<K, V>(d: Dict<K, V>, k: K, v: V)
    ensures Get(Put(d, k, v), k) == Some(v)
  {
    if d != [] && d[0].0 != k {
      GetPut(d[1..], k, v);
      assert ([d[0]] + Put(d[1..], k, v))[1..] == Put(d[1..], k, v);
    }
  }

  /** Storing twice under the same key keeps only the second value. */
  lemma {:induction false} PutPut<K, V>(d: Dict<K, V>, k: K, v1: V, v2: V)
    ensures Put(Put(d, k, v1), k, v2) == Put(d, k, v2)
  {
    if d != [] && d[0].0 != k {
      PutPut(d[1..], k, v1, v2);
      assert ([d[0]] + Put(d[1..], k, v1))[1..] == Put(d[1..], k, v1);
    } else if d != [] {
      assert ([(k, v1)] + d[1..])[1..] == d[1..];
    }
  }

  /** `d[k] = v` leaves every other key as it was. */
  lemma {:induction false} GetPutOther<K, V>(d: Dict<K, V>, k: K, v: V, k': K)
    requires k' != k
    ensures Get(Put(d, k, v), k') == Get(d, k')
  {
    if d != [] && d[0].0 != k {
      GetPutOther(d[1..], k, v, k');
      assert ([d[0]] + Put(d[1..], k, v))[1..] == Put(d[1..], k, v);
    } else if d != [] {
      assert ([(k, v)] + d[1..])[1..] == d[1..];
    }
  }

  /** After `for k, v in zip(ks, vs): d[k] = v` a key gets the value paired
      with its last occurrence in `ks`, and keys not in `ks` keep theirs. */
  lemma {:induction false} GetPutAll<K, V>(d: Dict<K, V>, ks: seq<K>, vs: seq<V>, k: K)
    requires |ks| == |vs|
    ensures k !in ks ==> Get(PutAll(d, ks, vs), k) == Get(d, k)
    ensures forall i :: 0 <= i < |ks| && ks[i] == k && (forall j :: i < j < |ks| ==> ks[j] != k) ==>
              Get(PutAll(d, ks, vs), k) == Some(vs[i])
    decreases |ks|
  {
    if ks != [] {
      var d' := Put(d, ks[0], vs[0]);
      GetPutAll(d', ks[1..], vs[1..], k);
      if ks[0] == k {
        GetPut(d, k, vs[0]);
      } else {
        GetPutOther(d, ks[0], vs[0], k);
      }
      forall i | 0 < i < |ks| && ks[i] == k && (forall j :: i < j < |ks| ==> ks[j] != k)
        ensures Get(PutAll(d, ks, vs), k) == Some(vs[i])
      {
        assert ks[1..][i - 1] == k;
        assert forall j :: i - 1 < j < |ks| - 1 ==> ks[1..][j] == ks[j + 1];
      }
      if 0 < |ks| && ks[0] == k && (forall j :: 0 < j < |ks| ==> ks[j] != k) {
        assert k !in ks[1..];
      }
    }
  }
}
