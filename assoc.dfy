/**
 * Insertion-ordered association lists: the model of a JavaScript `Map`
 * (and of the key order of a plain object).  `Put` is `map.set`: it
 * overwrites the entry in place when the key is present and appends a new
 * entry otherwise; `Find` is `map.get`.
 */
module Assoc {
  import opened Optional
  import opened Sums

  /** The set of keys of an association list. */
  function KeySet<K, V>(m: seq<(K, V)>): set<K> {
    set i | 0 <= i < |m| :: m[i].0
  }

  /** No key occurs twice: what every `Map` built with `Put` satisfies. */
  ghost predicate DistinctKeys<K, V>(m: seq<(K, V)>) {
    forall i, j | 0 <= i < j < |m| :: m[i].0 != m[j].0
  }

  /** `map.get(k)`: the value of the first entry whose key is `k`. */
  function Find<K(==), V>(m: seq<(K, V)>, k: K): (r: Option<V>)
    ensures r.None? <==> k !in KeySet(m)
  {
    if m == [] then None
    else if m[0].0 == k then Some(m[0].1)
    else
      KeySetCons(m);
      Find(m[1..], k)
  }

  /** The value stored under `k`, or the default `d` when there is none. */
  function GetOr<K(==), V>(m: seq<(K, V)>, k: K, d: V): V {
    match Find(m, k)
    case Some(v) => v
    case None => d
  }

  lemma KeySetCons<K, V>(m: seq<(K, V)>)
    requires m != []
    ensures KeySet(m) == {m[0].0} + KeySet(m[1..])
  {
    forall x | x in KeySet(m) ensures x in {m[0].0} + KeySet(m[1..]) {
      var i :| 0 <= i < |m| && m[i].0 == x;
      if i > 0 { assert m[1..][i - 1].0 == x; }
    }
    forall x | x in KeySet(m[1..]) ensures x in KeySet(m) {
      var i :| 0 <= i < |m[1..]| && m[1..][i].0 == x;
      assert m[i + 1].0 == x;
    }
  }

  /** `map.set(k, v)`. */
  function Put<K(==), V>(m: seq<(K, V)>, k: K, v: V): (r: seq<(K, V)>)
    ensures k !in KeySet(m) ==> r == m + [(k, v)]
    ensures |r| == if k in KeySet(m) then |m| else |m| + 1
  {
    if m == [] then [(k, v)]
    else if m[0].0 == k then [(k, v)] + m[1..]
    else
      KeySetCons(m);
      [m[0]] + Put(m[1..], k, v)
  }

  /** The keys of an association list, in entry order: what `map.keys()` iterates. */
  function Keys<K, V>(m: seq<(K, V)>): (r: seq<K>)
    ensures |r| == |m|
    ensures forall i | 0 <= i < |m| :: r[i] == m[i].0
  {
    if m == [] then [] else [m[0].0] + Keys(m[1..])
  }

  /** `set` keeps the order of the keys, appending a key only when it is new. */
  lemma {:induction false} PutKeyOrder<K, V>(m: seq<(K, V)>, k: K, v: V)
    ensures Keys(Put(m, k, v)) == if k in KeySet(m) then Keys(m) else Keys(m) + [k]
  {
    var r := Put(m, k, v);
    if m == [] {
    } else if m[0].0 == k {
      assert r[1..] == m[1..];
      assert k in KeySet(m);
    } else {
      KeySetCons(m);
      assert r[1..] == Put(m[1..], k, v);
      PutKeyOrder(m[1..], k, v);
      if k !in KeySet(m) {
        assert Keys(m) + [k] == [m[0].0] + (Keys(m[1..]) + [k]);
      }
    }
  }

  /** The distinct elements of `s`, each where it first occurs. */
  function FirstOccurrences<T(==,!new)>(s: seq<T>): (r: seq<T>)
    ensures forall x :: x in r <==> x in s
  {
    if s == [] then []
    else
      var init, x := s[..|s| - 1], s[|s| - 1];
      assert s == init + [x];
      var d := FirstOccurrences(init);
      if x in d then d else d + [x]
  }

  /** After `set`, `get` reports the new value for that key and the old one elsewhere. */
  lemma {:induction false} PutFind<K, V>(m: seq<(K, V)>, k: K, v: V, k': K)
    ensures Find(Put(m, k, v), k') == if k' == k then Some(v) else Find(m, k')
  {
    if m != [] && m[0].0 != k {
      assert Put(m, k, v)[1..] == Put(m[1..], k, v);
      PutFind(m[1..], k, v, k');
    }
  }

  /** `set` adds its key and no other. */
  lemma {:induction false} PutKeys<K, V>(m: seq<(K, V)>, k: K, v: V)
    ensures KeySet(Put(m, k, v)) == KeySet(m) + {k}
  {
    var r := Put(m, k, v);
    if m == [] {
      assert r == [(k, v)] && r[0].0 == k;
    } else if m[0].0 == k {
      KeySetCons(m);
      KeySetCons(r);
      assert r[1..] == m[1..];
    } else {
      PutKeys(m[1..], k, v);
      assert r[1..] == Put(m[1..], k, v);
      KeySetCons(m);
      KeySetCons(r);
    }
  }

  lemma DistinctKeysTail<K, V>(m: seq<(K, V)>)
    requires m != [] && DistinctKeys(m)
    ensures DistinctKeys(m[1..]) && m[0].0 !in KeySet(m[1..])
  {
    forall i, j | 0 <= i < j < |m[1..]| ensures m[1..][i].0 != m[1..][j].0 {
      assert m[1..][i] == m[i + 1] && m[1..][j] == m[j + 1];
    }
  }

  /** `set` keeps keys distinct. */
  lemma {:induction false} PutDistinct<K, V>(m: seq<(K, V)>, k: K, v: V)
    requires DistinctKeys(m)
    ensures DistinctKeys(Put(m, k, v))
  {
    var r := Put(m, k, v);
    if m == [] {
    } else if m[0].0 == k {
      forall i, j | 0 <= i < j < |r| ensures r[i].0 != r[j].0 {
        assert r[j] == m[j];
        if i > 0 { assert r[i] == m[i]; }
      }
    } else {
      var t := Put(m[1..], k, v);
      DistinctKeysTail(m);
      PutDistinct(m[1..], k, v);
      PutKeys(m[1..], k, v);
      assert r == [m[0]] + t;
      forall i, j | 0 <= i < j < |r| ensures r[i].0 != r[j].0 {
        assert r[j] == t[j - 1];
        assert t[j - 1].0 in KeySet(t);
        if i > 0 { assert r[i] == t[i - 1]; }
      }
    }
  }

  /** `f` of the entry `Find` reports, or 0 when the key is absent. */
  function FoundOr0<K(==), V>(m: seq<(K, V)>, k: K, f: ((K, V)) -> int): int {
    match Find(m, k)
    case Some(v) => f((k, v))
    case None => 0
  }

  /** When the default weighs nothing, `FoundOr0` is `f` of `get(k) ?? d`. */
  lemma FoundOr0GetOr<K, V>(m: seq<(K, V)>, k: K, d: V, f: ((K, V)) -> int)
    requires f((k, d)) == 0
    ensures FoundOr0(m, k, f) == f((k, GetOr(m, k, d)))
  {
  }

  /** Overwriting or adding one entry changes a sum over the entries by
      exactly the difference between the new entry and the old one. */
  lemma {:induction false} SumOfPut<K, V>(m: seq<(K, V)>, k: K, v: V, f: ((K, V)) -> int)
    ensures SumOf(Put(m, k, v), f) == SumOf(m, f) - FoundOr0(m, k, f) + f((k, v))
  {
    if m == [] {
      assert SumOf([(k, v)], f) == f((k, v)) + SumOf([], f);
    } else if m[0].0 == k {
      assert Put(m, k, v)[1..] == m[1..];
      assert m[0] == (k, m[0].1);
    } else {
      assert Put(m, k, v)[1..] == Put(m[1..], k, v);
      SumOfPut(m[1..], k, v, f);
    }
  }

  /** `get` returns the value of the first entry carrying the key. */
  lemma {:induction false} FindFirst<K, V>(m: seq<(K, V)>, i: nat)
    requires i < |m| && forall j | 0 <= j < i :: m[j].0 != m[i].0
    ensures Find(m, m[i].0) == Some(m[i].1)
  {
    if i > 0 {
      assert m[0].0 != m[i].0;
      assert m[1..][i - 1] == m[i];
      forall j | 0 <= j < i - 1 ensures m[1..][j].0 != m[i].0 {
        assert m[1..][j] == m[j + 1];
      }
      FindFirst(m[1..], i - 1);
    }
  }

  /** The real-valued counterpart of `SumOfPut`, with the old entry read as
      `get(k) ?? d` for a default `d` that weighs nothing. */
  lemma {:induction false} RealSumOfPut<K, V>(m: seq<(K, V)>, k: K, v: V, d: V, f: ((K, V)) -> real)
    requires f((k, d)) == 0.0
    ensures RealSumOf(Put(m, k, v), f) == RealSumOf(m, f) - f((k, GetOr(m, k, d))) + f((k, v))
  {
    if m == [] {
      assert RealSumOf([(k, v)], f) == f((k, v)) + RealSumOf([], f);
    } else if m[0].0 == k {
      assert Put(m, k, v)[1..] == m[1..];
      assert m[0] == (k, m[0].1);
    } else {
      assert Put(m, k, v)[1..] == Put(m[1..], k, v);
      RealSumOfPut(m[1..], k, v, d, f);
    }
  }

  /** With distinct keys, every entry is what `get` returns for its key. */
  lemma FindEntry<K, V>(m: seq<(K, V)>, i: nat)
    requires DistinctKeys(m) && i < |m|
    ensures Find(m, m[i].0) == Some(m[i].1)
  {
    FindFirst(m, i);
  }
}
