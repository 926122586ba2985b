/** Sequence helpers shared by the model: filtering and distinctness. */
module Seqs {

  /** The elements of `s` that satisfy `keep`, in their original order (LINQ `Where`). */
  function Filter<T>(s: seq<T>, keep: T -> bool): (r: seq<T>)
    ensures |r| <= |s|
    ensures forall i :: 0 <= i < |r| ==> r[i] in s && keep(r[i])
    ensures forall i :: 0 <= i < |s| && keep(s[i]) ==> s[i] in r
  {
    if s == [] then []
    else (if keep(s[0]) then [s[0]] else []) + Filter(s[1..], keep)
  }

  lemma {:induction false} FilterAppend<T>(a: seq<T>, b: seq<T>, keep: T -> bool)
    ensures Filter(a + b, keep) == Filter(a, keep) + Filter(b, keep)
  {
    if a == [] {
      assert a + b == b;
    } else {
      assert (a + b)[1..] == a[1..] + b;
      FilterAppend(a[1..], b, keep);
    }
  }

  /** Membership in a filtered sequence. */
  lemma FilterMember<T>(s: seq<T>, keep: T -> bool, x: T)
    ensures x in Filter(s, keep) <==> x in s && keep(x)
  {
    if x in Filter(s, keep) {
      var r := Filter(s, keep);
      var i :| 0 <= i < |r| && r[i] == x;
    }
    if x in s && keep(x) {
      var i :| 0 <= i < |s| && s[i] == x;
    }
  }

  /** Two predicates that agree on the elements of `s` filter it the same way. */
  lemma {:induction false} FilterAgree<T>(s: seq<T>, p: T -> bool, q: T -> bool)
    requires forall x :: x in s ==> (p(x) <==> q(x))
    ensures Filter(s, p) == Filter(s, q)
  {
    if s != [] {
      FilterAgree(s[1..], p, q);
    }
  }

  /** A predicate that holds of every element keeps the whole sequence. */
  lemma {:induction false} FilterAll<T>(s: seq<T>, keep: T -> bool)
    requires forall x :: x in s ==> keep(x)
    ensures Filter(s, keep) == s
  {
    if s != [] {
      FilterAll(s[1..], keep);
    }
  }

  /** Concatenation is associative. */
  lemma AppendAssoc<T>(a: seq<T>, b: seq<T>, c: seq<T>)
    ensures a + b + c == a + (b + c)
  {
  }

  /** An element whose key no earlier element has keeps the prefix's keys distinct. */
  lemma DistinctKeysSnoc<T, K>(s: seq<T>, k: nat, key: T -> K)
    requires k < |s| && DistinctKeys(s[..k], key)
    requires forall i :: 0 <= i < k ==> key(s[i]) != key(s[k])
    ensures DistinctKeys(s[..k + 1], key)
  {
    var t := s[..k + 1];
    forall i, j | 0 <= i < j < |t| ensures key(t[i]) != key(t[j]) {
      if j < k {
        assert s[..k][i] == s[i] && s[..k][j] == s[j];
      }
    }
  }

  /** Filtering twice with the same predicate is filtering once. */
  lemma FilterIdempotent<T>(s: seq<T>, keep: T -> bool)
    ensures Filter(Filter(s, keep), keep) == Filter(s, keep)
  {
    var r := Filter(s, keep);
    forall x | x in r ensures keep(x) {
      FilterMember(s, keep, x);
    }
    FilterAll(r, keep);
  }

  predicate Distinct<T(==)>(s: seq<T>) {
    forall i, j :: 0 <= i < j < |s| ==> s[i] != s[j]
  }

  /** The key of each element of `s`, in order. */
  function Keys<T, K>(s: seq<T>, key: T -> K): (r: seq<K>)
    ensures |r| == |s| && forall i :: 0 <= i < |s| ==> r[i] == key(s[i])
  {
    seq(|s|, i requires 0 <= i < |s| => key(s[i]))
  }

  /** No two elements of `s` share a key (a dictionary's entries). */
  predicate DistinctKeys<T, K(==)>(s: seq<T>, key: T -> K) {
    forall i, j :: 0 <= i < j < |s| ==> key(s[i]) != key(s[j])
  }

  /** Filtering a sequence with distinct keys leaves the keys distinct. */
  lemma {:induction false} FilterDistinctKeys<T, K>(s: seq<T>, key: T -> K, keep: T -> bool)
    requires DistinctKeys(s, key)
    ensures DistinctKeys(Filter(s, keep), key)
  {
    if s != [] {
      FilterDistinctKeys(s[1..], key, keep);
      var rest := Filter(s[1..], keep);
      forall m | 0 <= m < |rest| ensures key(rest[m]) != key(s[0]) {
        var j :| 0 <= j < |s[1..]| && s[1..][j] == rest[m];
        assert s[j + 1] == rest[m];
      }
    }
  }

  /**
   * Collecting the keys of the elements to drop and then removing every entry with one of
   * those keys drops exactly those elements, when the keys are distinct.
   */
  lemma RemoveCollectedKeys<T, K>(s: seq<T>, key: T -> K, drop: T -> bool, keep: T -> bool)
    requires DistinctKeys(s, key)
    requires forall x :: x in s ==> (keep(x) <==> key(x) !in Keys(Filter(s, drop), key))
    ensures forall x :: x in s ==> (keep(x) <==> !drop(x))
  {
    var dropped := Filter(s, drop);
    var collected := Keys(dropped, key);
    forall x | x in s ensures key(x) in collected <==> drop(x) {
      var i :| 0 <= i < |s| && s[i] == x;
      if key(x) in collected {
        var m :| 0 <= m < |collected| && collected[m] == key(x);
        var j :| 0 <= j < |s| && s[j] == dropped[m];
        assert key(s[j]) == key(s[i]);
        assert i == j;
      }
      if drop(x) {
        assert x in dropped;
        var m :| 0 <= m < |dropped| && dropped[m] == x;
        assert collected[m] == key(x);
      }
    }
  }
}
