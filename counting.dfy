/** Counting occurrences of keys in a column. The central fact: summing the
    per-key counts over a list of DISTINCT keys gives the number of column
    entries whose key is in the list, which is at most the column's length,
    with equality exactly when every entry's key is listed. */
module Counting {

  /** How many times x occurs in s. */
  function Occurrences<T(==)>(s: seq<T>, x: T): nat
  {
    if s == [] then 0 else (if s[0] == x then 1 else 0) + Occurrences(s[1..], x)
  }

  /** How many entries of s occur among keys. */
  function CountIn<T(==)>(s: seq<T>, keys: seq<T>): nat
  {
    if s == [] then 0 else (if s[0] in keys then 1 else 0) + CountIn(s[1..], keys)
  }

  /** The sum, over the keys in order, of each key's occurrences in s. */
  function SumOver<T(==)>(keys: seq<T>, s: seq<T>): nat
  {
    if keys == [] then 0 else Occurrences(s, keys[0]) + SumOver(keys[1..], s)
  }

  predicate Distinct<T(==)>(s: seq<T>)
  {
    forall i, j :: 0 <= i < j < |s| ==> s[i] != s[j]
  }

  lemma {:induction false} OccurrencesBound<T>(s: seq<T>, x: T)
    ensures Occurrences(s, x) <= |s|
    ensures Occurrences(s, x) == 0 <==> x !in s
  {
    if s != [] {
      OccurrencesBound(s[1..], x);
      assert s == [s[0]] + s[1..];
    }
  }

  /** Adding a new key k in front adds exactly k's occurrences. */
  lemma {:induction false} CountInCons<T>(s: seq<T>, k: T, keys: seq<T>)
    requires k !in keys
    ensures CountIn(s, [k] + keys) == Occurrences(s, k) + CountIn(s, keys)
  {
    if s != [] {
      CountInCons(s[1..], k, keys);
    }
  }

  /** With distinct keys, the sum of the per-key counts counts every entry of s at most once. */
  lemma {:induction false} SumOverDistinct<T>(keys: seq<T>, s: seq<T>)
    requires Distinct(keys)
    ensures SumOver(keys, s) == CountIn(s, keys)
  {
    if keys == [] {
      CountInNone(s);
    } else {
      assert keys == [keys[0]] + keys[1..];
      assert forall j :: 0 <= j < |keys[1..]| ==> keys[1..][j] == keys[j + 1];
      SumOverDistinct(keys[1..], s);
      CountInCons(s, keys[0], keys[1..]);
    }
  }

  lemma {:induction false} CountInNone<T>(s: seq<T>)
    ensures CountIn(s, []) == 0
  {
    if s != [] {
      CountInNone(s[1..]);
    }
  }

  /** At most |s| entries are listed, and all of them exactly when every entry's key is listed. */
  lemma {:induction false} CountInBound<T>(s: seq<T>, keys: seq<T>)
    ensures CountIn(s, keys) <= |s|
    ensures CountIn(s, keys) == |s| <==> forall x :: x in s ==> x in keys
  {
    if s != [] {
      CountInBound(s[1..], keys);
      assert s == [s[0]] + s[1..];
    }
  }
}
