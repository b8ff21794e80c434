/** Sorting "best first". Every comparator of the library (cards, hands,
    players) returns -1/0/1 according to an integer key, and ArrayList.Sort
    with such a comparator leaves the list as some permutation of itself in
    non-increasing key order; which permutation among equal keys is not
    promised (the sort is not stable), so only that much is stated here. */
module Sorting {

  /** Keys never increase from left to right. */
  predicate NonIncreasing<T>(s: seq<T>, key: T -> int) {
    forall i, j | 0 <= i < j < |s| :: key(s[i]) >= key(s[j])
  }

  /** Inserts `x` in front of the first element whose key is not larger. */
  function Insert<T>(x: T, s: seq<T>, key: T -> int): (r: seq<T>)
    requires NonIncreasing(s, key)
    ensures multiset(r) == multiset(s) + multiset{x}
    ensures NonIncreasing(r, key)
    ensures r[0] == x || (|s| > 0 && r[0] == s[0])
    decreases |s|
  {
    if s == [] || key(x) >= key(s[0]) then
      ConsNonIncreasing(x, s, key);
      [x] + s
    else
      var tail := Insert(x, s[1..], key);
      ConsNonIncreasing(s[0], tail, key);
      assert multiset([s[0]] + tail) == multiset{s[0]} + multiset(tail);
      assert s == [s[0]] + s[1..];
      assert multiset(s) == multiset{s[0]} + multiset(s[1..]);
      [s[0]] + tail
  }

  /** Putting an element with a key at least the first one's in front keeps
      a sequence sorted. */
  lemma ConsNonIncreasing<T>(y: T, t: seq<T>, key: T -> int)
    requires NonIncreasing(t, key)
    requires |t| > 0 ==> key(y) >= key(t[0])
    ensures NonIncreasing([y] + t, key)
  {
    var r := [y] + t;
    forall i, j | 0 <= i < j < |r| ensures key(r[i]) >= key(r[j]) {
      assert r[j] == t[j - 1];
      if i == 0 {
        if j > 1 {
          assert key(t[0]) >= key(t[j - 1]);
        }
      } else {
        assert r[i] == t[i - 1];
      }
    }
  }

  /** A permutation of `s` in non-increasing key order. */
  function Sort<T>(s: seq<T>, key: T -> int): (r: seq<T>)
    ensures multiset(r) == multiset(s)
    ensures NonIncreasing(r, key)
    decreases |s|
  {
    if s == [] then []
    else
      assert s == [s[0]] + s[1..];
      Insert(s[0], Sort(s[1..], key), key)
  }

  /** A sorted sequence starts with a largest key. */
  lemma FirstIsLargest<T>(s: seq<T>, key: T -> int, x: T)
    requires NonIncreasing(s, key)
    requires x in s
    ensures key(s[0]) >= key(x)
  {
    var i :| 0 <= i < |s| && s[i] == x;
    if i > 0 {
      assert key(s[0]) >= key(s[i]);
    }
  }
}
