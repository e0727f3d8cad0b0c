/** pandas `nlargest(n, col)` and `nsmallest(n, col)`: a stable sort on an
    integer column followed by a prefix of length `n`. */
module Ranking {

  predicate NonIncreasing<T>(s: seq<T>, key: T -> int)
  {
    forall i, j :: 0 <= i < j < |s| ==> key(s[i]) >= key(s[j])
  }

  predicate NonDecreasing<T>(s: seq<T>, key: T -> int)
  {
    forall i, j :: 0 <= i < j < |s| ==> key(s[i]) <= key(s[j])
  }

  /** Places `x` after the leading rows of `t` whose key is at least `key(x)`. */
  function Insert<T>(x: T, t: seq<T>, key: T -> int): (r: seq<T>)
    ensures |r| == |t| + 1
    ensures multiset(r) == multiset(t) + multiset{x}
    decreases |t|
  {
    if |t| == 0 then [x]
    else if key(t[0]) >= key(x) then
      assert t == [t[0]] + t[1..];
      [t[0]] + Insert(x, t[1..], key)
    else
      [x] + t
  }

  /** Inserting into a largest-first sequence keeps it largest-first. */
  lemma {:induction false} InsertSorted<T>(x: T, t: seq<T>, key: T -> int)
    requires NonIncreasing(t, key)
    ensures NonIncreasing(Insert(x, t, key), key)
    decreases |t|
  {
    if |t| > 0 && key(t[0]) >= key(x) {
      var rest := Insert(x, t[1..], key);
      InsertSorted(x, t[1..], key);
      forall i | 0 <= i < |rest| ensures key(rest[i]) <= key(t[0]) {
        assert rest[i] in multiset(rest);
        if rest[i] != x {
          var j :| 0 <= j < |t[1..]| && t[1..][j] == rest[i];
          assert t[j + 1] == rest[i];
        }
      }
      var r := [t[0]] + rest;
      assert forall i :: 0 < i < |r| ==> r[i] == rest[i - 1];
    } else if |t| > 0 {
      var r := [x] + t;
      assert forall i :: 0 < i < |r| ==> r[i] == t[i - 1];
    }
  }

  /** Stable sort by `key`, largest first. */
  function SortDesc<T>(s: seq<T>, key: T -> int): (r: seq<T>)
    ensures |r| == |s|
    ensures multiset(r) == multiset(s)
    ensures NonIncreasing(r, key)
    decreases |s|
  {
    if |s| == 0 then []
    else
      var n := |s| - 1;
      assert s == s[..n] + [s[n]];
      var t := SortDesc(s[..n], key);
      InsertSorted(s[n], t, key);
      Insert(s[n], t, key)
  }

  function Min(a: int, b: int): int { if a <= b then a else b }

  /** In a largest-first sequence no row after position `m` outranks a row
      before it. */
  lemma PrefixDominates<T>(t: seq<T>, m: nat, key: T -> int)
    requires NonIncreasing(t, key) && m <= |t|
    ensures forall y, z :: y in multiset(t[m..]) && z in t[..m] ==> key(y) <= key(z)
  {
    forall y, z | y in multiset(t[m..]) && z in t[..m] ensures key(y) <= key(z) {
      var i :| 0 <= i < |t[m..]| && t[m..][i] == y;
      var j :| 0 <= j < m && t[..m][j] == z;
      assert t[m + i] == y && t[j] == z;
    }
  }

  /** pandas `nlargest(n, key)`: the `n` rows with the largest keys, largest
      first (all rows when there are fewer). */
  function Largest<T>(s: seq<T>, n: nat, key: T -> int): (r: seq<T>)
    ensures |r| == Min(n, |s|)
    ensures NonIncreasing(r, key)
    ensures multiset(r) <= multiset(s)
    ensures forall y, z :: y in multiset(s) - multiset(r) && z in r ==> key(y) <= key(z)
  {
    var t := SortDesc(s, key);
    var m := Min(n, |s|);
    assert t == t[..m] + t[m..];
    assert multiset(s) - multiset(t[..m]) == multiset(t[m..]);
    PrefixDominates(t, m, key);
    t[..m]
  }

  /** pandas `nsmallest(n, key)`: the `n` rows with the smallest keys,
      smallest first (all rows when there are fewer). */
  function Smallest<T>(s: seq<T>, n: nat, key: T -> int): (r: seq<T>)
    ensures |r| == Min(n, |s|)
    ensures NonDecreasing(r, key)
    ensures multiset(r) <= multiset(s)
    ensures forall y, z :: y in multiset(s) - multiset(r) && z in r ==> key(z) <= key(y)
  {
    Largest(s, n, x => -key(x))
  }

  /** A row no larger than every row of `t` goes to the end. */
  lemma {:induction false} InsertLast<T>(x: T, t: seq<T>, key: T -> int)
    requires forall i :: 0 <= i < |t| ==> key(x) <= key(t[i])
    ensures Insert(x, t, key) == t + [x]
    decreases |t|
  {
    if |t| > 0 {
      InsertLast(x, t[1..], key);
      assert t == [t[0]] + t[1..];
    }
  }

  /** The sort is stable: an already largest-first sequence is left as is. */
  lemma {:induction false} SortDescSorted<T>(s: seq<T>, key: T -> int)
    requires NonIncreasing(s, key)
    ensures SortDesc(s, key) == s
    decreases |s|
  {
    if |s| > 0 {
      var n := |s| - 1;
      SortDescSorted(s[..n], key);
      InsertLast(s[n], s[..n], key);
      assert s[..n] + [s[n]] == s;
    }
  }

  /** The dashboard first keeps `nlargest(big)` rows and then, for the slider
      value `n <= big`, `nlargest(n)` of those: the result is the same as
      taking `nlargest(n)` of all rows. */
  lemma LargestOfLargest<T>(s: seq<T>, big: nat, n: nat, key: T -> int)
    requires n <= big
    ensures Largest(Largest(s, big, key), n, key) == Largest(s, n, key)
  {
    var l := Largest(s, big, key);
    SortDescSorted(l, key);
  }

  /** The same for `nsmallest`. */
  lemma SmallestOfSmallest<T>(s: seq<T>, big: nat, n: nat, key: T -> int)
    requires n <= big
    ensures Smallest(Smallest(s, big, key), n, key) == Smallest(s, n, key)
  {
    LargestOfLargest(s, big, n, x => -key(x));
  }

  /** `nlargest(big)` followed by `nlargest(n)`, as the dashboard's top-N
      charts compute it. */
  function LargestTwice<T>(s: seq<T>, big: nat, n: nat, key: T -> int): (r: seq<T>)
    requires n <= big
    ensures r == Largest(s, n, key)
  {
    LargestOfLargest(s, big, n, key);
    Largest(Largest(s, big, key), n, key)
  }

  /** `nsmallest(big)` followed by `nsmallest(n)`. */
  function SmallestTwice<T>(s: seq<T>, big: nat, n: nat, key: T -> int): (r: seq<T>)
    requires n <= big
    ensures r == Smallest(s, n, key)
  {
    SmallestOfSmallest(s, big, n, key);
    Smallest(Smallest(s, big, key), n, key)
  }

  /** Of two rows, `nsmallest(1)` keeps the one with the strictly smaller key,
      whatever order they come in. */
  lemma SmallestOfTwo<T>(t: seq<T>, a: T, b: T, key: T -> int)
    requires multiset(t) == multiset{a, b} && key(a) < key(b)
    ensures Smallest(t, 1, key) == [a]
  {
    var w := Smallest(t, 1, key);
    assert |t| == 2;
    assert w == [w[0]] && multiset(w) == multiset{w[0]};
    assert w[0] in multiset(t);
    assert w[0] == b ==> a in multiset(t) - multiset(w) && b in w;
  }
}
