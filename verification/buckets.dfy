/** Keyed integer series and the two pandas steps every time chart and
    histogram of the dashboard is built from: `groupby(key).sum()` (keys come
    out ascending) and `reindex(range, fill_value=0)` (a gap-free, zero-filled
    run of consecutive keys). */
module Buckets {
  import opened Options

  /** (bucket key, value) pairs: a day number, a month index, an hour slot... */
  type Series = seq<(int, int)>

  /** Sum of the values whose key satisfies `p`. */
  function SumIf(s: Series, p: int -> bool): int
    decreases |s|
  {
    if |s| == 0 then 0
    else SumIf(s[..|s| - 1], p) + (if p(s[|s| - 1].0) then s[|s| - 1].1 else 0)
  }

  /** Key selections used with SumIf. */
  function Any(): int -> bool {
    x => true
  }

  function Eq(k: int): int -> bool {
    x => x == k
  }

  /** Keys satisfying `p` inside [lo, hi). */
  function Within(p: int -> bool, lo: int, hi: int): int -> bool {
    x => p(x) && lo <= x < hi
  }

  /** Keys whose image under `key` satisfies `p`. */
  function Pre(p: int -> bool, key: int -> int): int -> bool {
    x => p(key(x))
  }

  /** Sum of all values. */
  function Total(s: Series): int {
    SumIf(s, Any())
  }

  /** Sum of the values filed under key `k`. */
  function ValueAt(s: Series, k: int): int {
    SumIf(s, Eq(k))
  }

  predicate HasKey(s: Series, k: int) {
    exists i :: 0 <= i < |s| && s[i].0 == k
  }

  /** Keys strictly increase: each key once, in ascending order. */
  predicate Ascending(s: Series) {
    forall i, j :: 0 <= i < j < |s| ==> s[i].0 < s[j].0
  }

  function Identity(x: int): int {
    x
  }

  lemma {:induction false} SumIfSnoc(s: Series, x: (int, int), p: int -> bool)
    ensures SumIf(s + [x], p) == SumIf(s, p) + (if p(x.0) then x.1 else 0)
  {
    assert (s + [x])[..|s|] == s;
  }

  lemma SumIfSnocAll(s: Series, x: (int, int))
    ensures forall p {:trigger SumIf(s + [x], p)} ::
      SumIf(s + [x], p) == SumIf(s, p) + (if p(x.0) then x.1 else 0)
  {
    forall p: int -> bool {
      SumIfSnoc(s, x, p);
    }
  }

  /** Two predicates that agree on the keys present select the same sum. */
  lemma {:induction false} SumIfAgree(s: Series, p: int -> bool, q: int -> bool)
    requires forall i :: 0 <= i < |s| ==> p(s[i].0) == q(s[i].0)
    ensures SumIf(s, p) == SumIf(s, q)
    decreases |s|
  {
    if |s| > 0 {
      SumIfAgree(s[..|s| - 1], p, q);
    }
  }

  lemma {:induction false} SumIfNothing(s: Series, p: int -> bool)
    requires forall i :: 0 <= i < |s| ==> !p(s[i].0)
    ensures SumIf(s, p) == 0
    decreases |s|
  {
    if |s| > 0 {
      SumIfNothing(s[..|s| - 1], p);
    }
  }

  /** Sums over disjoint selections add up. */
  lemma {:induction false} SumIfDisjoint(s: Series, p: int -> bool, q: int -> bool)
    requires forall k :: !(p(k) && q(k))
    ensures SumIf(s, k => p(k) || q(k)) == SumIf(s, p) + SumIf(s, q)
    decreases |s|
  {
    if |s| > 0 {
      SumIfDisjoint(s[..|s| - 1], p, q);
    }
  }

  lemma HasKeySnoc(s: Series, x: (int, int))
    ensures forall j {:trigger HasKey(s + [x], j)} :: HasKey(s + [x], j) <==> HasKey(s, j) || j == x.0
  {
    forall j
      ensures HasKey(s + [x], j) <==> HasKey(s, j) || j == x.0
    {
      if HasKey(s, j) {
        var i :| 0 <= i < |s| && s[i].0 == j;
        assert (s + [x])[i].0 == j;
      }
      if j == x.0 {
        assert (s + [x])[|s|].0 == j;
      }
    }
  }

  /** Appending a bucket adds its value to every selection that takes its
      key. */
  lemma SumIfAppend(acc: Series, x: (int, int))
    ensures forall p {:trigger SumIf(acc + [x], p)} :: SumIf(acc + [x], p) == SumIf(acc, p) + (if p(x.0) then x.1 else 0)
  {
    forall p ensures SumIf(acc + [x], p) == SumIf(acc, p) + (if p(x.0) then x.1 else 0) {
      SumIfSnoc(acc, x, p);
    }
  }

  /** A new largest key goes at the end. */
  lemma AppendBucket(acc: Series, k: int, v: int)
    requires Ascending(acc) && forall i :: 0 <= i < |acc| ==> acc[i].0 < k
    ensures Ascending(acc + [(k, v)])
    ensures forall p {:trigger SumIf(acc + [(k, v)], p)} :: SumIf(acc + [(k, v)], p) == SumIf(acc, p) + (if p(k) then v else 0)
    ensures forall j {:trigger HasKey(acc + [(k, v)], j)} :: HasKey(acc + [(k, v)], j) <==> HasKey(acc, j) || j == k
  {
    HasKeySnoc(acc, (k, v));
    SumIfAppend(acc, (k, v));
  }

  /** Replacing the last bucket `(k, w)` by `(k, w + v)`. */
  lemma MergeSums(acc: Series, k: int, v: int)
    requires |acc| > 0 && acc[|acc| - 1].0 == k
    ensures forall p {:trigger SumIf(acc[..|acc| - 1] + [(k, acc[|acc| - 1].1 + v)], p)} ::
      SumIf(acc[..|acc| - 1] + [(k, acc[|acc| - 1].1 + v)], p) == SumIf(acc, p) + (if p(k) then v else 0)
  {
    var n := |acc| - 1;
    forall p ensures SumIf(acc[..n] + [(k, acc[n].1 + v)], p) == SumIf(acc, p) + (if p(k) then v else 0) {
      SumIfSnoc(acc[..n], (k, acc[n].1 + v), p);
      assert acc[..n] + [acc[n]] == acc;
      SumIfSnoc(acc[..n], acc[n], p);
    }
  }

  lemma MergeKeys(acc: Series, k: int, v: int)
    requires |acc| > 0 && acc[|acc| - 1].0 == k
    ensures forall j {:trigger HasKey(acc[..|acc| - 1] + [(k, acc[|acc| - 1].1 + v)], j)} ::
      HasKey(acc[..|acc| - 1] + [(k, acc[|acc| - 1].1 + v)], j) <==> HasKey(acc, j) || j == k
  {
    var n := |acc| - 1;
    assert acc == acc[..n] + [acc[n]];
    HasKeySnoc(acc[..n], acc[n]);
    HasKeySnoc(acc[..n], (k, acc[n].1 + v));
  }

  /** A value for the last key is added to the last bucket. */
  lemma MergeLastBucket(acc: Series, k: int, v: int)
    requires Ascending(acc) && |acc| > 0 && acc[|acc| - 1].0 == k
    ensures Ascending(acc[..|acc| - 1] + [(k, acc[|acc| - 1].1 + v)])
    ensures forall p {:trigger SumIf(acc[..|acc| - 1] + [(k, acc[|acc| - 1].1 + v)], p)} ::
      SumIf(acc[..|acc| - 1] + [(k, acc[|acc| - 1].1 + v)], p) == SumIf(acc, p) + (if p(k) then v else 0)
    ensures forall j {:trigger HasKey(acc[..|acc| - 1] + [(k, acc[|acc| - 1].1 + v)], j)} ::
      HasKey(acc[..|acc| - 1] + [(k, acc[|acc| - 1].1 + v)], j) <==> HasKey(acc, j) || j == k
  {
    MergeSums(acc, k, v);
    MergeKeys(acc, k, v);
  }

  /** Moving the last bucket behind a series that got `v` added at `k`. */
  lemma KeepSums(acc: Series, front: Series, k: int, v: int)
    requires |acc| > 0
    requires forall p {:trigger SumIf(front, p)} :: SumIf(front, p) == SumIf(acc[..|acc| - 1], p) + (if p(k) then v else 0)
    ensures forall p {:trigger SumIf(front + [acc[|acc| - 1]], p)} ::
      SumIf(front + [acc[|acc| - 1]], p) == SumIf(acc, p) + (if p(k) then v else 0)
  {
    var n := |acc| - 1;
    forall p ensures SumIf(front + [acc[n]], p) == SumIf(acc, p) + (if p(k) then v else 0) {
      SumIfSnoc(front, acc[n], p);
      assert acc[..n] + [acc[n]] == acc;
      SumIfSnoc(acc[..n], acc[n], p);
    }
  }

  lemma KeepKeys(acc: Series, front: Series, k: int)
    requires |acc| > 0
    requires forall j {:trigger HasKey(front, j)} :: HasKey(front, j) <==> HasKey(acc[..|acc| - 1], j) || j == k
    ensures forall j {:trigger HasKey(front + [acc[|acc| - 1]], j)} ::
      HasKey(front + [acc[|acc| - 1]], j) <==> HasKey(acc, j) || j == k
  {
    var n := |acc| - 1;
    assert acc == acc[..n] + [acc[n]];
    HasKeySnoc(acc[..n], acc[n]);
    HasKeySnoc(front, acc[n]);
  }

  /** A key below the last one is added in front of the last bucket. */
  lemma KeepLastBucket(acc: Series, front: Series, k: int, v: int)
    requires Ascending(acc) && |acc| > 0 && k < acc[|acc| - 1].0
    requires Ascending(front)
    requires forall p {:trigger SumIf(front, p)} :: SumIf(front, p) == SumIf(acc[..|acc| - 1], p) + (if p(k) then v else 0)
    requires forall j {:trigger HasKey(front, j)} :: HasKey(front, j) <==> HasKey(acc[..|acc| - 1], j) || j == k
    ensures Ascending(front + [acc[|acc| - 1]])
    ensures forall p {:trigger SumIf(front + [acc[|acc| - 1]], p)} ::
      SumIf(front + [acc[|acc| - 1]], p) == SumIf(acc, p) + (if p(k) then v else 0)
    ensures forall j {:trigger HasKey(front + [acc[|acc| - 1]], j)} ::
      HasKey(front + [acc[|acc| - 1]], j) <==> HasKey(acc, j) || j == k
  {
    var n := |acc| - 1;
    KeepSums(acc, front, k, v);
    KeepKeys(acc, front, k);
    forall i | 0 <= i < |front| ensures front[i].0 < acc[n].0 {
      assert HasKey(front, front[i].0);
    }
  }

  /** Adds `v` to bucket `k` of an ascending series, creating the bucket when
      it is absent; the series stays ascending. */
  function AddTo(acc: Series, k: int, v: int): (r: Series)
    requires Ascending(acc)
    ensures Ascending(r)
    ensures forall p {:trigger SumIf(r, p)} :: SumIf(r, p) == SumIf(acc, p) + (if p(k) then v else 0)
    ensures forall j {:trigger HasKey(r, j)} :: HasKey(r, j) <==> HasKey(acc, j) || j == k
    decreases |acc|
  {
    if |acc| == 0 then
      AppendBucket(acc, k, v);
      acc + [(k, v)]
    else
      var n := |acc| - 1;
      if acc[n].0 == k then
        MergeLastBucket(acc, k, v);
        acc[..n] + [(k, acc[n].1 + v)]
      else if acc[n].0 < k then
        AppendBucket(acc, k, v);
        acc + [(k, v)]
      else
        var front := AddTo(acc[..n], k, v);
        KeepLastBucket(acc, front, k, v);
        front + [acc[n]]
  }

  /** pandas `groupby(key).sum()`: one bucket per distinct key, ascending,
      holding the sum of the values filed under that key. */
  function GroupSum(s: Series, key: int -> int): (r: Series)
    ensures Ascending(r)
    ensures forall p {:trigger SumIf(r, p)} :: SumIf(r, p) == SumIf(s, Pre(p, key))
    ensures forall j {:trigger HasKey(r, j)} :: HasKey(r, j) <==> exists i :: 0 <= i < |s| && key(s[i].0) == j
    decreases |s|
  {
    if |s| == 0 then []
    else
      var n := |s| - 1;
      var front := GroupSum(s[..n], key);
      var r := AddTo(front, key(s[n].0), s[n].1);
      assert forall p {:trigger SumIf(r, p)} :: SumIf(r, p) == SumIf(s, Pre(p, key)) by {
        forall p ensures SumIf(r, p) == SumIf(s, Pre(p, key)) {
          assert s == s[..n] + [s[n]];
          SumIfSnoc(s[..n], s[n], Pre(p, key));
        }
      }
      assert forall j {:trigger HasKey(r, j)} :: HasKey(r, j) <==> exists i :: 0 <= i < |s| && key(s[i].0) == j by {
        assert forall i :: 0 <= i < n ==> s[..n][i] == s[i];
      }
      r
  }

  /** The grouping loses nothing: each key's bucket holds exactly the values
      filed under it, and the grand total is unchanged. */
  lemma GroupSumConserves(s: Series, key: int -> int, k: int)
    ensures ValueAt(GroupSum(s, key), k) == SumIf(s, Pre(Eq(k), key))
    ensures Total(GroupSum(s, key)) == Total(s)
  {
    var r := GroupSum(s, key);
    assert SumIf(r, Any()) == SumIf(s, Pre(Any(), key));
    SumIfAgree(s, Pre(Any(), key), Any());
  }

  /** Grouping by the key itself merges equal keys and changes no sum. */
  lemma GroupByIdentity(s: Series, p: int -> bool)
    ensures SumIf(GroupSum(s, Identity), p) == SumIf(s, p)
  {
    assert forall x :: Pre(p, Identity)(x) == p(x);
    SumIfAgree(s, Pre(p, Identity), p);
  }

  /** pandas `reindex(range(lo, lo + n), fill_value=0)` applied to a grouped
      series: exactly the `n` consecutive keys from `lo`, in order. */
  function Fill(g: Series, lo: int, n: nat): (r: Series)
    ensures |r| == n
    ensures forall i :: 0 <= i < n ==> r[i] == (lo + i, ValueAt(g, lo + i))
    decreases n
  {
    if n == 0 then [] else Fill(g, lo, n - 1) + [(lo + n - 1, ValueAt(g, lo + n - 1))]
  }

  /** Summing the reindexed series over any selection of keys gives the sum
      of the grouped values selected and inside the window. */
  lemma {:induction false} FillSumIf(g: Series, lo: int, n: nat, p: int -> bool)
    ensures SumIf(Fill(g, lo, n), p) == SumIf(g, Within(p, lo, lo + n))
    decreases n
  {
    if n == 0 {
      SumIfNothing(g, Within(p, lo, lo + n));
    } else {
      var c := lo + n - 1;
      FillSumIf(g, lo, n - 1, p);
      SumIfSnoc(Fill(g, lo, n - 1), (c, ValueAt(g, c)), p);
      var inner := Within(p, lo, c);
      var here := x => p(x) && x == c;
      SumIfDisjoint(g, inner, here);
      SumIfAgree(g, x => inner(x) || here(x), Within(p, lo, lo + n));
      if p(c) {
        SumIfAgree(g, here, Eq(c));
      } else {
        SumIfNothing(g, here);
      }
    }
  }

  /** Group then reindex: the zero-filled window of `n` consecutive keys from
      `lo`; entry `i` holds everything observed under key `lo + i`. */
  function Reindexed(obs: Series, lo: int, n: nat): (r: Series)
    ensures |r| == n
    ensures forall i :: 0 <= i < n ==> r[i].0 == lo + i && r[i].1 == ValueAt(obs, lo + i)
  {
    var g := GroupSum(obs, Identity);
    assert forall k :: ValueAt(g, k) == ValueAt(obs, k) by {
      forall k
        ensures ValueAt(g, k) == ValueAt(obs, k)
      {
        GroupByIdentity(obs, Eq(k));
      }
    }
    Fill(g, lo, n)
  }

  /** Conservation across the reindex: any selection of keys sums to the
      observations selected that fall inside the window; observations outside
      it are dropped. */
  lemma ReindexedSumIf(obs: Series, lo: int, n: nat, p: int -> bool)
    ensures SumIf(Reindexed(obs, lo, n), p) == SumIf(obs, Within(p, lo, lo + n))
  {
    var g := GroupSum(obs, Identity);
    FillSumIf(g, lo, n, p);
    assert SumIf(g, Within(p, lo, lo + n)) == SumIf(obs, Pre(Within(p, lo, lo + n), Identity));
    SumIfAgree(obs, Pre(Within(p, lo, lo + n), Identity), Within(p, lo, lo + n));
  }

  /** When every observation falls inside the window, the reindexed series has
      the same total as the observations. */
  lemma ReindexedTotal(obs: Series, lo: int, n: nat)
    requires forall i :: 0 <= i < |obs| ==> lo <= obs[i].0 < lo + n
    ensures Total(Reindexed(obs, lo, n)) == Total(obs)
  {
    ReindexedSumIf(obs, lo, n, Any());
    SumIfAgree(obs, Within(Any(), lo, lo + n), Any());
  }
}
