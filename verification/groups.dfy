/** Generic pandas row reductions keyed by an arbitrary column: `unique()`,
    `drop_duplicates(keep='first' / 'last')`, `groupby(k).first()`,
    `groupby(k).sum()`, `groupby(k).nunique()`, `groupby(k).max()`. Groups
    come out in first-seen order. */
module Groups {
  import opened Options

  /** Distinct elements in first-seen order (pandas `unique()`). */
  function Distinct<T(==,!new)>(s: seq<T>): (r: seq<T>)
    ensures forall i, j :: 0 <= i < j < |r| ==> r[i] != r[j]
    ensures forall x :: x in r <==> x in s
    decreases |s|
  {
    if |s| == 0 then []
    else
      var n := |s| - 1;
      var d := Distinct(s[..n]);
      assert forall x :: x in s <==> x in s[..n] || x == s[n];
      if s[n] in d then d else d + [s[n]]
  }

  lemma {:induction false} NoDuplicatesCard<T(!new)>(d: seq<T>)
    requires forall i, j :: 0 <= i < j < |d| ==> d[i] != d[j]
    ensures |set x | x in d| == |d|
    decreases |d|
  {
    if |d| > 0 {
      var n := |d| - 1;
      NoDuplicatesCard(d[..n]);
      assert (set x | x in d) == (set x | x in d[..n]) + {d[n]};
      assert d[n] !in (set x | x in d[..n]);
    }
  }

  /** pandas `nunique()`: the number of distinct elements. */
  function CountDistinct<T(==,!new)>(s: seq<T>): (n: nat)
    ensures n == |set x | x in s|
    ensures n <= |s|
  {
    var d := Distinct(s);
    NoDuplicatesCard(d);
    assert (set x | x in d) == (set x | x in s);
    DistinctNoLonger(s);
    |d|
  }

  lemma {:induction false} DistinctNoLonger<T(!new)>(s: seq<T>)
    ensures |Distinct(s)| <= |s|
    decreases |s|
  {
    if |s| > 0 {
      DistinctNoLonger(s[..|s| - 1]);
    }
  }

  /** A table with one row per key of `s` has as many rows as `s` has
      distinct keys. */
  lemma OneRowPerKey<K(!new), V, W>(r: seq<(K, V)>, s: seq<(K, W)>)
    requires forall i, j :: 0 <= i < j < |r| ==> r[i].0 != r[j].0
    requires forall k :: k in Keys(r) <==> k in Keys(s)
    ensures |r| == CountDistinct(Keys(s))
  {
    var kr := Keys(r);
    NoDuplicatesCard(kr);
    assert (set x | x in kr) == (set x | x in Keys(s));
  }

  function Keys<K, V>(s: seq<(K, V)>): (r: seq<K>)
    ensures |r| == |s| && forall i :: 0 <= i < |s| ==> r[i] == s[i].0
  {
    seq(|s|, i requires 0 <= i < |s| => s[i].0)
  }

  function Values<K, V>(s: seq<(K, V)>): (r: seq<V>)
    ensures |r| == |s| && forall i :: 0 <= i < |s| ==> r[i] == s[i].1
  {
    seq(|s|, i requires 0 <= i < |s| => s[i].1)
  }

  /** pandas `max()` of a column: `None` (NaN) for an empty table. */
  function MaxValue<K>(s: seq<(K, int)>): (r: Option<int>)
    ensures r.None? <==> |s| == 0
    ensures r.Some? ==> (exists i :: 0 <= i < |s| && s[i].1 == r.value) &&
                        forall i :: 0 <= i < |s| ==> s[i].1 <= r.value
    decreases |s|
  {
    if |s| == 0 then None
    else
      var n := |s| - 1;
      var m := MaxValue(s[..n]);
      assert forall i :: 0 <= i < n ==> s[..n][i] == s[i];
      if m.None? || s[n].1 > m.value then Some(s[n].1) else m
  }

  /** The first present value filed under `k` (pandas `groupby(...).first()`
      skips missing values column by column). */
  function FirstPresent<K(==), V>(s: seq<(K, Option<V>)>, k: K): (r: Option<V>)
    ensures r.Some? ==> exists i :: 0 <= i < |s| && s[i] == (k, r) &&
                                    forall j :: 0 <= j < i && s[j].0 == k ==> s[j].1.None?
    ensures r.None? ==> forall i :: 0 <= i < |s| && s[i].0 == k ==> s[i].1.None?
    decreases |s|
  {
    if |s| == 0 then None
    else if s[0].0 == k && s[0].1.Some? then s[0].1
    else
      var r := FirstPresent(s[1..], k);
      assert forall i :: 0 <= i < |s| - 1 ==> s[1..][i] == s[i + 1];
      r
  }

  /** The row that carries a key of the table. */
  lemma RowOfKey<K, V>(s: seq<(K, V)>, k: K) returns (j: nat)
    requires k in Keys(s)
    ensures j < |s| && s[j].0 == k
  {
    j :| j < |s| && Keys(s)[j] == k;
  }

  /** A key whose values are all present has a first present value. */
  lemma FirstPresentFound<K, V>(s: seq<(K, Option<V>)>, k: K)
    requires k in Keys(s)
    requires forall i :: 0 <= i < |s| ==> s[i].1.Some?
    ensures FirstPresent(s, k).Some?
  {
    var j :| 0 <= j < |s| && Keys(s)[j] == k;
    assert s[j].0 == k;
  }

  /** pandas `groupby(k).agg(first)` on one column: one row per distinct key,
      carrying the key's first present value. */
  function FirstPresentByKey<K(==,!new), V>(s: seq<(K, Option<V>)>): (r: seq<(K, Option<V>)>)
    ensures forall i, j :: 0 <= i < j < |r| ==> r[i].0 != r[j].0
    ensures forall k :: k in Keys(r) <==> k in Keys(s)
    ensures forall i :: 0 <= i < |r| ==> r[i].1 == FirstPresent(s, r[i].0)
  {
    var ks := Distinct(Keys(s));
    var r := seq(|ks|, i requires 0 <= i < |ks| => (ks[i], FirstPresent(s, ks[i])));
    assert Keys(r) == ks;
    r
  }

  /** The keys carried by a sequence of rows. */
  function KeySet<T, K>(s: seq<T>, key: T -> K): set<K>
  {
    set i | 0 <= i < |s| :: key(s[i])
  }

  lemma KeySetSnoc<T, K>(s: seq<T>, x: T, key: T -> K)
    ensures KeySet(s + [x], key) == KeySet(s, key) + {key(x)}
  {
    var t := s + [x];
    assert key(t[|s|]) == key(x);
    forall k | k in KeySet(s, key) ensures k in KeySet(t, key) {
      var i :| 0 <= i < |s| && key(s[i]) == k;
      assert t[i] == s[i];
    }
  }

  lemma KeySetCons<T, K>(x: T, s: seq<T>, key: T -> K)
    ensures KeySet([x] + s, key) == {key(x)} + KeySet(s, key)
  {
    var t := [x] + s;
    assert key(t[0]) == key(x);
    forall k | k in KeySet(s, key) ensures k in KeySet(t, key) {
      var i :| 0 <= i < |s| && key(s[i]) == k;
      assert t[i + 1] == s[i];
    }
    forall k | k in KeySet(t, key) ensures k in {key(x)} + KeySet(s, key) {
      var i :| 0 <= i < |t| && key(t[i]) == k;
      if i > 0 { assert t[i] == s[i - 1]; }
    }
  }

  /** pandas `drop_duplicates(subset=key, keep='first')`: keeps, in order,
      exactly the rows whose key no earlier row carries. */
  function FirstRows<T, K(==)>(s: seq<T>, key: T -> K): (r: seq<T>)
    ensures forall i, j :: 0 <= i < j < |r| ==> key(r[i]) != key(r[j])
    ensures KeySet(r, key) == KeySet(s, key)
    ensures forall x :: x in r ==> x in s
    ensures forall i :: 0 <= i < |s| && key(s[i]) !in KeySet(s[..i], key) ==> s[i] in r
    decreases |s|
  {
    if |s| == 0 then []
    else
      var n := |s| - 1;
      var front := FirstRows(s[..n], key);
      assert s == s[..n] + [s[n]];
      KeySetSnoc(s[..n], s[n], key);
      assert forall i :: 0 <= i < n ==> s[..n][..i] == s[..i];
      if key(s[n]) in KeySet(s[..n], key) then front
      else
        KeySetSnoc(front, s[n], key);
        front + [s[n]]
  }

  /** A row whose key was already seen is dropped by the first-row dedup. */
  lemma FirstRowsSeen<T, K>(s: seq<T>, x: T, key: T -> K)
    requires key(x) in KeySet(s, key)
    ensures FirstRows(s + [x], key) == FirstRows(s, key)
  {
    assert (s + [x])[..|s|] == s;
  }

  /** pandas `drop_duplicates(subset=key, keep='last')`: keeps, in order,
      exactly the rows whose key no later row carries. */
  function LastRows<T, K(==)>(s: seq<T>, key: T -> K): (r: seq<T>)
    ensures forall i, j :: 0 <= i < j < |r| ==> key(r[i]) != key(r[j])
    ensures KeySet(r, key) == KeySet(s, key)
    ensures forall x :: x in r ==> x in s
    decreases |s|
  {
    if |s| == 0 then []
    else
      var back := LastRows(s[1..], key);
      assert s == [s[0]] + s[1..];
      KeySetCons(s[0], s[1..], key);
      if key(s[0]) in KeySet(s[1..], key) then back
      else
        KeySetCons(s[0], back, key);
        var r := [s[0]] + back;
        assert forall j :: 0 <= j < |back| ==> r[j + 1] == back[j] && key(back[j]) in KeySet(back, key);
        r
  }

  /** Every row whose key no later row carries survives `LastRows`. */
  lemma {:induction false} LastRowsKeepsLast<T, K>(s: seq<T>, key: T -> K, i: int)
    requires 0 <= i < |s| && key(s[i]) !in KeySet(s[i + 1..], key)
    ensures s[i] in LastRows(s, key)
    decreases |s|
  {
    if i > 0 {
      assert s[1..][i - 1] == s[i] && s[1..][i..] == s[i + 1..];
      LastRowsKeepsLast(s[1..], key, i - 1);
    }
  }

  /** Every row `LastRows` keeps is the last of its key. */
  lemma {:induction false} LastRowsAreLast<T, K>(s: seq<T>, key: T -> K, x: T)
    requires x in LastRows(s, key)
    ensures exists i :: 0 <= i < |s| && s[i] == x && key(x) !in KeySet(s[i + 1..], key)
    decreases |s|
  {
    var back := LastRows(s[1..], key);
    if x in back {
      LastRowsAreLast(s[1..], key, x);
      var i :| 0 <= i < |s[1..]| && s[1..][i] == x && key(x) !in KeySet(s[1..][i + 1..], key);
      assert s[1..][i + 1..] == s[i + 2..];
      assert s[i + 1] == x;
    } else {
      assert x == s[0] && key(s[0]) !in KeySet(s[1..], key);
      assert s[0 + 1..] == s[1..];
    }
  }

  /** Sum of the weights filed under `k`. */
  function WeightOf<K(==)>(s: seq<(K, int)>, k: K): int
    decreases |s|
  {
    if |s| == 0 then 0
    else WeightOf(s[..|s| - 1], k) + (if s[|s| - 1].0 == k then s[|s| - 1].1 else 0)
  }

  function TotalWeight<K>(s: seq<(K, int)>): int
    decreases |s|
  {
    if |s| == 0 then 0 else TotalWeight(s[..|s| - 1]) + s[|s| - 1].1
  }

  /** pandas `groupby(k).sum()` (or `.size()` with unit weights): one row per
      distinct key in first-seen order with the key's summed weight. */
  function Tally<K(==,!new)>(s: seq<(K, int)>): (r: seq<(K, int)>)
    ensures forall i, j :: 0 <= i < j < |r| ==> r[i].0 != r[j].0
    ensures forall k :: k in Keys(r) <==> k in Keys(s)
    ensures forall i :: 0 <= i < |r| ==> r[i].1 == WeightOf(s, r[i].0)
  {
    var ks := Distinct(Keys(s));
    var r := seq(|ks|, i requires 0 <= i < |ks| => (ks[i], WeightOf(s, ks[i])));
    assert Keys(r) == ks;
    r
  }

  /** Sum over a key list of each key's weight in `s`. */
  function WeightsOf<K(==)>(ks: seq<K>, s: seq<(K, int)>): int
    decreases |ks|
  {
    if |ks| == 0 then 0 else WeightsOf(ks[..|ks| - 1], s) + WeightOf(s, ks[|ks| - 1])
  }

  lemma {:induction false} WeightsOfSnoc<K>(ks: seq<K>, s: seq<(K, int)>, x: (K, int))
    requires forall i, j :: 0 <= i < j < |ks| ==> ks[i] != ks[j]
    ensures WeightsOf(ks, s + [x]) == WeightsOf(ks, s) + (if x.0 in ks then x.1 else 0)
    decreases |ks|
  {
    assert (s + [x])[..|s|] == s;
    if |ks| > 0 {
      var n := |ks| - 1;
      WeightsOfSnoc(ks[..n], s, x);
      assert x.0 in ks <==> x.0 in ks[..n] || x.0 == ks[n];
    }
  }

  lemma {:induction false} WeightOfAbsent<K>(s: seq<(K, int)>, k: K)
    requires k !in Keys(s)
    ensures WeightOf(s, k) == 0
    decreases |s|
  {
    if |s| > 0 {
      var n := |s| - 1;
      assert Keys(s[..n]) == Keys(s)[..n];
      WeightOfAbsent(s[..n], k);
    }
  }

  /** Grouping conserves the grand total: the distinct keys' weights add up to
      the sum of all weights. */
  lemma {:induction false} TallyTotal<K(!new)>(s: seq<(K, int)>)
    ensures WeightsOf(Distinct(Keys(s)), s) == TotalWeight(s)
    decreases |s|
  {
    if |s| > 0 {
      var n := |s| - 1;
      var s' := s[..n];
      assert s == s' + [s[n]];
      assert Keys(s') == Keys(s)[..n];
      TallyTotal(s');
      TallyStep(s', s[n]);
    }
  }

  /** One more row adds its weight to the grouped total. */
  lemma TallyStep<K(!new)>(s: seq<(K, int)>, x: (K, int))
    requires WeightsOf(Distinct(Keys(s)), s) == TotalWeight(s)
    ensures WeightsOf(Distinct(Keys(s + [x])), s + [x]) == TotalWeight(s + [x])
  {
    var t := s + [x];
    assert t[..|s|] == s;
    assert Keys(t)[..|s|] == Keys(s);
    var d' := Distinct(Keys(s));
    WeightsOfSnoc(d', s, x);
    if x.0 !in d' {
      var d := d' + [x.0];
      assert d[..|d| - 1] == d';
      WeightOfAbsent(s, x.0);
      assert WeightOf(t, x.0) == WeightOf(s, x.0) + x.1;
    }
  }

  /** pandas `groupby` leaves out the rows whose key is missing. */
  function DropMissing<G(==,!new), E(==,!new)>(s: seq<(Option<G>, E)>): (r: seq<(G, E)>)
    ensures |r| <= |s|
    ensures forall g, e :: (g, e) in r <==> (Some(g), e) in s
    decreases |s|
  {
    if |s| == 0 then []
    else
      var n := |s| - 1;
      var front := DropMissing(s[..n]);
      assert forall x :: x in s <==> x in s[..n] || x == s[n];
      if s[n].0.Some? then front + [(s[n].0.value, s[n].1)] else front
  }

  /** `DropMissing` keeps the order of the rows: a row appended to the input
      is appended to the result exactly when its key is present. */
  lemma DropMissingSnoc<G(!new), E(!new)>(s: seq<(Option<G>, E)>, x: (Option<G>, E))
    ensures DropMissing(s + [x]) == DropMissing(s) + (if x.0.Some? then [(x.0.value, x.1)] else [])
  {
    assert (s + [x])[..|s|] == s;
  }

  /** An appended row decides a key's first present value only when no
      earlier row has one. */
  lemma {:induction false} FirstPresentSnoc<K, V>(s: seq<(K, Option<V>)>, x: (K, Option<V>), k: K)
    ensures FirstPresent(s + [x], k) ==
      if FirstPresent(s, k).Some? then FirstPresent(s, k) else if x.0 == k then x.1 else None
    decreases |s|
  {
    if |s| > 0 {
      assert (s + [x])[1..] == s[1..] + [x];
      FirstPresentSnoc(s[1..], x, k);
    }
  }

  /** Leaving out the rows whose key is missing changes no key's first
      present value: the kept rows stay in their order. */
  lemma {:induction false} FirstPresentDropMissing<G(!new), V(!new)>(s: seq<(Option<G>, Option<V>)>, g: G)
    ensures FirstPresent(DropMissing(s), g) == FirstPresent(s, Some(g))
    decreases |s|
  {
    if |s| > 0 {
      var n := |s| - 1;
      assert s == s[..n] + [s[n]];
      FirstPresentDropMissing(s[..n], g);
      DropMissingSnoc(s[..n], s[n]);
      FirstPresentSnoc(s[..n], s[n], Some(g));
      if s[n].0.Some? {
        FirstPresentSnoc(DropMissing(s[..n]), (s[n].0.value, s[n].1), g);
      }
    }
  }

  /** The entities filed under group `g`, missing ones left out. */
  function MembersOf<G(==,!new), E(!new)>(s: seq<(G, Option<E>)>, g: G): (r: seq<E>)
    ensures forall e :: e in r <==> (g, Some(e)) in s
    decreases |s|
  {
    if |s| == 0 then []
    else
      var n := |s| - 1;
      var front := MembersOf(s[..n], g);
      assert forall x :: x in s <==> x in s[..n] || x == s[n];
      if s[n].0 == g && s[n].1.Some? then front + [s[n].1.value] else front
  }

  /** The set of present entities filed under group `g`. */
  function MembersIn<G(==,!new), E(==,!new)>(s: seq<(G, Option<E>)>, g: G): set<E>
  {
    set x | x in s && x.0 == g && x.1.Some? :: x.1.value
  }

  /** pandas `groupby(g)[e].nunique()`: per group in first-seen order, the
      number of distinct present entities. Groups whose entities are all
      missing report 0. */
  function DistinctPerGroup<G(==,!new), E(==,!new)>(s: seq<(G, Option<E>)>): (r: seq<(G, int)>)
    ensures forall i, j :: 0 <= i < j < |r| ==> r[i].0 != r[j].0
    ensures forall g :: g in Keys(r) <==> g in Keys(s)
    ensures forall i :: 0 <= i < |r| ==> r[i].1 == |MembersIn(s, r[i].0)|
  {
    var gs := Distinct(Keys(s));
    var r := seq(|gs|, i requires 0 <= i < |gs| => (gs[i], CountDistinct(MembersOf(s, gs[i]))));
    assert Keys(r) == gs;
    assert forall i :: 0 <= i < |r| ==>
      (set e | e in MembersOf(s, gs[i])) == MembersIn(s, gs[i]);
    r
  }

  /** The largest value filed under `k`. */
  function MaxOf<K(==)>(s: seq<(K, int)>, k: K): (m: int)
    requires k in Keys(s)
    ensures (k, m) in s
    ensures forall i :: 0 <= i < |s| && s[i].0 == k ==> s[i].1 <= m
    decreases |s|
  {
    var n := |s| - 1;
    assert forall i :: 0 <= i < n ==> s[..n][i] == s[i];
    if k !in Keys(s[..n]) then
      assert forall i :: 0 <= i < n ==> s[i].0 != k;
      s[n].1
    else
      var m := MaxOf(s[..n], k);
      if s[n].0 == k && s[n].1 > m then s[n].1 else m
  }

  /** The smallest value filed under `k`. */
  function MinOf<K(==)>(s: seq<(K, int)>, k: K): (m: int)
    requires k in Keys(s)
    ensures (k, m) in s
    ensures forall i :: 0 <= i < |s| && s[i].0 == k ==> m <= s[i].1
    decreases |s|
  {
    var n := |s| - 1;
    assert forall i :: 0 <= i < n ==> s[..n][i] == s[i];
    if k !in Keys(s[..n]) then
      assert forall i :: 0 <= i < n ==> s[i].0 != k;
      s[n].1
    else
      var m := MinOf(s[..n], k);
      if s[n].0 == k && s[n].1 < m then s[n].1 else m
  }

  /** pandas `groupby(k).max()`: per key in first-seen order, its largest value. */
  function MaxPerGroup<K(==,!new)>(s: seq<(K, int)>): (r: seq<(K, int)>)
    ensures Keys(r) == Distinct(Keys(s))
    ensures forall i, j :: 0 <= i < j < |r| ==> r[i].0 != r[j].0
    ensures forall k :: k in Keys(r) <==> k in Keys(s)
    ensures forall i :: 0 <= i < |r| ==> r[i] in s
    ensures forall i, j :: 0 <= i < |r| && 0 <= j < |s| && s[j].0 == r[i].0 ==> s[j].1 <= r[i].1
  {
    var ks := Distinct(Keys(s));
    var r := seq(|ks|, i requires 0 <= i < |ks| => (ks[i], MaxOf(s, ks[i])));
    assert Keys(r) == ks;
    r
  }

  /** pandas `groupby(k).min()`: per key in first-seen order, its smallest value. */
  function MinPerGroup<K(==,!new)>(s: seq<(K, int)>): (r: seq<(K, int)>)
    ensures forall i, j :: 0 <= i < j < |r| ==> r[i].0 != r[j].0
    ensures forall k :: k in Keys(r) <==> k in Keys(s)
    ensures forall i :: 0 <= i < |r| ==> r[i] in s
    ensures forall i, j :: 0 <= i < |r| && 0 <= j < |s| && s[j].0 == r[i].0 ==> r[i].1 <= s[j].1
  {
    var ks := Distinct(Keys(s));
    var r := seq(|ks|, i requires 0 <= i < |ks| => (ks[i], MinOf(s, ks[i])));
    assert Keys(r) == ks;
    r
  }

  /** The distinct `member` values of the rows filed under group `g`. */
  function MembersWhere<T(==,!new), G(==), E>(rows: seq<T>, key: T -> Option<G>, member: T -> E, g: G): set<E>
  {
    set x | x in rows && key(x) == Some(g) :: member(x)
  }

  function GroupPairs<T, G, E>(rows: seq<T>, key: T -> Option<G>, member: T -> E): (r: seq<(Option<G>, Option<E>)>)
    ensures |r| == |rows| && forall i :: 0 <= i < |rows| ==> r[i] == (key(rows[i]), Some(member(rows[i])))
  {
    seq(|rows|, i requires 0 <= i < |rows| => (key(rows[i]), Some(member(rows[i]))))
  }

  /** pandas `groupby(key)[member].nunique()`: one row per present group
      key, with the number of distinct `member` values among its rows. */
  function NuniqueBy<T(==,!new), G(==,!new), E(==,!new)>(rows: seq<T>, key: T -> Option<G>, member: T -> E): (r: seq<(G, int)>)
    ensures forall i, j :: 0 <= i < j < |r| ==> r[i].0 != r[j].0
    ensures forall g :: g in Keys(r) <==> exists x :: x in rows && key(x) == Some(g)
    ensures forall i :: 0 <= i < |r| ==> r[i].1 == |MembersWhere(rows, key, member, r[i].0)|
  {
    var s := DropMissing(GroupPairs(rows, key, member));
    forall g ensures MembersIn(s, g) == MembersWhere(rows, key, member, g) {
      NuniqueMembers(rows, key, member, g);
    }
    forall g ensures g in Keys(s) <==> exists x :: x in rows && key(x) == Some(g) {
      NuniqueKey(rows, key, member, g);
    }
    DistinctPerGroup(s)
  }

  lemma NuniqueMembers<T(!new), G(!new), E(!new)>(rows: seq<T>, key: T -> Option<G>, member: T -> E, g: G)
    ensures MembersIn(DropMissing(GroupPairs(rows, key, member)), g) == MembersWhere(rows, key, member, g)
  {
    var p := GroupPairs(rows, key, member);
    var s := DropMissing(p);
    forall e | e in MembersIn(s, g) ensures e in MembersWhere(rows, key, member, g) {
      assert (g, Some(e)) in s;
      var i :| 0 <= i < |p| && p[i] == (Some(g), Some(e));
      assert rows[i] in rows;
    }
    forall e | e in MembersWhere(rows, key, member, g) ensures e in MembersIn(s, g) {
      var x :| x in rows && key(x) == Some(g) && member(x) == e;
      var i :| 0 <= i < |rows| && rows[i] == x;
      assert p[i] == (Some(g), Some(e));
      assert (g, Some(e)) in s;
    }
  }

  /** The keys left after `DropMissing` are exactly the present ones. */
  lemma DropMissingKey<G(!new), E(!new)>(p: seq<(Option<G>, E)>, g: G)
    ensures g in Keys(DropMissing(p)) <==> exists i :: 0 <= i < |p| && p[i].0 == Some(g)
  {
    var s := DropMissing(p);
    if g in Keys(s) {
      var j :| 0 <= j < |s| && Keys(s)[j] == g;
      assert (g, s[j].1) in s;
      var i :| 0 <= i < |p| && p[i] == (Some(g), s[j].1);
    }
    if exists i :: 0 <= i < |p| && p[i].0 == Some(g) {
      var i :| 0 <= i < |p| && p[i].0 == Some(g);
      assert (Some(g), p[i].1) in p;
      assert (g, p[i].1) in s;
      var j :| 0 <= j < |s| && s[j] == (g, p[i].1);
      assert Keys(s)[j] == g;
    }
  }

  lemma NuniqueKey<T, G(!new), E(!new)>(rows: seq<T>, key: T -> Option<G>, member: T -> E, g: G)
    ensures g in Keys(DropMissing(GroupPairs(rows, key, member))) <==> exists x :: x in rows && key(x) == Some(g)
  {
    var p := GroupPairs(rows, key, member);
    DropMissingKey(p, g);
    if exists i :: 0 <= i < |p| && p[i].0 == Some(g) {
      var i :| 0 <= i < |p| && p[i].0 == Some(g);
      assert rows[i] in rows;
    }
    if exists x :: x in rows && key(x) == Some(g) {
      var x :| x in rows && key(x) == Some(g);
      var i :| 0 <= i < |rows| && rows[i] == x;
      assert p[i].0 == Some(g);
    }
  }

  /** The distinct (group, member) pairs among the rows with a present
      group key. */
  function PairsOf<T(==,!new), G(==,!new), E(==,!new)>(rows: seq<T>, key: T -> Option<G>, member: T -> E): set<(G, E)>
  {
    set x | x in rows && key(x).Some? :: (key(x).value, member(x))
  }

  /** Pairing every element with one fixed group keeps the count. */
  lemma {:induction false} PairWithCard<G, E(!new)>(s: set<E>, g: G)
    ensures |set e | e in s :: (g, e)| == |s|
    decreases s
  {
    if s != {} {
      var e :| e in s;
      PairWithCard(s - {e}, g);
      assert (set x | x in s :: (g, x)) == (set x | x in s - {e} :: (g, x)) + {(g, e)};
    }
  }

  lemma GroupOfPairs<T(!new), G(!new), E(!new)>(rows: seq<T>, key: T -> Option<G>, member: T -> E, g: G)
    ensures PairsOfGroup(PairsOf(rows, key, member), g) == (set e | e in MembersWhere(rows, key, member, g) :: (g, e))
  {
    var mw := MembersWhere(rows, key, member, g);
    forall p | p in PairsOf(rows, key, member) && p.0 == g ensures p in (set e | e in mw :: (g, e)) {
      var x :| x in rows && key(x).Some? && p == (key(x).value, member(x));
      assert member(x) in mw;
    }
    forall e | e in mw ensures (g, e) in PairsOf(rows, key, member) {
      var x :| x in rows && key(x) == Some(g) && member(x) == e;
    }
  }

  /** The pairs of `p` whose group is one of `ks`. */
  function PairsAmong<G(==), E(==)>(p: set<(G, E)>, ks: seq<G>): set<(G, E)>
  {
    set x | x in p && x.0 in ks
  }

  /** The pairs of `p` of group `g`. */
  function PairsOfGroup<G(==), E(==)>(p: set<(G, E)>, g: G): set<(G, E)>
  {
    set x | x in p && x.0 == g
  }

  lemma PairsAmongSnoc<G, E>(p: set<(G, E)>, ks: seq<G>, g: G)
    requires g !in ks
    ensures PairsAmong(p, ks + [g]) == PairsAmong(p, ks) + PairsOfGroup(p, g)
    ensures PairsAmong(p, ks) !! PairsOfGroup(p, g)
  {
  }

  /** Summing, over distinct groups, the number of pairs of each group counts
      the pairs of those groups. */
  lemma {:induction false} SumOfGroups<G, E>(r: seq<(G, int)>, p: set<(G, E)>)
    requires forall i, j :: 0 <= i < j < |r| ==> r[i].0 != r[j].0
    requires forall i :: 0 <= i < |r| ==> r[i].1 == |PairsOfGroup(p, r[i].0)|
    ensures TotalWeight(r) == |PairsAmong(p, Keys(r))|
    decreases |r|
  {
    if |r| == 0 {
      assert PairsAmong(p, Keys(r)) == {};
    } else {
      var n := |r| - 1;
      var g := r[n].0;
      SumOfGroups(r[..n], p);
      assert Keys(r) == Keys(r[..n]) + [g];
      assert g !in Keys(r[..n]) by {
        forall j | 0 <= j < n ensures Keys(r[..n])[j] != g {
          assert r[..n][j] == r[j];
        }
      }
      PairsAmongSnoc(p, Keys(r[..n]), g);
    }
  }

  /** The `nunique` counts of all groups add up to the number of distinct
      (group, member) pairs. */
  lemma NuniqueTotal<T(!new), G(!new), E(!new)>(rows: seq<T>, key: T -> Option<G>, member: T -> E)
    ensures TotalWeight(NuniqueBy(rows, key, member)) == |PairsOf(rows, key, member)|
  {
    var r := NuniqueBy(rows, key, member);
    var p := PairsOf(rows, key, member);
    forall i | 0 <= i < |r| ensures r[i].1 == |PairsOfGroup(p, r[i].0)| {
      GroupOfPairs(rows, key, member, r[i].0);
      PairWithCard(MembersWhere(rows, key, member, r[i].0), r[i].0);
    }
    SumOfGroups(r, p);
    forall x | x in p ensures x.0 in Keys(r) {
      var y :| y in rows && key(y).Some? && x == (key(y).value, member(y));
    }
    assert PairsAmong(p, Keys(r)) == p;
  }

  /** The total `weight` of the rows filed under group `g`. */
  function SumWhere<T, G(==)>(rows: seq<T>, key: T -> Option<G>, weight: T -> int, g: G): int
    decreases |rows|
  {
    if |rows| == 0 then 0
    else
      var n := |rows| - 1;
      SumWhere(rows[..n], key, weight, g) + (if key(rows[n]) == Some(g) then weight(rows[n]) else 0)
  }

  /** The total `weight` of the rows with a present group key. */
  function KeyedWeight<T, G>(rows: seq<T>, key: T -> Option<G>, weight: T -> int): int
    decreases |rows|
  {
    if |rows| == 0 then 0
    else
      var n := |rows| - 1;
      KeyedWeight(rows[..n], key, weight) + (if key(rows[n]).Some? then weight(rows[n]) else 0)
  }

  function WeightPairs<T, G>(rows: seq<T>, key: T -> Option<G>, weight: T -> int): (r: seq<(Option<G>, int)>)
    ensures |r| == |rows| && forall i :: 0 <= i < |rows| ==> r[i] == (key(rows[i]), weight(rows[i]))
  {
    seq(|rows|, i requires 0 <= i < |rows| => (key(rows[i]), weight(rows[i])))
  }

  /** Dropping the rows with a missing key keeps every group's weight. */
  lemma {:induction false} DropMissingGroup<T, G(!new)>(rows: seq<T>, key: T -> Option<G>, weight: T -> int, g: G)
    ensures WeightOf(DropMissing(WeightPairs(rows, key, weight)), g) == SumWhere(rows, key, weight, g)
    decreases |rows|
  {
    if |rows| > 0 {
      var n := |rows| - 1;
      var p := WeightPairs(rows, key, weight);
      assert p[..n] == WeightPairs(rows[..n], key, weight);
      assert p == p[..n] + [p[n]];
      DropMissingGroup(rows[..n], key, weight, g);
      DropMissingSnoc(p[..n], p[n]);
      var front := DropMissing(p[..n]);
      if p[n].0.Some? {
        var back := front + [(p[n].0.value, p[n].1)];
        assert back[..|front|] == front;
      }
    }
  }

  /** Dropping the rows with a missing key keeps the keyed total. */
  lemma {:induction false} DropMissingTotal<T, G(!new)>(rows: seq<T>, key: T -> Option<G>, weight: T -> int)
    ensures TotalWeight(DropMissing(WeightPairs(rows, key, weight))) == KeyedWeight(rows, key, weight)
    decreases |rows|
  {
    if |rows| > 0 {
      var n := |rows| - 1;
      var p := WeightPairs(rows, key, weight);
      assert p[..n] == WeightPairs(rows[..n], key, weight);
      assert p == p[..n] + [p[n]];
      DropMissingTotal(rows[..n], key, weight);
      DropMissingSnoc(p[..n], p[n]);
      var front := DropMissing(p[..n]);
      if p[n].0.Some? {
        var back := front + [(p[n].0.value, p[n].1)];
        assert back[..|front|] == front;
      }
    }
  }

  lemma SumKey<T, G(!new)>(rows: seq<T>, key: T -> Option<G>, weight: T -> int, g: G)
    ensures g in Keys(DropMissing(WeightPairs(rows, key, weight))) <==> exists x :: x in rows && key(x) == Some(g)
  {
    var p := WeightPairs(rows, key, weight);
    DropMissingKey(p, g);
    if exists i :: 0 <= i < |p| && p[i].0 == Some(g) {
      var i :| 0 <= i < |p| && p[i].0 == Some(g);
      assert rows[i] in rows;
    }
    if exists x :: x in rows && key(x) == Some(g) {
      var x :| x in rows && key(x) == Some(g);
      var i :| 0 <= i < |rows| && rows[i] == x;
      assert p[i].0 == Some(g);
    }
  }

  /** pandas `groupby(key)[weight].sum()`: one row per present group key
      with its rows' total weight; the groups' totals add up to the weight
      of all keyed rows. */
  function SumBy<T(!new), G(==,!new)>(rows: seq<T>, key: T -> Option<G>, weight: T -> int): (r: seq<(G, int)>)
    ensures forall i, j :: 0 <= i < j < |r| ==> r[i].0 != r[j].0
    ensures forall g :: g in Keys(r) <==> exists x :: x in rows && key(x) == Some(g)
    ensures forall i :: 0 <= i < |r| ==> r[i].1 == SumWhere(rows, key, weight, r[i].0)
    ensures TotalWeight(r) == KeyedWeight(rows, key, weight)
  {
    var s := DropMissing(WeightPairs(rows, key, weight));
    var r := Tally(s);
    TallyTotal(s);
    DropMissingTotal(rows, key, weight);
    assert Keys(r) == Distinct(Keys(s));
    TotalOfTable(r, s);
    forall i | 0 <= i < |r| ensures r[i].1 == SumWhere(rows, key, weight, r[i].0) {
      DropMissingGroup(rows, key, weight, r[i].0);
    }
    forall g ensures g in Keys(s) <==> exists x :: x in rows && key(x) == Some(g) {
      SumKey(rows, key, weight, g);
    }
    r
  }

  /** Rows with pairwise distinct keys carry as many keys as there are rows. */
  lemma {:induction false} DistinctKeysCard<T, K(!new)>(r: seq<T>, key: T -> K)
    requires forall i, j :: 0 <= i < j < |r| ==> key(r[i]) != key(r[j])
    ensures |KeySet(r, key)| == |r|
    decreases |r|
  {
    if |r| > 0 {
      var n := |r| - 1;
      DistinctKeysCard(r[..n], key);
      KeySetSnoc(r[..n], r[n], key);
      assert r[..n] + [r[n]] == r;
      assert key(r[n]) !in KeySet(r[..n], key);
    }
  }

  /** The number of rows whose value satisfies `p`. */
  function CountWhere<K>(s: seq<(K, int)>, p: int -> bool): (n: nat)
    ensures n <= |s|
    decreases |s|
  {
    if |s| == 0 then 0
    else CountWhere(s[..|s| - 1], p) + (if p(s[|s| - 1].1) then 1 else 0)
  }

  /** The keys of the rows whose value satisfies `p`. */
  function KeysWhere<K(!new)>(s: seq<(K, int)>, p: int -> bool): set<K>
  {
    set x | x in s && p(x.1) :: x.0
  }

  /** With distinct keys, that is the number of keys whose value satisfies
      `p`. */
  lemma {:induction false} CountWhereCard<K(!new)>(s: seq<(K, int)>, p: int -> bool)
    requires forall i, j :: 0 <= i < j < |s| ==> s[i].0 != s[j].0
    ensures CountWhere(s, p) == |KeysWhere(s, p)|
    decreases |s|
  {
    if |s| > 0 {
      var n := |s| - 1;
      CountWhereCard(s[..n], p);
      var before := KeysWhere(s[..n], p);
      var after := KeysWhere(s, p);
      assert forall x :: x in s <==> x in s[..n] || x == s[n];
      assert s[n].0 !in before by {
        forall x | x in s[..n] ensures x.0 != s[n].0 {
          var i :| 0 <= i < n && s[..n][i] == x;
        }
      }
      if p(s[n].1) {
        assert after == before + {s[n].0};
      } else {
        assert after == before;
      }
    }
  }

  /** A table whose every row holds its key's weight in `s` totals the
      weights of its keys. */
  lemma {:induction false} TotalOfTable<K>(r: seq<(K, int)>, s: seq<(K, int)>)
    requires forall i :: 0 <= i < |r| ==> r[i].1 == WeightOf(s, r[i].0)
    ensures TotalWeight(r) == WeightsOf(Keys(r), s)
    decreases |r|
  {
    if |r| > 0 {
      var n := |r| - 1;
      assert Keys(r)[..n] == Keys(r[..n]);
      TotalOfTable(r[..n], s);
    }
  }

  /** A table with one row per element of `ks` has `|ks|` rows. */
  lemma TableCard<K(!new), V>(r: seq<(K, V)>, ks: set<K>)
    requires forall i, j :: 0 <= i < j < |r| ==> r[i].0 != r[j].0
    requires forall k :: k in Keys(r) <==> k in ks
    ensures |r| == |ks|
  {
    NoDuplicatesCard(Keys(r));
    assert (set x | x in Keys(r)) == ks;
  }

  /** A table whose values are all present, with the `Option` removed. */
  function Unwrap<K, V>(g: seq<(K, Option<V>)>): (r: seq<(K, V)>)
    requires forall i :: 0 <= i < |g| ==> g[i].1.Some?
    ensures |r| == |g| && forall i :: 0 <= i < |g| ==> g[i] == (r[i].0, Some(r[i].1))
    ensures Keys(r) == Keys(g)
  {
    var r := seq(|g|, i requires 0 <= i < |g| => (g[i].0, g[i].1.value));
    assert Keys(r) == Keys(g);
    r
  }

  /** A subset is no larger than its superset. */
  lemma SubsetCard<T>(a: set<T>, b: set<T>)
    requires a <= b
    ensures |a| <= |b|
  {
    assert b == a + (b - a);
  }

  /** pandas boolean-mask selection `df[p]`: the rows satisfying `p`, in
      order. */
  function Where<T(!new)>(s: seq<T>, p: T -> bool): (r: seq<T>)
    ensures |r| <= |s|
    ensures forall x :: x in r <==> x in s && p(x)
    decreases |s|
  {
    if |s| == 0 then []
    else
      var n := |s| - 1;
      var front := Where(s[..n], p);
      assert forall x :: x in s <==> x in s[..n] || x == s[n];
      if p(s[n]) then front + [s[n]] else front
  }

  /** The mask keeps every qualifying row as often as the table holds it
      and drops every other row. */
  lemma {:induction false} WhereCount<T(!new)>(s: seq<T>, p: T -> bool)
    ensures forall x :: multiset(Where(s, p))[x] == if p(x) then multiset(s)[x] else 0
    decreases |s|
  {
    if |s| > 0 {
      var n := |s| - 1;
      WhereCount(s[..n], p);
      assert s == s[..n] + [s[n]];
    }
  }

  /** The mask keeps the rows in their original order: a row appended to
      the table is appended to the selection exactly when it qualifies. */
  lemma WhereSnoc<T(!new)>(s: seq<T>, x: T, p: T -> bool)
    ensures Where(s + [x], p) == Where(s, p) + (if p(x) then [x] else [])
  {
    assert (s + [x])[..|s|] == s;
  }
}
