/** The pandas operations the dashboard applies to its tables, on sequences of
    rows: boolean-mask filtering, `drop_duplicates(column)` (which keeps the
    first row of every key), `nunique`/`len(...)` counts and column sums. */
module Tables {

  /** The pandas errors the frame code runs into.
      `NoDatetimeColumn`: the `AttributeError` of `column.dt` on a non-empty
      column holding no timestamp at all; pandas then gives the column the
      object dtype, which has no `.dt` accessor.
      `MergeKeyMismatch`: the `ValueError` of `pd.merge` when the two key
      columns have incompatible dtypes (a `period` column against an object
      one). pandas skips that test only when exactly one side is empty. */
  datatype FrameError = NoDatetimeColumn | MergeKeyMismatch

  /** `df[mask]`: the rows satisfying `p`, in their original order. */
  function Filter<T>(xs: seq<T>, p: T -> bool): (r: seq<T>)
    ensures |r| <= |xs|
    ensures forall i :: 0 <= i < |r| ==> p(r[i])
  {
    if xs == [] then [] else (if p(xs[0]) then [xs[0]] else []) + Filter(xs[1..], p)
  }

  lemma {:induction false} FilterMembers<T>(xs: seq<T>, p: T -> bool)
    ensures forall x :: x in Filter(xs, p) <==> x in xs && p(x)
    ensures forall i :: 0 <= i < |Filter(xs, p)| ==> Filter(xs, p)[i] in xs
  {
    if xs != [] {
      FilterMembers(xs[1..], p);
      assert xs == [xs[0]] + xs[1..];
    }
  }

  /** A mask that holds on every row keeps the whole table. */
  lemma {:induction false} FilterKeepsAll<T>(xs: seq<T>, p: T -> bool)
    requires forall i :: 0 <= i < |xs| ==> p(xs[i])
    ensures Filter(xs, p) == xs
  {
    if xs != [] {
      assert forall i :: 0 <= i < |xs[1..]| ==> xs[1..][i] == xs[i + 1];
      FilterKeepsAll(xs[1..], p);
    }
  }

  lemma {:induction false} FilterAppend<T>(a: seq<T>, b: seq<T>, p: T -> bool)
    ensures Filter(a + b, p) == Filter(a, p) + Filter(b, p)
  {
    if a == [] {
      assert a + b == b;
    } else {
      assert (a + b)[0] == a[0];
      assert (a + b)[1..] == a[1..] + b;
      FilterAppend(a[1..], b, p);
    }
  }

  /** Filtering with two masks one after the other is filtering with both. */
  lemma {:induction false} FilterFilter<T>(xs: seq<T>, p: T -> bool, q: T -> bool, pq: T -> bool)
    requires forall x :: pq(x) == (p(x) && q(x))
    ensures Filter(Filter(xs, p), q) == Filter(xs, pq)
  {
    if xs != [] {
      FilterFilter(xs[1..], p, q, pq);
      var f := Filter(xs, p);
      if p(xs[0]) {
        assert f == [xs[0]] + Filter(xs[1..], p);
        assert f[0] == xs[0];
        assert f[1..] == Filter(xs[1..], p);
      } else {
        assert f == Filter(xs[1..], p);
      }
    }
  }

  /** Filters with masks that agree on every row give the same rows. */
  lemma {:induction false} FilterSameMask<T>(xs: seq<T>, p: T -> bool, q: T -> bool)
    requires forall i :: 0 <= i < |xs| ==> p(xs[i]) == q(xs[i])
    ensures Filter(xs, p) == Filter(xs, q)
  {
    if xs != [] {
      FilterSameMask(xs[1..], p, q);
    }
  }

  /** `df[column].sum()` */
  function SumOf<T>(xs: seq<T>, f: T -> real): real {
    if xs == [] then 0.0 else f(xs[0]) + SumOf(xs[1..], f)
  }

  /** A column of non-negative values has a non-negative sum. */
  lemma {:induction false} SumNonNegative<T>(xs: seq<T>, f: T -> real)
    requires forall i :: 0 <= i < |xs| ==> f(xs[i]) >= 0.0
    ensures SumOf(xs, f) >= 0.0
  {
    if xs != [] {
      SumNonNegative(xs[1..], f);
    }
  }

  lemma {:induction false} SumAppend<T>(a: seq<T>, b: seq<T>, f: T -> real)
    ensures SumOf(a + b, f) == SumOf(a, f) + SumOf(b, f)
  {
    if a == [] {
      assert a + b == b;
    } else {
      assert (a + b)[0] == a[0];
      assert (a + b)[1..] == a[1..] + b;
      SumAppend(a[1..], b, f);
    }
  }

  /** Sums of columns that agree on every row are equal. */
  lemma {:induction false} SumSameColumn<T>(xs: seq<T>, f: T -> real, g: T -> real)
    requires forall i :: 0 <= i < |xs| ==> f(xs[i]) == g(xs[i])
    ensures SumOf(xs, f) == SumOf(xs, g)
  {
    if xs != [] {
      SumSameColumn(xs[1..], f, g);
    }
  }

  /** The distinct values of a column. */
  function KeySet<T, K(==)>(xs: seq<T>, key: T -> K): set<K> {
    set i | 0 <= i < |xs| :: key(xs[i])
  }

  /** `df[column].nunique()` */
  function DistinctCount<T, K(==)>(xs: seq<T>, key: T -> K): nat {
    |KeySet(xs, key)|
  }

  predicate DistinctKeys<T, K(==)>(xs: seq<T>, key: T -> K) {
    forall i, j :: 0 <= i < j < |xs| ==> key(xs[i]) != key(xs[j])
  }

  lemma KeySetCons<T, K>(x: T, xs: seq<T>, key: T -> K)
    ensures KeySet([x] + xs, key) == {key(x)} + KeySet(xs, key)
  {
    var s := [x] + xs;
    forall k | k in KeySet(s, key) ensures k in {key(x)} + KeySet(xs, key) {
      var i :| 0 <= i < |s| && key(s[i]) == k;
      if i > 0 { assert key(xs[i - 1]) == k; }
    }
    forall k | k in KeySet(xs, key) ensures k in KeySet(s, key) {
      var i :| 0 <= i < |xs| && key(xs[i]) == k;
      assert key(s[i + 1]) == k;
    }
    assert key(s[0]) == key(x);
  }

  lemma {:induction false} KeySetAppend<T, K>(a: seq<T>, b: seq<T>, key: T -> K)
    ensures KeySet(a + b, key) == KeySet(a, key) + KeySet(b, key)
  {
    if a == [] {
      assert a + b == b;
      assert KeySet(a, key) == {};
    } else {
      KeySetAppend(a[1..], b, key);
      assert a + b == [a[0]] + (a[1..] + b);
      KeySetCons(a[0], a[1..] + b, key);
      KeySetCons(a[0], a[1..], key);
      assert a == [a[0]] + a[1..];
    }
  }

  /** A column has at most as many distinct values as the table has rows, and
      exactly as many when its values are pairwise distinct. */
  lemma {:induction false} KeySetSize<T, K>(xs: seq<T>, key: T -> K)
    ensures |KeySet(xs, key)| <= |xs|
    ensures DistinctKeys(xs, key) ==> |KeySet(xs, key)| == |xs|
  {
    if xs != [] {
      KeySetSize(xs[1..], key);
      assert xs == [xs[0]] + xs[1..];
      KeySetCons(xs[0], xs[1..], key);
      if DistinctKeys(xs, key) {
        assert DistinctKeys(xs[1..], key);
        forall i | 0 <= i < |xs[1..]| ensures key(xs[1..][i]) != key(xs[0]) {
          assert xs[1..][i] == xs[i + 1];
        }
      }
    }
  }

  lemma SubsetSize<K>(a: set<K>, b: set<K>)
    requires a <= b
    ensures |a| <= |b|
  {
    assert b == a + (b - a);
  }

  /** When one column determines another (`k1` equal implies `k2` equal), the
      determined column has no more distinct values than the determining one. */
  lemma {:induction false} DeterminedKeySetSize<T, K1, K2>(xs: seq<T>, k1: T -> K1, k2: T -> K2)
    requires forall i, j :: 0 <= i < |xs| && 0 <= j < |xs| && k1(xs[i]) == k1(xs[j]) ==> k2(xs[i]) == k2(xs[j])
    ensures |KeySet(xs, k2)| <= |KeySet(xs, k1)|
  {
    if xs != [] {
      var rest := xs[1..];
      assert forall i, j :: 0 <= i < |rest| && 0 <= j < |rest| && k1(rest[i]) == k1(rest[j]) ==> k2(rest[i]) == k2(rest[j]) by {
        forall i, j | 0 <= i < |rest| && 0 <= j < |rest| && k1(rest[i]) == k1(rest[j])
          ensures k2(rest[i]) == k2(rest[j])
        {
          assert rest[i] == xs[i + 1] && rest[j] == xs[j + 1];
        }
      }
      DeterminedKeySetSize(rest, k1, k2);
      assert xs == [xs[0]] + rest;
      KeySetCons(xs[0], rest, k1);
      KeySetCons(xs[0], rest, k2);
      if k1(xs[0]) in KeySet(rest, k1) {
        var i :| 0 <= i < |rest| && k1(rest[i]) == k1(xs[0]);
        assert rest[i] == xs[i + 1];
        assert k2(rest[i]) == k2(xs[0]);
        assert k2(xs[0]) in KeySet(rest, k2);
      }
    }
  }

  /** `drop_duplicates(key)`: every row whose key has not been seen before,
      scanning from the front; `seen` holds the keys already met. */
  function DedupAfter<T, K(==)>(xs: seq<T>, key: T -> K, seen: set<K>): seq<T> {
    if xs == [] then []
    else if key(xs[0]) in seen then DedupAfter(xs[1..], key, seen)
    else [xs[0]] + DedupAfter(xs[1..], key, seen + {key(xs[0])})
  }

  /** `drop_duplicates(key)` with pandas' default `keep="first"`. */
  function DedupBy<T, K(==)>(xs: seq<T>, key: T -> K): seq<T> {
    DedupAfter(xs, key, {})
  }

  /** What deduplication keeps: rows of the input, with pairwise distinct keys
      none of which was already seen, covering every key not yet seen. */
  lemma DedupAfterFacts<T, K>(xs: seq<T>, key: T -> K, seen: set<K>)
    ensures var r := DedupAfter(xs, key, seen);
      && (forall i :: 0 <= i < |r| ==> r[i] in xs && key(r[i]) !in seen)
      && DistinctKeys(r, key)
      && KeySet(r, key) == KeySet(xs, key) - seen
  {
    DedupAfterFrom(xs, key, seen);
    var r := DedupAfter(xs, key, seen);
    assert forall i :: 0 <= i < |r| ==> r[i] in r;
    DedupAfterDistinct(xs, key, seen);
    DedupAfterKeySet(xs, key, seen);
  }

  lemma {:induction false} DedupAfterFrom<T, K>(xs: seq<T>, key: T -> K, seen: set<K>)
    ensures forall y :: y in DedupAfter(xs, key, seen) ==> y in xs && key(y) !in seen
  {
    if xs != [] {
      var rest := xs[1..];
      assert xs == [xs[0]] + rest;
      if key(xs[0]) in seen {
        DedupAfterFrom(rest, key, seen);
      } else {
        var seen' := seen + {key(xs[0])};
        DedupAfterFrom(rest, key, seen');
        var tail := DedupAfter(rest, key, seen');
        var r := [xs[0]] + tail;
        assert forall y :: y in r ==> y == xs[0] || y in tail;
      }
    }
  }

  lemma {:induction false} DedupAfterDistinct<T, K>(xs: seq<T>, key: T -> K, seen: set<K>)
    ensures DistinctKeys(DedupAfter(xs, key, seen), key)
  {
    if xs != [] {
      var rest := xs[1..];
      if key(xs[0]) in seen {
        DedupAfterDistinct(rest, key, seen);
      } else {
        var seen' := seen + {key(xs[0])};
        DedupAfterDistinct(rest, key, seen');
        DedupAfterFrom(rest, key, seen');
        var tail := DedupAfter(rest, key, seen');
        var r := [xs[0]] + tail;
        forall i, j | 0 <= i < j < |r| ensures key(r[i]) != key(r[j]) {
          assert r[j] == tail[j - 1] && tail[j - 1] in tail;
          if i > 0 {
            assert r[i] == tail[i - 1];
          }
        }
      }
    }
  }

  lemma {:induction false} DedupAfterKeySet<T, K>(xs: seq<T>, key: T -> K, seen: set<K>)
    ensures KeySet(DedupAfter(xs, key, seen), key) == KeySet(xs, key) - seen
  {
    if xs != [] {
      var rest := xs[1..];
      assert xs == [xs[0]] + rest;
      KeySetCons(xs[0], rest, key);
      if key(xs[0]) in seen {
        DedupAfterKeySet(rest, key, seen);
      } else {
        var seen' := seen + {key(xs[0])};
        DedupAfterKeySet(rest, key, seen');
        KeySetCons(xs[0], DedupAfter(rest, key, seen'), key);
      }
    }
  }

  /** Deduplication keeps, for each key, the first row that carries it. */
  lemma {:induction false} DedupAfterKeepsFirst<T, K>(xs: seq<T>, key: T -> K, seen: set<K>, i: nat)
    requires i < |DedupAfter(xs, key, seen)|
    ensures var r := DedupAfter(xs, key, seen);
      exists j :: 0 <= j < |xs| && xs[j] == r[i] && forall k :: 0 <= k < j ==> key(xs[k]) != key(r[i])
  {
    var r := DedupAfter(xs, key, seen);
    var rest := xs[1..];
    if key(xs[0]) in seen {
      DedupAfterKeepsFirst(rest, key, seen, i);
      DedupAfterFacts(rest, key, seen);
      var j :| 0 <= j < |rest| && rest[j] == r[i] && forall k :: 0 <= k < j ==> key(rest[k]) != key(r[i]);
      assert xs[j + 1] == r[i];
      assert key(r[i]) !in seen;
      forall k | 0 <= k < j + 1 ensures key(xs[k]) != key(r[i]) {
        if k > 0 { assert xs[k] == rest[k - 1]; }
      }
    } else if i > 0 {
      var seen' := seen + {key(xs[0])};
      DedupAfterKeepsFirst(rest, key, seen', i - 1);
      DedupAfterFacts(rest, key, seen');
      var tail := DedupAfter(rest, key, seen');
      assert r[i] == tail[i - 1];
      var j :| 0 <= j < |rest| && rest[j] == r[i] && forall k :: 0 <= k < j ==> key(rest[k]) != key(r[i]);
      assert xs[j + 1] == r[i];
      assert key(r[i]) !in seen';
      forall k | 0 <= k < j + 1 ensures key(xs[k]) != key(r[i]) {
        if k > 0 { assert xs[k] == rest[k - 1]; }
      }
    } else {
      assert xs[0] == r[0];
    }
  }

  /** The facts about `drop_duplicates(key)` the dashboard's counts rest on:
      the kept rows come from the input, their keys are pairwise distinct and
      are exactly the input's keys, so there are as many rows as distinct keys. */
  lemma DedupFacts<T, K>(xs: seq<T>, key: T -> K)
    ensures var r := DedupBy(xs, key);
      && (forall i :: 0 <= i < |r| ==> r[i] in xs)
      && DistinctKeys(r, key)
      && KeySet(r, key) == KeySet(xs, key)
      && |r| == DistinctCount(xs, key)
  {
    DedupAfterFacts(xs, key, {});
    KeySetSize(DedupBy(xs, key), key);
  }

  lemma {:induction false} DedupAfterAppend<T, K>(a: seq<T>, b: seq<T>, key: T -> K, seen: set<K>)
    ensures DedupAfter(a + b, key, seen) == DedupAfter(a, key, seen) + DedupAfter(b, key, seen + KeySet(a, key))
  {
    if a == [] {
      assert a + b == b;
      assert KeySet(a, key) == {};
      assert seen + KeySet(a, key) == seen;
    } else {
      assert (a + b)[1..] == a[1..] + b;
      assert a == [a[0]] + a[1..];
      KeySetCons(a[0], a[1..], key);
      if key(a[0]) in seen {
        DedupAfterAppend(a[1..], b, key, seen);
        assert seen + KeySet(a[1..], key) == seen + KeySet(a, key);
      } else {
        DedupAfterAppend(a[1..], b, key, seen + {key(a[0])});
        assert seen + {key(a[0])} + KeySet(a[1..], key) == seen + KeySet(a, key);
      }
    }
  }

  /** A row whose key is already in the table is dropped by deduplication:
      one more seat of a subscription adds nothing. */
  lemma DedupIgnoresRepeatedKey<T, K>(xs: seq<T>, x: T, key: T -> K)
    requires key(x) in KeySet(xs, key)
    ensures DedupBy(xs + [x], key) == DedupBy(xs, key)
  {
    DedupAfterAppend(xs, [x], key, {});
    assert DedupAfter([x], key, KeySet(xs, key)) == [];
  }

  /** Whether a row passes `p` depends only on its key. */
  predicate KeyDetermines<T, K(==)>(xs: seq<T>, key: T -> K, p: T -> bool) {
    forall i, j :: 0 <= i < |xs| && 0 <= j < |xs| && key(xs[i]) == key(xs[j]) ==> p(xs[i]) == p(xs[j])
  }

  lemma FilterCons<T>(x: T, xs: seq<T>, p: T -> bool)
    ensures Filter([x] + xs, p) == (if p(x) then [x] else []) + Filter(xs, p)
  {
    assert ([x] + xs)[0] == x;
    assert ([x] + xs)[1..] == xs;
  }

  lemma {:induction false} DedupAfterFilter<T, K>(xs: seq<T>, key: T -> K, p: T -> bool, seen1: set<K>, seen2: set<K>)
    requires KeyDetermines(xs, key, p)
    requires forall i :: 0 <= i < |xs| && p(xs[i]) ==> (key(xs[i]) in seen1 <==> key(xs[i]) in seen2)
    ensures Filter(DedupAfter(xs, key, seen1), p) == DedupAfter(Filter(xs, p), key, seen2)
  {
    if xs != [] {
      var x, rest := xs[0], xs[1..];
      var k := key(x);
      assert KeyDetermines(rest, key, p) by {
        forall i, j | 0 <= i < |rest| && 0 <= j < |rest| && key(rest[i]) == key(rest[j])
          ensures p(rest[i]) == p(rest[j])
        {
          assert rest[i] == xs[i + 1] && rest[j] == xs[j + 1];
        }
      }
      forall i | 0 <= i < |rest| && key(rest[i]) == k ensures p(rest[i]) == p(x) {
        assert rest[i] == xs[i + 1];
      }
      if p(x) {
        assert Filter(xs, p) == [x] + Filter(rest, p);
        assert ([x] + Filter(rest, p))[0] == x && ([x] + Filter(rest, p))[1..] == Filter(rest, p);
        if k in seen1 {
          DedupAfterFilter(rest, key, p, seen1, seen2);
        } else {
          DedupAfterFilter(rest, key, p, seen1 + {k}, seen2 + {k});
          FilterCons(x, DedupAfter(rest, key, seen1 + {k}), p);
        }
      } else {
        assert Filter(xs, p) == Filter(rest, p);
        if k in seen1 {
          DedupAfterFilter(rest, key, p, seen1, seen2);
        } else {
          DedupAfterFilter(rest, key, p, seen1 + {k}, seen2);
          FilterCons(x, DedupAfter(rest, key, seen1 + {k}), p);
        }
      }
    }
  }

  /** When the filter depends only on the key, filtering the deduplicated
      rows is deduplicating the filtered rows, so it keeps one row per
      distinct key among the rows that pass. */
  lemma DedupFilterCommute<T, K>(xs: seq<T>, key: T -> K, p: T -> bool)
    requires KeyDetermines(xs, key, p)
    ensures Filter(DedupBy(xs, key), p) == DedupBy(Filter(xs, p), key)
    ensures |Filter(DedupBy(xs, key), p)| == DistinctCount(Filter(xs, p), key)
  {
    DedupAfterFilter(xs, key, p, {}, {});
    DedupFacts(Filter(xs, p), key);
  }

  /** When `key` determines `k2`, deduplicating by `key` keeps every value
      of `k2`. */
  lemma DedupKeepsDependentKeys<T, K, K2>(xs: seq<T>, key: T -> K, k2: T -> K2)
    requires forall i, j :: 0 <= i < |xs| && 0 <= j < |xs| && key(xs[i]) == key(xs[j]) ==> k2(xs[i]) == k2(xs[j])
    ensures KeySet(DedupBy(xs, key), k2) == KeySet(xs, k2)
  {
    var d := DedupBy(xs, key);
    DedupFacts(xs, key);
    forall v | v in KeySet(xs, k2) ensures v in KeySet(d, k2) {
      var i :| 0 <= i < |xs| && k2(xs[i]) == v;
      assert key(xs[i]) in KeySet(d, key);
      var j :| 0 <= j < |d| && key(d[j]) == key(xs[i]);
      var l :| 0 <= l < |xs| && xs[l] == d[j];
      assert k2(d[j]) == v;
    }
    forall v | v in KeySet(d, k2) ensures v in KeySet(xs, k2) {
      var j :| 0 <= j < |d| && k2(d[j]) == v;
      var l :| 0 <= l < |xs| && xs[l] == d[j];
    }
  }

  /** The mask `df[column] == k`. */
  function KeyIs<T, K(==)>(key: T -> K, k: K): T -> bool {
    (x: T) => key(x) == k
  }

  /** The mask `df[column] != k`. */
  function KeyIsNot<T, K(==)>(key: T -> K, k: K): T -> bool {
    (x: T) => key(x) != k
  }

  /** A column's sum is the sum over the rows passing `p` plus the sum over
      the others. */
  lemma {:induction false} SumSplit<T>(xs: seq<T>, p: T -> bool, q: T -> bool, f: T -> real)
    requires forall x :: q(x) == !p(x)
    ensures SumOf(xs, f) == SumOf(Filter(xs, p), f) + SumOf(Filter(xs, q), f)
  {
    if xs != [] {
      SumSplit(xs[1..], p, q, f);
      if p(xs[0]) {
        assert Filter(xs, p) == [xs[0]] + Filter(xs[1..], p);
        assert Filter(xs, q) == Filter(xs[1..], q);
        SumAppend([xs[0]], Filter(xs[1..], p), f);
      } else {
        assert Filter(xs, q) == [xs[0]] + Filter(xs[1..], q);
        assert Filter(xs, p) == Filter(xs[1..], p);
        SumAppend([xs[0]], Filter(xs[1..], q), f);
      }
    }
  }

  /** The sums of `groupby(key)[f].sum()` for the groups `keys`, added up. */
  function GroupSums<T, K(==)>(keys: seq<K>, xs: seq<T>, key: T -> K, f: T -> real): real {
    if keys == [] then 0.0 else SumOf(Filter(xs, KeyIs(key, keys[0])), f) + GroupSums(keys[1..], xs, key, f)
  }

  /** Removing the rows of a key no group in `keys` has changes none of the
      groups' sums. */
  lemma {:induction false} GroupSumsWithout<T, K>(keys: seq<K>, xs: seq<T>, key: T -> K, f: T -> real, k: K)
    requires k !in keys
    ensures GroupSums(keys, Filter(xs, KeyIsNot(key, k)), key, f) == GroupSums(keys, xs, key, f)
  {
    if keys != [] {
      GroupSumsWithout(keys[1..], xs, key, f, k);
      FilterFilter(xs, KeyIsNot(key, k), KeyIs(key, keys[0]), KeyIs(key, keys[0]));
    }
  }

  /** The groups of a column, each taken once, add up to the whole column. */
  lemma {:induction false} GroupSumsAddUp<T, K>(keys: seq<K>, xs: seq<T>, key: T -> K, f: T -> real)
    requires forall i, j :: 0 <= i < j < |keys| ==> keys[i] != keys[j]
    requires forall i :: 0 <= i < |xs| ==> key(xs[i]) in keys
    ensures GroupSums(keys, xs, key, f) == SumOf(xs, f)
  {
    if keys != [] {
      var k := keys[0];
      var rest := Filter(xs, KeyIsNot(key, k));
      SumSplit(xs, KeyIs(key, k), KeyIsNot(key, k), f);
      FilterMembers(xs, KeyIsNot(key, k));
      forall i | 0 <= i < |rest| ensures key(rest[i]) in keys[1..] {
        var j :| 0 <= j < |xs| && xs[j] == rest[i];
        assert key(rest[i]) in keys && key(rest[i]) != k;
      }
      GroupSumsAddUp(keys[1..], rest, key, f);
      assert k !in keys[1..] by {
        forall j | 0 <= j < |keys[1..]| ensures keys[1..][j] != k {
          assert keys[1..][j] == keys[j + 1];
        }
      }
      GroupSumsWithout(keys[1..], xs, key, f, k);
    }
  }

  /** Filtering keeps keys pairwise distinct. */
  lemma {:induction false} FilterKeepsDistinctKeys<T, K>(xs: seq<T>, key: T -> K, p: T -> bool)
    requires DistinctKeys(xs, key)
    ensures DistinctKeys(Filter(xs, p), key)
  {
    if xs != [] {
      var rest := xs[1..];
      assert DistinctKeys(rest, key) by {
        forall i, j | 0 <= i < j < |rest| ensures key(rest[i]) != key(rest[j]) {
          assert rest[i] == xs[i + 1] && rest[j] == xs[j + 1];
        }
      }
      FilterKeepsDistinctKeys(rest, key, p);
      var tail := Filter(rest, p);
      if p(xs[0]) {
        FilterMembers(rest, p);
        var r := [xs[0]] + tail;
        forall i, j | 0 <= i < j < |r| ensures key(r[i]) != key(r[j]) {
          assert r[j] == tail[j - 1];
          var l :| 0 <= l < |rest| && rest[l] == r[j];
          assert xs[l + 1] == r[j];
          if i > 0 { assert r[i] == tail[i - 1]; }
        }
      }
    }
  }

  /** The percentage change from `previous` to `current`, 0 when there was
      nothing positive to compare with. */
  function PercentChange(current: real, previous: real): (r: real)
    ensures previous <= 0.0 ==> r == 0.0
    ensures previous > 0.0 ==> (r > 0.0 <==> current > previous) && (r == 0.0 <==> current == previous)
    ensures previous > 0.0 ==> r * previous == (current - previous) * 100.0
  {
    if previous > 0.0 then (current - previous) / previous * 100.0 else 0.0
  }
}
