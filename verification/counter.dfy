/**
 * Python's `collections.Counter` as the lexical analysis uses it: keys in the
 * order they were first counted, `counter[k] += 1`, and `most_common()`, which
 * is a stable sort by count, largest first.
 */
module Counters {
  import opened Wrappers
  import opened Sorting

  /** A counter: each key with its count, in first-insertion order. */
  type Counter<K> = seq<(K, nat)>

  function Keys<K>(c: Counter<K>): set<K> {
    set i | 0 <= i < |c| :: c[i].0
  }

  /** The counts added up. */
  function Total<K>(c: Counter<K>): nat
    decreases |c|
  {
    if |c| == 0 then 0 else c[0].1 + Total(c[1..])
  }

  /** Where `k` sits in the counter, if it is there. */
  function IndexOf<K(==)>(c: Counter<K>, k: K): (r: Option<nat>)
    ensures r.Some? ==> r.value < |c| && c[r.value].0 == k
    ensures r.None? ==> k !in Keys(c)
    decreases |c|
  {
    if |c| == 0 then None
    else if c[0].0 == k then Some(0)
    else
      var r := IndexOf(c[1..], k);
      assert forall i :: 1 <= i < |c| ==> c[i] == c[1..][i - 1];
      if r.Some? then Some(r.value + 1) else None
  }

  /** `counter[k] += 1`: a key already there counts one more, a new key is appended with count 1. */
  function Bump<K(==)>(c: Counter<K>, k: K): Counter<K> {
    match IndexOf(c, k)
    case Some(i) => c[i := (k, c[i].1 + 1)]
    case None => c + [(k, 1)]
  }

  /** A counter fed the items of `xs`, one at a time. */
  function Tally<K(==)>(xs: seq<K>): Counter<K>
    decreases |xs|
  {
    if |xs| == 0 then [] else Bump(Tally(xs[..|xs| - 1]), xs[|xs| - 1])
  }

  /**
   * `c` counts the items of `xs`: its keys are the items of `xs`, each entry
   * holds the number of occurrences of its key, and the counts add up to `|xs|`.
   */
  ghost predicate Counts<K>(c: Counter<K>, xs: seq<K>) {
    && (forall i :: 0 <= i < |c| ==> c[i].1 == multiset(xs)[c[i].0])
    && Keys(c) == Elems(xs)
    && Total(c) == |xs|
  }

  /** A counter keeps each key once. */
  ghost predicate Distinct<K>(c: Counter<K>) {
    forall i, j :: 0 <= i < j < |c| ==> c[i].0 != c[j].0
  }

  lemma {:induction false} TotalAppend<K>(c: Counter<K>, e: (K, nat))
    ensures Total(c + [e]) == Total(c) + e.1
    decreases |c|
  {
    if |c| > 0 {
      assert (c + [e])[1..] == c[1..] + [e];
      TotalAppend(c[1..], e);
    }
  }

  lemma {:induction false} TotalUpdate<K>(c: Counter<K>, i: nat, e: (K, nat))
    requires i < |c|
    ensures Total(c[i := e]) + c[i].1 == Total(c) + e.1
    decreases |c|
  {
    if i > 0 {
      assert c[i := e][1..] == c[1..][i - 1 := e];
      TotalUpdate(c[1..], i - 1, e);
    }
  }

  lemma KeysUpdate<K>(c: Counter<K>, i: nat, e: (K, nat))
    requires i < |c| && e.0 == c[i].0
    ensures Keys(c[i := e]) == Keys(c)
  {
    var d := c[i := e];
    forall k | k in Keys(c) ensures k in Keys(d) {
      var j :| 0 <= j < |c| && c[j].0 == k;
      assert d[j].0 == k;
    }
  }

  lemma KeysAppend<K>(c: Counter<K>, e: (K, nat))
    ensures Keys(c + [e]) == Keys(c) + {e.0}
  {
    var d := c + [e];
    forall k | k in Keys(c) ensures k in Keys(d) {
      var j :| 0 <= j < |c| && c[j].0 == k;
      assert d[j].0 == k;
    }
    assert d[|c|].0 == e.0;
  }

  /** Counting an item the counter already holds at `i` adds one to that entry alone. */
  lemma BumpExisting<K>(c: Counter<K>, xs: seq<K>, x: K, i: nat)
    requires Counts(c, xs) && Distinct(c) && i < |c| && c[i].0 == x
    ensures Counts(c[i := (x, c[i].1 + 1)], xs + [x]) && Distinct(c[i := (x, c[i].1 + 1)])
  {
    var d := c[i := (x, c[i].1 + 1)];
    var ys := xs + [x];
    assert multiset(ys) == multiset(xs) + multiset{x};
    forall j | 0 <= j < |d| ensures d[j].1 == multiset(ys)[d[j].0] {
      if j != i {
        assert c[j].0 != x;
      }
    }
    TotalUpdate(c, i, (x, c[i].1 + 1));
    KeysUpdate(c, i, (x, c[i].1 + 1));
    assert Elems(ys) == Elems(xs) + {x};
  }

  /** Counting an item the counter lacks appends it with count 1. */
  lemma BumpNew<K>(c: Counter<K>, xs: seq<K>, x: K)
    requires Counts(c, xs) && Distinct(c) && x !in Keys(c)
    ensures Counts(c + [(x, 1)], xs + [x]) && Distinct(c + [(x, 1)])
  {
    var d := c + [(x, 1)];
    var ys := xs + [x];
    assert multiset(ys) == multiset(xs) + multiset{x};
    assert x !in Elems(xs);
    assert multiset(xs)[x] == 0;
    forall j | 0 <= j < |d| ensures d[j].1 == multiset(ys)[d[j].0] {
      if j < |c| {
        assert c[j].0 in Keys(c);
      }
    }
    forall j | 0 <= j < |c| ensures c[j].0 != x {
      assert c[j].0 in Keys(c);
    }
    TotalAppend(c, (x, 1));
    KeysAppend(c, (x, 1));
    assert Elems(ys) == Elems(xs) + {x};
  }

  /** Counting one more item keeps a counter distinct and counting. */
  lemma BumpCounts<K>(c: Counter<K>, xs: seq<K>, x: K)
    requires Counts(c, xs) && Distinct(c)
    ensures Counts(Bump(c, x), xs + [x]) && Distinct(Bump(c, x))
  {
    match IndexOf(c, x)
    case Some(i) => BumpExisting(c, xs, x, i);
    case None => BumpNew(c, xs, x);
  }

  /** A counter fed `xs` counts `xs` and holds each key once. */
  lemma {:induction false} TallyCounts<K>(xs: seq<K>)
    ensures Counts(Tally(xs), xs) && Distinct(Tally(xs))
    decreases |xs|
  {
    if |xs| == 0 {
      assert Elems(xs) == {};
    } else {
      var n := |xs| - 1;
      TallyCounts(xs[..n]);
      BumpCounts(Tally(xs[..n]), xs[..n], xs[n]);
      assert xs[..n] + [xs[n]] == xs;
    }
  }

  // ---------------------------------------------------------------- most_common

  /** The order `most_common` sorts by: larger counts first. */
  predicate ByCount<K>(a: (K, nat), b: (K, nat)) {
    a.1 >= b.1
  }

  lemma ByCountTotalPreorder<K(!new)>()
    ensures TotalPreorder(ByCount<K>)
  {
  }

  /** `Counter.most_common()`: all entries, stably sorted by count, largest first. */
  function MostCommon<K>(c: Counter<K>): Counter<K> {
    SortBy(c, ByCount)
  }

  lemma {:induction false} TotalInsertBy<K>(x: (K, nat), t: Counter<K>, le: ((K, nat), (K, nat)) -> bool)
    ensures Total(InsertBy(x, t, le)) == x.1 + Total(t)
    decreases |t|
  {
    if |t| > 0 && !le(x, t[0]) {
      TotalInsertBy(x, t[1..], le);
    }
  }

  lemma {:induction false} TotalSortBy<K>(c: Counter<K>, le: ((K, nat), (K, nat)) -> bool)
    ensures Total(SortBy(c, le)) == Total(c)
    decreases |c|
  {
    if |c| > 0 {
      TotalSortBy(c[1..], le);
      TotalInsertBy(c[0], SortBy(c[1..], le), le);
    }
  }

  /** Two counters with the same entries have the same keys. */
  lemma KeysOfPermutation<K>(s: Counter<K>, t: Counter<K>)
    requires multiset(s) == multiset(t)
    ensures Keys(s) == Keys(t)
  {
    forall k | k in Keys(s) ensures k in Keys(t) {
      var i :| 0 <= i < |s| && s[i].0 == k;
      assert s[i] in multiset(t);
      var j :| 0 <= j < |t| && t[j] == s[i];
    }
    forall k | k in Keys(t) ensures k in Keys(s) {
      var j :| 0 <= j < |t| && t[j].0 == k;
      assert t[j] in multiset(s);
      var i :| 0 <= i < |s| && s[i] == t[j];
    }
  }

  lemma {:induction false} DistinctInsertBy<K>(x: (K, nat), t: Counter<K>, le: ((K, nat), (K, nat)) -> bool)
    requires Distinct(t) && x.0 !in Keys(t)
    ensures Distinct(InsertBy(x, t, le))
    decreases |t|
  {
    if |t| > 0 && !le(x, t[0]) {
      assert Keys(t[1..]) <= Keys(t) by {
        forall k | k in Keys(t[1..]) ensures k in Keys(t) {
          var i :| 0 <= i < |t[1..]| && t[1..][i].0 == k;
          assert t[i + 1].0 == k;
        }
      }
      DistinctInsertBy(x, t[1..], le);
      var r := InsertBy(x, t[1..], le);
      KeysOfPermutation(r, t[1..] + [x]);
      KeysAppend(t[1..], x);
      forall j | 0 <= j < |r| ensures r[j].0 != t[0].0 {
        assert r[j].0 in Keys(r);
        if r[j].0 != x.0 {
          var m :| 0 <= m < |t[1..]| && t[1..][m].0 == r[j].0;
          assert t[m + 1].0 == r[j].0;
        } else {
          assert t[0].0 in Keys(t);
        }
      }
    } else {
      forall j | 0 <= j < |t| ensures t[j].0 != x.0 {
        assert t[j].0 in Keys(t);
      }
    }
  }

  /** Sorting keeps each key once. */
  lemma {:induction false} DistinctSortBy<K>(c: Counter<K>, le: ((K, nat), (K, nat)) -> bool)
    requires Distinct(c)
    ensures Distinct(SortBy(c, le))
    decreases |c|
  {
    if |c| > 0 {
      var t := SortBy(c[1..], le);
      DistinctSortBy(c[1..], le);
      KeysOfPermutation(t, c[1..]);
      forall k | k in Keys(c[1..]) ensures k != c[0].0 {
        var i :| 0 <= i < |c[1..]| && c[1..][i].0 == k;
        assert c[i + 1].0 == k;
      }
      DistinctInsertBy(c[0], t, le);
    }
  }

  /**
   * Sorting the counter fed `xs` by any order keeps it counting `xs`, with
   * each key once and the same entries.
   */
  lemma SortedCounts<K>(xs: seq<K>, le: ((K, nat), (K, nat)) -> bool)
    ensures var s := SortBy(Tally(xs), le);
      Counts(s, xs) && Distinct(s) && multiset(s) == multiset(Tally(xs))
  {
    var c := Tally(xs);
    var s := SortBy(c, le);
    TallyCounts(xs);
    TotalSortBy(c, le);
    KeysOfPermutation(s, c);
    DistinctSortBy(c, le);
    forall i | 0 <= i < |s| ensures s[i].1 == multiset(xs)[s[i].0] {
      assert s[i] in multiset(c);
    }
  }

  /** Counts never increase along the counter. */
  predicate NonIncreasing<K>(c: Counter<K>) {
    forall i, j :: 0 <= i < j < |c| ==> c[i].1 >= c[j].1
  }

  /**
   * `most_common()` of the counter fed `xs`: counts never increase along the
   * list, each key occurs once and holds its number of occurrences in `xs`,
   * the keys are the items of `xs` and the counts add up to `|xs|`.
   */
  lemma MostCommonOfTally<K(!new)>(xs: seq<K>)
    ensures var m := MostCommon(Tally(xs));
      NonIncreasing(m) && Counts(m, xs) && Distinct(m)
  {
    SortedCounts(xs, ByCount);
    ByCountTotalPreorder<K>();
    SortBySorted(Tally(xs), ByCount);
  }
}
