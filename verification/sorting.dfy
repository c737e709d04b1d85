/**
 * Ordering and sorting as Python does it: strings compare by code point,
 * lexicographically, a proper prefix first; `sorted` is a stable sort by a
 * key; `sorted(set(xs))` is the strictly increasing list of distinct items.
 */
module Sorting {

  // ---------------------------------------------------------------- string order

  /** Python's `a <= b` on strings. */
  predicate StrLe(a: string, b: string)
    decreases |a|
  {
    |a| == 0 || (|b| > 0 && (a[0] < b[0] || (a[0] == b[0] && StrLe(a[1..], b[1..]))))
  }

  /** Python's `a < b` on strings. */
  predicate StrLt(a: string, b: string) {
    StrLe(a, b) && a != b
  }

  lemma {:induction false} StrLeTotal(a: string, b: string)
    ensures StrLe(a, b) || StrLe(b, a)
    decreases |a|
  {
    if |a| > 0 && |b| > 0 && a[0] == b[0] {
      StrLeTotal(a[1..], b[1..]);
    }
  }

  lemma {:induction false} StrLeAntisymmetric(a: string, b: string)
    requires StrLe(a, b) && StrLe(b, a)
    ensures a == b
    decreases |a|
  {
    if |a| > 0 {
      StrLeAntisymmetric(a[1..], b[1..]);
      assert a == [a[0]] + a[1..] && b == [b[0]] + b[1..];
    }
  }

  lemma {:induction false} StrLeTransitive(a: string, b: string, c: string)
    requires StrLe(a, b) && StrLe(b, c)
    ensures StrLe(a, c)
    decreases |a|
  {
    if |a| > 0 && a[0] == b[0] && b[0] == c[0] {
      StrLeTransitive(a[1..], b[1..], c[1..]);
    }
  }

  lemma StrLtTransitive(a: string, b: string, c: string)
    requires StrLt(a, b) && StrLe(b, c)
    ensures StrLt(a, c)
  {
    StrLeTransitive(a, b, c);
    if a == c {
      StrLeAntisymmetric(a, b);
    }
  }

  // ---------------------------------------------------------------- sorted(set(xs)) on strings

  /** Strictly increasing, hence free of duplicates. */
  predicate StrictlySorted(s: seq<string>) {
    forall i, j :: 0 <= i < j < |s| ==> StrLt(s[i], s[j])
  }

  /** The set of the items of a list: Python's `set(xs)`. */
  function Elems<T>(s: seq<T>): set<T> {
    set x | x in s
  }

  function InsertUnique(x: string, t: seq<string>): (r: seq<string>)
    requires StrictlySorted(t)
    ensures StrictlySorted(r)
    ensures Elems(r) == Elems(t) + {x}
  {
    if |t| == 0 then [x]
    else if x == t[0] then t
    else if StrLe(x, t[0]) then
      assert forall j :: 0 <= j < |t| ==> StrLt(x, t[j]) by {
        forall j | 0 <= j < |t| ensures StrLt(x, t[j]) {
          if j > 0 { StrLtTransitive(x, t[0], t[j]); }
        }
      }
      [x] + t
    else
      var rest := InsertUnique(x, t[1..]);
      StrLeTotal(x, t[0]);
      assert t == [t[0]] + t[1..];
      assert forall k :: 0 <= k < |rest| ==> StrLt(t[0], rest[k]) by {
        forall k | 0 <= k < |rest| ensures StrLt(t[0], rest[k]) {
          assert rest[k] in Elems(rest);
          if rest[k] != x {
            assert rest[k] in t[1..];
            var j :| 0 <= j < |t[1..]| && t[1..][j] == rest[k];
            assert t[j + 1] == rest[k];
          }
        }
      }
      var r := [t[0]] + rest;
      assert Elems(r) == {t[0]} + Elems(rest) by {
        forall y ensures y in Elems(r) <==> y in {t[0]} + Elems(rest) {
          assert y in r <==> y == t[0] || y in rest;
        }
      }
      assert Elems(t) == {t[0]} + Elems(t[1..]) by {
        forall y ensures y in Elems(t) <==> y in {t[0]} + Elems(t[1..]) {
          assert y in t <==> y == t[0] || y in t[1..];
        }
      }
      r
  }

  /** `sorted(set(xs))` for a list of strings. */
  function SortedUnique(xs: seq<string>): (r: seq<string>)
    ensures StrictlySorted(r)
    ensures Elems(r) == Elems(xs)
  {
    if |xs| == 0 then []
    else
      assert xs == [xs[0]] + xs[1..];
      InsertUnique(xs[0], SortedUnique(xs[1..]))
  }

  // ---------------------------------------------------------------- stable sort by a total preorder

  ghost predicate TotalPreorder<T(!new)>(le: (T, T) -> bool) {
    (forall a, b :: le(a, b) || le(b, a)) && (forall a, b, c :: le(a, b) && le(b, c) ==> le(a, c))
  }

  predicate SortedBy<T>(s: seq<T>, le: (T, T) -> bool) {
    forall i, j :: 0 <= i < j < |s| ==> le(s[i], s[j])
  }

  /** Insert `x` before the first element it may precede: the step of a stable insertion sort. */
  function InsertBy<T>(x: T, t: seq<T>, le: (T, T) -> bool): (r: seq<T>)
    ensures multiset(r) == multiset(t) + multiset{x}
  {
    if |t| == 0 then [x]
    else if le(x, t[0]) then [x] + t
    else
      assert t == [t[0]] + t[1..];
      [t[0]] + InsertBy(x, t[1..], le)
  }

  /** Python's `sorted(xs, key=...)` with the key's order given as `le`. */
  function SortBy<T>(s: seq<T>, le: (T, T) -> bool): (r: seq<T>)
    ensures multiset(r) == multiset(s)
  {
    if |s| == 0 then []
    else
      assert s == [s[0]] + s[1..];
      InsertBy(s[0], SortBy(s[1..], le), le)
  }

  lemma {:induction false} InsertBySorted<T(!new)>(x: T, t: seq<T>, le: (T, T) -> bool)
    requires TotalPreorder(le) && SortedBy(t, le)
    ensures SortedBy(InsertBy(x, t, le), le)
    decreases |t|
  {
    if |t| > 0 && !le(x, t[0]) {
      var rest := InsertBy(x, t[1..], le);
      InsertBySorted(x, t[1..], le);
      forall k | 0 <= k < |rest| ensures le(t[0], rest[k]) {
        assert rest[k] in multiset(rest);
        if rest[k] != x {
          assert rest[k] in multiset(t[1..]);
          var j :| 0 <= j < |t[1..]| && t[1..][j] == rest[k];
          assert t[j + 1] == rest[k];
        }
      }
    }
  }

  lemma {:induction false} SortBySorted<T(!new)>(s: seq<T>, le: (T, T) -> bool)
    requires TotalPreorder(le)
    ensures SortedBy(SortBy(s, le), le)
    decreases |s|
  {
    if |s| > 0 {
      SortBySorted(s[1..], le);
      InsertBySorted(s[0], SortBy(s[1..], le), le);
    }
  }
}
