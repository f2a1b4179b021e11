/** Python's `sorted()` over a set of values and the two orders the plugins
    sort by: integers by value and strings by code point. */
module Orders {

  /** `less` is a strict total order. */
  ghost predicate StrictTotal<T(!new)>(less: (T, T) -> bool) {
    (forall a :: !less(a, a)) &&
    (forall a, b :: a == b || less(a, b) || less(b, a)) &&
    (forall a, b, c :: less(a, b) && less(b, c) ==> less(a, c))
  }

  /** Strictly increasing, hence free of duplicates. */
  predicate SortedBy<T>(s: seq<T>, less: (T, T) -> bool) {
    forall i, j :: 0 <= i < j < |s| ==> less(s[i], s[j])
  }

  predicate IsLeast<T>(m: T, s: set<T>, less: (T, T) -> bool) {
    m in s && forall y :: y in s && y != m ==> less(m, y)
  }

  lemma {:induction false} LeastExists<T(!new)>(s: set<T>, less: (T, T) -> bool)
    requires s != {} && StrictTotal(less)
    ensures exists m :: IsLeast(m, s, less)
    decreases |s|
  {
    var x :| x in s;
    if s != {x} {
      var rest := s - {x};
      LeastExists(rest, less);
      var m :| IsLeast(m, rest, less);
      if less(x, m) {
        forall y | y in s && y != x ensures less(x, y) {
          if y != m {
            assert y in rest;
          }
        }
        assert IsLeast(x, s, less);
      } else {
        assert IsLeast(m, s, less);
      }
    } else {
      assert IsLeast(x, s, less);
    }
  }

  /** `sorted(s)`: the elements of `s` in increasing order. */
  function SortSet<T(!new)>(s: set<T>, less: (T, T) -> bool): (r: seq<T>)
    requires StrictTotal(less)
    ensures |r| == |s|
    ensures forall x :: x in r <==> x in s
    ensures SortedBy(r, less)
    decreases |s|
  {
    if s == {} then []
    else
      LeastExists(s, less);
      var m :| IsLeast(m, s, less);
      var rest := SortSet(s - {m}, less);
      LeastThenSorted(m, s, rest, less);
      [m] + rest
  }

  lemma LeastThenSorted<T>(m: T, s: set<T>, rest: seq<T>, less: (T, T) -> bool)
    requires IsLeast(m, s, less)
    requires |rest| == |s - {m}| && (forall x :: x in rest <==> x in s - {m})
    requires SortedBy(rest, less)
    ensures |[m] + rest| == |s| && (forall x :: x in [m] + rest <==> x in s)
    ensures SortedBy([m] + rest, less)
  {
    forall j | 0 <= j < |rest| ensures less(m, rest[j]) {
      assert rest[j] in s - {m};
    }
    forall i, j | 0 <= i < j < |rest| + 1 ensures less(([m] + rest)[i], ([m] + rest)[j]) {
      if i > 0 {
        assert ([m] + rest)[i] == rest[i - 1];
      }
      assert ([m] + rest)[j] == rest[j - 1];
    }
  }

  /** Every element of a sorted sequence is its first one or above it. */
  lemma AboveFirst<T>(a: seq<T>, less: (T, T) -> bool)
    requires |a| > 0 && SortedBy(a, less)
    ensures forall y :: y in a[1..] ==> less(a[0], y)
    ensures forall y :: y in a ==> y == a[0] || y in a[1..]
  {
    forall y | y in a ensures y == a[0] || y in a[1..] {
      var i :| 0 <= i < |a| && a[i] == y;
      if i > 0 {
        assert a[1..][i - 1] == y;
      }
    }
    forall y | y in a[1..] ensures less(a[0], y) {
      var i :| 0 <= i < |a| - 1 && a[1..][i] == y;
      assert a[i + 1] == y;
    }
  }

  /** Two sorted sequences with the same elements are equal: `sorted` does
      not depend on the order the set is visited in. */
  lemma {:induction false} SortedUnique<T(!new)>(a: seq<T>, b: seq<T>, less: (T, T) -> bool)
    requires StrictTotal(less)
    requires SortedBy(a, less) && SortedBy(b, less)
    requires forall x :: x in a <==> x in b
    ensures a == b
    decreases |a|
  {
    if |a| > 0 {
      assert a[0] in b;
    }
    if |b| > 0 {
      assert b[0] in a;
    }
    if |a| > 0 && |b| > 0 {
      AboveFirst(a, less);
      AboveFirst(b, less);
      assert a[0] == b[0];
      assert forall x :: x in a[1..] <==> x in b[1..];
      SortedUnique(a[1..], b[1..], less);
      assert a == [a[0]] + a[1..] && b == [b[0]] + b[1..];
    }
  }

  // ---------------------------------------------------------------- integers

  predicate IntLess(a: int, b: int) {
    a < b
  }

  lemma IntLessTotal()
    ensures StrictTotal(IntLess)
  {
  }

  /** `sorted()` on a set of integers. */
  function SortInts(s: set<int>): (r: seq<int>)
    ensures |r| == |s| && (forall x :: x in r <==> x in s)
    ensures forall i, j :: 0 <= i < j < |r| ==> r[i] < r[j]
  {
    IntLessTotal();
    var r := SortSet(s, IntLess);
    assert forall i, j :: 0 <= i < j < |r| ==> IntLess(r[i], r[j]);
    r
  }

  // ---------------------------------------------------------------- strings

  /** Python's `<` on strings: lexicographic by code point, a proper prefix
      coming first. */
  predicate StrLess(a: string, b: string)
    decreases |a|
  {
    if |a| == 0 then |b| > 0
    else if |b| == 0 then false
    else a[0] < b[0] || (a[0] == b[0] && StrLess(a[1..], b[1..]))
  }

  lemma {:induction false} StrLessIrreflexive(a: string)
    ensures !StrLess(a, a)
    decreases |a|
  {
    if |a| > 0 {
      StrLessIrreflexive(a[1..]);
    }
  }

  lemma {:induction false} StrLessConnected(a: string, b: string)
    ensures a == b || StrLess(a, b) || StrLess(b, a)
    decreases |a|
  {
    if |a| > 0 && |b| > 0 && a[0] == b[0] {
      StrLessConnected(a[1..], b[1..]);
      if a[1..] == b[1..] {
        assert a == [a[0]] + a[1..] && b == [b[0]] + b[1..];
      }
    }
  }

  lemma {:induction false} StrLessTransitive(a: string, b: string, c: string)
    requires StrLess(a, b) && StrLess(b, c)
    ensures StrLess(a, c)
    decreases |a|
  {
    if |a| > 0 && a[0] == b[0] && b[0] == c[0] {
      StrLessTransitive(a[1..], b[1..], c[1..]);
    }
  }

  lemma StrLessTotal()
    ensures StrictTotal(StrLess)
  {
    forall a ensures !StrLess(a, a) {
      StrLessIrreflexive(a);
    }
    forall a, b ensures a == b || StrLess(a, b) || StrLess(b, a) {
      StrLessConnected(a, b);
    }
    forall a, b, c | StrLess(a, b) && StrLess(b, c) ensures StrLess(a, c) {
      StrLessTransitive(a, b, c);
    }
  }

  /** `sorted()` on a set of strings. */
  function SortStrings(s: set<string>): (r: seq<string>)
    ensures |r| == |s| && (forall x :: x in r <==> x in s)
    ensures SortedBy(r, StrLess)
  {
    StrLessTotal();
    SortSet(s, StrLess)
  }
}
