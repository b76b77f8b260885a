/** Orderings the pipeline sorts by: integers (customer ids), Python's
    code-point string comparison (stock codes, descriptions, countries), and
    sorting with duplicate removal, which is what pandas `groupby` does to its
    keys. */
module Ordering {
  import opened Seqs

  ghost predicate StrictTotalOrder<T(!new)>(less: (T, T) -> bool)
  {
    && (forall a :: !less(a, a))
    && (forall a, b, c :: less(a, b) && less(b, c) ==> less(a, c))
    && (forall a, b :: a != b ==> less(a, b) || less(b, a))
  }

  predicate IntLess(a: int, b: int)
  {
    a < b
  }

  lemma IntLessIsStrictTotal()
    ensures StrictTotalOrder(IntLess)
  {
  }

  /** Python's `<` on `str`: lexicographic by code point, a proper prefix
      sorting first. */
  predicate StrLess(a: string, b: string)
  {
    if a == [] then b != []
    else if b == [] then false
    else a[0] < b[0] || (a[0] == b[0] && StrLess(a[1..], b[1..]))
  }

  lemma {:induction false} StrLessIrreflexive(a: string)
    ensures !StrLess(a, a)
  {
    if a != [] { StrLessIrreflexive(a[1..]); }
  }

  lemma {:induction false} StrLessTransitive(a: string, b: string, c: string)
    requires StrLess(a, b) && StrLess(b, c)
    ensures StrLess(a, c)
  {
    if a != [] && b != [] && c != [] && a[0] == b[0] && b[0] == c[0] {
      StrLessTransitive(a[1..], b[1..], c[1..]);
    }
  }

  lemma {:induction false} StrLessTotal(a: string, b: string)
    requires a != b
    ensures StrLess(a, b) || StrLess(b, a)
  {
    if a != [] && b != [] && a[0] == b[0] {
      assert a == [a[0]] + a[1..] && b == [b[0]] + b[1..];
      StrLessTotal(a[1..], b[1..]);
    }
  }

  lemma StrLessIsStrictTotal()
    ensures StrictTotalOrder(StrLess)
  {
    forall a { StrLessIrreflexive(a); }
    forall a, b, c | StrLess(a, b) && StrLess(b, c) ensures StrLess(a, c) {
      StrLessTransitive(a, b, c);
    }
    forall a, b | a != b ensures StrLess(a, b) || StrLess(b, a) {
      StrLessTotal(a, b);
    }
  }

  /** Inserts `x` into an ascending sequence, unless it is already there. */
  function Insert<T(==,!new)>(xs: seq<T>, x: T, less: (T, T) -> bool): (r: seq<T>)
    ensures forall y :: y in r <==> y in xs || y == x
    ensures x !in xs ==> multiset(r) == multiset(xs) + multiset{x}
  {
    if xs == [] then [x]
    else if x == xs[0] then xs
    else if less(x, xs[0]) then [x] + xs
    else
      assert xs == [xs[0]] + xs[1..];
      [xs[0]] + Insert(xs[1..], x, less)
  }

  lemma {:induction false} InsertOrdered<T(!new)>(xs: seq<T>, x: T, less: (T, T) -> bool)
    requires StrictTotalOrder(less)
    requires Ordered(xs, less)
    ensures Ordered(Insert(xs, x, less), less)
  {
    if xs == [] || x == xs[0] {
    } else if less(x, xs[0]) {
      var r := [x] + xs;
      forall i, j | 0 <= i < j < |r| ensures less(r[i], r[j]) {
        if i == 0 {
          if j > 1 { assert less(xs[0], xs[j - 1]); }
        } else {
          assert r[i] == xs[i - 1] && r[j] == xs[j - 1];
        }
      }
    } else {
      assert Ordered(xs[1..], less);
      InsertOrdered(xs[1..], x, less);
      var rest := Insert(xs[1..], x, less);
      var r := [xs[0]] + rest;
      forall i, j | 0 <= i < j < |r| ensures less(r[i], r[j]) {
        if i == 0 {
          assert r[j] in rest;
          if r[j] != x {
            var k :| 0 <= k < |xs[1..]| && xs[1..][k] == r[j];
            assert xs[k + 1] == r[j];
          }
        } else {
          assert r[i] == rest[i - 1] && r[j] == rest[j - 1];
        }
      }
    }
  }

  /** In a sequence ordered by an irreflexive, transitive relation, the
      order of two elements decides the order of their positions. */
  lemma OrderedPositions<T(!new)>(s: seq<T>, less: (T, T) -> bool, a: nat, b: nat)
    requires forall x :: !less(x, x)
    requires forall x, y, z :: less(x, y) && less(y, z) ==> less(x, z)
    requires Ordered(s, less)
    requires a < |s| && b < |s| && less(s[a], s[b])
    ensures a < b
  {
  }

  /** The distinct values of `s` in ascending order: the key order of a
      pandas `groupby` with its default `sort=True`. */
  function SortDistinct<T(==,!new)>(s: seq<T>, less: (T, T) -> bool): seq<T>
  {
    if s == [] then []
    else Insert(SortDistinct(s[..|s| - 1], less), s[|s| - 1], less)
  }

  lemma {:induction false} SortDistinctFacts<T(!new)>(s: seq<T>, less: (T, T) -> bool)
    requires StrictTotalOrder(less)
    ensures Ordered(SortDistinct(s, less), less)
    ensures Distinct(SortDistinct(s, less))
    ensures forall y :: y in SortDistinct(s, less) <==> y in s
    ensures Distinct(s) ==> multiset(SortDistinct(s, less)) == multiset(s)
  {
    var r := SortDistinct(s, less);
    if s != [] {
      var init := s[..|s| - 1];
      SortDistinctFacts(init, less);
      InsertOrdered(SortDistinct(init, less), s[|s| - 1], less);
      assert s == init + [s[|s| - 1]];
      if Distinct(s) {
        assert Distinct(init);
        assert s[|s| - 1] !in init;
      }
    }
    forall i, j | 0 <= i < j < |r| ensures r[i] != r[j] {
      assert less(r[i], r[j]);
    }
  }
}
