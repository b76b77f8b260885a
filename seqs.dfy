/** Small sequence toolkit used by the pipeline stages: the row filter that
    every boolean-mask selection in the pipeline reduces to, first-occurrence
    de-duplication (`drop_duplicates` / `unique`), counting, arg-max with the
    first-key tie-break, and the "first n of a filtered, ranked list" facts. */
module Seqs {

  datatype Option<+T> = None | Some(value: T)

  datatype Result<+R, +E> = Success(value: R) | Failure(error: E)

  /** Pairwise ordering of a sequence under a relation: every earlier element
      is related to every later one. */
  ghost predicate Ordered<T>(s: seq<T>, less: (T, T) -> bool)
  {
    forall i, j :: 0 <= i < j < |s| ==> less(s[i], s[j])
  }

  /** No element occurs twice. */
  ghost predicate Distinct<T>(s: seq<T>)
  {
    forall i, j :: 0 <= i < j < |s| ==> s[i] != s[j]
  }

  /** Keeps, in their original order, the elements that satisfy `p`; each
      one kept as often as it occurs. */
  function Filter<T(!new)>(s: seq<T>, p: T -> bool): (r: seq<T>)
    ensures |r| <= |s|
    ensures forall x :: x in r <==> x in s && p(x)
    ensures forall i :: 0 <= i < |r| ==> p(r[i])
  {
    if s == [] then []
    else if p(s[0]) then [s[0]] + Filter(s[1..], p)
    else Filter(s[1..], p)
  }

  /** Filtering keeps every survivor as often as it occurs, and drops every
      other element entirely. */
  lemma {:induction false} FilterCount<T(!new)>(s: seq<T>, p: T -> bool, x: T)
    ensures Count(Filter(s, p), x) == if p(x) then Count(s, x) else 0
  {
    if s != [] {
      FilterCount(s[1..], p, x);
      if p(s[0]) {
        var r := Filter(s, p);
        assert r[1..] == Filter(s[1..], p);
      }
    }
  }

  /** Filtering a sequence without repeats gives one without repeats. */
  lemma {:induction false} FilterDistinct<T(!new)>(s: seq<T>, p: T -> bool)
    requires Distinct(s)
    ensures Distinct(Filter(s, p))
  {
    if s != [] {
      var tail := s[1..];
      assert Distinct(tail) by {
        forall i, j | 0 <= i < j < |tail| ensures tail[i] != tail[j] {
          assert tail[i] == s[i + 1] && tail[j] == s[j + 1];
        }
      }
      FilterDistinct(tail, p);
      if p(s[0]) {
        var rest := Filter(tail, p);
        var r := [s[0]] + rest;
        assert s[0] !in tail by {
          forall k | 0 <= k < |tail| ensures tail[k] != s[0] {
            assert tail[k] == s[k + 1];
          }
        }
        forall i, j | 0 <= i < j < |r| ensures r[i] != r[j] {
          if i == 0 {
            assert r[j] == rest[j - 1] && rest[j - 1] in rest;
          } else {
            assert r[i] == rest[i - 1] && r[j] == rest[j - 1];
          }
        }
      }
    }
  }

  /** Where the survivors of a filter came from: strictly increasing
      positions of the input, so the filter keeps the input order. */
  lemma {:induction false} FilterPositions<T(!new)>(s: seq<T>, p: T -> bool) returns (idx: seq<nat>)
    ensures |idx| == |Filter(s, p)|
    ensures forall i :: 0 <= i < |idx| ==> idx[i] < |s| && s[idx[i]] == Filter(s, p)[i]
    ensures forall i, j :: 0 <= i < j < |idx| ==> idx[i] < idx[j]
  {
    if s == [] {
      idx := [];
    } else {
      var f := Filter(s[1..], p);
      var rest := FilterPositions(s[1..], p);
      var shifted := ShiftedPositions(s, rest, f);
      if p(s[0]) {
        assert Filter(s, p) == [s[0]] + f;
        idx := ConsPosition(s, shifted, f);
      } else {
        assert Filter(s, p) == f;
        idx := shifted;
      }
    }
  }

  /** Strictly increasing positions below `n`: where the elements that a
      selection kept sat in its input. */
  ghost predicate IncreasingPositions(idx: seq<nat>, n: nat)
  {
    && (forall i :: 0 <= i < |idx| ==> idx[i] < n)
    && (forall i, j :: 0 <= i < j < |idx| ==> idx[i] < idx[j])
  }

  /** Two selections in a row: increasing positions of increasing positions
      are increasing positions of the first input. */
  lemma ComposePositions(outer: seq<nat>, inner: seq<nat>, n: nat) returns (idx: seq<nat>)
    requires IncreasingPositions(outer, n) && IncreasingPositions(inner, |outer|)
    ensures |idx| == |inner| && IncreasingPositions(idx, n)
    ensures forall k :: 0 <= k < |idx| ==> idx[k] == outer[inner[k]]
  {
    idx := seq(|inner|, k requires 0 <= k < |inner| => outer[inner[k]]);
  }

  /** Increasing positions of `f`'s elements in the tail of `s`, moved one
      place to the right, are increasing positions of them in `s` itself. */
  lemma ShiftedPositions<T>(s: seq<T>, rest: seq<nat>, f: seq<T>) returns (shifted: seq<nat>)
    requires s != [] && |rest| == |f|
    requires forall i :: 0 <= i < |rest| ==> rest[i] < |s| - 1 && s[1..][rest[i]] == f[i]
    requires forall i, j :: 0 <= i < j < |rest| ==> rest[i] < rest[j]
    ensures |shifted| == |f|
    ensures forall i :: 0 <= i < |shifted| ==> 0 < shifted[i] < |s| && s[shifted[i]] == f[i]
    ensures forall i, j :: 0 <= i < j < |shifted| ==> shifted[i] < shifted[j]
  {
    shifted := Successors(rest);
    forall i | 0 <= i < |shifted| ensures 0 < shifted[i] < |s| && s[shifted[i]] == f[i] {
      assert s[rest[i] + 1] == s[1..][rest[i]];
    }
  }

  /** Position 0 put in front of positions past it keeps them increasing
      and makes them positions of `[s[0]] + f`. */
  lemma ConsPosition<T>(s: seq<T>, shifted: seq<nat>, f: seq<T>) returns (idx: seq<nat>)
    requires s != [] && |shifted| == |f|
    requires forall i :: 0 <= i < |shifted| ==> 0 < shifted[i] < |s| && s[shifted[i]] == f[i]
    requires forall i, j :: 0 <= i < j < |shifted| ==> shifted[i] < shifted[j]
    ensures |idx| == |f| + 1
    ensures forall i :: 0 <= i < |idx| ==> idx[i] < |s| && s[idx[i]] == ([s[0]] + f)[i]
    ensures forall i, j :: 0 <= i < j < |idx| ==> idx[i] < idx[j]
  {
    idx := [0] + shifted;
    forall i | 0 < i < |idx| ensures idx[i] < |s| && s[idx[i]] == ([s[0]] + f)[i] {
      assert idx[i] == shifted[i - 1];
    }
  }

  /** Every position moved one place to the right. */
  function Successors(xs: seq<nat>): (ys: seq<nat>)
    ensures |ys| == |xs|
    ensures forall i :: 0 <= i < |xs| ==> ys[i] == xs[i] + 1
  {
    if xs == [] then [] else [xs[0] + 1] + Successors(xs[1..])
  }

  /** A column of a frame: `f` applied to every row, in row order. */
  function Column<T, U>(s: seq<T>, f: T -> U): (c: seq<U>)
    ensures |c| == |s|
    ensures forall i :: 0 <= i < |s| ==> c[i] == f(s[i])
  {
    if s == [] then []
    else
      var rest := Column(s[1..], f);
      var c := [f(s[0])] + rest;
      assert forall i :: 1 <= i < |s| ==> c[i] == rest[i - 1] && s[1..][i - 1] == s[i];
      c
  }

  /** The column holds the value of every element. */
  lemma ColumnHas<T, U>(s: seq<T>, f: T -> U, x: T)
    requires x in s
    ensures f(x) in Column(s, f)
  {
    var i :| 0 <= i < |s| && s[i] == x;
    assert Column(s, f)[i] == f(x);
  }

  /** The column of a concatenation is the concatenation of the columns. */
  lemma {:induction false} ColumnAppend<T, U>(a: seq<T>, b: seq<T>, f: T -> U)
    ensures Column(a + b, f) == Column(a, f) + Column(b, f)
  {
    if a == [] {
      assert a + b == b;
    } else {
      assert (a + b)[1..] == a[1..] + b;
      ColumnAppend(a[1..], b, f);
    }
  }

  /** The row test `f(x) == v`. */
  function Matches<T, U(==)>(f: T -> U, v: U): T -> bool
  {
    (x: T) => f(x) == v
  }

  /** `groupby(column).size()`: the number of times `v` occurs in a column
      is the number of rows whose value is `v`. */
  lemma {:induction false} CountColumn<T(!new), U>(s: seq<T>, f: T -> U, v: U)
    ensures Count(Column(s, f), v) == |Filter(s, Matches(f, v))|
  {
    if s != [] {
      CountColumn(s[1..], f, v);
      var c := Column(s, f);
      assert c[1..] == Column(s[1..], f);
    }
  }

  /** The set of values a column takes; `nunique()` is its size. */
  function Values<T, U(!new)>(s: seq<T>, f: T -> U): (v: set<U>)
    ensures forall y :: y in v <==> exists x :: x in s && f(x) == y
    ensures |v| <= |s|
    ensures s != [] ==> |v| >= 1
  {
    if s == [] then {}
    else
      var rest := Values(s[1..], f);
      assert forall x :: x in s[1..] ==> x in s;
      assert forall x :: x in s ==> x == s[0] || x in s[1..];
      {f(s[0])} + rest
  }

  /** The values of a concatenation are the values of its parts. */
  lemma {:induction false} ValuesAppend<T, U(!new)>(a: seq<T>, b: seq<T>, f: T -> U)
    ensures Values(a + b, f) == Values(a, f) + Values(b, f)
  {
    forall y | y in Values(a + b, f) ensures y in Values(a, f) + Values(b, f) {
      var x :| x in a + b && f(x) == y;
    }
  }

  /** Filtering distributes over concatenation. */
  lemma {:induction false} FilterAppend<T(!new)>(a: seq<T>, b: seq<T>, p: T -> bool)
    ensures Filter(a + b, p) == Filter(a, p) + Filter(b, p)
  {
    if a == [] {
      assert a + b == b;
    } else {
      var t := a[1..];
      FilterAppend(t, b, p);
      assert (a + b)[0] == a[0] && (a + b)[1..] == t + b;
      var x, y := Filter(t, p), Filter(b, p);
      if p(a[0]) {
        calc {
          Filter(a + b, p);
          [a[0]] + Filter(t + b, p);
          [a[0]] + (x + y);
          { ConcatAssociative([a[0]], x, y); }
          ([a[0]] + x) + y;
          Filter(a, p) + y;
        }
      } else {
        calc {
          Filter(a + b, p);
          Filter(t + b, p);
          x + y;
          Filter(a, p) + y;
        }
      }
    }
  }

  lemma ConcatAssociative<T>(a: seq<T>, b: seq<T>, c: seq<T>)
    ensures a + (b + c) == (a + b) + c
  {
  }

  /** Filtering keeps the relative order of the survivors. */
  lemma {:induction false} FilterOrdered<T(!new)>(s: seq<T>, p: T -> bool, less: (T, T) -> bool)
    requires Ordered(s, less)
    ensures Ordered(Filter(s, p), less)
  {
    if s != [] {
      assert Ordered(s[1..], less);
      FilterOrdered(s[1..], p, less);
      if p(s[0]) {
        var rest := Filter(s[1..], p);
        var r := [s[0]] + rest;
        forall i, j | 0 <= i < j < |r| ensures less(r[i], r[j]) {
          if i == 0 {
            assert r[j] in s[1..];
            var k :| 0 <= k < |s[1..]| && s[1..][k] == r[j];
            assert s[k + 1] == r[j];
          } else {
            assert r[i] == rest[i - 1] && r[j] == rest[j - 1];
          }
        }
      }
    }
  }

  /** `head(n)`: the first `n` elements, or all of them when there are fewer. */
  function Take<T>(s: seq<T>, n: nat): (r: seq<T>)
    ensures |r| == if |s| <= n then |s| else n
    ensures r <= s
  {
    if |s| <= n then s else s[..n]
  }

  /** The first `n` survivors of a filter over a ranked sequence are the best
      `n` survivors: every survivor left out ranks behind all that were kept,
      and is left out only because `n` were already taken. */
  lemma TakeFilterBest<T(!new)>(s: seq<T>, p: T -> bool, n: nat, less: (T, T) -> bool)
    requires Ordered(s, less)
    ensures var t := Take(Filter(s, p), n);
      && |t| <= n
      && Ordered(t, less)
      && (forall x :: x in t ==> x in s && p(x))
      && (forall q :: q in s && p(q) && q !in t ==>
            |t| == n && forall x :: x in t ==> less(x, q))
  {
    var f := Filter(s, p);
    var t := Take(f, n);
    FilterOrdered(s, p, less);
    assert Ordered(t, less) by {
      forall i, j | 0 <= i < j < |t| ensures less(t[i], t[j]) {
        assert t[i] == f[i] && t[j] == f[j];
      }
    }
    forall x | x in t ensures x in s && p(x) {
      var i :| 0 <= i < |t| && t[i] == x;
      assert f[i] == x;
    }
    forall q | q in s && p(q) && q !in t
      ensures |t| == n && forall x :: x in t ==> less(x, q)
    {
      assert q in f;
      var k :| 0 <= k < |f| && f[k] == q;
      assert |f| > n;
      assert k >= n;
      forall x | x in t ensures less(x, q) {
        var i :| 0 <= i < |t| && t[i] == x;
        assert f[i] == x;
      }
    }
  }

  /** A non-empty sequence is its front followed by its last element. */
  lemma SplitLast<T>(s: seq<T>)
    requires s != []
    ensures s == s[..|s| - 1] + [s[|s| - 1]]
  {
  }

  /** The position of the first occurrence of `x`. */
  function FirstIndex<T(==)>(s: seq<T>, x: T): (i: nat)
    requires x in s
    ensures i < |s| && s[i] == x
    ensures forall k :: 0 <= k < i ==> s[k] != x
  {
    if s[0] == x then 0
    else
      assert x in s[1..] by {
        var k :| 0 <= k < |s| && s[k] == x;
        assert s[1..][k - 1] == x;
      }
      var i := 1 + FirstIndex(s[1..], x);
      assert forall k :: 1 <= k < i ==> s[k] == s[1..][k - 1];
      i
  }

  /** Appending an element does not move the first occurrence of an element
      already present. */
  lemma FirstIndexOfPrefix<T>(init: seq<T>, x: T, y: T)
    requires y in init
    ensures y in init + [x] && FirstIndex(init + [x], y) == FirstIndex(init, y)
  {
    var s := init + [x];
    var k := FirstIndex(init, y);
    assert s[k] == y;
  }

  /** First-occurrence de-duplication, as pandas `drop_duplicates()` (keep
      the first) and `unique()` do: later repeats are dropped, and what is
      kept stays in the order of its first occurrences. */
  function DropDuplicates<T(==,!new)>(s: seq<T>): (r: seq<T>)
    ensures |r| <= |s|
    ensures forall x :: x in r <==> x in s
    ensures Distinct(r)
    ensures forall i, j :: 0 <= i < j < |r| ==> FirstIndex(s, r[i]) < FirstIndex(s, r[j])
  {
    if s == [] then []
    else
      var init := s[..|s| - 1];
      var prefix := DropDuplicates(init);
      var x := s[|s| - 1];
      assert s == init + [x];
      var r := if x in prefix then prefix else prefix + [x];
      assert forall i, j :: 0 <= i < j < |r| ==> FirstIndex(s, r[i]) < FirstIndex(s, r[j]) by {
        forall i, j | 0 <= i < j < |r| ensures FirstIndex(s, r[i]) < FirstIndex(s, r[j]) {
          assert r[i] == prefix[i] && prefix[i] in prefix;
          FirstIndexOfPrefix(init, x, r[i]);
          if j < |prefix| {
            assert r[j] == prefix[j] && prefix[j] in prefix;
            FirstIndexOfPrefix(init, x, r[j]);
          }
        }
      }
      r
  }

  /** Where the elements `drop_duplicates` keeps came from: their first
      occurrences, at increasing positions of the input. */
  lemma DropDuplicatesPositions<T(!new)>(s: seq<T>) returns (idx: seq<nat>)
    ensures |idx| == |DropDuplicates(s)| && IncreasingPositions(idx, |s|)
    ensures forall k :: 0 <= k < |idx| ==> s[idx[k]] == DropDuplicates(s)[k]
  {
    var r := DropDuplicates(s);
    idx := seq(|r|, k requires 0 <= k < |r| => FirstIndex(s, r[k]));
  }

  /** First-occurrence de-duplication of a sorted list is strictly
      ascending. */
  lemma DropDuplicatesOfSorted(s: seq<int>)
    requires forall i, j :: 0 <= i < j < |s| ==> s[i] <= s[j]
    ensures forall i, j :: 0 <= i < j < |DropDuplicates(s)| ==> DropDuplicates(s)[i] < DropDuplicates(s)[j]
  {
    var r := DropDuplicates(s);
    forall i, j | 0 <= i < j < |r| ensures r[i] < r[j] {
      var a, b := FirstIndex(s, r[i]), FirstIndex(s, r[j]);
      assert a < b;
    }
  }

  /** Number of occurrences of `v` in `s` (a group's `size()`). */
  function Count<T(==)>(s: seq<T>, v: T): (n: nat)
    ensures n <= |s|
    ensures n > 0 <==> v in s
  {
    if s == [] then 0
    else (if s[0] == v then 1 else 0) + Count(s[1..], v)
  }

  /** Two positions of an element that occurs at least twice. */
  lemma TwoPositions<T>(s: seq<T>, v: T) returns (i: nat, j: nat)
    requires Count(s, v) >= 2
    ensures i < j < |s| && s[i] == v && s[j] == v
  {
    CountRepeat(s, v);
    i, j :| 0 <= i < j < |s| && s[i] == v && s[j] == v;
  }

  /** An element occurs at least twice exactly when it sits at two positions. */
  lemma {:induction false} CountRepeat<T>(s: seq<T>, v: T)
    ensures Count(s, v) >= 2 <==> exists i, j :: 0 <= i < j < |s| && s[i] == v && s[j] == v
  {
    if s != [] {
      var t := s[1..];
      CountRepeat(t, v);
      if Count(s, v) >= 2 {
        if s[0] == v {
          assert v in t;
          var k :| 0 <= k < |t| && t[k] == v;
          assert s[0] == v && s[k + 1] == v;
        } else {
          var i, j :| 0 <= i < j < |t| && t[i] == v && t[j] == v;
          assert s[i + 1] == v && s[j + 1] == v;
        }
      }
      if exists i, j :: 0 <= i < j < |s| && s[i] == v && s[j] == v {
        var i, j :| 0 <= i < j < |s| && s[i] == v && s[j] == v;
        if i == 0 {
          assert t[j - 1] == v;
        } else {
          assert t[i - 1] == v && t[j - 1] == v;
        }
      }
    }
  }

  /** `idxmax` over the group sizes of `keys`: the position of the first key
      whose count in `vals` is maximal. */
  function ArgMaxCount<T(==)>(vals: seq<T>, keys: seq<T>): (j: nat)
    requires |keys| > 0
    ensures j < |keys|
    ensures forall i :: 0 <= i < |keys| ==> Count(vals, keys[i]) <= Count(vals, keys[j])
    ensures forall i :: 0 <= i < j ==> Count(vals, keys[i]) < Count(vals, keys[j])
  {
    if |keys| == 1 then 0
    else
      var b := ArgMaxCount(vals, keys[..|keys| - 1]);
      var last := |keys| - 1;
      assert forall i :: 0 <= i < last ==> keys[..last][i] == keys[i];
      if Count(vals, keys[last]) > Count(vals, keys[b]) then last else b
  }

  /** `0, 1, ..., n - 1`. */
  function Range(n: nat): (r: seq<int>)
    ensures |r| == n
    ensures forall i :: 0 <= i < n ==> r[i] == i
  {
    seq(n, i => i)
  }

  /** A key counted most often among keys that include every value is
      counted at least as often as any value at all. */
  lemma MaxOverAllValues<T>(vals: seq<T>, keys: seq<T>, j: nat)
    requires j < |keys|
    requires forall i :: 0 <= i < |keys| ==> Count(vals, keys[i]) <= Count(vals, keys[j])
    requires forall v :: v in vals ==> v in keys
    ensures forall v :: Count(vals, v) <= Count(vals, keys[j])
  {
    forall v ensures Count(vals, v) <= Count(vals, keys[j]) {
      if v in vals {
        var i :| 0 <= i < |keys| && keys[i] == v;
      }
    }
  }

  /** The most frequent value of `vals`, all of which lie in `[0, bound)`;
      among equally frequent values the smallest wins. */
  function MostFrequent(vals: seq<int>, bound: nat): (m: int)
    requires |vals| > 0
    requires forall i :: 0 <= i < |vals| ==> 0 <= vals[i] < bound
    ensures m in vals
    ensures forall v :: Count(vals, v) <= Count(vals, m)
    ensures forall v :: v < m ==> Count(vals, v) < Count(vals, m)
  {
    var keys := Range(bound);
    assert vals[0] in keys by { assert keys[vals[0]] == vals[0]; }
    var j := ArgMaxCount(vals, keys);
    assert Count(vals, keys[j]) >= Count(vals, keys[vals[0]]) > 0;
    forall v ensures Count(vals, v) <= Count(vals, keys[j]) {
      if 0 <= v < bound { assert keys[v] == v; }
      else { assert v !in vals; }
    }
    forall v | v < keys[j] ensures Count(vals, v) < Count(vals, keys[j]) {
      if 0 <= v { assert keys[v] == v; }
      else { assert v !in vals; }
    }
    keys[j]
  }
}
