/** The column operations the dashboard takes from its dataframe library,
    stated over plain sequences of rows: boolean-mask selection (`df[mask]`),
    the sum of a numeric column (`.sum()`) and the set of distinct values of a
    column (`.nunique()` is its size). */
module Frames {

  /** `s[mask]`: the rows of s for which keep holds, in their original order. */
  function Where<T(!new)>(s: seq<T>, keep: T -> bool): (r: seq<T>)
    ensures |r| <= |s|
    ensures forall i :: 0 <= i < |r| ==> keep(r[i])
    ensures forall x :: x in r <==> x in s && keep(x)
  {
    if s == [] then []
    else (if keep(s[0]) then [s[0]] else []) + Where(s[1..], keep)
  }

  /** The complement of a mask (`~mask`). */
  function Not<T(!new)>(keep: T -> bool): T -> bool
  {
    x => !keep(x)
  }

  /** a can be obtained from b by deleting elements: the rows of a occur in b in
      the same relative order. */
  ghost predicate IsSubsequence<T(!new)>(a: seq<T>, b: seq<T>)
    decreases |b|
  {
    if a == [] then true
    else if b == [] then false
    else (a[0] == b[0] && IsSubsequence(a[1..], b[1..])) || IsSubsequence(a, b[1..])
  }

  /** A mask selection keeps the order of the rows it keeps. */
  lemma {:induction false} WhereIsSubsequence<T(!new)>(s: seq<T>, keep: T -> bool)
    ensures IsSubsequence(Where(s, keep), s)
  {
    if s != [] {
      WhereIsSubsequence(s[1..], keep);
      var rest := Where(s[1..], keep);
      if keep(s[0]) {
        assert Where(s, keep) == [s[0]] + rest;
        assert ([s[0]] + rest)[1..] == rest;
      } else {
        assert Where(s, keep) == rest;
      }
    }
  }

  /** A mask selection keeps every copy of a row it keeps and no copy of a row
      it drops. */
  lemma {:induction false} WhereMultiplicity<T(!new)>(s: seq<T>, keep: T -> bool, x: T)
    ensures multiset(Where(s, keep))[x] == if keep(x) then multiset(s)[x] else 0
  {
    if s != [] {
      WhereMultiplicity(s[1..], keep, x);
      assert s == [s[0]] + s[1..];
      assert multiset(s) == multiset([s[0]]) + multiset(s[1..]);
      var head := if keep(s[0]) then [s[0]] else [];
      assert Where(s, keep) == head + Where(s[1..], keep);
      assert multiset(Where(s, keep)) == multiset(head) + multiset(Where(s[1..], keep));
    }
  }

  /** Applying a second mask to a selection is the same as applying the
      conjunction of both masks once. */
  lemma {:induction false} WhereWhere<T(!new)>(s: seq<T>, p: T -> bool, q: T -> bool, both: T -> bool)
    requires forall x :: both(x) == (p(x) && q(x))
    ensures Where(Where(s, p), q) == Where(s, both)
  {
    if s != [] {
      WhereWhere(s[1..], p, q, both);
      var rest := Where(s[1..], p);
      if p(s[0]) {
        assert Where(s, p) == [s[0]] + rest;
        assert ([s[0]] + rest)[0] == s[0];
        assert ([s[0]] + rest)[1..] == rest;
      } else {
        assert Where(s, p) == rest;
      }
    }
  }

  /** Rows that all satisfy the mask are kept unchanged. */
  lemma {:induction false} WhereAll<T(!new)>(s: seq<T>, keep: T -> bool)
    requires forall i :: 0 <= i < |s| ==> keep(s[i])
    ensures Where(s, keep) == s
  {
    if s != [] {
      WhereAll(s[1..], keep);
      assert s == [s[0]] + s[1..];
    }
  }

  /** A mask nothing satisfies selects no rows. */
  lemma WhereNone<T(!new)>(s: seq<T>, keep: T -> bool)
    requires forall x :: !keep(x)
    ensures Where(s, keep) == []
  {
  }

  /** The sum of the column f over the rows of s: 0 for no rows, the one
      entry for one row. */
  function SumOf<T(!new)>(s: seq<T>, f: T -> int): (r: int)
    ensures s == [] ==> r == 0
    ensures |s| == 1 ==> r == f(s[0])
  {
    if s == [] then 0 else f(s[0]) + SumOf(s[1..], f)
  }

  /** The sum over two row sequences laid end to end. */
  lemma {:induction false} SumOfAppend<T(!new)>(a: seq<T>, b: seq<T>, f: T -> int)
    ensures SumOf(a + b, f) == SumOf(a, f) + SumOf(b, f)
  {
    if a == [] {
      assert a + b == b;
    } else {
      SumOfAppend(a[1..], b, f);
      assert (a + b)[0] == a[0];
      assert (a + b)[1..] == a[1..] + b;
    }
  }

  /** Additivity: splitting the rows by any mask and its complement splits the
      sum into two parts that add up to the whole. */
  lemma {:induction false} SumOfPartition<T(!new)>(s: seq<T>, f: T -> int, keep: T -> bool)
    ensures SumOf(Where(s, keep), f) + SumOf(Where(s, Not(keep)), f) == SumOf(s, f)
  {
    if s != [] {
      SumOfPartition(s[1..], f, keep);
      var kept := Where(s[1..], keep);
      var dropped := Where(s[1..], Not(keep));
      if keep(s[0]) {
        assert Where(s, keep) == [s[0]] + kept;
        assert Where(s, Not(keep)) == dropped;
        SumOfAppend([s[0]], kept, f);
      } else {
        assert Where(s, keep) == kept;
        assert Where(s, Not(keep)) == [s[0]] + dropped;
        SumOfAppend([s[0]], dropped, f);
      }
    }
  }

  /** A column with no negative entry has a sum that is not negative. */
  lemma {:induction false} SumOfNonNegative<T(!new)>(s: seq<T>, f: T -> int)
    ensures (forall i :: 0 <= i < |s| ==> f(s[i]) >= 0) ==> SumOf(s, f) >= 0
  {
    if s != [] && forall i :: 0 <= i < |s| ==> f(s[i]) >= 0 {
      forall i | 0 <= i < |s[1..]| ensures f(s[1..][i]) >= 0 {
        assert s[1..][i] == s[i + 1];
      }
      SumOfNonNegative(s[1..], f);
    }
  }

  /** Summing the constant-one column counts the rows. */
  function One<T(!new)>(x: T): int
  {
    1
  }

  lemma {:induction false} SumOfOneIsLength<T(!new)>(s: seq<T>)
    ensures SumOf(s, One) == |s|
  {
    if s != [] {
      SumOfOneIsLength(s[1..]);
    }
  }

  /** A derived column: f applied to every row, in row order. */
  function Column<T, K>(s: seq<T>, f: T -> K): (r: seq<K>)
    ensures |r| == |s|
    ensures forall i :: 0 <= i < |s| ==> r[i] == f(s[i])
  {
    seq(|s|, i requires 0 <= i < |s| => f(s[i]))
  }

  /** The set of values the column key takes over the rows of s: those of all
      but the last row, and the last row's. */
  function Distinct<T, K(!new)>(s: seq<T>, key: T -> K): (r: set<K>)
    ensures |r| <= |s|
    ensures r == {} <==> s == []
    ensures forall k :: k in r <==> exists i :: 0 <= i < |s| && key(s[i]) == k
    decreases |s|
  {
    if s == [] then {}
    else
      var init := s[..|s| - 1];
      var rest := Distinct(init, key);
      assert forall k :: k in rest ==> exists i :: 0 <= i < |s| && key(s[i]) == k by {
        forall k | k in rest ensures exists i :: 0 <= i < |s| && key(s[i]) == k {
          var j :| 0 <= j < |init| && key(init[j]) == k;
          assert key(s[j]) == k;
        }
      }
      var r := rest + {key(s[|s| - 1])};
      assert forall k :: (exists i :: 0 <= i < |s| && key(s[i]) == k) ==> k in r by {
        forall k | exists i :: 0 <= i < |s| && key(s[i]) == k ensures k in r {
          var i :| 0 <= i < |s| && key(s[i]) == k;
          if i < |s| - 1 {
            assert key(init[i]) == k;
          }
        }
      }
      r
  }

  /** The sequence has no value twice. */
  predicate NoDuplicates<K(==)>(xs: seq<K>)
  {
    forall i, j :: 0 <= i < j < |xs| ==> xs[i] != xs[j]
  }

  /** The set of the values of a sequence. */
  function Elems<K(!new)>(xs: seq<K>): (r: set<K>)
    ensures forall k :: k in r <==> k in xs
  {
    set k | k in xs
  }

  /** A sequence without repetitions has as many values as it is long. */
  lemma {:induction false} NoDuplicatesCard<K(!new)>(xs: seq<K>)
    requires NoDuplicates(xs)
    ensures |Elems(xs)| == |xs|
  {
    if xs != [] {
      NoDuplicatesCard(xs[1..]);
      assert Elems(xs) == {xs[0]} + Elems(xs[1..]);
      assert xs[0] !in Elems(xs[1..]);
    }
  }
}
