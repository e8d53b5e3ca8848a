/** Group-by and ranking over row sequences: `groupby(key)[column].sum()`,
    `value_counts()`, `sort_values(ascending=False)` and `head(n)`, stated
    with an explicit list of group keys so that the order of the groups is
    part of the result. */
module Grouping {
  import opened Frames

  /** One row of a grouped result: a group key and the aggregate of its group. */
  datatype Row<K> = Row(key: K, total: int)

  /** The key column of a grouped result. */
  function Keys<K>(rows: seq<Row<K>>): (ks: seq<K>)
    ensures |ks| == |rows|
    ensures forall i :: 0 <= i < |rows| ==> ks[i] == rows[i].key
  {
    seq(|rows|, i requires 0 <= i < |rows| => rows[i].key)
  }

  /** The key of a row of the result is in its key column. */
  lemma KeyOfRow<K>(rows: seq<Row<K>>, x: Row<K>)
    requires x in rows
    ensures x.key in Keys(rows)
  {
    var j :| 0 <= j < |rows| && rows[j] == x;
    assert Keys(rows)[j] == x.key;
  }

  /** The mask selecting the rows whose key column equals k. */
  function Is<T, K(==)>(key: T -> K, k: K): T -> bool
  {
    x => key(x) == k
  }

  /** One row per entry of keys, in that order, whose total is the sum of the
      column measure over the rows of s in that group. */
  function GroupTotals<T(!new), K(==)>(s: seq<T>, keys: seq<K>, key: T -> K, measure: T -> int): (rows: seq<Row<K>>)
    ensures |rows| == |keys|
    ensures forall i :: 0 <= i < |rows| ==> rows[i].key == keys[i]
    ensures forall i :: 0 <= i < |rows| ==> rows[i].total == SumOf(Where(s, Is(key, keys[i])), measure)
  {
    if keys == [] then []
    else [Row(keys[0], SumOf(Where(s, Is(key, keys[0])), measure))] + GroupTotals(s, keys[1..], key, measure)
  }

  /** The sum of the totals of a grouped result. */
  function TotalOf<K>(rows: seq<Row<K>>): int
  {
    if rows == [] then 0 else rows[0].total + TotalOf(rows[1..])
  }

  /** Taking one row off the front of the data changes the grand total of the
      groups by that row's measure exactly when its key is one of the groups. */
  lemma {:induction false} GroupTotalsCons<T(!new), K>(s: seq<T>, keys: seq<K>, key: T -> K, measure: T -> int)
    requires s != []
    requires NoDuplicates(keys)
    ensures TotalOf(GroupTotals(s, keys, key, measure))
         == (if key(s[0]) in keys then measure(s[0]) else 0) + TotalOf(GroupTotals(s[1..], keys, key, measure))
  {
    if keys != [] {
      assert NoDuplicates(keys[1..]);
      GroupTotalsCons(s, keys[1..], key, measure);
      var inGroup := Is(key, keys[0]);
      var head := if inGroup(s[0]) then [s[0]] else [];
      assert Where(s, inGroup) == head + Where(s[1..], inGroup);
      SumOfAppend(head, Where(s[1..], inGroup), measure);
      assert key(s[0]) == keys[0] ==> key(s[0]) !in keys[1..];
      assert key(s[0]) in keys <==> key(s[0]) == keys[0] || key(s[0]) in keys[1..];
    }
  }

  /** The group totals add up to the column sum of the whole data when every
      row's key is one of the (distinct) group keys. */
  lemma {:induction false} GroupTotalsSum<T(!new), K>(s: seq<T>, keys: seq<K>, key: T -> K, measure: T -> int)
    requires NoDuplicates(keys)
    requires forall i :: 0 <= i < |s| ==> key(s[i]) in keys
    ensures TotalOf(GroupTotals(s, keys, key, measure)) == SumOf(s, measure)
  {
    if s == [] {
      GroupTotalsOfNothing(keys, key, measure);
    } else {
      GroupTotalsCons(s, keys, key, measure);
      assert forall i :: 0 <= i < |s[1..]| ==> key(s[1..][i]) == key(s[i + 1]);
      GroupTotalsSum(s[1..], keys, key, measure);
    }
  }

  /** Without data every group total is 0. */
  lemma {:induction false} GroupTotalsOfNothing<T(!new), K>(keys: seq<K>, key: T -> K, measure: T -> int)
    ensures TotalOf(GroupTotals([], keys, key, measure)) == 0
  {
    if keys != [] {
      GroupTotalsOfNothing(keys[1..], key, measure);
    }
  }

  /** The values of the key column over s, each once, in order of first
      appearance. */
  function FirstAppearance<T, K(==, !new)>(s: seq<T>, key: T -> K): (r: seq<K>)
    ensures NoDuplicates(r)
    ensures forall k :: k in r <==> k in Distinct(s, key)
    decreases |s|
  {
    if s == [] then []
    else
      var d := FirstAppearance(s[..|s| - 1], key);
      var k := key(s[|s| - 1]);
      if k in d then d
      else
        assert forall i :: 0 <= i < |d| ==> (d + [k])[i] == d[i];
        d + [k]
  }

  /** The key column of a grouped result is the list of keys it was given. */
  lemma GroupTotalsKeys<T(!new), K>(s: seq<T>, keys: seq<K>, key: T -> K, measure: T -> int)
    ensures Keys(GroupTotals(s, keys, key, measure)) == keys
  {
    var rows := GroupTotals(s, keys, key, measure);
    assert forall i :: 0 <= i < |keys| ==> Keys(rows)[i] == keys[i];
  }

  /** There are as many first appearances as distinct keys. */
  lemma FirstAppearanceLength<T, K(!new)>(s: seq<T>, key: T -> K)
    ensures |FirstAppearance(s, key)| == |Distinct(s, key)|
  {
    var keys := FirstAppearance(s, key);
    NoDuplicatesCard(keys);
    assert Elems(keys) == Distinct(s, key);
  }

  /** `groupby(key)[measure].sum()`: one row per distinct key of s, with the
      sum of measure over that key's rows. The model lists the groups in order
      of first appearance (pandas sorts them); after `SortByTotal` that choice
      only decides the order among equal totals. */
  function GroupBy<T(!new), K(==, !new)>(s: seq<T>, key: T -> K, measure: T -> int): (rows: seq<Row<K>>)
    ensures |rows| == |Distinct(s, key)|
    ensures Keys(rows) == FirstAppearance(s, key)
    ensures DistinctKeys(rows)
    ensures forall k :: k in Keys(rows) <==> k in Distinct(s, key)
    ensures forall i :: 0 <= i < |rows| ==> rows[i].total == SumOf(Where(s, Is(key, rows[i].key)), measure)
  {
    var keys := FirstAppearance(s, key);
    FirstAppearanceLength(s, key);
    GroupTotalsKeys(s, keys, key, measure);
    GroupTotals(s, keys, key, measure)
  }

  /** The groups partition the data: their totals add up to the column sum
      over all of s. */
  lemma GroupBySum<T(!new), K(!new)>(s: seq<T>, key: T -> K, measure: T -> int)
    ensures TotalOf(GroupBy(s, key, measure)) == SumOf(s, measure)
  {
    var keys := FirstAppearance(s, key);
    forall i | 0 <= i < |s| ensures key(s[i]) in keys {
      assert key(s[i]) in Distinct(s, key);
    }
    GroupTotalsSum(s, keys, key, measure);
  }

  /** A key that occurs in s has a group of at least one row, and counting the
      group's rows (summing the constant one) gives its size. */
  lemma PresentKeyCount<T(!new), K(!new)>(s: seq<T>, key: T -> K, k: K)
    requires k in Distinct(s, key)
    ensures SumOf(Where(s, Is(key, k)), One) == |Where(s, Is(key, k))| > 0
  {
    var group := Where(s, Is(key, k));
    SumOfOneIsLength(group);
    var l :| 0 <= l < |s| && key(s[l]) == k;
    assert Is(key, k)(s[l]) && s[l] in s;
    assert s[l] in group;
  }

  /** Counting lines per key (`value_counts`): each count is the number of rows
      with that key, and it is at least one. */
  lemma GroupByCounts<T(!new), K(!new)>(s: seq<T>, key: T -> K)
    ensures var rows := GroupBy(s, key, One);
      forall i :: 0 <= i < |rows| ==> rows[i].total == |Where(s, Is(key, rows[i].key))| > 0
  {
    var rows := GroupBy(s, key, One);
    forall i | 0 <= i < |rows| ensures rows[i].total == |Where(s, Is(key, rows[i].key))| > 0 {
      PresentKeyCount(s, key, rows[i].key);
    }
  }

  /** Strictly ascending: sorted with no key twice. */
  predicate StrictlyAscending(xs: seq<int>)
  {
    forall i, j :: 0 <= i < j < |xs| ==> xs[i] < xs[j]
  }

  /** Insert x into a strictly ascending sequence unless it is already there. */
  function InsertAscending(xs: seq<int>, x: int): (r: seq<int>)
    requires StrictlyAscending(xs)
    ensures StrictlyAscending(r)
    ensures forall k :: k in r <==> k in xs || k == x
  {
    if xs == [] then [x]
    else if x < xs[0] then [x] + xs
    else if x == xs[0] then xs
    else
      var rest := InsertAscending(xs[1..], x);
      assert forall k :: k in rest ==> xs[0] < k by {
        forall k | k in rest ensures xs[0] < k {
          if k in xs[1..] {
            var j :| 0 <= j < |xs[1..]| && xs[1..][j] == k;
            assert xs[j + 1] == k;
          }
        }
      }
      var r := [xs[0]] + rest;
      assert forall j :: 0 < j < |r| ==> r[j] == rest[j - 1] && r[j] in rest;
      r
  }

  /** The distinct values of xs in ascending order (what `groupby` does with
      its keys by default). */
  function SortedDistinct(xs: seq<int>): (r: seq<int>)
    ensures StrictlyAscending(r)
    ensures forall k :: k in r <==> k in xs
  {
    if xs == [] then []
    else InsertAscending(SortedDistinct(xs[1..]), xs[0])
  }

  lemma StrictlyAscendingHasNoDuplicates(xs: seq<int>)
    requires StrictlyAscending(xs)
    ensures NoDuplicates(xs)
  {
  }

  /** Totals never increase along the rows. */
  predicate NonIncreasing<K>(rows: seq<Row<K>>)
  {
    forall i, j :: 0 <= i < j < |rows| ==> rows[i].total >= rows[j].total
  }

  /** No group key occurs in two rows. */
  predicate DistinctKeys<K(==)>(rows: seq<Row<K>>)
  {
    forall i, j :: 0 <= i < j < |rows| ==> rows[i].key != rows[j].key
  }

  /** Every row after the first has a total no larger than the first's. */
  lemma HeadBoundsTail<K>(rows: seq<Row<K>>)
    requires rows != [] && NonIncreasing(rows)
    ensures forall y :: y in rows[1..] ==> y.total <= rows[0].total
  {
    forall y | y in rows[1..] ensures y.total <= rows[0].total {
      var j :| 0 <= j < |rows[1..]| && rows[1..][j] == y;
      assert rows[j + 1] == y;
    }
  }

  /** A member of a sequence holding the rows of tail and one more row x is x
      or a row of tail. */
  lemma InsertedMember<K>(x: Row<K>, tail: seq<Row<K>>, r: seq<Row<K>>, y: Row<K>)
    requires multiset(r) == multiset(tail) + multiset{x}
    requires y in r
    ensures y == x || y in tail
  {
    assert y in multiset(r);
  }

  /** A bound on the totals of tail and on x bounds those of any sequence
      holding exactly the rows of tail and x. */
  lemma InsertedBound<K>(x: Row<K>, tail: seq<Row<K>>, r: seq<Row<K>>, bound: int)
    requires multiset(r) == multiset(tail) + multiset{x}
    requires x.total <= bound
    requires forall y :: y in tail ==> y.total <= bound
    ensures forall y :: y in r ==> y.total <= bound
  {
    forall y | y in r ensures y.total <= bound {
      InsertedMember(x, tail, r, y);
    }
  }

  /** A row in front of non-increasing rows whose totals it bounds keeps them
      non-increasing. */
  lemma NonIncreasingCons<K>(h: Row<K>, rest: seq<Row<K>>)
    requires NonIncreasing(rest)
    requires forall y :: y in rest ==> y.total <= h.total
    ensures NonIncreasing([h] + rest)
  {
    var r := [h] + rest;
    forall i, j | 0 <= i < j < |r| ensures r[i].total >= r[j].total {
      assert r[j] == rest[j - 1] && r[j] in rest;
      if i > 0 {
        assert r[i] == rest[i - 1];
      }
    }
  }

  /** Insert x into rows ordered by descending total, after every row whose
      total is larger. */
  function InsertByTotal<K(==, !new)>(x: Row<K>, rows: seq<Row<K>>): (r: seq<Row<K>>)
    requires NonIncreasing(rows)
    ensures NonIncreasing(r)
    ensures multiset(r) == multiset(rows) + multiset{x}
  {
    if rows == [] || x.total >= rows[0].total then [x] + rows
    else
      var rest := InsertByTotal(x, rows[1..]);
      HeadBoundsTail(rows);
      InsertedBound(x, rows[1..], rest, rows[0].total);
      NonIncreasingCons(rows[0], rest);
      assert rows == [rows[0]] + rows[1..];
      [rows[0]] + rest
  }

  /** `sort_values(ascending=False)`: the same rows, ordered by descending
      total. */
  function SortByTotal<K(==, !new)>(rows: seq<Row<K>>): (r: seq<Row<K>>)
    ensures NonIncreasing(r)
    ensures multiset(r) == multiset(rows)
    ensures |r| == |rows|
  {
    if rows == [] then []
    else
      assert rows == [rows[0]] + rows[1..];
      var r := InsertByTotal(rows[0], SortByTotal(rows[1..]));
      assert |multiset(r)| == |multiset(rows)|;
      r
  }

  /** Sorting neither adds nor drops a row. */
  lemma SortedMember<K(!new)>(rows: seq<Row<K>>, x: Row<K>)
    ensures x in SortByTotal(rows) <==> x in rows
  {
    var r := SortByTotal(rows);
    assert x in r <==> x in multiset(r);
    assert x in rows <==> x in multiset(rows);
  }

  /** Inserting a row adds its total to the grand total. */
  lemma {:induction false} InsertByTotalTotal<K(!new)>(x: Row<K>, rows: seq<Row<K>>)
    requires NonIncreasing(rows)
    ensures TotalOf(InsertByTotal(x, rows)) == x.total + TotalOf(rows)
  {
    if !(rows == [] || x.total >= rows[0].total) {
      InsertByTotalTotal(x, rows[1..]);
    }
  }

  /** Sorting does not change the grand total. */
  lemma {:induction false} SortByTotalTotal<K(!new)>(rows: seq<Row<K>>)
    ensures TotalOf(SortByTotal(rows)) == TotalOf(rows)
  {
    if rows != [] {
      SortByTotalTotal(rows[1..]);
      InsertByTotalTotal(rows[0], SortByTotal(rows[1..]));
    }
  }

  /** Without its first row, rows with distinct keys still have distinct keys,
      none of them the first row's key. */
  lemma DistinctKeysTail<K>(rows: seq<Row<K>>)
    requires rows != [] && DistinctKeys(rows)
    ensures DistinctKeys(rows[1..])
    ensures forall y :: y in rows[1..] ==> y.key != rows[0].key
  {
    forall y | y in rows[1..] ensures y.key != rows[0].key {
      var j :| 0 <= j < |rows[1..]| && rows[1..][j] == y;
      assert rows[j + 1] == y;
    }
  }

  /** Putting a row in front of rows with other keys keeps the keys distinct. */
  lemma DistinctKeysCons<K>(h: Row<K>, rest: seq<Row<K>>)
    requires DistinctKeys(rest)
    requires forall y :: y in rest ==> y.key != h.key
    ensures DistinctKeys([h] + rest)
  {
    var r := [h] + rest;
    forall i, j | 0 <= i < j < |r| ensures r[i].key != r[j].key {
      assert r[j] == rest[j - 1] && r[j] in rest;
      if i > 0 {
        assert r[i] == rest[i - 1];
      }
    }
  }

  /** Inserting a row with a new key keeps the keys distinct. */
  lemma {:induction false} InsertByTotalDistinct<K(!new)>(x: Row<K>, rows: seq<Row<K>>)
    requires NonIncreasing(rows)
    requires DistinctKeys(rows)
    requires forall y :: y in rows ==> y.key != x.key
    ensures DistinctKeys(InsertByTotal(x, rows))
  {
    if rows == [] || x.total >= rows[0].total {
      DistinctKeysCons(x, rows);
    } else {
      DistinctKeysTail(rows);
      assert forall y :: y in rows[1..] ==> y in rows;
      InsertByTotalDistinct(x, rows[1..]);
      var rest := InsertByTotal(x, rows[1..]);
      assert rows[0] in rows;
      forall y | y in rest ensures y.key != rows[0].key {
        InsertedMember(x, rows[1..], rest, y);
      }
      DistinctKeysCons(rows[0], rest);
    }
  }

  /** Sorting rows with distinct keys keeps them distinct. */
  lemma {:induction false} SortByTotalDistinct<K(!new)>(rows: seq<Row<K>>)
    requires DistinctKeys(rows)
    ensures DistinctKeys(SortByTotal(rows))
  {
    if rows != [] {
      DistinctKeysTail(rows);
      SortByTotalDistinct(rows[1..]);
      var sorted := SortByTotal(rows[1..]);
      forall y | y in sorted ensures y.key != rows[0].key {
        SortedMember(rows[1..], y);
      }
      InsertByTotalDistinct(rows[0], sorted);
    }
  }

  /** Sorting keeps the set of keys: a key has a row after sorting exactly when
      it had one before. */
  lemma SortByTotalKeys<K(!new)>(rows: seq<Row<K>>)
    ensures forall k :: k in Keys(SortByTotal(rows)) <==> k in Keys(rows)
  {
    var sorted := SortByTotal(rows);
    forall k ensures k in Keys(sorted) <==> k in Keys(rows) {
      if k in Keys(rows) {
        var i :| 0 <= i < |rows| && Keys(rows)[i] == k;
        SortedMember(rows, rows[i]);
        var j :| 0 <= j < |sorted| && sorted[j] == rows[i];
        assert Keys(sorted)[j] == k;
      }
      if k in Keys(sorted) {
        var j :| 0 <= j < |sorted| && Keys(sorted)[j] == k;
        SortedMember(rows, sorted[j]);
        var i :| 0 <= i < |rows| && rows[i] == sorted[j];
        assert Keys(rows)[i] == k;
      }
    }
  }

  /** `head(n)`: the first n rows, or all of them when there are fewer. */
  function Head<K>(rows: seq<Row<K>>, n: nat): (r: seq<Row<K>>)
    ensures |r| == if |rows| < n then |rows| else n
    ensures forall i :: 0 <= i < |r| ==> r[i] == rows[i]
  {
    if |rows| < n then rows else rows[..n]
  }

  /** The first n rows by descending total: each is one of the given rows, and
      no key is ranked twice. */
  lemma RankingRows<K(!new)>(rows: seq<Row<K>>, n: nat)
    requires DistinctKeys(rows)
    ensures var top := Head(SortByTotal(rows), n);
      && DistinctKeys(top)
      && forall i :: 0 <= i < |top| ==> top[i] in rows
  {
    var sorted := SortByTotal(rows);
    SortByTotalDistinct(rows);
    var top := Head(sorted, n);
    forall i | 0 <= i < |top| ensures top[i] in rows {
      assert top[i] == sorted[i] && sorted[i] in sorted;
      SortedMember(rows, sorted[i]);
    }
  }

  /** A row that did not make the first n has a total no larger than the
      last row that did, and then the first n are full. */
  lemma RankingLeavesOutSmaller<K(!new)>(rows: seq<Row<K>>, n: nat, j: nat)
    requires 0 < n && j < |rows|
    requires forall i :: 0 <= i < |Head(SortByTotal(rows), n)| ==> Head(SortByTotal(rows), n)[i] != rows[j]
    ensures |Head(SortByTotal(rows), n)| == n
    ensures rows[j].total <= Head(SortByTotal(rows), n)[n - 1].total
  {
    var sorted := SortByTotal(rows);
    var top := Head(sorted, n);
    SortedMember(rows, rows[j]);
    var k :| 0 <= k < |sorted| && sorted[k] == rows[j];
    assert k >= |top|;
    assert |top| == n;
    assert sorted[n - 1] == top[n - 1];
    assert sorted[n - 1].total >= sorted[k].total;
  }
}
