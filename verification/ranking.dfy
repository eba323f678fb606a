/** Ranking: `sort_values('One-Year Price Return', ascending=False)` followed
    by `final_dataframe[:50]`. The sort pandas uses by default is not stable,
    so nothing is promised about the order of rows with equal returns; the
    contracts below hold for every descending order. */
module Ranking {
  import opened Table
  import Numbers

  /** How many rows the screen keeps. */
  const TopCount: nat := 50

  /** Returns never increase from one row to a later one. */
  predicate SortedByReturn(rows: seq<Row>) {
    forall i, j :: 0 <= i < j < |rows| ==> rows[i].oneYearReturn >= rows[j].oneYearReturn
  }

  /** The 'One-Year Price Return' column. */
  function ReturnsOf(rows: seq<Row>): (r: seq<real>)
    ensures |r| == |rows|
    ensures forall i :: 0 <= i < |rows| ==> r[i] == rows[i].oneYearReturn
  {
    seq(|rows|, i requires 0 <= i < |rows| => rows[i].oneYearReturn)
  }

  /** Places `x` in front of the first row whose return does not exceed its own. */
  function Insert(x: Row, sorted: seq<Row>): (r: seq<Row>)
    requires SortedByReturn(sorted)
    ensures SortedByReturn(r)
    ensures multiset(r) == multiset(sorted) + multiset{x}
    ensures |r| == |sorted| + 1 && (r[0] == x || (|sorted| > 0 && r[0] == sorted[0]))
  {
    if |sorted| == 0 || sorted[0].oneYearReturn <= x.oneYearReturn then
      [x] + sorted
    else
      var rest := Insert(x, sorted[1..]);
      assert sorted == [sorted[0]] + sorted[1..];
      assert sorted[0].oneYearReturn >= rest[0].oneYearReturn;
      [sorted[0]] + rest
  }

  /** One descending order of the rows (an insertion sort). */
  function SortByReturn(rows: seq<Row>): (r: seq<Row>)
    ensures SortedByReturn(r)
    ensures multiset(r) == multiset(rows)
  {
    if |rows| == 0 then []
    else
      assert rows == [rows[0]] + rows[1..];
      Insert(rows[0], SortByReturn(rows[1..]))
  }

  /** `final_dataframe[:k]`: the first `k` rows, or all of them when there
      are fewer. */
  function Take(rows: seq<Row>, k: nat): seq<Row> {
    rows[..Numbers.Min(k, |rows|)]
  }

  /** The ranking table: the rows with the highest one-year returns, best
      first, at most `TopCount` of them. Every kept row comes from the merged
      rows, and no dropped row has a higher return than a kept one. */
  function Rank(rows: seq<Row>): (r: seq<Row>)
    ensures SortedByReturn(r)
    ensures |r| == Numbers.Min(TopCount, |rows|)
    ensures multiset(r) <= multiset(rows)
    ensures forall x, y :: x in multiset(r) && y in multiset(rows) - multiset(r) ==>
                             x.oneYearReturn >= y.oneYearReturn
  {
    var s := SortByReturn(rows);
    TakeOfSorted(s, TopCount);
    Take(s, TopCount)
  }

  /** A prefix of a descending order is itself descending, comes from the
      rows, and each of its rows has a return at least that of every row
      left out. */
  lemma TakeOfSorted(s: seq<Row>, k: nat)
    requires SortedByReturn(s)
    ensures var t := Take(s, k);
      && SortedByReturn(t)
      && |t| == Numbers.Min(k, |s|)
      && multiset(t) <= multiset(s)
      && forall x, y :: x in multiset(t) && y in multiset(s) - multiset(t) ==>
                          x.oneYearReturn >= y.oneYearReturn
  {
    var m := Numbers.Min(k, |s|);
    var t := s[..m];
    assert Take(s, k) == t;
    SortedPrefix(s, m);
    PrefixDominatesSuffix(s, m);
  }

  lemma SortedPrefix(s: seq<Row>, m: nat)
    requires SortedByReturn(s) && m <= |s|
    ensures SortedByReturn(s[..m])
  {
  }

  /** In a descending order, every row of a prefix has a return at least that
      of every row after it; the prefix and the rest make up the whole. */
  lemma PrefixDominatesSuffix(s: seq<Row>, m: nat)
    requires SortedByReturn(s) && m <= |s|
    ensures multiset(s[..m]) <= multiset(s)
    ensures multiset(s) - multiset(s[..m]) == multiset(s[m..])
    ensures forall x, y :: x in multiset(s[..m]) && y in multiset(s[m..]) ==>
                             x.oneYearReturn >= y.oneYearReturn
  {
    assert s == s[..m] + s[m..];
    forall x, y | x in multiset(s[..m]) && y in multiset(s[m..])
      ensures x.oneYearReturn >= y.oneYearReturn
    {
      var i :| 0 <= i < m && s[..m][i] == x;
      var j :| 0 <= j < |s| - m && s[m..][j] == y;
      assert s[i] == x && s[m + j] == y;
    }
  }

  /** Removing one row keeps the order. */
  lemma SortedWithout(b: seq<Row>, i: nat)
    requires i < |b| && SortedByReturn(b)
    ensures SortedByReturn(b[..i] + b[i + 1..])
  {
    var c := b[..i] + b[i + 1..];
    forall p, q | 0 <= p < q < |c|
      ensures c[p].oneYearReturn >= c[q].oneYearReturn
    {
      var p' := if p < i then p else p + 1;
      var q' := if q < i then q else q + 1;
      assert c[p] == b[p'] && c[q] == b[q'];
    }
  }

  /** Any two descending orders of the same rows have the same return
      column: they can differ only in how rows with equal returns are placed. */
  lemma {:induction false} SortedPermutationsAgree(a: seq<Row>, b: seq<Row>)
    requires multiset(a) == multiset(b)
    requires SortedByReturn(a) && SortedByReturn(b)
    ensures ReturnsOf(a) == ReturnsOf(b)
    decreases |a|
  {
    if |a| == 0 {
      assert |multiset(b)| == 0;
    } else {
      var i := MatchFirst(a, b);
      var b' := b[..i] + b[i + 1..];
      SameTopReturn(a, b);
      SortedWithout(b, i);
      SortedTail(a);
      SortedPermutationsAgree(a[1..], b');
      ReturnsWithout(b, i);
      ReturnsTail(a);
    }
  }

  lemma SortedTail(a: seq<Row>)
    requires |a| > 0 && SortedByReturn(a)
    ensures SortedByReturn(a[1..])
  {
  }

  lemma ReturnsTail(a: seq<Row>)
    requires |a| > 0
    ensures ReturnsOf(a) == [a[0].oneYearReturn] + ReturnsOf(a[1..])
  {
  }

  /** Finds the first row of `a` in `b`; what remains of each is again a
      permutation of the other. */
  lemma MatchFirst(a: seq<Row>, b: seq<Row>) returns (i: nat)
    requires multiset(a) == multiset(b) && |a| > 0
    ensures i < |b| && b[i] == a[0]
    ensures multiset(a[1..]) == multiset(b[..i] + b[i + 1..])
  {
    assert a[0] in multiset(a);
    assert a[0] in b;
    i :| 0 <= i < |b| && b[i] == a[0];
    assert a == [a[0]] + a[1..];
    assert b == b[..i] + [b[i]] + b[i + 1..];
    calc {
      multiset(a[1..]);
      multiset(a) - multiset{a[0]};
      multiset(b) - multiset{b[i]};
      multiset(b[..i]) + multiset(b[i + 1..]);
      multiset(b[..i] + b[i + 1..]);
    }
  }

  /** Two descending orders of the same non-empty rows start with the same return. */
  lemma SameTopReturn(a: seq<Row>, b: seq<Row>)
    requires multiset(a) == multiset(b) && |a| > 0
    requires SortedByReturn(a) && SortedByReturn(b)
    ensures |b| > 0 && a[0].oneYearReturn == b[0].oneYearReturn
  {
    assert a[0] in multiset(b);
    var i :| 0 <= i < |b| && b[i] == a[0];
    assert b[0] in multiset(a);
    var j :| 0 <= j < |a| && a[j] == b[0];
  }

  /** Removing a row whose return equals the first return shifts the column
      without changing it beyond the removed entry. */
  lemma ReturnsWithout(b: seq<Row>, i: nat)
    requires i < |b| && SortedByReturn(b)
    requires b[i].oneYearReturn == b[0].oneYearReturn
    ensures ReturnsOf(b) == [b[0].oneYearReturn] + ReturnsOf(b[..i] + b[i + 1..])
  {
    var top := b[0].oneYearReturn;
    var b' := b[..i] + b[i + 1..];
    var lhs := ReturnsOf(b);
    var rhs := [top] + ReturnsOf(b');
    forall k | 0 <= k < |b|
      ensures lhs[k] == rhs[k]
    {
      if 0 < k <= i {
        assert b[k].oneYearReturn == top && b[k - 1].oneYearReturn == top;
        assert b'[k - 1] == b[k - 1];
      } else if k > i {
        assert b'[k - 1] == b[k];
      }
    }
  }

  /** Whatever order pandas gives rows with equal returns, the returns of the
      kept rows are those of the ranking modelled here. */
  lemma RankReturnsIndependentOfTies(rows: seq<Row>, other: seq<Row>)
    requires multiset(other) == multiset(rows)
    requires SortedByReturn(other)
    ensures ReturnsOf(Rank(rows)) == ReturnsOf(Take(other, TopCount))
  {
    var s := SortByReturn(rows);
    SortedPermutationsAgree(s, other);
    assert |s| == |multiset(rows)| == |other|;
    var m := Numbers.Min(TopCount, |s|);
    ReturnsPrefix(s, m);
    ReturnsPrefix(other, m);
  }

  lemma ReturnsPrefix(a: seq<Row>, m: nat)
    requires m <= |a|
    ensures ReturnsOf(a[..m]) == ReturnsOf(a)[..m]
  {
  }
}
