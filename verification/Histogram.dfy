/** The 16-bucket histogram of the report: one pointer over the cumulative rows, one over the bucket bounds. */
module Histogram {
  import opened Arith

  const BUCKETS: nat := 16

  /** count draws had a value of at most value. */
  datatype Row = Row(value: int, count: int)

  lemma {:induction false} SumUpdate(s: seq<int>, i: nat, d: int)
    requires i < |s|
    ensures Sum(s[i := s[i] + d]) == Sum(s) + d
  {
    var n := |s| - 1;
    if i == n {
      assert s[i := s[i] + d][..n] == s[..n];
    } else {
      SumUpdate(s[..n], i, d);
      assert s[i := s[i] + d][..n] == s[..n][i := s[i] + d];
    }
  }

  ghost predicate NonDecreasing(s: seq<int>) {
    forall i, j :: 0 <= i <= j < |s| ==> s[i] <= s[j]
  }

  ghost predicate ValuesNonDecreasing(rows: seq<Row>) {
    forall i, j :: 0 <= i <= j < |rows| ==> rows[i].value <= rows[j].value
  }

  ghost predicate CountsNonDecreasing(rows: seq<Row>) {
    && (rows != [] ==> rows[0].count >= 0)
    && forall i, j :: 0 <= i <= j < |rows| ==> rows[i].count <= rows[j].count
  }

  /** The cumulative count of the last row, the total of the draws. */
  function LastCount(rows: seq<Row>): int {
    if rows == [] then 0 else rows[|rows| - 1].count
  }

  /** The cumulative count of the last row whose value is at most v. */
  function CountAt(rows: seq<Row>, v: int): int {
    if rows == [] then 0
    else if rows[|rows| - 1].value <= v then rows[|rows| - 1].count
    else CountAt(rows[..|rows| - 1], v)
  }

  /** It is 0 if no row has a value of at most v, and otherwise what the last such row says. */
  lemma {:induction false} CountAtIs(rows: seq<Row>, v: int)
    ensures (forall i :: 0 <= i < |rows| ==> rows[i].value > v) ==> CountAt(rows, v) == 0
    ensures forall i :: 0 <= i < |rows| && rows[i].value <= v && (forall j :: i < j < |rows| ==> rows[j].value > v)
              ==> CountAt(rows, v) == rows[i].count
  {
    if rows != [] && rows[|rows| - 1].value > v {
      CountAtIs(rows[..|rows| - 1], v);
    }
  }

  /** b is the first bucket whose bound v does not exceed; the last bucket takes the rest. */
  ghost predicate IsBucketOf(bounds: seq<int>, v: int, b: nat) {
    && b < |bounds|
    && (forall i :: 0 <= i < b ==> bounds[i] < v)
    && (b == |bounds| - 1 || v <= bounds[b])
  }

  /** Searches the buckets from the first for every row afresh. */
  function BucketOf(bounds: seq<int>, v: int): (b: nat)
    requires bounds != []
    ensures IsBucketOf(bounds, v, b)
  {
    if |bounds| == 1 || v <= bounds[0] then 0 else 1 + BucketOf(bounds[1..], v)
  }

  lemma BucketUnique(bounds: seq<int>, v: int, b: nat, c: nat)
    requires IsBucketOf(bounds, v, b) && IsBucketOf(bounds, v, c)
    ensures b == c
  {
  }

  /** The draws that belong to bucket b when every row is placed by its own search. */
  function Bucketed(rows: seq<Row>, bounds: seq<int>, b: nat): int
    requires bounds != []
  {
    if rows == [] then 0
    else
      var front, last := rows[..|rows| - 1], rows[|rows| - 1];
      Bucketed(front, bounds, b) + if BucketOf(bounds, last.value) == b then last.count - LastCount(front) else 0
  }

  /** The contents of buckets 0 to n - 1. */
  function BucketedBelow(rows: seq<Row>, bounds: seq<int>, n: nat): int
    requires bounds != []
  {
    if n == 0 then 0 else BucketedBelow(rows, bounds, n - 1) + Bucketed(rows, bounds, n - 1)
  }

  lemma {:induction false} BelowPush(rows: seq<Row>, row: Row, bounds: seq<int>, n: nat)
    requires bounds != []
    ensures BucketedBelow(rows + [row], bounds, n)
         == BucketedBelow(rows, bounds, n) + if BucketOf(bounds, row.value) < n then row.count - LastCount(rows) else 0
  {
    assert (rows + [row])[..|rows|] == rows;
    if n > 0 {
      BelowPush(rows, row, bounds, n - 1);
    }
  }

  lemma {:induction false} BelowEmpty(bounds: seq<int>, n: nat)
    requires bounds != []
    ensures BucketedBelow([], bounds, n) == 0
  {
    if n > 0 {
      BelowEmpty(bounds, n - 1);
    }
  }

  /** Buckets 0 to i hold exactly the draws up to bound i; all the buckets hold all the draws. */
  lemma {:induction false} BelowIs(rows: seq<Row>, bounds: seq<int>, n: nat)
    requires 0 < n <= |bounds| && NonDecreasing(bounds) && ValuesNonDecreasing(rows)
    ensures BucketedBelow(rows, bounds, n)
         == if n == |bounds| then LastCount(rows) else CountAt(rows, bounds[n - 1])
  {
    if rows == [] {
      BelowEmpty(bounds, n);
    } else {
      var front, last := rows[..|rows| - 1], rows[|rows| - 1];
      assert rows == front + [last];
      BelowIs(front, bounds, n);
      BelowPush(front, last, bounds, n);
      if n < |bounds| && last.value <= bounds[n - 1] {
        AllFit(front, bounds[n - 1]);
      }
    }
  }

  lemma AllFit(rows: seq<Row>, v: int)
    requires forall i :: 0 <= i < |rows| ==> rows[i].value <= v
    ensures CountAt(rows, v) == LastCount(rows)
  {
  }

  lemma {:induction false} BucketedNonNegative(rows: seq<Row>, bounds: seq<int>, b: nat)
    requires bounds != [] && CountsNonDecreasing(rows)
    ensures Bucketed(rows, bounds, b) >= 0
  {
    if rows != [] {
      BucketedNonNegative(rows[..|rows| - 1], bounds, b);
    }
  }

  lemma {:induction false} SumIsBelow(counts: seq<int>, rows: seq<Row>, bounds: seq<int>)
    requires bounds != []
    requires forall b :: 0 <= b < |counts| ==> counts[b] == Bucketed(rows, bounds, b)
    ensures Sum(counts) == BucketedBelow(rows, bounds, |counts|)
  {
    if counts != [] {
      SumIsBelow(counts[..|counts| - 1], rows, bounds);
    }
  }

  ghost predicate AllBelow(bounds: seq<int>, v: int) {
    forall i :: 0 <= i < |bounds| ==> bounds[i] < v
  }

  /** Fills the buckets.  quantiles[i] is the histogram's value at the (i + 1)/16 quantile, cdf its cumulative rows. */
  method HistBuckets(total: int, quantiles: seq<int>, cdf: seq<Row>) returns (bounds: array<int>, counts: array<int>)
    requires |quantiles| == BUCKETS
    ensures total == 0 ==> bounds.Length == counts.Length == 0
    ensures total != 0 ==> bounds[..] == quantiles && counts.Length == BUCKETS && Sum(counts[..]) == LastCount(cdf)
    ensures total != 0 && ValuesNonDecreasing(cdf) ==>
              forall b :: 0 <= b < BUCKETS ==> counts[b] == Bucketed(cdf, quantiles, b)
  {
    if total == 0 {
      bounds, counts := new int[0], new int[0];
      return;
    }
    bounds := new int[BUCKETS];
    counts := new int[BUCKETS](_ => 0);
    for i := 0 to BUCKETS
      invariant bounds[..i] == quantiles[..i]
      invariant forall b :: 0 <= b < BUCKETS ==> counts[b] == 0
    {
      bounds[i] := quantiles[i];
    }
    CountRows(bounds, counts, cdf);
  }

  /** Walks the rows, adding each row's draws to the bucket its value fits; the bucket pointer never goes back. */
  method CountRows(bounds: array<int>, counts: array<int>, cdf: seq<Row>)
    requires bounds != counts && bounds.Length == counts.Length == BUCKETS
    requires forall b :: 0 <= b < BUCKETS ==> counts[b] == 0
    modifies counts
    ensures Sum(counts[..]) == LastCount(cdf)
    ensures ValuesNonDecreasing(cdf) ==>
              forall b :: 0 <= b < BUCKETS ==> counts[b] == Bucketed(cdf, bounds[..], b)
  {
    hide Sum, Bucketed, ValuesNonDecreasing;
    SumZeros(counts[..]);
    BucketedNothing(bounds[..]);
    var prevCount, bi := 0, 0;
    for r := 0 to |cdf|
      invariant prevCount == LastCount(cdf[..r]) == Sum(counts[..])
      invariant 0 <= bi < BUCKETS && (r == 0 ==> bi == 0)
      invariant ValuesNonDecreasing(cdf) && r > 0 ==> AllBelow(bounds[..bi], cdf[r - 1].value)
      invariant ValuesNonDecreasing(cdf) ==>
                  forall b :: 0 <= b < BUCKETS ==> counts[b] == Bucketed(cdf[..r], bounds[..], b)
    {
      var row := cdf[r];
      var delta := row.count - prevCount;
      prevCount := row.count;
      if ValuesNonDecreasing(cdf) && r > 0 {
        Adjacent(cdf, r);
      }
      while bi < BUCKETS - 1 && row.value > bounds[bi]
        invariant 0 <= bi < BUCKETS
        invariant ValuesNonDecreasing(cdf) ==> AllBelow(bounds[..bi], row.value)
        decreases BUCKETS - bi
      {
        bi := bi + 1;
      }
      ghost var before := counts[..];
      SumUpdate(before, bi, delta);
      counts[bi] := counts[bi] + delta;
      assert counts[..] == before[bi := before[bi] + delta];
      assert cdf[..r + 1] == cdf[..r] + [row];
      if ValuesNonDecreasing(cdf) {
        BucketUnique(bounds[..], row.value, bi, BucketOf(bounds[..], row.value));
        BucketedPush(cdf[..r], row, bounds[..]);
      }
    }
    assert cdf[..|cdf|] == cdf;
  }

  lemma Adjacent(rows: seq<Row>, r: nat)
    requires ValuesNonDecreasing(rows) && 0 < r < |rows|
    ensures rows[r - 1].value <= rows[r].value
  {
  }

  lemma BucketedNothing(bounds: seq<int>)
    requires bounds != []
    ensures forall b :: Bucketed([], bounds, b) == 0
  {
  }

  lemma BucketedPush(rows: seq<Row>, row: Row, bounds: seq<int>)
    requires bounds != []
    ensures forall b :: Bucketed(rows + [row], bounds, b)
                     == Bucketed(rows, bounds, b) + if BucketOf(bounds, row.value) == b then row.count - LastCount(rows) else 0
  {
  }

  lemma {:induction false} SumZeros(s: seq<int>)
    requires forall i :: 0 <= i < |s| ==> s[i] == 0
    ensures Sum(s) == 0
  {
    if s != [] {
      SumZeros(s[..|s| - 1]);
    }
  }

  /** The first i + 1 buckets together hold the cumulative count of the last row within bound i, no bucket is negative,
      and the total is conserved. */
  method Report(total: int, quantiles: seq<int>, cdf: seq<Row>) returns (bounds: array<int>, counts: array<int>)
    requires |quantiles| == BUCKETS && total != 0
    requires NonDecreasing(quantiles) && ValuesNonDecreasing(cdf) && CountsNonDecreasing(cdf)
    ensures counts.Length == BUCKETS && Sum(counts[..]) == LastCount(cdf)
    ensures forall i :: 0 <= i < BUCKETS - 1 ==> Sum(counts[..i + 1]) == CountAt(cdf, quantiles[i])
    ensures forall i :: 0 <= i < BUCKETS ==> counts[i] >= 0
  {
    bounds, counts := HistBuckets(total, quantiles, cdf);
    forall i | 0 <= i < BUCKETS - 1 ensures Sum(counts[..i + 1]) == CountAt(cdf, quantiles[i]) {
      SumIsBelow(counts[..i + 1], cdf, quantiles);
      BelowIs(cdf, quantiles, i + 1);
    }
    forall i | 0 <= i < BUCKETS ensures counts[i] >= 0 {
      BucketedNonNegative(cdf, quantiles, i);
    }
  }
}
