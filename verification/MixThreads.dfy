/** How the mix workload divides its threads among its children by weight. */
module MixThreads {
  import opened Wrappers
  import opened Arith

  /** The threads of a child of weight w among children of total weight total. */
  function Share(threads: int, w: int, total: int): (share: int)
    requires total > 0
    ensures share >= 1
  {
    var t := TruncDiv(threads * w, total);
    if t < 1 then 1 else t
  }

  function Shares(threads: int, weights: seq<int>, total: int): (shares: seq<int>)
    requires total > 0
    ensures |shares| == |weights|
  {
    if weights == [] then []
    else
      var n := |weights| - 1;
      Shares(threads, weights[..n], total) + [Share(threads, weights[n], total)]
  }

  lemma {:induction false} ShareAt(threads: int, weights: seq<int>, total: int, i: nat)
    requires total > 0 && i < |weights|
    ensures Shares(threads, weights, total)[i] == Share(threads, weights[i], total)
  {
    if i < |weights| - 1 {
      ShareAt(threads, weights[..|weights| - 1], total, i);
    }
  }

  /** What each child gets: its proportional part, truncated, but at least one thread. */
  lemma AllocatedShare(threads: int, weights: seq<int>, total: int, i: nat)
    requires total > 0 && i < |weights|
    ensures var s, part := Shares(threads, weights, total)[i], threads * weights[i];
            if part < total then s == 1 else s * total <= part < (s + 1) * total
  {
    hide TruncDiv, Shares;
    ShareAt(threads, weights, total, i);
    var part := threads * weights[i];
    var q := TruncDiv(part, total);
    TruncDivIs(part, total);
    if part >= total && q < 1 {
      TimesGap(q, 1, total);
    }
    if part < total && q > 1 {
      TimesGap(1, q, total);
    }
  }

  /** Every child gets its share, in order; weights that do not sum to a positive number are an error. */
  method Allocate(threads: int, weights: seq<int>) returns (r: Result<seq<int>, string>)
    ensures r.Err? <==> Sum(weights) <= 0
    ensures r.Ok? ==> r.value == Shares(threads, weights, Sum(weights))
  {
    var total := 0;
    for i := 0 to |weights|
      invariant total == Sum(weights[..i])
    {
      total := total + weights[i];
      assert weights[..i + 1][..i] == weights[..i];
    }
    assert weights[..|weights|] == weights;
    if total <= 0 {
      return Err("total weight must be >0");
    }
    var shares := [];
    for i := 0 to |weights|
      invariant shares == Shares(threads, weights[..i], total)
    {
      var t := TruncDiv(threads * weights[i], total);
      if t < 1 {
        t := 1;
      }
      shares := shares + [t];
      assert weights[..i + 1][..i] == weights[..i];
    }
    return Ok(shares);
  }

  /** A heavier child never gets fewer threads. */
  lemma ShareMonotone(threads: int, v: int, w: int, total: int)
    requires total > 0 && threads >= 0 && v <= w
    ensures Share(threads, v, total) <= Share(threads, w, total)
  {
    assert threads * v <= threads * w by {
      assert threads * (w - v) >= 0;
    }
    TruncDivMonotone(threads * v, threads * w, total);
  }

  lemma TruncDivMonotone(a: int, b: int, d: int)
    requires d > 0 && a <= b
    ensures TruncDiv(a, d) <= TruncDiv(b, d)
  {
    if a >= 0 {
      DivMonotone(a, b, d);
    } else if b < 0 {
      DivMonotone(-b, -a, d);
    } else {
      DivUnique(0, d, 0, 0);
      DivMonotone(0, b, d);
      DivMonotone(0, -a, d);
    }
  }

  lemma DivMonotone(a: int, b: int, d: int)
    requires d > 0 && a <= b
    ensures a / d <= b / d
  {
    if b / d < a / d {
      TimesGap(b / d, a / d, d);
    }
  }

  // ----- how far the shares are from summing to the threads -----

  ghost predicate AllPositive(weights: seq<int>) {
    forall i :: 0 <= i < |weights| ==> weights[i] >= 1
  }

  /** What truncation loses, in units of 1/total of a thread. */
  function Remainders(threads: nat, weights: seq<int>, total: int): int
    requires total > 0
  {
    if weights == [] then 0
    else
      var n := |weights| - 1;
      Remainders(threads, weights[..n], total) + threads * weights[n] % total
  }

  /** The children whose proportional share is below one thread. */
  function Starved(threads: nat, weights: seq<int>, total: int): nat {
    if weights == [] then 0
    else
      var n := |weights| - 1;
      Starved(threads, weights[..n], total) + if threads * weights[n] < total then 1 else 0
  }

  lemma ShareIs(threads: nat, w: int, total: int)
    requires total > 0 && w >= 0
    ensures total * Share(threads, w, total)
         == threads * w - threads * w % total + if threads * w < total then total else 0
  {
    var a := threads * w;
    if a < total {
      DivUnique(a, total, 0, a);
    } else {
      assert a / total >= 1 by {
        DivMonotone(total, a, total);
        DivUnique(total, total, 1, 0);
      }
    }
  }

  lemma {:induction false} Account(threads: nat, weights: seq<int>, total: int)
    requires total > 0 && AllPositive(weights)
    ensures total * Sum(Shares(threads, weights, total))
         == threads * Sum(weights) + total * Starved(threads, weights, total) - Remainders(threads, weights, total)
  {
    if weights != [] {
      var n := |weights| - 1;
      var front, w := weights[..n], weights[n];
      Account(threads, front, total);
      ShareIs(threads, w, total);
      var shares := Shares(threads, front, total);
      assert Shares(threads, weights, total)[..n] == shares;
      var share, starved := Share(threads, w, total), if threads * w < total then 1 else 0;
      hide Share;
      Distribute(total, Sum(shares), share);
      Distribute(threads, Sum(front), w);
      Distribute(total, Starved(threads, front, total), starved);
    }
  }

  lemma Distribute(a: int, b: int, c: int)
    ensures a * (b + c) == a * b + a * c
  {
  }

  /** The exact surplus: one thread for every starved child, less what truncation loses. */
  lemma Surplus(threads: nat, weights: seq<int>)
    requires AllPositive(weights) && Sum(weights) > 0
    ensures Sum(weights) * (Sum(Shares(threads, weights, Sum(weights))) - threads)
         == Sum(weights) * Starved(threads, weights, Sum(weights)) - Remainders(threads, weights, Sum(weights))
  {
    var total := Sum(weights);
    Account(threads, weights, total);
    hide Shares, Sum, Starved, Remainders;
    Distribute(total, Sum(Shares(threads, weights, total)), 0 - threads);
  }

  lemma {:induction false} RemaindersBound(threads: nat, weights: seq<int>, total: int)
    requires total > 0
    ensures 0 <= Remainders(threads, weights, total) <= |weights| * (total - 1)
  {
    if weights != [] {
      var n := |weights| - 1;
      RemaindersBound(threads, weights[..n], total);
      Distribute(total - 1, n, 1);
    }
  }

  lemma {:induction false} StarvedBound(threads: nat, weights: seq<int>, total: int)
    requires total > 0
    ensures Starved(threads, weights, total) <= |weights|
    ensures Starved(threads, weights, total) == |weights| ==> Sum(Shares(threads, weights, total)) == |weights|
  {
    if weights != [] {
      var n := |weights| - 1;
      StarvedBound(threads, weights[..n], total);
      assert Shares(threads, weights, total)[..n] == Shares(threads, weights[..n], total);
      if threads * weights[n] < total {
        StarvedShare(threads, weights[n], total);
      }
    }
  }

  lemma StarvedShare(threads: nat, w: int, total: int)
    requires total > 0 && threads * w < total
    ensures Share(threads, w, total) == 1
  {
    var a := threads * w;
    if a >= 0 {
      DivUnique(a, total, 0, a);
    }
  }

  lemma {:induction false} SumPositive(weights: seq<int>)
    requires AllPositive(weights)
    ensures Sum(weights) >= |weights|
  {
    if weights != [] {
      SumPositive(weights[..|weights| - 1]);
    }
  }

  /** For k children of positive weight the shares sum to within k - 1 of the threads. */
  lemma WithinChildren(threads: nat, weights: seq<int>)
    requires threads >= 1 && weights != [] && AllPositive(weights)
    ensures Sum(weights) > 0
    ensures -(|weights| - 1) <= Sum(Shares(threads, weights, Sum(weights))) - threads <= |weights| - 1
  {
    SumPositive(weights);
    var total, k := Sum(weights), |weights|;
    Surplus(threads, weights);
    RemaindersBound(threads, weights, total);
    StarvedBound(threads, weights, total);
    var d, z := Sum(Shares(threads, weights, total)) - threads, Starved(threads, weights, total);
    hide Shares, Sum, Starved, Remainders;
    Squeeze(total, k, d, z, Remainders(threads, weights, total));
  }

  lemma Squeeze(total: int, k: int, d: int, z: int, r: int)
    requires total > 0 && k > 0 && z >= 0 && total * d == total * z - r && 0 <= r <= k * (total - 1)
    ensures -k < d && d <= z
  {
    assert k * (total - 1) == k * total - k;
    assert total * z >= 0 && (-k + 1) * total == -(k * total) + total;
    if d <= -k {
      TimesGap(d, -k + 1, total);
    }
    if d > z {
      TimesGap(z, d, total);
    }
  }

  /** The shares sum to exactly the threads if and only if the threads truncation loses are those given to starved children. */
  lemma ExactIff(threads: nat, weights: seq<int>)
    requires weights != [] && AllPositive(weights)
    ensures Sum(weights) > 0
    ensures Sum(Shares(threads, weights, Sum(weights))) == threads
       <==> Remainders(threads, weights, Sum(weights)) == Sum(weights) * Starved(threads, weights, Sum(weights))
  {
    SumPositive(weights);
    Surplus(threads, weights);
    var total := Sum(weights);
    var d := Sum(Shares(threads, weights, total)) - threads;
    hide Shares, Sum, Starved, Remainders;
    if total * d == 0 && d != 0 {
      if d > 0 {
        TimesGap(0, d, total);
      } else {
        TimesGap(d, 0, total);
      }
    }
  }

  /** Every proportional share is a whole number of threads, at least one. */
  ghost predicate WholeShares(threads: nat, weights: seq<int>, total: int)
    requires total > 0
  {
    forall i :: 0 <= i < |weights| ==> WholeShare(threads, weights[i], total)
  }

  ghost predicate WholeShare(threads: nat, w: int, total: int)
    requires total > 0
  {
    threads * w % total == 0 && threads * w >= total
  }

  lemma {:induction false} WholeLosesNothing(threads: nat, weights: seq<int>, total: int)
    requires total > 0 && WholeShares(threads, weights, total)
    ensures Remainders(threads, weights, total) == 0 && Starved(threads, weights, total) == 0
  {
    if weights != [] {
      assert WholeShare(threads, weights[|weights| - 1], total);
      WholeLosesNothing(threads, weights[..|weights| - 1], total);
    }
  }

  /** When all proportional shares are whole, the shares sum to the threads. */
  lemma WholeSharesExact(threads: nat, weights: seq<int>)
    requires weights != [] && AllPositive(weights)
    requires Sum(weights) > 0 && WholeShares(threads, weights, Sum(weights))
    ensures Sum(Shares(threads, weights, Sum(weights))) == threads
  {
    WholeLosesNothing(threads, weights, Sum(weights));
    ExactIff(threads, weights);
  }

  // ----- the package comment: sum(threads * weight) == env.Threads -----

  /** sum(threads * weight) over the children. */
  function Weighted(shares: seq<int>, weights: seq<int>): int
    requires |shares| == |weights|
  {
    if weights == [] then 0
    else
      var n := |weights| - 1;
      Weighted(shares[..n], weights[..n]) + shares[n] * weights[n]
  }

  function Squares(weights: seq<int>): int {
    if weights == [] then 0
    else
      var n := |weights| - 1;
      Squares(weights[..n]) + weights[n] * weights[n]
  }

  /** The weight of the starved children. */
  function StarvedWeight(threads: nat, weights: seq<int>, total: int): int {
    if weights == [] then 0
    else
      var n := |weights| - 1;
      StarvedWeight(threads, weights[..n], total) + if threads * weights[n] < total then weights[n] else 0
  }

  /** What truncation loses, each child's loss counted as often as its weight. */
  function WeightedRemainders(threads: nat, weights: seq<int>, total: int): int
    requires total > 0
  {
    if weights == [] then 0
    else
      var n := |weights| - 1;
      WeightedRemainders(threads, weights[..n], total) + weights[n] * (threads * weights[n] % total)
  }

  lemma WeightedShareIs(threads: nat, w: int, total: int)
    requires total > 0 && w >= 0
    ensures total * (Share(threads, w, total) * w)
         == threads * (w * w) - w * (threads * w % total) + total * if threads * w < total then w else 0
  {
    ShareIs(threads, w, total);
    var t, r, extra := Share(threads, w, total), threads * w % total, if threads * w < total then total else 0;
    hide Share;
    TimesAssociates(total, t, w);
    TimesAssociates(threads, w, w);
    assert (threads * w - r + extra) * w == threads * w * w - r * w + extra * w;
  }

  lemma {:induction false} WeightedAccount(threads: nat, weights: seq<int>, total: int)
    requires total > 0 && AllPositive(weights)
    ensures total * Weighted(Shares(threads, weights, total), weights)
         == threads * Squares(weights) + total * StarvedWeight(threads, weights, total)
            - WeightedRemainders(threads, weights, total)
  {
    if weights != [] {
      var n := |weights| - 1;
      var front, w := weights[..n], weights[n];
      WeightedAccount(threads, front, total);
      WeightedShareIs(threads, w, total);
      var shares := Shares(threads, front, total);
      assert Shares(threads, weights, total)[..n] == shares;
      var share, starved := Share(threads, w, total), if threads * w < total then w else 0;
      hide Share;
      Distribute(total, Weighted(shares, front), share * w);
      Distribute(threads, Squares(front), w * w);
      Distribute(total, StarvedWeight(threads, front, total), starved);
    }
  }

  /** The equation of the package comment holds if and only if this balance of the weights does:
      what the squared weights and the starved children add is what the threads and truncation take. */
  lemma CommentHoldsIff(threads: nat, weights: seq<int>)
    requires weights != [] && AllPositive(weights)
    ensures Sum(weights) > 0
    ensures var total := Sum(weights);
            (Weighted(Shares(threads, weights, total), weights) == threads <==>
             threads * Squares(weights) + total * StarvedWeight(threads, weights, total)
               == total * threads + WeightedRemainders(threads, weights, total))
  {
    SumPositive(weights);
    var total := Sum(weights);
    WeightedAccount(threads, weights, total);
    var d := Weighted(Shares(threads, weights, total), weights);
    hide Weighted, Shares, Sum, Squares, StarvedWeight, WeightedRemainders;
    Cancel(total, d, threads);
  }

  lemma ScaledBound(w: nat, r: int, m: int)
    requires 0 <= r <= m
    ensures 0 <= w * r <= m * w
  {
    ProductNonNegative(w, r);
    ProductNonNegative(w, m - r);
    Distribute(w, r, m - r);
  }

  lemma {:induction false} WeightedRemaindersBound(threads: nat, weights: seq<int>, total: int)
    requires total > 0 && AllPositive(weights)
    ensures 0 <= WeightedRemainders(threads, weights, total) <= (total - 1) * Sum(weights)
    ensures StarvedWeight(threads, weights, total) >= 0
  {
    if weights != [] {
      var n := |weights| - 1;
      var front, w, r := weights[..n], weights[n], threads * weights[n] % total;
      WeightedRemaindersBound(threads, front, total);
      ScaledBound(w, r, total - 1);
      Distribute(total - 1, Sum(front), w);
    }
  }

  /** Whatever truncation does, the equation fails once the squared weights outweigh it. */
  lemma CommentFailsWhen(threads: nat, weights: seq<int>)
    requires weights != [] && AllPositive(weights)
    requires threads * (Squares(weights) - Sum(weights)) > Sum(weights) * (Sum(weights) - 1)
    ensures Sum(weights) > 0 && Weighted(Shares(threads, weights, Sum(weights)), weights) != threads
  {
    CommentHoldsIff(threads, weights);
    var total := Sum(weights);
    WeightedRemaindersBound(threads, weights, total);
    hide Weighted, Shares, Sum, Squares, StarvedWeight, WeightedRemainders;
    OutOfBalance(threads, Squares(weights), total, StarvedWeight(threads, weights, total),
                 WeightedRemainders(threads, weights, total));
  }

  lemma OutOfBalance(threads: nat, squares: int, total: nat, starved: nat, lost: int)
    requires threads * (squares - total) > total * (total - 1) && lost <= (total - 1) * total
    ensures threads * squares + total * starved != total * threads + lost
  {
    Distribute(threads, squares - total, total);
    ProductNonNegative(total, starved);
  }

  lemma {:induction false} SquaresAtLeast(weights: seq<int>)
    requires AllPositive(weights)
    ensures Squares(weights) >= Sum(weights)
    ensures Squares(weights) == Sum(weights) <==> AllOnes(weights)
  {
    if weights != [] {
      var n := |weights| - 1;
      assert weights == weights[..n] + [weights[n]];
      SquaresAtLeast(weights[..n]);
      WeightGrows(weights[n]);
    }
  }

  ghost predicate AllOnes(weights: seq<int>) {
    forall i :: 0 <= i < |weights| ==> weights[i] == 1
  }

  lemma WeightGrows(w: int)
    requires w >= 1
    ensures w * w >= w && (w * w == w <==> w == 1)
  {
    assert w * w == w + w * (w - 1);
  }

  lemma {:induction false} WholeLosesNoWeight(threads: nat, weights: seq<int>, total: int)
    requires total > 0 && WholeShares(threads, weights, total)
    ensures WeightedRemainders(threads, weights, total) == 0 && StarvedWeight(threads, weights, total) == 0
  {
    if weights != [] {
      assert WholeShare(threads, weights[|weights| - 1], total);
      WholeLosesNoWeight(threads, weights[..|weights| - 1], total);
    }
  }

  /** When all proportional shares are whole, the equation holds exactly if every weight is 1. */
  lemma CommentHoldsForWholeShares(threads: nat, weights: seq<int>)
    requires weights != [] && AllPositive(weights)
    requires Sum(weights) > 0 && WholeShares(threads, weights, Sum(weights))
    ensures Weighted(Shares(threads, weights, Sum(weights)), weights) == threads <==> AllOnes(weights)
  {
    var total := Sum(weights);
    CommentHoldsIff(threads, weights);
    WholeLosesNoWeight(threads, weights, total);
    SquaresAtLeast(weights);
    assert WholeShare(threads, weights[0], total);
    hide Weighted, Shares, Sum, Squares, StarvedWeight, WeightedRemainders, AllOnes;
    Cancel(threads, Squares(weights), total);
  }

  lemma Cancel(t: int, a: int, b: int)
    requires t > 0
    ensures t * a == b * t <==> a == b
  {
    if a < b {
      TimesGap(a, b, t);
    } else if b < a {
      TimesGap(b, a, t);
    }
  }

  /** Four threads and two children of weight 2: each child gets two threads, and the equation gives 8. */
  lemma CommentFails()
    ensures Sum([2, 2]) == 4 && Shares(4, [2, 2], 4) == [2, 2]
    ensures Weighted(Shares(4, [2, 2], 4), [2, 2]) == 8
  {
    assert [2, 2][..1] == [2] && [2][..0] == [];
    assert Share(4, 2, 4) == 2;
    assert Shares(4, [2], 4) == [2];
  }
}
