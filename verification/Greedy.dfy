/** Spreading an amount over open balances, oldest first, apart from any table. */
module Greedy {
  function Min(a: int, b: int): int { if a <= b then a else b }

  function Positive(x: int): int { if x > 0 then x else 0 }

  function Total(xs: seq<int>): int {
    if xs == [] then 0 else xs[0] + Total(xs[1..])
  }

  lemma TotalOfHeadAndTail(x: int, xs: seq<int>)
    ensures Total([x] + xs) == Total([x]) + Total(xs) == x + Total(xs)
  {}

  function PositiveTotal(xs: seq<int>): (total: int)
    ensures total >= 0
  {
    if xs == [] then 0 else Positive(xs[0]) + PositiveTotal(xs[1..])
  }

  function Share(open: int, left: int): (share: int) {
    if left <= 0 || open <= 0 then 0 else Min(open, left)
  }

  /** What each balance gets: everything it still needs while something is left. */
  function Spread(open: seq<int>, left: int): (shares: seq<int>)
    ensures |shares| == |open|
  {
    if open == [] then []
    else
      var share := Share(open[0], left);
      [share] + Spread(open[1..], left - share)
  }

  /** Balance `k` gets what reaches it past the earlier ones, capped at what it needs. */
  lemma {:induction false} ShareIsWhatReachesIt(open: seq<int>, left: int, k: nat)
    requires k < |open|
    ensures Spread(open, left)[k] == Min(Positive(open[k]), Positive(left - PositiveTotal(open[..k])))
  {
    if k > 0 {
      var share := Spread(open, left)[0];
      ShareIsWhatReachesIt(open[1..], left - share, k - 1);
      assert open[..k][1..] == open[1..][..k - 1];
    }
  }

  lemma {:induction false} SpreadTotal(open: seq<int>, left: int)
    ensures Total(Spread(open, left)) == Min(Positive(left), PositiveTotal(open))
  {
    if open != [] {
      SpreadTotal(open[1..], left - Spread(open, left)[0]);
    }
  }

  /** Once a balance is left open, every later one gets nothing. */
  lemma NothingPastAnOpenBalance(open: seq<int>, left: int, j: nat, k: nat)
    requires j < k < |open| && Spread(open, left)[j] < Positive(open[j])
    ensures Spread(open, left)[k] == 0
  {
    ShareIsWhatReachesIt(open, left, j);
    ShareIsWhatReachesIt(open, left, k);
    PositiveTotalGrows(open, j + 1, k);
    assert open[..j + 1] == open[..j] + [open[j]];
    PositiveTotalOfConcat(open[..j], [open[j]]);
  }

  lemma {:induction false} PositiveTotalOfConcat(a: seq<int>, b: seq<int>)
    ensures PositiveTotal(a + b) == PositiveTotal(a) + PositiveTotal(b)
  {
    if a == [] {
      assert a + b == b;
    } else {
      assert (a + b)[1..] == a[1..] + b;
      PositiveTotalOfConcat(a[1..], b);
    }
  }

  lemma PositiveTotalGrows(open: seq<int>, j: nat, k: nat)
    requires j <= k <= |open|
    ensures PositiveTotal(open[..j]) <= PositiveTotal(open[..k])
  {
    assert open[..k] == open[..j] + open[j..k];
    PositiveTotalOfConcat(open[..j], open[j..k]);
  }

  function Less(open: seq<int>, shares: seq<int>): (rest: seq<int>)
    requires |open| == |shares|
    ensures |rest| == |open|
  {
    if open == [] then [] else [open[0] - shares[0]] + Less(open[1..], shares[1..])
  }

  lemma ShareInTwo(open: int, a: int, b: int)
    requires a >= 0 && b >= 0
    ensures var x := Share(open, a);
            var y := Share(open - x, b);
            && Share(open, a + b) == x + y
            && 0 <= x <= a && 0 <= y <= b
  {}

  lemma SpreadStep(open: seq<int>, left: int)
    requires open != []
    ensures Spread(open, left)[0] == Share(open[0], left)
    ensures Spread(open, left)[1..] == Spread(open[1..], left - Share(open[0], left))
  {}

  lemma LessStep(open: seq<int>, shares: seq<int>)
    requires |open| == |shares| > 0
    ensures Less(open, shares)[0] == open[0] - shares[0]
    ensures Less(open, shares)[1..] == Less(open[1..], shares[1..])
  {}

  /** Spreading `a` and then `b` over what is left gives each balance what spreading `a + b` gives it. */
  lemma {:induction false} SpreadInTwo(open: seq<int>, a: int, b: int, k: nat)
    requires a >= 0 && b >= 0 && k < |open|
    ensures var rest := Less(open, Spread(open, a));
            Spread(open, a + b)[k] == Spread(open, a)[k] + Spread(rest, b)[k]
  {
    hide Spread, Less, Share;
    var rest := Less(open, Spread(open, a));
    var x, y := Share(open[0], a), Share(rest[0], b);
    SpreadStep(open, a);
    SpreadStep(open, a + b);
    LessStep(open, Spread(open, a));
    SpreadStep(rest, b);
    ShareInTwo(open[0], a, b);
    if k > 0 {
      SpreadInTwo(open[1..], a - x, b - y, k - 1);
      assert a + b - Share(open[0], a + b) == a - x + (b - y);
      assert Spread(open, a + b)[k] == Spread(open, a + b)[1..][k - 1];
      assert Spread(open, a)[k] == Spread(open, a)[1..][k - 1];
      assert Spread(rest, b)[k] == Spread(rest, b)[1..][k - 1];
    }
  }

  lemma {:induction false} NothingToSpread(open: seq<int>, left: int)
    requires left <= 0
    ensures Total(Spread(open, left)) == 0
    ensures forall k | 0 <= k < |open| :: Spread(open, left)[k] == 0
  {
    if open != [] {
      NothingToSpread(open[1..], left);
    }
  }

  /** What is shared out is exactly what is no longer open. */
  lemma {:induction false} SpreadClosesWhatItShares(open: seq<int>, left: int)
    ensures PositiveTotal(Less(open, Spread(open, left))) == PositiveTotal(open) - Total(Spread(open, left))
  {
    if open != [] {
      var share := Share(open[0], left);
      SpreadClosesWhatItShares(open[1..], left - share);
      assert Less(open, Spread(open, left))[1..] == Less(open[1..], Spread(open[1..], left - share));
    }
  }

  lemma {:induction false} LessAt(open: seq<int>, shares: seq<int>, k: nat)
    requires |open| == |shares| && k < |open|
    ensures Less(open, shares)[k] == open[k] - shares[k]
  {
    if k > 0 {
      LessAt(open[1..], shares[1..], k - 1);
    }
  }

  lemma ShareBounds(open: seq<int>, left: int, k: nat)
    requires k < |open|
    ensures 0 <= Spread(open, left)[k] <= Positive(open[k])
  {
    ShareIsWhatReachesIt(open, left, k);
  }
}
