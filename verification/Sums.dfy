/** Sums over table rows. The recursion peels off the last row, because tables only grow at the end. */
module Sums {
  function Sum<T>(rows: seq<T>, amount: T -> int): int {
    if rows == [] then 0
    else Sum(rows[..|rows| - 1], amount) + amount(rows[|rows| - 1])
  }

  lemma {:induction false} SumOfConcat<T>(a: seq<T>, b: seq<T>, amount: T -> int)
    ensures Sum(a + b, amount) == Sum(a, amount) + Sum(b, amount)
  {
    if b == [] {
      assert a + b == a;
    } else {
      var n := |b| - 1;
      assert (a + b)[..|a + b| - 1] == a + b[..n];
      SumOfConcat(a, b[..n], amount);
    }
  }

  lemma {:induction false} SumOfEqualAmounts<T>(rows: seq<T>, f: T -> int, g: T -> int)
    requires forall row | row in rows :: f(row) == g(row)
    ensures Sum(rows, f) == Sum(rows, g)
  {
    if rows != [] {
      SumOfEqualAmounts(rows[..|rows| - 1], f, g);
    }
  }

  lemma {:induction false} SumOfZeros<T>(rows: seq<T>, amount: T -> int)
    requires forall row | row in rows :: amount(row) == 0
    ensures Sum(rows, amount) == 0
  {
    if rows != [] {
      SumOfZeros(rows[..|rows| - 1], amount);
    }
  }

  lemma {:induction false} SumOfDifference<T>(rows: seq<T>, f: T -> int, g: T -> int, h: T -> int)
    requires forall row | row in rows :: h(row) == f(row) - g(row)
    ensures Sum(rows, h) == Sum(rows, f) - Sum(rows, g)
  {
    if rows != [] {
      SumOfDifference(rows[..|rows| - 1], f, g, h);
    }
  }

  lemma {:induction false} SumOfAppended<T>(rows: seq<T>, row: T, amount: T -> int)
    ensures Sum(rows + [row], amount) == Sum(rows, amount) + amount(row)
  {}

  lemma SumOfPair<T>(a: T, b: T, amount: T -> int)
    ensures Sum([a, b], amount) == amount(a) + amount(b)
  {
    SumOfAppended([], a, amount);
    SumOfAppended([a], b, amount);
    assert [] + [a] == [a] && [a] + [b] == [a, b];
  }
}
