/** `validateBalance`: what makes a list of lines postable. */
module Balance {
  import opened Outcomes
  import opened Sums
  import opened Tables

  function DebitOf(): Line -> int { (l: Line) => l.debit }

  function CreditOf(): Line -> int { (l: Line) => l.credit }

  predicate BothSides(line: Line) { line.debit > 0 && line.credit > 0 }

  ghost predicate Balanced(lines: seq<Line>) {
    && lines != []
    && (forall line | line in lines :: !BothSides(line))
    && Sum(lines, DebitOf()) == Sum(lines, CreditOf()) > 0
  }

  /** The first thing `validateBalance` complains about. */
  function BalanceError(lines: seq<Line>): (error: Option<Error>)
    ensures error.None? <==> Balanced(lines)
  {
    if lines == [] then Some(LinesRequired)
    else
      match FirstBothSides(lines)
      case Some(code) => Some(BothSidesSet(code))
      case None =>
        if Sum(lines, DebitOf()) != Sum(lines, CreditOf()) || Sum(lines, DebitOf()) <= 0
        then Some(Unbalanced)
        else None
  }

  function FirstBothSides(lines: seq<Line>): (code: Option<string>)
    ensures code.None? <==> forall line | line in lines :: !BothSides(line)
    ensures code.Some? ==>
              exists k: nat :: k < |lines| && BothSides(lines[k]) && lines[k].code == code.value
                && forall j | 0 <= j < k :: !BothSides(lines[j])
  {
    if lines == [] then None
    else
      var last := |lines| - 1;
      assert lines == lines[..last] + [lines[last]];
      var earlier := FirstBothSides(lines[..last]);
      if earlier.Some? then earlier
      else if BothSides(lines[last]) then Some(lines[last].code)
      else None
  }

  lemma FirstBothSidesOfPrefix(lines: seq<Line>, n: nat)
    requires n <= |lines| && FirstBothSides(lines[..n]).Some?
    ensures FirstBothSides(lines) == FirstBothSides(lines[..n])
    decreases |lines|
  {
    if n == |lines| {
      assert lines[..n] == lines;
    } else {
      assert lines[..|lines| - 1][..n] == lines[..n];
      FirstBothSidesOfPrefix(lines[..|lines| - 1], n);
    }
  }

  method ValidateBalance(lines: seq<Line>) returns (error: Option<Error>)
    ensures error == BalanceError(lines)
    ensures error.None? <==> Balanced(lines)
  {
    if |lines| == 0 {
      return Some(LinesRequired);
    }
    var sumDr, sumCr := 0, 0;
    for i := 0 to |lines|
      invariant sumDr == Sum(lines[..i], DebitOf()) && sumCr == Sum(lines[..i], CreditOf())
      invariant FirstBothSides(lines[..i]).None?
    {
      var line := lines[i];
      assert lines[..i + 1] == lines[..i] + [line];
      assert lines[..i + 1][..i] == lines[..i];
      if line.debit > 0 && line.credit > 0 {
        FirstBothSidesOfPrefix(lines, i + 1);
        return Some(BothSidesSet(line.code));
      }
      sumDr := sumDr + line.debit;
      sumCr := sumCr + line.credit;
    }
    assert lines[..|lines|] == lines;
    if sumDr != sumCr || sumDr <= 0 {
      return Some(Unbalanced);
    }
    error := None;
  }
}
