/** `mirrorFromNas`: the copy of a NAS transaction into the IFRS ledger. */
module Mirror {
  import opened Outcomes
  import opened Sums
  import opened Tables
  import opened Balance

  /** An active rule for `code` whose IFRS account exists. */
  predicate Applies(rule: Rule, accounts: seq<Account>, code: string) {
    rule.active && rule.source == code && Has(accounts, Ifrs, rule.target)
  }

  /** The target of the first rule that applies, in the order the rules are read. */
  function FirstTarget(rules: seq<Rule>, accounts: seq<Account>, code: string): (target: Option<string>)
    ensures target.None? <==> forall r | r in rules :: !Applies(r, accounts, code)
    ensures target.Some? ==> Has(accounts, Ifrs, target.value)
  {
    if rules == [] then None
    else
      var last := |rules| - 1;
      assert rules == rules[..last] + [rules[last]];
      var earlier := FirstTarget(rules[..last], accounts, code);
      if earlier.Some? then earlier
      else if Applies(rules[last], accounts, code) then Some(rules[last].target)
      else None
  }

  /** It is the first one: no rule before it applies. */
  lemma {:induction false} FirstTargetIsThatOfTheFirstRule(rules: seq<Rule>, accounts: seq<Account>, code: string)
    ensures FirstTarget(rules, accounts, code).Some? <==>
              exists r :: r in rules && r.active && r.source == code && Has(accounts, Ifrs, r.target)
    ensures FirstTarget(rules, accounts, code).Some? ==>
              exists k: nat :: k < |rules|
                && rules[k].active && rules[k].source == code && Has(accounts, Ifrs, rules[k].target)
                && rules[k].target == FirstTarget(rules, accounts, code).value
                && forall j | 0 <= j < k ::
                     !(rules[j].active && rules[j].source == code && Has(accounts, Ifrs, rules[j].target))
  {
    hide Has;
    if rules != [] {
      var last := |rules| - 1;
      FirstTargetIsThatOfTheFirstRule(rules[..last], accounts, code);
      if FirstTarget(rules[..last], accounts, code).Some? {
        var k: nat :| k < last && rules[..last][k].active && rules[..last][k].source == code
          && Has(accounts, Ifrs, rules[..last][k].target)
          && rules[..last][k].target == FirstTarget(rules[..last], accounts, code).value
          && forall j | 0 <= j < k ::
               !(rules[..last][j].active && rules[..last][j].source == code && Has(accounts, Ifrs, rules[..last][j].target));
        assert rules[k] == rules[..last][k] && forall j | 0 <= j < k :: rules[j] == rules[..last][j];
      } else {
        forall j | 0 <= j < last
          ensures !(rules[j].active && rules[j].source == code && Has(accounts, Ifrs, rules[j].target))
        {
          assert rules[j] in rules[..last];
        }
      }
    }
  }

  lemma FirstTargetStep(rules: seq<Rule>, accounts: seq<Account>, i: nat, code: string)
    requires i < |rules|
    ensures FirstTarget(rules[..i + 1], accounts, code)
            == if FirstTarget(rules[..i], accounts, code).Some? then FirstTarget(rules[..i], accounts, code)
               else if Applies(rules[i], accounts, code) then Some(rules[i].target) else None
  {
    assert rules[..i + 1][..i] == rules[..i];
  }

  /** The IFRS account a NAS code is copied to. A blank target is falsy, and so no target at all. */
  function Target(rules: seq<Rule>, accounts: seq<Account>, code: string): Option<nat> {
    match FirstTarget(rules, accounts, code)
    case None => None
    case Some(target) => if target == "" then None else Find(accounts, Ifrs, target)
  }

  predicate FullyMapped(rules: seq<Rule>, accounts: seq<Account>, lines: seq<Line>) {
    forall line | line in lines :: Target(rules, accounts, line.code).Some?
  }

  /** The IFRS copy of the lines, one for one and in order. */
  function Copies(rules: seq<Rule>, accounts: seq<Account>, t: nat, lines: seq<Line>): (copies: seq<Entry>)
    requires FullyMapped(rules, accounts, lines)
    ensures |copies| == |lines|
    ensures forall e | e in copies :: e.transaction == t && e.ledger == Ifrs
  {
    if lines == [] then []
    else
      var last := |lines| - 1;
      assert lines[last] in lines;
      Copies(rules, accounts, t, lines[..last])
      + [Entry(t, Target(rules, accounts, lines[last].code).value, lines[last].debit, lines[last].credit, Ifrs)]
  }

  lemma {:induction false} CopiesAt(rules: seq<Rule>, accounts: seq<Account>, t: nat, lines: seq<Line>, k: nat)
    requires FullyMapped(rules, accounts, lines) && k < |lines|
    ensures Target(rules, accounts, lines[k].code).Some?
    ensures Copies(rules, accounts, t, lines)[k]
            == Entry(t, Target(rules, accounts, lines[k].code).value, lines[k].debit, lines[k].credit, Ifrs)
  {
    assert lines[k] in lines;
    if k < |lines| - 1 {
      CopiesAt(rules, accounts, t, lines[..|lines| - 1], k);
    }
  }

  lemma CopiesStep(rules: seq<Rule>, accounts: seq<Account>, t: nat, lines: seq<Line>, i: nat)
    requires i < |lines| && FullyMapped(rules, accounts, lines[..i])
    requires Target(rules, accounts, lines[i].code).Some?
    ensures FullyMapped(rules, accounts, lines[..i + 1])
    ensures Copies(rules, accounts, t, lines[..i + 1])
            == Copies(rules, accounts, t, lines[..i])
               + [Entry(t, Target(rules, accounts, lines[i].code).value, lines[i].debit, lines[i].credit, Ifrs)]
  {
    assert lines[..i + 1] == lines[..i] + [lines[i]];
    assert lines[..i + 1][..i] == lines[..i];
  }

  /** All lines or none. */
  function MirrorEntries(rules: seq<Rule>, accounts: seq<Account>, t: nat, lines: seq<Line>): seq<Entry> {
    if FullyMapped(rules, accounts, lines) && Sum(lines, DebitOf()) == Sum(lines, CreditOf())
    then Copies(rules, accounts, t, lines)
    else []
  }

  /** For balanced lines the mirror is written exactly when every line has a rule that applies, and the
      first such rule does not name a blank code; without an IFRS account of blank code none can. */
  lemma MirrorIsWrittenExactlyWhenEveryLineIsMapped(
    rules: seq<Rule>, accounts: seq<Account>, t: nat, lines: seq<Line>)
    requires Balanced(lines)
    ensures var written := MirrorEntries(rules, accounts, t, lines);
            var mapped := forall line | line in lines ::
                            exists r :: r in rules && r.active && r.source == line.code && Has(accounts, Ifrs, r.target);
            && (written != [] <==>
                  mapped && forall line | line in lines :: FirstTarget(rules, accounts, line.code) != Some(""))
            && (!Has(accounts, Ifrs, "") ==> (written != [] <==> mapped))
            && (written != [] ==> |written| == |lines|)
  {
    hide Find;
    forall line | line in lines
      ensures FirstTarget(rules, accounts, line.code).Some? <==>
                exists r :: r in rules && r.active && r.source == line.code && Has(accounts, Ifrs, r.target)
      ensures Target(rules, accounts, line.code).Some? <==>
                FirstTarget(rules, accounts, line.code).Some? && FirstTarget(rules, accounts, line.code) != Some("")
    {}
  }

  /** Copy `k` has the amounts of line `k`, and stands on the IFRS account that the first active rule for its
      code with an existing IFRS account names. */
  lemma MirrorAt(rules: seq<Rule>, accounts: seq<Account>, t: nat, lines: seq<Line>, k: nat)
    requires k < |MirrorEntries(rules, accounts, t, lines)|
    ensures k < |lines|
    ensures var e := MirrorEntries(rules, accounts, t, lines)[k];
            && e.transaction == t && e.ledger == Ifrs && e.debit == lines[k].debit && e.credit == lines[k].credit
            && e.account < |accounts| && accounts[e.account].ledger == Ifrs
            && exists r: nat :: r < |rules|
                 && rules[r].active && rules[r].source == lines[k].code && rules[r].target == accounts[e.account].code
                 && forall j | 0 <= j < r ::
                      !(rules[j].active && rules[j].source == lines[k].code && Has(accounts, Ifrs, rules[j].target))
  {
    CopiesAt(rules, accounts, t, lines, k);
    FirstTargetIsThatOfTheFirstRule(rules, accounts, lines[k].code);
    hide Copies, FirstTarget;
  }

  /** A blank IFRS code breaks that: the rule applies, its account exists, and nothing is written. */
  lemma BlankTargetIsNotMirrored()
    ensures
      var accounts := [Account(Ifrs, "", Names("", "", ""), Asset, "AZN", None, false)];
      var rules := [Rule(true, "211", "")];
      && Applies(rules[0], accounts, "211")
      && MirrorEntries(rules, accounts, 0, [Line("211", 1, 0), Line("211", 0, 1)]) == []
  {}

  /** Copies carry the same amounts, so they balance when the lines do. */
  lemma {:induction false} CopiesKeepTotals(
    rules: seq<Rule>, accounts: seq<Account>, t: nat, lines: seq<Line>)
    requires FullyMapped(rules, accounts, lines)
    ensures Sum(Copies(rules, accounts, t, lines), NetOfTransaction(t, Ifrs))
            == Sum(lines, DebitOf()) - Sum(lines, CreditOf())
    ensures Sum(Copies(rules, accounts, t, lines), DebitOfTransaction(t, Ifrs)) == Sum(lines, DebitOf())
  {
    if lines != [] {
      var last := |lines| - 1;
      assert lines[last] in lines;
      CopiesKeepTotals(rules, accounts, t, lines[..last]);
      var copies := Copies(rules, accounts, t, lines);
      assert copies[..last] == Copies(rules, accounts, t, lines[..last]);
    }
  }

  /** So the mirror of balanced lines adds nothing to the net of either ledger, and no NAS debit. */
  lemma MirrorBalances(rules: seq<Rule>, accounts: seq<Account>, t: nat, lines: seq<Line>, ledger: LedgerType)
    ensures Sum(MirrorEntries(rules, accounts, t, lines), NetOfTransaction(t, ledger)) == 0
    ensures Sum(MirrorEntries(rules, accounts, t, lines), DebitOfTransaction(t, Nas)) == 0
  {
    var mirror := MirrorEntries(rules, accounts, t, lines);
    if mirror != [] {
      CopiesKeepTotals(rules, accounts, t, lines);
      SumOfZeros(mirror, DebitOfTransaction(t, Nas));
      if ledger == Nas {
        SumOfZeros(mirror, NetOfTransaction(t, Nas));
      }
    }
  }
}
