/** `IfrsAutoMappingService`, statement by statement. */
module IfrsAutoMappingService {
  import opened Outcomes
  import opened Sums
  import opened Tables
  import opened Balance
  import opened Mirror
  import opened Database

  /** The map holds, for each NAS code, the target of the first rule that applies. */
  ghost predicate HoldsTargets(ruleBySource: map<string, string>, rules: seq<Rule>, accounts: seq<Account>) {
    && (forall source :: source in ruleBySource <==> FirstTarget(rules, accounts, source).Some?)
    && (forall source | source in ruleBySource :: FirstTarget(rules, accounts, source) == Some(ruleBySource[source]))
  }

  lemma HoldsTargetsStep(ruleBySource: map<string, string>, rules: seq<Rule>, accounts: seq<Account>, i: nat)
    requires i < |rules| && HoldsTargets(ruleBySource, rules[..i], accounts)
    ensures HoldsTargets(
              if Applies(rules[i], accounts, rules[i].source) && rules[i].source !in ruleBySource
              then ruleBySource[rules[i].source := rules[i].target] else ruleBySource,
              rules[..i + 1], accounts)
  {
    hide Has, FirstTarget;
    forall source {
      FirstTargetStep(rules, accounts, i, source);
    }
  }

  method RuleBySource(tx: Database, byCode: map<string, nat>) returns (ruleBySource: map<string, string>)
    requires forall code :: code in byCode <==> Has(tx.accounts, Ifrs, code)
    ensures HoldsTargets(ruleBySource, tx.rules, tx.accounts)
  {
    ruleBySource := map[];
    assert tx.rules[..0] == [];
    for i := 0 to |tx.rules|
      invariant HoldsTargets(ruleBySource, tx.rules[..i], tx.accounts)
    {
      hide HoldsTargets, Has;
      var rule := tx.rules[i];
      HoldsTargetsStep(ruleBySource, tx.rules, tx.accounts, i);
      if rule.active && rule.target in byCode {
        if rule.source !in ruleBySource {
          ruleBySource := ruleBySource[rule.source := rule.target];
        }
      }
    }
    assert tx.rules[..|tx.rules|] == tx.rules;
  }

  /** The IFRS copies of the lines, unless some line has no target. */
  method Stage(tx: Database, t: nat, nasLines: seq<Line>) returns (staged: Option<seq<Entry>>)
    requires UniqueCodes(tx.accounts)
    ensures staged.Some? <==> FullyMapped(tx.rules, tx.accounts, nasLines)
    ensures staged.Some? ==> staged.value == Copies(tx.rules, tx.accounts, t, nasLines)
  {
    var byCode := tx.AccountsByCode(Ifrs);
    var ruleBySource := RuleBySource(tx, byCode);
    var copies: seq<Entry> := [];
    for i := 0 to |nasLines|
      invariant FullyMapped(tx.rules, tx.accounts, nasLines[..i])
      invariant copies == Copies(tx.rules, tx.accounts, t, nasLines[..i])
    {
      var line := nasLines[i];
      if line.code !in ruleBySource || ruleBySource[line.code] == "" {
        assert Target(tx.rules, tx.accounts, line.code).None? && line in nasLines;
        return None;
      }
      if ruleBySource[line.code] !in byCode {
        assert false;
      }
      CopiesStep(tx.rules, tx.accounts, t, nasLines, i);
      copies := copies + [Entry(t, byCode[ruleBySource[line.code]], line.debit, line.credit, Ifrs)];
    }
    assert nasLines[..|nasLines|] == nasLines;
    staged := Some(copies);
  }

  /** `mirrorFromNas`: all lines are staged before the first one is written. */
  method MirrorFromNas(tx: Database, t: nat, nasLines: seq<Line>)
    requires UniqueCodes(tx.accounts)
    modifies tx`entries
    ensures tx.entries == old(tx.entries) + MirrorEntries(tx.rules, tx.accounts, t, nasLines)
  {
    hide Copies, Target, Find;
    assert tx.entries + [] == tx.entries;
    var staging := Stage(tx, t, nasLines);
    if staging.None? {
      return;
    }
    var staged := staging.value;
    assert |staged| == |nasLines|;
    var sumDr, sumCr := 0, 0;
    for i := 0 to |staged|
      invariant sumDr == Sum(nasLines[..i], DebitOf()) && sumCr == Sum(nasLines[..i], CreditOf())
      invariant tx.entries == old(tx.entries)
    {
      CopiesAt(tx.rules, tx.accounts, t, nasLines, i);
      assert nasLines[..i + 1][..i] == nasLines[..i];
      sumDr := sumDr + staged[i].debit;
      sumCr := sumCr + staged[i].credit;
    }
    assert nasLines[..|nasLines|] == nasLines;
    if sumDr != sumCr {
      return;
    }
    assert staged[..0] == [];
    for i := 0 to |staged|
      invariant tx.entries == old(tx.entries) + staged[..i]
    {
      assert staged[..i + 1] == staged[..i] + [staged[i]];
      tx.entries := tx.entries + [staged[i]];
    }
    assert staged[..|staged|] == staged;
  }
}
