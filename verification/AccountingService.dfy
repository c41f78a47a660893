/** `AccountingService`: posting, statement by statement. */
module AccountingService {
  import opened Outcomes
  import opened Tables
  import opened Balance
  import opened Chart
  import opened Mirror
  import opened Posting
  import opened Database
  import IfrsAutoMappingService

  /** Creates `code` and its missing ancestors. On success the shared `stack` is what it was before the call. */
  method EnsureNasAccountExists(tx: Database, code: string, stack: set<string>)
    returns (error: Option<Error>, unwound: set<string>)
    modifies tx`accounts
    ensures error.None? ==> Ensure(old(tx.accounts), tx.chart, code, stack) == Ok(tx.accounts) && unwound == stack
    ensures error.Some? ==> Ensure(old(tx.accounts), tx.chart, code, stack) == Err(error.value)
    decreases Known(tx.chart) - stack
  {
    if Find(tx.accounts, Nas, code).Some? {
      return None, stack;
    }
    if code in stack {
      return Some(CircularChain(code)), stack;
    }
    var pushed := stack + {code};
    if code in tx.chart {
      var entry := tx.chart[code];
      var parent := None;
      if entry.parentCode != "" {
        var failure, back := EnsureNasAccountExists(tx, entry.parentCode, pushed);
        if failure.Some? {
          return failure, back;
        }
        parent := Find(tx.accounts, Nas, entry.parentCode);
      }
      tx.accounts := tx.accounts + [Account(Nas, code, entry.names, entry.kind, "AZN", parent, true)];
      return None, pushed - {code};
    }
    if code != FALLBACK_CODE {
      return Some(AccountNotFound(code)), pushed - {code};
    }
    var failure, back := EnsureNasAccountExists(tx, FALLBACK.parent, pushed);
    if failure.Some? {
      return failure, back;
    }
    var parent := Find(tx.accounts, Nas, FALLBACK.parent);
    if parent.None? {
      EnsureGrowsByChart(old(tx.accounts), tx.chart, FALLBACK.parent, pushed);
      assert false;
    }
    tx.accounts := tx.accounts + [Account(Nas, code, FALLBACK.names, FALLBACK.kind, "AZN", parent, false)];
    return None, pushed - {code};
  }

  lemma {:induction false} EnsureAllOfConcat(
    accounts: seq<Account>, chart: map<string, ChartEntry>, codes: seq<string>, code: string)
    ensures EnsureAll(accounts, chart, codes + [code])
            == match EnsureAll(accounts, chart, codes)
               case Err(e) => Err(e)
               case Ok(grown) => Ensure(grown, chart, code, {})
    decreases |codes|
  {
    if codes == [] {
      assert [] + [code] == [code] && [code][1..] == [];
    } else {
      assert (codes + [code])[1..] == codes[1..] + [code];
      if Ensure(accounts, chart, codes[0], {}).Ok? {
        EnsureAllOfConcat(Ensure(accounts, chart, codes[0], {}).value, chart, codes[1..], code);
      }
    }
  }

  lemma {:induction false} EnsureAllFailsEarly(
    accounts: seq<Account>, chart: map<string, ChartEntry>, codes: seq<string>, n: nat)
    requires n <= |codes| && EnsureAll(accounts, chart, codes[..n]).Err?
    ensures EnsureAll(accounts, chart, codes) == EnsureAll(accounts, chart, codes[..n])
    decreases |codes|
  {
    if n > 0 {
      assert codes[..n][1..] == codes[1..][..n - 1];
      if Ensure(accounts, chart, codes[0], {}).Ok? {
        EnsureAllFailsEarly(Ensure(accounts, chart, codes[0], {}).value, chart, codes[1..], n - 1);
      }
    }
  }

  /** Skips the codes that existed at the start and ensures the rest one by one. */
  method EnsureNasAccountsForPosting(tx: Database, codes: seq<string>) returns (error: Option<Error>)
    modifies tx`accounts
    ensures error.None? ==> EnsureAll(old(tx.accounts), tx.chart, codes) == Ok(tx.accounts)
    ensures error.Some? ==> EnsureAll(old(tx.accounts), tx.chart, codes) == Err(error.value)
  {
    ghost var before := tx.accounts;
    var have: set<string> := {};
    for i := 0 to |codes|
      invariant have == set c | c in codes[..i] && Has(before, Nas, c)
    {
      assert codes[..i + 1] == codes[..i] + [codes[i]];
      if Find(tx.accounts, Nas, codes[i]).Some? {
        have := have + {codes[i]};
      }
    }
    assert codes[..|codes|] == codes;
    for i := 0 to |codes|
      invariant EnsureAll(before, tx.chart, codes[..i]) == Ok(tx.accounts)
      invariant before <= tx.accounts
    {
      assert codes[..i + 1] == codes[..i] + [codes[i]];
      EnsureAllOfConcat(before, tx.chart, codes[..i], codes[i]);
      if codes[i] !in have {
        ghost var grown := tx.accounts;
        var failure, _ := EnsureNasAccountExists(tx, codes[i], {});
        if failure.Some? {
          EnsureAllFailsEarly(before, tx.chart, codes, i + 1);
          return failure;
        }
        EnsureGrowsByChart(grown, tx.chart, codes[i], {});
      } else {
        assert tx.accounts == before + tx.accounts[|before|..];
        FindInLonger(before, tx.accounts[|before|..], Nas, codes[i]);
      }
    }
    error := None;
  }

  /** Everything `postJournalInTransaction` checks before it writes the transaction row. */
  method PrepareAccounts(tx: Database, p: PostParams) returns (r: Result<map<string, nat>, Error>)
    requires UniqueCodes(tx.accounts)
    modifies tx`accounts
    ensures r.Ok? ==> AllPresent(tx.accounts, p.ledger, p.lines) && UniqueCodes(tx.accounts)
    ensures r.Ok? ==> Post(old(tx.Now()), p) == Ok((Posted(old(tx.Now()), p, tx.accounts), |tx.transactions|))
    ensures r.Ok? ==> forall code :: code in r.value <==> Has(tx.accounts, p.ledger, code)
    ensures r.Ok? ==> forall code | code in r.value :: Find(tx.accounts, p.ledger, code) == Some(r.value[code])
    ensures r.Err? ==> Post(old(tx.Now()), p) == Err(r.error)
  {
    var unbalanced := ValidateBalance(p.lines);
    if unbalanced.Some? {
      return Err(unbalanced.value);
    }
    if MonthOf(p.date.day) in tx.settings.closedMonths {
      return Err(MonthClosed(MonthOf(p.date.day)));
    }
    if tx.settings.lockedUntil.Some? {
      var until := tx.settings.lockedUntil.value;
      if p.date.day.Before(until) || p.date == Instant(until, 0) {
        return Err(PeriodLocked);
      }
    }
    var codes := Codes(p.lines);
    if p.ledger == Nas {
      var failure := EnsureNasAccountsForPosting(tx, codes);
      if failure.Some? {
        return Err(failure.value);
      }
      EnsureAllGrowsByChart(old(tx.accounts), tx.chart, codes);
    }
    var byCode := tx.AccountsByCode(p.ledger);
    for i := 0 to |codes|
      invariant FirstMissing(tx.accounts, p.ledger, codes) == FirstMissing(tx.accounts, p.ledger, codes[i..])
    {
      if codes[i] !in byCode {
        return Err(AccountNotFound(codes[i]));
      }
      assert codes[i..][1..] == codes[i + 1..];
    }
    if p.department.Some? && p.department.value !in tx.departments {
      return Err(DepartmentNotFound);
    }
    r := Ok(byCode);
  }

  /** One entry per line, in order. */
  method WriteJournal(tx: Database, t: nat, ledger: LedgerType, lines: seq<Line>, byCode: map<string, nat>)
    requires AllPresent(tx.accounts, ledger, lines)
    requires forall code :: code in byCode <==> Has(tx.accounts, ledger, code)
    requires forall code | code in byCode :: Find(tx.accounts, ledger, code) == Some(byCode[code])
    modifies tx`entries
    ensures tx.entries == old(tx.entries) + Journal(tx.accounts, t, ledger, lines)
  {
    hide Journal, Find;
    for i := 0 to |lines|
      invariant AllPresent(tx.accounts, ledger, lines[..i])
      invariant tx.entries == old(tx.entries) + Journal(tx.accounts, t, ledger, lines[..i])
    {
      var line := lines[i];
      JournalStep(tx.accounts, t, ledger, lines, i);
      tx.entries := tx.entries + [Entry(t, byCode[line.code], line.debit, line.credit, ledger)];
    }
    assert lines[..|lines|] == lines;
  }

  /** `postJournalInTransaction`. After an error the tables are whatever has been written so far. */
  method PostJournalInTransaction(tx: Database, p: PostParams) returns (r: Result<nat, Error>)
    requires UniqueCodes(tx.accounts)
    modifies tx
    ensures r.Ok? ==> Post(old(tx.Now()), p) == Ok((tx.Now(), r.value))
    ensures r.Err? ==> Post(old(tx.Now()), p) == Err(r.error)
  {
    hide Post, Journal, MirrorEntries, AccountsFor, UniqueCodes, Find;
    var prepared := PrepareAccounts(tx, p);
    if prepared.Err? {
      return Err(prepared.error);
    }
    var t := |tx.transactions|;
    tx.transactions := tx.transactions + [Transaction(p.date.day, p.isFinal, p.counterparty, p.department)];
    WriteJournal(tx, t, p.ledger, p.lines, prepared.value);
    if p.ledger == Nas {
      IfrsAutoMappingService.MirrorFromNas(tx, t, p.lines);
    }
    assert tx.entries == old(tx.entries) + PostedEntries(old(tx.Now()), p, tx.accounts);
    r := Ok(t);
  }

  /** `postTransaction`: all or nothing. */
  method PostTransaction(db: Database, p: PostParams) returns (r: Result<nat, Error>)
    requires UniqueCodes(db.accounts)
    modifies db
    ensures r.Ok? ==> Post(old(db.Now()), p) == Ok((db.Now(), r.value))
    ensures r.Err? ==> Post(old(db.Now()), p) == Err(r.error) && db.Now() == old(db.Now())
  {
    var before := db.Now();
    r := PostJournalInTransaction(db, p);
    if r.Err? {
      db.RollBack(before);
    }
  }
}
