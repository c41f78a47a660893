/** `BankSubaccountService`, statement by statement. */
module BankSubaccountService {
  import opened Outcomes
  import opened Tables
  import opened BankSubaccounts
  import opened Database

  method NextSubaccountCode(db: Database, bankCode: string) returns (r: Result<string, Error>)
    ensures r == NextCode(db.accounts, bankCode)
  {
    if !IsBankCode(bankCode) {
      return Err(BadBankCode);
    }
    var prefix := Prefix(bankCode);
    var max := 0;
    for k := 0 to |db.accounts|
      invariant max == MaxSequence(db.accounts[..k], prefix)
    {
      var account := db.accounts[k];
      assert db.accounts[..k + 1][..k] == db.accounts[..k];
      if account.ledger == Nas && prefix <= account.code {
        var n := Sequence(account.code[|prefix|..]);
        if n.Some? && n.value > max {
          max := n.value;
        }
      }
    }
    assert db.accounts[..|db.accounts|] == db.accounts;
    var next := max + 1;
    if next > SEQUENCE_MAX {
      return Err(SequenceOverflow);
    }
    r := Ok(prefix + Padded(next));
  }

  method EnsureSubaccountForBranch(db: Database, branch: nat, currency: string, names: Names)
    returns (r: Result<Subaccounted, Error>)
    modifies db`accounts
    ensures r.Ok? ==> EnsureSubaccount(old(db.Now()), branch, currency, names) == Ok((db.Now(), r.value))
    ensures r.Err? ==> EnsureSubaccount(old(db.Now()), branch, currency, names) == Err(r.error)
                       && db.Now() == old(db.Now())
  {
    if branch !in db.branches {
      return Err(BranchNotFound);
    }
    if !db.branches[branch].isActive || !db.branches[branch].bankIsActive {
      return Err(BranchInactive);
    }
    if !IsBankCode(db.branches[branch].bankCode) {
      return Err(BadBankCode);
    }
    var linked := LinkedCode(db.bankAccounts, branch, currency);
    if linked.Some? && linked.value != "" {
      var existing := Find(db.accounts, Nas, linked.value);
      if existing.Some? {
        return Ok(Subaccounted(existing.value, db.accounts[existing.value].code, false));
      }
    }
    var parent := Find(db.accounts, Nas, BANK_PARENT);
    if parent.None? {
      return Err(ParentMissing(BANK_PARENT));
    }
    var code := NextSubaccountCode(db, db.branches[branch].bankCode);
    if code.Err? {
      return Err(code.error);
    }
    db.accounts := db.accounts + [Subaccount(code.value, names, currency, parent.value)];
    r := Ok(Subaccounted(|db.accounts| - 1, code.value, true));
  }
}
