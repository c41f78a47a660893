/** The mutable tables the services work on, and what `$transaction` restores. */
module Database {
  import opened Outcomes
  import opened Tables

  class Database {
    var accounts: seq<Account>
    var transactions: seq<Transaction>
    var entries: seq<Entry>
    var invoices: seq<Invoice>
    var payments: seq<Payment>
    var chart: map<string, ChartEntry>
    var rules: seq<Rule>
    var departments: set<nat>
    var counterparties: map<nat, Counterparty>
    var branches: map<nat, Branch>
    var bankAccounts: seq<BankAccount>
    var settings: Settings

    function Now(): Db
      reads this
    {
      Db(accounts, transactions, entries, invoices, payments, chart, rules, departments, counterparties,
         branches, bankAccounts, settings)
    }

    constructor (start: Db)
      ensures Now() == start
    {
      accounts, transactions, entries := start.accounts, start.transactions, start.entries;
      invoices, payments := start.invoices, start.payments;
      chart, rules, departments := start.chart, start.rules, start.departments;
      counterparties, branches, bankAccounts := start.counterparties, start.branches, start.bankAccounts;
      settings := start.settings;
    }

    /** The ids of one ledger's accounts by code, as a map over the query result has them. */
    method AccountsByCode(ledger: LedgerType) returns (byCode: map<string, nat>)
      requires UniqueCodes(accounts)
      ensures forall code :: code in byCode <==> Has(accounts, ledger, code)
      ensures forall code | code in byCode :: Find(accounts, ledger, code) == Some(byCode[code])
    {
      byCode := map[];
      for i := 0 to |accounts|
        invariant forall code :: code in byCode <==> Has(accounts[..i], ledger, code)
        invariant forall code | code in byCode :: Find(accounts[..i], ledger, code) == Some(byCode[code])
      {
        assert accounts[..i + 1][..i] == accounts[..i];
        if accounts[i].ledger == ledger {
          assert !Has(accounts[..i], ledger, accounts[i].code);
          byCode := byCode[accounts[i].code := i];
        }
      }
      assert accounts[..|accounts|] == accounts;
    }

    /** What a thrown error does to everything written since `before`. */
    method RollBack(before: Db)
      modifies this
      ensures Now() == before
    {
      accounts, transactions, entries := before.accounts, before.transactions, before.entries;
      invoices, payments := before.invoices, before.payments;
      chart, rules, departments := before.chart, before.rules, before.departments;
      counterparties, branches, bankAccounts := before.counterparties, before.branches, before.bankAccounts;
      settings := before.settings;
    }
  }
}
