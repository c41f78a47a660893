/** `NettingService`, statement by statement. */
module NettingService {
  import opened Outcomes
  import opened Sums
  import opened Tables
  import opened Posting
  import opened Greedy
  import opened Allocation
  import opened Netting
  import opened Database
  import AccountingService

  method ReceivableForCounterparty(db: Database, cp: nat) returns (sum: int)
    ensures sum == Receivable(db.Now(), cp)
  {
    var ids := OpenIds(db.invoices, cp);
    sum := 0;
    for k := 0 to |ids|
      invariant sum == Sum(ids[..k], OpenBalance(db.Now()))
    {
      assert ids[..k + 1][..k] == ids[..k];
      assert ids[k] in ids;
      var bal := db.invoices[ids[k]].total - PaidSum(db.payments, ids[k]);
      assert bal == Remaining(db.Now())(ids[k]);
      if bal > 0 {
        sum := sum + bal;
      }
    }
    assert ids[..|ids|] == ids;
  }

  method Payable531ForCounterparty(db: Database, cp: nat) returns (payable: int)
    ensures payable == Payable(db.Now(), cp)
  {
    var account := Find(db.accounts, Nas, PAYABLE);
    if account.None? {
      return 0;
    }
    var net := 0;
    for k := 0 to |db.entries|
      invariant net == Sum(db.entries[..k], PayableNet(db.transactions, account.value, cp))
    {
      var e := db.entries[k];
      assert db.entries[..k + 1][..k] == db.entries[..k];
      if e.ledger == Nas && e.account == account.value && CounterpartyOf(db.transactions, e.transaction) == Some(cp) {
        net := net + (e.credit - e.debit);
      }
    }
    assert db.entries[..|db.entries|] == db.entries;
    payable := if net > 0 then net else 0;
  }

  method PreviewNetting(db: Database, cp: nat) returns (r: Result<Preview, Error>)
    ensures r == PreviewOf(db.Now(), cp)
  {
    if cp !in db.counterparties {
      return Err(CounterpartyNotFound);
    }
    var receivable := ReceivableForCounterparty(db, cp);
    var payable := Payable531ForCounterparty(db, cp);
    var maxNet := Min(receivable, payable);
    r := Ok(Preview(receivable, payable, maxNet, maxNet > 0));
  }

  /** One turn of the loop: the payment row, then the invoice's state from its refreshed payments. */
  method PayOne(tx: Database, i: nat, share: int, t: nat, day: Day)
    requires i < |tx.invoices|
    modifies tx`payments, tx`invoices
    ensures tx.Now() == Pay(old(tx.Now()), i, share, t, day)
  {
    tx.payments := tx.payments + [Payment(i, share, Some(t), day)];
    var refreshed := tx.invoices[i];
    var (status, received) := Derive(refreshed.total, PaidSum(tx.payments, i), refreshed.status);
    tx.invoices := tx.invoices[i := refreshed.(status := status, paymentReceived := received)];
  }

  /** The loop reads what each invoice was paid from the rows fetched before it started. */
  method AllocateNettingToInvoicePayments(tx: Database, cp: nat, t: nat, amount: int, day: Day)
    returns (error: Option<Error>)
    modifies tx`payments, tx`invoices
    ensures error.None? ==> Allocate(old(tx.Now()), cp, t, amount, day) == Ok(tx.Now())
    ensures error.Some? ==> Allocate(old(tx.Now()), cp, t, amount, day) == Err(error.value)
  {
    hide PaidSum, Ordered, Run, Settled;
    if amount <= 0 {
      return None;
    }
    var left := amount;
    var rows, fetched := tx.invoices, tx.payments;
    var ids := Ordered(rows, cp);
    OrderedIsTheQuery(rows, cp);
    var k := 0;
    assert ids[0..] == ids;
    while k < |ids| && left > 0
      invariant k <= |ids|
      invariant |tx.invoices| == |rows|
      invariant Ids(tx.invoices, ids[k..])
      invariant Run(tx.Now(), ids[k..], left, t, day) == Run(old(tx.Now()), ids, amount, t, day)
      invariant forall j | k <= j < |ids| ::
                  tx.invoices[ids[j]] == rows[ids[j]] && PaidSum(tx.payments, ids[j]) == PaidSum(fetched, ids[j])
    {
      var i := ids[k];
      assert ids[k..][0] == i && ids[k..][1..] == ids[k + 1..];
      var rem := rows[i].total - PaidSum(fetched, i);
      assert rem == Remaining(tx.Now())(i);
      RunTurns(tx.Now(), ids[k..], left, t, day);
      if rem > 0 {
        var share := Min(rem, left);
        PayEffect(tx.Now(), i, share, t, day);
        PayOne(tx, i, share, t, day);
        left := left - share;
      }
      k := k + 1;
    }
    RunEnds(tx.Now(), ids[k..], left, t, day);
    if left > 1 {
      return Some(ResidueLeft(left));
    }
    error := None;
  }

  /** The `$transaction` of `createNetting`: the post and the allocation, or nothing. */
  method CommitPlan(db: Database, plan: Plan, now: Instant) returns (r: Result<nat, Error>)
    requires UniqueCodes(db.accounts)
    modifies db
    ensures r.Ok? ==> Commit(old(db.Now()), plan, now) == Ok((db.Now(), r.value))
    ensures r.Err? ==> Commit(old(db.Now()), plan, now) == Err(r.error) && db.Now() == old(db.Now())
  {
    hide Post, Allocate;
    var before := db.Now();
    r := AccountingService.PostJournalInTransaction(db, NettingPost(plan.cp, plan.amount, plan.vatPosted, now));
    if r.Ok? {
      var failure := AllocateNettingToInvoicePayments(db, plan.cp, r.value, plan.amount, now.day);
      if failure.Some? {
        r := Err(failure.value);
      }
    }
    if r.Err? {
      db.RollBack(before);
    }
  }

  /** The reads and checks before the transaction. */
  method CheckNetting(db: Database, cp: nat, amount: int) returns (r: Result<Plan, Error>)
    ensures r == PlanFor(db.Now(), cp, amount)
  {
    if amount <= 0 {
      return Err(AmountNotPositive);
    }
    if cp !in db.counterparties {
      return Err(CounterpartyNotFound);
    }
    var receivable := ReceivableForCounterparty(db, cp);
    var payable := Payable531ForCounterparty(db, cp);
    var maxNet := Min(receivable, payable);
    if amount > maxNet {
      return Err(AmountAboveLimit);
    }
    var ar := Find(db.accounts, Nas, RECEIVABLE);
    var ap := Find(db.accounts, Nas, PAYABLE);
    if ar.None? || ap.None? {
      return Err(NettingAccountsMissing);
    }
    var vatOnNetting := db.settings.isVatPayer && db.counterparties[cp].isVatPayer;
    var acc241 := if vatOnNetting then Find(db.accounts, Nas, VAT_INPUT) else None;
    var acc541 := if vatOnNetting then Find(db.accounts, Nas, VAT_OUTPUT) else None;
    var canPostVat := acc241.Some? && acc541.Some?;
    r := Ok(Plan(cp, amount, vatOnNetting, vatOnNetting && canPostVat));
  }

  /** `createNetting`, when nothing happens between its reads and its transaction. */
  method CreateNetting(db: Database, cp: nat, amount: int, now: Instant) returns (r: Result<Receipt, Error>)
    requires UniqueCodes(db.accounts)
    modifies db
    ensures r.Ok? ==> Net(old(db.Now()), cp, amount, now) == Ok((db.Now(), r.value))
    ensures r.Err? ==> Net(old(db.Now()), cp, amount, now) == Err(r.error) && db.Now() == old(db.Now())
  {
    hide PlanFor, Commit;
    var plan := CheckNetting(db, cp, amount);
    if plan.Err? {
      return Err(plan.error);
    }
    var t := CommitPlan(db, plan.value, now);
    if t.Err? {
      return Err(t.error);
    }
    r := Ok(ReceiptFor(plan.value, t.value));
  }
}
