/** Netting a counterparty's receivable against account 531, one request after another. */
module Netting {
  import opened Outcomes
  import opened Sums
  import opened Tables
  import opened Balance
  import opened Chart
  import opened Posting
  import opened AccountBalances
  import opened Greedy
  import opened Allocation

  // ----- the two balances -----

  function CounterpartyOf(transactions: seq<Transaction>, t: nat): Option<nat> {
    if t < |transactions| then transactions[t].counterparty else None
  }

  function PayableNet(transactions: seq<Transaction>, account: nat, cp: nat): Entry -> int {
    (e: Entry) =>
      if e.ledger == Nas && e.account == account && CounterpartyOf(transactions, e.transaction) == Some(cp)
      then e.credit - e.debit else 0
  }

  /** The credit balance of 531 with the counterparty; negative when too much has been netted or paid. */
  function PayableBalance(db: Db, cp: nat): int {
    match Find(db.accounts, Nas, PAYABLE)
    case None => 0
    case Some(account) => Sum(db.entries, PayableNet(db.transactions, account, cp))
  }

  /** `payable531ForCounterparty`. */
  function Payable(db: Db, cp: nat): int { Positive(PayableBalance(db, cp)) }

  function Suggested(db: Db, cp: nat): int { Min(Receivable(db, cp), Payable(db, cp)) }

  datatype Preview = Preview(receivable: int, payable: int, suggested: int, canNet: bool)

  function PreviewOf(db: Db, cp: nat): Result<Preview, Error> {
    if cp !in db.counterparties then Err(CounterpartyNotFound)
    else Ok(Preview(Receivable(db, cp), Payable(db, cp), Suggested(db, cp), Suggested(db, cp) > 0))
  }

  // ----- the request -----

  /** 18/118 of the amount, to the nearest 0.0001, halves up. */
  function VatShare(amount: int): int { (36 * amount + 118) / 236 }

  lemma VatShareIsNearest(amount: int)
    requires amount >= 0
    ensures 0 <= VatShare(amount) <= amount
    ensures -118 < 2 * (118 * VatShare(amount) - 18 * amount) <= 118
  {}

  function NettingLines(amount: int, withVat: bool): seq<Line> {
    [Line(PAYABLE, amount, 0), Line(RECEIVABLE, 0, amount)]
    + if withVat then [Line(VAT_INPUT, VatShare(amount), 0), Line(VAT_OUTPUT, 0, VatShare(amount))] else []
  }

  function NettingPost(cp: nat, amount: int, withVat: bool, now: Instant): PostParams {
    PostParams(now, true, Some(cp), None, Nas, NettingLines(amount, withVat))
  }

  /** What is decided before the transaction starts. */
  datatype Plan = Plan(cp: nat, amount: int, vatSuggested: bool, vatPosted: bool)

  /** The reads and checks of `createNetting`. */
  function PlanFor(db: Db, cp: nat, amount: int): Result<Plan, Error> {
    if amount <= 0 then Err(AmountNotPositive)
    else if cp !in db.counterparties then Err(CounterpartyNotFound)
    else if amount > Suggested(db, cp) then Err(AmountAboveLimit)
    else if !Has(db.accounts, Nas, RECEIVABLE) || !Has(db.accounts, Nas, PAYABLE) then Err(NettingAccountsMissing)
    else
      var vat := db.settings.isVatPayer && db.counterparties[cp].isVatPayer;
      Ok(Plan(cp, amount, vat, vat && Has(db.accounts, Nas, VAT_INPUT) && Has(db.accounts, Nas, VAT_OUTPUT)))
  }

  /** The transaction of `createNetting`: post, then allocate. */
  function Commit(db: Db, plan: Plan, now: Instant): Result<(Db, nat), Error> {
    match Post(db, NettingPost(plan.cp, plan.amount, plan.vatPosted, now))
    case Err(e) => Err(e)
    case Ok((posted, t)) =>
      match Allocate(posted, plan.cp, t, plan.amount, now.day)
      case Err(e) => Err(e)
      case Ok(after) => Ok((after, t))
  }

  datatype Receipt = Receipt(transaction: nat, amount: int, vatSuggested: bool, vatPosted: bool, vat: Option<int>)

  function ReceiptFor(plan: Plan, t: nat): Receipt {
    Receipt(t, plan.amount, plan.vatSuggested, plan.vatPosted,
            if plan.vatSuggested then Some(VatShare(plan.amount)) else None)
  }

  /** `createNetting` with nothing in between. */
  function Net(db: Db, cp: nat, amount: int, now: Instant): Result<(Db, Receipt), Error> {
    match PlanFor(db, cp, amount)
    case Err(e) => Err(e)
    case Ok(plan) =>
      match Commit(db, plan, now)
      case Err(e) => Err(e)
      case Ok((after, t)) => Ok((after, ReceiptFor(plan, t)))
  }

  // ----- the two balances, row by row -----

  /** What the first `n` entries leave credited to NAS account 531 in transactions with the counterparty. */
  function CreditedTo531(db: Db, cp: nat, n: nat): int
    requires n <= |db.entries|
  {
    if n == 0 then 0
    else
      var e := db.entries[n - 1];
      CreditedTo531(db, cp, n - 1)
      + if e.ledger == Nas && e.account < |db.accounts| && db.accounts[e.account].code == "531"
           && e.transaction < |db.transactions| && db.transactions[e.transaction].counterparty == Some(cp)
        then e.credit - e.debit else 0
  }

  lemma {:induction false} PayableEntryByEntry(db: Db, cp: nat, account: nat, n: nat)
    requires Consistent(db) && n <= |db.entries| && Find(db.accounts, Nas, "531") == Some(account)
    ensures Sum(db.entries[..n], PayableNet(db.transactions, account, cp)) == CreditedTo531(db, cp, n)
  {
    if n > 0 {
      var e := db.entries[n - 1];
      PayableEntryByEntry(db, cp, account, n - 1);
      assert db.entries[..n] == db.entries[..n - 1] + [e];
      SumOfAppended(db.entries[..n - 1], e, PayableNet(db.transactions, account, cp));
      assert Refers(db, e);
      if e.ledger == Nas && db.accounts[e.account].code == "531" {
        FindIsUnique(db.accounts, e.account);
      }
      hide Sum, Consistent;
    }
  }

  lemma {:induction false} NothingOn531(db: Db, cp: nat, n: nat)
    requires Consistent(db) && n <= |db.entries| && !Has(db.accounts, Nas, "531")
    ensures CreditedTo531(db, cp, n) == 0
  {
    if n > 0 {
      NothingOn531(db, cp, n - 1);
      assert Refers(db, db.entries[n - 1]);
      var a := db.entries[n - 1].account;
      assert db.accounts[a] in db.accounts;
    }
  }

  lemma PayableIsCredited(db: Db, cp: nat)
    requires Consistent(db)
    ensures PayableBalance(db, cp) == CreditedTo531(db, cp, |db.entries|)
  {
    match Find(db.accounts, Nas, "531")
    case None => NothingOn531(db, cp, |db.entries|);
    case Some(account) =>
      PayableEntryByEntry(db, cp, account, |db.entries|);
      assert db.entries[..|db.entries|] == db.entries;
  }

  /** The preview shows what the invoices leave open and what 531 leaves credited, suggests the lesser, and
      offers a netting exactly when both are positive. */
  lemma PreviewShowsBothBalances(db: Db, cp: nat)
    requires Consistent(db)
    ensures PreviewOf(db, cp).Ok? <==> cp in db.counterparties
    ensures cp !in db.counterparties ==> PreviewOf(db, cp) == Err(CounterpartyNotFound)
    ensures cp in db.counterparties ==>
              var preview, credited := PreviewOf(db, cp).value, CreditedTo531(db, cp, |db.entries|);
              && preview.receivable == OwedBy(db, cp, |db.invoices|)
              && preview.payable == (if credited > 0 then credited else 0)
              && preview.suggested <= preview.receivable && preview.suggested <= preview.payable
              && (preview.suggested == preview.receivable || preview.suggested == preview.payable)
              && (preview.canNet <==> preview.receivable > 0 && preview.payable > 0)
  {
    hide Receivable, PayableBalance, OwedBy, CreditedTo531, Consistent;
    ReceivableIsOwed(db, cp);
    PayableIsCredited(db, cp);
  }

  /** A netting passes the checks exactly when it is positive, the counterparty is known, both balances cover it,
      and accounts 211 and 531 exist; the first check that fails is the one reported. */
  lemma PlanIsMadeExactlyWhen(db: Db, cp: nat, amount: int)
    requires Consistent(db)
    ensures var covered := amount <= OwedBy(db, cp, |db.invoices|) && amount <= CreditedTo531(db, cp, |db.entries|);
            var there := Has(db.accounts, Nas, "211") && Has(db.accounts, Nas, "531");
            && (PlanFor(db, cp, amount).Ok? <==> amount > 0 && cp in db.counterparties && covered && there)
            && (PlanFor(db, cp, amount).Err? ==>
                  PlanFor(db, cp, amount).error
                  == if amount <= 0 then AmountNotPositive
                     else if cp !in db.counterparties then CounterpartyNotFound
                     else if !covered then AmountAboveLimit
                     else NettingAccountsMissing)
  {
    hide Receivable, PayableBalance, OwedBy, CreditedTo531, Consistent, Find;
    ReceivableIsOwed(db, cp);
    PayableIsCredited(db, cp);
  }

  // ----- the journal part -----

  lemma SumOfNettingLines(amount: int, withVat: bool, f: Line -> int)
    ensures Sum(NettingLines(amount, withVat), f)
            == f(Line(PAYABLE, amount, 0)) + f(Line(RECEIVABLE, 0, amount))
               + if withVat then f(Line(VAT_INPUT, VatShare(amount), 0)) + f(Line(VAT_OUTPUT, 0, VatShare(amount)))
                 else 0
  {
    var base := [Line(PAYABLE, amount, 0), Line(RECEIVABLE, 0, amount)];
    SumOfPair(base[0], base[1], f);
    if withVat {
      var vat := [Line(VAT_INPUT, VatShare(amount), 0), Line(VAT_OUTPUT, 0, VatShare(amount))];
      SumOfPair(vat[0], vat[1], f);
      SumOfConcat(base, vat, f);
    } else {
      assert base + [] == base;
    }
  }

  /** The VAT pair never breaks the balance. */
  lemma NettingLinesBalance(amount: int, withVat: bool)
    requires amount > 0
    ensures Balanced(NettingLines(amount, withVat))
  {
    SumOfNettingLines(amount, withVat, DebitOf());
    SumOfNettingLines(amount, withVat, CreditOf());
    VatShareIsNearest(amount);
  }

  lemma NettingAccountsExist(db: Db, plan: Plan, line: Line)
    requires PlanFor(db, plan.cp, plan.amount) == Ok(plan) && line in NettingLines(plan.amount, plan.vatPosted)
    ensures Has(db.accounts, Nas, line.code)
  {
    hide Has, Suggested;
    assert line.code in {PAYABLE, RECEIVABLE} || (plan.vatPosted && line.code in {VAT_INPUT, VAT_OUTPUT});
  }

  predicate OpenFor(settings: Settings, now: Instant) {
    MonthOf(now.day) !in settings.closedMonths && !Locked(settings, now)
  }

  /** With nothing in between, a checked netting posts exactly when its date is open, and needs no new account. */
  lemma PlannedPost(db: Db, cp: nat, amount: int, now: Instant)
    requires PlanFor(db, cp, amount).Ok?
    ensures var r := Post(db, NettingPost(cp, amount, PlanFor(db, cp, amount).value.vatPosted, now));
            && (r.Ok? <==> OpenFor(db.settings, now))
            && (r.Ok? ==> r.value.0.accounts == db.accounts)
            && (r.Err? ==> r.error == MonthClosed(MonthOf(now.day)) || r.error == PeriodLocked)
  {
    var p := NettingPost(cp, amount, PlanFor(db, cp, amount).value.vatPosted, now);
    NettingLinesBalance(amount, PlanFor(db, cp, amount).value.vatPosted);
    forall c | c in Codes(p.lines)
      ensures Has(db.accounts, Nas, c)
    {
      var line :| line in p.lines && line.code == c;
      NettingAccountsExist(db, PlanFor(db, cp, amount).value, line);
    }
    EnsureAllExistingIsIdle(db.accounts, db.chart, Codes(p.lines));
  }

  function PayableOnLine(): Line -> int {
    (l: Line) => if l.code == PAYABLE then l.credit - l.debit else 0
  }

  lemma PayableOfPosted(
    db: Db, p: PostParams, accounts: seq<Account>, transactions: seq<Transaction>, account: nat, cp: nat)
    requires AllPresent(accounts, Nas, p.lines) && p.ledger == Nas
    requires Find(accounts, Nas, PAYABLE) == Some(account)
    requires CounterpartyOf(transactions, |db.transactions|) == p.counterparty
    ensures Sum(PostedEntries(db, p, accounts), PayableNet(transactions, account, cp))
            == if p.counterparty == Some(cp) then Sum(p.lines, PayableOnLine()) else 0
  {
    var net := PayableNet(transactions, account, cp);
    if p.counterparty == Some(cp) {
      SumOfPosted(db, p, accounts, net, PayableOnLine());
    } else {
      SumOfPosted(db, p, accounts, net, (l: Line) => 0);
      SumOfZeros(p.lines, (l: Line) => 0);
    }
  }

  /** What a NAS post does to the payable of a counterparty. */
  lemma PayableAfterPost(db: Db, p: PostParams, account: nat, cp: nat)
    requires Consistent(db) && Post(db, p).Ok? && p.ledger == Nas
    requires Find(Post(db, p).value.0.accounts, Nas, PAYABLE) == Some(account)
    ensures var after := Post(db, p).value.0;
            Sum(after.entries, PayableNet(after.transactions, account, cp))
            == Sum(db.entries, PayableNet(db.transactions, account, cp))
               + if p.counterparty == Some(cp) then Sum(p.lines, PayableOnLine()) else 0
  {
    hide Post, PostedEntries;
    PostAppends(db, p);
    var after := Post(db, p).value.0;
    var net := PayableNet(after.transactions, account, cp);
    PayableOfPosted(db, p, after.accounts, after.transactions, account, cp);
    SumOfConcat(db.entries, PostedEntries(db, p, after.accounts), net);
    forall e | e in db.entries
      ensures net(e) == PayableNet(db.transactions, account, cp)(e)
    {
      assert Refers(db, e);
    }
    SumOfEqualAmounts(db.entries, net, PayableNet(db.transactions, account, cp));
  }

  lemma PayableBalanceAfterPost(db: Db, p: PostParams, cp: nat)
    requires Consistent(db) && Post(db, p).Ok? && p.ledger == Nas && Has(db.accounts, Nas, PAYABLE)
    ensures PayableBalance(Post(db, p).value.0, cp)
            == PayableBalance(db, cp) + if p.counterparty == Some(cp) then Sum(p.lines, PayableOnLine()) else 0
  {
    hide Post;
    PostAppends(db, p);
    var after := Post(db, p).value.0;
    assert after.accounts == db.accounts + after.accounts[|db.accounts|..];
    FindInLonger(db.accounts, after.accounts[|db.accounts|..], Nas, PAYABLE);
    PayableAfterPost(db, p, Find(db.accounts, Nas, PAYABLE).value, cp);
  }

  // ----- one netting -----

  lemma AllocateKeepsConsistent(db: Db, after: Db, t: nat)
    requires Consistent(db) && OnlyAllocates(db, after, t) && t < |db.transactions|
    ensures Consistent(after)
  {
    assert after.payments == db.payments + after.payments[|db.payments|..];
    SameJournalKeepsConsistent(db, after);
  }

  lemma {:induction false} NothingLinkedYet(db: Db, payments: seq<Payment>)
    requires forall p | p in payments :: Pays(db, p)
    ensures Sum(payments, LinkedTo(|db.transactions|)) == 0
  {
    SumOfZeros(payments, LinkedTo(|db.transactions|));
  }

  lemma ReceivableReadsTwoTables(a: Db, b: Db, cp: nat)
    requires a.invoices == b.invoices && a.payments == b.payments
    ensures Receivable(a, cp) == Receivable(b, cp)
  {
    forall i: nat
      ensures OpenBalance(a)(i) == OpenBalance(b)(i)
    {
      assert Remaining(a)(i) == Remaining(b)(i);
    }
    SumOfEqualAmounts(OpenIds(a.invoices, cp), OpenBalance(a), OpenBalance(b));
  }

  lemma PostKeepsReceivable(db: Db, p: PostParams, cp: nat)
    requires Post(db, p).Ok?
    ensures Receivable(Post(db, p).value.0, cp) == Receivable(db, cp)
  {
    PostAppends(db, p);
    ReceivableReadsTwoTables(db, Post(db, p).value.0, cp);
  }

  /** The transaction commits exactly when the post goes through and the receivable of that moment covers
      the amount up to 0.0001; its payments then fall short of the amount by at most that. */
  lemma CommitOutcome(db: Db, plan: Plan, now: Instant)
    requires Consistent(db) && plan.amount > 0
    ensures var posted := Post(db, NettingPost(plan.cp, plan.amount, plan.vatPosted, now));
            var r := Commit(db, plan, now);
            && (r.Ok? <==> posted.Ok? && plan.amount <= Receivable(db, plan.cp) + 1)
            && (r.Err? ==>
                  r.error == if posted.Err? then posted.error else ResidueLeft(plan.amount - Receivable(db, plan.cp)))
            && (r.Ok? ==>
                  && r.value.1 == posted.value.1 == |db.transactions|
                  && OnlyAllocates(posted.value.0, r.value.0, r.value.1)
                  && SameButState(db.invoices, r.value.0.invoices)
                  && Consistent(r.value.0)
                  && Sum(r.value.0.payments, LinkedTo(r.value.1)) == Min(plan.amount, Receivable(db, plan.cp))
                  && Receivable(r.value.0, plan.cp)
                     == Receivable(db, plan.cp) - Min(plan.amount, Receivable(db, plan.cp)))
  {
    hide Post, Allocate, Receivable, SameButState;
    var p := NettingPost(plan.cp, plan.amount, plan.vatPosted, now);
    if Post(db, p).Ok? {
      var (posted, t) := Post(db, p).value;
      PostAppends(db, p);
      PostKeepsConsistent(db, p);
      PostKeepsReceivable(db, p, plan.cp);
      AllocateUsesUpTheReceivable(posted, plan.cp, t, plan.amount, now.day);
      NothingLinkedYet(db, db.payments);
      var r := Allocate(posted, plan.cp, t, plan.amount, now.day);
      if r.Ok? {
        AllocateKeepsConsistent(posted, r.value, t);
      }
    }
  }

  /** Serial netting. It succeeds exactly when the checks pass and the date is open: the residue error
      cannot fire. Receivable, payable and limit each fall by exactly the amount, all of it is allocated,
      and no other counterparty is affected. */
  lemma NettingIsExact(db: Db, cp: nat, amount: int, now: Instant)
    requires Consistent(db)
    ensures var r := Net(db, cp, amount, now);
            && (r.Ok? <==> PlanFor(db, cp, amount).Ok? && OpenFor(db.settings, now))
            && (r.Ok? ==>
                  var after := r.value.0;
                  && Consistent(after)
                  && Sum(after.payments, LinkedTo(r.value.1.transaction)) == amount == r.value.1.amount
                  && Receivable(after, cp) == Receivable(db, cp) - amount
                  && Payable(after, cp) == Payable(db, cp) - amount
                  && Suggested(after, cp) == Suggested(db, cp) - amount
                  && after.accounts == db.accounts)
            && (r.Err? ==> !r.error.ResidueLeft?)
  {
    hide Post, Receivable, Allocate;
    if PlanFor(db, cp, amount).Ok? {
      var plan := PlanFor(db, cp, amount).value;
      var p := NettingPost(cp, amount, plan.vatPosted, now);
      PlannedPost(db, cp, amount, now);
      CommitOutcome(db, plan, now);
      if Post(db, p).Ok? {
        var posted := Post(db, p).value.0;
        PayableBalanceAfterPost(db, p, cp);
        SumOfNettingLines(amount, plan.vatPosted, PayableOnLine());
      }
    }
  }

  /** A netting debits 531 and credits 211 by the amount, debits 241 and credits 541 by the share that the
      receipt names when both sides pay VAT and both accounts exist, and moves no other account. */
  lemma NettingMovesItsAccountsOnly(db: Db, cp: nat, amount: int, now: Instant, account: nat)
    requires Consistent(db) && Net(db, cp, amount, now).Ok?
    requires account < |db.accounts| && db.accounts[account].ledger == Nas
    ensures var (after, receipt) := Net(db, cp, amount, now).value;
            var code := db.accounts[account].code;
            var vat := if receipt.vatPosted then receipt.vat.value else 0;
            && (receipt.vatSuggested <==> db.settings.isVatPayer && db.counterparties[cp].isVatPayer)
            && (receipt.vatSuggested <==> receipt.vat == Some(VatShare(amount)))
            && (receipt.vatPosted <==>
                  receipt.vatSuggested && Has(db.accounts, Nas, "241") && Has(db.accounts, Nas, "541"))
            && Sum(after.entries, AccountNet(account))
               == Sum(db.entries, AccountNet(account))
                  + (if code == "531" then amount else if code == "211" then -amount
                     else if code == "241" then vat else if code == "541" then -vat else 0)
  {
    hide Post, Receivable, Allocate;
    var plan := PlanFor(db, cp, amount).value;
    PlannedPost(db, cp, amount, now);
    CommitOutcome(db, plan, now);
    PostMoves(db, NettingPost(cp, amount, plan.vatPosted, now), account);
    SumOfNettingLines(amount, plan.vatPosted, NetOnCode(db.accounts[account].code));
  }

  /** A netting is one final transaction of that day with the counterparty, and the receipt names it. */
  lemma NettingWritesOneTransaction(db: Db, cp: nat, amount: int, now: Instant)
    requires Consistent(db) && Net(db, cp, amount, now).Ok?
    ensures var (after, receipt) := Net(db, cp, amount, now).value;
            && receipt.transaction == |db.transactions| && |after.transactions| == |db.transactions| + 1
            && db.transactions <= after.transactions
            && var row := after.transactions[receipt.transaction];
               row.day == now.day && row.isFinal && row.counterparty == Some(cp) && row.department.None?
  {
    hide Post, Receivable, Allocate;
    var plan := PlanFor(db, cp, amount).value;
    PlannedPost(db, cp, amount, now);
    CommitOutcome(db, plan, now);
    PostWritesTheRow(db, NettingPost(cp, amount, plan.vatPosted, now));
  }

  lemma NettingSparesOthers(db: Db, cp: nat, amount: int, now: Instant, other: nat)
    requires Consistent(db) && Net(db, cp, amount, now).Ok? && other != cp
    ensures var after := Net(db, cp, amount, now).value.0;
            && Receivable(after, other) == Receivable(db, other)
            && Payable(after, other) == Payable(db, other)
  {
    hide Post, Receivable, Allocate;
    var plan := PlanFor(db, cp, amount).value;
    var p := NettingPost(cp, amount, plan.vatPosted, now);
    PlannedPost(db, cp, amount, now);
    CommitOutcome(db, plan, now);
    var (posted, t) := Post(db, p).value;
    PostKeepsReceivable(db, p, other);
    AllocateSparesOthers(posted, cp, t, amount, now.day, other);
    PayableBalanceAfterPost(db, p, other);
  }

  lemma ReceivableIsNotNegative(db: Db, cp: nat)
    ensures Receivable(db, cp) >= 0
  {
    ReceivableIsWhatCanBeAllocated(db, cp);
  }

  /** Netting all that is suggested leaves nothing to net. */
  lemma FullNettingEndsIt(db: Db, cp: nat, now: Instant)
    requires Consistent(db) && Net(db, cp, Suggested(db, cp), now).Ok?
    ensures var after := Net(db, cp, Suggested(db, cp), now).value.0;
            PreviewOf(after, cp).Ok? && !PreviewOf(after, cp).value.canNet
  {
    hide Post, Receivable, Allocate;
    NettingIsExact(db, cp, Suggested(db, cp), now);
    var plan := PlanFor(db, cp, Suggested(db, cp)).value;
    CommitOutcome(db, plan, now);
    PostAppends(db, NettingPost(cp, plan.amount, plan.vatPosted, now));
  }

  // ----- any number of nettings -----

  datatype Request = Request(cp: nat, amount: int, now: Instant)

  /** A failed request leaves the tables as they were. */
  function NetOne(db: Db, request: Request): Db {
    var r := Net(db, request.cp, request.amount, request.now);
    if r.Ok? then r.value.0 else db
  }

  function NetAll(db: Db, requests: seq<Request>): Db
    decreases |requests|
  {
    if requests == [] then db else NetAll(NetOne(db, requests[0]), requests[1..])
  }

  /** What the run has netted for one counterparty. */
  function Netted(db: Db, requests: seq<Request>, cp: nat): int
    decreases |requests|
  {
    if requests == [] then 0
    else
      var r := Net(db, requests[0].cp, requests[0].amount, requests[0].now);
      (if r.Ok? && requests[0].cp == cp then requests[0].amount else 0)
      + Netted(NetOne(db, requests[0]), requests[1..], cp)
  }

  lemma OneNetting(db: Db, request: Request, cp: nat)
    requires Consistent(db)
    ensures var after := NetOne(db, request);
            var netted := Netted(db, [request], cp);
            && Consistent(after)
            && netted >= 0
            && Receivable(after, cp) == Receivable(db, cp) - netted
            && Payable(after, cp) == Payable(db, cp) - netted
  {
    hide Receivable, Payable, Commit;
    var r := Net(db, request.cp, request.amount, request.now);
    NettingIsExact(db, request.cp, request.amount, request.now);
    if r.Ok? && request.cp != cp {
      NettingSparesOthers(db, request.cp, request.amount, request.now, cp);
    }
    assert [request][1..] == [];
  }

  /** Over any run of nettings, of any counterparties, the limit of each falls by what was netted for it;
      so the total netted never exceeds the limit the run started with. */
  lemma {:induction false} NettedNeverExceedsFirstSuggestion(db: Db, requests: seq<Request>, cp: nat)
    requires Consistent(db)
    ensures var after := NetAll(db, requests);
            var netted := Netted(db, requests, cp);
            && Consistent(after)
            && Receivable(after, cp) == Receivable(db, cp) - netted
            && Payable(after, cp) == Payable(db, cp) - netted
            && Suggested(after, cp) == Suggested(db, cp) - netted
            && 0 <= netted <= Suggested(db, cp)
    decreases |requests|
  {
    hide Receivable, Payable, Net;
    ReceivableIsNotNegative(db, cp);
    PayableIsNotNegative(db, cp);
    if requests != [] {
      OneNetting(db, requests[0], cp);
      NettedNeverExceedsFirstSuggestion(NetOne(db, requests[0]), requests[1..], cp);
      assert [requests[0]][1..] == [];
    }
  }

  lemma PayableIsNotNegative(db: Db, cp: nat)
    ensures Payable(db, cp) >= 0
  {}
}
