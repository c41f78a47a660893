/** The rows the accounting services read and write, for one organization.

    A row's id is its position in its table. Money is an integer count of 0.0001 AZN.
    A `null` or empty parent code is the empty string: the source treats both as absent. */
module Tables {
  import opened Outcomes
  import opened Sums

  const RECEIVABLE := "211"
  const PAYABLE := "531"
  const VAT_INPUT := "241"
  const VAT_OUTPUT := "541"
  const BANK_PARENT := "221"

  datatype LedgerType = Nas | Ifrs

  datatype AccountType = Asset | Liability | Equity | Revenue | Expense

  datatype InvoiceStatus = Draft | Sent | Paid | Cancelled | PartiallyPaid | LockedBySignature

  /** A calendar day in UTC, the granularity of date columns. */
  datatype Day = Day(year: int, month: int, dayOfMonth: int) {
    predicate Before(other: Day) {
      || year < other.year
      || (year == other.year && month < other.month)
      || (year == other.year && month == other.month && dayOfMonth < other.dayOfMonth)
    }
  }

  /** A point in time: a UTC day and the milliseconds since its midnight. */
  datatype Instant = Instant(day: Day, millis: nat)

  datatype MonthKey = MonthKey(year: int, month: int)

  function MonthOf(day: Day): MonthKey { MonthKey(day.year, day.month) }

  datatype Names = Names(az: string, ru: string, en: string)

  datatype Account = Account(
    ledger: LedgerType,
    code: string,
    names: Names,
    kind: AccountType,
    currency: string,
    parent: Option<nat>,
    fromChart: bool)

  datatype ChartEntry = ChartEntry(names: Names, kind: AccountType, parentCode: string)

  datatype Rule = Rule(active: bool, source: string, target: string)

  datatype Transaction = Transaction(
    day: Day, isFinal: bool, counterparty: Option<nat>, department: Option<nat>)

  datatype Entry = Entry(transaction: nat, account: nat, debit: int, credit: int, ledger: LedgerType)

  datatype Invoice = Invoice(
    counterparty: nat,
    due: Day,
    total: int,
    recognized: bool,
    status: InvoiceStatus,
    paymentReceived: bool)

  datatype Payment = Payment(invoice: nat, amount: int, transaction: Option<nat>, day: Day)

  datatype Counterparty = Counterparty(isVatPayer: bool)

  datatype Branch = Branch(isActive: bool, bankIsActive: bool, bankCode: string)

  datatype BankAccount = BankAccount(branch: Option<nat>, currency: string, isArchived: bool, ledgerCode: string)

  datatype Settings = Settings(closedMonths: set<MonthKey>, lockedUntil: Option<Day>, isVatPayer: bool)

  /** All tables at one moment. */
  datatype Db = Db(
    accounts: seq<Account>,
    transactions: seq<Transaction>,
    entries: seq<Entry>,
    invoices: seq<Invoice>,
    payments: seq<Payment>,
    chart: map<string, ChartEntry>,
    rules: seq<Rule>,
    departments: set<nat>,
    counterparties: map<nat, Counterparty>,
    branches: map<nat, Branch>,
    bankAccounts: seq<BankAccount>,
    settings: Settings)

  datatype Line = Line(code: string, debit: int, credit: int)

  datatype PostParams = PostParams(
    date: Instant,
    isFinal: bool,
    counterparty: Option<nat>,
    department: Option<nat>,
    ledger: LedgerType,
    lines: seq<Line>)

  datatype Error =
    | LinesRequired
    | BothSidesSet(code: string)
    | Unbalanced
    | MonthClosed(month: MonthKey)
    | PeriodLocked
    | CircularChain(code: string)
    | AccountNotFound(code: string)
    | ParentMissing(code: string)
    | DepartmentNotFound
    | AmountNotPositive
    | CounterpartyNotFound
    | AmountAboveLimit
    | NettingAccountsMissing
    | ResidueLeft(amount: int)
    | BadBankCode
    | BranchNotFound
    | BranchInactive
    | SequenceOverflow

  /** Days are ordered as the calendar has them. */
  lemma DaysInOrder(a: Day, b: Day)
    requires 1 <= a.month <= 12 && 1 <= a.dayOfMonth <= 31 && 1 <= b.month <= 12 && 1 <= b.dayOfMonth <= 31
    ensures a.Before(b) <==> 372 * a.year + 31 * a.month + a.dayOfMonth < 372 * b.year + 31 * b.month + b.dayOfMonth
  {}

  predicate Matches(account: Account, ledger: LedgerType, code: string) {
    account.ledger == ledger && account.code == code
  }

  /** `account.findFirst` by ledger and code. */
  function Find(accounts: seq<Account>, ledger: LedgerType, code: string): (found: Option<nat>)
    ensures found.Some? ==> found.value < |accounts| && Matches(accounts[found.value], ledger, code)
    ensures found.None? <==> forall a | a in accounts :: !Matches(a, ledger, code)
  {
    if accounts == [] then None
    else
      var last := |accounts| - 1;
      var earlier := Find(accounts[..last], ledger, code);
      assert accounts == accounts[..last] + [accounts[last]];
      if earlier.Some? then earlier
      else if Matches(accounts[last], ledger, code) then Some(last)
      else None
  }

  predicate Has(accounts: seq<Account>, ledger: LedgerType, code: string) {
    Find(accounts, ledger, code).Some?
  }

  /** The table's uniqueness constraint on ledger and code. */
  ghost predicate UniqueCodes(accounts: seq<Account>) {
    forall i, j | 0 <= i < j < |accounts| ::
      !(accounts[i].ledger == accounts[j].ledger && accounts[i].code == accounts[j].code)
  }

  lemma FindInLonger(accounts: seq<Account>, more: seq<Account>, ledger: LedgerType, code: string)
    ensures Has(accounts, ledger, code) ==>
              Find(accounts + more, ledger, code) == Find(accounts, ledger, code)
    ensures Has(accounts + more, ledger, code) <==>
              Has(accounts, ledger, code) || Has(more, ledger, code)
    decreases |more|
  {
    if more == [] {
      assert accounts + more == accounts;
    } else {
      var n := |more| - 1;
      assert (accounts + more)[..|accounts + more| - 1] == accounts + more[..n];
      FindInLonger(accounts, more[..n], ledger, code);
    }
  }

  /** What invoice `i` has been paid so far. */
  function PaidOn(i: nat): Payment -> int {
    (p: Payment) => if p.invoice == i then p.amount else 0
  }

  function PaidSum(payments: seq<Payment>, i: nat): int {
    Sum(payments, PaidOn(i))
  }

  /** The debit less the credit of one ledger, over all its entries. */
  function NetIn(ledger: LedgerType): Entry -> int {
    (e: Entry) => if e.ledger == ledger then e.debit - e.credit else 0
  }

  function TrialBalance(entries: seq<Entry>, ledger: LedgerType): int {
    Sum(entries, NetIn(ledger))
  }

  function NetOfTransaction(t: nat, ledger: LedgerType): Entry -> int {
    (e: Entry) => if e.transaction == t && e.ledger == ledger then e.debit - e.credit else 0
  }

  function DebitOfTransaction(t: nat, ledger: LedgerType): Entry -> int {
    (e: Entry) => if e.transaction == t && e.ledger == ledger then e.debit else 0
  }
}
