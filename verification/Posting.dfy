/** `postJournalInTransaction` as a function of the tables, and what every post keeps. */
module Posting {
  import opened Outcomes
  import opened Sums
  import opened FirstUses
  import opened Tables
  import opened Balance
  import opened Chart
  import opened Mirror

  /** `date.getTime() <= lockedPeriodUntil.getTime()`, where the lock date stands for its midnight. */
  predicate Locked(settings: Settings, date: Instant) {
    match settings.lockedUntil
    case None => false
    case Some(until) => date.day.Before(until) || (date.day == until && date.millis == 0)
  }

  function CodesOf(lines: seq<Line>): (codes: seq<string>)
    ensures |codes| == |lines| && forall i | 0 <= i < |lines| :: codes[i] == lines[i].code
  {
    seq(|lines|, i requires 0 <= i < |lines| => lines[i].code)
  }

  /** The codes of the lines, each once. */
  function Codes(lines: seq<Line>): (codes: seq<string>)
    ensures forall line | line in lines :: line.code in codes
    ensures forall c | c in codes :: exists line :: line in lines && line.code == c
    ensures forall i, j | 0 <= i < j < |codes| :: codes[i] != codes[j]
  {
    var used := CodesOf(lines);
    assert forall i | 0 <= i < |lines| :: lines[i].code in used;
    Distinct(used)
  }

  /** They come in the order of first use: a code listed earlier is used when a later one has not been. */
  lemma CodesInOrderOfFirstUse(lines: seq<Line>, i: nat, j: nat)
    requires i < j < |Codes(lines)|
    ensures exists k: nat :: k < |lines| && lines[k].code == Codes(lines)[i]
              && forall line | line in lines[..k + 1] :: line.code != Codes(lines)[j]
  {
    var used := CodesOf(lines);
    DistinctInOrderOfFirstUse(used, i, j);
    var k: nat :| k < |used| && used[k] == Distinct(used)[i] && Distinct(used)[j] !in used[..k + 1];
    forall line | line in lines[..k + 1]
      ensures line.code != Codes(lines)[j]
    {
      var x :| 0 <= x < k + 1 && lines[x] == line;
      assert used[..k + 1][x] == line.code;
    }
  }

  function FirstMissing(accounts: seq<Account>, ledger: LedgerType, codes: seq<string>): (code: Option<string>)
    ensures code.None? <==> forall c | c in codes :: Has(accounts, ledger, c)
    ensures code.Some? ==> code.value in codes && !Has(accounts, ledger, code.value)
  {
    if codes == [] then None
    else if !Has(accounts, ledger, codes[0]) then Some(codes[0])
    else FirstMissing(accounts, ledger, codes[1..])
  }

  predicate AllPresent(accounts: seq<Account>, ledger: LedgerType, lines: seq<Line>) {
    forall line | line in lines :: Find(accounts, ledger, line.code).Some?
  }

  /** The journal lines as entries of transaction `t`. */
  function Journal(accounts: seq<Account>, t: nat, ledger: LedgerType, lines: seq<Line>): (entries: seq<Entry>)
    requires AllPresent(accounts, ledger, lines)
    ensures |entries| == |lines|
    ensures forall e | e in entries :: e.transaction == t && e.ledger == ledger
  {
    if lines == [] then []
    else
      var last := lines[|lines| - 1];
      assert last in lines;
      Journal(accounts, t, ledger, lines[..|lines| - 1])
      + [Entry(t, Find(accounts, ledger, last.code).value, last.debit, last.credit, ledger)]
  }

  lemma {:induction false} JournalAt(accounts: seq<Account>, t: nat, ledger: LedgerType, lines: seq<Line>, k: nat)
    requires AllPresent(accounts, ledger, lines) && k < |lines|
    ensures Journal(accounts, t, ledger, lines)[k]
            == Entry(t, Find(accounts, ledger, lines[k].code).value, lines[k].debit, lines[k].credit, ledger)
  {
    if k < |lines| - 1 {
      JournalAt(accounts, t, ledger, lines[..|lines| - 1], k);
    }
  }

  lemma JournalStep(accounts: seq<Account>, t: nat, ledger: LedgerType, lines: seq<Line>, i: nat)
    requires AllPresent(accounts, ledger, lines) && i < |lines|
    ensures AllPresent(accounts, ledger, lines[..i]) && AllPresent(accounts, ledger, lines[..i + 1])
    ensures Find(accounts, ledger, lines[i].code).Some?
    ensures Journal(accounts, t, ledger, lines[..i + 1])
            == Journal(accounts, t, ledger, lines[..i])
               + [Entry(t, Find(accounts, ledger, lines[i].code).value, lines[i].debit, lines[i].credit, ledger)]
  {
    assert lines[i] in lines;
    assert lines[..i + 1][..i] == lines[..i];
  }

  /** The account table a post works with. */
  function AccountsFor(db: Db, p: PostParams): Result<seq<Account>, Error> {
    if p.ledger == Nas then EnsureAll(db.accounts, db.chart, Codes(p.lines)) else Ok(db.accounts)
  }

  function PostedEntries(db: Db, p: PostParams, accounts: seq<Account>): seq<Entry>
    requires AllPresent(accounts, p.ledger, p.lines)
  {
    var t := |db.transactions|;
    Journal(accounts, t, p.ledger, p.lines)
    + (if p.ledger == Nas then MirrorEntries(db.rules, accounts, t, p.lines) else [])
  }

  function Posted(db: Db, p: PostParams, accounts: seq<Account>): Db
    requires AllPresent(accounts, p.ledger, p.lines)
  {
    db.(accounts := accounts,
        transactions := db.transactions + [Transaction(p.date.day, p.isFinal, p.counterparty, p.department)],
        entries := db.entries + PostedEntries(db, p, accounts))
  }

  /** The tables after a post and the id of the new transaction, or the error that undoes it. */
  function Post(db: Db, p: PostParams): Result<(Db, nat), Error> {
    if BalanceError(p.lines).Some? then Err(BalanceError(p.lines).value)
    else if MonthOf(p.date.day) in db.settings.closedMonths then Err(MonthClosed(MonthOf(p.date.day)))
    else if Locked(db.settings, p.date) then Err(PeriodLocked)
    else
      match AccountsFor(db, p)
      case Err(e) => Err(e)
      case Ok(accounts) =>
        var missing := FirstMissing(accounts, p.ledger, Codes(p.lines));
        if missing.Some? then Err(AccountNotFound(missing.value))
        else if p.department.Some? && p.department.value !in db.departments then Err(DepartmentNotFound)
        else Ok((Posted(db, p, accounts), |db.transactions|))
  }

  /** A sum over what a NAS post writes is a sum over its lines, when IFRS entries do not count. */
  lemma SumOfPosted(
    db: Db, p: PostParams, accounts: seq<Account>, ofEntry: Entry -> int, ofLine: Line -> int)
    requires p.ledger == Nas && AllPresent(accounts, Nas, p.lines)
    requires forall e: Entry | e.ledger == Ifrs :: ofEntry(e) == 0
    requires forall line | line in p.lines ::
               ofEntry(Entry(|db.transactions|, Find(accounts, Nas, line.code).value, line.debit, line.credit, Nas))
               == ofLine(line)
    ensures Sum(PostedEntries(db, p, accounts), ofEntry) == Sum(p.lines, ofLine)
  {
    var t := |db.transactions|;
    var mirror := MirrorEntries(db.rules, accounts, t, p.lines);
    SumOfConcat(Journal(accounts, t, Nas, p.lines), mirror, ofEntry);
    SumOfJournal(accounts, t, Nas, p.lines, ofEntry, ofLine);
    SumOfZeros(mirror, ofEntry);
  }

  /** All accounts can be had exactly when each line's can. */
  lemma AccountsCanBeHadExactlyWhen(db: Db, p: PostParams)
    ensures AccountsFor(db, p).Ok? && FirstMissing(AccountsFor(db, p).value, p.ledger, Codes(p.lines)).None?
            <==> forall line | line in p.lines ::
                   if p.ledger == Nas then Grounded(db.accounts, db.chart, line.code)
                   else Has(db.accounts, Ifrs, line.code)
  {
    hide EnsureAll, Grounded, Find, Codes;
    var codes := Codes(p.lines);
    if p.ledger == Nas {
      EnsureAllSucceedsExactlyWhenEveryClimbLands(db.accounts, db.chart, codes);
      if AccountsFor(db, p).Ok? {
        EnsureAllGrowsByChart(db.accounts, db.chart, codes);
      }
    }
    forall line | line in p.lines
      ensures line.code in codes
    {}
  }

  /** A post goes through exactly when its lines balance, its date is open, every account exists or can be
      created from the chart, and its department exists. */
  lemma PostSucceedsExactlyWhen(db: Db, p: PostParams)
    ensures Post(db, p).Ok? <==>
              && Balanced(p.lines)
              && MonthKey(p.date.day.year, p.date.day.month) !in db.settings.closedMonths
              && (db.settings.lockedUntil.Some? ==>
                    var until := db.settings.lockedUntil.value;
                    until.Before(p.date.day) || (p.date.day == until && p.date.millis > 0))
              && (forall line | line in p.lines ::
                    if p.ledger == Nas then Grounded(db.accounts, db.chart, line.code)
                    else Has(db.accounts, Ifrs, line.code))
              && (p.department.Some? ==> p.department.value in db.departments)
  {
    AccountsCanBeHadExactlyWhen(db, p);
    hide AccountsFor, Grounded, Find, Codes, FirstMissing;
  }

  lemma {:induction false} EnsureAllErrors(accounts: seq<Account>, chart: map<string, ChartEntry>, codes: seq<string>)
    requires EnsureAll(accounts, chart, codes).Err?
    ensures EnsureAll(accounts, chart, codes).error.CircularChain?
            || EnsureAll(accounts, chart, codes).error.AccountNotFound?
    decreases |codes|
  {
    if Ensure(accounts, chart, codes[0], {}).Err? {
      var path := WhyEnsureFails(accounts, chart, codes[0], {});
    } else {
      EnsureAllErrors(Ensure(accounts, chart, codes[0], {}).value, chart, codes[1..]);
    }
  }

  /** What a refused post is refused for: the lines before the month, the month before the lock date, the lock
      date before the accounts, the accounts before the department. */
  lemma WhyPostFails(db: Db, p: PostParams)
    requires Post(db, p).Err?
    ensures var day, settings := p.date.day, db.settings;
            var monthOpen := MonthKey(day.year, day.month) !in settings.closedMonths;
            var locked := settings.lockedUntil.Some?
                          && (day.Before(settings.lockedUntil.value) || p.date == Instant(settings.lockedUntil.value, 0));
            var accountsThere := forall line | line in p.lines ::
                                   if p.ledger == Nas then Grounded(db.accounts, db.chart, line.code)
                                   else Has(db.accounts, Ifrs, line.code);
            match Post(db, p).error
            case LinesRequired => p.lines == []
            case BothSidesSet(code) =>
              exists k: nat :: k < |p.lines|
                && p.lines[k].debit > 0 && p.lines[k].credit > 0 && p.lines[k].code == code
                && forall j | 0 <= j < k :: !(p.lines[j].debit > 0 && p.lines[j].credit > 0)
            case Unbalanced =>
              && p.lines != [] && (forall line | line in p.lines :: !(line.debit > 0 && line.credit > 0))
              && !(Sum(p.lines, DebitOf()) == Sum(p.lines, CreditOf()) > 0)
            case MonthClosed(month) => Balanced(p.lines) && !monthOpen && month == MonthKey(day.year, day.month)
            case PeriodLocked => Balanced(p.lines) && monthOpen && locked
            case DepartmentNotFound =>
              && Balanced(p.lines) && monthOpen && !locked && accountsThere
              && p.department.Some? && p.department.value !in db.departments
            case CircularChain(_) => Balanced(p.lines) && monthOpen && !locked && !accountsThere && p.ledger == Nas
            case AccountNotFound(_) => Balanced(p.lines) && monthOpen && !locked && !accountsThere
            case _ => false
  {
    AccountsCanBeHadExactlyWhen(db, p);
    hide EnsureAll, Codes, FirstMissing, Grounded, Find;
    if p.ledger == Nas && AccountsFor(db, p).Err? {
      EnsureAllErrors(db.accounts, db.chart, Codes(p.lines));
    }
  }

  /** The lock date refuses exactly the posts before it and those at its midnight. */
  lemma LockRefusesExactly(db: Db, p: PostParams, until: Day)
    requires Balanced(p.lines) && MonthKey(p.date.day.year, p.date.day.month) !in db.settings.closedMonths
    requires db.settings.lockedUntil == Some(until)
    ensures Post(db, p) == Err(PeriodLocked) <==> p.date.day.Before(until) || p.date == Instant(until, 0)
  {
    if Post(db, p).Err? {
      WhyPostFails(db, p);
    }
    hide AccountsFor, FirstMissing, Codes;
  }

  // ----- the shape of a successful post -----

  /** A post only appends, and everything it appends belongs to the new transaction. */
  lemma PostAppends(db: Db, p: PostParams)
    requires Post(db, p).Ok?
    ensures var (after, t) := Post(db, p).value;
            && t == |db.transactions|
            && GrownByChart(db.accounts, after.accounts, db.chart)
            && AllPresent(after.accounts, p.ledger, p.lines)
            && after == Posted(db, p, after.accounts)
            && db.entries < after.entries
            && (forall e | e in after.entries[|db.entries|..] :: e.transaction == t)
  {
    var accounts := AccountsFor(db, p).value;
    if p.ledger == Nas {
      EnsureAllGrowsByChart(db.accounts, db.chart, Codes(p.lines));
    }
    forall line | line in p.lines
      ensures Find(accounts, p.ledger, line.code).Some?
    {
      assert Has(accounts, p.ledger, line.code);
    }
    var added := PostedEntries(db, p, accounts);
    var after := Posted(db, p, accounts);
    assert Post(db, p) == Ok((after, |db.transactions|));
    assert after.entries[|db.entries|..] == added;
  }

  /** The transaction row says what was asked for, and no table but accounts, transactions and entries changes. */
  lemma PostWritesTheRow(db: Db, p: PostParams)
    requires Post(db, p).Ok?
    ensures var after := Post(db, p).value.0;
            && |after.transactions| == |db.transactions| + 1 && db.transactions <= after.transactions
            && after.transactions[|db.transactions|].day == p.date.day
            && after.transactions[|db.transactions|].isFinal == p.isFinal
            && after.transactions[|db.transactions|].counterparty == p.counterparty
            && after.transactions[|db.transactions|].department == p.department
            && after.invoices == db.invoices && after.payments == db.payments && after.bankAccounts == db.bankAccounts
            && after.chart == db.chart && after.rules == db.rules && after.settings == db.settings
            && after.departments == db.departments && after.counterparties == db.counterparties
            && after.branches == db.branches
            && (p.ledger == Ifrs ==> after.accounts == db.accounts)
  {
    PostAppends(db, p);
  }

  /** Every account a post creates is on the climb of one of its lines. */
  lemma PostCreatesOnlyWhatIsNeeded(db: Db, p: PostParams, i: nat) returns (line: Line, path: seq<string>)
    requires Post(db, p).Ok? && |db.accounts| <= i < |Post(db, p).value.0.accounts|
    ensures line in p.lines && IsGroundedClimb(db.accounts, db.chart, line.code, path)
    ensures Post(db, p).value.0.accounts[i].code in MissingOn(db.accounts, path)
  {
    AccountsOfPost(db, p);
    hide Post, EnsureAll, Codes;
    var c: string;
    c, path := EnsureAllCreatesOnlyWhatIsNeeded(db.accounts, db.chart, Codes(p.lines), i);
    line :| line in p.lines && line.code == c;
  }

  /** The new entries: first the lines, one for one, each on the account of the ledger with its code, and then
      the mirror, if there is one. */
  lemma PostWritesTheLines(db: Db, p: PostParams, k: nat)
    requires Post(db, p).Ok? && k < |p.lines|
    ensures var after := Post(db, p).value.0;
            && |db.entries| + k < |after.entries| && db.entries <= after.entries
            && var e := after.entries[|db.entries| + k];
               && e.transaction == |db.transactions| && e.ledger == p.ledger
               && e.debit == p.lines[k].debit && e.credit == p.lines[k].credit
               && e.account < |after.accounts|
               && after.accounts[e.account].ledger == p.ledger && after.accounts[e.account].code == p.lines[k].code
    ensures var after := Post(db, p).value.0;
            after.entries[|db.entries| + |p.lines|..]
            == if p.ledger == Nas then MirrorEntries(db.rules, after.accounts, |db.transactions|, p.lines) else []
  {
    PostAppends(db, p);
    var accounts := Post(db, p).value.0.accounts;
    JournalAt(accounts, |db.transactions|, p.ledger, p.lines, k);
    assert p.lines[k] in p.lines;
    hide Post, Journal, MirrorEntries, GrownByChart;
  }

  /** For NAS the lookup after the ensure loop cannot fail: a post that gets that far has all its accounts. */
  lemma NasLookupNeverFails(db: Db, p: PostParams)
    requires p.ledger == Nas && AccountsFor(db, p).Ok?
    ensures FirstMissing(AccountsFor(db, p).value, Nas, Codes(p.lines)).None?
  {
    EnsureAllGrowsByChart(db.accounts, db.chart, Codes(p.lines));
  }

  /** Posting the same lines again finds every account in place. */
  lemma RepeatedPostCreatesNoAccount(db: Db, p: PostParams)
    requires Post(db, p).Ok?
    ensures var after := Post(db, p).value.0;
            Post(after, p).Ok? && Post(after, p).value.0.accounts == after.accounts
  {
    hide Post, EnsureAll, Find, Grounded, Codes;
    var after := Post(db, p).value.0;
    PostAppends(db, p);
    PostSucceedsExactlyWhen(db, p);
    forall line | line in p.lines
      ensures p.ledger == Nas ==> Grounded(after.accounts, after.chart, line.code)
    {
      if p.ledger == Nas {
        PresentIsGrounded(after.accounts, after.chart, line.code);
      }
    }
    PostSucceedsExactlyWhen(after, p);
    AccountsOfPost(after, p);
    if p.ledger == Nas {
      forall c | c in Codes(p.lines)
        ensures Has(after.accounts, Nas, c)
      {
        var line :| line in p.lines && line.code == c;
      }
      EnsureAllExistingIsIdle(after.accounts, after.chart, Codes(p.lines));
    }
  }

  lemma PresentIsGrounded(accounts: seq<Account>, chart: map<string, ChartEntry>, code: string)
    requires Has(accounts, Nas, code)
    ensures Grounded(accounts, chart, code)
  {
    assert IsGroundedClimb(accounts, chart, code, [code]);
  }

  lemma AccountsOfPost(db: Db, p: PostParams)
    requires Post(db, p).Ok?
    ensures AccountsFor(db, p) == Ok(Post(db, p).value.0.accounts)
  {
    hide EnsureAll, Codes, PostedEntries;
  }

  // ----- the double-entry invariant -----

  ghost predicate TransactionBalances(entries: seq<Entry>, t: nat) {
    && (forall ledger :: Sum(entries, NetOfTransaction(t, ledger)) == 0)
    && (Sum(entries, DebitOfTransaction(t, Nas)) > 0 || Sum(entries, DebitOfTransaction(t, Ifrs)) > 0)
  }

  ghost predicate Refers(db: Db, e: Entry) {
    && e.transaction < |db.transactions|
    && e.account < |db.accounts|
    && e.ledger == db.accounts[e.account].ledger
  }

  ghost predicate Pays(db: Db, p: Payment) {
    p.transaction.Some? ==> p.transaction.value < |db.transactions|
  }

  /** Codes are unique, entries point at existing rows of their own ledger, payments at existing
      transactions, and every transaction balances. */
  ghost predicate Consistent(db: Db) {
    && UniqueCodes(db.accounts)
    && (forall e | e in db.entries :: Refers(db, e))
    && (forall p | p in db.payments :: Pays(db, p))
    && (forall t: nat | t < |db.transactions| :: TransactionBalances(db.entries, t))
  }

  lemma {:induction false} SumOfJournal(
    accounts: seq<Account>, t: nat, ledger: LedgerType, lines: seq<Line>, ofEntry: Entry -> int, ofLine: Line -> int)
    requires AllPresent(accounts, ledger, lines)
    requires forall line | line in lines ::
               ofEntry(Entry(t, Find(accounts, ledger, line.code).value, line.debit, line.credit, ledger))
               == ofLine(line)
    ensures Sum(Journal(accounts, t, ledger, lines), ofEntry) == Sum(lines, ofLine)
  {
    if lines != [] {
      var n := |lines| - 1;
      assert lines[n] in lines;
      SumOfJournal(accounts, t, ledger, lines[..n], ofEntry, ofLine);
      var entries := Journal(accounts, t, ledger, lines);
      assert entries[..n] == Journal(accounts, t, ledger, lines[..n]);
    }
  }

  function NetOnLine(): Line -> int { (l: Line) => l.debit - l.credit }

  lemma PostedTotals(db: Db, p: PostParams, accounts: seq<Account>, ledger: LedgerType)
    requires Balanced(p.lines) && AllPresent(accounts, p.ledger, p.lines)
    ensures var added, t := PostedEntries(db, p, accounts), |db.transactions|;
            && Sum(added, NetOfTransaction(t, ledger)) == 0
            && (ledger == p.ledger ==> Sum(added, DebitOfTransaction(t, ledger)) == Sum(p.lines, DebitOf()))
  {
    var t := |db.transactions|;
    var journal := Journal(accounts, t, p.ledger, p.lines);
    var mirror := if p.ledger == Nas then MirrorEntries(db.rules, accounts, t, p.lines) else [];
    SumOfConcat(journal, mirror, NetOfTransaction(t, ledger));
    SumOfConcat(journal, mirror, DebitOfTransaction(t, ledger));
    if ledger == p.ledger {
      SumOfJournal(accounts, t, ledger, p.lines, NetOfTransaction(t, ledger), NetOnLine());
      SumOfJournal(accounts, t, ledger, p.lines, DebitOfTransaction(t, ledger), DebitOf());
      SumOfDifference(p.lines, DebitOf(), CreditOf(), NetOnLine());
    } else {
      SumOfZeros(journal, NetOfTransaction(t, ledger));
    }
    MirrorBalances(db.rules, accounts, t, p.lines, ledger);
  }

  /** What a post writes balances in each ledger, and is positive in the ledger posted to. */
  lemma PostedEntriesBalance(db: Db, p: PostParams, accounts: seq<Account>)
    requires Balanced(p.lines) && AllPresent(accounts, p.ledger, p.lines)
    ensures var added := PostedEntries(db, p, accounts);
            && TransactionBalances(added, |db.transactions|)
            && Sum(added, DebitOfTransaction(|db.transactions|, p.ledger)) == Sum(p.lines, DebitOf()) > 0
  {
    forall ledger
      ensures Sum(PostedEntries(db, p, accounts), NetOfTransaction(|db.transactions|, ledger)) == 0
    {
      PostedTotals(db, p, accounts, ledger);
    }
    PostedTotals(db, p, accounts, p.ledger);
  }

  /** Entries of other transactions do not count. */
  lemma TotalsOfConcat(a: seq<Entry>, b: seq<Entry>, t: nat, ledger: LedgerType)
    ensures Sum(a + b, NetOfTransaction(t, ledger))
            == Sum(a, NetOfTransaction(t, ledger)) + Sum(b, NetOfTransaction(t, ledger))
    ensures Sum(a + b, DebitOfTransaction(t, ledger))
            == Sum(a, DebitOfTransaction(t, ledger)) + Sum(b, DebitOfTransaction(t, ledger))
    ensures (forall e | e in a :: e.transaction != t) ==>
              Sum(a, NetOfTransaction(t, ledger)) == 0 == Sum(a, DebitOfTransaction(t, ledger))
    ensures (forall e | e in b :: e.transaction != t) ==>
              Sum(b, NetOfTransaction(t, ledger)) == 0 == Sum(b, DebitOfTransaction(t, ledger))
  {
    SumOfConcat(a, b, NetOfTransaction(t, ledger));
    SumOfConcat(a, b, DebitOfTransaction(t, ledger));
    if forall e | e in a :: e.transaction != t {
      SumOfZeros(a, NetOfTransaction(t, ledger));
      SumOfZeros(a, DebitOfTransaction(t, ledger));
    }
    if forall e | e in b :: e.transaction != t {
      SumOfZeros(b, NetOfTransaction(t, ledger));
      SumOfZeros(b, DebitOfTransaction(t, ledger));
    }
  }

  lemma BalancesOnOneSide(a: seq<Entry>, b: seq<Entry>, t: nat)
    requires || (TransactionBalances(a, t) && forall e | e in b :: e.transaction != t)
             || (TransactionBalances(b, t) && forall e | e in a :: e.transaction != t)
    ensures TransactionBalances(a + b, t)
  {
    forall ledger
      ensures Sum(a + b, NetOfTransaction(t, ledger)) == 0
    {
      TotalsOfConcat(a, b, t, ledger);
    }
    TotalsOfConcat(a, b, t, Nas);
    TotalsOfConcat(a, b, t, Ifrs);
  }

  lemma PostedEntriesRefer(db: Db, p: PostParams, accounts: seq<Account>, k: nat)
    requires AllPresent(accounts, p.ledger, p.lines) && k < |PostedEntries(db, p, accounts)|
    ensures Refers(Posted(db, p, accounts), PostedEntries(db, p, accounts)[k])
  {
    hide Journal, Copies;
    if k < |p.lines| {
      JournalAt(accounts, |db.transactions|, p.ledger, p.lines, k);
      assert p.lines[k] in p.lines;
    } else {
      CopiesAt(db.rules, accounts, |db.transactions|, p.lines, k - |p.lines|);
    }
  }

  lemma PostKeepsConsistent(db: Db, p: PostParams)
    requires Consistent(db) && Post(db, p).Ok?
    ensures Consistent(Post(db, p).value.0)
  {
    PostAppends(db, p);
    var (after, n) := Post(db, p).value;
    var added := PostedEntries(db, p, after.accounts);
    forall e | e in after.entries
      ensures Refers(after, e)
    {
      if e in db.entries {
        assert Refers(db, e);
      } else {
        var k :| 0 <= k < |added| && added[k] == e;
        PostedEntriesRefer(db, p, after.accounts, k);
      }
    }
    forall q | q in after.payments
      ensures Pays(after, q)
    {
      assert Pays(db, q);
    }
    PostedEntriesBalance(db, p, after.accounts);
    assert after.entries[|db.entries|..] == added;
    forall t: nat | t < |after.transactions|
      ensures TransactionBalances(after.entries, t)
    {
      if t < n {
        assert forall e | e in added :: e.transaction != t;
        BalancesOnOneSide(db.entries, added, t);
      } else {
        assert forall e | e in db.entries :: e.transaction != t by {
          assert forall e | e in db.entries :: Refers(db, e);
        }
        BalancesOnOneSide(db.entries, added, t);
      }
    }
  }

  /** Changes outside the journal keep consistency, as long as accounts are only added under fresh codes. */
  lemma SameJournalKeepsConsistent(db: Db, after: Db)
    requires Consistent(db)
    requires after.entries == db.entries && after.transactions == db.transactions
    requires db.accounts <= after.accounts && UniqueCodes(after.accounts)
    requires forall p | p in after.payments :: Pays(db, p)
    ensures Consistent(after)
  {}

  function NetBelow(n: nat, ledger: LedgerType): Entry -> int {
    (e: Entry) => if e.transaction < n && e.ledger == ledger then e.debit - e.credit else 0
  }

  lemma {:induction false} TransactionsAddUp(entries: seq<Entry>, n: nat, ledger: LedgerType)
    requires forall t: nat | t < n :: Sum(entries, NetOfTransaction(t, ledger)) == 0
    ensures Sum(entries, NetBelow(n, ledger)) == 0
  {
    if n == 0 {
      SumOfZeros(entries, NetBelow(n, ledger));
    } else {
      TransactionsAddUp(entries, n - 1, ledger);
      SumOfDifference(entries, NetBelow(n, ledger), NetBelow(n - 1, ledger), NetOfTransaction(n - 1, ledger));
    }
  }

  /** Transaction by transaction becomes ledger by ledger: each trial balance is zero. */
  lemma TrialBalanceIsZero(db: Db, ledger: LedgerType)
    requires Consistent(db)
    ensures TrialBalance(db.entries, ledger) == 0
  {
    forall t: nat | t < |db.transactions|
      ensures Sum(db.entries, NetOfTransaction(t, ledger)) == 0
    {
      assert TransactionBalances(db.entries, t);
    }
    TransactionsAddUp(db.entries, |db.transactions|, ledger);
    assert forall e | e in db.entries :: Refers(db, e);
    SumOfEqualAmounts(db.entries, NetIn(ledger), NetBelow(|db.transactions|, ledger));
  }

  // ----- closed months and the lock date -----

  function DatedIn(db: Db, e: Entry, days: Day -> bool): bool {
    e.transaction < |db.transactions| && days(db.transactions[e.transaction].day)
  }

  /** The entries of transactions on the given days, in order. */
  function EntriesOn(db: Db, entries: seq<Entry>, days: Day -> bool): seq<Entry> {
    if entries == [] then []
    else
      var last := entries[|entries| - 1];
      EntriesOn(db, entries[..|entries| - 1], days) + (if DatedIn(db, last, days) then [last] else [])
  }

  function EntriesOf(db: Db, days: Day -> bool): seq<Entry> { EntriesOn(db, db.entries, days) }

  function InMonth(month: MonthKey): Day -> bool { (day: Day) => MonthOf(day) == month }

  function UpTo(until: Day): Day -> bool { (day: Day) => !until.Before(day) }

  lemma {:induction false} EntriesOnMoreTransactions(db: Db, after: Db, entries: seq<Entry>, days: Day -> bool)
    requires db.transactions <= after.transactions
    requires forall e | e in entries :: e.transaction < |db.transactions|
    ensures EntriesOn(after, entries, days) == EntriesOn(db, entries, days)
  {
    if entries != [] {
      assert entries[|entries| - 1] in entries;
      EntriesOnMoreTransactions(db, after, entries[..|entries| - 1], days);
    }
  }

  lemma {:induction false} EntriesOnOneTransaction(
    db: Db, entries: seq<Entry>, added: seq<Entry>, t: nat, days: Day -> bool)
    requires t < |db.transactions| && forall e | e in added :: e.transaction == t
    ensures EntriesOn(db, entries + added, days)
            == EntriesOn(db, entries, days) + if days(db.transactions[t].day) then added else []
  {
    if added == [] {
      assert entries + added == entries;
    } else {
      var n := |added| - 1;
      assert added[n] in added;
      EntriesOnOneTransaction(db, entries, added[..n], t, days);
      assert (entries + added)[..|entries + added| - 1] == entries + added[..n];
      assert added[..n] + [added[n]] == added;
    }
  }

  /** A post changes what is recorded for a set of days exactly when its own day is one of them. */
  lemma PostTouchesOnlyItsDay(db: Db, p: PostParams, days: Day -> bool)
    requires Consistent(db) && Post(db, p).Ok?
    ensures EntriesOf(Post(db, p).value.0, days) == EntriesOf(db, days) <==> !days(p.date.day)
  {
    PostAppends(db, p);
    var (after, t) := Post(db, p).value;
    var added := after.entries[|db.entries|..];
    assert after.entries == db.entries + added;
    assert forall e | e in db.entries :: Refers(db, e);
    EntriesOnMoreTransactions(db, after, db.entries, days);
    EntriesOnOneTransaction(after, db.entries, added, t, days);
  }

  lemma PostKeepsClosedMonth(db: Db, p: PostParams, month: MonthKey)
    requires Consistent(db) && Post(db, p).Ok? && month in db.settings.closedMonths
    ensures EntriesOf(Post(db, p).value.0, InMonth(month)) == EntriesOf(db, InMonth(month))
  {
    PostTouchesOnlyItsDay(db, p, InMonth(month));
  }

  /** Below the lock date nothing moves. On the lock date itself something does, exactly when a post
      is dated that day: the check compares with its midnight, the column keeps the day. */
  lemma LockFreezesUnlessPostedOnTheLockDay(db: Db, p: PostParams, until: Day)
    requires Consistent(db) && Post(db, p).Ok? && db.settings.lockedUntil == Some(until)
    ensures EntriesOf(Post(db, p).value.0, UpTo(until)) == EntriesOf(db, UpTo(until)) <==> p.date.day != until
  {
    PostTouchesOnlyItsDay(db, p, UpTo(until));
  }
}
