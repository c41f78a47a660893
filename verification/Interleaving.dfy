/** Runs in which posts, invoice payments, account openings, edits and nettings interleave.
    A netting takes two steps: the reads that check it, and later the transaction that commits it. */
module Interleaving {
  import opened Outcomes
  import opened Sums
  import opened Tables
  import opened Chart
  import opened Posting
  import opened AccountBalances
  import opened Greedy
  import opened Allocation
  import opened Netting
  import opened BankSubaccounts

  datatype Machine = Machine(
    db: Db,
    plans: seq<Plan>,          // nettings that have read and not yet committed
    committed: seq<nat>)       // the transactions of committed nettings

  datatype Step =
    | PostJournal(params: PostParams)
    | PlanNetting(cp: nat, amount: int)
    | CommitNetting(plan: nat, now: Instant)
    | PayInvoice(params: PostParams, invoice: nat, amount: int)
    | OpenSubaccount(branch: nat, currency: string, names: Names)
    | PutInvoice(id: nat, row: Invoice)
    | PutRules(rules: seq<Rule>)
    | PutSettings(settings: Settings)

  /** A payment from outside netting: its own journal transaction and a payment row linked to it. */
  function PaidBy(db: Db, params: PostParams, invoice: nat, amount: int): Result<(Db, nat), Error> {
    match Post(db, params)
    case Err(e) => Err(e)
    case Ok((posted, t)) =>
      Ok((posted.(payments := posted.payments + [Payment(invoice, amount, Some(t), params.date.day)]), t))
  }

  /** The transaction a step writes, with the tables it leaves, if it writes one. */
  function Written(m: Machine, step: Step): Option<(Db, nat)> {
    match step
    case PostJournal(params) =>
      if Post(m.db, params).Ok? then Some(Post(m.db, params).value) else None
    case CommitNetting(k, now) =>
      if k < |m.plans| && Commit(m.db, m.plans[k], now).Ok? then Some(Commit(m.db, m.plans[k], now).value) else None
    case PayInvoice(params, invoice, amount) =>
      if PaidBy(m.db, params, invoice, amount).Ok? then Some(PaidBy(m.db, params, invoice, amount).value) else None
    case _ => None
  }

  /** The date of the transaction a step tries to write. */
  function DateOf(step: Step): Option<Instant> {
    match step
    case PostJournal(params) => Some(params.date)
    case CommitNetting(_, now) => Some(now)
    case PayInvoice(params, _, _) => Some(params.date)
    case _ => None
  }

  /** One step. A step that fails leaves the tables as they were. */
  function Next(m: Machine, step: Step): Machine {
    match step
    case PostJournal(_) =>
      if Written(m, step).Some? then m.(db := Written(m, step).value.0) else m
    case PayInvoice(_, _, _) =>
      if Written(m, step).Some? then m.(db := Written(m, step).value.0) else m
    case PlanNetting(cp, amount) =>
      var r := PlanFor(m.db, cp, amount);
      if r.Ok? then m.(plans := m.plans + [r.value]) else m
    case CommitNetting(k, _) =>
      if k >= |m.plans| then m
      else
        var rest := m.plans[..k] + m.plans[k + 1..];
        if Written(m, step).None? then m.(plans := rest)
        else Machine(Written(m, step).value.0, rest, m.committed + [Written(m, step).value.1])
    case OpenSubaccount(branch, currency, names) =>
      var r := EnsureSubaccount(m.db, branch, currency, names);
      if r.Ok? then m.(db := Attach(r.value.0, branch, currency, r.value.1.code)) else m
    case PutInvoice(id, row) =>
      if id < |m.db.invoices| then m.(db := m.db.(invoices := m.db.invoices[id := row]))
      else m.(db := m.db.(invoices := m.db.invoices + [row]))
    case PutRules(rules) => m.(db := m.db.(rules := rules))
    case PutSettings(settings) => m.(db := m.db.(settings := settings))
  }

  function RunSteps(m: Machine, steps: seq<Step>): Machine
    decreases |steps|
  {
    if steps == [] then m else RunSteps(Next(m, steps[0]), steps[1..])
  }

  // ----- what every step does to the ledger -----

  /** The tables grow by one transaction `t` of that day and its entries; accounts are only added. */
  ghost predicate Writes(db: Db, after: Db, t: nat, day: Day) {
    && t == |db.transactions|
    && |after.transactions| == t + 1 && db.transactions <= after.transactions
    && after.transactions[t].day == day
    && db.entries < after.entries
    && (forall e | e in after.entries[|db.entries|..] :: e.transaction == t)
    && db.payments <= after.payments
    && (forall p | p in after.payments[|db.payments|..] :: p.transaction == Some(t))
    && GrownByChart(db.accounts, after.accounts, db.chart)
    && after.chart == db.chart
    && after.settings == db.settings
    && after.branches == db.branches
  }

  lemma PostWrites(db: Db, params: PostParams)
    requires Consistent(db) && Post(db, params).Ok?
    ensures var (after, t) := Post(db, params).value;
            Writes(db, after, t, params.date.day) && Consistent(after)
  {
    PostAppends(db, params);
    PostKeepsConsistent(db, params);
  }

  lemma PaidByWrites(db: Db, params: PostParams, invoice: nat, amount: int)
    requires Consistent(db) && PaidBy(db, params, invoice, amount).Ok?
    ensures var (after, t) := PaidBy(db, params, invoice, amount).value;
            Writes(db, after, t, params.date.day) && Consistent(after)
  {
    hide Post;
    PostWrites(db, params);
    SameJournalKeepsConsistent(Post(db, params).value.0, PaidBy(db, params, invoice, amount).value.0);
  }

  lemma CommitWrites(db: Db, plan: Plan, now: Instant)
    requires Consistent(db) && plan.amount > 0 && Commit(db, plan, now).Ok?
    ensures var (after, t) := Commit(db, plan, now).value;
            Writes(db, after, t, now.day) && Consistent(after)
  {
    hide Post, Allocate, Consistent;
    var params := NettingPost(plan.cp, plan.amount, plan.vatPosted, now);
    CommitOutcome(db, plan, now);
    PostWrites(db, params);
    var posted := Post(db, params).value.0;
    var (after, t) := Commit(db, plan, now).value;
    PostAppends(db, params);
  }

  lemma WrittenIsOneTransaction(m: Machine, step: Step)
    requires Consistent(m.db) && Written(m, step).Some?
    requires forall plan | plan in m.plans :: plan.amount > 0
    ensures var (after, t) := Written(m, step).value;
            DateOf(step).Some? && Writes(m.db, after, t, DateOf(step).value.day) && Consistent(after)
  {
    hide Post, Commit, PaidBy, Consistent, Writes;
    match step
    case PostJournal(params) => PostWrites(m.db, params);
    case PayInvoice(params, invoice, amount) => PaidByWrites(m.db, params, invoice, amount);
    case CommitNetting(k, now) =>
      assert m.plans[k] in m.plans;
      CommitWrites(m.db, m.plans[k], now);
  }

  // ----- 211 credits against linked payments -----

  function ReceivableCredit(accounts: seq<Account>, t: nat): Entry -> int {
    (e: Entry) =>
      if e.transaction == t && e.ledger == Nas && e.account < |accounts| && accounts[e.account].code == RECEIVABLE
      then e.credit else 0
  }

  /** What transaction `t` credits to 211 beyond the invoice payments linked to it. */
  function Gap(db: Db, t: nat): int {
    Sum(db.entries, ReceivableCredit(db.accounts, t)) - Sum(db.payments, LinkedTo(t))
  }

  ghost predicate Sound(m: Machine) {
    && Consistent(m.db)
    && (forall plan | plan in m.plans :: plan.amount > 0)
    && (forall c | c in m.committed :: c < |m.db.transactions| && 0 <= Gap(m.db, c) <= 1)
    && NoRepeats(m.committed)
  }

  /** The invariant holds before anything is posted. */
  lemma StartIsSound(db: Db)
    requires db.transactions == [] && db.entries == [] && UniqueCodes(db.accounts)
    requires forall p | p in db.payments :: p.transaction.None?
    ensures Sound(Machine(db, [], []))
  {}

  lemma AccountsOnlyAdded(db: Db, after: Db, entries: seq<Entry>, t: nat)
    requires (forall e | e in entries :: Refers(db, e)) && db.accounts <= after.accounts
    ensures Sum(entries, ReceivableCredit(after.accounts, t)) == Sum(entries, ReceivableCredit(db.accounts, t))
  {
    forall e | e in entries
      ensures ReceivableCredit(after.accounts, t)(e) == ReceivableCredit(db.accounts, t)(e)
    {
      assert Refers(db, e);
    }
    SumOfEqualAmounts(entries, ReceivableCredit(after.accounts, t), ReceivableCredit(db.accounts, t));
  }

  lemma LaterWritesKeepGap(db: Db, after: Db, t: nat, day: Day, c: nat)
    requires Consistent(db) && Writes(db, after, t, day) && c < t
    ensures Gap(after, c) == Gap(db, c)
  {
    var entries, payments := after.entries[|db.entries|..], after.payments[|db.payments|..];
    assert after.entries == db.entries + entries && after.payments == db.payments + payments;
    SumOfConcat(db.entries, entries, ReceivableCredit(after.accounts, c));
    SumOfConcat(db.payments, payments, LinkedTo(c));
    SumOfZeros(entries, ReceivableCredit(after.accounts, c));
    SumOfZeros(payments, LinkedTo(c));
    AccountsOnlyAdded(db, after, db.entries, c);
  }

  function CreditOnReceivable(): Line -> int {
    (l: Line) => if l.code == RECEIVABLE then l.credit else 0
  }

  lemma PostedCredit(db: Db, plan: Plan, now: Instant, accounts: seq<Account>)
    requires AllPresent(accounts, Nas, NettingLines(plan.amount, plan.vatPosted))
    ensures Sum(PostedEntries(db, NettingPost(plan.cp, plan.amount, plan.vatPosted, now), accounts),
                ReceivableCredit(accounts, |db.transactions|)) == plan.amount
  {
    hide PostedEntries;
    var p := NettingPost(plan.cp, plan.amount, plan.vatPosted, now);
    SumOfPosted(db, p, accounts, ReceivableCredit(accounts, |db.transactions|), CreditOnReceivable());
    SumOfNettingLines(plan.amount, plan.vatPosted, CreditOnReceivable());
  }

  lemma NettingCreditsItsAmount(db: Db, plan: Plan, now: Instant)
    requires Consistent(db) && plan.amount > 0
    requires Post(db, NettingPost(plan.cp, plan.amount, plan.vatPosted, now)).Ok?
    ensures var (posted, t) := Post(db, NettingPost(plan.cp, plan.amount, plan.vatPosted, now)).value;
            Sum(posted.entries, ReceivableCredit(posted.accounts, t)) == plan.amount
  {
    hide Post, PostedEntries, NettingLines;
    var p := NettingPost(plan.cp, plan.amount, plan.vatPosted, now);
    PostAppends(db, p);
    var (posted, t) := Post(db, p).value;
    var credit := ReceivableCredit(posted.accounts, t);
    SumOfConcat(db.entries, PostedEntries(db, p, posted.accounts), credit);
    assert forall e | e in db.entries :: Refers(db, e);
    SumOfZeros(db.entries, credit);
    PostedCredit(db, plan, now, posted.accounts);
  }

  /** A commit leaves 0.0001 at most between what it credits and what it allocates. */
  lemma CommitGap(db: Db, plan: Plan, now: Instant)
    requires Consistent(db) && plan.amount > 0 && Commit(db, plan, now).Ok?
    ensures var (after, t) := Commit(db, plan, now).value;
            && Gap(after, t) == plan.amount - Min(plan.amount, Receivable(db, plan.cp))
            && 0 <= Gap(after, t) <= 1
  {
    hide Post, Allocate, Receivable;
    CommitOutcome(db, plan, now);
    NettingCreditsItsAmount(db, plan, now);
  }

  /** A commit, whatever has happened since the reads: it aborts and changes nothing, or it goes through
      without paying any invoice past its total. */
  lemma CommitIsSafe(m: Machine, k: nat, now: Instant, i: nat)
    requires Sound(m) && k < |m.plans| && i < |m.db.invoices|
    ensures var plan := m.plans[k];
            var after := Next(m, CommitNetting(k, now));
            var goes := Post(m.db, NettingPost(plan.cp, plan.amount, plan.vatPosted, now)).Ok?
                        && plan.amount <= Receivable(m.db, plan.cp) + 1;
            && |after.db.invoices| == |m.db.invoices|
            && (!goes ==> after.db == m.db && after.committed == m.committed)
            && (goes ==>
                  && after.committed == m.committed + [|m.db.transactions|]
                  && (PaidSum(after.db.payments, i) != PaidSum(m.db.payments, i) ==>
                        && PaidSum(m.db.payments, i) < PaidSum(after.db.payments, i) <= m.db.invoices[i].total
                        && Counts(m.db.invoices[i], plan.cp)))
  {
    hide Post, Allocate, Receivable, Consistent, Gap;
    var plan := m.plans[k];
    assert plan in m.plans;
    CommitOutcome(m.db, plan, now);
    var params := NettingPost(plan.cp, plan.amount, plan.vatPosted, now);
    if Commit(m.db, plan, now).Ok? {
      PostAppends(m.db, params);
      var (posted, t) := Post(m.db, params).value;
      AllocateNeverOverpays(posted, plan.cp, t, plan.amount, now.day, i);
    }
  }

  /** The payable is not read again: a commit lowers it by the amount whatever it is by then, so it stays
      covered exactly when it still covers the amount at that moment. */
  lemma CommitTakesPayableUnchecked(db: Db, plan: Plan, now: Instant)
    requires Consistent(db) && plan.amount > 0 && Commit(db, plan, now).Ok?
    requires Has(db.accounts, Nas, PAYABLE)
    ensures var after := Commit(db, plan, now).value.0;
            && PayableBalance(after, plan.cp) == PayableBalance(db, plan.cp) - plan.amount
            && (PayableBalance(after, plan.cp) >= 0 <==> plan.amount <= PayableBalance(db, plan.cp))
  {
    hide Post, Allocate, Receivable, SameButState;
    var params := NettingPost(plan.cp, plan.amount, plan.vatPosted, now);
    CommitOutcome(db, plan, now);
    PayableBalanceAfterPost(db, params, plan.cp);
    SumOfNettingLines(plan.amount, plan.vatPosted, PayableOnLine());
  }

  // ----- the invariant of every run -----

  /** A subaccount hangs under an earlier account 221. */
  ghost predicate LinkedToBank(accounts: seq<Account>, i: nat)
    requires i < |accounts|
  {
    var a := accounts[i];
    a.ledger == Nas && a.parent.Some? && a.parent.value < i && Matches(accounts[a.parent.value], Nas, BANK_PARENT)
  }

  /** Nothing that existed has changed, and every new account hangs where the chart or its bank says. */
  ghost predicate Grown(accounts: seq<Account>, grown: seq<Account>, chart: map<string, ChartEntry>) {
    && accounts <= grown
    && (UniqueCodes(accounts) ==> UniqueCodes(grown))
    && forall i | |accounts| <= i < |grown| :: LinkedByChart(grown, i, chart) || LinkedToBank(grown, i)
  }

  lemma GrownComposes(a: seq<Account>, b: seq<Account>, c: seq<Account>, chart: map<string, ChartEntry>)
    requires Grown(a, b, chart) && Grown(b, c, chart)
    ensures Grown(a, c, chart)
  {
    forall i | |a| <= i < |c|
      ensures LinkedByChart(c, i, chart) || LinkedToBank(c, i)
    {
      if i < |b| {
        assert c[i] == b[i];
        assert LinkedByChart(b, i, chart) || LinkedToBank(b, i);
      }
    }
  }

  lemma SubaccountIsOneMore(db: Db, branch: nat, currency: string, names: Names)
    requires EnsureSubaccount(db, branch, currency, names).Ok?
    ensures var (after, result) := EnsureSubaccount(db, branch, currency, names).value;
            && after == db.(accounts := after.accounts)
            && (!result.created ==> after.accounts == db.accounts)
            && (result.created ==>
                  && |after.accounts| == |db.accounts| + 1 && db.accounts <= after.accounts
                  && LinkedToBank(after.accounts, |db.accounts|)
                  && Find(after.accounts, Nas, after.accounts[|db.accounts|].code) == Some(|db.accounts|))
  {
    hide MaxSequence, NextCode, LinkedAccount;
    if EnsureSubaccount(db, branch, currency, names).value.1.created {
      CreatedIsFound(db, branch, currency, names);
    }
  }

  lemma SubaccountGrows(db: Db, branch: nat, currency: string, names: Names)
    requires Consistent(db) && EnsureSubaccount(db, branch, currency, names).Ok?
    ensures var after := EnsureSubaccount(db, branch, currency, names).value.0;
            && Grown(db.accounts, after.accounts, db.chart)
            && after == db.(accounts := after.accounts)
            && Consistent(after)
  {
    hide EnsureSubaccount, TransactionBalances, Refers, Pays;
    var (after, result) := EnsureSubaccount(db, branch, currency, names).value;
    SubaccountIsOneMore(db, branch, currency, names);
    if result.created {
      FreshCodeStaysUnique(db, after);
    }
    SameJournalKeepsConsistent(db, after);
  }

  lemma FreshCodeStaysUnique(db: Db, after: Db)
    requires UniqueCodes(db.accounts)
    requires |after.accounts| == |db.accounts| + 1 && db.accounts <= after.accounts
    requires after.accounts[|db.accounts|].ledger == Nas
    requires Find(after.accounts, Nas, after.accounts[|db.accounts|].code) == Some(|db.accounts|)
    ensures UniqueCodes(after.accounts)
  {
    var last := after.accounts[|db.accounts|];
    assert after.accounts == db.accounts + [last];
    FindInLonger(db.accounts, [last], Nas, last.code);
    forall i | 0 <= i < |db.accounts|
      ensures !(after.accounts[i].ledger == Nas && after.accounts[i].code == last.code)
    {
      assert db.accounts[i] in db.accounts;
    }
  }

  /** A step that writes nothing to the journal. */
  lemma QuietStepIsSound(m: Machine, step: Step)
    requires Sound(m) && Written(m, step).None?
    ensures var after := Next(m, step);
            && Sound(after)
            && Grown(m.db.accounts, after.db.accounts, m.db.chart)
            && after.db.transactions == m.db.transactions && after.db.entries == m.db.entries
            && after.db.chart == m.db.chart && after.committed == m.committed
  {
    hide Written, TransactionBalances, PlanFor, EnsureSubaccount, Refers, Pays;
    var after := Next(m, step);
    assert forall p | p in m.db.payments :: Pays(m.db, p);
    match step
    case PlanNetting(cp, amount) =>
      if PlanFor(m.db, cp, amount).Ok? {
        PlansArePositive(m.db, cp, amount);
      }
    case OpenSubaccount(branch, currency, names) =>
      if EnsureSubaccount(m.db, branch, currency, names).Ok? {
        SubaccountGrows(m.db, branch, currency, names);
        SameJournalKeepsConsistent(m.db, after.db);
        forall c | c in m.committed
          ensures Gap(after.db, c) == Gap(m.db, c)
        {
          AccountsOnlyAdded(m.db, after.db, m.db.entries, c);
        }
      }
    case _ =>
      SameJournalKeepsConsistent(m.db, after.db);
  }

  lemma PlansArePositive(db: Db, cp: nat, amount: int)
    requires PlanFor(db, cp, amount).Ok?
    ensures PlanFor(db, cp, amount).value.amount > 0
  {}

  lemma WritingStepIsSound(m: Machine, step: Step)
    requires Sound(m) && Written(m, step).Some?
    ensures var after := Next(m, step);
            && after.db == Written(m, step).value.0
            && Sound(after)
            && Grown(m.db.accounts, after.db.accounts, m.db.chart)
            && after.db.chart == m.db.chart
  {
    hide Written, TransactionBalances, Consistent, Commit, Gap;
    var (db, t) := Written(m, step).value;
    WrittenIsOneTransaction(m, step);
    forall c | c in m.committed
      ensures Gap(db, c) == Gap(m.db, c)
    {
      LaterWritesKeepGap(m.db, db, t, DateOf(step).value.day, c);
    }
    if step.CommitNetting? {
      WrittenByCommit(m, step);
      CommitGap(m.db, m.plans[step.plan], step.now);
    }
  }

  lemma WrittenByCommit(m: Machine, step: Step)
    requires Written(m, step).Some? && step.CommitNetting? && Sound(m)
    ensures step.plan < |m.plans| && m.plans[step.plan].amount > 0
    ensures Commit(m.db, m.plans[step.plan], step.now) == Ok(Written(m, step).value)
  {
    assert m.plans[step.plan] in m.plans;
  }

  /** Over every run: the ledger stays consistent, so each trial balance is zero; old accounts never change and
      new ones form a forest; and no committed netting credits more than 0.0001 past its payments. */
  lemma {:induction false} EveryRunIsSound(m: Machine, steps: seq<Step>)
    requires Sound(m)
    ensures var after := RunSteps(m, steps);
            && Sound(after)
            && Grown(m.db.accounts, after.db.accounts, m.db.chart)
            && (forall ledger :: TrialBalance(after.db.entries, ledger) == 0)
    decreases |steps|
  {
    hide Sound, Grown, Next;
    if steps == [] {
      NothingGrown(m);
    } else {
      var next := Next(m, steps[0]);
      if Written(m, steps[0]).Some? {
        WritingStepIsSound(m, steps[0]);
      } else {
        QuietStepIsSound(m, steps[0]);
      }
      EveryRunIsSound(next, steps[1..]);
      GrownComposes(m.db.accounts, next.db.accounts, RunSteps(m, steps).db.accounts, m.db.chart);
    }
    forall ledger
      ensures TrialBalance(RunSteps(m, steps).db.entries, ledger) == 0
    {
      SoundIsConsistent(RunSteps(m, steps));
      TrialBalanceIsZero(RunSteps(m, steps).db, ledger);
    }
  }

  lemma NothingGrown(m: Machine)
    ensures Grown(m.db.accounts, m.db.accounts, m.db.chart)
  {}

  lemma SoundIsConsistent(m: Machine)
    requires Sound(m)
    ensures Consistent(m.db)
  {}

  lemma {:induction false} GapsAddUp(db: Db, committed: seq<nat>)
    requires forall c | c in committed :: 0 <= Gap(db, c) <= 1
    ensures 0 <= Sum(committed, (c: nat) => Gap(db, c)) <= |committed|
  {
    if committed != [] {
      assert committed[|committed| - 1] in committed;
      GapsAddUp(db, committed[..|committed| - 1]);
    }
  }

  /** So after `k` committed nettings the 211 credits exceed the linked payments by at most `k` times 0.0001. */
  lemma CreditsFollowPayments(m: Machine, steps: seq<Step>)
    requires Sound(m)
    ensures var after := RunSteps(m, steps);
            0 <= Sum(after.committed, (c: nat) => Gap(after.db, c)) <= |after.committed|
  {
    EveryRunIsSound(m, steps);
    GapsAddUp(RunSteps(m, steps).db, RunSteps(m, steps).committed);
  }

  /** Planning and committing at once is the serial netting. */
  lemma PlanThenCommitIsSerialNetting(m: Machine, request: Request)
    requires PlanFor(m.db, request.cp, request.amount).Ok?
    ensures var planned := Next(m, PlanNetting(request.cp, request.amount));
            var after := Next(planned, CommitNetting(|m.plans|, request.now));
            after.db == NetOne(m.db, request) && after.plans == m.plans
  {
    hide PlanFor, Commit;
  }

  // ----- closed months and the lock date, over runs -----

  /** Whether some step of the run writes a transaction on one of the days. */
  predicate Touched(m: Machine, steps: seq<Step>, days: Day -> bool)
    decreases |steps|
  {
    steps != []
    && ((DateOf(steps[0]).Some? && Written(m, steps[0]).Some? && days(DateOf(steps[0]).value.day))
        || Touched(Next(m, steps[0]), steps[1..], days))
  }

  /** Whether a property of the settings holds before every step of the run. */
  ghost predicate Throughout(m: Machine, steps: seq<Step>, holds: Settings -> bool)
    decreases |steps|
  {
    holds(m.db.settings) && (steps == [] || Throughout(Next(m, steps[0]), steps[1..], holds))
  }

  function Closes(month: MonthKey): Settings -> bool { (s: Settings) => month in s.closedMonths }

  function LockedAt(until: Day): Settings -> bool { (s: Settings) => s.lockedUntil == Some(until) }

  function Before(until: Day): Day -> bool { (day: Day) => day.Before(until) }

  function On(until: Day): Day -> bool { (day: Day) => day == until }

  lemma WritesExtend(db: Db, after: Db, t: nat, day: Day, days: Day -> bool)
    requires Consistent(db) && Writes(db, after, t, day)
    ensures EntriesOf(db, days) <= EntriesOf(after, days)
    ensures EntriesOf(db, days) == EntriesOf(after, days) <==> !days(day)
  {
    var added := after.entries[|db.entries|..];
    assert after.entries == db.entries + added;
    assert forall e | e in db.entries :: Refers(db, e);
    EntriesOnMoreTransactions(db, after, db.entries, days);
    EntriesOnOneTransaction(after, db.entries, added, t, days);
  }

  lemma StepExtends(m: Machine, step: Step, days: Day -> bool)
    requires Sound(m)
    ensures var after := Next(m, step);
            && Sound(after)
            && EntriesOf(m.db, days) <= EntriesOf(after.db, days)
            && (EntriesOf(m.db, days) == EntriesOf(after.db, days) <==> !Touched(m, [step], days))
  {
    hide Written, Consistent, Gap;
    var after := Next(m, step);
    assert [step][1..] == [];
    if Written(m, step).Some? {
      WrittenIsOneTransaction(m, step);
      WritingStepIsSound(m, step);
      WritesExtend(m.db, after.db, Written(m, step).value.1, DateOf(step).value.day, days);
    } else {
      QuietStepIsSound(m, step);
      EntriesHaveTransactions(m.db);
      EntriesOnMoreTransactions(m.db, after.db, m.db.entries, days);
    }
  }

  lemma EntriesHaveTransactions(db: Db)
    requires Consistent(db)
    ensures forall e | e in db.entries :: e.transaction < |db.transactions|
  {}

  /** What is recorded for a set of days changes over a run exactly when some step writes on one of them. */
  lemma {:induction false} RunChangesExactlyTheDaysItTouches(m: Machine, steps: seq<Step>, days: Day -> bool)
    requires Sound(m)
    ensures var after := RunSteps(m, steps);
            && EntriesOf(m.db, days) <= EntriesOf(after.db, days)
            && (EntriesOf(m.db, days) == EntriesOf(after.db, days) <==> !Touched(m, steps, days))
    decreases |steps|
  {
    hide Sound, Next, EntriesOf;
    if steps != [] {
      StepExtends(m, steps[0], days);
      RunChangesExactlyTheDaysItTouches(Next(m, steps[0]), steps[1..], days);
      assert [steps[0]][1..] == [];
    }
  }

  lemma WrittenDateIsOpen(m: Machine, step: Step)
    requires Written(m, step).Some?
    ensures DateOf(step).Some? && OpenFor(m.db.settings, DateOf(step).value)
  {}

  /** No step writes a transaction in a closed month, before the lock date, or at its midnight. */
  lemma WrittenDateIsAllowed(m: Machine, step: Step)
    requires Sound(m) && Written(m, step).Some?
    ensures DateOf(step).Some?
    ensures var date, settings := DateOf(step).value, m.db.settings;
            && MonthKey(date.day.year, date.day.month) !in settings.closedMonths
            && (settings.lockedUntil.Some? ==>
                  !date.day.Before(settings.lockedUntil.value) && date != Instant(settings.lockedUntil.value, 0))
  {
    WrittenIsItsPost(m, step);
    hide Post, Written, Sound, Grounded;
    PostSucceedsExactlyWhen(m.db, PostOf(m, step).value);
  }

  lemma {:induction false} ClosedMonthIsNotTouched(m: Machine, steps: seq<Step>, month: MonthKey)
    requires Throughout(m, steps, Closes(month))
    ensures !Touched(m, steps, InMonth(month))
    decreases |steps|
  {
    hide Written, Next;
    if steps != [] {
      if Written(m, steps[0]).Some? {
        WrittenDateIsOpen(m, steps[0]);
      }
      ClosedMonthIsNotTouched(Next(m, steps[0]), steps[1..], month);
    }
  }

  lemma {:induction false} LockedDaysAreNotTouched(m: Machine, steps: seq<Step>, until: Day)
    requires Throughout(m, steps, LockedAt(until))
    ensures !Touched(m, steps, Before(until))
    ensures Touched(m, steps, UpTo(until)) <==> Touched(m, steps, On(until))
    decreases |steps|
  {
    hide Written, Next;
    if steps != [] {
      if Written(m, steps[0]).Some? {
        WrittenDateIsOpen(m, steps[0]);
      }
      LockedDaysAreNotTouched(Next(m, steps[0]), steps[1..], until);
    }
  }

  /** While a month stays closed its entries never change, whatever runs. */
  lemma ClosedMonthIsFrozen(m: Machine, steps: seq<Step>, month: MonthKey)
    requires Sound(m) && Throughout(m, steps, Closes(month))
    ensures EntriesOf(RunSteps(m, steps).db, InMonth(month)) == EntriesOf(m.db, InMonth(month))
  {
    ClosedMonthIsNotTouched(m, steps, month);
    RunChangesExactlyTheDaysItTouches(m, steps, InMonth(month));
  }

  /** The post a step tries to make. */
  function PostOf(m: Machine, step: Step): Option<PostParams> {
    match step
    case PostJournal(params) => Some(params)
    case PayInvoice(params, _, _) => Some(params)
    case CommitNetting(k, now) =>
      if k >= |m.plans| then None
      else Some(NettingPost(m.plans[k].cp, m.plans[k].amount, m.plans[k].vatPosted, now))
    case _ => None
  }

  /** What the steps of a run that write on these days move an account by. */
  function MovedOn(m: Machine, steps: seq<Step>, account: nat, days: Day -> bool): int
    decreases |steps|
  {
    if steps == [] then 0
    else
      (match PostOf(m, steps[0])
       case None => 0
       case Some(p) =>
         if Written(m, steps[0]).Some? && days(p.date.day) && account < |m.db.accounts|
         then Movement(m.db, p, account) else 0)
      + MovedOn(Next(m, steps[0]), steps[1..], account, days)
  }

  lemma WrittenIsItsPost(m: Machine, step: Step)
    requires Sound(m) && Written(m, step).Some?
    ensures PostOf(m, step).Some? && Post(m.db, PostOf(m, step).value).Ok?
    ensures DateOf(step) == Some(PostOf(m, step).value.date)
    ensures var posted, after := Post(m.db, PostOf(m, step).value).value.0, Written(m, step).value.0;
            after.entries == posted.entries && after.transactions == posted.transactions
  {
    hide Post, Allocate, Consistent, Gap;
    if step.CommitNetting? {
      WrittenByCommit(m, step);
      CommitOutcome(m.db, m.plans[step.plan], step.now);
    }
  }

  lemma BalanceReadsTheJournal(a: Db, b: Db, account: nat, until: Day)
    requires Consistent(a) && a.entries == b.entries && a.transactions == b.transactions
    ensures BalanceAsOf(a, account, until) == BalanceAsOf(b, account, until)
  {
    EntriesHaveTransactions(a);
    EntriesOnMoreTransactions(a, b, a.entries, UpTo(until));
  }

  lemma StepMovesBalance(m: Machine, step: Step, account: nat, until: Day)
    requires Sound(m) && account < |m.db.accounts|
    ensures BalanceAsOf(Next(m, step).db, account, until)
            == BalanceAsOf(m.db, account, until) + MovedOn(m, [step], account, UpTo(until))
  {
    hide Written, Post, Consistent, Gap, BalanceAsOf, Movement;
    assert [step][1..] == [];
    if Written(m, step).Some? {
      WrittenIsItsPost(m, step);
      WritingStepIsSound(m, step);
      var p := PostOf(m, step).value;
      PostKeepsConsistent(m.db, p);
      BalanceReadsTheJournal(Post(m.db, p).value.0, Next(m, step).db, account, until);
      BalanceAfterPost(m.db, p, account, until);
    } else {
      QuietStepIsSound(m, step);
      BalanceReadsTheJournal(m.db, Next(m, step).db, account, until);
    }
  }

  lemma StepIsSound(m: Machine, step: Step)
    requires Sound(m)
    ensures Sound(Next(m, step)) && m.db.accounts <= Next(m, step).db.accounts
  {
    hide Sound, Next, Written;
    if Written(m, step).Some? {
      WritingStepIsSound(m, step);
    } else {
      QuietStepIsSound(m, step);
    }
  }

  /** Over any run a balance as of a day moves by what the steps that write up to that day move it by. */
  lemma {:induction false} RunMovesBalance(m: Machine, steps: seq<Step>, account: nat, until: Day)
    requires Sound(m) && account < |m.db.accounts|
    ensures BalanceAsOf(RunSteps(m, steps).db, account, until)
            == BalanceAsOf(m.db, account, until) + MovedOn(m, steps, account, UpTo(until))
    decreases |steps|
  {
    hide Sound, Next, BalanceAsOf, Written, PostOf;
    if steps != [] {
      StepMovesBalance(m, steps[0], account, until);
      StepIsSound(m, steps[0]);
      RunMovesBalance(Next(m, steps[0]), steps[1..], account, until);
      assert [steps[0]][1..] == [];
    }
  }

  lemma {:induction false} LockedBalancesMoveOnTheDay(m: Machine, steps: seq<Step>, account: nat, until: Day)
    requires Sound(m) && Throughout(m, steps, LockedAt(until))
    ensures MovedOn(m, steps, account, UpTo(until)) == MovedOn(m, steps, account, On(until))
    decreases |steps|
  {
    hide Sound, Written, Next, PostOf, Movement;
    if steps != [] {
      if Written(m, steps[0]).Some? {
        WrittenDateIsOpen(m, steps[0]);
        WrittenIsItsPost(m, steps[0]);
      }
      StepIsSound(m, steps[0]);
      LockedBalancesMoveOnTheDay(Next(m, steps[0]), steps[1..], account, until);
    }
  }

  /** While a lock date stays set, everything before it is frozen. What is recorded up to it is frozen exactly
      when no step gets a transaction dated that day through, and the balance of an account as of that day
      exactly when what such steps move it by nets to zero. */
  lemma LockedPeriodIsFrozen(m: Machine, steps: seq<Step>, until: Day)
    requires Sound(m) && Throughout(m, steps, LockedAt(until))
    ensures var after := RunSteps(m, steps);
            && EntriesOf(after.db, Before(until)) == EntriesOf(m.db, Before(until))
            && (EntriesOf(after.db, UpTo(until)) == EntriesOf(m.db, UpTo(until)) <==> !Touched(m, steps, On(until)))
            && (!Touched(m, steps, On(until)) ==>
                  forall account :: BalanceAsOf(after.db, account, until) == BalanceAsOf(m.db, account, until))
    ensures forall account: nat | account < |m.db.accounts| ::
              BalanceAsOf(RunSteps(m, steps).db, account, until) == BalanceAsOf(m.db, account, until)
              <==> MovedOn(m, steps, account, On(until)) == 0
  {
    LockedDaysAreNotTouched(m, steps, until);
    RunChangesExactlyTheDaysItTouches(m, steps, Before(until));
    RunChangesExactlyTheDaysItTouches(m, steps, UpTo(until));
    forall account: nat | account < |m.db.accounts|
      ensures BalanceAsOf(RunSteps(m, steps).db, account, until) == BalanceAsOf(m.db, account, until)
              <==> MovedOn(m, steps, account, On(until)) == 0
    {
      RunMovesBalance(m, steps, account, until);
      LockedBalancesMoveOnTheDay(m, steps, account, until);
    }
  }

  /** In particular everything up to the lock date is frozen when no step of the run is dated on it. */
  lemma LockedPeriodIsFrozenWhenNoStepIsDatedOnIt(m: Machine, steps: seq<Step>, until: Day)
    requires Sound(m) && Throughout(m, steps, LockedAt(until))
    requires forall step | step in steps :: DateOf(step).Some? ==> DateOf(step).value.day != until
    ensures var after := RunSteps(m, steps);
            && EntriesOf(after.db, UpTo(until)) == EntriesOf(m.db, UpTo(until))
            && forall account :: BalanceAsOf(after.db, account, until) == BalanceAsOf(m.db, account, until)
  {
    UndatedDayIsNotTouched(m, steps, until);
    LockedPeriodIsFrozen(m, steps, until);
  }

  lemma {:induction false} UndatedDayIsNotTouched(m: Machine, steps: seq<Step>, until: Day)
    requires forall step | step in steps :: DateOf(step).Some? ==> DateOf(step).value.day != until
    ensures !Touched(m, steps, On(until))
    decreases |steps|
  {
    hide Written, Next, DateOf;
    if steps != [] {
      assert steps[0] in steps;
      UndatedDayIsNotTouched(Next(m, steps[0]), steps[1..], until);
    }
  }
}
