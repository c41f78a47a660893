/** Account 531 when nettings of one counterparty are checked before any of them is committed. */
module Overdraft {
  import opened Outcomes
  import opened Sums
  import opened Tables
  import opened Balance
  import opened Chart
  import opened Posting
  import opened AccountBalances
  import opened Greedy
  import opened Allocation
  import opened Netting
  import opened Interleaving

  // ----- what the receivable lets through -----

  /** The amounts that commit, one after the other, when only the receivable is looked at. */
  function Committing(receivable: int, amounts: seq<int>): seq<int>
    decreases |amounts|
  {
    if amounts == [] then []
    else if amounts[0] <= receivable + 1
    then [amounts[0]] + Committing(receivable - Min(amounts[0], receivable), amounts[1..])
    else Committing(receivable, amounts[1..])
  }

  /** A checked netting commits later on, with accounts only added and the date still open, exactly when the
      receivable of that moment covers it; the payable of that moment plays no part. */
  lemma CheckedNettingCommits(checked: Db, plan: Plan, db: Db, now: Instant)
    requires PlanFor(checked, plan.cp, plan.amount) == Ok(plan)
    requires Consistent(db) && checked.accounts <= db.accounts && OpenFor(db.settings, now)
    ensures var r := Commit(db, plan, now);
            && (r.Ok? <==> plan.amount <= Receivable(db, plan.cp) + 1)
            && (r.Ok? ==>
                  && Consistent(r.value.0)
                  && db.accounts <= r.value.0.accounts && r.value.0.settings == db.settings
                  && Receivable(r.value.0, plan.cp)
                     == Receivable(db, plan.cp) - Min(plan.amount, Receivable(db, plan.cp))
                  && PayableBalance(r.value.0, plan.cp) == PayableBalance(db, plan.cp) - plan.amount)
  {
    hide Post, Commit, Receivable, Consistent, PayableBalance, Grounded, Find;
    var params := NettingPost(plan.cp, plan.amount, plan.vatPosted, now);
    NettingLinesBalance(plan.amount, plan.vatPosted);
    forall line | line in params.lines
      ensures Grounded(db.accounts, db.chart, line.code)
    {
      NettingAccountsExist(checked, plan, line);
      HasStays(checked.accounts, db.accounts, line.code);
      PresentIsGrounded(db.accounts, db.chart, line.code);
    }
    PostSucceedsExactlyWhen(db, params);
    CommitOutcome(db, plan, now);
    if Commit(db, plan, now).Ok? {
      CommitWrites(db, plan, now);
      HasStays(checked.accounts, db.accounts, PAYABLE);
      CommitTakesPayableUnchecked(db, plan, now);
    }
  }

  // ----- any number of nettings -----

  function Checks(cp: nat, amounts: seq<int>): seq<Step>
    decreases |amounts|
  {
    if amounts == [] then [] else [PlanNetting(cp, amounts[0])] + Checks(cp, amounts[1..])
  }

  /** Commits of all plans from position `k` on: each takes the place of the one before. */
  function Commits(k: nat, nows: seq<Instant>): seq<Step>
    decreases |nows|
  {
    if nows == [] then [] else [CommitNetting(k, nows[0])] + Commits(k, nows[1..])
  }

  function PlansFor(db: Db, cp: nat, amounts: seq<int>): (plans: seq<Plan>)
    requires forall a | a in amounts :: PlanFor(db, cp, a).Ok?
    ensures |plans| == |amounts| && forall i | 0 <= i < |plans| :: plans[i] == PlanFor(db, cp, amounts[i]).value
  {
    seq(|amounts|, i requires 0 <= i < |amounts| => PlanFor(db, cp, amounts[i]).value)
  }

  function AmountsOf(plans: seq<Plan>): (amounts: seq<int>)
    ensures |amounts| == |plans| && forall i | 0 <= i < |plans| :: amounts[i] == plans[i].amount
  {
    seq(|plans|, i requires 0 <= i < |plans| => plans[i].amount)
  }

  lemma RunOne(m: Machine, step: Step, steps: seq<Step>)
    ensures RunSteps(m, [step] + steps) == RunSteps(Next(m, step), steps)
  {
    assert ([step] + steps)[1..] == steps;
  }

  lemma {:induction false} RunConcat(m: Machine, a: seq<Step>, b: seq<Step>)
    ensures RunSteps(m, a + b) == RunSteps(RunSteps(m, a), b)
    decreases |a|
  {
    hide Next;
    if a == [] {
      assert a + b == b;
    } else {
      assert (a + b)[1..] == a[1..] + b;
      RunConcat(Next(m, a[0]), a[1..], b);
    }
  }

  lemma CheckPlans(m: Machine, cp: nat, amount: int)
    requires PlanFor(m.db, cp, amount).Ok?
    ensures Next(m, PlanNetting(cp, amount)) == m.(plans := m.plans + [PlanFor(m.db, cp, amount).value])
  {
    hide PlanFor;
  }

  lemma PlansStep(db: Db, cp: nat, amounts: seq<int>)
    requires amounts != [] && forall a | a in amounts :: PlanFor(db, cp, a).Ok?
    ensures PlanFor(db, cp, amounts[0]).Ok? && forall a | a in amounts[1..] :: PlanFor(db, cp, a).Ok?
    ensures PlansFor(db, cp, amounts) == [PlanFor(db, cp, amounts[0]).value] + PlansFor(db, cp, amounts[1..])
  {
    hide PlanFor;
    assert amounts[0] in amounts && forall a | a in amounts[1..] :: a in amounts;
  }

  lemma {:induction false} ChecksPlan(m: Machine, cp: nat, amounts: seq<int>)
    requires forall a | a in amounts :: PlanFor(m.db, cp, a).Ok?
    ensures RunSteps(m, Checks(cp, amounts)) == m.(plans := m.plans + PlansFor(m.db, cp, amounts))
    decreases |amounts|
  {
    hide PlanFor, Next, PlansFor;
    if amounts == [] {
      assert m.plans + PlansFor(m.db, cp, []) == m.plans;
    } else {
      PlansStep(m.db, cp, amounts);
      CheckPlans(m, cp, amounts[0]);
      var plan, next := PlanFor(m.db, cp, amounts[0]).value, Next(m, PlanNetting(cp, amounts[0]));
      RunOne(m, PlanNetting(cp, amounts[0]), Checks(cp, amounts[1..]));
      hide RunSteps;
      ChecksPlan(next, cp, amounts[1..]);
      var rest := PlansFor(m.db, cp, amounts[1..]);
      assert m.plans + ([plan] + rest) == (m.plans + [plan]) + rest;
    }
  }

  lemma PlanCommits(m: Machine, k: nat, now: Instant)
    requires k < |m.plans|
    ensures var r, after := Commit(m.db, m.plans[k], now), Next(m, CommitNetting(k, now));
            && after.plans == m.plans[..k] + m.plans[k + 1..]
            && (r.Ok? ==> after.db == r.value.0 && |after.committed| == |m.committed| + 1)
            && (r.Err? ==> after.db == m.db && after.committed == m.committed)
  {
    hide Commit;
  }

  lemma PlansFrom(plans: seq<Plan>, rest: seq<Plan>, k: nat)
    requires k < |plans| && rest == plans[..k] + plans[k + 1..]
    ensures rest[..k] == plans[..k] && plans[k] in plans[k..] && rest[k..] == plans[k..][1..]
    ensures AmountsOf(plans[k..])[0] == plans[k].amount
    ensures AmountsOf(plans[k..])[1..] == AmountsOf(rest[k..])
    ensures forall plan | plan in rest[k..] :: plan in plans[k..]
  {
    assert rest[k..] == plans[k..][1..];
    assert plans[k..][0] == plans[k];
  }

  lemma CommittingStep(receivable: int, amounts: seq<int>)
    ensures amounts == [] ==> Committing(receivable, amounts) == [] && Total([]) == 0
    ensures amounts != [] ==>
              var rest := amounts[1..];
              var after := Committing(receivable - Min(amounts[0], receivable), rest);
              && Total([amounts[0]] + after) == amounts[0] + Total(after)
              && Committing(receivable, amounts)
                 == if amounts[0] <= receivable + 1 then [amounts[0]] + after else Committing(receivable, rest)
  {
    if amounts != [] {
      TotalOfHeadAndTail(amounts[0], Committing(receivable - Min(amounts[0], receivable), amounts[1..]));
    }
  }

  /** All plans from position `k` on are of one counterparty and were checked on the same balances at some
      earlier time. Committed one after the other, exactly those go through that the receivable still covers,
      and the payable falls by all of them. */
  lemma {:induction false} CommitsTakeWhatTheReceivableCovers(
    checked: Db, m: Machine, cp: nat, k: nat, nows: seq<Instant>)
    requires Sound(m) && checked.accounts <= m.db.accounts && k + |nows| == |m.plans|
    requires forall plan | plan in m.plans[k..] :: plan.cp == cp && PlanFor(checked, cp, plan.amount) == Ok(plan)
    requires forall now | now in nows :: OpenFor(m.db.settings, now)
    ensures var after := RunSteps(m, Commits(k, nows));
            var went := Committing(Receivable(m.db, cp), AmountsOf(m.plans[k..]));
            && after.plans == m.plans[..k]
            && |after.committed| == |m.committed| + |went|
            && PayableBalance(after.db, cp) == PayableBalance(m.db, cp) - Total(went)
    decreases |nows|
  {
    hide Sound, Next, PlanFor, Commit, Receivable, PayableBalance, OpenFor, Consistent, AmountsOf, Committing, Total;
    CommittingStep(Receivable(m.db, cp), AmountsOf(m.plans[k..]));
    if nows != [] {
      var next := Next(m, CommitNetting(k, nows[0]));
      assert nows[0] in nows;
      RunOne(m, CommitNetting(k, nows[0]), Commits(k, nows[1..]));
      SoundIsConsistent(m);
      StepIsSound(m, CommitNetting(k, nows[0]));
      PlanCommits(m, k, nows[0]);
      PlansFrom(m.plans, next.plans, k);
      CheckedNettingCommits(checked, m.plans[k], m.db, nows[0]);
      CommitsTakeWhatTheReceivableCovers(checked, next, cp, k, nows[1..]);
    }
  }

  /** Any nettings of one counterparty that pass the check on the same balances: 531 is overdrawn exactly when
      what the receivable lets through is more than the payable they were all checked against. */
  lemma CheckedNettingsOverdrawExactlyWhen(m: Machine, cp: nat, amounts: seq<int>, nows: seq<Instant>)
    requires Sound(m) && |nows| == |amounts|
    requires forall a | a in amounts :: PlanFor(m.db, cp, a).Ok?
    requires forall now | now in nows :: OpenFor(m.db.settings, now)
    ensures var after := RunSteps(m, Checks(cp, amounts) + Commits(|m.plans|, nows));
            var went := Committing(Receivable(m.db, cp), amounts);
            && after.plans == m.plans
            && |after.committed| == |m.committed| + |went|
            && PayableBalance(after.db, cp) == PayableBalance(m.db, cp) - Total(went)
            && (PayableBalance(after.db, cp) < 0 <==> Total(went) > PayableBalance(m.db, cp))
  {
    hide RunSteps, PlanFor, Receivable, PayableBalance, OpenFor;
    var plans, k := PlansFor(m.db, cp, amounts), |m.plans|;
    var planned := m.(plans := m.plans + plans);
    RunConcat(m, Checks(cp, amounts), Commits(k, nows));
    ChecksPlan(m, cp, amounts);
    assert planned.plans[..k] == m.plans && planned.plans[k..] == plans;
    PlansAreChecked(m.db, cp, amounts);
    assert Sound(planned);
    CommitsTakeWhatTheReceivableCovers(m.db, planned, cp, k, nows);
  }

  lemma PlansAreChecked(db: Db, cp: nat, amounts: seq<int>)
    requires forall a | a in amounts :: PlanFor(db, cp, a).Ok?
    ensures forall plan | plan in PlansFor(db, cp, amounts) ::
              plan.cp == cp && plan.amount > 0 && PlanFor(db, cp, plan.amount) == Ok(plan)
    ensures AmountsOf(PlansFor(db, cp, amounts)) == amounts
  {
    forall i | 0 <= i < |amounts|
      ensures var plan := PlansFor(db, cp, amounts)[i];
              plan.cp == cp && plan.amount == amounts[i] > 0 && PlanFor(db, cp, plan.amount) == Ok(plan)
    {
      CheckedAmountIsCovered(db, cp, amounts[i]);
    }
  }

  lemma CheckedAmountIsCovered(db: Db, cp: nat, amount: int)
    requires PlanFor(db, cp, amount).Ok?
    ensures PlanFor(db, cp, amount).value.cp == cp && PlanFor(db, cp, amount).value.amount == amount
    ensures 0 < amount <= Receivable(db, cp) && amount <= PayableBalance(db, cp)
  {
    hide Receivable, PayableBalance;
  }

  // ----- two of them -----

  lemma CommittingTwo(receivable: int, a: int, b: int)
    requires 0 < a <= receivable && 0 < b
    ensures Committing(receivable, [a, b]) == if a + b <= receivable + 1 then [a, b] else [a]
    ensures Total([a, b]) == a + b && Total([a]) == a
  {
    TotalOfHeadAndTail(a, [b]);
    TotalOfHeadAndTail(b, []);
    TotalOfHeadAndTail(a, []);
    assert [a, b][1..] == [b] && [b][1..] == [] && [b] + [] == [b];
    assert Committing(receivable - a, [b]) == if b <= receivable - a + 1 then [b] else [];
    assert [a] + [b] == [a, b] && [a] + [] == [a];
  }

  /** Of two nettings the second one is committed exactly when the receivable covers both amounts up to 0.0001,
      and 531 is overdrawn exactly when it does and 531 covered only one of them. */
  lemma TwoCheckedNettingsOverdrawExactlyWhenPayableCoversOne(
    m: Machine, cp: nat, a: int, b: int, now: Instant, later: Instant)
    requires Sound(m)
    requires PlanFor(m.db, cp, a).Ok? && PlanFor(m.db, cp, b).Ok?
    requires OpenFor(m.db.settings, now) && OpenFor(m.db.settings, later)
    ensures var after := RunSteps(m, Checks(cp, [a, b]) + Commits(|m.plans|, [now, later]));
            var both := a + b <= Receivable(m.db, cp) + 1;
            && |after.committed| == |m.committed| + (if both then 2 else 1)
            && PayableBalance(after.db, cp) == PayableBalance(m.db, cp) - a - (if both then b else 0)
            && (PayableBalance(after.db, cp) < 0 <==> both && PayableBalance(m.db, cp) < a + b)
  {
    hide Sound, RunSteps, PlanFor, Receivable, PayableBalance, OpenFor, Checks, Commits, Committing, Total;
    CheckedAmountIsCovered(m.db, cp, a);
    CheckedAmountIsCovered(m.db, cp, b);
    CommittingTwo(Receivable(m.db, cp), a, b);
    CheckedNettingsOverdrawExactlyWhen(m, cp, [a, b], [now, later]);
  }

  // ----- it happens: a purchase of 10, an open invoice of 20, and twice a netting of 10 -----

  const NOW := Instant(Day(2026, 4, 1), 0)

  function FreshDb(): Db {
    Db([PlainAccount("205"), PlainAccount(RECEIVABLE), PlainAccount(PAYABLE)], [], [],
       [Invoice(0, NOW.day, 200_000, true, Sent, false)], [], map[], [], {}, map[0 := Counterparty(false)], map[], [],
       Settings({}, None, false))
  }

  function Purchase(): PostParams {
    PostParams(NOW, true, Some(0), None, Nas, [Line("205", 100_000, 0), Line(PAYABLE, 0, 100_000)])
  }

  lemma FreshAccounts()
    ensures Has(FreshDb().accounts, Nas, "205") && Has(FreshDb().accounts, Nas, RECEIVABLE)
    ensures Has(FreshDb().accounts, Nas, PAYABLE)
  {
    var accounts := FreshDb().accounts;
    assert Matches(accounts[0], Nas, "205") && Matches(accounts[1], Nas, RECEIVABLE);
    assert Matches(accounts[2], Nas, PAYABLE);
    assert accounts[0] in accounts && accounts[1] in accounts && accounts[2] in accounts;
  }

  lemma FreshReceivable()
    ensures Receivable(FreshDb(), 0) == 200_000
  {
    var db := FreshDb();
    assert db.invoices[..0] == [];
    var ids: seq<nat> := [0];
    assert OpenIds(db.invoices, 0) == ids;
    assert PaidSum(db.payments, ids[0]) == 0;
    assert OpenBalance(db)(ids[0]) == Positive(Remaining(db)(ids[0])) == 200_000;
    SumOfAppended([], ids[0], OpenBalance(db));
    assert [] + [ids[0]] == ids;
  }

  lemma PurchaseIsPosted()
    ensures Sound(Machine(FreshDb(), [], []))
    ensures Post(FreshDb(), Purchase()).Ok?
  {
    var db, p := FreshDb(), Purchase();
    StartIsSound(db);
    FreshAccounts();
    PurchaseBalances();
    hide Post, Sound, Consistent, Grounded, Find, Balanced;
    forall line | line in p.lines
      ensures Grounded(db.accounts, db.chart, line.code)
    {
      PresentIsGrounded(db.accounts, db.chart, line.code);
    }
    PostSucceedsExactlyWhen(db, p);
  }

  /** A post with the counterparty raises the payable by what it credits to 531, and a netting within both
      balances can be checked. */
  lemma CheckedAfterPost(db: Db, p: PostParams, cp: nat, amount: int)
    requires Consistent(db) && Post(db, p).Ok? && p.ledger == Nas && p.counterparty == Some(cp)
    requires cp in db.counterparties && Has(db.accounts, Nas, RECEIVABLE) && Has(db.accounts, Nas, PAYABLE)
    requires 0 < amount <= Receivable(db, cp) && amount <= PayableBalance(db, cp) + Sum(p.lines, PayableOnLine())
    ensures var after := Post(db, p).value.0;
            && Consistent(after) && after.settings == db.settings && PlanFor(after, cp, amount).Ok?
            && PayableBalance(after, cp) == PayableBalance(db, cp) + Sum(p.lines, PayableOnLine())
            && Receivable(after, cp) == Receivable(db, cp)
  {
    hide Post, Receivable, Consistent, Find, Sum, PayableBalance, GrownByChart, PostedEntries;
    PostAppends(db, p);
    PostKeepsConsistent(db, p);
    PostKeepsReceivable(db, p, cp);
    PayableBalanceAfterPost(db, p, cp);
    AccountsOnlyGrow(db, p, RECEIVABLE);
    AccountsOnlyGrow(db, p, PAYABLE);
  }

  lemma AccountsOnlyGrow(db: Db, p: PostParams, code: string)
    requires Post(db, p).Ok? && Has(db.accounts, Nas, code)
    ensures Has(Post(db, p).value.0.accounts, Nas, code)
  {
    hide Post;
    PostAppends(db, p);
    HasStays(db.accounts, Post(db, p).value.0.accounts, code);
  }

  lemma NothingPayable(cp: nat)
    ensures PayableBalance(FreshDb(), cp) == 0
  {}

  lemma PurchaseBalances()
    ensures Balanced(Purchase().lines) && Sum(Purchase().lines, PayableOnLine()) == 100_000
  {
    var lines := Purchase().lines;
    SumOfPair(lines[0], lines[1], DebitOf());
    SumOfPair(lines[0], lines[1], CreditOf());
    SumOfPair(lines[0], lines[1], PayableOnLine());
    hide Sum;
  }

  lemma PostStep(m: Machine, p: PostParams)
    requires Sound(m) && Post(m.db, p).Ok?
    ensures Next(m, PostJournal(p)) == m.(db := Post(m.db, p).value.0) && Sound(Next(m, PostJournal(p)))
  {
    hide Post, Sound;
    WritingStepIsSound(m, PostJournal(p));
  }

  /** From tables without a journal, five steps of which every one succeeds leave 531 overdrawn by 10. */
  lemma TwoNettingsOfOnePayable()
    ensures var start := Machine(FreshDb(), [], []);
            var steps := [PostJournal(Purchase())] + (Checks(0, [100_000, 100_000]) + Commits(0, [NOW, NOW]));
            && Sound(start)
            && |RunSteps(start, steps).committed| == 2
            && PayableBalance(RunSteps(start, steps).db, 0) == -100_000
  {
    hide Post, Receivable, PayableBalance, PlanFor, Sound, Consistent, Has, Sum, Balanced, RunSteps;
    var start := Machine(FreshDb(), [], []);
    FreshAccounts();
    FreshReceivable();
    NothingPayable(0);
    PurchaseBalances();
    PurchaseIsPosted();
    SoundIsConsistent(start);
    CheckedAfterPost(FreshDb(), Purchase(), 0, 100_000);
    RunOne(start, PostJournal(Purchase()), (Checks(0, [100_000, 100_000]) + Commits(0, [NOW, NOW])));
    var m := Next(start, PostJournal(Purchase()));
    PostStep(start, Purchase());
    TwoCheckedNettingsOverdrawExactlyWhenPayableCoversOne(m, 0, 100_000, 100_000, NOW, NOW);
  }
}
