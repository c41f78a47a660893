/** What posts do to the balance of an account, as of any day. */
module AccountBalances {
  import opened Outcomes
  import opened Sums
  import opened Tables
  import opened Balance
  import opened Chart
  import opened Mirror
  import opened Posting

  function AccountNet(account: nat): Entry -> int {
    (e: Entry) => if e.account == account then e.debit - e.credit else 0
  }

  /** The balance of an account as of a day. */
  function BalanceAsOf(db: Db, account: nat, until: Day): int {
    Sum(EntriesOf(db, UpTo(until)), AccountNet(account))
  }

  function NetOnCode(code: string): Line -> int {
    (l: Line) => if l.code == code then l.debit - l.credit else 0
  }

  /** What the lines with a code mapped to the account add up to. */
  function NetOnTarget(rules: seq<Rule>, accounts: seq<Account>, account: nat): Line -> int {
    (l: Line) => if Target(rules, accounts, l.code) == Some(account) then l.debit - l.credit else 0
  }

  /** What a post moves an account by, as it can be told beforehand: in the ledger posted to the lines with the
      account's code, in the mirror the lines mapped to it, if all lines are mapped. */
  function Movement(db: Db, p: PostParams, account: nat): int
    requires account < |db.accounts|
  {
    if db.accounts[account].ledger == p.ledger then Sum(p.lines, NetOnCode(db.accounts[account].code))
    else if p.ledger == Nas && FullyMapped(db.rules, db.accounts, p.lines)
    then Sum(p.lines, NetOnTarget(db.rules, db.accounts, account))
    else 0
  }

  lemma FindIsUnique(accounts: seq<Account>, i: nat)
    requires UniqueCodes(accounts) && i < |accounts|
    ensures Find(accounts, accounts[i].ledger, accounts[i].code) == Some(i)
  {
    assert accounts[i] in accounts;
  }

  // ----- accounts created for a post do not change what is mirrored -----

  lemma FindIfrsInGrown(accounts: seq<Account>, grown: seq<Account>, chart: map<string, ChartEntry>, code: string)
    requires GrownByChart(accounts, grown, chart)
    ensures Find(grown, Ifrs, code) == Find(accounts, Ifrs, code)
  {
    var more := grown[|accounts|..];
    assert grown == accounts + more;
    FindInLonger(accounts, more, Ifrs, code);
    forall a | a in more
      ensures !Matches(a, Ifrs, code)
    {
      var k :| 0 <= k < |more| && more[k] == a;
      assert LinkedByChart(grown, |accounts| + k, chart);
    }
    assert !Has(more, Ifrs, code);
  }

  lemma {:induction false} TargetInGrown(
    rules: seq<Rule>, accounts: seq<Account>, grown: seq<Account>, chart: map<string, ChartEntry>, code: string)
    requires GrownByChart(accounts, grown, chart)
    ensures FirstTarget(rules, grown, code) == FirstTarget(rules, accounts, code)
    ensures Target(rules, grown, code) == Target(rules, accounts, code)
  {
    hide GrownByChart, Find;
    if rules != [] {
      var last := |rules| - 1;
      TargetInGrown(rules[..last], accounts, grown, chart, code);
      FindIfrsInGrown(accounts, grown, chart, rules[last].target);
    }
    var target := FirstTarget(rules, accounts, code);
    if target.Some? {
      FindIfrsInGrown(accounts, grown, chart, target.value);
    }
  }

  // ----- one post -----

  lemma {:induction false} SumOfCopies(
    rules: seq<Rule>, accounts: seq<Account>, t: nat, lines: seq<Line>, account: nat)
    requires FullyMapped(rules, accounts, lines)
    ensures Sum(Copies(rules, accounts, t, lines), AccountNet(account))
            == Sum(lines, NetOnTarget(rules, accounts, account))
  {
    if lines != [] {
      var last := |lines| - 1;
      assert lines[last] in lines;
      SumOfCopies(rules, accounts, t, lines[..last], account);
      var copies := Copies(rules, accounts, t, lines);
      assert copies[..last] == Copies(rules, accounts, t, lines[..last]);
    }
  }

  lemma JournalMoves(accounts: seq<Account>, t: nat, ledger: LedgerType, lines: seq<Line>, account: nat)
    requires UniqueCodes(accounts) && AllPresent(accounts, ledger, lines) && account < |accounts|
    ensures Sum(Journal(accounts, t, ledger, lines), AccountNet(account))
            == if accounts[account].ledger == ledger then Sum(lines, NetOnCode(accounts[account].code)) else 0
  {
    hide Find, Sum, Journal, UniqueCodes;
    if accounts[account].ledger == ledger {
      forall line | line in lines
        ensures Find(accounts, ledger, line.code) == Some(account) <==> line.code == accounts[account].code
      {
        FindIsUnique(accounts, account);
      }
      SumOfJournal(accounts, t, ledger, lines, AccountNet(account), NetOnCode(accounts[account].code));
    } else {
      SumOfJournal(accounts, t, ledger, lines, AccountNet(account), (l: Line) => 0);
      SumOfZeros(lines, (l: Line) => 0);
    }
  }

  /** The copies are on IFRS accounts. */
  lemma MirrorMoves(rules: seq<Rule>, accounts: seq<Account>, t: nat, lines: seq<Line>, account: nat)
    requires Balanced(lines) && account < |accounts|
    ensures Sum(MirrorEntries(rules, accounts, t, lines), AccountNet(account))
            == if accounts[account].ledger == Ifrs && FullyMapped(rules, accounts, lines)
               then Sum(lines, NetOnTarget(rules, accounts, account)) else 0
  {
    hide Find;
    if FullyMapped(rules, accounts, lines) {
      SumOfCopies(rules, accounts, t, lines, account);
      if accounts[account].ledger != Ifrs {
        SumOfZeros(lines, NetOnTarget(rules, accounts, account));
      }
    }
  }

  lemma MirrorMovesAsTold(db: Db, grown: seq<Account>, t: nat, lines: seq<Line>, account: nat)
    requires GrownByChart(db.accounts, grown, db.chart) && Balanced(lines) && account < |db.accounts|
    ensures Sum(MirrorEntries(db.rules, grown, t, lines), AccountNet(account))
            == if db.accounts[account].ledger == Ifrs && FullyMapped(db.rules, db.accounts, lines)
               then Sum(lines, NetOnTarget(db.rules, db.accounts, account)) else 0
  {
    MirrorMoves(db.rules, grown, t, lines, account);
    hide MirrorEntries, Sum, Target, Balanced;
    forall line | line in lines
      ensures Target(db.rules, grown, line.code) == Target(db.rules, db.accounts, line.code)
    {
      TargetInGrown(db.rules, db.accounts, grown, db.chart, line.code);
    }
    SumOfEqualAmounts(lines, NetOnTarget(db.rules, grown, account), NetOnTarget(db.rules, db.accounts, account));
  }

  lemma PostedEntriesMove(db: Db, p: PostParams, account: nat)
    requires Consistent(db) && Post(db, p).Ok? && account < |db.accounts|
    ensures var after := Post(db, p).value.0;
            && AllPresent(after.accounts, p.ledger, p.lines)
            && Sum(PostedEntries(db, p, after.accounts), AccountNet(account)) == Movement(db, p, account)
  {
    hide Post, Balanced, Locked, Grounded, GrownByChart, UniqueCodes, Journal, MirrorEntries, Sum, FullyMapped;
    PostAppends(db, p);
    PostKeepsConsistent(db, p);
    PostSucceedsExactlyWhen(db, p);
    var t, accounts := |db.transactions|, Post(db, p).value.0.accounts;
    var mirror := if p.ledger == Nas then MirrorEntries(db.rules, accounts, t, p.lines) else [];
    SumOfConcat(Journal(accounts, t, p.ledger, p.lines), mirror, AccountNet(account));
    assert accounts[account] == db.accounts[account];
    JournalMoves(accounts, t, p.ledger, p.lines, account);
    if p.ledger == Nas {
      MirrorMovesAsTold(db, accounts, t, p.lines, account);
    } else {
      SumOfZeros<Entry>([], AccountNet(account));
    }
  }

  /** Over all days a post moves each account by just that. */
  lemma PostMoves(db: Db, p: PostParams, account: nat)
    requires Consistent(db) && Post(db, p).Ok? && account < |db.accounts|
    ensures Sum(Post(db, p).value.0.entries, AccountNet(account))
            == Sum(db.entries, AccountNet(account)) + Movement(db, p, account)
  {
    hide Post, PostedEntries, Movement, Sum;
    PostAppends(db, p);
    PostedEntriesMove(db, p, account);
    SumOfConcat(db.entries, PostedEntries(db, p, Post(db, p).value.0.accounts), AccountNet(account));
  }

  /** As of a day it moves them by that, if it is dated no later, and else by nothing. */
  lemma BalanceAfterPost(db: Db, p: PostParams, account: nat, until: Day)
    requires Consistent(db) && Post(db, p).Ok? && account < |db.accounts|
    ensures BalanceAsOf(Post(db, p).value.0, account, until)
            == BalanceAsOf(db, account, until) + if until.Before(p.date.day) then 0 else Movement(db, p, account)
  {
    PostAppends(db, p);
    PostedEntriesMove(db, p, account);
    hide Post, PostedEntries, Movement, Sum;
    var (after, t) := Post(db, p).value;
    var added := PostedEntries(db, p, after.accounts);
    assert after.entries[|db.entries|..] == added;
    assert forall e | e in db.entries :: Refers(db, e);
    EntriesOnMoreTransactions(db, after, db.entries, UpTo(until));
    EntriesOnOneTransaction(after, db.entries, added, t, UpTo(until));
    SumOfConcat(EntriesOf(db, UpTo(until)), added, AccountNet(account));
    assert EntriesOf(db, UpTo(until)) + [] == EntriesOf(db, UpTo(until));
  }

  /** So a balance as of the lock date stays the same exactly when the post is not dated on that day, or what it
      moves the account by nets to zero. */
  lemma LockedBalanceStaysExactlyWhen(db: Db, p: PostParams, account: nat, until: Day)
    requires Consistent(db) && Post(db, p).Ok? && account < |db.accounts|
    requires db.settings.lockedUntil == Some(until)
    ensures BalanceAsOf(Post(db, p).value.0, account, until) == BalanceAsOf(db, account, until)
            <==> p.date.day != until || Movement(db, p, account) == 0
  {
    BalanceAfterPost(db, p, account, until);
    PostSucceedsExactlyWhen(db, p);
    hide BalanceAsOf, Movement;
  }

  // A post at noon on the lock date: 5.0000 from 601 to 101.

  const LOCK_DAY := Day(2026, 3, 31)

  function PlainAccount(code: string): Account {
    Account(Nas, code, Names("", "", ""), Asset, "AZN", None, false)
  }

  function LockedDb(): Db {
    Db([PlainAccount("101"), PlainAccount("601")], [], [], [], [], map[], [], {}, map[], map[], [],
       Settings({}, Some(LOCK_DAY), false))
  }

  function NoonPost(): PostParams {
    PostParams(Instant(LOCK_DAY, 43_200_000), true, None, None, Nas,
               [Line("101", 50_000, 0), Line("601", 0, 50_000)])
  }

  lemma NoonLines()
    ensures Balanced(NoonPost().lines)
  {
    var lines := NoonPost().lines;
    SumOfPair(lines[0], lines[1], DebitOf());
    SumOfPair(lines[0], lines[1], CreditOf());
    hide Sum;
  }

  lemma NoonAccounts()
    ensures Find(LockedDb().accounts, Nas, "101") == Some(0)
    ensures Find(LockedDb().accounts, Nas, "601") == Some(1)
  {}

  /** It goes through, and changes what is recorded and what the first account holds as of the lock date. */
  lemma LockDayIsOpenAfterMidnight()
    ensures Consistent(LockedDb())
    ensures Post(LockedDb(), NoonPost()).Ok?
    ensures var after := Post(LockedDb(), NoonPost()).value.0;
            && EntriesOf(after, UpTo(LOCK_DAY)) != EntriesOf(LockedDb(), UpTo(LOCK_DAY))
            && BalanceAsOf(after, 0, LOCK_DAY) == BalanceAsOf(LockedDb(), 0, LOCK_DAY) + 50_000
  {
    NoonLines();
    NoonAccounts();
    hide Post, Find, Balanced, EntriesOf, BalanceAsOf, Sum;
    var db, p := LockedDb(), NoonPost();
    forall line | line in p.lines
      ensures Grounded(db.accounts, db.chart, line.code)
    {
      PresentIsGrounded(db.accounts, db.chart, line.code);
    }
    PostSucceedsExactlyWhen(db, p);
    LockFreezesUnlessPostedOnTheLockDay(db, p, LOCK_DAY);
    BalanceAfterPost(db, p, 0, LOCK_DAY);
    SumOfPair(p.lines[0], p.lines[1], NetOnCode("101"));
  }

  /** The same post at midnight of the lock date is refused. */
  lemma LockDayIsClosedAtMidnight()
    ensures Post(LockedDb(), NoonPost().(date := Instant(LOCK_DAY, 0))) == Err(PeriodLocked)
  {
    hide Post, Balanced;
    NoonLines();
    LockRefusesExactly(LockedDb(), NoonPost().(date := Instant(LOCK_DAY, 0)), LOCK_DAY);
  }
}
