# Verified model of the ledger, netting and text algorithms

This Dafny project models the accounting core of the repository and a handful of its algorithms, and
proves what they keep. `dafny verify dfyconfig.toml` checks all of it.

**The ledger.** `Tables.dfy` holds the rows, `Database.dfy` a class with one field per table whose
`Now()` is the state of all tables at one moment. `AccountingService.dfy`, `IfrsAutoMappingService.dfy`,
`NettingService.dfy` and `BankSubaccountService.dfy` are the services as methods on that class, with
the loops and the order of checks of the code; a thrown error inside `$transaction` rolls the tables back.
Each method is proved equal to a function of the tables (`Chart`, `Posting`, `Mirror`, `Allocation`,
`Netting`, `BankSubaccounts`), and the properties are proved about those functions. `Greedy.dfy` treats
the spreading of an amount over open balances on its own. `Interleaving.dfy` is a state machine in which
the reads of a netting and its transaction are two steps, with posts, payments, account openings, new
rules, settings and invoice edits allowed between them; its theorems hold for every run. `Overdraft.dfy`
follows nettings of one counterparty through it. `AccountBalances.dfy` tells what a post does to every balance.

**The algorithms.** `JsonDiff.dfy` (audit diff as a patch), `AmountWords.dfy`, `WordGrammar.dfy`
and `AmountText.dfy` (amounts in words in Azerbaijani and Russian, what makes such words well put, and a
reader that takes no others), `Translations.dfy` (tree merge, flat catalog, lookup,
audit), `Iban.dfy` (MOD 97-10 of ISO/IEC 7064 for ISO 13616-1 account numbers) and `CsvExport.dfy`
(a printer, and a reader for the quoting rules of section 2 of RFC 4180). `FirstUses.dfy` is the list of
distinct elements that several of them collect in a set.

Conventions: money is an integer count of 0.0001 AZN; a row's id is its position in its table; a
`null` or empty parent code is the empty string, since the code treats both as absent; a date column
keeps the UTC day of a timestamp, a timestamp is a day and its milliseconds.

**Where the code does not do what it seems to promise.** The exact condition under which each promise
holds is proved; the lemmas named here state it or give an input for which it fails:

- A lock date is compared, as its midnight, with the timestamp of a post, while the transaction keeps only
  the day (packages/database/prisma/schema.prisma:2170). So a post at its midnight is refused, and one later on
  the lock date goes through and changes balances as of that date: `AccountBalances.LockDayIsOpenAfterMidnight`,
  `AccountBalances.LockedBalanceStaysExactlyWhen`, `Interleaving.LockedPeriodIsFrozen`.
- A mapping rule to an IFRS account with a blank code counts as no rule: `Mirror.BlankTargetIsNotMirrored`.
- The repeated creation of a bank subaccount misses the account it created when an older live row of the
  branch and currency holds no code, or one without account: `BankSubaccounts.StaleRowHidesTheNewAccount`,
  `BankSubaccounts.RepeatIsIdempotentUnlessAStaleRowComesFirst`.
- `k in a` also finds what every object inherits, so the removal of a key such as `toString` is listed as
  a change: `JsonDiff.RemovedInheritedKeyIsNotRemovedByThePatch`.
- A merged catalog is not the override of the two catalogs when a string meets a subtree, or a subtree or
  string with text in it is replaced by a value without: `Translations.FlatOfMergeIsOverrideExactlyWhenCompatible`,
  `Translations.TextUnderAnObjectIsLost`.
- The translation audit looks into the merge of the web and extension trees, the catalog is written from the web
  tree alone: `Translations.AuditOfMergeReadsTheOverride`.
- Amounts from 10^12 on print as less than they are: `AmountText.TextReadsBackExactlyBelowTenToTheTwelve`.
- Account 531 is read before the transaction of a netting and not again inside it, so nettings that are all
  checked before any of them commits can overdraw it: `Overdraft.CheckedNettingsOverdrawExactlyWhen`,
  `Overdraft.TwoNettingsOfOnePayable`.
- A CSV file without columns does not read back: `CsvExport.FileReadsBackExactlyWithAColumn`.

## Model

| member | source | states |
|---|---|---|
| `Tables.DaysInOrder` | apps/api/src/accounting/netting.service.ts:146-146 | due dates are compared as the calendar orders them |
| `Balance.BalanceError` | apps/api/src/accounting/accounting.service.ts:63-85 | no error exactly for a nonempty list without a line that has both sides set, whose debits equal its credits and are positive |
| `Balance.ValidateBalance` | apps/api/src/accounting/accounting.service.ts:63-85 | the loop reports the first error in the order of the code, and none exactly for balanced lines |
| `Chart.EnsureSucceedsExactlyWhenTheClimbLands` | apps/api/src/accounting/accounting.service.ts:451-538 | on every chart, cyclic ones included, creation succeeds exactly when the chain of parents reaches an existing account or a root |
| `Chart.EnsureCreatesExactlyTheClimb` | apps/api/src/accounting/accounting.service.ts:470-504 | what is appended is one account for each missing code of that chain, deepest ancestor first, and nothing else |
| `Chart.WhyEnsureFails` | apps/api/src/accounting/accounting.service.ts:467-523 | a failure is a repeated code or one with neither chart entry nor fallback, reached by a real chain of missing parents; no other error arises, so the parent lookup at 518 never fails |
| `Chart.EnsureGrowsByChart` | apps/api/src/accounting/accounting.service.ts:484-502 | existing accounts stay as they were, codes stay unique, and each new account links to an earlier one with the parent code of the chart, so the null at 488 never arises |
| `Chart.EnsureAllGrowsByChart` | apps/api/src/accounting/accounting.service.ts:419-449 | after the loop every code exists, and the new accounts form a forest linked by the chart |
| `Chart.EnsureAllExistingIsIdle` | apps/api/src/accounting/accounting.service.ts:436-448 | ensuring codes that exist creates nothing |
| `Chart.EnsureAllSucceedsExactlyWhenEveryClimbLands` | apps/api/src/accounting/accounting.service.ts:419-449 | a list of codes can be ensured exactly when each one could be from the accounts at the start: no code helps or hinders another |
| `Chart.EnsureAllCreatesOnlyWhatIsNeeded` | apps/api/src/accounting/accounting.service.ts:436-448 | every account created for a list of codes is a missing one on the climb of one of them |
| `AccountingService.EnsureNasAccountExists` | apps/api/src/accounting/accounting.service.ts:451-538 | the recursive method, with its stack, leaves the accounts that the creation function gives or returns its error, and unwinds the stack |
| `AccountingService.EnsureNasAccountsForPosting` | apps/api/src/accounting/accounting.service.ts:419-449 | the loop that skips codes found at the start equals ensuring every code in turn |
| `Posting.Codes` | apps/api/src/accounting/accounting.service.ts:136-136 | exactly the codes of the lines, none listed twice |
| `Posting.CodesInOrderOfFirstUse` | apps/api/src/accounting/accounting.service.ts:136-136 | they come in the order of first use |
| `Posting.PostSucceedsExactlyWhen` | apps/api/src/accounting/accounting.service.ts:118-162 | a post goes through exactly when lines balance, month and date are open, every account exists or can be created, and the department exists |
| `Posting.WhyPostFails` | apps/api/src/accounting/accounting.service.ts:118-162 | which error refuses a post: the lines before the month, the month before the lock date, the lock date before the accounts, the accounts before the department, each with the condition that holds then |
| `Posting.LockRefusesExactly` | apps/api/src/accounting/accounting.service.ts:131-134 | the lock date refuses exactly the posts of earlier days and those at its own midnight |
| `Posting.PostWritesTheRow` | apps/api/src/accounting/accounting.service.ts:164-175 | the transaction row has the day, final flag, counterparty and department asked for, and no table but accounts, transactions and entries changes, accounts only for NAS |
| `Posting.PostWritesTheLines` | apps/api/src/accounting/accounting.service.ts:184-216 | the new entries are the lines one for one, each on the account of the ledger with its code, and then the mirror for NAS |
| `Posting.PostAppends` | apps/api/src/accounting/accounting.service.ts:164-219 | a post adds one transaction and at least one entry, all of that transaction, and changes no other table; accounts grow by the chart |
| `Posting.JournalAt` | apps/api/src/accounting/accounting.service.ts:184-207 | entry k carries the account, debit and credit of line k |
| `Posting.PostCreatesOnlyWhatIsNeeded` | apps/api/src/accounting/accounting.service.ts:136-137 | every account a post creates is a missing one on the climb of one of its lines |
| `Posting.NasLookupNeverFails` | apps/api/src/accounting/accounting.service.ts:136-153 | after the ensure loop the lookup of accounts by code finds every one |
| `Posting.RepeatedPostCreatesNoAccount` | apps/api/src/accounting/accounting.service.ts:136-144 | the same post again goes through and creates no account |
| `Posting.PostedEntriesBalance` | apps/api/src/accounting/accounting.service.ts:184-216 | what a post writes nets to zero in each ledger, with a positive debit total in the ledger posted to |
| `Posting.PostKeepsConsistent` | apps/api/src/accounting/accounting.service.ts:90-219 | unique codes, entries pointing at existing rows of their ledger, and balance of every transaction survive a post |
| `Posting.TrialBalanceIsZero` | apps/api/src/accounting/accounting.service.ts:63-85 | in consistent tables the trial balance of each ledger is zero |
| `Posting.PostTouchesOnlyItsDay` | apps/api/src/accounting/accounting.service.ts:164-175 | the entries of a set of days change exactly when the date of the post is one of them |
| `Posting.PostKeepsClosedMonth` | apps/api/src/accounting/accounting.service.ts:124-130 | entries of a closed month do not change |
| `Posting.LockFreezesUnlessPostedOnTheLockDay` | apps/api/src/accounting/accounting.service.ts:131-134 | entries up to the lock date stay the same exactly when the post is not dated on the lock date itself |
| `AccountBalances.PostMoves` | apps/api/src/accounting/accounting.service.ts:184-216 | a post moves each account by the lines with its code, or in the mirror by the lines mapped to it, as can be told from the tables beforehand |
| `AccountBalances.BalanceAfterPost` | apps/api/src/accounting/accounting.service.ts:164-216 | the balance of an account as of any day moves by just that if the post is dated no later, and else not at all |
| `AccountBalances.LockedBalanceStaysExactlyWhen` | apps/api/src/accounting/accounting.service.ts:131-134 | a balance as of the lock date stays the same exactly when the post is not dated on that day or nets to zero on the account |
| `AccountBalances.LockDayIsOpenAfterMidnight` | apps/api/src/accounting/accounting.service.ts:131-134 | a concrete post at noon of the lock date goes through and changes the entries and a balance as of that date |
| `AccountingService.PrepareAccounts` | apps/api/src/accounting/accounting.service.ts:118-162 | the checks before the first write, in order, with the error each one throws |
| `AccountingService.WriteJournal` | apps/api/src/accounting/accounting.service.ts:184-207 | the loop appends one entry per line, in order |
| `AccountingService.PostJournalInTransaction` | apps/api/src/accounting/accounting.service.ts:90-219 | the statements in order compute the post function of the old tables, or its error |
| `AccountingService.PostTransaction` | apps/api/src/accounting/accounting.service.ts:221-241 | as above, and an error leaves every table as it was |
| `AccountBalances.LockDayIsClosedAtMidnight` | apps/api/src/accounting/accounting.service.ts:131-134 | the same post at midnight of the lock date is refused |
| `Mirror.FirstTargetIsThatOfTheFirstRule` | apps/api/src/accounting/ifrs-auto-mapping.service.ts:38-44 | the target found is that of the first rule which is active and whose IFRS account exists; none exactly when there is no such rule |
| `Mirror.MirrorAt` | apps/api/src/accounting/ifrs-auto-mapping.service.ts:18-74 | copy k has the amounts of line k and stands on the IFRS account that the first active rule for its code with an existing account names |
| `Mirror.CopiesAt` | apps/api/src/accounting/ifrs-auto-mapping.service.ts:46-53 | copy k has the account mapped to and the amounts of line k |
| `Mirror.MirrorIsWrittenExactlyWhenEveryLineIsMapped` | apps/api/src/accounting/ifrs-auto-mapping.service.ts:46-74 | for the balanced lines that posting hands over the mirror is written exactly when each line has a rule that applies and the first such rule names no blank code, and then one copy per line; so neither the total check at 61 nor a missing account at 51 stops it |
| `Mirror.BlankTargetIsNotMirrored` | apps/api/src/accounting/ifrs-auto-mapping.service.ts:48-49 | an IFRS account with a blank code is the exception: the rule applies and nothing is written |
| `Mirror.CopiesKeepTotals` | apps/api/src/accounting/ifrs-auto-mapping.service.ts:52-74 | the copies carry the debit and credit totals of the lines |
| `Mirror.MirrorBalances` | apps/api/src/accounting/ifrs-auto-mapping.service.ts:55-74 | a mirror adds nothing to the net of either ledger |
| `IfrsAutoMappingService.RuleBySource` | apps/api/src/accounting/ifrs-auto-mapping.service.ts:38-44 | the map holds, for each code, the target of the first rule that applies |
| `IfrsAutoMappingService.Stage` | apps/api/src/accounting/ifrs-auto-mapping.service.ts:46-53 | staging succeeds exactly when every line has a target, and then holds the copies in order |
| `IfrsAutoMappingService.MirrorFromNas` | apps/api/src/accounting/ifrs-auto-mapping.service.ts:9-75 | all copies are appended or none |
| `Allocation.OrderedIsTheQuery` | apps/api/src/accounting/netting.service.ts:139-148 | the list walked holds exactly the invoices that are theirs, recognized and not cancelled, each once, by due date and then id |
| `Allocation.ReceivableIsWhatCanBeAllocated` | apps/api/src/accounting/netting.service.ts:42-65 | the receivable computed for the limit is the most that the loop over the ordered invoices can place |
| `Allocation.ReceivableIsOwed` | apps/api/src/accounting/netting.service.ts:46-63 | the receivable is what the rows make the counterparty owe: each row that is theirs, recognized and not cancelled its open balance, every other row nothing |
| `Allocation.ReceivableAfterReplacing` | apps/api/src/accounting/netting.service.ts:46-63 | when a row changes, the receivable changes by the difference of what the two rows make the counterparty owe |
| `Allocation.ReceivableAfterAppending` | apps/api/src/accounting/netting.service.ts:46-63 | a new unpaid row adds its total exactly if it is theirs, recognized and not cancelled |
| `Allocation.AllocateLeavesOtherRowsAlone` | apps/api/src/accounting/netting.service.ts:139-148 | rows that are not recognized, cancelled or of another counterparty are neither paid nor changed |
| `Allocation.AllocatedPayments` | apps/api/src/accounting/netting.service.ts:159-167 | every payment made is positive, on a recognized and not cancelled invoice of the counterparty, linked to the transaction and dated like it |
| `Allocation.SettledFacts` | apps/api/src/accounting/netting.service.ts:98-122 | the flag says paid in full; a signed invoice stays signed; otherwise PAID and PARTIALLY_PAID say what has been paid |
| `Allocation.SettledTwice` | apps/api/src/accounting/netting.service.ts:98-122 | deriving the state after a part payment first makes no difference to the state derived in the end |
| `Greedy.ShareIsWhatReachesIt` | apps/api/src/accounting/netting.service.ts:150-168 | closed form of the loop: an invoice gets what is left past the open balances before it, capped at its own |
| `Greedy.SpreadTotal` | apps/api/src/accounting/netting.service.ts:150-168 | the total placed is the lesser of the amount and the sum of positive balances |
| `Greedy.NothingPastAnOpenBalance` | apps/api/src/accounting/netting.service.ts:150-158 | past a balance left open nothing is placed |
| `Greedy.SpreadInTwo` | apps/api/src/accounting/netting.service.ts:150-168 | spreading a and then b gives every balance what spreading a + b gives it |
| `Greedy.SpreadClosesWhatItShares` | apps/api/src/accounting/netting.service.ts:150-168 | what is shared out is exactly what stops being open |
| `Allocation.RunSpreads` | apps/api/src/accounting/netting.service.ts:150-187 | the loop with its payments and status updates gives each invoice its share of that spread and touches no other row |
| `Allocation.AllocateUsesUpTheReceivable` | apps/api/src/accounting/netting.service.ts:128-194 | it succeeds exactly when the amount exceeds the receivable by at most 0.0001; then it places the lesser of the two and lowers the receivable by that; otherwise the error names the rest |
| `Allocation.AllocateNeverOverpays` | apps/api/src/accounting/netting.service.ts:150-187 | no invoice is paid past its total; those that were paid have the derived state and a flag that is set exactly when paid in full; the others are unchanged |
| `Allocation.AllocateIsOldestFirst` | apps/api/src/accounting/netting.service.ts:146-158 | while an invoice is short of its total, every later one gets nothing |
| `Allocation.AllocateSparesOthers` | apps/api/src/accounting/netting.service.ts:139-148 | the receivable of other counterparties does not change |
| `Allocation.AllocateInTwo` | apps/api/src/accounting/netting.service.ts:98-194 | split invariance: allocating a and then b ends with the invoices and paid sums of allocating a + b, signed invoices included |
| `NettingService.ReceivableForCounterparty` | apps/api/src/accounting/netting.service.ts:42-65 | the loop returns the receivable |
| `NettingService.Payable531ForCounterparty` | apps/api/src/accounting/netting.service.ts:68-96 | the loop returns the credit balance of 531 with the counterparty, or zero |
| `NettingService.PreviewNetting` | apps/api/src/accounting/netting.service.ts:196-227 | the preview, or the error for an unknown counterparty |
| `NettingService.PayOne` | apps/api/src/accounting/netting.service.ts:159-186 | one turn: the payment row, and the state derived from all payments of the invoice |
| `NettingService.AllocateNettingToInvoicePayments` | apps/api/src/accounting/netting.service.ts:128-194 | the loop over rows fetched once computes the allocation function, or its error |
| `Netting.VatShareIsNearest` | apps/api/src/accounting/netting.service.ts:305-309 | the VAT share is within half a unit of 18/118 of the amount and never more than the amount |
| `Netting.NettingLinesBalance` | apps/api/src/accounting/netting.service.ts:334-360 | the lines balance, with the VAT pair or without |
| `Netting.PlannedPost` | apps/api/src/accounting/netting.service.ts:280-370 | a checked netting posts exactly when its date is open, and needs no new account |
| `Netting.PayableAfterPost` | apps/api/src/accounting/netting.service.ts:82-95 | what any NAS post does to the balance of 531 with a counterparty |
| `Netting.PayableIsCredited` | apps/api/src/accounting/netting.service.ts:73-95 | the payable is what the NAS entries on account 531 in transactions with the counterparty leave credited, entry by entry |
| `Netting.PreviewShowsBothBalances` | apps/api/src/accounting/netting.service.ts:201-226 | the preview shows what the invoices leave open and what 531 leaves credited, suggests the lesser, and says canNet exactly when both are positive |
| `Netting.PlanIsMadeExactlyWhen` | apps/api/src/accounting/netting.service.ts:240-296 | a netting passes the checks exactly when it is positive, the counterparty is known, both balances cover it and accounts 211 and 531 exist; otherwise the first check that fails is reported |
| `Netting.NettingWritesOneTransaction` | apps/api/src/accounting/netting.service.ts:362-382 | a netting is one final transaction of that day with the counterparty, named by the receipt |
| `Netting.CommitOutcome` | apps/api/src/accounting/netting.service.ts:333-379 | the transaction commits exactly when the post goes through and the receivable of that moment covers the amount up to 0.0001; its payments then add up to the lesser of the two; a failure is that of the post, or the residue |
| `Netting.NettingIsExact` | apps/api/src/accounting/netting.service.ts:229-394 | serial netting succeeds exactly when its checks pass and its date is open; receivable, payable 531 and limit fall by exactly the amount, all of it is allocated, and the residue error cannot arise |
| `Netting.NettingMovesItsAccountsOnly` | apps/api/src/accounting/netting.service.ts:304-387 | a netting debits 531 and credits 211 by the amount, debits 241 and credits 541 by the VAT share of the receipt exactly when both sides pay VAT and both accounts exist, and moves no other NAS account |
| `Netting.NettingSparesOthers` | apps/api/src/accounting/netting.service.ts:229-394 | receivable and payable of other counterparties stay the same |
| `Netting.FullNettingEndsIt` | apps/api/src/accounting/netting.service.ts:217-226 | after netting all that is suggested the preview says canNet is false |
| `Netting.NettedNeverExceedsFirstSuggestion` | apps/api/src/accounting/netting.service.ts:264-278 | over any run of nettings the limit of each counterparty falls by what was netted for it, so the total never exceeds the first suggested amount |
| `NettingService.CheckNetting` | apps/api/src/accounting/netting.service.ts:240-329 | the reads and checks before the transaction, in order |
| `NettingService.CommitPlan` | apps/api/src/accounting/netting.service.ts:333-379 | post and allocation, or an error with every table as it was |
| `NettingService.CreateNetting` | apps/api/src/accounting/netting.service.ts:229-394 | the whole request computes the netting function, or an error with every table as it was |
| `Interleaving.CommitIsSafe` | apps/api/src/accounting/netting.service.ts:333-379 | whatever happened since the reads, a commit either changes no table or pays no invoice past its total; which of the two is decided by the post and the receivable of that moment |
| `Interleaving.CommitTakesPayableUnchecked` | apps/api/src/accounting/netting.service.ts:268-278 | 531 is not read again: a commit lowers it by the amount, so it stays covered exactly when it covers the amount at the commit |
| `Overdraft.CheckedNettingCommits` | apps/api/src/accounting/netting.service.ts:333-379 | a netting checked earlier commits exactly when the receivable of that moment covers it up to 0.0001, whatever the payable is by then |
| `Overdraft.CommitsTakeWhatTheReceivableCovers` | apps/api/src/accounting/netting.service.ts:333-379 | any number of plans of one counterparty, checked on the same balances at some earlier time: committed in turn, exactly those go through that the receivable still covers, and the payable falls by all of them |
| `Overdraft.CheckedNettingsOverdrawExactlyWhen` | apps/api/src/accounting/netting.service.ts:264-379 | any nettings that pass the check on the same balances overdraw 531 exactly when what the receivable lets through is more than the payable they were checked against |
| `Overdraft.TwoCheckedNettingsOverdrawExactlyWhenPayableCoversOne` | apps/api/src/accounting/netting.service.ts:264-379 | two nettings of one counterparty that both pass the check before either commits: the second one commits exactly when the receivable covers both up to 0.0001, and 531 ends below zero exactly when it does and the payable was less than the two together |
| `Overdraft.TwoNettingsOfOnePayable` | apps/api/src/accounting/netting.service.ts:264-379 | a run of five successful steps from tables without a journal that ends with 531 overdrawn |
| `Interleaving.CommitGap` | apps/api/src/accounting/netting.service.ts:189-193 | a commit credits 211 by at most 0.0001 more than the payments linked to it |
| `Interleaving.LaterWritesKeepGap` | apps/api/src/accounting/netting.service.ts:159-167 | later transactions do not change that difference |
| `Interleaving.WritingStepIsSound` | apps/api/src/accounting/netting.service.ts:333-379 | a step that writes a transaction keeps the invariant of the machine |
| `Interleaving.QuietStepIsSound` | apps/api/src/accounting/netting.service.ts:264-278 | a step that writes none keeps it too, with the journal unchanged |
| `Interleaving.StartIsSound` | apps/api/src/accounting/accounting.service.ts:90-219 | the invariant of the machine holds before anything is posted, so the run theorems cover every run from an empty journal |
| `Interleaving.EveryRunIsSound` | apps/api/src/accounting/accounting.service.ts:90-219 | over every run of posts, payments, netting reads, commits, account openings and edits: consistent tables, zero trial balances, old accounts unchanged and new ones a forest, and the bound on each netting |
| `Interleaving.CreditsFollowPayments` | apps/api/src/accounting/netting.service.ts:189-193 | after k committed nettings of any run the 211 credits exceed the linked payments by at most k times 0.0001, and never fall short |
| `Interleaving.PlanThenCommitIsSerialNetting` | apps/api/src/accounting/netting.service.ts:229-394 | reads and commit with nothing in between are the serial netting |
| `Interleaving.RunChangesExactlyTheDaysItTouches` | apps/api/src/accounting/accounting.service.ts:164-175 | what is recorded for a set of days only grows over a run, and changes exactly when some step writes on one of them |
| `Interleaving.ClosedMonthIsFrozen` | apps/api/src/accounting/accounting.service.ts:124-130 | while a month stays closed its entries never change, in any run |
| `Interleaving.WrittenDateIsAllowed` | apps/api/src/accounting/accounting.service.ts:124-134 | in any run no step writes a transaction in a closed month, before the lock date or at its midnight |
| `Interleaving.RunMovesBalance` | apps/api/src/accounting/accounting.service.ts:164-216 | over any run the balance of an account as of a day moves by what the posts of the run dated up to it move it by |
| `Interleaving.LockedPeriodIsFrozen` | apps/api/src/accounting/accounting.service.ts:131-134 | while a lock date stays set everything before it is frozen; entries up to it are exactly when no step writes on the day, and the balance of an account as of it exactly when what the steps that write on the day move it by nets to zero |
| `Interleaving.LockedPeriodIsFrozenWhenNoStepIsDatedOnIt` | apps/api/src/accounting/accounting.service.ts:131-134 | in particular entries and balances up to the lock date are constant over every run without a step dated on it |
| `Database.Database.AccountsByCode` | apps/api/src/accounting/accounting.service.ts:138-148 | the map by code holds exactly the accounts of the ledger |
| `Database.Database.RollBack` | apps/api/src/accounting/accounting.service.ts:238-240 | every table is what it was before the transaction |
| `BankSubaccounts.MaxSequenceIsTheMaximum` | apps/api/src/accounting/bank-subaccount.service.ts:70-79 | no sequence under the prefix, nested codes included, is above the maximum, and it is one of them |
| `BankSubaccounts.Padded` | apps/api/src/accounting/bank-subaccount.service.ts:86-86 | the two digits printed read as the number |
| `BankSubaccounts.NextCodeIsFreshAndConsecutive` | apps/api/src/accounting/bank-subaccount.service.ts:51-87 | the code is not in use, and taking it raises the maximum by one |
| `BankSubaccounts.CreationsCountUpToTheLimit` | apps/api/src/accounting/bank-subaccount.service.ts:80-86 | any number of creations returns consecutive codes from the maximum, and exactly 99 less the maximum succeed |
| `BankSubaccounts.OtherBankKeepsItsCounter` | apps/api/src/accounting/bank-subaccount.service.ts:61-69 | an account of one bank does not move the counter of another |
| `BankSubaccounts.CodesForThreeBanks` | apps/api/src/accounting/bank-subaccount.service.ts:61-86 | with 221.14.03.01, 221.14.07 and 221.15.50 in use the next codes are 221.14.08, 221.15.51 and 221.20.01 |
| `BankSubaccounts.SubaccountSucceedsExactlyWhen` | apps/api/src/accounting/bank-subaccount.service.ts:107-169 | a request succeeds exactly when branch and bank are active, the bank code has two digits, and there is a linked account or else account 221 and a free sequence; otherwise the first thing amiss is reported |
| `BankSubaccounts.SubaccountIsAsAskedFor` | apps/api/src/accounting/bank-subaccount.service.ts:137-185 | what is returned is the linked account, or a new NAS asset account of that currency and name under 221 |
| `BankSubaccounts.LinkedCodeIsThatOfTheFirstLiveRow` | apps/api/src/accounting/bank-subaccount.service.ts:128-136 | archived rows and rows of another branch or currency are ignored |
| `BankSubaccounts.CreatedIsFound` | apps/api/src/accounting/bank-subaccount.service.ts:171-185 | the created account is the one found by its code, and lookups by other codes are unchanged |
| `BankSubaccounts.RepeatIsIdempotentUnlessAStaleRowComesFirst` | apps/api/src/accounting/bank-subaccount.service.ts:126-149 | with the code attached, a repeat returns the same account with created false exactly when the account was there before, or there was no earlier live row of the branch and currency, or that row already held the next code |
| `BankSubaccounts.StaleRowHidesTheNewAccount` | apps/api/src/accounting/bank-subaccount.service.ts:126-149 | a concrete such row, for which the repeat does not return the same account |
| `BankSubaccountService.NextSubaccountCode` | apps/api/src/accounting/bank-subaccount.service.ts:51-87 | the scan returns the next code, or the error for a bad bank code or an overflow |
| `BankSubaccountService.EnsureSubaccountForBranch` | apps/api/src/accounting/bank-subaccount.service.ts:97-186 | the method finds or creates the account, or changes nothing and returns the error |
| `JsonDiff.DiffIsAPatchUnlessAnInheritedKeyIsRemoved` | apps/web/lib/audit-json-diff.ts:19-53 | for all nested JSON values, applying the rows to the old value gives the new one exactly when no key was removed that every object inherits |
| `JsonDiff.RemovedInheritedKeyIsNotRemovedByThePatch` | apps/web/lib/audit-json-diff.ts:41-47 | a concrete removal of the key toString that the rows record as a change |
| `JsonDiff.NoRowsExactlyWhenSame` | apps/web/lib/audit-json-diff.ts:25-49 | there are no rows exactly when the two values are the same up to key order |
| `JsonDiff.RowsReportExactlyWhereTheWalkEnds` | apps/web/lib/audit-json-diff.ts:25-49 | a row is listed exactly when the two values differ at its path and the walk ends there, that is with objects on both sides all the way and then a key one side lacks or a pair that is not two objects; its values are those the path leads to |
| `JsonDiff.NoRowHasTwoObjects` | apps/web/lib/audit-json-diff.ts:32-46 | no row reports two objects whole |
| `JsonDiff.RowsComeInKeyOrder` | apps/web/lib/audit-json-diff.ts:38-39 | rows come in the order of the keys at every depth, those of the old object first |
| `JsonDiff.RowsDoNotOverlap` | apps/web/lib/audit-json-diff.ts:38-48 | no path is a prefix of that of another row |
| `JsonDiff.DiffBackwardsSwapsRows` | apps/web/lib/audit-json-diff.ts:25-49 | the reverse comparison has the same paths with old and new values swapped |
| `JsonDiff.RowList.Push` | apps/web/lib/audit-json-diff.ts:34-34 | one row more |
| `JsonDiff.RowList.Walk` | apps/web/lib/audit-json-diff.ts:25-49 | the walk pushes the rows of the two values, each below the path |
| `JsonDiff.RowList.WalkKey` | apps/web/lib/audit-json-diff.ts:39-48 | one key: added, removed or walked further |
| `JsonDiff.BuildJsonDiff` | apps/web/lib/audit-json-diff.ts:19-53 | the rows of the walk from the root: exactly the differences where it ends |
| `AmountWords.TriadsMakeUpTheNumber` | apps/web/lib/amount-to-words.ts:17-26 | the groups of three digits make up the number |
| `AmountWords.TriadsOf` | apps/web/lib/amount-to-words.ts:17-26 | the loop returns them, lowest first |
| `AmountWords.AzTriadReads` | apps/web/lib/amount-to-words.ts:78-89 | the words of a group read as its value |
| `AmountWords.RuTriadReads` | apps/web/lib/amount-to-words.ts:37-56 | the same in Russian, for both genders |
| `AmountWords.GroupReads` | apps/web/lib/amount-to-words.ts:96-107 | a group below 10^12 reads as its value times its scale, the bare min included |
| `AmountWords.AnyGroupReads` | apps/web/lib/amount-to-words.ts:68-74 | what a group at any position adds to what has been read, where the scale words have run out too |
| `AmountWords.IntWordsRead` | apps/web/lib/amount-to-words.ts:91-109 | the words of an integer below 10^12 read as it |
| `AmountWords.LargeIntWordsReadAsLess` | apps/web/lib/amount-to-words.ts:60-76 | from 10^12 on they read as less than the integer |
| `WordGrammar.AzGroupFits` | apps/web/lib/amount-to-words.ts:78-107 | the words of a group fall from hundreds to ones and then its scale, with the bare words for 100 and 1000 |
| `WordGrammar.RuGroupFits` | apps/web/lib/amount-to-words.ts:37-74 | the same in Russian, with 1 and 2 in the gender of the scale, and the scale in the form that agrees with the last numeral |
| `WordGrammar.PluralIsChosen` | apps/web/lib/amount-to-words.ts:28-35 | the form chosen by the last two digits: singular after 1, few after 2 to 4, many otherwise and after 11 to 19 |
| `WordGrammar.LastAgrees` | apps/web/lib/amount-to-words.ts:28-56 | that choice is the form which goes with the last numeral printed |
| `WordGrammar.WordsFit` | apps/web/lib/amount-to-words.ts:111-123 | all words of an amount below 10^12 fit one another, both currencies in the form that agrees with their number |
| `AmountText.TextReadsBackExactlyBelowTenToTheTwelve` | apps/web/lib/amount-to-words.ts:111-123 | the text of an amount is well put and reads back as its integer part and hundredths exactly when the integer part is below 10^12, in each language |
| `AmountText.DistinctAmountsPrintDistinctly` | apps/web/lib/amount-to-words.ts:111-123 | below that bound distinct amounts print distinct text |
| `AmountWords.ScalesRunOutAtTenToTheTwelve` | apps/web/lib/amount-to-words.ts:71-71 | 10^12 prints as 10^9 in Russian and as 1 in Azerbaijani |
| `AmountWords.AzTriadToWords` | apps/web/lib/amount-to-words.ts:78-89 | the method joins the words of the group |
| `AmountWords.RuTriadToWords` | apps/web/lib/amount-to-words.ts:37-56 | the method joins the words of the group |
| `AmountWords.AzIntToWords` | apps/web/lib/amount-to-words.ts:91-109 | the loop from the highest group down joins the words of the integer |
| `AmountWords.RuIntToWords` | apps/web/lib/amount-to-words.ts:58-76 | the same in Russian, with plural forms |
| `AmountText.AmountToWords` | apps/web/lib/amount-to-words.ts:111-123 | the text, which reads back exactly below 10^12 |
| `Translations.FlatIsLookup` | apps/api/scripts/gen-i18n-defaults.ts:10-24 | by key lists, the flat index has a string exactly where the lookup finds it |
| `Translations.FlattenStrings` | apps/api/scripts/gen-i18n-defaults.ts:10-24 | in any key order, the result lists exactly the strings of the tree under their dotted keys |
| `Translations.IndexAgreesWithLookup` | scripts/i18n-audit.ts:52-63 | for trees with nonempty dot-free keys the dotted index and the lookup agree on every key and string |
| `Translations.GetLeaf` | scripts/i18n-audit.ts:52-63 | the loop returns what stands at the parts of the key |
| `Translations.SplitDotted` | apps/api/scripts/gen-i18n-defaults.ts:16-16 | splitting a dotted key gives back the keys it was built from |
| `Translations.MergeTrees` | packages/i18n/src/index.ts:28-39 | the loop over the second tree, in any key order, gives the deep merge |
| `Translations.MergeLookup` | packages/i18n/src/index.ts:28-39 | a lookup in the merge finds what the second tree has once it has replaced something on the way, until then what the first has, and the merge of two objects |
| `Translations.HasStringsExactlyWhenFlatHasRows` | apps/api/scripts/gen-i18n-defaults.ts:15-22 | an index is empty exactly for trees without strings |
| `Translations.FlatOfMergeIsOverrideExactlyWhenCompatible` | packages/i18n/src/index.ts:28-39 | flattening a merge is overriding the first index by the second exactly when no replaced value loses a string other than to a string |
| `Translations.TextUnderAnObjectIsLost` | packages/i18n/src/index.ts:30-37 | a concrete text that meets an object: the override keeps it and the merge does not |
| `Translations.CatalogOfMergeIsOverrideExactlyWhenCompatible` | packages/i18n/src/index.ts:28-39 | the same for the dotted catalogs |
| `Translations.Audit` | scripts/i18n-audit.ts:100-124 | the three lists hold exactly the keys that are missing or empty in each language, and those that hold no string |
| `Translations.AuditPassesExactlyWhenCatalogsAreComplete` | scripts/i18n-audit.ts:104-139 | the audit of two trees passes exactly when the flat indexes of those trees hold a nonempty text for every key used |
| `Translations.AuditOfMergeReadsTheOverride` | scripts/i18n-audit.ts:22-30 | the trees audited are merges: for compatible trees a key passes exactly when the first index overridden by the second has a nonempty text for it, and for keys without a text in the second tree exactly when the first index, the catalog that is written, has one |
| `Translations.TreeHasAnIndex` | apps/api/scripts/gen-i18n-defaults.ts:10-24 | every tree with nonempty dot-free keys has such an index |
| `Iban.Remainder` | apps/web/lib/iban.ts:18-25 | the remainder streamed digit by digit is that of the whole expanded number modulo 97 (MOD 97-10 of ISO/IEC 7064) |
| `Iban.ValidateAzIban` | apps/web/lib/iban.ts:11-27 | valid exactly for the format with remainder 1, with the reason for each refusal |
| `Iban.NextCharacterStandsForOneMore` | apps/web/lib/iban.ts:19-24 | the next letter or digit stands for one more, wherever it is |
| `Iban.ZeroAndA` | apps/web/lib/iban.ts:21-21 | 0 stands for 0 and A for 10 |
| `Iban.FourDigits` | apps/web/lib/iban.ts:21-24 | digits stand for the number they write |
| `Iban.ExampleIsValid` | apps/api/src/banking/dto/validate-iban.dto.ts:5-5 | the published example is accepted |
| `Iban.NumberOfConcat` | apps/web/lib/iban.ts:19-25 | the number of a concatenation is the first number shifted plus the second |
| `Iban.ReplacementChangesRemainder` | apps/web/lib/iban.ts:18-25 | replacing a character by another of its class changes the remainder |
| `Iban.SwapChangesRemainder` | apps/web/lib/iban.ts:18-25 | swapping two unequal neighbours of one class changes the remainder |
| `Iban.OneWrongCharacterIsDetected` | apps/web/lib/iban.ts:11-27 | a valid IBAN turns invalid under any digit-for-digit or letter-for-letter change after AZ |
| `Iban.SwappedNeighboursAreDetected` | apps/web/lib/iban.ts:11-27 | and under any swap of unequal neighbours of one class in its tail, or of its check characters |
| `Iban.ExactlyOneCheckPair` | apps/web/lib/iban.ts:17-26 | each tail of 24 characters has exactly one valid pair of check digits from 02 to 98 |
| `CsvExport.EscapedReadsBack` | apps/web/lib/audit-hub-export.ts:27-30 | an escaped cell followed by anything that ends a field reads back as the cell |
| `CsvExport.EscapedOnlyWhenNeeded` | apps/web/lib/audit-hub-export.ts:27-30 | a cell without quotes, commas and line breaks is left as it is, and no other |
| `CsvExport.LinesReadBack` | apps/web/lib/audit-hub-export.ts:31-35 | joined lines read back as the records, whatever the cells hold |
| `CsvExport.FileReadsBackExactlyWithAColumn` | apps/web/lib/audit-hub-export.ts:31-35 | the file reads back as header and cells exactly when there is a column (section 2 of RFC 4180, with a line feed as record break) |
| `CsvExport.RecordsAt` | apps/web/lib/audit-hub-export.ts:33-33 | record i, field j is the text of the cell of row i under key j, and empty without one |
| `FirstUses.DistinctInOrderOfFirstUse` | apps/web/lib/audit-hub-export.ts:21-26 | a set filled in order lists an element before another one only if it was used first |
| `CsvExport.Columns` | apps/web/lib/audit-hub-export.ts:21-26 | the columns are the keys of all rows, each once, in the order of first appearance |
| `CsvExport.AuditHubCsv` | apps/web/lib/audit-hub-export.ts:10-35 | the text handed to the download, for no rows and for some |

## Left out

- Other organizations: all tables are those of one organization, and the filters by `organizationId` and the choice of the chart by organization kind are gone with them.
- Soft deletion: rows marked as deleted are not in the tables.
- Isolation: a `$transaction` body is one atomic step, and each read of a service sees one state of the tables; conflicts inside the database are not modelled.
- The ledger type of a netting: fixed to NAS, because `createNetting` does not hand its own on to the post (apps/api/src/accounting/netting.service.ts:362-370).
- Decimal precision: arithmetic is exact at four places, amounts come in whole units of 0.0001, and only the VAT share is rounded, halves up.
- Row ids: a position stands for a UUID, so among equal due dates the earlier row comes first.
- The order in which rows without `orderBy` come back: rules and bank account rows come in table order; the theorems hold for each such order.
- References, descriptions, names that are decrypted, role checks, audit log lines, and the texts of errors other than the code, month or amount they name.
- `getClosedPeriodKeys`, `getLockedPeriodUntil`, `parseOrgIsVatPayer`: their results are the settings; a lock date is taken at its midnight.
- `getPeriodCloseChecklist` and the other reports of the accounting service: raw SQL counts and sums with no invariant of their own.
- The sign of a single journal line: `validateBalance` does not check it, so nothing is claimed.
- The caller of the bank subaccount service, apart from the row it attaches; the upper-casing of the currency and the choice of the name are done before the model starts.
- Paths as dotted strings, `NaN`, values that are no JSON, and an own key `__proto__` in the audit diff: paths are key lists, and `JSON.stringify` of two leaves is taken to differ exactly when the JSON values do, key order included.
- Arrays, dotted or empty keys and inherited names in translation trees; the search for used keys in source files.
- Parsing of amounts, negative amounts, and the gender of kopecks in Russian: an amount is a natural number of hundredths; raising the first letter is modelled for the letters number words start with.
- Whitespace removal and upper-casing before the IBAN check: the model starts from the normalized text.
- `String` and `JSON.stringify` of CSV cells, the download through a `Blob`, and the XLSX export: cells come with their text.
- User interface, middleware, controllers, seeds, document converters and copy: input and output without a property to prove.
