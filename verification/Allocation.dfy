/** `allocateNettingToInvoicePayments` and the receivable it draws on, as functions of the tables. */
module Allocation {
  import opened Outcomes
  import opened Sums
  import opened Tables
  import opened Greedy

  // ----- the invoices a netting looks at -----

  /** Recognized, not cancelled, of this counterparty. */
  predicate Counts(invoice: Invoice, cp: nat) {
    invoice.counterparty == cp && invoice.recognized && invoice.status != Cancelled
  }

  function OpenIds(invoices: seq<Invoice>, cp: nat): (ids: seq<nat>)
    ensures forall i: nat :: i in ids <==> i < |invoices| && Counts(invoices[i], cp)
    ensures Ids(invoices, ids) && NoRepeats(ids)
  {
    if invoices == [] then []
    else
      var last := |invoices| - 1;
      OpenIds(invoices[..last], cp) + (if Counts(invoices[last], cp) then [last] else [])
  }

  /** Order by due date, then id. */
  predicate Sooner(invoices: seq<Invoice>, i: nat, j: nat)
    requires i < |invoices| && j < |invoices|
  {
    invoices[i].due.Before(invoices[j].due) || (invoices[i].due == invoices[j].due && i < j)
  }

  predicate Ids(invoices: seq<Invoice>, ids: seq<nat>) {
    forall k | 0 <= k < |ids| :: ids[k] < |invoices|
  }

  ghost predicate NoRepeats(ids: seq<nat>) {
    forall j, k | 0 <= j < k < |ids| :: ids[j] != ids[k]
  }

  ghost predicate OldestFirst(invoices: seq<Invoice>, ids: seq<nat>)
    requires Ids(invoices, ids)
  {
    forall j, k | 0 <= j < k < |ids| :: Sooner(invoices, ids[j], ids[k])
  }

  function InsertByDue(invoices: seq<Invoice>, i: nat, ids: seq<nat>): (sorted: seq<nat>)
    requires i < |invoices| && Ids(invoices, ids)
    ensures Ids(invoices, sorted)
    ensures forall x :: x in sorted <==> x == i || x in ids
  {
    if ids == [] || Sooner(invoices, i, ids[0]) then [i] + ids
    else [ids[0]] + InsertByDue(invoices, i, ids[1..])
  }

  function SortByDue(invoices: seq<Invoice>, ids: seq<nat>): (sorted: seq<nat>)
    requires Ids(invoices, ids)
    ensures Ids(invoices, sorted)
    ensures forall x :: x in sorted <==> x in ids
  {
    if ids == [] then []
    else InsertByDue(invoices, ids[0], SortByDue(invoices, ids[1..]))
  }

  /** The invoices of the counterparty in the order the query returns them. */
  function Ordered(invoices: seq<Invoice>, cp: nat): (ids: seq<nat>)
    ensures Ids(invoices, ids)
  {
    SortByDue(invoices, OpenIds(invoices, cp))
  }

  lemma {:induction false} InsertKeepsOrder(invoices: seq<Invoice>, i: nat, ids: seq<nat>)
    requires i < |invoices| && Ids(invoices, ids) && OldestFirst(invoices, ids) && i !in ids
    ensures OldestFirst(invoices, InsertByDue(invoices, i, ids))
  {
    if ids != [] && !Sooner(invoices, i, ids[0]) {
      InsertKeepsOrder(invoices, i, ids[1..]);
      var rest := InsertByDue(invoices, i, ids[1..]);
      forall k | 0 <= k < |rest|
        ensures Sooner(invoices, ids[0], rest[k])
      {
        assert rest[k] in rest;
        assert ids[0] in ids;
      }
    }
  }

  lemma {:induction false} SortIsOldestFirst(invoices: seq<Invoice>, ids: seq<nat>)
    requires Ids(invoices, ids) && NoRepeats(ids)
    ensures OldestFirst(invoices, SortByDue(invoices, ids))
  {
    if ids != [] {
      SortIsOldestFirst(invoices, ids[1..]);
      InsertKeepsOrder(invoices, ids[0], SortByDue(invoices, ids[1..]));
    }
  }

  /** The query: exactly the recognized, not cancelled invoices of the counterparty, each once, by due date and
      then by id. */
  lemma OrderedIsTheQuery(invoices: seq<Invoice>, cp: nat)
    ensures var ids := Ordered(invoices, cp);
            && NoRepeats(ids)
            && (forall i: nat ::
                  i in ids <==>
                    && i < |invoices|
                    && invoices[i].counterparty == cp && invoices[i].recognized && invoices[i].status != Cancelled)
            && (forall j, k | 0 <= j < k < |ids| ::
                  || invoices[ids[j]].due.Before(invoices[ids[k]].due)
                  || (invoices[ids[j]].due == invoices[ids[k]].due && ids[j] < ids[k]))
  {
    SortIsOldestFirst(invoices, OpenIds(invoices, cp));
    var ids := Ordered(invoices, cp);
    forall j, k | 0 <= j < k < |ids|
      ensures ids[j] != ids[k]
      ensures || invoices[ids[j]].due.Before(invoices[ids[k]].due)
              || (invoices[ids[j]].due == invoices[ids[k]].due && ids[j] < ids[k])
    {
      assert Sooner(invoices, ids[j], ids[k]);
    }
  }

  // ----- what is still open -----

  function Remaining(db: Db): nat -> int {
    (i: nat) => if i < |db.invoices| then db.invoices[i].total - PaidSum(db.payments, i) else 0
  }

  function OpenBalance(db: Db): nat -> int {
    (i: nat) => Positive(Remaining(db)(i))
  }

  /** `receivableForCounterparty`. */
  function Receivable(db: Db, cp: nat): int {
    Sum(OpenIds(db.invoices, cp), OpenBalance(db))
  }

  lemma {:induction false} SumOfInserted(invoices: seq<Invoice>, i: nat, ids: seq<nat>, f: nat -> int)
    requires i < |invoices| && Ids(invoices, ids)
    ensures Sum(InsertByDue(invoices, i, ids), f) == f(i) + Sum(ids, f)
  {
    SumOfAppended([], i, f);
    assert [] + [i] == [i];
    if ids == [] || Sooner(invoices, i, ids[0]) {
      SumOfConcat([i], ids, f);
    } else {
      SumOfInserted(invoices, i, ids[1..], f);
      SumOfConcat([ids[0]], ids[1..], f);
      SumOfConcat([ids[0]], InsertByDue(invoices, i, ids[1..]), f);
      assert ids == [ids[0]] + ids[1..];
    }
  }

  lemma {:induction false} SumOfSorted(invoices: seq<Invoice>, ids: seq<nat>, f: nat -> int)
    requires Ids(invoices, ids)
    ensures Sum(SortByDue(invoices, ids), f) == Sum(ids, f)
  {
    if ids != [] {
      SumOfSorted(invoices, ids[1..], f);
      SumOfInserted(invoices, ids[0], SortByDue(invoices, ids[1..]), f);
      assert ids == [ids[0]] + ids[1..];
      SumOfAppended([], ids[0], f);
      assert [] + [ids[0]] == [ids[0]];
      SumOfConcat([ids[0]], ids[1..], f);
    }
  }

  function RemainingOf(db: Db, ids: seq<nat>): (open: seq<int>)
    ensures |open| == |ids|
    ensures forall k | 0 <= k < |ids| :: open[k] == Remaining(db)(ids[k])
  {
    seq(|ids|, k requires 0 <= k < |ids| => Remaining(db)(ids[k]))
  }

  lemma RemainingOfRest(db: Db, ids: seq<nat>)
    requires ids != []
    ensures RemainingOf(db, ids)[0] == Remaining(db)(ids[0])
    ensures RemainingOf(db, ids)[1..] == RemainingOf(db, ids[1..])
  {}

  lemma {:induction false} OpenBalancesAddUp(db: Db, ids: seq<nat>)
    ensures Sum(ids, OpenBalance(db)) == PositiveTotal(RemainingOf(db, ids))
  {
    if ids != [] {
      var n := |ids| - 1;
      OpenBalancesAddUp(db, ids[..n]);
      var open := RemainingOf(db, ids);
      assert open == RemainingOf(db, ids[..n]) + [open[n]];
      PositiveTotalOfConcat(RemainingOf(db, ids[..n]), [open[n]]);
    }
  }

  /** The receivable is what an allocation can use up, whatever the order of the query. */
  lemma ReceivableIsWhatCanBeAllocated(db: Db, cp: nat)
    ensures Receivable(db, cp) == PositiveTotal(RemainingOf(db, Ordered(db.invoices, cp)))
  {
    SumOfSorted(db.invoices, OpenIds(db.invoices, cp), OpenBalance(db));
    OpenBalancesAddUp(db, Ordered(db.invoices, cp));
  }

  /** What the first `n` rows make the counterparty owe. */
  function OwedBy(db: Db, cp: nat, n: nat): int
    requires n <= |db.invoices|
  {
    if n == 0 then 0
    else
      var row := db.invoices[n - 1];
      OwedBy(db, cp, n - 1)
      + if row.counterparty == cp && row.recognized && row.status != Cancelled
        then Positive(row.total - PaidSum(db.payments, n - 1)) else 0
  }

  lemma OpenIdsStep(invoices: seq<Invoice>, cp: nat, i: nat)
    requires i < |invoices|
    ensures OpenIds(invoices[..i + 1], cp)
            == OpenIds(invoices[..i], cp) + if Counts(invoices[i], cp) then [i] else []
  {
    assert invoices[..i + 1][..i] == invoices[..i];
  }

  lemma {:induction false} ReceivableRowByRow(db: Db, cp: nat, n: nat)
    requires n <= |db.invoices|
    ensures Sum(OpenIds(db.invoices[..n], cp), OpenBalance(db)) == OwedBy(db, cp, n)
  {
    hide PaidSum, OpenIds, Sum;
    if n == 0 {
      NothingOpen(db, cp);
    } else {
      var i: nat := n - 1;
      ReceivableRowByRow(db, cp, i);
      OpenIdsStep(db.invoices, cp, i);
      SumOfAppended(OpenIds(db.invoices[..i], cp), i, OpenBalance(db));
      assert OpenIds(db.invoices[..i], cp) + [] == OpenIds(db.invoices[..i], cp);
      assert Remaining(db)(i) == db.invoices[i].total - PaidSum(db.payments, i);
      assert OpenBalance(db)(i) == Positive(Remaining(db)(i));
    }
  }

  lemma NothingOpen(db: Db, cp: nat)
    ensures Sum(OpenIds(db.invoices[..0], cp), OpenBalance(db)) == 0
  {
    assert db.invoices[..0] == [];
  }

  lemma ReceivableIsOwed(db: Db, cp: nat)
    ensures Receivable(db, cp) == OwedBy(db, cp, |db.invoices|)
  {
    ReceivableRowByRow(db, cp, |db.invoices|);
    assert db.invoices[..|db.invoices|] == db.invoices;
  }

  lemma {:induction false} OwedAfterReplacing(db: Db, cp: nat, i: nat, row: Invoice, n: nat)
    requires i < |db.invoices| && n <= |db.invoices|
    ensures var was, paid := db.invoices[i], PaidSum(db.payments, i);
            OwedBy(db.(invoices := db.invoices[i := row]), cp, n)
            == OwedBy(db, cp, n)
               + if n <= i then 0
                 else
                   (if row.counterparty == cp && row.recognized && row.status != Cancelled
                    then Positive(row.total - paid) else 0)
                   - (if was.counterparty == cp && was.recognized && was.status != Cancelled
                      then Positive(was.total - paid) else 0)
  {
    hide PaidSum, Positive;
    if n > 0 {
      OwedAfterReplacing(db, cp, i, row, n - 1);
    }
  }

  /** When a row changes, the receivable changes by what that row makes the counterparty owe: its open balance
      if it is recognized, not cancelled and theirs, and else nothing. */
  lemma ReceivableAfterReplacing(db: Db, cp: nat, i: nat, row: Invoice)
    requires i < |db.invoices|
    ensures var was, paid := db.invoices[i], PaidSum(db.payments, i);
            Receivable(db.(invoices := db.invoices[i := row]), cp)
            == Receivable(db, cp)
               + (if row.counterparty == cp && row.recognized && row.status != Cancelled
                  then Positive(row.total - paid) else 0)
               - (if was.counterparty == cp && was.recognized && was.status != Cancelled
                  then Positive(was.total - paid) else 0)
  {
    hide PaidSum, Positive, OwedBy, Receivable;
    OwedAfterReplacing(db, cp, i, row, |db.invoices|);
    ReceivableIsOwed(db, cp);
    ReceivableIsOwed(db.(invoices := db.invoices[i := row]), cp);
  }

  lemma {:induction false} OwedWithMore(db: Db, cp: nat, row: Invoice, n: nat)
    requires n <= |db.invoices|
    ensures OwedBy(db.(invoices := db.invoices + [row]), cp, n) == OwedBy(db, cp, n)
  {
    if n > 0 {
      OwedWithMore(db, cp, row, n - 1);
    }
  }

  /** A new unpaid row adds its total, if it is recognized, not cancelled and theirs. */
  lemma ReceivableAfterAppending(db: Db, cp: nat, row: Invoice)
    requires PaidSum(db.payments, |db.invoices|) == 0
    ensures Receivable(db.(invoices := db.invoices + [row]), cp)
            == Receivable(db, cp)
               + if row.counterparty == cp && row.recognized && row.status != Cancelled && row.total > 0
                 then row.total else 0
  {
    hide PaidSum, Receivable;
    OwedWithMore(db, cp, row, |db.invoices|);
    ReceivableIsOwed(db, cp);
    ReceivableIsOwed(db.(invoices := db.invoices + [row]), cp);
  }

  // ----- invoice state -----

  /** `derivePaymentState`. */
  function Derive(total: int, paid: int, current: InvoiceStatus): (InvoiceStatus, bool) {
    if current == LockedBySignature then (LockedBySignature, paid >= total)
    else if paid >= total then (Paid, true)
    else if paid > 0 then (PartiallyPaid, false)
    else if current == Draft then (Draft, false)
    else (Sent, false)
  }

  function Settled(invoice: Invoice, paid: int): Invoice {
    var (status, received) := Derive(invoice.total, paid, invoice.status);
    invoice.(status := status, paymentReceived := received)
  }

  lemma SettledFacts(invoice: Invoice, paid: int)
    requires invoice.status != Cancelled
    ensures var after := Settled(invoice, paid);
            && after.paymentReceived == (paid >= invoice.total)
            && after.status != Cancelled
            && (after.status == LockedBySignature <==> invoice.status == LockedBySignature)
            && (invoice.status != LockedBySignature ==>
                  (after.status == Paid <==> paid >= invoice.total)
                  && (after.status == PartiallyPaid <==> 0 < paid < invoice.total)
                  && (after.status == Draft <==> paid <= 0 && paid < invoice.total && invoice.status == Draft))
  {}

  /** A state derived on the way does not show in the end, signed invoices included. */
  lemma SettledTwice(invoice: Invoice, paid: int, more: int)
    requires paid <= more
    ensures Settled(Settled(invoice, paid), more) == Settled(invoice, more)
  {}

  // ----- the run -----

  function Pay(db: Db, i: nat, amount: int, t: nat, day: Day): Db
    requires i < |db.invoices|
  {
    var payments := db.payments + [Payment(i, amount, Some(t), day)];
    db.(payments := payments,
        invoices := db.invoices[i := Settled(db.invoices[i], PaidSum(payments, i))])
  }

  /** The loop over the ordered invoices: the tables it leaves and what it could not place. */
  function Run(db: Db, ids: seq<nat>, left: int, t: nat, day: Day): (Db, int)
    requires Ids(db.invoices, ids)
    decreases |ids|
  {
    if ids == [] || left <= 0 then (db, left)
    else
      var rem := Remaining(db)(ids[0]);
      if rem <= 0 then Run(db, ids[1..], left, t, day)
      else
        var share := Min(rem, left);
        Run(Pay(db, ids[0], share, t, day), ids[1..], left - share, t, day)
  }

  /** The whole allocation; up to 0.0001 may stay unplaced. */
  function Allocate(db: Db, cp: nat, t: nat, amount: int, day: Day): Result<Db, Error> {
    if amount <= 0 then Ok(db)
    else
      var (after, left) := Run(db, Ordered(db.invoices, cp), amount, t, day);
      if left > 1 then Err(ResidueLeft(left)) else Ok(after)
  }

  /** What invoice `i` becomes when `share` is placed to it. */
  function WithShare(db: Db, i: nat, share: int): Invoice
    requires i < |db.invoices|
  {
    if share == 0 then db.invoices[i] else Settled(db.invoices[i], PaidSum(db.payments, i) + share)
  }

  function LinkedTo(t: nat): Payment -> int {
    (p: Payment) => if p.transaction == Some(t) then p.amount else 0
  }

  /** Only payments and invoice states differ, and every added payment is a positive one of transaction `t`. */
  ghost predicate OnlyAllocates(db: Db, after: Db, t: nat) {
    && after == db.(payments := after.payments, invoices := after.invoices)
    && |after.invoices| == |db.invoices|
    && db.payments <= after.payments
    && forall p | p in after.payments[|db.payments|..] :: p.transaction == Some(t) && p.amount > 0
  }

  lemma PayEffect(db: Db, i: nat, amount: int, t: nat, day: Day)
    requires i < |db.invoices|
    ensures var after := Pay(db, i, amount, t, day);
            && PaidSum(after.payments, i) == PaidSum(db.payments, i) + amount
            && (forall j: nat | j != i :: PaidSum(after.payments, j) == PaidSum(db.payments, j))
            && Sum(after.payments, LinkedTo(t)) == Sum(db.payments, LinkedTo(t)) + amount
            && after.payments[|db.payments|..] == [Payment(i, amount, Some(t), day)]
  {}

  /** Each listed invoice has been paid its share more, every other one what it had. */
  ghost predicate SumsShared(db: Db, after: Db, ids: seq<nat>, shares: seq<int>)
    requires |shares| == |ids|
  {
    && (forall k | 0 <= k < |ids| :: PaidSum(after.payments, ids[k]) == PaidSum(db.payments, ids[k]) + shares[k])
    && (forall i: nat | i !in ids :: PaidSum(after.payments, i) == PaidSum(db.payments, i))
  }

  /** Each listed invoice has the state its share brings, every other one the state it had. */
  ghost predicate StatesShared(db: Db, after: Db, ids: seq<nat>, shares: seq<int>)
    requires Ids(db.invoices, ids) && |shares| == |ids| && |after.invoices| == |db.invoices|
  {
    && (forall k | 0 <= k < |ids| :: after.invoices[ids[k]] == WithShare(db, ids[k], shares[k]))
    && (forall i: nat | i < |db.invoices| && i !in ids :: after.invoices[i] == db.invoices[i])
  }

  /** `after` is `db` with each listed invoice given its share by transaction `t`, and nothing else touched. */
  ghost predicate Shared(db: Db, after: Db, ids: seq<nat>, shares: seq<int>, t: nat)
    requires Ids(db.invoices, ids) && |shares| == |ids|
  {
    && OnlyAllocates(db, after, t)
    && Sum(after.payments, LinkedTo(t)) == Sum(db.payments, LinkedTo(t)) + Total(shares)
    && SumsShared(db, after, ids, shares)
    && StatesShared(db, after, ids, shares)
  }

  lemma OnlyAllocatesTwice(db: Db, mid: Db, after: Db, t: nat)
    requires OnlyAllocates(db, mid, t) && OnlyAllocates(mid, after, t)
    ensures OnlyAllocates(db, after, t)
  {}

  lemma SumsSharedHeadAndTail(db: Db, mid: Db, after: Db, i: nat, share: int, ids: seq<nat>, shares: seq<int>)
    requires i !in ids && |shares| == |ids|
    requires SumsShared(db, mid, [i], [share]) && SumsShared(mid, after, ids, shares)
    ensures SumsShared(db, after, [i] + ids, [share] + shares)
  {}

  lemma StatesSharedHeadAndTail(db: Db, mid: Db, after: Db, i: nat, share: int, ids: seq<nat>, shares: seq<int>)
    requires Ids(db.invoices, [i]) && Ids(db.invoices, ids) && i !in ids && |shares| == |ids|
    requires |after.invoices| == |mid.invoices| == |db.invoices|
    requires SumsShared(db, mid, [i], [share]) && StatesShared(db, mid, [i], [share])
    requires StatesShared(mid, after, ids, shares)
    ensures Ids(db.invoices, [i] + ids) && StatesShared(db, after, [i] + ids, [share] + shares)
  {
    assert [i][0] == i;
    var all, both := [i] + ids, [share] + shares;
    forall k | 0 <= k < |all|
      ensures after.invoices[all[k]] == WithShare(db, all[k], both[k])
    {
      if k > 0 {
        assert all[k] == ids[k - 1] && both[k] == shares[k - 1];
        assert all[k] !in [i];
      }
    }
    forall j: nat | j < |db.invoices| && j !in all
      ensures after.invoices[j] == db.invoices[j]
    {
      assert j !in [i] && j !in ids;
    }
  }

  lemma SharedHeadAndTail(
    db: Db, mid: Db, after: Db, i: nat, share: int, ids: seq<nat>, shares: seq<int>, t: nat)
    requires Ids(db.invoices, [i]) && Ids(db.invoices, ids) && i !in ids && |shares| == |ids|
    requires Shared(db, mid, [i], [share], t)
    requires Shared(mid, after, ids, shares, t)
    ensures Ids(db.invoices, [i] + ids) && Shared(db, after, [i] + ids, [share] + shares, t)
  {
    OnlyAllocatesTwice(db, mid, after, t);
    SumsSharedHeadAndTail(db, mid, after, i, share, ids, shares);
    StatesSharedHeadAndTail(db, mid, after, i, share, ids, shares);
    TotalOfHeadAndTail(share, shares);
  }

  lemma {:induction false} NothingIsShared(db: Db, ids: seq<nat>, shares: seq<int>, t: nat)
    requires Ids(db.invoices, ids) && |shares| == |ids|
    requires Total(shares) == 0 && forall k | 0 <= k < |shares| :: shares[k] == 0
    ensures Shared(db, db, ids, shares, t)
  {}

  lemma SharedFromHead(db: Db, mid: Db, after: Db, ids: seq<nat>, shares: seq<int>, t: nat)
    requires Ids(db.invoices, ids) && NoRepeats(ids) && |shares| == |ids| > 0
    requires Shared(db, mid, [ids[0]], [shares[0]], t)
    requires Shared(mid, after, ids[1..], shares[1..], t)
    ensures Shared(db, after, ids, shares, t)
  {
    assert [ids[0]] + ids[1..] == ids && [shares[0]] + shares[1..] == shares;
    assert forall k | 0 <= k < |ids[1..]| :: ids[1..][k] == ids[k + 1];
    SharedHeadAndTail(db, mid, after, ids[0], shares[0], ids[1..], shares[1..], t);
  }

  /** One turn of the loop. */
  function Turn(db: Db, i: nat, share: int, t: nat, day: Day): (after: Db)
    requires i < |db.invoices|
    ensures |after.invoices| == |db.invoices|
  {
    if share == 0 then db else Pay(db, i, share, t, day)
  }

  lemma TurnShares(db: Db, i: nat, share: int, t: nat, day: Day)
    requires i < |db.invoices| && share >= 0
    ensures Shared(db, Turn(db, i, share, t, day), [i], [share], t)
  {
    if share == 0 {
      NothingIsShared(db, [i], [share], t);
    } else {
      PayEffect(db, i, share, t, day);
    }
  }

  lemma RunTurns(db: Db, ids: seq<nat>, left: int, t: nat, day: Day)
    requires Ids(db.invoices, ids) && ids != [] && left > 0
    ensures var share := Share(Remaining(db)(ids[0]), left);
            Run(db, ids, left, t, day) == Run(Turn(db, ids[0], share, t, day), ids[1..], left - share, t, day)
  {
    hide Pay, PaidSum;
  }

  lemma RunEnds(db: Db, ids: seq<nat>, left: int, t: nat, day: Day)
    requires Ids(db.invoices, ids) && (ids == [] || left <= 0)
    ensures Run(db, ids, left, t, day) == (db, left)
  {}

  lemma RemainingAfter(db: Db, mid: Db, i: nat, share: int, ids: seq<nat>, t: nat)
    requires i < |db.invoices| && Ids(db.invoices, ids) && i !in ids && Shared(db, mid, [i], [share], t)
    ensures RemainingOf(mid, ids) == RemainingOf(db, ids)
  {}

  /** One turn in front of a run that spreads is a run that spreads. */
  lemma TurnThenSpread(db: Db, ids: seq<nat>, left: int, t: nat, day: Day, mid: Db, after: Db)
    requires ids != [] && left > 0 && Ids(db.invoices, ids) && NoRepeats(ids)
    requires mid == Turn(db, ids[0], Share(Remaining(db)(ids[0]), left), t, day)
    requires Ids(mid.invoices, ids[1..])
    requires Shared(mid, after, ids[1..],
                    Spread(RemainingOf(mid, ids[1..]), left - Share(Remaining(db)(ids[0]), left)), t)
    ensures var shares := Spread(RemainingOf(db, ids), left);
            && Shared(db, after, ids, shares, t)
            && Total(shares) == shares[0] + Total(Spread(RemainingOf(mid, ids[1..]), left - shares[0]))
            && shares[0] == Share(Remaining(db)(ids[0]), left)
  {
    hide Spread, Turn, Shared, Total, Remaining, RemainingOf;
    var open := RemainingOf(db, ids);
    var shares := Spread(open, left);
    var i, share, rest := ids[0], shares[0], ids[1..];
    SpreadStep(open, left);
    RemainingOfRest(db, ids);
    TurnShares(db, i, share, t, day);
    assert forall k | 0 <= k < |rest| :: rest[k] == ids[k + 1];
    RemainingAfter(db, mid, i, share, rest, t);
    TotalOfHeadAndTail(share, shares[1..]);
    assert shares == [share] + shares[1..];
    SharedFromHead(db, mid, after, ids, shares, t);
  }

  /** The run is the greedy spread: it gives invoice after invoice its share and touches nothing else. */
  lemma {:induction false} RunSpreads(db: Db, ids: seq<nat>, left: int, t: nat, day: Day)
    requires Ids(db.invoices, ids) && NoRepeats(ids)
    ensures var (after, rest) := Run(db, ids, left, t, day);
            var shares := Spread(RemainingOf(db, ids), left);
            Shared(db, after, ids, shares, t) && rest == left - Total(shares)
    decreases |ids|
  {
    hide Run, Spread, Turn, Shared, Total, Remaining, RemainingOf;
    if ids == [] || left <= 0 {
      RunEnds(db, ids, left, t, day);
      NothingSpreads(db, ids, left, t);
    } else {
      var share, rest := Share(Remaining(db)(ids[0]), left), ids[1..];
      var mid := Turn(db, ids[0], share, t, day);
      RunTurns(db, ids, left, t, day);
      assert forall k | 0 <= k < |rest| :: rest[k] == ids[k + 1];
      RunSpreads(mid, rest, left - share, t, day);
      TurnThenSpread(db, ids, left, t, day, mid, Run(mid, rest, left - share, t, day).0);
    }
  }

  lemma NothingSpreads(db: Db, ids: seq<nat>, left: int, t: nat)
    requires Ids(db.invoices, ids) && (ids == [] || left <= 0)
    ensures var shares := Spread(RemainingOf(db, ids), left);
            Shared(db, db, ids, shares, t) && Total(shares) == 0
  {
    hide Shared;
    var open := RemainingOf(db, ids);
    if left <= 0 {
      NothingToSpread(open, left);
    }
    NothingIsShared(db, ids, Spread(open, left), t);
  }

  // ----- what an allocation does -----

  /** Invoices may change their payment state; nothing the query looks at changes. */
  ghost predicate SameButState(a: seq<Invoice>, b: seq<Invoice>) {
    && |a| == |b|
    && forall i | 0 <= i < |a| ::
         && b[i] == a[i].(status := b[i].status, paymentReceived := b[i].paymentReceived)
         && (b[i].status == Cancelled <==> a[i].status == Cancelled)
  }

  lemma {:induction false} SameOpenIds(a: seq<Invoice>, b: seq<Invoice>, cp: nat)
    requires SameButState(a, b)
    ensures OpenIds(a, cp) == OpenIds(b, cp)
  {
    if a != [] {
      SameOpenIds(a[..|a| - 1], b[..|b| - 1], cp);
    }
  }

  lemma {:induction false} SameInsert(a: seq<Invoice>, b: seq<Invoice>, i: nat, ids: seq<nat>)
    requires SameButState(a, b) && i < |a| && Ids(a, ids)
    ensures InsertByDue(a, i, ids) == InsertByDue(b, i, ids)
  {
    if ids != [] {
      SameInsert(a, b, i, ids[1..]);
    }
  }

  lemma {:induction false} SameSort(a: seq<Invoice>, b: seq<Invoice>, ids: seq<nat>)
    requires SameButState(a, b) && Ids(a, ids)
    ensures SortByDue(a, ids) == SortByDue(b, ids)
  {
    if ids != [] {
      SameSort(a, b, ids[1..]);
      SameInsert(a, b, ids[0], SortByDue(a, ids[1..]));
    }
  }

  lemma SameOrder(a: seq<Invoice>, b: seq<Invoice>, cp: nat)
    requires SameButState(a, b)
    ensures Ordered(a, cp) == Ordered(b, cp)
  {
    SameOpenIds(a, b, cp);
    SameSort(a, b, OpenIds(a, cp));
  }

  lemma RunIsSpread(db: Db, cp: nat, t: nat, amount: int, day: Day)
    ensures var ids := Ordered(db.invoices, cp);
            var shares := Spread(RemainingOf(db, ids), amount);
            var (after, left) := Run(db, ids, amount, t, day);
            Shared(db, after, ids, shares, t) && left == amount - Total(shares)
  {
    OrderedIsTheQuery(db.invoices, cp);
    RunSpreads(db, Ordered(db.invoices, cp), amount, t, day);
  }

  /** What the loop does to the `k`-th invoice of the query. */
  lemma RunAt(db: Db, cp: nat, t: nat, amount: int, day: Day, k: nat)
    requires k < |Ordered(db.invoices, cp)|
    ensures var ids := Ordered(db.invoices, cp);
            var share := Spread(RemainingOf(db, ids), amount)[k];
            var after := Run(db, ids, amount, t, day).0;
            && |after.invoices| == |db.invoices|
            && 0 <= share <= OpenBalance(db)(ids[k])
            && Counts(db.invoices[ids[k]], cp)
            && PaidSum(after.payments, ids[k]) == PaidSum(db.payments, ids[k]) + share
            && after.invoices[ids[k]] == WithShare(db, ids[k], share)
  {
    hide Run;
    var ids := Ordered(db.invoices, cp);
    RunIsSpread(db, cp, t, amount, day);
    OrderedIsTheQuery(db.invoices, cp);
    ShareBounds(RemainingOf(db, ids), amount, k);
    assert ids[k] in ids;
  }

  lemma RunElsewhere(db: Db, cp: nat, t: nat, amount: int, day: Day, i: nat)
    requires i < |db.invoices| ==> !Counts(db.invoices[i], cp)
    ensures var after := Run(db, Ordered(db.invoices, cp), amount, t, day).0;
            && |after.invoices| == |db.invoices|
            && PaidSum(after.payments, i) == PaidSum(db.payments, i)
            && (i < |db.invoices| ==> after.invoices[i] == db.invoices[i])
  {
    hide Run;
    RunIsSpread(db, cp, t, amount, day);
    OrderedIsTheQuery(db.invoices, cp);
    assert i !in Ordered(db.invoices, cp);
  }

  lemma PositionInQuery(db: Db, cp: nat, i: nat) returns (k: nat)
    requires i < |db.invoices| && Counts(db.invoices[i], cp)
    ensures k < |Ordered(db.invoices, cp)| && Ordered(db.invoices, cp)[k] == i
  {
    OrderedIsTheQuery(db.invoices, cp);
    assert i in Ordered(db.invoices, cp);
    k :| k < |Ordered(db.invoices, cp)| && Ordered(db.invoices, cp)[k] == i;
  }

  lemma RunChangesOnlyTheState(db: Db, cp: nat, t: nat, amount: int, day: Day, i: nat)
    requires i < |db.invoices|
    ensures var after := Run(db, Ordered(db.invoices, cp), amount, t, day).0;
            && |after.invoices| == |db.invoices|
            && after.invoices[i]
               == db.invoices[i].(status := after.invoices[i].status,
                                  paymentReceived := after.invoices[i].paymentReceived)
            && (after.invoices[i].status == Cancelled <==> db.invoices[i].status == Cancelled)
  {
    hide Run, Ordered, PaidSum, Spread, RemainingOf;
    if Counts(db.invoices[i], cp) {
      var k := PositionInQuery(db, cp, i);
      RunAt(db, cp, t, amount, day, k);
    } else {
      RunElsewhere(db, cp, t, amount, day, i);
    }
  }

  lemma RunChangesOnlyStates(db: Db, cp: nat, t: nat, amount: int, day: Day)
    ensures SameButState(db.invoices, Run(db, Ordered(db.invoices, cp), amount, t, day).0.invoices)
  {
    hide Run, Ordered;
    RunElsewhere(db, cp, t, amount, day, |db.invoices|);
    forall i: nat | i < |db.invoices| {
      RunChangesOnlyTheState(db, cp, t, amount, day, i);
    }
  }

  lemma RunTotals(db: Db, cp: nat, t: nat, amount: int, day: Day)
    ensures var (after, left) := Run(db, Ordered(db.invoices, cp), amount, t, day);
            var placed := Min(Positive(amount), Receivable(db, cp));
            && OnlyAllocates(db, after, t)
            && left == amount - placed
            && Sum(after.payments, LinkedTo(t)) == Sum(db.payments, LinkedTo(t)) + placed
  {
    hide Run, Ordered, Receivable;
    RunIsSpread(db, cp, t, amount, day);
    SpreadTotal(RemainingOf(db, Ordered(db.invoices, cp)), amount);
    ReceivableIsWhatCanBeAllocated(db, cp);
  }

  lemma RunClosesBalances(db: Db, cp: nat, t: nat, amount: int, day: Day)
    ensures var ids := Ordered(db.invoices, cp);
            var open := RemainingOf(db, ids);
            var after := Run(db, ids, amount, t, day).0;
            && Ordered(after.invoices, cp) == ids
            && RemainingOf(after, ids) == Less(open, Spread(open, amount))
  {
    hide Run, Ordered;
    var ids := Ordered(db.invoices, cp);
    var open := RemainingOf(db, ids);
    var after := Run(db, ids, amount, t, day).0;
    RunChangesOnlyStates(db, cp, t, amount, day);
    SameOrder(db.invoices, after.invoices, cp);
    forall k | 0 <= k < |ids|
      ensures RemainingOf(after, ids)[k] == Less(open, Spread(open, amount))[k]
    {
      LessAt(open, Spread(open, amount), k);
      RunAt(db, cp, t, amount, day, k);
    }
  }

  /** It succeeds exactly when at most 0.0001 of the amount finds no open invoice; then it allocates
      all that can be placed, and the receivable falls by just that. */
  lemma AllocateUsesUpTheReceivable(db: Db, cp: nat, t: nat, amount: int, day: Day)
    requires amount > 0
    ensures var r := Allocate(db, cp, t, amount, day);
            var placed := Min(amount, Receivable(db, cp));
            && (r.Ok? <==> amount <= Receivable(db, cp) + 1)
            && (r.Ok? ==>
                  && OnlyAllocates(db, r.value, t)
                  && SameButState(db.invoices, r.value.invoices)
                  && Sum(r.value.payments, LinkedTo(t)) == Sum(db.payments, LinkedTo(t)) + placed
                  && Receivable(r.value, cp) == Receivable(db, cp) - placed)
            && (r.Err? ==> r.error == ResidueLeft(amount - Receivable(db, cp)))
  {
    hide Run, Ordered, Receivable;
    var ids := Ordered(db.invoices, cp);
    var open := RemainingOf(db, ids);
    RunTotals(db, cp, t, amount, day);
    RunChangesOnlyStates(db, cp, t, amount, day);
    RunClosesBalances(db, cp, t, amount, day);
    ReceivableIsWhatCanBeAllocated(db, cp);
    ReceivableIsWhatCanBeAllocated(Run(db, ids, amount, t, day).0, cp);
    SpreadClosesWhatItShares(open, amount);
    SpreadTotal(open, amount);
  }

  /** No invoice is paid past its total, and its state is the one its payments call for. */
  lemma AllocateNeverOverpays(db: Db, cp: nat, t: nat, amount: int, day: Day, i: nat)
    requires amount > 0 && Allocate(db, cp, t, amount, day).Ok? && i < |db.invoices|
    ensures var after := Allocate(db, cp, t, amount, day).value;
            var paid := PaidSum(after.payments, i);
            && |after.invoices| == |db.invoices|
            && paid >= PaidSum(db.payments, i)
            && (paid > PaidSum(db.payments, i) ==>
                  && Counts(db.invoices[i], cp)
                  && paid <= db.invoices[i].total
                  && after.invoices[i] == Settled(db.invoices[i], paid)
                  && after.invoices[i].paymentReceived == (paid == db.invoices[i].total))
            && (paid == PaidSum(db.payments, i) ==> after.invoices[i] == db.invoices[i])
  {
    hide Run, Ordered;
    if Counts(db.invoices[i], cp) {
      var k := PositionInQuery(db, cp, i);
      RunAt(db, cp, t, amount, day, k);
      SettledFacts(db.invoices[i], PaidSum(Allocate(db, cp, t, amount, day).value.payments, i));
    } else {
      RunElsewhere(db, cp, t, amount, day, i);
    }
  }

  lemma QueryOrder(db: Db, cp: nat, x: nat, y: nat)
    requires x < |Ordered(db.invoices, cp)| && y < |Ordered(db.invoices, cp)|
    requires Sooner(db.invoices, Ordered(db.invoices, cp)[x], Ordered(db.invoices, cp)[y])
    ensures x < y
  {
    OrderedIsTheQuery(db.invoices, cp);
  }

  /** Rows that are not recognized, cancelled or somebody else's are neither paid nor changed. */
  lemma AllocateLeavesOtherRowsAlone(db: Db, cp: nat, t: nat, amount: int, day: Day, i: nat)
    requires amount > 0 && Allocate(db, cp, t, amount, day).Ok? && i < |db.invoices|
    requires db.invoices[i].counterparty != cp || !db.invoices[i].recognized || db.invoices[i].status == Cancelled
    ensures var after := Allocate(db, cp, t, amount, day).value;
            && PaidSum(after.payments, i) == PaidSum(db.payments, i)
            && |after.invoices| == |db.invoices| && after.invoices[i] == db.invoices[i]
  {
    hide Run, Ordered, PaidSum;
    RunElsewhere(db, cp, t, amount, day, i);
  }

  lemma {:induction false} RunPaysOnTheDay(db: Db, ids: seq<nat>, left: int, t: nat, day: Day)
    requires Ids(db.invoices, ids)
    ensures var after := Run(db, ids, left, t, day).0;
            && db.payments <= after.payments
            && forall k | |db.payments| <= k < |after.payments| ::
                 && after.payments[k].day == day && after.payments[k].transaction == Some(t)
                 && after.payments[k].amount > 0 && after.payments[k].invoice in ids
    decreases |ids|
  {
    hide PaidSum, Settled, Remaining;
    if ids != [] && left > 0 {
      var rem := Remaining(db)(ids[0]);
      if rem <= 0 {
        RunPaysOnTheDay(db, ids[1..], left, t, day);
      } else {
        RunPaysOnTheDay(Pay(db, ids[0], Min(rem, left), t, day), ids[1..], left - Min(rem, left), t, day);
      }
    }
  }

  /** Every payment made is a positive one, on an open invoice of the counterparty, linked to the netting's
      transaction and dated like it. */
  lemma AllocatedPayments(db: Db, cp: nat, t: nat, amount: int, day: Day, k: nat)
    requires Allocate(db, cp, t, amount, day).Ok?
    requires |db.payments| <= k < |Allocate(db, cp, t, amount, day).value.payments|
    ensures var p := Allocate(db, cp, t, amount, day).value.payments[k];
            && p.day == day && p.transaction == Some(t) && p.amount > 0 && p.invoice < |db.invoices|
            && var row := db.invoices[p.invoice];
               row.counterparty == cp && row.recognized && row.status != Cancelled
  {
    hide Run, Ordered;
    RunPaysOnTheDay(db, Ordered(db.invoices, cp), amount, t, day);
    OrderedIsTheQuery(db.invoices, cp);
  }

  /** Oldest first: while an invoice is left partly open, no later one gets anything. */
  lemma AllocateIsOldestFirst(db: Db, cp: nat, t: nat, amount: int, day: Day, i: nat, j: nat)
    requires amount > 0 && Allocate(db, cp, t, amount, day).Ok?
    requires i < |db.invoices| && j < |db.invoices|
    requires db.invoices[i].due.Before(db.invoices[j].due) || (db.invoices[i].due == db.invoices[j].due && i < j)
    requires db.invoices[i].counterparty == cp && db.invoices[i].recognized && db.invoices[i].status != Cancelled
    requires PaidSum(Allocate(db, cp, t, amount, day).value.payments, i) < db.invoices[i].total
    ensures PaidSum(Allocate(db, cp, t, amount, day).value.payments, j) == PaidSum(db.payments, j)
  {
    hide Run, Ordered;
    if Counts(db.invoices[j], cp) {
      var x := PositionInQuery(db, cp, i);
      var y := PositionInQuery(db, cp, j);
      QueryOrder(db, cp, x, y);
      RunAt(db, cp, t, amount, day, x);
      RunAt(db, cp, t, amount, day, y);
      NothingPastAnOpenBalance(RemainingOf(db, Ordered(db.invoices, cp)), amount, x, y);
    } else {
      RunElsewhere(db, cp, t, amount, day, j);
    }
  }

  /** Other counterparties owe what they owed. */
  lemma AllocateSparesOthers(db: Db, cp: nat, t: nat, amount: int, day: Day, other: nat)
    requires amount > 0 && Allocate(db, cp, t, amount, day).Ok? && other != cp
    ensures Receivable(Allocate(db, cp, t, amount, day).value, other) == Receivable(db, other)
  {
    hide Run, Ordered;
    var after := Run(db, Ordered(db.invoices, cp), amount, t, day).0;
    assert Allocate(db, cp, t, amount, day).value == after;
    RunChangesOnlyStates(db, cp, t, amount, day);
    SameOpenIds(db.invoices, after.invoices, other);
    var ids := OpenIds(db.invoices, other);
    forall i | i in ids
      ensures OpenBalance(after)(i) == OpenBalance(db)(i)
    {
      assert Counts(db.invoices[i], other);
      RunElsewhere(db, cp, t, amount, day, i);
      assert Remaining(after)(i) == Remaining(db)(i) by {
        RunChangesOnlyStates(db, cp, t, amount, day);
      }
    }
    SumOfEqualAmounts(ids, OpenBalance(after), OpenBalance(db));
  }

  // ----- split invariance -----

  /** At one invoice of the query, two allocations in a row and one of the sum end alike. */
  lemma SplitAt(db: Db, cp: nat, t: nat, u: nat, v: nat, a: int, b: int, day: Day, k: nat)
    requires a >= 0 && b >= 0 && k < |Ordered(db.invoices, cp)|
    ensures var ids := Ordered(db.invoices, cp);
            var mid := Run(db, ids, a, t, day).0;
            && Ordered(mid.invoices, cp) == ids
            && var after := Run(mid, ids, b, u, day).0;
               var whole := Run(db, ids, a + b, v, day).0;
               && |after.invoices| == |whole.invoices| == |db.invoices|
               && PaidSum(after.payments, ids[k]) == PaidSum(whole.payments, ids[k])
               && after.invoices[ids[k]] == whole.invoices[ids[k]]
  {
    hide Run, Ordered, Spread, RemainingOf, PaidSum, Settled, Counts;
    var ids := Ordered(db.invoices, cp);
    var open := RemainingOf(db, ids);
    var mid := Run(db, ids, a, t, day).0;
    RunClosesBalances(db, cp, t, a, day);
    RunAt(db, cp, t, a, day, k);
    RunAt(mid, cp, u, b, day, k);
    RunAt(db, cp, v, a + b, day, k);
    SpreadInTwo(open, a, b, k);
    var paid := PaidSum(db.payments, ids[k]) + Spread(open, a)[k];
    SettledTwice(db.invoices[ids[k]], paid, paid + Spread(RemainingOf(mid, ids), b)[k]);
  }

  lemma SplitElsewhere(db: Db, cp: nat, t: nat, u: nat, v: nat, a: int, b: int, day: Day, i: nat)
    requires i < |db.invoices| ==> !Counts(db.invoices[i], cp)
    ensures var ids := Ordered(db.invoices, cp);
            var mid := Run(db, ids, a, t, day).0;
            && Ordered(mid.invoices, cp) == ids
            && var after := Run(mid, ids, b, u, day).0;
               var whole := Run(db, ids, a + b, v, day).0;
               && |after.invoices| == |whole.invoices| == |db.invoices|
               && PaidSum(after.payments, i) == PaidSum(whole.payments, i)
               && (i < |db.invoices| ==> after.invoices[i] == whole.invoices[i])
  {
    hide Run, Ordered;
    RunClosesBalances(db, cp, t, a, day);
    RunElsewhere(db, cp, t, a, day, i);
    RunElsewhere(Run(db, Ordered(db.invoices, cp), a, t, day).0, cp, u, b, day, i);
    RunElsewhere(db, cp, v, a + b, day, i);
  }

  /** Allocating `a` and then `b` leaves every invoice as allocating `a + b` at once does:
      the same paid sum, the same status, the same flag. */
  lemma AllocateInTwo(db: Db, cp: nat, t: nat, u: nat, v: nat, a: int, b: int, day: Day)
    requires a > 0 && b > 0 && a + b <= Receivable(db, cp) + 1
    ensures var first := Allocate(db, cp, t, a, day);
            var whole := Allocate(db, cp, v, a + b, day);
            && first.Ok? && whole.Ok?
            && var second := Allocate(first.value, cp, u, b, day);
               && second.Ok?
               && second.value.invoices == whole.value.invoices
               && forall i: nat :: PaidSum(second.value.payments, i) == PaidSum(whole.value.payments, i)
  {
    hide Run, Ordered, Receivable;
    AllocateUsesUpTheReceivable(db, cp, t, a, day);
    AllocateUsesUpTheReceivable(db, cp, v, a + b, day);
    var mid := Allocate(db, cp, t, a, day).value;
    var whole := Allocate(db, cp, v, a + b, day).value;
    AllocateUsesUpTheReceivable(mid, cp, u, b, day);
    var after := Allocate(mid, cp, u, b, day).value;
    forall i: nat
      ensures PaidSum(after.payments, i) == PaidSum(whole.payments, i)
      ensures i < |db.invoices| ==>
                |after.invoices| == |whole.invoices| == |db.invoices| && after.invoices[i] == whole.invoices[i]
    {
      if i < |db.invoices| && Counts(db.invoices[i], cp) {
        var k := PositionInQuery(db, cp, i);
        SplitAt(db, cp, t, u, v, a, b, day, k);
      } else {
        SplitElsewhere(db, cp, t, u, v, a, b, day, i);
      }
    }
  }
}
