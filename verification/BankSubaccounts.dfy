/** `nextSubaccountCode` and `ensureSubaccountForBranch`: NAS accounts `221.<bank>.<sequence>`. */
module BankSubaccounts {
  import opened Outcomes
  import opened Tables
  import opened DecimalDigits

  const SEQUENCE_MAX := 99

  predicate IsBankCode(code: string) { |code| == 2 && IsDigit(code[0]) && IsDigit(code[1]) }

  function Prefix(bankCode: string): string { BANK_PARENT + "." + bankCode + "." }

  /** The first two digits of what follows the prefix; deeper levels may follow them. */
  function Sequence(tail: string): (n: Option<nat>)
    ensures n.Some? ==> n.value <= SEQUENCE_MAX
  {
    if |tail| >= 2 && IsDigit(tail[0]) && IsDigit(tail[1])
    then Some(10 * DigitValue(tail[0]) + DigitValue(tail[1]))
    else None
  }

  /** The sequence an account takes up under a prefix. */
  function SequenceUnder(account: Account, prefix: string): Option<nat> {
    if account.ledger == Nas && prefix <= account.code then Sequence(account.code[|prefix|..]) else None
  }

  function MaxSequence(accounts: seq<Account>, prefix: string): (max: nat)
    ensures max <= SEQUENCE_MAX
  {
    if accounts == [] then 0
    else
      var last := accounts[|accounts| - 1];
      var max := MaxSequence(accounts[..|accounts| - 1], prefix);
      match SequenceUnder(last, prefix)
      case None => max
      case Some(n) => if n > max then n else max
  }

  /** No sequence under the prefix is above the maximum, and it is one of them unless there are none. */
  lemma {:induction false} MaxSequenceIsTheMaximum(accounts: seq<Account>, prefix: string)
    ensures var max := MaxSequence(accounts, prefix);
            && (forall a | a in accounts ::
                  SequenceUnder(a, prefix).Some? ==> SequenceUnder(a, prefix).value <= max)
            && (max == 0 || exists a :: a in accounts && SequenceUnder(a, prefix) == Some(max))
  {
    if accounts != [] {
      var last := accounts[|accounts| - 1];
      assert accounts == accounts[..|accounts| - 1] + [last];
      MaxSequenceIsTheMaximum(accounts[..|accounts| - 1], prefix);
    }
  }

  /** Two digits, zero-padded. */
  function Padded(n: nat): (text: string)
    requires n <= SEQUENCE_MAX
    ensures |text| == 2 && Sequence(text) == Some(n)
  {
    [DigitChar(n / 10), DigitChar(n % 10)]
  }

  function NextCode(accounts: seq<Account>, bankCode: string): Result<string, Error> {
    if !IsBankCode(bankCode) then Err(BadBankCode)
    else
      var next := MaxSequence(accounts, Prefix(bankCode)) + 1;
      if next > SEQUENCE_MAX then Err(SequenceOverflow)
      else Ok(Prefix(bankCode) + Padded(next))
  }

  function Subaccount(code: string, names: Names, currency: string, parent: nat): Account {
    Account(Nas, code, names, Asset, currency, Some(parent), false)
  }

  lemma SequenceOfCode(bankCode: string, n: nat)
    requires n <= SEQUENCE_MAX
    ensures Prefix(bankCode) <= Prefix(bankCode) + Padded(n)
    ensures (Prefix(bankCode) + Padded(n))[|Prefix(bankCode)|..] == Padded(n)
  {}

  /** A code handed out is not in use, and taking it moves the maximum up by one. */
  lemma NextCodeIsFreshAndConsecutive(accounts: seq<Account>, bankCode: string, account: Account)
    requires NextCode(accounts, bankCode).Ok?
    requires Matches(account, Nas, NextCode(accounts, bankCode).value)
    ensures var max := MaxSequence(accounts, Prefix(bankCode));
            && NextCode(accounts, bankCode).value == Prefix(bankCode) + Padded(max + 1)
            && !Has(accounts, Nas, NextCode(accounts, bankCode).value)
            && MaxSequence(accounts + [account], Prefix(bankCode)) == max + 1
  {
    var prefix, max := Prefix(bankCode), MaxSequence(accounts, Prefix(bankCode));
    MaxSequenceIsTheMaximum(accounts, prefix);
    SequenceOfCode(bankCode, max + 1);
    assert SequenceUnder(account, prefix) == Some(max + 1);
    forall a | a in accounts
      ensures !Matches(a, Nas, account.code)
    {
      assert SequenceUnder(a, prefix) != SequenceUnder(account, prefix);
    }
    assert (accounts + [account])[..|accounts|] == accounts;
  }

  /** With 221.14.03.01, 221.14.07 and 221.15.50 in use, bank 14 goes on with 08, bank 15 with 51, and another
      bank starts with 01. */
  lemma CodesForThreeBanks()
    ensures var accounts := [Plain("221.14.03.01"), Plain("221.14.07"), Plain("221.15.50")];
            && NextCode(accounts, "14") == Ok("221.14.08")
            && NextCode(accounts, "15") == Ok("221.15.51")
            && NextCode(accounts, "20") == Ok("221.20.01")
  {
    var x, y, z := Plain("221.14.03.01"), Plain("221.14.07"), Plain("221.15.50");
    CodesUnderPrefixes();
    hide SequenceUnder, MaxSequence, NextCode, Plain;
    MaxOfThree("221.14.", x, y, z);
    MaxOfThree("221.15.", x, y, z);
    MaxOfThree("221.20.", x, y, z);
    NextCodeIs([x, y, z], "14", "221.14.", 7, "08");
    NextCodeIs([x, y, z], "15", "221.15.", 50, "51");
    NextCodeIs([x, y, z], "20", "221.20.", 0, "01");
    assert "221.14." + "08" == "221.14.08" && "221.15." + "51" == "221.15.51" && "221.20." + "01" == "221.20.01";
  }

  lemma NextCodeIs(accounts: seq<Account>, bankCode: string, prefix: string, max: nat, digits: string)
    requires IsBankCode(bankCode) && prefix == Prefix(bankCode) && MaxSequence(accounts, prefix) == max < 99
    requires |digits| == 2 && digits[0] as int == '0' as int + (max + 1) / 10
    requires digits[1] as int == '0' as int + (max + 1) % 10
    ensures NextCode(accounts, bankCode) == Ok(prefix + digits)
  {
    hide MaxSequence;
    assert Padded(max + 1) == digits;
  }

  lemma MaxOfThree(prefix: string, x: Account, y: Account, z: Account)
    ensures var a, b, c := SequenceUnder(x, prefix), SequenceUnder(y, prefix), SequenceUnder(z, prefix);
            var m := if a.Some? then a.value else 0;
            var n := if b.Some? && b.value > m then b.value else m;
            MaxSequence([x, y, z], prefix) == if c.Some? && c.value > n then c.value else n
  {
    assert [x, y, z][..2] == [x, y] && [x, y][..1] == [x] && [x][..0] == [];
    hide SequenceUnder;
    assert MaxSequence([], prefix) == 0;
    assert MaxSequence([x], prefix) == if SequenceUnder(x, prefix).Some? then SequenceUnder(x, prefix).value else 0;
  }

  lemma CodesUnderPrefixes()
    ensures SequenceUnder(Plain("221.14.03.01"), "221.14.") == Some(3)
    ensures SequenceUnder(Plain("221.14.07"), "221.14.") == Some(7)
    ensures SequenceUnder(Plain("221.15.50"), "221.14.").None?
    ensures SequenceUnder(Plain("221.14.03.01"), "221.15.").None? && SequenceUnder(Plain("221.14.07"), "221.15.").None?
    ensures SequenceUnder(Plain("221.15.50"), "221.15.") == Some(50)
    ensures SequenceUnder(Plain("221.14.03.01"), "221.20.").None? && SequenceUnder(Plain("221.14.07"), "221.20.").None?
    ensures SequenceUnder(Plain("221.15.50"), "221.20.").None?
  {
    assert "221.14.03.01"[7..] == "03.01" && "221.14.07"[7..] == "07" && "221.15.50"[7..] == "50";
    assert "221.14.03.01"[4] == '1' && "221.14.03.01"[5] == '4' && "221.14.07"[4] == '1' && "221.14.07"[5] == '4';
    assert "221.15.50"[4] == '1' && "221.15.50"[5] == '5' && "221.20."[4] == '2';
    assert "221.14."[5] == '4' && "221.15."[5] == '5';
  }

  function Plain(code: string): Account {
    Account(Nas, code, Names("", "", ""), Asset, "AZN", None, false)
  }

  // ----- any number of creations for one bank -----

  /** The codes `count` creations in a row return, with the accounts they leave; it stops at the overflow. */
  function CreateMany(accounts: seq<Account>, bankCode: string, names: Names, parent: nat, count: nat)
    : (seq<string>, seq<Account>)
    decreases count
  {
    if count == 0 || NextCode(accounts, bankCode).Err? then ([], accounts)
    else
      var code := NextCode(accounts, bankCode).value;
      var (codes, after) :=
        CreateMany(accounts + [Subaccount(code, names, "AZN", parent)], bankCode, names, parent, count - 1);
      ([code] + codes, after)
  }

  /** `count` consecutive codes after number `from`. */
  function CodesAfter(bankCode: string, from: nat, count: nat): seq<string>
    requires from + count <= SEQUENCE_MAX
    decreases count
  {
    if count == 0 then []
    else [Prefix(bankCode) + Padded(from + 1)] + CodesAfter(bankCode, from + 1, count - 1)
  }

  /** The codes are consecutive from the maximum, and exactly as many succeed as fit below 99. */
  lemma {:induction false} CreationsCountUpToTheLimit(
    accounts: seq<Account>, bankCode: string, names: Names, parent: nat, count: nat)
    requires IsBankCode(bankCode)
    ensures var max := MaxSequence(accounts, Prefix(bankCode));
            var fit := if count <= SEQUENCE_MAX - max then count else SEQUENCE_MAX - max;
            var (codes, after) := CreateMany(accounts, bankCode, names, parent, count);
            && codes == CodesAfter(bankCode, max, fit)
            && MaxSequence(after, Prefix(bankCode)) == max + fit
    decreases count
  {
    hide MaxSequence, Prefix, Padded;
    if count > 0 && NextCode(accounts, bankCode).Ok? {
      var account := Subaccount(NextCode(accounts, bankCode).value, names, "AZN", parent);
      NextCodeIsFreshAndConsecutive(accounts, bankCode, account);
      CreationsCountUpToTheLimit(accounts + [account], bankCode, names, parent, count - 1);
    }
  }

  lemma PrefixesDiffer(bankCode: string, other: string, code: string)
    requires IsBankCode(other) && IsBankCode(bankCode) && other != bankCode && Prefix(bankCode) <= code
    ensures !(Prefix(other) <= code)
  {
    assert bankCode == [bankCode[0], bankCode[1]] && other == [other[0], other[1]];
    assert code[4] == Prefix(bankCode)[4] == bankCode[0] && code[5] == Prefix(bankCode)[5] == bankCode[1];
    assert Prefix(other)[4] == other[0] && Prefix(other)[5] == other[1];
  }

  /** Banks do not share a counter. */
  lemma OtherBankKeepsItsCounter(accounts: seq<Account>, bankCode: string, other: string, account: Account)
    requires IsBankCode(other) && IsBankCode(bankCode) && other != bankCode
    requires account.ledger == Nas && Prefix(bankCode) <= account.code
    ensures MaxSequence(accounts + [account], Prefix(other)) == MaxSequence(accounts, Prefix(other))
  {
    assert (accounts + [account])[..|accounts|] == accounts;
    PrefixesDiffer(bankCode, other, account.code);
  }

  // ----- one branch -----

  predicate Links(b: BankAccount, branch: nat, currency: string) {
    b.branch == Some(branch) && b.currency == currency && !b.isArchived
  }

  /** The ledger code of the first live bank account for the branch and currency. */
  function LinkedCode(bankAccounts: seq<BankAccount>, branch: nat, currency: string): Option<string> {
    if bankAccounts == [] then None
    else if Links(bankAccounts[0], branch, currency) then Some(bankAccounts[0].ledgerCode)
    else LinkedCode(bankAccounts[1..], branch, currency)
  }

  /** The account the linked row points at, if there is one. A blank code points nowhere. */
  function LinkedAccount(db: Db, branch: nat, currency: string): Option<nat> {
    match LinkedCode(db.bankAccounts, branch, currency)
    case None => None
    case Some(code) => if code == "" then None else Find(db.accounts, Nas, code)
  }

  datatype Subaccounted = Subaccounted(account: nat, code: string, created: bool)

  function EnsureSubaccount(db: Db, branch: nat, currency: string, names: Names)
    : Result<(Db, Subaccounted), Error>
  {
    if branch !in db.branches then Err(BranchNotFound)
    else if !db.branches[branch].isActive || !db.branches[branch].bankIsActive then Err(BranchInactive)
    else if !IsBankCode(db.branches[branch].bankCode) then Err(BadBankCode)
    else
      match LinkedAccount(db, branch, currency)
      case Some(a) => Ok((db, Subaccounted(a, db.accounts[a].code, false)))
      case None =>
        match Find(db.accounts, Nas, BANK_PARENT)
        case None => Err(ParentMissing(BANK_PARENT))
        case Some(parent) =>
          match NextCode(db.accounts, db.branches[branch].bankCode)
          case Err(e) => Err(e)
          case Ok(code) =>
            Ok((db.(accounts := db.accounts + [Subaccount(code, names, currency, parent)]),
                Subaccounted(|db.accounts|, code, true)))
  }

  /** The linked account is that of the first live row of the branch in that currency, if its code has one. */
  lemma {:induction false} LinkedCodeIsThatOfTheFirstLiveRow(bankAccounts: seq<BankAccount>, branch: nat, currency: string)
    ensures LinkedCode(bankAccounts, branch, currency).Some? <==>
              exists b :: b in bankAccounts && b.branch == Some(branch) && b.currency == currency && !b.isArchived
    ensures LinkedCode(bankAccounts, branch, currency).Some? ==>
              exists i: nat :: i < |bankAccounts|
                && bankAccounts[i].branch == Some(branch) && bankAccounts[i].currency == currency
                && !bankAccounts[i].isArchived
                && bankAccounts[i].ledgerCode == LinkedCode(bankAccounts, branch, currency).value
                && forall j | 0 <= j < i ::
                     !(bankAccounts[j].branch == Some(branch) && bankAccounts[j].currency == currency
                       && !bankAccounts[j].isArchived)
    decreases |bankAccounts|
  {
    if bankAccounts != [] {
      var b, rest := bankAccounts[0], bankAccounts[1..];
      assert b in bankAccounts && forall x :: x in bankAccounts <==> x == b || x in rest;
      if b.branch == Some(branch) && b.currency == currency && !b.isArchived {
        assert bankAccounts[0] == b;
      } else {
        LinkedCodeIsThatOfTheFirstLiveRow(rest, branch, currency);
        if LinkedCode(rest, branch, currency).Some? {
          var i: nat :| i < |rest|
            && rest[i].branch == Some(branch) && rest[i].currency == currency && !rest[i].isArchived
            && rest[i].ledgerCode == LinkedCode(rest, branch, currency).value
            && forall j | 0 <= j < i ::
                 !(rest[j].branch == Some(branch) && rest[j].currency == currency && !rest[j].isArchived);
          assert bankAccounts[i + 1] == rest[i];
          assert forall j | 1 <= j < i + 1 :: bankAccounts[j] == rest[j - 1];
        }
      }
    }
  }

  /** A request succeeds exactly when the branch and its bank are active, the bank code has two digits, and there
      is a linked account or else account 221 and a free sequence; the first thing amiss is the one reported. */
  lemma SubaccountSucceedsExactlyWhen(db: Db, branch: nat, currency: string, names: Names)
    ensures var r := EnsureSubaccount(db, branch, currency, names);
            if branch !in db.branches then r == Err(BranchNotFound)
            else
              var row := db.branches[branch];
              if !(row.isActive && row.bankIsActive) then r == Err(BranchInactive)
              else if !(|row.bankCode| == 2 && '0' <= row.bankCode[0] <= '9' && '0' <= row.bankCode[1] <= '9')
              then r == Err(BadBankCode)
              else if LinkedAccount(db, branch, currency).Some? then r.Ok? && !r.value.1.created
              else if !Has(db.accounts, Nas, "221") then r == Err(ParentMissing("221"))
              else if MaxSequence(db.accounts, "221." + row.bankCode + ".") == 99 then r == Err(SequenceOverflow)
              else r.Ok? && r.value.1.created
  {
    hide MaxSequence, LinkedAccount, Find;
    if branch in db.branches {
      assert Prefix(db.branches[branch].bankCode) == "221." + db.branches[branch].bankCode + ".";
    }
  }

  /** What is returned is the linked account, or else a new NAS account of that currency under 221; nothing but
      the account table changes. */
  lemma SubaccountIsAsAskedFor(db: Db, branch: nat, currency: string, names: Names)
    requires EnsureSubaccount(db, branch, currency, names).Ok?
    ensures var (after, result) := EnsureSubaccount(db, branch, currency, names).value;
            && branch in db.branches && after == db.(accounts := after.accounts)
            && result.account < |after.accounts| && after.accounts[result.account].code == result.code
            && after.accounts[result.account].ledger == Nas
            && (!result.created ==> after == db && LinkedAccount(db, branch, currency) == Some(result.account))
            && (result.created ==>
                  && |after.accounts| == |db.accounts| + 1 && db.accounts <= after.accounts
                  && result.account == |db.accounts|
                  && NextCode(db.accounts, db.branches[branch].bankCode) == Ok(result.code)
                  && var a := after.accounts[result.account];
                     && a.currency == currency && a.names == names && a.kind == Asset
                     && a.parent.Some? && a.parent.value < |db.accounts|
                     && db.accounts[a.parent.value].ledger == Nas && db.accounts[a.parent.value].code == "221")
  {
    hide MaxSequence, LinkedCode, NextCode;
  }

  /** The caller's part: the new bank account row carries the returned code. */
  function Attach(db: Db, branch: nat, currency: string, code: string): Db {
    db.(bankAccounts := db.bankAccounts + [BankAccount(Some(branch), currency, false, code)])
  }

  lemma {:induction false} LinkedCodeAfterAttach(bankAccounts: seq<BankAccount>, b: BankAccount, branch: nat, currency: string)
    requires Links(b, branch, currency)
    ensures LinkedCode(bankAccounts + [b], branch, currency)
            == match LinkedCode(bankAccounts, branch, currency)
               case Some(code) => Some(code)
               case None => Some(b.ledgerCode)
  {
    if bankAccounts != [] {
      assert (bankAccounts + [b])[1..] == bankAccounts[1..] + [b];
      LinkedCodeAfterAttach(bankAccounts[1..], b, branch, currency);
    } else {
      assert [] + [b] == [b];
    }
  }

  /** After the caller attaches the code, a repeat returns the same account and creates nothing, exactly when
      the account was there before, or no earlier live row exists for the branch and currency, or the first
      such row already holds the next code. */
  lemma RepeatIsIdempotentUnlessAStaleRowComesFirst(db: Db, branch: nat, currency: string, names: Names)
    requires EnsureSubaccount(db, branch, currency, names).Ok?
    ensures var (after, first) := EnsureSubaccount(db, branch, currency, names).value;
            var attached := Attach(after, branch, currency, first.code);
            var linked := LinkedCode(db.bankAccounts, branch, currency);
            EnsureSubaccount(attached, branch, currency, names)
            == Ok((attached, first.(created := false)))
            <==> || LinkedAccount(db, branch, currency).Some?
                 || linked.None?
                 || NextCode(db.accounts, db.branches[branch].bankCode) == Ok(linked.value)
  {
    var (after, first) := EnsureSubaccount(db, branch, currency, names).value;
    hide MaxSequence, NextCode, LinkedCode, Find, IsBankCode;
    LinkedCodeAfterAttach(db.bankAccounts, BankAccount(Some(branch), currency, false, first.code), branch, currency);
    if first.created {
      CreatedIsFound(db, branch, currency, names);
    }
  }

  /** Besides the accounts there were, exactly the created one can be found by its code. */
  lemma CreatedIsFound(db: Db, branch: nat, currency: string, names: Names)
    requires EnsureSubaccount(db, branch, currency, names).Ok?
    requires EnsureSubaccount(db, branch, currency, names).value.1.created
    ensures var (after, first) := EnsureSubaccount(db, branch, currency, names).value;
            && Find(after.accounts, Nas, first.code) == Some(first.account)
            && forall code :: code != first.code ==> Find(after.accounts, Nas, code) == Find(db.accounts, Nas, code)
  {
    var (after, first) := EnsureSubaccount(db, branch, currency, names).value;
    NextCodeIsFreshAndConsecutive(db.accounts, db.branches[branch].bankCode, after.accounts[|db.accounts|]);
    assert after.accounts[..|db.accounts|] == db.accounts;
  }

  // A live bank account row for the branch and currency that points at 222.01.01, an account no longer in the
  // table.

  function StaleDb(): Db {
    Db([Account(Nas, BANK_PARENT, Names("", "", ""), Asset, "AZN", None, true)], [], [], [], [], map[], [], {}, map[],
       map[0 := Branch(true, true, "14")], [BankAccount(Some(0), "AZN", false, "222.01.01")], Settings({}, None, false))
  }

  /** The repeated call does not find the account that the first one created. */
  lemma StaleRowHidesTheNewAccount()
    ensures var first := EnsureSubaccount(StaleDb(), 0, "AZN", Names("", "", ""));
            && first.Ok? && first.value.1.created
            && var attached := Attach(first.value.0, 0, "AZN", first.value.1.code);
               EnsureSubaccount(attached, 0, "AZN", Names("", "", ""))
               != Ok((attached, first.value.1.(created := false)))
  {
    var db, names := StaleDb(), Names("", "", "");
    var parent := db.accounts[0];
    assert parent in db.accounts && Matches(parent, Nas, BANK_PARENT);
    assert LinkedCode(db.bankAccounts, 0, "AZN") == Some("222.01.01");
    assert Find(db.accounts, Nas, "222.01.01").None?;
    assert IsBankCode("14");
    var prefix := Prefix("14");
    assert |parent.code| < |prefix|;
    assert db.accounts[..0] == [];
    assert MaxSequence(db.accounts, prefix) == 0;
    var first := EnsureSubaccount(db, 0, "AZN", names);
    assert first.Ok? && first.value.1.code == prefix + Padded(1);
    assert prefix[2] == '1' && "222.01.01"[2] == '2';
    RepeatIsIdempotentUnlessAStaleRowComesFirst(db, 0, "AZN", names);
  }
}
