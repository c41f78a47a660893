/** Creation of missing NAS accounts by climbing the chart of accounts. */
module Chart {
  import opened Outcomes
  import opened Tables

  /** Where a missing account can come from: a chart entry, or the built-in fallback for 241. */
  datatype Source = Source(names: Names, kind: AccountType, parent: string, fromChart: bool)

  const FALLBACK_CODE := "241"
  const FALLBACK_NAMES :=
    Names("Alınmış dəyərlər üzrə ƏDV (241)", "НДС к зачёту (входящий), счёт 241", "Input VAT (241)")
  const FALLBACK := Source(FALLBACK_NAMES, Asset, "290", false)

  function SourceOf(chart: map<string, ChartEntry>, code: string): Option<Source> {
    if code in chart then
      Some(Source(chart[code].names, chart[code].kind, chart[code].parentCode, true))
    else if code == FALLBACK_CODE then Some(FALLBACK)
    else None
  }

  function Known(chart: map<string, ChartEntry>): set<string> {
    chart.Keys + {FALLBACK_CODE}
  }

  function NewAccount(code: string, source: Source, parent: Option<nat>): Account {
    Account(Nas, code, source.names, source.kind, "AZN", parent, source.fromChart)
  }

  /** `ensureNasAccountExists`: the account table once `code` and all its missing ancestors exist. */
  function Ensure(accounts: seq<Account>, chart: map<string, ChartEntry>, code: string, stack: set<string>)
    : Result<seq<Account>, Error>
    decreases Known(chart) - stack
  {
    if Has(accounts, Nas, code) then Ok(accounts)
    else if code in stack then Err(CircularChain(code))
    else
      match SourceOf(chart, code)
      case None => Err(AccountNotFound(code))
      case Some(source) =>
        if source.parent == "" then Ok(accounts + [NewAccount(code, source, None)])
        else
          match Ensure(accounts, chart, source.parent, stack + {code})
          case Err(e) => Err(e)
          case Ok(grown) =>
            Ok(grown + [NewAccount(code, source, Find(grown, Nas, source.parent))])
  }

  /** `ensureNasAccountsForPosting`, over the codes in order. */
  function EnsureAll(accounts: seq<Account>, chart: map<string, ChartEntry>, codes: seq<string>)
    : Result<seq<Account>, Error>
    decreases |codes|
  {
    if codes == [] then Ok(accounts)
    else
      match Ensure(accounts, chart, codes[0], {})
      case Err(e) => Err(e)
      case Ok(grown) => EnsureAll(grown, chart, codes[1..])
  }

  // ----- when creation succeeds, and what it creates -----

  /** One step up: `code` is missing, can be created, and needs `parent` first. */
  predicate Climbs(accounts: seq<Account>, chart: map<string, ChartEntry>, code: string, parent: string) {
    && !Has(accounts, Nas, code)
    && parent != ""
    && if code in chart then chart[code].parentCode == parent else code == "241" && parent == "290"
  }

  /** A climb may end at an existing account or at a root of the chart. */
  predicate Lands(accounts: seq<Account>, chart: map<string, ChartEntry>, code: string) {
    Has(accounts, Nas, code) || (code in chart && chart[code].parentCode == "")
  }

  predicate IsClimb(accounts: seq<Account>, chart: map<string, ChartEntry>, path: seq<string>) {
    && path != []
    && forall i | 0 <= i < |path| - 1 :: Climbs(accounts, chart, path[i], path[i + 1])
  }

  ghost predicate IsGroundedClimb(
    accounts: seq<Account>, chart: map<string, ChartEntry>, code: string, path: seq<string>)
  {
    IsClimb(accounts, chart, path) && path[0] == code && Lands(accounts, chart, path[|path| - 1])
  }

  /** The codes a climb is short of: all of it, or all but an existing last one. */
  function MissingOn(accounts: seq<Account>, path: seq<string>): seq<string>
    requires path != []
  {
    if Has(accounts, Nas, path[|path| - 1]) then path[..|path| - 1] else path
  }

  /** `more` are accounts with these codes, deepest ancestor first. */
  ghost predicate AreFor(more: seq<Account>, codes: seq<string>) {
    && |more| == |codes|
    && forall k | 0 <= k < |more| :: Matches(more[k], Nas, codes[|codes| - 1 - k])
  }

  lemma {:induction false} GroundedClimbFromEnsure(
    accounts: seq<Account>, chart: map<string, ChartEntry>, code: string, stack: set<string>)
    returns (path: seq<string>)
    requires Ensure(accounts, chart, code, stack).Ok?
    ensures IsGroundedClimb(accounts, chart, code, path)
    decreases Known(chart) - stack
  {
    if Has(accounts, Nas, code) || SourceOf(chart, code).value.parent == "" {
      path := [code];
    } else {
      var rest := GroundedClimbFromEnsure(
        accounts, chart, SourceOf(chart, code).value.parent, stack + {code});
      path := [code] + rest;
      forall i | 0 <= i < |path| - 1
        ensures Climbs(accounts, chart, path[i], path[i + 1])
      {
        if i > 0 {
          assert Climbs(accounts, chart, rest[i - 1], rest[i]);
        }
      }
    }
  }

  /** A climb that lands somewhere never meets the same code twice. */
  lemma {:induction false} ClimbsInStep(
    accounts: seq<Account>, chart: map<string, ChartEntry>, path: seq<string>, i: nat, j: nat)
    requires IsClimb(accounts, chart, path) && Lands(accounts, chart, path[|path| - 1])
    requires i < j < |path|
    ensures path[i] != path[j]
    decreases |path| - j
  {
    if path[i] == path[j] {
      assert Climbs(accounts, chart, path[i], path[i + 1]);
      if j + 1 < |path| {
        assert Climbs(accounts, chart, path[j], path[j + 1]);
        ClimbsInStep(accounts, chart, path, i + 1, j + 1);
      }
    }
  }

  lemma RestOfClimb(accounts: seq<Account>, chart: map<string, ChartEntry>, code: string, path: seq<string>)
    requires IsGroundedClimb(accounts, chart, code, path) && |path| > 1
    ensures Climbs(accounts, chart, code, path[1])
    ensures IsGroundedClimb(accounts, chart, path[1], path[1..])
    ensures code !in path[1..] && forall c | c in path[1..] :: c in path
    ensures MissingOn(accounts, path) == [code] + MissingOn(accounts, path[1..])
  {
    assert Climbs(accounts, chart, path[0], path[1]);
    var rest := path[1..];
    forall i | 0 <= i < |rest| - 1
      ensures Climbs(accounts, chart, rest[i], rest[i + 1])
    {
      assert Climbs(accounts, chart, path[i + 1], path[i + 2]);
    }
    forall k | 0 <= k < |rest|
      ensures rest[k] != code
    {
      ClimbsInStep(accounts, chart, path, 0, k + 1);
    }
  }

  lemma LastOneIsFor(above: seq<Account>, last: Account, codes: seq<string>, code: string)
    requires AreFor(above, codes) && Matches(last, Nas, code)
    ensures AreFor(above + [last], [code] + codes)
  {}

  lemma {:induction false} EnsureFromGroundedClimb(
    accounts: seq<Account>, chart: map<string, ChartEntry>, code: string, path: seq<string>, stack: set<string>)
    returns (more: seq<Account>)
    requires IsGroundedClimb(accounts, chart, code, path)
    requires forall c | c in path :: c !in stack
    ensures Ensure(accounts, chart, code, stack) == Ok(accounts + more)
    ensures AreFor(more, MissingOn(accounts, path))
    decreases |path|
  {
    hide Find;
    assert path[0] in path;
    if |path| == 1 {
      more := if Has(accounts, Nas, code) then [] else [NewAccount(code, SourceOf(chart, code).value, None)];
      assert accounts + [] == accounts;
    } else {
      RestOfClimb(accounts, chart, code, path);
      var rest := path[1..];
      var above := EnsureFromGroundedClimb(accounts, chart, path[1], rest, stack + {code});
      var source := SourceOf(chart, code).value;
      var last := NewAccount(code, source, Find(accounts + above, Nas, source.parent));
      more := above + [last];
      assert accounts + more == (accounts + above) + [last];
      LastOneIsFor(above, last, MissingOn(accounts, rest), code);
    }
  }

  /** Creation succeeds exactly when the climb from `code` lands, on every chart, cyclic ones included. */
  lemma EnsureSucceedsExactlyWhenTheClimbLands(
    accounts: seq<Account>, chart: map<string, ChartEntry>, code: string)
    ensures Ensure(accounts, chart, code, {}).Ok? <==>
              exists path :: IsGroundedClimb(accounts, chart, code, path)
  {
    if Ensure(accounts, chart, code, {}).Ok? {
      var path := GroundedClimbFromEnsure(accounts, chart, code, {});
    }
    if path :| IsGroundedClimb(accounts, chart, code, path) {
      var more := EnsureFromGroundedClimb(accounts, chart, code, path, {});
    }
  }

  /** What it creates is the climb itself, from the top down, and nothing else. */
  lemma EnsureCreatesExactlyTheClimb(
    accounts: seq<Account>, chart: map<string, ChartEntry>, code: string, path: seq<string>)
    requires IsGroundedClimb(accounts, chart, code, path)
    ensures var r := Ensure(accounts, chart, code, {});
            && r.Ok? && accounts <= r.value
            && AreFor(r.value[|accounts|..], MissingOn(accounts, path))
  {
    var more := EnsureFromGroundedClimb(accounts, chart, code, path, {});
    assert (accounts + more)[|accounts|..] == more;
  }

  /** A failure names the code where the climb stops: one met before, or one nobody can create. */
  lemma {:induction false} WhyEnsureFails(
    accounts: seq<Account>, chart: map<string, ChartEntry>, code: string, stack: set<string>)
    returns (path: seq<string>)
    requires Ensure(accounts, chart, code, stack).Err?
    ensures IsClimb(accounts, chart, path) && path[0] == code
    ensures var last := |path| - 1;
            match Ensure(accounts, chart, code, stack).error
            case CircularChain(c) =>
              c == path[last] && !Has(accounts, Nas, c) && (c in stack || c in path[..last])
            case AccountNotFound(c) =>
              c == path[last] && !Has(accounts, Nas, c) && c !in chart && c != "241"
            case _ => false
    decreases Known(chart) - stack
  {
    if code in stack || SourceOf(chart, code).None? {
      path := [code];
    } else {
      var rest := WhyEnsureFails(accounts, chart, SourceOf(chart, code).value.parent, stack + {code});
      path := [code] + rest;
      assert path[..|path| - 1] == [code] + rest[..|rest| - 1];
      forall i | 0 <= i < |path| - 1
        ensures Climbs(accounts, chart, path[i], path[i + 1])
      {
        if i > 0 {
          assert Climbs(accounts, chart, rest[i - 1], rest[i]);
        }
      }
    }
  }

  // ----- the tree the new accounts form -----

  /** Account `i` is a NAS account in AZN with the names and the type of its chart entry, or those of the
      fallback for 241, and its parent link goes to an earlier account with the parent code. */
  ghost predicate LinkedByChart(accounts: seq<Account>, i: nat, chart: map<string, ChartEntry>)
    requires i < |accounts|
  {
    var a := accounts[i];
    && a.ledger == Nas && a.currency == "AZN"
    && (a.fromChart <==> a.code in chart)
    && (if a.code in chart then a.names == chart[a.code].names && a.kind == chart[a.code].kind
        else a.code == "241" && a.kind == Asset && a.names == FALLBACK_NAMES)
    && var parent := if a.code in chart then chart[a.code].parentCode else "290";
       if parent == "" then a.parent.None?
       else a.parent.Some? && a.parent.value < i
            && accounts[a.parent.value].ledger == Nas && accounts[a.parent.value].code == parent
  }

  /** `grown` extends `accounts` by fresh codes, each linked by the chart. */
  ghost predicate GrownByChart(accounts: seq<Account>, grown: seq<Account>, chart: map<string, ChartEntry>) {
    && accounts <= grown
    && (UniqueCodes(accounts) ==> UniqueCodes(grown))
    && forall i | |accounts| <= i < |grown| :: LinkedByChart(grown, i, chart)
  }

  lemma GrowthComposes(
    a: seq<Account>, b: seq<Account>, c: seq<Account>, chart: map<string, ChartEntry>)
    requires GrownByChart(a, b, chart) && GrownByChart(b, c, chart)
    ensures GrownByChart(a, c, chart)
  {
    forall i | |a| <= i < |c|
      ensures LinkedByChart(c, i, chart)
    {
      if i < |b| {
        assert LinkedByChart(b, i, chart);
        assert c[i] == b[i];
      }
    }
  }

  lemma GrowsByOne(accounts: seq<Account>, before: seq<Account>, chart: map<string, ChartEntry>, added: Account)
    requires GrownByChart(accounts, before, chart)
    requires added.ledger == Nas && !Has(before, Nas, added.code)
    requires LinkedByChart(before + [added], |before|, chart)
    ensures GrownByChart(accounts, before + [added], chart)
    ensures Has(before + [added], Nas, added.code)
  {
    var grown := before + [added];
    forall i | 0 <= i < |before|
      ensures !Matches(before[i], Nas, added.code)
    {
      assert before[i] in before;
    }
    forall i | |accounts| <= i < |grown|
      ensures LinkedByChart(grown, i, chart)
    {
      if i < |before| {
        assert LinkedByChart(before, i, chart);
      }
    }
    assert grown[|before|] in grown;
  }

  /** In particular the parent looked up after the recursive call is never missing. */
  lemma {:induction false} EnsureGrowsByChart(
    accounts: seq<Account>, chart: map<string, ChartEntry>, code: string, stack: set<string>)
    requires Ensure(accounts, chart, code, stack).Ok?
    ensures var grown := Ensure(accounts, chart, code, stack).value;
            && GrownByChart(accounts, grown, chart)
            && Has(grown, Nas, code)
            && forall i | |accounts| <= i < |grown| :: grown[i].code !in stack
    decreases Known(chart) - stack
  {
    if !Has(accounts, Nas, code) {
      var source := SourceOf(chart, code).value;
      var before, parent := accounts, None;
      if source.parent != "" {
        EnsureGrowsByChart(accounts, chart, source.parent, stack + {code});
        before := Ensure(accounts, chart, source.parent, stack + {code}).value;
        parent := Find(before, Nas, source.parent);
      }
      assert before == accounts + before[|accounts|..];
      FindInLonger(accounts, before[|accounts|..], Nas, code);
      GrowsByOne(accounts, before, chart, NewAccount(code, source, parent));
    }
  }

  /** After the loop every code exists; nothing that existed has changed; a second loop creates nothing. */
  lemma {:induction false} EnsureAllGrowsByChart(
    accounts: seq<Account>, chart: map<string, ChartEntry>, codes: seq<string>)
    requires EnsureAll(accounts, chart, codes).Ok?
    ensures var grown := EnsureAll(accounts, chart, codes).value;
            && GrownByChart(accounts, grown, chart)
            && forall c | c in codes :: Has(grown, Nas, c)
    decreases |codes|
  {
    if codes != [] {
      EnsureGrowsByChart(accounts, chart, codes[0], {});
      var first := Ensure(accounts, chart, codes[0], {}).value;
      EnsureAllGrowsByChart(first, chart, codes[1..]);
      var grown := EnsureAll(accounts, chart, codes).value;
      GrowthComposes(accounts, first, grown, chart);
      assert grown == first + grown[|first|..];
      FindInLonger(first, grown[|first|..], Nas, codes[0]);
    }
  }

  lemma {:induction false} EnsureAllExistingIsIdle(
    accounts: seq<Account>, chart: map<string, ChartEntry>, codes: seq<string>)
    requires forall c | c in codes :: Has(accounts, Nas, c)
    ensures EnsureAll(accounts, chart, codes) == Ok(accounts)
    decreases |codes|
  {
    if codes != [] {
      assert codes[0] in codes;
      EnsureAllExistingIsIdle(accounts, chart, codes[1..]);
    }
  }

  // ----- a whole list of codes -----

  ghost predicate Grounded(accounts: seq<Account>, chart: map<string, ChartEntry>, code: string) {
    exists path :: IsGroundedClimb(accounts, chart, code, path)
  }

  lemma HasStays(accounts: seq<Account>, grown: seq<Account>, code: string)
    requires accounts <= grown && Has(accounts, Nas, code)
    ensures Has(grown, Nas, code)
  {}

  lemma ClimbExtends(accounts: seq<Account>, chart: map<string, ChartEntry>, code: string, rest: seq<string>)
    requires rest != [] && IsGroundedClimb(accounts, chart, rest[0], rest) && Climbs(accounts, chart, code, rest[0])
    ensures IsGroundedClimb(accounts, chart, code, [code] + rest)
  {}

  /** With more accounts a climb may land earlier, but it lands. */
  lemma {:induction false} GroundedInGrown(
    accounts: seq<Account>, grown: seq<Account>, chart: map<string, ChartEntry>, code: string, path: seq<string>)
    requires accounts <= grown && IsGroundedClimb(accounts, chart, code, path)
    ensures Grounded(grown, chart, code)
    decreases |path|
  {
    if Has(grown, Nas, code) {
      assert IsGroundedClimb(grown, chart, code, [code]);
    } else if |path| == 1 {
      if Has(accounts, Nas, code) {
        HasStays(accounts, grown, code);
      }
      assert IsGroundedClimb(grown, chart, code, [code]);
    } else {
      RestOfClimb(accounts, chart, code, path);
      GroundedInGrown(accounts, grown, chart, path[1], path[1..]);
      var rest :| IsGroundedClimb(grown, chart, path[1], rest);
      ClimbExtends(grown, chart, code, rest);
    }
  }

  lemma {:induction false} SuffixIsGrounded(
    accounts: seq<Account>, chart: map<string, ChartEntry>, path: seq<string>, k: nat)
    requires k < |path| && IsGroundedClimb(accounts, chart, path[0], path)
    ensures Grounded(accounts, chart, path[k])
  {
    if k == 0 {
      assert IsGroundedClimb(accounts, chart, path[0], path);
    } else {
      RestOfClimb(accounts, chart, path[0], path);
      SuffixIsGrounded(accounts, chart, path[1..], k - 1);
    }
  }

  /** What was created on the way to `code` could itself be reached before. */
  lemma CreatedWasGrounded(
    accounts: seq<Account>, chart: map<string, ChartEntry>, code: string, c: string)
    requires Ensure(accounts, chart, code, {}).Ok?
    requires Has(Ensure(accounts, chart, code, {}).value, Nas, c)
    ensures Grounded(accounts, chart, c)
  {
    if Has(accounts, Nas, c) {
      assert IsGroundedClimb(accounts, chart, c, [c]);
    } else {
      var path := GroundedClimbFromEnsure(accounts, chart, code, {});
      EnsureCreatesExactlyTheClimb(accounts, chart, code, path);
      var grown := Ensure(accounts, chart, code, {}).value;
      var found, missing := Find(grown, Nas, c).value, MissingOn(accounts, path);
      forall i | 0 <= i < |accounts| ensures !Matches(accounts[i], Nas, c) {
        assert accounts[i] in accounts;
      }
      assert found >= |accounts|;
      var k := |missing| - 1 - (found - |accounts|);
      assert Matches(grown[|accounts|..][found - |accounts|], Nas, missing[k]);
      assert missing[k] == path[k] == c;
      SuffixIsGrounded(accounts, chart, path, k);
    }
  }

  /** With the accounts an ensure created, nothing can be reached that could not be reached before. */
  lemma {:induction false} GroundedBefore(
    accounts: seq<Account>, chart: map<string, ChartEntry>, code: string, c: string, path: seq<string>)
    requires Ensure(accounts, chart, code, {}).Ok?
    requires IsGroundedClimb(Ensure(accounts, chart, code, {}).value, chart, c, path)
    ensures Grounded(accounts, chart, c)
    decreases |path|
  {
    var grown := Ensure(accounts, chart, code, {}).value;
    EnsureGrowsByChart(accounts, chart, code, {});
    if Has(grown, Nas, c) {
      CreatedWasGrounded(accounts, chart, code, c);
    } else {
      if Has(accounts, Nas, c) {
        HasStays(accounts, grown, c);
      } else if |path| == 1 {
        assert IsGroundedClimb(accounts, chart, c, [c]);
      } else {
        RestOfClimb(grown, chart, c, path);
        GroundedBefore(accounts, chart, code, path[1], path[1..]);
        var rest :| IsGroundedClimb(accounts, chart, path[1], rest);
        ClimbExtends(accounts, chart, c, rest);
      }
    }
  }

  /** All codes can be ensured, in any order, exactly when each one's climb lands from where things stood. */
  lemma {:induction false} EnsureAllSucceedsExactlyWhenEveryClimbLands(
    accounts: seq<Account>, chart: map<string, ChartEntry>, codes: seq<string>)
    ensures EnsureAll(accounts, chart, codes).Ok? <==> forall c | c in codes :: Grounded(accounts, chart, c)
    decreases |codes|
  {
    if codes != [] {
      EnsureSucceedsExactlyWhenTheClimbLands(accounts, chart, codes[0]);
      assert codes[0] in codes;
      if Ensure(accounts, chart, codes[0], {}).Ok? {
        var grown := Ensure(accounts, chart, codes[0], {}).value;
        EnsureGrowsByChart(accounts, chart, codes[0], {});
        EnsureAllSucceedsExactlyWhenEveryClimbLands(grown, chart, codes[1..]);
        forall c
          ensures Grounded(grown, chart, c) <==> Grounded(accounts, chart, c)
        {
          if path :| IsGroundedClimb(accounts, chart, c, path) {
            GroundedInGrown(accounts, grown, chart, c, path);
          }
          if path :| IsGroundedClimb(grown, chart, c, path) {
            GroundedBefore(accounts, chart, codes[0], c, path);
          }
        }
        assert forall c :: c in codes <==> c == codes[0] || c in codes[1..];
      }
    }
  }

  /** A climb with the accounts an ensure created is the lower end of one without them. */
  lemma {:induction false} ClimbBefore(
    accounts: seq<Account>, chart: map<string, ChartEntry>, code: string, c: string, short: seq<string>)
    returns (path: seq<string>)
    requires Ensure(accounts, chart, code, {}).Ok?
    requires IsGroundedClimb(Ensure(accounts, chart, code, {}).value, chart, c, short)
    ensures IsGroundedClimb(accounts, chart, c, path)
    ensures forall x | x in MissingOn(Ensure(accounts, chart, code, {}).value, short) :: x in path
    decreases |short|
  {
    var grown := Ensure(accounts, chart, code, {}).value;
    EnsureGrowsByChart(accounts, chart, code, {});
    if |short| == 1 {
      GroundedBefore(accounts, chart, code, c, short);
      path :| IsGroundedClimb(accounts, chart, c, path);
      assert path[0] in path;
    } else {
      RestOfClimb(grown, chart, c, short);
      var rest := ClimbBefore(accounts, chart, code, short[1], short[1..]);
      if Has(accounts, Nas, c) {
        HasStays(accounts, grown, c);
      }
      ClimbExtends(accounts, chart, c, rest);
      path := [c] + rest;
    }
  }

  /** What one ensure creates is on the climb of its code. */
  lemma CreatedIsOnTheClimb(accounts: seq<Account>, chart: map<string, ChartEntry>, code: string, i: nat)
    returns (path: seq<string>)
    requires Ensure(accounts, chart, code, {}).Ok? && |accounts| <= i < |Ensure(accounts, chart, code, {}).value|
    ensures IsGroundedClimb(accounts, chart, code, path)
    ensures Ensure(accounts, chart, code, {}).value[i].code in MissingOn(accounts, path)
  {
    path := GroundedClimbFromEnsure(accounts, chart, code, {});
    EnsureCreatesExactlyTheClimb(accounts, chart, code, path);
    hide Ensure;
    var missing, grown := MissingOn(accounts, path), Ensure(accounts, chart, code, {}).value;
    assert grown[|accounts|..][i - |accounts|] == grown[i];
    assert Matches(grown[i], Nas, missing[|missing| - 1 - (i - |accounts|)]);
  }

  lemma MissingStaysMissing(
    accounts: seq<Account>, grown: seq<Account>, chart: map<string, ChartEntry>, c: string,
    short: seq<string>, path: seq<string>, x: string)
    requires accounts <= grown && IsGroundedClimb(grown, chart, c, short) && path != []
    requires x in MissingOn(grown, short) && x in path
    ensures x in MissingOn(accounts, path)
  {
    var k :| 0 <= k < |MissingOn(grown, short)| && MissingOn(grown, short)[k] == x;
    if k < |short| - 1 {
      assert Climbs(grown, chart, short[k], short[k + 1]);
    }
    if Has(accounts, Nas, x) {
      HasStays(accounts, grown, x);
    }
    var j :| 0 <= j < |path| && path[j] == x;
  }

  /** Every account created for a list of codes is on the climb of one of them. */
  lemma {:induction false} EnsureAllCreatesOnlyWhatIsNeeded(
    accounts: seq<Account>, chart: map<string, ChartEntry>, codes: seq<string>, i: nat)
    returns (c: string, path: seq<string>)
    requires EnsureAll(accounts, chart, codes).Ok?
    requires |accounts| <= i < |EnsureAll(accounts, chart, codes).value|
    ensures c in codes && IsGroundedClimb(accounts, chart, c, path)
    ensures EnsureAll(accounts, chart, codes).value[i].code in MissingOn(accounts, path)
    decreases |codes|
  {
    var first := Ensure(accounts, chart, codes[0], {}).value;
    var grown := EnsureAll(accounts, chart, codes).value;
    EnsureAllGrowsByChart(first, chart, codes[1..]);
    EnsureGrowsByChart(accounts, chart, codes[0], {});
    hide Ensure, IsGroundedClimb, GrownByChart, MissingOn;
    if i < |first| {
      c := codes[0];
      path := CreatedIsOnTheClimb(accounts, chart, c, i);
      assert first[i] == grown[i];
    } else {
      var short: seq<string>;
      c, short := EnsureAllCreatesOnlyWhatIsNeeded(first, chart, codes[1..], i);
      path := ClimbBefore(accounts, chart, codes[0], c, short);
      MissingStaysMissing(accounts, first, chart, c, short, path, grown[i].code);
    }
  }
}
