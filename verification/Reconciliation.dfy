/** Account reconciliation (`reconciliation.py`) and the forecast's balance anchor
    (`forecast.py`, `_anchor`), over the transactions and statement periods of a vault.

    Days are ordinals, money is signed integer minor units. */
module Reconciliation {
  import opened Wrappers
  import opened Sequences
  import opened Sorting

  datatype AccountType = Current | Savings | CreditCard | PersonalLoan | HomeLoan | Investment | Other

  datatype Account = Account(id: int, name: string, kind: AccountType)
  datatype Txn = Txn(account: int, day: int, amount: int)
  datatype Period = Period(id: int, account: int, end: int, closing: Option<int>)

  datatype Status = Reconciled | Off | NotEnoughData | NotSupported
  datatype Report = Report(account: int, status: Status, discrepancy: int, offPairs: nat, checkedPairs: nat)

  // ----- the queries -----

  /** `sum_after`: movements of the account strictly after one day and no later than another. */
  function SumAfter(txns: seq<Txn>, account: int, after: int, upTo: int): int {
    if txns == [] then 0
    else (if txns[0].account == account && after < txns[0].day <= upTo then txns[0].amount else 0)
         + SumAfter(txns[1..], account, after, upTo)
  }

  function CountAfter(txns: seq<Txn>, account: int, after: int, upTo: int): nat {
    if txns == [] then 0
    else (if txns[0].account == account && after < txns[0].day <= upTo then 1 else 0)
         + CountAfter(txns[1..], account, after, upTo)
  }

  function Bearing(periods: seq<Period>, account: int): seq<Period> {
    if periods == [] then []
    else (if periods[0].account == account && periods[0].closing.Some? then [periods[0]] else [])
         + Bearing(periods[1..], account)
  }

  predicate ByEnd(p: Period, q: Period) {
    p.end < q.end || (p.end == q.end && p.id <= q.id)
  }

  predicate ByEndDescending(p: Period, q: Period) {
    ByEnd(q, p)
  }

  /** `closing_balances_for_account`: the balance-bearing statements by (end, id). */
  function Chain(periods: seq<Period>, account: int): (chain: seq<Period>)
    ensures forall p :: p in chain ==> p.closing.Some? && p.account == account && p in periods
  {
    BearingIsFilter(periods, account);
    SortKeepsElements(ByEnd, Bearing(periods, account));
    Sort(ByEnd, Bearing(periods, account))
  }

  /** `latest_closing_balances`, one account's row: the first by (end, id) descending. */
  function Latest(periods: seq<Period>, account: int): (p: Option<Period>) {
    var ranked := Sort(ByEndDescending, Bearing(periods, account));
    if ranked == [] then None else Some(ranked[0])
  }

  lemma {:induction false} BearingIsFilter(periods: seq<Period>, account: int)
    ensures forall p :: p in Bearing(periods, account) <==> p in periods && p.account == account && p.closing.Some?
  {
    if periods != [] {
      BearingIsFilter(periods[1..], account);
      assert periods == [periods[0]] + periods[1..];
    }
  }

  // ----- reconciling one account -----

  /** What one consecutive pair is off by. */
  function Gap(closings: seq<int>, bridges: seq<int>, i: nat): int
    requires |bridges| + 1 == |closings| && i < |bridges|
  {
    closings[i + 1] - (closings[i] + bridges[i])
  }

  function SumGaps(closings: seq<int>, bridges: seq<int>, n: nat): int
    requires |bridges| + 1 == |closings| && n <= |bridges|
  {
    if n == 0 then 0 else SumGaps(closings, bridges, n - 1) + Gap(closings, bridges, n - 1)
  }

  function CountOff(closings: seq<int>, bridges: seq<int>, n: nat): nat
    requires |bridges| + 1 == |closings| && n <= |bridges|
  {
    if n == 0 then 0
    else CountOff(closings, bridges, n - 1) + (if Gap(closings, bridges, n - 1) != 0 then 1 else 0)
  }

  /** `reconcile_account`. */
  function ReconcileAccount(account: int, closings: seq<int>, bridges: seq<int>): Report
    requires |bridges| == if |closings| == 0 then 0 else |closings| - 1
  {
    if |closings| < 2 then Report(account, NotEnoughData, 0, 0, 0)
    else
      var off := CountOff(closings, bridges, |bridges|);
      Report(account, if off == 0 then Reconciled else Off, SumGaps(closings, bridges, |bridges|), off, |closings| - 1)
  }

  function Closings(chain: seq<Period>): seq<int>
    requires forall p :: p in chain ==> p.closing.Some?
  {
    seq(|chain|, i requires 0 <= i < |chain| => chain[i].closing.value)
  }

  function Bridges(txns: seq<Txn>, account: int, chain: seq<Period>): seq<int> {
    seq(if chain == [] then 0 else |chain| - 1,
        i requires 0 <= i < |chain| - 1 => SumAfter(txns, account, chain[i].end, chain[i + 1].end))
  }

  function Supported(kind: AccountType): bool {
    kind.Current? || kind.Savings?
  }

  function ReportFor(txns: seq<Txn>, periods: seq<Period>, account: Account): Report {
    if !Supported(account.kind) then Report(account.id, NotSupported, 0, 0, 0)
    else
      var chain := Chain(periods, account.id);
      ReconcileAccount(account.id, Closings(chain), Bridges(txns, account.id, chain))
  }

  /** `account_statuses`: a total map, one report per account. */
  method AccountStatuses(txns: seq<Txn>, periods: seq<Period>, accounts: seq<Account>)
      returns (statuses: map<int, Report>)
    requires forall i, j :: 0 <= i < j < |accounts| ==> accounts[i].id != accounts[j].id
    ensures statuses.Keys == set a | a in accounts :: a.id
    ensures forall i :: 0 <= i < |accounts| ==>
              var a, s := accounts[i], statuses[accounts[i].id].status;
              && (s.NotSupported? <==> !(a.kind.Current? || a.kind.Savings?))
              && (s.NotEnoughData? <==> !s.NotSupported? && |Chain(periods, a.id)| < 2)
    ensures forall i :: 0 <= i < |accounts| ==> statuses[accounts[i].id] == ReportFor(txns, periods, accounts[i])
  {
    statuses := map[];
    for k := 0 to |accounts|
      invariant statuses.Keys == set i | 0 <= i < k :: accounts[i].id
      invariant forall i :: 0 <= i < k ==> statuses[accounts[i].id] == ReportFor(txns, periods, accounts[i])
    {
      var account := accounts[k];
      if !Supported(account.kind) {
        statuses := statuses[account.id := Report(account.id, NotSupported, 0, 0, 0)];
      } else {
        var chain := Chain(periods, account.id);
        var report := ReconcileAccount(account.id, Closings(chain), Bridges(txns, account.id, chain));
        statuses := statuses[account.id := report];
      }
    }
  }

  // ----- what a reconciled chain guarantees -----

  lemma {:induction false} SumAfterSplits(txns: seq<Txn>, account: int, from: int, mid: int, to: int)
    requires from <= mid <= to
    ensures SumAfter(txns, account, from, to) == SumAfter(txns, account, from, mid) + SumAfter(txns, account, mid, to)
  {
    if txns != [] {
      SumAfterSplits(txns[1..], account, from, mid, to);
    }
  }

  /** A row enters the sum and the count exactly if it is of the account, after the closing day and no later
      than the last day. */
  lemma {:induction false} OneMoreRow(txns: seq<Txn>, t: Txn, account: int, after: int, upTo: int)
    ensures SumAfter(txns + [t], account, after, upTo)
         == SumAfter(txns, account, after, upTo)
            + if t.account == account && t.day >= after + 1 && t.day <= upTo then t.amount else 0
    ensures CountAfter(txns + [t], account, after, upTo)
         == CountAfter(txns, account, after, upTo)
            + if t.account == account && t.day >= after + 1 && t.day <= upTo then 1 else 0
  {
    var more := txns + [t];
    if txns == [] {
      assert more == [t] && more[1..] == [];
    } else {
      assert more[0] == txns[0] && more[1..] == txns[1..] + [t];
      OneMoreRow(txns[1..], t, account, after, upTo);
    }
  }

  /** Balance-bearing statements of one account, in (end, id) order. */
  ghost predicate IsChain(chain: seq<Period>, account: int) {
    && (forall i :: 0 <= i < |chain| ==> chain[i].closing.Some? && chain[i].account == account)
    && (forall i, j :: 0 <= i < j < |chain| ==>
          chain[i].end < chain[j].end || (chain[i].end == chain[j].end && chain[i].id <= chain[j].id))
  }

  /** The queried chain is one, and its last node is the statement the forecast anchors on. */
  lemma ChainEndsAtLatest(periods: seq<Period>, account: int)
    requires forall p, q :: p in periods && q in periods && p.id == q.id ==> p == q
    ensures IsChain(Chain(periods, account), account)
    ensures multiset(Chain(periods, account)) == multiset(Bearing(periods, account))
    ensures forall p :: p in Chain(periods, account) <==> p in periods && p.account == account && p.closing.Some?
    ensures Latest(periods, account) ==
              if Chain(periods, account) == [] then None
              else Some(Chain(periods, account)[|Chain(periods, account)| - 1])
  {
    var chosen := Bearing(periods, account);
    var chain, ranked := Chain(periods, account), Sort(ByEndDescending, chosen);
    BearingIsFilter(periods, account);
    SortSorts(ByEnd, chosen);
    SortPermutes(ByEnd, chosen);
    SortPermutes(ByEndDescending, chosen);
    SortKeepsElements(ByEnd, chosen);
    SortKeepsElements(ByEndDescending, chosen);
    forall i, j | 0 <= i < j < |chain|
      ensures chain[i].end < chain[j].end || (chain[i].end == chain[j].end && chain[i].id <= chain[j].id)
    {
      assert ByEnd(chain[i], chain[j]);
    }
    SortSorts(ByEndDescending, chosen);
    if chain != [] {
      LastIsFirstDescending(chain, ranked);
    }
  }

  lemma LastIsFirstDescending(chain: seq<Period>, ranked: seq<Period>)
    requires Sorted(ByEnd, chain) && chain != [] && |ranked| == |chain|
    requires forall p :: p in ranked <==> p in chain
    requires forall p, q :: p in chain && q in chain && p.id == q.id ==> p == q
    requires Sorted(ByEndDescending, ranked)
    ensures ranked[0] == chain[|chain| - 1]
  {
    var last := chain[|chain| - 1];
    assert last in chain && last in ranked;
    var i :| 0 <= i < |ranked| && ranked[i] == last;
    assert ranked[0] in ranked && ranked[0] in chain;
    var j :| 0 <= j < |chain| && chain[j] == ranked[0];
    assert i == 0 || ByEndDescending(ranked[0], ranked[i]);
    assert j == |chain| - 1 || ByEnd(chain[j], last);
  }

  /** A statement's balance rolled forward to `today`. */
  function RolledForward(txns: seq<Txn>, p: Period, today: int): int
    requires p.closing.Some?
  {
    p.closing.value + SumAfter(txns, p.account, p.end, today)
  }

  /** One step of the chain: rolling the later statement forward instead of the earlier one
      changes the balance by exactly the pair's gap. */
  lemma GapIsTheDifference(txns: seq<Txn>, account: int, p: Period, q: Period, today: int)
    requires p.closing.Some? && q.closing.Some? && p.account == q.account == account
    requires p.end <= q.end <= today
    ensures RolledForward(txns, q, today) - RolledForward(txns, p, today)
            == q.closing.value - (p.closing.value + SumAfter(txns, account, p.end, q.end))
  {
    SumAfterSplits(txns, account, p.end, q.end, today);
  }

  /** From the first statement to the `j`-th, the rolled-forward balances differ by exactly the
      gaps between them: the bank's later figure minus what the transactions explain. */
  lemma {:induction false} GapsExplainTheDifference(txns: seq<Txn>, chain: seq<Period>, account: int, j: nat,
                                                    today: int)
    requires IsChain(chain, account) && j < |chain| && chain[j].end <= today
    ensures RolledForward(txns, chain[j], today) - RolledForward(txns, chain[0], today)
            == SumGaps(Closings(chain), Bridges(txns, account, chain), j)
  {
    if j > 0 {
      GapsExplainTheDifference(txns, chain, account, j - 1, today);
      GapIsTheDifference(txns, account, chain[j - 1], chain[j], today);
    }
  }

  /** The pairs up to `n` whose later closing is not the earlier one plus the movements between. */
  ghost function OffUpTo(closings: seq<int>, bridges: seq<int>, n: nat): set<nat>
    requires |bridges| + 1 == |closings| && n <= |bridges|
  {
    set i: nat | i < n && closings[i + 1] != closings[i] + bridges[i]
  }

  lemma {:induction false} OffPairsCounted(closings: seq<int>, bridges: seq<int>, n: nat)
    requires |bridges| + 1 == |closings| && n <= |bridges|
    ensures CountOff(closings, bridges, n) == |OffUpTo(closings, bridges, n)|
  {
    if n > 0 {
      OffPairsCounted(closings, bridges, n - 1);
      var k, rest, all := n - 1, OffUpTo(closings, bridges, n - 1), OffUpTo(closings, bridges, n);
      if closings[k + 1] != closings[k] + bridges[k] {
        assert all == rest + {k};
      } else {
        assert all == rest;
      }
    }
  }

  /** `discrepancy_minor` is the last closing minus the first minus every movement between. */
  lemma DiscrepancyIsUnexplainedMovement(txns: seq<Txn>, chain: seq<Period>, account: int)
    requires IsChain(chain, account) && |chain| >= 2
    ensures var last := chain[|chain| - 1];
            ReconcileAccount(account, Closings(chain), Bridges(txns, account, chain)).discrepancy
            == last.closing.value - chain[0].closing.value - SumAfter(txns, account, chain[0].end, last.end)
    ensures forall i :: 0 <= i < |chain| ==> Closings(chain)[i] == chain[i].closing.value
    ensures var bridges := Bridges(txns, account, chain);
            && |bridges| == |chain| - 1
            && forall i :: 0 <= i < |bridges| ==>
                 bridges[i] == SumAfter(txns, account, chain[i].end, chain[i + 1].end)
    ensures var report := ReconcileAccount(account, Closings(chain), Bridges(txns, account, chain));
            && report.account == account && report.checkedPairs == |chain| - 1
            && report.offPairs == |OffUpTo(Closings(chain), Bridges(txns, account, chain), |chain| - 1)|
            && report.status == if report.offPairs == 0 then Reconciled else Off
  {
    var n := |chain| - 1;
    OffPairsCounted(Closings(chain), Bridges(txns, account, chain), n);
    GapsExplainTheDifference(txns, chain, account, n, chain[n].end);
    EmptyWindow(txns, account, chain[n].end);
  }

  lemma {:induction false} EmptyWindow(txns: seq<Txn>, account: int, day: int)
    ensures SumAfter(txns, account, day, day) == 0
  {
    if txns != [] {
      EmptyWindow(txns[1..], account, day);
    }
  }

  lemma {:induction false} NoneOffUpTo(closings: seq<int>, bridges: seq<int>, n: nat)
    requires |bridges| + 1 == |closings| && n <= |bridges|
    ensures CountOff(closings, bridges, n) == 0 <==> forall k :: 0 <= k <= n ==> SumGaps(closings, bridges, k) == 0
  {
    if n > 0 {
      NoneOffUpTo(closings, bridges, n - 1);
      assert SumGaps(closings, bridges, n) == SumGaps(closings, bridges, n - 1) + Gap(closings, bridges, n - 1);
    }
  }

  function RunningGaps(closings: seq<int>, bridges: seq<int>): seq<int>
    requires |bridges| + 1 == |closings|
  {
    seq(|closings|, k requires 0 <= k < |closings| => SumGaps(closings, bridges, k))
  }

  lemma NoneOffMeansNoGaps(closings: seq<int>, bridges: seq<int>)
    requires |bridges| + 1 == |closings|
    ensures var gaps := RunningGaps(closings, bridges);
            CountOff(closings, bridges, |bridges|) == 0 <==> forall k :: 0 <= k < |gaps| ==> gaps[k] == 0
  {
    var gaps := RunningGaps(closings, bridges);
    NoneOffUpTo(closings, bridges, |bridges|);
    if CountOff(closings, bridges, |bridges|) == 0 {
      forall k | 0 <= k < |gaps| ensures gaps[k] == 0 {
        assert SumGaps(closings, bridges, k) == 0;
      }
    } else {
      var k :| 0 <= k <= |bridges| && SumGaps(closings, bridges, k) != 0;
      assert gaps[k] != 0;
    }
  }

  /** An account is RECONCILED exactly when every one of its statements, rolled forward to any
      day on or after the last statement's end, gives the balance the forecast anchors on. */
  lemma ReconciledIffEveryStatementAgrees(txns: seq<Txn>, periods: seq<Period>, account: Account, today: int)
    requires forall p, q :: p in periods && q in periods && p.id == q.id ==> p == q
    requires Supported(account.kind) && |Chain(periods, account.id)| >= 2
    requires Latest(periods, account.id).Some? ==> Latest(periods, account.id).value.end <= today
    ensures Latest(periods, account.id).Some? && Latest(periods, account.id).value.closing.Some?
    ensures ReportFor(txns, periods, account).status == Reconciled <==>
              forall p :: p in Chain(periods, account.id) ==>
                RolledForward(txns, p, today) == RolledForward(txns, Latest(periods, account.id).value, today)
  {
    ChainEndsAtLatest(periods, account.id);
    ReconciledIffAllAgree(txns, Chain(periods, account.id), account.id, today);
  }

  lemma ReconciledIffAllAgree(txns: seq<Txn>, chain: seq<Period>, account: int, today: int)
    requires IsChain(chain, account) && |chain| >= 2 && chain[|chain| - 1].end <= today
    requires forall p :: p in chain ==> p.closing.Some?
    ensures ReconcileAccount(account, Closings(chain), Bridges(txns, account, chain)).status == Reconciled <==>
              forall p :: p in chain ==> RolledForward(txns, p, today) == RolledForward(txns, chain[|chain| - 1], today)
  {
    var n := |chain| - 1;
    var cs, bs := Closings(chain), Bridges(txns, account, chain);
    var gaps := RunningGaps(cs, bs);
    NoneOffMeansNoGaps(cs, bs);
    forall k | 0 <= k <= n
      ensures RolledForward(txns, chain[k], today) - RolledForward(txns, chain[0], today) == gaps[k]
    {
      GapsExplainTheDifference(txns, chain, account, k, today);
    }
    AllEqualIffNoGaps(txns, chain, gaps, today);
  }

  lemma AllEqualIffNoGaps(txns: seq<Txn>, chain: seq<Period>, gaps: seq<int>, today: int)
    requires |chain| == |gaps| > 0 && forall p :: p in chain ==> p.closing.Some?
    requires forall k :: 0 <= k < |gaps| ==>
               RolledForward(txns, chain[k], today) - RolledForward(txns, chain[0], today) == gaps[k]
    ensures (forall k :: 0 <= k < |gaps| ==> gaps[k] == 0) <==>
            (forall p :: p in chain ==> RolledForward(txns, p, today) == RolledForward(txns, chain[|chain| - 1], today))
  {
    var n := |chain| - 1;
    if forall p :: p in chain ==> RolledForward(txns, p, today) == RolledForward(txns, chain[n], today) {
      assert chain[0] in chain;
    }
    if forall k :: 0 <= k < |gaps| ==> gaps[k] == 0 {
      forall p | p in chain ensures RolledForward(txns, p, today) == RolledForward(txns, chain[n], today) {
        var k :| 0 <= k < |chain| && chain[k] == p;
        assert gaps[k] == 0 && gaps[n] == 0;
      }
    }
  }

  // ----- the forecast's anchor -----

  /** Whether an account contributes: a cash account with a recorded closing balance. */
  predicate Contributes(periods: seq<Period>, account: Account) {
    Supported(account.kind) && Latest(periods, account.id).Some?
  }

  /** The contributing accounts' balances, each rolled forward from the statement `pick` names. */
  function SumRolled(txns: seq<Txn>, periods: seq<Period>, accounts: seq<Account>, pick: int -> Option<Period>,
                     today: int): int {
    if accounts == [] then 0
    else
      var n := |accounts| - 1;
      var p := pick(accounts[n].id);
      SumRolled(txns, periods, accounts[..n], pick, today)
      + if Contributes(periods, accounts[n]) && p.Some? && p.value.closing.Some?
        then RolledForward(txns, p.value, today) else 0
  }

  function LatestOf(periods: seq<Period>): int -> Option<Period> {
    (account: int) => Latest(periods, account)
  }

  /** One contributing account's part in the anchor. */
  datatype AnchorSource =
    AnchorSource(account: int, name: string, statementBalance: int, asOf: int, sinceCount: nat, current: int)

  function CurrentOf(): AnchorSource -> int {
    (s: AnchorSource) => s.current
  }

  /** `s` tells of account `a`: its latest balance, and what has been rolled in since. */
  ghost predicate IsSource(txns: seq<Txn>, periods: seq<Period>, a: Account, today: int, s: AnchorSource) {
    var p := Latest(periods, a.id);
    && p.Some? && p.value.closing.Some? && s.account == a.id && s.name == a.name
    && s.statementBalance == p.value.closing.value && s.asOf == p.value.end
    && s.sinceCount == CountAfter(txns, a.id, p.value.end, today)
    && s.current == RolledForward(txns, p.value, today)
  }

  /** The accounts that contribute, in order. */
  function Contributing(periods: seq<Period>, accounts: seq<Account>): seq<Account> {
    if accounts == [] then []
    else
      var n := |accounts| - 1;
      Contributing(periods, accounts[..n]) + if Contributes(periods, accounts[n]) then [accounts[n]] else []
  }

  ghost predicate AreSources(txns: seq<Txn>, periods: seq<Period>, accounts: seq<Account>, today: int,
                             sources: seq<AnchorSource>) {
    |sources| == |accounts| && forall i :: 0 <= i < |sources| ==>
        IsSource(txns, periods, accounts[i], today, sources[i])
  }

  /** They are the current and savings accounts with some recorded closing balance. */
  lemma {:induction false} ContributingAre(periods: seq<Period>, accounts: seq<Account>, a: Account)
    ensures a in Contributing(periods, accounts) <==>
              && a in accounts && (a.kind.Current? || a.kind.Savings?)
              && exists p :: p in periods && p.account == a.id && p.closing.Some?
    decreases |accounts|
  {
    if accounts != [] {
      var n := |accounts| - 1;
      assert accounts == accounts[..n] + [accounts[n]];
      ContributingAre(periods, accounts[..n], a);
      LatestHasABalance(periods, a.id);
    }
  }

  /** `_anchor`: the balance and where it comes from, `None` without a contributing account. */
  method Anchor(txns: seq<Txn>, periods: seq<Period>, accounts: seq<Account>, today: int)
      returns (anchor: Option<int>, sources: seq<AnchorSource>)
    ensures AreSources(txns, periods, Contributing(periods, accounts), today, sources)
    ensures anchor.Some? <==> sources != []
    ensures anchor.Some? ==> anchor.value == Sum(CurrentOf(), sources)
    ensures anchor.Some? ==> anchor.value == SumRolled(txns, periods, accounts, LatestOf(periods), today)
  {
    var total := 0;
    sources := [];
    for i := 0 to |accounts|
      invariant AreSources(txns, periods, Contributing(periods, accounts[..i]), today, sources)
      invariant total == Sum(CurrentOf(), sources)
      invariant total == SumRolled(txns, periods, accounts[..i], LatestOf(periods), today)
    {
      assert accounts[..i + 1][..i] == accounts[..i];
      var source := SourceFor(txns, periods, accounts[i], today);
      if source.Some? {
        SumNext(CurrentOf(), sources, source.value);
        total := total + source.value.current;
        sources := sources + [source.value];
      }
    }
    assert accounts[..|accounts|] == accounts;
    anchor := if sources == [] then None else Some(total);
  }

  /** One turn: the source of a cash account with a recorded balance. */
  method SourceFor(txns: seq<Txn>, periods: seq<Period>, account: Account, today: int) returns (s: Option<AnchorSource>)
    ensures s.Some? <==> Contributes(periods, account)
    ensures s.Some? ==> IsSource(txns, periods, account, today, s.value)
  {
    var latest := Latest(periods, account.id);
    if !Supported(account.kind) || latest.None? {
      return None;
    }
    LatestHasABalance(periods, account.id);
    var p := latest.value;
    var roll, count := SumAfter(txns, account.id, p.end, today), CountAfter(txns, account.id, p.end, today);
    s := Some(AnchorSource(account.id, account.name, p.closing.value, p.end, count, p.closing.value + roll));
  }

  lemma LatestHasABalance(periods: seq<Period>, account: int)
    ensures var p := Latest(periods, account); p.Some? ==> p.value.closing.Some? && p.value.account == account
    ensures var p := Latest(periods, account);
            p.Some? ==> p.value in periods
                        && forall q :: q in periods && q.account == account && q.closing.Some? ==>
                             q.end < p.value.end || (q.end == p.value.end && q.id <= p.value.id)
    ensures Latest(periods, account).None? ==> forall q :: q in periods && q.account == account ==> q.closing.None?
  {
    SortSorts(ByEndDescending, Bearing(periods, account));
    SortPermutes(ByEndDescending, Bearing(periods, account));
    BearingIsFilter(periods, account);
    SortKeepsElements(ByEndDescending, Bearing(periods, account));
    var ranked := Sort(ByEndDescending, Bearing(periods, account));
    assert ranked != [] ==> ranked[0] in ranked;
  }

  /** `pick` names some recorded statement of every contributing account. */
  ghost predicate PicksStatements(periods: seq<Period>, accounts: seq<Account>, pick: int -> Option<Period>) {
    forall a :: a in accounts && Contributes(periods, a) ==>
        pick(a.id).Some? && pick(a.id).value in Chain(periods, a.id)
  }

  /** Where every contributing account with two statements or more is RECONCILED, the anchor does not
      depend on which recorded statement of each account it is rolled forward from. */
  lemma {:induction false} AnchorFromAnyStatements(txns: seq<Txn>, periods: seq<Period>, accounts: seq<Account>,
                                                   pick: int -> Option<Period>, today: int)
    requires forall p, q :: p in periods && q in periods && p.id == q.id ==> p == q
    requires forall p :: p in periods ==> p.end <= today
    requires PicksStatements(periods, accounts, pick)
    requires forall a :: a in accounts && Contributes(periods, a) && |Chain(periods, a.id)| >= 2 ==>
               ReportFor(txns, periods, a).status == Reconciled
    ensures SumRolled(txns, periods, accounts, pick, today)
              == SumRolled(txns, periods, accounts, LatestOf(periods), today)
    decreases |accounts|
  {
    if accounts != [] {
      var n := |accounts| - 1;
      assert accounts == accounts[..n] + [accounts[n]];
      AnchorFromAnyStatements(txns, periods, accounts[..n], pick, today);
      if Contributes(periods, accounts[n]) {
        OneAnchor(txns, periods, accounts[n], pick(accounts[n].id).value, today);
      }
    }
  }

  lemma OneAnchor(txns: seq<Txn>, periods: seq<Period>, account: Account, p: Period, today: int)
    requires forall p, q :: p in periods && q in periods && p.id == q.id ==> p == q
    requires forall q :: q in periods ==> q.end <= today
    requires Contributes(periods, account) && p in Chain(periods, account.id)
    requires |Chain(periods, account.id)| >= 2 ==> ReportFor(txns, periods, account).status == Reconciled
    ensures Latest(periods, account.id).value.closing.Some?
    ensures RolledForward(txns, p, today) == RolledForward(txns, Latest(periods, account.id).value, today)
  {
    LatestHasABalance(periods, account.id);
    ChainEndsAtLatest(periods, account.id);
    if |Chain(periods, account.id)| >= 2 {
      ReconciledIffEveryStatementAgrees(txns, periods, account, today);
    }
  }
}
