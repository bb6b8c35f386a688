/** The vault's tables as maps, each SQL write as its set-level effect (`repositories/`).

    Dates are day ordinals: stored ISO dates compare as their days do. */
module Ledger {
  import opened Wrappers
  import opened Sequences

  datatype Txn = Txn(account: nat, day: int, amount: int, description: string, stamp: Option<nat>)

  /** A coverage period; `closing` is the statement's printed closing balance, if any. */
  datatype Period = Period(account: nat, start: int, end: int, closing: Option<int>)

  /** A decision about two transactions, `a < b`. */
  datatype Pair = Pair(a: nat, b: nat, confirmed: bool)

  datatype Books = Books(txns: map<nat, Txn>, periods: map<nat, Period>, pairs: map<nat, Pair>)

  // ----- row ids -----

  /** The id SQLite gives a new row. */
  function NextId<T>(rows: map<nat, T>): (id: nat)
    ensures id !in rows && id > 0
    ensures forall row :: row in rows ==> row < id
    ensures if rows.Keys == {} then id == 1 else id - 1 in rows
  {
    MaxId(rows.Keys) + 1
  }

  /** Rows inserted one after another. */
  function Appended<T>(table: map<nat, T>, rows: seq<T>): map<nat, T>
    decreases |rows|
  {
    if rows == [] then table else Appended(table[NextId(table) := rows[0]], rows[1..])
  }

  // ----- predicates of the queries -----

  predicate Covers(p: Period, t: Txn) {
    p.account == t.account && p.start <= t.day <= p.end
  }

  predicate IsSpan(p: Period, account: nat, start: int, end: int) {
    p.account == account && p.start == start && p.end == end
  }

  /** The id that holds a span: one of the matching ids, of which there is at most one. */
  function SpanId(periods: map<nat, Period>, account: nat, start: int, end: int): (id: Option<nat>)
    ensures id.Some? ==>
              id.value in periods && IsSpan(periods[id.value], account, start, end)
              && periods[id.value].account == account
              && periods[id.value].start == start && periods[id.value].end == end
    ensures id.None? ==>
              forall p :: p in periods ==>
                !IsSpan(periods[p], account, start, end)
                && !(periods[p].account == account && periods[p].start == start && periods[p].end == end)
  {
    var found := set p | p in periods && IsSpan(periods[p], account, start, end);
    assert forall p :: p in periods && IsSpan(periods[p], account, start, end) ==> p in found;
    if found == {} then None else Some(MaxId(found))
  }

  /** The statements that cover `t` and are not being deleted. */
  function Covering(periods: map<nat, Period>, deleting: set<nat>, t: Txn): set<nat> {
    set q | q in periods && q !in deleting && Covers(periods[q], t)
  }

  /** The order in which `hand_off_covered` picks a statement. */
  predicate Earlier(periods: map<nat, Period>, p: nat, q: nat)
    requires p in periods && q in periods
  {
    periods[p].start < periods[q].start || (periods[p].start == periods[q].start && p <= q)
  }

  /** `e` is the first of `s`. */
  predicate IsEarliest(periods: map<nat, Period>, s: set<nat>, e: nat)
    requires s <= periods.Keys
  {
    e in s && forall q :: q in s ==> Earlier(periods, e, q)
  }

  lemma {:induction false} HasEarliest(periods: map<nat, Period>, s: set<nat>) returns (first: nat)
    requires s != {} && s <= periods.Keys
    ensures IsEarliest(periods, s, first)
    decreases |s|
  {
    var x :| x in s;
    var rest := s - {x};
    if rest == {} {
      assert s == {x};
      first := x;
    } else {
      var e := HasEarliest(periods, rest);
      first := if Earlier(periods, x, e) then x else e;
      forall q | q in s ensures Earlier(periods, first, q) {
        assert q == x || q in rest;
      }
    }
  }

  function Earliest(periods: map<nat, Period>, s: set<nat>): (e: nat)
    requires s != {} && s <= periods.Keys
    ensures IsEarliest(periods, s, e)
  {
    assert exists e :: IsEarliest(periods, s, e) by {
      var first := HasEarliest(periods, s);
    }
    var e :| IsEarliest(periods, s, e);
    e
  }

  /** `q` is the statement a row is handed to when the statements `deleting` go: a survivor of the row's
      account that covers its date, first by (start, id). */
  ghost predicate IsHeir(periods: map<nat, Period>, deleting: set<nat>, t: Txn, q: nat) {
    && Survives(periods, deleting, t, q)
    && forall r :: Survives(periods, deleting, t, r) ==>
         periods[q].start < periods[r].start || (periods[q].start == periods[r].start && q <= r)
  }

  /** `q` is not being deleted, is of the row's account, and its first and last day enclose the row's. */
  ghost predicate Survives(periods: map<nat, Period>, deleting: set<nat>, t: Txn, q: nat) {
    q in periods && q !in deleting && periods[q].account == t.account
        && periods[q].start <= t.day && t.day <= periods[q].end
  }

  lemma SurvivorsCover(periods: map<nat, Period>, deleting: set<nat>, t: Txn)
    ensures forall q :: q in Covering(periods, deleting, t) <==> Survives(periods, deleting, t, q)
    ensures Covering(periods, deleting, t) == {} <==> forall q :: !Survives(periods, deleting, t, q)
  {
    assert forall q :: q in Covering(periods, deleting, t) <==> Survives(periods, deleting, t, q);
    if Covering(periods, deleting, t) != {} {
      var q :| q in Covering(periods, deleting, t);
      assert Survives(periods, deleting, t, q);
    }
  }

  function Stamped(txns: map<nat, Txn>, ids: set<nat>): set<nat> {
    set t | t in txns && txns[t].stamp.Some? && txns[t].stamp.value in ids
  }

  /** The rows of a batch that no surviving statement covers. */
  function Orphans(b: Books, ids: set<nat>): set<nat> {
    set t | t in Stamped(b.txns, ids) && Covering(b.periods, ids, b.txns[t]) == {}
  }

  /** The rows of a batch that a surviving statement covers. */
  function Shared(b: Books, ids: set<nat>): set<nat> {
    set t | t in Stamped(b.txns, ids) && Covering(b.periods, ids, b.txns[t]) != {}
  }

  ghost predicate IsStampedTo(txns: map<nat, Txn>, ids: set<nat>, t: nat) {
    t in txns && exists id :: id in ids && txns[t].stamp == Some(id)
  }

  /** The rows of a batch by whether some survivor's days enclose theirs. */
  ghost function WithoutSurvivor(b: Books, ids: set<nat>): set<nat> {
    set t | t in b.txns && IsStampedTo(b.txns, ids, t) && forall q :: !Survives(b.periods, ids, b.txns[t], q)
  }

  ghost function WithSurvivor(b: Books, ids: set<nat>): set<nat> {
    set t | t in b.txns && IsStampedTo(b.txns, ids, t) && exists q :: Survives(b.periods, ids, b.txns[t], q)
  }

  lemma SplitSpelledOut(b: Books, ids: set<nat>)
    ensures Orphans(b, ids) == WithoutSurvivor(b, ids) && Shared(b, ids) == WithSurvivor(b, ids)
  {
    forall t | t in b.txns
      ensures Covering(b.periods, ids, b.txns[t]) == {} <==> forall q :: !Survives(b.periods, ids, b.txns[t], q)
    {
      SurvivorsCover(b.periods, ids, b.txns[t]);
    }
  }

  lemma TakenOut(s: set<nat>, todo: set<nat>, t: nat)
    requires t in todo
    ensures |s * (todo - {t})| == |s * todo| - if t in s then 1 else 0
  {
    if t in s {
      assert s * (todo - {t}) == s * todo - {t};
    } else {
      assert s * (todo - {t}) == s * todo;
    }
  }

  /** The rows of one statement that a survivor covers. */
  function CoveredRows(txns: map<nat, Txn>, periods: map<nat, Period>, id: nat, deleting: set<nat>): set<nat> {
    set t | t in Stamped(txns, {id}) && Covering(periods, deleting, txns[t]) != {}
  }

  /** The pairs left when rows are deleted: both foreign keys cascade. */
  function Cascade(pairs: map<nat, Pair>, txns: map<nat, Txn>): map<nat, Pair> {
    map p | p in pairs && pairs[p].a in txns && pairs[p].b in txns :: pairs[p]
  }

  predicate Decides(pair: Pair, x: nat, y: nat) {
    (pair.a == x && pair.b == y) || (pair.a == y && pair.b == x)
  }

  predicate Touches(pair: Pair, t: nat) {
    pair.a == t || pair.b == t
  }

  predicate IsConfirmed(pairs: map<nat, Pair>, t: nat) {
    exists p :: p in pairs && pairs[p].confirmed && Touches(pairs[p], t)
  }

  predicate IsDecided(pairs: map<nat, Pair>, x: nat, y: nat) {
    exists p :: p in pairs && Decides(pairs[p], x, y)
  }

  // ----- what every operation keeps -----

  /** A stamp names an existing period of the row's own account. */
  ghost predicate StampsResolve(b: Books) {
    forall t :: t in b.txns && b.txns[t].stamp.Some? ==>
      b.txns[t].stamp.value in b.periods && b.periods[b.txns[t].stamp.value].account == b.txns[t].account
  }

  /** One period a span, and none ends before it starts. */
  ghost predicate SpansUnique(periods: map<nat, Period>) {
    && (forall p, q :: p in periods && q in periods && p != q ==>
         !(periods[p].account == periods[q].account && periods[p].start == periods[q].start
             && periods[p].end == periods[q].end))
    && (forall p :: p in periods ==> periods[p].start <= periods[p].end)
  }

  /** Decisions name existing transactions in canonical order, one decision a pair. */
  ghost predicate PairsCanonical(b: Books) {
    && (forall p :: p in b.pairs ==> b.pairs[p].a < b.pairs[p].b && b.pairs[p].a in b.txns && b.pairs[p].b in b.txns)
    && (forall p, q :: p in b.pairs && q in b.pairs && p != q ==> !Decides(b.pairs[p], b.pairs[q].a, b.pairs[q].b))
  }

  predicate Transferable(t: Txn, u: Txn) {
    t.amount == -u.amount && t.amount != 0 && t.account != u.account
  }

  /** A confirmed pair joins opposite amounts in two different accounts, and no transaction is in
      two confirmed pairs. */
  ghost predicate TransfersSound(b: Books)
    requires PairsCanonical(b)
  {
    && (forall p :: p in b.pairs && b.pairs[p].confirmed ==> Transferable(b.txns[b.pairs[p].a], b.txns[b.pairs[p].b]))
    && (forall p, q, t :: (p in b.pairs && q in b.pairs && b.pairs[p].confirmed && b.pairs[q].confirmed
                           && Touches(b.pairs[p], t) && Touches(b.pairs[q], t)) ==> p == q)
  }

  ghost predicate Sound(b: Books) {
    StampsResolve(b) && SpansUnique(b.periods) && PairsCanonical(b) && TransfersSound(b)
  }

  // ----- the tables in memory -----

  class Tables {
    var txns: map<nat, Txn>
    var periods: map<nat, Period>
    var pairs: map<nat, Pair>

    constructor (b: Books)
      ensures Now() == b
    {
      txns, periods, pairs := b.txns, b.periods, b.pairs;
    }

    ghost function Now(): Books
      reads this
    {
      Books(txns, periods, pairs)
    }

    /** `TransactionRepository.add`: a hand-entered row has no stamp. */
    method Add(account: nat, day: int, amount: int, description: string) returns (id: nat)
      modifies this`txns
      ensures id == NextId(old(txns)) && txns == old(txns)[id := Txn(account, day, amount, description, None)]
    {
      id := NextId(txns);
      txns := txns[id := Txn(account, day, amount, description, None)];
    }

    /** `TransactionRepository.add_batch`, one row after another. */
    method AddBatch(rows: seq<Txn>)
      modifies this`txns
      ensures txns == Appended(old(txns), rows)
    {
      for i := 0 to |rows|
        invariant Appended(txns, rows[i..]) == Appended(old(txns), rows)
      {
        assert rows[i..][1..] == rows[i + 1..];
        txns := txns[NextId(txns) := rows[i]];
      }
      assert rows[|rows|..] == [];
    }

    /** `StatementPeriodRepository.id_for_span`. */
    method IdForSpan(account: nat, start: int, end: int) returns (id: Option<nat>)
      ensures id == SpanId(periods, account, start, end)
      ensures id.Some? <==>
                exists p :: p in periods && periods[p].account == account
                    && periods[p].start == start && periods[p].end == end
      ensures id.Some? ==> id.value in periods && periods[id.value].account == account
                           && periods[id.value].start == start && periods[id.value].end == end
    {
      var found := set p | p in periods && IsSpan(periods[p], account, start, end);
      id := if found == {} then None else Some(MaxId(found));
    }

    /** `StatementPeriodRepository.add`. */
    method AddPeriod(p: Period) returns (id: nat)
      modifies this`periods
      ensures id == NextId(old(periods)) && periods == old(periods)[id := p]
    {
      id := NextId(periods);
      periods := periods[id := p];
    }

    /** `update_closing_balance`: fills a missing balance, never overwrites one. */
    method UpdateClosingBalance(id: nat, balance: int) returns (mismatch: bool)
      modifies this`periods
      ensures periods.Keys == old(periods).Keys && forall p :: p in periods && p != id ==> periods[p] == old(periods)[p]
      ensures id in periods ==>
                var was := old(periods)[id];
                periods[id] == Period(was.account, was.start, was.end,
                                      if was.closing.Some? then was.closing else Some(balance))
      ensures periods == FillClosing(old(periods), id, balance)
      ensures mismatch <==>
                && id in old(periods) && old(periods)[id].closing.Some?
                && old(periods)[id].closing != Some(balance)
    {
      mismatch := false;
      if id !in periods {
        return;
      }
      if periods[id].closing.None? {
        periods := periods[id := periods[id].(closing := Some(balance))];
      } else if periods[id].closing.value != balance {
        mismatch := true;
      }
    }

    /** `hand_off_covered`: the statement's covered rows go to their heirs, and `rowcount` counts them. */
    method HandOffCovered(id: nat, deleting: set<nat>) returns (rowcount: nat)
      requires id in deleting
      modifies this`txns
      ensures HandsOff(periods, id, deleting, old(txns), txns) && rowcount == |Changed(old(txns), txns)|
      ensures txns == HandedOff(old(txns), periods, id, deleting)
                && rowcount == |CoveredRows(old(txns), periods, id, deleting)|
    {
      rowcount := |CoveredRows(txns, periods, id, deleting)|;
      HandOffHolds(txns, periods, id, deleting);
      txns := HandedOff(txns, periods, id, deleting);
    }

    /** `delete_for_statement`, with the cascade over the pairs. */
    method DeleteForStatement(id: nat) returns (rowcount: nat)
      modifies this`txns, this`pairs
      ensures DropsStamped(id, old(Now()), Now()) && rowcount == |old(txns)| - |txns|
      ensures txns == old(txns) - Stamped(old(txns), {id}) && pairs == Cascade(old(pairs), txns)
      ensures rowcount == |Stamped(old(txns), {id})|
    {
      rowcount := |Stamped(txns, {id})|;
      RemovedCount(txns, Stamped(txns, {id}));
      txns := txns - Stamped(txns, {id});
      pairs := Cascade(pairs, txns);
    }

    /** `delete_split_counts`: one pass over the rows stamped to the batch, a counter for each arm. */
    method DeleteSplitCounts(ids: set<nat>) returns (removed: nat, kept: nat)
      ensures removed == |WithoutSurvivor(Now(), ids)| && kept == |WithSurvivor(Now(), ids)|
      ensures removed == |Orphans(Now(), ids)| && kept == |Shared(Now(), ids)|
    {
      removed, kept := 0, 0;
      var todo := Stamped(txns, ids);
      assert Orphans(Now(), ids) * todo == Orphans(Now(), ids);
      assert Shared(Now(), ids) * todo == Shared(Now(), ids);
      while todo != {}
        invariant todo <= Stamped(txns, ids)
        invariant removed + |Orphans(Now(), ids) * todo| == |Orphans(Now(), ids)|
        invariant kept + |Shared(Now(), ids) * todo| == |Shared(Now(), ids)|
        decreases |todo|
      {
        var t :| t in todo;
        TakenOut(Orphans(Now(), ids), todo, t);
        TakenOut(Shared(Now(), ids), todo, t);
        if Covering(periods, ids, txns[t]) == {} {
          removed := removed + 1;
        } else {
          kept := kept + 1;
        }
        todo := todo - {t};
      }
      SplitSpelledOut(Now(), ids);
    }

    /** `StatementPeriodRepository.delete`: the foreign key refuses while a row is stamped to it. */
    method DeletePeriod(id: nat)
      requires Stamped(txns, {id}) == {}
      modifies this`periods
      ensures periods == old(periods) - {id}
    {
      periods := periods - {id};
    }

    /** `StatementPeriodRepository.set_account`. */
    method SetPeriodAccount(id: nat, account: nat)
      modifies this`periods
      ensures periods.Keys == old(periods).Keys && forall p :: p in periods && p != id ==> periods[p] == old(periods)[p]
      ensures id in periods ==>
                var was := old(periods)[id]; periods[id] == Period(account, was.start, was.end, was.closing)
      ensures periods == MovedPeriod(old(periods), id, account)
    {
      periods := MovedPeriod(periods, id, account);
    }

    /** `TransactionRepository.reassign_account`. */
    method ReassignTransactions(id: nat, account: nat) returns (rowcount: nat)
      modifies this`txns
      ensures txns.Keys == old(txns).Keys
      ensures forall t :: t in txns ==>
                var was := old(txns)[t];
                txns[t] == if was.stamp != Some(id) then was
                           else Txn(account, was.day, was.amount, was.description, was.stamp)
      ensures txns == MovedRows(old(txns), id, account)
      ensures rowcount == |Stamped(old(txns), {id})|
    {
      rowcount := |Stamped(txns, {id})|;
      txns := MovedRows(txns, id, account);
    }

    /** `add_decision`: canonical order; the caller has checked that the pair is undecided. */
    method AddDecision(x: nat, y: nat, confirmed: bool)
      requires x != y && x in txns && y in txns && !IsDecided(pairs, x, y)
      modifies this`pairs
      ensures exists p: nat :: p !in old(pairs)
                && pairs == old(pairs)[p := if x < y then Pair(x, y, confirmed) else Pair(y, x, confirmed)]
      ensures pairs == Decided(old(pairs), x, y, confirmed)
    {
      pairs := Decided(pairs, x, y, confirmed);
    }

    /** `delete_confirmed`: a rejected or absent id is left alone. */
    method DeleteConfirmed(id: nat)
      modifies this`pairs
      ensures forall p :: p in pairs <==> p in old(pairs) && !(p == id && old(pairs)[p].confirmed)
      ensures forall p :: p in pairs ==> pairs[p] == old(pairs)[p]
      ensures pairs == Unlinked(old(pairs), id)
    {
      pairs := Unlinked(pairs, id);
    }

    /** `delete_confirmed_joined_by_move`: unlinks the confirmed pairs that moving the statement's rows
        would put in one account. */
    method DeleteConfirmedJoinedByMove(id: nat, account: nat) returns (rowcount: nat)
      requires forall p :: p in pairs ==> pairs[p].a in txns && pairs[p].b in txns
      modifies this`pairs
      ensures StampsResolve(old(Now())) ==> Unjoins(old(Now()), pairs, MovedRows(txns, id, account))
      ensures rowcount == |old(pairs)| - |pairs|
      ensures pairs == old(pairs) - JoinedByMove(old(pairs), txns, id, account)
    {
      var joined := JoinedByMove(pairs, txns, id, account);
      if StampsResolve(Now()) {
        JoinedIff(Now(), id, account);
      }
      RemovedCount(pairs, joined);
      rowcount := |joined|;
      pairs := pairs - joined;
    }
  }

  // ----- the writes as functions of the tables -----

  function FillClosing(periods: map<nat, Period>, id: nat, balance: int): map<nat, Period> {
    if id in periods && periods[id].closing.None? then periods[id := periods[id].(closing := Some(balance))]
    else periods
  }

  function HandedOff(txns: map<nat, Txn>, periods: map<nat, Period>, id: nat, deleting: set<nat>): map<nat, Txn> {
    map t | t in txns ::
      if txns[t].stamp == Some(id) && Covering(periods, deleting, txns[t]) != {}
      then txns[t].(stamp := Some(Earliest(periods, Covering(periods, deleting, txns[t]))))
      else txns[t]
  }

  function MovedPeriod(periods: map<nat, Period>, id: nat, account: nat): map<nat, Period> {
    if id in periods then periods[id := periods[id].(account := account)] else periods
  }

  function MovedRows(txns: map<nat, Txn>, id: nat, account: nat): map<nat, Txn> {
    map t | t in txns :: if txns[t].stamp == Some(id) then txns[t].(account := account) else txns[t]
  }

  function Decided(pairs: map<nat, Pair>, x: nat, y: nat, confirmed: bool): map<nat, Pair> {
    pairs[NextId(pairs) := Pair(if x < y then x else y, if x < y then y else x, confirmed)]
  }

  function Unlinked(pairs: map<nat, Pair>, id: nat): map<nat, Pair> {
    if id in pairs && pairs[id].confirmed then pairs - {id} else pairs
  }

  /** A side stamped with the statement and not yet in the account, the other already there. */
  predicate JoinsInto(moved: Txn, other: Txn, id: nat, account: nat) {
    moved.stamp == Some(id) && moved.account != account && other.account == account
  }

  function JoinedByMove(pairs: map<nat, Pair>, txns: map<nat, Txn>, id: nat, account: nat): set<nat> {
    set p | p in pairs && pairs[p].confirmed && pairs[p].a in txns && pairs[p].b in txns
            && (JoinsInto(txns[pairs[p].a], txns[pairs[p].b], id, account)
                || JoinsInto(txns[pairs[p].b], txns[pairs[p].a], id, account))
  }

  // ----- what the writes mean, row by row -----

  /** What handing off the rows of `id` makes of one row. */
  ghost predicate IsHandOff(periods: map<nat, Period>, id: nat, deleting: set<nat>, before: Txn, after: Txn) {
    if before.stamp == Some(id) && exists q :: IsHeir(periods, deleting, before, q)
    then
      && after.stamp.Some? && IsHeir(periods, deleting, before, after.stamp.value)
      && after.(stamp := before.stamp) == before
    else after == before
  }

  ghost predicate HandsOff(periods: map<nat, Period>, id: nat, deleting: set<nat>, before: map<nat, Txn>,
                           after: map<nat, Txn>) {
    after.Keys == before.Keys && forall t :: t in after ==> IsHandOff(periods, id, deleting, before[t], after[t])
  }

  ghost function Changed(before: map<nat, Txn>, after: map<nat, Txn>): set<nat> {
    set t | t in after && t in before && after[t] != before[t]
  }

  /** There is an heir exactly if a survivor covers the row, and it is the earliest of those. */
  lemma HeirIsEarliest(periods: map<nat, Period>, deleting: set<nat>, t: Txn, q: nat)
    ensures IsHeir(periods, deleting, t, q) <==>
              Covering(periods, deleting, t) != {} && q == Earliest(periods, Covering(periods, deleting, t))
  {
    SurvivorsCover(periods, deleting, t);
  }

  lemma HandOffHolds(txns: map<nat, Txn>, periods: map<nat, Period>, id: nat, deleting: set<nat>)
    requires id in deleting
    ensures var after := HandedOff(txns, periods, id, deleting);
            && HandsOff(periods, id, deleting, txns, after)
            && Changed(txns, after) == CoveredRows(txns, periods, id, deleting)
  {
    var after := HandedOff(txns, periods, id, deleting);
    forall t | t in txns
      ensures IsHandOff(periods, id, deleting, txns[t], after[t])
      ensures after[t] != txns[t] <==> txns[t].stamp == Some(id) && Covering(periods, deleting, txns[t]) != {}
    {
      HandOffHoldsOf(txns, periods, id, deleting, t);
    }
  }

  lemma HandOffHoldsOf(txns: map<nat, Txn>, periods: map<nat, Period>, id: nat, deleting: set<nat>, t: nat)
    requires id in deleting && t in txns
    ensures var after := HandedOff(txns, periods, id, deleting);
            && IsHandOff(periods, id, deleting, txns[t], after[t])
            && (after[t] != txns[t] <==> txns[t].stamp == Some(id) && Covering(periods, deleting, txns[t]) != {})
  {
    var covering := Covering(periods, deleting, txns[t]);
    if covering == {} {
      forall q ensures !IsHeir(periods, deleting, txns[t], q) {
        HeirIsEarliest(periods, deleting, txns[t], q);
      }
    } else {
      HeirIsEarliest(periods, deleting, txns[t], Earliest(periods, covering));
    }
  }

  /** Exactly the rows stamped with `id` go, and with them the pairs they are part of. */
  ghost predicate DropsStamped(id: nat, before: Books, after: Books) {
    && (forall t :: t in after.txns <==> t in before.txns && before.txns[t].stamp != Some(id))
    && (forall t :: t in after.txns ==> after.txns[t] == before.txns[t])
    && (forall p :: p in after.pairs <==>
          p in before.pairs && before.pairs[p].a in after.txns && before.pairs[p].b in after.txns)
    && (forall p :: p in after.pairs ==> after.pairs[p] == before.pairs[p])
  }

  lemma RemovedCount<T>(table: map<nat, T>, gone: set<nat>)
    requires gone <= table.Keys
    ensures |table - gone| == |table| - |gone|
  {
    assert (table - gone).Keys == table.Keys - gone;
    assert |table.Keys| == |table| && |(table - gone).Keys| == |table - gone|;
  }

  /** A confirmed pair whose sides are in two accounts before a write and in one after it. */
  ghost predicate IsJoined(pair: Pair, before: map<nat, Txn>, after: map<nat, Txn>)
    requires pair.a in before && pair.b in before && before.Keys == after.Keys
  {
    pair.confirmed && before[pair.a].account != before[pair.b].account && after[pair.a].account == after[pair.b].account
  }

  /** Exactly the pairs that a write of `rows` joins are gone from `left`. */
  ghost predicate Unjoins(before: Books, left: map<nat, Pair>, rows: map<nat, Txn>)
    requires rows.Keys == before.txns.Keys
  {
    && (forall p :: p in left ==> p in before.pairs && left[p] == before.pairs[p])
    && (forall p :: p in before.pairs && before.pairs[p].a in rows && before.pairs[p].b in rows ==>
          (p !in left <==> IsJoined(before.pairs[p], before.txns, rows)))
  }

  lemma JoinedIff(b: Books, id: nat, account: nat)
    requires StampsResolve(b) && forall p :: p in b.pairs ==> b.pairs[p].a in b.txns && b.pairs[p].b in b.txns
    ensures forall p :: p in b.pairs ==>
              (p in JoinedByMove(b.pairs, b.txns, id, account)
               <==> IsJoined(b.pairs[p], b.txns, MovedRows(b.txns, id, account)))
  {
    forall p | p in b.pairs
      ensures p in JoinedByMove(b.pairs, b.txns, id, account)
              <==> IsJoined(b.pairs[p], b.txns, MovedRows(b.txns, id, account))
    {
      var x, y := b.txns[b.pairs[p].a], b.txns[b.pairs[p].b];
      assert x.stamp == y.stamp == Some(id) ==> x.account == y.account;
    }
  }
}
