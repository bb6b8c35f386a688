/** Transfer detection and decisions (`repositories/transfers.py`, `services/transfer_detection.py`). */
module Transfers {
  import opened Wrappers
  import opened Sequences
  import opened Sorting
  import opened Ledger

  const TRANSFER_WINDOW_DAYS := 3

  datatype Match = Match(debit: nat, credit: nat)

  // ----- candidates -----

  /** The match rule, whatever has been decided. */
  predicate Matches(txns: map<nat, Txn>, d: nat, c: nat) {
    && d in txns && c in txns
    && txns[d].amount < 0 < txns[c].amount == -txns[d].amount
    && txns[c].account != txns[d].account
    && txns[d].day - TRANSFER_WINDOW_DAYS <= txns[c].day <= txns[d].day + TRANSFER_WINDOW_DAYS
  }

  predicate IsCandidate(b: Books, d: nat, c: nat) {
    && Matches(b.txns, d, c)
    && !IsConfirmed(b.pairs, d) && !IsConfirmed(b.pairs, c) && !IsDecided(b.pairs, d, c)
  }

  function Candidates(b: Books): set<Match> {
    set d, c | d in b.txns && c in b.txns && IsCandidate(b, d, c) :: Match(d, c)
  }

  function DayOf(txns: map<nat, Txn>, t: nat): int {
    if t in txns then txns[t].day else 0
  }

  /** The query's order: the debit's date, then the two ids. */
  function CandidateLe(txns: map<nat, Txn>): (Match, Match) -> bool {
    (m: Match, n: Match) =>
      var x, y := DayOf(txns, m.debit), DayOf(txns, n.debit);
      x < y || (x == y && (m.debit < n.debit || (m.debit == n.debit && m.credit <= n.credit)))
  }

  /** A debit and a credit of the same size, in two accounts and at most three days apart. */
  ghost predicate AreAMatch(txns: map<nat, Txn>, d: nat, c: nat) {
    && d in txns && c in txns && txns[d].amount < 0 && txns[c].amount == -txns[d].amount
    && txns[c].account != txns[d].account && -3 <= txns[c].day - txns[d].day <= 3
  }

  /** A match neither side of which is in a confirmed pair, and about which nothing has been decided. */
  ghost predicate IsOffered(b: Books, d: nat, c: nat) {
    && AreAMatch(b.txns, d, c)
    && (forall p :: p in b.pairs && b.pairs[p].confirmed ==> b.pairs[p].a !in {d, c} && b.pairs[p].b !in {d, c})
    && (forall p :: p in b.pairs ==> {b.pairs[p].a, b.pairs[p].b} != {d, c})
  }

  /** One match comes before another: by the debit's day, then the debit's id, then the credit's. */
  ghost predicate Precedes(txns: map<nat, Txn>, m: Match, n: Match) {
    && m.debit in txns && n.debit in txns
    && (txns[m.debit].day < txns[n.debit].day
        || (txns[m.debit].day == txns[n.debit].day
            && (m.debit < n.debit || (m.debit == n.debit && m.credit < n.credit))))
  }

  lemma CandidateIffOffered(b: Books, d: nat, c: nat)
    ensures IsCandidate(b, d, c) <==> IsOffered(b, d, c)
    ensures Matches(b.txns, d, c) <==> AreAMatch(b.txns, d, c)
  {
    if Matches(b.txns, d, c) {
      assert IsConfirmed(b.pairs, d) || IsConfirmed(b.pairs, c) <==>
             exists p :: p in b.pairs && b.pairs[p].confirmed && (b.pairs[p].a in {d, c} || b.pairs[p].b in {d, c});
      forall p | p in b.pairs ensures Decides(b.pairs[p], d, c) <==> {b.pairs[p].a, b.pairs[p].b} == {d, c} {
        SamePair(b.pairs[p].a, b.pairs[p].b, d, c);
      }
    }
  }

  lemma SamePair(a: nat, b: nat, d: nat, c: nat)
    requires d != c
    ensures {a, b} == {d, c} <==> (a == d && b == c) || (a == c && b == d)
  {
    if {a, b} == {d, c} {
      assert d in {a, b} && c in {a, b};
    }
  }

  lemma QueryOrder(txns: map<nat, Txn>, pairs: seq<Match>, i: nat, j: nat)
    requires Sorted(CandidateLe(txns), pairs) && NoDuplicates(pairs) && i < j < |pairs|
    requires pairs[i].debit in txns && pairs[j].debit in txns
    ensures Precedes(txns, pairs[i], pairs[j])
  {
    assert CandidateLe(txns)(pairs[i], pairs[j]);
  }

  /** `candidate_pairs`: exactly the matches on offer, once each, in the query's order. */
  method CandidatePairs(db: Tables) returns (pairs: seq<Match>)
    ensures forall m :: m in pairs <==> IsOffered(db.Now(), m.debit, m.credit)
    ensures forall i, j :: 0 <= i < j < |pairs| ==> Precedes(db.txns, pairs[i], pairs[j])
    ensures Sorted(CandidateLe(db.txns), pairs) && NoDuplicates(pairs)
    ensures forall m :: m in pairs <==> m in Candidates(db.Now())
  {
    var todo := Candidates(Books(db.txns, db.periods, db.pairs));
    var rows: seq<Match> := [];
    while todo != {}
      invariant NoDuplicates(rows) && forall m :: m in rows ==> m !in todo
      invariant forall m :: m in Candidates(db.Now()) <==> m in rows || m in todo
      decreases |todo|
    {
      var m :| m in todo;
      rows, todo := rows + [m], todo - {m};
    }
    var le := CandidateLe(db.txns);
    SortSorts(le, rows);
    SortKeepsElements(le, rows);
    DuplicateFreeSort(le, rows);
    pairs := Sort(le, rows);
    forall m ensures m in pairs <==> m in Candidates(db.Now()) {
      assert m in pairs <==> m in rows;
    }
    CandidatesSpelledOut(db.Now(), pairs);
  }

  lemma CandidatesSpelledOut(b: Books, pairs: seq<Match>)
    requires Sorted(CandidateLe(b.txns), pairs) && NoDuplicates(pairs)
    requires forall m :: m in pairs <==> m in Candidates(b)
    ensures forall m :: m in pairs <==> IsOffered(b, m.debit, m.credit)
    ensures forall i, j :: 0 <= i < j < |pairs| ==> Precedes(b.txns, pairs[i], pairs[j])
  {
    forall m: Match ensures m in pairs <==> IsOffered(b, m.debit, m.credit) {
      CandidateIffOffered(b, m.debit, m.credit);
      assert m == Match(m.debit, m.credit);
    }
    forall i, j | 0 <= i < j < |pairs| ensures Precedes(b.txns, pairs[i], pairs[j]) {
      assert pairs[i] in pairs && pairs[j] in pairs;
      QueryOrder(b.txns, pairs, i, j);
    }
  }

  /** That order leaves nothing to chance. */
  lemma CandidateOrderIsUnique(txns: map<nat, Txn>, xs: seq<Match>, ys: seq<Match>)
    requires Sorted(CandidateLe(txns), xs) && Sorted(CandidateLe(txns), ys) && NoDuplicates(xs) && NoDuplicates(ys)
    requires forall m :: m in xs <==> m in ys
    ensures xs == ys
  {
    SortedSetIsUnique(CandidateLe(txns), xs, ys);
  }

  // ----- the greedy pass -----

  predicate Shares(m: Match, n: Match) {
    m.debit == n.debit || m.debit == n.credit || m.credit == n.debit || m.credit == n.credit
  }

  /** `m` shares a transaction with one of `ms`. */
  predicate Clashes(ms: seq<Match>, m: Match) {
    exists i :: 0 <= i < |ms| && Shares(ms[i], m)
  }

  /** Taking each pair in turn unless it shares a transaction with one already taken. */
  function Chosen(pairs: seq<Match>): seq<Match> {
    if pairs == [] then []
    else
      var before, m := Chosen(pairs[..|pairs| - 1]), pairs[|pairs| - 1];
      if Clashes(before, m) then before else before + [m]
  }

  /** The table after recording the same decision about each pair in turn. */
  function DecideAll(table: map<nat, Pair>, pairs: seq<Match>, confirmed: bool): map<nat, Pair> {
    if pairs == [] then table
    else
      var m := pairs[|pairs| - 1];
      Decided(DecideAll(table, pairs[..|pairs| - 1], confirmed), m.debit, m.credit, confirmed)
  }

  lemma DecideNext(table: map<nat, Pair>, pairs: seq<Match>, m: Match, confirmed: bool)
    ensures DecideAll(table, pairs + [m], confirmed)
              == Decided(DecideAll(table, pairs, confirmed), m.debit, m.credit, confirmed)
  {
    assert (pairs + [m])[..|pairs|] == pairs;
  }

  lemma ChosenNext(pairs: seq<Match>, i: nat)
    requires i < |pairs|
    ensures Chosen(pairs[..i + 1])
         == if Clashes(Chosen(pairs[..i]), pairs[i]) then Chosen(pairs[..i]) else Chosen(pairs[..i]) + [pairs[i]]
  {
    assert pairs[..i + 1][..i] == pairs[..i];
  }

  /** The ids a list of pairs takes up. */
  function Consumed(ms: seq<Match>): set<nat> {
    (set i | 0 <= i < |ms| :: ms[i].debit) + (set i | 0 <= i < |ms| :: ms[i].credit)
  }

  lemma ClashesIffConsumed(ms: seq<Match>, m: Match)
    ensures Clashes(ms, m) <==> m.debit in Consumed(ms) || m.credit in Consumed(ms)
    ensures Consumed(ms + [m]) == Consumed(ms) + {m.debit, m.credit}
  {
    var more := ms + [m];
    assert more[|ms|] == m;
    assert forall i :: 0 <= i < |ms| ==> more[i] == ms[i];
    forall x ensures x in Consumed(more) <==> x in Consumed(ms) + {m.debit, m.credit} {
    }
  }

  /** Which pairs may be recorded: existing rows, undecided. */
  ghost predicate Recordable(b: Books, m: Match) {
    m.debit in b.txns && m.credit in b.txns && m.debit != m.credit && !IsDecided(b.pairs, m.debit, m.credit)
  }

  /** `confirm_many`: no step violates the unique-pair constraint. */
  method ConfirmMany(db: Tables, pairs: seq<Match>) returns (count: nat)
    requires forall m :: m in pairs ==> Recordable(db.Now(), m)
    modifies db`pairs
    ensures db.pairs == DecideAll(old(db.pairs), Chosen(pairs), true)
    ensures count == |Chosen(pairs)|
  {
    var consumed: set<nat> := {};
    count := 0;
    for i := 0 to |pairs|
      invariant consumed == Consumed(Chosen(pairs[..i])) && count == |Chosen(pairs[..i])|
      invariant db.pairs == DecideAll(old(db.pairs), Chosen(pairs[..i]), true)
    {
      var m := pairs[i];
      ChosenNext(pairs, i);
      ClashesIffConsumed(Chosen(pairs[..i]), m);
      if m.debit in consumed || m.credit in consumed {
        continue;
      }
      assert m in pairs && Recordable(old(db.Now()), m);
      ghost var chosen := Chosen(pairs[..i]);
      forall j | 0 <= j < |chosen| ensures chosen[j] != m && chosen[j] != Match(m.credit, m.debit) {
        assert !Shares(chosen[j], m);
      }
      StillUndecided(old(db.pairs), chosen, true, m);
      DecideNext(old(db.pairs), chosen, m, true);
      db.AddDecision(m.debit, m.credit, true);
      consumed := consumed + {m.debit, m.credit};
      count := count + 1;
    }
    assert pairs[..|pairs|] == pairs;
  }

  /** `reject_many` over distinct pairs. */
  method RejectMany(db: Tables, pairs: seq<Match>) returns (count: nat)
    requires forall m :: m in pairs ==> Recordable(db.Now(), m)
    requires forall i, j :: 0 <= i < j < |pairs| ==>
               pairs[i] != pairs[j] && pairs[i] != Match(pairs[j].credit, pairs[j].debit)
    modifies db`pairs
    ensures db.pairs == DecideAll(old(db.pairs), pairs, false)
    ensures count == |pairs|
  {
    count := 0;
    for i := 0 to |pairs|
      invariant count == i && db.pairs == DecideAll(old(db.pairs), pairs[..i], false)
    {
      var m := pairs[i];
      assert pairs[..i + 1] == pairs[..i] + [m];
      assert m in pairs && Recordable(old(db.Now()), m);
      StillUndecided(old(db.pairs), pairs[..i], false, m);
      DecideNext(old(db.pairs), pairs[..i], m, false);
      db.AddDecision(m.debit, m.credit, false);
      count := count + 1;
    }
    assert pairs[..|pairs|] == pairs;
  }

  /** The table holds the confirmed decision about `m`. */
  ghost predicate IsConfirmedPair(pairs: map<nat, Pair>, m: Match) {
    exists p :: p in pairs && pairs[p].confirmed && {pairs[p].a, pairs[p].b} == {m.debit, m.credit}
  }

  /** Of the matches on offer, each is confirmed, or one that comes before it and shares a transaction is. */
  ghost predicate EarlierWins(b: Books, after: map<nat, Pair>) {
    forall m: Match :: IsOffered(b, m.debit, m.credit) ==>
      || IsConfirmedPair(after, m)
      || exists n: Match :: IsOffered(b, n.debit, n.credit) && Precedes(b.txns, n, m) && Shares(n, m)
                            && IsConfirmedPair(after, n)
  }

  /** `confirm_all`: afterwards nothing is left to suggest, and of two matches that share a transaction the
      one with the earlier debit is confirmed. */
  method ConfirmAll(db: Tables) returns (count: nat)
    requires Sound(db.Now())
    modifies db`pairs
    ensures Sound(db.Now()) && Candidates(db.Now()) == {} && EarlierWins(old(db.Now()), db.pairs)
    ensures exists order :: Sorted(CandidateLe(db.txns), order) && NoDuplicates(order)
                            && (forall m :: m in order <==> m in Candidates(old(db.Now())))
                            && db.pairs == DecideAll(old(db.pairs), Chosen(order), true) && count == |Chosen(order)|
  {
    var order := CandidatePairs(db);
    ghost var before := db.Now();
    ConfirmKeepsSound(before, order);
    NothingLeft(before, order);
    EarlierIsConfirmed(before, order);
    count := ConfirmMany(db, order);
  }

  lemma EarlierIsConfirmed(b: Books, order: seq<Match>)
    requires forall m :: m in order <==> IsOffered(b, m.debit, m.credit)
    requires forall i, j :: 0 <= i < j < |order| ==> Precedes(b.txns, order[i], order[j])
    ensures EarlierWins(b, DecideAll(b.pairs, Chosen(order), true))
  {
    var after := DecideAll(b.pairs, Chosen(order), true);
    forall m: Match | IsOffered(b, m.debit, m.credit)
      ensures IsConfirmedPair(after, m)
              || exists n: Match :: IsOffered(b, n.debit, n.credit) && Precedes(b.txns, n, m) && Shares(n, m)
                                    && IsConfirmedPair(after, n)
    {
      var i :| 0 <= i < |order| && order[i] == m;
      var j := FirstOfAClash(order, i);
      ChosenAreConfirmed(b.pairs, Chosen(order), order[j]);
      assert order[j] in order;
    }
  }

  /** A pair passed over clashes with a chosen one that stands before it. */
  lemma {:induction false} FirstOfAClash(pairs: seq<Match>, i: nat) returns (j: nat)
    requires i < |pairs|
    ensures j <= i && pairs[j] in Chosen(pairs) && (j == i || Shares(pairs[j], pairs[i]))
    decreases |pairs|
  {
    var n := |pairs| - 1;
    var before := Chosen(pairs[..n]);
    if i < n {
      j := FirstOfAClash(pairs[..n], i);
      assert before <= Chosen(pairs);
      var k :| 0 <= k < |before| && before[k] == pairs[j];
      assert Chosen(pairs)[k] == pairs[j];
    } else if Clashes(before, pairs[n]) {
      var k :| 0 <= k < |before| && Shares(before[k], pairs[n]);
      j := ChosenStands(pairs[..n], k);
    } else {
      j := n;
      assert Chosen(pairs)[|before|] == pairs[n];
    }
  }

  lemma {:induction false} ChosenStands(pairs: seq<Match>, k: nat) returns (j: nat)
    requires k < |Chosen(pairs)|
    ensures j < |pairs| && pairs[j] == Chosen(pairs)[k]
    decreases |pairs|
  {
    var n := |pairs| - 1;
    if k < |Chosen(pairs[..n])| {
      j := ChosenStands(pairs[..n], k);
    } else {
      j := n;
    }
  }

  lemma ChosenAreConfirmed(table: map<nat, Pair>, chosen: seq<Match>, m: Match)
    requires m in chosen
    ensures IsConfirmedPair(DecideAll(table, chosen, true), m)
  {
    var i :| 0 <= i < |chosen| && chosen[i] == m;
    var p := EachIsDecided(table, chosen, true, i);
    var row := DecideAll(table, chosen, true)[p];
    assert {row.a, row.b} == {m.debit, m.credit};
  }

  datatype RecordError = AlreadyConfirmed | AlreadyDecided

  /** `confirm` and `reject`, through `_record`. */
  method Record(db: Tables, d: nat, c: nat, confirmed: bool) returns (r: Result<(), RecordError>)
    requires d in db.txns && c in db.txns && d != c
    modifies db`pairs
    ensures r.Raised? <==>
              || IsConfirmed(old(db.pairs), d) || IsConfirmed(old(db.pairs), c)
              || IsDecided(old(db.pairs), d, c)
    ensures r.Raised? ==>
              (r.error == AlreadyConfirmed <==> IsConfirmed(old(db.pairs), d) || IsConfirmed(old(db.pairs), c))
    ensures db.pairs == if r.Raised? then old(db.pairs) else Decided(old(db.pairs), d, c, confirmed)
  {
    if IsConfirmed(db.pairs, d) || IsConfirmed(db.pairs, c) {
      return Raised(AlreadyConfirmed);
    }
    if IsDecided(db.pairs, d, c) {
      return Raised(AlreadyDecided);
    }
    db.AddDecision(d, c, confirmed);
    return Returned(());
  }

  /** `unlink`. */
  method Unlink(db: Tables, id: nat)
    modifies db`pairs
    ensures db.pairs == Unlinked(old(db.pairs), id)
  {
    db.DeleteConfirmed(id);
  }

  // ----- what recording does to the table -----

  /** Recording decisions leaves the older ones alone. */
  lemma {:induction false} OldStand(table: map<nat, Pair>, pairs: seq<Match>, confirmed: bool, p: nat)
    requires p in table
    ensures p in DecideAll(table, pairs, confirmed) && DecideAll(table, pairs, confirmed)[p] == table[p]
    decreases |pairs|
  {
    if pairs != [] {
      OldStand(table, pairs[..|pairs| - 1], confirmed, p);
    }
  }

  /** A new row of the table is the decision about one of the pairs. */
  lemma {:induction false} NewIsOne(table: map<nat, Pair>, pairs: seq<Match>, confirmed: bool, p: nat) returns (i: nat)
    requires p in DecideAll(table, pairs, confirmed) && p !in table
    ensures i < |pairs| && Decides(DecideAll(table, pairs, confirmed)[p], pairs[i].debit, pairs[i].credit)
    ensures DecideAll(table, pairs, confirmed)[p].confirmed == confirmed
    decreases |pairs|
  {
    var n := |pairs| - 1;
    var before := DecideAll(table, pairs[..n], confirmed);
    if p == NextId(before) {
      i := n;
    } else {
      i := NewIsOne(table, pairs[..n], confirmed, p);
    }
  }

  /** And each of the pairs has such a row. */
  lemma {:induction false} EachIsDecided(table: map<nat, Pair>, pairs: seq<Match>, confirmed: bool, i: nat)
      returns (p: nat)
    requires i < |pairs|
    ensures p in DecideAll(table, pairs, confirmed) && p !in table
    ensures Decides(DecideAll(table, pairs, confirmed)[p], pairs[i].debit, pairs[i].credit)
    ensures DecideAll(table, pairs, confirmed)[p].confirmed == confirmed
    decreases |pairs|
  {
    var n := |pairs| - 1;
    var before := DecideAll(table, pairs[..n], confirmed);
    if i == n {
      p := NextId(before);
      if p in table {
        OldStand(table, pairs[..n], confirmed, p);
      }
    } else {
      p := EachIsDecided(table, pairs[..n], confirmed, i);
    }
  }

  lemma StillUndecided(table: map<nat, Pair>, pairs: seq<Match>, confirmed: bool, m: Match)
    requires !IsDecided(table, m.debit, m.credit)
    requires forall i :: 0 <= i < |pairs| ==> pairs[i] != m && pairs[i] != Match(m.credit, m.debit)
    ensures !IsDecided(DecideAll(table, pairs, confirmed), m.debit, m.credit)
  {
    var after := DecideAll(table, pairs, confirmed);
    forall p | p in after ensures !Decides(after[p], m.debit, m.credit) {
      if p in table {
        OldStand(table, pairs, confirmed, p);
      } else {
        var i := NewIsOne(table, pairs, confirmed, p);
      }
    }
  }

  // ----- soundness -----

  /** One more decision about existing, undecided rows. */
  lemma DecideKeepsSound(b: Books, x: nat, y: nat, confirmed: bool)
    requires Sound(b) && Recordable(b, Match(x, y))
    requires confirmed ==> Transferable(b.txns[x], b.txns[y]) && !IsConfirmed(b.pairs, x) && !IsConfirmed(b.pairs, y)
    ensures Sound(b.(pairs := Decided(b.pairs, x, y, confirmed)))
  {
    DecideKeepsCanonical(b, x, y, confirmed);
    DecideKeepsTransfers(b, x, y, confirmed);
  }

  lemma DecideKeepsTransfers(b: Books, x: nat, y: nat, confirmed: bool)
    requires PairsCanonical(b) && TransfersSound(b) && Recordable(b, Match(x, y))
    requires PairsCanonical(b.(pairs := Decided(b.pairs, x, y, confirmed)))
    requires confirmed ==> Transferable(b.txns[x], b.txns[y]) && !IsConfirmed(b.pairs, x) && !IsConfirmed(b.pairs, y)
    ensures TransfersSound(b.(pairs := Decided(b.pairs, x, y, confirmed)))
  {
    var after, id := Decided(b.pairs, x, y, confirmed), NextId(b.pairs);
    forall p, t | p in b.pairs && b.pairs[p].confirmed && after[id].confirmed
      ensures !(Touches(b.pairs[p], t) && Touches(after[id], t))
    {
      assert !Touches(b.pairs[p], x) && !Touches(b.pairs[p], y);
    }
  }

  lemma DecideKeepsCanonical(b: Books, x: nat, y: nat, confirmed: bool)
    requires PairsCanonical(b) && Recordable(b, Match(x, y))
    ensures PairsCanonical(b.(pairs := Decided(b.pairs, x, y, confirmed)))
  {
    var after, id := Decided(b.pairs, x, y, confirmed), NextId(b.pairs);
    forall p, q | p in after && q in after && p != q ensures !Decides(after[p], after[q].a, after[q].b) {
      if p == id {
        assert !Decides(b.pairs[q], x, y);
      } else if q == id {
        assert !Decides(b.pairs[p], x, y);
      }
    }
  }

  /** `confirm_many` over live candidates, in whatever order, keeps the books sound. */
  lemma {:induction false} ConfirmKeepsSound(b: Books, pairs: seq<Match>)
    requires Sound(b) && forall m :: m in pairs ==> IsCandidate(b, m.debit, m.credit)
    ensures Sound(b.(pairs := DecideAll(b.pairs, Chosen(pairs), true)))
    ensures forall m :: m in Chosen(pairs) ==> m in pairs
    ensures forall m :: m in pairs ==> Recordable(b, m)
    decreases |pairs|
  {
    if pairs == [] {
      assert b.(pairs := DecideAll(b.pairs, Chosen(pairs), true)) == b;
    } else {
      var n := |pairs| - 1;
      var before, m := Chosen(pairs[..n]), pairs[n];
      ConfirmKeepsSound(b, pairs[..n]);
      assert pairs == pairs[..n] + [m] && m in pairs;
      if !Clashes(before, m) {
        DecideNext(b.pairs, before, m, true);
        var now := b.(pairs := DecideAll(b.pairs, before, true));
        StillFree(b, before, m);
        DecideKeepsSound(now, m.debit, m.credit, true);
      }
    }
  }

  /** A candidate that clashes with none of the pairs chosen is a candidate still. */
  lemma StillFree(b: Books, chosen: seq<Match>, m: Match)
    requires IsCandidate(b, m.debit, m.credit) && !Clashes(chosen, m)
    ensures IsCandidate(b.(pairs := DecideAll(b.pairs, chosen, true)), m.debit, m.credit)
  {
    forall i | 0 <= i < |chosen| ensures chosen[i] != m && chosen[i] != Match(m.credit, m.debit) {
      assert !Shares(chosen[i], m);
    }
    StillUndecided(b.pairs, chosen, true, m);
    StillUnconfirmed(b.pairs, chosen, m);
  }

  lemma StillUnconfirmed(table: map<nat, Pair>, chosen: seq<Match>, m: Match)
    requires !IsConfirmed(table, m.debit) && !IsConfirmed(table, m.credit) && !Clashes(chosen, m)
    ensures !IsConfirmed(DecideAll(table, chosen, true), m.debit)
              && !IsConfirmed(DecideAll(table, chosen, true), m.credit)
  {
    var after := DecideAll(table, chosen, true);
    forall p | p in after && after[p].confirmed ensures !Touches(after[p], m.debit) && !Touches(after[p], m.credit) {
      if p in table {
        OldStand(table, chosen, true, p);
      } else {
        var i := NewIsOne(table, chosen, true, p);
        assert !Shares(chosen[i], m);
      }
    }
  }

  /** `reject_many` over distinct live candidates keeps the books sound. */
  lemma {:induction false} RejectKeepsSound(b: Books, pairs: seq<Match>)
    requires Sound(b) && NoDuplicates(pairs) && forall m :: m in pairs ==> IsCandidate(b, m.debit, m.credit)
    ensures Sound(b.(pairs := DecideAll(b.pairs, pairs, false)))
    decreases |pairs|
  {
    if pairs == [] {
      assert b.(pairs := DecideAll(b.pairs, pairs, false)) == b;
    } else {
      var n := |pairs| - 1;
      assert pairs == pairs[..n] + [pairs[n]];
      RejectKeepsSound(b, pairs[..n]);
      assert IsCandidate(b, pairs[n].debit, pairs[n].credit);
      forall i | 0 <= i < n
        ensures pairs[..n][i] != pairs[n] && pairs[..n][i] != Match(pairs[n].credit, pairs[n].debit)
      {
        assert pairs[i] in pairs;
      }
      StillUndecided(b.pairs, pairs[..n], false, pairs[n]);
      DecideKeepsSound(b.(pairs := DecideAll(b.pairs, pairs[..n], false)), pairs[n].debit, pairs[n].credit, false);
    }
  }

  lemma UnlinkKeepsSound(b: Books, id: nat)
    requires Sound(b)
    ensures Sound(b.(pairs := Unlinked(b.pairs, id)))
  {
    assert forall p :: p in Unlinked(b.pairs, id) ==> p in b.pairs && Unlinked(b.pairs, id)[p] == b.pairs[p];
  }

  // ----- the pass is greedy and maximal -----

  /** The pairs chosen share no transaction, and each pair passed over clashes with one chosen. */
  lemma {:induction false} ChosenIsMaximal(pairs: seq<Match>)
    ensures forall i, j :: 0 <= i < j < |Chosen(pairs)| ==> !Shares(Chosen(pairs)[i], Chosen(pairs)[j])
    ensures forall m :: m in pairs && m !in Chosen(pairs) ==> Clashes(Chosen(pairs), m)
    decreases |pairs|
  {
    if pairs != [] {
      var n := |pairs| - 1;
      var before := Chosen(pairs[..n]);
      ChosenIsMaximal(pairs[..n]);
      assert pairs == pairs[..n] + [pairs[n]];
      assert forall i :: 0 <= i < |before| ==> Chosen(pairs)[i] == before[i];
      forall m | m in pairs && m !in Chosen(pairs) ensures Clashes(Chosen(pairs), m) {
        if Clashes(before, m) {
          var i :| 0 <= i < |before| && Shares(before[i], m);
          assert Shares(Chosen(pairs)[i], m);
        }
      }
    }
  }

  /** Confirming every candidate, in whatever order, leaves no candidate. */
  lemma NothingLeft(b: Books, pairs: seq<Match>)
    requires Sound(b) && forall m :: m in pairs <==> m in Candidates(b)
    ensures Candidates(b.(pairs := DecideAll(b.pairs, Chosen(pairs), true))) == {}
  {
    var after := b.(pairs := DecideAll(b.pairs, Chosen(pairs), true));
    ChosenIsMaximal(pairs);
    forall p | p in b.pairs ensures p in after.pairs && after.pairs[p] == b.pairs[p] {
      OldStand(b.pairs, Chosen(pairs), true, p);
    }
    forall d, c | d in b.txns && c in b.txns && IsCandidate(after, d, c) ensures false {
      if IsConfirmed(b.pairs, d) || IsConfirmed(b.pairs, c) || IsDecided(b.pairs, d, c) {
        OldDecisionsStand(b, after, d, c);
      } else {
        assert Match(d, c) in Candidates(b);
        ClashIsConfirmed(b.pairs, Chosen(pairs), Match(d, c));
      }
    }
  }

  lemma OldDecisionsStand(b: Books, after: Books, d: nat, c: nat)
    requires forall p :: p in b.pairs ==> p in after.pairs && after.pairs[p] == b.pairs[p]
    ensures IsConfirmed(b.pairs, d) ==> IsConfirmed(after.pairs, d)
    ensures IsConfirmed(b.pairs, c) ==> IsConfirmed(after.pairs, c)
    ensures IsDecided(b.pairs, d, c) ==> IsDecided(after.pairs, d, c)
  {
  }

  lemma ClashIsConfirmed(table: map<nat, Pair>, chosen: seq<Match>, m: Match)
    requires m in chosen || Clashes(chosen, m)
    ensures IsConfirmed(DecideAll(table, chosen, true), m.debit)
              || IsConfirmed(DecideAll(table, chosen, true), m.credit)
  {
    var i :| 0 <= i < |chosen| && (chosen[i] == m || Shares(chosen[i], m));
    var p := EachIsDecided(table, chosen, true, i);
    var row := DecideAll(table, chosen, true)[p];
    assert Touches(row, chosen[i].debit) && Touches(row, chosen[i].credit);
    if chosen[i] == m {
      assert Touches(row, m.debit);
    } else {
      assert Shares(chosen[i], m);
      assert Touches(row, m.debit) || Touches(row, m.credit);
    }
  }

  /** Unlinking a confirmed pair offers it again, as long as its rows still match. */
  lemma UnlinkOffersAgain(b: Books, id: nat, d: nat, c: nat)
    requires Sound(b) && id in b.pairs && b.pairs[id].confirmed && Decides(b.pairs[id], d, c)
    ensures IsOffered(b.(pairs := Unlinked(b.pairs, id)), d, c) <==> AreAMatch(b.txns, d, c)
  {
    var left := Unlinked(b.pairs, id);
    CandidateIffOffered(b.(pairs := left), d, c);
    assert Touches(b.pairs[id], d) && Touches(b.pairs[id], c);
    assert forall p :: p in left ==> p != id && p in b.pairs && left[p] == b.pairs[p];
    forall p | p in left ensures !Decides(left[p], d, c) {
      assert !Decides(b.pairs[p], b.pairs[id].a, b.pairs[id].b);
    }
  }
}
