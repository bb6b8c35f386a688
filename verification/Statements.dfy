/** Deleting, previewing and moving statements, and the v6 stamp backfill
    (`services/statements.py`, `migrations.py`). */
module Statements {
  import opened Wrappers
  import opened Sequences
  import opened Ledger

  /** What the database's foreign keys hold: decisions name rows, stamps name periods. */
  ghost predicate ForeignKeys(b: Books) {
    && (forall p :: p in b.pairs ==> b.pairs[p].a in b.txns && b.pairs[p].b in b.txns)
    && (forall t :: t in b.txns && b.txns[t].stamp.Some? ==> b.txns[t].stamp.value in b.periods)
  }

  // ----- the batch delete -----

  /** What the batch makes of a row it keeps: a shared row goes to its earliest survivor. */
  function Restamped(periods: map<nat, Period>, ids: set<nat>, done: set<nat>, t: Txn): Txn {
    if t.stamp.Some? && t.stamp.value in done && Covering(periods, ids, t) != {}
    then t.(stamp := Some(Earliest(periods, Covering(periods, ids, t))))
    else t
  }

  /** The rows once the statements in `done`, of a batch `ids`, have been dealt with. */
  function RowsAfter(b: Books, ids: set<nat>, done: set<nat>): map<nat, Txn> {
    map t | t in b.txns && t !in Orphans(b, ids) * Stamped(b.txns, done) :: Restamped(b.periods, ids, done, b.txns[t])
  }

  /** The closed form of a batch delete: it speaks of the set of ids, not of their order. */
  function AfterDelete(b: Books, ids: set<nat>): Books {
    var txns := RowsAfter(b, ids, ids);
    Books(txns, b.periods - ids, Cascade(b.pairs, txns))
  }

  function Elements(ids: seq<nat>): set<nat> {
    set i | i in ids
  }

  /** The rows of the batch that a delete keeps, which all get another stamp. */
  ghost function HandedOver(b: Books, ids: set<nat>): set<nat> {
    set t | t in AfterDelete(b, ids).txns && AfterDelete(b, ids).txns[t].stamp != b.txns[t].stamp
  }

  /** `delete_preview_many`: what a delete of the batch would remove, and what it would hand over. */
  method DeletePreviewMany(db: Tables, ids: seq<nat>) returns (removed: nat, kept: nat)
    ensures removed == |db.txns| - |AfterDelete(db.Now(), Elements(ids)).txns|
    ensures kept == |HandedOver(db.Now(), Elements(ids))|
    ensures removed + kept == |Stamped(db.txns, Elements(ids))|
  {
    PreviewCounts(db.Now(), Elements(ids));
    if ids == [] {
      NothingStamped(db.Now());
      return 0, 0;
    }
    removed, kept := db.DeleteSplitCounts(Elements(ids));
  }

  lemma NothingStamped(b: Books)
    ensures Elements([]) == {} && Orphans(b, {}) == {} && Shared(b, {}) == {}
  {
  }

  lemma PreviewCounts(b: Books, ids: set<nat>)
    ensures |Orphans(b, ids)| == |b.txns| - |AfterDelete(b, ids).txns|
    ensures |Shared(b, ids)| == |HandedOver(b, ids)|
    ensures |Orphans(b, ids)| + |Shared(b, ids)| == |Stamped(b.txns, ids)|
  {
    OrphansGo(b, ids);
    SharedAreHandedOver(b, ids);
    OrphanOrShared(b, ids);
  }

  lemma SharedAreHandedOver(b: Books, ids: set<nat>)
    ensures Shared(b, ids) == HandedOver(b, ids)
  {
    forall t ensures t in Shared(b, ids) <==> t in HandedOver(b, ids) {
      SharedChange(b, ids, t);
    }
  }

  lemma OrphanOrShared(b: Books, ids: set<nat>)
    ensures |Orphans(b, ids)| + |Shared(b, ids)| == |Stamped(b.txns, ids)|
  {
    var stamped := Stamped(b.txns, ids);
    assert Shared(b, ids) == stamped - Orphans(b, ids) && Orphans(b, ids) <= stamped;
  }

  lemma OrphansGo(b: Books, ids: set<nat>)
    ensures |Orphans(b, ids)| == |b.txns| - |AfterDelete(b, ids).txns|
  {
    var after := RowsAfter(b, ids, ids);
    assert Orphans(b, ids) * Stamped(b.txns, ids) == Orphans(b, ids);
    var left := b.txns - Orphans(b, ids);
    RemovedCount(b.txns, Orphans(b, ids));
    assert after.Keys == left.Keys;
    assert |after| == |after.Keys| && |left| == |left.Keys|;
  }

  lemma SharedChange(b: Books, ids: set<nat>, t: nat)
    ensures t in Shared(b, ids) <==> t in HandedOver(b, ids)
  {
    var rows := RowsAfter(b, ids, ids);
    if t in rows {
      assert rows[t] == Restamped(b.periods, ids, ids, b.txns[t]);
      if t in Shared(b, ids) {
        var heir := Earliest(b.periods, Covering(b.periods, ids, b.txns[t]));
        assert rows[t].stamp == Some(heir) && heir !in ids;
      }
    }
  }

  /** How far the first loop of the delete has come once the statements in `done` are dealt with. */
  ghost predicate Cleared(b: Books, ids: set<nat>, done: set<nat>, now: Books, deleted: nat, handedOff: nat) {
    && now == Books(RowsAfter(b, ids, done), b.periods, Cascade(b.pairs, RowsAfter(b, ids, done)))
    && deleted == |Orphans(b, ids) * Stamped(b.txns, done)|
    && handedOff == |Shared(b, ids) * Stamped(b.txns, done)|
  }

  /** `delete_statements`. The counts are those the preview gives of the same state. */
  method DeleteStatements(db: Tables, ids: seq<nat>) returns (deleted: nat, handedOff: nat)
    requires ForeignKeys(db.Now())
    modifies db
    ensures db.Now() == AfterDelete(old(db.Now()), Elements(ids))
    ensures deleted == |Orphans(old(db.Now()), Elements(ids))|
    ensures handedOff == |Shared(old(db.Now()), Elements(ids))|
  {
    ghost var before := db.Now();
    var deleting := Elements(ids);
    NothingDone(before, deleting);
    if ids == [] {
      EmptyBatch(before);
      return 0, 0;
    }
    deleted, handedOff := ClearStatements(db, ids, deleting, before);
    AllCleared(before, deleting, db.Now(), deleted, handedOff);
    DeletePeriods(db, ids);
  }

  /** The first loop. */
  method ClearStatements(db: Tables, ids: seq<nat>, deleting: set<nat>, ghost b: Books)
      returns (deleted: nat, handedOff: nat)
    requires deleting == Elements(ids) && Cleared(b, deleting, {}, db.Now(), 0, 0)
    modifies db
    ensures Cleared(b, deleting, deleting, db.Now(), deleted, handedOff)
  {
    deleted, handedOff := 0, 0;
    ghost var done: set<nat> := {};
    assert ids[..0] == [] && Elements([]) == {};
    for i := 0 to |ids|
      invariant done == Elements(ids[..i]) && done <= deleting
      invariant Cleared(b, deleting, done, db.Now(), deleted, handedOff)
    {
      NextElement(ids, i);
      var gone, kept := ClearStatement(db, ids[i], deleting, b, done, deleted, handedOff);
      deleted, handedOff, done := deleted + gone, handedOff + kept, done + {ids[i]};
    }
    assert ids[..|ids|] == ids;
  }

  lemma NextElement(ids: seq<nat>, i: nat)
    requires i < |ids|
    ensures Elements(ids[..i + 1]) == Elements(ids[..i]) + {ids[i]} && ids[i] in Elements(ids)
    ensures Elements(ids[..i]) <= Elements(ids)
  {
  }

  /** One turn: hand off what a survivor covers, then delete what is still stamped. */
  method ClearStatement(db: Tables, id: nat, deleting: set<nat>, ghost b: Books, ghost done: set<nat>,
                        ghost deleted: nat, ghost handedOff: nat)
      returns (gone: nat, kept: nat)
    requires id in deleting && done <= deleting && Cleared(b, deleting, done, db.Now(), deleted, handedOff)
    modifies db
    ensures Cleared(b, deleting, done + {id}, db.Now(), deleted + gone, handedOff + kept)
  {
    ClearStep(b, deleting, done, id, db.Now(), deleted, handedOff);
    kept := db.HandOffCovered(id, deleting);
    gone := db.DeleteForStatement(id);
  }

  /** The preview tells the truth: what it shows of a batch is what a delete of it then does. */
  method PreviewThenDelete(db: Tables, ids: seq<nat>) returns (removed: nat, kept: nat, deleted: nat, handedOff: nat)
    requires ForeignKeys(db.Now())
    modifies db
    ensures deleted == removed && handedOff == kept
    ensures deleted == old(|db.txns|) - |db.txns|
    ensures db.Now() == AfterDelete(old(db.Now()), Elements(ids))
  {
    PreviewCounts(db.Now(), Elements(ids));
    removed, kept := DeletePreviewMany(db, ids);
    deleted, handedOff := DeleteStatements(db, ids);
  }

  method DeletePeriods(db: Tables, ids: seq<nat>)
    requires Stamped(db.txns, Elements(ids)) == {}
    modifies db`periods
    ensures db.periods == old(db.periods) - Elements(ids)
  {
    assert db.periods - {} == db.periods;
    for i := 0 to |ids|
      invariant db.periods == old(db.periods) - Elements(ids[..i])
    {
      NextElement(ids, i);
      assert Stamped(db.txns, {ids[i]}) <= Stamped(db.txns, Elements(ids));
      db.DeletePeriod(ids[i]);
    }
    assert ids[..|ids|] == ids;
  }

  lemma ClearStep(b: Books, ids: set<nat>, done: set<nat>, id: nat, now: Books, deleted: nat, handedOff: nat)
    requires id in ids && done <= ids && Cleared(b, ids, done, now, deleted, handedOff)
    ensures var handed := HandedOff(now.txns, now.periods, id, ids);
            var left := handed - Stamped(handed, {id});
            Cleared(b, ids, done + {id}, Books(left, now.periods, Cascade(now.pairs, left)),
                    deleted + |Stamped(handed, {id})|,
                    handedOff + |CoveredRows(now.txns, now.periods, id, ids)|)
  {
    HandOffStep(b, ids, done, id);
    CascadeTwice(b.pairs, RowsAfter(b, ids, done), RowsAfter(b, ids, done + {id}));
  }

  lemma AllCleared(b: Books, ids: set<nat>, now: Books, deleted: nat, handedOff: nat)
    requires Cleared(b, ids, ids, now, deleted, handedOff)
    ensures deleted == |Orphans(b, ids)| && handedOff == |Shared(b, ids)|
    ensures Stamped(now.txns, ids) == {}
  {
    assert Orphans(b, ids) * Stamped(b.txns, ids) == Orphans(b, ids);
    assert Shared(b, ids) * Stamped(b.txns, ids) == Shared(b, ids);
    NoneStillStamped(b, ids);
  }

  lemma NothingDone(b: Books, ids: set<nat>)
    requires ForeignKeys(b)
    ensures Cleared(b, ids, {}, b, 0, 0)
  {
    assert Stamped(b.txns, {}) == {};
    assert RowsAfter(b, ids, {}) == b.txns;
    assert Cascade(b.pairs, b.txns) == b.pairs;
  }

  lemma EmptyBatch(b: Books)
    requires ForeignKeys(b)
    ensures Elements([]) == {} && AfterDelete(b, {}) == b
    ensures Orphans(b, {}) == {} && Shared(b, {}) == {}
  {
    NothingStamped(b);
    assert RowsAfter(b, {}, {}) == b.txns;
    assert Cascade(b.pairs, b.txns) == b.pairs;
    assert b.periods - {} == b.periods;
  }

  lemma CascadeTwice(pairs: map<nat, Pair>, first: map<nat, Txn>, second: map<nat, Txn>)
    requires second.Keys <= first.Keys
    ensures Cascade(Cascade(pairs, first), second) == Cascade(pairs, second)
  {
  }

  /** One turn of the loop: hand off what is covered, then delete what is still stamped. */
  lemma HandOffStep(b: Books, ids: set<nat>, done: set<nat>, id: nat)
    requires id in ids && done <= ids
    ensures var rows := RowsAfter(b, ids, done);
            var handed := HandedOff(rows, b.periods, id, ids);
            && handed - Stamped(handed, {id}) == RowsAfter(b, ids, done + {id})
            && (handed - Stamped(handed, {id})).Keys <= rows.Keys
            && |Orphans(b, ids) * Stamped(b.txns, done + {id})|
               == |Orphans(b, ids) * Stamped(b.txns, done)| + |Stamped(handed, {id})|
            && |Shared(b, ids) * Stamped(b.txns, done + {id})|
               == |Shared(b, ids) * Stamped(b.txns, done)|
                  + |CoveredRows(rows, b.periods, id, ids)|
  {
    var rows := RowsAfter(b, ids, done);
    var handed := HandedOff(rows, b.periods, id, ids);
    if id in done {
      AlreadyDone(b, ids, done, id);
    } else {
      FreshTurn(b, ids, done, id);
      FreshCounts(b, ids, done, id);
    }
  }

  /** After its turn nothing is stamped to a statement of the batch. */
  lemma NotStampedAfter(b: Books, ids: set<nat>, done: set<nat>, t: nat)
    requires done <= ids && t in RowsAfter(b, ids, done)
    ensures RowsAfter(b, ids, done)[t].stamp.Some? ==> RowsAfter(b, ids, done)[t].stamp.value !in done
    ensures RowsAfter(b, ids, done)[t].(stamp := None) == b.txns[t].(stamp := None)
    ensures forall id :: id in ids && id !in done ==>
              (RowsAfter(b, ids, done)[t].stamp == Some(id) <==> b.txns[t].stamp == Some(id))
  {
  }

  lemma AlreadyDone(b: Books, ids: set<nat>, done: set<nat>, id: nat)
    requires id in done && done <= ids
    ensures var rows := RowsAfter(b, ids, done);
            && done + {id} == done && Stamped(rows, {id}) == {}
            && HandedOff(rows, b.periods, id, ids) == rows
            && rows - {} == rows
  {
    var rows := RowsAfter(b, ids, done);
    forall t | t in rows ensures rows[t].stamp != Some(id) {
      NotStampedAfter(b, ids, done, t);
    }
  }

  lemma FreshTurn(b: Books, ids: set<nat>, done: set<nat>, id: nat)
    requires id in ids && id !in done && done <= ids
    ensures var handed := HandedOff(RowsAfter(b, ids, done), b.periods, id, ids);
            && Stamped(handed, {id}) == Orphans(b, ids) * Stamped(b.txns, {id})
            && handed - Stamped(handed, {id}) == RowsAfter(b, ids, done + {id})
  {
    var handed := HandedOff(RowsAfter(b, ids, done), b.periods, id, ids);
    FreshOrphans(b, ids, done, id);
    var left, after := handed - Stamped(handed, {id}), RowsAfter(b, ids, done + {id});
    forall t ensures t in left <==> t in after {
    }
    forall t | t in left ensures left[t] == after[t] {
      FreshRow(b, ids, done, id, t);
    }
  }

  lemma FreshOrphans(b: Books, ids: set<nat>, done: set<nat>, id: nat)
    requires id in ids && id !in done && done <= ids
    ensures Stamped(HandedOff(RowsAfter(b, ids, done), b.periods, id, ids), {id})
              == Orphans(b, ids) * Stamped(b.txns, {id})
  {
    var handed := HandedOff(RowsAfter(b, ids, done), b.periods, id, ids);
    forall t | t in handed
      ensures handed[t].stamp == Some(id) <==> t in Orphans(b, ids) && b.txns[t].stamp == Some(id)
    {
      FreshRow(b, ids, done, id, t);
    }
  }

  lemma FreshRow(b: Books, ids: set<nat>, done: set<nat>, id: nat, t: nat)
    requires id in ids && id !in done && done <= ids && t in RowsAfter(b, ids, done)
    ensures var handed := HandedOff(RowsAfter(b, ids, done), b.periods, id, ids);
            && (handed[t].stamp == Some(id) <==> t in Orphans(b, ids) && b.txns[t].stamp == Some(id))
            && (handed[t].stamp != Some(id) ==> handed[t] == Restamped(b.periods, ids, done + {id}, b.txns[t]))
  {
    NotStampedAfter(b, ids, done, t);
    assert Covering(b.periods, ids, RowsAfter(b, ids, done)[t]) == Covering(b.periods, ids, b.txns[t]);
  }

  lemma FreshCounts(b: Books, ids: set<nat>, done: set<nat>, id: nat)
    requires id in ids && id !in done && done <= ids
    ensures var rows := RowsAfter(b, ids, done);
            && |Orphans(b, ids) * Stamped(b.txns, done + {id})|
               == |Orphans(b, ids) * Stamped(b.txns, done)| + |Orphans(b, ids) * Stamped(b.txns, {id})|
            && |Shared(b, ids) * Stamped(b.txns, done + {id})|
               == |Shared(b, ids) * Stamped(b.txns, done)|
                  + |CoveredRows(rows, b.periods, id, ids)|
  {
    var was, now := Stamped(b.txns, done), Stamped(b.txns, {id});
    assert Stamped(b.txns, done + {id}) == was + now && was !! now;
    SplitCount(Orphans(b, ids), was, now);
    SplitCount(Shared(b, ids), was, now);
    FreshShared(b, ids, done, id);
  }

  lemma FreshShared(b: Books, ids: set<nat>, done: set<nat>, id: nat)
    requires id in ids && id !in done && done <= ids
    ensures var rows := RowsAfter(b, ids, done);
            CoveredRows(rows, b.periods, id, ids) == Shared(b, ids) * Stamped(b.txns, {id})
  {
    var rows := RowsAfter(b, ids, done);
    var handed := CoveredRows(rows, b.periods, id, ids);
    forall t | t in rows
      ensures rows[t].stamp == Some(id) <==> b.txns[t].stamp == Some(id)
      ensures Covering(b.periods, ids, rows[t]) == Covering(b.periods, ids, b.txns[t])
    {
      NotStampedAfter(b, ids, done, t);
    }
    forall t ensures t in handed <==> t in Shared(b, ids) * Stamped(b.txns, {id}) {
    }
  }

  lemma SplitCount(s: set<nat>, was: set<nat>, now: set<nat>)
    requires was !! now
    ensures |s * (was + now)| == |s * was| + |s * now|
  {
    assert s * (was + now) == s * was + s * now;
  }

  lemma NoneStillStamped(b: Books, ids: set<nat>)
    ensures Stamped(RowsAfter(b, ids, ids), ids) == {}
  {
    var rows := RowsAfter(b, ids, ids);
    forall t | t in rows ensures !(rows[t].stamp.Some? && rows[t].stamp.value in ids) {
      NotStampedAfter(b, ids, ids, t);
    }
  }

  // ----- what the delete does to a row, and to the books -----

  /** A row is deleted exactly if it is stamped to the batch and no survivor covers it. */
  lemma DeletedIff(b: Books, ids: set<nat>, t: nat)
    requires t in b.txns
    ensures t !in AfterDelete(b, ids).txns <==>
              b.txns[t].stamp.Some? && b.txns[t].stamp.value in ids
              && forall q :: q in b.periods && q !in ids && b.periods[q].account == b.txns[t].account ==>
                   b.txns[t].day < b.periods[q].start || b.periods[q].end < b.txns[t].day
  {
    SurvivorsCover(b.periods, ids, b.txns[t]);
    forall q | q in b.periods
      ensures Survives(b.periods, ids, b.txns[t], q) <==>
                && q !in ids && b.periods[q].account == b.txns[t].account
                && !(b.txns[t].day < b.periods[q].start || b.periods[q].end < b.txns[t].day)
    {
    }
  }

  /** A row that stays keeps its content, and its stamp too unless that is in the batch: then it is
      re-stamped to its heir, of which there is one only. */
  lemma KeptRow(b: Books, ids: set<nat>, t: nat, q: nat)
    requires t in AfterDelete(b, ids).txns
    ensures t in b.txns && AfterDelete(b, ids).txns[t].(stamp := b.txns[t].stamp) == b.txns[t]
    ensures !(b.txns[t].stamp.Some? && b.txns[t].stamp.value in ids) ==> AfterDelete(b, ids).txns[t] == b.txns[t]
    ensures b.txns[t].stamp.Some? && b.txns[t].stamp.value in ids ==>
              (AfterDelete(b, ids).txns[t].stamp == Some(q) <==> IsHeir(b.periods, ids, b.txns[t], q))
  {
    HeirIsEarliest(b.periods, ids, b.txns[t], q);
  }

  /** Besides rows, a delete takes exactly the batch's statements and the decisions about rows that went. */
  lemma DeleteTakesNothingElse(b: Books, ids: set<nat>)
    ensures var after := AfterDelete(b, ids);
            && after.txns.Keys <= b.txns.Keys
            && (forall p :: p in after.periods <==> p in b.periods && p !in ids)
            && (forall p :: p in after.periods ==> after.periods[p] == b.periods[p])
            && (forall p :: p in after.pairs <==>
                  p in b.pairs && b.pairs[p].a in after.txns && b.pairs[p].b in after.txns)
            && (forall p :: p in after.pairs ==> after.pairs[p] == b.pairs[p])
  {
  }

  /** Deleting keeps the books sound; above all no stamp is left dangling. */
  lemma DeleteKeepsSound(b: Books, ids: set<nat>)
    requires Sound(b)
    ensures Sound(AfterDelete(b, ids))
  {
    forall t | t in AfterDelete(b, ids).txns ensures StampKept(b, AfterDelete(b, ids), t) {
      DeleteKeepsStamp(b, ids, t);
    }
    DeleteKeepsPairs(b, AfterDelete(b, ids));
  }

  /** Row `t` keeps its account and amount, and its stamp names a period of that account. */
  ghost predicate StampKept(b: Books, after: Books, t: nat)
    requires t in after.txns
  {
    && t in b.txns && after.txns[t].amount == b.txns[t].amount && after.txns[t].account == b.txns[t].account
    && (after.txns[t].stamp.Some? ==>
          after.txns[t].stamp.value in after.periods
          && after.periods[after.txns[t].stamp.value].account == after.txns[t].account)
  }

  lemma DeleteKeepsStamp(b: Books, ids: set<nat>, t: nat)
    requires StampsResolve(b) && t in AfterDelete(b, ids).txns
    ensures StampKept(b, AfterDelete(b, ids), t)
  {
    NotStampedAfter(b, ids, ids, t);
    if b.txns[t].stamp.Some? && b.txns[t].stamp.value in ids {
      assert Covering(b.periods, ids, b.txns[t]) != {};
    }
  }

  lemma DeleteKeepsPairs(b: Books, after: Books)
    requires Sound(b) && after.pairs == Cascade(b.pairs, after.txns)
    requires forall t :: t in after.txns ==> StampKept(b, after, t)
    ensures PairsCanonical(after) && TransfersSound(after)
  {
    forall p | p in after.pairs ensures p in b.pairs && after.pairs[p] == b.pairs[p] {
    }
    forall p | p in after.pairs && after.pairs[p].confirmed
      ensures Transferable(after.txns[after.pairs[p].a], after.txns[after.pairs[p].b])
    {
      assert StampKept(b, after, after.pairs[p].a) && StampKept(b, after, after.pairs[p].b);
    }
  }

  // ----- moving a statement to another account -----

  datatype MoveError = SpanHeld

  datatype Moved = Moved(moved: nat, unlinked: nat)

  /** A different statement of the target account already holds the span. */
  ghost predicate SpanTaken(b: Books, id: nat, account: nat)
    requires id in b.periods
  {
    exists q :: q in b.periods && q != id && b.periods[q].account == account
                && b.periods[q].start == b.periods[id].start && b.periods[q].end == b.periods[id].end
  }

  function AfterMove(b: Books, id: nat, account: nat): Books {
    Books(MovedRows(b.txns, id, account), MovedPeriod(b.periods, id, account),
          b.pairs - JoinedByMove(b.pairs, b.txns, id, account))
  }

  /** `reassign_account`: guard, then unlink, period and rows in that order. */
  method ReassignAccount(db: Tables, id: nat, account: nat) returns (r: Result<Moved, MoveError>)
    requires Sound(db.Now()) && id in db.periods
    modifies db
    ensures r.Raised? <==> SpanTaken(old(db.Now()), id, account)
    ensures r.Raised? ==> db.Now() == old(db.Now())
    ensures r.Returned? ==>
              && db.Now() == AfterMove(old(db.Now()), id, account)
              && IsMove(old(db.Now()), db.Now(), id, account)
    ensures r.Returned? ==> r.value.moved == |Stamped(old(db.txns), {id})|
    ensures r.Returned? ==> r.value.unlinked == |JoinedByMove(old(db.pairs), old(db.txns), id, account)|
    ensures Sound(db.Now())
  {
    var period := db.periods[id];
    var existing := db.IdForSpan(account, period.start, period.end);
    if existing != None && existing != Some(id) {
      assert SpanTaken(db.Now(), id, account);
      return Raised(SpanHeld);
    }
    MoveKeepsSound(db.Now(), id, account);
    MoveIsMove(db.Now(), id, account);
    var result := MoveStatement(db, id, account);
    return Returned(result);
  }

  /** The statement goes over with its span and balance, its rows with their content, and every confirmed
      pair goes whose two sides are then in one account; nothing else changes. */
  ghost predicate IsMove(b: Books, after: Books, id: nat, account: nat) {
    && after.periods.Keys == b.periods.Keys && after.txns.Keys == b.txns.Keys
    && (forall p :: p in b.periods ==>
          after.periods[p] == if p != id then b.periods[p]
                              else Period(account, b.periods[id].start, b.periods[id].end, b.periods[id].closing))
    && (forall t :: t in b.txns ==>
          var was := b.txns[t];
          after.txns[t] == if was.stamp != Some(id) then was
                           else Txn(account, was.day, was.amount, was.description, was.stamp))
    && (forall p :: p in after.pairs ==> p in b.pairs && after.pairs[p] == b.pairs[p])
    && (forall p :: p in b.pairs && b.pairs[p].a in after.txns && b.pairs[p].b in after.txns ==>
          (p !in after.pairs <==>
             b.pairs[p].confirmed && after.txns[b.pairs[p].a].account == after.txns[b.pairs[p].b].account))
  }

  lemma MoveIsMove(b: Books, id: nat, account: nat)
    requires Sound(b) && id in b.periods
    ensures IsMove(b, AfterMove(b, id, account), id, account)
  {
    forall p | p in b.pairs
      ensures p !in AfterMove(b, id, account).pairs <==>
                b.pairs[p].confirmed && AfterMove(b, id, account).txns[b.pairs[p].a].account
                                     == AfterMove(b, id, account).txns[b.pairs[p].b].account
    {
      if b.pairs[p].confirmed {
        UnlinkedIffJoined(b, id, account, p);
      }
    }
  }

  /** The three writes. */
  method MoveStatement(db: Tables, id: nat, account: nat) returns (r: Moved)
    requires forall p :: p in db.pairs ==> db.pairs[p].a in db.txns && db.pairs[p].b in db.txns
    modifies db
    ensures db.Now() == AfterMove(old(db.Now()), id, account)
    ensures r.moved == |Stamped(old(db.txns), {id})|
    ensures r.unlinked == |JoinedByMove(old(db.pairs), old(db.txns), id, account)|
  {
    ghost var joined := JoinedByMove(db.pairs, db.txns, id, account);
    RemovedCount(db.pairs, joined);
    var unlinked := db.DeleteConfirmedJoinedByMove(id, account);
    db.SetPeriodAccount(id, account);
    var moved := db.ReassignTransactions(id, account);
    r := Moved(moved, unlinked);
  }

  lemma MovedRow(b: Books, id: nat, account: nat, t: nat)
    requires StampsResolve(b) && id in b.periods && t in b.txns
    ensures t in MovedRows(b.txns, id, account)
    ensures MovedRows(b.txns, id, account)[t].stamp == b.txns[t].stamp
    ensures MovedRows(b.txns, id, account)[t].amount == b.txns[t].amount
    ensures MovedRows(b.txns, id, account)[t].account
         == if b.txns[t].stamp == Some(id) then account else b.txns[t].account
    ensures b.txns[t].stamp == Some(id) ==> b.txns[t].account == b.periods[id].account
  {
  }

  /** The move unlinks exactly the confirmed transfers whose two sides it puts in one account. */
  lemma UnlinkedIffJoined(b: Books, id: nat, account: nat, p: nat)
    requires Sound(b) && id in b.periods && p in b.pairs && b.pairs[p].confirmed
    ensures p !in AfterMove(b, id, account).pairs <==>
              AfterMove(b, id, account).txns[b.pairs[p].a].account
                  == AfterMove(b, id, account).txns[b.pairs[p].b].account
  {
    MovedRow(b, id, account, b.pairs[p].a);
    MovedRow(b, id, account, b.pairs[p].b);
  }

  lemma MoveKeepsSound(b: Books, id: nat, account: nat)
    requires Sound(b) && id in b.periods && !SpanTaken(b, id, account)
    ensures Sound(AfterMove(b, id, account))
  {
    var after := AfterMove(b, id, account);
    forall t | t in after.txns
      ensures after.txns[t].stamp == b.txns[t].stamp
      ensures after.txns[t].stamp.Some? ==>
                after.txns[t].stamp.value in after.periods
                && after.periods[after.txns[t].stamp.value].account == after.txns[t].account
    {
      MovedRow(b, id, account, t);
    }
    MoveKeepsSpans(b, id, account);
    forall p | p in after.pairs && after.pairs[p].confirmed
      ensures Transferable(after.txns[after.pairs[p].a], after.txns[after.pairs[p].b])
    {
      UnlinkedIffJoined(b, id, account, p);
      MovedRow(b, id, account, b.pairs[p].a);
      MovedRow(b, id, account, b.pairs[p].b);
    }
  }

  lemma MoveKeepsSpans(b: Books, id: nat, account: nat)
    requires SpansUnique(b.periods) && id in b.periods && !SpanTaken(b, id, account)
    ensures SpansUnique(MovedPeriod(b.periods, id, account))
  {
    var after := MovedPeriod(b.periods, id, account);
    forall p, q | p in after && q in after && p != q
      ensures !(after[p].account == after[q].account && after[p].start == after[q].start
                && after[p].end == after[q].end)
    {
    }
  }

  // ----- the v6 backfill -----

  /** A row gets a stamp exactly if it has none and one statement, and only one, covers it. */
  function Backfilled(txns: map<nat, Txn>, periods: map<nat, Period>, done: set<nat>): map<nat, Txn> {
    map t | t in txns ::
      var covering := Covering(periods, {}, txns[t]);
      if txns[t].stamp.None? && |covering| == 1 && MaxId(covering) in done
      then txns[t].(stamp := Some(MaxId(covering)))
      else txns[t]
  }

  /** One period's update, with its overlap guard. */
  function StampSole(txns: map<nat, Txn>, periods: map<nat, Period>, p: nat): map<nat, Txn>
    requires p in periods
  {
    map t | t in txns ::
      if Covers(periods[p], txns[t]) && txns[t].stamp.None? && Covering(periods, {p}, txns[t]) == {}
      then txns[t].(stamp := Some(p))
      else txns[t]
  }

  /** The backfill of `_migrate_to_v6`: in whatever order the periods come, the same stamps. */
  method Backfill(db: Tables)
    modifies db`txns
    ensures db.txns.Keys == old(db.txns).Keys
    ensures forall t :: t in db.txns ==> IsBackfilled(db.periods, old(db.txns)[t], db.txns[t])
    ensures db.txns == Backfilled(old(db.txns), db.periods, db.periods.Keys)
  {
    BackfillHolds(db.txns, db.periods);
    var todo := db.periods.Keys;
    ghost var done: set<nat> := {};
    assert Backfilled(db.txns, db.periods, {}) == db.txns;
    while todo != {}
      invariant todo !! done && todo + done == db.periods.Keys
      invariant db.txns == Backfilled(old(db.txns), db.periods, done)
      decreases |todo|
    {
      var p :| p in todo;
      BackfillStep(old(db.txns), db.periods, done, p);
      db.txns := StampSole(db.txns, db.periods, p);
      todo, done := todo - {p}, done + {p};
    }
  }

  /** `p` is the one statement of the row's account whose first and last day enclose the row's. */
  ghost predicate IsSole(periods: map<nat, Period>, t: Txn, p: nat) {
    Survives(periods, {}, t, p) && forall q :: Survives(periods, {}, t, q) ==> q == p
  }

  ghost predicate IsBackfilled(periods: map<nat, Period>, before: Txn, after: Txn) {
    && (forall p :: before.stamp.None? && IsSole(periods, before, p) ==> after == before.(stamp := Some(p)))
    && (before.stamp.Some? || (forall p :: !IsSole(periods, before, p)) ==> after == before)
  }

  lemma BackfillHolds(txns: map<nat, Txn>, periods: map<nat, Period>)
    ensures forall t :: t in txns ==> IsBackfilled(periods, txns[t], Backfilled(txns, periods, periods.Keys)[t])
  {
    forall t | t in txns ensures IsBackfilled(periods, txns[t], Backfilled(txns, periods, periods.Keys)[t]) {
      var covering := Covering(periods, {}, txns[t]);
      forall p ensures IsSole(periods, txns[t], p) <==> |covering| == 1 && MaxId(covering) == p {
        SoleIsTheOne(periods, txns[t], p);
      }
      assert IsSole(periods, txns[t], MaxId(covering)) <==> |covering| == 1;
    }
  }

  lemma SoleIsTheOne(periods: map<nat, Period>, t: Txn, p: nat)
    ensures IsSole(periods, t, p) <==> |Covering(periods, {}, t)| == 1 && MaxId(Covering(periods, {}, t)) == p
  {
    var covering := Covering(periods, {}, t);
    SurvivorsCover(periods, {}, t);
    if IsSole(periods, t, p) {
      assert covering == {p};
    }
    if |covering| == 1 {
      var q := MaxId(covering);
      assert q in covering && |covering - {q}| == 0;
      assert covering == {q};
    }
  }

  lemma SoleCover(periods: map<nat, Period>, t: Txn, p: nat)
    requires p in periods
    ensures Covers(periods[p], t) && Covering(periods, {p}, t) == {}
            <==> |Covering(periods, {}, t)| == 1 && MaxId(Covering(periods, {}, t)) == p
  {
    var all, others := Covering(periods, {}, t), Covering(periods, {p}, t);
    assert all == others + (if Covers(periods[p], t) then {p} else {});
    if |all| == 1 && MaxId(all) == p {
      assert p in all && |all - {p}| == 0;
    }
    if others == {} && p in all {
      assert all == {p};
    }
  }

  lemma BackfillStep(txns: map<nat, Txn>, periods: map<nat, Period>, done: set<nat>, p: nat)
    requires p in periods && p !in done
    ensures StampSole(Backfilled(txns, periods, done), periods, p) == Backfilled(txns, periods, done + {p})
  {
    forall t | t in txns
      ensures StampSole(Backfilled(txns, periods, done), periods, p)[t] == Backfilled(txns, periods, done + {p})[t]
    {
      BackfillRow(txns, periods, done, p, t);
    }
  }

  lemma BackfillRow(txns: map<nat, Txn>, periods: map<nat, Period>, done: set<nat>, p: nat, t: nat)
    requires p in periods && p !in done && t in txns
    ensures StampSole(Backfilled(txns, periods, done), periods, p)[t] == Backfilled(txns, periods, done + {p})[t]
  {
    var row := Backfilled(txns, periods, done)[t];
    SameCover(periods, {}, row, txns[t]);
    SoleCover(periods, row, p);
  }

  lemma SameCover(periods: map<nat, Period>, deleting: set<nat>, t: Txn, u: Txn)
    requires t.account == u.account && t.day == u.day
    ensures Covering(periods, deleting, t) == Covering(periods, deleting, u)
  {
  }

  /** The backfilled books of a vault that had neither stamps nor decisions are sound. */
  lemma BackfillIsSound(b: Books)
    requires b.pairs == map[] && SpansUnique(b.periods)
    requires forall t :: t in b.txns ==> b.txns[t].stamp.None?
    ensures Sound(b.(txns := Backfilled(b.txns, b.periods, b.periods.Keys)))
  {
    var after := b.(txns := Backfilled(b.txns, b.periods, b.periods.Keys));
    forall t | t in after.txns && after.txns[t].stamp.Some?
      ensures after.txns[t].stamp.value in b.periods
      ensures b.periods[after.txns[t].stamp.value].account == after.txns[t].account
    {
      assert MaxId(Covering(b.periods, {}, b.txns[t])) in Covering(b.periods, {}, b.txns[t]);
    }
  }
}
