/** Every sequence of ledger operations, from the backfilled vault on, keeps the books sound. */
module LedgerRuns {
  import opened Wrappers
  import opened Sequences
  import opened Ledger
  import opened Imports
  import opened Statements
  import opened Transfers

  /** One request to the services. */
  datatype Operation =
    | Import(preview: Preview, start: Option<int>, end: Option<int>)
    | AddByHand(account: nat, day: int, amount: int, description: string)
    | Reassign(period: nat, account: nat)
    | DeleteBatch(ids: seq<nat>)
    | ConfirmSelected(pairs: seq<Match>)
    | RejectSelected(pairs: seq<Match>)
    | Confirm(pair: Match)
    | Reject(pair: Match)
    | Unlink(id: nat)

  ghost predicate AllCandidates(b: Books, pairs: seq<Match>) {
    forall m :: m in pairs ==> IsCandidate(b, m.debit, m.credit)
  }

  /** What the screens offer: recorded statements, live candidates, distinct rows of a list. */
  ghost predicate Offered(b: Books, op: Operation) {
    match op
    case Reassign(period, _) => period in b.periods
    case ConfirmSelected(pairs) => AllCandidates(b, pairs)
    case RejectSelected(pairs) => AllCandidates(b, pairs) && NoDuplicates(pairs)
    case Confirm(m) => IsCandidate(b, m.debit, m.credit)
    case Reject(m) => m.debit in b.txns && m.credit in b.txns && m.debit != m.credit
    case _ => true
  }

  /** The books after a request; a refused one changes nothing. */
  ghost function After(norm: Norm, b: Books, op: Operation): Books
    requires Offered(b, op)
  {
    match op
    case Import(p, start, end) =>
      var span := ValidateSpan(start, end);
      if span.Raised? then b else Committed(norm, b, p.account, p.drafts, span.value.0, span.value.1, p.closing)
    case AddByHand(account, day, amount, description) =>
      b.(txns := b.txns[NextId(b.txns) := Txn(account, day, amount, description, None)])
    case Reassign(period, account) =>
      if SpanTaken(b, period, account) then b else AfterMove(b, period, account)
    case DeleteBatch(ids) => AfterDelete(b, Elements(ids))
    case ConfirmSelected(pairs) => b.(pairs := DecideAll(b.pairs, Chosen(pairs), true))
    case RejectSelected(pairs) => b.(pairs := DecideAll(b.pairs, pairs, false))
    case Confirm(m) => b.(pairs := Decided(b.pairs, m.debit, m.credit, true))
    case Reject(m) =>
      if IsConfirmed(b.pairs, m.debit) || IsConfirmed(b.pairs, m.credit) || IsDecided(b.pairs, m.debit, m.credit) then b
      else b.(pairs := Decided(b.pairs, m.debit, m.credit, false))
    case Unlink(id) => b.(pairs := Unlinked(b.pairs, id))
  }

  lemma AddKeepsSound(b: Books, t: Txn)
    requires Sound(b) && t.stamp.None?
    ensures Sound(b.(txns := b.txns[NextId(b.txns) := t]))
  {
  }

  /** No request breaks the books. */
  lemma OperationKeepsSound(norm: Norm, b: Books, op: Operation)
    requires Sound(b) && Offered(b, op)
    ensures Sound(After(norm, b, op))
  {
    match op
    case Import(p, start, end) =>
      var span := ValidateSpan(start, end);
      if span.Returned? {
        CommitKeepsSound(norm, b, p.account, p.drafts, span.value.0, span.value.1, p.closing);
      }
    case AddByHand(account, day, amount, description) =>
      AddKeepsSound(b, Txn(account, day, amount, description, None));
    case Reassign(period, account) =>
      if !SpanTaken(b, period, account) {
        MoveKeepsSound(b, period, account);
      }
    case DeleteBatch(ids) => DeleteKeepsSound(b, Elements(ids));
    case ConfirmSelected(pairs) => ConfirmKeepsSound(b, pairs);
    case RejectSelected(pairs) => RejectKeepsSound(b, pairs);
    case Confirm(m) => DecideKeepsSound(b, m.debit, m.credit, true);
    case Reject(m) =>
      if !IsConfirmed(b.pairs, m.debit) && !IsConfirmed(b.pairs, m.credit) && !IsDecided(b.pairs, m.debit, m.credit) {
        DecideKeepsSound(b, m.debit, m.credit, false);
      }
    case Unlink(id) => UnlinkKeepsSound(b, id);
  }

  /** The services do what `After` says. */
  method Perform(norm: Norm, db: Tables, op: Operation)
    requires Sound(db.Now()) && Offered(db.Now(), op)
    modifies db
    ensures db.Now() == After(norm, old(db.Now()), op)
    ensures Sound(db.Now())
  {
    OperationKeepsSound(norm, db.Now(), op);
    match op
    case Import(preview, start, end) =>
      var _ := CommitImport(norm, db, preview, start, end);
    case AddByHand(account, day, amount, description) =>
      var _ := db.Add(account, day, amount, description);
    case Reassign(period, account) =>
      var _ := ReassignAccount(db, period, account);
    case DeleteBatch(ids) =>
      var _, _ := DeleteStatements(db, ids);
    case ConfirmSelected(pairs) =>
      CandidatesAreRecordable(db.Now(), pairs);
      var _ := ConfirmMany(db, pairs);
    case RejectSelected(pairs) =>
      CandidatesAreRecordable(db.Now(), pairs);
      DistinctCandidates(db.Now(), pairs);
      var _ := RejectMany(db, pairs);
    case Confirm(m) =>
      var _ := Record(db, m.debit, m.credit, true);
    case Reject(m) =>
      var _ := Record(db, m.debit, m.credit, false);
    case Unlink(id) =>
      Transfers.Unlink(db, id);
  }

  lemma CandidatesAreRecordable(b: Books, pairs: seq<Match>)
    requires AllCandidates(b, pairs)
    ensures forall m :: m in pairs ==> Recordable(b, m)
  {
  }

  /** Distinct candidates are distinct pairs: the sign tells debit from credit. */
  lemma DistinctCandidates(b: Books, pairs: seq<Match>)
    requires AllCandidates(b, pairs) && NoDuplicates(pairs)
    ensures forall i, j :: 0 <= i < j < |pairs| ==>
              pairs[i] != pairs[j] && pairs[i] != Match(pairs[j].credit, pairs[j].debit)
  {
    forall i, j | 0 <= i < j < |pairs| ensures pairs[i] != Match(pairs[j].credit, pairs[j].debit) {
      assert pairs[i] in pairs && pairs[j] in pairs;
    }
  }

  ghost predicate IsStep(norm: Norm, before: Books, op: Operation, after: Books) {
    Offered(before, op) && after == After(norm, before, op)
  }

  /** A run: each state is the one before it after one offered request. */
  ghost predicate IsRun(norm: Norm, states: seq<Books>, ops: seq<Operation>) {
    && |states| == |ops| + 1
    && forall i :: 0 <= i < |ops| ==> IsStep(norm, states[i], ops[i], states[i + 1])
  }

  /** From the backfill on, every state of every run is sound. */
  lemma {:induction false} RunsStaySound(norm: Norm, v5: Books, states: seq<Books>, ops: seq<Operation>, i: nat)
    requires v5.pairs == map[] && SpansUnique(v5.periods)
    requires forall t :: t in v5.txns ==> v5.txns[t].stamp.None?
    requires IsRun(norm, states, ops) && states[0] == v5.(txns := Backfilled(v5.txns, v5.periods, v5.periods.Keys))
    requires i < |states|
    ensures Sound(states[i])
  {
    if i == 0 {
      BackfillIsSound(v5);
    } else {
      RunsStaySound(norm, v5, states, ops, i - 1);
      assert IsStep(norm, states[i - 1], ops[i - 1], states[i]);
      OperationKeepsSound(norm, states[i - 1], ops[i - 1]);
    }
  }
}
