/** Reviewing and running a batch of statement files (`services/batch_import.py`). */
module BatchImport {
  import opened Wrappers
  import opened Sequences
  import opened Ledger
  import opened Imports

  // ----- what the review counts -----

  /** The previews of the records a review looks at, `None` where it passes one over. */
  type Entries = seq<Option<Preview>>

  /** The drafts the vault alone would not absorb: those the preview did not drop. */
  function Undropped(p: Preview, n: nat): seq<Draft>
    requires n <= |p.drafts|
  {
    if n == 0 then []
    else Undropped(p, n - 1) + if p.drafts[n - 1].row in p.dropped then [] else [p.drafts[n - 1]]
  }

  function AgainstVault(p: Preview): seq<Draft> {
    Undropped(p, |p.drafts|)
  }

  /** The distinct keys of some drafts, in order of first appearance. */
  function KeysOf(norm: Norm, drafts: seq<Draft>): seq<Key> {
    Distinct(Map(KeyBy(norm), drafts))
  }

  function KeyBy(norm: Norm): Draft -> Key {
    (d: Draft) => KeyOf(norm, d)
  }

  /** How many rows of a key the first `n` records claim in an account, beyond the vault's own. */
  function Claimed(norm: Norm, es: Entries, n: nat, account: nat, k: Key): nat
    requires n <= |es|
  {
    if n == 0 then 0
    else if es[n - 1].Some? && es[n - 1].value.account == account
    then Max(Claimed(norm, es, n - 1, account, k), Incoming(norm, AgainstVault(es[n - 1].value), k))
    else Claimed(norm, es, n - 1, account, k)
  }

  /** What record `i` takes of a key. */
  function Take(norm: Norm, es: Entries, i: nat, k: Key): nat
    requires i < |es| && es[i].Some?
  {
    var p := es[i].value;
    Max(0, Incoming(norm, AgainstVault(p), k) - Claimed(norm, es, i, p.account, k))
  }

  function TakeOf(norm: Norm, es: Entries, i: nat): Key -> int
    requires i < |es| && es[i].Some?
  {
    (k: Key) => Take(norm, es, i, k)
  }

  /** The `new_count` the review shows for record `i`. */
  function Predicted(norm: Norm, es: Entries, i: nat): nat
    requires i < |es| && es[i].Some?
  {
    var keys := KeysOf(norm, AgainstVault(es[i].value));
    SumOfNaturals(TakeOf(norm, es, i), keys);
    Sum(TakeOf(norm, es, i), keys)
  }

  function SpanOf(periods: map<nat, Period>, p: Preview): Option<nat> {
    if p.start.Some? && p.end.Some? then SpanId(periods, p.account, p.start.value, p.end.value) else None
  }

  /** Some recorded statement has the preview's account and both its dates. */
  ghost predicate SpanIsHeld(periods: map<nat, Period>, p: Preview) {
    exists id :: id in periods && periods[id].account == p.account && p.start == Some(periods[id].start)
                 && p.end == Some(periods[id].end)
  }

  lemma SpanOfTells(periods: map<nat, Period>, p: Preview)
    ensures SpanOf(periods, p).Some? <==> SpanIsHeld(periods, p)
  {
  }

  /** The review's verdict: the record will be committed. */
  predicate IsReady(norm: Norm, b: Books, es: Entries, i: nat)
    requires i < |es| && es[i].Some?
  {
    SpanOf(b.periods, es[i].value).None? || Predicted(norm, es, i) != 0
  }

  // ----- the sequential run -----

  /** Which records the review leaves ready. */
  function Ready(norm: Norm, b: Books, es: Entries): seq<bool> {
    seq(|es|, i requires 0 <= i < |es| => es[i].Some? && IsReady(norm, b, es, i))
  }

  /** One turn of the run: a ready record is committed under its own span. */
  ghost predicate IsTurn(norm: Norm, before: Books, e: Option<Preview>, ready: bool, after: Books) {
    if e.Some? && ready
    then
      var span := ValidateSpan(e.value.start, e.value.end);
      && span.Returned?
      && after == Committed(norm, before, e.value.account, e.value.drafts, span.value.0, span.value.1, e.value.closing)
    else after == before
  }

  /** The first `n` turns of a run: the books before each record's turn, and after the last. */
  ghost predicate RunSoFar(norm: Norm, b: Books, es: Entries, ready: seq<bool>, states: seq<Books>, n: nat)
    requires n <= |es| == |ready|
  {
    && |states| == n + 1 && states[0] == b
    && forall i {:trigger ready[i]} :: 0 <= i < n ==> IsTurn(norm, states[i], es[i], ready[i], states[i + 1])
  }

  ghost predicate IsRun(norm: Norm, b: Books, es: Entries, ready: seq<bool>, states: seq<Books>)
    requires |ready| == |es|
  {
    RunSoFar(norm, b, es, ready, states, |es|)
  }

  predicate UniqueRows(drafts: seq<Draft>) {
    forall i, j :: 0 <= i < j < |drafts| ==> drafts[i].row != drafts[j].row
  }

  /** Each preview was built against these rows, from a file whose row numbers are distinct. */
  ghost predicate FreshEntries(norm: Norm, b: Books, es: Entries) {
    forall i :: 0 <= i < |es| && es[i].Some? ==> FreshPreview(norm, b, es[i].value)
  }

  ghost predicate FreshPreview(norm: Norm, b: Books, p: Preview) {
    && UniqueRows(p.drafts)
    && p.dropped == DroppedRows(norm, b.txns, p.account, p.drafts)
    && ValidateSpan(p.start, p.end).Returned?
  }

  /** The undropped drafts are the ones the vault-only delta kept. */
  lemma {:induction false} UndroppedAreKept(norm: Norm, b: Books, p: Preview, n: nat)
    requires FreshPreview(norm, b, p) && n <= |p.drafts|
    ensures Undropped(p, n) == KeptOf(norm, b.txns, p.account, p.drafts, n)
  {
    if n != 0 {
      UndroppedAreKept(norm, b, p, n - 1);
      DroppedIff(norm, b, p, n - 1);
    }
  }

  lemma DroppedIff(norm: Norm, b: Books, p: Preview, i: nat)
    requires FreshPreview(norm, b, p) && i < |p.drafts|
    ensures p.drafts[i].row in p.dropped <==> !IsKept(norm, b.txns, p.account, p.drafts, i)
  {
    if p.drafts[i].row in p.dropped {
      var j :| 0 <= j < |p.drafts| && !IsKept(norm, b.txns, p.account, p.drafts, j)
          && p.drafts[j].row == p.drafts[i].row;
      assert i == j;
    }
  }

  lemma AgainstVaultCount(norm: Norm, b: Books, p: Preview, k: Key)
    requires FreshPreview(norm, b, p)
    ensures Incoming(norm, AgainstVault(p), k)
              == Max(0, Incoming(norm, p.drafts, k) - Existing(norm, b.txns, p.account, k))
  {
    AgainstVaultIsNew(norm, b, p);
    NewDraftCount(norm, b.txns, p.account, p.drafts, k);
  }

  lemma AgainstVaultIsNew(norm: Norm, b: Books, p: Preview)
    requires FreshPreview(norm, b, p)
    ensures AgainstVault(p) == NewDrafts(norm, b.txns, p.account, p.drafts)
  {
    UndroppedAreKept(norm, b, p, |p.drafts|);
  }

  lemma KeysCoverDrafts(norm: Norm, drafts: seq<Draft>)
    ensures NoDuplicates(KeysOf(norm, drafts))
    ensures forall k :: k in KeysOf(norm, drafts) <==> Incoming(norm, drafts, k) > 0
  {
    DistinctHolds(Map(KeyBy(norm), drafts));
    forall k ensures k in KeysOf(norm, drafts) <==> Incoming(norm, drafts, k) > 0 {
      InDistinct(Map(KeyBy(norm), drafts), k);
      IncomingIff(norm, drafts, k);
    }
  }

  lemma {:induction false} IncomingIff(norm: Norm, drafts: seq<Draft>, k: Key)
    ensures k in Map(KeyBy(norm), drafts) <==> Incoming(norm, drafts, k) > 0
    decreases |drafts|
  {
    if drafts != [] {
      var n := |drafts| - 1;
      IncomingIff(norm, drafts[..n], k);
      assert drafts == drafts[..n] + [drafts[n]];
      MapConcat(KeyBy(norm), drafts[..n], [drafts[n]]);
      assert Map(KeyBy(norm), [drafts[n]]) == [KeyOf(norm, drafts[n])];
    }
  }

  lemma NothingTaken(norm: Norm, es: Entries, i: nat, k: Key)
    requires i < |es| && es[i].Some? && Predicted(norm, es, i) == 0
    ensures Incoming(norm, AgainstVault(es[i].value), k) <= Claimed(norm, es, i, es[i].value.account, k)
  {
    var drafts := AgainstVault(es[i].value);
    KeysCoverDrafts(norm, drafts);
    if k in KeysOf(norm, drafts) {
      SumOfNaturals(TakeOf(norm, es, i), KeysOf(norm, drafts));
      assert TakeOf(norm, es, i)(k) == 0;
    }
  }

  /** The records a run passes over claim nothing. */
  ghost predicate PassedClaimNothing(norm: Norm, es: Entries, ready: seq<bool>)
    requires |ready| == |es|
  {
    forall i, k :: 0 <= i < |es| && es[i].Some? && !ready[i] ==>
      Incoming(norm, AgainstVault(es[i].value), k) <= Claimed(norm, es, i, es[i].value.account, k)
  }

  /** The rows are those of the vault and those that records claimed. */
  ghost predicate HoldsClaims(norm: Norm, vault: map<nat, Txn>, now: map<nat, Txn>, claimed: nat, account: nat,
                              k: Key) {
    Existing(norm, now, account, k) == Existing(norm, vault, account, k) + claimed
  }

  /** At every turn of the run the vault holds its own rows and what the records before claimed. */
  lemma RunHoldsClaims(norm: Norm, b: Books, es: Entries, ready: seq<bool>, states: seq<Books>, n: nat,
                       account: nat, k: Key)
    requires n <= |es| == |ready| && FreshEntries(norm, b, es) && PassedClaimNothing(norm, es, ready)
    requires IsRun(norm, b, es, ready, states)
    ensures HoldsClaims(norm, b.txns, states[n].txns, Claimed(norm, es, n, account, k), account, k)
  {
    forall m | 0 < m <= |es| ensures TurnFits(norm, b.txns, es, ready, states, m, account, k) {
      TurnJoins(norm, b, es, ready, states, m, account, k);
      EntryClaims(norm, b, es, ready, m - 1, account, k);
    }
    TurnsHoldClaims(norm, b.txns, es, ready, states, n, account, k);
  }

  /** What turn `n` needs to carry the claims on. */
  ghost predicate TurnFits(norm: Norm, vault: map<nat, Txn>, es: Entries, ready: seq<bool>, states: seq<Books>,
                           n: nat, account: nat, k: Key)
    requires 0 < n <= |es| == |ready| && |states| == |es| + 1
  {
    && IsJoinOf(norm, es[n - 1], ready[n - 1], states[n - 1].txns, states[n].txns, account, k)
    && IsClaim(norm, vault, es[n - 1], ready[n - 1], Claimed(norm, es, n - 1, account, k), account, k)
  }

  lemma {:induction false} TurnsHoldClaims(norm: Norm, vault: map<nat, Txn>, es: Entries, ready: seq<bool>,
                                           states: seq<Books>, n: nat, account: nat, k: Key)
    requires n <= |es| == |ready| && |states| == |es| + 1 && states[0].txns == vault
    requires forall m :: 0 < m <= |es| ==> TurnFits(norm, vault, es, ready, states, m, account, k)
    ensures HoldsClaims(norm, vault, states[n].txns, Claimed(norm, es, n, account, k), account, k)
    decreases n
  {
    if n != 0 {
      TurnsHoldClaims(norm, vault, es, ready, states, n - 1, account, k);
      assert TurnFits(norm, vault, es, ready, states, n, account, k);
      TurnHoldsClaims(norm, vault, es, ready, n, states[n - 1].txns, states[n].txns, account, k);
    }
  }

  /** What a turn does to the count of a key. */
  ghost predicate IsJoinOf(norm: Norm, e: Option<Preview>, ready: bool, before: map<nat, Txn>, after: map<nat, Txn>,
                           account: nat, k: Key) {
    if e.Some? && ready then CountsJoin(norm, before, after, e.value.account, e.value.drafts, account, k)
    else after == before
  }

  lemma TurnJoins(norm: Norm, b: Books, es: Entries, ready: seq<bool>, states: seq<Books>, n: nat, account: nat, k: Key)
    requires 0 < n <= |es| == |ready| && IsRun(norm, b, es, ready, states)
    ensures IsJoinOf(norm, es[n - 1], ready[n - 1], states[n - 1].txns, states[n].txns, account, k)
  {
    assert IsTurn(norm, states[n - 1], es[n - 1], ready[n - 1], states[n]);
    if ready[n - 1] && es[n - 1].Some? {
      var p := es[n - 1].value;
      var span := ValidateSpan(p.start, p.end).value;
      ImportIsAJoin(norm, states[n - 1], p.account, p.drafts, span.0, span.1, p.closing, account, k);
    }
  }

  /** What an entry of the account holds of a key beyond the vault's own rows; one passed over holds no
      more than is `claimed`. */
  ghost predicate IsClaim(norm: Norm, vault: map<nat, Txn>, e: Option<Preview>, ready: bool, claimed: nat,
                          account: nat, k: Key) {
    e.Some? && e.value.account == account ==>
      var lacked := Incoming(norm, AgainstVault(e.value), k);
      && lacked == Max(0, Incoming(norm, e.value.drafts, k) - Existing(norm, vault, account, k))
      && (!ready ==> lacked <= claimed)
  }

  lemma EntryClaims(norm: Norm, b: Books, es: Entries, ready: seq<bool>, i: nat, account: nat, k: Key)
    requires i < |es| == |ready| && FreshEntries(norm, b, es) && PassedClaimNothing(norm, es, ready)
    ensures IsClaim(norm, b.txns, es[i], ready[i], Claimed(norm, es, i, account, k), account, k)
  {
    if es[i].Some? {
      AgainstVaultCount(norm, b, es[i].value, k);
    }
  }

  lemma TurnHoldsClaims(norm: Norm, vault: map<nat, Txn>, es: Entries, ready: seq<bool>, n: nat,
                        before: map<nat, Txn>, after: map<nat, Txn>, account: nat, k: Key)
    requires 0 < n <= |es| == |ready| && IsJoinOf(norm, es[n - 1], ready[n - 1], before, after, account, k)
    requires IsClaim(norm, vault, es[n - 1], ready[n - 1], Claimed(norm, es, n - 1, account, k), account, k)
    requires HoldsClaims(norm, vault, before, Claimed(norm, es, n - 1, account, k), account, k)
    ensures HoldsClaims(norm, vault, after, Claimed(norm, es, n, account, k), account, k)
  {
    var e, was, now := es[n - 1], Claimed(norm, es, n - 1, account, k), Claimed(norm, es, n, account, k);
    if e.Some? && ready[n - 1] {
      LandingAddsClaim(norm, vault, before, after, e.value.account, e.value.drafts, account, k, was, now);
    }
  }

  lemma LandingAddsClaim(norm: Norm, vault: map<nat, Txn>, before: map<nat, Txn>, after: map<nat, Txn>,
                         of: nat, drafts: seq<Draft>, account: nat, k: Key, claimed: nat, now: nat)
    requires CountsJoin(norm, before, after, of, drafts, account, k)
    requires HoldsClaims(norm, vault, before, claimed, account, k)
    requires now
          == if account == of then Max(claimed, Incoming(norm, drafts, k) - Existing(norm, vault, of, k)) else claimed
    ensures HoldsClaims(norm, vault, after, now, account, k)
  {
  }

  lemma ReadyLeavesOutOnlyEmpty(norm: Norm, b: Books, es: Entries)
    ensures PassedClaimNothing(norm, es, Ready(norm, b, es))
  {
    forall i, k | 0 <= i < |es| && es[i].Some? && !Ready(norm, b, es)[i]
      ensures Incoming(norm, AgainstVault(es[i].value), k) <= Claimed(norm, es, i, es[i].value.account, k)
    {
      NothingTaken(norm, es, i, k);
    }
  }

  function IncomingOf(norm: Norm, drafts: seq<Draft>): Key -> int {
    (k: Key) => Incoming(norm, drafts, k)
  }

  /** Distinct keys that cover a list count each of its drafts once. */
  lemma {:induction false} LengthIsSum(norm: Norm, drafts: seq<Draft>, keys: seq<Key>)
    requires NoDuplicates(keys) && forall k :: Incoming(norm, drafts, k) > 0 ==> k in keys
    ensures |drafts| == Sum(IncomingOf(norm, drafts), keys)
    decreases |drafts|
  {
    if drafts == [] {
      NoTerms(IncomingOf(norm, []), keys);
    } else {
      var n := |drafts| - 1;
      PrefixCounts(norm, drafts, n);
      LengthIsSum(norm, drafts[..n], keys);
      SumRaisedAt(IncomingOf(norm, drafts[..n]), IncomingOf(norm, drafts), keys, KeyOf(norm, drafts[n]));
    }
  }

  /** What an import of record `i` would insert into `now`. */
  ghost function Landing(norm: Norm, now: Books, p: Preview): seq<Draft> {
    NewDrafts(norm, now.txns, p.account, p.drafts)
  }

  /** With `claimed` rows of a key landed before them, drafts land what those the vault lacked exceed them by. */
  lemma LandsTheExcess(norm: Norm, vault: map<nat, Txn>, now: map<nat, Txn>, account: nat, drafts: seq<Draft>,
                       lacked: nat, claimed: nat, k: Key)
    requires lacked == Max(0, Incoming(norm, drafts, k) - Existing(norm, vault, account, k))
    requires HoldsClaims(norm, vault, now, claimed, account, k)
    ensures Incoming(norm, NewDrafts(norm, now, account, drafts), k) == Max(0, lacked - claimed)
  {
    NewDraftCount(norm, now, account, drafts, k);
  }

  lemma LandsItsTake(norm: Norm, b: Books, es: Entries, states: seq<Books>, i: nat, k: Key)
    requires FreshEntries(norm, b, es) && IsRun(norm, b, es, Ready(norm, b, es), states)
    requires i < |es| && es[i].Some?
    ensures Incoming(norm, Landing(norm, states[i], es[i].value), k) == Take(norm, es, i, k)
  {
    var p := es[i].value;
    var lacked, claimed := Incoming(norm, AgainstVault(p), k), Claimed(norm, es, i, p.account, k);
    assert HoldsClaims(norm, b.txns, states[i].txns, claimed, p.account, k) by {
      ReadyLeavesOutOnlyEmpty(norm, b, es);
      RunHoldsClaims(norm, b, es, Ready(norm, b, es), states, i, p.account, k);
    }
    assert lacked == Max(0, Incoming(norm, p.drafts, k) - Existing(norm, b.txns, p.account, k)) by {
      AgainstVaultCount(norm, b, p, k);
    }
    LandsTheExcess(norm, b.txns, states[i].txns, p.account, p.drafts, lacked, claimed, k);
  }

  /** The review predicts the run: when the run reaches a record, exactly as many of its drafts are
      new as the review said. A record the run passes over would have inserted nothing. */
  lemma ReviewPredictsRun(norm: Norm, b: Books, es: Entries, states: seq<Books>, i: nat)
    requires FreshEntries(norm, b, es) && IsRun(norm, b, es, Ready(norm, b, es), states)
    requires i < |es| && es[i].Some?
    ensures |Landing(norm, states[i], es[i].value)| == Predicted(norm, es, i)
    ensures !IsReady(norm, b, es, i) ==> Landing(norm, states[i], es[i].value) == []
  {
    forall k ensures Incoming(norm, Landing(norm, states[i], es[i].value), k) == Take(norm, es, i, k) {
      LandsItsTake(norm, b, es, states, i, k);
    }
    LengthIsPredicted(norm, es, i, Landing(norm, states[i], es[i].value));
  }

  /** Drafts that hold of each key what the record takes are as many as the review shows. */
  lemma LengthIsPredicted(norm: Norm, es: Entries, i: nat, landing: seq<Draft>)
    requires i < |es| && es[i].Some?
    requires forall k :: Incoming(norm, landing, k) == Take(norm, es, i, k)
    ensures |landing| == Predicted(norm, es, i)
  {
    var undropped := AgainstVault(es[i].value);
    var keys := KeysOf(norm, undropped);
    KeysCoverDrafts(norm, undropped);
    forall k | Incoming(norm, landing, k) > 0 ensures k in keys {
      assert Take(norm, es, i, k) > 0 ==> Incoming(norm, undropped, k) > 0;
    }
    LengthIsSum(norm, landing, keys);
    SumsAgree(TakeOf(norm, es, i), IncomingOf(norm, landing), keys);
  }

  // ----- the records -----

  datatype Outcome =
    | Waiting | ReadyToCommit | AlreadyImported | NeedsPassword | NeedsMapping | NeedsAccount
    | Failed | Skipped | WasCommitted | NotAttempted

  /** `_TERMINAL`: the outcomes a record can no longer move out of. */
  predicate IsTerminal(o: Outcome) {
    o == WasCommitted || o == Failed || o == Skipped || o == NotAttempted
  }

  datatype Parsed = Parsed(drafts: seq<Draft>, errors: nat, start: Option<int>, end: Option<int>, closing: Option<int>)

  /** One selected statement, from selection to its result. */
  class BatchFile {
    const path: string
    var outcome: Outcome
    var parsed: Option<Parsed>
    var preview: Option<Preview>
    var account: Option<nat>
    var newCount: nat
    var duplicateCount: nat
    var result: Option<ImportResult>
    var reason: Option<ImportError>
    var pendingPassword: Option<string>
    var rememberPassword: bool

    constructor (path: string)
      ensures this.path == path && outcome == Waiting
      ensures parsed.None? && preview.None? && account.None? && result.None? && newCount == 0 == duplicateCount
      ensures reason.None? && pendingPassword.None? && !rememberPassword
    {
      this.path := path;
      outcome, parsed, preview, account, result := Waiting, None, None, None, None;
      newCount, duplicateCount := 0, 0;
      reason, pendingPassword, rememberPassword := None, None, false;
    }

    /** What a review looks at. */
    ghost function Entry(): Option<Preview>
      reads this`outcome, this`preview
    {
      match outcome
      case WasCommitted | Failed | Skipped | NotAttempted => None
      case _ => preview
    }
  }

  /** The statement passwords the accounts remember. */
  class PasswordStore {
    var saved: map<nat, string>

    constructor ()
      ensures saved == map[]
    {
      saved := map[];
    }

    /** `set_pdf_password`. */
    method SetPdfPassword(account: nat, password: string)
      modifies this
      ensures saved == old(saved)[account := password]
    {
      saved := saved[account := password];
    }
  }

  /** `es` is what a review of `files` looks at. */
  ghost predicate Shows(files: seq<BatchFile>, es: Entries)
    reads files`outcome, files`preview
  {
    |es| == |files| && forall i :: 0 <= i < |files| ==> es[i] == files[i].Entry()
  }

  /** `set_account`: the preview and the shown account move together, and only if neither is settled. */
  method SetAccount(norm: Norm, db: Tables, record: BatchFile, account: nat)
    modifies record
    ensures old(record.parsed.None? || IsTerminal(record.outcome)) ==> unchanged(record)
    ensures old(record.parsed.Some? && !IsTerminal(record.outcome)) ==>
              && record.account == Some(account) && record.outcome == ReadyToCommit
              && record.parsed == old(record.parsed) && record.result == old(record.result)
              && record.preview == Some(
                   if old(record.preview).None?
                   then var p := old(record.parsed.value);
                        PreviewOf(norm, db.txns, account, p.drafts, p.errors, p.start, p.end, p.closing)
                   else var p := old(record.preview.value);
                        PreviewOf(norm, db.txns, account, p.drafts, p.errors, p.start, p.end, p.closing))
  {
    if record.parsed.None? || IsTerminal(record.outcome) {
      return;
    }
    var p;
    if record.preview.None? {
      var parsed := record.parsed.value;
      p := BuildPreview(norm, db, account, parsed.drafts, parsed.errors, parsed.start, parsed.end, parsed.closing);
    } else {
      p := Retarget(norm, db, record.preview.value, account);
    }
    record.preview := Some(p);
    record.account := Some(account);
    record.outcome := ReadyToCommit;
  }

  // ----- the review's loops -----

  type Claims = map<nat, map<Key, nat>>

  function ClaimsOf(claims: Claims, account: nat, k: Key): nat {
    if account in claims then Get(claims[account], k) else 0
  }

  /** The drafts a preview did not drop, their distinct keys in order, and the counter over them. */
  method CountAgainstVault(norm: Norm, p: Preview) returns (keys: seq<Key>, counts: map<Key, nat>)
    ensures keys == KeysOf(norm, AgainstVault(p))
    ensures forall k :: Get(counts, k) == Incoming(norm, AgainstVault(p), k)
  {
    var drafts: seq<Draft> := [];
    for i := 0 to |p.drafts|
      invariant drafts == Undropped(p, i)
    {
      drafts := drafts + if p.drafts[i].row in p.dropped then [] else [p.drafts[i]];
    }
    keys := [];
    for i := 0 to |drafts|
      invariant keys == KeysOf(norm, drafts[..i])
    {
      KeysGrow(norm, drafts, i);
      var key := KeyOf(norm, drafts[i]);
      keys := if key in keys then keys else keys + [key];
    }
    assert drafts[..|drafts|] == drafts;
    counts := CountIncoming(norm, drafts);
  }

  lemma KeysGrow(norm: Norm, drafts: seq<Draft>, i: nat)
    requires i < |drafts|
    ensures var keys, key := KeysOf(norm, drafts[..i]), KeyOf(norm, drafts[i]);
            KeysOf(norm, drafts[..i + 1]) == if key in keys then keys else keys + [key]
  {
    assert drafts[..i + 1] == drafts[..i] + [drafts[i]];
    MapConcat(KeyBy(norm), drafts[..i], [drafts[i]]);
    assert Map(KeyBy(norm), [drafts[i]]) == [KeyOf(norm, drafts[i])];
    DistinctNext(Map(KeyBy(norm), drafts[..i]), KeyOf(norm, drafts[i]));
  }

  function TakenFrom(counts: map<Key, nat>, claims: map<Key, nat>): Key -> int {
    (k: Key) => Max(0, Get(counts, k) - Get(claims, k))
  }

  /** The claims once the keys `taken` are dealt with. */
  ghost predicate HoldsTaken(counts: map<Key, nat>, claims: map<Key, nat>, taken: seq<Key>, mine: map<Key, nat>) {
    forall k :: Get(mine, k) == if k in taken then Max(Get(claims, k), Get(counts, k)) else Get(claims, k)
  }

  /** The inner loop of `cumulative_counts`: what one record takes, and the claims it leaves. */
  method TakeKeys(keys: seq<Key>, counts: map<Key, nat>, claims: map<Key, nat>)
      returns (total: nat, mine: map<Key, nat>)
    requires NoDuplicates(keys)
    ensures total == Sum(TakenFrom(counts, claims), keys) && HoldsTaken(counts, claims, keys, mine)
  {
    total, mine := 0, claims;
    for j := 0 to |keys|
      invariant total == Sum(TakenFrom(counts, claims), keys[..j]) && HoldsTaken(counts, claims, keys[..j], mine)
    {
      assert keys[..j + 1] == keys[..j] + [keys[j]];
      SumNext(TakenFrom(counts, claims), keys[..j], keys[j]);
      var take;
      take, mine := TakeKey(counts, claims, mine, keys[j], keys[..j]);
      total := total + take;
    }
    assert keys[..|keys|] == keys;
  }

  method TakeKey(counts: map<Key, nat>, ghost claims: map<Key, nat>, mine: map<Key, nat>, k: Key, ghost taken: seq<Key>)
      returns (take: nat, now: map<Key, nat>)
    requires k !in taken && HoldsTaken(counts, claims, taken, mine)
    ensures take == TakenFrom(counts, claims)(k) && HoldsTaken(counts, claims, taken + [k], now)
  {
    take := Max(0, Get(counts, k) - Get(mine, k));
    now := mine[k := Get(mine, k) + take];
  }

  lemma TakenIsPredicted(norm: Norm, es: Entries, i: nat, keys: seq<Key>, counts: map<Key, nat>, claims: map<Key, nat>)
    requires i < |es| && es[i].Some?
    requires forall k :: Get(counts, k) == Incoming(norm, AgainstVault(es[i].value), k)
    requires forall k :: Get(claims, k) == Claimed(norm, es, i, es[i].value.account, k)
    ensures Sum(TakenFrom(counts, claims), keys) == Sum(TakeOf(norm, es, i), keys)
  {
    forall k ensures TakenFrom(counts, claims)(k) == TakeOf(norm, es, i)(k) {
    }
    SumsAgree(TakenFrom(counts, claims), TakeOf(norm, es, i), keys);
  }

  method ClaimKeys(norm: Norm, ghost es: Entries, ghost i: nat, p: Preview, claims: map<Key, nat>)
      returns (total: nat, mine: map<Key, nat>)
    requires i < |es| && es[i] == Some(p)
    requires forall k :: Get(claims, k) == Claimed(norm, es, i, p.account, k)
    ensures total == Predicted(norm, es, i)
    ensures forall k :: Get(mine, k) == Claimed(norm, es, i + 1, p.account, k)
  {
    var keys, counts := CountAgainstVault(norm, p);
    KeysCoverDrafts(norm, AgainstVault(p));
    total, mine := TakeKeys(keys, counts, claims);
    TakenIsPredicted(norm, es, i, keys, counts, claims);
  }

  ghost predicate HoldsAllClaims(norm: Norm, es: Entries, i: nat, claims: Claims)
    requires i <= |es|
  {
    forall a, k :: ClaimsOf(claims, a, k) == Claimed(norm, es, i, a, k)
  }

  method ClaimRecord(norm: Norm, ghost es: Entries, ghost i: nat, p: Preview, claims: Claims)
      returns (total: nat, after: Claims)
    requires i < |es| && es[i] == Some(p) && HoldsAllClaims(norm, es, i, claims)
    ensures total == Predicted(norm, es, i) && HoldsAllClaims(norm, es, i + 1, after)
  {
    var mine: map<Key, nat> := if p.account in claims then claims[p.account] else map[];
    assert forall k :: Get(mine, k) == ClaimsOf(claims, p.account, k);
    total, mine := ClaimKeys(norm, es, i, p, mine);
    after := claims[p.account := mine];
    forall a, k ensures ClaimsOf(after, a, k) == Claimed(norm, es, i + 1, a, k) {
      assert a != p.account ==> ClaimsOf(after, a, k) == ClaimsOf(claims, a, k);
    }
  }

  ghost predicate IsPredicted(norm: Norm, es: Entries, i: nat, n: nat)
    requires i < |es|
  {
    es[i].Some? ==> n == Predicted(norm, es, i)
  }

  /** `shown` are the new counts of the entries. */
  ghost predicate Predicts(norm: Norm, es: Entries, shown: seq<nat>) {
    |shown| == |es| && forall i {:trigger IsPredicted(norm, es, i, shown[i])} :: 0 <= i < |es| ==>
        IsPredicted(norm, es, i, shown[i])
  }

  /** The review shows `n` new rows for the entry, and its other drafts as duplicates. */
  ghost predicate Counted(f: BatchFile, e: Option<Preview>, n: nat)
    reads f`newCount, f`duplicateCount
  {
    e.Some? ==> f.newCount == n && f.newCount + f.duplicateCount == |e.value.drafts|
  }

  /** One turn of `cumulative_counts`. */
  method CountRecord(norm: Norm, ghost es: Entries, ghost i: nat, record: BatchFile, claims: Claims, ghost shown: nat)
      returns (after: Claims)
    requires i < |es| && HoldsAllClaims(norm, es, i, claims) && es[i] == record.Entry()
    requires IsPredicted(norm, es, i, shown)
    modifies record`newCount, record`duplicateCount
    ensures Counted(record, es[i], shown) && HoldsAllClaims(norm, es, i + 1, after)
    ensures es[i].None? ==>
              && record.newCount == old(record.newCount)
              && record.duplicateCount == old(record.duplicateCount)
  {
    if record.preview.None? || IsTerminal(record.outcome) {
      return claims;
    }
    PredictedFits(norm, es, i);
    var total;
    total, after := ClaimRecord(norm, es, i, record.preview.value, claims);
    record.newCount, record.duplicateCount := total, |record.preview.value.drafts| - total;
  }

  /** `cumulative_counts`: records without an entry keep their counts. */
  method CumulativeCounts(norm: Norm, files: seq<BatchFile>, ghost es: Entries, ghost shown: seq<nat>)
    requires NoDuplicates(files) && Shows(files, es) && Predicts(norm, es, shown)
    modifies files`newCount, files`duplicateCount
    ensures forall i :: 0 <= i < |files| ==> Counted(files[i], es[i], shown[i])
    ensures forall i :: 0 <= i < |files| && es[i].None? ==>
              files[i].newCount == old(files[i].newCount) && files[i].duplicateCount == old(files[i].duplicateCount)
  {
    var claims: Claims := map[];
    for i := 0 to |files|
      invariant HoldsAllClaims(norm, es, i, claims)
      invariant forall j :: 0 <= j < i ==> Counted(files[j], es[j], shown[j])
      invariant forall j :: 0 <= j < |files| && (es[j].None? || i <= j) ==>
                  files[j].newCount == old(files[j].newCount) && files[j].duplicateCount == old(files[j].duplicateCount)
    {
      claims := CountRecord(norm, es, i, files[i], claims, shown[i]);
    }
  }

  /** A record takes no more than it has. */
  lemma PredictedFits(norm: Norm, es: Entries, i: nat)
    requires i < |es| && es[i].Some?
    ensures Predicted(norm, es, i) <= |es[i].value.drafts|
  {
    var p := es[i].value;
    KeysCoverDrafts(norm, AgainstVault(p));
    LengthIsSum(norm, AgainstVault(p), KeysOf(norm, AgainstVault(p)));
    SumMonotone(TakeOf(norm, es, i), IncomingOf(norm, AgainstVault(p)), KeysOf(norm, AgainstVault(p)));
    UndroppedFits(p, |p.drafts|);
  }

  lemma {:induction false} UndroppedFits(p: Preview, n: nat)
    requires n <= |p.drafts|
    ensures |Undropped(p, n)| <= n
  {
    if n != 0 {
      UndroppedFits(p, n - 1);
    }
  }

  /** The review's two-way verdict on an entry. */
  ghost predicate Judged(periods: map<nat, Period>, f: BatchFile, e: Option<Preview>)
    reads f`outcome, f`newCount
  {
    e.Some? ==>
      f.outcome == if SpanIsHeld(periods, e.value) && f.newCount == 0 then AlreadyImported else ReadyToCommit
  }

  /** The verdict half of `review`, for one record. */
  method JudgeRecord(db: Tables, record: BatchFile)
    modifies record`outcome
    ensures Judged(db.periods, record, record.Entry())
    ensures record.Entry() == old(record.Entry())
    ensures record.Entry().None? ==> record.outcome == old(record.outcome)
  {
    if record.preview.None? || IsTerminal(record.outcome) {
      return;
    }
    var p := record.preview.value;
    var span := None;
    if p.start.Some? && p.end.Some? {
      span := db.IdForSpan(p.account, p.start.value, p.end.value);
    }
    SpanOfTells(db.periods, p);
    record.outcome := if span.Some? && record.newCount == 0 then AlreadyImported else ReadyToCommit;
  }

  method JudgeAll(db: Tables, files: seq<BatchFile>, ghost es: Entries)
    requires NoDuplicates(files) && Shows(files, es)
    modifies files`outcome
    ensures Shows(files, es)
    ensures forall i :: 0 <= i < |files| ==> Judged(db.periods, files[i], es[i])
    ensures forall i :: 0 <= i < |files| && es[i].None? ==> files[i].outcome == old(files[i].outcome)
  {
    for i := 0 to |files|
      invariant Shows(files, es)
      invariant forall j :: 0 <= j < |files| && es[j].None? ==> files[j].outcome == old(files[j].outcome)
      invariant forall j :: 0 <= j < i ==> Judged(db.periods, files[j], es[j])
    {
      JudgeRecord(db, files[i]);
    }
  }

  /** `review`: counts first, then every outcome from scratch; records without an entry stay as they are. */
  method Review(norm: Norm, db: Tables, files: seq<BatchFile>, ghost es: Entries, ghost shown: seq<nat>)
    requires NoDuplicates(files) && Shows(files, es) && Predicts(norm, es, shown)
    modifies files`newCount, files`duplicateCount, files`outcome
    ensures Shows(files, es)
    ensures forall i :: 0 <= i < |files| ==> Counted(files[i], es[i], shown[i]) && Judged(db.periods, files[i], es[i])
    ensures forall i :: 0 <= i < |files| && es[i].None? ==>
              && files[i].outcome == old(files[i].outcome)
              && files[i].newCount == old(files[i].newCount) && files[i].duplicateCount == old(files[i].duplicateCount)
  {
    CumulativeCounts(norm, files, es, shown);
    JudgeAll(db, files, es);
  }

  // ----- the run -----

  /** `_remember_password`. */
  method RememberPassword(store: PasswordStore, record: BatchFile)
    modifies store
    ensures store.saved
         == if record.rememberPassword && record.pendingPassword.Some? && |record.pendingPassword.value| > 0
               && record.account.Some?
            then old(store.saved)[record.account.value := record.pendingPassword.value] else old(store.saved)
  {
    if record.rememberPassword && record.account.Some? {
      if record.pendingPassword.Some? && record.pendingPassword.value != "" {
        store.SetPdfPassword(record.account.value, record.pendingPassword.value);
      }
    }
  }

  /** `run_step` and `_commit` for one record: a file that fails leaves the tables and the passwords alone. */
  method RunStep(norm: Norm, db: Tables, store: PasswordStore, record: BatchFile)
    modifies db, store, record`outcome, record`result, record`reason
    ensures old(record.outcome) == ReadyToCommit && old(record.preview).Some? ==>
              var p := old(record.preview).value;
              var span := ValidateSpan(p.start, p.end);
              if span.Raised?
              then
                && record.outcome == Failed && record.reason == Some(span.error) && record.result == old(record.result)
                && db.Now() == old(db.Now()) && store.saved == old(store.saved)
              else
                && record.outcome == WasCommitted && record.reason == old(record.reason)
                && db.Now() == Committed(norm, old(db.Now()), p.account, p.drafts,
                     span.value.0, span.value.1, p.closing)
                && record.result.Some?
                && record.result.value.inserted == |Landing(norm, old(db.Now()), p)|
                && record.result.value.inserted + record.result.value.duplicates == |p.drafts|
                && store.saved
                == if record.rememberPassword && record.pendingPassword.Some? && |record.pendingPassword.value| > 0
                      && record.account.Some?
                   then old(store.saved)[record.account.value := record.pendingPassword.value] else old(store.saved)
    ensures !(old(record.outcome) == ReadyToCommit && old(record.preview).Some?) ==>
              && record.outcome == old(record.outcome) && record.result == old(record.result)
              && record.reason == old(record.reason) && db.Now() == old(db.Now()) && store.saved == old(store.saved)
  {
    if record.outcome != ReadyToCommit || record.preview.None? {
      return;
    }
    var p := record.preview.value;
    var r := CommitImport(norm, db, p, p.start, p.end);
    if r.Raised? {
      record.outcome, record.reason := Failed, Some(r.error);
      return;
    }
    record.result := Some(r.value);
    record.outcome := WasCommitted;
    RememberPassword(store, record);
  }

  /** The record's result is what the review showed. */
  ghost predicate AsShown(f: BatchFile)
    reads f`outcome, f`result, f`newCount, f`duplicateCount
  {
    && f.outcome == WasCommitted && f.result.Some?
    && f.result.value.inserted == f.newCount && f.result.value.duplicates == f.duplicateCount
  }

  /** How a reviewed record ends: committed as shown if it was ready; if it was already imported, left
      alone, and importing it would have inserted nothing; untouched if the review passed it over. */
  ghost predicate EndsAsReviewed(norm: Norm, f: BatchFile, e: Option<Preview>, ready: bool, at: Books)
    reads f`outcome, f`result, f`newCount, f`duplicateCount
  {
    e.Some? ==> if ready then AsShown(f) else f.outcome == AlreadyImported && Landing(norm, at, e.value) == []
  }

  /** A record as the review left it. */
  ghost predicate IsReviewed(f: BatchFile, e: Option<Preview>, n: nat, ready: bool)
    reads f`outcome, f`preview, f`newCount, f`duplicateCount
  {
    && f.Entry() == e && Counted(f, e, n)
    && (e.Some? ==> f.outcome == if ready then ReadyToCommit else AlreadyImported)
  }

  /** What a record holds after its turn. */
  ghost predicate Landed(norm: Norm, f: BatchFile, e: Option<Preview>, ready: bool, at: Books)
    reads f`outcome, f`result
  {
    e.Some? ==>
      if ready
      then
        && f.outcome == WasCommitted && f.result.Some?
        && f.result.value.inserted == |Landing(norm, at, e.value)|
        && f.result.value.inserted + f.result.value.duplicates == |e.value.drafts|
      else f.outcome == AlreadyImported
  }

  method RunReviewed(norm: Norm, db: Tables, store: PasswordStore, record: BatchFile,
                     ghost e: Option<Preview>, ghost n: nat, ghost ready: bool)
    requires IsReviewed(record, e, n, ready) && SpanValid(e)
    modifies db, store, record`outcome, record`result, record`reason
    ensures IsTurn(norm, old(db.Now()), e, ready, db.Now())
    ensures HadItsTurn(norm, record, e, n, ready, old(db.Now()))
  {
    RunStep(norm, db, store, record);
  }

  ghost predicate SpanValid(e: Option<Preview>) {
    e.Some? ==> ValidateSpan(e.value.start, e.value.end).Returned?
  }

  lemma OneMoreTurn(norm: Norm, b: Books, es: Entries, ready: seq<bool>, states: seq<Books>, n: nat, now: Books)
    requires n < |es| == |ready| && RunSoFar(norm, b, es, ready, states, n)
    requires IsTurn(norm, states[n], es[n], ready[n], now)
    ensures RunSoFar(norm, b, es, ready, states + [now], n + 1)
  {
    var more := states + [now];
    forall i {:trigger ready[i]} | 0 <= i < n + 1 ensures IsTurn(norm, more[i], es[i], ready[i], more[i + 1]) {
      assert more[i] == states[i] && more[i + 1] == if i < n then states[i + 1] else now;
    }
  }

  /** A record after its turn, which the books `at` came before. */
  ghost predicate HadItsTurn(norm: Norm, f: BatchFile, e: Option<Preview>, n: nat, ready: bool, at: Books)
    reads f`outcome, f`result, f`newCount, f`duplicateCount
  {
    Landed(norm, f, e, ready, at) && Counted(f, e, n)
  }

  /** `run_step` over the whole list. */
  method RunSteps(norm: Norm, db: Tables, store: PasswordStore, files: seq<BatchFile>,
                  ghost es: Entries, ghost shown: seq<nat>, ghost ready: seq<bool>)
      returns (ghost states: seq<Books>)
    requires NoDuplicates(files) && |files| == |es| == |shown| == |ready|
    requires forall i :: 0 <= i < |files| ==> SpanValid(es[i]) && IsReviewed(files[i], es[i], shown[i], ready[i])
    modifies db, store, files`outcome, files`result, files`reason
    ensures IsRun(norm, old(db.Now()), es, ready, states) && db.Now() == states[|files|]
    ensures forall i :: 0 <= i < |files| ==> HadItsTurn(norm, files[i], es[i], shown[i], ready[i], states[i])
  {
    states := [db.Now()];
    for i := 0 to |files|
      invariant RunSoFar(norm, old(db.Now()), es, ready, states, i) && db.Now() == states[i]
      invariant forall j :: i <= j < |files| ==> IsReviewed(files[j], es[j], shown[j], ready[j])
      invariant forall j :: 0 <= j < i ==> HadItsTurn(norm, files[j], es[j], shown[j], ready[j], states[j])
    {
      RunReviewed(norm, db, store, files[i], es[i], shown[i], ready[i]);
      OneMoreTurn(norm, old(db.Now()), es, ready, states, i, db.Now());
      states := states + [db.Now()];
    }
  }

  /** The review, then the run: on previews built against the vault as it is, with valid spans, every
      ready file lands exactly the counts the review showed, and no other file had anything to land. */
  method ImportAll(norm: Norm, db: Tables, store: PasswordStore, files: seq<BatchFile>, ghost es: Entries)
      returns (ghost states: seq<Books>)
    requires NoDuplicates(files) && Shows(files, es) && FreshEntries(norm, db.Now(), es)
    modifies db, store, files`newCount, files`duplicateCount, files`outcome, files`result, files`reason
    ensures IsRun(norm, old(db.Now()), es, Ready(norm, old(db.Now()), es), states) && db.Now() == states[|files|]
    ensures forall i :: 0 <= i < |files| ==>
              EndsAsReviewed(norm, files[i], es[i], Ready(norm, old(db.Now()), es)[i], states[i])
    ensures forall i :: 0 <= i < |files| ==> IsLeftAlone(files[i], es[i], old(db.Now()).periods)
  {
    ghost var b := db.Now();
    ghost var shown: seq<nat> :=
      seq(|es|, i requires 0 <= i < |es| => if es[i].Some? then Predicted(norm, es, i) else 0);
    ghost var ready := Ready(norm, b, es);
    Review(norm, db, files, es, shown);
    forall i | 0 <= i < |files| ensures IsReviewed(files[i], es[i], shown[i], ready[i]) {
      assert Counted(files[i], es[i], shown[i]) && Judged(b.periods, files[i], es[i]);
      if es[i].Some? {
        ReadyIsJudged(norm, b, es, i);
      }
    }
    states := RunSteps(norm, db, store, files, es, shown, ready);
    forall i | 0 <= i < |files|
      ensures EndsAsReviewed(norm, files[i], es[i], ready[i], states[i]) && IsLeftAlone(files[i], es[i], b.periods)
    {
      if es[i].Some? {
        ReviewPredictsRun(norm, b, es, states, i);
        ReadyIsJudged(norm, b, es, i);
      }
      RecordEnds(norm, files[i], es[i], shown[i], ready[i], states[i], b.periods);
    }
  }

  /** The run left the record alone exactly if it had nothing new and its span was recorded before. */
  ghost predicate IsLeftAlone(f: BatchFile, e: Option<Preview>, periods: map<nat, Period>)
    reads f`outcome, f`newCount
  {
    e.Some? ==> (f.outcome == AlreadyImported <==> f.newCount == 0 && SpanIsHeld(periods, e.value))
  }

  lemma RecordEnds(norm: Norm, f: BatchFile, e: Option<Preview>, n: nat, ready: bool, at: Books,
                   periods: map<nat, Period>)
    requires HadItsTurn(norm, f, e, n, ready, at)
    requires e.Some? ==> |Landing(norm, at, e.value)| == n
    requires e.Some? ==> (ready <==> !(SpanIsHeld(periods, e.value) && n == 0))
    ensures EndsAsReviewed(norm, f, e, ready, at) && IsLeftAlone(f, e, periods)
  {
  }

  lemma ReadyIsJudged(norm: Norm, b: Books, es: Entries, i: nat)
    requires i < |es| && es[i].Some?
    ensures Ready(norm, b, es)[i] <==> !(SpanIsHeld(b.periods, es[i].value) && Predicted(norm, es, i) == 0)
  {
    SpanOfTells(b.periods, es[i].value);
  }
}
