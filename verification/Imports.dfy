/** Previewing and committing an import (`services/import_.py`). */
module Imports {
  import opened Wrappers
  import opened Sequences
  import opened Ledger

  /** `row` is the draft's row number in its file. */
  datatype Draft = Draft(day: int, amount: int, description: string, row: nat)

  datatype Key = Key(day: int, amount: int, text: string)

  /** `_normalise`, about which nothing is assumed. */
  type Norm = string -> string

  function KeyOf(norm: Norm, d: Draft): Key {
    Key(d.day, d.amount, norm(d.description))
  }

  function RowKey(norm: Norm, t: Txn): Key {
    Key(t.day, t.amount, norm(t.description))
  }

  function Max(x: int, y: int): int { if x < y then y else x }

  function Min(x: int, y: int): int { if x < y then x else y }

  // ----- counting -----

  /** How many drafts have the key. */
  function Incoming(norm: Norm, drafts: seq<Draft>, k: Key): nat {
    if drafts == [] then 0
    else Incoming(norm, drafts[..|drafts| - 1], k) + if KeyOf(norm, drafts[|drafts| - 1]) == k then 1 else 0
  }

  predicate HasKey(norm: Norm, t: Txn, account: nat, k: Key) {
    t.account == account && RowKey(norm, t) == k
  }

  function RowsWith(norm: Norm, txns: map<nat, Txn>, account: nat, k: Key): set<nat> {
    set t | t in txns && HasKey(norm, txns[t], account, k)
  }

  /** How many rows of the account have the key, hand-entered ones included. */
  function Existing(norm: Norm, txns: map<nat, Txn>, account: nat, k: Key): nat {
    |RowsWith(norm, txns, account, k)|
  }

  /** How many drafts of a key are new. */
  function Delta(norm: Norm, txns: map<nat, Txn>, account: nat, drafts: seq<Draft>, k: Key): nat {
    Max(0, Incoming(norm, drafts, k) - Existing(norm, txns, account, k))
  }

  /** The places of the drafts with this day, amount and normalised text. */
  ghost function Alike(norm: Norm, drafts: seq<Draft>, day: int, amount: int, text: string): set<nat> {
    set i: nat | i < |drafts| && drafts[i].day == day && drafts[i].amount == amount
        && norm(drafts[i].description) == text
  }

  /** The account's rows with this day, amount and normalised text. */
  ghost function RowsAlike(norm: Norm, txns: map<nat, Txn>, account: nat, day: int, amount: int,
                           text: string): set<nat> {
    set t | t in txns && txns[t].account == account && txns[t].day == day && txns[t].amount == amount
            && norm(txns[t].description) == text
  }

  /** A key is a day, an amount and a normalised text, of a draft as of a row. */
  lemma CountsSpelledOut(norm: Norm, drafts: seq<Draft>, txns: map<nat, Txn>, account: nat, k: Key)
    ensures Incoming(norm, drafts, k) == |Alike(norm, drafts, k.day, k.amount, k.text)|
    ensures Existing(norm, txns, account, k) == |RowsAlike(norm, txns, account, k.day, k.amount, k.text)|
  {
    IncomingSpelledOut(norm, drafts, k);
    assert RowsWith(norm, txns, account, k) == RowsAlike(norm, txns, account, k.day, k.amount, k.text);
  }

  lemma {:induction false} IncomingSpelledOut(norm: Norm, drafts: seq<Draft>, k: Key)
    ensures Incoming(norm, drafts, k) == |Alike(norm, drafts, k.day, k.amount, k.text)|
    decreases |drafts|
  {
    if drafts == [] {
      assert Alike(norm, drafts, k.day, k.amount, k.text) == {};
    } else {
      IncomingSpelledOut(norm, drafts[..|drafts| - 1], k);
      OneMoreAlike(norm, drafts, k);
    }
  }

  lemma OneMoreAlike(norm: Norm, drafts: seq<Draft>, k: Key)
    requires drafts != []
    ensures var n := |drafts| - 1;
            |Alike(norm, drafts, k.day, k.amount, k.text)| == |Alike(norm, drafts[..n], k.day, k.amount, k.text)|
                                                              + if KeyOf(norm, drafts[n]) == k then 1 else 0
  {
    var n := |drafts| - 1;
    var all, rest := Alike(norm, drafts, k.day, k.amount, k.text), Alike(norm, drafts[..n], k.day, k.amount, k.text);
    forall i: nat ensures i in all <==> i in rest || (i == n && KeyOf(norm, drafts[n]) == k) {
    }
    assert all == if KeyOf(norm, drafts[n]) == k then rest + {n} else rest;
  }

  lemma IncomingNext(norm: Norm, drafts: seq<Draft>, d: Draft, k: Key)
    ensures Incoming(norm, drafts + [d], k) == Incoming(norm, drafts, k) + if KeyOf(norm, d) == k then 1 else 0
  {
    assert (drafts + [d])[..|drafts|] == drafts;
  }

  // ----- which drafts are kept -----

  /** A draft is kept while fewer drafts of its key stand before it than are new. */
  predicate IsKept(norm: Norm, txns: map<nat, Txn>, account: nat, drafts: seq<Draft>, i: nat)
    requires i < |drafts|
  {
    var k := KeyOf(norm, drafts[i]);
    Incoming(norm, drafts[..i], k) < Delta(norm, txns, account, drafts, k)
  }

  /** The kept ones among the first `n` drafts, in file order. */
  function KeptOf(norm: Norm, txns: map<nat, Txn>, account: nat, drafts: seq<Draft>, n: nat): seq<Draft>
    requires n <= |drafts|
  {
    if n == 0 then []
    else KeptOf(norm, txns, account, drafts, n - 1)
         + if IsKept(norm, txns, account, drafts, n - 1) then [drafts[n - 1]] else []
  }

  function NewDrafts(norm: Norm, txns: map<nat, Txn>, account: nat, drafts: seq<Draft>): seq<Draft> {
    KeptOf(norm, txns, account, drafts, |drafts|)
  }

  lemma {:induction false} KeptCount(norm: Norm, txns: map<nat, Txn>, account: nat, drafts: seq<Draft>, n: nat, k: Key)
    requires n <= |drafts|
    ensures Incoming(norm, KeptOf(norm, txns, account, drafts, n), k)
         == Min(Incoming(norm, drafts[..n], k), Delta(norm, txns, account, drafts, k))
  {
    if n != 0 {
      KeptCount(norm, txns, account, drafts, n - 1, k);
      assert drafts[..n] == drafts[..n - 1] + [drafts[n - 1]];
      IncomingNext(norm, drafts[..n - 1], drafts[n - 1], k);
      var kept := KeptOf(norm, txns, account, drafts, n - 1);
      IncomingNext(norm, kept, drafts[n - 1], k);
      assert kept + [] == kept;
    }
  }

  /** The multiset delta: of each key exactly `max(0, incoming - existing)` drafts are new. */
  lemma NewDraftCount(norm: Norm, txns: map<nat, Txn>, account: nat, drafts: seq<Draft>, k: Key)
    ensures Incoming(norm, NewDrafts(norm, txns, account, drafts), k)
         == Max(0, Incoming(norm, drafts, k) - Existing(norm, txns, account, k))
    ensures var incoming := |Alike(norm, drafts, k.day, k.amount, k.text)|;
            var existing := |RowsAlike(norm, txns, account, k.day, k.amount, k.text)|;
            |Alike(norm, NewDrafts(norm, txns, account, drafts), k.day, k.amount, k.text)|
            == if existing < incoming then incoming - existing else 0
  {
    KeptCount(norm, txns, account, drafts, |drafts|, k);
    assert drafts[..|drafts|] == drafts;
    CountsSpelledOut(norm, drafts, txns, account, k);
    CountsSpelledOut(norm, NewDrafts(norm, txns, account, drafts), txns, account, k);
  }

  /** A draft is kept exactly while fewer drafts like it stand before it than exceed the rows like it. */
  lemma KeptIff(norm: Norm, txns: map<nat, Txn>, account: nat, drafts: seq<Draft>, i: nat)
    requires i < |drafts|
    ensures var d, text := drafts[i], norm(drafts[i].description);
            IsKept(norm, txns, account, drafts, i) <==>
              |Alike(norm, drafts[..i], d.day, d.amount, text)|
              + |RowsAlike(norm, txns, account, d.day, d.amount, text)|
              < |Alike(norm, drafts, d.day, d.amount, text)|
  {
    var k := Key(drafts[i].day, drafts[i].amount, norm(drafts[i].description));
    CountsSpelledOut(norm, drafts[..i], txns, account, k);
    CountsSpelledOut(norm, drafts, txns, account, k);
    assert k == KeyOf(norm, drafts[i]);
  }

  lemma {:induction false} KeptLength(norm: Norm, txns: map<nat, Txn>, account: nat, drafts: seq<Draft>, n: nat)
    requires n <= |drafts|
    ensures |KeptOf(norm, txns, account, drafts, n)| <= n
  {
    if n != 0 {
      KeptLength(norm, txns, account, drafts, n - 1);
    }
  }

  // ----- the dedup loops -----

  function Get<K>(counts: map<K, nat>, k: K): nat {
    if k in counts then counts[k] else 0
  }

  /** `Counter` over the drafts' keys. */
  method CountIncoming(norm: Norm, drafts: seq<Draft>) returns (incoming: map<Key, nat>)
    ensures forall k :: Get(incoming, k) == Incoming(norm, drafts, k)
    ensures forall k :: k in incoming <==> Incoming(norm, drafts, k) > 0
  {
    incoming := map[];
    for i := 0 to |drafts|
      invariant forall k :: Get(incoming, k) == Incoming(norm, drafts[..i], k)
      invariant forall k :: k in incoming ==> incoming[k] > 0
    {
      var key := KeyOf(norm, drafts[i]);
      assert drafts[..i + 1] == drafts[..i] + [drafts[i]];
      forall k
        ensures Incoming(norm, drafts[..i + 1], k) == Incoming(norm, drafts[..i], k) + if key == k then 1 else 0
      {
        IncomingNext(norm, drafts[..i], drafts[i], k);
      }
      incoming := incoming[key := Get(incoming, key) + 1];
    }
    assert drafts[..|drafts|] == drafts;
  }

  /** The rows of `ids` whose description normalises to `text`. */
  function Reading(norm: Norm, txns: map<nat, Txn>, ids: set<nat>, text: string): set<nat> {
    set t | t in ids && t in txns && norm(txns[t].description) == text
  }

  lemma ReadingNext(norm: Norm, txns: map<nat, Txn>, ids: set<nat>, t: nat, text: string)
    requires t in txns && t !in ids
    ensures |Reading(norm, txns, ids + {t}, text)|
         == |Reading(norm, txns, ids, text)| + if norm(txns[t].description) == text then 1 else 0
  {
    assert Reading(norm, txns, ids + {t}, text)
        == Reading(norm, txns, ids, text) + if norm(txns[t].description) == text then {t} else {};
  }

  /** `Counter` over normalised descriptions. */
  method CountTexts(norm: Norm, txns: map<nat, Txn>, ids: set<nat>) returns (counts: map<string, nat>)
    requires ids <= txns.Keys
    ensures forall text :: Get(counts, text) == |Reading(norm, txns, ids, text)|
  {
    counts := map[];
    var todo := ids;
    ghost var seen: set<nat> := {};
    assert forall text :: Reading(norm, txns, {}, text) == {};
    while todo != {}
      invariant todo !! seen && todo + seen == ids
      invariant forall text :: Get(counts, text) == |Reading(norm, txns, seen, text)|
      decreases |todo|
    {
      var t :| t in todo;
      var key := norm(txns[t].description);
      forall text
        ensures |Reading(norm, txns, seen + {t}, text)|
             == |Reading(norm, txns, seen, text)| + if key == text then 1 else 0
      {
        ReadingNext(norm, txns, seen, t, text);
      }
      counts := counts[key := Get(counts, key) + 1];
      todo, seen := todo - {t}, seen + {t};
    }
  }

  /** The counts of `existing_for`'s bucket. */
  method CountExisting(norm: Norm, db: Tables, account: nat, day: int, amount: int) returns (counts: map<string, nat>)
    ensures forall text :: Get(counts, text) == Existing(norm, db.txns, account, Key(day, amount, text))
  {
    var bucket := set t | t in db.txns && db.txns[t].account == account
        && db.txns[t].day == day && db.txns[t].amount == amount;
    counts := CountTexts(norm, db.txns, bucket);
    forall text ensures Get(counts, text) == Existing(norm, db.txns, account, Key(day, amount, text)) {
      assert Reading(norm, db.txns, bucket, text) == RowsWith(norm, db.txns, account, Key(day, amount, text));
    }
  }

  /** `_dedup`. */
  method Dedup(norm: Norm, db: Tables, account: nat, drafts: seq<Draft>) returns (toInsert: seq<Draft>)
    ensures toInsert == NewDrafts(norm, db.txns, account, drafts)
  {
    var incoming := CountIncoming(norm, drafts);
    var delta := DeltaPerKey(norm, db, account, drafts, incoming);
    var kept: map<Key, nat> := map[];
    toInsert := [];
    for i := 0 to |drafts|
      invariant toInsert == KeptOf(norm, db.txns, account, drafts, i)
      invariant CountsKept(norm, db.txns, account, drafts, i, kept)
    {
      var key := KeyOf(norm, drafts[i]);
      PrefixCounts(norm, drafts, i);
      KeptNext(norm, db.txns, account, drafts, i, kept);
      if Get(kept, key) < delta[key] {
        kept := kept[key := Get(kept, key) + 1];
        toInsert := toInsert + [drafts[i]];
      }
    }
  }

  /** The counter `kept` after the first `i` drafts. */
  ghost predicate CountsKept(norm: Norm, txns: map<nat, Txn>, account: nat, drafts: seq<Draft>, i: nat,
                             kept: map<Key, nat>)
    requires i <= |drafts|
  {
    forall k :: Get(kept, k) == Min(Incoming(norm, drafts[..i], k), Delta(norm, txns, account, drafts, k))
  }

  lemma KeptNext(norm: Norm, txns: map<nat, Txn>, account: nat, drafts: seq<Draft>, i: nat, kept: map<Key, nat>)
    requires i < |drafts| && CountsKept(norm, txns, account, drafts, i, kept)
    ensures var key := KeyOf(norm, drafts[i]);
            && (Get(kept, key) < Delta(norm, txns, account, drafts, key) <==> IsKept(norm, txns, account, drafts, i))
            && CountsKept(norm, txns, account, drafts, i + 1,
                          if IsKept(norm, txns, account, drafts, i) then kept[key := Get(kept, key) + 1] else kept)
  {
    assert drafts[..i + 1] == drafts[..i] + [drafts[i]];
    forall k
      ensures Incoming(norm, drafts[..i + 1], k)
           == Incoming(norm, drafts[..i], k) + if KeyOf(norm, drafts[i]) == k then 1 else 0
    {
      IncomingNext(norm, drafts[..i], drafts[i], k);
    }
  }

  lemma {:induction false} PrefixCounts(norm: Norm, drafts: seq<Draft>, i: nat)
    requires i < |drafts|
    ensures Incoming(norm, drafts, KeyOf(norm, drafts[i])) > 0
    decreases |drafts|
  {
    var n := |drafts| - 1;
    if i < n {
      PrefixCounts(norm, drafts[..n], i);
    }
  }

  /** The first loop of `_dedup`, one bucket query for all keys of a date and amount. */
  method DeltaPerKey(norm: Norm, db: Tables, account: nat, drafts: seq<Draft>, incoming: map<Key, nat>)
      returns (delta: map<Key, nat>)
    requires forall k :: Get(incoming, k) == Incoming(norm, drafts, k)
    ensures delta.Keys == incoming.Keys
    ensures forall k :: k in delta ==> delta[k] == Delta(norm, db.txns, account, drafts, k)
  {
    delta := map[];
    var buckets: map<(int, int), map<string, nat>> := map[];
    var todo := incoming.Keys;
    while todo != {}
      invariant todo <= incoming.Keys && delta.Keys == incoming.Keys - todo
      invariant forall k :: k in delta ==> delta[k] == Delta(norm, db.txns, account, drafts, k)
      invariant forall d, a, text :: (d, a) in buckets ==>
                  Get(buckets[(d, a)], text) == Existing(norm, db.txns, account, Key(d, a, text))
      decreases |todo|
    {
      var k :| k in todo;
      if (k.day, k.amount) !in buckets {
        var counts := CountExisting(norm, db, account, k.day, k.amount);
        buckets := buckets[(k.day, k.amount) := counts];
      }
      delta := delta[k := Max(0, incoming[k] - Get(buckets[(k.day, k.amount)], k.text))];
      todo := todo - {k};
    }
  }

  // ----- preview -----

  /** `start` and `end` are `None` when the text is no date; `dropped` holds row numbers. */
  datatype Preview = Preview(account: nat, drafts: seq<Draft>, errors: nat, newCount: nat, duplicateCount: nat,
                             start: Option<int>, end: Option<int>, closing: Option<int>, dropped: set<nat>)

  function DroppedRows(norm: Norm, txns: map<nat, Txn>, account: nat, drafts: seq<Draft>): set<nat> {
    set i | 0 <= i < |drafts| && !IsKept(norm, txns, account, drafts, i) :: drafts[i].row
  }

  /** `_build_preview` as a function of the rows. */
  function PreviewOf(norm: Norm, txns: map<nat, Txn>, account: nat, drafts: seq<Draft>, errors: nat,
                     start: Option<int>, end: Option<int>, closing: Option<int>): Preview
  {
    KeptLength(norm, txns, account, drafts, |drafts|);
    var n := |NewDrafts(norm, txns, account, drafts)|;
    Preview(account, drafts, errors, n, |drafts| - n, start, end, closing, DroppedRows(norm, txns, account, drafts))
  }

  /** What a preview shows: the file as it is, how many drafts are new, and the row numbers of the others. */
  ghost predicate TellsOf(norm: Norm, txns: map<nat, Txn>, p: Preview, account: nat, drafts: seq<Draft>, errors: nat,
                          start: Option<int>, end: Option<int>, closing: Option<int>) {
    && p.account == account && p.drafts == drafts && p.errors == errors
    && p.start == start && p.end == end && p.closing == closing
    && p.newCount == |NewDrafts(norm, txns, account, drafts)| && p.newCount + p.duplicateCount == |drafts|
    && forall row :: row in p.dropped <==>
         exists i :: 0 <= i < |drafts| && drafts[i].row == row && !IsKept(norm, txns, account, drafts, i)
  }

  /** `_build_preview`, behind `preview`, `preview_result` and `retarget`. */
  method BuildPreview(norm: Norm, db: Tables, account: nat, drafts: seq<Draft>, errors: nat,
                      start: Option<int>, end: Option<int>, closing: Option<int>) returns (p: Preview)
    ensures p == PreviewOf(norm, db.txns, account, drafts, errors, start, end, closing)
    ensures TellsOf(norm, db.txns, p, account, drafts, errors, start, end, closing)
  {
    var toInsert := Dedup(norm, db, account, drafts);
    KeptLength(norm, db.txns, account, drafts, |drafts|);
    p := Preview(account, drafts, errors, |toInsert|, |drafts| - |toInsert|, start, end, closing,
                 DroppedRows(norm, db.txns, account, drafts));
  }

  /** `retarget`: the closing balance and the span come along. */
  method Retarget(norm: Norm, db: Tables, preview: Preview, account: nat) returns (p: Preview)
    ensures p == PreviewOf(norm, db.txns, account, preview.drafts, preview.errors,
              preview.start, preview.end, preview.closing)
    ensures TellsOf(norm, db.txns, p, account, preview.drafts, preview.errors, preview.start, preview.end,
                    preview.closing)
  {
    p := BuildPreview(norm, db, account, preview.drafts, preview.errors, preview.start, preview.end, preview.closing);
  }

  // ----- commit -----

  datatype ImportError = NotADate | StartAfterEnd

  datatype ImportResult = ImportResult(inserted: nat, duplicates: nat, errors: nat, periodRecorded: bool,
                                       mismatch: bool)

  /** `_validate_span`. */
  function ValidateSpan(start: Option<int>, end: Option<int>): (r: Result<(int, int), ImportError>)
    ensures r.Returned? ==> start == Some(r.value.0) && end == Some(r.value.1) && r.value.0 <= r.value.1
    ensures start.Some? && end.Some? && start.value <= end.value ==> r.Returned?
    ensures r == Raised(NotADate) <==> start.None? || end.None?
  {
    if start.None? || end.None? then Raised(NotADate)
    else if start.value > end.value then Raised(StartAfterEnd)
    else Returned((start.value, end.value))
  }

  function RowFor(account: nat, stamp: nat): Draft -> Txn {
    (d: Draft) => Txn(account, d.day, d.amount, d.description, Some(stamp))
  }

  /** The period an import stamps with: the one that holds the span, or a new one. */
  function PeriodFor(periods: map<nat, Period>, account: nat, start: int, end: int): nat {
    var id := SpanId(periods, account, start, end);
    if id.Some? then id.value else NextId(periods)
  }

  function PeriodsAfter(periods: map<nat, Period>, account: nat, start: int, end: int,
                        closing: Option<int>): map<nat, Period> {
    var id := SpanId(periods, account, start, end);
    if id.None? then periods[NextId(periods) := Period(account, start, end, closing)]
    else if closing.Some? then FillClosing(periods, id.value, closing.value)
    else periods
  }

  /** The books after an accepted import. */
  function Committed(norm: Norm, b: Books, account: nat, drafts: seq<Draft>, start: int, end: int,
                     closing: Option<int>): Books {
    var stamp := PeriodFor(b.periods, account, start, end);
    Books(Appended(b.txns, Map(RowFor(account, stamp), NewDrafts(norm, b.txns, account, drafts))),
          PeriodsAfter(b.periods, account, start, end, closing), b.pairs)
  }

  /** `commit_import`: all or nothing. */
  method CommitImport(norm: Norm, db: Tables, preview: Preview, start: Option<int>, end: Option<int>)
      returns (r: Result<ImportResult, ImportError>)
    modifies db
    ensures r.Raised? <==> ValidateSpan(start, end).Raised?
    ensures r.Raised? ==> r.error == ValidateSpan(start, end).error && db.Now() == old(db.Now())
    ensures r.Returned? ==>
              var span := ValidateSpan(start, end).value;
              var id := SpanId(old(db.periods), preview.account, span.0, span.1);
              && db.Now() == Committed(norm, old(db.Now()), preview.account,
                   preview.drafts, span.0, span.1, preview.closing)
              && r.value.inserted == |NewDrafts(norm, old(db.txns), preview.account, preview.drafts)|
              && r.value.inserted + r.value.duplicates == |preview.drafts|
              && r.value.errors == preview.errors
              && r.value.periodRecorded == id.None?
              && (r.value.mismatch <==> id.Some? && preview.closing.Some? && old(db.periods)[id.value].closing.Some?
                                        && preview.closing != old(db.periods)[id.value].closing)
  {
    var span := ValidateSpan(start, end);
    if span.Raised? {
      return Raised(span.error);
    }
    var toInsert := Dedup(norm, db, preview.account, preview.drafts);
    KeptLength(norm, db.txns, preview.account, preview.drafts, |preview.drafts|);
    var existing := db.IdForSpan(preview.account, span.value.0, span.value.1);
    var stamp, mismatch := 0, false;
    if existing.None? {
      stamp := db.AddPeriod(Period(preview.account, span.value.0, span.value.1, preview.closing));
    } else {
      stamp := existing.value;
      if preview.closing.Some? {
        mismatch := db.UpdateClosingBalance(stamp, preview.closing.value);
      }
    }
    db.AddBatch(Map(RowFor(preview.account, stamp), toInsert));
    return Returned(ImportResult(|toInsert|, |preview.drafts| - |toInsert|, preview.errors, existing.None?, mismatch));
  }

  // ----- importing is a join -----

  function RowsIncoming(norm: Norm, rows: seq<Txn>, account: nat, k: Key): nat {
    if rows == [] then 0
    else (if HasKey(norm, rows[0], account, k) then 1 else 0) + RowsIncoming(norm, rows[1..], account, k)
  }

  lemma {:induction false} AppendedCount(norm: Norm, txns: map<nat, Txn>, rows: seq<Txn>, account: nat, k: Key)
    ensures Existing(norm, Appended(txns, rows), account, k)
              == Existing(norm, txns, account, k) + RowsIncoming(norm, rows, account, k)
    decreases |rows|
  {
    if rows != [] {
      AppendedCount(norm, txns[NextId(txns) := rows[0]], rows[1..], account, k);
      OneMoreRow(norm, txns, NextId(txns), rows[0], account, k);
    }
  }

  lemma OneMoreRow(norm: Norm, txns: map<nat, Txn>, id: nat, row: Txn, account: nat, k: Key)
    requires id !in txns
    ensures Existing(norm, txns[id := row], account, k)
         == Existing(norm, txns, account, k) + if HasKey(norm, row, account, k) then 1 else 0
  {
    var was, now := RowsWith(norm, txns, account, k), RowsWith(norm, txns[id := row], account, k);
    forall t ensures t in now <==> t in was || (t == id && HasKey(norm, row, account, k)) {
    }
    if HasKey(norm, row, account, k) {
      assert now == was + {id};
    } else {
      assert now == was;
    }
  }

  lemma {:induction false} RowsOfDrafts(norm: Norm, drafts: seq<Draft>, stamp: nat, of: nat, account: nat, k: Key)
    ensures RowsIncoming(norm, Map(RowFor(of, stamp), drafts), account, k)
         == if account == of then Incoming(norm, drafts, k) else 0
    decreases |drafts|
  {
    if drafts != [] {
      var n := |drafts| - 1;
      RowsOfDrafts(norm, drafts[..n], stamp, of, account, k);
      assert drafts == drafts[..n] + [drafts[n]];
      MapConcat(RowFor(of, stamp), drafts[..n], [drafts[n]]);
      RowsConcat(norm, Map(RowFor(of, stamp), drafts[..n]), Map(RowFor(of, stamp), [drafts[n]]), account, k);
      assert [drafts[n]][1..] == [];
    }
  }

  lemma {:induction false} RowsConcat(norm: Norm, xs: seq<Txn>, ys: seq<Txn>, account: nat, k: Key)
    ensures RowsIncoming(norm, xs + ys, account, k)
              == RowsIncoming(norm, xs, account, k) + RowsIncoming(norm, ys, account, k)
  {
    if xs == [] {
      assert xs + ys == ys;
    } else {
      assert (xs + ys)[1..] == xs[1..] + ys;
      RowsConcat(norm, xs[1..], ys, account, k);
    }
  }

  /** `after` holds the rows of `before` and those of `kept`, in the account `of`. */
  ghost predicate CountsAdd(norm: Norm, before: map<nat, Txn>, after: map<nat, Txn>, of: nat, kept: seq<Draft>,
                            account: nat, k: Key) {
    Existing(norm, after, account, k)
    == Existing(norm, before, account, k) + if account == of then Incoming(norm, kept, k) else 0
  }

  lemma InsertedCount(norm: Norm, txns: map<nat, Txn>, of: nat, stamp: nat, kept: seq<Draft>, account: nat, k: Key)
    ensures CountsAdd(norm, txns, Appended(txns, Map(RowFor(of, stamp), kept)), of, kept, account, k)
  {
    AppendedCount(norm, txns, Map(RowFor(of, stamp), kept), account, k);
    RowsOfDrafts(norm, kept, stamp, of, account, k);
  }

  /** Each key's count is the larger of what was there and what came in; other accounts are as before. */
  ghost predicate CountsJoin(norm: Norm, before: map<nat, Txn>, after: map<nat, Txn>, of: nat, drafts: seq<Draft>,
                             account: nat, k: Key) {
    Existing(norm, after, account, k)
    == if account == of then Max(Existing(norm, before, account, k), Incoming(norm, drafts, k))
       else Existing(norm, before, account, k)
  }

  lemma AddedIsJoined(norm: Norm, before: map<nat, Txn>, after: map<nat, Txn>, of: nat, drafts: seq<Draft>,
                      kept: seq<Draft>, account: nat, k: Key)
    requires CountsAdd(norm, before, after, of, kept, account, k)
    requires Incoming(norm, kept, k) == Max(0, Incoming(norm, drafts, k) - Existing(norm, before, of, k))
    ensures CountsJoin(norm, before, after, of, drafts, account, k)
  {
  }

  /** Importing is a join. */
  lemma ImportIsAJoin(norm: Norm, b: Books, of: nat, drafts: seq<Draft>, start: int, end: int, closing: Option<int>,
                      account: nat, k: Key)
    ensures CountsJoin(norm, b.txns, Committed(norm, b, of, drafts, start, end, closing).txns, of, drafts, account, k)
    ensures var after := Committed(norm, b, of, drafts, start, end, closing).txns;
            var incoming := |Alike(norm, drafts, k.day, k.amount, k.text)|;
            var existing := |RowsAlike(norm, b.txns, account, k.day, k.amount, k.text)|;
            |RowsAlike(norm, after, account, k.day, k.amount, k.text)|
            == if account == of && existing < incoming then incoming else existing
  {
    CountsSpelledOut(norm, drafts, b.txns, account, k);
    CountsSpelledOut(norm, drafts, Committed(norm, b, of, drafts, start, end, closing).txns, account, k);
    var stamp, kept := PeriodFor(b.periods, of, start, end), NewDrafts(norm, b.txns, of, drafts);
    InsertedCount(norm, b.txns, of, stamp, kept, account, k);
    NewDraftCount(norm, b.txns, of, drafts, k);
    AddedIsJoined(norm, b.txns, Appended(b.txns, Map(RowFor(of, stamp), kept)), of, drafts, kept, account, k);
  }

  /** A file inserts nothing exactly when the account already has as many rows of each key. */
  lemma NothingNewIff(norm: Norm, txns: map<nat, Txn>, account: nat, drafts: seq<Draft>)
    ensures NewDrafts(norm, txns, account, drafts) == []
            <==> forall k :: Incoming(norm, drafts, k) <= Existing(norm, txns, account, k)
  {
    var kept := NewDrafts(norm, txns, account, drafts);
    if kept == [] {
      forall k ensures Incoming(norm, drafts, k) <= Existing(norm, txns, account, k) {
        NewDraftCount(norm, txns, account, drafts, k);
      }
    } else {
      var k := KeyOf(norm, kept[0]);
      NewDraftCount(norm, txns, account, drafts, k);
      PrefixCounts(norm, kept, 0);
    }
  }

  /** Importing a file again inserts nothing, under whatever span or name it comes back. */
  lemma ReimportInsertsNothing(norm: Norm, b: Books, account: nat, drafts: seq<Draft>, start: int, end: int,
                               closing: Option<int>)
    ensures NewDrafts(norm, Committed(norm, b, account, drafts, start, end, closing).txns, account, drafts) == []
  {
    var after := Committed(norm, b, account, drafts, start, end, closing);
    forall k ensures Incoming(norm, drafts, k) <= Existing(norm, after.txns, account, k) {
      ImportIsAJoin(norm, b, account, drafts, start, end, closing, account, k);
    }
    NothingNewIff(norm, after.txns, account, drafts);
  }

  // ----- many files -----

  datatype File = File(account: nat, drafts: seq<Draft>, start: int, end: int, closing: Option<int>)

  function CommitFile(norm: Norm, b: Books, f: File): Books {
    Committed(norm, b, f.account, f.drafts, f.start, f.end, f.closing)
  }

  function CommitAll(norm: Norm, b: Books, files: seq<File>): Books
    decreases |files|
  {
    if files == [] then b else CommitAll(norm, CommitFile(norm, b, files[0]), files[1..])
  }

  function Brings(norm: Norm, f: File, account: nat, k: Key): nat {
    if f.account == account then Incoming(norm, f.drafts, k) else 0
  }

  /** The most any one file brings of a key to an account. */
  function MostOf(norm: Norm, files: seq<File>, account: nat, k: Key): nat {
    if files == [] then 0 else Max(Brings(norm, files[0], account, k), MostOf(norm, files[1..], account, k))
  }

  lemma {:induction false} CommitAllCounts(norm: Norm, b: Books, files: seq<File>, account: nat, k: Key)
    ensures Existing(norm, CommitAll(norm, b, files).txns, account, k)
         == Max(Existing(norm, b.txns, account, k), MostOf(norm, files, account, k))
    decreases |files|
  {
    if files != [] {
      var f := files[0];
      ImportIsAJoin(norm, b, f.account, f.drafts, f.start, f.end, f.closing, account, k);
      CommitAllCounts(norm, CommitFile(norm, b, f), files[1..], account, k);
    }
  }

  lemma {:induction false} MostIsAMember(norm: Norm, files: seq<File>, account: nat, k: Key)
    ensures forall f :: f in files ==> Brings(norm, f, account, k) <= MostOf(norm, files, account, k)
    ensures MostOf(norm, files, account, k) > 0 ==>
              exists f :: f in files && Brings(norm, f, account, k) == MostOf(norm, files, account, k)
  {
    if files != [] {
      MostIsAMember(norm, files[1..], account, k);
      assert files == [files[0]] + files[1..];
      assert files[0] in files;
    }
  }

  /** The final counts depend only on which files there are, not on their order or repetition. */
  lemma OrderDoesNotMatter(norm: Norm, b: Books, files: seq<File>, others: seq<File>, account: nat, k: Key)
    requires forall f :: f in files <==> f in others
    ensures Existing(norm, CommitAll(norm, b, files).txns, account, k)
         == Existing(norm, CommitAll(norm, b, others).txns, account, k)
  {
    CommitAllCounts(norm, b, files, account, k);
    CommitAllCounts(norm, b, others, account, k);
    MostIsAMember(norm, files, account, k);
    MostIsAMember(norm, others, account, k);
  }

  // ----- the books stay sound -----

  lemma {:induction false} AppendedRows(txns: map<nat, Txn>, rows: seq<Txn>, t: nat)
    ensures t in txns ==> t in Appended(txns, rows) && Appended(txns, rows)[t] == txns[t]
    ensures t in Appended(txns, rows) && t !in txns ==> Appended(txns, rows)[t] in rows
    decreases |rows|
  {
    if rows != [] {
      AppendedRows(txns[NextId(txns) := rows[0]], rows[1..], t);
    }
  }

  lemma CommitKeepsSound(norm: Norm, b: Books, account: nat, drafts: seq<Draft>, start: int, end: int,
                         closing: Option<int>)
    requires Sound(b) && start <= end
    ensures Sound(Committed(norm, b, account, drafts, start, end, closing))
  {
    var after := Committed(norm, b, account, drafts, start, end, closing);
    var stamp := PeriodFor(b.periods, account, start, end);
    var rows := Map(RowFor(account, stamp), NewDrafts(norm, b.txns, account, drafts));
    forall t ensures IsAdded(b.txns, after.txns, stamp, account, t) {
      AppendedRows(b.txns, rows, t);
    }
    PeriodsStay(b.periods, account, start, end, closing);
    AddedRowsSound(b, after, stamp, account);
  }

  /** An old row is as it was; a new one is stamped with `stamp`, in `account`. */
  ghost predicate IsAdded(before: map<nat, Txn>, after: map<nat, Txn>, stamp: nat, account: nat, t: nat) {
    && (t in before ==> t in after && after[t] == before[t])
    && (t in after && t !in before ==> after[t].stamp == Some(stamp) && after[t].account == account)
  }

  lemma AddedRowsSound(b: Books, after: Books, stamp: nat, account: nat)
    requires Sound(b) && SpansUnique(after.periods) && after.pairs == b.pairs
    requires stamp in after.periods && after.periods[stamp].account == account
    requires forall p :: p in b.periods ==> p in after.periods && after.periods[p].account == b.periods[p].account
    requires forall t :: IsAdded(b.txns, after.txns, stamp, account, t)
    ensures Sound(after)
  {
    forall t | t in after.txns && after.txns[t].stamp.Some?
      ensures after.txns[t].stamp.value in after.periods
      ensures after.periods[after.txns[t].stamp.value].account == after.txns[t].account
    {
      assert IsAdded(b.txns, after.txns, stamp, account, t);
    }
    forall t | t in b.txns ensures t in after.txns && after.txns[t] == b.txns[t] {
      assert IsAdded(b.txns, after.txns, stamp, account, t);
    }
  }

  /** What an import leaves of the periods and the stamps: one period holds the span, with the balance it had
      or else the one that came in, every new row is stamped with it, and the other periods are as they were. */
  lemma ImportRecordsItsSpan(norm: Norm, b: Books, account: nat, drafts: seq<Draft>, start: int, end: int,
                             closing: Option<int>) returns (id: nat)
    ensures var after := Committed(norm, b, account, drafts, start, end, closing);
            && IsRecorded(b.periods, after.periods, id, Period(account, start, end, closing)) && after.pairs == b.pairs
            && forall t :: IsAdded(b.txns, after.txns, id, account, t)
  {
    id := PeriodFor(b.periods, account, start, end);
    var after := Committed(norm, b, account, drafts, start, end, closing);
    var rows := Map(RowFor(account, id), NewDrafts(norm, b.txns, account, drafts));
    PeriodRecorded(b.periods, account, start, end, closing);
    forall t ensures IsAdded(b.txns, after.txns, id, account, t) {
      AppendedRows(b.txns, rows, t);
    }
  }

  /** Period `id` holds the span of `p` in `after`: it did before, or no period did. */
  ghost predicate IsRecorded(before: map<nat, Period>, after: map<nat, Period>, id: nat, p: Period) {
    && after.Keys == before.Keys + {id} && (forall q :: q in before && q != id ==> after[q] == before[q])
    && (if id in before then before[id].account == p.account && before[id].start == p.start && before[id].end == p.end
        else forall q :: q in before ==>
               !(before[q].account == p.account && before[q].start == p.start && before[q].end == p.end))
    && after[id] == Period(p.account, p.start, p.end,
                           if id in before && before[id].closing.Some? then before[id].closing else p.closing)
  }

  lemma PeriodRecorded(periods: map<nat, Period>, account: nat, start: int, end: int, closing: Option<int>)
    ensures IsRecorded(periods, PeriodsAfter(periods, account, start, end, closing),
                       PeriodFor(periods, account, start, end), Period(account, start, end, closing))
  {
  }

  lemma PeriodsStay(periods: map<nat, Period>, account: nat, start: int, end: int, closing: Option<int>)
    requires SpansUnique(periods) && start <= end
    ensures var after := PeriodsAfter(periods, account, start, end, closing);
            && SpansUnique(after)
            && PeriodFor(periods, account, start, end) in after
            && after[PeriodFor(periods, account, start, end)].account == account
            && forall p :: p in periods ==> p in after && after[p].account == periods[p].account
  {
    PeriodRecorded(periods, account, start, end, closing);
    RecordedStaysUnique(periods, PeriodsAfter(periods, account, start, end, closing),
                        PeriodFor(periods, account, start, end), Period(account, start, end, closing));
  }

  lemma RecordedStaysUnique(before: map<nat, Period>, after: map<nat, Period>, id: nat, p: Period)
    requires SpansUnique(before) && p.start <= p.end && IsRecorded(before, after, id, p)
    ensures SpansUnique(after) && forall q :: q in before ==> after[q].account == before[q].account
  {
  }
}
