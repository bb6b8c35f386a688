/** Projecting confirmed recurring items (`forecast.py`). */
module Forecast {
  import opened Wrappers
  import opened Calendar
  import opened Sequences
  import opened Sorting

  /** One recurring item prepared for projection; `amount` is signed, in minor units. */
  datatype Input = Input(amount: int, anchor: Date, cadence: Cadence, merchant: string,
                         direction: Direction, dayOfMonth: nat)

  /** The `n`-th occurrence of `item`: the observed anchor itself, then `n` cadences from it. */
  function Nth(item: Input, n: nat): Date {
    if n == 0 then item.anchor else AddCadenceN(item.anchor, item.cadence, n, item.dayOfMonth)
  }

  lemma NthIncreases(item: Input, m: nat, n: nat)
    requires Valid(item.anchor) && m < n
    ensures Valid(Nth(item, n)) && Before(Nth(item, m), Nth(item, n))
  {
    AddCadenceIncreases(item.anchor, item.cadence, m, n, item.dayOfMonth);
  }

  /** `n` is the first occurrence past both `today` and `horizon`, the last one computed. */
  ghost predicate FirstPast(f: nat -> Date, today: Date, horizon: Date, n: nat) {
    && Before(today, f(n)) && Before(horizon, f(n))
    && (n > 0 ==> NotAfter(f(n - 1), today) || NotAfter(f(n - 1), horizon))
  }

  /** A due date: some occurrence strictly after `today` and no later than `horizon`. */
  ghost predicate Due(f: nat -> Date, today: Date, horizon: Date, d: Date) {
    exists n: nat :: d == f(n) && Before(today, d) && NotAfter(d, horizon)
  }

  /** `dates` are the due dates, in order. */
  ghost predicate IsWindow(dates: seq<Date>, f: nat -> Date, today: Date, horizon: Date) {
    Sorted(Before, dates) && forall d :: d in dates <==> Due(f, today, horizon, d)
  }

  ghost predicate Increasing(f: nat -> Date) {
    forall m: nat, n: nat :: m < n ==> Before(f(m), f(n))
  }

  ghost function Occurrence(item: Input): nat -> Date {
    (n: nat) => Nth(item, n)
  }

  /** `f` is what the stepping arithmetic gives for `item`; all its values are dates. */
  ghost predicate Steps(item: Input, f: nat -> Date) {
    && f(0) == item.anchor
    && (forall n: nat {:trigger Valid(f(n))} :: Valid(f(n)))
    && forall n: nat {:trigger AddCadenceN(item.anchor, item.cadence, n, item.dayOfMonth)} :: n > 0 ==>
         f(n) == AddCadenceN(item.anchor, item.cadence, n, item.dayOfMonth)
  }

  lemma OccurrencesIncrease(item: Input)
    requires Valid(item.anchor)
    ensures Increasing(Occurrence(item)) && Steps(item, Occurrence(item))
  {
    var f := Occurrence(item);
    forall n: nat ensures Valid(f(n)) {
      if n > 0 {
        NthIncreases(item, 0, n);
      }
    }
    forall m: nat, n: nat | m < n ensures Before(f(m), f(n)) {
      NthIncreases(item, m, n);
    }
  }

  /** `d` is the item's `n`-th date: the date observed, or `n` steps of its cadence from that. */
  ghost predicate IsNth(item: Input, n: nat, d: Date) {
    if n == 0 then d == item.anchor else IsStep(item.anchor, item.cadence, n, item.dayOfMonth, d)
  }

  lemma NthSpelledOut(item: Input, n: nat, d: Date)
    requires Valid(item.anchor)
    ensures d == Nth(item, n) <==> IsNth(item, n, d)
    ensures IsNth(item, n, d) ==> Valid(d)
  {
    CadenceSteps(item.anchor, item.cadence, n, item.dayOfMonth, d);
  }

  /** `dates` are, in order, the item's dates after `today` and up to `horizon`. */
  ghost predicate AreDueDates(item: Input, dates: seq<Date>, today: Date, horizon: Date) {
    && (forall i, j :: 0 <= i < j < |dates| ==> Ordinal(dates[i]) < Ordinal(dates[j]))
    && (forall d :: d in dates ==> IsDueDate(item, today, horizon, d))
    && (forall d :: IsDueDate(item, today, horizon, d) ==> d in dates)
  }

  ghost predicate IsDueDate(item: Input, today: Date, horizon: Date, d: Date) {
    Ordinal(today) < Ordinal(d) <= Ordinal(horizon) && exists n: nat :: IsNth(item, n, d)
  }

  /** `d` is the first date past both `today` and `horizon`, and the `n`-th. */
  ghost predicate IsFirstPast(item: Input, today: Date, horizon: Date, n: nat, d: Date) {
    IsPast(item, today, horizon, n, d) && (n > 0 ==> IsWithin(item, today, horizon, n - 1))
  }

  /** The item's `n`-th date is `d`, later than `today` and than `horizon`. */
  ghost predicate IsPast(item: Input, today: Date, horizon: Date, n: nat, d: Date) {
    IsNth(item, n, d) && Ordinal(d) > Ordinal(today) && Ordinal(d) > Ordinal(horizon)
  }

  /** The item's `k`-th date is no later than `today`, or no later than `horizon`. */
  ghost predicate IsWithin(item: Input, today: Date, horizon: Date, k: nat) {
    exists e :: IsNth(item, k, e) && (Ordinal(e) <= Ordinal(today) || Ordinal(e) <= Ordinal(horizon))
  }

  lemma DueSpelledOut(item: Input, today: Date, horizon: Date, d: Date)
    requires Valid(item.anchor) && Valid(today) && Valid(horizon)
    ensures Due(Occurrence(item), today, horizon, d) <==> IsDueDate(item, today, horizon, d)
  {
    if n: nat :| d == Occurrence(item)(n) && Before(today, d) && NotAfter(d, horizon) {
      NthSpelledOut(item, n, d);
      BeforeIsOrdinalOrder(today, d);
      BeforeIsOrdinalOrder(horizon, d);
    }
    if Ordinal(today) < Ordinal(d) <= Ordinal(horizon) {
      if n: nat :| IsNth(item, n, d) {
        NthSpelledOut(item, n, d);
        BeforeIsOrdinalOrder(today, d);
        BeforeIsOrdinalOrder(horizon, d);
        assert d == Occurrence(item)(n);
      }
    }
  }

  lemma WindowSpelledOut(item: Input, dates: seq<Date>, today: Date, horizon: Date)
    requires Valid(item.anchor) && Valid(today) && Valid(horizon)
    requires IsWindow(dates, Occurrence(item), today, horizon)
    ensures AreDueDates(item, dates, today, horizon)
  {
    forall d ensures d in dates <==> IsDueDate(item, today, horizon, d) {
      DueSpelledOut(item, today, horizon, d);
    }
    forall i, j | 0 <= i < j < |dates| ensures Ordinal(dates[i]) < Ordinal(dates[j]) {
      assert dates[i] in dates && dates[j] in dates;
      DueIsValid(item, today, horizon, dates[i]);
      DueIsValid(item, today, horizon, dates[j]);
      BeforeIsOrdinalOrder(dates[i], dates[j]);
    }
  }

  lemma DueIsValid(item: Input, today: Date, horizon: Date, d: Date)
    requires Valid(item.anchor) && IsDueDate(item, today, horizon, d)
    ensures Valid(d)
  {
    var n: nat :| IsNth(item, n, d);
  }

  lemma PastSpelledOut(item: Input, today: Date, horizon: Date, n: nat, d: Date)
    requires Valid(item.anchor) && Valid(today) && Valid(horizon)
    ensures IsFirstPast(item, today, horizon, n, d) <==>
              FirstPast(Occurrence(item), today, horizon, n) && d == Occurrence(item)(n)
  {
    PastMeans(item, today, horizon, n, d);
    if n > 0 {
      NotPastYet(item, today, horizon, n - 1);
    }
    PastJoins(item, Occurrence(item), today, horizon, n, d);
  }

  lemma PastJoins(item: Input, f: nat -> Date, today: Date, horizon: Date, n: nat, d: Date)
    requires IsPast(item, today, horizon, n, d) <==> d == f(n) && Before(today, d) && Before(horizon, d)
    requires n > 0 ==>
               (IsWithin(item, today, horizon, n - 1) <==> NotAfter(f(n - 1), today) || NotAfter(f(n - 1), horizon))
    ensures IsFirstPast(item, today, horizon, n, d) <==> FirstPast(f, today, horizon, n) && d == f(n)
  {
  }

  lemma PastMeans(item: Input, today: Date, horizon: Date, n: nat, d: Date)
    requires Valid(item.anchor) && Valid(today) && Valid(horizon)
    ensures IsPast(item, today, horizon, n, d) <==>
              d == Occurrence(item)(n) && Before(today, d) && Before(horizon, d)
  {
    PastEnds(item, today, horizon, n, d);
  }

  lemma NotPastYet(item: Input, today: Date, horizon: Date, k: nat)
    requires Valid(item.anchor) && Valid(today) && Valid(horizon)
    ensures IsWithin(item, today, horizon, k)
            <==> NotAfter(Occurrence(item)(k), today) || NotAfter(Occurrence(item)(k), horizon)
  {
    var e := Occurrence(item)(k);
    PastEnds(item, today, horizon, k, e);
    forall x ensures IsNth(item, k, x) <==> x == e {
      NthSpelledOut(item, k, x);
    }
  }

  lemma PastEnds(item: Input, today: Date, horizon: Date, n: nat, d: Date)
    requires Valid(item.anchor) && Valid(today) && Valid(horizon)
    ensures IsNth(item, n, d) <==> d == Occurrence(item)(n)
    ensures IsNth(item, n, d) ==> (Before(today, d) <==> Ordinal(today) < Ordinal(d))
    ensures IsNth(item, n, d) ==> (Before(horizon, d) <==> Ordinal(horizon) < Ordinal(d))
  {
    NthSpelledOut(item, n, d);
    if IsNth(item, n, d) {
      BeforeIsOrdinalOrder(today, d);
      BeforeIsOrdinalOrder(horizon, d);
    }
  }

  /** `_occurrences`: roll forward past `today`, then collect up to `horizon`.  It returns, in
      strictly increasing order, exactly the due dates; it raises exactly when the first
      occurrence past the window lies beyond the last year a date can have. */
  method Occurrences(item: Input, today: Date, horizon: Date) returns (r: Result<seq<Date>, DateError>)
    requires Valid(item.anchor) && Valid(today) && Valid(horizon)
    requires item.anchor.year <= MAX_YEAR && today.year <= MAX_YEAR && horizon.year <= MAX_YEAR
    ensures r.Returned? ==> AreDueDates(item, r.value, today, horizon)
    ensures exists n: nat, d :: IsFirstPast(item, today, horizon, n, d) && (r.Raised? <==> d.year > 9999)
    ensures r.Returned? ==> IsWindow(r.value, Occurrence(item), today, horizon)
    ensures exists n: nat :: FirstPast(Occurrence(item), today, horizon, n) &&
                             (r.Raised? <==> Occurrence(item)(n).year > MAX_YEAR)
  {
    OccurrencesIncrease(item);
    r := Window(item, today, horizon, Occurrence(item));
    ghost var n: nat :| FirstPast(Occurrence(item), today, horizon, n)
        && (r.Raised? <==> Occurrence(item)(n).year > MAX_YEAR);
    PastSpelledOut(item, today, horizon, n, Occurrence(item)(n));
    if r.Returned? {
      WindowSpelledOut(item, r.value, today, horizon);
    }
  }

  method Step(item: Input, n: nat, ghost f: nat -> Date) returns (d: Date)
    requires n > 0 && Steps(item, f)
    ensures d == f(n)
  {
    d := AddCadenceN(item.anchor, item.cadence, n, item.dayOfMonth);
  }

  lemma PastTheLastYear(item: Input, f: nat -> Date, today: Date, horizon: Date, n: nat)
    requires Valid(today) && Valid(horizon) && Steps(item, f)
    requires today.year <= MAX_YEAR && horizon.year <= MAX_YEAR && f(n).year > MAX_YEAR
    requires n > 0 ==> NotAfter(f(n - 1), today) || NotAfter(f(n - 1), horizon)
    ensures FirstPast(f, today, horizon, n)
  {
    assert Valid(f(n));
  }

  /** The first loop of `_occurrences`: the first occurrence after `today`, or the first one no
      date can represent. */
  method RollForward(item: Input, today: Date, ghost f: nat -> Date) returns (step: nat, when: Date)
    requires Increasing(f) && Steps(item, f) && item.anchor.year <= MAX_YEAR
    ensures when == f(step)
    ensures step > 0 ==> NotAfter(f(step - 1), today)
    ensures when.year > MAX_YEAR || Before(today, when)
  {
    step, when := 0, item.anchor;
    while NotAfter(when, today)
      invariant when == f(step) && when.year <= MAX_YEAR
      invariant step > 0 ==> NotAfter(f(step - 1), today)
      decreases Packed(today) - Packed(when)
    {
      assert Before(f(step), f(step + 1));
      step := step + 1;
      when := Step(item, step, f);
      if when.year > MAX_YEAR {
        return;
      }
    }
  }

  /** The second loop of `_occurrences`: the occurrences from `when` up to `horizon`, and the first one
      after those. */
  method Collect(item: Input, horizon: Date, first: nat, start: Date, ghost f: nat -> Date)
      returns (dates: seq<Date>, when: Date)
    requires Increasing(f) && Steps(item, f) && start == f(first) && start.year <= MAX_YEAR
    ensures dates == Stretch(f, first, |dates|) && when == f(first + |dates|)
    ensures dates != [] ==> NotAfter(f(first + |dates| - 1), horizon)
    ensures when.year > MAX_YEAR || Before(horizon, when)
  {
    var step := first;
    dates, when := [], start;
    while NotAfter(when, horizon)
      invariant step == first + |dates| && dates == Stretch(f, first, |dates|)
      invariant when == f(step) && when.year <= MAX_YEAR
      invariant dates != [] ==> NotAfter(f(step - 1), horizon)
      decreases Packed(horizon) - Packed(when)
    {
      assert Before(f(step), f(step + 1));
      StretchGrows(f, first, |dates|);
      dates := dates + [when];
      step := step + 1;
      when := Step(item, step, f);
      if when.year > MAX_YEAR {
        return;
      }
    }
  }

  /** `_occurrences` against the occurrences as a function. */
  method Window(item: Input, today: Date, horizon: Date, ghost f: nat -> Date)
      returns (r: Result<seq<Date>, DateError>)
    requires Valid(today) && Valid(horizon) && Increasing(f) && Steps(item, f)
    requires item.anchor.year <= MAX_YEAR && today.year <= MAX_YEAR && horizon.year <= MAX_YEAR
    ensures r.Returned? ==> IsWindow(r.value, f, today, horizon)
    ensures exists n: nat :: FirstPast(f, today, horizon, n) && (r.Raised? <==> f(n).year > MAX_YEAR)
  {
    var first, start := RollForward(item, today, f);
    if start.year > MAX_YEAR {
      PastTheLastYear(item, f, today, horizon, first);
      return Raised(PastMaxYear);
    }
    var dates, when := Collect(item, horizon, first, start, f);
    ghost var n := first + |dates|;
    if when.year > MAX_YEAR {
      PastTheLastYear(item, f, today, horizon, n);
      return Raised(PastMaxYear);
    }
    assert n > first ==> Before(f(first), f(n));
    assert FirstPast(f, today, horizon, n);
    StretchIsTheWindow(f, today, horizon, first, |dates|);
    return Returned(dates);
  }

  /** Only one occurrence is the first past the window, so `Occurrences` raises on exactly the
      windows whose first later occurrence cannot be represented. */
  lemma FirstPastIsUnique(item: Input, today: Date, horizon: Date, m: nat, n: nat)
    requires Valid(item.anchor)
    requires FirstPast(Occurrence(item), today, horizon, m) && FirstPast(Occurrence(item), today, horizon, n)
    ensures m == n
  {
    OccurrencesIncrease(item);
    if m < n {
      NotPastAgain(Occurrence(item), today, horizon, m, n);
    } else if n < m {
      NotPastAgain(Occurrence(item), today, horizon, n, m);
    }
  }

  lemma NotPastAgain(f: nat -> Date, today: Date, horizon: Date, m: nat, n: nat)
    requires Increasing(f) && m < n && FirstPast(f, today, horizon, m)
    ensures !FirstPast(f, today, horizon, n)
  {
    assert m < n - 1 ==> Before(f(m), f(n - 1));
  }

  /** The `n` occurrences from the `first`-th on. */
  ghost function Stretch(f: nat -> Date, first: nat, n: nat): seq<Date> {
    seq(n, i requires 0 <= i < n => f(first + i))
  }

  lemma StretchGrows(f: nat -> Date, first: nat, n: nat)
    ensures Stretch(f, first, n + 1) == Stretch(f, first, n) + [f(first + n)]
  {
  }

  lemma StretchIsTheWindow(f: nat -> Date, today: Date, horizon: Date, first: nat, n: nat)
    requires Increasing(f)
    requires first > 0 ==> NotAfter(f(first - 1), today)
    requires Before(today, f(first))
    requires n > 0 ==> NotAfter(f(first + n - 1), horizon)
    requires Before(horizon, f(first + n))
    ensures IsWindow(Stretch(f, first, n), f, today, horizon)
  {
    forall k: nat ensures first <= k < first + n <==> InWindow(f, today, horizon, k) {
      InsideTheWindow(f, today, horizon, first, n, k);
    }
    StretchIsSorted(f, first, n);
    StretchIsDue(f, today, horizon, first, n);
  }

  lemma StretchIsSorted(f: nat -> Date, first: nat, n: nat)
    requires Increasing(f)
    ensures Sorted(Before, Stretch(f, first, n))
  {
    var dates := Stretch(f, first, n);
    forall i, j | 0 <= i < j < n ensures Before(dates[i], dates[j]) {
      assert Before(f(first + i), f(first + j));
    }
  }

  ghost predicate InWindow(f: nat -> Date, today: Date, horizon: Date, k: nat) {
    Before(today, f(k)) && NotAfter(f(k), horizon)
  }

  lemma StretchIsDue(f: nat -> Date, today: Date, horizon: Date, first: nat, n: nat)
    requires forall k: nat :: first <= k < first + n <==> InWindow(f, today, horizon, k)
    ensures forall d :: d in Stretch(f, first, n) <==> Due(f, today, horizon, d)
  {
    var dates := Stretch(f, first, n);
    forall i | 0 <= i < n ensures Due(f, today, horizon, dates[i]) {
      assert InWindow(f, today, horizon, first + i);
    }
    forall d | Due(f, today, horizon, d) ensures d in dates {
      var k: nat :| d == f(k) && Before(today, d) && NotAfter(d, horizon);
      assert InWindow(f, today, horizon, k);
      assert dates[k - first] == d;
    }
  }

  lemma InsideTheWindow(f: nat -> Date, today: Date, horizon: Date, first: nat, n: nat, k: nat)
    requires Increasing(f)
    requires first > 0 ==> NotAfter(f(first - 1), today)
    requires Before(today, f(first))
    requires n > 0 ==> NotAfter(f(first + n - 1), horizon)
    requires Before(horizon, f(first + n))
    ensures first <= k < first + n <==> InWindow(f, today, horizon, k)
  {
    if k < first {
      assert k < first - 1 ==> Before(f(k), f(first - 1));
    } else if k < first + n {
      assert first < k ==> Before(f(first), f(k));
      assert k < first + n - 1 ==> Before(f(k), f(first + n - 1));
    } else {
      assert first + n < k ==> Before(f(first + n), f(k));
    }
  }

  // ----- the projected balance -----

  /** One occurrence of one item, before the balance runs over it. */
  datatype Movement = Movement(on: Date, merchant: string, direction: Direction, amount: int)

  datatype Point = Point(on: Date, balance: int)

  /** `events[i]` happens with `balances[i]` after it; `points` is the drawn line. */
  datatype Projection = Projection(start: int, end: int, events: seq<Movement>, balances: seq<int>, points: seq<Point>)

  /** The event order: by date, then merchant, then direction. */
  predicate EventLe(a: Movement, b: Movement) {
    || Before(a.on, b.on)
    || (!Before(b.on, a.on) && (!StringLe(b.merchant, a.merchant)
                                || (StringLe(a.merchant, b.merchant) && (a.direction.In? || b.direction.Out?))))
  }

  function MovementsOf(item: Input, dates: seq<Date>): seq<Movement> {
    seq(|dates|, i requires 0 <= i < |dates| => Movement(dates[i], item.merchant, item.direction, item.amount))
  }

  /** Every item's movements, item by item. */
  function Merged(items: seq<Input>, dates: seq<seq<Date>>): seq<Movement>
    requires |items| == |dates|
  {
    if items == [] then []
    else Merged(items[..|items| - 1], dates[..|items| - 1]) + MovementsOf(items[|items| - 1], dates[|items| - 1])
  }

  function AmountOf(): Movement -> int {
    (m: Movement) => m.amount
  }

  function Total(events: seq<Movement>): int {
    Sum(AmountOf(), events)
  }

  /** What the items bring in over the window: amount times number of occurrences. */
  function Expected(items: seq<Input>, dates: seq<seq<Date>>): int
    requires |items| == |dates|
  {
    if items == [] then 0
    else Expected(items[..|items| - 1], dates[..|items| - 1]) + items[|items| - 1].amount * |dates[|items| - 1]|
  }

  predicate Projectable(item: Input) {
    Valid(item.anchor) && item.anchor.year <= MAX_YEAR
  }

  /** `dates` are the item's due dates, in order. */
  ghost predicate AreItsDates(item: Input, dates: seq<Date>, today: Date, horizon: Date) {
    IsWindow(dates, Occurrence(item), today, horizon) && AreDueDates(item, dates, today, horizon)
  }

  /** `dates[i]` are item `i`'s due dates, in order. */
  ghost predicate Contributes(items: seq<Input>, dates: seq<seq<Date>>, today: Date, horizon: Date) {
    && |dates| == |items|
    && forall i :: 0 <= i < |items| ==> AreItsDates(items[i], dates[i], today, horizon)
  }

  /** The item's first occurrence past the window is one no date can represent. */
  ghost predicate Overflows(item: Input, today: Date, horizon: Date) {
    exists n: nat, d :: IsFirstPast(item, today, horizon, n, d) && d.year > 9999
  }

  /** `Occurrences` raises exactly on the items that overflow. */
  method OccurrencesOf(item: Input, today: Date, horizon: Date) returns (r: Result<seq<Date>, DateError>)
    requires Projectable(item) && Valid(today) && Valid(horizon) && today.year <= MAX_YEAR && horizon.year <= MAX_YEAR
    ensures r.Returned? ==> AreItsDates(item, r.value, today, horizon)
    ensures r.Raised? <==> Overflows(item, today, horizon)
  {
    r := Occurrences(item, today, horizon);
    ghost var n: nat :| FirstPast(Occurrence(item), today, horizon, n)
        && (r.Raised? <==> Occurrence(item)(n).year > MAX_YEAR);
    OverflowsIff(item, today, horizon, n);
  }

  lemma OverflowsIff(item: Input, today: Date, horizon: Date, n: nat)
    requires Valid(item.anchor) && Valid(today) && Valid(horizon) && FirstPast(Occurrence(item), today, horizon, n)
    ensures Overflows(item, today, horizon) <==> Occurrence(item)(n).year > MAX_YEAR
  {
    PastSpelledOut(item, today, horizon, n, Occurrence(item)(n));
    forall m: nat, d | IsFirstPast(item, today, horizon, m, d) ensures m == n && d == Occurrence(item)(n) {
      PastSpelledOut(item, today, horizon, m, d);
      FirstPastIsUnique(item, today, horizon, m, n);
    }
  }

  /** The balance runs over the events in order, and the line is drawn through it. */
  ghost predicate RunsOver(p: Projection, today: Date, horizon: Date) {
    && |p.balances| == |p.events|
    && (forall i :: 0 <= i < |p.events| ==> p.balances[i] == p.start + Total(p.events[..i + 1]))
    && |p.points| == |p.events| + 2
    && p.points[0] == Point(today, p.start) && p.points[|p.events| + 1] == Point(horizon, p.end)
    && (forall i :: 0 <= i < |p.events| ==> p.points[i + 1] == Point(p.events[i].on, p.balances[i]))
  }

  /** `project_forecast`.  `dates` are the occurrences each item contributed. */
  method ProjectForecast(anchor: Option<int>, items: seq<Input>, today: Date, horizon: Date)
      returns (r: Result<Projection, DateError>, ghost dates: seq<seq<Date>>)
    requires Valid(today) && today.year <= MAX_YEAR && Valid(horizon) && horizon.year <= MAX_YEAR
    requires forall i :: 0 <= i < |items| ==> Projectable(items[i])
    ensures r.Raised? <==> exists i :: 0 <= i < |items| && Overflows(items[i], today, horizon)
    ensures r.Returned? ==>
              && Contributes(items, dates, today, horizon)
              && r.value.events == Sort(EventLe, Merged(items, dates))
              && RunsOver(r.value, today, horizon)
              && r.value.start == (if anchor.Some? then anchor.value else 0)
              && r.value.end == r.value.start + Expected(items, dates)
  {
    var raw;
    raw, dates := Gather(items, today, horizon);
    if raw.Raised? {
      return Raised(PastMaxYear), dates;
    }
    EndBalance(items, dates, raw.value);
    var projection := RunBalance(if anchor.Some? then anchor.value else 0, Sort(EventLe, raw.value), today, horizon);
    return Returned(projection), dates;
  }

  /** The movements of every item, before they are sorted. */
  method Gather(items: seq<Input>, today: Date, horizon: Date)
      returns (r: Result<seq<Movement>, DateError>, ghost dates: seq<seq<Date>>)
    requires Valid(today) && today.year <= MAX_YEAR && Valid(horizon) && horizon.year <= MAX_YEAR
    requires forall i :: 0 <= i < |items| ==> Projectable(items[i])
    ensures r.Raised? <==> exists i :: 0 <= i < |items| && Overflows(items[i], today, horizon)
    ensures r.Returned? ==> Contributes(items, dates, today, horizon) && r.value == Merged(items, dates)
  {
    var raw := [];
    dates := [];
    for k := 0 to |items|
      invariant Contributes(items[..k], dates, today, horizon) && raw == Merged(items[..k], dates)
      invariant forall i :: 0 <= i < k ==> !Overflows(items[i], today, horizon)
    {
      var occurrences := GatherOne(items, k, dates, today, horizon);
      if occurrences.Raised? {
        return Raised(PastMaxYear), dates;
      }
      raw := raw + MovementsOf(items[k], occurrences.value);
      dates := dates + [occurrences.value];
    }
    assert items[..|items|] == items;
    return Returned(raw), dates;
  }

  /** One turn: the occurrences of item `k`. */
  method GatherOne(items: seq<Input>, k: nat, ghost dates: seq<seq<Date>>, today: Date, horizon: Date)
      returns (r: Result<seq<Date>, DateError>)
    requires Valid(today) && today.year <= MAX_YEAR && Valid(horizon) && horizon.year <= MAX_YEAR
    requires k < |items| && Projectable(items[k]) && Contributes(items[..k], dates, today, horizon)
    ensures r.Raised? <==> Overflows(items[k], today, horizon)
    ensures r.Returned? ==>
              && Contributes(items[..k + 1], dates + [r.value], today, horizon)
              && Merged(items[..k + 1], dates + [r.value]) == Merged(items[..k], dates) + MovementsOf(items[k], r.value)
  {
    r := OccurrencesOf(items[k], today, horizon);
    if r.Returned? {
      MergedGrows(items, dates, k, r.value);
      ContributesGrows(items, dates, today, horizon, k, r.value);
    }
  }

  lemma ContributesGrows(items: seq<Input>, dates: seq<seq<Date>>, today: Date, horizon: Date, k: nat, more: seq<Date>)
    requires k < |items| && Contributes(items[..k], dates, today, horizon)
    requires AreItsDates(items[k], more, today, horizon)
    ensures Contributes(items[..k + 1], dates + [more], today, horizon)
  {
    var xs, ds := items[..k + 1], dates + [more];
    forall i | 0 <= i < |xs|
      ensures AreItsDates(xs[i], ds[i], today, horizon)
    {
      if i < k {
        assert xs[i] == items[..k][i] && ds[i] == dates[i];
      } else {
        assert xs[i] == items[k] && ds[i] == more;
      }
    }
  }

  method RunBalance(start: int, events: seq<Movement>, today: Date, horizon: Date) returns (p: Projection)
    ensures p.start == start && p.events == events && RunsOver(p, today, horizon)
    ensures p.end == start + Total(events)
  {
    var running, balances, points := start, [], [Point(today, start)];
    for k := 0 to |events|
      invariant running == start + Total(events[..k])
      invariant |balances| == k && forall i :: 0 <= i < k ==> balances[i] == start + Total(events[..i + 1])
      invariant |points| == k + 1 && points[0] == Point(today, start)
      invariant forall i :: 0 <= i < k ==> points[i + 1] == Point(events[i].on, balances[i])
    {
      assert events[..k + 1][..k] == events[..k];
      running := running + events[k].amount;
      balances := balances + [running];
      points := points + [Point(events[k].on, running)];
    }
    assert events[..|events|] == events;
    p := Projection(start, running, events, balances, points + [Point(horizon, running)]);
  }

  lemma MergedGrows(items: seq<Input>, dates: seq<seq<Date>>, k: nat, more: seq<Date>)
    requires |dates| == k < |items|
    ensures Merged(items[..k + 1], dates + [more]) == Merged(items[..k], dates) + MovementsOf(items[k], more)
  {
    var xs, ds := items[..k + 1], dates + [more];
    assert xs[k] == items[k] && xs[..k] == items[..k];
    assert ds[k] == more && ds[..k] == dates;
    assert Merged(xs, ds) == Merged(xs[..k], ds[..k]) + MovementsOf(xs[k], ds[k]);
  }

  /** Conservation: whatever order the events run in, the balance ends at the start plus each
      item's amount times its number of occurrences. */
  lemma EndBalance(items: seq<Input>, dates: seq<seq<Date>>, raw: seq<Movement>)
    requires |items| == |dates| && raw == Merged(items, dates)
    ensures Total(Sort(EventLe, raw)) == Expected(items, dates)
  {
    SortPermutes(EventLe, raw);
    SumPermutes(AmountOf(), Sort(EventLe, raw), raw);
    MergedTotal(items, dates);
  }

  lemma {:induction false} MergedTotal(items: seq<Input>, dates: seq<seq<Date>>)
    requires |items| == |dates|
    ensures Total(Merged(items, dates)) == Expected(items, dates)
  {
    if items != [] {
      var n := |items| - 1;
      MergedTotal(items[..n], dates[..n]);
      SumConcat(AmountOf(), Merged(items[..n], dates[..n]), MovementsOf(items[n], dates[n]));
      ConstantTotal(items[n], dates[n]);
    }
  }

  lemma {:induction false} ConstantTotal(item: Input, dates: seq<Date>)
    ensures Total(MovementsOf(item, dates)) == item.amount * |dates|
  {
    if dates != [] {
      var n := |dates| - 1;
      ConstantTotal(item, dates[..n]);
      assert MovementsOf(item, dates)[..n] == MovementsOf(item, dates[..n]);
    }
  }

  /** The events are the items' dates, each under its item's name, direction and amount, one event a date. */
  lemma {:induction false} EventsSpelledOut(items: seq<Input>, dates: seq<seq<Date>>, m: Movement)
    requires |items| == |dates|
    ensures m in Merged(items, dates) <==> IsSomeEvent(items, dates, m)
    ensures |Merged(items, dates)| == Sum(LengthOf(), dates)
    decreases |items|
  {
    if items != [] {
      var n := |items| - 1;
      EventsSpelledOut(items[..n], dates[..n], m);
      OneItemsEvents(items[n], dates[n], m);
      SomeEventNext(items, dates, m);
    }
  }

  lemma SomeEventNext(items: seq<Input>, dates: seq<seq<Date>>, m: Movement)
    requires |items| == |dates| > 0
    ensures var n := |items| - 1;
            IsSomeEvent(items, dates, m) <==>
              IsSomeEvent(items[..n], dates[..n], m) || IsEventOf(items[n], dates[n], m)
  {
    var n := |items| - 1;
    forall i | 0 <= i < n ensures IsEventOf(items[..n][i], dates[..n][i], m) <==> IsEventOf(items[i], dates[i], m) {
    }
  }

  ghost predicate IsSomeEvent(items: seq<Input>, dates: seq<seq<Date>>, m: Movement)
    requires |items| == |dates|
  {
    exists i :: 0 <= i < |items| && IsEventOf(items[i], dates[i], m)
  }

  ghost predicate IsEventOf(item: Input, dates: seq<Date>, m: Movement) {
    m.on in dates && m.merchant == item.merchant && m.direction == item.direction && m.amount == item.amount
  }

  function LengthOf(): seq<Date> -> int {
    (dates: seq<Date>) => |dates|
  }

  lemma OneItemsEvents(item: Input, dates: seq<Date>, m: Movement)
    ensures m in MovementsOf(item, dates) <==> IsEventOf(item, dates, m)
  {
    if IsEventOf(item, dates, m) {
      var i :| 0 <= i < |dates| && dates[i] == m.on;
      assert MovementsOf(item, dates)[i] == m;
    }
  }

  /** The event order is total, so events really come out in order with ties as they came in. */
  lemma EventOrderIsTotal()
    ensures TotalPreorder(EventLe)
  {
    forall a, b ensures EventLe(a, b) || EventLe(b, a) {
      StringLeTotal(a.merchant, b.merchant);
    }
    forall a, b, c | EventLe(a, b) && EventLe(b, c) ensures EventLe(a, c) {
      StringLeTotal(a.merchant, b.merchant);
      StringLeTotal(b.merchant, c.merchant);
      StringLeTotal(a.merchant, c.merchant);
      if StringLe(a.merchant, b.merchant) && StringLe(b.merchant, c.merchant) {
        StringLeTransitive(a.merchant, b.merchant, c.merchant);
      }
      if StringLe(c.merchant, a.merchant) && StringLe(a.merchant, b.merchant) {
        StringLeTransitive(c.merchant, a.merchant, b.merchant);
      }
      if StringLe(b.merchant, c.merchant) && StringLe(c.merchant, a.merchant) {
        StringLeTransitive(b.merchant, c.merchant, a.merchant);
      }
    }
  }

  /** Events go by date, then by merchant, then money in before money out, and events alike in all three keep
      the order of the items they came from. */
  lemma EventsAreOrdered(raw: seq<Movement>, k: Movement)
    ensures var events := Sort(EventLe, raw);
            forall i, j :: 0 <= i < j < |events| ==>
              var a, b := events[i], events[j];
              || Before(a.on, b.on)
              || (!Before(b.on, a.on)
                  && ((a.merchant != b.merchant && StringLe(a.merchant, b.merchant))
                      || (a.merchant == b.merchant && !(a.direction.Out? && b.direction.In?))))
    ensures Ties(EventLe, k, Sort(EventLe, raw)) == Ties(EventLe, k, raw)
  {
    var events := Sort(EventLe, raw);
    EventOrderIsTotal();
    SortSorts(EventLe, raw);
    SortIsStable(EventLe, k, raw);
    forall i, j | 0 <= i < j < |events|
      ensures var a, b := events[i], events[j];
              || Before(a.on, b.on)
              || (!Before(b.on, a.on)
                  && ((a.merchant != b.merchant && StringLe(a.merchant, b.merchant))
                      || (a.merchant == b.merchant && !(a.direction.Out? && b.direction.In?))))
    {
      assert EventLe(events[i], events[j]);
      StringLeTotal(events[i].merchant, events[j].merchant);
    }
  }
}
