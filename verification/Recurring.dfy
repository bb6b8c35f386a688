/** Recurring-money detection (`recurring.py`). */
module Recurring {
  import opened Wrappers
  import opened Calendar
  import opened Merchants
  import opened Sequences
  import opened Sorting

  const MIN_OCCURRENCES: nat := 3
  const ACTIVE_GRACE: int := 2

  /** One transaction as the detector reads it; `amount` in signed minor units. */
  datatype Row = Row(id: int, day: Date, amount: int, description: string)

  /** What rows are grouped by. */
  datatype Key = Key(direction: Direction, merchant: string)

  datatype Item = Item(merchant: string, key: Key, cadence: Cadence, amount: int, monthlyEquivalent: int,
                       occurrences: nat, firstSeen: Date, lastSeen: Date, nextExpected: Date,
                       txnIds: seq<int>, dayOfMonth: int)

  // ----- grouping -----

  function KeyOf(nm: Naming, row: Row): Key {
    Key(if row.amount < 0 then Out else In, nm.fold(nm.merchant(row.description)))
  }

  predicate Counted(row: Row, excluded: set<int>) {
    row.id !in excluded && row.amount != 0
  }

  predicate Belongs(nm: Naming, row: Row, excluded: set<int>, key: Key) {
    Counted(row, excluded) && KeyOf(nm, row) == key
  }

  /** The rows of one group, in input order. */
  function Members(nm: Naming, rows: seq<Row>, excluded: set<int>, key: Key): seq<Row> {
    if rows == [] then []
    else
      var last := rows[|rows| - 1];
      Members(nm, rows[..|rows| - 1], excluded, key) + (if Belongs(nm, last, excluded, key) then [last] else [])
  }

  lemma {:induction false} MembersBelong(nm: Naming, rows: seq<Row>, excluded: set<int>, key: Key)
    ensures forall r :: r in Members(nm, rows, excluded, key) <==> r in rows && Belongs(nm, r, excluded, key)
    ensures forall r :: r in Members(nm, rows, excluded, key) <==>
              && r in rows && r.id !in excluded && r.amount != 0
              && (r.amount < 0 <==> key.direction.Out?) && nm.fold(nm.merchant(r.description)) == key.merchant
  {
    if rows != [] {
      MembersBelong(nm, rows[..|rows| - 1], excluded, key);
      assert rows == rows[..|rows| - 1] + [rows[|rows| - 1]];
    }
  }

  // ----- judging one group -----

  predicate RowLe(a: Row, b: Row) {
    Before(a.day, b.day) || (!Before(b.day, a.day) && a.id <= b.id)
  }

  predicate IntLe(a: int, b: int) {
    a <= b
  }

  function Magnitude(row: Row): int {
    if row.amount < 0 then -row.amount else row.amount
  }

  /** `median_low`: the lower of the two middle values. */
  function MedianLow(xs: seq<int>): int
    requires xs != []
  {
    SortPermutes(IntLe, xs);
    Sort(IntLe, xs)[(|xs| - 1) / 2]
  }

  predicate Within10Percent(magnitude: int, med: int) {
    100 * (if magnitude < med then med - magnitude else magnitude - med) <= 10 * med
  }

  /** The non-zero day gaps between consecutive dates. */
  function Gaps(dates: seq<Date>): seq<int> {
    if |dates| < 2 then []
    else
      var n := |dates|;
      var gap := Ordinal(dates[n - 1]) - Ordinal(dates[n - 2]);
      Gaps(dates[..n - 1]) + (if gap != 0 then [gap] else [])
  }

  function BandOf(gap: int): Option<Cadence> {
    if 5 <= gap <= 10 then Some(Weekly)
    else if 11 <= gap <= 18 then Some(Fortnightly)
    else if 25 <= gap <= 35 then Some(Monthly)
    else if 330 <= gap <= 400 then Some(Yearly)
    else None
  }

  /** At least two gaps, all in the band of `cadence`. */
  predicate AllInBand(gaps: seq<int>, cadence: Cadence) {
    |gaps| >= 2 && forall g :: g in gaps ==> BandOf(g) == Some(cadence)
  }

  function Classify(gaps: seq<int>): Option<Cadence> {
    if |gaps| >= 2 && BandOf(gaps[0]).Some? && AllInBand(gaps, BandOf(gaps[0]).value) then BandOf(gaps[0]) else None
  }

  /** `_classify`: a running band over the gaps. */
  method ClassifyGaps(gaps: seq<int>) returns (band: Option<Cadence>)
    ensures band == Classify(gaps)
    ensures forall c :: band == Some(c) <==> AllInBand(gaps, c)
  {
    if |gaps| < 2 {
      return None;
    }
    band := None;
    for k := 0 to |gaps|
      invariant band.None? <==> k == 0
      invariant band.Some? ==> forall i :: 0 <= i < k ==> BandOf(gaps[i]) == band
    {
      var matched := BandOf(gaps[k]);
      if matched.None? {
        assert gaps[k] in gaps && gaps[0] in gaps;
        return None;
      }
      if band.None? {
        band := matched;
      } else if matched != band {
        assert gaps[k] in gaps && gaps[0] in gaps;
        return None;
      }
    }
    assert gaps[0] in gaps;
  }

  function Nominal(cadence: Cadence): int {
    match cadence case Weekly => 7 case Fortnightly => 14 case Monthly => 30 case Yearly => 365
  }

  function PeriodsPerYear(cadence: Cadence): int {
    match cadence case Weekly => 52 case Fortnightly => 26 case Monthly => 12 case Yearly => 1
  }

  /** `num / den` rounded half to even. */
  function RoundHalfEven(num: int, den: int): int
    requires den > 0
  {
    var q, r := num / den, num % den;
    if 2 * r < den || (2 * r == den && q % 2 == 0) then q else q + 1
  }

  function DayOf(row: Row): Date { row.day }
  function IdOf(row: Row): int { row.id }

  /** All magnitudes are within 10% of `med`. */
  predicate Even(members: seq<Row>, med: int) {
    forall m :: m in members ==> Within10Percent(Magnitude(m), med)
  }

  /** The item a group of rows gives, if it is even, regular and still active on `today`. */
  function GroupItem(nm: Naming, key: Key, members: seq<Row>, today: Date): Option<Item> {
    if |members| < MIN_OCCURRENCES then None
    else
      var med := MedianLow(Map(Magnitude, members));
      SortPermutes(RowLe, members);
      if !Even(members, med) then None else RegularItem(nm, key, Sort(RowLe, members), med, today)
  }

  /** The item of an even group, from its rows in (day, id) order and their low median. */
  function RegularItem(nm: Naming, key: Key, ordered: seq<Row>, med: int, today: Date): Option<Item>
    requires ordered != []
  {
    var dates := Map(DayOf, ordered);
    var cadence := Classify(Gaps(dates));
    var last := dates[|dates| - 1];
    if cadence.None? then None
    else if Ordinal(today) - Ordinal(last) > ACTIVE_GRACE * Nominal(cadence.value) then None
    else Some(Item(nm.merchant(ordered[0].description), key, cadence.value, med,
                   RoundHalfEven(med * PeriodsPerYear(cadence.value), 12), |ordered|, dates[0], last,
                   AddCadenceN(last, cadence.value, 1, IntendedDay(dates)), Map(IdOf, ordered), IntendedDay(dates)))
  }

  /** A row's size. */
  function Size(m: Row): int {
    if m.amount < 0 then -m.amount else m.amount
  }

  function BelowOf(size: int): Row -> int {
    (m: Row) => if Size(m) < size then 1 else 0
  }

  function AboveOf(size: int): Row -> int {
    (m: Row) => if Size(m) > size then 1 else 0
  }

  /** The lower of the two middle sizes: fewer than half are smaller, and no more than half larger. */
  ghost predicate IsLowMedian(members: seq<Row>, size: int) {
    && (exists m :: m in members && Size(m) == size)
    && 2 * Sum(BelowOf(size), members) < |members| && 2 * Sum(AboveOf(size), members) <= |members|
  }

  /** The days from one payment to the next that a cadence allows. */
  ghost predicate InStep(gap: int, cadence: Cadence) {
    match cadence
    case Weekly => 5 <= gap <= 10
    case Fortnightly => 11 <= gap <= 18
    case Monthly => 25 <= gap <= 35
    case Yearly => 330 <= gap <= 400
  }

  /** Rows in (day, id) order whose gaps all suit the cadence, the last of them within two periods of `today`. */
  ghost predicate Regular(ordered: seq<Row>, today: Date, cadence: Cadence) {
    && ordered != [] && |Gaps(Map(DayOf, ordered))| >= 2
    && (forall gap :: gap in Gaps(Map(DayOf, ordered)) ==> InStep(gap, cadence))
    && Ordinal(today) - Ordinal(ordered[|ordered| - 1].day)
       <= match cadence case Weekly => 14 case Fortnightly => 28 case Monthly => 60 case Yearly => 730
  }

  /** Every size is within a tenth of the low median. */
  ghost predicate EvenSized(members: seq<Row>) {
    exists size :: IsLowMedian(members, size) &&
      forall m :: m in members ==> 10 * (size - Size(m)) <= size && 10 * (Size(m) - size) <= size
  }

  /** What makes a group recurring: three rows or more, each within a tenth of the low median, and regular up
      to `today`. */
  ghost predicate Qualifies(members: seq<Row>, today: Date, cadence: Cadence) {
    |members| >= 3 && EvenSized(members) && Regular(Sort(RowLe, members), today, cadence)
  }

  /** All days are days of the calendar, as every Python `date` is. */
  ghost predicate RealDays(members: seq<Row>) {
    forall m :: m in members ==> Valid(m.day)
  }

  /** Rows by day, and by id within a day. */
  ghost predicate InDayOrder(ordered: seq<Row>) {
    forall i, j :: 0 <= i < j < |ordered| ==>
      Ordinal(ordered[i].day) < Ordinal(ordered[j].day)
      || (ordered[i].day == ordered[j].day && ordered[i].id <= ordered[j].id)
  }

  /** `amount * 52 / 12`, or as the cadence has it, to the nearest, a half to the even. */
  ghost predicate IsMonthlyShare(monthly: int, amount: int, cadence: Cadence) {
    var year := match cadence case Weekly => 52 * amount case Fortnightly => 26 * amount
                              case Monthly => 12 * amount case Yearly => amount;
    -6 <= 12 * monthly - year <= 6 && (12 * monthly - year == 6 || 12 * monthly - year == -6 ==> monthly % 2 == 0)
  }

  /** The day of the month the item aims at: its last row's day, or, where that is the last of its month, the
      greatest day any row fell on. */
  ghost predicate IsAim(members: seq<Row>, last: Date, aim: int) {
    if last.day != MonthLength(last.year, last.month) then aim == last.day
    else (exists m :: m in members && m.day.day == aim) && forall m :: m in members ==> m.day.day <= aim
  }

  /** The item's ids are those of the rows in order; it is named after the first and spans first to last. */
  ghost predicate ReadInOrder(nm: Naming, ordered: seq<Row>, item: Item) {
    && InDayOrder(ordered) && ordered != [] && item.txnIds == Map(IdOf, ordered)
    && item.firstSeen == ordered[0].day && item.lastSeen == ordered[|ordered| - 1].day
    && item.merchant == nm.merchant(ordered[0].description)
  }

  /** `item` sums the group up. */
  ghost predicate Describes(nm: Naming, members: seq<Row>, item: Item) {
    && item.occurrences == |members| && IsLowMedian(members, item.amount)
    && IsMonthlyShare(item.monthlyEquivalent, item.amount, item.cadence)
    && (exists ordered: seq<Row> :: multiset(ordered) == multiset(members) && ReadInOrder(nm, ordered, item))
    && IsAim(members, item.lastSeen, item.dayOfMonth)
    && item.dayOfMonth > 0 && IsStep(item.lastSeen, item.cadence, 1, item.dayOfMonth, item.nextExpected)
  }

  /** The body of the group loop: skip the group, or build its item. */
  method JudgeGroup(nm: Naming, key: Key, members: seq<Row>, today: Date) returns (item: Option<Item>)
    ensures item.Some? <==> exists c :: Qualifies(members, today, c)
    ensures item.Some? ==>
              && item.value.key == key && Qualifies(members, today, item.value.cadence)
              && (RealDays(members) ==> Describes(nm, members, item.value))
    ensures item == GroupItem(nm, key, members, today)
  {
    ItemIffQualifies(nm, key, members, today);
    if GroupItem(nm, key, members, today).Some? && RealDays(members) {
      ItemDescribes(nm, key, members, today);
    }
    if |members| < MIN_OCCURRENCES {
      return None;
    }
    var med := MedianLow(Map(Magnitude, members));
    if !Even(members, med) {
      return None;
    }
    SortPermutes(RowLe, members);
    item := JudgeOrdered(nm, key, Sort(RowLe, members), med, today);
  }

  method JudgeOrdered(nm: Naming, key: Key, ordered: seq<Row>, med: int, today: Date) returns (item: Option<Item>)
    requires ordered != []
    ensures item == RegularItem(nm, key, ordered, med, today)
  {
    var dates := Map(DayOf, ordered);
    var cadence := ClassifyGaps(Gaps(dates));
    if cadence.None? {
      return None;
    }
    var last := dates[|dates| - 1];
    if Ordinal(today) - Ordinal(last) > ACTIVE_GRACE * Nominal(cadence.value) {
      return None;
    }
    var aim := IntendedDay(dates);
    item := Some(Item(nm.merchant(ordered[0].description), key, cadence.value, med,
                      RoundHalfEven(med * PeriodsPerYear(cadence.value), 12), |ordered|, dates[0], last,
                      AddCadenceN(last, cadence.value, 1, aim), Map(IdOf, ordered), aim));
  }

  lemma ClassifyMeans(gaps: seq<int>)
    ensures forall c :: Classify(gaps) == Some(c) <==> |gaps| >= 2 && forall g :: g in gaps ==> InStep(g, c)
  {
    if |gaps| >= 2 {
      assert gaps[0] in gaps;
    }
  }

  lemma RegularMeans(nm: Naming, key: Key, ordered: seq<Row>, med: int, today: Date)
    requires ordered != []
    ensures var item := RegularItem(nm, key, ordered, med, today);
            && (item.Some? <==> exists c :: Regular(ordered, today, c))
            && (item.Some? ==> Regular(ordered, today, item.value.cadence))
  {
    var gaps := Gaps(Map(DayOf, ordered));
    ClassifyMeans(gaps);
    if c :| Regular(ordered, today, c) {
      assert Classify(gaps) == Some(c);
    }
    var dates, cadence := Map(DayOf, ordered), Classify(gaps);
    assert dates[|dates| - 1] == ordered[|ordered| - 1].day;
    if RegularItem(nm, key, ordered, med, today).Some? {
      assert RegularItem(nm, key, ordered, med, today).value.cadence == cadence.value;
      assert Regular(ordered, today, cadence.value);
    }
  }

  lemma ItemIffQualifies(nm: Naming, key: Key, members: seq<Row>, today: Date)
    ensures var item := GroupItem(nm, key, members, today);
            && (item.Some? <==> exists c :: Qualifies(members, today, c))
            && (item.Some? ==> Qualifies(members, today, item.value.cadence))
  {
    if |members| >= MIN_OCCURRENCES {
      var ordered, med := Sort(RowLe, members), MedianLow(Map(Magnitude, members));
      SortPermutes(RowLe, members);
      EvenSpelledOut(members);
      RegularMeans(nm, key, ordered, med, today);
      assert forall c :: Qualifies(members, today, c) <==> EvenSized(members) && Regular(ordered, today, c);
    }
  }

  lemma EvenSpelledOut(members: seq<Row>)
    requires members != []
    ensures Even(members, MedianLow(Map(Magnitude, members))) <==> EvenSized(members)
  {
    var med := MedianLow(Map(Magnitude, members));
    MedianIsLow(members);
    forall size | IsLowMedian(members, size) ensures size == med {
      OneLowMedian(members, size, med);
    }
    assert Even(members, med) <==>
           forall m :: m in members ==> 10 * (med - Size(m)) <= med && 10 * (Size(m) - med) <= med;
  }

  // ----- the low median -----

  function Below(size: int): int -> int {
    (x: int) => if x < size then 1 else 0
  }

  function Above(size: int): int -> int {
    (x: int) => if x > size then 1 else 0
  }

  lemma CountsOfSizes(members: seq<Row>, size: int)
    ensures Sum(BelowOf(size), members) == Sum(Below(size), Map(Magnitude, members))
    ensures Sum(AboveOf(size), members) == Sum(Above(size), Map(Magnitude, members))
  {
    SumOfMap(Below(size), Magnitude, BelowOf(size), members);
    SumOfMap(Above(size), Magnitude, AboveOf(size), members);
  }

  /** In a sorted list no more than `k` elements are below the one at `k`, nor more above it than follow. */
  lemma {:induction false} CountsInOrder(xs: seq<int>, k: nat, n: nat)
    requires Sorted(IntLe, xs) && k < |xs| && n <= |xs|
    ensures 0 <= Sum(Below(xs[k]), xs[..n]) <= k && 0 <= Sum(Above(xs[k]), xs[..n]) <= if n <= k then 0 else n - 1 - k
    ensures n <= k ==> Sum(Below(xs[k]), xs[..n]) <= n
  {
    if n > 0 {
      var front := xs[..n];
      CountsInOrder(xs, k, n - 1);
      assert front[..n - 1] == xs[..n - 1] && front[n - 1] == xs[n - 1];
      assert n - 1 < k ==> IntLe(xs[n - 1], xs[k]);
      assert n - 1 > k ==> IntLe(xs[k], xs[n - 1]);
    }
  }

  lemma MedianIsLow(members: seq<Row>)
    requires members != []
    ensures IsLowMedian(members, MedianLow(Map(Magnitude, members)))
  {
    var sizes := Map(Magnitude, members);
    var sorted, k := Sort(IntLe, sizes), (|sizes| - 1) / 2;
    SortPermutes(IntLe, sizes);
    SortSorts(IntLe, sizes);
    MedianIsASize(members);
    CountsInOrder(sorted, k, |sorted|);
    assert sorted[..|sorted|] == sorted;
    CountsOfSizes(members, sorted[k]);
    SumPermutes(Below(sorted[k]), sizes, sorted);
    SumPermutes(Above(sorted[k]), sizes, sorted);
  }

  /** Two low medians are one. */
  lemma OneLowMedian(members: seq<Row>, x: int, y: int)
    requires IsLowMedian(members, x) && IsLowMedian(members, y)
    ensures x == y
  {
    if x < y {
      BelowAndAbove(members, x, y);
    } else if y < x {
      BelowAndAbove(members, y, x);
    }
  }

  /** Every size is above the one or below the other. */
  lemma {:induction false} BelowAndAbove(members: seq<Row>, x: int, y: int)
    requires x < y
    ensures Sum(AboveOf(x), members) + Sum(BelowOf(y), members) >= |members|
    decreases |members|
  {
    if members != [] {
      BelowAndAbove(members[..|members| - 1], x, y);
    }
  }

  lemma MedianIsASize(members: seq<Row>)
    requires members != []
    ensures exists m :: m in members && MedianLow(Map(Magnitude, members)) == Size(m)
  {
    var sizes := Map(Magnitude, members);
    SortPermutes(IntLe, sizes);
    SortKeepsElements(IntLe, sizes);
    var med := Sort(IntLe, sizes)[(|sizes| - 1) / 2];
    assert med in Sort(IntLe, sizes) && med in sizes;
    var i :| 0 <= i < |sizes| && sizes[i] == med;
    assert members[i] in members;
  }

  // ----- the item of a group -----

  /** `item` was read off the ordered rows. */
  ghost predicate ReadOff(nm: Naming, ordered: seq<Row>, med: int, item: Item) {
    && ordered != [] && item.amount == med && item.occurrences == |ordered| && item.txnIds == Map(IdOf, ordered)
    && item.firstSeen == ordered[0].day && item.lastSeen == ordered[|ordered| - 1].day
    && item.merchant == nm.merchant(ordered[0].description)
    && item.monthlyEquivalent == RoundHalfEven(med * PeriodsPerYear(item.cadence), 12)
    && item.dayOfMonth == IntendedDay(Map(DayOf, ordered))
    && item.nextExpected == AddCadenceN(item.lastSeen, item.cadence, 1, item.dayOfMonth)
  }

  lemma RegularReadsOff(nm: Naming, key: Key, ordered: seq<Row>, med: int, today: Date)
    requires ordered != [] && RegularItem(nm, key, ordered, med, today).Some?
    ensures ReadOff(nm, ordered, med, RegularItem(nm, key, ordered, med, today).value)
  {
  }

  lemma ItemDescribes(nm: Naming, key: Key, members: seq<Row>, today: Date)
    requires GroupItem(nm, key, members, today).Some? && RealDays(members)
    ensures Describes(nm, members, GroupItem(nm, key, members, today).value)
  {
    var ordered, med := Sort(RowLe, members), MedianLow(Map(Magnitude, members));
    SortPermutes(RowLe, members);
    RegularReadsOff(nm, key, ordered, med, today);
    MedianIsLow(members);
    ReadOffDescribes(nm, members, ordered, med, GroupItem(nm, key, members, today).value);
  }

  lemma ReadOffDescribes(nm: Naming, members: seq<Row>, ordered: seq<Row>, med: int, item: Item)
    requires members != [] && RealDays(members) && ordered == Sort(RowLe, members) && ReadOff(nm, ordered, med, item)
    requires IsLowMedian(members, med)
    ensures Describes(nm, members, item)
  {
    SortPermutes(RowLe, members);
    SortKeepsElements(RowLe, members);
    SortedByDay(members);
    assert ReadInOrder(nm, ordered, item);
    AimSpelledOut(members, ordered);
    RoundedShare(med, item.cadence);
    LastDayIsReal(members, ordered);
    CadenceSteps(item.lastSeen, item.cadence, 1, item.dayOfMonth, item.nextExpected);
  }

  lemma LastDayIsReal(members: seq<Row>, ordered: seq<Row>)
    requires RealDays(members) && ordered != [] && forall m :: m in ordered <==> m in members
    ensures Valid(ordered[|ordered| - 1].day)
  {
    assert ordered[|ordered| - 1] in ordered;
  }

  lemma RoundedShare(amount: int, cadence: Cadence)
    ensures IsMonthlyShare(RoundHalfEven(amount * PeriodsPerYear(cadence), 12), amount, cadence)
  {
  }

  lemma SortedByDay(members: seq<Row>)
    requires RealDays(members)
    ensures InDayOrder(Sort(RowLe, members))
  {
    var ordered := Sort(RowLe, members);
    RowOrderIsTotal();
    SortSorts(RowLe, members);
    SortKeepsElements(RowLe, members);
    forall i, j | 0 <= i < j < |ordered|
      ensures Ordinal(ordered[i].day) < Ordinal(ordered[j].day)
              || (ordered[i].day == ordered[j].day && ordered[i].id <= ordered[j].id)
    {
      assert ordered[i] in ordered && ordered[j] in ordered && RowLe(ordered[i], ordered[j]);
      BeforeIsOrdinalOrder(ordered[i].day, ordered[j].day);
      BeforeIsOrdinalOrder(ordered[j].day, ordered[i].day);
    }
  }

  lemma AimSpelledOut(members: seq<Row>, ordered: seq<Row>)
    requires members != [] && RealDays(members) && multiset(ordered) == multiset(members) && ordered != []
    requires forall m :: m in ordered <==> m in members
    ensures var aim := IntendedDay(Map(DayOf, ordered));
            aim > 0 && IsAim(members, ordered[|ordered| - 1].day, aim)
  {
    var dates := Map(DayOf, ordered);
    MaxDayIsMaximum(dates);
    forall m | m in members ensures m.day in dates {
      assert m in ordered;
      var i :| 0 <= i < |ordered| && ordered[i] == m;
      assert dates[i] == m.day;
    }
    forall d | d in dates ensures exists m :: m in members && m.day == d {
      var i :| 0 <= i < |dates| && dates[i] == d;
      assert ordered[i] in ordered;
    }
    assert ordered[|ordered| - 1] in ordered && ordered[|ordered| - 1].day in dates;
  }

  /** Rows that all fell on day `d` or, where their month has none, on its last, at least one of them on day `d`
      itself: the item aims at day `d`, and a monthly or yearly item is next expected on it. */
  lemma ItemKeepsItsDay(nm: Naming, members: seq<Row>, item: Item, d: int)
    requires RealDays(members) && Describes(nm, members, item)
    requires forall m :: m in members ==>
               m.day.day == if d <= MonthLength(m.day.year, m.day.month) then d
                            else MonthLength(m.day.year, m.day.month)
    requires exists m :: m in members && m.day.day == d
    ensures item.dayOfMonth == d
    ensures item.cadence.Monthly? || item.cadence.Yearly? ==>
              item.nextExpected.day == if d <= MonthLength(item.nextExpected.year, item.nextExpected.month) then d
                                       else MonthLength(item.nextExpected.year, item.nextExpected.month)
  {
    var m := LastRow(nm, members, item);
    AimIsTheDay(members, m, item.dayOfMonth, d);
  }

  lemma LastRow(nm: Naming, members: seq<Row>, item: Item) returns (m: Row)
    requires Describes(nm, members, item)
    ensures m in members && m.day == item.lastSeen
  {
    var ordered: seq<Row> :| multiset(ordered) == multiset(members) && ReadInOrder(nm, ordered, item);
    m := ordered[|ordered| - 1];
    assert m in multiset(ordered);
  }

  lemma AimIsTheDay(members: seq<Row>, last: Row, aim: int, d: int)
    requires RealDays(members) && last in members && IsAim(members, last.day, aim)
    requires forall m :: m in members ==>
               m.day.day == if d <= MonthLength(m.day.year, m.day.month) then d
                            else MonthLength(m.day.year, m.day.month)
    requires exists m :: m in members && m.day.day == d
    ensures aim == d
  {
  }

  // ----- the detector -----

  predicate ItemLe(a: Item, b: Item) {
    || a.monthlyEquivalent > b.monthlyEquivalent
    || (a.monthlyEquivalent == b.monthlyEquivalent
        && (!StringLe(b.key.merchant, a.key.merchant)
            || (a.key.merchant == b.key.merchant && (a.key.direction.In? || b.key.direction.Out?))))
  }

  /** `item` is what the rows of its own key give. */
  predicate IsGroupItem(nm: Naming, rows: seq<Row>, excluded: set<int>, today: Date, item: Item) {
    GroupItem(nm, item.key, Members(nm, rows, excluded, item.key), today) == Some(item)
  }

  /** The detector's answer: exactly the items of the rows' groups, in the fixed order. */
  ghost predicate IsDetection(nm: Naming, rows: seq<Row>, excluded: set<int>, today: Date, items: seq<Item>) {
    && Sorted(ItemLe, items)
    && NoDuplicates(items)
    && forall it :: it in items <==> IsGroupItem(nm, rows, excluded, today, it)
  }

  /** The next expected date of some group's item is past the last year a date can have. */
  ghost predicate TooLate(nm: Naming, rows: seq<Row>, excluded: set<int>, today: Date) {
    exists it :: IsGroupItem(nm, rows, excluded, today, it) && it.nextExpected.year > MAX_YEAR
  }

  /** `detect_recurring`.  It raises exactly when some item's next expected date is past the last
      year a date can have. */
  method DetectRecurring(nm: Naming, rows: seq<Row>, today: Date, excluded: set<int>)
      returns (r: Result<seq<Item>, DateError>)
    ensures r.Returned? ==> IsDetection(nm, rows, excluded, today, r.value)
    ensures r.Raised? <==> TooLate(nm, rows, excluded, today)
  {
    var groups, order := GroupRows(nm, rows, excluded);
    ghost var itemOf := (key: Key) => GroupItem(nm, key, Members(nm, rows, excluded, key), today);
    r := CollectItems(nm, groups, order, today, itemOf);
    TooLateIsAnItem(nm, rows, excluded, today, order, itemOf);
    if r.Returned? {
      ItemOrderIsTotal();
      SortSorts(ItemLe, r.value);
      SortPermutes(ItemLe, r.value);
      SortKeepsElements(ItemLe, r.value);
      DuplicateFreeSort(ItemLe, r.value);
      forall it: Item ensures it in r.value <==> IsGroupItem(nm, rows, excluded, today, it) {
        assert itemOf(it.key) == GroupItem(nm, it.key, Members(nm, rows, excluded, it.key), today);
      }
      r := Returned(Sort(ItemLe, r.value));
    }
  }

  lemma TooLateIsAnItem(nm: Naming, rows: seq<Row>, excluded: set<int>, today: Date, order: seq<Key>,
                        itemOf: Key -> Option<Item>)
    requires forall k :: itemOf(k) == GroupItem(nm, k, Members(nm, rows, excluded, k), today)
    requires forall k :: k !in order ==> Members(nm, rows, excluded, k) == []
    ensures SomeTooLate(order, itemOf) <==> TooLate(nm, rows, excluded, today)
  {
    if it :| IsGroupItem(nm, rows, excluded, today, it) && it.nextExpected.year > MAX_YEAR {
      assert itemOf(it.key) == Some(it);
    }
    if k :| k in order && itemOf(k).Some? && itemOf(k).value.nextExpected.year > MAX_YEAR {
      assert IsGroupItem(nm, rows, excluded, today, itemOf(k).value);
    }
  }

  /** `items` are the items of `keys`, each once. */
  ghost predicate Collected(items: seq<Item>, keys: seq<Key>, itemOf: Key -> Option<Item>) {
    && NoDuplicates(items)
    && forall it: Item {:trigger it in items} :: it in items <==> it.key in keys && itemOf(it.key) == Some(it)
  }

  lemma CollectOne(items: seq<Item>, keys: seq<Key>, key: Key, itemOf: Key -> Option<Item>)
    requires Collected(items, keys, itemOf) && key !in keys && !SomeTooLate(keys, itemOf)
    requires itemOf(key).Some? ==> itemOf(key).value.key == key && itemOf(key).value.nextExpected.year <= MAX_YEAR
    ensures Collected(if itemOf(key).Some? then items + [itemOf(key).value] else items, keys + [key], itemOf)
    ensures !SomeTooLate(keys + [key], itemOf)
  {
    forall k ensures k in keys + [key] <==> k in keys || k == key {
    }
    if itemOf(key).Some? {
      var item := itemOf(key).value;
      var more := items + [item];
      assert item !in items;
      forall it: Item ensures it in more <==> it in items || it == item {
      }
      forall it: Item ensures it in more <==> it.key in keys + [key] && itemOf(it.key) == Some(it) {
        assert it in items <==> it.key in keys && itemOf(it.key) == Some(it);
      }
    } else {
      forall it: Item ensures it in items <==> it.key in keys + [key] && itemOf(it.key) == Some(it) {
        assert it in items <==> it.key in keys && itemOf(it.key) == Some(it);
      }
    }
    assert forall k :: k in keys && itemOf(k).Some? ==> itemOf(k).value.nextExpected.year <= MAX_YEAR;
  }

  /** The item of some key has a next date no date can represent. */
  ghost predicate SomeTooLate(keys: seq<Key>, itemOf: Key -> Option<Item>) {
    exists k :: k in keys && itemOf(k).Some? && itemOf(k).value.nextExpected.year > MAX_YEAR
  }

  ghost predicate GivesItems(nm: Naming, groups: map<Key, seq<Row>>, today: Date, itemOf: Key -> Option<Item>) {
    forall k {:trigger groups[k]} :: k in groups ==> itemOf(k) == GroupItem(nm, k, groups[k], today)
  }

  method JudgeKey(nm: Naming, groups: map<Key, seq<Row>>, key: Key, today: Date, ghost itemOf: Key -> Option<Item>)
      returns (item: Option<Item>)
    requires key in groups && GivesItems(nm, groups, today, itemOf)
    ensures item == itemOf(key) && (item.Some? ==> item.value.key == key)
  {
    item := JudgeGroup(nm, key, groups[key], today);
  }

  /** One turn of the group loop. */
  method CollectKey(nm: Naming, groups: map<Key, seq<Row>>, key: Key, today: Date, items: seq<Item>,
                    ghost keys: seq<Key>, ghost itemOf: Key -> Option<Item>)
      returns (r: Result<seq<Item>, DateError>)
    requires key in groups && key !in keys && GivesItems(nm, groups, today, itemOf)
    requires Collected(items, keys, itemOf) && !SomeTooLate(keys, itemOf)
    ensures r.Returned? ==> Collected(r.value, keys + [key], itemOf) && !SomeTooLate(keys + [key], itemOf)
    ensures r.Raised? ==> itemOf(key).Some? && itemOf(key).value.nextExpected.year > MAX_YEAR
  {
    var judged := JudgeKey(nm, groups, key, today, itemOf);
    if judged.Some? && judged.value.nextExpected.year > MAX_YEAR {
      return Raised(PastMaxYear);
    }
    CollectOne(items, keys, key, itemOf);
    return Returned(if judged.Some? then items + [judged.value] else items);
  }

  /** The group loop, against the item each key gives. */
  method CollectItems(nm: Naming, groups: map<Key, seq<Row>>, order: seq<Key>, today: Date,
                      ghost itemOf: Key -> Option<Item>)
      returns (r: Result<seq<Item>, DateError>)
    requires NoDuplicates(order) && forall k :: k in order <==> k in groups
    requires GivesItems(nm, groups, today, itemOf)
    ensures r.Returned? ==> Collected(r.value, order, itemOf)
    ensures r.Raised? <==> SomeTooLate(order, itemOf)
  {
    r := Returned([]);
    for k := 0 to |order|
      invariant r.Returned? && Collected(r.value, order[..k], itemOf) && !SomeTooLate(order[..k], itemOf)
    {
      NextKey(order, k);
      r := CollectKey(nm, groups, order[k], today, r.value, order[..k], itemOf);
      if r.Raised? {
        return;
      }
    }
    assert order[..|order|] == order;
  }

  lemma NextKey(order: seq<Key>, k: nat)
    requires k < |order| && NoDuplicates(order)
    ensures order[..k + 1] == order[..k] + [order[k]] && order[k] !in order[..k] && order[k] in order
  {
  }

  function MembersOf(nm: Naming, rows: seq<Row>, excluded: set<int>): Key -> seq<Row> {
    (key: Key) => Members(nm, rows, excluded, key)
  }

  /** `groups` holds the rows of each key, `order` its keys. */
  ghost predicate HoldsGroups(members: Key -> seq<Row>, groups: map<Key, seq<Row>>, order: seq<Key>) {
    && NoDuplicates(order) && (forall k :: k in order <==> k in groups)
    && (forall k :: k in groups ==> groups[k] == members(k))
    && (forall k :: k !in groups ==> members(k) == [])
  }

  lemma MembersNext(nm: Naming, rows: seq<Row>, row: Row, excluded: set<int>, key: Key)
    ensures MembersOf(nm, rows + [row], excluded)(key)
         == MembersOf(nm, rows, excluded)(key) + if Belongs(nm, row, excluded, key) then [row] else []
  {
    var more := rows + [row];
    assert more[..|more| - 1] == rows && more[|more| - 1] == row;
  }

  /** One more row, for the group of `key`. */
  method AddToGroup(groups: map<Key, seq<Row>>, order: seq<Key>, key: Key, row: Row,
                    ghost before: Key -> seq<Row>, ghost after: Key -> seq<Row>)
      returns (grown: map<Key, seq<Row>>, keys: seq<Key>)
    requires HoldsGroups(before, groups, order)
    requires forall k :: after(k) == before(k) + if k == key then [row] else []
    ensures HoldsGroups(after, grown, keys)
  {
    grown, keys := groups, order;
    if key !in grown {
      grown := grown[key := []];
      keys := keys + [key];
    }
    grown := grown[key := grown[key] + [row]];
    assert forall k :: k in keys <==> k in order || k == key;
  }

  /** The grouping loop: one entry per key, keys in order of first appearance. */
  method GroupRows(nm: Naming, rows: seq<Row>, excluded: set<int>)
      returns (groups: map<Key, seq<Row>>, order: seq<Key>)
    ensures HoldsGroups(MembersOf(nm, rows, excluded), groups, order)
  {
    groups, order := map[], [];
    for i := 0 to |rows|
      invariant HoldsGroups(MembersOf(nm, rows[..i], excluded), groups, order)
    {
      var row := rows[i];
      ghost var before, after := MembersOf(nm, rows[..i], excluded), MembersOf(nm, rows[..i + 1], excluded);
      assert rows[..i + 1] == rows[..i] + [row];
      forall k ensures after(k) == before(k) + if Belongs(nm, row, excluded, k) then [row] else [] {
        MembersNext(nm, rows[..i], row, excluded, k);
      }
      if row.id in excluded || row.amount == 0 {
        NothingAdded(before, after, groups, order);
        continue;
      }
      groups, order := AddToGroup(groups, order, KeyOf(nm, row), row, before, after);
    }
    assert rows[..|rows|] == rows;
  }

  lemma NothingAdded(before: Key -> seq<Row>, after: Key -> seq<Row>, groups: map<Key, seq<Row>>, order: seq<Key>)
    requires HoldsGroups(before, groups, order) && forall k :: after(k) == before(k) + []
    ensures HoldsGroups(after, groups, order)
  {
  }

  /** The output order is total, and no two items of different groups tie. */
  lemma ItemOrderIsTotal()
    ensures TotalPreorder(ItemLe)
  {
    forall a, b ensures ItemLe(a, b) || ItemLe(b, a) {
      StringLeTotal(a.key.merchant, b.key.merchant);
    }
    forall a, b, c | ItemLe(a, b) && ItemLe(b, c) ensures ItemLe(a, c) {
      MerchantsInOrder(a.key.merchant, b.key.merchant, c.key.merchant);
    }
  }

  lemma MerchantsInOrder(a: string, b: string, c: string)
    ensures StringLe(a, b) && StringLe(b, c) ==> StringLe(a, c)
    ensures !StringLe(b, a) && !StringLe(c, b) ==> !StringLe(c, a)
    ensures StringLe(a, b) && StringLe(b, a) ==> a == b
    ensures StringLe(b, c) && StringLe(c, b) ==> b == c
    ensures StringLe(a, b) || StringLe(b, a)
    ensures StringLe(b, c) || StringLe(c, b)
  {
    StringLeTotal(a, b);
    StringLeTotal(b, c);
    if StringLe(a, b) && StringLe(b, c) {
      StringLeTransitive(a, b, c);
      if StringLe(c, a) {
        StringLeTransitive(b, c, a);
      }
    }
  }

  lemma TiedItemsShareAKey(a: Item, b: Item)
    requires ItemLe(a, b) && ItemLe(b, a)
    ensures a.key == b.key
  {
    StringLeTotal(a.key.merchant, b.key.merchant);
  }

  // ----- what the detector guarantees -----

  ghost predicate UniqueIds(rows: seq<Row>) {
    forall i, j :: 0 <= i < j < |rows| ==> rows[i].id != rows[j].id
  }

  lemma {:induction false} MembersPermute(nm: Naming, rows: seq<Row>, other: seq<Row>, excluded: set<int>, key: Key)
    requires multiset(rows) == multiset(other)
    ensures multiset(Members(nm, rows, excluded, key)) == multiset(Members(nm, other, excluded, key))
  {
    forall r ensures multiset(Members(nm, rows, excluded, key))[r] == multiset(Members(nm, other, excluded, key))[r] {
      MembersCount(nm, rows, excluded, key, r);
      MembersCount(nm, other, excluded, key, r);
    }
  }

  lemma {:induction false} MembersCount(nm: Naming, rows: seq<Row>, excluded: set<int>, key: Key, r: Row)
    ensures multiset(Members(nm, rows, excluded, key))[r] ==
            if Belongs(nm, r, excluded, key) then multiset(rows)[r] else 0
  {
    if rows != [] {
      MembersCount(nm, rows[..|rows| - 1], excluded, key, r);
      assert rows == rows[..|rows| - 1] + [rows[|rows| - 1]];
    }
  }

  lemma SameRowsSameItem(nm: Naming, key: Key, members: seq<Row>, other: seq<Row>, today: Date)
    requires multiset(members) == multiset(other)
    requires forall a, b :: a in members && b in members && a.id == b.id ==> a == b
    ensures GroupItem(nm, key, members, today) == GroupItem(nm, key, other, today)
  {
    assert |members| == |multiset(members)| == |multiset(other)| == |other|;
    RowOrderIsTotal();
    SortDependsOnElementsOnly(RowLe, members, other);
    MapPermutes(Magnitude, members, other);
    if members != [] {
      SortDependsOnElementsOnly(IntLe, Map(Magnitude, members), Map(Magnitude, other));
      assert MedianLow(Map(Magnitude, members)) == MedianLow(Map(Magnitude, other));
    }
    assert forall m :: m in members <==> m in multiset(members);
    assert forall m :: m in other <==> m in multiset(other);
  }

  lemma RowOrderIsTotal()
    ensures TotalPreorder(RowLe)
  {
  }

  /** Reading the rows in another order gives the same items. */
  lemma OrderKeepsItems(nm: Naming, rows: seq<Row>, other: seq<Row>, excluded: set<int>, today: Date, it: Item)
    requires UniqueIds(rows) && multiset(rows) == multiset(other)
    ensures IsGroupItem(nm, rows, excluded, today, it) <==> IsGroupItem(nm, other, excluded, today, it)
  {
    MembersPermute(nm, rows, other, excluded, it.key);
    MembersBelong(nm, rows, excluded, it.key);
    SameRowsSameItem(nm, it.key, Members(nm, rows, excluded, it.key), Members(nm, other, excluded, it.key), today);
  }

  /** Neither the detector's list nor whether it raises depends on the order its rows are read in. */
  lemma DetectionIgnoresRowOrder(nm: Naming, rows: seq<Row>, other: seq<Row>, excluded: set<int>, today: Date)
    requires UniqueIds(rows) && multiset(rows) == multiset(other)
    ensures TooLate(nm, rows, excluded, today) <==> TooLate(nm, other, excluded, today)
    ensures forall items, otherItems ::
              IsDetection(nm, rows, excluded, today, items) && IsDetection(nm, other, excluded, today, otherItems)
              ==> items == otherItems
  {
    forall it: Item
      ensures IsGroupItem(nm, rows, excluded, today, it) <==> IsGroupItem(nm, other, excluded, today, it)
    {
      OrderKeepsItems(nm, rows, other, excluded, today, it);
    }
    forall items, otherItems
      | IsDetection(nm, rows, excluded, today, items) && IsDetection(nm, other, excluded, today, otherItems)
      ensures items == otherItems
    {
      DetectionIsUnique(items, otherItems);
    }
  }

  lemma DetectionIsUnique(items: seq<Item>, others: seq<Item>)
    requires Sorted(ItemLe, items) && Sorted(ItemLe, others) && NoDuplicates(items) && NoDuplicates(others)
    requires forall it :: it in items <==> it in others
    requires forall a, b :: a in items && b in items && a.key == b.key ==> a == b
    ensures items == others
  {
    forall a, b | a in items && b in items && ItemLe(a, b) && ItemLe(b, a) ensures a == b {
      TiedItemsShareAKey(a, b);
    }
    SortedSetIsUnique(ItemLe, items, others);
  }

  /** An item is of exactly the rows that are not excluded, have money, go its way and name its payee, and no
      transaction is counted in two items. */
  lemma ItemsPartitionTheirRows(nm: Naming, rows: seq<Row>, excluded: set<int>, today: Date, items: seq<Item>,
                                it: Item, id: int)
    requires UniqueIds(rows) && IsDetection(nm, rows, excluded, today, items) && it in items
    ensures id in it.txnIds <==>
              exists r :: r in rows && r.id == id && id !in excluded && r.amount != 0
                          && (r.amount < 0 <==> it.key.direction.Out?)
                          && nm.fold(nm.merchant(r.description)) == it.key.merchant
    ensures id in it.txnIds ==> forall other :: other in items && id in other.txnIds ==> other == it
  {
    MembersBelong(nm, rows, excluded, it.key);
    if r :| r in Members(nm, rows, excluded, it.key) && r.id == id {
      RowIsCounted(nm, rows, excluded, today, it, r);
    }
    if id in it.txnIds {
      var r := RowOfItem(nm, rows, excluded, today, it, id);
      forall other | other in items && id in other.txnIds ensures other == it {
        var q := RowOfItem(nm, rows, excluded, today, other, id);
        assert q == r;
      }
    }
  }

  lemma RowIsCounted(nm: Naming, rows: seq<Row>, excluded: set<int>, today: Date, item: Item, r: Row)
    requires IsGroupItem(nm, rows, excluded, today, item) && r in Members(nm, rows, excluded, item.key)
    ensures r.id in item.txnIds
  {
    var members := Members(nm, rows, excluded, item.key);
    var ordered := Sort(RowLe, members);
    SortKeepsElements(RowLe, members);
    assert r in ordered;
    var k :| 0 <= k < |ordered| && ordered[k] == r;
    assert item.txnIds[k] == r.id;
  }

  /** The list goes by falling monthly share, then by payee, then money in before money out. */
  lemma ItemsAreOrdered(nm: Naming, rows: seq<Row>, excluded: set<int>, today: Date, items: seq<Item>, i: nat, j: nat)
    requires IsDetection(nm, rows, excluded, today, items) && i < j < |items|
    ensures var a, b := items[i], items[j];
            || a.monthlyEquivalent > b.monthlyEquivalent
            || (a.monthlyEquivalent == b.monthlyEquivalent
                && ((a.key.merchant != b.key.merchant && StringLe(a.key.merchant, b.key.merchant))
                    || (a.key.merchant == b.key.merchant && a.key.direction.In? && b.key.direction.Out?)))
  {
    var a, b := items[i], items[j];
    assert a in items && b in items && a != b && ItemLe(a, b);
    StringLeTotal(a.key.merchant, b.key.merchant);
    if ItemLe(b, a) {
      TiedItemsShareAKey(a, b);
    }
  }

  lemma RowOfItem(nm: Naming, rows: seq<Row>, excluded: set<int>, today: Date, item: Item, id: int) returns (r: Row)
    requires IsGroupItem(nm, rows, excluded, today, item) && id in item.txnIds
    ensures r in rows && r.id == id && Belongs(nm, r, excluded, item.key)
  {
    var members := Members(nm, rows, excluded, item.key);
    var ordered := Sort(RowLe, members);
    MembersBelong(nm, rows, excluded, item.key);
    SortKeepsElements(RowLe, members);
    var k :| 0 <= k < |item.txnIds| && item.txnIds[k] == id;
    r := ordered[k];
    assert r in ordered;
  }

  /** The item's cadence is one its group qualifies for, and the item sums the group up. */
  ghost predicate SumsUp(nm: Naming, members: seq<Row>, today: Date, item: Item) {
    Qualifies(members, today, item.cadence) && (RealDays(members) ==> Describes(nm, members, item))
  }

  /** An item stands exactly for a group of rows of one direction and payee that qualifies, and describes it. */
  lemma ItemsAreTheQualifying(nm: Naming, rows: seq<Row>, excluded: set<int>, today: Date, items: seq<Item>, key: Key)
    requires IsDetection(nm, rows, excluded, today, items)
    ensures var members := Members(nm, rows, excluded, key);
            && ((exists it :: it in items && it.key == key) <==> exists c :: Qualifies(members, today, c))
            && forall it :: it in items && it.key == key ==> SumsUp(nm, members, today, it)
  {
    var members := Members(nm, rows, excluded, key);
    var item := GroupItemTells(nm, key, members, today);
    ItemsOfKey(nm, rows, excluded, today, items, key, members, item);
    if item.Some? {
      assert item.value in items;
    }
  }

  /** The items of a key: the one its group gives. */
  lemma ItemsOfKey(nm: Naming, rows: seq<Row>, excluded: set<int>, today: Date, items: seq<Item>, key: Key,
                   members: seq<Row>, item: Option<Item>)
    requires IsDetection(nm, rows, excluded, today, items)
    requires members == Members(nm, rows, excluded, key) && item == GroupItem(nm, key, members, today)
    ensures forall it :: it in items && it.key == key <==> item == Some(it)
  {
    ItemHasItsKey(nm, key, members, today);
    forall it ensures it in items && it.key == key <==> item == Some(it) {
      assert it in items <==> IsGroupItem(nm, rows, excluded, today, it);
    }
  }

  lemma GroupItemTells(nm: Naming, key: Key, members: seq<Row>, today: Date) returns (item: Option<Item>)
    ensures item == GroupItem(nm, key, members, today)
    ensures item.Some? <==> exists c :: Qualifies(members, today, c)
    ensures item.Some? ==> SumsUp(nm, members, today, item.value)
  {
    item := GroupItem(nm, key, members, today);
    ItemIffQualifies(nm, key, members, today);
    if item.Some? && RealDays(members) {
      ItemDescribes(nm, key, members, today);
    }
  }

  lemma ItemHasItsKey(nm: Naming, key: Key, members: seq<Row>, today: Date)
    ensures var item := GroupItem(nm, key, members, today); item.Some? ==> item.value.key == key
  {
  }

  // ----- gaps -----

  /** `b` is the next day after `a` that any of the rows fell on. */
  ghost predicate Neighbours(days: seq<int>, a: int, b: int) {
    a in days && b in days && a < b && forall d :: d in days ==> !(a < d < b)
  }

  ghost predicate HasStep(days: seq<int>, g: int) {
    exists a, b :: Neighbours(days, a, b) && g == b - a
  }

  function OrdinalOf(d: Date): int { Ordinal(d) }

  /** The distances, without the zeros, between the days of a list. */
  function Distances(days: seq<int>): seq<int> {
    if |days| < 2 then []
    else
      var n := |days| - 1;
      Distances(days[..n]) + (if days[n] != days[n - 1] then [days[n] - days[n - 1]] else [])
  }

  lemma {:induction false} GapsAreDistances(dates: seq<Date>)
    ensures Gaps(dates) == Distances(Map(OrdinalOf, dates))
    decreases |dates|
  {
    if |dates| >= 2 {
      var n := |dates| - 1;
      var days := Map(OrdinalOf, dates);
      GapsAreDistances(dates[..n]);
      assert days[..n] == Map(OrdinalOf, dates[..n]);
      GapsNext(dates, days[n - 1], days[n]);
    }
  }

  lemma GapsNext(dates: seq<Date>, from: int, to: int)
    requires |dates| >= 2 && from == OrdinalOf(dates[|dates| - 2]) && to == OrdinalOf(dates[|dates| - 1])
    ensures Gaps(dates) == Gaps(dates[..|dates| - 1]) + (if to != from then [to - from] else [])
  {
  }

  lemma {:induction false} DistancesAreSteps(days: seq<int>, g: int)
    requires forall i, j :: 0 <= i < j < |days| ==> days[i] <= days[j]
    ensures g in Distances(days) <==> HasStep(days, g)
    decreases |days|
  {
    if |days| >= 2 {
      var n := |days| - 1;
      DistancesAreSteps(days[..n], g);
      assert days == days[..n] + [days[n]];
      StepsNext(days[..n], days[n], g);
    }
  }

  /** The gaps of dates in order are the distances between days that follow each other. */
  lemma GapsSpelledOut(dates: seq<Date>, g: int)
    requires forall i, j :: 0 <= i < j < |dates| ==> OrdinalOf(dates[i]) <= OrdinalOf(dates[j])
    ensures g in Gaps(dates) <==> HasStep(Map(OrdinalOf, dates), g)
  {
    GapsAreDistances(dates);
    DistancesAreSteps(Map(OrdinalOf, dates), g);
  }

  lemma StepsNext(days: seq<int>, z: int, g: int)
    requires days != [] && forall i :: 0 <= i < |days| ==> days[i] <= days[|days| - 1] <= z
    ensures HasStep(days + [z], g) <==> HasStep(days, g) || (days[|days| - 1] < z && g == z - days[|days| - 1])
  {
    var y, more := days[|days| - 1], days + [z];
    if a, b :| Neighbours(days, a, b) && g == b - a {
      NeighboursNext(days, z, a, b);
      assert Neighbours(more, a, b);
    }
    if y < z && g == z - y {
      NeighboursNext(days, z, y, z);
      assert Neighbours(more, y, z);
    }
    if a, b :| Neighbours(more, a, b) && g == b - a {
      NeighboursNext(days, z, a, b);
      assert Neighbours(days, a, b) || (a == y && b == z);
    }
  }

  lemma NeighboursNext(days: seq<int>, z: int, a: int, b: int)
    requires days != [] && forall i :: 0 <= i < |days| ==> days[i] <= days[|days| - 1] <= z
    ensures Neighbours(days + [z], a, b) <==>
              Neighbours(days, a, b) || (days[|days| - 1] < z && a == days[|days| - 1] && b == z)
  {
    var y, more := days[|days| - 1], days + [z];
    assert y in days;
    forall d ensures d in more <==> d in days || d == z {
    }
  }
}
