/** The summary tiles, the category donut and the dashboard tree over one period's rows
    (`reporting.py`): three passes over the same rows whose figures must agree. */
module Tiles {
  import opened Wrappers
  import opened Merchants
  import opened Sequences
  import opened Sorting
  import opened DrillNodes
  import opened DrillDown
  import opened TransferBranch

  /** A stored transaction of the period; positive amounts are income. */
  datatype Stored = Stored(id: nat, day: string, amount: int, category: Option<nat>, description: string)

  function RowOf(t: Stored): Row {
    Row(t.id, t.day, if t.amount > 0 then t.amount else -t.amount, t.category, t.description)
  }

  /** The rows of the transactions `pick` picks, in order. */
  function Picked(pick: Stored -> bool, txns: seq<Stored>): seq<Row> {
    if txns == [] then [] else (if pick(txns[0]) then [RowOf(txns[0])] else []) + Picked(pick, txns[1..])
  }

  function IsKept(excluded: set<nat>): Stored -> bool {
    (t: Stored) => t.id !in excluded
  }

  function IsIncome(excluded: set<nat>): Stored -> bool {
    (t: Stored) => t.id !in excluded && t.amount > 0
  }

  function IsSpending(excluded: set<nat>): Stored -> bool {
    (t: Stored) => t.id !in excluded && t.amount <= 0
  }

  /** Unlike the tiles, the donut passes zero amounts over. */
  function IsDebit(excluded: set<nat>): Stored -> bool {
    (t: Stored) => t.id !in excluded && t.amount < 0
  }

  function Earned(txns: seq<Stored>, excluded: set<nat>): seq<Row> {
    Picked(IsIncome(excluded), txns)
  }

  function Spent(txns: seq<Stored>, excluded: set<nat>): seq<Row> {
    Picked(IsSpending(excluded), txns)
  }

  function NetOf(txns: seq<Stored>, excluded: set<nat>): int {
    if txns == [] then 0 else (if txns[0].id in excluded then 0 else txns[0].amount) + NetOf(txns[1..], excluded)
  }

  lemma PickOne(pick: Stored -> bool, txns: seq<Stored>)
    requires txns != []
    ensures TallyRows(Picked(pick, txns)) ==
            if pick(txns[0]) then Add(TallyRow(RowOf(txns[0])), TallyRows(Picked(pick, txns[1..])))
            else TallyRows(Picked(pick, txns[1..]))
  {
    if pick(txns[0]) {
      assert Picked(pick, txns)[1..] == Picked(pick, txns[1..]);
    } else {
      assert Picked(pick, txns) == Picked(pick, txns[1..]);
    }
  }

  lemma PickFrom(pick: Stored -> bool, txns: seq<Stored>, i: nat)
    requires i < |txns|
    ensures Picked(pick, txns[i..]) == (if pick(txns[i]) then [RowOf(txns[i])] else []) + Picked(pick, txns[i + 1..])
  {
    assert txns[i..][1..] == txns[i + 1..];
  }

  // ----- what the tiles count, in the transactions' own figures -----

  function IncomeIn(excluded: set<nat>): Stored -> int {
    (t: Stored) => if t.id !in excluded && t.amount >= 1 then t.amount else 0
  }

  function SpendingIn(excluded: set<nat>): Stored -> int {
    (t: Stored) => if t.id !in excluded && t.amount <= -1 then -t.amount else 0
  }

  /** The spending on one category. */
  function SpendingOn(excluded: set<nat>, c: Option<nat>): Stored -> int {
    (t: Stored) => if t.id !in excluded && t.amount <= -1 && t.category == c then -t.amount else 0
  }

  lemma {:induction false} PickedSum(pick: Stored -> bool, term: Stored -> int, txns: seq<Stored>)
    requires forall t :: t in txns ==> term(t) == if pick(t) then RowOf(t).magnitude else 0
    ensures TallyRows(Picked(pick, txns)).amount == Sum(term, txns)
    decreases |txns|
  {
    if txns != [] {
      assert txns[0] in txns;
      PickedSum(pick, term, txns[1..]);
      PickOne(pick, txns);
      SumHead(term, txns);
    }
  }

  lemma SumHead(term: Stored -> int, txns: seq<Stored>)
    requires txns != []
    ensures Sum(term, txns) == term(txns[0]) + Sum(term, txns[1..])
  {
    assert txns == [txns[0]] + txns[1..];
    SumConcat(term, [txns[0]], txns[1..]);
    assert [txns[0]][..0] == [];
  }

  lemma {:induction false} PickedAre(pick: Stored -> bool, txns: seq<Stored>, r: Row)
    ensures r in Picked(pick, txns) <==> exists t :: t in txns && pick(t) && r == RowOf(t)
  {
    if txns != [] {
      PickedAre(pick, txns[1..], r);
      assert txns == [txns[0]] + txns[1..];
      if r in Picked(pick, txns[1..]) {
        var t :| t in txns[1..] && pick(t) && r == RowOf(t);
        assert t in txns;
      } else if pick(txns[0]) && r == RowOf(txns[0]) {
        assert txns[0] in txns;
      }
    }
  }

  /** The rows of the two category branches: the positive amounts as they are, the others turned round. */
  lemma SidesSpelledOut(txns: seq<Stored>, excluded: set<nat>, r: Row)
    ensures r in Earned(txns, excluded) <==>
              exists t :: t in txns && t.id !in excluded && t.amount >= 1
                          && r == Row(t.id, t.day, t.amount, t.category, t.description)
    ensures r in Spent(txns, excluded) <==>
              exists t :: t in txns && t.id !in excluded && t.amount < 1
                          && r == Row(t.id, t.day, -t.amount, t.category, t.description)
  {
    PickedAre(IsIncome(excluded), txns, r);
    PickedAre(IsSpending(excluded), txns, r);
  }

  /** `summary`: the income, expenditure and net tiles. */
  method Summary(txns: seq<Stored>, excluded: set<nat>) returns (income: int, expenditure: int, net: int)
    ensures income == Sum(IncomeIn(excluded), txns) == TallyRows(Earned(txns, excluded)).amount
    ensures expenditure == Sum(SpendingIn(excluded), txns) == TallyRows(Spent(txns, excluded)).amount
    ensures net == NetOf(txns, excluded)
  {
    income, expenditure := 0, 0;
    for i := 0 to |txns|
      invariant income + TallyRows(Earned(txns[i..], excluded)).amount == TallyRows(Earned(txns, excluded)).amount
      invariant expenditure + TallyRows(Spent(txns[i..], excluded)).amount == TallyRows(Spent(txns, excluded)).amount
    {
      PickOne(IsIncome(excluded), txns[i..]);
      PickOne(IsSpending(excluded), txns[i..]);
      assert txns[i..][1..] == txns[i + 1..];
      if txns[i].id in excluded {
        continue;
      }
      if txns[i].amount > 0 {
        income := income + txns[i].amount;
      } else {
        expenditure := expenditure + -txns[i].amount;
      }
    }
    NetIsTheDifference(txns, excluded);
    PickedSum(IsIncome(excluded), IncomeIn(excluded), txns);
    PickedSum(IsSpending(excluded), SpendingIn(excluded), txns);
    net := income - expenditure;
  }

  lemma {:induction false} NetIsTheDifference(txns: seq<Stored>, excluded: set<nat>)
    ensures TallyRows(Earned(txns, excluded)).amount - TallyRows(Spent(txns, excluded)).amount == NetOf(txns, excluded)
  {
    if txns != [] {
      NetIsTheDifference(txns[1..], excluded);
      PickOne(IsIncome(excluded), txns);
      PickOne(IsSpending(excluded), txns);
    }
  }

  /** The translated names `drill_down` is given. */
  datatype DrillLabels = DrillLabels(
    income: string, spending: string, transfers: string, uncategorised: string, caption: Ends -> string)

  /** `drill_down`: the three branches over one period. */
  method BuildTree(nm: Naming, cats: seq<Category>, txns: seq<Stored>, excluded: set<nat>,
                   scope: Scope, moves: seq<Move>, labels: DrillLabels)
      returns (income: Node, spending: Node, transfers: Node)
    ensures income == CategoryBranch(nm, cats, Earned(txns, excluded), labels.income, labels.uncategorised)
    ensures spending == CategoryBranch(nm, cats, Spent(txns, excluded), labels.spending, labels.uncategorised)
    ensures transfers == TransfersBranch(scope, moves, labels.transfers, labels.caption)
  {
    var incomeRows, spendingRows := SplitRows(txns, excluded);
    income := CategoryBranch(nm, cats, incomeRows, labels.income, labels.uncategorised);
    spending := CategoryBranch(nm, cats, spendingRows, labels.spending, labels.uncategorised);
    var chosen := TakeScoped(scope, moves);
    transfers := SumBranch(labels.transfers, RouteNodes(chosen, labels.caption));
  }

  method TakeScoped(scope: Scope, moves: seq<Move>) returns (chosen: seq<Move>)
    ensures chosen == Scoped(scope, moves)
  {
    chosen := [];
    for i := 0 to |moves|
      invariant chosen + Scoped(scope, moves[i..]) == Scoped(scope, moves)
    {
      assert moves[i..][1..] == moves[i + 1..];
      if InScope(scope, moves[i]) {
        chosen := chosen + [moves[i]];
      }
    }
  }

  method SplitRows(txns: seq<Stored>, excluded: set<nat>) returns (incomeRows: seq<Row>, spendingRows: seq<Row>)
    ensures incomeRows == Earned(txns, excluded) && spendingRows == Spent(txns, excluded)
  {
    incomeRows, spendingRows := [], [];
    for i := 0 to |txns|
      invariant incomeRows + Earned(txns[i..], excluded) == Earned(txns, excluded)
      invariant spendingRows + Spent(txns[i..], excluded) == Spent(txns, excluded)
    {
      PickFrom(IsIncome(excluded), txns, i);
      PickFrom(IsSpending(excluded), txns, i);
      if txns[i].id in excluded {
        continue;
      }
      if txns[i].amount > 0 {
        incomeRows := incomeRows + [RowOf(txns[i])];
      } else {
        spendingRows := spendingRows + [RowOf(txns[i])];
      }
    }
  }

  lemma {:induction false} SignsPartition(txns: seq<Stored>, excluded: set<nat>)
    ensures Add(TallyRows(Earned(txns, excluded)), TallyRows(Spent(txns, excluded)))
         == TallyRows(Picked(IsKept(excluded), txns))
  {
    if txns == [] {
      AddNothing(NOTHING);
    } else {
      SignsPartition(txns[1..], excluded);
      PickOne(IsIncome(excluded), txns);
      PickOne(IsSpending(excluded), txns);
      PickOne(IsKept(excluded), txns);
      var row := TallyRow(RowOf(txns[0]));
      var e, s := TallyRows(Earned(txns[1..], excluded)), TallyRows(Spent(txns[1..], excluded));
      AddAssociates(row, e, s);
      AddSwaps(e, row, s);
    }
  }

  /** The tree agrees with the tiles: on an acyclic forest each non-transfer transaction is exactly
      one leaf of the two category branches, each confirmed transfer in scope one of the third, and the
      branch totals are the income and expenditure figures, whatever the grouping is. */
  lemma TreeMatchesTiles(nm: Naming, cats: seq<Category>, txns: seq<Stored>, excluded: set<nat>,
                         scope: Scope, moves: seq<Move>, labels: DrillLabels)
    requires UniqueIds(cats) && Acyclic(cats)
    requires forall t :: t in txns && t.category.Some? ==> t.category.value in Ids(cats)
    ensures var income := CategoryBranch(nm, cats, Earned(txns, excluded), labels.income, labels.uncategorised);
            var spending := CategoryBranch(nm, cats, Spent(txns, excluded), labels.spending, labels.uncategorised);
            && income.Amount() == TallyRows(Earned(txns, excluded)).amount
            && spending.Amount() == TallyRows(Spent(txns, excluded)).amount
            && income.Amount() - spending.Amount() == NetOf(txns, excluded)
            && Add(TallyNode(income), TallyNode(spending)) == TallyRows(Picked(IsKept(excluded), txns))
    ensures TallyNode(TransfersBranch(scope, moves, labels.transfers, labels.caption))
         == TallyRows(MoveRows(Scoped(scope, moves)))
  {
    PickedCategoriesKnown(cats, txns, IsIncome(excluded));
    PickedCategoriesKnown(cats, txns, IsSpending(excluded));
    AcyclicBranchConserves(nm, cats, Earned(txns, excluded), labels.income, labels.uncategorised);
    AcyclicBranchConserves(nm, cats, Spent(txns, excluded), labels.spending, labels.uncategorised);
    SignsPartition(txns, excluded);
    NetIsTheDifference(txns, excluded);
    TransfersHold(scope, moves, labels.transfers, labels.caption);
  }

  lemma {:induction false} PickedCategoriesKnown(cats: seq<Category>, txns: seq<Stored>, pick: Stored -> bool)
    requires forall t :: t in txns && t.category.Some? ==> t.category.value in Ids(cats)
    ensures CategoriesKnown(cats, Picked(pick, txns))
    decreases |txns|
  {
    if txns != [] {
      PickedCategoriesKnown(cats, txns[1..], pick);
    }
  }

  // ----- the donut -----

  datatype Slice = Slice(category: Option<nat>, amount: int)

  function Debits(txns: seq<Stored>, excluded: set<nat>): seq<Row> {
    Picked(IsDebit(excluded), txns)
  }

  /** Largest first, ties by id; only categorised slices are ever compared. */
  predicate SliceLe(a: Slice, b: Slice) {
    a.amount > b.amount || (a.amount == b.amount && IdIn(a) <= IdIn(b))
  }

  function IdIn(s: Slice): nat {
    if s.category.Some? then s.category.value else 0
  }

  function BucketOf(debits: seq<Row>, c: Option<nat>): Slice {
    Slice(c, TallyRows(Filed(debits, c)).amount)
  }

  function AmountOf(): Slice -> int {
    (s: Slice) => s.amount
  }

  /** The buckets of the categories in `keys`, `None` passed over. */
  function CategorisedBuckets(debits: seq<Row>, keys: seq<Option<nat>>): seq<Slice> {
    if keys == [] then []
    else (if keys[0].None? then [] else [BucketOf(debits, keys[0])]) + CategorisedBuckets(debits, keys[1..])
  }

  /** What the dictionary `by_id`, with its keys in insertion order, holds after `done`. */
  ghost predicate HoldsBuckets(byId: map<Option<nat>, int>, order: seq<Option<nat>>, done: seq<Row>) {
    && order == Keys(CategoryOf(), done)
    && (forall c :: c in byId <==> c in order)
    && (forall c :: c in byId ==> byId[c] == TallyRows(Filed(done, c)).amount)
  }

  /** `spending_by_category`: one slice a category, largest first, uncategorised last. */
  method SpendingByCategory(txns: seq<Stored>, excluded: set<nat>) returns (slices: seq<Slice>)
    ensures slices == Donut(Debits(txns, excluded))
  {
    var byId, order := SumByCategory(txns, excluded);
    var categorised := TakeCategorised(Debits(txns, excluded), byId, order);
    slices := Sort(SliceLe, categorised);
    if None in byId {
      slices := slices + [Slice(None, byId[None])];
    }
  }

  method SumByCategory(txns: seq<Stored>, excluded: set<nat>)
      returns (byId: map<Option<nat>, int>, order: seq<Option<nat>>)
    ensures HoldsBuckets(byId, order, Debits(txns, excluded))
  {
    byId, order := map[], [];
    ghost var done: seq<Row> := [];
    for i := 0 to |txns|
      invariant done + Debits(txns[i..], excluded) == Debits(txns, excluded)
      invariant HoldsBuckets(byId, order, done)
    {
      DebitsFrom(txns, excluded, i, done, Debits(txns, excluded));
      if txns[i].id in excluded || txns[i].amount >= 0 {
        continue;
      }
      byId, order := AddToBucket(byId, order, txns[i].category, -txns[i].amount, done, RowOf(txns[i]));
      done := done + [RowOf(txns[i])];
    }
    assert done == Debits(txns, excluded);
  }

  /** `by_id[c] = by_id.get(c, 0) + amount`. */
  method AddToBucket(byId: map<Option<nat>, int>, order: seq<Option<nat>>, c: Option<nat>, amount: int,
                     ghost done: seq<Row>, ghost row: Row)
      returns (grown: map<Option<nat>, int>, keys: seq<Option<nat>>)
    requires HoldsBuckets(byId, order, done) && row.category == c && row.magnitude == amount
    ensures HoldsBuckets(grown, keys, done + [row])
  {
    var sum := (if c in byId then byId[c] else 0) + amount;
    BucketsGrow(done, row, byId, order, sum);
    grown, keys := byId[c := sum], if c in order then order else order + [c];
  }

  lemma DebitsFrom(txns: seq<Stored>, excluded: set<nat>, i: nat, done: seq<Row>, all: seq<Row>)
    requires i < |txns| && done + Debits(txns[i..], excluded) == all
    ensures (if IsDebit(excluded)(txns[i]) then done + [RowOf(txns[i])] else done)
          + Debits(txns[i + 1..], excluded) == all
  {
    PickFrom(IsDebit(excluded), txns, i);
    var rest := Debits(txns[i + 1..], excluded);
    assert done + ([RowOf(txns[i])] + rest) == (done + [RowOf(txns[i])]) + rest;
    assert [] + rest == rest;
  }

  method TakeCategorised(debits: seq<Row>, byId: map<Option<nat>, int>, order: seq<Option<nat>>)
      returns (categorised: seq<Slice>)
    requires forall c :: c in order ==> c in byId && Slice(c, byId[c]) == BucketOf(debits, c)
    ensures categorised == CategorisedBuckets(debits, order)
  {
    categorised := [];
    for i := 0 to |order|
      invariant categorised + CategorisedBuckets(debits, order[i..]) == CategorisedBuckets(debits, order)
    {
      BucketsFrom(debits, order, i, categorised, CategorisedBuckets(debits, order));
      assert order[i] in order;
      if order[i].Some? {
        categorised := categorised + [Slice(order[i], byId[order[i]])];
      }
    }
    assert CategorisedBuckets(debits, order[|order|..]) == [];
  }

  lemma BucketsFrom(debits: seq<Row>, order: seq<Option<nat>>, i: nat, done: seq<Slice>, all: seq<Slice>)
    requires i < |order| && done + CategorisedBuckets(debits, order[i..]) == all
    ensures (if order[i].Some? then done + [BucketOf(debits, order[i])] else done)
          + CategorisedBuckets(debits, order[i + 1..]) == all
  {
    assert order[i..][1..] == order[i + 1..];
    var bucket, rest := BucketOf(debits, order[i]), CategorisedBuckets(debits, order[i + 1..]);
    assert done + ([bucket] + rest) == (done + [bucket]) + rest;
    assert [] + rest == rest;
  }

  function Donut(debits: seq<Row>): seq<Slice> {
    var keys := Keys(CategoryOf(), debits);
    Sort(SliceLe, CategorisedBuckets(debits, keys)) + (if None in keys then [BucketOf(debits, None)] else [])
  }

  lemma BucketsGrow(done: seq<Row>, row: Row, byId: map<Option<nat>, int>, order: seq<Option<nat>>, sum: int)
    requires HoldsBuckets(byId, order, done)
    requires sum == (if row.category in byId then byId[row.category] else 0) + row.magnitude
    ensures HoldsBuckets(byId[row.category := sum],
                         if row.category in order then order else order + [row.category], done + [row])
  {
    KeysNext(CategoryOf(), done, row);
    var grown := byId[row.category := sum];
    var keys := if row.category in order then order else order + [row.category];
    assert forall c :: c in keys <==> c == row.category || c in order;
    assert forall c :: c in grown <==> c == row.category || c in byId;
    forall c | c in grown ensures grown[c] == TallyRows(Filed(done + [row], c)).amount {
      GrownBucket(done, row, byId, order, sum, c);
    }
  }

  lemma GrownBucket(done: seq<Row>, row: Row, byId: map<Option<nat>, int>, order: seq<Option<nat>>, sum: int,
                    c: Option<nat>)
    requires HoldsBuckets(byId, order, done) && (c == row.category || c in byId)
    requires sum == (if row.category in byId then byId[row.category] else 0) + row.magnitude
    ensures byId[row.category := sum][c] == TallyRows(Filed(done + [row], c)).amount
  {
    BucketGrows(done, row, c);
  }

  lemma BucketGrows(done: seq<Row>, row: Row, c: Option<nat>)
    ensures TallyRows(Filed(done + [row], c)).amount
         == TallyRows(Filed(done, c)).amount + if row.category == c then row.magnitude else 0
    ensures c !in Keys(CategoryOf(), done) ==> TallyRows(Filed(done, c)).amount == 0
  {
    HavingNext(CategoryOf(), done, row, c);
    if row.category == c {
      RowsConcat(Filed(done, c), [row]);
      assert [row][1..] == [];
    } else {
      assert Filed(done + [row], c) == Filed(done, c);
    }
    if c !in Keys(CategoryOf(), done) {
      KeysCover(CategoryOf(), done);
      NoneFiled(done, c);
    }
  }

  lemma {:induction false} RowsConcat(xs: seq<Row>, ys: seq<Row>)
    ensures TallyRows(xs + ys).amount == TallyRows(xs).amount + TallyRows(ys).amount
  {
    if xs == [] {
      assert xs + ys == ys;
    } else {
      assert (xs + ys)[1..] == xs[1..] + ys;
      RowsConcat(xs[1..], ys);
    }
  }

  lemma {:induction false} NoneFiled(rows: seq<Row>, c: Option<nat>)
    requires forall r :: r in rows ==> r.category != c
    ensures Filed(rows, c) == []
  {
    if rows != [] {
      NoneFiled(rows[1..], c);
    }
  }

  // ----- what the donut shows -----

  lemma {:induction false} BucketsTotal(debits: seq<Row>, keys: seq<Option<nat>>)
    requires NoDuplicates(keys)
    ensures Sum(AmountOf(), CategorisedBuckets(debits, keys))
              + (if None in keys then TallyRows(Filed(debits, None)).amount else 0)
         == TallyGroups(CategoryOf(), debits, keys).amount
    decreases |keys|
  {
    if keys != [] {
      BucketsTotal(debits, keys[1..]);
      HeadOrLater(keys);
      if keys[0].Some? {
        var slice := BucketOf(debits, keys[0]);
        SumConcat(AmountOf(), [slice], CategorisedBuckets(debits, keys[1..]));
        SumNext(AmountOf(), [], slice);
        assert [] + [slice] == [slice];
      } else {
        assert CategorisedBuckets(debits, keys) == CategorisedBuckets(debits, keys[1..]);
      }
    }
  }

  lemma {:induction false} DebitsAreSpent(txns: seq<Stored>, excluded: set<nat>)
    ensures TallyRows(Debits(txns, excluded)).amount == TallyRows(Spent(txns, excluded)).amount
  {
    if txns != [] {
      DebitsAreSpent(txns[1..], excluded);
      PickOne(IsDebit(excluded), txns);
      PickOne(IsSpending(excluded), txns);
    }
  }

  lemma SortedTotal(slices: seq<Slice>, tail: seq<Slice>)
    ensures Sum(AmountOf(), Sort(SliceLe, slices) + tail) == Sum(AmountOf(), slices) + Sum(AmountOf(), tail)
  {
    SortPermutes(SliceLe, slices);
    SumPermutes(AmountOf(), Sort(SliceLe, slices), slices);
    SumConcat(AmountOf(), Sort(SliceLe, slices), tail);
  }

  /** The slices add up to the expenditure tile, although the tile also counts zero amounts. */
  lemma DonutTotalsTheTile(txns: seq<Stored>, excluded: set<nat>)
    ensures Sum(AmountOf(), Donut(Debits(txns, excluded))) == TallyRows(Spent(txns, excluded)).amount
  {
    var debits := Debits(txns, excluded);
    var keys := Keys(CategoryOf(), debits);
    var loose := BucketOf(debits, None);
    KeysCover(CategoryOf(), debits);
    GroupsPartition(CategoryOf(), debits, keys);
    BucketsTotal(debits, keys);
    SortedTotal(CategorisedBuckets(debits, keys), if None in keys then [loose] else []);
    SumNext(AmountOf(), [], loose);
    assert [] + [loose] == [loose];
    DebitsAreSpent(txns, excluded);
  }

  /** `a` comes before `b` in the donut's list. */
  predicate Before(a: Slice, b: Slice) {
    && a.category.Some?
    && (b.category.Some? ==> a.amount > b.amount || (a.amount == b.amount && a.category.value < b.category.value))
  }

  lemma {:induction false} CategorisedBucketsAre(debits: seq<Row>, keys: seq<Option<nat>>)
    requires NoDuplicates(keys)
    ensures var buckets := CategorisedBuckets(debits, keys);
            && NoDuplicates(buckets)
            && (forall s :: s in buckets <==>
                 s.category.Some? && s.category in keys && s == BucketOf(debits, s.category))
    decreases |keys|
  {
    if keys != [] {
      CategorisedBucketsAre(debits, keys[1..]);
      HeadOrLater(keys);
    }
  }

  lemma {:induction false} FiledPicked(pick: Stored -> bool, within: Stored -> bool, c: Option<nat>, txns: seq<Stored>)
    requires forall t :: t in txns ==> (within(t) <==> pick(t) && t.category == c)
    ensures Filed(Picked(pick, txns), c) == Picked(within, txns)
    decreases |txns|
  {
    if txns != [] {
      FiledPicked(pick, within, c, txns[1..]);
      assert txns[0] in txns;
      var rest := Picked(pick, txns[1..]);
      if pick(txns[0]) {
        assert Picked(pick, txns)[0] == RowOf(txns[0]) && Picked(pick, txns)[1..] == rest;
      } else {
        assert Picked(pick, txns) == rest;
      }
    }
  }

  lemma SliceAmount(txns: seq<Stored>, excluded: set<nat>, c: Option<nat>)
    ensures TallyRows(Filed(Debits(txns, excluded), c)).amount == Sum(SpendingOn(excluded, c), txns)
  {
    var within := (t: Stored) => t.id !in excluded && t.amount < 0 && t.category == c;
    FiledPicked(IsDebit(excluded), within, c, txns);
    PickedSum(within, SpendingOn(excluded, c), txns);
  }

  lemma SpentOn(txns: seq<Stored>, excluded: set<nat>, c: Option<nat>)
    ensures c in Keys(CategoryOf(), Debits(txns, excluded)) <==>
              exists t :: t in txns && t.id !in excluded && t.amount <= -1 && t.category == c
  {
    var debits := Debits(txns, excluded);
    InDistinct(Map(CategoryOf(), debits), c);
    if c in Map(CategoryOf(), debits) {
      var i :| 0 <= i < |debits| && Map(CategoryOf(), debits)[i] == c;
      PickedAre(IsDebit(excluded), txns, debits[i]);
    }
    if t :| t in txns && t.id !in excluded && t.amount <= -1 && t.category == c {
      PickedAre(IsDebit(excluded), txns, RowOf(t));
      var i :| 0 <= i < |debits| && debits[i] == RowOf(t);
      assert Map(CategoryOf(), debits)[i] == c;
    }
  }

  /** One slice for each category with spending, and it holds that category's sum. */
  lemma DonutHolds(txns: seq<Stored>, excluded: set<nat>, s: Slice)
    ensures s in Donut(Debits(txns, excluded)) <==>
              && (exists t :: t in txns && t.id !in excluded && t.amount <= -1 && t.category == s.category)
              && s.amount == Sum(SpendingOn(excluded, s.category), txns)
  {
    SpentOn(txns, excluded, s.category);
    SliceAmount(txns, excluded, s.category);
    DonutOf(Debits(txns, excluded), s);
  }

  lemma DonutOf(debits: seq<Row>, s: Slice)
    ensures s in Donut(debits) <==> s.category in Keys(CategoryOf(), debits) && s == BucketOf(debits, s.category)
  {
    var keys := Keys(CategoryOf(), debits);
    var buckets := CategorisedBuckets(debits, keys);
    KeysCover(CategoryOf(), debits);
    CategorisedBucketsAre(debits, keys);
    SortKeepsElements(SliceLe, buckets);
    assert s in Donut(debits) <==> s in Sort(SliceLe, buckets) || (None in keys && s == BucketOf(debits, None));
  }

  /** The slices stand in strictly falling (amount, id) order with the uncategorised one last. */
  lemma DonutIsOrdered(debits: seq<Row>, i: nat, j: nat)
    requires i < j < |Donut(debits)|
    ensures Before(Donut(debits)[i], Donut(debits)[j])
  {
    var keys := Keys(CategoryOf(), debits);
    var buckets := CategorisedBuckets(debits, keys);
    KeysCover(CategoryOf(), debits);
    CategorisedBucketsAre(debits, keys);
    BucketsInOrder(debits, buckets);
    UncategorisedGoesLast(Sort(SliceLe, buckets), if None in keys then [BucketOf(debits, None)] else [], i, j);
  }

  lemma UncategorisedGoesLast(sorted: seq<Slice>, tail: seq<Slice>, i: nat, j: nat)
    requires i < j < |sorted + tail| && |tail| <= 1
    requires forall s :: s in sorted ==> s.category.Some?
    requires forall s :: s in tail ==> s.category.None?
    requires forall m, n :: 0 <= m < n < |sorted| ==> Before(sorted[m], sorted[n])
    ensures Before((sorted + tail)[i], (sorted + tail)[j])
  {
    if j == |sorted| {
      assert tail[0] in tail && sorted[i] in sorted;
    }
  }

  lemma BucketsInOrder(debits: seq<Row>, buckets: seq<Slice>)
    requires NoDuplicates(buckets)
    requires forall s :: s in buckets ==> s.category.Some? && s == BucketOf(debits, s.category)
    ensures var sorted := Sort(SliceLe, buckets);
            && (forall s :: s in sorted ==> s.category.Some?)
            && (forall i, j :: 0 <= i < j < |sorted| ==> Before(sorted[i], sorted[j]))
  {
    var sorted := Sort(SliceLe, buckets);
    SortKeepsElements(SliceLe, buckets);
    SortSorts(SliceLe, buckets);
    DuplicateFreeSort(SliceLe, buckets);
    forall i, j | 0 <= i < j < |sorted| ensures Before(sorted[i], sorted[j]) {
      OrderedSlices(debits, sorted[i], sorted[j]);
    }
  }

  lemma OrderedSlices(debits: seq<Row>, a: Slice, b: Slice)
    requires SliceLe(a, b) && a != b && a.category.Some? && b.category.Some?
    requires a == BucketOf(debits, a.category) && b == BucketOf(debits, b.category)
    ensures Before(a, b)
  {
  }
}
