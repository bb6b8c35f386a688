/** The nodes of the drill-down tree, what they hold, and the grouping of rows under them (`reporting.py`).

    Amounts are integer minor units; a leaf keeps the id its sort key carries. */
module DrillNodes {
  import opened Wrappers
  import opened Numerals
  import opened Merchants
  import opened Sequences
  import opened Sorting

  /** One row of one sign; `magnitude` is its positive size. */
  datatype Row = Row(id: nat, day: string, magnitude: int, category: Option<nat>, description: string)

  datatype Node =
    | Leaf(id: nat, day: string, amount: int)
    | Branch(title: string, total: int, size: nat, children: seq<Node>)
  {
    function Label(): string { if Leaf? then day else title }
    function Amount(): int { if Leaf? then amount else total }
    function Count(): nat { if Leaf? then 1 else size }
  }

  // ----- tallies -----

  /** What a forest of nodes, or a list of rows, holds: its leaves, money and count. */
  datatype Tally = Tally(leaves: multiset<Node>, amount: int, count: nat)

  function Add(a: Tally, b: Tally): Tally {
    Tally(a.leaves + b.leaves, a.amount + b.amount, a.count + b.count)
  }

  const NOTHING: Tally := Tally(multiset{}, 0, 0)

  lemma AddAssociates(a: Tally, b: Tally, c: Tally)
    ensures Add(Add(a, b), c) == Add(a, Add(b, c))
  {
    assert (a.leaves + b.leaves) + c.leaves == a.leaves + (b.leaves + c.leaves);
  }

  lemma AddCommutes(a: Tally, b: Tally)
    ensures Add(a, b) == Add(b, a)
  {
    assert a.leaves + b.leaves == b.leaves + a.leaves;
  }

  lemma AddNothing(a: Tally)
    ensures Add(a, NOTHING) == a == Add(NOTHING, a)
  {
    assert a.leaves + multiset{} == a.leaves == multiset{} + a.leaves;
  }

  /** Of three tallies, the first two may change places. */
  lemma AddSwaps(a: Tally, b: Tally, c: Tally)
    ensures Add(a, Add(b, c)) == Add(b, Add(a, c))
  {
    AddAssociates(a, b, c);
    AddCommutes(a, b);
    AddAssociates(b, a, c);
  }

  function Leaves(n: Node): multiset<Node>
    decreases n
  {
    if n.Leaf? then multiset{n} else LeavesOfAll(n.children)
  }

  function LeavesOfAll(nodes: seq<Node>): multiset<Node>
    decreases nodes
  {
    if nodes == [] then multiset{} else Leaves(nodes[0]) + LeavesOfAll(nodes[1..])
  }

  function TallyNode(n: Node): Tally {
    Tally(Leaves(n), n.Amount(), n.Count())
  }

  function TallyNodes(nodes: seq<Node>): Tally {
    if nodes == [] then NOTHING else Add(TallyNode(nodes[0]), TallyNodes(nodes[1..]))
  }

  function LeafOf(r: Row): Node {
    Leaf(r.id, r.day, r.magnitude)
  }

  function TallyRow(r: Row): Tally {
    Tally(multiset{LeafOf(r)}, r.magnitude, 1)
  }

  function TallyRows(rows: seq<Row>): Tally {
    if rows == [] then NOTHING else Add(TallyRow(rows[0]), TallyRows(rows[1..]))
  }

  // ----- sorted siblings -----

  datatype NodeItem = NodeItem(node: Node, key: string)

  predicate ItemLe(a: NodeItem, b: NodeItem) {
    || a.node.Amount() > b.node.Amount()
    || (a.node.Amount() == b.node.Amount()
        && (!StringLe(b.node.Label(), a.node.Label())
            || (StringLe(a.node.Label(), b.node.Label()) && StringLe(a.key, b.key))))
  }

  function NodeOf(item: NodeItem): Node { item.node }

  /** `_sorted_nodes`. */
  function SortedNodes(items: seq<NodeItem>): seq<Node> {
    Map(NodeOf, Sort(ItemLe, items))
  }

  /** A branch over sorted children whose figures are the sums over them. */
  function SumBranch(name: string, items: seq<NodeItem>): Node {
    var children := SortedNodes(items);
    Branch(name, TallyNodes(children).amount, TallyNodes(children).count, children)
  }

  // ----- grouping -----

  /** How one level groups its rows: by `key`, under a title and a sort tag of the group, over leaves
      tagged `leafTag`. */
  datatype Grouping<!K> = Grouping(key: Row -> K, title: (K, seq<Row>) -> string, tag: (K, seq<Row>) -> string,
                                   leafTag: string)

  /** The keys of `rows` in order of first appearance, as a Python `dict` holds them. */
  function Keys<K(==)>(key: Row -> K, rows: seq<Row>): seq<K> {
    Distinct(Map(key, rows))
  }

  /** The rows with key `k`, in order. */
  function Having<K(==)>(key: Row -> K, rows: seq<Row>, k: K): seq<Row> {
    if rows == [] then [] else (if key(rows[0]) == k then [rows[0]] else []) + Having(key, rows[1..], k)
  }

  function LeafItem(leafTag: string): Row -> NodeItem {
    (r: Row) => NodeItem(LeafOf(r), leafTag + Decimal(r.id))
  }

  function GroupNode<K>(g: Grouping<K>, k: K, rows: seq<Row>): Node {
    Branch(g.title(k, rows), TallyRows(rows).amount, |rows|, SortedNodes(Map(LeafItem(g.leafTag), rows)))
  }

  /** The nodes of the groups of `keys`, in that order. */
  function GroupItems<K(==)>(g: Grouping<K>, rows: seq<Row>, keys: seq<K>): seq<NodeItem> {
    if keys == [] then []
    else
      var group := Having(g.key, rows, keys[0]);
      (if group == [] then [] else [NodeItem(GroupNode(g, keys[0], group), g.tag(keys[0], group))])
      + GroupItems(g, rows, keys[1..])
  }

  function GroupNodes<K(==)>(g: Grouping<K>, rows: seq<Row>): seq<NodeItem> {
    GroupItems(g, rows, Keys(g.key, rows))
  }

  // ----- merchants -----

  /** The least name among the rows, `""` for none. */
  function LeastName(nm: Naming, rows: seq<Row>): string {
    if rows == [] then ""
    else
      var name, rest := nm.merchant(rows[0].description), LeastName(nm, rows[1..]);
      if |rows| == 1 || StringLe(name, rest) then name else rest
  }

  function MerchantKey(nm: Naming): Row -> string {
    (r: Row) => nm.fold(nm.merchant(r.description))
  }

  function ByMerchant(nm: Naming): Grouping<string> {
    Grouping(MerchantKey(nm), (_: string, rows: seq<Row>) => LeastName(nm, rows),
             (key: string, _: seq<Row>) => "mer:" + key, "txn:")
  }

  /** `merchant_nodes`. */
  function MerchantNodes(nm: Naming, rows: seq<Row>): seq<NodeItem> {
    GroupNodes(ByMerchant(nm), rows)
  }

  // ----- sums do not depend on order -----

  lemma {:induction false} TallyConcat(xs: seq<Node>, ys: seq<Node>)
    ensures TallyNodes(xs + ys) == Add(TallyNodes(xs), TallyNodes(ys))
  {
    if xs == [] {
      assert xs + ys == ys;
      AddNothing(TallyNodes(ys));
    } else {
      assert (xs + ys)[1..] == xs[1..] + ys;
      TallyConcat(xs[1..], ys);
      AddAssociates(TallyNode(xs[0]), TallyNodes(xs[1..]), TallyNodes(ys));
    }
  }

  lemma TallyOne(n: Node)
    ensures TallyNodes([n]) == TallyNode(n)
  {
    assert [n][1..] == [];
    AddNothing(TallyNode(n));
  }

  function PutNode(): (Node, Tally) -> Tally {
    (n: Node, t: Tally) => Add(TallyNode(n), t)
  }

  lemma TallyPermutes(xs: seq<Node>, ys: seq<Node>)
    requires multiset(xs) == multiset(ys)
    ensures TallyNodes(xs) == TallyNodes(ys)
  {
    forall a: seq<Node>, n: Node, c: seq<Node> ensures TallyNodes(Around(a, n, c)) == PutNode()(n, TallyNodes(a + c)) {
      TallyAround(a, n, c);
    }
    Rearranged(TallyNodes, PutNode(), xs, ys);
  }

  lemma TallyAround(xs: seq<Node>, n: Node, zs: seq<Node>)
    ensures TallyNodes(Around(xs, n, zs)) == Add(TallyNode(n), TallyNodes(xs + zs))
  {
    TallyConcat(xs + [n], zs);
    TallyConcat(xs, [n]);
    TallyConcat(xs, zs);
    TallyOne(n);
    AddAssociates(TallyNodes(xs), TallyNode(n), TallyNodes(zs));
    AddSwaps(TallyNodes(xs), TallyNode(n), TallyNodes(zs));
  }

  function TallyItems(items: seq<NodeItem>): Tally {
    TallyNodes(Map(NodeOf, items))
  }

  lemma ItemsConcat(xs: seq<NodeItem>, ys: seq<NodeItem>)
    ensures TallyItems(xs + ys) == Add(TallyItems(xs), TallyItems(ys))
  {
    MapConcat(NodeOf, xs, ys);
    TallyConcat(Map(NodeOf, xs), Map(NodeOf, ys));
  }

  lemma OneItem(item: NodeItem)
    ensures TallyItems([item]) == TallyNode(item.node)
  {
    assert Map(NodeOf, [item]) == [item.node];
    TallyOne(item.node);
  }

  lemma SortedTally(items: seq<NodeItem>)
    ensures TallyNodes(SortedNodes(items)) == TallyItems(items)
  {
    SortPermutes(ItemLe, items);
    MapPermutes(NodeOf, Sort(ItemLe, items), items);
    TallyPermutes(SortedNodes(items), Map(NodeOf, items));
  }

  lemma {:induction false} TallyLeaves(nodes: seq<Node>)
    ensures TallyNodes(nodes).leaves == LeavesOfAll(nodes)
  {
    if nodes != [] {
      TallyLeaves(nodes[1..]);
    }
  }

  /** A branch holds exactly what its children hold. */
  lemma BranchTally(name: string, items: seq<NodeItem>)
    ensures TallyNode(SumBranch(name, items)) == TallyItems(items)
  {
    SortedTally(items);
    TallyLeaves(SortedNodes(items));
  }

  // ----- grouping loses nothing -----

  /** The tallies of the groups of `keys`, added up. */
  function TallyGroups<K(==)>(key: Row -> K, rows: seq<Row>, keys: seq<K>): Tally {
    if keys == [] then NOTHING else Add(TallyRows(Having(key, rows, keys[0])), TallyGroups(key, rows, keys[1..]))
  }

  lemma {:induction false} OneMoreRow<K>(key: Row -> K, rows: seq<Row>, keys: seq<K>)
    requires rows != [] && NoDuplicates(keys)
    ensures TallyGroups(key, rows, keys) ==
            if key(rows[0]) in keys then Add(TallyRow(rows[0]), TallyGroups(key, rows[1..], keys))
            else TallyGroups(key, rows[1..], keys)
    decreases |keys|
  {
    if keys != [] {
      OneMoreRow(key, rows, keys[1..]);
      HeadOrLater(keys);
      var group, rest := Having(key, rows, keys[0]), Having(key, rows[1..], keys[0]);
      var others := TallyGroups(key, rows[1..], keys[1..]);
      if key(rows[0]) == keys[0] {
        assert group[0] == rows[0] && group[1..] == rest;
        AddAssociates(TallyRow(rows[0]), TallyRows(rest), others);
      } else {
        assert group == rest;
        AddSwaps(TallyRows(group), TallyRow(rows[0]), others);
      }
    }
  }

  lemma HeadOrLater<K>(keys: seq<K>)
    requires keys != [] && NoDuplicates(keys)
    ensures forall k :: k in keys <==> k == keys[0] || k in keys[1..]
    ensures keys[0] !in keys[1..]
  {
  }

  lemma {:induction false} EmptyGroups<K>(key: Row -> K, keys: seq<K>)
    ensures TallyGroups(key, [], keys) == NOTHING
    decreases |keys|
  {
    if keys != [] {
      EmptyGroups(key, keys[1..]);
      AddNothing(NOTHING);
    }
  }

  /** Grouping by distinct keys loses nothing and repeats nothing. */
  lemma {:induction false} GroupsPartition<K>(key: Row -> K, rows: seq<Row>, keys: seq<K>)
    requires NoDuplicates(keys) && forall r :: r in rows ==> key(r) in keys
    ensures TallyGroups(key, rows, keys) == TallyRows(rows)
    decreases |rows|
  {
    if rows == [] {
      EmptyGroups(key, keys);
    } else {
      GroupsPartition(key, rows[1..], keys);
      OneMoreRow(key, rows, keys);
    }
  }

  lemma {:induction false} HavingNext<K>(key: Row -> K, rows: seq<Row>, last: Row, k: K)
    ensures Having(key, rows + [last], k) == Having(key, rows, k) + (if key(last) == k then [last] else [])
    decreases |rows|
  {
    var more := rows + [last];
    if rows == [] {
      assert more == [last] && more[0] == last && more[1..] == [];
    } else {
      assert more[0] == rows[0] && more[1..] == rows[1..] + [last];
      HavingNext(key, rows[1..], last, k);
      var head, tail := if key(rows[0]) == k then [rows[0]] else [], if key(last) == k then [last] else [];
      assert Having(key, more, k) == head + Having(key, more[1..], k);
      assert head + (Having(key, rows[1..], k) + tail) == (head + Having(key, rows[1..], k)) + tail;
    }
  }

  lemma {:induction false} HavingOne<K>(key: Row -> K, rows: seq<Row>, r: Row)
    requires r in rows
    ensures r in Having(key, rows, key(r))
    decreases |rows|
  {
    if r != rows[0] {
      HavingOne(key, rows[1..], r);
    }
  }

  lemma KeysCover<K>(key: Row -> K, rows: seq<Row>)
    ensures NoDuplicates(Keys(key, rows))
    ensures forall r :: r in rows ==> key(r) in Keys(key, rows)
    ensures forall k :: k in Keys(key, rows) ==> Having(key, rows, k) != []
  {
    var mapped := Map(key, rows);
    DistinctHolds(mapped);
    assert Keys(key, rows) == Distinct(mapped);
    forall r | r in rows ensures key(r) in Keys(key, rows) {
      var i :| 0 <= i < |rows| && rows[i] == r;
      assert mapped[i] == key(r) && mapped[i] in mapped;
    }
    forall k | k in Keys(key, rows) ensures Having(key, rows, k) != [] {
      InDistinct(mapped, k);
      var i :| 0 <= i < |mapped| && mapped[i] == k;
      HavingOne(key, rows, rows[i]);
    }
  }

  lemma KeysNext<K>(key: Row -> K, rows: seq<Row>, last: Row)
    ensures Keys(key, rows + [last])
         == if key(last) in Keys(key, rows) then Keys(key, rows) else Keys(key, rows) + [key(last)]
  {
    MapConcat(key, rows, [last]);
    assert [last][1..] == [] && Map(key, [last]) == [key(last)];
    DistinctNext(Map(key, rows), key(last));
  }

  lemma {:induction false} LeafItemsTally(leafTag: string, rows: seq<Row>)
    ensures TallyItems(Map(LeafItem(leafTag), rows)) == TallyRows(rows)
  {
    if rows != [] {
      var item, rest := LeafItem(leafTag)(rows[0]), Map(LeafItem(leafTag), rows[1..]);
      LeafItemsTally(leafTag, rows[1..]);
      assert Map(LeafItem(leafTag), rows) == [item] + rest;
      ItemsConcat([item], rest);
      OneItem(item);
    }
  }

  lemma {:induction false} CountRows(rows: seq<Row>)
    ensures TallyRows(rows).count == |rows|
  {
    if rows != [] {
      CountRows(rows[1..]);
    }
  }

  lemma GroupTally<K>(g: Grouping<K>, k: K, rows: seq<Row>)
    ensures TallyNode(GroupNode(g, k, rows)) == TallyRows(rows)
  {
    var items := Map(LeafItem(g.leafTag), rows);
    SortedTally(items);
    TallyLeaves(SortedNodes(items));
    LeafItemsTally(g.leafTag, rows);
    CountRows(rows);
  }

  lemma {:induction false} GroupItemsTally<K>(g: Grouping<K>, rows: seq<Row>, keys: seq<K>)
    ensures TallyItems(GroupItems(g, rows, keys)) == TallyGroups(g.key, rows, keys)
    decreases |keys|
  {
    if keys != [] {
      var rest := GroupItems(g, rows, keys[1..]);
      GroupItemsTally(g, rows, keys[1..]);
      var group := Having(g.key, rows, keys[0]);
      if group == [] {
        assert [] + rest == rest;
        AddNothing(TallyItems(rest));
      } else {
        var item := NodeItem(GroupNode(g, keys[0], group), g.tag(keys[0], group));
        ItemsConcat([item], rest);
        OneItem(item);
        GroupTally(g, keys[0], group);
      }
    }
  }

  /** Whatever the grouping, the nodes of the groups hold exactly the rows. */
  lemma GroupNodesTally<K>(g: Grouping<K>, rows: seq<Row>)
    ensures TallyItems(GroupNodes(g, rows)) == TallyRows(rows)
  {
    KeysCover(g.key, rows);
    GroupItemsTally(g, rows, Keys(g.key, rows));
    GroupsPartition(g.key, rows, Keys(g.key, rows));
  }

  // ----- every node sums its children -----

  /** Amount down, label up. */
  ghost predicate Descending(nodes: seq<Node>) {
    forall i, j :: 0 <= i < j < |nodes| ==>
      || nodes[i].Amount() > nodes[j].Amount()
      || (nodes[i].Amount() == nodes[j].Amount() && StringLe(nodes[i].Label(), nodes[j].Label()))
  }

  /** Throughout the tree, a branch's amount and count are the sums over its children, and its
      children stand in order of falling amount, equal amounts by label. */
  ghost predicate WellSummed(n: Node)
    decreases n
  {
    n.Branch? ==>
      && n.total == TallyNodes(n.children).amount && n.size == TallyNodes(n.children).count
      && Descending(n.children)
      && forall c :: c in n.children ==> WellSummed(c)
  }

  ghost predicate ItemsWellSummed(items: seq<NodeItem>) {
    forall item :: item in items ==> WellSummed(item.node)
  }

  lemma ItemLeIsAnOrder()
    ensures TotalPreorder(ItemLe)
  {
    forall x, y ensures ItemLe(x, y) || ItemLe(y, x) {
      StringLeTotal(x.node.Label(), y.node.Label());
      StringLeTotal(x.key, y.key);
    }
    forall x, y, z | ItemLe(x, y) && ItemLe(y, z) ensures ItemLe(x, z) {
      ItemLeTransitive(x, y, z);
    }
  }

  lemma ItemLeTransitive(x: NodeItem, y: NodeItem, z: NodeItem)
    requires ItemLe(x, y) && ItemLe(y, z)
    ensures ItemLe(x, z)
  {
    var a, b, c := x.node.Label(), y.node.Label(), z.node.Label();
    StringLeTotal(a, b);
    StringLeTotal(b, c);
    StringLeTotal(a, c);
    if StringLe(a, b) && StringLe(b, c) {
      StringLeTransitive(a, b, c);
    }
    if StringLe(c, a) && StringLe(a, b) {
      StringLeTransitive(c, a, b);
    }
    if StringLe(b, c) && StringLe(c, a) {
      StringLeTransitive(b, c, a);
    }
    if StringLe(x.key, y.key) && StringLe(y.key, z.key) {
      StringLeTransitive(x.key, y.key, z.key);
    }
  }

  lemma SortedNodesDescend(items: seq<NodeItem>)
    ensures Descending(SortedNodes(items))
  {
    ItemLeIsAnOrder();
    SortSorts(ItemLe, items);
    var sorted, nodes := Sort(ItemLe, items), SortedNodes(items);
    forall i, j | 0 <= i < j < |sorted|
      ensures nodes[i].Amount() > nodes[j].Amount()
              || (nodes[i].Amount() == nodes[j].Amount() && StringLe(nodes[i].Label(), nodes[j].Label()))
    {
      assert ItemLe(sorted[i], sorted[j]);
      StringLeTotal(nodes[i].Label(), nodes[j].Label());
    }
  }

  lemma SortedNodesWellSummed(items: seq<NodeItem>)
    requires ItemsWellSummed(items)
    ensures forall c :: c in SortedNodes(items) ==> WellSummed(c)
  {
    SortKeepsElements(ItemLe, items);
    var sorted := Sort(ItemLe, items);
    forall i | 0 <= i < |sorted| ensures WellSummed(SortedNodes(items)[i]) {
      assert sorted[i] in items;
    }
  }

  lemma SumBranchWellSummed(name: string, items: seq<NodeItem>)
    requires ItemsWellSummed(items)
    ensures WellSummed(SumBranch(name, items))
  {
    SortedNodesDescend(items);
    SortedNodesWellSummed(items);
  }

  lemma GroupNodeWellSummed<K>(g: Grouping<K>, k: K, rows: seq<Row>)
    ensures WellSummed(GroupNode(g, k, rows))
  {
    var items := Map(LeafItem(g.leafTag), rows);
    SortedTally(items);
    LeafItemsTally(g.leafTag, rows);
    CountRows(rows);
    SortedNodesDescend(items);
    SortedNodesWellSummed(items);
  }

  lemma {:induction false} GroupItemsWellSummed<K>(g: Grouping<K>, rows: seq<Row>, keys: seq<K>)
    ensures ItemsWellSummed(GroupItems(g, rows, keys))
    decreases |keys|
  {
    if keys != [] {
      GroupItemsWellSummed(g, rows, keys[1..]);
      var group := Having(g.key, rows, keys[0]);
      if group != [] {
        GroupNodeWellSummed(g, keys[0], group);
      }
    }
  }

  // ----- labels and omitted nodes -----

  lemma HeadOrTail(rows: seq<Row>)
    requires rows != []
    ensures forall r :: r in rows <==> r == rows[0] || r in rows[1..]
  {
    assert rows == [rows[0]] + rows[1..];
  }

  /** A merchant node's label is the least of its rows' names. */
  lemma {:induction false} LeastNameIsLeast(nm: Naming, rows: seq<Row>)
    requires rows != []
    ensures exists r :: r in rows && LeastName(nm, rows) == nm.merchant(r.description)
    ensures forall r :: r in rows ==> StringLe(LeastName(nm, rows), nm.merchant(r.description))
    decreases |rows|
  {
    var name := nm.merchant(rows[0].description);
    HeadOrTail(rows);
    assert rows[0] in rows;
    StringLeTotal(name, name);
    if |rows| > 1 {
      var rest := LeastName(nm, rows[1..]);
      LeastNameIsLeast(nm, rows[1..]);
      StringLeTotal(name, rest);
      forall r | r in rows ensures StringLe(LeastName(nm, rows), nm.merchant(r.description)) {
        if r in rows[1..] && StringLe(name, rest) {
          StringLeTransitive(name, rest, nm.merchant(r.description));
        }
      }
      var r :| r in rows[1..] && rest == nm.merchant(r.description);
      assert r in rows;
    }
  }

  ghost predicate Populated(items: seq<NodeItem>) {
    forall item :: item in items ==> item.node.Count() > 0
  }

  lemma {:induction false} PopulatedCount(items: seq<NodeItem>)
    requires Populated(items)
    ensures TallyItems(items).count >= |items|
  {
    if items != [] {
      PopulatedCount(items[1..]);
      assert items == [items[0]] + items[1..];
      assert items[0] in items;
      ItemsConcat([items[0]], items[1..]);
      OneItem(items[0]);
    }
  }

  lemma {:induction false} GroupsPopulated<K>(g: Grouping<K>, rows: seq<Row>, keys: seq<K>)
    ensures Populated(GroupItems(g, rows, keys))
    decreases |keys|
  {
    if keys != [] {
      GroupsPopulated(g, rows, keys[1..]);
    }
  }

  // ----- the children of a node -----

  /** The leaves of a group are its rows. */
  lemma LeavesAre(leafTag: string, group: seq<Row>)
    ensures multiset(SortedNodes(Map(LeafItem(leafTag), group))) == multiset(Map(LeafOf, group))
  {
    var items := Map(LeafItem(leafTag), group);
    SortPermutes(ItemLe, items);
    MapPermutes(NodeOf, Sort(ItemLe, items), items);
    assert Map(NodeOf, items) == Map(LeafOf, group);
  }

  lemma ItemIsAChild(name: string, items: seq<NodeItem>, item: NodeItem)
    requires item in items
    ensures item.node in SumBranch(name, items).children
  {
    SortKeepsElements(ItemLe, items);
    var i :| 0 <= i < |Sort(ItemLe, items)| && Sort(ItemLe, items)[i] == item;
    assert SumBranch(name, items).children[i] == item.node;
  }

  lemma {:induction false} GroupIsAnItem<K>(g: Grouping<K>, rows: seq<Row>, keys: seq<K>, k: K)
    requires k in keys && Having(g.key, rows, k) != []
    ensures var group := Having(g.key, rows, k);
            NodeItem(GroupNode(g, k, group), g.tag(k, group)) in GroupItems(g, rows, keys)
    decreases |keys|
  {
    if keys[0] != k {
      GroupIsAnItem(g, rows, keys[1..], k);
    }
  }
}
