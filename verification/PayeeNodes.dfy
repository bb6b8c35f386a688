/** Which rows share a merchant node of the drill-down tree (`reporting.py`, `merchant_nodes`). */
module PayeeNodes {
  import opened Wrappers
  import opened Numerals
  import opened Merchants
  import opened Sequences
  import opened Sorting
  import opened DrillNodes
  import opened DrillDown

  /** The rows filed on `category` whose folded payee reads `text`, in order. */
  function PaidTo(nm: Naming, rows: seq<Row>, category: Option<nat>, text: string): seq<Row> {
    if rows == [] then []
    else (if rows[0].category == category && nm.fold(nm.merchant(rows[0].description)) == text then [rows[0]] else [])
         + PaidTo(nm, rows[1..], category, text)
  }

  /** Transaction ids are a primary key. */
  ghost predicate RowsUnique(rows: seq<Row>) {
    forall r, q :: r in rows && q in rows && r.id == q.id ==> r == q
  }

  predicate HasLeaf(n: Node, r: Row) {
    n.Branch? && Leaf(r.id, r.day, r.magnitude) in n.children
  }

  /** The order of two transactions of one payee: amount down, day up, then the text of the id. */
  predicate LeafLe(a: Node, b: Node) {
    && a.Leaf? && b.Leaf?
    && (|| a.amount > b.amount
        || (a.amount == b.amount
            && (|| (a.day != b.day && StringLe(a.day, b.day))
                || (a.day == b.day && StringLe("txn:" + Decimal(a.id), "txn:" + Decimal(b.id))))))
  }

  /** A merchant node over `group`: one leaf a row in order, under the least of the rows' names. */
  ghost predicate IsNodeOf(nm: Naming, group: seq<Row>, n: Node) {
    && n.Branch? && n.size == |group|
    && multiset(n.children) == multiset(Map(LeafOf, group))
    && (forall i, j :: 0 <= i < j < |n.children| ==> LeafLe(n.children[i], n.children[j]))
    && (exists r :: r in group && n.title == nm.merchant(r.description))
    && (forall r :: r in group ==> StringLe(n.title, nm.merchant(r.description)))
  }

  /** Each row filed on `category` is a leaf under some child of `n`. */
  ghost predicate EachIsALeaf(rows: seq<Row>, category: Option<nat>, n: Node) {
    && n.Branch?
    && forall r :: r in rows && r.category == category ==>
         exists i: nat :: i < |n.children| && HasLeaf(n.children[i], r)
  }

  /** A child with such a leaf is the node of all rows with its folded payee. */
  ghost predicate LeavesShareAPayee(nm: Naming, rows: seq<Row>, category: Option<nat>, n: Node) {
    && n.Branch?
    && forall i, r :: 0 <= i < |n.children| && r in rows && r.category == category && HasLeaf(n.children[i], r) ==>
         IsNodeOf(nm, PaidTo(nm, rows, category, nm.fold(nm.merchant(r.description))), n.children[i])
  }

  /** Two such leaves are under one child exactly if their folded payees agree. */
  ghost predicate OneChildAPayee(nm: Naming, rows: seq<Row>, category: Option<nat>, n: Node) {
    && n.Branch?
    && forall i, j, r, q :: 0 <= i < |n.children| && 0 <= j < |n.children| && r in rows && q in rows
                            && r.category == category && q.category == category
                            && HasLeaf(n.children[i], r) && HasLeaf(n.children[j], q) ==>
         (i == j <==> nm.fold(nm.merchant(r.description)) == nm.fold(nm.merchant(q.description)))
  }

  /** All three: the merchant nodes under `n` are the classes of equal folded payees, once each. */
  ghost predicate OneNodeAPayee(nm: Naming, rows: seq<Row>, category: Option<nat>, n: Node) {
    EachIsALeaf(rows, category, n) && LeavesShareAPayee(nm, rows, category, n) && OneChildAPayee(nm, rows, category, n)
  }

  // ----- the group of one payee -----

  lemma {:induction false} GroupIsPaidTo(nm: Naming, rows: seq<Row>, category: Option<nat>, text: string)
    ensures Having(MerchantKey(nm), Filed(rows, category), text) == PaidTo(nm, rows, category, text)
  {
    if rows != [] {
      GroupIsPaidTo(nm, rows[1..], category, text);
      var later := Filed(rows[1..], category);
      if rows[0].category == category {
        assert Filed(rows, category)[0] == rows[0] && Filed(rows, category)[1..] == later;
      } else {
        assert Filed(rows, category) == later;
      }
    }
  }

  lemma {:induction false} PaidToHolds(nm: Naming, rows: seq<Row>, category: Option<nat>, text: string)
    ensures forall r :: r in PaidTo(nm, rows, category, text) <==>
              r in rows && r.category == category && nm.fold(nm.merchant(r.description)) == text
  {
    if rows != [] {
      PaidToHolds(nm, rows[1..], category, text);
      assert rows == [rows[0]] + rows[1..];
    }
  }

  /** The item of the rows with one folded payee. */
  function PayeeItem(nm: Naming, rows: seq<Row>, category: Option<nat>, text: string): NodeItem {
    NodeItem(GroupNode(ByMerchant(nm), text, PaidTo(nm, rows, category, text)), "mer:" + text)
  }

  lemma {:induction false} ItemsOfKeys(nm: Naming, rows: seq<Row>, category: Option<nat>, keys: seq<string>)
    requires NoDuplicates(keys)
    requires forall k :: k in keys ==> PaidTo(nm, rows, category, k) != []
    ensures var items := GroupItems(ByMerchant(nm), Filed(rows, category), keys);
            && |items| == |keys|
            && forall i :: 0 <= i < |items| ==> items[i] == PayeeItem(nm, rows, category, keys[i])
  {
    if keys != [] {
      GroupIsPaidTo(nm, rows, category, keys[0]);
      ItemsOfKeys(nm, rows, category, keys[1..]);
    }
  }

  /** The merchant items are the items of the folded payees, once each. */
  lemma MerchantItems(nm: Naming, rows: seq<Row>, category: Option<nat>)
    ensures NoDuplicates(MerchantNodes(nm, Filed(rows, category)))
    ensures forall item :: item in MerchantNodes(nm, Filed(rows, category)) ==>
              exists text :: PaidTo(nm, rows, category, text) != [] && item == PayeeItem(nm, rows, category, text)
    ensures forall r :: r in Filed(rows, category) ==>
              PayeeItem(nm, rows, category, nm.fold(nm.merchant(r.description)))
              in MerchantNodes(nm, Filed(rows, category))
  {
    var bucket := Filed(rows, category);
    var keys := Keys(MerchantKey(nm), bucket);
    KeysCover(MerchantKey(nm), bucket);
    forall k | k in keys ensures PaidTo(nm, rows, category, k) != [] {
      GroupIsPaidTo(nm, rows, category, k);
    }
    ItemsOfKeys(nm, rows, category, keys);
    forall r | r in bucket ensures nm.fold(nm.merchant(r.description)) in keys {
      assert MerchantKey(nm)(r) in keys;
    }
    ItemsByText(nm, rows, category, keys, MerchantNodes(nm, bucket));
  }

  lemma ItemsByText(nm: Naming, rows: seq<Row>, category: Option<nat>, keys: seq<string>, items: seq<NodeItem>)
    requires NoDuplicates(keys) && |items| == |keys|
    requires forall i :: 0 <= i < |items| ==> items[i] == PayeeItem(nm, rows, category, keys[i])
    requires forall k :: k in keys ==> PaidTo(nm, rows, category, k) != []
    ensures NoDuplicates(items)
    ensures forall item :: item in items ==>
              exists text :: PaidTo(nm, rows, category, text) != [] && item == PayeeItem(nm, rows, category, text)
    ensures forall k :: k in keys ==> PayeeItem(nm, rows, category, k) in items
  {
    forall i, j | 0 <= i < j < |items| ensures items[i] != items[j] {
      TagTellsText(keys[i], keys[j]);
    }
    forall item | item in items
      ensures exists text :: PaidTo(nm, rows, category, text) != [] && item == PayeeItem(nm, rows, category, text)
    {
      var i :| 0 <= i < |items| && items[i] == item;
      assert keys[i] in keys;
    }
    forall k | k in keys ensures PayeeItem(nm, rows, category, k) in items {
      var i :| 0 <= i < |keys| && keys[i] == k;
      assert items[i] in items;
    }
  }

  lemma TagTellsText(a: string, b: string)
    ensures "mer:" + a == "mer:" + b <==> a == b
  {
    assert ("mer:" + a)[4..] == a && ("mer:" + b)[4..] == b;
  }

  // ----- its node -----

  /** A group's node is the merchant node over its rows. */
  lemma GroupNodeIsNodeOf(nm: Naming, text: string, group: seq<Row>)
    requires group != []
    ensures IsNodeOf(nm, group, GroupNode(ByMerchant(nm), text, group))
  {
    LeavesAre("txn:", group);
    LeavesInOrder(group);
    LeastNameIsLeast(nm, group);
    NodeOverLeaves(nm, group, SortedNodes(Map(LeafItem("txn:"), group)), LeastName(nm, group),
                   TallyRows(group).amount);
  }

  lemma NodeOverLeaves(nm: Naming, group: seq<Row>, leaves: seq<Node>, title: string, total: int)
    requires multiset(leaves) == multiset(Map(LeafOf, group))
    requires forall i, j :: 0 <= i < j < |leaves| ==> LeafLe(leaves[i], leaves[j])
    requires exists r :: r in group && title == nm.merchant(r.description)
    requires forall r :: r in group ==> StringLe(title, nm.merchant(r.description))
    ensures IsNodeOf(nm, group, Branch(title, total, |group|, leaves))
  {
  }

  lemma LeavesInOrder(group: seq<Row>)
    ensures var leaves := SortedNodes(Map(LeafItem("txn:"), group));
            forall i, j :: 0 <= i < j < |leaves| ==> LeafLe(leaves[i], leaves[j])
  {
    var items := Map(LeafItem("txn:"), group);
    var sorted, leaves := Sort(ItemLe, items), SortedNodes(items);
    ItemLeIsAnOrder();
    SortSorts(ItemLe, items);
    SortKeepsElements(ItemLe, items);
    forall i, j | 0 <= i < j < |leaves| ensures LeafLe(leaves[i], leaves[j]) {
      assert ItemLe(sorted[i], sorted[j]);
      assert sorted[i] in items && sorted[j] in items;
      LeafOrder(sorted[i], sorted[j]);
    }
  }

  lemma LeafOrder(a: NodeItem, b: NodeItem)
    requires a.node.Leaf? && b.node.Leaf? && ItemLe(a, b)
    requires a.key == "txn:" + Decimal(a.node.id) && b.key == "txn:" + Decimal(b.node.id)
    ensures LeafLe(a.node, b.node)
  {
    StringLeTotal(a.node.day, b.node.day);
  }

  /** A leaf tells its row, and so its payee. */
  lemma LeafTellsPayee(nm: Naming, rows: seq<Row>, category: Option<nat>, text: string, r: Row)
    requires RowsUnique(rows) && r in rows && PaidTo(nm, rows, category, text) != []
    requires HasLeaf(PayeeItem(nm, rows, category, text).node, r)
    ensures nm.fold(nm.merchant(r.description)) == text
  {
    var group := PaidTo(nm, rows, category, text);
    var node := PayeeItem(nm, rows, category, text).node;
    GroupNodeIsNodeOf(nm, text, group);
    assert LeafOf(r) in multiset(node.children);
    assert LeafOf(r) in multiset(Map(LeafOf, group));
    var i :| 0 <= i < |group| && Map(LeafOf, group)[i] == LeafOf(r);
    PaidToHolds(nm, rows, category, text);
    assert group[i] in group;
  }

  lemma RowIsALeaf(nm: Naming, rows: seq<Row>, r: Row)
    requires r in rows
    ensures HasLeaf(PayeeItem(nm, rows, r.category, nm.fold(nm.merchant(r.description))).node, r)
  {
    var text := nm.fold(nm.merchant(r.description));
    var group := PaidTo(nm, rows, r.category, text);
    PaidToHolds(nm, rows, r.category, text);
    GroupNodeIsNodeOf(nm, text, group);
    var i :| 0 <= i < |group| && group[i] == r;
    assert Map(LeafOf, group)[i] == LeafOf(r);
    assert LeafOf(r) in multiset(Map(LeafOf, group));
  }

  // ----- the siblings -----

  /** None of the items has a leaf for a child. */
  ghost predicate NoLeaves(items: seq<NodeItem>) {
    forall item, r :: item in items ==> !HasLeaf(item.node, r)
  }

  /** The items filed by payee: one with a row's leaf is that of the row's payee, and none stands twice. */
  ghost predicate FiledByPayee(nm: Naming, mine: seq<Row>, items: seq<NodeItem>, item: string -> NodeItem) {
    && (forall i, r :: 0 <= i < |items| && r in mine && HasLeaf(items[i].node, r) ==>
          items[i] == item(nm.fold(nm.merchant(r.description))))
    && (forall r :: r in mine ==> item(nm.fold(nm.merchant(r.description))) in items)
    && (forall i, j, r :: 0 <= i < j < |items| && r in mine && HasLeaf(items[i].node, r) ==> items[i] != items[j])
  }

  function ItemOf(nm: Naming, rows: seq<Row>, category: Option<nat>): string -> NodeItem {
    (text: string) => PayeeItem(nm, rows, category, text)
  }

  lemma ItemOfLeaf(nm: Naming, rows: seq<Row>, category: Option<nat>, item: NodeItem, r: Row)
    requires RowsUnique(rows) && r in rows && HasLeaf(item.node, r)
    requires item in MerchantNodes(nm, Filed(rows, category))
    ensures item == ItemOf(nm, rows, category)(nm.fold(nm.merchant(r.description)))
  {
    MerchantItems(nm, rows, category);
    var text :| PaidTo(nm, rows, category, text) != [] && item == PayeeItem(nm, rows, category, text);
    LeafTellsPayee(nm, rows, category, text, r);
  }

  lemma SortedPayees(nm: Naming, rows: seq<Row>, category: Option<nat>, others: seq<NodeItem>)
    requires RowsUnique(rows) && NoLeaves(others)
    ensures FiledByPayee(nm, Filed(rows, category), Sort(ItemLe, others + MerchantNodes(nm, Filed(rows, category))),
                         ItemOf(nm, rows, category))
  {
    var filed := Filed(rows, category);
    var mine := MerchantNodes(nm, filed);
    var sorted := Sort(ItemLe, others + mine);
    SortPermutes(ItemLe, others + mine);
    SortKeepsElements(ItemLe, others + mine);
    FiledAre(rows, category);
    forall i, r | 0 <= i < |sorted| && r in filed && HasLeaf(sorted[i].node, r)
      ensures sorted[i] == ItemOf(nm, rows, category)(nm.fold(nm.merchant(r.description)))
    {
      assert sorted[i] in others + mine && sorted[i] in mine;
      ItemOfLeaf(nm, rows, category, sorted[i], r);
    }
    MerchantItems(nm, rows, category);
    EachStandsOnce(others, mine, sorted);
  }

  lemma EachStandsOnce(others: seq<NodeItem>, mine: seq<NodeItem>, sorted: seq<NodeItem>)
    requires NoDuplicates(mine) && NoLeaves(others) && multiset(sorted) == multiset(others + mine)
    ensures forall i, j, r :: 0 <= i < j < |sorted| && HasLeaf(sorted[i].node, r) ==> sorted[i] != sorted[j]
  {
    forall i, j, r | 0 <= i < j < |sorted| && HasLeaf(sorted[i].node, r) ensures sorted[i] != sorted[j] {
      StandsOnce(others, mine, sorted, i, j);
    }
  }

  lemma {:induction false} FiledAre(rows: seq<Row>, category: Option<nat>)
    ensures forall r :: r in Filed(rows, category) <==> r in rows && r.category == category
  {
    if rows != [] {
      FiledAre(rows[1..], category);
      HeadOrTail(rows);
    }
  }

  lemma StandsOnce(others: seq<NodeItem>, mine: seq<NodeItem>, sorted: seq<NodeItem>, i: nat, j: nat)
    requires NoDuplicates(mine) && multiset(sorted) == multiset(others + mine)
    requires i < j < |sorted| && sorted[i] !in others
    ensures sorted[i] != sorted[j]
  {
    DuplicateFreeMultiset(mine);
    assert multiset(others + mine) == multiset(others) + multiset(mine);
    if sorted[i] == sorted[j] {
      TwoPlaces(sorted, i, j);
      assert false;
    }
  }

  lemma TwoPlaces(xs: seq<NodeItem>, i: nat, j: nat)
    requires i < j < |xs| && xs[i] == xs[j]
    ensures multiset(xs)[xs[i]] >= 2
  {
    assert xs == xs[..j] + xs[j..];
    assert xs[..j][i] == xs[i] && xs[j..][0] == xs[i];
  }

  /** A node built from merchant items beside items without leaves keeps one node a payee. */
  lemma BranchOfPayees(nm: Naming, rows: seq<Row>, category: Option<nat>, others: seq<NodeItem>, name: string)
    requires RowsUnique(rows) && NoLeaves(others)
    ensures OneNodeAPayee(nm, rows, category, SumBranch(name, others + MerchantNodes(nm, Filed(rows, category))))
  {
    var items := others + MerchantNodes(nm, Filed(rows, category));
    var filed, item := Filed(rows, category), ItemOf(nm, rows, category);
    SortedPayees(nm, rows, category, others);
    FiledAre(rows, category);
    forall r | r in filed
      ensures HasLeaf(item(nm.fold(nm.merchant(r.description))).node, r)
      ensures IsNodeOf(nm, PaidTo(nm, rows, category, nm.fold(nm.merchant(r.description))),
                       item(nm.fold(nm.merchant(r.description))).node)
    {
      RowIsALeaf(nm, rows, r);
      PaidToHolds(nm, rows, category, nm.fold(nm.merchant(r.description)));
      GroupNodeIsNodeOf(nm, nm.fold(nm.merchant(r.description)),
                        PaidTo(nm, rows, category, nm.fold(nm.merchant(r.description))));
    }
    forall a, b ensures item(a) == item(b) <==> a == b {
      TagTellsText(a, b);
    }
    var sorted, n := Sort(ItemLe, items), SumBranch(name, items);
    LeavesFound(nm, rows, category, filed, sorted, item, n);
    PayeesShared(nm, rows, category, filed, sorted, item, n);
    PayeesApart(nm, rows, category, filed, sorted, item, n);
  }

  /** The nodes of the items, in their order. */
  ghost predicate AreNodesOf(n: Node, items: seq<NodeItem>) {
    n.Branch? && |n.children| == |items| && forall i :: 0 <= i < |items| ==> n.children[i] == items[i].node
  }

  lemma LeavesFound(nm: Naming, rows: seq<Row>, category: Option<nat>, filed: seq<Row>, items: seq<NodeItem>,
                    item: string -> NodeItem, n: Node)
    requires FiledByPayee(nm, filed, items, item) && AreNodesOf(n, items)
    requires forall r :: r in filed <==> r in rows && r.category == category
    requires forall r :: r in filed ==> HasLeaf(item(nm.fold(nm.merchant(r.description))).node, r)
    ensures EachIsALeaf(rows, category, n)
  {
    forall r | r in rows && r.category == category
      ensures exists i: nat :: i < |n.children| && HasLeaf(n.children[i], r)
    {
      var i :| 0 <= i < |items| && items[i] == item(nm.fold(nm.merchant(r.description)));
      assert HasLeaf(n.children[i], r);
    }
  }

  lemma PayeesShared(nm: Naming, rows: seq<Row>, category: Option<nat>, filed: seq<Row>, items: seq<NodeItem>,
                     item: string -> NodeItem, n: Node)
    requires FiledByPayee(nm, filed, items, item) && AreNodesOf(n, items)
    requires forall r :: r in filed <==> r in rows && r.category == category
    requires forall r :: r in filed ==>
               IsNodeOf(nm, PaidTo(nm, rows, category, nm.fold(nm.merchant(r.description))),
                        item(nm.fold(nm.merchant(r.description))).node)
    ensures LeavesShareAPayee(nm, rows, category, n)
  {
    forall i, r | 0 <= i < |n.children| && r in rows && r.category == category && HasLeaf(n.children[i], r)
      ensures IsNodeOf(nm, PaidTo(nm, rows, category, nm.fold(nm.merchant(r.description))), n.children[i])
    {
      assert HasLeaf(items[i].node, r);
    }
  }

  lemma PayeesApart(nm: Naming, rows: seq<Row>, category: Option<nat>, filed: seq<Row>, items: seq<NodeItem>,
                    item: string -> NodeItem, n: Node)
    requires FiledByPayee(nm, filed, items, item) && AreNodesOf(n, items)
    requires forall r :: r in filed <==> r in rows && r.category == category
    requires forall a, b :: item(a) == item(b) <==> a == b
    ensures OneChildAPayee(nm, rows, category, n)
  {
    forall i, j, r, q | 0 <= i < |n.children| && 0 <= j < |n.children| && r in rows && q in rows
                        && r.category == category && q.category == category
                        && HasLeaf(n.children[i], r) && HasLeaf(n.children[j], q)
      ensures i == j <==> nm.fold(nm.merchant(r.description)) == nm.fold(nm.merchant(q.description))
    {
      SamePlaceIff(nm, filed, items, item, i, j, r, q);
    }
  }

  lemma SamePlaceIff(nm: Naming, filed: seq<Row>, items: seq<NodeItem>, item: string -> NodeItem, i: nat, j: nat,
                     r: Row, q: Row)
    requires FiledByPayee(nm, filed, items, item) && forall a, b :: item(a) == item(b) <==> a == b
    requires i < |items| && j < |items| && r in filed && q in filed
    requires HasLeaf(items[i].node, r) && HasLeaf(items[j].node, q)
    ensures i == j <==> nm.fold(nm.merchant(r.description)) == nm.fold(nm.merchant(q.description))
  {
  }

  // ----- on the tree -----

  lemma {:induction false} KidsHaveNoLeaves(nm: Naming, cats: seq<Category>, rows: seq<Row>, kids: seq<nat>,
                                            ancestry: set<nat>)
    ensures NoLeaves(ChildItems(nm, cats, rows, kids, ancestry))
    decreases |kids|
  {
    if kids != [] {
      KidsHaveNoLeaves(nm, cats, rows, kids[1..], ancestry);
      var node := if kids[0] in Ids(cats) then CategoryNode(nm, cats, rows, kids[0], ancestry) else None;
      if node.Some? {
        CategoryHasNoLeaves(nm, cats, rows, kids[0], ancestry);
        NoneIn(NodeItem(node.value, "cat:" + Decimal(kids[0])), ChildItems(nm, cats, rows, kids[1..], ancestry));
      }
    }
  }

  lemma NoneIn(head: NodeItem, rest: seq<NodeItem>)
    requires (forall r :: !HasLeaf(head.node, r)) && NoLeaves(rest)
    ensures NoLeaves([head] + rest)
  {
  }

  lemma CategoryHasNoLeaves(nm: Naming, cats: seq<Category>, rows: seq<Row>, id: nat, ancestry: set<nat>)
    requires id in Ids(cats)
    ensures var n := CategoryNode(nm, cats, rows, id, ancestry); n.Some? ==> forall r :: !HasLeaf(n.value, r)
  {
    if id !in ancestry {
      var kids := if IsRoot(cats, id) then [] else ChildrenOf(cats, id);
      var below, bucket := ChildItems(nm, cats, rows, kids, ancestry + {id}), Filed(rows, Some(id));
      KidsAreBranches(nm, cats, rows, kids, ancestry + {id});
      GroupsAreBranches(nm, bucket, Keys(MerchantKey(nm), bucket));
      NoLeafAmong(Find(cats, id).value.name, below + MerchantNodes(nm, bucket));
    }
  }

  lemma NoLeafAmong(name: string, items: seq<NodeItem>)
    requires forall item :: item in items ==> item.node.Branch?
    ensures forall r :: !HasLeaf(SumBranch(name, items), r)
  {
    SortKeepsElements(ItemLe, items);
    var sorted := Sort(ItemLe, items);
    forall c | c in SortedNodes(items) ensures c.Branch? {
      var i :| 0 <= i < |sorted| && SortedNodes(items)[i] == c;
      assert sorted[i] in items;
    }
  }

  lemma {:induction false} KidsAreBranches(nm: Naming, cats: seq<Category>, rows: seq<Row>, kids: seq<nat>,
                                           ancestry: set<nat>)
    ensures forall item :: item in ChildItems(nm, cats, rows, kids, ancestry) ==> item.node.Branch?
    decreases |kids|
  {
    if kids != [] {
      KidsAreBranches(nm, cats, rows, kids[1..], ancestry);
    }
  }

  lemma {:induction false} GroupsAreBranches(nm: Naming, bucket: seq<Row>, keys: seq<string>)
    ensures forall item :: item in GroupItems(ByMerchant(nm), bucket, keys) ==> item.node.Branch?
    decreases |keys|
  {
    if keys != [] {
      GroupsAreBranches(nm, bucket, keys[1..]);
    }
  }

  lemma FindIsTheOne(cats: seq<Category>, c: Category)
    requires UniqueIds(cats) && c in cats
    ensures Find(cats, c.id) == Some(c)
  {
    assert c.id in Ids(cats);
    var i :| 0 <= i < |cats| && cats[i] == c;
    var j :| 0 <= j < |cats| && cats[j] == Find(cats, c.id).value;
  }

  /** The node of a category goes by the category's name and holds one node a payee for the rows filed on it. */
  lemma CategoryHasOneNodeAPayee(nm: Naming, cats: seq<Category>, rows: seq<Row>, c: Category, ancestry: set<nat>)
    requires UniqueIds(cats) && RowsUnique(rows) && c in cats
    ensures var n := CategoryNode(nm, cats, rows, c.id, ancestry);
            n.Some? ==> n.value.Branch? && n.value.title == c.name && OneNodeAPayee(nm, rows, Some(c.id), n.value)
  {
    assert c.id in Ids(cats);
    if c.id !in ancestry {
      FindIsTheOne(cats, c);
      var kids := if IsRoot(cats, c.id) then [] else ChildrenOf(cats, c.id);
      KidsHaveNoLeaves(nm, cats, rows, kids, ancestry + {c.id});
      BranchOfPayees(nm, rows, Some(c.id), ChildItems(nm, cats, rows, kids, ancestry + {c.id}), c.name);
    }
  }

  /** Rows without a category have a node of their own in the branch, one node a payee under it. */
  lemma UncategorisedHasOneNodeAPayee(nm: Naming, cats: seq<Category>, rows: seq<Row>, name: string,
                                      uncategorised: string, r: Row)
    requires RowsUnique(rows) && r in rows && r.category.None?
    ensures var branch := CategoryBranch(nm, cats, rows, name, uncategorised);
            && branch.Branch? && branch.title == name
            && exists n :: n in branch.children && n.Branch? && n.title == uncategorised
                 && OneNodeAPayee(nm, rows, None, n)
  {
    HavingOne(CategoryOf(), rows, r);
    var loose := Filed(rows, None);
    BranchOfPayees(nm, rows, None, [], uncategorised);
    assert [] + MerchantNodes(nm, loose) == MerchantNodes(nm, loose);
    var items := TopItems(nm, cats, rows, Tops(cats, rows));
    var item := NodeItem(SumBranch(uncategorised, MerchantNodes(nm, loose)), "cat:none");
    assert (items + [item])[|items|] == item;
    ItemIsAChild(name, items + [item], item);
  }
}
