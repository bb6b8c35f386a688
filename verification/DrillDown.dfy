/** The drill-down tree over the category table (`reporting.py`). */
module DrillDown {
  import opened Wrappers
  import opened Numerals
  import opened Merchants
  import opened Sequences
  import opened Sorting
  import opened DrillNodes

  datatype Category = Category(id: nat, parent: Option<nat>, name: string)

  // ----- the category forest -----

  predicate UniqueIds(cats: seq<Category>) {
    forall i, j :: 0 <= i < j < |cats| ==> cats[i].id != cats[j].id
  }

  function Ids(cats: seq<Category>): set<nat> {
    set c | c in cats :: c.id
  }

  function Find(cats: seq<Category>, id: nat): (c: Option<Category>)
    ensures c.Some? <==> id in Ids(cats)
    ensures c.Some? ==> c.value in cats && c.value.id == id
  {
    if cats == [] then None
    else if cats[0].id == id then Some(cats[0])
    else
      assert cats == [cats[0]] + cats[1..];
      Find(cats[1..], id)
  }

  /** The parent of a known category. */
  function Parent(cats: seq<Category>, id: nat): Option<nat> {
    var c := Find(cats, id);
    if c.Some? then c.value.parent else None
  }

  predicate IsRoot(cats: seq<Category>, id: nat) {
    Find(cats, id).Some? && Parent(cats, id).None?
  }

  function ChildrenOf(cats: seq<Category>, id: nat): seq<nat> {
    if cats == [] then []
    else (if cats[0].parent == Some(id) then [cats[0].id] else []) + ChildrenOf(cats[1..], id)
  }

  /** The climb of `top_of_chain` from a category with a parent, `seen` being what it passed. */
  function ClimbToTop(cats: seq<Category>, id: nat, seen: set<nat>): nat
    requires id in seen
    decreases Ids(cats) - seen
  {
    var parent := Parent(cats, id);
    if parent.None? || IsRoot(cats, parent.value) || parent.value !in Ids(cats) || parent.value in seen then id
    else ClimbToTop(cats, parent.value, seen + {parent.value})
  }

  function TopOfChain(cats: seq<Category>, id: nat): nat {
    ClimbToTop(cats, id, {id})
  }

  /** `top_of_chain`: the loop, which ends on any parent map because `seen` grows. */
  method ClimbChain(cats: seq<Category>, id: nat) returns (top: nat)
    ensures top == TopOfChain(cats, id)
  {
    var start := Find(cats, id);
    if start.None? || start.value.parent.None? {
      return id;
    }
    var cat, seen := start.value, {id};
    while !IsRoot(cats, cat.parent.value)
      invariant cat.parent.Some? && Find(cats, cat.id) == Some(cat) && cat.id in seen
      invariant TopOfChain(cats, id) == ClimbToTop(cats, cat.id, seen)
      decreases Ids(cats) - seen
    {
      var parent := Find(cats, cat.parent.value);
      if parent.None? || parent.value.id in seen {
        return cat.id;
      }
      seen := seen + {parent.value.id};
      cat := parent.value;
    }
    return cat.id;
  }

  // ----- the tree -----

  function CategoryOf(): Row -> Option<nat> {
    (r: Row) => r.category
  }

  function Filed(rows: seq<Row>, category: Option<nat>): seq<Row> {
    Having(CategoryOf(), rows, category)
  }

  /** `category_node`: ends on any parent map because `ancestry` grows. */
  function CategoryNode(nm: Naming, cats: seq<Category>, rows: seq<Row>, id: nat, ancestry: set<nat>): Option<Node>
    requires id in Ids(cats)
    decreases Ids(cats) - ancestry, 1, 0
  {
    if id in ancestry then None
    else
      var kids := if IsRoot(cats, id) then [] else ChildrenOf(cats, id);
      var items := ChildItems(nm, cats, rows, kids, ancestry + {id}) + MerchantNodes(nm, Filed(rows, Some(id)));
      if items == [] then None else Some(SumBranch(Find(cats, id).value.name, items))
  }

  function ChildItems(nm: Naming, cats: seq<Category>, rows: seq<Row>, kids: seq<nat>,
                      ancestry: set<nat>): seq<NodeItem>
    decreases Ids(cats) - ancestry, 2, |kids|
  {
    if kids == [] then []
    else
      var node := if kids[0] in Ids(cats) then CategoryNode(nm, cats, rows, kids[0], ancestry) else None;
      (if node.Some? then [NodeItem(node.value, "cat:" + Decimal(kids[0]))] else [])
      + ChildItems(nm, cats, rows, kids[1..], ancestry)
  }

  /** The distinct tops of the rows' categories. */
  function Tops(cats: seq<Category>, rows: seq<Row>): seq<nat> {
    if rows == [] then []
    else
      var tops := Tops(cats, rows[1..]);
      if rows[0].category.None? || TopOfChain(cats, rows[0].category.value) in tops then tops
      else [TopOfChain(cats, rows[0].category.value)] + tops
  }

  function TopItems(nm: Naming, cats: seq<Category>, rows: seq<Row>, tops: seq<nat>): seq<NodeItem> {
    ChildItems(nm, cats, rows, tops, {})
  }

  /** `_category_branch`. */
  function CategoryBranch(nm: Naming, cats: seq<Category>, rows: seq<Row>, name: string, uncategorised: string): Node {
    var loose := Filed(rows, None);
    var items := TopItems(nm, cats, rows, Tops(cats, rows));
    SumBranch(name, if loose == [] then items
                    else items + [NodeItem(SumBranch(uncategorised, MerchantNodes(nm, loose)), "cat:none")])
  }

  // ----- which categories a node covers -----

  /** The categories whose rows the node of `id` gathers. */
  function Covered(cats: seq<Category>, id: nat, ancestry: set<nat>): set<nat>
    decreases Ids(cats) - ancestry, 1, 0
  {
    if id in ancestry || id !in Ids(cats) then {}
    else {id} + CoveredAll(cats, if IsRoot(cats, id) then [] else ChildrenOf(cats, id), ancestry + {id})
  }

  function CoveredAll(cats: seq<Category>, kids: seq<nat>, ancestry: set<nat>): set<nat>
    decreases Ids(cats) - ancestry, 2, |kids|
  {
    if kids == [] then {} else Covered(cats, kids[0], ancestry) + CoveredAll(cats, kids[1..], ancestry)
  }

  function RowsIn(rows: seq<Row>, ids: set<nat>): seq<Row> {
    if rows == [] then []
    else (if rows[0].category.Some? && rows[0].category.value in ids then [rows[0]] else []) + RowsIn(rows[1..], ids)
  }

  lemma {:induction false} RowsInUnion(rows: seq<Row>, a: set<nat>, b: set<nat>)
    requires a !! b
    ensures TallyRows(RowsIn(rows, a + b)) == Add(TallyRows(RowsIn(rows, a)), TallyRows(RowsIn(rows, b)))
  {
    if rows != [] {
      RowsInUnion(rows[1..], a, b);
      HeadTally(rows, a);
      HeadTally(rows, b);
      HeadTally(rows, a + b);
      var ra, rb := TallyRows(RowsIn(rows[1..], a)), TallyRows(RowsIn(rows[1..], b));
      AddAssociates(TallyRow(rows[0]), ra, rb);
      AddSwaps(ra, TallyRow(rows[0]), rb);
    } else {
      AddNothing(NOTHING);
    }
  }

  lemma HeadTally(rows: seq<Row>, ids: set<nat>)
    requires rows != []
    ensures TallyRows(RowsIn(rows, ids)) ==
            if rows[0].category.Some? && rows[0].category.value in ids
            then Add(TallyRow(rows[0]), TallyRows(RowsIn(rows[1..], ids)))
            else TallyRows(RowsIn(rows[1..], ids))
  {
    if rows[0].category.Some? && rows[0].category.value in ids {
      assert RowsIn(rows, ids)[1..] == RowsIn(rows[1..], ids);
    } else {
      assert RowsIn(rows, ids) == RowsIn(rows[1..], ids);
    }
  }

  lemma {:induction false} RowsInNone(rows: seq<Row>)
    ensures RowsIn(rows, {}) == []
  {
    if rows != [] {
      RowsInNone(rows[1..]);
    }
  }

  lemma {:induction false} FiledIsRowsIn(rows: seq<Row>, id: nat)
    ensures Filed(rows, Some(id)) == RowsIn(rows, {id})
  {
    if rows != [] {
      FiledIsRowsIn(rows[1..], id);
    }
  }

  // ----- paths up the parent map -----

  /** `path` climbs the parent map, every category on it being known. */
  ghost predicate IsPath(cats: seq<Category>, path: seq<nat>) {
    && path != []
    && (forall i :: 0 <= i < |path| ==> path[i] in Ids(cats))
    && (forall i :: 0 <= i < |path| - 1 ==> Parent(cats, path[i]) == Some(path[i + 1]))
  }

  function Last(path: seq<nat>): nat
    requires path != []
  {
    path[|path| - 1]
  }

  /** Climbing is deterministic: of two paths from one category, the shorter is a prefix. */
  lemma {:induction false} PathsAgree(cats: seq<Category>, p: seq<nat>, q: seq<nat>, i: nat)
    requires IsPath(cats, p) && IsPath(cats, q) && p[0] == q[0] && i < |p| && i < |q|
    ensures p[i] == q[i]
  {
    if i > 0 {
      PathsAgree(cats, p, q, i - 1);
      assert Parent(cats, p[i - 1]) == Some(p[i]) && Parent(cats, q[i - 1]) == Some(q[i]);
    }
  }

  lemma {:induction false} ChildrenAreChildren(cats: seq<Category>, id: nat)
    requires UniqueIds(cats)
    ensures forall k :: k in ChildrenOf(cats, id) <==> k in Ids(cats) && Parent(cats, k) == Some(id)
    ensures NoDuplicates(ChildrenOf(cats, id))
  {
    if cats != [] {
      ChildrenAreChildren(cats[1..], id);
      IdsSplit(cats);
    }
  }

  lemma IdsSplit(cats: seq<Category>)
    requires UniqueIds(cats) && cats != []
    ensures UniqueIds(cats[1..]) && cats[0].id !in Ids(cats[1..])
    ensures Ids(cats) == {cats[0].id} + Ids(cats[1..])
  {
    assert cats == [cats[0]] + cats[1..];
  }

  /** A covered category climbs to the node's category without meeting its ancestry; a root is
      reached by no climb but its own. */
  lemma {:induction false} CoveredHasPath(cats: seq<Category>, id: nat, ancestry: set<nat>, x: nat)
      returns (path: seq<nat>)
    requires UniqueIds(cats) && x in Covered(cats, id, ancestry)
    ensures IsPath(cats, path) && NoDuplicates(path) && path[0] == x && Last(path) == id
    ensures x !in ancestry && forall i :: 0 <= i < |path| ==> path[i] !in ancestry
    ensures IsRoot(cats, id) ==> |path| == 1
    decreases Ids(cats) - ancestry, 1, 0
  {
    if x == id {
      path := [x];
    } else {
      var kid;
      kid, path := CoveredAllHasPath(cats, ChildrenOf(cats, id), ancestry + {id}, x);
      ChildrenAreChildren(cats, id);
      PathGrows(cats, path, id);
      path := path + [id];
    }
  }

  lemma PathGrows(cats: seq<Category>, path: seq<nat>, id: nat)
    requires IsPath(cats, path) && NoDuplicates(path) && id !in path
    requires id in Ids(cats) && Parent(cats, Last(path)) == Some(id)
    ensures IsPath(cats, path + [id]) && NoDuplicates(path + [id])
  {
  }

  lemma {:induction false} CoveredAllHasPath(cats: seq<Category>, kids: seq<nat>, ancestry: set<nat>, x: nat)
      returns (kid: nat, path: seq<nat>)
    requires UniqueIds(cats) && x in CoveredAll(cats, kids, ancestry)
    ensures kid in kids && IsPath(cats, path) && NoDuplicates(path) && path[0] == x && Last(path) == kid
    ensures x !in ancestry && forall i :: 0 <= i < |path| ==> path[i] !in ancestry
    decreases Ids(cats) - ancestry, 2, |kids|
  {
    if x in Covered(cats, kids[0], ancestry) {
      kid := kids[0];
      path := CoveredHasPath(cats, kid, ancestry, x);
    } else {
      kid, path := CoveredAllHasPath(cats, kids[1..], ancestry, x);
    }
  }

  /** Conversely, a duplicate-free climb that avoids the ancestry ends at a category whose node
      covers its start. */
  lemma {:induction false} PathIsCovered(cats: seq<Category>, path: seq<nat>, ancestry: set<nat>)
    requires UniqueIds(cats) && IsPath(cats, path) && NoDuplicates(path)
    requires forall i :: 0 <= i < |path| ==> path[i] !in ancestry
    requires |path| > 1 ==> !IsRoot(cats, Last(path))
    ensures path[0] in Covered(cats, Last(path), ancestry)
    decreases |path|
  {
    if |path| > 1 {
      var n := |path| - 1;
      var front := path[..n];
      assert Parent(cats, front[n - 1]) == Some(path[n]);
      PathIsCovered(cats, front, ancestry + {path[n]});
      ChildrenAreChildren(cats, path[n]);
      InCoveredAll(cats, ChildrenOf(cats, path[n]), ancestry + {path[n]}, front[n - 1], path[0]);
    }
  }

  lemma {:induction false} InCoveredAll(cats: seq<Category>, kids: seq<nat>, ancestry: set<nat>, kid: nat, x: nat)
    requires kid in kids && x in Covered(cats, kid, ancestry)
    ensures x in CoveredAll(cats, kids, ancestry)
    decreases |kids|
  {
    if kid != kids[0] {
      InCoveredAll(cats, kids[1..], ancestry, kid, x);
    }
  }

  /** Siblings cover disjoint sets, on any parent map: two climbs from one category to two
      children of the same parent would pass that parent, which is in the ancestry. */
  lemma SiblingsDisjoint(cats: seq<Category>, parent: nat, ancestry: set<nat>, a: nat, b: nat)
    requires UniqueIds(cats) && parent in ancestry && a != b
    requires Parent(cats, a) == Some(parent) && Parent(cats, b) == Some(parent)
    ensures Covered(cats, a, ancestry) !! Covered(cats, b, ancestry)
  {
    forall x | x in Covered(cats, a, ancestry) ensures x !in Covered(cats, b, ancestry) {
      if x in Covered(cats, b, ancestry) {
        var p := CoveredHasPath(cats, a, ancestry, x);
        var q := CoveredHasPath(cats, b, ancestry, x);
        PathsMeet(cats, p, q, parent);
      }
    }
  }

  lemma PathsMeet(cats: seq<Category>, p: seq<nat>, q: seq<nat>, parent: nat)
    requires IsPath(cats, p) && IsPath(cats, q) && p[0] == q[0]
    requires Parent(cats, Last(p)) == Some(parent) && Parent(cats, Last(q)) == Some(parent)
    ensures Last(p) == Last(q) || parent in p || parent in q
  {
    PathsAgree(cats, p, q, if |p| <= |q| then |p| - 1 else |q| - 1);
    if |p| < |q| {
      assert Parent(cats, q[|p| - 1]) == Some(q[|p|]);
    } else if |q| < |p| {
      assert Parent(cats, p[|q| - 1]) == Some(p[|q|]);
    }
  }

  // ----- what each node holds -----

  function TallyOption(n: Option<Node>): Tally {
    if n.None? then NOTHING else TallyNode(n.value)
  }

  /** The tallies of what each of `kids` covers, added up. */
  function TallyEach(cats: seq<Category>, rows: seq<Row>, kids: seq<nat>, ancestry: set<nat>): Tally {
    if kids == [] then NOTHING
    else Add(TallyRows(RowsIn(rows, Covered(cats, kids[0], ancestry))), TallyEach(cats, rows, kids[1..], ancestry))
  }

  /** On any parent map, a category's node holds exactly the rows of the categories it covers. */
  lemma {:induction false} NodeHoldsCovered(nm: Naming, cats: seq<Category>, rows: seq<Row>, id: nat,
                                            ancestry: set<nat>)
    requires UniqueIds(cats) && id in Ids(cats)
    ensures TallyOption(CategoryNode(nm, cats, rows, id, ancestry))
              == TallyRows(RowsIn(rows, Covered(cats, id, ancestry)))
    decreases Ids(cats) - ancestry, 1, 0
  {
    if id in ancestry {
      RowsInNone(rows);
    } else {
      var kids := if IsRoot(cats, id) then [] else ChildrenOf(cats, id);
      var below := ancestry + {id};
      KidsHoldCovered(nm, cats, rows, kids, below);
      KidsMerge(cats, rows, id, kids, below);
      OwnRowsJoin(cats, rows, id, kids, below);
      ItemsConcat(ChildItems(nm, cats, rows, kids, below), MerchantNodes(nm, Filed(rows, Some(id))));
      GroupNodesTally(ByMerchant(nm), Filed(rows, Some(id)));
      var items := ChildItems(nm, cats, rows, kids, below) + MerchantNodes(nm, Filed(rows, Some(id)));
      if items != [] {
        BranchTally(Find(cats, id).value.name, items);
      }
    }
  }

  lemma {:induction false} KidsHoldCovered(nm: Naming, cats: seq<Category>, rows: seq<Row>, kids: seq<nat>,
                                           ancestry: set<nat>)
    requires UniqueIds(cats)
    ensures TallyItems(ChildItems(nm, cats, rows, kids, ancestry)) == TallyEach(cats, rows, kids, ancestry)
    decreases Ids(cats) - ancestry, 2, |kids|
  {
    if kids != [] {
      var rest := ChildItems(nm, cats, rows, kids[1..], ancestry);
      KidsHoldCovered(nm, cats, rows, kids[1..], ancestry);
      var node := if kids[0] in Ids(cats) then CategoryNode(nm, cats, rows, kids[0], ancestry) else None;
      if kids[0] in Ids(cats) {
        NodeHoldsCovered(nm, cats, rows, kids[0], ancestry);
      } else {
        RowsInNone(rows);
      }
      if node.Some? {
        var item := NodeItem(node.value, "cat:" + Decimal(kids[0]));
        ItemsConcat([item], rest);
        OneItem(item);
      } else {
        assert [] + rest == rest;
        AddNothing(TallyItems(rest));
      }
    }
  }

  lemma CoveredAvoids(cats: seq<Category>, kids: seq<nat>, ancestry: set<nat>, x: nat)
    requires UniqueIds(cats) && x in ancestry
    ensures x !in CoveredAll(cats, kids, ancestry)
  {
    if x in CoveredAll(cats, kids, ancestry) {
      var kid, path := CoveredAllHasPath(cats, kids, ancestry, x);
    }
  }

  lemma OwnRowsJoin(cats: seq<Category>, rows: seq<Row>, id: nat, kids: seq<nat>, below: set<nat>)
    requires UniqueIds(cats) && id in below
    ensures TallyRows(RowsIn(rows, {id} + CoveredAll(cats, kids, below)))
         == Add(TallyRows(RowsIn(rows, CoveredAll(cats, kids, below))), TallyRows(Filed(rows, Some(id))))
  {
    CoveredAvoids(cats, kids, below, id);
    FiledIsRowsIn(rows, id);
    RowsInUnion(rows, {id}, CoveredAll(cats, kids, below));
    AddCommutes(TallyRows(RowsIn(rows, {id})), TallyRows(RowsIn(rows, CoveredAll(cats, kids, below))));
  }

  lemma KidsMerge(cats: seq<Category>, rows: seq<Row>, id: nat, kids: seq<nat>, below: set<nat>)
    requires UniqueIds(cats) && id in below
    requires kids == [] || kids == ChildrenOf(cats, id)
    ensures TallyEach(cats, rows, kids, below) == TallyRows(RowsIn(rows, CoveredAll(cats, kids, below)))
  {
    ChildrenAreChildren(cats, id);
    SiblingsMerge(cats, rows, id, kids, below);
  }

  lemma {:induction false} SiblingsMerge(cats: seq<Category>, rows: seq<Row>, id: nat, kids: seq<nat>, below: set<nat>)
    requires UniqueIds(cats) && id in below && NoDuplicates(kids)
    requires forall k :: k in kids ==> Parent(cats, k) == Some(id)
    ensures TallyEach(cats, rows, kids, below) == TallyRows(RowsIn(rows, CoveredAll(cats, kids, below)))
    decreases |kids|
  {
    if kids == [] {
      RowsInNone(rows);
    } else {
      SiblingsMerge(cats, rows, id, kids[1..], below);
      HeadAgainstRest(cats, id, kids, below);
      RowsInUnion(rows, Covered(cats, kids[0], below), CoveredAll(cats, kids[1..], below));
    }
  }

  lemma HeadAgainstRest(cats: seq<Category>, id: nat, kids: seq<nat>, below: set<nat>)
    requires UniqueIds(cats) && id in below && NoDuplicates(kids) && kids != []
    requires forall k :: k in kids ==> Parent(cats, k) == Some(id)
    ensures Covered(cats, kids[0], below) !! CoveredAll(cats, kids[1..], below)
  {
    forall k | k in kids[1..] ensures Covered(cats, kids[0], below) !! Covered(cats, k, below) {
      SiblingsDisjoint(cats, id, below, kids[0], k);
    }
    DisjointFromAll(cats, kids[1..], below, Covered(cats, kids[0], below));
  }

  lemma {:induction false} DisjointFromAll(cats: seq<Category>, kids: seq<nat>, ancestry: set<nat>, s: set<nat>)
    requires forall k :: k in kids ==> s !! Covered(cats, k, ancestry)
    ensures s !! CoveredAll(cats, kids, ancestry)
    decreases |kids|
  {
    if kids != [] {
      DisjointFromAll(cats, kids[1..], ancestry, s);
    }
  }

  // ----- how often a row is placed -----

  /** What the nodes of `tops` cover. */
  function Covers(cats: seq<Category>, tops: seq<nat>): seq<set<nat>> {
    if tops == [] then [] else [Covered(cats, tops[0], {})] + Covers(cats, tops[1..])
  }

  /** In how many of `covers` a category lies. */
  function Times(covers: seq<set<nat>>, c: nat): nat {
    if covers == [] then 0 else (if c in covers[0] then 1 else 0) + Times(covers[1..], c)
  }

  function TimesOf(covers: seq<set<nat>>, r: Row): nat {
    if r.category.None? then 0 else Times(covers, r.category.value)
  }

  function Scale(n: nat, t: Tally): Tally {
    if n == 0 then NOTHING else Add(t, Scale(n - 1, t))
  }

  /** Each row as often as its category lies in a cover. */
  function TallyPlaced(covers: seq<set<nat>>, rows: seq<Row>): Tally {
    if rows == [] then NOTHING
    else Add(Scale(TimesOf(covers, rows[0]), TallyRow(rows[0])), TallyPlaced(covers, rows[1..]))
  }

  lemma {:induction false} PlacedNowhere(covers: seq<set<nat>>, rows: seq<Row>)
    requires covers == []
    ensures TallyPlaced(covers, rows) == NOTHING
    decreases |rows|
  {
    if rows != [] {
      PlacedNowhere(covers, rows[1..]);
      assert TimesOf(covers, rows[0]) == 0;
      AddNothing(NOTHING);
    }
  }

  lemma {:induction false} PlacedOnceMore(rows: seq<Row>, top: set<nat>, covers: seq<set<nat>>)
    ensures TallyPlaced([top] + covers, rows) == Add(TallyRows(RowsIn(rows, top)), TallyPlaced(covers, rows))
    decreases |rows|
  {
    if rows == [] {
      AddNothing(NOTHING);
    } else {
      PlacedOnceMore(rows[1..], top, covers);
      HeadTally(rows, top);
      OneMoreCover(top, covers, rows[0]);
      var row, held := TallyRow(rows[0]), TallyRows(RowsIn(rows[1..], top));
      var times, rest := Scale(TimesOf(covers, rows[0]), row), TallyPlaced(covers, rows[1..]);
      AddSwaps(times, held, rest);
      AddAssociates(row, held, Add(times, rest));
      AddAssociates(row, times, Add(held, rest));
    }
  }

  lemma OneMoreCover(top: set<nat>, covers: seq<set<nat>>, r: Row)
    ensures Scale(TimesOf([top] + covers, r), TallyRow(r))
         == if r.category.Some? && r.category.value in top then Add(TallyRow(r), Scale(TimesOf(covers, r), TallyRow(r)))
            else Scale(TimesOf(covers, r), TallyRow(r))
  {
    assert ([top] + covers)[1..] == covers;
  }

  lemma {:induction false} EachIsPlaced(cats: seq<Category>, rows: seq<Row>, tops: seq<nat>)
    ensures TallyEach(cats, rows, tops, {}) == TallyPlaced(Covers(cats, tops), rows)
    decreases |tops|
  {
    if tops == [] {
      PlacedNowhere(Covers(cats, tops), rows);
    } else {
      EachIsPlaced(cats, rows, tops[1..]);
      PlacedOnceMore(rows, Covered(cats, tops[0], {}), Covers(cats, tops[1..]));
    }
  }

  /** On any parent map, cycles included: the branch holds each uncategorised row once and each
      categorised row exactly as often as its category lies under a top. */
  lemma BranchHolds(nm: Naming, cats: seq<Category>, rows: seq<Row>, name: string, uncategorised: string)
    requires UniqueIds(cats)
    ensures TallyNode(CategoryBranch(nm, cats, rows, name, uncategorised))
         == Add(TallyPlaced(Covers(cats, Tops(cats, rows)), rows), TallyRows(Filed(rows, None)))
  {
    var tops, loose := Tops(cats, rows), Filed(rows, None);
    var items := TopItems(nm, cats, rows, tops);
    KidsHoldCovered(nm, cats, rows, tops, {});
    EachIsPlaced(cats, rows, tops);
    if loose == [] {
      BranchTally(name, items);
      AddNothing(TallyItems(items));
    } else {
      var item := NodeItem(SumBranch(uncategorised, MerchantNodes(nm, loose)), "cat:none");
      BranchTally(name, items + [item]);
      ItemsConcat(items, [item]);
      OneItem(item);
      BranchTally(uncategorised, MerchantNodes(nm, loose));
      GroupNodesTally(ByMerchant(nm), loose);
    }
  }

  // ----- which tops a category lies under -----

  function Elements(path: seq<nat>): set<nat> {
    set x | x in path
  }

  /** What the climb from `id` has passed when it stops: its final `seen`. */
  function Passed(cats: seq<Category>, id: nat, seen: set<nat>): set<nat>
    requires id in seen
    decreases Ids(cats) - seen
  {
    var parent := Parent(cats, id);
    if parent.None? || IsRoot(cats, parent.value) || parent.value !in Ids(cats) || parent.value in seen then seen
    else Passed(cats, parent.value, seen + {parent.value})
  }

  /** A duplicate-free climb that enters no root. */
  ghost predicate IsClimb(cats: seq<Category>, path: seq<nat>) {
    && IsPath(cats, path) && NoDuplicates(path)
    && (|path| > 1 ==> !IsRoot(cats, Last(path)))
  }

  /** The climb cannot go on. */
  ghost predicate IsStuck(cats: seq<Category>, path: seq<nat>)
    requires path != []
  {
    var parent := Parent(cats, Last(path));
    parent.None? || IsRoot(cats, parent.value) || parent.value !in Ids(cats) || parent.value in path
  }

  lemma ClimbOn(cats: seq<Category>, path: seq<nat>)
    requires IsClimb(cats, path) && !IsStuck(cats, path)
    ensures IsClimb(cats, path + [Parent(cats, Last(path)).value])
    ensures Elements(path + [Parent(cats, Last(path)).value]) == Elements(path) + {Parent(cats, Last(path)).value}
  {
  }

  /** The whole climb, with the top at its end and what was passed along it. */
  lemma {:induction false} ClimbPath(cats: seq<Category>, done: seq<nat>) returns (path: seq<nat>)
    requires IsClimb(cats, done)
    ensures IsClimb(cats, path) && IsStuck(cats, path) && path[0] == done[0]
    ensures Last(path) == ClimbToTop(cats, Last(done), Elements(done))
    ensures Elements(path) == Passed(cats, Last(done), Elements(done))
    decreases Ids(cats) - Elements(done)
  {
    if IsStuck(cats, done) {
      path := done;
    } else {
      ClimbOn(cats, done);
      path := ClimbPath(cats, done + [Parent(cats, Last(done)).value]);
    }
  }

  lemma WholeClimb(cats: seq<Category>, c: nat) returns (path: seq<nat>)
    requires c in Ids(cats)
    ensures IsClimb(cats, path) && IsStuck(cats, path) && path[0] == c
    ensures Last(path) == TopOfChain(cats, c) && Elements(path) == Passed(cats, c, {c})
  {
    assert Elements([c]) == {c};
    path := ClimbPath(cats, [c]);
  }

  lemma PrefixOfClimb(cats: seq<Category>, path: seq<nat>, n: nat)
    requires IsClimb(cats, path) && 0 < n <= |path|
    ensures IsClimb(cats, path[..n])
  {
    if 1 < n < |path| {
      assert Parent(cats, path[n - 1]) == Some(path[n]);
    }
  }

  lemma NoRootInside(cats: seq<Category>, path: seq<nat>, i: nat)
    requires IsClimb(cats, path) && 0 < i < |path|
    ensures !IsRoot(cats, path[i])
  {
    if i < |path| - 1 {
      assert Parent(cats, path[i]) == Some(path[i + 1]);
    }
  }

  /** Of two climbs from one category, one that is stuck holds the other. */
  lemma StuckHoldsAll(cats: seq<Category>, path: seq<nat>, other: seq<nat>)
    requires IsClimb(cats, path) && IsStuck(cats, path)
    requires IsClimb(cats, other) && other[0] == path[0]
    ensures Last(other) in path
  {
    if |other| <= |path| {
      PathsAgree(cats, path, other, |other| - 1);
    } else {
      var n := |path|;
      PathsAgree(cats, path, other, n - 1);
      assert Parent(cats, other[n - 1]) == Some(other[n]);
      if other[n] in path {
        var i :| 0 <= i < n && path[i] == other[n];
        PathsAgree(cats, path, other, i);
      } else {
        NoRootInside(cats, other, n);
      }
    }
  }

  /** A node's cover, in terms of the climb: a known category lies under exactly the categories
      its climb passes. */
  lemma CoveredIffPassed(cats: seq<Category>, c: nat, top: nat)
    requires UniqueIds(cats) && c in Ids(cats)
    ensures c in Covered(cats, top, {}) <==> top in Passed(cats, c, {c})
  {
    var path := WholeClimb(cats, c);
    if top in path {
      var i :| 0 <= i < |path| && path[i] == top;
      PrefixOfClimb(cats, path, i + 1);
      PathIsCovered(cats, path[..i + 1], {});
    }
    if c in Covered(cats, top, {}) {
      var other := CoveredHasPath(cats, top, {}, c);
      StuckHoldsAll(cats, path, other);
    }
  }

  // ----- conservation -----

  /** Every category a row names is in the table (a foreign key keeps it so). */
  predicate CategoriesKnown(cats: seq<Category>, rows: seq<Row>) {
    forall r :: r in rows && r.category.Some? ==> r.category.value in Ids(cats)
  }

  /** No row's climb passes the top of another row's chain on its way to its own. */
  ghost predicate OwnTopOnly(cats: seq<Category>, rows: seq<Row>) {
    forall r, t :: r in rows && r.category.Some? && t in Tops(cats, rows)
                   && t in Passed(cats, r.category.value, {r.category.value})
                   ==> t == TopOfChain(cats, r.category.value)
  }

  lemma {:induction false} TopsAreTops(cats: seq<Category>, rows: seq<Row>)
    ensures NoDuplicates(Tops(cats, rows))
    ensures forall r :: r in rows && r.category.Some? ==> TopOfChain(cats, r.category.value) in Tops(cats, rows)
    ensures forall t :: t in Tops(cats, rows) ==>
              exists r :: r in rows && r.category.Some? && t == TopOfChain(cats, r.category.value)
  {
    if rows != [] {
      TopsAreTops(cats, rows[1..]);
      assert rows == [rows[0]] + rows[1..];
    }
  }

  /** Counting covers: once for the category's own top, and no more iff it lies under no other. */
  lemma {:induction false} TimesCounts(cats: seq<Category>, tops: seq<nat>, c: nat, own: nat)
    requires NoDuplicates(tops) && c in Covered(cats, own, {})
    ensures own in tops ==> Times(Covers(cats, tops), c) >= 1
    ensures Times(Covers(cats, tops), c) == (if own in tops then 1 else 0)
            <==> forall t :: t in tops && c in Covered(cats, t, {}) ==> t == own
    decreases |tops|
  {
    if tops != [] {
      TimesCounts(cats, tops[1..], c, own);
      TimesStep(cats, tops, c);
      assert forall t :: t in tops <==> t == tops[0] || t in tops[1..];
    }
  }

  lemma TimesStep(cats: seq<Category>, tops: seq<nat>, c: nat)
    requires tops != []
    ensures Times(Covers(cats, tops), c)
         == (if c in Covered(cats, tops[0], {}) then 1 else 0) + Times(Covers(cats, tops[1..]), c)
  {
    assert Covers(cats, tops)[1..] == Covers(cats, tops[1..]);
  }

  /** Every categorised row is placed under its own top, and once only iff its climb passes no
      other row's top. */
  lemma RowIsPlaced(cats: seq<Category>, rows: seq<Row>, r: Row)
    requires UniqueIds(cats) && r in rows && r.category.Some? && r.category.value in Ids(cats)
    ensures TimesOf(Covers(cats, Tops(cats, rows)), r) >= 1
    ensures TimesOf(Covers(cats, Tops(cats, rows)), r) == 1
            <==> forall t :: t in Tops(cats, rows) && t in Passed(cats, r.category.value, {r.category.value})
                             ==> t == TopOfChain(cats, r.category.value)
  {
    var c := r.category.value;
    var own := TopOfChain(cats, c);
    TopsAreTops(cats, rows);
    var path := WholeClimb(cats, c);
    forall t ensures c in Covered(cats, t, {}) <==> t in Passed(cats, c, {c}) {
      CoveredIffPassed(cats, c, t);
    }
    assert own in path;
    TimesCounts(cats, Tops(cats, rows), c, own);
  }

  /** Counting the rows placed: none is lost, and none is repeated iff each is placed once. */
  lemma {:induction false} PlacedAtLeastOnce(covers: seq<set<nat>>, rows: seq<Row>)
    requires forall r :: r in rows && r.category.Some? ==> TimesOf(covers, r) >= 1
    ensures TallyPlaced(covers, rows).count + |Filed(rows, None)| >= |rows|
    ensures TallyPlaced(covers, rows).count + |Filed(rows, None)| == |rows|
            <==> forall r :: r in rows && r.category.Some? ==> TimesOf(covers, r) == 1
    decreases |rows|
  {
    if rows != [] {
      PlacedAtLeastOnce(covers, rows[1..]);
      ScaleCount(TimesOf(covers, rows[0]), TallyRow(rows[0]));
      FiledStep(rows);
      HeadOrTail(rows);
    }
  }

  lemma FiledStep(rows: seq<Row>)
    requires rows != []
    ensures Filed(rows, None) == (if rows[0].category.None? then [rows[0]] else []) + Filed(rows[1..], None)
  {
  }

  lemma {:induction false} ScaleCount(n: nat, t: Tally)
    requires t.count == 1
    ensures Scale(n, t).count == n
  {
    if n != 0 {
      ScaleCount(n - 1, t);
    }
  }

  lemma {:induction false} PlacedExactlyOnce(covers: seq<set<nat>>, rows: seq<Row>)
    requires forall r :: r in rows && r.category.Some? ==> TimesOf(covers, r) == 1
    ensures Add(TallyPlaced(covers, rows), TallyRows(Filed(rows, None))) == TallyRows(rows)
    decreases |rows|
  {
    if rows == [] {
      AddNothing(NOTHING);
    } else {
      PlacedExactlyOnce(covers, rows[1..]);
      var row, placed, loose := TallyRow(rows[0]), TallyPlaced(covers, rows[1..]), TallyRows(Filed(rows[1..], None));
      if rows[0].category.Some? {
        assert rows[0] in rows;
        AddNothing(row);
        assert Scale(1, row) == Add(row, Scale(0, row));
        AddAssociates(row, placed, loose);
        assert Filed(rows, None) == Filed(rows[1..], None);
      } else {
        AddNothing(placed);
        AddSwaps(placed, row, loose);
        assert Filed(rows, None)[1..] == Filed(rows[1..], None);
      }
    }
  }

  /** Every row lands in the branch; the branch holds exactly the rows (each one leaf, with their
      money and number) if and only if no row's climb passes another row's top. */
  lemma BranchConservesIff(nm: Naming, cats: seq<Category>, rows: seq<Row>, name: string, uncategorised: string)
    requires UniqueIds(cats) && CategoriesKnown(cats, rows)
    ensures CategoryBranch(nm, cats, rows, name, uncategorised).Count() >= |rows|
    ensures CategoryBranch(nm, cats, rows, name, uncategorised).Count() == |rows| <==> OwnTopOnly(cats, rows)
    ensures TallyNode(CategoryBranch(nm, cats, rows, name, uncategorised)) == TallyRows(rows)
            <==> OwnTopOnly(cats, rows)
  {
    var covers := Covers(cats, Tops(cats, rows));
    BranchHolds(nm, cats, rows, name, uncategorised);
    forall r | r in rows && r.category.Some?
      ensures TimesOf(covers, r) >= 1
      ensures TimesOf(covers, r) == 1
              <==> forall t :: t in Tops(cats, rows) && t in Passed(cats, r.category.value, {r.category.value})
                               ==> t == TopOfChain(cats, r.category.value)
    {
      RowIsPlaced(cats, rows, r);
    }
    PlacedAtLeastOnce(covers, rows);
    CountRows(rows);
    CountRows(Filed(rows, None));
    if forall r :: r in rows && r.category.Some? ==> TimesOf(covers, r) == 1 {
      PlacedExactlyOnce(covers, rows);
    }
  }

  // ----- acyclic forests -----

  /** No climb returns to where it started. */
  ghost predicate Acyclic(cats: seq<Category>) {
    forall path :: IsPath(cats, path) && |path| > 1 ==> path[0] != Last(path)
  }

  /** On an acyclic forest a climb that is stuck has reached a category below a root, or a root,
      or a parent that is not in the table. */
  lemma StuckOnlyAtTheTop(cats: seq<Category>, path: seq<nat>)
    requires Acyclic(cats) && IsClimb(cats, path) && IsStuck(cats, path)
    ensures IsTop(cats, Last(path))
  {
    var parent := Parent(cats, Last(path));
    if parent.Some? && parent.value in path {
      var i :| 0 <= i < |path| && path[i] == parent.value;
      var loop := path[i..] + [parent.value];
      assert IsPath(cats, loop);
      assert loop[0] == Last(loop);
    }
  }

  predicate IsTop(cats: seq<Category>, id: nat) {
    var parent := Parent(cats, id);
    parent.None? || IsRoot(cats, parent.value) || parent.value !in Ids(cats)
  }

  /** A climb holds no top but its own. */
  lemma OnlyTopOnPath(cats: seq<Category>, path: seq<nat>, t: nat)
    requires IsClimb(cats, path) && t in path && IsTop(cats, t)
    ensures t == Last(path)
  {
    var i :| 0 <= i < |path| && path[i] == t;
    if i < |path| - 1 {
      assert Parent(cats, path[i]) == Some(path[i + 1]);
      NoRootInside(cats, path, i + 1);
    }
  }

  lemma AcyclicMeansOwnTopOnly(cats: seq<Category>, rows: seq<Row>)
    requires Acyclic(cats) && CategoriesKnown(cats, rows)
    ensures OwnTopOnly(cats, rows)
  {
    forall r, t | r in rows && r.category.Some? && t in Tops(cats, rows)
                  && t in Passed(cats, r.category.value, {r.category.value})
      ensures t == TopOfChain(cats, r.category.value)
    {
      TopsAreTops(cats, rows);
      var other :| other in rows && other.category.Some? && t == TopOfChain(cats, other.category.value);
      var path := WholeClimb(cats, other.category.value);
      StuckOnlyAtTheTop(cats, path);
      var own := WholeClimb(cats, r.category.value);
      assert t in Elements(own);
      OnlyTopOnPath(cats, own, t);
    }
  }

  /** On an acyclic forest, rows filed on roots included, each row is exactly one leaf of the
      branch and the branch's figures are the rows' sum and number. */
  lemma AcyclicBranchConserves(nm: Naming, cats: seq<Category>, rows: seq<Row>, name: string, uncategorised: string)
    requires UniqueIds(cats) && CategoriesKnown(cats, rows) && Acyclic(cats)
    ensures TallyNode(CategoryBranch(nm, cats, rows, name, uncategorised)) == TallyRows(rows)
  {
    AcyclicMeansOwnTopOnly(cats, rows);
    BranchConservesIff(nm, cats, rows, name, uncategorised);
  }

  /** Two categories that are each other's parent, with a row in each: both become tops, and the
      branch counts more rows than there are. */
  lemma TwoCycleCountsTwice(nm: Naming, a: Category, b: Category, r: Row, q: Row, name: string, uncategorised: string)
    requires a.id != b.id && a.parent == Some(b.id) && b.parent == Some(a.id)
    requires r.category == Some(a.id) && q.category == Some(b.id)
    ensures CategoryBranch(nm, [a, b], [r, q], name, uncategorised).Count() > 2
  {
    var cats, rows := [a, b], [r, q];
    assert Find(cats, a.id) == Some(a) && Find(cats, b.id) == Some(b);
    assert Ids(cats) == {a.id, b.id};
    ClimbsRoundTheCycle(cats, a.id, b.id);
    ClimbsRoundTheCycle(cats, b.id, a.id);
    TopsAreTops(cats, rows);
    assert r in rows && q in rows;
    assert a.id in Tops(cats, rows) && a.id in Passed(cats, a.id, {a.id});
    BranchConservesIff(nm, cats, rows, name, uncategorised);
  }

  lemma ClimbsRoundTheCycle(cats: seq<Category>, a: nat, b: nat)
    requires a in Ids(cats) && b in Ids(cats) && a != b
    requires Parent(cats, a) == Some(b) && Parent(cats, b) == Some(a)
    ensures TopOfChain(cats, a) == b && Passed(cats, a, {a}) == {a, b}
  {
    assert !IsRoot(cats, a) && !IsRoot(cats, b);
    assert ClimbToTop(cats, b, {a} + {b}) == b;
    assert Passed(cats, b, {a} + {b}) == {a} + {b};
  }

  // ----- every node sums its children -----

  lemma {:induction false} CategoryNodeWellSummed(nm: Naming, cats: seq<Category>, rows: seq<Row>, id: nat,
                                                  ancestry: set<nat>)
    requires id in Ids(cats)
    ensures var n := CategoryNode(nm, cats, rows, id, ancestry); n.Some? ==> WellSummed(n.value)
    decreases Ids(cats) - ancestry, 1, 0
  {
    if id !in ancestry {
      var kids := if IsRoot(cats, id) then [] else ChildrenOf(cats, id);
      ChildItemsWellSummed(nm, cats, rows, kids, ancestry + {id});
      GroupItemsWellSummed(ByMerchant(nm), Filed(rows, Some(id)), Keys(MerchantKey(nm), Filed(rows, Some(id))));
      var items := ChildItems(nm, cats, rows, kids, ancestry + {id}) + MerchantNodes(nm, Filed(rows, Some(id)));
      SumBranchWellSummed(Find(cats, id).value.name, items);
    }
  }

  lemma {:induction false} ChildItemsWellSummed(nm: Naming, cats: seq<Category>, rows: seq<Row>, kids: seq<nat>,
                                                ancestry: set<nat>)
    ensures ItemsWellSummed(ChildItems(nm, cats, rows, kids, ancestry))
    decreases Ids(cats) - ancestry, 2, |kids|
  {
    if kids != [] {
      ChildItemsWellSummed(nm, cats, rows, kids[1..], ancestry);
      if kids[0] in Ids(cats) {
        CategoryNodeWellSummed(nm, cats, rows, kids[0], ancestry);
      }
    }
  }

  /** On any parent map, every node of the branch sums its children. */
  lemma BranchIsWellSummed(nm: Naming, cats: seq<Category>, rows: seq<Row>, name: string, uncategorised: string)
    ensures WellSummed(CategoryBranch(nm, cats, rows, name, uncategorised))
  {
    var loose := Filed(rows, None);
    var items := TopItems(nm, cats, rows, Tops(cats, rows));
    ChildItemsWellSummed(nm, cats, rows, Tops(cats, rows), {});
    if loose == [] {
      SumBranchWellSummed(name, items);
    } else {
      GroupItemsWellSummed(ByMerchant(nm), loose, Keys(MerchantKey(nm), loose));
      SumBranchWellSummed(uncategorised, MerchantNodes(nm, loose));
      var item := NodeItem(SumBranch(uncategorised, MerchantNodes(nm, loose)), "cat:none");
      SumBranchWellSummed(name, items + [item]);
    }
  }

  // ----- labels, omitted nodes, order -----

  lemma {:induction false} KidsPopulated(nm: Naming, cats: seq<Category>, rows: seq<Row>, kids: seq<nat>,
                                         ancestry: set<nat>)
    ensures Populated(ChildItems(nm, cats, rows, kids, ancestry))
    decreases Ids(cats) - ancestry, 2, |kids|
  {
    if kids != [] {
      KidsPopulated(nm, cats, rows, kids[1..], ancestry);
      if kids[0] in Ids(cats) {
        NodePopulated(nm, cats, rows, kids[0], ancestry);
      }
    }
  }

  lemma {:induction false} NodePopulated(nm: Naming, cats: seq<Category>, rows: seq<Row>, id: nat, ancestry: set<nat>)
    requires id in Ids(cats)
    ensures var n := CategoryNode(nm, cats, rows, id, ancestry); n.Some? ==> n.value.Count() > 0
    decreases Ids(cats) - ancestry, 1, 0
  {
    if id !in ancestry {
      var kids := if IsRoot(cats, id) then [] else ChildrenOf(cats, id);
      var own := Filed(rows, Some(id));
      KidsPopulated(nm, cats, rows, kids, ancestry + {id});
      GroupsPopulated(ByMerchant(nm), own, Keys(MerchantKey(nm), own));
      var items := ChildItems(nm, cats, rows, kids, ancestry + {id}) + MerchantNodes(nm, own);
      PopulatedCount(items);
      SortedTally(items);
    }
  }

  /** A category is omitted exactly if it and what it covers hold no rows. */
  lemma OmittedIffEmpty(nm: Naming, cats: seq<Category>, rows: seq<Row>, id: nat, ancestry: set<nat>)
    requires UniqueIds(cats) && id in Ids(cats)
    ensures CategoryNode(nm, cats, rows, id, ancestry).None? <==> RowsIn(rows, Covered(cats, id, ancestry)) == []
  {
    NodeHoldsCovered(nm, cats, rows, id, ancestry);
    NodePopulated(nm, cats, rows, id, ancestry);
    CountRows(RowsIn(rows, Covered(cats, id, ancestry)));
  }

  /** The item a top gives, if any. */
  function TopItem(nm: Naming, cats: seq<Category>, rows: seq<Row>, top: nat): Option<NodeItem> {
    var node := if top in Ids(cats) then CategoryNode(nm, cats, rows, top, {}) else None;
    if node.Some? then Some(NodeItem(node.value, "cat:" + Decimal(top))) else None
  }

  lemma {:induction false} TopItemsAre(nm: Naming, cats: seq<Category>, rows: seq<Row>, tops: seq<nat>, item: NodeItem)
    ensures item in TopItems(nm, cats, rows, tops) <==>
              exists t :: t in tops && TopItem(nm, cats, rows, t) == Some(item)
    decreases |tops|
  {
    if tops != [] {
      TopItemsAre(nm, cats, rows, tops[1..], item);
      var head := TopItem(nm, cats, rows, tops[0]);
      assert TopItems(nm, cats, rows, tops) == (if head.Some? then [head.value] else [])
               + TopItems(nm, cats, rows, tops[1..]);
      assert tops[0] in tops;
      if item in TopItems(nm, cats, rows, tops) && head != Some(item) {
        var t :| t in tops[1..] && TopItem(nm, cats, rows, t) == Some(item);
        assert t in tops;
      }
    }
  }

  lemma KeyTellsTop(nm: Naming, cats: seq<Category>, rows: seq<Row>, s: nat, t: nat)
    requires TopItem(nm, cats, rows, s).Some? && TopItem(nm, cats, rows, t).Some?
    requires TopItem(nm, cats, rows, s).value.key == TopItem(nm, cats, rows, t).value.key
    ensures s == t
  {
    assert ("cat:" + Decimal(s))[4..] == Decimal(s) && ("cat:" + Decimal(t))[4..] == Decimal(t);
    DecimalInjective(s, t);
  }

  lemma {:induction false} TopItemsDiffer(nm: Naming, cats: seq<Category>, rows: seq<Row>, tops: seq<nat>)
    requires NoDuplicates(tops)
    ensures NoDuplicates(TopItems(nm, cats, rows, tops))
    decreases |tops|
  {
    if tops != [] {
      var rest := TopItems(nm, cats, rows, tops[1..]);
      TopItemsDiffer(nm, cats, rows, tops[1..]);
      var head := TopItem(nm, cats, rows, tops[0]);
      if head.Some? {
        TopItemsAre(nm, cats, rows, tops[1..], head.value);
        assert head.value !in rest by {
          if t :| t in tops[1..] && TopItem(nm, cats, rows, t) == head {
            KeyTellsTop(nm, cats, rows, tops[0], t);
          }
        }
      }
    }
  }

  /** The tops come as a Python set: whatever its iteration order, the branch's sorted children, with
      the uncategorised node among them, are the same. */
  lemma TopOrderDoesNotMatter(nm: Naming, cats: seq<Category>, rows: seq<Row>, tops: seq<nat>, others: seq<nat>,
                              loose: seq<NodeItem>)
    requires NoDuplicates(tops) && NoDuplicates(others) && forall t :: t in tops <==> t in others
    requires |loose| <= 1 && forall item :: item in loose ==> item.key == "cat:none"
    ensures SortedNodes(TopItems(nm, cats, rows, tops) + loose) == SortedNodes(TopItems(nm, cats, rows, others) + loose)
  {
    var xs, ys := TopItems(nm, cats, rows, tops), TopItems(nm, cats, rows, others);
    ItemLeIsAnOrder();
    TopItemsDiffer(nm, cats, rows, tops);
    TopItemsDiffer(nm, cats, rows, others);
    forall item ensures item in xs <==> item in ys {
      TopItemsAre(nm, cats, rows, tops, item);
      TopItemsAre(nm, cats, rows, others, item);
    }
    DuplicateFreeMultiset(xs);
    DuplicateFreeMultiset(ys);
    assert multiset(xs + loose) == multiset(ys + loose);
    forall x, y | x in xs + loose && y in xs + loose && ItemLe(x, y) && ItemLe(y, x) ensures x == y {
      StringLeTotal(x.node.Label(), y.node.Label());
      StringLeTotal(x.key, y.key);
      SameKeySameItem(nm, cats, rows, tops, loose, x, y);
    }
    SortDependsOnElementsOnly(ItemLe, xs + loose, ys + loose);
  }

  lemma SameKeySameItem(nm: Naming, cats: seq<Category>, rows: seq<Row>, tops: seq<nat>, loose: seq<NodeItem>,
                        x: NodeItem, y: NodeItem)
    requires |loose| <= 1 && forall item :: item in loose ==> item.key == "cat:none"
    requires x in TopItems(nm, cats, rows, tops) + loose && y in TopItems(nm, cats, rows, tops) + loose
    requires x.key == y.key
    ensures x == y
  {
    var items := TopItems(nm, cats, rows, tops);
    assert (x in items || x in loose) && (y in items || y in loose);
    if x in items && y in items {
      var s := TopBehind(nm, cats, rows, tops, x);
      var t := TopBehind(nm, cats, rows, tops, y);
      KeyTellsTop(nm, cats, rows, s, t);
    } else if x in items {
      NoTopIsNone(nm, cats, rows, tops, x);
    } else if y in items {
      NoTopIsNone(nm, cats, rows, tops, y);
    }
  }

  lemma TopBehind(nm: Naming, cats: seq<Category>, rows: seq<Row>, tops: seq<nat>, item: NodeItem) returns (top: nat)
    requires item in TopItems(nm, cats, rows, tops)
    ensures TopItem(nm, cats, rows, top) == Some(item)
  {
    TopItemsAre(nm, cats, rows, tops, item);
    top :| top in tops && TopItem(nm, cats, rows, top) == Some(item);
  }

  lemma NoTopIsNone(nm: Naming, cats: seq<Category>, rows: seq<Row>, tops: seq<nat>, item: NodeItem)
    requires item in TopItems(nm, cats, rows, tops)
    ensures item.key != "cat:none"
  {
    var top := TopBehind(nm, cats, rows, tops, item);
    NotNone(item.key, top);
  }

  lemma NotNone(key: string, top: nat)
    requires key == "cat:" + Decimal(top)
    ensures key != "cat:none"
  {
    NumeralEnds(top);
    assert key[|key| - 1] == Digit(top % 10);
    assert "cat:none"[7] == 'e';
  }
}
