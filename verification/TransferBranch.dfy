/** The transfers branch of the drill-down tree (`reporting.py`). */
module TransferBranch {
  import opened Wrappers
  import opened Numerals
  import opened Sequences
  import opened Sorting
  import opened DrillNodes

  /** A confirmed transfer: its pair's id, the debit's day, both accounts with their names, the amount. */
  datatype Move = Move(pair: nat, day: string, from: nat, to: nat, source: string, target: string, amount: int)

  /** The names a group of moves goes by. */
  datatype Ends = Ends(source: string, target: string)

  /** The days `start` to `end`, and the accounts in scope, `None` for all. */
  datatype Scope = Scope(start: string, end: string, accounts: Accounts)

  datatype Accounts = All | These(ids: set<nat>)

  predicate InScope(scope: Scope, m: Move) {
    && StringLe(scope.start, m.day) && StringLe(m.day, scope.end)
    && (scope.accounts.These? ==> m.from in scope.accounts.ids || m.to in scope.accounts.ids)
  }

  function EndsOf(m: Move): Ends {
    Ends(m.source, m.target)
  }

  function RowOfMove(m: Move): Row {
    Row(m.pair, m.day, m.amount, None, "")
  }

  /** The moves in scope, in order. */
  function Scoped(scope: Scope, moves: seq<Move>): seq<Move> {
    if moves == [] then [] else (if InScope(scope, moves[0]) then [moves[0]] else []) + Scoped(scope, moves[1..])
  }

  function MoveRows(moves: seq<Move>): seq<Row> {
    Map(RowOfMove, moves)
  }

  /** The names of the move behind a row. */
  function EndsById(moves: seq<Move>, id: nat): Ends {
    if moves == [] then Ends("", "") else if moves[0].pair == id then EndsOf(moves[0]) else EndsById(moves[1..], id)
  }

  function RouteKey(moves: seq<Move>): Row -> Ends {
    (r: Row) => EndsById(moves, r.id)
  }

  /** The least id among the rows. */
  function LeastId(rows: seq<Row>): nat {
    if rows == [] then 0
    else if |rows| == 1 || rows[0].id <= LeastId(rows[1..]) then rows[0].id
    else LeastId(rows[1..])
  }

  /** One node for the moves between two account names, titled by `caption`. */
  function ByRoute(moves: seq<Move>, caption: Ends -> string): Grouping<Ends> {
    Grouping(RouteKey(moves), (ends: Ends, _: seq<Row>) => caption(ends),
             (_: Ends, rows: seq<Row>) => "pairgrp:" + Decimal(LeastId(rows)), "move:")
  }

  function RouteNodes(moves: seq<Move>, caption: Ends -> string): seq<NodeItem> {
    GroupNodes(ByRoute(moves, caption), MoveRows(moves))
  }

  /** `_transfers_branch`. */
  function TransfersBranch(scope: Scope, moves: seq<Move>, name: string, caption: Ends -> string): Node {
    SumBranch(name, RouteNodes(Scoped(scope, moves), caption))
  }

  // ----- what the branch holds -----

  /** The moves in scope: the debit's day in the period, and some account of the two in scope. */
  lemma {:induction false} ScopedAre(scope: Scope, moves: seq<Move>, m: Move)
    ensures m in Scoped(scope, moves) <==>
              && m in moves && StringLe(scope.start, m.day) && StringLe(m.day, scope.end)
              && (scope.accounts == All || m.from in scope.accounts.ids || m.to in scope.accounts.ids)
    ensures multiset(Scoped(scope, moves))[m] == if m in Scoped(scope, moves) then multiset(moves)[m] else 0
  {
    if moves != [] {
      ScopedAre(scope, moves[1..], m);
      assert moves == [moves[0]] + moves[1..];
    }
  }

  /** Each move in scope is exactly one leaf, whatever the names are, and every node sums its children. */
  lemma TransfersHold(scope: Scope, moves: seq<Move>, name: string, caption: Ends -> string)
    ensures TallyNode(TransfersBranch(scope, moves, name, caption)) == TallyRows(MoveRows(Scoped(scope, moves)))
    ensures WellSummed(TransfersBranch(scope, moves, name, caption))
  {
    var chosen := Scoped(scope, moves);
    var group := ByRoute(chosen, caption);
    BranchTally(name, RouteNodes(chosen, caption));
    GroupNodesTally(group, MoveRows(chosen));
    GroupItemsWellSummed(group, MoveRows(chosen), Keys(group.key, MoveRows(chosen)));
    SumBranchWellSummed(name, RouteNodes(chosen, caption));
  }

  /** Pair ids are a primary key. */
  ghost predicate PairsUnique(moves: seq<Move>) {
    forall i, j :: 0 <= i < j < |moves| ==> moves[i].pair != moves[j].pair
  }

  /** The moves between two account names, in order. */
  function Between(moves: seq<Move>, ends: Ends): seq<Move> {
    if moves == [] then []
    else (if moves[0].source == ends.source && moves[0].target == ends.target then [moves[0]] else [])
         + Between(moves[1..], ends)
  }

  lemma {:induction false} EndsFound(moves: seq<Move>, m: Move)
    requires PairsUnique(moves) && m in moves
    ensures EndsById(moves, m.pair) == EndsOf(m)
    decreases |moves|
  {
    if moves[0] != m {
      var i :| 0 <= i < |moves| && moves[i] == m;
      assert moves[0].pair != moves[i].pair && moves[1..][i - 1] == m;
      EndsFound(moves[1..], m);
    }
  }

  lemma {:induction false} RouteRows(all: seq<Move>, moves: seq<Move>, ends: Ends)
    requires PairsUnique(all) && forall m :: m in moves ==> m in all
    ensures Having(RouteKey(all), MoveRows(moves), ends) == MoveRows(Between(moves, ends))
    decreases |moves|
  {
    if moves != [] {
      var rest := moves[1..];
      EndsFound(all, moves[0]);
      RouteRows(all, rest, ends);
      assert MoveRows(moves)[0] == RowOfMove(moves[0]) && MoveRows(moves)[1..] == MoveRows(rest);
      if EndsOf(moves[0]) == ends {
        var more := [moves[0]] + Between(rest, ends);
        assert more[0] == moves[0] && more[1..] == Between(rest, ends);
      } else {
        assert Between(moves, ends) == Between(rest, ends);
      }
    }
  }

  function LeafOfMove(m: Move): Node {
    Leaf(m.pair, m.day, m.amount)
  }

  /** The node of two names: one leaf a move between them. */
  ghost predicate IsRoute(n: Node, moves: seq<Move>, source: string, target: string, caption: Ends -> string) {
    && n.Branch? && n.title == caption(Ends(source, target))
    && n.size == |Between(moves, Ends(source, target))|
    && multiset(n.children) == multiset(Map(LeafOfMove, Between(moves, Ends(source, target))))
  }

  /** Each move in scope is in the node of its two names, which holds exactly the moves between them. */
  lemma OneNodeARoute(scope: Scope, moves: seq<Move>, name: string, caption: Ends -> string, m: Move)
    requires PairsUnique(Scoped(scope, moves)) && m in Scoped(scope, moves)
    ensures var branch := TransfersBranch(scope, moves, name, caption);
            && branch.Branch? && branch.title == name
            && exists n :: n in branch.children
                           && IsRoute(n, Scoped(scope, moves), m.source, m.target, caption)
  {
    var chosen, ends := Scoped(scope, moves), Ends(m.source, m.target);
    var g, rows := ByRoute(chosen, caption), MoveRows(chosen);
    var group := MoveRows(Between(chosen, ends));
    RouteRows(chosen, chosen, ends);
    InBetween(chosen, m);
    var i :| 0 <= i < |chosen| && chosen[i] == m;
    assert rows[i] == RowOfMove(m);
    EndsFound(chosen, m);
    KeysCover(g.key, rows);
    assert g.key(rows[i]) in Keys(g.key, rows);
    GroupIsAnItem(g, rows, Keys(g.key, rows), ends);
    ItemIsAChild(name, RouteNodes(chosen, caption), NodeItem(GroupNode(g, ends, group), g.tag(ends, group)));
    NodeIsRoute(chosen, ends, caption);
  }

  lemma {:induction false} InBetween(moves: seq<Move>, m: Move)
    requires m in moves
    ensures m in Between(moves, Ends(m.source, m.target))
  {
    if m != moves[0] {
      InBetween(moves[1..], m);
    }
  }

  lemma NodeIsRoute(moves: seq<Move>, ends: Ends, caption: Ends -> string)
    ensures IsRoute(GroupNode(ByRoute(moves, caption), ends, MoveRows(Between(moves, ends))), moves, ends.source,
                    ends.target, caption)
  {
    var between := Between(moves, ends);
    LeavesAre("move:", MoveRows(between));
    assert Map(LeafOf, MoveRows(between)) == Map(LeafOfMove, between);
  }

  // ----- a move belongs to one period -----

  lemma ScopedOne(scope: Scope, moves: seq<Move>)
    requires moves != []
    ensures TallyRows(MoveRows(Scoped(scope, moves))) ==
            if InScope(scope, moves[0])
            then Add(TallyRow(RowOfMove(moves[0])), TallyRows(MoveRows(Scoped(scope, moves[1..]))))
            else TallyRows(MoveRows(Scoped(scope, moves[1..])))
  {
    var chosen, rest := Scoped(scope, moves), Scoped(scope, moves[1..]);
    if InScope(scope, moves[0]) {
      assert chosen[0] == moves[0] && chosen[1..] == rest;
      assert MoveRows(chosen)[0] == RowOfMove(moves[0]) && MoveRows(chosen)[1..] == MoveRows(rest);
    } else {
      assert chosen == rest;
    }
  }

  /** `second` begins after `first` ends, and no move falls between the two. */
  ghost predicate Adjoining(first: Scope, second: Scope, moves: seq<Move>) {
    && first.accounts == second.accounts && StringLe(first.start, second.start) && StringLe(first.end, second.end)
    && forall m :: m in moves ==> (StringLe(m.day, first.end) <==> !StringLe(second.start, m.day))
  }

  function Joined(first: Scope, second: Scope): Scope {
    Scope(first.start, second.end, first.accounts)
  }

  lemma OneSideOnly(first: Scope, second: Scope, moves: seq<Move>, m: Move)
    requires Adjoining(first, second, moves) && m in moves
    ensures InScope(Joined(first, second), m) <==> InScope(first, m) || InScope(second, m)
    ensures !(InScope(first, m) && InScope(second, m))
  {
    if StringLe(m.day, first.end) {
      StringLeTransitive(m.day, first.end, second.end);
    } else {
      StringLeTransitive(first.start, second.start, m.day);
    }
  }

  /** Cutting a period in two puts each move into the branch of one part: the parts hold what the whole does. */
  lemma {:induction false} PartsAddUp(first: Scope, second: Scope, moves: seq<Move>)
    requires Adjoining(first, second, moves)
    ensures Add(TallyRows(MoveRows(Scoped(first, moves))), TallyRows(MoveRows(Scoped(second, moves))))
         == TallyRows(MoveRows(Scoped(Joined(first, second), moves)))
    decreases |moves|
  {
    if moves == [] {
      AddNothing(NOTHING);
    } else {
      var a := TallyRows(MoveRows(Scoped(first, moves[1..])));
      var b := TallyRows(MoveRows(Scoped(second, moves[1..])));
      var row := TallyRow(RowOfMove(moves[0]));
      PartsAddUp(first, second, moves[1..]);
      OneSideOnly(first, second, moves, moves[0]);
      ScopedOne(first, moves);
      ScopedOne(second, moves);
      ScopedOne(Joined(first, second), moves);
      AddAssociates(row, a, b);
      AddSwaps(a, row, b);
    }
  }

  /** So a transfer shows in exactly one period's tree, that of its debit. */
  lemma PeriodsAddUp(first: Scope, second: Scope, moves: seq<Move>, name: string, caption: Ends -> string)
    requires Adjoining(first, second, moves)
    ensures Add(TallyNode(TransfersBranch(first, moves, name, caption)),
                TallyNode(TransfersBranch(second, moves, name, caption)))
         == TallyNode(TransfersBranch(Joined(first, second), moves, name, caption))
  {
    TransfersHold(first, moves, name, caption);
    TransfersHold(second, moves, name, caption);
    TransfersHold(Joined(first, second), moves, name, caption);
    PartsAddUp(first, second, moves);
  }
}
