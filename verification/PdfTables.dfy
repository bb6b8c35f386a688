/** Header uniquifying and cross-page table grouping (`pdf_importer.py`). */
module PdfTables {
  import opened Wrappers
  import opened Numerals
  import opened Sequences

  type Cell = Option<string>
  type Table = seq<seq<Cell>>

  /** `str.strip` and whitespace folding, about which nothing is assumed. */
  datatype Text = Text(strip: string -> string, fold: string -> string)

  // ----- the header -----

  function Label(tx: Text, cell: Cell): string {
    tx.strip(if cell.Some? then cell.value else "")
  }

  /** The first occurrence of a non-blank label. */
  predicate Keeps(tx: Text, header: seq<Cell>, i: nat)
    requires i < |header|
  {
    && Label(tx, header[i]) != ""
    && forall j :: 0 <= j < i ==> Label(tx, header[j]) != Label(tx, header[i])
  }

  function Placeholder(i: nat): string {
    "Column " + Decimal(i + 1)
  }

  /** The `k`-th spelling tried for a placeholder: itself, then `_2`, `_3`, and so on. */
  function Spelling(value: string, k: nat): string {
    if k <= 1 then value else value + "_" + Decimal(k)
  }

  lemma SpellingsDiffer(value: string, j: nat, k: nat)
    requires 1 <= j < k
    ensures Spelling(value, j) != Spelling(value, k)
  {
    if j > 1 && Spelling(value, j) == Spelling(value, k) {
      assert Decimal(j) == Spelling(value, j)[|value| + 1..];
      assert Decimal(k) == Spelling(value, k)[|value| + 1..];
      DecimalInjective(j, k);
    }
  }

  /** What position `i` starts as: the kept label, or a positional placeholder. */
  function Slot(tx: Text, header: seq<Cell>, i: nat): string
    requires i < |header|
  {
    if Keeps(tx, header, i) then Label(tx, header[i]) else Placeholder(i)
  }

  function Slots(tx: Text, header: seq<Cell>): seq<string> {
    seq(|header|, i requires 0 <= i < |header| => Slot(tx, header, i))
  }

  /** Every other cell of `cells`. */
  predicate TakenBeside(cells: seq<string>, i: nat, s: string) {
    exists j :: 0 <= j < |cells| && j != i && cells[j] == s
  }

  /** Position `i` of the finished header: a kept label is untouched; a placeholder has the first
      spelling free among the finished cells before it and the initial cells after it. */
  ghost predicate Settled(tx: Text, header: seq<Cell>, final: seq<string>, i: nat)
    requires |final| == |header| && i < |header|
  {
    if Keeps(tx, header, i) then final[i] == Label(tx, header[i])
    else
      var beside := final[..i] + Slots(tx, header)[i..];
      exists k :: k >= 1 && final[i] == Spelling(Placeholder(i), k)
                  && !TakenBeside(beside, i, final[i])
                  && forall m :: 1 <= m < k ==> TakenBeside(beside, i, Spelling(Placeholder(i), m))
  }

  ghost predicate Uniquified(tx: Text, header: seq<Cell>, final: seq<string>) {
    |final| == |header| && forall i :: 0 <= i < |header| ==> Settled(tx, header, final, i)
  }

  /** The text of a cell, `""` for none. */
  function TextOf(cell: Cell): string {
    match cell
    case None => ""
    case Some(text) => text
  }

  /** What position `i` of a finished header reads: its own stripped text, if that is not blank and no
      earlier cell has it; otherwise its number's placeholder, or that with a suffix from `_2` on. */
  ghost predicate ReadsRight(tx: Text, header: seq<Cell>, i: nat, cell: string)
    requires i < |header|
  {
    var own := tx.strip(TextOf(header[i]));
    if own != "" && forall j :: 0 <= j < i ==> tx.strip(TextOf(header[j])) != own then cell == own
    else
      var number := "Column " + Decimal(i + 1);
      cell == number || exists k: nat :: k >= 2 && cell == number + "_" + Decimal(k)
  }

  lemma SettledReadsRight(tx: Text, header: seq<Cell>, final: seq<string>, i: nat)
    requires |final| == |header| && i < |header| && Settled(tx, header, final, i)
    ensures ReadsRight(tx, header, i, final[i])
  {
    assert forall j :: 0 <= j <= i ==> Label(tx, header[j]) == tx.strip(TextOf(header[j]));
    if !Keeps(tx, header, i) {
      var k :| k >= 1 && final[i] == Spelling(Placeholder(i), k);
      assert k >= 2 ==> final[i] == "Column " + Decimal(i + 1) + "_" + Decimal(k);
    }
  }

  /** `_uniquify_header`: placeholders are rewritten in place, left to right. */
  method UniquifyHeader(tx: Text, header: seq<Cell>) returns (result: seq<string>)
    ensures Uniquified(tx, header, result)
    ensures NoDuplicates(result)
    ensures forall i :: 0 <= i < |header| ==> ReadsRight(tx, header, i, result[i])
  {
    var final, isPlaceholder := BuildSlots(tx, header);
    for index := 0 to final.Length
      invariant final[index..] == Slots(tx, header)[index..]
      invariant forall i :: 0 <= i < index ==> Settled(tx, header, final[..], i)
    {
      ghost var cells := final[..];
      if isPlaceholder[index] {
        var candidate := FreeSpelling(final, index, final[index]);
        final[index] := candidate;
      }
      SettleNext(tx, header, cells, index, final[index], final[..]);
    }
    result := final[..];
    UniquifiedIsDuplicateFree(tx, header, result);
    forall i | 0 <= i < |header| ensures ReadsRight(tx, header, i, result[i]) {
      SettledReadsRight(tx, header, result, i);
    }
  }

  lemma SettleNext(tx: Text, header: seq<Cell>, cells: seq<string>, index: nat, text: string, after: seq<string>)
    requires |cells| == |header| && index < |header| && after == cells[index := text]
    requires cells[index..] == Slots(tx, header)[index..]
    requires forall i :: 0 <= i < index ==> Settled(tx, header, cells, i)
    requires Keeps(tx, header, index) ==> text == cells[index]
    requires !Keeps(tx, header, index) ==>
               exists k :: k >= 1 && text == Spelling(cells[index], k)
                 && !TakenBeside(cells, index, text)
                 && forall m :: 1 <= m < k ==> TakenBeside(cells, index, Spelling(cells[index], m))
    ensures after[index + 1..] == Slots(tx, header)[index + 1..]
    ensures forall i :: 0 <= i <= index ==> Settled(tx, header, after, i)
  {
    var slots := Slots(tx, header);
    assert cells[index] == cells[index..][0] == slots[index..][0] == slots[index];
    assert cells[index + 1..] == cells[index..][1..] == slots[index + 1..];
    assert after[..index] + slots[index..] == cells;
    forall i | 0 <= i < index ensures Settled(tx, header, after, i) {
      assert Settled(tx, header, cells, i);
      assert after[..i] == cells[..i];
    }
  }

  /** Finished headers have pairwise distinct cells: a placeholder avoids everything settled
      before it and every label still to come. */
  lemma UniquifiedIsDuplicateFree(tx: Text, header: seq<Cell>, final: seq<string>)
    requires Uniquified(tx, header, final)
    ensures NoDuplicates(final)
  {
    var slots := Slots(tx, header);
    forall i, j | 0 <= i < j < |final| ensures final[i] != final[j] {
      assert Settled(tx, header, final, i) && Settled(tx, header, final, j);
      if !Keeps(tx, header, j) {
        var beside := final[..j] + slots[j..];
        assert beside[i] == final[i];
      } else if !Keeps(tx, header, i) {
        var beside := final[..i] + slots[i..];
        assert beside[j] == slots[j] == final[j];
      }
    }
  }

  /** The first loop: kept labels and placeholders. */
  method BuildSlots(tx: Text, header: seq<Cell>) returns (cells: array<string>, isPlaceholder: seq<bool>)
    ensures fresh(cells) && cells[..] == Slots(tx, header)
    ensures |isPlaceholder| == |header| && forall i :: 0 <= i < |header| ==> isPlaceholder[i] == !Keeps(tx, header, i)
  {
    cells, isPlaceholder := new string[|header|], [];
    var kept: seq<string> := [];
    for i := 0 to |header|
      invariant |isPlaceholder| == i && forall j :: 0 <= j < i ==> isPlaceholder[j] == !Keeps(tx, header, j)
      invariant forall j :: 0 <= j < i ==> cells[j] == Slot(tx, header, j)
      invariant forall s :: s in kept <==> s != "" && exists j :: 0 <= j < i && Label(tx, header[j]) == s
    {
      var text := Label(tx, header[i]);
      if text != "" && text !in kept {
        kept := kept + [text];
        cells[i] := text;
        isPlaceholder := isPlaceholder + [false];
      } else {
        cells[i] := "Column " + Decimal(i + 1);
        isPlaceholder := isPlaceholder + [true];
      }
    }
  }

  /** The inner `while`.  It ends by a pigeonhole argument: the spellings are all different and
      each one rejected is the text of another cell. */
  method FreeSpelling(cells: array<string>, index: nat, value: string) returns (candidate: string)
    requires index < cells.Length
    ensures exists k :: k >= 1 && candidate == Spelling(value, k)
              && !TakenBeside(cells[..], index, candidate)
              && forall m :: 1 <= m < k ==> TakenBeside(cells[..], index, Spelling(value, m))
  {
    var suffix := 2;
    candidate := value;
    ghost var texts := set s | s in cells[..];
    ghost var tried: set<string> := {};
    while exists j :: 0 <= j < cells.Length && j != index && candidate == cells[j]
      invariant suffix >= 2 && candidate == Spelling(value, suffix - 1)
      invariant forall m :: 1 <= m < suffix - 1 ==> TakenBeside(cells[..], index, Spelling(value, m))
      invariant tried <= texts && forall s :: s in tried ==> exists m :: 1 <= m < suffix - 1 && s == Spelling(value, m)
      decreases texts - tried
    {
      assert candidate in texts;
      assert candidate !in tried by {
        forall m | 1 <= m < suffix - 1 ensures candidate != Spelling(value, m) {
          SpellingsDiffer(value, m, suffix - 1);
        }
      }
      tried := tried + {candidate};
      candidate := value + "_" + Decimal(suffix);
      suffix := suffix + 1;
    }
  }

  // ----- grouping tables across pages -----

  function FoldedHeader(tx: Text, table: Table): seq<string>
    requires table != []
  {
    seq(|table[0]|, i requires 0 <= i < |table[0]| =>
      tx.fold(if table[0][i].Some? then table[0][i].value else ""))
  }

  predicate HasKey(tx: Text, table: Table, key: seq<string>) {
    table != [] && FoldedHeader(tx, table) == key
  }

  /** The data rows of every table with header `key`, in page order. */
  function RowsOf(tx: Text, tables: seq<Table>, key: seq<string>): Table {
    if tables == [] then []
    else
      var last := tables[|tables| - 1];
      RowsOf(tx, tables[..|tables| - 1], key) + (if HasKey(tx, last, key) then last[1..] else [])
  }

  /** All data rows of all tables. */
  function AllRows(tables: seq<Table>): Table {
    if tables == [] then []
    else
      var last := tables[|tables| - 1];
      AllRows(tables[..|tables| - 1]) + (if last == [] then [] else last[1..])
  }

  /** The header keys of the tables that have one, in page order. */
  function HeaderKeys(tx: Text, tables: seq<Table>): seq<seq<string>> {
    if tables == [] then []
    else
      var last := tables[|tables| - 1];
      HeaderKeys(tx, tables[..|tables| - 1]) + (if last == [] then [] else [FoldedHeader(tx, last)])
  }

  /** The distinct header keys, in order of first appearance. */
  function KeysOf(tx: Text, tables: seq<Table>): seq<seq<string>> {
    Distinct(HeaderKeys(tx, tables))
  }

  /** The header of the first table with header `key`. */
  function FirstHeader(tx: Text, tables: seq<Table>, key: seq<string>): seq<Cell> {
    if tables == [] then []
    else
      var n := |tables| - 1;
      if key !in KeysOf(tx, tables[..n]) && HasKey(tx, tables[n], key) then tables[n][0]
      else FirstHeader(tx, tables[..n], key)
  }

  function Cells(texts: seq<string>): seq<Cell> {
    seq(|texts|, i requires 0 <= i < |texts| => Some(texts[i]))
  }

  /** `row` is `header` made unique. */
  ghost predicate Heads(tx: Text, header: seq<Cell>, row: seq<Cell>) {
    exists h :: Uniquified(tx, header, h) && NoDuplicates(h) && row == Cells(h)
  }

  /** A candidate table: the first table's header, made unique, over all rows of its key. */
  ghost predicate IsCandidate(tx: Text, tables: seq<Table>, key: seq<string>, candidate: Table) {
    && candidate != [] && Heads(tx, FirstHeader(tx, tables, key), candidate[0])
    && candidate[1..] == RowsOf(tx, tables, key)
  }

  /** `groups` holds one candidate for each header key of `tables`. */
  ghost predicate Grouped(tx: Text, tables: seq<Table>, groups: map<seq<string>, Table>) {
    && (forall k :: k in groups <==> k in KeysOf(tx, tables))
    && (forall k :: k in groups ==> IsCandidate(tx, tables, k, groups[k]))
  }

  // ----- which tables belong together -----

  /** Both tables have a header, of as many cells, and each cell folds to the same text. */
  predicate SameHeader(tx: Text, a: Table, b: Table) {
    && a != [] && b != [] && |a[0]| == |b[0]|
    && forall i :: 0 <= i < |a[0]| ==> tx.fold(TextOf(a[0][i])) == tx.fold(TextOf(b[0][i]))
  }

  /** The data rows of the tables with the same header as `like`, in page order. */
  function RowsLike(tx: Text, tables: seq<Table>, like: Table): Table {
    if tables == [] then []
    else (if SameHeader(tx, like, tables[0]) then tables[0][1..] else []) + RowsLike(tx, tables[1..], like)
  }

  lemma SameHeaderIff(tx: Text, a: Table, b: Table)
    requires a != []
    ensures SameHeader(tx, a, b) <==> HasKey(tx, b, FoldedHeader(tx, a))
  {
    if HasKey(tx, b, FoldedHeader(tx, a)) {
      var x, y := FoldedHeader(tx, a), FoldedHeader(tx, b);
      assert x == y;
      forall i | 0 <= i < |a[0]| ensures tx.fold(TextOf(a[0][i])) == tx.fold(TextOf(b[0][i])) {
        assert x[i] == y[i];
      }
    }
    if SameHeader(tx, a, b) {
      assert FoldedHeader(tx, a) == FoldedHeader(tx, b);
    }
  }

  lemma {:induction false} RowsLikeNext(tx: Text, tables: seq<Table>, last: Table, like: Table)
    ensures RowsLike(tx, tables + [last], like)
         == RowsLike(tx, tables, like) + (if SameHeader(tx, like, last) then last[1..] else [])
    decreases |tables|
  {
    var more := tables + [last];
    if tables == [] {
      assert more == [last] && more[0] == last && more[1..] == [];
    } else {
      assert more[0] == tables[0] && more[1..] == tables[1..] + [last];
      RowsLikeNext(tx, tables[1..], last, like);
    }
  }

  lemma {:induction false} RowsOfAreLike(tx: Text, tables: seq<Table>, like: Table)
    requires like != []
    ensures RowsOf(tx, tables, FoldedHeader(tx, like)) == RowsLike(tx, tables, like)
    decreases |tables|
  {
    if tables != [] {
      var n := |tables| - 1;
      assert tables == tables[..n] + [tables[n]];
      RowsOfAreLike(tx, tables[..n], like);
      RowsLikeNext(tx, tables[..n], tables[n], like);
      SameHeaderIff(tx, like, tables[n]);
    }
  }

  function SameBy(tx: Text): (Table, Table) -> bool {
    (a: Table, b: Table) => SameHeader(tx, a, b)
  }

  /** `firsts` are places of tables with a header, in page order. */
  ghost predicate InPageOrder(tables: seq<Table>, firsts: seq<nat>) {
    && (forall i :: 0 <= i < |firsts| ==> firsts[i] < |tables| && tables[firsts[i]] != [])
    && (forall i, j :: 0 <= i < j < |firsts| ==> firsts[i] < firsts[j])
  }

  /** No table before one of them belongs with it. */
  ghost predicate NoneEarlier(same: (Table, Table) -> bool, tables: seq<Table>, firsts: seq<nat>)
    requires InPageOrder(tables, firsts)
  {
    forall i, t: nat :: 0 <= i < |firsts| && t < firsts[i] ==> !same(tables[firsts[i]], tables[t])
  }

  /** The table belongs with one of them. */
  ghost predicate Belongs(same: (Table, Table) -> bool, tables: seq<Table>, firsts: seq<nat>, table: Table)
    requires InPageOrder(tables, firsts)
  {
    exists i: nat :: i < |firsts| && same(tables[firsts[i]], table)
  }

  /** Every table with a header does. */
  ghost predicate EachBelongs(same: (Table, Table) -> bool, tables: seq<Table>, firsts: seq<nat>)
    requires InPageOrder(tables, firsts)
  {
    forall t: nat :: t < |tables| && tables[t] != [] ==> Belongs(same, tables, firsts, tables[t])
  }

  /** `firsts` are the places of the first table of each header, in page order. */
  ghost predicate AreFirsts(same: (Table, Table) -> bool, tables: seq<Table>, firsts: seq<nat>) {
    InPageOrder(tables, firsts) && NoneEarlier(same, tables, firsts) && EachBelongs(same, tables, firsts)
  }

  /** The key is that of the table at `first`, the first one with it. */
  ghost predicate IsFirstWith(tx: Text, tables: seq<Table>, key: seq<string>, first: nat) {
    && first < |tables| && tables[first] != [] && key == FoldedHeader(tx, tables[first])
    && FirstHeader(tx, tables, key) == tables[first][0]
  }

  /** The keys are those of the first tables. */
  ghost predicate KeyedBy(tx: Text, tables: seq<Table>, firsts: seq<nat>) {
    && |firsts| == |KeysOf(tx, tables)|
    && forall i :: 0 <= i < |firsts| ==> IsFirstWith(tx, tables, KeysOf(tx, tables)[i], firsts[i])
  }

  lemma {:induction false} FirstsExist(tx: Text, tables: seq<Table>) returns (firsts: seq<nat>)
    ensures AreFirsts(SameBy(tx), tables, firsts) && KeyedBy(tx, tables, firsts)
    decreases |tables|
  {
    if tables == [] {
      firsts := [];
    } else {
      var n := |tables| - 1;
      var seen, last := tables[..n], tables[n];
      assert tables == seen + [last];
      firsts := FirstsExist(tx, seen);
      KeysGrow(tx, seen, last);
      OneMoreKeyed(tx, seen, last, firsts);
      OneMoreFirsts(tx, seen, last, firsts);
      if last != [] && FoldedHeader(tx, last) !in KeysOf(tx, seen) {
        firsts := firsts + [n];
      }
    }
  }

  lemma OneMoreKeyed(tx: Text, seen: seq<Table>, table: Table, firsts: seq<nat>)
    requires KeyedBy(tx, seen, firsts)
    ensures KeyedBy(tx, seen + [table],
                    if table != [] && FoldedHeader(tx, table) !in KeysOf(tx, seen) then firsts + [|seen|] else firsts)
  {
    KeysGrow(tx, seen, table);
    var keys := KeysOf(tx, seen);
    forall i | 0 <= i < |keys| ensures IsFirstWith(tx, seen + [table], keys[i], firsts[i]) {
      StaysFirstWith(tx, seen, table, keys[i], firsts[i]);
    }
    if table != [] && FoldedHeader(tx, table) !in keys {
      NewFirstWith(tx, seen, table);
    }
  }

  lemma StaysFirstWith(tx: Text, seen: seq<Table>, table: Table, key: seq<string>, first: nat)
    requires IsFirstWith(tx, seen, key, first) && key in KeysOf(tx, seen)
    ensures IsFirstWith(tx, seen + [table], key, first)
  {
    RowsGrow(tx, seen, table, key);
  }

  lemma NewFirstWith(tx: Text, seen: seq<Table>, table: Table)
    requires table != [] && FoldedHeader(tx, table) !in KeysOf(tx, seen)
    ensures IsFirstWith(tx, seen + [table], FoldedHeader(tx, table), |seen|)
  {
    RowsGrow(tx, seen, table, FoldedHeader(tx, table));
  }

  lemma OneMoreFirsts(tx: Text, seen: seq<Table>, table: Table, firsts: seq<nat>)
    requires AreFirsts(SameBy(tx), seen, firsts) && KeyedBy(tx, seen, firsts)
    ensures AreFirsts(SameBy(tx), seen + [table],
                      if table != [] && FoldedHeader(tx, table) !in KeysOf(tx, seen) then firsts + [|seen|] else firsts)
  {
    var keys := KeysOf(tx, seen);
    if table == [] {
      NoNewFirst(SameBy(tx), seen, table, firsts);
    } else if FoldedHeader(tx, table) in keys {
      var i :| 0 <= i < |keys| && keys[i] == FoldedHeader(tx, table);
      SameHeaderIff(tx, seen[firsts[i]], table);
      assert SameBy(tx)(seen[firsts[i]], table);
      NoNewFirst(SameBy(tx), seen, table, firsts);
    } else {
      NoneSeenAlike(tx, seen, table);
      SameHeaderIff(tx, table, table);
      NewFirst(SameBy(tx), seen, table, firsts);
    }
  }

  lemma NoNewFirst(same: (Table, Table) -> bool, seen: seq<Table>, table: Table, firsts: seq<nat>)
    requires AreFirsts(same, seen, firsts)
    requires table != [] ==> Belongs(same, seen, firsts, table)
    ensures AreFirsts(same, seen + [table], firsts)
  {
    StillEarliest(same, seen, table, firsts);
    BelongAsBefore(same, seen, table, firsts);
  }

  lemma StillEarliest(same: (Table, Table) -> bool, seen: seq<Table>, table: Table, firsts: seq<nat>)
    requires InPageOrder(seen, firsts) && NoneEarlier(same, seen, firsts)
    ensures InPageOrder(seen + [table], firsts) && NoneEarlier(same, seen + [table], firsts)
  {
    var all := seen + [table];
    assert forall t: nat :: t < |seen| ==> all[t] == seen[t];
  }

  lemma BelongAsBefore(same: (Table, Table) -> bool, seen: seq<Table>, table: Table, firsts: seq<nat>)
    requires InPageOrder(seen, firsts) && EachBelongs(same, seen, firsts) && InPageOrder(seen + [table], firsts)
    requires table != [] ==> Belongs(same, seen, firsts, table)
    ensures EachBelongs(same, seen + [table], firsts)
  {
    var all := seen + [table];
    forall t: nat | t < |all| && all[t] != [] ensures Belongs(same, all, firsts, all[t]) {
      StillBelongs(same, seen, table, firsts, firsts, all[t]);
    }
  }

  lemma StillBelongs(same: (Table, Table) -> bool, seen: seq<Table>, table: Table, firsts: seq<nat>, more: seq<nat>,
                     x: Table)
    requires InPageOrder(seen, firsts) && Belongs(same, seen, firsts, x)
    requires InPageOrder(seen + [table], more) && |firsts| <= |more| && more[..|firsts|] == firsts
    ensures Belongs(same, seen + [table], more, x)
  {
    var i: nat :| i < |firsts| && same(seen[firsts[i]], x);
    assert more[i] == more[..|firsts|][i];
    assert (seen + [table])[more[i]] == seen[firsts[i]];
  }

  lemma NewFirst(same: (Table, Table) -> bool, seen: seq<Table>, table: Table, firsts: seq<nat>)
    requires AreFirsts(same, seen, firsts) && table != [] && same(table, table)
    requires forall t: nat :: t < |seen| ==> !same(table, seen[t])
    ensures AreFirsts(same, seen + [table], firsts + [|seen|])
  {
    NewIsEarliest(same, seen, table, firsts);
    NewFoundsItself(same, seen, table, firsts);
  }

  lemma NewIsEarliest(same: (Table, Table) -> bool, seen: seq<Table>, table: Table, firsts: seq<nat>)
    requires InPageOrder(seen, firsts) && NoneEarlier(same, seen, firsts) && table != []
    requires forall t: nat :: t < |seen| ==> !same(table, seen[t])
    ensures InPageOrder(seen + [table], firsts + [|seen|])
    ensures NoneEarlier(same, seen + [table], firsts + [|seen|])
  {
    var all, more := seen + [table], firsts + [|seen|];
    forall i, t: nat | 0 <= i < |more| && t < more[i] ensures !same(all[more[i]], all[t]) {
      assert all[t] == seen[t];
      if i < |firsts| {
        assert all[more[i]] == seen[firsts[i]];
      }
    }
  }

  lemma NewFoundsItself(same: (Table, Table) -> bool, seen: seq<Table>, table: Table, firsts: seq<nat>)
    requires InPageOrder(seen, firsts) && EachBelongs(same, seen, firsts) && table != [] && same(table, table)
    requires InPageOrder(seen + [table], firsts + [|seen|])
    ensures EachBelongs(same, seen + [table], firsts + [|seen|])
  {
    var all, more := seen + [table], firsts + [|seen|];
    forall t: nat | t < |all| && all[t] != [] ensures Belongs(same, all, more, all[t]) {
      if t == |seen| {
        assert all[more[|firsts|]] == table;
      } else {
        StillBelongs(same, seen, table, firsts, more, seen[t]);
      }
    }
  }

  lemma NoneSeenAlike(tx: Text, seen: seq<Table>, table: Table)
    requires table != [] && FoldedHeader(tx, table) !in KeysOf(tx, seen)
    ensures forall t: nat :: t < |seen| ==> !SameHeader(tx, table, seen[t])
  {
    forall t: nat | t < |seen| ensures !SameHeader(tx, table, seen[t]) {
      SameHeaderIff(tx, table, seen[t]);
      if HasKey(tx, seen[t], FoldedHeader(tx, table)) {
        KeyIsSeen(tx, seen, t);
      }
    }
  }

  lemma {:induction false} KeyIsSeen(tx: Text, tables: seq<Table>, t: nat)
    requires t < |tables| && tables[t] != []
    ensures FoldedHeader(tx, tables[t]) in KeysOf(tx, tables)
    decreases |tables|
  {
    var n := |tables| - 1;
    assert tables == tables[..n] + [tables[n]];
    KeysGrow(tx, tables[..n], tables[n]);
    if t < n {
      KeyIsSeen(tx, tables[..n], t);
    }
  }

  /** The candidate that the table at `first` opens: its header, made unique, over the data rows of all
      tables with the same header. */
  ghost predicate IsCandidateOf(tx: Text, tables: seq<Table>, first: Table, candidate: Table)
    requires first != []
  {
    && candidate != [] && Heads(tx, first[0], candidate[0])
    && candidate[1..] == RowsLike(tx, tables, first)
  }

  /** `group_tables_by_header`. */
  method GroupTablesByHeader(tx: Text, tables: seq<Table>) returns (result: seq<Table>, ghost firsts: seq<nat>)
    ensures |result| == |KeysOf(tx, tables)|
    ensures forall i :: 0 <= i < |result| ==> IsCandidate(tx, tables, KeysOf(tx, tables)[i], result[i])
    ensures |firsts| == |result| && AreFirsts(SameBy(tx), tables, firsts)
    ensures forall i :: 0 <= i < |result| ==> IsCandidateOf(tx, tables, tables[firsts[i]], result[i])
  {
    var groups, order := GroupInOrder(tx, tables);
    result := seq(|order|, i requires 0 <= i < |order| && order[i] in groups => groups[order[i]]);
    firsts := FirstsExist(tx, tables);
    CandidatesOfFirsts(tx, tables, firsts, result);
  }

  /** The groups, and their keys in order of first appearance. */
  method GroupInOrder(tx: Text, tables: seq<Table>) returns (groups: map<seq<string>, Table>, order: seq<seq<string>>)
    ensures order == KeysOf(tx, tables) && Grouped(tx, tables, groups)
  {
    groups, order := map[], [];
    for t := 0 to |tables|
      invariant order == KeysOf(tx, tables[..t]) && Grouped(tx, tables[..t], groups)
    {
      assert tables[..t + 1] == tables[..t] + [tables[t]];
      groups, order := AddTable(tx, tables[..t], tables[t], groups, order);
    }
    assert tables[..|tables|] == tables;
  }

  lemma CandidatesOfFirsts(tx: Text, tables: seq<Table>, firsts: seq<nat>, result: seq<Table>)
    requires KeyedBy(tx, tables, firsts) && |result| == |firsts|
    requires forall i :: 0 <= i < |result| ==> IsCandidate(tx, tables, KeysOf(tx, tables)[i], result[i])
    ensures forall i :: 0 <= i < |result| ==> IsCandidateOf(tx, tables, tables[firsts[i]], result[i])
  {
    forall i | 0 <= i < |result| ensures IsCandidateOf(tx, tables, tables[firsts[i]], result[i]) {
      RowsOfAreLike(tx, tables, tables[firsts[i]]);
      assert IsCandidate(tx, tables, KeysOf(tx, tables)[i], result[i]);
    }
  }

  /** One turn: a table opens its group if it is the first with its header, and adds its data rows. */
  method AddTable(tx: Text, ghost seen: seq<Table>, table: Table, groups: map<seq<string>, Table>,
                  order: seq<seq<string>>)
      returns (grown: map<seq<string>, Table>, keys: seq<seq<string>>)
    requires order == KeysOf(tx, seen) && Grouped(tx, seen, groups)
    ensures keys == KeysOf(tx, seen + [table]) && Grouped(tx, seen + [table], grown)
  {
    KeysGrow(tx, seen, table);
    grown, keys := groups, order;
    if table == [] {
      OthersStay(tx, seen, table, groups);
      return;
    }
    var key := FoldedHeader(tx, table);
    if key !in grown {
      var header := UniquifyHeader(tx, table[0]);
      grown, keys := grown[key := [Cells(header)]], keys + [key];
      NewCandidate(tx, seen, table, header);
    } else {
      StaysCandidate(tx, seen, table, key, groups[key]);
    }
    grown := grown[key := grown[key] + table[1..]];
    OthersStay(tx, seen, table, groups);
  }

  lemma KeysGrow(tx: Text, seen: seq<Table>, table: Table)
    ensures KeysOf(tx, seen + [table]) ==
              if table == [] || FoldedHeader(tx, table) in KeysOf(tx, seen) then KeysOf(tx, seen)
              else KeysOf(tx, seen) + [FoldedHeader(tx, table)]
    ensures AllRows(seen + [table]) == AllRows(seen) + (if table == [] then [] else table[1..])
  {
    var more := seen + [table];
    assert more[..|seen|] == seen && more[|more| - 1] == table;
    if table != [] {
      DistinctNext(HeaderKeys(tx, seen), FoldedHeader(tx, table));
    } else {
      assert HeaderKeys(tx, more) == HeaderKeys(tx, seen);
    }
  }

  lemma RowsGrow(tx: Text, seen: seq<Table>, table: Table, k: seq<string>)
    ensures RowsOf(tx, seen + [table], k) == RowsOf(tx, seen, k) + (if HasKey(tx, table, k) then table[1..] else [])
    ensures FirstHeader(tx, seen + [table], k) ==
              if k !in KeysOf(tx, seen) && HasKey(tx, table, k) then table[0] else FirstHeader(tx, seen, k)
  {
    var more := seen + [table];
    assert more[..|seen|] == seen && more[|more| - 1] == table;
  }

  /** The candidates of the other headers are as they were. */
  lemma OthersStay(tx: Text, seen: seq<Table>, table: Table, groups: map<seq<string>, Table>)
    requires Grouped(tx, seen, groups)
    ensures forall k :: k in groups && !HasKey(tx, table, k) ==> IsCandidate(tx, seen + [table], k, groups[k])
  {
    forall k | k in groups && !HasKey(tx, table, k) ensures IsCandidate(tx, seen + [table], k, groups[k]) {
      StaysCandidate(tx, seen, table, k, groups[k]);
    }
  }

  lemma NewCandidate(tx: Text, seen: seq<Table>, table: Table, header: seq<string>)
    requires table != [] && FoldedHeader(tx, table) !in KeysOf(tx, seen)
    requires Uniquified(tx, table[0], header) && NoDuplicates(header)
    ensures IsCandidate(tx, seen + [table], FoldedHeader(tx, table), [Cells(header)] + table[1..])
  {
    var candidate := [Cells(header)] + table[1..];
    RowsGrow(tx, seen, table, FoldedHeader(tx, table));
    AbsentKeyHasNoRows(tx, seen, FoldedHeader(tx, table));
    assert candidate[1..] == table[1..] && candidate[0] == Cells(header);
  }

  /** One more table adds its data rows to its own candidate and leaves the others alone. */
  lemma StaysCandidate(tx: Text, seen: seq<Table>, table: Table, key: seq<string>, candidate: Table)
    requires key in KeysOf(tx, seen) && IsCandidate(tx, seen, key, candidate)
    ensures !HasKey(tx, table, key) ==> IsCandidate(tx, seen + [table], key, candidate)
    ensures HasKey(tx, table, key) ==> IsCandidate(tx, seen + [table], key, candidate + table[1..])
  {
    RowsGrow(tx, seen, table, key);
    if HasKey(tx, table, key) {
      assert (candidate + table[1..])[1..] == candidate[1..] + table[1..];
    }
  }

  lemma {:induction false} AbsentKeyHasNoRows(tx: Text, tables: seq<Table>, key: seq<string>)
    requires key !in KeysOf(tx, tables)
    ensures RowsOf(tx, tables, key) == []
    decreases |tables|
  {
    if tables != [] {
      var seen, last := tables[..|tables| - 1], tables[|tables| - 1];
      assert tables == seen + [last];
      KeysGrow(tx, seen, last);
      AbsentKeyHasNoRows(tx, seen, key);
    }
  }

  // ----- every row exactly once -----

  /** The rows of the keys `keys[..n]`, group after group. */
  function GroupedRows(tx: Text, tables: seq<Table>, keys: seq<seq<string>>): Table {
    if keys == [] then []
    else GroupedRows(tx, tables, keys[..|keys| - 1]) + RowsOf(tx, tables, keys[|keys| - 1])
  }

  lemma {:induction false} OneMoreTable(tx: Text, seen: seq<Table>, table: Table, keys: seq<seq<string>>)
    requires NoDuplicates(keys)
    ensures multiset(GroupedRows(tx, seen + [table], keys)) ==
            multiset(GroupedRows(tx, seen, keys))
            + (if table != [] && FoldedHeader(tx, table) in keys then multiset(table[1..]) else multiset{})
  {
    if keys != [] {
      var n := |keys| - 1;
      OneMoreTable(tx, seen, table, keys[..n]);
      RowsGrow(tx, seen, table, keys[n]);
      LastOrEarlier(keys);
    }
  }

  lemma LastOrEarlier(keys: seq<seq<string>>)
    requires NoDuplicates(keys) && keys != []
    ensures forall k :: k in keys <==> k in keys[..|keys| - 1] || k == keys[|keys| - 1]
    ensures keys[|keys| - 1] !in keys[..|keys| - 1]
  {
  }

  /** Grouping loses and duplicates nothing: the groups' rows together are all data rows. */
  lemma {:induction false} GroupingConservesRows(tx: Text, tables: seq<Table>)
    ensures multiset(GroupedRows(tx, tables, KeysOf(tx, tables))) == multiset(AllRows(tables))
  {
    if tables != [] {
      var seen, last := tables[..|tables| - 1], tables[|tables| - 1];
      assert tables == seen + [last];
      GroupingConservesRows(tx, seen);
      OneMoreTableConserves(tx, seen, last);
    }
  }

  lemma OneMoreTableConserves(tx: Text, seen: seq<Table>, table: Table)
    requires multiset(GroupedRows(tx, seen, KeysOf(tx, seen))) == multiset(AllRows(seen))
    ensures multiset(GroupedRows(tx, seen + [table], KeysOf(tx, seen + [table]))) == multiset(AllRows(seen + [table]))
  {
    KeysGrow(tx, seen, table);
    DistinctHolds(HeaderKeys(tx, seen));
    OneMoreTable(tx, seen, table, KeysOf(tx, seen));
    if table != [] && FoldedHeader(tx, table) !in KeysOf(tx, seen) {
      NewKeyRows(tx, seen, table);
    }
  }

  lemma NewKeyRows(tx: Text, seen: seq<Table>, table: Table)
    requires table != [] && FoldedHeader(tx, table) !in KeysOf(tx, seen)
    ensures var keys := KeysOf(tx, seen);
            GroupedRows(tx, seen + [table], keys + [FoldedHeader(tx, table)])
            == GroupedRows(tx, seen + [table], keys) + table[1..]
  {
    var keys, key := KeysOf(tx, seen), FoldedHeader(tx, table);
    RowsGrow(tx, seen, table, key);
    AbsentKeyHasNoRows(tx, seen, key);
    assert (keys + [key])[..|keys|] == keys;
    assert RowsOf(tx, seen + [table], key) == [] + table[1..] == table[1..];
  }
}
