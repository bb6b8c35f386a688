/** The Standard Bank balance chain (`standard_bank.py`), families A, B, D and E.

    A region line is modelled as already classified: an opening anchor, a row with its printed
    amount, sign and balance, a continuation line, or furniture.  Money is integer minor units. */
module BalanceChain {
  import opened Wrappers

  const MAX_ROWS: nat := 100_000
  const MAX_AMOUNT: int := 0x7FFF_FFFF_FFFF_FFFF

  datatype Family = A | B | D | E

  /** What became of a row's printed date; only family A infers years. */
  datatype RowDate = Dated(day: int) | NotADate | NoYear

  datatype Line =
    | Blank
    | Boilerplate
    | Continuation(text: string)
    | Anchor(balance: int)
    | Row(amount: nat, negative: bool, balance: int, date: RowDate, description: string)
    | Garbled                     // looks like a row but does not match its family's grammar

  datatype Refusal =
    | TooManyRows | Misparse | NoOpening | AmountMismatch | SignMismatch | UnplacedYear
    | UnreadableMoneyRow | NoClosing | TooLarge | DoesNotAddUp | TotalsMismatch

  /** A row that passed the per-row gate: the balance delta is its signed amount. */
  datatype Entry = Entry(delta: int, date: RowDate, pieces: seq<string>)

  datatype Item = Draft(row: nat, day: int, amount: int, pieces: seq<string>) | RowError(row: nat)

  // ----- folding -----

  predicate IsRowLine(line: Line) {
    line.Anchor? || line.Row? || line.Garbled?
  }

  datatype Group = Group(line: Line, continuation: seq<string>)

  /** The continuation lines up to the next row line. */
  function Texts(lines: seq<Line>): seq<string> {
    if lines == [] || IsRowLine(lines[0]) then []
    else (if lines[0].Continuation? then [lines[0].text] else []) + Texts(lines[1..])
  }

  /** Each row line with the continuation lines that follow it. */
  function Fold(lines: seq<Line>): seq<Group> {
    if lines == [] then []
    else if IsRowLine(lines[0]) then [Group(lines[0], Texts(lines[1..]))] + Fold(lines[1..])
    else Fold(lines[1..])
  }

  /** `_fold`: one pass, each continuation appended to the last group. */
  method FoldLines(lines: seq<Line>) returns (groups: seq<Group>)
    ensures groups == Fold(lines)
  {
    groups := [];
    for k := 0 to |lines|
      invariant Fold(lines) == Resumed(groups, lines[k..])
    {
      var line, rest := lines[k], lines[k + 1..];
      assert lines[k..] == [line] + rest;
      assert ([line] + rest)[1..] == rest;
      if IsRowLine(line) {
        ResumeAtRow(groups, line, rest);
        groups := groups + [Group(line, [])];
      } else if line.Continuation? && groups != [] {
        var last := groups[|groups| - 1];
        ResumeAtText(groups, line, rest);
        groups := groups[|groups| - 1 := last.(continuation := last.continuation + [line.text])];
      } else {
        assert [] + Texts(rest) == Texts(rest);
      }
    }
    assert lines[|lines|..] == [];
    assert groups != [] ==> groups[|groups| - 1].continuation + [] == groups[|groups| - 1].continuation;
  }

  /** The finished groups when `groups` are open and `lines` are still to come. */
  ghost function Resumed(groups: seq<Group>, lines: seq<Line>): seq<Group> {
    (if groups == [] then []
     else var last := groups[|groups| - 1];
          groups[|groups| - 1 := last.(continuation := last.continuation + Texts(lines))])
    + Fold(lines)
  }

  lemma ResumeAtRow(groups: seq<Group>, line: Line, rest: seq<Line>)
    requires IsRowLine(line)
    ensures Resumed(groups, [line] + rest) == Resumed(groups + [Group(line, [])], rest)
  {
    assert ([line] + rest)[1..] == rest;
    assert [] + Texts(rest) == Texts(rest);
    if groups != [] {
      var last := groups[|groups| - 1];
      assert last.continuation + [] == last.continuation;
    }
  }

  lemma ResumeAtText(groups: seq<Group>, line: Line, rest: seq<Line>)
    requires line.Continuation? && groups != []
    ensures var last := groups[|groups| - 1];
            Resumed(groups, [line] + rest)
            == Resumed(groups[|groups| - 1 := last.(continuation := last.continuation + [line.text])], rest)
  {
    assert ([line] + rest)[1..] == rest;
    var last := groups[|groups| - 1];
    assert last.continuation + ([line.text] + Texts(rest)) == last.continuation + [line.text] + Texts(rest);
  }

  // ----- the per-row gate -----

  function Abs(x: int): nat {
    if x < 0 then -x else x
  }

  /** `_verify_row`: magnitude, and direction where the family prints a sign (all but B). */
  function VerifyRow(family: Family, row: Line, delta: int): Option<Refusal>
    requires row.Row?
  {
    if Abs(delta) != row.amount then Some(AmountMismatch)
    else if family != B && row.negative != (delta < 0) then Some(SignMismatch)
    else None
  }

  predicate Named(pieces: seq<string>) {
    exists i :: 0 <= i < |pieces| && pieces[i] != ""
  }

  /** `parse_transaction` rejects the row. */
  predicate Rejected(e: Entry) {
    !Named(e.pieces) || !e.date.Dated? || e.delta == 0 || Abs(e.delta) > MAX_AMOUNT
  }

  /** A rejected row that moved money refuses the whole statement. */
  predicate Unreadable(e: Entry) {
    Rejected(e) && e.delta != 0
  }

  function EntryOf(g: Group, prev: int): Entry
    requires g.line.Row?
  {
    Entry(g.line.balance - prev, g.line.date, [g.line.description] + g.continuation)
  }

  /** The chain from running balance `prev`: every anchor must repeat it, every row must move it
      by its own amount.  All families but A also draft each row on the way. */
  function Walk(family: Family, prev: Option<int>, groups: seq<Group>): Result<seq<Entry>, Refusal>
    decreases |groups|
  {
    if groups == [] then Returned([])
    else
      var line, rest := groups[0].line, groups[1..];
      match line
      case Anchor(balance) =>
        if prev.Some? && balance != prev.value then Raised(Misparse) else Walk(family, Some(balance), rest)
      case Row(_, _, balance, _, _) =>
        if prev.None? then Raised(NoOpening)
        else
          var e := EntryOf(groups[0], prev.value);
          var bad := VerifyRow(family, line, e.delta);
          if bad.Some? then Raised(bad.value)
          else if family != A && Unreadable(e) then Raised(UnreadableMoneyRow)
          else (match Walk(family, Some(balance), rest)
                case Raised(x) => Raised(x)
                case Returned(es) => Returned([e] + es))
      case _ => Raised(Misparse)
  }

  /** `_draft` over the staged rows: money-free rejects become row errors. */
  function Drafts(row: nat, entries: seq<Entry>): Result<seq<Item>, Refusal>
    decreases |entries|
  {
    if entries == [] then Returned([])
    else
      var e := entries[0];
      if Unreadable(e) then Raised(UnreadableMoneyRow)
      else
        var item := if Rejected(e) then RowError(row) else Draft(row, e.date.day, e.delta, e.pieces);
        match Drafts(row + 1, entries[1..])
        case Raised(x) => Raised(x)
        case Returned(items) => Returned([item] + items)
  }

  function ParseRows(family: Family, lines: seq<Line>): Result<seq<Item>, Refusal> {
    match Walk(family, None, Fold(lines))
    case Raised(x) => Raised(x)
    case Returned(entries) =>
      if family == A && exists e :: e in entries && e.date.NoYear? then Raised(UnplacedYear)
      else Drafts(1, entries)
  }

  ghost function Prepend(entries: seq<Entry>, r: Result<seq<Entry>, Refusal>): Result<seq<Entry>, Refusal> {
    match r case Raised(x) => Raised(x) case Returned(es) => Returned(entries + es)
  }

  /** `_parse_family_a/b/d/e`: the loop over the groups, carrying the running balance. */
  method ParseFamily(family: Family, lines: seq<Line>) returns (r: Result<seq<Item>, Refusal>)
    ensures r == ParseRows(family, lines)
  {
    var groups := FoldLines(lines);
    var prev: Option<int>, staged: seq<Entry> := None, [];
    assert groups[0..] == groups;
    NothingPrepended(Walk(family, None, groups));
    for k := 0 to |groups|
      invariant Walk(family, None, groups) == Prepend(staged, Walk(family, prev, groups[k..]))
    {
      assert groups[k..][1..] == groups[k + 1..];
      match groups[k].line {
        case Anchor(balance) =>
          if prev.Some? && balance != prev.value {
            return Raised(Misparse);
          }
          prev := Some(balance);
        case Row(_, _, balance, _, _) =>
          if prev.None? {
            return Raised(NoOpening);
          }
          var entry := EntryOf(groups[k], prev.value);
          var bad := VerifyRow(family, groups[k].line, entry.delta);
          if bad.Some? {
            return Raised(bad.value);
          }
          if family != A && Unreadable(entry) {
            return Raised(UnreadableMoneyRow);
          }
          PrependOne(staged, entry, Walk(family, Some(balance), groups[k + 1..]));
          staged := staged + [entry];
          prev := Some(balance);
        case _ =>
          return Raised(Misparse);
      }
    }
    assert groups[|groups|..] == [] && staged + [] == staged;
    if family == A && exists e :: e in staged && e.date.NoYear? {
      return Raised(UnplacedYear);
    }
    r := Drafts(1, staged);
  }

  lemma NothingPrepended(r: Result<seq<Entry>, Refusal>)
    ensures Prepend([], r) == r
  {
    if r.Returned? {
      assert [] + r.value == r.value;
    }
  }

  lemma PrependOne(staged: seq<Entry>, e: Entry, r: Result<seq<Entry>, Refusal>)
    ensures Prepend(staged + [e], r) ==
            Prepend(staged, match r case Raised(x) => Raised(x) case Returned(es) => Returned([e] + es))
  {
    if r.Returned? {
      assert staged + [e] + r.value == staged + ([e] + r.value);
    }
  }

  // ----- the completeness gates -----

  /** What a document gives: its region lines, the closing figure printed elsewhere, and the
      figures printed on lines that are exactly a Payments or Deposits total. */
  datatype Statement = Statement(family: Family, lines: seq<Line>, closing: Option<int>,
                                 payments: seq<nat>, deposits: seq<nat>)

  datatype Parsed = Parsed(items: seq<Item>, closing: Option<int>)

  /** `_capture_opening`: the first anchor's balance. */
  function Opening(lines: seq<Line>): Option<int> {
    if lines == [] then None
    else if lines[0].Anchor? then Some(lines[0].balance)
    else Opening(lines[1..])
  }

  function SumDrafts(items: seq<Item>): int {
    if items == [] then 0
    else (if items[0].Draft? then items[0].amount else 0) + SumDrafts(items[1..])
  }

  /** The drafts' money out (not positive) and money in (not negative). */
  function MoneyOut(items: seq<Item>): int {
    if items == [] then 0
    else (if items[0].Draft? && items[0].amount < 0 then items[0].amount else 0) + MoneyOut(items[1..])
  }

  function MoneyIn(items: seq<Item>): int {
    if items == [] then 0
    else (if items[0].Draft? && items[0].amount > 0 then items[0].amount else 0) + MoneyIn(items[1..])
  }

  /** `_verify_checksum`: magnitudes for family B, signed for the others. */
  function VerifyChecksum(family: Family, opening: int, items: seq<Item>, closing: Option<int>): Option<Refusal> {
    if closing.None? then (if family == A || family == E then None else Some(NoClosing))
    else if Abs(opening) > MAX_AMOUNT || Abs(closing.value) > MAX_AMOUNT then Some(TooLarge)
    else
      var reconciled := opening + SumDrafts(items);
      if (if family == B then Abs(reconciled) != Abs(closing.value) else reconciled != closing.value)
      then Some(DoesNotAddUp)
      else None
  }

  /** `_verify_e_totals`: each label printed exactly once is checked on its own; the final balance
      is reported only when both are. */
  function VerifyETotals(items: seq<Item>, opening: int, payments: seq<nat>,
                         deposits: seq<nat>): Result<Option<int>, Refusal> {
    if |payments| == 1 && Abs(MoneyOut(items)) != payments[0] then Raised(TotalsMismatch)
    else if |deposits| == 1 && Abs(MoneyIn(items)) != deposits[0] then Raised(TotalsMismatch)
    else if |payments| != 1 || |deposits| != 1 then Returned(None)
    else if Abs(opening) > MAX_AMOUNT then Raised(TooLarge)
    else Returned(Some(opening + SumDrafts(items)))
  }

  /** `StandardBankImporter.parse`, from classified lines on. */
  function Accept(st: Statement): Result<Parsed, Refusal> {
    var closing := if st.family == E then None else st.closing;
    if |st.lines| > MAX_ROWS then Raised(TooManyRows)
    else
      match ParseRows(st.family, st.lines)
      case Raised(x) => Raised(x)
      case Returned(items) =>
        if Opening(st.lines).None? then Raised(NoOpening)
        else
          var bad := VerifyChecksum(st.family, Opening(st.lines).value, items, closing);
          if bad.Some? then Raised(bad.value)
          else if st.family != E then Returned(Parsed(items, closing))
          else
            match VerifyETotals(items, Opening(st.lines).value, st.payments, st.deposits)
            case Raised(x) => Raised(x)
            case Returned(final) => Returned(Parsed(items, final))
  }

  // ----- what an accepted statement guarantees -----

  /** The balance a line leaves. */
  function BalanceAfter(prev: Option<int>, line: Line): Option<int> {
    if line.Anchor? || line.Row? then Some(line.balance) else prev
  }

  /** The running balance after `lines`, starting from `prev`. */
  function FinalBalance(prev: Option<int>, lines: seq<Line>): Option<int>
    decreases |lines|
  {
    if lines == [] then prev else FinalBalance(BalanceAfter(prev, lines[0]), lines[1..])
  }

  function SumDeltas(entries: seq<Entry>): int {
    if entries == [] then 0 else entries[0].delta + SumDeltas(entries[1..])
  }

  /** A row with money becomes a draft of all it says; only a row that moved none is dropped. */
  predicate IsItemOf(item: Item, row: nat, e: Entry) {
    if e.delta == 0 then item == RowError(row) else e.date.Dated? && item == Draft(row, e.date.day, e.delta, e.pieces)
  }

  /** Drafting is faithful: one item per row, in order. */
  lemma {:induction false} DraftsAreFaithful(row: nat, entries: seq<Entry>)
    requires Drafts(row, entries).Returned?
    ensures var items := Drafts(row, entries).value;
            && |items| == |entries|
            && SumDrafts(items) == SumDeltas(entries)
            && forall i :: 0 <= i < |items| ==> IsItemOf(items[i], row + i, entries[i])
    decreases |entries|
  {
    if entries != [] {
      var items, rest := Drafts(row, entries).value, Drafts(row + 1, entries[1..]).value;
      DraftsAreFaithful(row + 1, entries[1..]);
      assert items[1..] == rest;
      forall i | 0 <= i < |items| ensures IsItemOf(items[i], row + i, entries[i]) {
        if i > 0 {
          assert IsItemOf(rest[i - 1], row + i, entries[1..][i - 1]);
        }
      }
    }
  }

  lemma {:induction false} DeltasBridgeTheBalances(family: Family, prev: Option<int>, lines: seq<Line>)
    requires Walk(family, prev, Fold(lines)).Returned?
    ensures var start := if prev.Some? then prev else Opening(lines);
            var es := Walk(family, prev, Fold(lines)).value;
            && FinalBalance(prev, lines).Some? == start.Some?
            && (start.Some? ==> SumDeltas(es) == FinalBalance(prev, lines).value - start.value)
            && (start.None? ==> es == [])
    decreases |lines|
  {
    if lines != [] {
      var line := lines[0];
      if line.Anchor? {
        DeltasBridgeTheBalances(family, Some(line.balance), lines[1..]);
      } else if line.Row? {
        DeltasBridgeTheBalances(family, Some(line.balance), lines[1..]);
      } else {
        DeltasBridgeTheBalances(family, prev, lines[1..]);
      }
    }
  }

  /** Conservation, for every accepted statement of any of the four families: the drafts sum
      exactly to the last running balance minus the opening one.  A family E statement reports
      that last running balance as its closing figure, if it reports one. */
  lemma AcceptedDraftsSpanTheBalances(st: Statement)
    requires Accept(st).Returned?
    ensures Opening(st.lines).Some? && FinalBalance(None, st.lines).Some?
    ensures SumDrafts(Accept(st).value.items) == FinalBalance(None, st.lines).value - Opening(st.lines).value
    ensures st.family == E && Accept(st).value.closing.Some? ==>
              Accept(st).value.closing == FinalBalance(None, st.lines)
  {
    DeltasBridgeTheBalances(st.family, None, st.lines);
    DraftsAreFaithful(1, Walk(st.family, None, Fold(st.lines)).value);
  }

  // ----- the rows, one after another -----

  /** The row at the head of `lines`, staged over running balance `prev`. */
  function HeadEntry(lines: seq<Line>, prev: int): Entry
    requires lines != [] && lines[0].Row?
  {
    EntryOf(Group(lines[0], Texts(lines[1..])), prev)
  }

  /** Nothing about the row itself refuses the statement. */
  predicate Readable(family: Family, e: Entry) {
    !Unreadable(e) && (family == A ==> !e.date.NoYear?)
  }

  /** The per-row conditions, line by line: what `ParseRows` accepts. */
  predicate RowsOk(family: Family, prev: Option<int>, lines: seq<Line>)
    decreases |lines|
  {
    lines == [] ||
    match lines[0]
    case Anchor(balance) => (prev.Some? ==> balance == prev.value) && RowsOk(family, Some(balance), lines[1..])
    case Row(_, _, balance, _, _) =>
      && prev.Some?
      && VerifyRow(family, lines[0], balance - prev.value).None?
      && Readable(family, HeadEntry(lines, prev.value))
      && RowsOk(family, Some(balance), lines[1..])
    case Garbled => false
    case _ => RowsOk(family, prev, lines[1..])
  }

  lemma {:induction false} WalkAccepts(family: Family, prev: Option<int>, lines: seq<Line>)
    ensures RowsOk(family, prev, lines) <==>
              && Walk(family, prev, Fold(lines)).Returned?
              && forall e :: e in Walk(family, prev, Fold(lines)).value ==> Readable(family, e)
    decreases |lines|
  {
    if lines != [] {
      match lines[0] {
        case Anchor(balance) => WalkAccepts(family, Some(balance), lines[1..]);
        case Row(_, _, balance, _, _) =>
          WalkAccepts(family, Some(balance), lines[1..]);
        case Garbled =>
        case _ => WalkAccepts(family, prev, lines[1..]);
      }
    }
  }

  lemma {:induction false} DraftsAccept(row: nat, entries: seq<Entry>)
    ensures Drafts(row, entries).Returned? <==> forall e :: e in entries ==> !Unreadable(e)
    decreases |entries|
  {
    if entries != [] {
      DraftsAccept(row + 1, entries[1..]);
    }
  }

  /** A statement's rows are accepted exactly under the line-by-line conditions. */
  lemma RowsAcceptedIff(family: Family, lines: seq<Line>)
    ensures ParseRows(family, lines).Returned? <==> RowsOk(family, None, lines)
  {
    WalkAccepts(family, None, lines);
    var walked := Walk(family, None, Fold(lines));
    if walked.Returned? {
      DraftsAccept(1, walked.value);
    }
  }

  // ----- acceptance, line by line -----

  /** The running balance line `i` finds, `prev` being that before the first line. */
  function BalanceBefore(prev: Option<int>, lines: seq<Line>, i: nat): Option<int>
    requires i <= |lines|
  {
    if i == 0 then prev
    else if lines[i - 1].Anchor? || lines[i - 1].Row? then Some(lines[i - 1].balance)
    else BalanceBefore(prev, lines, i - 1)
  }

  /** Line `j` is a text line that is not empty, before the next row or anchor. */
  predicate IsText(lines: seq<Line>, j: nat) {
    && j < |lines| && lines[j].Continuation? && lines[j].text != ""
    && forall k :: 0 <= k < j ==> !(lines[k].Anchor? || lines[k].Row? || lines[k].Garbled?)
  }

  predicate HasText(lines: seq<Line>) {
    exists j: nat :: j < |lines| && IsText(lines, j)
  }

  /** The balance moves by the amount printed; family B prints no sign. */
  predicate MovesAsPrinted(family: Family, row: Line, moved: int)
    requires row.Row?
  {
    if family == B then moved == row.amount || moved == -(row.amount as int)
    else if row.negative then moved == -(row.amount as int) && row.amount != 0
    else moved == row.amount
  }

  /** A line over the running balance it finds, with the lines after it: an anchor repeats that balance, a
      row moves it as printed and, if it moved money, can be read. */
  predicate Stands(family: Family, found: Option<int>, line: Line, rest: seq<Line>) {
    && !line.Garbled?
    && (line.Anchor? && found.Some? ==> line.balance == found.value)
    && (line.Row? ==>
          && found.Some? && MovesAsPrinted(family, line, line.balance - found.value)
          && (line.amount != 0 ==>
                line.date.Dated? && line.amount <= 0x7FFF_FFFF_FFFF_FFFF && (line.description != "" || HasText(rest)))
          && (family == A ==> !line.date.NoYear?))
  }

  predicate LineStands(family: Family, prev: Option<int>, lines: seq<Line>, i: nat)
    requires i < |lines|
  {
    Stands(family, BalanceBefore(prev, lines, i), lines[i], lines[i + 1..])
  }

  lemma {:induction false} BalanceBeforeTail(prev: Option<int>, lines: seq<Line>, i: nat)
    requires 0 < i <= |lines|
    ensures BalanceBefore(prev, lines, i) == BalanceBefore(BalanceAfter(prev, lines[0]), lines[1..], i - 1)
  {
    if i > 1 {
      BalanceBeforeTail(prev, lines, i - 1);
      assert lines[1..][i - 2] == lines[i - 1];
    }
  }

  lemma {:induction false} FinalIsBefore(prev: Option<int>, lines: seq<Line>)
    ensures FinalBalance(prev, lines) == BalanceBefore(prev, lines, |lines|)
    decreases |lines|
  {
    if lines != [] {
      FinalIsBefore(BalanceAfter(prev, lines[0]), lines[1..]);
      BalanceBeforeTail(prev, lines, |lines|);
    }
  }

  lemma {:induction false} TextsName(lines: seq<Line>)
    ensures Named(Texts(lines)) <==> HasText(lines)
    decreases |lines|
  {
    if lines != [] && !IsRowLine(lines[0]) {
      TextsName(lines[1..]);
      HasTextHead(lines);
      HeadText(lines);
    }
  }

  lemma HasTextHead(lines: seq<Line>)
    requires lines != [] && !IsRowLine(lines[0])
    ensures HasText(lines) <==> (lines[0].Continuation? && lines[0].text != "") || HasText(lines[1..])
  {
    var rest := lines[1..];
    if lines[0].Continuation? && lines[0].text != "" {
      assert IsText(lines, 0);
    }
    if j: nat :| IsText(rest, j) {
      assert lines[j + 1] == rest[j] && forall k :: 0 < k < j + 1 ==> lines[k] == rest[k - 1];
      assert IsText(lines, j + 1);
    }
    if j: nat :| IsText(lines, j) && j > 0 {
      assert rest[j - 1] == lines[j] && forall k :: 0 <= k < j - 1 ==> rest[k] == lines[k + 1];
      assert IsText(rest, j - 1);
    }
  }

  lemma HeadText(lines: seq<Line>)
    requires lines != [] && !IsRowLine(lines[0])
    ensures Named(Texts(lines)) <==> (lines[0].Continuation? && lines[0].text != "") || Named(Texts(lines[1..]))
  {
    NamedJoin(if lines[0].Continuation? then [lines[0].text] else [], Texts(lines[1..]));
  }

  lemma NamedJoin(xs: seq<string>, ys: seq<string>)
    ensures Named(xs + ys) <==> Named(xs) || Named(ys)
  {
    var all := xs + ys;
    if Named(xs) {
      var i :| 0 <= i < |xs| && xs[i] != "";
      assert all[i] == xs[i];
    }
    if Named(ys) {
      var i :| 0 <= i < |ys| && ys[i] != "";
      assert all[|xs| + i] == ys[i];
    }
  }

  /** What `RowsOk` asks of the first line. */
  lemma HeadStands(family: Family, prev: Option<int>, lines: seq<Line>)
    requires lines != []
    ensures RowsOk(family, prev, lines) <==>
              Stands(family, prev, lines[0], lines[1..]) && RowsOk(family, BalanceAfter(prev, lines[0]), lines[1..])
  {
    if lines[0].Row? && prev.Some? {
      TextsName(lines[1..]);
      NamedJoin([lines[0].description], Texts(lines[1..]));
      assert Named([lines[0].description]) <==> lines[0].description != "" by {
        assert [lines[0].description][0] == lines[0].description;
      }
    }
  }

  /** The rows are accepted exactly if every line stands over the balance it finds. */
  lemma {:induction false} RowsStandIff(family: Family, prev: Option<int>, lines: seq<Line>)
    ensures RowsOk(family, prev, lines) <==> forall i :: 0 <= i < |lines| ==> LineStands(family, prev, lines, i)
    decreases |lines|
  {
    if lines != [] {
      var next, rest := BalanceAfter(prev, lines[0]), lines[1..];
      HeadStands(family, prev, lines);
      RowsStandIff(family, next, rest);
      assert LineStands(family, prev, lines, 0) <==> Stands(family, prev, lines[0], rest);
      forall i | 0 < i < |lines| ensures LineStands(family, prev, lines, i) <==> LineStands(family, next, rest, i - 1) {
        BalanceBeforeTail(prev, lines, i);
        assert rest[i - 1] == lines[i] && rest[i..] == lines[i + 1..];
      }
      if forall i :: 0 <= i < |lines| ==> LineStands(family, prev, lines, i) {
        forall i | 0 <= i < |rest| ensures LineStands(family, next, rest, i) {
          assert LineStands(family, prev, lines, i + 1);
        }
      }
    }
  }

  // ----- what an accepted statement's rows become -----

  function RowsUpTo(lines: seq<Line>, i: nat): nat
    requires i <= |lines|
  {
    if i == 0 then 0 else RowsUpTo(lines, i - 1) + if lines[i - 1].Row? then 1 else 0
  }

  lemma {:induction false} RowsUpToTail(lines: seq<Line>, i: nat)
    requires 0 < i <= |lines|
    ensures RowsUpTo(lines, i) == (if lines[0].Row? then 1 else 0) + RowsUpTo(lines[1..], i - 1)
  {
    if i > 1 {
      RowsUpToTail(lines, i - 1);
      assert lines[1..][i - 2] == lines[i - 1];
    }
  }

  /** Line `i` is read into the entry that counts the rows before it. */
  lemma {:induction false} WalkReads(family: Family, prev: Option<int>, lines: seq<Line>, i: nat)
    requires Walk(family, prev, Fold(lines)).Returned? && i < |lines| && lines[i].Row?
    ensures var es, found := Walk(family, prev, Fold(lines)).value, BalanceBefore(prev, lines, i);
            && found.Some? && RowsUpTo(lines, i) < |es|
            && es[RowsUpTo(lines, i)]
               == Entry(lines[i].balance - found.value, lines[i].date, [lines[i].description] + Texts(lines[i + 1..]))
    decreases |lines|
  {
    if i > 0 {
      var next, rest := BalanceAfter(prev, lines[0]), lines[1..];
      BalanceBeforeTail(prev, lines, i);
      RowsUpToTail(lines, i);
      assert rest[i - 1] == lines[i] && rest[i..] == lines[i + 1..];
      if IsRowLine(lines[0]) {
        assert Fold(lines)[1..] == Fold(rest);
      }
      WalkReads(family, next, rest, i - 1);
    }
  }

  /** Every row of an accepted statement becomes one item, in order: a draft of its day, of what the balance
      moved by and of its text if it moved money, and otherwise a row error. */
  lemma AcceptedItems(st: Statement, i: nat)
    requires Accept(st).Returned? && i < |st.lines| && st.lines[i].Row?
    ensures var items, row := Accept(st).value.items, st.lines[i];
            var found, k := BalanceBefore(None, st.lines, i), RowsUpTo(st.lines, i);
            && found.Some? && k < |items|
            && if row.amount == 0 then items[k] == RowError(k + 1)
               else row.date.Dated? && items[k] == Draft(k + 1, row.date.day, row.balance - found.value,
                                                         [row.description] + Texts(st.lines[i + 1..]))
  {
    WalkReads(st.family, None, st.lines, i);
    DraftsAreFaithful(1, Walk(st.family, None, Fold(st.lines)).value);
    RowsAcceptedIff(st.family, st.lines);
    RowsStandIff(st.family, None, st.lines);
    assert LineStands(st.family, None, st.lines, i);
    assert IsItemOf(Accept(st).value.items[RowsUpTo(st.lines, i)], RowsUpTo(st.lines, i) + 1,
                    Walk(st.family, None, Fold(st.lines)).value[RowsUpTo(st.lines, i)]);
  }

  lemma {:induction false} WalkLength(family: Family, prev: Option<int>, lines: seq<Line>)
    requires Walk(family, prev, Fold(lines)).Returned?
    ensures |Walk(family, prev, Fold(lines)).value| == RowsUpTo(lines, |lines|)
    decreases |lines|
  {
    if lines != [] {
      RowsUpToTail(lines, |lines|);
      if IsRowLine(lines[0]) {
        assert Fold(lines)[1..] == Fold(lines[1..]);
      }
      WalkLength(family, BalanceAfter(prev, lines[0]), lines[1..]);
    }
  }

  // ----- removing rows -----

  /** `gone` marks rows to take away; other lines stay. */
  predicate MarksRows(lines: seq<Line>, gone: seq<bool>) {
    |gone| == |lines| && forall i :: 0 <= i < |lines| && gone[i] ==> lines[i].Row?
  }

  function Remaining(lines: seq<Line>, gone: seq<bool>): seq<Line>
    requires |gone| == |lines|
  {
    if lines == [] then []
    else (if gone[0] then [] else [lines[0]]) + Remaining(lines[1..], gone[1..])
  }

  /** The printed amount with its sign. */
  function Signed(row: Line): int
    requires row.Row?
  {
    if row.negative then -(row.amount as int) else row.amount
  }

  /** Reading down the statement with `net` the total of the removed rows since the last surviving
      row or anchor: whenever a surviving row or anchor ends such a block, the block nets to zero. */
  predicate InnerBlocksNetZero(lines: seq<Line>, gone: seq<bool>, net: int)
    requires MarksRows(lines, gone)
    decreases |lines|
  {
    lines == [] ||
    if gone[0] then InnerBlocksNetZero(lines[1..], gone[1..], net + Signed(lines[0]))
    else if lines[0].Row? || lines[0].Anchor? then net == 0 && InnerBlocksNetZero(lines[1..], gone[1..], 0)
    else InnerBlocksNetZero(lines[1..], gone[1..], net)
  }

  /** The total of the block of removed rows the statement ends with. */
  function LastBlock(lines: seq<Line>, gone: seq<bool>, net: int): int
    requires MarksRows(lines, gone)
    decreases |lines|
  {
    if lines == [] then net
    else if gone[0] then LastBlock(lines[1..], gone[1..], net + Signed(lines[0]))
    else LastBlock(lines[1..], gone[1..], if lines[0].Row? || lines[0].Anchor? then 0 else net)
  }

  /** Only one delta passes the gate of a family that prints signs. */
  lemma GateFixesTheDelta(family: Family, row: Line, delta: int)
    requires family != B && row.Row? && VerifyRow(family, row, delta).None?
    ensures delta == Signed(row)
    ensures forall d :: VerifyRow(family, row, d).None? <==> d == delta
  {
  }

  /** Removing rows only ever hands their continuation lines to an earlier row. */
  lemma {:induction false} TextsKept(lines: seq<Line>, gone: seq<bool>)
    requires MarksRows(lines, gone)
    ensures Texts(lines) <= Texts(Remaining(lines, gone))
    decreases |lines|
  {
    if lines != [] && !IsRowLine(lines[0]) {
      TextsKept(lines[1..], gone[1..]);
      assert Remaining(lines, gone)[1..] == Remaining(lines[1..], gone[1..]);
    }
  }

  lemma TextKept(lines: seq<Line>, gone: seq<bool>)
    requires MarksRows(lines, gone) && HasText(lines)
    ensures HasText(Remaining(lines, gone))
  {
    var before, after := Texts(lines), Texts(Remaining(lines, gone));
    TextsName(lines);
    TextsName(Remaining(lines, gone));
    TextsKept(lines, gone);
    var i :| 0 <= i < |before| && before[i] != "";
    assert after[i] == before[i];
  }

  /** A surviving row stands over another running balance only if that is the one it was printed over, or
      if no sign is printed and it then moves as much the other way. */
  lemma RowSurvives(family: Family, prev: int, rest: int, row: Line, after: seq<Line>, left: seq<Line>)
    requires row.Row? && Stands(family, Some(prev), row, after) && (HasText(after) ==> HasText(left))
    ensures Stands(family, Some(rest), row, left)
            <==> prev - rest == 0 || (family == B && prev - rest == -2 * (row.balance - prev))
  {
  }

  /** The heart of the removal theorem: the original and the remaining statement walked side by
      side, whose running balances differ by the net of the current removed block. */
  lemma {:induction false} RemovalWalk(family: Family, prev: Option<int>, rest: Option<int>, lines: seq<Line>,
                                       gone: seq<bool>)
    requires family != B && MarksRows(lines, gone) && RowsOk(family, prev, lines) && prev.Some? == rest.Some?
    ensures RowsOk(family, rest, Remaining(lines, gone)) <==> InnerBlocksNetZero(lines, gone, NetOf(prev, rest))
    decreases |lines|
  {
    if lines != [] {
      if gone[0] {
        GateFixesTheDelta(family, lines[0], lines[0].balance - prev.value);
        RemovalWalk(family, Some(lines[0].balance), rest, lines[1..], gone[1..]);
        assert Remaining(lines, gone) == Remaining(lines[1..], gone[1..]);
      } else {
        RemovalWalk(family, BalanceAfter(prev, lines[0]), BalanceAfter(rest, lines[0]), lines[1..], gone[1..]);
        SignedHeadStays(family, prev, rest, lines, gone);
      }
    }
  }

  function NetOf(prev: Option<int>, rest: Option<int>): int {
    if prev.Some? && rest.Some? then prev.value - rest.value else 0
  }

  /** The step of the walk at a line that stays. */
  lemma SignedHeadStays(family: Family, prev: Option<int>, rest: Option<int>, lines: seq<Line>, gone: seq<bool>)
    requires family != B && MarksRows(lines, gone) && lines != [] && !gone[0]
    requires RowsOk(family, prev, lines) && prev.Some? == rest.Some?
    requires var next, over := BalanceAfter(prev, lines[0]), BalanceAfter(rest, lines[0]);
             RowsOk(family, over, Remaining(lines[1..], gone[1..])) <==>
               InnerBlocksNetZero(lines[1..], gone[1..], NetOf(next, over))
    ensures RowsOk(family, rest, Remaining(lines, gone)) <==> InnerBlocksNetZero(lines, gone, NetOf(prev, rest))
  {
    var left := Remaining(lines, gone);
    assert left[0] == lines[0] && left[1..] == Remaining(lines[1..], gone[1..]);
    HeadStands(family, prev, lines);
    HeadStands(family, rest, left);
    if lines[0].Row? {
      if HasText(lines[1..]) {
        TextKept(lines[1..], gone[1..]);
      }
      RowSurvives(family, prev.value, rest.value, lines[0], lines[1..], left[1..]);
    }
  }

  lemma {:induction false} RemovalEnd(family: Family, prev: Option<int>, rest: Option<int>, lines: seq<Line>,
                                      gone: seq<bool>)
    requires family != B && MarksRows(lines, gone) && RowsOk(family, prev, lines)
    requires prev.Some? == rest.Some?
    ensures var net, left := if prev.Some? then prev.value - rest.value else 0, Remaining(lines, gone);
            && FinalBalance(prev, lines).Some? == FinalBalance(rest, left).Some?
            && (FinalBalance(prev, lines).Some? ==>
                  FinalBalance(prev, lines).value - FinalBalance(rest, left).value == LastBlock(lines, gone, net))
    decreases |lines|
  {
    if lines != [] {
      var left := Remaining(lines, gone);
      if gone[0] {
        GateFixesTheDelta(family, lines[0], lines[0].balance - prev.value);
        RemovalEnd(family, Some(lines[0].balance), rest, lines[1..], gone[1..]);
        assert left == Remaining(lines[1..], gone[1..]);
      } else {
        assert left[0] == lines[0] && left[1..] == Remaining(lines[1..], gone[1..]);
        RemovalEnd(family, BalanceAfter(prev, lines[0]), BalanceAfter(rest, lines[0]), lines[1..], gone[1..]);
      }
    }
  }

  lemma {:induction false} RemainingBasics(lines: seq<Line>, gone: seq<bool>)
    requires MarksRows(lines, gone)
    ensures |Remaining(lines, gone)| <= |lines|
    ensures Opening(Remaining(lines, gone)) == Opening(lines)
    decreases |lines|
  {
    if lines != [] {
      var left := Remaining(lines, gone);
      RemainingBasics(lines[1..], gone[1..]);
      if gone[0] {
        assert left == Remaining(lines[1..], gone[1..]);
      } else {
        assert left[0] == lines[0] && left[1..] == Remaining(lines[1..], gone[1..]);
      }
    }
  }

  /** Both statements' rows, and the difference their totals show. */
  lemma RemovalChangesTheTotal(st: Statement, gone: seq<bool>)
    requires st.family != B && Accept(st).Returned? && MarksRows(st.lines, gone)
    ensures var left := Remaining(st.lines, gone);
            && |left| <= |st.lines| && Opening(left) == Opening(st.lines) && Opening(left).Some?
            && (ParseRows(st.family, left).Returned? <==> InnerBlocksNetZero(st.lines, gone, 0))
            && (ParseRows(st.family, left).Returned? ==>
                  SumDrafts(ParseRows(st.family, left).value)
                  == SumDrafts(ParseRows(st.family, st.lines).value) - LastBlock(st.lines, gone, 0))
  {
    var left := Remaining(st.lines, gone);
    RemainingBasics(st.lines, gone);
    RowsAcceptedIff(st.family, st.lines);
    RowsAcceptedIff(st.family, left);
    RemovalWalk(st.family, None, None, st.lines, gone);
    RemovalEnd(st.family, None, None, st.lines, gone);
    RowsBridge(st.family, st.lines);
    if ParseRows(st.family, left).Returned? {
      RowsBridge(st.family, left);
    }
  }

  lemma RowsBridge(family: Family, lines: seq<Line>)
    requires ParseRows(family, lines).Returned? && Opening(lines).Some?
    ensures FinalBalance(None, lines).Some?
    ensures SumDrafts(ParseRows(family, lines).value) == FinalBalance(None, lines).value - Opening(lines).value
  {
    DeltasBridgeTheBalances(family, None, lines);
    DraftsAreFaithful(1, Walk(family, None, Fold(lines)).value);
  }

  /** INV-11 for a statement with a printed closing figure (family A printing one, family D): with
      any set of its rows removed, it is accepted exactly when every maximal block of removed rows
      nets to zero, the last one included. */
  lemma RemovalAcceptedIff(st: Statement, gone: seq<bool>)
    requires (st.family == A && st.closing.Some?) || st.family == D
    requires Accept(st).Returned? && MarksRows(st.lines, gone)
    ensures Accept(st.(lines := Remaining(st.lines, gone))).Returned? <==>
              InnerBlocksNetZero(st.lines, gone, 0) && LastBlock(st.lines, gone, 0) == 0
  {
    RemovalChangesTheTotal(st, gone);
  }

  /** Without a printed figure to check against (family A printing none, family E with neither
      total usable) a removed tail goes unnoticed; every other block must still net to zero. */
  lemma RemovalWithoutClosingAcceptedIff(st: Statement, gone: seq<bool>)
    requires (st.family == A && st.closing.None?) || (st.family == E && |st.payments| != 1 && |st.deposits| != 1)
    requires Accept(st).Returned? && MarksRows(st.lines, gone)
    ensures Accept(st.(lines := Remaining(st.lines, gone))).Returned? <==> InnerBlocksNetZero(st.lines, gone, 0)
  {
    RemovalChangesTheTotal(st, gone);
  }

  /** The rows that print money out, and those that print money in. */
  function CarriesOut(): Line -> bool {
    (line: Line) => line.Row? && line.negative && line.amount != 0
  }

  function CarriesIn(): Line -> bool {
    (line: Line) => line.Row? && !line.negative && line.amount != 0
  }

  /** What the rows picked print in all. */
  function Printed(picks: Line -> bool, lines: seq<Line>): nat {
    if lines == [] then 0
    else (if picks(lines[0]) && lines[0].Row? then lines[0].amount else 0) + Printed(picks, lines[1..])
  }

  lemma {:induction false} DraftsCarryPrintedMoney(family: Family, prev: Option<int>, lines: seq<Line>, row: nat)
    requires family != B && Walk(family, prev, Fold(lines)).Returned?
    requires Drafts(row, Walk(family, prev, Fold(lines)).value).Returned?
    ensures MoneyOut(Drafts(row, Walk(family, prev, Fold(lines)).value).value) == -(Printed(CarriesOut(), lines) as int)
    ensures MoneyIn(Drafts(row, Walk(family, prev, Fold(lines)).value).value) == Printed(CarriesIn(), lines)
    decreases |lines|
  {
    if lines != [] {
      match lines[0] {
        case Anchor(balance) => DraftsCarryPrintedMoney(family, Some(balance), lines[1..], row);
        case Row(_, _, balance, _, _) =>
          GateFixesTheDelta(family, lines[0], balance - prev.value);
          var es := Walk(family, prev, Fold(lines)).value;
          assert es[1..] == Walk(family, Some(balance), Fold(lines[1..])).value;
          DraftsCarryPrintedMoney(family, Some(balance), lines[1..], row + 1);
        case Garbled =>
        case _ => DraftsCarryPrintedMoney(family, prev, lines[1..], row);
      }
    }
  }

  // ----- the figures -----

  /** What fits the database's integers. */
  predicate Storable(x: int) {
    -0x7FFF_FFFF_FFFF_FFFF <= x <= 0x7FFF_FFFF_FFFF_FFFF
  }

  /** The printed figures agree with the running balance `last` the rows end at, and with what they print. */
  predicate FiguresAgree(st: Statement, opening: int, last: int) {
    match st.family
    case A => st.closing.Some? ==> Storable(opening) && Storable(st.closing.value) && last == st.closing.value
    case B =>
      && st.closing.Some? && Storable(opening) && Storable(st.closing.value)
      && (last == st.closing.value || last == -st.closing.value)
    case D => st.closing.Some? && Storable(opening) && Storable(st.closing.value) && last == st.closing.value
    case E =>
      && (|st.payments| == 1 ==> st.payments[0] == Printed(CarriesOut(), st.lines))
      && (|st.deposits| == 1 ==> st.deposits[0] == Printed(CarriesIn(), st.lines))
      && (|st.payments| == 1 == |st.deposits| ==> Storable(opening))
  }

  predicate IsFirstAnchor(lines: seq<Line>, o: nat) {
    o < |lines| && lines[o].Anchor? && forall j :: 0 <= j < o ==> !lines[j].Anchor?
  }

  lemma {:induction false} OpeningIsFirstAnchor(lines: seq<Line>)
    ensures Opening(lines).Some? ==> exists o: nat ::
              IsFirstAnchor(lines, o) && Opening(lines).value == lines[o].balance
    ensures Opening(lines).None? ==> forall o :: 0 <= o < |lines| ==> !lines[o].Anchor?
    decreases |lines|
  {
    if lines != [] {
      if lines[0].Anchor? {
        assert IsFirstAnchor(lines, 0);
      } else {
        OpeningIsFirstAnchor(lines[1..]);
        if Opening(lines).Some? {
          var o: nat :| IsFirstAnchor(lines[1..], o) && Opening(lines).value == lines[1..][o].balance;
          assert IsFirstAnchor(lines, o + 1);
        }
      }
    }
  }

  /** A statement is accepted exactly if it is not too long, every line stands over the balance it finds,
      there is an opening balance, and the printed figures agree; what it reports is the printed closing
      balance, or for family E the last running balance if both totals confirm it. */
  lemma AcceptedIff(st: Statement)
    ensures Accept(st).Returned? <==>
              && |st.lines| <= 100_000
              && (forall i :: 0 <= i < |st.lines| ==> LineStands(st.family, None, st.lines, i))
              && exists o: nat :: IsFirstAnchor(st.lines, o) && BalanceBefore(None, st.lines, |st.lines|).Some?
                             && FiguresAgree(st, st.lines[o].balance, BalanceBefore(None, st.lines, |st.lines|).value)
    ensures Accept(st).Returned? ==>
              Accept(st).value.closing == if st.family != E then st.closing
                                          else if |st.payments| == 1 == |st.deposits|
                                          then BalanceBefore(None, st.lines, |st.lines|) else None
  {
    RowsAcceptedIff(st.family, st.lines);
    RowsStandIff(st.family, None, st.lines);
    if ParseRows(st.family, st.lines).Returned? {
      OpeningIsFirstAnchor(st.lines);
      if Opening(st.lines).Some? {
        FiguresDecide(st);
        var o: nat :| IsFirstAnchor(st.lines, o) && Opening(st.lines).value == st.lines[o].balance;
        forall p: nat | IsFirstAnchor(st.lines, p) ensures p == o {
        }
      }
    }
  }

  /** Over rows that parse, behind an opening balance, the figures decide. */
  lemma FiguresDecide(st: Statement)
    requires ParseRows(st.family, st.lines).Returned? && Opening(st.lines).Some?
    ensures BalanceBefore(None, st.lines, |st.lines|).Some?
    ensures Accept(st).Returned? <==>
              && |st.lines| <= MAX_ROWS
              && FiguresAgree(st, Opening(st.lines).value, BalanceBefore(None, st.lines, |st.lines|).value)
    ensures Accept(st).Returned? ==>
              Accept(st).value.closing == if st.family != E then st.closing
                                          else if |st.payments| == 1 == |st.deposits|
                                          then BalanceBefore(None, st.lines, |st.lines|) else None
  {
    RowsBridge(st.family, st.lines);
    FinalIsBefore(None, st.lines);
    if st.family == E {
      DraftsCarryPrintedMoney(E, None, st.lines, 1);
    }
  }

  // ----- which refusal -----

  /** What the per-row gate finds wrong with a line over the balance it finds; rows of family A are read later. */
  function Fault(family: Family, found: Option<int>, line: Line, rest: seq<Line>): Option<Refusal> {
    if line.Garbled? then Some(Misparse)
    else if line.Anchor? then (if found.Some? && line.balance != found.value then Some(Misparse) else None)
    else if !line.Row? then None
    else if found.None? then Some(NoOpening)
    else
      var moved := line.balance - found.value;
      if moved != line.amount && moved != -(line.amount as int) then Some(AmountMismatch)
      else if family != B && line.negative != (moved < 0) then Some(SignMismatch)
      else if family != A && line.amount != 0
              && (!line.date.Dated? || line.amount > 0x7FFF_FFFF_FFFF_FFFF
                   || (line.description == "" && !HasText(rest)))
      then Some(UnreadableMoneyRow)
      else None
  }

  function FaultAt(family: Family, prev: Option<int>, lines: seq<Line>, i: nat): Option<Refusal>
    requires i < |lines|
  {
    Fault(family, BalanceBefore(prev, lines, i), lines[i], lines[i + 1..])
  }

  lemma HeadFault(family: Family, prev: Option<int>, lines: seq<Line>)
    requires lines != []
    ensures var fault := Fault(family, prev, lines[0], lines[1..]);
            var rest := Walk(family, BalanceAfter(prev, lines[0]), Fold(lines[1..]));
            && (fault.Some? ==> Walk(family, prev, Fold(lines)) == Raised(fault.value))
            && (fault.None? ==> Walk(family, prev, Fold(lines)).Raised? == rest.Raised?)
            && (fault.None? && rest.Raised? ==> Walk(family, prev, Fold(lines)).error == rest.error)
  {
    if IsRowLine(lines[0]) {
      assert Fold(lines)[1..] == Fold(lines[1..]);
    }
    if lines[0].Row? && prev.Some? {
      TextsName(lines[1..]);
      NamedJoin([lines[0].description], Texts(lines[1..]));
      assert Named([lines[0].description]) <==> lines[0].description != "" by {
        assert [lines[0].description][0] == lines[0].description;
      }
    }
  }

  /** The first faulty line decides which refusal the rows get. */
  lemma {:induction false} FirstFaultDecides(family: Family, prev: Option<int>, lines: seq<Line>, i: nat)
    requires i < |lines| && FaultAt(family, prev, lines, i).Some?
    requires forall j :: 0 <= j < i ==> FaultAt(family, prev, lines, j).None?
    ensures Walk(family, prev, Fold(lines)) == Raised(FaultAt(family, prev, lines, i).value)
    decreases |lines|
  {
    var next, rest := BalanceAfter(prev, lines[0]), lines[1..];
    HeadFault(family, prev, lines);
    if i > 0 {
      assert FaultAt(family, prev, lines, 0).None?;
      forall j | 0 < j <= i ensures FaultAt(family, prev, lines, j) == FaultAt(family, next, rest, j - 1) {
        BalanceBeforeTail(prev, lines, j);
        assert rest[j - 1] == lines[j] && rest[j..] == lines[j + 1..];
      }
      forall j | 0 <= j < i - 1 ensures FaultAt(family, next, rest, j).None? {
        assert FaultAt(family, prev, lines, j + 1).None?;
      }
      FirstFaultDecides(family, next, rest, i - 1);
    }
  }

  lemma {:induction false} NoFaultWalks(family: Family, prev: Option<int>, lines: seq<Line>)
    requires forall i :: 0 <= i < |lines| ==> FaultAt(family, prev, lines, i).None?
    ensures Walk(family, prev, Fold(lines)).Returned?
    decreases |lines|
  {
    if lines != [] {
      var next, rest := BalanceAfter(prev, lines[0]), lines[1..];
      HeadFault(family, prev, lines);
      assert FaultAt(family, prev, lines, 0).None?;
      forall j | 0 <= j < |rest| ensures FaultAt(family, next, rest, j).None? {
        assert FaultAt(family, prev, lines, j + 1).None?;
        BalanceBeforeTail(prev, lines, j + 1);
        assert rest[j] == lines[j + 1] && rest[j + 1..] == lines[j + 2..];
      }
      NoFaultWalks(family, next, rest);
    }
  }

  lemma {:induction false} DraftsRefuse(row: nat, entries: seq<Entry>)
    ensures Drafts(row, entries).Raised? ==> Drafts(row, entries).error == UnreadableMoneyRow
    decreases |entries|
  {
    if entries != [] {
      DraftsRefuse(row + 1, entries[1..]);
    }
  }

  predicate SomeRowWithoutYear(lines: seq<Line>) {
    exists i :: 0 <= i < |lines| && lines[i].Row? && lines[i].date.NoYear?
  }

  lemma {:induction false} EntriesWithoutYear(family: Family, prev: Option<int>, lines: seq<Line>)
    requires Walk(family, prev, Fold(lines)).Returned?
    ensures (exists e :: e in Walk(family, prev, Fold(lines)).value && e.date.NoYear?) <==> SomeRowWithoutYear(lines)
    decreases |lines|
  {
    if lines != [] {
      var rest := lines[1..];
      if IsRowLine(lines[0]) {
        assert Fold(lines)[1..] == Fold(rest);
      }
      EntriesWithoutYear(family, BalanceAfter(prev, lines[0]), rest);
      if SomeRowWithoutYear(rest) {
        var i :| 0 <= i < |rest| && rest[i].Row? && rest[i].date.NoYear?;
        assert lines[i + 1] == rest[i];
      }
      if SomeRowWithoutYear(lines) && !(lines[0].Row? && lines[0].date.NoYear?) {
        var i :| 0 <= i < |lines| && lines[i].Row? && lines[i].date.NoYear?;
        assert rest[i - 1] == lines[i];
      }
    }
  }

  /** So a refused statement says what is wrong with its first faulty line; behind rows that stand, which
      figure is missing, too large or wrong. */
  lemma RefusalTells(st: Statement)
    ensures |st.lines| > 100_000 ==> Accept(st) == Raised(TooManyRows)
    ensures forall i :: 0 <= i < |st.lines| <= 100_000 && FaultAt(st.family, None, st.lines, i).Some?
                        && (forall j :: 0 <= j < i ==> FaultAt(st.family, None, st.lines, j).None?)
                        ==> Accept(st) == Raised(FaultAt(st.family, None, st.lines, i).value)
    ensures st.family == A && |st.lines| <= 100_000 && ParseRows(A, st.lines).Raised?
            && (forall i :: 0 <= i < |st.lines| ==> FaultAt(A, None, st.lines, i).None?)
            ==> Accept(st) == Raised(if SomeRowWithoutYear(st.lines) then UnplacedYear else UnreadableMoneyRow)
    ensures |st.lines| <= 100_000 && ParseRows(st.family, st.lines).Returned? ==>
              match Opening(st.lines)
              case None => Accept(st) == Raised(NoOpening)
              case Some(opening) =>
                var last := BalanceBefore(None, st.lines, |st.lines|);
                && last.Some?
                && (!FiguresAgree(st, opening, last.value) ==>
                      Accept(st) == Raised(FigureFault(st, opening)))
  {
    forall i | 0 <= i < |st.lines| <= 100_000 && FaultAt(st.family, None, st.lines, i).Some?
               && (forall j :: 0 <= j < i ==> FaultAt(st.family, None, st.lines, j).None?)
      ensures Accept(st) == Raised(FaultAt(st.family, None, st.lines, i).value)
    {
      FirstFaultDecides(st.family, None, st.lines, i);
    }
    if st.family == A && forall i :: 0 <= i < |st.lines| ==> FaultAt(A, None, st.lines, i).None? {
      NoFaultWalks(A, None, st.lines);
      EntriesWithoutYear(A, None, st.lines);
      DraftsRefuse(1, Walk(A, None, Fold(st.lines)).value);
    }
    if ParseRows(st.family, st.lines).Returned? && Opening(st.lines).Some? {
      FiguresDecide(st);
      if Accept(st).Raised? && |st.lines| <= MAX_ROWS {
        WhichFigure(st);
      }
    }
  }

  /** What is wrong with figures that do not agree. */
  function FigureFault(st: Statement, opening: int): Refusal {
    if st.family == E then
      if (|st.payments| == 1 && st.payments[0] != Printed(CarriesOut(), st.lines))
         || (|st.deposits| == 1 && st.deposits[0] != Printed(CarriesIn(), st.lines))
      then TotalsMismatch else TooLarge
    else if st.closing.None? then NoClosing
    else if !Storable(opening) || !Storable(st.closing.value) then TooLarge
    else DoesNotAddUp
  }

  lemma WhichFigure(st: Statement)
    requires |st.lines| <= MAX_ROWS && ParseRows(st.family, st.lines).Returned? && Opening(st.lines).Some?
    requires Accept(st).Raised?
    ensures Accept(st) == Raised(FigureFault(st, Opening(st.lines).value))
  {
    if st.family == E {
      DraftsCarryPrintedMoney(E, None, st.lines, 1);
    }
  }

  // ----- which rows a removal spares -----

  /** None of the rows taken away is one that `picks` picks. */
  ghost predicate Spares(picks: Line -> bool, lines: seq<Line>, gone: seq<bool>)
    requires |gone| == |lines|
  {
    forall i :: 0 <= i < |lines| && gone[i] ==> !picks(lines[i])
  }

  lemma SparesTail(picks: Line -> bool, lines: seq<Line>, gone: seq<bool>)
    requires |gone| == |lines| > 0
    ensures Spares(picks, lines, gone) <==> (gone[0] ==> !picks(lines[0])) && Spares(picks, lines[1..], gone[1..])
  {
    if (gone[0] ==> !picks(lines[0])) && Spares(picks, lines[1..], gone[1..]) {
      forall i | 0 <= i < |lines| && gone[i] ensures !picks(lines[i]) {
        assert i > 0 ==> gone[1..][i - 1] && lines[1..][i - 1] == lines[i];
      }
    }
    if Spares(picks, lines, gone) {
      forall i | 0 <= i < |lines[1..]| && gone[1..][i] ensures !picks(lines[1..][i]) {
        assert gone[i + 1] && lines[i + 1] == lines[1..][i];
      }
    }
  }

  /** Taking rows away never raises a printed total, and keeps it exactly if it spares the rows in it. */
  lemma {:induction false} RemovalOfMoney(picks: Line -> bool, lines: seq<Line>, gone: seq<bool>)
    requires MarksRows(lines, gone) && forall line :: picks(line) ==> line.Row? && line.amount != 0
    ensures Printed(picks, Remaining(lines, gone)) <= Printed(picks, lines)
    ensures Printed(picks, Remaining(lines, gone)) == Printed(picks, lines) <==> Spares(picks, lines, gone)
    decreases |lines|
  {
    if lines != [] {
      var left := Remaining(lines, gone);
      RemovalOfMoney(picks, lines[1..], gone[1..]);
      SparesTail(picks, lines, gone);
      if gone[0] {
        assert left == Remaining(lines[1..], gone[1..]);
      } else {
        assert left[0] == lines[0] && left[1..] == Remaining(lines[1..], gone[1..]);
      }
    }
  }

  lemma {:induction false} FreeRowsNetZero(lines: seq<Line>, gone: seq<bool>)
    requires MarksRows(lines, gone) && Spares(CarriesOut(), lines, gone) && Spares(CarriesIn(), lines, gone)
    ensures InnerBlocksNetZero(lines, gone, 0)
    decreases |lines|
  {
    if lines != [] {
      SparesTail(CarriesOut(), lines, gone);
      SparesTail(CarriesIn(), lines, gone);
      FreeRowsNetZero(lines[1..], gone[1..]);
    }
  }

  /** The two column totals of what a family E statement gives once rows are taken away. */
  lemma TotalsOfTheRest(st: Statement, gone: seq<bool>)
    requires st.family == E && Accept(st).Returned? && MarksRows(st.lines, gone)
    ensures var before, rest := ParseRows(E, st.lines), ParseRows(E, Remaining(st.lines, gone));
            before.Returned? && rest.Returned? ==>
              && Abs(MoneyOut(rest.value)) <= Abs(MoneyOut(before.value))
              && Abs(MoneyIn(rest.value)) <= Abs(MoneyIn(before.value))
              && (Abs(MoneyOut(rest.value)) == Abs(MoneyOut(before.value)) <==> Spares(CarriesOut(), st.lines, gone))
              && (Abs(MoneyIn(rest.value)) == Abs(MoneyIn(before.value)) <==> Spares(CarriesIn(), st.lines, gone))
  {
    var left := Remaining(st.lines, gone);
    RemovalOfMoney(CarriesOut(), st.lines, gone);
    RemovalOfMoney(CarriesIn(), st.lines, gone);
    DraftsCarryPrintedMoney(E, None, st.lines, 1);
    if ParseRows(E, left).Returned? {
      DraftsCarryPrintedMoney(E, None, left, 1);
    }
  }

  /** Of family E with one column total printed once: with any set of its rows removed it is accepted
      exactly when the inner blocks net to zero and no removed row is one of the total's side. */
  lemma RemovalUnderOneTotalAcceptedIff(st: Statement, gone: seq<bool>)
    requires st.family == E && (|st.payments| == 1) != (|st.deposits| == 1)
    requires Accept(st).Returned? && MarksRows(st.lines, gone)
    ensures Accept(st.(lines := Remaining(st.lines, gone))).Returned? <==>
              && InnerBlocksNetZero(st.lines, gone, 0)
              && Spares(if |st.payments| == 1 then CarriesOut() else CarriesIn(), st.lines, gone)
  {
    RemovalChangesTheTotal(st, gone);
    TotalsOfTheRest(st, gone);
  }

  /** A family E statement with both column totals printed once is the strictest: with any set of
      its rows removed it is accepted exactly when none of the removed rows moved money. */
  lemma RemovalUnderBothTotalsAcceptedIff(st: Statement, gone: seq<bool>)
    requires st.family == E && |st.payments| == 1 && |st.deposits| == 1
    requires Accept(st).Returned? && MarksRows(st.lines, gone)
    ensures Accept(st.(lines := Remaining(st.lines, gone))).Returned? <==>
              forall i :: 0 <= i < |st.lines| && gone[i] ==> st.lines[i].amount == 0
  {
    RemovalChangesTheTotal(st, gone);
    TotalsOfTheRest(st, gone);
    MoneyFree(st.lines, gone);
    if Spares(CarriesOut(), st.lines, gone) && Spares(CarriesIn(), st.lines, gone) {
      FreeRowsNetZero(st.lines, gone);
    }
  }

  lemma MoneyFree(lines: seq<Line>, gone: seq<bool>)
    requires MarksRows(lines, gone)
    ensures Spares(CarriesOut(), lines, gone) && Spares(CarriesIn(), lines, gone)
            <==> forall i :: 0 <= i < |lines| && gone[i] ==> lines[i].amount == 0
  {
    if Spares(CarriesOut(), lines, gone) && Spares(CarriesIn(), lines, gone) {
      forall i | 0 <= i < |lines| && gone[i] ensures lines[i].amount == 0 {
        assert !CarriesOut()(lines[i]) && !CarriesIn()(lines[i]);
      }
    }
  }

  // ----- removing rows where no sign is printed -----

  /** What a line moves the running balance by. */
  function Moves(prev: Option<int>, line: Line): int {
    if prev.Some? && line.Row? then line.balance - prev.value else 0
  }

  /** Reading down a statement without printed signs, `net` being what the removed rows since the last
      surviving row or anchor moved: a block may net to zero, or to minus twice the movement of the row
      that ends it, which then seems to move as much the other way. */
  predicate BlocksPassUnsigned(prev: Option<int>, lines: seq<Line>, gone: seq<bool>, net: int)
    requires |gone| == |lines|
    decreases |lines|
  {
    lines == [] ||
    var next := BalanceAfter(prev, lines[0]);
    if gone[0] then BlocksPassUnsigned(next, lines[1..], gone[1..], net + Moves(prev, lines[0]))
    else if lines[0].Row? then
      (net == 0 || net == -2 * Moves(prev, lines[0])) && BlocksPassUnsigned(next, lines[1..], gone[1..], 0)
    else if lines[0].Anchor? then net == 0 && BlocksPassUnsigned(next, lines[1..], gone[1..], 0)
    else BlocksPassUnsigned(next, lines[1..], gone[1..], net)
  }

  /** What the block of removed rows at the end moved. */
  function LastBlockMoved(prev: Option<int>, lines: seq<Line>, gone: seq<bool>, net: int): int
    requires |gone| == |lines|
    decreases |lines|
  {
    if lines == [] then net
    else
      var next := BalanceAfter(prev, lines[0]);
      if gone[0] then LastBlockMoved(next, lines[1..], gone[1..], net + Moves(prev, lines[0]))
      else LastBlockMoved(next, lines[1..], gone[1..], if lines[0].Row? || lines[0].Anchor? then 0 else net)
  }

  lemma {:induction false} UnsignedRemovalWalk(prev: Option<int>, rest: Option<int>, lines: seq<Line>, gone: seq<bool>)
    requires MarksRows(lines, gone) && RowsOk(B, prev, lines) && prev.Some? == rest.Some?
    ensures RowsOk(B, rest, Remaining(lines, gone)) <==> BlocksPassUnsigned(prev, lines, gone, NetOf(prev, rest))
    decreases |lines|
  {
    if lines != [] {
      var next := BalanceAfter(prev, lines[0]);
      if gone[0] {
        UnsignedRemovalWalk(next, rest, lines[1..], gone[1..]);
        assert Remaining(lines, gone) == Remaining(lines[1..], gone[1..]);
      } else {
        UnsignedRemovalWalk(next, BalanceAfter(rest, lines[0]), lines[1..], gone[1..]);
        UnsignedHeadStays(prev, rest, lines, gone);
      }
    }
  }

  /** The step of the walk at a line that stays. */
  lemma UnsignedHeadStays(prev: Option<int>, rest: Option<int>, lines: seq<Line>, gone: seq<bool>)
    requires MarksRows(lines, gone) && lines != [] && !gone[0] && RowsOk(B, prev, lines) && prev.Some? == rest.Some?
    requires var next, over := BalanceAfter(prev, lines[0]), BalanceAfter(rest, lines[0]);
             RowsOk(B, over, Remaining(lines[1..], gone[1..])) <==>
               BlocksPassUnsigned(next, lines[1..], gone[1..], NetOf(next, over))
    ensures RowsOk(B, rest, Remaining(lines, gone)) <==> BlocksPassUnsigned(prev, lines, gone, NetOf(prev, rest))
  {
    var left := Remaining(lines, gone);
    assert left[0] == lines[0] && left[1..] == Remaining(lines[1..], gone[1..]);
    if lines[0].Row? {
      UnsignedRowStays(prev.value, rest.value, lines, gone);
    }
  }

  lemma UnsignedRowStays(prev: int, rest: int, lines: seq<Line>, gone: seq<bool>)
    requires MarksRows(lines, gone) && lines != [] && !gone[0] && lines[0].Row? && RowsOk(B, Some(prev), lines)
    requires var next := Some(lines[0].balance);
             RowsOk(B, next, Remaining(lines[1..], gone[1..])) <==> BlocksPassUnsigned(next, lines[1..], gone[1..], 0)
    ensures RowsOk(B, Some(rest), Remaining(lines, gone)) <==> BlocksPassUnsigned(Some(prev), lines, gone, prev - rest)
  {
    var left := Remaining(lines, gone);
    assert left[0] == lines[0] && left[1..] == Remaining(lines[1..], gone[1..]);
    HeadStands(B, Some(prev), lines);
    HeadStands(B, Some(rest), left);
    UnsignedBlockAtHead(Some(prev), lines, gone, prev - rest);
    if HasText(lines[1..]) {
      TextKept(lines[1..], gone[1..]);
    }
    RowSurvives(B, prev, rest, lines[0], lines[1..], left[1..]);
  }

  lemma UnsignedBlockAtHead(prev: Option<int>, lines: seq<Line>, gone: seq<bool>, net: int)
    requires |gone| == |lines| > 0 && !gone[0]
    ensures BlocksPassUnsigned(prev, lines, gone, net) <==>
              && (lines[0].Anchor? ==> net == 0)
              && (lines[0].Row? ==> net == 0 || net == -2 * Moves(prev, lines[0]))
              && BlocksPassUnsigned(BalanceAfter(prev, lines[0]), lines[1..], gone[1..],
                                    if lines[0].Row? || lines[0].Anchor? then 0 else net)
  {
  }

  lemma {:induction false} UnsignedRemovalEnd(prev: Option<int>, rest: Option<int>, lines: seq<Line>, gone: seq<bool>)
    requires MarksRows(lines, gone) && RowsOk(B, prev, lines) && prev.Some? == rest.Some?
    ensures var net, left := if prev.Some? then prev.value - rest.value else 0, Remaining(lines, gone);
            && FinalBalance(prev, lines).Some? == FinalBalance(rest, left).Some?
            && (FinalBalance(prev, lines).Some? ==>
                  FinalBalance(prev, lines).value - FinalBalance(rest, left).value
                      == LastBlockMoved(prev, lines, gone, net))
    decreases |lines|
  {
    if lines != [] {
      var left := Remaining(lines, gone);
      var next := BalanceAfter(prev, lines[0]);
      if gone[0] {
        UnsignedRemovalEnd(next, rest, lines[1..], gone[1..]);
        assert left == Remaining(lines[1..], gone[1..]);
      } else {
        assert left[0] == lines[0] && left[1..] == Remaining(lines[1..], gone[1..]);
        UnsignedRemovalEnd(next, BalanceAfter(rest, lines[0]), lines[1..], gone[1..]);
      }
    }
  }

  /** Family B prints no signs: with any set of its rows removed, a statement is accepted exactly when
      every block nets to zero or is hidden by the next row seeming to turn round, and the tail nets to
      zero or to twice the final balance. */
  lemma RemovalWithoutSignsAcceptedIff(st: Statement, gone: seq<bool>)
    requires st.family == B && Accept(st).Returned? && MarksRows(st.lines, gone)
    ensures FinalBalance(None, st.lines).Some?
    ensures Accept(st.(lines := Remaining(st.lines, gone))).Returned? <==>
              && BlocksPassUnsigned(None, st.lines, gone, 0)
              && LastBlockMoved(None, st.lines, gone, 0) in {0, 2 * FinalBalance(None, st.lines).value}
  {
    var left := Remaining(st.lines, gone);
    RemainingBasics(st.lines, gone);
    RowsAcceptedIff(B, st.lines);
    RowsAcceptedIff(B, left);
    UnsignedRemovalWalk(None, None, st.lines, gone);
    UnsignedRemovalEnd(None, None, st.lines, gone);
    RowsBridge(B, st.lines);
    if ParseRows(B, left).Returned? {
      RowsBridge(B, left);
    }
  }

  /** A credit of 10 and then a debit of 5: with the first row lost, the second reads as a credit. */
  const CREDIT: Line := Row(10, false, 10, Dated(1), "a")
  const DEBIT: Line := Row(5, false, 5, Dated(1), "b")

  function HomeLoan(lines: seq<Line>): Statement {
    Statement(B, lines, Some(5), [], [])
  }

  lemma LostRowCanPassUnsigned()
    ensures Accept(HomeLoan([Anchor(0), CREDIT, DEBIT])).Returned?
    ensures Accept(HomeLoan([Anchor(0), DEBIT])).Returned?
    ensures SumDrafts(Accept(HomeLoan([Anchor(0), DEBIT])).value.items) == 5
  {
    var lines, gone := [Anchor(0), CREDIT, DEBIT], [false, true, false];
    assert lines[1..] == [CREDIT, DEBIT] && lines[1..][1..] == [DEBIT] && [DEBIT][1..] == [];
    assert gone[1..] == [true, false] && gone[1..][1..] == [false];
    HomeLoanAccepted(lines);
    assert Remaining([DEBIT], [false]) == [DEBIT];
    assert Remaining([CREDIT, DEBIT], [true, false]) == [DEBIT];
    assert Remaining(lines, gone) == [Anchor(0), DEBIT];
    assert BlocksPassUnsigned(Some(10), [DEBIT], [false], 10);
    assert BlocksPassUnsigned(Some(0), [CREDIT, DEBIT], [true, false], 0);
    assert LastBlockMoved(Some(10), [DEBIT], [false], 10) == 0;
    assert LastBlockMoved(Some(0), [CREDIT, DEBIT], [true, false], 0) == 0;
    RemovalWithoutSignsAcceptedIff(HomeLoan(lines), gone);
    AcceptedDraftsSpanTheBalances(HomeLoan([Anchor(0), DEBIT]));
    assert [Anchor(0), DEBIT][1..] == [DEBIT] && [DEBIT][1..] == [];
    assert FinalBalance(None, [Anchor(0), DEBIT]) == FinalBalance(Some(0), [DEBIT]) == Some(5);
  }

  lemma HomeLoanAccepted(lines: seq<Line>)
    requires lines == [Anchor(0), CREDIT, DEBIT]
    ensures Accept(HomeLoan(lines)).Returned?
  {
    assert lines[1..] == [CREDIT, DEBIT] && [CREDIT, DEBIT][1..] == [DEBIT] && [DEBIT][1..] == [];
    assert HeadEntry([DEBIT], 10).pieces[0] == "b" && HeadEntry([CREDIT, DEBIT], 0).pieces[0] == "a";
    assert RowsOk(B, Some(10), [DEBIT]);
    assert RowsOk(B, Some(0), [CREDIT, DEBIT]);
    RowsAcceptedIff(B, lines);
    RowsBridge(B, lines);
    assert FinalBalance(Some(10), [DEBIT]) == Some(5);
    assert FinalBalance(None, lines) == FinalBalance(Some(0), [CREDIT, DEBIT]) == Some(5);
  }
}
