# finbreak, verified

finbreak is an offline personal-finance application: bank statements are imported into an encrypted
vault, and reports, forecasts and transfers are derived from what they say. This project models the
parts of it where being wrong is silent, and proves what they promise.

Every file is one module, named after what it models:

| modules | what they model |
|---|---|
| `SingleInstance` | the launch protocol over one socket path: any number of launches, any interleaving, as a state machine |
| `Ledger`, `Imports`, `BatchImport`, `Statements`, `Transfers`, `LedgerRuns` | the bookkeeping: a class of tables held as maps, each SQL write as its set-level effect, the services as methods over it, and one invariant over every sequence of requests |
| `DrillNodes`, `DrillDown`, `PayeeNodes`, `TransferBranch`, `Tiles` | the dashboard: the nodes of the tree and the grouping of rows under them, the category branches, which rows share a merchant node, the transfers branch, the summary tiles and the category donut, passes that must agree |
| `RecoveryCode`, `Mod37` | Crockford Base32 codes with the mod-37 check symbol ("Check Symbol" in Douglas Crockford's Base32 specification) and the number theory it rests on |
| `BalanceChain` | the Standard Bank reader's balance chain, from classified lines to accepted drafts |
| `Calendar`, `Recurring`, `Forecast`, `Reconciliation` | Gregorian stepping, recurring detection, the projection and its anchor, and statement reconciliation |
| `Sidecar`, `Envelope`, `EnvelopeRuns` | the key record as JSON values, the session over it, and every run of credential changes |
| `Restore` | the restore's renames with a crash after any of them, and the pruning of what they leave |
| `PdfTables` | the PDF header uniquifier and cross-page grouping |
| `Sequences`, `Sorting`, `Numerals`, `Merchants`, `Wrappers` | mapping, sums and distinct elements of lists, stable sorting and string order, decimal numerals, payee naming, `Option` and `Result` |

Code that changes state step by step is modelled by classes, arrays and loops and tied by its contract
to a function of the old state; what is promised is then proved of that function. Pure code is
functions. Money is integer minor units, ledger days are ordinals, an exception is `Raised`.
Cryptography is ideal: a derived key or a ciphertext is a value that tells its inputs apart. Text
normalisation, payee naming and whitespace folding are arbitrary functions. Salts, nonces, database
keys, random code values, timestamps and "today" are parameters.

## Results worth a maintainer's attention

- A swap of a recovery code's check symbol with a payload symbol passes unnoticed at exactly one
  position, the ninth, and there it does happen (`RecoveryCode.CheckSwapUndetectedIff`,
  `RecoveryCode.CheckSwapCanPass`).
- A home-loan statement (family B) prints no signs, so a lost row goes unnoticed where the next row moved
  half as much the other way: that row is then read with the other sign, although the completeness gate
  is there to refuse such a statement
  (`BalanceChain.RemovalWithoutSignsAcceptedIff`, `BalanceChain.LostRowCanPassUnsigned`).
- On category data with a cycle, which the write path rejects, the drill-down tree can count rows
  twice, although the source says the `seen` guard keeps every row placed: it does, but not once.
  `DrillDown.BranchConservesIff` gives the exact condition, `DrillDown.TwoCycleCountsTwice` an instance.
- `complete_first_run` called on an unlocked session refuses, closes the connection and leaves the key
  held. Over a run, that call is the only way to part the two (`EnvelopeRuns.KeyHeldThroughoutIff`,
  `EnvelopeRuns.SecondFirstRunKeepsTheKey`).
- Pruning calls a set of old copies whole when its sidecar is there, whether or not its database is. A
  crash between the two moves, then a retry, prunes the original database
  (`Restore.RetryKeepsTheOriginalIff`, `Restore.CrashBetweenTheMoves`). This is the retry on the disk as
  the crash left it: the application's start-up recovery, which would run first, is not in the model.
- A launch whose wait for the recovery claim runs out ends up unguarded exactly if its last probe comes
  before any launch has bound the name, and an owner can then appear beside it
  (`SingleInstance.UnguardedIff`, `SingleInstance.ExpiredWaitCanRunBesideAnOwner`).

## Model

| member | source | states |
|---|---|---|
| `SingleInstance.StepKeepsInv` | `src/finbreak/single_instance.py:200-257` | One action of any launch (probe, listen, claim, re-probe, unlink, re-listen) keeps the protocol invariant, whose heart is that a claim holder whose probe found nobody faces a stale path; a bound path stays bound |
| `SingleInstance.RunKeepsInv` | `src/finbreak/app.py:139-198` | The invariant holds in every state of every interleaving of any number of launches |
| `SingleInstance.NeverUnlinksALiveSocket` | `src/finbreak/single_instance.py:205-214` | No step of any run unlinks a bound socket |
| `SingleInstance.AtMostOneOwner` | `src/finbreak/single_instance.py:205-225` | At most one launch owns the name, and it is the one the path is bound to |
| `SingleInstance.BindingIsPermanent` | `src/finbreak/single_instance.py:219-225` | Once bound, the name stays with that launch for the rest of the run |
| `SingleInstance.LateLaunchHandsOver` | `src/finbreak/app.py:139-145` | A launch that starts while the name is bound only ever probes, and hands over at its next action, touching neither path nor claim |
| `SingleInstance.UnguardedOnlyAfterGivingUp` | `src/finbreak/app.py:182-190` | A launch runs unguarded only if its own wait for the claim ran out |
| `SingleInstance.UnguardedIff` | `src/finbreak/app.py:182-190` | A launch runs unguarded exactly if its wait had run out and, when it probed a last time, no launch had bound the name |
| `SingleInstance.SettledRunHasExactlyOneOwner` | `src/finbreak/app.py:182-190` | With no expired wait, once all launches have finished exactly one owns the name and every other handed over or stood down |
| `SingleInstance.SomebodyCanAct` | `src/finbreak/single_instance.py:200-257` | Nobody is locked out: in every state of every run, if some launch has not finished, some launch can act, and whoever acts has fewer actions left |
| `SingleInstance.ExpiredWaitCanRunBesideAnOwner` | `src/finbreak/single_instance.py:231-236` | The wait is what the guarantee rests on: with one expired wait a launch can end up unguarded beside an owner (a concrete run) |
| `RecoveryCode.PayloadInt` | `src/finbreak/services/recovery_code.py:65-73` | The loop refuses a non-data symbol and otherwise returns the base-32 value of the payload |
| `RecoveryCode.GenerateCode` | `src/finbreak/services/recovery_code.py:76-85` | The divide-and-reverse loop prints the code of the drawn 135-bit value: 34 characters, a hyphen at every fifth, its symbols in order between them |
| `RecoveryCode.AlphabetsSpelledOut` | `src/finbreak/services/recovery_code.py:25-62` | Each of the 37 symbols, written out, reads as its place; the last five read as check symbols only |
| `RecoveryCode.RoundTrip` | `src/finbreak/services/recovery_code.py:88-172` | Every spelling of a generated code (either case, ASCII white space and hyphens anywhere, I/L for 1, O for 0, each written out) passes the check and decodes to the 17 big-endian bytes of its value |
| `RecoveryCode.PrintedFormRoundTrips` | `src/finbreak/services/recovery_code.py:76-103` | What is printed is such a spelling, so format, normalise and decode compose to the identity |
| `RecoveryCode.DecodeIsInjective` | `src/finbreak/services/recovery_code.py:145-172` | Two codes decode equally only if all their payload values are equal |
| `RecoveryCode.SingleErrorDetected` | `src/finbreak/services/recovery_code.py:106-142` | No two valid codes differ in exactly one symbol value, so every single error is rejected |
| `RecoveryCode.PayloadSwapDetected` | `src/finbreak/services/recovery_code.py:106-142` | Swapping two payload symbols of different value is rejected at any distance |
| `RecoveryCode.CheckSwapUndetectedIff` | `src/finbreak/services/recovery_code.py:106-142` | Swapping the check symbol with a payload symbol of another value passes exactly at the ninth position with a data symbol as check, so never at the last |
| `RecoveryCode.CheckSwapCanPass` | `src/finbreak/services/recovery_code.py:106-142` | Such a swap exists: in the code of 1 the ninth symbol and the check symbol can change places |
| `Mod37.PowersOf32` | `src/finbreak/services/recovery_code.py:106-118` | The number theory behind the check: no power of 32 is a multiple of 37, and 32 to the k is 1 only for k = 0 in the range a code can reach |
| `PdfTables.UniquifyHeader` | `src/finbreak/importers/pdf_importer.py:81-112` | In-place rewriting ends on every header with pairwise distinct cells: a cell reads its own stripped text if that is not blank and no earlier cell has it, otherwise its number's placeholder, or that with a suffix from _2 on, the first spelling that is free |
| `PdfTables.BuildSlots` | `src/finbreak/importers/pdf_importer.py:93-101` | The first pass: kept labels and positional placeholders |
| `PdfTables.FreeSpelling` | `src/finbreak/importers/pdf_importer.py:104-112` | The suffix search ends (pigeonhole over the cells) at the least spelling no other cell has |
| `PdfTables.UniquifiedIsDuplicateFree` | `src/finbreak/importers/pdf_importer.py:81-112` | Left-to-right settling leaves no two cells equal |
| `PdfTables.GroupTablesByHeader` | `src/finbreak/importers/pdf_importer.py:115-138` | One candidate for the first table of each header, in page order: two tables belong together exactly if their headers have as many cells and each pair of cells folds to the same text, and a candidate's rows are the data rows of all tables that belong with its first, in order |
| `PdfTables.GroupingConservesRows` | `src/finbreak/importers/pdf_importer.py:115-138` | Over all groups every data row appears exactly once |
| `BalanceChain.FoldLines` | `src/finbreak/importers/standard_bank.py:787-813` | The folding loop equals its recursive reading: each row or anchor with the text lines after it |
| `BalanceChain.ParseFamily` | `src/finbreak/importers/standard_bank.py:944-1127` | The family loops (anchor, re-anchor, gate, stage) equal the recursive reading of the lines, refusals included |
| `BalanceChain.DraftsAreFaithful` | `src/finbreak/importers/standard_bank.py:874-914` | Every row with money becomes a draft of its amount; only rows that moved none degrade |
| `BalanceChain.AcceptedDraftsSpanTheBalances` | `src/finbreak/importers/standard_bank.py:609-660` | Accepted A, B, D and E statements: drafts sum exactly to last running balance minus opening, and a family E closing is that balance |
| `BalanceChain.AcceptedIff` | `src/finbreak/importers/standard_bank.py:609-765` | The exact acceptance of an A, B, D or E statement, in the lines' own figures: not too many lines, every line stands over the balance it finds, there is an opening balance, and the last balance equals the printed closing (up to sign for B), or each total printed once equals the money the rows print on its side (E); and what closing balance is reported |
| `BalanceChain.AcceptedItems` | `src/finbreak/importers/standard_bank.py:838-945` | An accepted statement has one item a row, in order: a draft of the row's number, day, movement from the balance before it, and text with its continuation lines, or a row error where it moved nothing |
| `BalanceChain.RefusalTells` | `src/finbreak/importers/standard_bank.py:609-765` | Which refusal is raised: that of the first line at fault, or the first gate that fails after them |
| `BalanceChain.RowsAcceptedIff` | `src/finbreak/importers/standard_bank.py:838-945` | The rows are accepted exactly under line-by-line conditions on anchors, gates and readability |
| `BalanceChain.RemovalAcceptedIff` | `src/finbreak/importers/standard_bank.py:609-660` | With a printed closing figure (A, D): a statement with any set of rows removed is accepted exactly when every maximal removed block nets to zero |
| `BalanceChain.RemovalWithoutClosingAcceptedIff` | `src/finbreak/importers/standard_bank.py:609-628` | Without any printed figure only inner blocks must net to zero: a removed tail goes unnoticed |
| `BalanceChain.RemovalUnderBothTotalsAcceptedIff` | `src/finbreak/importers/standard_bank.py:678-765` | Family E with both totals: accepted exactly when no removed row moved money |
| `BalanceChain.RemovalUnderOneTotalAcceptedIff` | `src/finbreak/importers/standard_bank.py:678-765` | Family E with one total: accepted exactly when the inner blocks net to zero and no removed row printed money on that total's side |
| `BalanceChain.RemovalWithoutSignsAcceptedIff` | `src/finbreak/importers/standard_bank.py:998-1036` | Family B, which prints no signs: accepted exactly when every removed block nets to zero or to minus twice the movement of the row after it, and the tail to zero or twice the final balance |
| `BalanceChain.LostRowCanPassUnsigned` | `src/finbreak/importers/standard_bank.py:998-1036` | A home-loan statement with a row lost that is accepted all the same, its next row read with the other sign |
| `Calendar.BeforeIsOrdinalOrder` | `src/finbreak/services/recurring.py:101-132` | The date order is the order of Gregorian ordinals |
| `Calendar.AddDaysCounts` | `src/finbreak/services/recurring.py:101-132` | Stepping days one by one advances the ordinal by their number and gives valid dates, leap years included |
| `Calendar.AddCadenceIncreases` | `src/finbreak/services/recurring.py:101-132` | Stepping further from an anchor always lands later, for every cadence and intended day |
| `Calendar.CadenceSteps` | `src/finbreak/services/recurring.py:101-132` | Which date a step gives: weekly and fortnightly 7 and 14 days a step by ordinal, monthly and yearly 1 and 12 months a step by year * 12 + month, the day being the intended one clamped to that month; and no other date is that step |
| `Calendar.ClampReturnsToIntendedDay` | `src/finbreak/services/recurring.py:74-83` | After any short month an item returns to its intended day in every month that has it |
| `Calendar.IntendedDayRecovered` | `src/finbreak/services/recurring.py:86-98` | The intended day is recovered from clamped dates as soon as one month shows it |
| `Recurring.ClassifyGaps` | `src/finbreak/services/recurring.py:135-153` | The running band is returned exactly if there are two gaps or more and all lie in it |
| `Recurring.JudgeGroup` | `src/finbreak/services/recurring.py:202-240` | A group gives an item exactly if it has three rows, magnitudes within a tenth of the low median, two or more gaps all in one cadence's range and a last row within two periods of today; the item names that cadence and describes exactly those rows in (day, id) order: ids, number, first and last day, the low median, its monthly share, the day it aims at and the next date |
| `Recurring.ItemKeepsItsDay` | `src/finbreak/services/recurring.py:86-98` | If every row fell on day d clamped to its month, one of them on d itself, the item aims at d, and its next monthly or yearly date falls on d clamped to that month |
| `Recurring.GapsSpelledOut` | `src/finbreak/services/recurring.py:135-153` | The gaps judged are the distances between different days that follow each other |
| `Recurring.GroupRows` | `src/finbreak/services/recurring.py:193-199` | The grouping loop holds each key's rows in input order |
| `Recurring.DetectRecurring` | `src/finbreak/services/recurring.py:165-244` | The result is exactly the items of the groups, once each, in the fixed order; it raises exactly when a next date is past the last year |
| `Recurring.DetectionIgnoresRowOrder` | `src/finbreak/services/recurring.py:165-244` | Any permutation of the rows gives the same list, and raises exactly if the other does |
| `Recurring.ItemsPartitionTheirRows` | `src/finbreak/services/recurring.py:165-244` | An item counts exactly the rows that are not excluded, move money, go its way and name its payee, and no transaction is in two items |
| `Recurring.ItemsAreTheQualifying` | `src/finbreak/services/recurring.py:165-244` | An item stands exactly for each group of rows of one direction and payee that qualifies, and describes that group |
| `Recurring.ItemsAreOrdered` | `src/finbreak/services/recurring.py:165-244` | The list goes by falling monthly share, then payee, then money in before money out |
| `Forecast.Occurrences` | `src/finbreak/services/forecast.py:78-113` | Ends, and returns in order exactly the dates after today and no later than the horizon that are the anchor or some number of cadence steps from it, each step written out in days or months; it raises exactly when the first later one has no date |
| `Forecast.FirstPastIsUnique` | `src/finbreak/services/forecast.py:78-113` | That first occurrence past the window is unique, so the raising condition is exact |
| `Forecast.ProjectForecast` | `src/finbreak/services/forecast.py:116-163` | The events are all items' occurrences in order, the balance runs over them, and it ends at the start plus each amount times its number of occurrences; it raises exactly when some item overflows the calendar |
| `Forecast.EventsSpelledOut` | `src/finbreak/services/forecast.py:116-142` | The events are the items' dates, each under its item's payee, direction and amount, one event a date |
| `Forecast.EventsAreOrdered` | `src/finbreak/services/forecast.py:136-142` | Events come in date, payee and direction order, money in before money out, with ties as they came in |
| `Reconciliation.AccountStatuses` | `src/finbreak/services/reconciliation.py:101-125` | One report for every account, from its own chain and bridge sums; not supported exactly if neither a current nor a savings account, too little data exactly with fewer than two balance-bearing statements |
| `Reconciliation.ChainEndsAtLatest` | `src/finbreak/repositories/statement_periods.py:102-137` | The chain holds exactly the account's balance-bearing statements by (end, id), and its last node is the statement the descending query anchors on |
| `Reconciliation.DiscrepancyIsUnexplainedMovement` | `src/finbreak/services/reconciliation.py:44-82` | The discrepancy is last closing minus first closing minus every movement in the whole window, each pair is bridged by the movements between its two ends, the pairs that are off are counted, and the status says whether there are any |
| `Reconciliation.ReconciledIffEveryStatementAgrees` | `src/finbreak/services/reconciliation.py:44-82` | RECONCILED exactly when every statement, rolled forward to any day after the last end, gives the latest one's balance |
| `Reconciliation.SumAfterSplits` | `src/finbreak/repositories/transactions.py:356-373` | Half-open windows add up at any day between |
| `Reconciliation.OneMoreRow` | `src/finbreak/repositories/transactions.py:356-373` | A row enters a window's sum and count exactly if it is of the account, after the closing day and no later than the last day |
| `Reconciliation.Anchor` | `src/finbreak/services/forecast.py:199-240` | One source for every contributing cash account, in order, with its balance, date, count and current figure; the anchor is the sum of the current figures, or none without a source |
| `Reconciliation.ContributingAre` | `src/finbreak/services/forecast.py:199-240` | The contributing accounts are exactly the current and savings accounts with some recorded closing balance |
| `Reconciliation.AnchorFromAnyStatements` | `src/finbreak/services/forecast.py:199-240` | Where the contributing accounts are RECONCILED the anchor is the same from any of their statements |
| `DrillDown.ClimbChain` | `src/finbreak/services/reporting.py:378-396` | The climb ends on any parent map and finds the top its recursive reading finds |
| `DrillDown.NodeHoldsCovered` | `src/finbreak/services/reporting.py:431-463` | On any parent map a category's node holds exactly the rows of the categories it covers: leaves, money and number |
| `DrillNodes.GroupNodesTally` | `src/finbreak/services/reporting.py:398-429` | Whatever the grouping, by merchant or by route, the nodes of the groups hold exactly the rows |
| `PayeeNodes.CategoryHasOneNodeAPayee` | `src/finbreak/services/reporting.py:397-460` | A category's node goes by its name, and of the rows filed on the category each is a leaf under some child; such a child is the merchant node of exactly the rows whose folded payee name is the same, in order and under the least of their names; and two rows are under one child exactly if their folded payee names agree |
| `PayeeNodes.UncategorisedHasOneNodeAPayee` | `src/finbreak/services/reporting.py:475-489` | The same for the rows without a category, under the branch's own node for them |
| `DrillDown.SiblingsDisjoint` | `src/finbreak/services/reporting.py:431-463` | Children of one category never cover a category twice, cycles included |
| `DrillDown.CoveredIffPassed` | `src/finbreak/services/reporting.py:378-463` | A node covers a category exactly if the category's climb passes it: the recursion down and the loop up agree |
| `DrillDown.BranchHolds` | `src/finbreak/services/reporting.py:354-489` | On any parent map the branch holds each uncategorised row once and each other row as often as its category lies under a top |
| `DrillDown.BranchConservesIff` | `src/finbreak/services/reporting.py:354-489` | No row is dropped, and the branch holds exactly the rows if and only if no row's climb passes another row's top |
| `DrillDown.AcyclicBranchConserves` | `src/finbreak/services/reporting.py:354-489` | On an acyclic forest, rows on roots included, each row is one leaf and the branch figures are their sum and number |
| `DrillDown.TwoCycleCountsTwice` | `src/finbreak/services/reporting.py:378-396` | Two categories that are each other's parent, a row in each: the branch counts more than two rows |
| `DrillDown.BranchIsWellSummed` | `src/finbreak/services/reporting.py:137-143` | Every node of the tree sums its children, which stand in order of falling amount, equal amounts by label |
| `DrillDown.OmittedIffEmpty` | `src/finbreak/services/reporting.py:455-459` | A category is omitted exactly if it and what it covers hold no rows |
| `DrillNodes.LeastNameIsLeast` | `src/finbreak/services/reporting.py:411-414` | A merchant node is labelled with the least of its rows' names |
| `DrillDown.TopOrderDoesNotMatter` | `src/finbreak/services/reporting.py:465-489` | Whatever order the set of tops is walked in, the branch's sorted children are the same |
| `Tiles.Summary` | `src/finbreak/services/reporting.py:172-198` | The loop returns the sums of the positive and of the negative amounts that are no transfer, and their net |
| `TransferBranch.TransfersHold` | `src/finbreak/services/reporting.py:491-541` | Each confirmed transfer in scope is exactly one leaf of the branch, whatever the account names are, and every node sums its children |
| `TransferBranch.OneNodeARoute` | `src/finbreak/services/reporting.py:507-536` | Each transfer in scope is under a child of the branch titled with its two account names, which has one leaf for each transfer in scope between those names and nothing else |
| `TransferBranch.ScopedAre` | `src/finbreak/services/reporting.py:507-518` | In scope is a transfer whose debit day lies in the period, both ends included, and one of whose two accounts is in scope, as often as it is in the list |
| `TransferBranch.PeriodsAddUp` | `src/finbreak/services/reporting.py:491-518` | A transfer shows in one period's branch only: two adjoining periods' branches hold together what the joined period's holds |
| `Tiles.BuildTree` | `src/finbreak/services/reporting.py:292-352` | The income and spending branches are built over exactly the rows of each sign, the third over the transfers in scope |
| `Tiles.SidesSpelledOut` | `src/finbreak/services/reporting.py:312-335` | The rows of the two category branches are exactly the positive amounts as they are and the others turned round, transfers left out |
| `Tiles.TreeMatchesTiles` | `src/finbreak/services/reporting.py:292-352` | The branch totals equal the tiles, each non-transfer transaction is exactly one leaf of the two category branches, and each confirmed transfer in scope one of the third |
| `Tiles.SpendingByCategory` | `src/finbreak/services/reporting.py:200-248` | The bucket loops compute one sum a category, sorted, uncategorised last |
| `Tiles.DonutHolds` | `src/finbreak/services/reporting.py:200-248` | A slice is shown exactly for each category with a negative amount that is no transfer, and holds the sum of those |
| `Tiles.DonutIsOrdered` | `src/finbreak/services/reporting.py:200-248` | Slices stand in strict (amount down, id up) order with the uncategorised one last |
| `Tiles.DonutTotalsTheTile` | `src/finbreak/services/reporting.py:172-248` | The slices add up to the expenditure tile, although the two loops treat zero amounts differently |
| `Ledger.Tables.AddBatch` | `src/finbreak/repositories/transactions.py:254-279` | Rows are inserted one after another, each under the largest id plus one |
| `Ledger.Tables.IdForSpan` | `src/finbreak/repositories/statement_periods.py:139-151` | The id of a span, or none |
| `Ledger.Tables.UpdateClosingBalance` | `src/finbreak/repositories/statement_periods.py:61-100` | Fills a missing balance, never overwrites one, and reports a disagreement exactly when the stored one differs |
| `Ledger.Tables.HandOffCovered` | `src/finbreak/repositories/transactions.py:292-322` | Row by row: a row stamped to the statement that a survivor covers goes to its heir and keeps its content, every other row stays as it was, and the count is the number of rows changed |
| `Ledger.Tables.DeleteForStatement` | `src/finbreak/repositories/transactions.py:281-290` | A row goes exactly if stamped to the statement and a decision exactly if one of its rows did; what stays is unchanged, and the count is the number of rows lost |
| `Ledger.Tables.DeleteConfirmedJoinedByMove` | `src/finbreak/repositories/transfers.py:120-139` | Where stamps resolve, a decision goes exactly if it is confirmed and its two sides, in different accounts now, are in one account once the rows have moved; the count is the number of pairs lost |
| `Ledger.Tables.DeleteSplitCounts` | `src/finbreak/repositories/transactions.py:324-344` | One pass counts the batch's rows whose day no survivor of their account encloses, and those whose day one does |
| `Ledger.Tables.ReassignTransactions` | `src/finbreak/repositories/transactions.py:346-354` | Exactly the rows stamped to the statement change account, and nothing else of them |
| `Ledger.HeirIsEarliest` | `src/finbreak/repositories/transactions.py:55-75` | A row has an heir exactly if a survivor of its account has a first and last day that enclose the row's; the heir is the first of them by (start, id), and the picker finds it |
| `Ledger.Earliest` | `src/finbreak/repositories/transactions.py:26-76` | The picker: of the covering survivors the first by (start, id) |
| `Imports.Dedup` | `src/finbreak/services/import_.py:380-413` | The counters, the bucket cache and the keep loop return the first new drafts of each key in file order |
| `Imports.NewDraftCount` | `src/finbreak/services/import_.py:391-404` | Of each day, amount and normalised text exactly max(0, incoming - existing) drafts are kept, counted place by place and row by row |
| `Imports.KeptIff` | `src/finbreak/services/import_.py:391-404` | A draft is kept exactly while fewer drafts like it stand before it in the file than exceed the rows like it |
| `Imports.CommitImport` | `src/finbreak/services/import_.py:296-377` | Refuses a bad span and changes nothing; otherwise the new rows, the span's period, the filled balance and all counts are what the specification says |
| `Imports.ImportRecordsItsSpan` | `src/finbreak/services/import_.py:330-365` | An import leaves one period with its span, holding the balance it had or else the one that came in; every new row is stamped with it, and the other periods and rows are as they were |
| `Imports.Retarget` | `src/finbreak/services/import_.py:229-294` | A retargeted preview is a fresh one for the other account: the file, its span and closing balance as they were, the number of new drafts against that account, and the row numbers of exactly the others |
| `Imports.ImportIsAJoin` | `src/finbreak/services/import_.py:296-413` | After an import the number of rows of each account, day, amount and normalised text is the larger of what was there and what came in |
| `Imports.NothingNewIff` | `src/finbreak/services/import_.py:380-413` | A file inserts nothing exactly when the account already holds as many rows of each key |
| `Imports.ReimportInsertsNothing` | `src/finbreak/services/import_.py:380-413` | Importing a file again inserts nothing |
| `Imports.OrderDoesNotMatter` | `src/finbreak/services/import_.py:296-413` | The final counts depend only on which files there are, not on their order or repetition |
| `Imports.CommitKeepsSound` | `src/finbreak/services/import_.py:330-365` | An import keeps stamps, spans and transfers sound |
| `BatchImport.CountAgainstVault` | `src/finbreak/services/batch_import.py:252-256` | The counter over what the preview did not drop, with its keys |
| `BatchImport.ClaimRecord` | `src/finbreak/services/batch_import.py:257-264` | What one record takes, and the claims it leaves to later ones |
| `BatchImport.CumulativeCounts` | `src/finbreak/services/batch_import.py:207-264` | Every record with a preview shows its predicted new count and the rest as duplicates; no other record changes |
| `BatchImport.SetAccount` | `src/finbreak/services/batch_import.py:658-680` | Preview and shown account move together, freshly counted, and a settled record does not move |
| `BatchImport.Review` | `src/finbreak/services/batch_import.py:682-713` | Counts and the two-way verdict from scratch for every record: already imported exactly if nothing is new and some statement has the account and both dates, otherwise ready |
| `BatchImport.RunStep` | `src/finbreak/services/batch_import.py:743-790` | A ready record is committed and its ticked password remembered for its account, or failed with its reason and neither tables nor passwords changed; any other is left alone |
| `BatchImport.RunHoldsClaims` | `src/finbreak/services/batch_import.py:207-264` | At every turn of the run the vault holds its own rows plus what the records before claimed |
| `BatchImport.ReviewPredictsRun` | `src/finbreak/services/batch_import.py:682-772` | When the run reaches a record, exactly the predicted number of its drafts is new; a record passed over had none |
| `BatchImport.ImportAll` | `src/finbreak/services/batch_import.py:682-772` | Review then run: every ready file lands the counts shown; the run leaves a reviewed file alone exactly if it showed nothing new and some statement already had its account and both dates, and such a file had nothing to land |
| `Statements.DeletePreviewMany` | `src/finbreak/services/statements.py:121-132` | The scan over the stamped rows answers how many rows a delete of the batch would take away and how many it would re-stamp, which together are all stamped rows |
| `Statements.DeleteStatements` | `src/finbreak/services/statements.py:68-111` | The two loops reach the closed form over the set of ids, never trip the foreign key, and their counts equal the preview's |
| `Statements.PreviewThenDelete` | `src/finbreak/services/statements.py:68-132` | What the preview shows is what the delete then reports and does |
| `Statements.DeletedIff` | `src/finbreak/repositories/transactions.py:26-94` | A row is deleted exactly if it is stamped to the batch and every surviving statement of its account starts after the row's day or ends before it |
| `Statements.KeptRow` | `src/finbreak/repositories/transactions.py:292-322` | A kept row keeps its content, and its stamp unless that is in the batch: then it goes to the survivor of its account whose days enclose its own, first by (start, id) |
| `Statements.DeleteTakesNothingElse` | `src/finbreak/services/statements.py:68-111` | Besides rows, a delete takes exactly the batch's statements and the decisions about rows that went, and changes no other |
| `Statements.DeleteKeepsSound` | `src/finbreak/services/statements.py:68-111` | No stamp is left dangling and the books stay sound |
| `Statements.ReassignAccount` | `src/finbreak/services/statements.py:145-181` | Refuses exactly when another statement holds the span; otherwise the statement keeps its span and balance, its rows their day, amount and text, only the account changes, and joined transfers go |
| `Statements.UnlinkedIffJoined` | `src/finbreak/repositories/transfers.py:120-139` | A confirmed transfer is unlinked exactly if the move puts both its sides in one account |
| `Statements.Backfill` | `src/finbreak/migrations.py:213-235` | In whatever order the periods come, a row is stamped exactly if one statement alone of its account has days that enclose its own |
| `Statements.BackfillIsSound` | `src/finbreak/migrations.py:194-236` | The backfilled books are sound |
| `Transfers.CandidatePairs` | `src/finbreak/repositories/transfers.py:50-93` | Exactly the matches on offer (a debit and a credit of one size in two accounts at most three days apart, neither in a confirmed pair, the pair undecided), once each, by the debit's day, the debit's id and the credit's id |
| `Transfers.CandidateIffOffered` | `src/finbreak/repositories/transfers.py:50-93` | The match rule and the undecided rule, written out |
| `Transfers.CandidateOrderIsUnique` | `src/finbreak/repositories/transfers.py:75` | That order determines the list |
| `Transfers.ConfirmMany` | `src/finbreak/services/transfer_detection.py:119-149` | The consumed-set loop confirms the greedy choice and never violates the unique-pair constraint |
| `Transfers.RejectMany` | `src/finbreak/services/transfer_detection.py:151-167` | Every distinct pair is recorded as rejected |
| `Transfers.ConfirmAll` | `src/finbreak/services/transfer_detection.py:169-173` | Leaves no candidate, and the books sound; of two matches that share a transaction the earlier in the query's order is confirmed |
| `Transfers.Record` | `src/finbreak/services/transfer_detection.py:176-184` | Refuses exactly a confirmed transaction, then a decided pair, each with its own error; otherwise records in canonical order |
| `Transfers.ChosenIsMaximal` | `src/finbreak/services/transfer_detection.py:119-149` | Chosen pairs share no transaction and every pair passed over clashes with a chosen one |
| `Transfers.NothingLeft` | `src/finbreak/services/transfer_detection.py:169-173` | Confirming all candidates in any order leaves none |
| `Transfers.ConfirmKeepsSound` | `src/finbreak/services/transfer_detection.py:119-149` | Confirming live candidates keeps each transaction in one confirmed pair of opposite amounts in two accounts |
| `Transfers.UnlinkOffersAgain` | `src/finbreak/repositories/transfers.py:109-118` | An unlinked pair is a candidate again exactly if its rows still match |
| `LedgerRuns.OperationKeepsSound` | `src/finbreak/services/statements.py:145-181` | Import, manual add, move, batch delete, confirm, reject and unlink each keep the one invariant |
| `LedgerRuns.Perform` | `src/finbreak/services/transfer_detection.py:119-184` | The services, run on the tables, do what the specification of each request says |
| `LedgerRuns.RunsStaySound` | `src/finbreak/migrations.py:194-236` | From the backfill on, in every state of every run: stamps name a period of the row's account, spans are unique, each transaction is in at most one confirmed pair, and pairs join opposite amounts in two accounts |
| `Sidecar.ReadIsWellFormed` | `src/finbreak/crypto.py:608-684` | Reading yields only records that can be written back, with costs and master slot no weaker than the format's floors |
| `Sidecar.ReadsIff` | `src/finbreak/crypto.py:608-684` | Exactly which JSON values read as a version-2 record: version 2, integer costs at or above the floors, flags of the right kind where present, and a sound master slot |
| `Sidecar.ReadsBack` | `src/finbreak/crypto.py:402-426` | Writing and reading a sidecar is the identity, unrecognised fields and damaged slots included |
| `Sidecar.RewriteKeepsTheRest` | `src/finbreak/crypto.py:332-426` | Editing one slot keeps every unrecognised field, the costs and flags, the other slots and damaged records |
| `Sidecar.AadBindsNameAndCosts` | `src/finbreak/keywrap.py:53-64` | Equal authenticated data means equal slot name and equal costs |
| `Envelope.RenamedSlotIsRefused` | `src/finbreak/keywrap.py:115-135` | A record written for one slot never unwraps under another name |
| `Envelope.OpensOnlyAsWritten` | `src/finbreak/keywrap.py:67-135` | A wrapped key opens exactly under the derived key and nonce it was wrapped with, for a slot of that name, with those costs recorded beside it |
| `Envelope.AuthService.CompleteFirstRun` | `src/finbreak/services/auth.py:250-322` | Refuses over an existing file; otherwise database, sidecar and session key are set; the password buffer is wiped either way |
| `Envelope.AuthService.WriteCredential` | `src/finbreak/services/auth.py:405-440` | Re-wraps the session's key under a fresh salt and the recorded costs; the secret is wiped on every exit |
| `Envelope.AuthService.RemoveRecoveryKey` | `src/finbreak/services/auth.py:386-397` | Removes the recovery slot of an unlocked vault |
| `Envelope.AuthService.OpenThroughSlot` | `src/finbreak/services/auth.py:478-540` | Missing slot, damaged record, wrong credential, unsupported level and broken pairing are told apart as the code does |
| `Envelope.AuthService.UnlockWithPassword` | `src/finbreak/services/auth.py:443-466` | The password route, with the buffer wiped on every exit |
| `Envelope.AuthService.UnlockWithRecovery` | `src/finbreak/services/auth.py:356-369` | The recovery route, which refuses a damaged slot before deriving, and wipes the payload exactly if it derives |
| `Envelope.AuthService.Lock` | `src/finbreak/services/auth.py:734-742` | Closes, wipes the key's buffer and drops it |
| `EnvelopeRuns.FirstRunEnrols` | `src/finbreak/services/auth.py:261-322` | A first run on an empty disk leaves a vault its password opens, under the current costs |
| `EnvelopeRuns.PasswordOpensIff` | `src/finbreak/services/auth.py:443-540` | The password opens the vault exactly if it is the last one set; a wrong one changes nothing |
| `EnvelopeRuns.RecoveryOpensIff` | `src/finbreak/services/auth.py:468-540` | The recovery payload opens it exactly if it is the last one kept and not removed since; a wrong one is turned down, and without a slot or with a damaged one the route is refused with its own error |
| `EnvelopeRuns.VerifiesIff` | `src/finbreak/services/auth.py:692-731` | In an unlocked session exactly the current password is accepted |
| `EnvelopeRuns.RefusalsAreTold` | `src/finbreak/services/auth.py:250-540` | What each route answers where it cannot go on: over an existing vault, without a session key, on a sidecar that is missing or unreadable, on a version-1 one; the disk is as it was |
| `EnvelopeRuns.WriteKeepsTheRest` | `src/finbreak/services/auth.py:405-440` | Every credential change re-wraps the same key and touches one slot of the sidecar only |
| `EnvelopeRuns.RemoveKeepsTheRest` | `src/finbreak/services/auth.py:386-397` | Removing the recovery key touches that slot only |
| `EnvelopeRuns.RunsStand` | `src/finbreak/services/auth.py:261-440` | After every run, from an empty disk or an enrolled vault, the disk is still empty or the credentials that open the vault are the last ones written |
| `EnvelopeRuns.RunsKeepTheKey` | `src/finbreak/services/auth.py:261-440` | Over every run from an enrolled vault the database key never changes |
| `EnvelopeRuns.FirstRunDecidesTheKey` | `src/finbreak/services/auth.py:261-440` | From an empty disk, requests before the first run change nothing, and after it the database stays under the key it drew, later first runs included |
| `EnvelopeRuns.KeyHeldIffOpenAfterIff` | `src/finbreak/services/auth.py:296-318` | A request keeps "a key is held exactly while the vault is open" exactly if it is no first run on a session that holds a key |
| `EnvelopeRuns.KeyHeldThroughoutIff` | `src/finbreak/services/auth.py:296-318` | That holds in every state of a run if and only if no request of the run is a first run on a session that holds a key |
| `EnvelopeRuns.SecondFirstRunKeepsTheKey` | `src/finbreak/services/auth.py:296-318` | That exception, as a concrete run: the refused call closes the connection and leaves the key |
| `Restore.Disk.Install` | `src/finbreak/services/backup.py:654-737` | The renames in order; the disk after each is the crash state of that step |
| `Restore.Disk.Prune` | `src/finbreak/services/backup.py:590-630` | Removes exactly the copies outside the kept stamps, but for files that cannot be removed |
| `Restore.CrashState` | `src/finbreak/services/backup.py:688-737` | File by file, what stands under which name at every crash point |
| `Restore.IncumbentSurvives` | `src/finbreak/services/backup.py:654-737` | At every crash point each incumbent file's bytes exist under the live or the stamped name |
| `Restore.NoForeignJournal` | `src/finbreak/services/backup.py:660-676` | A restored database never sits beside an incumbent journal |
| `Restore.UnlockNeverMispairs` | `src/finbreak/vault.py:161-171` | At no crash point does the unlock state pair a database with another vault's sidecar; over a whole vault a start unlocks at the two ends, takes the directory for a first run once all four files are aside and is refused as a mixed install in between |
| `Restore.RestoreKeepsTheReplacedVault` | `src/finbreak/services/backup.py:590-630` | A completed restore over a whole vault keeps all its files under one stamp through the prune, whatever the clock did |
| `Restore.RetryKeepsTheOriginalIff` | `src/finbreak/services/backup.py:590-630` | After a crash and a completed retry the original pair stands together exactly if the crash was not between the moves of database and sidecar and no older whole copy has a later stamp |
| `Restore.CrashBetweenTheMoves` | `src/finbreak/services/backup.py:590-630` | A concrete crash right after the database's move, after which the retry's prune takes it |

## Left out

- Widgets, timers, the event loop, logging, and the SQL text itself.
- Accounts, categories, rules and re-categorisation: ledger rows carry no category, and an import's re-filing of its own rows is not part of the model.
- Single-instance: an owner exiting while launches are in flight, a holder crashing inside its recovery, systems without `flock`, a claim file that cannot be opened (the code then recovers unserialised), and listen errors other than an address in use.
- SingleInstance.Act: a probe finds exactly the bound path and binding succeeds exactly on an absent one; a slow owner that misses the probe's deadline is not modelled.
- Recovery codes: text outside ASCII, where upper-casing and whitespace follow Unicode.
- Balance chain: text extraction, number formats, region finding and year inference (lines come classified), and family C.
- Calendar: dates before year 1 cannot arise; a date past year 9999 is the overflow error.
- Recurring, Forecast: display scaling (amounts stay in minor units, so the monthly equivalent is rounded half to even at that scale) and the confirm and dismiss decisions.
- Recurring.JudgeGroup: what the item says of its rows is stated for rows whose days are days of the calendar, as every Python `date` is.
- Reconciliation: its own small row and period types, since it reads no other fields of the tables.
- Drill-down: period resolution and the monthly trend; a leaf carries its row's id, which the source keeps only in the sort key, so that leaves can be told apart.
- PayeeNodes.CategoryHasOneNodeAPayee: assumes distinct transaction ids, as the primary key holds; TransferBranch.OneNodeARoute likewise for pair ids.
- DrillDown.BranchConservesIff: assumes that each row's category is in the table, as the foreign key holds; a row without one is dropped by the code.
- Imports.CommitImport: leaves out the re-categorisation of the inserted rows, because ledger rows carry no category.
- Imports: column mapping, file reading and profiles; date strings are day ordinals, and an endpoint that does not parse is `None`.
- Batch import: the scan, password and mapping ladders, the two size caps, cancelling and database failures during a run.
- BatchImport.RunStep: the failure reason is the error itself, not its text, and remembering a password cannot fail.
- BatchImport.ReviewPredictsRun: assumes previews built against the vault the run starts from, row numbers distinct within a file and valid spans, which the scan and the review screen establish; a file that fails at commit leaves its claims unmet.
- Statements: file names and import times of periods.
- LedgerRuns.RunsStaySound: assumes `SpansUnique(v5.periods)`, that is one period a span and none that ends before it starts, of the vault the backfill finds; no index holds it, only the import and the move do, so a vault an older version filled otherwise is not covered.
- LedgerRuns.Offered: requests are those the screens offer, that is confirming live candidates, rejecting existing rows and moving recorded statements; `_record` itself does not check the match rule.
- Envelope: the version-1 unlock and its conversion (`LeftOut` stands for them), password hints, throttling, idle locking, reset, and failures of the file system or the database during a write.
- Envelope.AuthService.OpenThroughSlot: leaves out the migration's resume (`LeftOut` stands for it) and the wiping of the derived and the unwrapped key, which are values here and not buffers.
- Sidecar: floating-point numbers, texts that spell the same bytes in capitals or with spaces are one variant, and object key order.
- EnvelopeRuns: the session's copies of key material that Python cannot wipe.
- Restore: reading, verifying and assembling a backup, flushing to stable storage, the migration's leftovers, and start-up recovery of an interrupted restore.
- Vault.open and Vault.close as database operations: only whether a connection is held.
