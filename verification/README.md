# Verified models of the option-data files, the books and the wheel-cycle accounts

A Dafny 4.11 project that models the parts of the repository with the most state and arithmetic, and proves what they
are for. `dafny verify dfyconfig.toml` checks all of it.

| files | what they model |
|---|---|
| `Bytes`, `GreatestCommonDivisor`, `SliceCodec`, `SliceRoundTrip`, `SlicePackable`, `SlicePacker`, `SliceLayout` | the schema-4 slice codec: bytes, column layouts, the two loops, the round trip, exactly which slices pack, and the format itself |
| `SliceKeys`, `FlatPart`, `SliceTables`, `StoredSlices`, `PartRows` | slice keys, and the four slice tables as a flat map keyed by day, look, expiry, strike and right |
| `FileState`, `SymbolFile`, `FileInvariant`, `FileRuns`, `AtTheMoney`, `StoredContents`, `RecordedDays`, `ListedIssues` | a symbol file's tables: the two transactions, the class that runs them, and what a stored day or retried piece leaves in each table |
| `Weekdays`, `DownloaderRuns`, `DownloadDays` | planning, resuming and ending runs, and what every run keeps |
| `ThetaDataSession`, `SessionAnswers` | request slots and one shared login, over every interleaving of the request threads, and how each call ends |
| `HedgeHandOvers`, `HedgeTotals`, `HedgeReplay`, `HedgeRows` | a cycle's timeline rewritten with the hedge marked at the hand-overs, every row it then has, and when it keeps its total |
| `GatewayWorker` | single-flight reconciliation with one queued rerun, and the draining shutdown |
| `ProRataSplit`, `InterestPeriods`, `StatementAttribution`, `StatementBooks`, `StatementCash`, `StatementImport`, `StatementReports`, `StatementGap`, `BooksCutOver`, `AccountStatements` | IBKR's statement to ledger entries, each row to its book, posted once, checked against its ending cash |
| `BookKeys`, `TickerSwitch`, `SwitchHistory`, `BookFigures`, `BookHistory` | tickers moved between the books at the mark, each book's figures and nightly history |
| `HedgeFifo`, `CashBreakEven`, `CycleCash` | first-in-first-out hedge cost, the cash break-even and the shares held |
| `StockBars`, `StockBarRefresh`, `RefreshedBars`, `StockBarAdjustments` | IBKR's stock bars in a file: what each refresh leaves, and when it is on one split adjustment |
| `SessionRuns`, `WeekdayRuns`, `MonthlyReturns` | covered days, maximal runs, monthly returns and drawdowns |

Code that changes things step by step is a class or a method with loops, proved equal to a function of the old state;
the properties are lemmas about that function over every input, run or interleaving. `SliceLayout`, `StoredSlices`,
`StoredContents`, `RecordedDays`, `ListedIssues`, `SessionAnswers`, `HedgeRows`, `StatementBooks`, `StatementReports`,
`CycleCash` and `RefreshedBars` state what comes out from what goes in alone, without those functions. Amounts and values are exact reals,
days and instants integers, and the code's 1e-9 tolerances comparisons with zero. A double is an opaque 8-byte code that
gives its number back (IEEE 754-2019, section 3.4), with NaN kept for a missing value. A database transaction is a step
that applies or leaves the state; IBKR, ThetaData and the clock are inputs.

## Where the code and its words differ

- `src/books/proRataSplit.ts:5` says the two parts always add back up to the amount exactly. They add up to the amount
  rounded to 6 decimals: exactly the amount if and only if it has no more (`ProRataSplit.PartsAddUp`).
- `src/books/statementAttribution.ts:93` says an interest row that names no month is for the month before its date.
  `setUTCMonth` carries days over, so a row of the 29th to 31st after a shorter month is for its own month; the exact
  condition is `InterestPeriods.UnnamedInterestMonth`.
- `src/backtest/cycleHedgeHandOvers.ts:13` says every cycle's rows add up to the same total as before. They do when no
  closing row exceeds the shares its contract holds and every Put held at the end meets a mark row
  (`HedgeReplay.TotalIsKept`); with positive marks they do not when just one of the two fails
  (`HedgeReplay.TotalIsKeptExactlyWhen`, `HedgeTotals.ClosingBeyondItsLot`, `HedgeReplay.HeldPutWithoutItsMark`).
- `src/books/statementAttribution.ts:7` says the ledger's total follows IBKR's ending cash to the cent. Its column keeps 6
  decimals of IBKR's 8 (`src/db/migrations/20261105200001_create_books.ts:35`), so it does while fewer than 19,998 rows
  have more (`AccountStatements.BooksFollowTheAccount`).
- `src/books/tickerSwitch.ts:17` says neither book's value changes at a switch. The request reads the flag and plans before
  it takes the lock (`src/routes/shortlist.ts:289-301`), so what happens in between is not in the plan: a fill moves
  unpaid (`SwitchHistory.FillAfterThePlan`), and a switch off between the two steps of a repeated switch on leaves the flag
  without its period (`SwitchHistory.FlagWithoutPeriod`), and the next one pays for legs that stay
  (`SwitchHistory.OffBetweenIsPaidFor`). `SwitchHistory.LockedKeepsExactlyWhen` is the exact condition.
- `src/backtest/backtestFileStockBars.ts:10` says every bar carries the same split adjustment. An adjustment that moves no
  compared close by a cent is not seen: `StockBarAdjustments.UnseenAdjustmentMixes`, and the three lemmas on exactly when.
- `src/books/statementImport.ts:16-17` takes a row first seen after the cut-over for new cash, whatever its date. That is
  so of a row that appears late (`StatementGap.LateRowIsNewCash`); a row the account's cash held at the cut-over, though
  its statement began after it, is in the opening balances already and is counted twice
  (`StatementGap.ReachingBackCountsTwice`). `StatementGap.GapIs` gives the gap in all cases.
- The cash identity of `src/books/statementAttribution.ts:8` does not name corporate actions, which the code posts; the
  account's moves in `StatementGap` include them.

## Model

| member | source | states |
|---|---|---|
| SliceRoundTrip.RoundTrip | scripts/backtest/symbol_file_slices.py:108-228 | For every row count, column kinds and mix of missing values that pack, unpacking gives the rows back, and it does so exactly when every number kept as a raw double is one |
| SliceRoundTrip.UnpackOfPack | scripts/backtest/symbol_file_slices.py:108-228 | Whatever packs unpacks, to the rows with each raw number read back through its double |
| SliceRoundTrip.ColumnReadBack | scripts/backtest/symbol_file_slices.py:114-228 | After every column the decoder stands where the encoder stood, 4- and 8-byte padding included, and has read the column and its units |
| SliceRoundTrip.CodeGivesStoredBack | scripts/backtest/symbol_file_slices.py:156-177 | base + code × step is the stored number, codes are never negative, and the code fits the width chosen |
| SliceRoundTrip.WidthIsNarrowest | scripts/backtest/symbol_file_slices.py:166-176 | No narrower width code could hold the largest code of the column |
| SliceRoundTrip.StrikeStepIsGreatest | scripts/backtest/symbol_file_slices.py:159-168 | The strike step divides every distance from the lowest strike, and so does nothing larger |
| SlicePackable.PacksExactly | scripts/backtest/symbol_file_slices.py:108-180 | A slice packs exactly when each column does, seen with the one before it alone: its right letters, its number cells, and base, step and scaled differences within the int32 fields |
| SlicePackable.OrdinarySlicePacks | scripts/backtest/symbol_file_slices.py:108-180 | Rows with numbers from 0 up to 2^30 units pack, whatever is missing and whatever the mix of columns |
| SlicePackable.CrossedQuotesDoNotPack | scripts/backtest/symbol_file_slices.py:151-178 | Numbers that each fit 32 bits can still fail to pack: a bid and an ask far apart both ways |
| SliceLayout.ReadsExactly | scripts/backtest/symbol_file_slices.py:183-228 | For any bytes whatever, unpacking gives certain rows exactly when the bytes hold those rows in the format: counts, rights, descriptor bits, base, step, null bitmap, padding, and each number as base + step × code, over the column before when it says so, in thousandths of a dollar, cents or units |
| SliceLayout.PackedHolds | scripts/backtest/symbol_file_slices.py:9-14 | What packing writes holds its rows in that format, and nothing after them |
| SliceLayout.DoublesOnlyWhenNeeded | scripts/backtest/symbol_file_slices.py:140-150 | A packed column keeps doubles exactly when a number of it is no whole count of its unit or has no 32 bits |
| SliceLayout.PackedChooses | scripts/backtest/symbol_file_slices.py:151-180 | Any other packed column has its lowest number as base, the greatest step (1 but for strikes), the narrowest width, and its null and difference flags only when needed |
| SlicePacker.PackSlice | scripts/backtest/symbol_file_slices.py:108-180 | The packing loop writes exactly the bytes of the specification, or raises where it does |
| SlicePacker.UnpackSlice | scripts/backtest/symbol_file_slices.py:183-228 | The unpacking loop reads exactly the rows of the specification, for any bytes |
| SlicePacker.PackUnits | scripts/backtest/symbol_file_slices.py:151-179 | A scaled column: differences over the previous one, layout, null bitmap and padded codes |
| SlicePacker.ChooseLayout | scripts/backtest/symbol_file_slices.py:156-167 | Base, greatest-common-divisor step and width of a column, by running minimum, maximum and gcd |
| SlicePacker.ReadScaled | scripts/backtest/symbol_file_slices.py:205-227 | A scaled column read back, its null bitmap and codes found at their offsets |
| Bytes.FieldRoundTrip | scripts/backtest/symbol_file_slices.py:168-176 | A little-endian field gives its number back exactly when the number fits it |
| Bytes.BitmapReadsBack | scripts/backtest/symbol_file_slices.py:116-139 | Every flag of a bitmap is read back from its byte and bit |
| Bytes.PaddedTo | scripts/backtest/symbol_file_slices.py:95-96 | The padded size is the least multiple of the alignment that holds the bytes |
| GreatestCommonDivisor.GcdOfIsGreatest | scripts/backtest/symbol_file_slices.py:159-165 | Folding gcd over the distances gives a divisor that every common divisor divides |
| SliceKeys.KeyFieldsReadBack | scripts/backtest/symbol_file_slices.py:45-67 | The three inverses give day, look and expiry distance back exactly when look and distance fit 16 bits |
| SliceKeys.KeyOfItsFields | scripts/backtest/symbol_file_slices.py:45-67 | Every integer is the key of its three fields |
| SliceKeys.KeyOrder | scripts/backtest/symbol_file_slices.py:45-47 | Keys are in the order of day, then look, then expiry |
| SliceKeys.DayKeyRangeIsTheDay | scripts/backtest/download_thetadata_symbol.py:436-438 | The key range of a day holds exactly that day's keys |
| PartRows.PartRowReadsBack | scripts/backtest/download_thetadata_symbol.py:407-433 | The numbers of a listed row survive the way into a slice and back exactly for expirations 0 to 65535 days away and looks within 16 bits |
| PartRows.SliceRowReadsBack | scripts/backtest/download_thetadata_symbol.py:407-433 | A slice row of a part's own keys survives the way out and back |
| FlatPart.MergedByKey | scripts/backtest/download_thetadata_symbol.py:466-488 | Merging contract by contract within one slice is merging all rows, looked at by that slice |
| FlatPart.ClashesByKey | scripts/backtest/download_thetadata_symbol.py:466-488 | The rows clash with the stored ones exactly when those of some slice do |
| FlatPart.MergedAppended | scripts/backtest/download_thetadata_symbol.py:471-487 | One more row is stored when its contract is new or it replaces, and changes nothing else |
| SliceTables.SliceTable.SliceCounts | scripts/backtest/symbol_file_slices.py:231-234 | The Calls and the Puts of a slice |
| SliceTables.SliceTable.WriteSlice | scripts/backtest/download_thetadata_symbol.py:448-459 | The slice written reads back as the rows; no other slice changes; a slice that does not pack leaves the table |
| SliceTables.SliceTable.MergeContracts | scripts/backtest/download_thetadata_symbol.py:476-486 | A slice's contracts after merging, and how many are new; an error exactly when failing on stored contracts meets one |
| SliceTables.SliceTable.MergePartRows | scripts/backtest/download_thetadata_symbol.py:466-488 | keep, replace and fail are left-biased union, override and disjoint union of the flat map; the result is the growth in keys; after an error each slice is merged or as it was |
| SliceTables.SliceTable.DeletePartRowsOfDay | scripts/backtest/download_thetadata_symbol.py:462-463 | The flat map without the day |
| SliceTables.SliceTable.CountPartRows | scripts/backtest/download_thetadata_symbol.py:506-508 | call_count + put_count over the key range is the number of the day's rows in the flat map |
| SliceTables.SliceTable.CountLooks | scripts/backtest/download_thetadata_symbol.py:511-514 | The distinct looks of the day's slices are those of its rows |
| SliceTables.SliceTable.HasRows | scripts/backtest/download_thetadata_symbol.py:517-524 | A slice in range, or of one expiration, is there exactly when a row is |
| SliceTables.SliceTable.ReadPartRows | scripts/backtest/download_thetadata_symbol.py:500-503 | Reading a day gives each of its rows once, in the order of look, expiry, strike and right |
| SliceTables.ByContractOfSorted | scripts/backtest/download_thetadata_symbol.py:441-459 | Sorting a dictionary of contracts and reading it back as a dictionary gives it again, in contract order |
| StoredSlices.StoredSliceSays | scripts/backtest/download_thetadata_symbol.py:400-404 | Each table's slice holds its rows in the bytes of that table's columns, counts its Calls and Puts, and flags any ask above 0 (10:00 quotes) or any volume (end of day) |
| SymbolFiles.SymbolFile.constructor | scripts/backtest/download_thetadata_symbol.py:527-565 | A new file is empty |
| SymbolFiles.SymbolFile.SettleIssues | scripts/backtest/download_thetadata_symbol.py:656-672 | Issues the day now holds rows for are deleted, left-out pieces listed once |
| SymbolFiles.SymbolFile.FetchMorning | scripts/backtest/download_thetadata_symbol.py:697-724 | The morning parts fetched: unavailable, or deleted, stored, counted and their issues replaced |
| SymbolFiles.SymbolFile.CompleteMorning | scripts/backtest/download_thetadata_symbol.py:725-741 | The morning parts completed: missing rows added, counts and flags brought up to date, issues settled |
| SymbolFiles.SymbolFile.CompleteIntraday | scripts/backtest/download_thetadata_symbol.py:743-757 | The intraday quotes completed within the stored strike window |
| SymbolFiles.SymbolFile.FetchIntraday | scripts/backtest/download_thetadata_symbol.py:759-778 | The intraday quotes fetched, in place of the day's |
| SymbolFiles.SymbolFile.StoreInOpenTransaction | scripts/backtest/download_thetadata_symbol.py:691-782 | The tables become what the specification of a stored day says, and the outcome is its outcome |
| SymbolFiles.SymbolFile.Store | scripts/backtest/download_thetadata_symbol.py:785-800 | All of store_day, or on any error the file as it was |
| SymbolFiles.SymbolFile.StoreRetried | scripts/backtest/download_thetadata_symbol.py:1134-1164 | All of a retried piece, or on any error the file as it was |
| StoredContents.StoredDayHolds | scripts/backtest/download_thetadata_symbol.py:691-782 | What a stored day holds of the rows retrieved: a fetched part each row once and nothing else, intraday quotes those whose strike is within the percentage of the at-the-money strike (all of them without a window or such a strike); a completed part what it held and the first of each missing row within the window stored; every other part and day what it held |
| StoredContents.RetriedPieceHolds | scripts/backtest/download_thetadata_symbol.py:1134-1164 | What a retried piece leaves: the last of its rows within the day's window for each contract, over what there was, and nothing else changed |
| RecordedDays.StoredDayIsRecorded | scripts/backtest/download_thetadata_symbol.py:691-782 | Unavailable exactly when parts to be fetched did not come back, and tallied so once more; done exactly when not and every completion came back; how many did not; and the day's two rows: data or none, every expiry, counts |
| RecordedDays.RetriedPieceIsRecorded | scripts/backtest/download_thetadata_symbol.py:1134-1164 | A retried piece changes no flag but that of the intraday quotes it brings, complete as before or when there are any |
| ListedIssues.StoredDayLists | scripts/backtest/download_thetadata_symbol.py:630-672 | Of every piece, whether and how often asked for it is listed after a stored day: of a fetched part just what was left out, of a completed one what was listed less what the day now holds, and what was left out |
| ListedIssues.RetriedPieceStands | scripts/backtest/download_thetadata_symbol.py:1134-1164 | A retried piece is settled by its answer, or counted once more when the request failed or a whole part is still without data |
| AtTheMoney.FindAtTheMoneyStrike | scripts/backtest/download_thetadata_symbol.py:370-385 | The strike whose Call and Put mids are closest, the lowest of several, at the nearest expiry from the next day on with a strike quoted on both sides; none when there is none |
| AtTheMoney.MidIsOfTheLast | scripts/backtest/download_thetadata_symbol.py:373-380 | A contract's mid is half of bid and ask of its last quote that has both, is not crossed, asks more than 0 and expires after the day |
| AtTheMoney.OneAtTheMoney | scripts/backtest/download_thetadata_symbol.py:370-385 | There is one such strike at most |
| AtTheMoney.SameRowsSameStrike | scripts/backtest/download_thetadata_symbol.py:675-688 | The day's 10:00 quotes as retrieved and as read back from the file, in any order, have the same strike |
| FileInvariant.StoreDayConsistent | scripts/backtest/download_thetadata_symbol.py:691-782 | Whatever the plan and the answers, storing a day keeps every day's counts equal to its slices, no-data days empty, complete days with a morning row, intraday rows only on complete days, and days without a row empty |
| FileInvariant.StoreRetryConsistent | scripts/backtest/download_thetadata_symbol.py:1134-1164 | So does recording a retried piece of a complete day |
| FileRuns.PlannedUnlessDone | scripts/backtest/download_thetadata_symbol.py:208-227 | A day is planned exactly when it is not fully stored |
| FileRuns.ReportedDoneIsDone | scripts/backtest/download_thetadata_symbol.py:691-782 | Of a planned day: reported done exactly when it is fully stored, reported unavailable exactly when it is listed so |
| FileRuns.StoreDayGrows | scripts/backtest/download_thetadata_symbol.py:691-782 | Storing a planned day loses no stored row of any part and changes none, although the code deletes |
| FileRuns.StoreDayRecords | scripts/backtest/download_thetadata_symbol.py:691-782 | Storing one day changes no other day's records |
| DownloaderRuns.LastFinishedSession | scripts/backtest/download_thetadata_symbol.py:187-195 | The latest weekday whose session is finished |
| DownloaderRuns.PlanDays | scripts/backtest/download_thetadata_symbol.py:198-227 | Every weekday in range up to the last finished session, and the plan of each not fully stored, in order |
| DownloaderRuns.ReadDayIssuesToRetry | scripts/backtest/download_thetadata_symbol.py:1119-1131 | Each listed piece of a complete day in range, not planned, with runs left, once |
| DownloaderRuns.RetriedPiecesAreOfDoneDays | scripts/backtest/download_thetadata_symbol.py:1119-1131 | A piece asked for again is of a fully stored day |
| DownloaderRuns.RetryKeeps | scripts/backtest/download_thetadata_symbol.py:1134-1164 | A recorded retry changes no flag, loses no contract, and settles its issue or counts one more attempt |
| DownloaderRuns.RetrySucceeds | scripts/backtest/download_thetadata_symbol.py:1146-1159 | A retry of a fully stored day never meets a missing row |
| DownloaderRuns.RunKeepsInvariant | scripts/backtest/download_thetadata_symbol.py:1407-1452 | Any sequence of stored days and retried pieces keeps the tables and slices in agreement, and unavailable days unfinished |
| DownloaderRuns.RunFromEmpty | scripts/backtest/download_thetadata_symbol.py:1407-1452 | After any run from an empty file each day's tables agree with its slices and an unavailable day is planned again |
| DownloaderRuns.DoneStaysDone | scripts/backtest/download_thetadata_symbol.py:208-227 | A fully stored day stays so and is never stored again |
| DownloaderRuns.RunLosesNothing | scripts/backtest/download_thetadata_symbol.py:1407-1452 | Over any run the contracts of every part only grow; runs that only store days change no stored value |
| DownloaderRuns.RetriesWithinBudget | scripts/backtest/download_thetadata_symbol.py:1119-1164 | A piece is asked for again at most three times over any run, and no more than its attempts leave room for |
| DownloaderRuns.AskedForThreeTimes | scripts/backtest/download_thetadata_symbol.py:1119-1164 | Over any run a listed piece no request brings counts every one, and is asked for again until there were three after the first |
| DownloaderRuns.StepKeepsPlans | scripts/backtest/download_thetadata_symbol.py:1433-1452 | A stored day or retried piece leaves every other planned day's plan, and every other listed piece, as they were |
| DownloaderRuns.PlannedAtOnceIsARun | scripts/backtest/download_thetadata_symbol.py:1433-1452 | The days and pieces planned when a run begins are still so when each is reached |
| DownloadDays.DownloadAllDays | scripts/backtest/download_thetadata_symbol.py:1282-1349 | Days are stored in order, all of them or up to the first that ends the run; at most eight days' requests are queued; the done days are counted |
| DownloadDays.CountFailures | scripts/backtest/download_thetadata_symbol.py:1316-1320 | A part's whole failures in a row, counted only while nothing is stored to check against |
| DownloadDays.ReferencesEndStreaks | scripts/backtest/download_thetadata_symbol.py:1316-1323 | Once rows of a part are stored its failures in a row can only end |
| DownloadDays.StopsExactlyWhen | scripts/backtest/download_thetadata_symbol.py:1316-1345 | The run stops exactly when some part failed whole on three days, and on every day between that fetched it, with nothing of it stored to check with |
| ThetaDataSessions.SessionIsSafe | scripts/backtest/download_thetadata_symbol.py:864-917 | Under every interleaving at most two requests are in flight, new logins never exceed the wait list, and each lost login is replaced once, in order |
| ThetaDataSessions.CallsAreBounded | scripts/backtest/download_thetadata_symbol.py:925-964 | A call makes at most 1 + retries + allowed logins requests, and a repeat after a lost session uses a later login |
| SessionAnswers.CallsEndAsAnswered | scripts/backtest/download_thetadata_symbol.py:925-964 | Over every interleaving, from the answers alone: a call ends answered, without data or refused just by such an answer; failed just by one that will not pass or by one that may pass with all retries used up; out of logins just when its client was the last login; else it waits or asks again |
| SessionAnswers.DoneCallsAreAnswered | scripts/backtest/download_thetadata_symbol.py:925-964 | When every thread is done each call ended by its last answer, or lost its session with no login left, or was cancelled |
| ThetaDataSessions.SomeThreadCanGoOn | scripts/backtest/download_thetadata_symbol.py:864-964 | No deadlock: while a call is unfinished some thread can go on |
| ThetaDataSessions.EveryRunEnds | scripts/backtest/download_thetadata_symbol.py:925-964 | Without new calls every interleaving ends after a bounded number of steps |
| ThetaDataSessions.RunKeepsInvariant | scripts/backtest/download_thetadata_symbol.py:864-964 | Every interleaving keeps lock, slots, logins and each call's counters in agreement |
| HedgeHandOvers.Rewriter.Rewrite | src/backtest/cycleHedgeHandOvers.ts:45-139 | The rewriting loop gives exactly the specified lots, rows and source indexes |
| HedgeHandOvers.Rewriter.Expire | src/backtest/cycleHedgeHandOvers.ts:53-66 | Lots that ran out get a row at their expiry and are emptied |
| HedgeHandOvers.Rewriter.MarkAtHandOver | src/backtest/cycleHedgeHandOvers.ts:68-104 | At the end of a moment with a hand-over each Put held from before is marked |
| HedgeHandOvers.Rewriter.LastHandOverOfMoment | src/backtest/cycleHedgeHandOvers.ts:141-149 | The destination of the moment's last hand-over row |
| HedgeRows.RowsAre | src/backtest/cycleHedgeHandOvers.ts:45-139 | With each input row come just: the rows of the Puts that ran out before it, the row itself with the premium its Put made since the last mark, and, when it ends a moment with a hand-over, a row for each Put open, bought before, unsettled and with a price, of (price ÷ factor − last mark) × shares; one for each and no other, each Put followed on its own through the rows |
| HedgeRows.LastRowsAre | src/backtest/cycleHedgeHandOvers.ts:137-139 | After the last row come the rows of the Puts left that nothing sold or marked, one for each |
| HedgeRows.RewritingFollows | src/backtest/cycleHedgeHandOvers.ts:45-139 | After any rows each contract's open lot has the shares, last mark and moment its Put has, followed on its own |
| HedgeTotals.EveryRowConserves | src/backtest/cycleHedgeHandOvers.ts:8-13 | After every row: emitted = original + open lots at their last marks − what closings took beyond their lots |
| HedgeReplay.TotalIsKept | src/backtest/cycleHedgeHandOvers.ts:13-139 | The cycle keeps its total, whatever the marks, when no closing exceeds the shares its contract holds by the rows before it and every purchase of a Put held at the end meets a later mark row |
| HedgeReplay.TotalIsKeptExactlyWhen | src/backtest/cycleHedgeHandOvers.ts:13-139 | With marks of 0 or more the total is at least the original when every closing fits and at most when no Put is left unmarked; with none of 0 each holds with equality exactly when the other condition does too |
| HedgeReplay.RewritingShows | src/backtest/cycleHedgeHandOvers.ts:106-136 | Before each row every contract has at most one open lot, and it is what the contract's own rows come to |
| HedgeReplay.FitsItsLot | src/backtest/cycleHedgeHandOvers.ts:122-128 | A closing is within the lot the code finds exactly when it is within what the rows before it leave held |
| HedgeReplay.HeldPutWithoutItsMark | src/backtest/cycleHedgeHandOvers.ts:129-133 | A Put held at the end that meets no mark row changes the total by its cost |
| HedgeTotals.OnlyHeldLotsStay | src/backtest/cycleHedgeHandOvers.ts:53-138 | Only lots held at the end are left open |
| HedgeTotals.ClosingBeyondItsLot | src/backtest/cycleHedgeHandOvers.ts:122-128 | One Put bought and two sold change the total |
| HedgeTotals.TimelineIsKept | src/backtest/cycleHedgeHandOvers.ts:41-139 | The input rows are kept in order, only hedge Puts' premiums change, added rows are hedge Puts', sourceIndexes is each row's own and never decreases |
| HedgeTotals.HandOverEndingIs | src/backtest/cycleHedgeHandOvers.ts:68-74 | A hand-over is marked after its moment's last row, for the last destination named |
| GatewayWorker.Worker.OnSigterm | src/ibkrGatewayWorker.ts:54-56 | Sets shuttingDown once |
| GatewayWorker.Worker.StartHandling | src/ibkrGatewayWorker.ts:152-161 | A handler starts and is counted unless shutting down |
| GatewayWorker.Worker.EndHandling | src/ibkrGatewayWorker.ts:170-172 | Its end is counted |
| GatewayWorker.Worker.Reconcile | src/ibkrGatewayWorker.ts:337-358 | A pass starts, or a rerun is queued, or nothing happens |
| GatewayWorker.Worker.EndPass | src/ibkrGatewayWorker.ts:377-384 | The lock is released and the queued rerun asked for |
| GatewayWorker.SingleFlight | src/ibkrGatewayWorker.ts:315-328 | In every order of events at most one pass body runs, a queued rerun has a pass to wait for, and a drained worker runs nothing |
| GatewayWorker.RequestsYieldOneRerun | src/ibkrGatewayWorker.ts:321-384 | Any number of requests during a pass start no pass then and yield exactly one later attempt after all of them |
| GatewayWorker.NothingStartsAfterSigterm | src/ibkrGatewayWorker.ts:41-72 | After SIGTERM no handler and no pass starts, and drained stays drained |
| GatewayWorker.DrainingEnds | src/ibkrGatewayWorker.ts:54-65 | After SIGTERM what runs ends the drain: as many ends as things running, and then it is drained |
| ProRataSplit.PartsAddUp | src/books/proRataSplit.ts:11-23 | The parts add up to the amount rounded to 6 decimals, to the amount itself exactly when it has no more decimals; both on its side of zero; Pluto's within half a step of its share |
| ProRataSplit.SmallAmountIsLost | src/books/proRataSplit.ts:3-6 | An amount below half a step splits to nothing |
| ProRataSplit.StoredNear | src/db/migrations/20261105200001_create_books.ts:35 | The ledger's column moves an amount by at most half a step, and not at all exactly when it has no more decimals |
| InterestPeriods.UnnamedInterestMonth | src/books/statementAttribution.ts:93-111 | An interest row that names no month is for the month before exactly when that month has the row's day, and for its own month otherwise |
| InterestPeriods.InterestOfTheThirtyFirst | src/books/statementAttribution.ts:103-106 | Interest of 31 March 2026 without a named month counts as March's |
| StatementAttribution.Attribution.Attribute | src/books/statementAttribution.ts:140-286 | The attribution loops give exactly the specified entries, problems and row keys |
| StatementAttribution.Attribution.AttributeTrades | src/books/statementAttribution.ts:160-177 | The trades' part, and the fills their taxes are matched by |
| StatementAttribution.Attribution.AttributeCash | src/books/statementAttribution.ts:179-217 | The cash transactions' part, and where each was placed |
| StatementAttribution.Attribution.AttributeTaxes | src/books/statementAttribution.ts:219-237 | The sales taxes' part |
| StatementAttribution.Attribution.AttributeTransfers | src/books/statementAttribution.ts:239-258 | The transfers' part |
| StatementAttribution.Attribution.AttributeCorporateActions | src/books/statementAttribution.ts:260-274 | The corporate actions' part |
| StatementBooks.EveryRowGoesToItsBook | src/books/statementAttribution.ts:11-20 | For every statement the entries are those of its rows, each with its kind, moment, review flag and book: a fill's ticker's book at the fill, Manual for a hedge's option; dividends at the ex-date; interest split by the daily cash of its month; what names no ticker by book value; a tax with what it is on; outside cash unallocated |
| StatementCash.StatementAccounts | src/books/statementAttribution.ts:6-9 | For every statement: each row key's entries add up to what its rows have to bring, every key is read in order, every unusable row is listed, entries are on their row's side of zero, and a tax inside a trade brings nothing |
| StatementCash.EveryRowIsPostedOrListed | src/books/statementAttribution.ts:140-286 | A row's entries add up to its amount, rounded when split; any other non-zero row is listed or inside a trade |
| StatementCash.OnlyTransfersWait | src/books/statementAttribution.ts:11-20 | Only cash in and out of the account, and taxes on it, waits in Unallocated, and all of it does |
| StatementImport.Books.ImportStatement | src/books/statementImport.ts:98-171 | The ledger, the gap, the new entries, the rows to review and the problems of one import, or its error or refusal with the ledger as it was |
| StatementImport.PostedExactlyOnce | src/books/statementImport.ts:15-17 | After any repeated or overlapping statements each row is in the ledger once, with its first reading that went through as the ledger keeps it, to 6 decimals |
| StatementImport.OpeningRowsStayOut | src/books/statementImport.ts:16-17 | A row in the opening cash is never posted |
| StatementImport.RepeatAddsNothing | src/books/statementImport.ts:15 | Importing a statement again adds nothing |
| StatementReports.TakenRowsAreHeld | src/books/statementImport.ts:98-171 | A row of a statement is in the ledger after its import exactly when it was, or may be posted |
| StatementReports.LiveStartTakesNothingEarlier | src/books/statementImport.ts:115 | Books started from live figures never take a row of before their start, over any imports |
| StatementReports.ReportsAre | src/books/statementImport.ts:25-171 | The gap is reported exactly when it is a cent or more, and a row is reported changed exactly when it differs from the one held by more than a millionth |
| StatementGap.GapIs | src/books/statementImport.ts:15-25 | For readings that obey the cash identity, rows that appear late and of any date among them, the gap is what the opening balances lack of the opening cash and what 6 decimals lose of every row since, less the rows posted that were in the opening cash, and those a statement imported earlier had seen and this one, ending after them, had not |
| StatementGap.GapIsRounding | src/books/statementImport.ts:15-25 | When no statement reaches back to moves the start had seen without holding them, and the last has seen what was seen before it and dated before its end, the gap is within half a ledger step for each row since with more decimals than the ledger keeps, besides what the opening balances lack |
| StatementGap.LateRowIsNewCash | src/books/statementImport.ts:16-17 | A row first seen after the cut-over and dated before it is new cash and leaves no gap |
| AccountStatements.StatementIsRead | src/books/statementAttribution.ts:6-9 | A statement that holds some of the account's moves, none a problem, with starting cash + its rows = ending cash, is attributed as those: each move's entries at its moment, kept in the ledger as it is due, no row twice in a book |
| AccountStatements.BooksFollowTheAccount | src/books/statementImport.ts:15-25 | Books started from one such statement, by any plan, and given any overlapping later ones, late rows among them: the last gap is at most half a step for each longer row since and the two opening balances, and none is reported while there are fewer than 19,998 such rows |
| StatementGap.ReachingBackCountsTwice | src/books/statementImport.ts:16-17 | A statement that reaches back before the cut-over's own posts rows that are in the opening cash |
| BooksCutOver.PlanBooksCutOver | src/books/cutover.ts:60-110 | Pluto's opening cash makes its book worth the starting value, both openings are the account's cash, and every leg is valued once |
| BooksCutOver.BooksOpenWithTheCash | src/books/cutover.ts:129-134 | The two balances as the ledger keeps them are the account's cash to within a step, just it when it and Pluto's part have no more decimals, and Pluto's book with its legs is worth the starting value to within half a step |
| BooksCutOver.LongsLessShorts | src/books/cutover.ts:103 | A book's legs at the start are its long ones at their last close, or entry price, less its short ones |
| TickerSwitch.BookTables.PlanTickerSwitch | src/books/tickerSwitch.ts:65-126 | The legs that move, their values, realised amounts and totals |
| TickerSwitch.PlanIs | src/books/tickerSwitch.ts:66-126 | A plan moves just the ticker's legs but the hedge's, in order, each at its live price, else last close, else entry price, its cost the mark it last moved at, else its entry price; a short leg's value below zero |
| TickerSwitch.BookTables.ApplyTickerSwitch | src/books/tickerSwitch.ts:128-156 | Of any plan, made whenever: the period, the transfers and the two payments; or, for a second open period or one ending before it starts, an error and the tables as they were |
| TickerSwitch.RefusesExactlyWhen | src/books/tickerSwitch.ts:129-131 | A switch on is refused exactly when a period of the ticker is open, a switch off exactly when one is that starts later |
| TickerSwitch.BookTables.AskBotEnabled | src/routes/shortlist.ts:288-290 | A request up to its transaction: the flag read without a lock, and the plan when it is to change |
| TickerSwitch.BookTables.SetBotEnabled | src/routes/shortlist.ts:291-304 | Its transaction: nothing when the flag says so by then; else the flag, and the switch when there is a plan; none of it on an error |
| SwitchHistory.AppliedValue | src/books/tickerSwitch.ts:128-156 | Whatever plan is applied, the receiving book gains the legs that change hands by then less the plan's total, the other book loses it, and the ledger's total stays |
| SwitchHistory.LockedKeepsExactlyWhen | src/routes/shortlist.ts:288-304 | While flags and open periods agree, a locked request is never refused, and keeps both books' values and the agreement exactly when the flag is as it was read and the legs that move are worth the plan's total |
| SwitchHistory.AskedIsUnchanged | src/books/tickerSwitch.ts:65-126 | A request locked as it was asked meets that condition |
| SwitchHistory.FlagsAlwaysAgree | src/routes/shortlist.ts:288-304 | Over any interleaving of the steps of requests in which nothing that counts changes between a request's two, flags and open periods agree |
| SwitchHistory.EveryStepKeepsExactlyWhen | src/routes/shortlist.ts:288-304 | After any such interleaving the next locked request keeps both books' values and the agreement exactly when nothing that counts changed since it was asked |
| SwitchHistory.SwitchIsNeutralExactlyWhen | src/books/tickerSwitch.ts:128-156 | A switch is refused exactly when it would open a second period; one that is not leaves each book's value exactly when the plan's total is worth the legs that change hands |
| SwitchHistory.FillAfterThePlan | src/routes/shortlist.ts:290-301 | A share bought between plan and lock moves unpaid |
| SwitchHistory.FlagWithoutPeriod | src/routes/shortlist.ts:290-301 | A switch off locked between the two steps of a repeated switch on leaves the flag set with no open period |
| SwitchHistory.OffBetweenIsPaidFor | src/routes/shortlist.ts:290-301 | The next switch off then takes $10 from Manual for a share that stays Manual's |
| SwitchHistory.TelescopesExactlyWhen | src/books/tickerSwitch.ts:14-16 | A plan keeps a leg's realised amounts telescoping exactly when its cost of the leg is the leg's cost when it is applied, or the leg is of nothing |
| SwitchHistory.RealizedTelescopes | src/books/tickerSwitch.ts:14-16 | Over any interleaving in which no switch moves the leg between the two steps of another that is applied, its realised amounts add up to its gain from entry to last mark |
| SwitchHistory.OwnersUnrealized | src/books/bookDashboard.ts:121-138 | A position's unrealised less what the transfers of its open legs realised is their gain since each one's last mark |
| SwitchHistory.PeriodsReplayRequests | src/books/tickerBookPeriods.ts:19-29 | Where nothing that counts changes between the two steps of a request, the book of a leg at any moment is that of replaying the locked requests, hedges always Manual |
| BookFigures.ComputeBookFigures | src/books/bookFigures.ts:12-22 | Each book may use its cash less what the account is short of, less its commitments, on total and on settled cash; it is limited exactly when the account is short, and nothing is available when IBKR's cash is unknown |
| BookFigures.UsableCashIsGuarded | src/books/bookFigures.ts:12-22 | A book that uses all it may leaves the other's and the unallocated cash, and both together use no more than the account has |
| BookFigures.AvailableLeavesTheReserve | src/books/bookFigures.ts:74-110 | Using all that is available, of the total or the settled cash, leaves the reserve percent of the book's value of its own cash, and that, the other book's cash and the unallocated in the account, and of one of the two just that |
| HedgeFifo.TakeOldest | src/backtest/cycleCashBreakEven.ts:55-67 | The oldest lots are taken first, lot by lot |
| HedgeFifo.TakeConserves | src/backtest/cycleCashBreakEven.ts:55-67 | Cost taken and cost left are the cost there was; shares taken are those sold or all there were |
| HedgeFifo.CostIsConserved | src/backtest/cycleCashBreakEven.ts:34-69 | Through any purchases and sales cost taken and cost remaining are the cost bought |
| HedgeFifo.FifoIsTheFirstShares | src/backtest/cycleCashBreakEven.ts:34-69 | However purchases and sales alternate, the cost taken is that of the first shares bought and the rest is held |
| CashBreakEven.HedgeRealizedByRow | src/backtest/cycleCashBreakEven.ts:39-69 | Each row's part of the hedge's P&L |
| CashBreakEven.HedgeCostConserved | src/backtest/cycleCashBreakEven.ts:34-69 | Per contract, through any sales and splits of a timeline, cost taken + cost remaining = cost bought |
| CashBreakEven.CycleCashBreakEven | src/backtest/cycleCashBreakEven.ts:90-100 | Net cost over the shares at the marks; none without shares |
| CycleCash.NetIsCash | src/backtest/cycleCashBreakEven.ts:24-73 | What the rows cost net is the cash they took: purchases and sales at their price, assignments at the strike, commission always paid, premiums when counted, and a hedge sale's premium less what its Puts cost |
| CycleCash.BreakEvenEndsFlat | src/backtest/cycleCashBreakEven.ts:3-101 | Selling the marked shares at a price ends the cycle with no cash in or out exactly when the price is the break-even |
| CycleCash.BreakEvenBeforeIsFlat | src/backtest/cycleCashBreakEven.ts:103-135 | And before each row: the shares held as its moment began, at that value, leave none of the cash taken |
| CashBreakEven.CashBreakEvenBeforeEachRow | src/backtest/cycleCashBreakEven.ts:111-136 | The running sums equal the prefix-sum definition for every row |
| CashBreakEven.OneValuePerMoment | src/backtest/cycleCashBreakEven.ts:111-116 | Rows of one moment share their value, on one split factor |
| CashBreakEven.RunningMeetsClosed | src/backtest/cycleCashBreakEven.ts:90-136 | The running value before a next moment is the whole timeline's |
| CashBreakEven.SharesHeldAfterEachMoment | src/backtest/cycleCashBreakEven.ts:138-148 | The shares once each row's moment is done |
| CashBreakEven.SharesHeldAtInstant | src/backtest/cycleCashBreakEven.ts:150-159 | The shares the rows up to an instant bring |
| CashBreakEven.SharesAgree | src/backtest/cycleCashBreakEven.ts:138-159 | On a timeline in time order the two agree |
| CashBreakEven.SharesOutOfOrder | src/backtest/cycleCashBreakEven.ts:138-159 | Out of time order they need not |
| StockBars.DayOfMinute | src/backtest/backtestFileStockBars.ts:145-148 | A 30-minute bar's key is of its day for every minute of it, and for no other |
| StockBars.BarFile.StoreBars | src/backtest/backtestFileStockBars.ts:54-92 | Every bar replaced, or written over the same days' with the others kept; nothing on an error |
| StockBars.BarFile.AddOlderDailyBars | src/backtest/backtestFileStockBars.ts:94-113 | Only bars before the first stored day are added |
| StockBars.BarFile.AddOlderIntradayBars | src/backtest/backtestFileStockBars.ts:115-134 | Only bars before the first stored day are added |
| StockBarRefresh.FindsNoReason | src/backtest/refreshFileStockBars.ts:141-185 | No reason against exactly when something is shared and every shared close is the same to the cent |
| StockBarRefresh.Refresher.Refresh | src/backtest/refreshFileStockBars.ts:217-359 | The refresh's kind and file as specified, or its error with the file as it was |
| RefreshedBars.FullRefreshLeaves | src/backtest/refreshFileStockBars.ts:217-359 | A full refresh leaves just the bars taken of the answers, those of days to store, each year's own |
| RefreshedBars.FullRefreshFails | src/backtest/refreshFileStockBars.ts:217-359 | And why one does not go through: no answer or no bar of a day to store, options from more than 14 days before the stock, a year without an answer, no 30-minute bar, a day given twice |
| RefreshedBars.FullOnlyWhenDifferent | src/backtest/refreshFileStockBars.ts:146-186 | A file that can take bars is fetched whole only when the closes it shares with what was fetched (of the last 45 days, of every day, or of its first year) do not agree to the cent, or none is shared |
| RefreshedBars.TailRefreshLeaves | src/backtest/refreshFileStockBars.ts:217-359 | The last month is written over the stored bars, whose other keys stay, a day keeping its implied volatility when none comes; and the closes shared of the last 45 days agree to the cent |
| RefreshedBars.OlderDailyRefreshLeaves | src/backtest/refreshFileStockBars.ts:217-359 | Just the days before the first stored one are added and every stored bar stays |
| RefreshedBars.OlderIntradayRefreshLeaves | src/backtest/refreshFileStockBars.ts:217-359 | Just the 30-minute bars of days before the first stored one are added, from 2006 or the first daily bar's year on |
| RefreshedBars.RefreshTakesTheWay | src/backtest/refreshFileStockBars.ts:129-145 | Bars are added only to a file of this version that reaches back far enough and ends at most 14 days before |
| RefreshedBars.AgreeToTheCent | src/backtest/refreshFileStockBars.ts:146-186 | Two closes agree exactly when both are known and nearest to one cent |
| StockBarRefresh.Refresher.FetchYears | src/backtest/refreshFileStockBars.ts:269-352 | The years' bars; no year is asked for twice in a refresh |
| StockBarAdjustments.RefreshKeepsOneAdjustment | src/backtest/refreshFileStockBars.ts:132-185 | One refresh of a file on one adjustment leaves it on one; only a full refresh drops bars, and the older modes change none |
| StockBarAdjustments.OneAdjustmentAlways | src/backtest/backtestFileStockBars.ts:6-11 | Over any refreshes the prices of all bars of both tables are on one factor, when each change of factor moves by a cent the price of a bar the refresh compares |
| StockBarAdjustments.MovedCloseDiffers | src/backtest/refreshFileStockBars.ts:141-158 | A change of factor that moves a compared price by a cent makes the closes differ |
| StockBarAdjustments.TailMixesExactlyWhen | src/backtest/refreshFileStockBars.ts:326-341 | A last month on another factor leaves the file on two exactly when it fits to the cent and does not replace every stored bar |
| StockBarAdjustments.OlderDailyMixesExactlyWhen | src/backtest/refreshFileStockBars.ts:315-325 | Daily bars on another factor do exactly when they agree to the cent and one is older |
| StockBarAdjustments.OlderIntradayMixesExactlyWhen | src/backtest/refreshFileStockBars.ts:293-314 | 30-minute bars on another factor do exactly when the first stored year's agree to the cent and one is older |
| StockBarAdjustments.UnseenAdjustmentMixes | src/backtest/refreshFileStockBars.ts:326-341 | A hundredth of a cent on a $10 stock: the refresh writes the last month over the bars, and they are on two factors |
| SessionRuns.FirstIndexFrom | src/backtest/cycleNoCallDays.ts:38-48 | The binary search splits the days at the day |
| SessionRuns.FirstIndexAfter | src/backtest/cycleNoCallDays.ts:50-54 | The same, after the day |
| SessionRuns.DaysCoveredBy | src/backtest/sessionAnalytics.ts:173-189 | A day is covered exactly when some leg spans it |
| SessionRuns.RunsOfDays | src/backtest/cycleNoCallDays.ts:83-92 | The runs are ordered, disjoint, maximal, complete, and concatenate to the wanted days |
| SessionRuns.CycleNoCallDays | src/backtest/cycleNoCallDays.ts:65-94 | The cycle's session days with shares and no Call, in those runs, and its days with a hedge Put |
| SessionRuns.CycleDaysAre | src/backtest/cycleNoCallDays.ts:67-68 | The cycle's session days are those from its opening to its closing, both included |
| SessionRuns.SharingIsBetween | src/backtest/cycleNoCallDays.ts:13 | Two wanted days share a run exactly when every session day between them is wanted |
| SessionRuns.ComputeDaysWithNoOptions | src/backtest/sessionAnalytics.ts:193-213 | The uncovered days counted, and the earliest of the longest runs |
| WeekdayRuns.FindWeekdayRuns | src/backtest/dataFileSummary.ts:143-155 | The runs as specified |
| WeekdayRuns.RunsCoverTheDates | src/backtest/dataFileSummary.ts:143-155 | A weekday is in some run exactly when it is one of the dates |
| WeekdayRuns.RunsCountTheDates | src/backtest/dataFileSummary.ts:143-155 | The runs' weekdays add up to the dates |
| WeekdayRuns.RunsAreApart | src/backtest/dataFileSummary.ts:143-155 | Between two runs a weekday is missing: none could be joined across a weekend |
| WeekdayRuns.SharingIsBetween | src/backtest/dataFileSummary.ts:143-155 | Two dates share a run exactly when every weekday between them is a date |
| WeekdayRuns.NotStored | src/backtest/dataFileSummary.ts:194-203 | The weekdays in range neither stored nor unavailable, ascending |
| WeekdayRuns.FullWeeksAreTheLast | src/backtest/dataFileSummary.ts:268-274 | The last full weeks, newest first |
| Weekdays.WeekendsAre | scripts/backtest/download_thetadata_symbol.py:187-195 | The days that are no weekdays are those whole weeks from Saturday 3 and Sunday 4 January 1970 |
| BookHistory.WholeHistory | src/books/bookDashboard.ts:30-43 | Σ daily P&L + Σ moved in = last value − first value |
| BookHistory.PnlTelescopes | src/books/bookDashboard.ts:30-43 | The same from any night on |
| BookHistory.OneNightEach | src/books/bookDashboard.ts:36-40 | A move after the first capture and up to the last falls in exactly one night, any other in none |
| BookHistory.EveryMoveOnce | src/books/bookDashboard.ts:36-40 | The nights' moves are all those moves, each once |
| BookHistory.PnlSince | src/books/bookDashboard.ts:59-67 | The P&L of the rows from a day on |
| MonthlyReturns.ComputeMonthlyReturns | src/backtest/sessionAnalytics.ts:94-108 | Each month's return from the end of the month before |
| MonthlyReturns.ReturnsTelescope | src/backtest/sessionAnalytics.ts:94-108 | Π (1 + monthly return) = last value ÷ start value |
| MonthlyReturns.EachMonthOnce | src/backtest/sessionAnalytics.ts:95-108 | Of days in order each month once, in order, its return taking the value at the last day of the month before, or the start, to that at its own last day |
| MonthlyReturns.ComputeDrawdowns | src/backtest/sessionAnalytics.ts:76-82 | Each fall is from the highest value so far, none exactly when no earlier value is higher, and never above 0 from a positive one |

## Left out

- SliceRoundTrip.RoundTrip: the scaling test compares exact reals, where the code compares rounded doubles (`scaled / unit != value`).
- SymbolFiles.SymbolFile.Store: the at-the-money strike is an input, which `AtTheMoney` finds among the 10:00 quotes; messages, reasons and timestamps of issues and unavailable days are not kept.
- SymbolFiles.SymbolFile.Store: a value that does not pack is an error of the class alone, rolled back; the specification of a stored day has no slices to pack.
- PartRows.PartRowReadsBack: the text of a quote's own time and of dates and looks; a row has their numbers.
- ThetaDataSessions.SessionIsSafe: the lock, slots and login counter are a state machine on values, one event for each atomic step, and not objects updated in place.
- DownloadDays.DownloadAllDays: what each day's requests bring is an input; how a part is asked for expiration by expiration, and the check that ThetaData still answers, are not modelled.
- GatewayWorker.Worker.Reconcile: what a pass does to positions; a pass is its start and its end.
- GatewayWorker.NothingStartsAfterSigterm: the 25-second limit of the drain and the exit itself.
- StatementAttribution.Attribution.Attribute: statement texts (Flex dates, descriptions, contract words in a tax row) are read beforehand; problems are row keys without words.
- AccountStatements.StatementIsRead: a tax read once with the row it is on and once without, and so split or dated otherwise.
- StatementImport.Books.ImportStatement: the log of imports, the text of problems, and the split of a deposit by an admin.
- TickerSwitch.BookTables.PlanTickerSwitch: labels of legs and where a mark came from; a leg's quantity stays the same between its moves, and marks have no more than the tables' 6 decimals.
- TickerSwitch.BookTables.SetBotEnabled: the limit on enabled tickers, and a ticker removed from the shortlist, whose period ends with nothing open; planning is one step, its prices being those of one moment.
- HedgeHandOvers.Rewriter.Rewrite: commission and price source of a row; `Date` texts.
- CashBreakEven.CashBreakEvenBeforeEachRow: with the hedge in the break-even, a purchase of hedge Puts of no quantity, which the code divides by.
- StockBarAdjustments.OneAdjustmentAlways: IBKR's answers within one refresh are on one factor of prices that do not change otherwise.
- SliceTables.SliceTable.ReadPartRows: every day of a part read at once.
- AtTheMoney.FindAtTheMoneyStrike: mids are exact reals, where the code compares differences of rounded doubles.
- StockBarRefresh.Refresher.Refresh: pauses, cancelling, request counts and the summary of the bars.
- MonthlyReturns.ComputeMonthlyReturns: a start, an earlier month's end or a highest value so far of zero, which the code divides by.
- The lookups behind the attribution (`loadAttributionContext`): inputs.
- `FileIntradayPrices`, reading the day's price at a look: easy lookups.
- Reasons and notes of no-Call runs, `computePnlSources`, `computeSortino`, `cagr`: text, or no exact property.
- Mapping ThetaData's frames to rows, opening and upgrading a symbol file, command line and events.
- Express routes, jobs, settings, the Telegram and IBKR connections.
