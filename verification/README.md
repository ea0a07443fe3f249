# Logistics sheet bookkeeping, modelled in Dafny

The system is a set of Streamlit pages that a cross-docking warehouse uses on
top of Google Sheets. Four of them are modelled:

- The receiving page binds arrived boxes to pallets. It gives each pallet an
  identifier `P<YYMMDD>-<WH3>-<SEQ36>-<C>`, whose sequence number is the row a
  pallet registry hands out. Before staging a binding it checks that no waybill
  goes over the box count the arrivals sheet allows. It then appends the staged
  pallet details under the detail sheet's existing header.
- The transfer-tracking page searches waybills with a multi-term query and
  writes a transfer (truck, cost, destination, time) for each selected
  waybill. The write is an upsert into a tracking sheet: the header is
  rebuilt with four tracking columns pinned last, rows already present are
  updated in place, and new waybills are appended.
- The two shipping pages split a truck's cost over the selected waybills (by
  charged weight) or over the locked pallets (by pallet weight). Shares are
  rounded to the cent and the last row absorbs the residual. The waybill page
  also hides waybills already shipped and appends under the shipping sheet's
  own header.
- The summary page cleans header names and resolves column aliases to
  canonical names.

The model is pure functions over strings, rows and maps. Spreadsheet reads
become arguments, writes become returned plans, and the clock, the CRC-32
routine and widget values become parameters. Money is held in integer cents,
so the conservation of a truck's cost is an exact theorem.

Modules:
- `Base`: `Option` and `Result`.
- `Seqs`: first-seen de-duplication and occurrence counts.
- `Text`: `strip`, digits and decimal text, substrings, and splitting into words.
- `Table`: `list.index`, frames and header alignment.
- `Tally`: the per-key accumulation loops.
- `PalletId` and `Registry`: the identifier and the `updatedRange` parse.
- `Binding`: the capacity check and the upload.
- `SheetAddress`, `Header`, `Upsert` and `TransferPage`: the transfer page.
- `CostSplit`, `Shipping` and `PalletLock`: the shipping pages.
- `Columns`: the summary page's loader.

## Model

| member | source | states |
|---|---|---|
| PalletId.ToBase36 | apps/test1.py:46-53 | zero encodes as `"0"`; any other number has no leading `0`; only `ALPHABET` symbols are used |
| PalletId.Base36RoundTrip | apps/test1.py:46-53 | reading the encoding back in base 36 gives the number |
| PalletId.Base36Canonical | apps/test1.py:46-53 | every base-36 text without a leading zero is the encoding of its value (the other direction of the round trip) |
| PalletId.Base36Injective | apps/test1.py:46-53 | distinct numbers get distinct encodings |
| PalletId.ToBase36Loop | apps/test1.py:46-53 | the `divmod` loop with the reversed symbol list computes the same text as the recursive definition |
| PalletId.Rjust | apps/test1.py:121 | `rjust` pads on the left to the width and never truncates |
| PalletId.LeadingZerosIgnored | apps/test1.py:121 | left-padding with `0` does not change the base-36 value |
| PalletId.SeqSegment | apps/test1.py:121 | the sequence segment has at least six symbols, more only when the number needs them, and decodes to the sequence number |
| PalletId.WarehouseSegment | apps/test1.py:112 | the warehouse segment is the upper-cased first three characters, or `UNK` when the warehouse is missing or empty |
| PalletId.DateStamp | apps/test1.py:113 | `%y%m%d` is six digits: year of century, month and day |
| PalletId.AssembleCore | apps/test1.py:122 | the core is `P`, the stamp, `-`, the warehouse, `-`, the sequence segment, field by field |
| PalletId.CheckSymbol | apps/test1.py:123 | the check symbol is the `ALPHABET` symbol at the CRC modulo 36 |
| PalletId.MakePalletId | apps/test1.py:104-124 | the identifier is the core, a `-` and the check symbol of the core |
| PalletId.ParseMakeRoundTrip | apps/test1.py:104-124 | every generated identifier validates, and its stamp, warehouse segment and sequence number read back |
| PalletId.WrongCheckRejected | apps/test1.py:122-124 | an identifier whose last symbol is not the core's check symbol fails validation |
| Registry.MatchAtMeaning | apps/test1.py:94 | the greedy match at a position succeeds exactly where `![A-Z]+(\d+):` occurs, and it captures that occurrence's digits |
| Registry.SearchFromMeaning | apps/test1.py:94-96 | the search finds a number exactly when the pattern occurs somewhere, and returns the number at the leftmost occurrence |
| Registry.ParseRowNumber | apps/test1.py:92-96 | for any sheet title without `!`, `title!<letters><row>:<rest>` yields `row` |
| Registry.ExampleRange | apps/test1.py:93-96 | `Sheet1!A42:C42` yields 42 |
| Registry.SequenceFromResponse | apps/test1.py:92-100 | the sequence number is the parsed row when the pattern matches, and otherwise `max(used, 2)`, which is at least 2 |
| Binding.ParseQty | apps/test1.py:231-234 | text that does not start like a number counts as 0 |
| Binding.ParseQtyRendered | apps/test1.py:231-234 | a whole number written with or without a fraction reads back as itself |
| Binding.LoadUploadedAllocations | apps/test1.py:190-235 | the map is empty when the sheet is empty or lacks `运单号` or `箱数`; otherwise a waybill is a key exactly when some long-enough row of this warehouse has it, stripped and non-blank, and its value is the sum of those rows' quantities |
| Binding.LocalAllocations | apps/test1.py:362-369 | a waybill is a key exactly when a record staged for this warehouse has it, stripped and non-blank, and holds the sum of their boxes |
| Tally.SumBy | apps/test1.py:348-351 | the accumulated dict has a key exactly when some pair carries it |
| Tally.SumByTotal | apps/test1.py:348-351 | each key holds the sum of every value paired with it |
| Tally.MergeSumBy | apps/test1.py:375-379 | merging the uploaded and the local maps is accumulating all their pairs together |
| Tally.KeyOrder | apps/test1.py:384 | the grouped waybills are exactly the entries' waybills, each visited once |
| Tally.KeyOrderSnoc | apps/test1.py:384 | dict insertion order: one more pair adds its key at the end exactly when no earlier pair has that key, so the keys come in first-seen order |
| Seqs.DedupSnoc | apps/app3.py:378-384 | first-seen de-duplication: one more element is added at the end exactly when it has not been seen |
| Tally.FirstValues | apps/test1.py:354-359 | `groupby().first()` keeps, per waybill, the first row that has a valid count |
| Binding.GroupedOrder | apps/test1.py:348-351 | the grouped waybills are exactly the stripped waybills of the form's entries |
| Binding.CheckCapacity | apps/test1.py:382-400 | waybills with no known capacity are listed as missing and never checked; a violation is recorded exactly when `already + add > allowed`, with overage `already + add - allowed` |
| Binding.CheckCapacityOne | apps/test1.py:382-400 | on one waybill the loop lists it as missing when there is no known capacity, records its violation when it would go over, and otherwise records nothing |
| Binding.CheckCapacitySplit | apps/test1.py:382-400 | the violations and missing waybills of a concatenation are those of its parts in turn, so both lists follow the grouped waybills' order, one entry at most per waybill |
| Binding.ReviewBinding | apps/test1.py:347-400 | there is a violation exactly when some entry's waybill would go over its known capacity, counting duplicates together and what is already allocated |
| Binding.Bind | apps/test1.py:346-426 | the binding is refused exactly when there is a violation; otherwise one record per entry is staged, in order, with the pallet id, the warehouse, the waybill and the boxes, the pallet's weight, length, width and height, the first matching arrival's customer number and ETA, and type `并板托盘` exactly when there is more than one entry; the staged records are exactly `RecordsOf` the entries; a refusal carries the review's own violations and missing list |
| Binding.StagedWithinCapacity | apps/test1.py:384-409 | after staging, every waybill with a known capacity stays within it |
| Binding.CapacityExample | apps/test1.py:384-400 | capacity 10 with 7 already bound and 5 added yields an overage of 2, and a waybill with no capacity is listed as missing |
| Binding.DuplicatesCheckedTogether | apps/test1.py:347-400 | two lines of 3 and 4 boxes for one waybill with capacity 6 are refused with an overage of 1 |
| Binding.FirstCandidate | apps/test1.py:414 | the arrival used is the first row of the filtered table with that waybill |
| Binding.RecordsOf | apps/test1.py:413-426 | one record per entry, in entry order |
| Binding.UploadFrame | apps/test1.py:516-519 | the upload frame has one row per staged record, under the renamed dimension columns |
| Binding.PlanUpload | apps/test1.py:540-552 | an empty sheet receives the frame's header and rows; otherwise each row has exactly the existing header's columns, in header order, with `""` under columns the frame lacks |
| Binding.UploadUnderSameHeader | apps/test1.py:546-552 | under a header equal to the frame's columns, each record's cells are written unchanged |
| Table.IndexOf | apps/test1.py:208-212 | `list.index` gives the first position holding the value, or nothing when it is absent |
| Table.AlignRows | apps/test1.py:546-552 | every aligned row has the header's length, and holds under each header column the frame's value of that name or `""` |
| Table.AlignToOwnHeader | apps/test1.py:546-552 | laying a frame out under its own columns, when they have no repeats, returns its rows |
| Header.NormWb | apps/app3.py:62-69 | a missing cell gives ""; stripped text with a character other than a digit or `.` is only stripped and loses one trailing `.0`; the only other result is a decimal form without leading zeros |
| Header.WholeNumberDigits | apps/app3.py:65-67 | the text is found to be a whole number exactly when it is at most 15 digits followed by nothing or by a point and zeros, and the digit count is returned |
| Header.NormWbWholeNumber | apps/app3.py:62-69 | at most 15 digits, leading zeros allowed, followed by nothing, `.0` or a point and zeros and surrounded by whitespace, normalise to that number's decimal form |
| Header.NormWbOfNumber | apps/app3.py:62-69 | a number's decimal text, with `.0` or with surrounding blanks, normalises to that text |
| Header.NormWbExamples | apps/app3.py:62-69 | `123456789.0` becomes `123456789`, ` 007 ` becomes `7`, and a missing cell becomes `""` |
| Header.IsBlank | apps/app3.py:71-76 | a text cell is blank exactly when it is missing or all whitespace |
| SheetAddress.A1Sheet | apps/app3.py:78-82 | a title with a space or any of ``!',;:[]`` is wrapped in single quotes around its doubled form; any other title is unchanged |
| SheetAddress.DoubleQuotesSplit | apps/app3.py:81 | the doubling works piece by piece over a concatenation |
| SheetAddress.DoubleQuotesOne | apps/app3.py:81 | a `'` becomes `''` and any other character stays as it is |
| SheetAddress.OneQuoteDoubled | apps/app3.py:81 | a text with one quote gets exactly that quote doubled and nothing else changed |
| SheetAddress.A1SheetExample | apps/app3.py:78-82 | the title `O'Hare` is written `'O''Hare'` |
| SheetAddress.A1SheetRoundTrip | apps/app3.py:78-82 | unquoting the quoted form recovers the title |
| SheetAddress.ColLetter | apps/app3.py:84-89 | the name is empty exactly when `n <= 0`, and uses only `A`-`Z` |
| SheetAddress.ColNumberOfLetter | apps/app3.py:84-89 | the name denotes `n` in bijective base 26 (`ColNumber` is the left inverse) |
| SheetAddress.ColLetterOfNumber | apps/app3.py:84-89 | every `A`-`Z` name is the name of its column number (the right inverse) |
| SheetAddress.ColLetterInjective | apps/app3.py:84-89 | distinct positive numbers get distinct names |
| SheetAddress.ColLetterExamples | apps/app3.py:84-89 | 1 is `A`, 26 is `Z`, 27 is `AA`, 52 is `AZ`, 702 is `ZZ`, 703 is `AAA` and 0 is `""` |
| SheetAddress.ColLetterLoop | apps/app3.py:84-89 | the `divmod(n - 1, 26)` loop computes the same name |
| Header.SanitizeHeader | apps/app3.py:91-104 | the output has the input's length; each position gets its stripped name (`col` when blank) on the first occurrence and `name_k` on the k-th repeat |
| Header.SanitizeHeaderLoop | apps/app3.py:91-104 | the loop with its `seen` counters computes the same labels |
| Header.BlankBecomesCol | apps/app3.py:91-104 | a blank name becomes `col` or `col_k` |
| Header.SanitizedDistinct | apps/app3.py:91-104 | the labels are all different, provided no stripped name already ends in `_` and digits |
| Header.SanitizeClash | apps/app3.py:91-104 | without that proviso the labels can clash: `a_1, a, a` becomes `a_1, a, a_1` |
| Header.PadRows | apps/app3.py:106-116 | the row count is kept; every row has exactly `n` cells; cells below `n` are unchanged and the padding is `""` |
| Header.PadRowsIdempotent | apps/app3.py:106-116 | padding twice is padding once |
| Upsert.NonTransfer | apps/app3.py:252-253 | the columns that are not tracking columns, in order |
| Upsert.PlanHeader | apps/app3.py:255-270 | the new header has no repeats and ends in exactly the four tracking columns; its names are the current columns, the dictionaries' keys and the tracking columns; it starts with the current non-tracking columns in order, and what follows them is new |
| Upsert.PlanHeaderUnchanged | apps/app3.py:255-273 | a header is kept as it is exactly when it already has the planned shape and names every key |
| Upsert.PlanHeaderIdempotent | apps/app3.py:255-273 | planning a planned header again changes nothing |
| Upsert.LastRows | apps/app3.py:284-289 | the index has a key for each non-blank waybill of the column, and maps it to the sheet row of the waybill's last occurrence, counting data rows from 2 |
| Upsert.RowValues | apps/app3.py:298-307 | the values follow the header order, with `""` for a key the dictionary lacks |
| Upsert.Route | apps/app3.py:292-312 | each dictionary becomes an update of the row its waybill is indexed at when the index has the waybill, and an append otherwise |
| Upsert.RouteBySplit | apps/app3.py:292-312 | routing a concatenation routes each part, the first part's updates and appends first, so both lists keep the dictionaries' order and of two updates of one row the later one is applied last |
| Upsert.RouteSplit | apps/app3.py:292-312 | the same split law for the page's dictionaries under a header and an index |
| Upsert.RouteOne | apps/app3.py:292-312 | one dictionary is one update of its waybill's indexed row, or one appended row |
| Upsert.StartHeader | apps/app3.py:243-247 | an empty header row is replaced by `运单号` alone, and any other header is kept |
| Upsert.PlanUpsertAsWritten | apps/app3.py:241-312 | the plan as the page builds it: on a header change the rows are only padded, and the index reads them under the new header's positions |
| Upsert.PlanUpsert | apps/app3.py:241-312 | the corrected plan: every existing row is laid out under the new header, and the writes are routed by the index |
| Upsert.AsWrittenWithoutRewrite | apps/app3.py:272-279 | when the header needs no change, the as-written plan and the corrected plan coincide |
| Upsert.CellsKeptByName | apps/app3.py:272-283 | in the corrected plan every existing cell stays under its column's name |
| Upsert.IndexReadsSheet | apps/app3.py:278-289 | in the corrected plan the index is built from the waybills the sheet holds |
| Upsert.UpdateIffPresent | apps/app3.py:284-312 | in the corrected plan a dictionary becomes an update exactly when its stripped waybill is non-blank and on the sheet, and the update targets that waybill's last row; otherwise it is appended |
| Upsert.RewriteMisreadsRows | apps/app3.py:272-289 | as written, a sheet with header `转仓卡车单号, 运单号` and row `T1, W1` is indexed under `T1`, so `W1` is appended a second time |
| Upsert.RewriteKeepsRows | apps/app3.py:272-312 | with the rows laid out by name, the same sheet keeps `T1` under the truck column and `W1` under `运单号`, and `W1` is updated in place at row 2 |
| TransferPage.Search | apps/app3.py:341-347 | a waybill is listed exactly when the table has it and the mask keeps it |
| TransferPage.SearchSplit | apps/app3.py:341-347 | searching a concatenation is searching each part, so the listed waybills keep their table order and their repetitions |
| TransferPage.SearchOne | apps/app3.py:341-347 | one waybill is listed exactly when the mask keeps it |
| TransferPage.SearchBlank | apps/app3.py:341-347 | a blank query lists every waybill |
| TransferPage.ListedMeaning | apps/app3.py:341-347 | a waybill is listed exactly when the query is blank or every whitespace-separated term equals some substring of it, ignoring case |
| TransferPage.OneTermQuery | apps/app3.py:341-347 | a one-word query lists exactly the waybills that contain the word, ignoring case |
| Text.WordsAreTerms | apps/app3.py:343-344 | the query's terms are non-empty and contain no whitespace |
| Text.WordsAfterSpace | apps/app3.py:343-344 | whitespace before a query does not change its terms |
| Text.WordsSplit | apps/app3.py:343-344 | the first term is the query's first run of non-whitespace characters, and the remaining terms are those of the text after the whitespace that ends it |
| Text.WordsOfLast | apps/app3.py:343-344 | a query ending in its last run of non-whitespace characters has that run as its last term |
| TransferPage.FindRow | apps/app3.py:368-376 | the source row used for a waybill is the first whose `运单号` is that waybill; there is none exactly when no row has it |
| TransferPage.TransferDict | apps/app3.py:376-384 | the dictionary has the source row's columns, then `运单号` and the four tracking columns; `运单号` holds the normalised waybill, the tracking columns hold the transfer, and every other column holds the source row's value |
| TransferPage.Gather | apps/app3.py:370-385 | the dictionaries and the skipped waybills together account for the whole selection |
| TransferPage.GatherSplit | apps/app3.py:370-385 | gathering a concatenation gathers each part, the first part's dictionaries and skipped waybills first, so both lists follow the selection order, repeats included |
| TransferPage.GatherOne | apps/app3.py:370-385 | one waybill becomes its dictionary when the source table has it, and is skipped otherwise |
| TransferPage.StageTransfer | apps/app3.py:360-389 | the write stops on an empty selection, then on a blank truck number or destination; it also stops when no normalised waybill is in the source table; otherwise each found waybill yields a dictionary and the others are skipped, both in selection order as gathered |
| TransferPage.StagedRowsCarryTransfer | apps/app3.py:360-391 | every row the upsert writes for a staged transfer ends in the truck, cost, destination and time, and the header has `运单号` |
| CostSplit.RoundHalfEven | apps/app1.py:207 | a share rounded to the cent is within half a cent of the exact share, and ties go to the even cent |
| CostSplit.RoundHalfEvenUnique | apps/app1.py:207 | that rounding is the only integer with those properties |
| CostSplit.Allocate | apps/app1.py:205-210 | one fee per row |
| CostSplit.Conservation | apps/app1.py:205-210 | the fees add up to the truck's cost, to the cent |
| CostSplit.AllocationRows | apps/app1.py:207-210 | every row but the last is its exact share rounded to the cent; the last absorbs the residual |
| CostSplit.Errors | apps/app1.py:207 | each row's rounding error is at most half a cent |
| CostSplit.LastRowResidual | apps/app1.py:208-210 | the last row differs from its exact share by at most half a cent per row |
| CostSplit.LastRowCanBeNegative | apps/app2.py:76-81 | with weights 2, 2, 2, 1 and a cost of 2 cents the fees are 1, 1, 1 and -1 cents |
| CostSplit.Ratios | apps/app1.py:205 | each ratio is the row's weight over the total weight |
| CostSplit.RatiosSumToOne | apps/app2.py:76 | the ratios add up to exactly one |
| CostSplit.SplitCost | apps/app1.py:191-210 | the split is refused for no selection, then for an empty truck number, then for a cost of zero or less, then for a weight that is missing or not positive; otherwise the fees conserve the cost |
| CostSplit.SplitCostAllocates | apps/app1.py:196-210 | an accepted split is the allocation of the weights |
| Shipping.Collect | apps/app1.py:100-106 | the set holds the stripped non-blank cells of the column, skipping rows too short to have it |
| Shipping.ShippedWaybills | apps/app1.py:86-106 | the set is empty when the sheet is missing, empty or has no `运单号`; otherwise a waybill is in it exactly when some data row has it under `运单号`, stripped and non-blank |
| Shipping.Unshipped | apps/app1.py:134-136 | a row is kept exactly when it is a merged row whose `运单号` is not in the shipped set |
| Shipping.UnshippedSplit | apps/app1.py:134-136 | filtering a concatenation is filtering each part, so the kept rows keep their order and their repetitions |
| Shipping.UnshippedOne | apps/app1.py:134-136 | one row is kept exactly when its `运单号` is not shipped |
| Shipping.UnshippedNone | apps/app1.py:135 | filtering by an empty set keeps every row, so the `if already` guard only saves work |
| Shipping.OfferedMeaning | apps/app1.py:134-136 | no waybill in the shipped set is offered, and every other row is |
| Shipping.UnshippedIdempotent | apps/app1.py:134-136 | filtering twice by the same set is filtering once |
| Shipping.CentsText | apps/app1.py:218-219 | `f"{x:.2f}"` has two digits after the point |
| Shipping.CentsRoundTrip | apps/app1.py:218-219 | the fee text reads back as the same number of cents, negative amounts included |
| Shipping.SetColumn | apps/app1.py:214-219 | writing a column overwrites it in place or appends it, and leaves every other column alone |
| Shipping.OutFrame | apps/app1.py:213-219 | each row carries its ratio text, its fee text, the truck number and the total, and keeps every other column of the selected row |
| Shipping.AppendRows | apps/app1.py:234-258 | the append stops when the sheet is missing or empty; otherwise each row has the header's columns, in order, filled from the frame or `""`, and `日期` gets today's date only when the header has it and the frame lacks it |
| Shipping.AddDate | apps/app1.py:251-252 | the frame gains `日期` with today's date on every row and keeps every other column |
| Shipping.AppendedRowsCarryCharges | apps/app1.py:213-258 | every appended row carries the truck number, its fee and the total under the header's columns of those names |
| Shipping.AppendUnderOwnHeader | apps/app1.py:254-258 | under a header that is exactly the frame's columns, without `日期`, the rows are written as they are |
| PalletLock.LockedIds | apps/app2.py:14 | the locked set holds exactly the locked pallets' ids |
| PalletLock.Others | apps/app2.py:15-18 | the unlocked table has exactly the shown pallets whose id is not locked, and none of them is ticked |
| PalletLock.OthersSplit | apps/app2.py:15-18 | the table of a concatenation is the tables of its parts in turn, so the shown order and repetitions are kept |
| PalletLock.OthersOne | apps/app2.py:15-18 | one shown pallet joins the table, with its tick box cleared, exactly when it is not locked |
| PalletLock.PartitionOfShown | apps/app2.py:14-18 | a shown pallet is locked exactly when it is absent from the unlocked table |
| PalletLock.ChargePallets | apps/app2.py:48-81 | nothing is charged for an empty lock, an empty truck number, a cost of zero or less, or a bad weight; otherwise every locked pallet, in order, is charged under the truck, the fees add up to the cost, and the fees are exactly those `SplitCost` gives for the pallets' weights, so each pallet but the last pays its rounded weight share and only the last takes the remainder |
| Columns.NormCol | apps/ship_summary_app.py:27-28 | a cleaned name has no no-break space and no line break, and no whitespace at either end; it keeps only characters of the input, and a name that is already clean is unchanged |
| Columns.WithoutSplit | apps/ship_summary_app.py:28 | removing a character works piece by piece over a concatenation, so every other character keeps its place |
| Columns.NormCols | apps/ship_summary_app.py:27-28 | the header keeps its length and order |
| Columns.NormColsIdempotent | apps/ship_summary_app.py:27-28 | cleaning a cleaned header changes nothing |
| Columns.Pick | apps/ship_summary_app.py:45-49 | nothing is picked exactly when no candidate is a column; otherwise the first candidate, in candidate order, that is a column is picked |
| Columns.FirstPresentUnique | apps/ship_summary_app.py:45-49 | only one candidate can be the first present one |
| Columns.Resolved | apps/ship_summary_app.py:61-72 | a canonical column reads the cell under the first alias the header has, or NA when it has none |
| Columns.Project | apps/ship_summary_app.py:61-81 | each of the five canonical columns is resolved through its aliases; the waybill is the stripped cell, or `<NA>` when no waybill alias is a column |
| Columns.FirstPerWaybill | apps/ship_summary_app.py:79 | the kept rows come from the input and carry distinct waybills |
| Columns.FirstPerWaybillCovers | apps/ship_summary_app.py:79 | every waybill of the input keeps a row |
| Columns.KeptRowsAreFirsts | apps/ship_summary_app.py:79 | the kept rows are exactly the first row of each waybill |
| Columns.LoadArrivals | apps/ship_summary_app.py:53-81 | an empty sheet loads nothing; otherwise the rows are the de-duplicated projections of the data rows under the cleaned header |
| Columns.MissingWaybillKeepsOneRow | apps/ship_summary_app.py:67-79 | without a waybill alias every row reads `<NA>` as its waybill, so at most one row is kept |
| Columns.AliasesResolve | apps/ship_summary_app.py:61-81 | a header `Waybill, 计费重` resolves the waybill and the weight through their aliases, and the other columns as NA |

## Left out

- Streamlit widgets, session state and caching are left out. Their values (selection, truck number, cost, destination, dates) are parameters.
- Reads from and writes to Google Sheets are left out. The sheet contents are arguments, and the upsert and the uploads are returned as plans.
- `zlib.crc32` is a foreign call, so it is a parameter `crc: string -> nat`.
- The clock is a parameter. This covers `datetime.now`, `utcnow`, `today` and the timestamp fallback for the sequence number.
- The registry `append_row` and its atomicity are properties of the backing store.
- Floating point is left out. Money is in integer cents, and `round(2)` is round-half-even of the exact share. Float noise in numpy's rounding is not modelled.
- The check that `abs(diff) >= 0.01` adds nothing in cents: a zero residual changes nothing.
- Weights are integers in a fixed unit. Parsing weight cells with `to_numeric` is not modelled.
- Columns.LoadArrivals: the page raises in two cases, and the model returns rows instead. First, when two header cells clean to the same picked name, such as `运单号` and `运单号 `, selecting that column yields a table, so stripping a duplicated waybill column or converting a duplicated 箱数, 体积 or 收费重 column to numbers fails. Second, a numeric header cell read with `UNFORMATTED_VALUE` makes cleaning the header fail. The model reads the first matching column and treats header cells as text.
- Columns.Project: the summary page reads the arrivals sheet with `UNFORMATTED_VALUE` and turns 箱数, 体积 and 收费重 into numbers with `_to_num`. The model keeps these three cells as text, because numeric parsing of them is float conversion.
- CostSplit.SplitCost: the sum-of-weights guard can never fire once every weight is positive, so no input reaches that refusal.
- The ratio column's percentage text is a parameter. The ETA date reformatting and the 托盘体积 rounding on the upload frames are left out.
- The cost a transfer writes is a text parameter. The source writes `float(t_cost)`.
- Header.NormWb: only digit texts of at most 15 digits, optionally followed by a point and zeros, get the float canonicalisation. Exponent forms, signs and other float spellings are returned as stripped text.
- Case folding is ASCII only. No Unicode normalisation is modelled.
- The `isnan`/`isinf` scrubbing of dictionary values is left out: values are text.
- TransferPage.FindRow takes the first row of a waybill. On a table with repeated waybills `idx_full.loc` returns several rows, and that is not modelled.
- Registry.SequenceFromResponse: the fallback's own failure path (a second timestamp) is not modelled.
- `excel_serial_to_date`, `_parse_date_series` and the date aggregates are not part of this model. Neither are the ratios, group sums and totals of the summary page. All of these are float arithmetic.
- The other loaders are not part of this model: `load_full_chain`, `load_transfer`, `load_ship_detail_df`, the receiving page's arrivals loader and the pandas merges.
- apps/app.py is not part of this model. It is an earlier revision of the receiving page.
- Binding.LocalAllocations: a staged record's 箱数 is a whole number. On the page a user can clear that cell in the editor, and `int(NaN or 0)` then raises, so the bind button fails; that failure is not modelled.
- Binding.ParseQty: a cell reads as a number only when it is an optional sign, digits, and an optional decimal fraction. Exponents, surrounding blanks and other float spellings read as 0.

## Findings

| source | as written | input that shows it | evidently intended | confidence | as-written member | corrected member |
|---|---|---|---|---|---|---|
| apps/app3.py:272-289 | When the planned header differs from the current one, the existing rows are only padded to the new width. The index then reads `运单号` at its position in the new header, which is a different column of those rows. | Tracking sheet with header `转仓卡车单号, 运单号` and row `T1, W1`, and one transfer for `W1`. The header becomes `运单号` followed by the four tracking columns. The index maps `T1` to row 2, so `W1` is appended as a duplicate. | Each existing row is read under its own column names, so `W1` is found at row 2 and updated in place. | not executed | Upsert.RewriteMisreadsRows | Upsert.RewriteKeepsRows |

The rest of the model uses the corrected plan, `Upsert.PlanUpsert`. The
lemmas `Upsert.UpdateIffPresent` and `Upsert.CellsKeptByName` are proved
about it.
