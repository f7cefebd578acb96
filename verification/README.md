# A verified model of the graph indexer

This project models, in Dafny, the parts of the DEX indexer and its GraphQL engine where a mistake
would be silent: the prices and volumes it publishes, the walk that values its history, the quotes it
gives and the router calls it builds from them, the query reader, the block cursor, the swap store,
and the per-address rate limiter.

The node, the database engine, the clock and the network are oracles: what they answer, and where they
fail, are parameters, but for the failures named under "Left out". Where the source updates something in place the model is a class or a loop,
proved equal to a specification function or predicate, and the promises are proved about that
specification. Where the source is an expression the model is a function.

| file | what it models |
|---|---|
| `Pricing.dfy` | token prices relaxed outward from the stablecoins |
| `Valuing.dfy` | what each trade was worth, in chain order, and the window's volumes |
| `Walk.dfy`, `Window.dfy` | which trades a pass reads, and the persisted mark |
| `DaySeries.dfy`, `SeriesBook.dfy`, `SeriesWrite.dfy`, `SeriesStored.dfy`, `Sums.dfy` | the day series: its meaning, its cells, its write cache, what the stored rows add up to |
| `SwapStore.dfy`, `Traded.dfy` | the promoted columns and the grouped totals |
| `SwapQuery.dfy`, `Sorting.dfy` | filter, sort and cut, in memory and pushed into SQL |
| `Cursor.dfy`, `Heal.dfy` | the block cursor and the loop that dates old rows |
| `ConstantProduct.dfy`, `Routing.dfy`, `Quoter.dfy` | the pair rule, the route search, the two pricing passes |
| `Calldata.dfy`, `SwapCall.dfy` | words, the packed path, the ABI layout, `POST /swap` |
| `Scanner.dfy`, `Arguments.dfy`, `GraphQL.dfy`, `Queries.dfy` | the query reader, and the queries it reads back whole |
| `RateLimiter.dfy`, `Units.dfy`, `Text.dfy`, `Wrappers.dfy` | the token bucket, exact decimal rendering, shared text |

The calldata layout is that of the Solidity Contract ABI Specification, section "Formal Specification
of the Encoding".

## Where the code and its promises part

Each of these is a lemma with a concrete run or with the exact condition.

- Prices depend on the order of the pools when two pools tie for a token's deepest quote at different
  prices, and the pools arrive in map order (`OrderIndependence`, `ConflictShows`, `TieExample`).
- The heal reports the store whole while rows are undated when enough dated rows sort ahead of them.
  For a window of any size, header times below a remaining block number are enough (`HealSeesIff`,
  `HealCanStopEarly`).
- A read of the undated rows that fails comes back empty, which the heal takes for a store with
  nothing left to date: it ends there for good, whatever is stored (`FailedReadEnds`,
  `FailedReadHappens`).
- What the one-time copy of dollar values into the new column misses, by failing or by skipping rows,
  no later start repeats: the column exists, so the copy counts as done. After any run the column is
  right exactly when every row that neither the copy got to nor the run wrote was worth nothing
  (`MissedFillStays`).
- `wholeDays` uses day 0 for "unset", so a timestamp in the first day of 1970, such as a small block
  number in an undated row, makes its first day depend on map order (`ScanFirstDayExact`).
- A pass writes part of a day when it reads the day in its tail batch, some of the day lies at or
  before the mark, and the head batch holds none of it (`PassDayWholeIff`). Over a table that holds
  still it never does.
- A row that comes to lie at or before the mark, because its trade arrived late or because it was
  dated late, is in no later tail batch while the mark can be read: it is written while dated only if a
  head batch still reaches it (`WalkSkipsNothing`).
- The tail walk skips rows. A row past the mark is passed over exactly when the read selected it and
  did not hand it over, or when a cut batch was kept whole and the row ties with its last time
  (`PassedOverIff`). One more trade in a single second than the limit is enough (`BusySecondSkips`);
  with fewer than the limit in every day, and reads that break off nowhere, it never happens
  (`TameRunPassesNothing`).
- The mark can go back, but only when a pass loses both its reads of it (`PassKeeps`).
- A re-genesis is noticed only by a process that already holds the old chain's hash. The hash is not
  persisted, so one started afterwards adopts the new chain's, keeps the old cursor, and reads nothing
  until the new head passes it (`NoticedIff`, `RestartForgets`).
- Only `pool` and `timestamp_lt` run below the LIMIT; every other condition is applied after the cut.
  For any filter at all, the answer is right at every limit if and only if each matching row is inside
  the pushed bounds and sorts strictly before every bounded row that does not match (`CutExact`).
  Otherwise some page comes back short, down to nothing while matches exist (`OtherFiltersMiss`). For
  a pool and a time bound that is: no stored pool respells the number asked for (`PushdownExact`).
- Evicting an idle bucket is observable exactly when three minutes do not refill it
  (`EvictionInvisibleIff`), and with a burst below one the first request exceeds the bound
  (`BoundNeedsBurst`).
- A day row whose write the database lost is remembered as written, so it is not written again until
  its cell moves or the process restarts (`LostWriteStays`). The stored rows are at every point those
  of writing every day every pass if and only if each write a pass suppressed was of a row the store
  already showed (`RunAgreesIff`). With no write lost that holds of every field
  (`SuppressionRefines`), and of the embedded token or pool description exactly when no suppressed
  write would have changed it (`ReferencesAgreeIff`).
- The stored pool rows of a day stop adding up to the protocol's row when a pass writes the day but
  not every row stored of it (`PassConservesIff`).
- `amountIn`'s extra unit is spent for nothing exactly when the division comes out even
  (`AmountInExactness`).
- The query reader takes a tab or line break before the first space after a name into the name
  (`NameReadIff`), and gives a field without arguments those of the first field inside it
  (`NestedArgumentsLeak`).
- A query whose arguments come to a value with nothing left but one opening brace makes the reader
  slice out of bounds, a Go panic rather than an error: exactly those do (`QueryPanicIff`,
  `LoneBraceCrashes`).
- `POST /swap` never checks that a hop starts where the one before it ended. The call crosses the pairs
  its hops name if and only if they do (`HopsMeetIff`); an accepted quote whose hops do not meet trades
  a pair that neither names (`HopsApart`).
- An exact-output call that pays in the chain's own coin may spend the input plus the tolerance, but is
  sent with the input alone: the value covers the limit exactly when the tolerance comes to nothing
  (`ValueCoversIff`). Whether coin is sent rests on the quote's input token alone, even when the path
  starts at another (`ValueOffPath`).

## Model

| member | source | states |
|---|---|---|
| Pricing.PriceTokens | indexer/valuation.go:446-491 | the loops, with their two early exits, compute exactly six full rounds from the pegged symbols |
| Pricing.PricedWithinSixHops | indexer/valuation.go:446-491 | the tokens priced are exactly those within six hops of a stablecoin through pools holding something of both sides |
| Pricing.PricedIffWithinHops | indexer/valuation.go:458-489 | after k rounds, from any anchors, exactly the tokens within k hops are priced |
| Pricing.PriceNeverChanges | indexer/valuation.go:466-489 | a price, once set, is the same after every later round |
| Pricing.PriceIsDeepestQuote | indexer/valuation.go:459-489 | a price set in round k+1 is for ever the quote of the first deepest live pool joining the token to one priced by round k |
| Pricing.PriceBalancesPool | indexer/valuation.go:459-489 | a price set in round k+1 is for ever the one at which some live pool's holding of the token is worth its holding of a token priced by round k; no other live pool joining it to the priced holds more worth on that side, and none before it in the list as much |
| Pricing.PegHolds | indexer/valuation.go:446-456 | exactly the tokens with a pegged symbol, trimmed and upper-cased, start with a price, and it is one dollar after every round |
| Pricing.RoundMeaning | indexer/valuation.go:459-489 | a round keeps every price and prices exactly the tokens some pool offers for |
| Pricing.ScanIsPick | indexer/valuation.go:460-480 | the running best is the first deepest offer |
| Pricing.Fixpoint | indexer/valuation.go:481-483 | once a round adds nothing no later one does, so breaking early loses nothing |
| Pricing.OrderIndependence | indexer/valuation.go:457-490 | every order of the pools gives the same prices if and only if no round sees two deepest offers that disagree |
| Pricing.ConflictShows | indexer/valuation.go:471-478 | such a disagreement is visible: exchanging the two pools changes the price |
| Pricing.TieExample | indexer/valuation.go:471-478 | two equally deep pools price the same token at 2 or at 5 dollars, by order alone |
| Valuing.OldRowsHeal | indexer/valuation.go:550-569 | for every int256, the signed text and the old unsigned decode of it are the same amount, so nothing needs re-indexing |
| Valuing.UnsignedLegIff | indexer/valuation.go:557-563 | reading past 2^255 as negative leaves an unsigned leg alone exactly up to 2^255 |
| Valuing.ValuedTrades | indexer/series.go:77-122 | every row of either read whose pool is listed, once, in the chain's own order, with both legs valued |
| Valuing.ValuedTradeMeans | indexer/series.go:100-110 | each trade carries its row's time and block, the pool as last listed, and for each leg separately that leg's amount scaled by its own token's decimals, and its worth at that token's price exactly when the leg reads and the token is priced |
| Valuing.ValuedTradesInOrder | indexer/series.go:112-121 | the trades come by time, then block, then log index |
| Valuing.LogIndexReads | indexer/series.go:128-135 | the log index is read back from an id as written, whatever the hash before it |
| Valuing.DayInOrder | indexer/series.go:112-121 | a day's trades of one pool keep that order, so open is the earliest trade's and close the latest's |
| Valuing.ValueSwaps | indexer/valuation.go:508-533 | the loop fills the pools' volumes, the tokens' volumes and each trade's worth as the three folds say |
| Valuing.VolumeIsItsTrades | indexer/valuation.go:508-533 | a pool's volume is the sum of what its own trades are written back with |
| Valuing.WorthIsItsLegs | indexer/series.go:54-66 | a trade is written back with the mean of its legs' worth, with the one there is, or not at all, as both, one or neither has a price |
| Valuing.TokenVolumeIsItsLegs | indexer/valuation.go:522-528 | a token's volume grows by the worth of the legs in that token, each its own |
| Valuing.VolumesSumToWorth | indexer/valuation.go:508-533 | all the pools' volumes add up to all the figures written back |
| Walk.DayStartMonotone | indexer/blocks.go:205-211 | a later time never has an earlier day, for negative times too |
| Walk.WholeDays | indexer/series.go:156-183 | for every batch, a short read is kept, and any other loses the day the scan settles on, in whatever order the map is ranged over |
| Walk.ScannedIsWhole | indexer/series.go:143-183 | with every day after the first of 1970, that is exactly the first or last day the batch spans, unless it is the only one |
| Walk.ScanFirstDayExact | indexer/series.go:160-165 | the scan finds the first day if and only if no day is day 0, or day 0 is visited last |
| Walk.Valuer.SeedSwap | storage/store_sqlite.go:358-364 | a row arriving, being dated, or written again as it was is one of the changes a run allows; a lost write changes nothing |
| Walk.Valuer.SwapsAfter | storage/store_sqlite.go:172-194 | what the read hands over of an earliest window of the rows past the mark, ties at the cut left open: all of it, none when the query fails, any part when it breaks off or rows do not decode |
| Walk.Valuer.RecentSwapsRaw | storage/store_sqlite.go:1018-1038 | the same of a latest window of the table |
| Walk.Valuer.Pass | indexer/valuation.go:193-212 | one pass over any table: both reads of the table and both of the mark, a failed one of which reads 0, and the mark written only when the values were and the batch reached past it, if that write succeeds |
| Walk.Valuer.PricedThrough | storage/store_sqlite.go:203-212 | the mark, or 0 when it cannot be read |
| Walk.PassedOverIff | indexer/series.go:94-101 | over any table, a row past the base that a batch leaves out lies at or before the newest time reached if and only if the read dropped it, or the batch was kept whole and the row ties with that time |
| Walk.BusySecondSkips | indexer/series.go:165-170 | for any limit, one trade more than that in one second leaves a trade behind the mark that no batch has written, with nothing left to walk |
| Walk.TailGoesOn | indexer/series.go:143-183 | over any table, a tail read handed over whole is empty only when nothing is past its base |
| Walk.TailSkipsNothing | indexer/series.go:96-101 | with days under the limit, the tail batch holds every row past its base up to the newest day it kept |
| Walk.HeadHoldsWholeDays | indexer/series.go:95-101 | with days under the limit, the head batch holds every row of each day it keeps |
| Walk.PassKeeps | indexer/valuation.go:193-212 | over any table and whatever answers, a pass leaves no row behind the mark unwritten but those that came late or were passed over, and takes the mark back only if both reads of it failed |
| Walk.PassAdvances | indexer/valuation.go:205-212 | over any table, a pass in which everything needed is answered moves the mark onto a later row while there is one |
| Walk.WalkSkipsNothing | indexer/valuation.go:193-212 | over every run over any table, whichever reads and writes fail or break off, with rows arriving and being dated at any timestamp: a row at or before the mark was in a written batch unless it came there late or was passed over, and a dated one was written while dated if and only if neither happened or some head batch took it up |
| Walk.WalkFinishes | indexer/valuation.go:193-212 | over any table that holds still, after as many fully answered passes as there are rows, nothing is past the mark, unless some pass lost both its reads of the mark |
| Walk.TameRunPassesNothing | indexer/series.go:143-155 | with days under the limit and reads that break off nowhere, no run ever passes a row over |
| Walk.MarkKeepsDays | indexer/series.go:143-155 | then, over a table that holds still, the mark never splits a day |
| Walk.TailDayWholeIff | indexer/series.go:143-155 | with days under the limit, a day in the tail batch is whole if and only if none of it lies at or before the time the tail was read from |
| Walk.PassDayWholeIff | indexer/series.go:82-101 | with days under the limit, a day a pass writes is whole if and only if the head batch holds any of it, or none of it lies at or before the time the tail was read from |
| Window.Earliest | storage/store_sqlite.go:176-177 | a set of the given size than which no other row is earlier |
| DaySeries.CandleMeaning | indexer/series.go:197-213 | open, high, low and close are the first, greatest, least and last of the positive prices, and an unpriced cell is blank |
| DaySeries.KeyInjective | indexer/blocks.go:213-217 | two day ids are equal if and only if they name the same subject, up to case, on the same day |
| DaySeries.KeyText | indexer/blocks.go:205-217 | a day's id is the lower-cased subject and the number of days since 1970 |
| DaySeries.PoolCellMeaning | indexer/series.go:335-350 | a pool's day exists exactly when it traded, counts those trades, totals their worth, and draws its candle from their ratios in order |
| DaySeries.TokenCellMeaning | indexer/series.go:356-374 | a token's day totals what changed hands and draws its candle from the prices the other legs put on it, in order |
| DaySeries.TokenDayMeaning | indexer/series.go:356-374 | read off the trades: a token's day is there exactly when a dated trade of that day has a leg in it, totals those legs' amounts and worth, and draws its candle from the other leg's worth over this leg's amount |
| DaySeries.PoolDaysSumToFactoryDay | indexer/series.go:345-354 | on every day the pools' counts and volumes add up to the protocol's |
| DaySeries.FactoryCountsEveryDatedTrade | indexer/series.go:337-354 | the protocol's counts over all days are the number of dated trades |
| DaySeries.StampsAddNothing | indexer/series.go:377-393 | stamping today's prices and holdings changes no count and no volume |
| SeriesBook.Days.CellAt | indexer/series.go:223-232 | the cell for the subject's day, created once, every other cell left alone |
| SeriesBook.RollTrades | indexer/series.go:332-375 | the three maps of cells, mutated trade by trade, hold the three folds |
| SeriesBook.RollDays | indexer/series.go:332-396 | trades first, then exactly today's cells of the listed subjects stamped |
| SeriesBook.StampToday | indexer/series.go:377-393 | pools, token prices, token holdings and the protocol's total, each onto today's cell |
| SeriesBook.RolledConserves | indexer/series.go:328-396 | over the three series as rolled, pools add up to the protocol on every day and the protocol to the dated trades |
| SeriesBook.StampClosesTheDay | indexer/series.go:328-383 | the price stamped onto today is the last observation of today's candle |
| SeriesBook.RolledDayMeans | indexer/series.go:332-396 | whatever is stamped, each pool's row counts its day's trades and adds up their worth, and each token's adds up its legs |
| SeriesBook.TokenToday | indexer/series.go:384-391 | a priced token's candle of today ends on its price, after what its trades fetched, and a held one says how much is held and what it is worth |
| SeriesBook.FactoryToday | indexer/series.go:392-393 | the protocol's row of today says what all pools hold |
| SeriesWrite.Writer.Put | indexer/series.go:263-270 | a cell equal to the one remembered is not written; any other is remembered, whether or not its write reached the store |
| SeriesWrite.Writer.WriteSeries | indexer/series.go:257-322 | over the three series, exactly the non-empty cells that differ from what is remembered are written, those the database loses excepted, and all are remembered |
| SeriesWrite.PassAgreesIff | indexer/series.go:249-270 | from stores that agree, a suppressed pass and one that writes everything agree if and only if each suppressed write was of a row already showing it |
| SeriesWrite.RunAgreesIff | indexer/series.go:249-322 | over any run of a process, whichever writes are lost, the stored rows, or their fields, are at every point those of writing every day every pass if and only if that holds of every pass |
| SeriesWrite.LostWriteStays | indexer/series.go:263-270 | a lost write is made good by no later pass while its cell stands still; writing every day makes it good with the next |
| SeriesWrite.SuppressionRefines | indexer/series.go:249-322 | while no write is lost, the fields of every stored day are at every point those of writing every day every pass |
| SeriesWrite.ReferencesAgreeIff | indexer/series.go:263-305 | with the cache in step, no field is missed, and a whole row is if and only if a suppressed write would have changed its embedded reference |
| SeriesStored.PassConservesIff | indexer/series.go:249-322 | after a pass that loses no write, the stored pool rows of a day add up to the protocol's row if and only if what the pass left unwritten of each differs by as much as its silent cells do |
| SeriesStored.StoredConserves | indexer/series.go:249-322 | over any such run they add up at every point, so long as each pass that touches the day writes over all that is stored of it |
| SeriesStored.SnapshotAddsUp | indexer/series.go:328-396 | every snapshot's batch adds up on every day, in volume always and in counts if and only if its silent cells do |
| SeriesStored.StoredRowMeans | indexer/series.go:263-322 | after a pass that loses no write every cell that says something is shown by its row, field by field for each kind, one newly written carries the pass's own description of its token or pool, and every other row is as it was |
| SeriesStored.StoredDayMeans | indexer/series.go:249-396 | then the stored row of a pool's or a token's day says what the snapshot's own trades of that day come to |
| Traded.Fold | storage/store_memory.go:489-501 | the memory store's loop, in any order, is the grouped count and sum |
| Traded.GroupedStep | storage/store_memory.go:493-499 | one more row adds one trade and its worth to its own group alone |
| Traded.GroupsSumToAll | indexer/valuation.go:229-234 | the pools' figures add up to all the rows' |
| Traded.AllTime | indexer/valuation.go:229-234 | the protocol's loop is that sum |
| SwapStore.Store.Init | storage/store_sqlite.go:96-105 | opening adds the column and fills it for the rows the fill gets to, or finds it there and does nothing |
| SwapStore.Store.ProjectAmounts | storage/store_sqlite.go:109-155 | the zero column of every row the read reaches becomes its document's dollar value and no other changes; on any failure none does |
| SwapStore.Store.SeedSwap | storage/store_sqlite.go:358-364 | a row is replaced together with all its columns, or, when the write is lost, not at all |
| SwapStore.Store.ValueSwaps | storage/store_sqlite.go:379-440 | all named rows revalued, document and column, and counted; or, on any failure, none |
| SwapStore.RunAgrees | storage/store_sqlite.go:96-165 | over every run of writes, valuations and re-openings, columns that agree with the documents keep agreeing |
| SwapStore.DocumentsAfter | storage/store_sqlite.go:358-440 | a row written holds the document written, a valued one the same with its new value, and nothing else changes, whatever fails |
| SwapStore.FirstOpenAgrees | storage/store_sqlite.go:96-155 | a database from before the column agrees after a first opening that gets to every row, and any run |
| SwapStore.MissedFillStays | storage/store_sqlite.go:96-155 | after a first opening that filled any rows or none, and any run whatever, columns agree if and only if every row neither filled nor written by the run was worth nothing |
| SwapStore.TradedAgree | storage/store_sqlite.go:239-258 | after any run the grouped query equals the memory store's fold of the documents, and the protocol's totals are the sums over all rows |
| SwapStore.HealKeepsTotals | indexer/blocks.go:156-166 | dating rows moves no pool's figures |
| SwapQuery.MatchesWhere | storage/store.go:195-254 | a row passes exactly when every condition's field exists and compares as its suffix says |
| SwapQuery.TimeConditions | storage/store.go:195-254 | a stored time passes each of the five conditions exactly as numbers compare |
| SwapQuery.AmountConditions | storage/store.go:195-254 | so does each amount whose text reads as a number, under its own name |
| SwapQuery.TextConditions | storage/store.go:184-193 | text that reads as no number matches the row's own id, pool or sender, whatever its case |
| SwapQuery.TextOrder | storage/store.go:133-154 | and is ordered as text |
| SwapQuery.UnknownNames | storage/store.go:216-219 | a name a swap does not have matches nothing |
| SwapQuery.FilterResults | storage/store.go:163-178 | the rows that pass, in their order |
| SwapQuery.FilterMeaning | storage/store.go:163-178 | the filter keeps exactly the matching rows, once each |
| SwapQuery.GetSwapsMemory | storage/store_memory.go:319-338 | a page of the matching rows: the right window, sorted |
| SwapQuery.GetSwapsSqlite | storage/store_sqlite.go:730-810 | a page of the rows inside the pushed bounds, then the whole filter |
| SwapQuery.SortedCutIsPage | storage/store.go:100-129 | sorting every row and cutting gives a page |
| SwapQuery.SqliteIsSound | storage/store_sqlite.go:776-809 | whatever the filter, the answer is a sorted duplicate-free list of matching rows within the limit |
| SwapQuery.PushdownExact | storage/store_sqlite.go:741-775 | for a pool and a numeric time bound, the SQL answers the filter's question at every limit if and only if no stored pool respells the one asked for as a number |
| SwapQuery.PageIsUnique | storage/store.go:115-128 | with distinct times two pages of one question are the same list |
| SwapQuery.CutExact | storage/store_sqlite.go:741-808 | for every filter, filtering above the limit answers the question at every limit if and only if each match is inside the pushed bounds and sorts strictly before every bounded row that is none |
| SwapQuery.SameList | storage/store_sqlite.go:730-810 | then, with distinct times, both stores answer the same list |
| SwapQuery.PushableLeads | storage/store_sqlite.go:741-761 | for a pool and a numeric time bound that condition is that no stored pool respells the one asked for |
| SwapQuery.OtherFiltersMiss | storage/store_sqlite.go:797-808 | the condition does fail: the latest trade of one sender is missed when somebody else traded later |
| Cursor.Indexer.EnsureGenesisHash | indexer/indexer.go:251-261 | the first answered hash becomes the baseline, and only the first |
| Cursor.Indexer.MaybeResetForRegenesis | indexer/indexer.go:293-335 | streak, probe, baseline and rewind in the source's order |
| Cursor.Indexer.Poll | indexer/indexer.go:498-558 | one poll's whole effect on cursor, streak, baseline and store |
| Cursor.FarBelowMeans | indexer/indexer.go:294 | away from the top of the uint64 range, far below means more than 128 blocks below a cursor more than 128 past the start |
| Cursor.PollReads | indexer/indexer.go:498-558 | a poll reads if and only if the head lies past the cursor, or past the start when it resets, and head and blocks were answered; it reads from the next block to the smaller of the head and 2001 blocks on, and the cursor ends there; otherwise nothing moves but for a reset |
| Cursor.CatchesUp | indexer/indexer.go:509-557 | over every run without a reset whose heads are at or past h and whose reads are answered, n polls take the cursor to h or 2001 * n blocks on |
| Cursor.RunCovers | indexer/indexer.go:498-558 | over every run, what was read since boot or the last rewind is one contiguous interval ending at the cursor |
| Cursor.BlockReadOnce | indexer/indexer.go:498-558 | a block was read if and only if it lies in that interval, and then once |
| Cursor.RewindNeedsProof | indexer/indexer.go:268-335 | the cursor goes back only after at least three successive heads far below it and a hash that differs from the baseline |
| Cursor.OneChainNeverRewinds | indexer/indexer.go:280-287 | on a run whose probes answer one hash or fail the baseline never becomes another, so nothing rewinds |
| Cursor.RegenesisIsNoticed | indexer/indexer.go:268-273 | a replaced chain that keeps answering its own hash is rewound to by the third low head, when another hash is held |
| Cursor.NoticedIff | indexer/indexer.go:268-335 | three low heads that all answer one hash bring a rewind if and only if another hash is already held |
| Cursor.RestartForgets | indexer/indexer.go:246-261 | a process without one reads nothing, over any run, while the head stays at or below its cursor |
| Heal.BlockTimes | indexer/blocks.go:41-80 | a block has a time exactly when its batch of at most 100 came back and its header parsed, and then that header's |
| Heal.StampTimes | indexer/blocks.go:91-118 | the poll goes on if and only if every block its logs name was answered for, and then each placeable log carries its block's time; nothing else about a log changes |
| Heal.SwapTable.UndatedSwapsRaw | storage/store_sqlite.go:1049-1073 | what the read hands over of the undated rows of an earliest window, nothing when the query fails |
| Heal.SwapTable.HealSwapTimes | indexer/blocks.go:128-169 | one pass asks for each row's block once, dates exactly the rows whose block answered and whose write was not lost, counts lost writes as healed too, and fails only when no header answered |
| Heal.StepMeans | indexer/blocks.go:156-166 | a row changes only if it was undated, its write was not lost and its header came back; then it gets the block it held and that header's time, and nothing else about it changes |
| Heal.SwapTable.KeepSwapTimes | indexer/blocks.go:179-203 | the retry loop, with polls writing dated rows between its passes, goes on until a pass finds nothing, or dates nothing and is cancelled; ended by a pass whose read was whole it leaves no undated row; with everything answered it ends so within one pass more than there were; of a row no poll wrote only block and timestamp ever change |
| Heal.FailedReadEnds | indexer/blocks.go:182-186 | a pass whose read fails is the last, reports the store whole, and leaves every row as it was |
| Heal.FailedReadHappens | storage/store_sqlite.go:1057-1060 | there is such a run over any table |
| Heal.SwapTable.KeepPass | indexer/blocks.go:181-196 | a pass whose read was whole and that finds nothing leaves no undated row; a fully answered one that finds any leaves strictly fewer |
| Heal.WindowSeesUndated | storage/store_sqlite.go:1053-1070 | while undated rows sort first, a window of any size finds work exactly when there is some |
| Heal.HealKeepsLayout | indexer/blocks.go:156-166 | a pass changes only block and timestamp, dates exactly what it counted, and keeps undated rows sorting first |
| Heal.HealSeesIff | storage/store_sqlite.go:1053-1057 | the read is sure to find work left if and only if fewer than the limit of dated rows sort ahead of every undated one |
| Heal.HealCanStopEarly | indexer/blocks.go:182-186 | for a window of any size, header times below a remaining block number make the heal report the store whole with a row undated |
| ConstantProduct.AmountOutIsGreatest | engine/quote.go:746-763 | a payout keeps the pool's invariant if and only if it is no more than amountOut |
| ConstantProduct.AmountOutAnswers | engine/quote.go:748-761 | there is an answer exactly for a positive input into a live pool |
| ConstantProduct.AmountOutWithinReserve | engine/quote.go:736-763 | the payout stays below the reserve and the product of the reserves never falls |
| ConstantProduct.AmountOutMonotone | engine/quote.go:748-763 | a larger input never pays less |
| ConstantProduct.AmountOutIs997 | engine/quote.go:740-763 | at 3000 parts per million it is the 997/1000 formula, to the last unit |
| ConstantProduct.AmountInAnswers | engine/quote.go:765-774 | there is an answer exactly for a positive amount below a live pool's reserve |
| ConstantProduct.AmountInBounds | engine/quote.go:768-781 | amountIn(o) keeps the invariant for o, and so does any larger input; nothing below amountIn(o) - 1 does |
| ConstantProduct.AmountInExactness | engine/quote.go:778-780 | one unit less would do exactly when the division is even |
| ConstantProduct.GaloisPair | engine/quote.go:748-781 | paying amountIn(o) buys at least o, and whatever buys o is at most one unit cheaper |
| Routing.Routes | engine/quote.go:478-533 | the loops give direct pools, then ranked middles, cut at 24 |
| Routing.AllRoutesExact | engine/quote.go:471-527 | before the cut, each direct pool and each ordered pair of pools meeting at a third token appears exactly once, and nothing else |
| Routing.RoutesExact | engine/quote.go:471-533 | at most 24, none twice, each a real path, direct ones first, and all of them when there are no more than 24 |
| Routing.CutKeepsTheBest | engine/quote.go:490-531 | a route that was cut never ranks before one that was kept: by how many pools of the book, direct ones aside, hold the middle token, then by the first pool's address |
| Quoter.Leg.Absorb | engine/quote.go:683-732 | the pool's answer fills the side that was asked for and nothing else |
| Quoter.Feed | engine/quote.go:621-636 | each answer reaches the next leg along, in one route's legs |
| Quoter.PriceReady | engine/quote.go:587-637 | with nothing to ask nothing moves; a failed batch moves nothing; otherwise every waiting leg of every route is answered and fed on |
| Quoter.QuietStays | engine/quote.go:602-604 | a route with nothing left to ask is the same after every further pass |
| Quoter.PassesFollowFlow | engine/quote.go:410-426 | after k passes exactly the first k hops along the flow have answered, each asked about the one before |
| Quoter.PassesSuffice | engine/quote.go:410-426 | as many passes as hops finish a route, and more change nothing: two for the routes searched |
| Quoter.QuotedLinks | engine/quote.go:621-636 | in a finished route each leg's output is the next leg's input |
| Quoter.PricedIff | engine/quote.go:242-251 | a finished route is priced if and only if every hop in turn answered with a positive amount |
| Quoter.ExactInputReplays | engine/quote.go:683-713 | an exact-input quote over pairs replays to exactly what it quoted |
| Quoter.ExactOutputSuffices | engine/quote.go:683-713 | an exact-output quote over pairs, pushed forward, pays at least the amount asked |
| Quoter.QuoteReplays | engine/quote.go:401-448 | both, for whole priced routes of pairs, each entered on the reserve of the token paid and left on that of the token bought |
| Quoter.LegTrades | engine/quote.go:683-732 | a priced leg through a pair keeps the pair's invariant on its own reserves, takes less than the whole of one, and could not have had a unit more or paid two less; through any other pool it is the quoter's own answer |
| Quoter.Choose | engine/quote.go:432-447 | the first priced candidate that none beats, or none when none is priced |
| Quoter.Search | engine/quote.go:410-448 | a winner among the fully quoted routes, given only when every batch that was needed came back; otherwise, or when no route is priced, nothing |
| Quoter.Desk.Classify | engine/quote.go:537-583 | every pool not yet known is asked about in one batch; those that answered are recorded, and a failed batch records nothing |
| Quoter.Desk.Best | engine/quote.go:399-448 | nothing when a needed venue batch failed; otherwise such an answer, over the venues known by then |
| Quoter.VenueStays | engine/quote.go:537-541 | a recorded venue never changes, and a book whose pools all answered has nothing left to ask |
| Quoter.VenuesAreTrue | engine/quote.go:537-583 | over every run of requests, if pools answer truly or not at all, exactly those that answered while in the book are recorded, truly |
| Quoter.WinnerIsBest | engine/quote.go:399-448 | with at most 24 routes in the book, no priced direct or two-hop route of it pays more than the winner, or for a fixed output costs less |
| Quoter.AnswerTrades | engine/quote.go:399-448 | what the search answers leads from the token paid to the token wanted through pools of the book, is fixed at the caller's amount, carries each amount over, and every leg is such a trade |
| Quoter.DeskTrades | engine/quote.go:399-448 | over the recorded venues: a pool recorded as a pair trades by its reserves, any other by the quoter |
| Calldata.NumWordRoundTrip | engine/quote.go:1003-1006 | an integer below 2^256 is one word and reads back as itself |
| Calldata.NumWordWidth | engine/quote.go:1003-1006 | it is one word if and only if it is below 2^256 |
| Calldata.AddrWordIsWord | engine/quote.go:1008-1011 | an address is one word: twelve zero bytes and its digits, lower-cased |
| Calldata.Words | engine/quote.go:1013-1026 | the loop splits the data word by word and stops at the first that is no number |
| Calldata.WordsRoundTrip | engine/quote.go:1013-1026 | it undoes laying words end to end, prefix or not |
| Calldata.SignedRoundTrip | indexer/indexer.go:823-833 | two's complement reads back for every int256 |
| Calldata.EncodePath | engine/swap.go:270-279 | the loop writes addresses and fees by turns |
| Calldata.PathRoundTrip | engine/swap.go:265-279 | decoding the packed path recovers every token and fee, and its length is 20 bytes a token and 3 a fee |
| Calldata.Reverse | engine/swap.go:281-287 | the loop reverses |
| Calldata.PathCallWidth | engine/swap.go:252-263 | the path call is a whole number of words |
| Calldata.PathCallRoundTrip | engine/swap.go:248-263 | an ABI decoder that follows the offsets recovers path, recipient, amount and limit |
| SwapCall.SlippageBounds | engine/swap.go:154-160 | for any slippage sent, the lower bound is at most and the upper at least the amount, and the upper fits a word; `LimitMeans` says what each is |
| SwapCall.SlippageMonotone | engine/swap.go:221-244 | a wider tolerance loosens both bounds |
| SwapCall.SingleRoundTrip | engine/swap.go:165-177 | the one-hop calls decode to the order they were built from |
| SwapCall.PathOrderRoundTrip | engine/swap.go:170-183 | so do the multi-hop calls, the exact-output path being reversed |
| SwapCall.DecodeBuilt | engine/swap.go:163-183 | whichever of the four calls was chosen decodes to the order |
| SwapCall.MeaningFits | engine/swap.go:112-161 | an accepted quote's order fits the calldata's fixed widths |
| SwapCall.HandleSwap | engine/swap.go:79-214 | refused exactly for the first reason found; otherwise the call decodes to the quote's tokens, fees, recipient, amount and bound, and the value sent is the quoted input for native input and nothing otherwise |
| SwapCall.RefusalIs | engine/swap.go:79-150 | each refusal is given exactly when it is the first thing wrong, and none exactly when nothing is |
| SwapCall.LimitMeans | engine/swap.go:154-183 | the limit in the call is the other amount less, or for a fixed output more, the tolerance sent, held between 0 and 100 percent and a half when none is sent, in whole hundredths of a percent, rounded down and never past a word |
| SwapCall.MeaningIs | engine/swap.go:112-214 | the call's tokens in travel order with the coin as the wrapped token, its fees and recipient are the quote's own, and the value sent is the input amount exactly when the coin goes in |
| SwapCall.UpAddsNothingIff | engine/swap.go:231-244 | the upper bound is no more than the amount if and only if amount times basis points is below 10000 or the amount is the largest word |
| SwapCall.ValueCoversIff | engine/swap.go:178-206 | a native exact-output call is sent as much as it may spend if and only if that is so of the quoted input |
| SwapCall.ValueOffPath | engine/swap.go:200-206 | an accepted quote that names the native coin as its input sends coin along a path that starts at another token |
| SwapCall.HopsMeetIff | engine/swap.go:119-152 | an accepted quote's order crosses exactly the pairs its hops name if and only if each hop starts where the one before it ended |
| SwapCall.HopsApart | engine/swap.go:147-151 | an accepted quote from 1 to 2 and from 3 to 4 is built into a path that trades 2 for 4 |
| Scanner.FindMatchingParen | engine/engine.go:537-564 | the first `)` that closes what opened, counting braces and stepping over strings, or -1 |
| Scanner.FindMatchingBrace | engine/engine.go:474-499 | the same for braces alone |
| Scanner.QueryDepth | engine/engine.go:658-684 | the greatest brace depth outside strings |
| Scanner.FindConcat | engine/engine.go:476-499 | scanning two texts in a row is scanning one, then the other from where it left off |
| Scanner.FindCloses | engine/engine.go:539-564 | the bracket right after a level text is the one found |
| Scanner.FindIsFirst | engine/engine.go:474-564 | what is found is the first bracket that closes the one opened, and nothing exactly when there is none |
| Scanner.StringLevel | engine/engine.go:543-550 | a quoted string, escaped quotes and brackets included, is stepped over |
| Arguments.ParseArgs | engine/engine.go:566-656 | the loop and its recursion read what the specification reads, a Go panic included |
| Arguments.ParseValue | engine/engine.go:594-645 | quoted text, nested object or bare token, and what is left after it |
| Arguments.ValueReads | engine/engine.go:594-645 | a printed value is read back whole, and what is left is what stood after it |
| Arguments.ArgumentsRoundTrip | engine/engine.go:566-656 | a printed argument list reads back as its keys and values, the last of a repeated key winning, whatever the blanks and however deep the objects |
| Arguments.ArgsPanicIff | engine/engine.go:613-632 | reading panics if and only if it comes to a value, at any depth, whose whole remaining text is one opening brace |
| GraphQL.ScanName | engine/engine.go:458-465 | the end of the longest run of name characters |
| GraphQL.FindFieldEnd | engine/engine.go:419-443 | where a field ends, or which of its brackets is open |
| GraphQL.ParseField | engine/engine.go:501-535 | alias, name and arguments of one field's text |
| GraphQL.ParseTopFields | engine/engine.go:400-454 | the fields in order, the source's refusal, or its panic, each told apart; it always ends |
| GraphQL.FieldRefusedIff | engine/engine.go:424-437 | a field is refused exactly when its arguments, or else its selection set, open a bracket that nothing closes |
| GraphQL.BracesRefusedIff | engine/engine.go:400-404 | a query is refused for want of braces exactly when no closing one comes after an opening one |
| GraphQL.QueryPanicIff | engine/engine.go:400-454 | a query panics if and only if a field the loop comes to has arguments that come to such a value |
| GraphQL.LoneBraceCrashes | engine/engine.go:613-632 | `{f(}a:{)}` does |
| Queries.FieldEnds | engine/engine.go:388-443 | a printed field ends where it ends, give or take the blanks before the next |
| Queries.FieldReads | engine/engine.go:501-535 | a printed field is read as its alias, name and arguments |
| Queries.ItemsRead | engine/engine.go:411-448 | a printed list of fields is read in order, minified or spread out |
| Queries.QueryRoundTrip | engine/engine.go:388-454 | for every query of the grammar, reading its printing gives back its fields, and the counted depth is the depth of the query |
| Queries.NameReadIff | engine/engine.go:516-524 | a printed field's name is read as itself if and only if the blanks after it are none or start with a space |
| Queries.NestedArgumentsLeak | engine/engine.go:526-532 | a field without arguments takes those of the first parenthesis inside it, and is read with none exactly when that list is empty |
| RateLimiter.Limiter.Allow | cmd/graphd/ratelimit.go:36-56 | the bucket's new content and the answer |
| RateLimiter.Limiter.Sweep | cmd/graphd/ratelimit.go:62-69 | exactly the buckets idle for more than three minutes go |
| RateLimiter.AdmissionBound | cmd/graphd/ratelimit.go:36-56 | in every window of every run one address is admitted at most burst + rate * length times |
| RateLimiter.RefusedIff | cmd/graphd/ratelimit.go:36-56 | a request is refused if and only if admitting it would break that bound over the stretch from some earlier request of its address |
| RateLimiter.EvictingBound | cmd/graphd/ratelimit.go:36-71 | the same for runs that evict, when three minutes refill a bucket |
| RateLimiter.BoundNeedsBurst | cmd/graphd/ratelimit.go:42-45 | with a burst below one the first request exceeds it |
| RateLimiter.EvictionInvisible | cmd/graphd/ratelimit.go:58-71 | if three minutes refill a bucket, any interleaving of sweeps gives the same answers |
| RateLimiter.EvictionInvisibleIff | cmd/graphd/ratelimit.go:58-71 | eviction is unobservable in every run if and only if three minutes refill a bucket |
| Units.WholeUnitsRoundTrip | indexer/erc20.go:329-355 | reading the text back and scaling gives exactly the amount, for every amount and number of decimals |
| Units.WholeUnitsCanonical | indexer/erc20.go:348-354 | a point is written exactly when there is a fraction, and no fraction ends in zero |
| Units.WholeUnitsInjective | indexer/erc20.go:329-355 | two amounts of one token never share a rendering |
| Units.PaddingNonNegative | indexer/erc20.go:352-353 | the padding is never negative, so the repeat never panics |

## Left out

- Walk.TailSkipsNothing: this one, `HeadHoldsWholeDays`, `TameRunPassesNothing`, `MarkKeepsDays`, `TailDayWholeIff` and `PassDayWholeIff` are about tables with every stored day at 1 or later and under the limit, because `wholeDays` keeps a one-day batch whole and reads day 0 as unset, and about reads handed over whole or not at all; what happens otherwise is in `PassedOverIff`. `DropDerived`, which does not reset the mark, is not modelled.
- SeriesStored.StoredConserves: its condition is on the rows a pass writes over; that a pass which read the whole of a day again computes every cell stored of it also takes the same pools and prices, and is not derived.
- Heal.SwapTable.KeepSwapTimes: for the undated rows to be seen at all it needs undated timestamps to sort below dated ones and header times above the remaining block numbers; `HealSeesIff` and `HealCanStopEarly` say what happens otherwise. Polls write between passes; a pass and a valuation writing the same row at once is not modelled.
- SwapCall.HandleSwap: reading the call back is stated for fewer than 2^24 hops and a wrapped token that is an address; the 1 MiB request body keeps far below the first, configuration decides the second. The reply's `to`, `from`, chain and gas fields are copied and not modelled.
- Cursor.FarBelowMeans: the uint64 sums in the comparison do wrap in the model; the plain reading is stated away from the top of the range.
- Queries.QueryRoundTrip: a string inside a nested object holds no braces, no bare quote, and does not end in a backslash; keys, names and bare values hold no quotes, brackets, commas or backslashes; text before the first brace and after the last holds neither quotes, braces nor backslashes; a field without arguments holds no parenthesis.
- SwapQuery.PushdownExact: covers `pool` as non-empty text and a numeric `timestamp_lt`, in timestamp order, which is what the source pushes down.
- Quoter.Desk.Best: gas, price impact and the marginal reference are not modelled, and a concentrated pool's own quote is any function.
- Floating point: balances, prices, volumes and token counts are reals, so rounding, infinities and NaN are absent; figures are compared before formatting.
- Order by anything but the timestamp, whose comparison of mixed numeric and other text is not transitive.
- Unicode: blanks and letter case are those of Latin-1 and ASCII; text is a sequence of characters, not bytes.
- Failures: in `SwapQuery` and `Traded` a read answers whole or errs, and a row that does not decode is absent; in `Cursor` the write that persists the cursor succeeds.
- Locks and goroutines: each locked method is one step.
- HTTP, JSON, JSON-RPC, SQLite itself, replication, logging, metrics, EIP-55 capitalisation and Keccak selectors, which appear as constants.
- The pool and token rows `revalue` writes after the totals (TVL, spot prices), the market rollup of `writeFill`, and the log handlers' field copying.
- The order-book, V4, AMM, approval, token-list and supply files: look-ups and field copies with one-branch facts.
