# Market tape and data store: a verified model

A Dafny model of the parts of this repository whose correctness spans whole runs: the order-book
rebuild, the recorder's control logic, the tape's files, the dataset lock and publication protocols,
and the download, paging and bar-building code. One module per component, in one file each; `dafny
verify dfyconfig.toml` takes them all.

| file | module | component |
|---|---|---|
| `Book.dfy` | `OrderBook` | rebuilding a venue's order book from snapshots and deltas |
| `Lock.dfy` | `LockProtocol` | the persistent lock file, as a step system over processes and crashes |
| `Publication.dfy` | `Publication` | replacing two live datasets by renames, a marker and a rollback |
| `TapeOrder.dfy`, `TapeFiles.dfy` | `TapeOrder`, `TapeFiles` | the segment writer and the replay merge |
| `Retention.dfy` | `TapeRetention` | deleting old tape, one pass and a credited burst |
| `Meter.dfy`, `Budget.dfy` | `Metering`, `BudgetControl` | the byte meter and the monthly budget controller |
| `History.dfy` | `TickerHistory` | sampled ticker history and lookback |
| `Connections.dfy` | `Connections` | which websocket connection carries which topic |
| `Resync.dfy` | `ResyncProtocol` | re-subscribing gapped books, as a step system over two threads |
| `Membership.dfy` | `Membership` | ranked and sticky universe tiers |
| `Windows.dfy`, `Ordered.dfy` | `RequestWindows`, `Ordered` | planning requests for missing dates |
| `Paging.dfy` | `Paging` | the three ways of fetching a range in pages |
| `Markers.dfy` | `CoverageMarkers` | download coverage markers |
| `HourlyBars.dfy`, `TapeBars.dfy` | `HourlyBars`, `TapeBars` | one-pass bars |
| `Options.dfy` | `Options` | a value that may be missing |

Conventions. Objects the source updates in place are classes whose methods are proved against a
function of the old state; protocols between threads or processes are step systems, and their theorems
quantify over every interleaving. A kill may fall between any two changes on disk. Clocks, the kernel's
free-space readings, provider replies and failures are parameters, so every statement holds for all of
them; only where a statement says so is a clock assumed not to go back. Money, volume and rate sums are
over the reals. "UTC hour of a nanosecond" is any monotone function where only its order matters.

Where the code and its own words disagree, the model follows the code:

- `_raise_if_suspicious_empty_page` calls an empty page after a full one proof of a provider hiccup. A
  provider whose rows end exactly on a page boundary far enough from the end is refused as well;
  `Paging.PagedKline` and `Paging.PagedForward` state exactly when, and `Paging.FullPageIsRefused` gives an
  input.
- `_raise_on_bracketed_empty_window` calls an empty window between two full ones a dropped reply. A venue that was
  quiet there is refused as well; `Paging.RefusedOnHole` states exactly when, and
  `Paging.QuietMarketIsRefused` gives an input.
- `_paged_window_klines` is written for any page limit, but with a limit of one it loses rows of an honest
  venue; `Paging.ExactFromTwo` states that two is exactly where it becomes right.
- `_resync_books` says one re-subscribe is outstanding per topic and its snapshot allows the next. But any
  snapshot, and a failed attempt, clears the outstanding mark while the topic is still queued, in hand or
  re-subscribed without an answer. So a topic can stand in the queue twice (`ResyncProtocol.QueuedTwice`) and
  be re-subscribed again before the first is answered (`ResyncProtocol.SentAgain`).
  `ResyncProtocol.QueueRepeatsIff` and `ResyncProtocol.OneUnderWayIff` state exactly in which runs.

## Model

| member | source | states |
|---|---|---|
| `OrderBook.Book.ApplyRow` | market_tape/book.py:57-70 | applying a row refuses another book's row and otherwise moves the whole object as the pure rebuild does; the answer is the validity afterwards |
| `OrderBook.Book.SnapshotRow` | market_tape/book.py:72-82 | a snapshot replaces both sides, drops empty levels and, on Binance, replays what was held |
| `OrderBook.Book.ReplayHeld` | market_tape/book.py:101-109 | the in-place replay loop leaves what replaying the held list in order leaves, a broken replay holding the rest |
| `OrderBook.Book.DeltaRow` | market_tape/book.py:84-99 | a delta is held, applied or breaks the book, per venue |
| `OrderBook.Book.BinanceRow` | market_tape/book.py:111-125 | a Binance diff is skipped when old, must span the snapshot first and follow on afterwards |
| `OrderBook.Book.ChangeLevels` | market_tape/book.py:127-135 | the level loop sets sizes and removes zeros on both sides, last entry for a price winning |
| `OrderBook.DiffReaches` | market_tape/book.py:111-135 | a coalesced diff carries the venue's book from any update inside its range to its last update |
| `OrderBook.ApplySound` | market_tape/book.py:57-135 | every row keeps: a valid book is the venue's book at its last id, with nothing held |
| `OrderBook.RunIsSafe` | market_tape/book.py:57-135 | over any run of honest rows of one venue, dropped, repeated or out of order, a book that says it is valid holds exactly the venue's levels at its last id, all positive, with an empty hold buffer |
| `OrderBook.InvalidHolds` | market_tape/book.py:84-99 | without a snapshot a book only collects, keeping the newest 5,000 diffs |
| `OrderBook.ReplayIsInOrder` | market_tape/book.py:101-109 | replaying held diffs equals applying them one at a time |
| `OrderBook.HeldThenLanded` | market_tape/book.py:72-82 | a snapshot on a fresh book's held diffs leaves what those diffs would leave after it |
| `OrderBook.SnapshotPlaceDoesNotMatter` | market_tape/book.py:72-125 | with one snapshot anywhere among the diffs the fresh book ends, in every field, as with the snapshot first and then the diffs the buffer still held and those after; within 5,000 that is all of them |
| `OrderBook.UnbrokenStreamVerdict` | market_tape/book.py:111-125 | for an unbroken diff stream the book ends valid if and only if the stream spans the snapshot, and at which id |
| `OrderBook.UnbrokenStreamAtAnyPlace` | market_tape/book.py:72-125 | the same verdict wherever the snapshot falls |
| `OrderBook.BybitVerdict` | market_tape/book.py:84-99 | after a Bybit snapshot the book is valid if and only if the ids count up by one with no gap flag |
| `LockProtocol.StepKeepsInv` | liquidity_migration/data/storage.py:189-242 | every step of every process, including crashes, exceptions and the two halves of a sweep, keeps the protocol invariant |
| `LockProtocol.EveryRunIsSafe` | liquidity_migration/data/storage.py:360-476 | in every schedule at most one process is in the critical section, it holds the lock path's only link, and the lock path never changes inode once linked |
| `LockProtocol.CreateAlone` | liquidity_migration/data/storage.py:527-618 | with no lock path a process alone can create it, publish it with one link and enter |
| `LockProtocol.NewcomerAcquires` | liquidity_migration/data/storage.py:415-476 | from any reachable state whose lock nobody holds a newcomer gets in by itself and leaves exactly one link |
| `LockProtocol.CrashAfterLinkIsRecovered` | liquidity_migration/data/storage.py:415-444 | a creator that dies between link and unlink leaves two links, and the next acquirer ends with one on the same inode |
| `LockProtocol.RemovingTheLeafBreaksExclusion` | liquidity_migration/data/storage.py:189-242 | were the lock path unlinked while held, a newcomer would enter beside the holder: the leaf must persist |
| `Publication.Root.Rename` | liquidity_migration/data/binance_vision.py:1134-1137 | a rename never replaces a tree, and a fault leaves it done or not done |
| `Publication.Root.BackUp` | liquidity_migration/data/binance_vision.py:1180-1286 | moving the live pair to the backup keeps every old tree, at every intermediate disk |
| `Publication.Root.PutIn` | liquidity_migration/data/binance_vision.py:1180-1286 | moving the staged pair in ends, when it succeeds, with exactly the staged pair live |
| `Publication.Root.Rollback` | liquidity_migration/data/binance_vision.py:1180-1286 | a rollback that reports success restores exactly the old pair; one that does not has lost no old tree |
| `Publication.Root.Publish` | liquidity_migration/data/binance_vision.py:1180-1286 | at every disk a kill could leave, no marker means one whole generation (a new one only verified) and a marker means every old dataset is live or in the backup; each outcome says which pair is live |
| `Publication.Root.Build` | liquidity_migration/data/binance_vision.py:1390-1394 | a build refuses on a marker, changing nothing, and otherwise keeps that promise at every disk it passes through: each directory swept, each tree staged, the publication and the final cleanup |
| `Publication.SomeGenerationSurvives` | liquidity_migration/data/binance_vision.py:1606-1611 | after any number of builds, each finished, failed or killed anywhere, some generation is whole and the marker says whether it is the live one |
| `TapeFiles.SegmentWriter.Append` | market_tape/storage.py:133-164 | a row without time or symbol is refused; any other is in exactly its hour's and symbol's segments, in order, each segment within the size cap unless it is one row, unsynced rows below the sync limit |
| `TapeFiles.SegmentWriter.WriteRow` | market_tape/storage.py:133-187 | the row goes to the symbol's open segment or a new one and no closed file changes |
| `TapeFiles.SegmentWriter.CloseSegment` | market_tape/storage.py:189-206 | closing a segment moves its rows to the files and loses none |
| `TapeFiles.SegmentWriter.RollIdle` | market_tape/storage.py:166-170 | exactly the segments of past hours are closed |
| `TapeFiles.SegmentWriter.CloseAll` | market_tape/storage.py:208-209 | after shutdown the closed files hold exactly the rows ever accepted |
| `TapeFiles.Merge` | market_tape/load.py:623-630 | the k-way merge is in order, keeps every stream and adds nothing |
| `TapeFiles.MergeHour` | market_tape/load.py:616-639 | one hour's closed segments, joined by symbol and merged, are in order and hold exactly that hour's rows of each symbol |
| `TapeFiles.IterRows` | market_tape/load.py:595-693 | replaying hours and symbols of files that hold a time-ordered stream gives exactly their rows, stably sorted by receive time then symbol |
| `TapeFiles.WriteTape` | market_tape/storage.py:133-209 | any sequence of appends and idle rolls, then shutdown: the files hold exactly the accepted rows by hour and symbol, in nonempty segments within the size cap |
| `TapeFiles.WriteThenRead` | market_tape/load.py:595-693 | writing any time-ordered stream and replaying hours and symbols of it gives exactly their rows in replay order; asking for all of them gives the whole stream back |
| `TapeOrder.StableSortSorts` | market_tape/load.py:595-630 | the stable sort is in that order and keeps each symbol's stream |
| `TapeOrder.OrderIsUnique` | market_tape/load.py:595-630 | a list in that order is determined by its symbols' streams |
| `TapeRetention.Prune` | market_tape/storage.py:527-614 | one pass deletes exactly the expired files and the shortest oldest-first run of segments that meets both limits, or all of them, when nobody else deletes; never an unexpired table snapshot |
| `TapeRetention.NextPassIsIdle` | market_tape/record.py:1225-1279 | a pass credited with what an exact pass freed finds nothing to delete |
| `TapeRetention.Burst` | market_tape/record.py:1225-1279 | a burst makes at most one pass more than the files there were and those that appeared meanwhile, every pass but the last deletes, and one that was not stopped ends because it deleted nothing, was not blocked or found room; while free space does not fall, nothing expires and nothing appears only its first pass deletes |
| `Metering.ByteMeter.Record` | market_tape/record.py:134-144 | an add is logged, totals move by it, other keys keep their slots, the newest slot is the add's minute, and slots stay tidy while time does not go back |
| `Metering.ByteMeter.LastDayIsExact` | market_tape/record.py:146-152 | the pruned slots answer as the whole log would, for any query not before the key's latest add |
| `Metering.TidyIsShort` | market_tape/record.py:125-157 | tidy slots number at most 1,440 |
| `Metering.ByteMeter.SlotsAreFew` | market_tape/record.py:125-157 | a meter whose adds came in order of time holds at most 1,440 slots for any key |
| `Metering.RecordAll` | market_tape/record.py:125-157 | over any run of adds the slots answer as the whole log would, and over any run in order of time no key ever has more than 1,440 |
| `Metering.Trim` | market_tape/record.py:134-144 | dropping day-old slots changes no answer |
| `Metering.MeterFrame` | market_tape/record.py:1107-1121 | a frame is metered once under everything and once under its feed |
| `Metering.FeedsWithinAll` | market_tape/record.py:1107-1121 | distinct feeds never add up to more than everything received |
| `Metering.QuietShrinks` | market_tape/record.py:146-152 | a key nothing is added to only loses bytes as time passes |
| `BudgetControl.BudgetController.Projection` | market_tape/record.py:528-535 | the projection is what the whole log says is left after the shed pairs: the clip at zero never bites |
| `BudgetControl.LeftIsNatural` | market_tape/record.py:528-535 | shed feeds never exceed everything received, over every frame log |
| `BudgetControl.BudgetController.FreedIsProjected` | market_tape/record.py:537-543 | what shedding frees is the difference of the projections |
| `BudgetControl.BudgetController.FewestPairs` | market_tape/record.py:553-586 | the fewest pairs that bring the projection to the limit, or all |
| `BudgetControl.BudgetController.ShedPairs` | market_tape/record.py:553-586 | the shed set stays a prefix of the configured order and is just enough |
| `BudgetControl.BudgetController.QuietPairFits` | market_tape/record.py:587-601 | a pair quiet since its shed brings back no more than it took away |
| `BudgetControl.BudgetController.RestoreLast` | market_tape/record.py:587-601 | the last pair returns exactly when the remembered rate fits, and if it stayed quiet the new projection is below the restore line |
| `BudgetControl.BudgetController.Step` | market_tape/record.py:553-601 | one step: the projection is exact; nothing changes before the gap is over; over the limit it sheds just enough of the order; under it the last pair returns if and only if what it carried when shed fits below the restore line; what is remembered of sheds and actions moves with it |
| `BudgetControl.Operate` | market_tape/record.py:553-601 | over every run of frames and steps from a fresh meter and controller, clock not going back: each step decides as its whole log of frames says, measured from the last action of the run; the pair at the end returns if and only if its rate at the step that last shed it fits, and quiet pairs land below the restore line; what is shed is always a prefix of the order |
| `BudgetControl.ChangesAreApart` | market_tape/record.py:553-601 | in every such run two changes are at least the configured gap apart |
| `BudgetControl.SomeStepShed` | market_tape/record.py:553-586 | in every such run a shed pair has a latest step that shed it, so the restore rule always speaks of one |
| `TickerHistory.History.Observe` | market_tape/record.py:225-232 | a sample is taken unless the last is under a minute old, and trimming loses no answer inside the window |
| `TickerHistory.History.Earlier` | market_tape/record.py:234-247 | the lookback loop answers as all samples ever taken would, inside the window |
| `TickerHistory.History.LengthIsBounded` | market_tape/record.py:225-232 | the remembered samples are bounded by the window over the spacing |
| `Connections.ShardTopics` | market_tape/record.py:106-119 | chunks are nonempty, within capacity, of one group, packed full but the last of a group, and keep each group's topics in order |
| `Connections.ReconcileTier` | market_tape/record.py:780-814 | a tier's shards carry exactly the desired topics, each once; a topic wanted before and after keeps its shard; a shard opens only when every shard of its group that existed before is still there and full |
| `Connections.PlanTopics` | market_tape/record.py:999-1020 | each topic is claimed once, by the first tier that wants it |
| `Connections.Recorder.Replan` | market_tape/record.py:776-814 | any sequence of plans keeps every tier valid, moves nothing needlessly and opens only when every earlier shard of the group is full |
| `Connections.CarriedExactlyOnce` | market_tape/record.py:999-1020 | over all tiers a wanted topic is on exactly one connection and no other topic on any |
| `ResyncProtocol.StepKeepsInv` | market_tape/record.py:1176-1206 | every step of writer, resyncer and shutdown keeps the four invariants |
| `ResyncProtocol.EveryRunIsSound` | market_tape/record.py:1281-1313 | over every interleaving: a nonempty queue has a wakeup pending; an outstanding topic is queued, in hand, or re-subscribed since it was queued; two queueings are separated by a snapshot or a failed attempt; only a based topic is queued |
| `ResyncProtocol.QueueRepeatsIff` | market_tape/record.py:1176-1206 | over every interleaving from a queue without repeats, some topic comes to stand in it twice if and only if some step queues a gapped topic that is not outstanding and still queued |
| `ResyncProtocol.OneUnderWayIff` | market_tape/record.py:1281-1313 | over every interleaving, some topic comes to have two re-subscribes under way (queued, in hand, or sent with no snapshot since) if and only if some step queues a topic that has one |
| `ResyncProtocol.QueuedTwice` | market_tape/record.py:1176-1206 | for every topic a run of two snapshots and two gaps leaves it in the queue twice |
| `ResyncProtocol.SentAgain` | market_tape/record.py:1281-1313 | for every topic a run in which the queue never repeats and the topic is about to be re-subscribed again with no snapshot since the first |
| `ResyncProtocol.ResyncerComesToRest` | market_tape/record.py:1281-1313 | left alone the resyncer stops within a stated number of steps with an empty queue and every outstanding topic re-subscribed; after shutdown sets the event it has ended |
| `Membership.RankNames` | market_tape/record.py:894-907 | position in the sorted list is one more than the number of better names |
| `Membership.FewRankWithin` | market_tape/record.py:907-914 | no more than `n` names rank within `n` |
| `Membership.MemberStep` | market_tape/record.py:908-928 | one resolution moves the closed form: ranked within `top` once and held at every tick since |
| `Membership.RankedTier.Resolve` | market_tape/record.py:894-928 | after any history the members are exactly that closed form, with or without the time floor, and without it at most `leave` |
| `Membership.StampStep` | market_tape/record.py:960-972 | marking and sweeping keeps exactly the names still alive, stamped with their last qualification |
| `Membership.StickyTier.Resolve` | market_tape/record.py:930-972 | a sticky tier holds exactly the names that qualified and neither ran out nor were delisted since |
| `Membership.AliveInPlainTerms` | market_tape/record.py:919-928 | with a clock that does not go back: qualified within the floor and listed throughout |
| `RequestWindows.MissingDateWindows` | liquidity_migration/data/archive_manifest.py:1313-1349 | the windows cover every hour of every missing date, are in order and apart, fit the limit and start where no earlier one reaches |
| `RequestWindows.LastReached` | liquidity_migration/data/archive_manifest.py:1313-1349 | the inner loop finds the last day one request reaches |
| `RequestWindows.CoveredOnce` | liquidity_migration/data/archive_manifest.py:989-998 | every required hour is asked for exactly once |
| `RequestWindows.PlanIsShortest` | liquidity_migration/data/archive_manifest.py:1313-1349 | no other cover by windows of that size uses fewer requests |
| `Paging.PagedKline` | liquidity_migration/marketdata/binance.py:137-186 | against an honest venue: exact rows when it returns, and refuses if and only if the rows fill whole pages and end early enough |
| `Paging.PagedForward` | liquidity_migration/marketdata/binance.py:188-234 | the same for other series, with or without a known cadence |
| `Paging.Verdict` | liquidity_migration/marketdata/binance.py:333-362 | at an empty page the guard's flags say exactly whether the rows ended on a full page |
| `Paging.FullPageIsRefused` | liquidity_migration/marketdata/binance.py:333-362 | an honest venue whose one row fills a page two steps before the end is refused, for every step |
| `Paging.PagedTimeRange` | liquidity_migration/marketdata/bybit_market_data.py:248-301 | blanked replies can only cut off an older part; the rows are exact if and only if no request still owed rows was given up, and otherwise they are the newest full pages answered before the first that was |
| `Paging.RaiseOnBracketedEmpty` | liquidity_migration/marketdata/bybit_market_data.py:60-86 | refuses if and only if an empty window lies between two that are not |
| `Paging.PagedWindowKlines` | liquidity_migration/marketdata/bybit_market_data.py:154-204 | the loop computes the windowed outcome the lemmas below are about |
| `Paging.WindowedIsExact` | liquidity_migration/marketdata/bybit_market_data.py:154-204 | with a limit of two or more and every request answered, the rows returned are exactly those of the range |
| `Paging.OnlyEndsAreMissed` | liquidity_migration/marketdata/bybit_market_data.py:154-204 | whatever is blanked, a fetch that returns gives all rows of one run of answered windows, and every window before or after it was blanked on both attempts or has no row; with no answered row it returns nothing |
| `Paging.RefusedOnHole` | liquidity_migration/marketdata/bybit_market_data.py:60-86 | a venue that answers is refused if and only if its own rows leave a window empty between two that are not |
| `Paging.QuietMarketIsRefused` | liquidity_migration/marketdata/bybit_market_data.py:60-86 | an honest venue with two bars three windows apart is refused with every request answered |
| `Paging.ExactFromTwo` | liquidity_migration/marketdata/bybit_market_data.py:154-204 | windowed fetching is exact for every honest venue if and only if the page limit is at least two |
| `CoverageMarkers.Disk.CoverageEnd` | liquidity_migration/data/downloaders.py:556-595 | the scan finds the latest end among written markers that start in time |
| `CoverageMarkers.Disk.MarkComplete` | liquidity_migration/data/downloaders.py:598-604 | killed or not, no marker overclaims; finished, every lookup answers as with the new marker added |
| `CoverageMarkers.Disk.UnlinkSuperseded` | liquidity_migration/data/downloaders.py:607-627 | exactly the contained markers go, every other stays as it was, and none goes whose claim another does not contain |
| `CoverageMarkers.NoLessNoMore` | liquidity_migration/data/downloaders.py:607-627 | dropping contained markers changes no coverage answer for any requested start |
| `CoverageMarkers.Disk.Download` | liquidity_migration/data/downloaders.py:479-530 | one request, killed anywhere, also midway through the dataset write: no overclaim, no lookup answers less, a finished answered request has its whole range stored, an empty reply claims nothing |
| `CoverageMarkers.Session` | liquidity_migration/data/downloaders.py:479-530 | over any sequence of requests, empty replies, partial writes and kills: no overclaim, and no lookup answers less than before |
| `HourlyBars.SortSorts` | liquidity_migration/data/archive.py:329-356 | the sorted form is a permutation in order of time and file row |
| `HourlyBars.AddMatches` | liquidity_migration/data/archive.py:219-245 | one more trade in one pass gives what sorting all of them again gives |
| `HourlyBars.ReadKlines` | liquidity_migration/data/archive.py:192-245 | a file with an invalid or foreign row is rejected; otherwise each hour's bar is the first, highest, lowest, last and sums of its trades sorted by time and row |
| `TapeBars.BarsAreGrouped` | market_tape/bars.py:140-159 | for rows in time order a symbol's bars are one per bucket, over all the bucket's rows |
| `TapeBars.SummarizeMeans` | market_tape/bars.py:162-179 | a bar's open, close, high, low, count and volume in terms of its trades |
| `TapeBars.SummarizeCounts` | market_tape/bars.py:162-210 | a bar's buy and sell volume, notional, book updates and liquidations are those of its rows |
| `TapeBars.BarsSensible` | market_tape/bars.py:162-179 | with positive quantities the sides add up and the notional lies between low and high times volume |
| `TapeBars.VwapIsBetween` | market_tape/bars.py:106-137 | the volume-weighted price exists exactly when there was a trade and lies between low and high |
| `TapeBars.BuildBars` | market_tape/bars.py:140-159 | each symbol's bars depend on its own rows alone, trades and volume are conserved over all bars, time-ordered rows give the group-by, and with positive quantities every bar built has its sides, prices and notional in proportion |

## Left out

- Websocket, REST, compression and upload plumbing, retries and sleeps: foreign calls.
- Configuration, command line, arming checks and reporting: one-branch validation.
- Polars and parquet expression code: library semantics.
- The compressor thread and its backlog counters (market_tape/storage.py): a deferred or failed segment stays on disk as it was written, so they decide how rows are stored and not which rows the tape holds.
- Float rounding and overflow, file modes and ownership, fork handlers.
- The order-book quotes, ticker columns and final sort of tape bars: the trade columns carry the argument, and the book itself is `OrderBook`.
- The thresholds that make a name qualify for a sticky tier: which names qualify at a tick is a parameter.
- Rolling-window datasets clamped to thirty days in the marker model: they floor the requested end to a period.
- Marker file names and their parsing: a marker is its two times.
- Power loss in the publication model: a kill keeps what was done before it, so flush ordering is not modelled.
- Two builds racing to create the publication marker.
- Deleters beside the retention pass, when its exact result is claimed.
- TapeFiles.IterRows: segment indices stay below a million, where their file names sort as numbers; unreadable lines and the kinds filter are not modelled.
- TapeFiles.SegmentWriter.Append: a short or failed write, and segments a crash leaves unclosed, are not modelled.
- BudgetControl.BudgetController.Step: one step reads the meter at one instant, so metering between its reads is not modelled.
- ResyncProtocol.EveryRunIsSound: a send that fails inside a re-subscribe counts as sent, as in the code, because the reconnect that follows subscribes again; that reconnect is not modelled.
- Connections.ReconcileTier: the websocket messages that carry out a plan, and joining closed shards, are not modelled.
- TapeBars.BuildBars: bars are values in an insertion-ordered list, not objects updated in place.
- Paging.PagedTimeRange: pages without usable timestamps, which the code stops at, do not occur.
- CoverageMarkers.Disk.Download: the provider's rows in a requested range do not change over time, and a nonempty reply holds all of them.
