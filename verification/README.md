# Gryphon, modelled and proved in Dafny

Gryphon is a trading framework. This project models the algorithms at its heart and proves what they promise.

* **Matching and profit.** Trades are matched first in, first out by nested loops that split copies in place
  (`trades`, `sorting`, `fifo`, `splitting`, `split_in_place`). The open position is also rebuilt by a batched
  backward scan (`open_position`, `history`, `position_scan`). Forward matching, backward scan and the closed arithmetic of the
  fast reports are proved to be the same thing (`revenue`, `period_reports`).
* **Order books.** The greedy walk over two crossing books and its optimality (`books`, `arbitrage`), quotes and
  the volume a balance buys (`quotes`), levels at many prices and book strength (`volume_available`), and sliding
  an order in front of a wall (`order_sliding`).
* **Base 58.** Positional numerals and the codec of bitcoin addresses, round trips both ways (`numerals`, `base58`).
* **Ledger.** Rows, grouped queries and windows (`ledger_rows`, `assets_series`); transactions that move a cached
  balance, and runs of them (`ledger`); landed deposits (`deposits`); audits and resets (`rounding`, `auditing`).
* **Ingestion.** A poller with a watermark (`trades_poller`), a retrying consumer with a unique key
  (`trades_consumer`), and the whole pipeline as a machine with crashes and redelivery (`pipeline`).
* **Live run.** The main loop against an arbitrary environment of results, exceptions, signals and kills
  (`live_runner`).
* **Small kernels.** Orders to audit from a page of trades (`gemini_audit`) and an order book kept from change
  events (`bitfinex_book`).

Code that works by changing things is modelled by methods, classes and loops, each proved against a function that
says what it computes; the lemmas are about those functions. Amounts are exact reals. `dafny verify dfyconfig.toml`
checks everything.

## Where the code differs from what it says

* The fast report filters its trades by actor but not its fees (`fees.py:33-46`), so it exceeds the slow report's
  fees by what other actors paid in the period: `OthersFeeIsCharged`, exactly `FastEqualsSlow`.
* The slow report is in the currency its matched trades share, the fast one always in USD: `CanadianReportsDiffer`.
  By how much they differ on any history is `FastExceedsSlow`, and when they are equal `FastEqualsSlowIff`, in
  whatever currencies and at any rates; both are read off the rows.
* The closing assertions of `split_trades` can fail on trades without volume that have a price: `VolumelessIsLost`.
  They fail exactly if those that the matching reaches cost something in total: `AssertionsHoldIff`.
* The loop of `detect_directional_cross` bounds the bid index by the number of asks in the sell book. It can stop
  while more can be earned (`StopsEarly`, exactly `BestIff`) or index past the bids (`RunsOffBids`, exactly
  `IndexErrorIff`).
* A message published while the channel is closed is dropped, yet the watermark passes it, so it is never
  published again: `ClosedChannelLoses`. What is stored in the end is exactly what was published while the channel
  was open: `StoredIff`.
* On an exchange that truncates what it shows, a balance audit fails right after deposits explained the difference
  exactly, if the cache has a large enough part that is not shown: `HalfCentFails`, exactly `LandedPassesIff`.
* On OkCoin, which rounds half to even, an audit can correct the cache so that the next audit is off by a bucket:
  `OkCoinMissesAgain`, exactly `AuditTwice`. That takes a tolerance of a bucket or more; the wrapper of OkCoin sets
  none.
* The ledger of an account named GEMINI counts rows of the account GEMINI_ETH_USD, whose cache it is not:
  `SecondPairFails`, exactly `LedgerIs` and `LedgerAudit`. No wrapper has that name today
  (`gemini_btc_usd.py:30`); it takes an account row from before.
* A bid below the price floor slides to a worse price: `FloorOvershoots`, exactly `StaysWithin`.

## Model

| member | source | states |
|---|---|---|
| `Splitting.SortSorts` | gryphon/lib/gryphonfury/revenue.py:389-407 | the input of the split is put in order of time, with the same trades |
| `Fifo.MatchPairs` | gryphon/lib/gryphonfury/revenue.py:424-468 | the matched list has even length and each consecutive pair has equal volume and opposite sides |
| `Fifo.MatchedSize` | gryphon/lib/gryphonfury/revenue.py:424-468 | on each side exactly the smaller of the two total volumes is matched |
| `Splitting.MatchedVolume` | gryphon/lib/gryphonfury/revenue.py:389-495 | the trades that come out hold exactly the smaller of the two total volumes on each side, and the open position is on one side only |
| `Splitting.PositionSorted` | gryphon/lib/gryphonfury/revenue.py:389-495 | what is left of any input, trades created together included, is in order of time |
| `Fifo.MatchCuts` | gryphon/lib/gryphonfury/revenue.py:424-468 | every piece that comes out is cut from one input trade and no larger than it |
| `Fifo.MatchDrops` | gryphon/lib/gryphonfury/revenue.py:424-468 | only trades without volume are thrown away |
| `Fifo.MatchThrows` | gryphon/lib/gryphonfury/revenue.py:424-468 | for non-negative volumes exactly these are thrown away, read off the input: trades without volume that come before the other side is used up, and asks that come just then if the bids end without volume |
| `Fifo.MatchConserves` | gryphon/lib/gryphonfury/revenue.py:424-468 | matched, open and dropped pieces add up to the input, whatever additive measure is taken |
| `Splitting.SplitConserves` | gryphon/lib/gryphonfury/revenue.py:389-495 | volume, price and fee are conserved by all the splitting of trades, sorting included |
| `Splitting.SplitConservesRow` | gryphon/lib/gryphonfury/revenue.py:389-495 | they are conserved row by row: the pieces of one trade add up to it, unless it is thrown away |
| `Splitting.SplitKeeps` | gryphon/lib/gryphonfury/revenue.py:364-386 | pieces keep everything of their trade that does not depend on amounts: side, time, exchange, currency and rates |
| `Splitting.SplitFragments` | gryphon/lib/gryphonfury/revenue.py:446-463 | everything that comes out is a piece of one trade that went in, at its unit price and unit fee, or, without volume, that trade itself |
| `Splitting.SplitNet` | gryphon/lib/gryphonfury/revenue.py:424-468 | the matched list closes: its net position is zero |
| `Splitting.PositiveLosesNothing` | gryphon/lib/gryphonfury/revenue.py:432-434 | with positive volumes nothing is dropped |
| `Splitting.DroppedIs` | gryphon/lib/gryphonfury/revenue.py:389-495 | of any list of trades without negative volumes a split throws away exactly the trades of ThrownAway, a function of the list alone |
| `Splitting.SplitAccounts` | gryphon/lib/gryphonfury/revenue.py:389-495 | for any additive measure what comes out is what went in without those trades |
| `Fifo.MatchLeaves` | gryphon/lib/gryphonfury/revenue.py:424-468 | each side is left without its oldest min(bids, asks) of volume |
| `SplitInPlace.SplitOff` | gryphon/lib/gryphonfury/revenue.py:446-463 | splitting a copy in place leaves one piece in it and the other in a fresh copy, at the same unit price and fee; the two pieces add up to the price and the volume it had, as the inner assertions demand |
| `SplitInPlace.Close` | gryphon/lib/gryphonfury/revenue.py:435-466 | the inner loop matches exactly the active volume and never reads past the end of the opposite list |
| `SplitInPlace.CloseHead` | gryphon/lib/gryphonfury/revenue.py:424-468 | the active copy and the pieces that close it become the next matched pair; no copy ends up in two places |
| `SplitInPlace.TakeTurn` | gryphon/lib/gryphonfury/revenue.py:424-468 | one turn of the outer loop is one turn of first-in first-out matching |
| `SplitInPlace.MatchCopies` | gryphon/lib/gryphonfury/revenue.py:424-468 | the nested loops compute first-in first-out matching |
| `SplitInPlace.CheckTotals` | gryphon/lib/gryphonfury/revenue.py:468-493 | for non-negative volumes the closing assertions hold if and only if the trades of ThrownAway cost nothing, which is read off the input; for any volumes, if and only if what the matching dropped carried no volume and no price |
| `SplitInPlace.AssertionsHoldIff` | gryphon/lib/gryphonfury/revenue.py:468-493 | the two conditions are one wherever volumes are non-negative |
| `SplitInPlace.AssertionsHold` | gryphon/lib/gryphonfury/revenue.py:468-493 | with positive volumes the closing assertions hold |
| `SplitInPlace.VolumelessIsLost` | gryphon/lib/gryphonfury/revenue.py:432-493 | an input on which they fail: a trade without volume that has a price |
| `SplitInPlace.SplitTrades` | gryphon/lib/gryphonfury/revenue.py:389-495 | the in-place algorithm returns the split, edits only its own copies, and raises exactly if a price does not convert or the trades of ThrownAway cost something |
| `OpenPosition.LeftoverIsOpen` | gryphon/lib/gryphonfury/revenue.py:565-625 | what the forward matching leaves is, trade for trade, what the backward scan for the net position builds |
| `OpenPosition.CarryOn` | gryphon/lib/gryphonfury/revenue.py:389-495 | splitting a carried open position with newer trades leaves what splitting the whole history leaves |
| `OpenPosition.HeldSign` | gryphon/lib/gryphonfury/revenue.py:565-625 | a long position is held in bids, a short one in asks |
| `PositionScan.OpenPositionTrades` | gryphon/lib/gryphonfury/revenue.py:565-625 | the batched scan that skips seen ids and trims the oldest trade returns the newest trades that make up the position |
| `PositionScan.Scan` | gryphon/lib/gryphonfury/revenue.py:583-602 | batch after batch, trades are taken newest first, each while still short, until the need is met |
| `PositionScan.TrimOldest` | gryphon/lib/gryphonfury/revenue.py:604-625 | trimming never divides by zero and gives exactly the position |
| `History.QueriesTake` | gryphon/lib/gryphonfury/_old_revenue.py:27-35 | a period takes the trades from its start on and before its end, an opening position those before its start, and each only the trades of the strategy |
| `PeriodReports.ScanIsFed` | gryphon/lib/gryphonfury/revenue.py:205-223 | the scan always finds enough volume: a net position never exceeds the total of its side |
| `Trades.AmountsAre` | gryphon/lib/models/trade.pyx:222-245 | what a price and a fee are worth in the currency of the trade and in USD, for either way a fee is charged |
| `Revenue.PositionDelta` | gryphon/lib/gryphonfury/positions.py:78-106 | the accumulated volume and fiat deltas are the net position and the profit of the trades; raises exactly if an amount does not convert |
| `Revenue.ProfitData` | gryphon/lib/gryphonfury/revenue.py:258-293 | raises unless amounts convert and the trades close, else revenue, fees, profit and the fees charged in the volume currency are the sums over them |
| `Revenue.VolumeFees` | gryphon/lib/gryphonfury/revenue.py:258-293 | the last of those sums is that of the fees themselves, over the trades whose fee was charged in the volume currency |
| `Revenue.RealizedPl` | gryphon/lib/gryphonfury/revenue.py:317-336 | the profit of the matched trades, from position_delta, or an error unless they convert and close |
| `Revenue.OpenPl` | gryphon/lib/gryphonfury/revenue.py:339-361 | the profit that closing the open trades at the fundamental value without a fee would realise, or an error unless they convert |
| `Revenue.ClosingRealises` | gryphon/lib/gryphonfury/revenue.py:339-361 | the fiat flow and the valued position of open trades are the profit of those trades and the trade that closes them |
| `Revenue.ProfitUnits` | gryphon/lib/gryphonfury/revenue.py:498-545 | raises exactly when some pair is not two closing trades or does not convert, else one unit for each pair: sale less purchase, both fees off, at the later time, on the exchanges of the two |
| `Revenue.UnitsAddUp` | gryphon/lib/gryphonfury/revenue.py:498-545 | the profits and revenues of the units add up to those of the trades |
| `Revenue.MatchedCloses` | gryphon/lib/gryphonfury/revenue.py:498-545 | on the matched list of any split profit_units never raises and the trades close |
| `Revenue.SplitShares` | gryphon/lib/gryphonfury/revenue.py:389-495 | matched and open trades share the position, and the profit of everything but the trades thrown away |
| `Revenue.MarkToMarket` | gryphon/lib/gryphonfury/revenue.py:317-361 | realized plus open profit is what all the trades brought in plus the fundamental value times their net position, without what the trades thrown away cost |
| `Revenue.PeriodIdentity` | gryphon/lib/gryphonfury/revenue.py:181-223 | for any additive measure a period realises what it opened with plus what was traded minus what it closes with |
| `Revenue.FastIsMatched` | gryphon/lib/gryphonfury/revenue.py:66-178 | the arithmetic of the fast path measures the trades the slow path matches, plus the fees of other actors |
| `Revenue.FastEqualsSlowInUsd` | gryphon/lib/gryphonfury/revenue.py:66-178 | fast and slow revenue agree in USD for every history and period; fees and profit differ by exactly what other actors paid, so the reports agree if and only if that is nothing |
| `Revenue.ReportCurrencyIs` | gryphon/lib/gryphonfury/revenue.py:548-562 | the slow report is in the first currency of the rows outside which the period realises no volume, in USD if there is none: known before anything is matched |
| `Revenue.FastExceedsSlow` | gryphon/lib/gryphonfury/_old_revenue.py:18-55 | for every history, period, mix of currencies and rates, read off the rows: the fast report exceeds the one the slow path returns by exactly what the rows realise in the difference between USD and the reporting currency, and in fees by what others paid |
| `Revenue.FastEqualsSlowIff` | gryphon/lib/gryphonfury/_old_revenue.py:18-55 | for every history and period, in whatever currencies and at any rates, the two reports are equal if and only if the rows realise no such difference |
| `Revenue.FastEqualsSlow` | gryphon/lib/gryphonfury/_old_revenue.py:18-55 | where the strategy traded at rate one before the end of the period, in whatever currencies, the two reports differ by exactly the fees of other actors and are equal if and only if those are nothing |
| `Revenue.FastScalesSlow` | gryphon/lib/gryphonfury/_old_revenue.py:18-55 | where the strategy traded in one currency at one rate before the end of the period, the fast report is the rate times the slow one, plus the fees of other actors; without those they agree if and only if the rate is one or there is nothing to report |
| `Revenue.OthersFeeIsCharged` | gryphon/lib/gryphonfury/revenue.py:121-178 | a history with a fee of another actor on which the fast fees exceed the slow ones |
| `Revenue.CanadianReportsDiffer` | gryphon/lib/gryphonfury/_old_revenue.py:18-55 | a history in Canadian dollars for which the slow revenue is 20 and the fast one 10 |
| `PeriodReports.FastRevenueFeesProfitInPeriod` | gryphon/lib/gryphonfury/revenue.py:66-98 | the fast path run on the scanning algorithm |
| `PeriodReports.RevenueFeesProfitInPeriod` | gryphon/lib/gryphonfury/_old_revenue.py:18-55 | the slow path run on the in-place algorithms: the slow report, or the assertion error if and only if the trades without volume that its split throws away cost something, read off its input |
| `PeriodReports.PositiveNeverRaises` | gryphon/lib/gryphonfury/_old_revenue.py:18-55 | with positive volumes it never raises |
| `Arbitrage.DetectDirectionalCross` | gryphon/lib/arbitrage.py:86-190 | a cross has its own volume, bought along the asks and sold along the bids in the currency of the buy book, and where that matters earns more than its fees; there is none exactly if no volume trades or, where that matters, the revenue does not cover the fees; it raises exactly if the loop runs off the bids |
| `Arbitrage.MatchBooks` | gryphon/lib/arbitrage.py:139-190 | the loop, with both of its index conditions as written, computes the greedy walk over the two books or runs off the bids |
| `Arbitrage.RunFinds` | gryphon/lib/arbitrage.py:139-190 | the totals are those of a prefix of each side, every traded ask below every traded bid; a break leaves one price separating traded from untraded |
| `Arbitrage.NothingTradesIff` | gryphon/lib/arbitrage.py:139-190 | no volume trades if and only if the best prices do not cross or the sell book has no asks |
| `Arbitrage.CrossIsBest` | gryphon/lib/arbitrage.py:139-190 | with no more asks than bids in the sell book the walk stays in bounds; no other way of trading the volume it takes earns more, and after a break no volume does |
| `Arbitrage.BestIff` | gryphon/lib/arbitrage.py:139-190 | for all sorted books and loop limits, read off the books: unless it runs off the bids the walk earns the most possible if and only if no cross remains at the volume where its loop condition stops it |
| `Arbitrage.StopsEarly` | gryphon/lib/arbitrage.py:144-144 | a book on which the loop condition stops while more can be earned |
| `Arbitrage.IndexErrorIff` | gryphon/lib/arbitrage.py:144-156 | the walk indexes past the bids if and only if the sell book has more asks than bids and the bids run out, still crossing, before the last ask is loaded |
| `Arbitrage.RunsOffBids` | gryphon/lib/arbitrage.py:144-156 | a pair of books on which it does |
| `Quotes.PriceQuote` | gryphon/lib/metrics/quote.py:11-56 | on the side the mode asks for, the price of the first volume and the price of the order it ends in, or the error: an empty side, a foreign currency, too little liquidity |
| `Quotes.LargerCostsMore` | gryphon/lib/arbitrage.py:231-270 | a larger volume costs strictly more |
| `Quotes.SpendingIs` | gryphon/lib/arbitrage.py:231-270 | what is spent is the price of the volume along the asks and the fee on that price; it stays within the balance and uses it up unless all the asks are taken |
| `Quotes.MaxBuyVolume` | gryphon/lib/arbitrage.py:231-270 | the whole side if the balance covers it, else the volume whose quote times (1 + fee) is exactly the balance |
| `Quotes.GetExecutableVolume` | gryphon/lib/arbitrage.py:193-209 | affordable on both legs, and short of the cross and of what can be sold only where buying takes the whole balance |
| `VolumeAvailable.VolumeAvailableAtPrice` | gryphon/lib/metrics/volume_available.py:10-40 | the volume of the leading orders within reach of a price |
| `VolumeAvailable.SortedReachesAll` | gryphon/lib/metrics/volume_available.py:26-40 | on a sorted side that is all the volume within reach |
| `VolumeAvailable.VolumeAvailableAtPrices` | gryphon/lib/metrics/volume_available.py:43-102 | the one pass with two indexes gives each price the level of the one-price form, for any side and price list; empty lists raise |
| `VolumeAvailable.StrengthsAgree` | gryphon/lib/metrics/orderbook_strength.py:13-80 | many slippages at once give each the strength that one at a time gives |
| `VolumeAvailable.StrengthIs` | gryphon/lib/metrics/orderbook_strength.py:13-34 | on a sorted side the strength at a slippage is all the volume at most so far from the top |
| `VolumeAvailable.StrengthKeys` | gryphon/lib/metrics/orderbook_strength.py:37-80 | exactly the slippages asked for are answered |
| `VolumeAvailable.StrengthGrows` | gryphon/lib/metrics/orderbook_strength.py:13-34 | a wider slippage never finds less |
| `OrderSliding.SlideOrder` | gryphon/lib/order_sliding.py:61-127 | the loop places the order in front of the first wall behind the initial price, within the limits |
| `OrderSliding.BidLandsAt` | gryphon/lib/order_sliding.py:45-127 | where a bid lands, in numbers: one jump above the first larger bid below it, within max_slide and the floor, unless that is no improvement or crosses the book; its limit where nothing is larger |
| `OrderSliding.AskLandsAt` | gryphon/lib/order_sliding.py:45-127 | where an ask lands, likewise |
| `OrderSliding.StaysWithin` | gryphon/lib/order_sliding.py:45-50 | the result lies between the initial and the widest allowed price if and only if the order is an ask or a bid at the price floor or above |
| `OrderSliding.FloorOvershoots` | gryphon/lib/order_sliding.py:45-50 | below the floor every book without a wall puts the bid above its initial price |
| `OrderSliding.PassesNoWall` | gryphon/lib/order_sliding.py:96-119 | on a sorted side every order strictly between the result and the initial price is at most ignore_volume |
| `OrderSliding.NeverCrosses` | gryphon/lib/order_sliding.py:105-112 | sliding never makes an order cross the book |
| `Base58.DecodeBase58` | gryphon/lib/validation.py:30-43 | the loop and the byte conversion compute the last L base-256 digits of the base-58 value; a foreign character raises |
| `Base58.EncodeBase58` | gryphon/lib/validation.py:45-64 | the loops write the leading zero bytes as 1s and the rest in base 58 |
| `Base58.AlphabetIs` | gryphon/lib/validation.py:6-7 | the alphabet is the digits without zero and the letters without capital I, capital O and small l |
| `Base58.LongIsValue` | gryphon/lib/validation.py:10-16 | shifting and adding bytes is positional value |
| `Base58.BytesAreLast` | gryphon/lib/validation.py:19-27 | shifting and masking are the base-256 digits |
| `Base58.EncodedIs` | gryphon/lib/validation.py:45-64 | an encoding denotes the number the bytes denote and starts with a 1 for each zero they start with |
| `Base58.DecodeEncode` | gryphon/lib/validation.py:30-64 | decoding undoes encoding for every byte string |
| `Base58.EncodeDecode` | gryphon/lib/validation.py:30-64 | encoding undoes decoding if and only if the number fits and the string starts with as many 1s as its bytes start with zeros |
| `Base58.ValidAddresses` | gryphon/lib/validation.py:66-84 | for any checksum an address is valid if and only if it is the encoding of some payload with its checksum: one spelling each |
| `LedgerRows.BalanceIsSum` | gryphon/lib/assets.py:150-287 | the eight grouped queries add up to one signed sum over the selected rows |
| `LedgerRows.TransactionAdds` | gryphon/lib/assets.py:290-408 | what one transaction adds: canceled nothing; in transit only in pending mode, from its creation; completed from its creation in pending mode, else from its completion or, where none is recorded, its creation |
| `LedgerRows.TradeAdds` | gryphon/lib/assets.py:290-323 | what one trade adds: volume less price or price less volume, the fee off, if it happened after the start and not after the end |
| `LedgerRows.CompletingMoves` | gryphon/lib/assets.py:325-385 | completing a transaction changes no balance in pending mode and the others only from then on, by what it is worth |
| `LedgerRows.WindowsAdd` | gryphon/lib/assets.py:310-381 | in both pending modes balances are additive over adjacent half-open windows, with the completed-else-created rule |
| `LedgerRows.QuerySumIs` | gryphon/lib/assets.py:393-405 | leaving out zero sums loses nothing |
| `LedgerRows.EqualityIsPointwise` | gryphon/execution/lib/auditing.py:277-309 | balances are equal if and only if they hold the same of every currency, a missing one counting as zero |
| `AssetsSeries.GetAssetsSeries` | gryphon/dashboards/util/assets.py:26-67 | one point a day, and every point accumulated by the loop is the balance computed from scratch at that time |
| `AssetsSeries.AssetsCount` | gryphon/dashboards/util/assets.py:34-41 | what one transaction adds to the assets at a time: its worth from its creation on, in transit or completed, on any initialized account but the burn account |
| `Ledgers.Transaction.constructor` | gryphon/lib/models/transaction.py:64-73 | a transaction starts in transit; a fee of zero is not recorded |
| `Ledgers.Transaction.Complete` | gryphon/lib/models/transaction.py:132-144 | completing moves the cache by the effect of the transaction, and raises unless it is in transit |
| `Ledgers.Transaction.Cancel` | gryphon/lib/models/transaction.py:146-160 | cancelling takes back the effect exactly if it was completed, and raises if it was cancelled |
| `Ledgers.PositionIsEffect` | gryphon/lib/models/transaction.py:212-222 | the position property is the effect that completing has |
| `Ledgers.Ledger.Create` | gryphon/lib/models/transaction.py:64-73 | a new transaction in transit keeps every cache exactly as far from its own ledger as it was |
| `Ledgers.Ledger.Complete` | gryphon/lib/models/transaction.py:132-144 | completing a transaction of the ledger keeps every cache exactly as far from its own ledger as it was, since the row starts to count |
| `Ledgers.Ledger.Cancel` | gryphon/lib/models/transaction.py:146-160 | cancelling one does too: its row stops to count if it did |
| `Ledgers.Ledger.UpdatePosition` | gryphon/execution/harness/exchange_coordinator.pyx:225-236 | a fill adds its position to the cache, currency by currency, and its row to the ledger, so every distance from the own ledger is kept |
| `Ledgers.Ledger.Replay` | gryphon/lib/models/transaction.py:132-160 | any run of fills, creations, completions and cancellations keeps every cache exactly as far from its own ledger as it was |
| `Ledgers.Ledger.CacheIsSum` | gryphon/lib/models/exchange.pyx:414-424 | a cache is its opening balance plus the trades of its account plus the effects of exactly its completed transactions, and equals the ledger balance if and only if the opening balance is what the ledger counts twice |
| `Ledgers.Ledger.LedgerIs` | gryphon/lib/models/exchange.pyx:405-424 | the ledger balance of an account is its own trades and transactions, and for GEMINI those under the second pair name on top |
| `Deposits.AllChoices` | gryphon/lib/models/exchange.pyx:266-272 | the combinations of all lengths are all the non-empty choices, no more |
| `Deposits.DepositsLandIff` | gryphon/lib/models/exchange.pyx:274-292 | with no fee in another currency, deposits land if and only if some non-empty choice of the pending ones is worth the change; with one, if and only if a deposit before it is alone worth the change, and else the search raises |
| `Deposits.FindCombination` | gryphon/lib/models/exchange.pyx:274-292 | the loops find the first combination that matches, or raise at the first that cannot be added up |
| `Deposits.CloseEnoughIs` | gryphon/execution/lib/auditing.py:129-130 | close enough is an absolute difference of at most the tolerance |
| `Deposits.DepositLanded` | gryphon/lib/models/exchange.pyx:274-292 | exactly the found deposits are completed, the cache gains their worth in that currency and nothing else, and agreement is kept |
| `Rounding.RoundingMoves` | gryphon/lib/money.py:34-53 | how far each rounding mode moves an amount |
| `Rounding.WholeStays` | gryphon/lib/money.py:45-53 | rounding twice is rounding once |
| `Rounding.ProcessingMoves` | gryphon/lib/exchange/gemini_btc_usd.py:351-359 | processing a balance takes off at most its slack: less than one bucket for Gemini, nothing for a plain exchange |
| `Rounding.ShownInFullIff` | gryphon/lib/exchange/gemini_btc_usd.py:351-359 | processing leaves an amount alone if and only if it is a whole number of the buckets the venue rounds to |
| `Rounding.BucketsAre` | gryphon/lib/exchange/gemini_btc_usd.py:351-359 | the buckets of the venues, in numbers |
| `Auditing.PostCorrection` | gryphon/execution/lib/auditing.py:256-274 | drift is taken out by one completed transaction of its absolute amount, and agreement is kept |
| `Auditing.BalanceAudit` | gryphon/execution/lib/auditing.py:208-253 | the verdict; a passing executing audit posts at most the tolerance and leaves the cache at the exchange amount up to the rounding slack; whatever happens agreement with the ledger is kept |
| `Auditing.VerdictIs` | gryphon/execution/lib/auditing.py:220-246 | the audit passes when what is shown is within the tolerance or deposits landed and what is then held is; it raises exactly where a foreign fee ends the search |
| `Auditing.LandedPassesIff` | gryphon/execution/lib/auditing.py:222-243 | after deposits explain the difference the audit passes unless the unshown part of the cache pushes it out; with no tolerance, if and only if the cache held a whole number of the buckets the venue rounds to |
| `Auditing.HalfCentFails` | gryphon/execution/lib/auditing.py:222-243 | a run on which the deposit matches exactly and the audit fails: a Gemini account with half a cent, audited with the tolerance of its wrapper |
| `Auditing.AuditTwice` | gryphon/execution/lib/auditing.py:208-253 | two audits against one reported amount: when the first passes, the second passes, posts nothing and moves nothing, if and only if the first did not find OkCoin bitcoin halfway between two amounts and close to an odd report, which takes a tolerance of a bucket |
| `Auditing.OkCoinMissesAgain` | gryphon/execution/lib/auditing.py:208-253 | such an amount, with a tolerance of one bucket: the correction leaves the cache shown a whole bucket off |
| `Auditing.LedgerAudit` | gryphon/execution/lib/auditing.py:312-321 | passes if and only if cache and ledger agree in every currency: the distance from the own ledger is what the ledger counts twice, which is nothing for every account but GEMINI |
| `Auditing.SecondPairFails` | gryphon/lib/models/exchange.pyx:405-424 | a fill under the second pair name, after which the audit of an account row named GEMINI fails |
| `Auditing.AlignLedgerAndBalanceCache` | gryphon/execution/scripts/reset_balance.py:36-56 | the cache becomes the ledger balance in one currency, nothing else moves |
| `Auditing.AlignLedgerAndExchangeBalance` | gryphon/execution/scripts/reset_balance.py:59-99 | one correcting transaction brings the ledger to the exchange amount, none if it is there |
| `Auditing.ResetBalance` | gryphon/execution/scripts/reset_balance.py:102-127 | cache, ledger and exchange agree in the currency and nothing else moves; it posts nothing if and only if the ledger already agreed, so a second reset posts nothing |
| `TradesPollers.Producer.PublishMessage` | gryphon/data_service/twisted_producer.py:216-248 | raises when not ready; a stopping producer or a closed channel drops the message silently |
| `TradesPollers.TradesPoller.constructor` | gryphon/data_service/pollers/trades/trades_poller.py:24-36 | the watermark starts at what was saved, or zero |
| `TradesPollers.TradesPoller.ParseResponse` | gryphon/data_service/pollers/trades/trades_poller.py:44-65 | publishes the fresh trades, advances the watermark past dropped ones too and saves it; an empty page or a producer that is not ready raises before anything is saved |
| `TradesPollers.PublishedIs` | gryphon/data_service/pollers/trades/trades_poller.py:44-60 | a page publishes exactly its ids above the watermark, each once, rising, and the watermark ends at the highest id seen |
| `TradesConsumers.TradesConsumer.ConsumerFunction` | gryphon/data_service/trades_consumer.py:20-48 | a commit adds a row unless its key is stored; a duplicate counts as success |
| `TradesConsumers.TradesConsumer.OnMessage` | gryphon/data_service/queue_consumer.py:242-287 | retries until stored and acked or out of attempts, each attempt doing to the store what its fate says; however often it retries the store gains at most one row |
| `TradesConsumers.GivesUpIff` | gryphon/data_service/queue_consumer.py:242-287 | it gives up if and only if all attempts from this one on fail |
| `TradesConsumers.AttemptsAre` | gryphon/data_service/queue_consumer.py:242-287 | from the first attempt there are 601 |
| `TradesConsumers.CommitStores` | gryphon/lib/models/emeraldhavoc/trade.py:37-39 | the unique constraint: one row a key, and no row ever lost |
| `Pipelines.InvariantHolds` | gryphon/data_service/queue_consumer.py:242-287 | over every interleaving of publishes, saves, crashes, deliveries, commits, acks and redeliveries: unique genuine rows, acked messages stored, no message lost, ids rising within a poller lifetime |
| `Pipelines.AtLeastOnceStoredOnce` | gryphon/data_service/trades_consumer.py:35-48 | from an empty start every message the broker took is stored once or still with the queue |
| `Pipelines.DrainedIsComplete` | gryphon/data_service/trades_consumer.py:35-48 | once the queue has drained the stored keys are exactly those of the messages taken |
| `Pipelines.PassedIsNeverPublished` | gryphon/data_service/twisted_producer.py:227-229 | a trade whose watermark was saved is never published again, through any restarts |
| `Pipelines.ClosedChannelLoses` | gryphon/data_service/twisted_producer.py:227-229 | a possible start of a run, one publish into a closed channel, after which the trade is never in the store, whatever follows |
| `Pipelines.StoredIff` | gryphon/data_service/twisted_producer.py:216-248 | for every run that drains, a trade is stored if and only if one of its exchange and id was published while the channel was open; for every other run, only if |
| `Pipelines.PageIsRun` | gryphon/data_service/pollers/trades/trades_poller.py:44-65 | a page handled by the poller is a run of the machine with the same messages and watermark |
| `Pipelines.MessageIsRun` | gryphon/data_service/queue_consumer.py:242-287 | one call of on_message is a possible run of commits and an ack, or a requeue, with the same store and acks |
| `Pipelines.StartIsStep` | gryphon/data_service/pollers/trades/trades_poller.py:24-36 | a poller process starts where the machine says |
| `LiveRunner.Runner.GentleSleep` | gryphon/execution/live_runner.py:89-99 | sleeping starts nothing and stops for the flag |
| `LiveRunner.Runner.HandleException` | gryphon/execution/live_runner.py:201-220 | success means that an audit passed, when auditing |
| `LiveRunner.Runner.ExceptionRetryLoop` | gryphon/execution/live_runner.py:171-198 | it ends well only with a passed audit or with the flag up, and starts no tick; where so many audits fail and then one passes it recovers, sleeping ten seconds first and twice as long each next time |
| `LiveRunner.RecoveryCallsAre` | gryphon/execution/live_runner.py:171-198 | after so many failed audits it has slept 2 ^ rounds - 1 times its first sleep |
| `LiveRunner.Runner.Turn` | gryphon/execution/live_runner.py:261-296 | without an exception a turn does the work of its number: audit and tick first, then an audit each audit_tick turns and a tick in every other; a tick starts only audited and within audit_tick ticks |
| `LiveRunner.Runner.GuardedTurn` | gryphon/execution/live_runner.py:250-305 | a turn with its handler ends well only if it did its work or caught an exception; a tick that raises is caught and the run goes on once an audit has passed |
| `LiveRunner.NextTick` | gryphon/execution/live_runner.py:281-288 | the modulus keeps the ticks between audits within the bound |
| `LiveRunner.Runner.WarmShutdown` | gryphon/execution/live_runner.py:56-75 | it runs once and starts no tick, whatever it raises |
| `LiveRunner.Runner.Loop` | gryphon/execution/live_runner.py:250-308 | every way out of the loop leaves a safe log; where nothing goes wrong it turns as scheduled for as many turns as there are calls enough for |
| `LiveRunner.Runner.LiveRun` | gryphon/execution/live_runner.py:223-317 | in every environment: every turn that another follows did the work of its number or caught an exception, no tick before a passed audit or between an exception and one, at most audit_tick ticks between audits, at most one tick after a signal, none once the flag was seen, and exactly one warm shutdown unless killed; in one where nothing goes wrong, turn after turn as scheduled |
| `LiveRunner.ScheduleCounts` | gryphon/execution/live_runner.py:280-305 | n scheduled turns start n - (n - 1) / |audit_tick| ticks and pass 1 + (n - 1) / |audit_tick| audits; without auditing, n ticks |
| `LiveRunner.UndisturbedIs` | gryphon/execution/live_runner.py:250-308 | in every run the log up to the start of a turn is exactly the schedule if no signal and no exception came before |
| `LiveRunner.AuditedIs` | gryphon/execution/live_runner.py:250-308 | audited means that an audit passed and no exception was caught after it |
| `LiveRunner.TicksSinceIs` | gryphon/execution/live_runner.py:280-288 | the bound counts the ticks after the last passed audit |
| `LiveRunner.LateTicksIs` | gryphon/execution/live_runner.py:250-308 | late ticks are those after the first signal |
| `GeminiAudit.GetOrderAuditData` | gryphon/lib/exchange/gemini_btc_usd.py:361-406 | the kept orders, each with the sum of absolute amounts of all its trades on the page; the skip loop ends even when it runs off the list |
| `GeminiAudit.FilledIsNet` | gryphon/lib/exchange/gemini_btc_usd.py:390-396 | an order whose trades are on one side is filled by the size of their sum |
| `GeminiAudit.AuditedOrders` | gryphon/lib/exchange/gemini_btc_usd.py:366-404 | kept are the distinct ids, descending, without the newest skip_recent and the oldest two |
| `GeminiAudit.SkipsWholeOrders` | gryphon/lib/exchange/gemini_btc_usd.py:377-388 | skipping never splits an order |
| `BitfinexBook.Book.constructor` | gryphon/data_service/pollers/orderbook/websocket/bitfinex_orderbook_websocket.py:62-65 | opening the socket resets the book |
| `BitfinexBook.Book.ApplyChange` | gryphon/data_service/pollers/orderbook/websocket/bitfinex_orderbook_websocket.py:110-125 | the book stays what replaying all events gives, a zero touching both sides |
| `BitfinexBook.Book.SetBaseOrderbook` | gryphon/data_service/pollers/orderbook/websocket/bitfinex_orderbook_websocket.py:106-108 | loading the base book applies its entries one after the other |
| `BitfinexBook.Book.GetOrderbookToPublish` | gryphon/data_service/pollers/orderbook/websocket/bitfinex_orderbook_websocket.py:127-145 | published bids strictly fall and asks strictly rise; a level is a bid if and only if some event left that volume at its price and every later one there was for asks, and an ask likewise |
| `BitfinexBook.ZeroEmpties` | gryphon/data_service/pollers/orderbook/websocket/bitfinex_orderbook_websocket.py:110-125 | after a zero at a price neither side has the price until it is set again |
| `BitfinexBook.SamePublishedIff` | gryphon/data_service/pollers/orderbook/websocket/bitfinex_orderbook_websocket.py:127-145 | books sent different events publish the same side if and only if their last events agree |

## Left out

- SplitKeeps: pieces in the model also carry the actor and the row id of their trade, to say which trade they come from; a copy in the source has no order and no row.
- FastEqualsSlow: supposes positive volumes and that every query lists trades created together in one fixed order, here and in the other theorems on the two paths; a period that ends before it starts is left out.
- FastEqualsSlowInUsd: supposes that a USD trade is stored with exchange rate one; the fast path multiplies by the stored rate, the slow one leaves USD amounts alone.
- OpenPositionTrades: requires that side's volume to cover the position; without it the source would query for ever. ScanIsFed shows that its callers meet this.
- CheckTotals: with negative volumes its condition is read off what the matching dropped.
- RevenueFeesProfitInPeriod: supposes that the table lists trades in order of creation, those created together in one fixed order, with distinct ids and no negative volume.
- ProfitData: a fee charged in a currency that is neither that of the price nor that of the volume has no rate in the model, and a fee has the same rate in every report; on a pair priced in bitcoin the source multiplies a bitcoin fee by the fundamental value in USD only.
- PriceQuote: requires non-negative volumes in the book, all in one currency. The currency checks of the other functions on books are left out.
- MaxBuyVolume: requires positive prices and a fee above minus one, without which it would divide by zero.
- OnMessage: bounds nothing but the attempts; the one-second sleeps and heartbeat files are left out.
- LiveRun: replacing the process on a restart signal, printing and backoff time are left out; a signal is an event during some call out.
- LedgerBalance: the lookup of an account row for each name is left out; it raises for GEMINI where the second pair has none.
- ResetBalance: the changes of the session; committing or discarding them is left out.
- BalanceAudit: an account is audited against one number for one currency; fetching it is left out.
- SlideOrder: with max_slide given; without it the fallback for asks differs from its own documentation (order_sliding.py:66-69, 121-125).
- StrengthsAgree: the variants in USD, which multiply by a midpoint, are left out.
- ParseResponse: publishing a message and the state of the channel; delivery confirmations from the broker are left out, because the source only counts them.
- Decimal rounding at ten places and the tolerances for it: amounts are exact reals, so the assertions of split_trades compare with the tolerance the code has but nothing is lost to rounding.
- Exchange rates: one fixed rate to USD for each trade and one for each pair of books; live rates and their cache are left out.
- detect_cross and detect_crosses_between_many_orderbooks: a choice between, and a sort of, results of detect_directional_cross.
- fast_profit_in_period, whose helper in fees.py is not imported; exchange_profit_participation.
- order_audit: a comparison of the orders found here with database rows.
- Liabilities and net assets totals built from all_exchange_datas.
- HTTP, SQL, Redis, RabbitMQ and Twisted: a query is a filter and a sum over rows in order of creation, the queue a multiset with redelivery.
- Dashboards, scrapers, indicators, configuration, wrappers of the exchanges: interfaces and input.
