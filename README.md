# BTC price tracker: the decision core, in Dafny

`crypto_price_tracker.py` asks five exchanges (Binance, Coinbase, Kraken,
Huobi, FTX) for the best bid and ask of BTC. It appends the successful
readings to the log file of the run date and rebuilds that date's summary:
the venue with the lowest ask (best to buy), the venue with the highest bid
(best to sell), the signed spread between them, and the latest reading of
every venue. It then prints this run's own best venues, and an arbitrage line
when the highest bid beats the lowest ask on a different venue.

This project models that core over an abstract `Quote` record (venue,
timestamp, bid, ask, optional bid/ask depth). Prices are exact reals.

- `quotes.dfy` (module `Quotes`): `Quote`, `Option`, `Stored` and `Less`.
  `Stored` is what reading a log file gives: `Missing`, `Corrupt` or
  `Log(quotes)`. `Less` is the lexicographic order Python uses on `str`,
  with its irreflexivity, transitivity and totality.
- `collector.dfy` (module `Collector`): `collect_all_exchange_data`. Each
  adapter's result is an input of type `Option<Quote>`. `CollectAll` appends
  the successes one after another in the order Binance, Coinbase, Kraken,
  Huobi, FTX. It is proved equal to the filter `Successful`, and the lemmas
  characterise that filter exactly.
- `summarizer.dfy` (module `Summarizer`): the part of `create_daily_summary`
  that only computes. For the best venues, the column minimum or maximum is
  found first, then the first row holding it. Independent predicates
  (`IsBestBuyIndex`, `IsBestSellIndex`) state "first entry that achieves the
  extreme", and the computation is proved to meet them. `groupby('exchange').last()`
  becomes a fold that inserts each reading in venue-name order and replaces
  the earlier reading of the same venue. It is proved sorted, and proved to
  hold exactly the readings that are the last of their venue.
- `persistence.dfy` (module `Persistence`): class `PriceStore` holds the log
  and summary files, keyed by date. `Save` is `save_data_to_file`: read the
  log, treat missing or corrupt as empty, extend, overwrite, then rebuild the
  summary. `RebuildSummary` is `create_daily_summary` on the store.
- `tracker.dfy` (module `Tracker`): `main`. `Decide` is the per-run
  best-buy/best-sell/arbitrage decision. `Run` chains collect, save and
  decide. The lemmas relate the per-run view to the whole-day summary.

Inputs that the program takes from its environment are parameters here:
- the adapters' results;
- the run date (`datetime.now().strftime('%Y-%m-%d')`);
- the summary's generation time (`latest_update`).

## Model

| member | source | states |
|---|---|---|
| Quotes.Less | crypto_price_tracker.py:191 | the order on venue names that the grouping sorts by (Python's `str` order): a venue name is never smaller than itself, and a proper prefix is smaller than the longer name |
| Collector.Successful | crypto_price_tracker.py:105-129 | the filter over the adapter outcomes: it returns at most one quote per outcome |
| Collector.CollectAll | crypto_price_tracker.py:103-129 | the collected list is the successful adapter results in the order Binance, Coinbase, Kraken, Huobi, FTX; it has at most five entries; it is empty exactly when every adapter failed |
| Collector.SuccessfulAreExactlyTheSomes | crypto_price_tracker.py:105-129 | the filter keeps every successful outcome and nothing else: entry k is the value of the k-th successful outcome, the source positions strictly increase, and no successful outcome is skipped |
| Collector.SuccessfulEmptyIffAllFailed | crypto_price_tracker.py:105-129 | the result is empty if and only if every adapter returned nothing |
| Collector.CollectedInRegistryOrder | crypto_price_tracker.py:108-127 | when each adapter labels its quote with its own venue (lines 15, 36, 55, 74, 92), collected entry k comes from registry position Origins[k]; these positions strictly increase, so no venue appears twice and Huobi comes before FTX |
| Summarizer.MinAsk | crypto_price_tracker.py:183 | the minimum ask is at most every ask in the log and is the ask of some entry |
| Summarizer.MaxBid | crypto_price_tracker.py:187 | the maximum bid is at least every bid in the log and is the bid of some entry |
| Summarizer.FirstWithAsk | crypto_price_tracker.py:183-184 | the selected row has the given ask, and no earlier row has it (`values[0]` of the filtered rows) |
| Summarizer.FirstWithBid | crypto_price_tracker.py:187-188 | the selected row has the given bid, and no earlier row has it |
| Summarizer.BestBuyIndex | crypto_price_tracker.py:183-184 | the best-to-buy row has the lowest ask of the log, and every earlier row has a strictly higher ask |
| Summarizer.BestSellIndex | crypto_price_tracker.py:187-188 | the best-to-sell row has the highest bid of the log, and every earlier row has a strictly lower bid |
| Summarizer.BestIndicesUnique | crypto_price_tracker.py:183-188 | the first-match rule picks exactly one row for buying and one for selling |
| Summarizer.Upsert | crypto_price_tracker.py:191 | one step of the grouping: the reading goes in at its venue-name position, replacing its venue's earlier entry, so the table grows by at most one entry |
| Summarizer.UpsertSpec | crypto_price_tracker.py:191 | inserting a reading into the per-venue table keeps it strictly sorted by venue name; afterwards it holds the new reading plus the old entries of the other venues |
| Summarizer.LatestPerVenue | crypto_price_tracker.py:191 | `groupby('exchange').last()` as a fold over the log: the table is strictly sorted by venue name and has no more entries than the log |
| Summarizer.LatestPerVenueSpec | crypto_price_tracker.py:191 | the grouped table is strictly sorted by venue name, so it has one entry per venue; a reading is in it if and only if it is the last reading of its venue by position in the log |
| Summarizer.LatestPerVenueCovers | crypto_price_tracker.py:191 | every venue present in the log has an entry in the grouped table |
| Summarizer.Summary | crypto_price_tracker.py:183-200 | the summary carries the run date and the generation time; best to buy is the venue of the first lowest-ask entry and best to sell that of the first highest-bid entry; the spread is that bid minus that ask; `exchange_data` is sorted by venue and holds exactly each venue's last reading |
| Summarizer.ArbitrageIsSignedSpread | crypto_price_tracker.py:198 | the spread equals the maximum bid minus the minimum ask over the whole log, and is not clamped: it is negative exactly when every bid is below every ask |
| Summarizer.SummaryOf | crypto_price_tracker.py:166-200 | no summary is produced exactly when the log file is missing, is corrupt, or holds no reading; a decodable log with readings gives the summary of exactly those readings |
| Persistence.Existing | crypto_price_tracker.py:139-147 | the readings a save starts from: none when the file is missing or fails to decode as JSON, the decoded list otherwise |
| Persistence.Appended | crypto_price_tracker.py:139-150 | the file after `existing_data.extend(data)`: a decodable log as long as the previous readings and the new ones together |
| Persistence.AppendedKeepsOrder | crypto_price_tracker.py:139-150 | after a save, the stored log is the previous log followed by the new readings, in order; if the previous file was missing or undecodable, the stored log is the new readings alone |
| Persistence.AppendedAssociative | crypto_price_tracker.py:150 | saving `a` and then `b` stores the same log as saving `a + b` once, whatever was stored before |
| Persistence.PriceStore.LogAt | crypto_price_tracker.py:140-147 | what `os.path.exists` plus `json.load` give for a date: `Missing` when the date has no file, the stored contents otherwise (also read at lines 166-175) |
| Persistence.PriceStore.RebuildSummary | crypto_price_tracker.py:161-205 | log files are left unchanged; the date's summary is overwritten with the summary of its log, or left as it was when the log is missing, corrupt or empty |
| Persistence.PriceStore.Save | crypto_price_tracker.py:131-159 | only the run date's log changes, and it becomes the stored readings (empty if missing or corrupt) followed by the new ones; the date's summary is then rebuilt from that log, or left unchanged when the log is empty; no other date's summary changes |
| Persistence.RebuildOverwrites | crypto_price_tracker.py:158-203 | a summary rebuilt from a log at least as long replaces the earlier one completely: the summary file is overwritten, never merged |
| Persistence.SaveTwiceOrOnce | crypto_price_tracker.py:131-159 | on two stores that start out the same, saving `a` and then `b` on one date leaves the same log file and the same summaries as saving `a + b` once; that log is the previous readings followed by `a + b` |
| Tracker.Decide | crypto_price_tracker.py:219-233 | with readings, the report names the first lowest-ask venue and the first highest-bid venue of this run, with their prices; an arbitrage is reported if and only if the highest bid exceeds the lowest ask and the two venues differ; the profit is the highest bid minus the lowest ask |
| Tracker.Run | crypto_price_tracker.py:207-235 | the readings are the collector's result; with no readings the store is untouched; otherwise the run date's log is extended and its summary rebuilt; the report is this run's decision |
| Tracker.ExtremesOfLongerLog | crypto_price_tracker.py:183-187 | putting earlier readings of the day in front of this run's readings never raises the minimum ask and never lowers the maximum bid |
| Tracker.DailySpreadDominatesRun | crypto_price_tracker.py:198-232 | the whole-day spread in the summary is at least this run's highest bid minus its lowest ask, because the day's log contains this run's readings |
| Tracker.FirstRunOfDayAgrees | crypto_price_tracker.py:212-224 | when the day's log was missing or corrupt before the run, the written summary names the same buy and sell venues and the same spread as the run's report |
| Tracker.SingleQuoteScenario | crypto_price_tracker.py:139-191 | a missing log and one saved quote A give a summary whose best venue to buy is A's venue and whose per-venue table is `[A]` |
| Tracker.TwoVenueScenario | crypto_price_tracker.py:183-198 | Binance (bid 50000, ask 50010) and Kraken (bid 50050, ask 50040) give best to buy Binance, best to sell Kraken, spread 40 |

## Left out

- The HTTP adapters (crypto_price_tracker.py:9-101) are not modelled: they do network I/O and parse each venue's own JSON. Each adapter is an `Option<Quote>` input, and an exception becomes `None`. `CollectedInRegistryOrder` assumes, through `FromVenue`, the venue label each adapter writes. The adapters' quantity conventions (none for Coinbase and FTX) are not modelled.
- The real filesystem is abstracted. `os.makedirs`, `open`, `json.load` and `json.dump` become the `PriceStore` maps. JSON encoding and indentation are not modelled. A file that decodes to something other than a list of quotes is not modelled either. Nor is a file that cannot be read as text: `json.load` then raises `UnicodeDecodeError`, which only `json.JSONDecodeError` handlers (lines 144 and 173) would have caught, so `save_data_to_file` and the whole run stop.
- Clock readings are parameters: the run date, the quote timestamps and `latest_update`.
- Prices are exact reals, not floats. Rounding and NaN are not modelled. The `None` fallbacks at lines 184 and 188 and the `0` fallback at line 198 only matter when prices can be NaN, so the model has no case for them.
- Summarizer.LatestPerVenue: pandas `groupby(...).last()` takes the last non-null value column by column. The model takes the whole last row. The two agree here because each venue's depth fields are either always present or always absent.
- Console output is not modelled: the per-venue error lines, the save and summary messages, and the best-venue and arbitrage lines. `Run` returns the arbitrage decision as a `RunReport`, and `RebuildSummary` returns nothing.
- `requests.get` is called without a timeout (lines 12, 29, 32, 50, 69, 88); nothing is modelled for it.
- The read-modify-write of a log file is not atomic in the source. The model is sequential and does not model concurrent runs.
