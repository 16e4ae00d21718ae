/**
  The run controller: collect from every venue, save the readings when there
  are any, and report this run's best venues and, when it exists, the
  arbitrage between two different venues.
 */
module Tracker {
  import opened Quotes
  import opened Collector
  import opened Summarizer
  import opened Persistence

  /** What one run reports: nothing collected, or this run's best venue to
      buy, best venue to sell, and the profit of an arbitrage between them. */
  datatype RunReport =
    | NoData
    | Report(buyVenue: string, minAsk: real, sellVenue: string, maxBid: real, profit: Option<real>)

  /** The per-run decision over this run's readings only. */
  function Decide(readings: seq<Quote>): (r: RunReport)
    ensures r.NoData? <==> readings == []
    ensures r.Report? ==> exists i, k ::
      (&& IsBestBuyIndex(readings, i) && IsBestSellIndex(readings, k)
       && r.buyVenue == readings[i].exchange && r.minAsk == readings[i].ask
       && r.sellVenue == readings[k].exchange && r.maxBid == readings[k].bid)
    ensures r.Report? ==> (r.profit.Some? <==> r.maxBid > r.minAsk && r.buyVenue != r.sellVenue)
    ensures r.Report? && r.profit.Some? ==> r.profit.value == r.maxBid - r.minAsk
  {
    if readings == [] then NoData
    else
      var i := BestBuyIndex(readings);
      var k := BestSellIndex(readings);
      var minAsk := readings[i].ask;
      var maxBid := readings[k].bid;
      var buy := readings[i].exchange;
      var sell := readings[k].exchange;
      Report(buy, minAsk, sell, maxBid, if maxBid > minAsk && buy != sell then Some(maxBid - minAsk) else None)
  }

  /** One invocation of `main` against the store, for the run date `date` and
      the clock reading `now`, given what the five adapters returned. */
  method Run(store: PriceStore, date: string, now: string,
             binance: Option<Quote>, coinbase: Option<Quote>, kraken: Option<Quote>,
             huobi: Option<Quote>, ftx: Option<Quote>)
    returns (readings: seq<Quote>, report: RunReport)
    modifies store
    ensures readings == Successful([binance, coinbase, kraken, huobi, ftx])
    ensures readings == [] ==> store.logs == old(store.logs) && store.summaries == old(store.summaries)
    ensures readings != [] ==>
      && store.logs == old(store.logs)[date := Appended(old(store.LogAt(date)), readings)]
      && store.summaries == old(store.summaries)[date := Summary(date, now, Existing(old(store.LogAt(date))) + readings)]
    ensures report == Decide(readings)
  {
    readings := CollectAll(binance, coinbase, kraken, huobi, ftx);
    if readings != [] {
      store.Save(date, now, readings);
      report := Decide(readings);
    } else {
      report := NoData;
    }
  }

  /** Readings logged earlier in the day can only lower the lowest ask and
      raise the highest bid of this run's readings. */
  lemma ExtremesOfLongerLog(earlier: seq<Quote>, readings: seq<Quote>)
    requires readings != []
    ensures MinAsk(earlier + readings) <= MinAsk(readings)
    ensures MaxBid(readings) <= MaxBid(earlier + readings)
  {
    var log := earlier + readings;
    var i :| 0 <= i < |readings| && readings[i].ask == MinAsk(readings);
    var k :| 0 <= k < |readings| && readings[k].bid == MaxBid(readings);
    assert log[|earlier| + i] == readings[i];
    assert log[|earlier| + k] == readings[k];
  }

  /** The day's spread never falls below this run's: the whole-day log holds
      this run's readings, so its highest bid is at least as high and its
      lowest ask at least as low. */
  lemma DailySpreadDominatesRun(date: string, now: string, earlier: seq<Quote>, readings: seq<Quote>)
    requires readings != []
    ensures Decide(readings).Report?
    ensures Summary(date, now, earlier + readings).arbitrage >= Decide(readings).maxBid - Decide(readings).minAsk
  {
    ExtremesOfLongerLog(earlier, readings);
    ArbitrageIsSignedSpread(date, now, earlier + readings);
    var i := BestBuyIndex(readings);
    var k := BestSellIndex(readings);
    var jm :| 0 <= jm < |readings| && readings[jm].ask == MinAsk(readings);
    var lm :| 0 <= lm < |readings| && readings[lm].bid == MaxBid(readings);
    assert readings[i].ask <= readings[jm].ask;
    assert readings[lm].bid <= readings[k].bid;
  }

  /** On a day whose log was missing or corrupt, the summary written by the
      run names the same venues and the same spread as the run's report. */
  lemma FirstRunOfDayAgrees(date: string, now: string, stored: Stored, readings: seq<Quote>)
    requires stored.Missing? || stored.Corrupt?
    requires readings != []
    ensures Decide(readings).Report?
    ensures Summary(date, now, Existing(stored) + readings).bestToBuy == Decide(readings).buyVenue
    ensures Summary(date, now, Existing(stored) + readings).bestToSell == Decide(readings).sellVenue
    ensures Summary(date, now, Existing(stored) + readings).arbitrage ==
      Decide(readings).maxBid - Decide(readings).minAsk
  {
    var log := Existing(stored) + readings;
    assert log == readings;
  }

  /** A missing log, one save of quote a, then the summary: the summary's best
      venue to buy is a's venue. */
  lemma SingleQuoteScenario(date: string, now: string, a: Quote)
    ensures SummaryOf(date, now, Appended(Missing, [a])).Some?
    ensures SummaryOf(date, now, Appended(Missing, [a])).value.bestToBuy == a.exchange
    ensures SummaryOf(date, now, Appended(Missing, [a])).value.exchangeData == [a]
  {
    assert Appended(Missing, [a]) == Log([a]);
    assert [a][..0] == [];
    assert LatestPerVenue([a]) == Upsert([], a) == [a];
  }

  /** Two venues: Binance asks lowest, Kraken bids highest, spread 40. */
  lemma TwoVenueScenario(date: string, now: string, t: string)
    ensures
      var binance := Quote("Binance", t, 50000.0, 50010.0, None, None);
      var kraken := Quote("Kraken", t, 50050.0, 50040.0, None, None);
      var s := Summary(date, now, [binance, kraken]);
      s.bestToBuy == "Binance" && s.bestToSell == "Kraken" && s.arbitrage == 40.0
  {
    var binance := Quote("Binance", t, 50000.0, 50010.0, None, None);
    var kraken := Quote("Kraken", t, 50050.0, 50040.0, None, None);
    var log := [binance, kraken];
    var s := Summary(date, now, log);
    var i, k :| IsBestBuyIndex(log, i) && IsBestSellIndex(log, k) &&
      s.bestToBuy == log[i].exchange && s.bestToSell == log[k].exchange &&
      s.arbitrage == log[k].bid - log[i].ask;
    assert i == 0;
    assert k == 1;
  }
}
