/**
  The pure part of the daily summary: the best venue to buy (lowest ask),
  the best venue to sell (highest bid), the signed spread between them, and
  the latest reading of every venue, all computed over one day's log.
 */
module Summarizer {
  import opened Quotes

  /** The derived summary of one day's log. */
  datatype DailySummary = DailySummary(
    date: string,
    latestUpdate: string,
    bestToBuy: string,
    bestToSell: string,
    arbitrage: real,
    exchangeData: seq<Quote>)

  // ----- Reference definitions: first entry achieving the extreme price -----

  /** Entry i has the lowest ask of the log, and no earlier entry has that ask. */
  predicate IsBestBuyIndex(log: seq<Quote>, i: int)
  {
    && 0 <= i < |log|
    && (forall j :: 0 <= j < |log| ==> log[i].ask <= log[j].ask)
    && (forall j :: 0 <= j < i ==> log[j].ask > log[i].ask)
  }

  /** Entry k has the highest bid of the log, and no earlier entry has that bid. */
  predicate IsBestSellIndex(log: seq<Quote>, k: int)
  {
    && 0 <= k < |log|
    && (forall j :: 0 <= j < |log| ==> log[j].bid <= log[k].bid)
    && (forall j :: 0 <= j < k ==> log[j].bid < log[k].bid)
  }

  /** Entry i is the last one of its venue in the log. */
  predicate IsLastOfVenue(log: seq<Quote>, i: int)
  {
    0 <= i < |log| && forall j :: i < j < |log| ==> log[j].exchange != log[i].exchange
  }

  /** Strictly increasing venue names, hence at most one entry per venue. */
  predicate SortedByVenue(s: seq<Quote>)
  {
    forall i, j :: 0 <= i < j < |s| ==> Less(s[i].exchange, s[j].exchange)
  }

  // ----- The computation: column minimum / maximum, then first matching row -----

  /** The minimum of the ask column. */
  function MinAsk(log: seq<Quote>): (m: real)
    requires |log| > 0
    ensures forall j :: 0 <= j < |log| ==> m <= log[j].ask
    ensures exists j :: 0 <= j < |log| && log[j].ask == m
  {
    if |log| == 1 then log[0].ask
    else
      var rest := MinAsk(log[1..]);
      assert forall j :: 1 <= j < |log| ==> log[j] == log[1..][j - 1];
      if log[0].ask <= rest then log[0].ask else rest
  }

  /** The maximum of the bid column. */
  function MaxBid(log: seq<Quote>): (m: real)
    requires |log| > 0
    ensures forall j :: 0 <= j < |log| ==> log[j].bid <= m
    ensures exists j :: 0 <= j < |log| && log[j].bid == m
  {
    if |log| == 1 then log[0].bid
    else
      var rest := MaxBid(log[1..]);
      assert forall j :: 1 <= j < |log| ==> log[j] == log[1..][j - 1];
      if rest <= log[0].bid then log[0].bid else rest
  }

  /** The first row whose ask equals v. */
  function FirstWithAsk(log: seq<Quote>, v: real): (i: nat)
    requires exists j :: 0 <= j < |log| && log[j].ask == v
    ensures i < |log| && log[i].ask == v
    ensures forall j :: 0 <= j < i ==> log[j].ask != v
  {
    if log[0].ask == v then 0
    else
      assert exists j :: 0 <= j < |log[1..]| && log[1..][j].ask == v by {
        var j :| 0 <= j < |log| && log[j].ask == v;
        assert log[1..][j - 1] == log[j];
      }
      1 + FirstWithAsk(log[1..], v)
  }

  /** The first row whose bid equals v. */
  function FirstWithBid(log: seq<Quote>, v: real): (k: nat)
    requires exists j :: 0 <= j < |log| && log[j].bid == v
    ensures k < |log| && log[k].bid == v
    ensures forall j :: 0 <= j < k ==> log[j].bid != v
  {
    if log[0].bid == v then 0
    else
      assert exists j :: 0 <= j < |log[1..]| && log[1..][j].bid == v by {
        var j :| 0 <= j < |log| && log[j].bid == v;
        assert log[1..][j - 1] == log[j];
      }
      1 + FirstWithBid(log[1..], v)
  }

  /** The row the summary names as best to buy. */
  function BestBuyIndex(log: seq<Quote>): (i: nat)
    requires |log| > 0
    ensures IsBestBuyIndex(log, i)
  {
    FirstWithAsk(log, MinAsk(log))
  }

  /** The row the summary names as best to sell. */
  function BestSellIndex(log: seq<Quote>): (k: nat)
    requires |log| > 0
    ensures IsBestSellIndex(log, k)
  {
    FirstWithBid(log, MaxBid(log))
  }

  /** The two reference predicates each single out one row. */
  lemma BestIndicesUnique(log: seq<Quote>, i: int, i': int, k: int, k': int)
    requires IsBestBuyIndex(log, i) && IsBestBuyIndex(log, i')
    requires IsBestSellIndex(log, k) && IsBestSellIndex(log, k')
    ensures i == i' && k == k'
  {
  }

  // ----- Last reading per venue, grouped and sorted by venue name -----

  /** Puts q at its place by venue name, replacing the entry of its venue. */
  function Upsert(acc: seq<Quote>, q: Quote): (r: seq<Quote>)
    ensures |acc| <= |r| <= |acc| + 1
  {
    if acc == [] then [q]
    else if q.exchange == acc[0].exchange then [q] + acc[1..]
    else if Less(q.exchange, acc[0].exchange) then [q] + acc
    else [acc[0]] + Upsert(acc[1..], q)
  }

  /** The tail of a sorted table is sorted and lies above its head. */
  lemma SortedTail(acc: seq<Quote>)
    requires acc != [] && SortedByVenue(acc)
    ensures SortedByVenue(acc[1..])
    ensures forall x :: x in acc[1..] ==> Less(acc[0].exchange, x.exchange)
  {
    var tail := acc[1..];
    forall i, j | 0 <= i < j < |tail|
      ensures Less(tail[i].exchange, tail[j].exchange)
    {
      assert tail[i] == acc[i + 1] && tail[j] == acc[j + 1];
    }
    forall x | x in tail
      ensures Less(acc[0].exchange, x.exchange)
    {
      var m :| 0 <= m < |tail| && tail[m] == x;
      assert acc[m + 1] == x;
    }
  }

  /** A head below every entry of a sorted table gives a sorted table. */
  lemma SortedCons(h: Quote, t: seq<Quote>)
    requires SortedByVenue(t)
    requires forall x :: x in t ==> Less(h.exchange, x.exchange)
    ensures SortedByVenue([h] + t)
  {
    var r := [h] + t;
    forall i, j | 0 <= i < j < |r|
      ensures Less(r[i].exchange, r[j].exchange)
    {
      assert r[j] == t[j - 1];
      if i > 0 {
        assert r[i] == t[i - 1];
      } else {
        assert t[j - 1] in t;
      }
    }
  }

  lemma {:induction false} UpsertSpec(acc: seq<Quote>, q: Quote)
    requires SortedByVenue(acc)
    ensures SortedByVenue(Upsert(acc, q))
    ensures forall x :: x in Upsert(acc, q) <==> x == q || (x in acc && x.exchange != q.exchange)
  {
    if acc == [] {
      return;
    }
    SortedTail(acc);
    var tail := acc[1..];
    assert acc == [acc[0]] + tail;
    if q.exchange == acc[0].exchange {
      SortedCons(q, tail);
    } else if Less(q.exchange, acc[0].exchange) {
      forall x | x in acc
        ensures Less(q.exchange, x.exchange)
      {
        if x != acc[0] {
          LessTransitive(q.exchange, acc[0].exchange, x.exchange);
        }
      }
      SortedCons(q, acc);
    } else {
      LessTotal(q.exchange, acc[0].exchange);
      UpsertSpec(tail, q);
      SortedCons(acc[0], Upsert(tail, q));
    }
  }

  /** `groupby('exchange').last()`: one entry per venue, the venue's latest
      reading, in order of venue name. */
  function LatestPerVenue(log: seq<Quote>): (r: seq<Quote>)
    ensures SortedByVenue(r)
    ensures |r| <= |log|
  {
    if log == [] then []
    else
      var prev := LatestPerVenue(log[..|log| - 1]);
      UpsertSpec(prev, log[|log| - 1]);
      Upsert(prev, log[|log| - 1])
  }

  /** The grouped readings are sorted (so each venue occurs once) and are
      exactly the readings that are the last of their venue in the log. */
  lemma {:induction false} LatestPerVenueSpec(log: seq<Quote>)
    ensures SortedByVenue(LatestPerVenue(log))
    ensures forall x :: x in LatestPerVenue(log) <==>
      exists i :: IsLastOfVenue(log, i) && log[i] == x
  {
    if log != [] {
      var init := log[..|log| - 1];
      var q := log[|log| - 1];
      assert log == init + [q];
      var prev := LatestPerVenue(init);
      assert LatestPerVenue(log) == Upsert(prev, q);
      LatestPerVenueSpec(init);
      UpsertSpec(prev, q);
      forall x | x in LatestPerVenue(log)
        ensures exists i :: IsLastOfVenue(log, i) && log[i] == x
      {
        if x == q {
          assert IsLastOfVenue(log, |log| - 1);
        } else {
          var i :| IsLastOfVenue(init, i) && init[i] == x;
          LastOfVenueSnoc(init, q, i);
          assert log[i] == x;
        }
      }
      forall x | exists i :: IsLastOfVenue(log, i) && log[i] == x
        ensures x in LatestPerVenue(log)
      {
        var i :| IsLastOfVenue(log, i) && log[i] == x;
        if i < |log| - 1 {
          LastOfVenueSnoc(init, q, i);
          assert init[i] == x;
          assert x in prev;
        }
      }
    }
  }

  /** Appending a reading ends the run of its own venue only. */
  lemma LastOfVenueSnoc(init: seq<Quote>, q: Quote, i: int)
    requires 0 <= i < |init|
    ensures IsLastOfVenue(init + [q], i) <==> IsLastOfVenue(init, i) && init[i].exchange != q.exchange
  {
    var log := init + [q];
    assert log[|init|] == q;
    assert forall j :: 0 <= j < |init| ==> log[j] == init[j];
  }

  /** Every venue present in the log has its entry among the grouped readings. */
  lemma LatestPerVenueCovers(log: seq<Quote>, i: int)
    requires 0 <= i < |log|
    ensures exists x :: x in LatestPerVenue(log) && x.exchange == log[i].exchange
  {
    LatestPerVenueSpec(log);
    var last := LastOfVenueFrom(log, i);
    assert log[last] in LatestPerVenue(log);
  }

  /** The last position at or after i holding i's venue. */
  function LastOfVenueFrom(log: seq<Quote>, i: int): (last: int)
    requires 0 <= i < |log|
    ensures i <= last && IsLastOfVenue(log, last) && log[last].exchange == log[i].exchange
    decreases |log| - i
  {
    if exists j :: i < j < |log| && log[j].exchange == log[i].exchange then
      var j :| i < j < |log| && log[j].exchange == log[i].exchange;
      LastOfVenueFrom(log, j)
    else i
  }

  // ----- The summary -----

  /** The summary of a non-empty log, generated at `now`. */
  function Summary(date: string, now: string, log: seq<Quote>): (s: DailySummary)
    requires |log| > 0
    ensures s.date == date && s.latestUpdate == now
    ensures exists i, k ::
      (&& IsBestBuyIndex(log, i) && IsBestSellIndex(log, k)
       && s.bestToBuy == log[i].exchange && s.bestToSell == log[k].exchange
       && s.arbitrage == log[k].bid - log[i].ask)
    ensures SortedByVenue(s.exchangeData)
    ensures forall x :: x in s.exchangeData <==> exists i :: IsLastOfVenue(log, i) && log[i] == x
  {
    LatestPerVenueSpec(log);
    var i := BestBuyIndex(log);
    var k := BestSellIndex(log);
    DailySummary(date, now, log[i].exchange, log[k].exchange, log[k].bid - log[i].ask, LatestPerVenue(log))
  }

  /** The spread is the highest bid minus the lowest ask, signed: negative
      whenever no venue bids above another venue's ask. */
  lemma {:induction false} ArbitrageIsSignedSpread(date: string, now: string, log: seq<Quote>)
    requires |log| > 0
    ensures Summary(date, now, log).arbitrage == MaxBid(log) - MinAsk(log)
    ensures Summary(date, now, log).arbitrage < 0.0 <==>
      forall j, l :: 0 <= j < |log| && 0 <= l < |log| ==> log[j].bid < log[l].ask
  {
    var i := BestBuyIndex(log);
    var k := BestSellIndex(log);
    assert Summary(date, now, log).arbitrage == log[k].bid - log[i].ask;
    var jm :| 0 <= jm < |log| && log[jm].ask == MinAsk(log);
    var lm :| 0 <= lm < |log| && log[lm].bid == MaxBid(log);
    assert log[i].ask <= log[jm].ask;
    assert log[lm].bid <= log[k].bid;
    if log[k].bid - log[i].ask < 0.0 {
      forall j, l | 0 <= j < |log| && 0 <= l < |log|
        ensures log[j].bid < log[l].ask
      {
        assert log[j].bid <= log[k].bid && log[i].ask <= log[l].ask;
      }
    }
  }

  /** What `create_daily_summary` writes for the stored log: nothing when the
      file is missing, corrupt, or holds no reading; otherwise the summary. */
  function SummaryOf(date: string, now: string, stored: Stored): (r: Option<DailySummary>)
    ensures r.None? <==> stored.Missing? || stored.Corrupt? || stored == Log([])
    ensures stored.Log? && stored.quotes != [] ==> r == Some(Summary(date, now, stored.quotes))
  {
    match stored
    case Missing => None
    case Corrupt => None
    case Log(quotes) => if quotes == [] then None else Some(Summary(date, now, quotes))
  }
}
