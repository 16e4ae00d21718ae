/**
  The per-date store: one log file per run date, read back as missing,
  corrupt or a sequence of quotes, and one summary file per date. Saving
  reads the day's log (missing or corrupt counts as empty), appends the new
  readings, overwrites the file, then rebuilds the day's summary.
 */
module Persistence {
  import opened Quotes
  import opened Summarizer

  /** The readings a stored log contributes to the next save. */
  function Existing(stored: Stored): (log: seq<Quote>)
    ensures stored.Missing? || stored.Corrupt? ==> log == []
    ensures stored.Log? ==> log == stored.quotes
  {
    if stored.Log? then stored.quotes else []
  }

  /** The log file after appending `data` to what was stored. */
  function Appended(stored: Stored, data: seq<Quote>): (r: Stored)
    ensures r.Log? && |r.quotes| == |Existing(stored)| + |data|
  {
    Log(Existing(stored) + data)
  }

  /** The stored log is kept as a prefix and the new readings follow it in
      their order; a missing or undecodable file leaves the new readings alone. */
  lemma AppendedKeepsOrder(stored: Stored, data: seq<Quote>)
    ensures Appended(stored, data).Log?
    ensures stored.Log? ==> Appended(stored, data).quotes[..|stored.quotes|] == stored.quotes
    ensures |Appended(stored, data).quotes| == |Existing(stored)| + |data|
    ensures forall j :: 0 <= j < |data| ==>
      Appended(stored, data).quotes[|Existing(stored)| + j] == data[j]
    ensures stored.Missing? || stored.Corrupt? ==> Appended(stored, data) == Log(data)
  {
  }

  /** Saving `a` and then `b` stores what saving `a + b` once stores. */
  lemma {:induction false} AppendedAssociative(stored: Stored, a: seq<Quote>, b: seq<Quote>)
    ensures Appended(Appended(stored, a), b) == Appended(stored, a + b)
  {
    assert Existing(stored) + a + b == Existing(stored) + (a + b);
  }

  class PriceStore {
    /** The log file of each date; a date without an entry has no file. */
    var logs: map<string, Stored>
    /** The summary file of each date. */
    var summaries: map<string, DailySummary>

    constructor (logs0: map<string, Stored>, summaries0: map<string, DailySummary>)
      ensures logs == logs0 && summaries == summaries0
    {
      logs := logs0;
      summaries := summaries0;
    }

    /** What reading the log file of `date` gives. */
    function LogAt(date: string): (s: Stored)
      reads this
      ensures date !in logs ==> s == Missing
      ensures date in logs ==> s == logs[date]
    {
      if date in logs then logs[date] else Missing
    }

    /** `create_daily_summary`: rebuilds the summary of `date` from its log,
        overwriting the previous one; writes nothing when there is none. */
    method RebuildSummary(date: string, now: string)
      modifies this
      ensures logs == old(logs)
      ensures SummaryOf(date, now, old(LogAt(date))).None? ==> summaries == old(summaries)
      ensures SummaryOf(date, now, old(LogAt(date))).Some? ==>
        summaries == old(summaries)[date := SummaryOf(date, now, old(LogAt(date))).value]
    {
      var stored := LogAt(date);
      if stored.Missing? {
        return;
      }
      if stored.Corrupt? {
        return;
      }
      var log := stored.quotes;
      if |log| > 0 {
        summaries := summaries[date := Summary(date, now, log)];
      }
    }

    /** `save_data_to_file`: appends the readings to the log of `date`, then
        rebuilds that date's summary. */
    method Save(date: string, now: string, data: seq<Quote>)
      modifies this
      ensures logs == old(logs)[date := Appended(old(LogAt(date)), data)]
      ensures summaries == SummariesAfter(old(summaries), date, now, Existing(old(LogAt(date))) + data)
    {
      var existing: seq<Quote>;
      var stored := LogAt(date);
      if stored.Log? {
        existing := stored.quotes;
      } else {
        existing := [];
      }
      existing := existing + data;
      logs := logs[date := Log(existing)];
      RebuildSummary(date, now);
    }
  }

  /** The summary files after a save that left `log` as the date's log:
      that date's summary is rebuilt from the whole log, unless the log is
      empty, in which case nothing is written. */
  function SummariesAfter(summaries: map<string, DailySummary>, date: string, now: string,
                          log: seq<Quote>): map<string, DailySummary>
  {
    if |log| == 0 then summaries else summaries[date := Summary(date, now, log)]
  }

  /** A later rebuild from a log at least as long overwrites the earlier one. */
  lemma RebuildOverwrites(summaries: map<string, DailySummary>, date: string, now: string,
                          shorter: seq<Quote>, longer: seq<Quote>)
    requires |shorter| <= |longer|
    ensures SummariesAfter(SummariesAfter(summaries, date, now, shorter), date, now, longer)
         == SummariesAfter(summaries, date, now, longer)
  {
  }

  /** Saving `a` and then `b` on one date leaves the store as saving `a + b`
      once: the same log file and the same summaries. */
  method SaveTwiceOrOnce(logs0: map<string, Stored>, summaries0: map<string, DailySummary>,
                         date: string, now: string, a: seq<Quote>, b: seq<Quote>)
    returns (twice: Stored, once: Stored,
             twiceSummaries: map<string, DailySummary>, onceSummaries: map<string, DailySummary>)
    ensures twice == once
    ensures once == Appended(if date in logs0 then logs0[date] else Missing, a + b)
    ensures twiceSummaries == onceSummaries
  {
    var initial := if date in logs0 then logs0[date] else Missing;
    ghost var e := Existing(initial);
    ghost var all := e + (a + b);
    assert e + a + b == all;
    var stepwise := new PriceStore(logs0, summaries0);
    stepwise.Save(date, now, a);
    ghost var afterFirst := stepwise.logs;
    ghost var middle := stepwise.summaries;
    assert stepwise.LogAt(date) == Log(e + a);
    stepwise.Save(date, now, b);
    assert stepwise.logs == afterFirst[date := Log(all)];
    assert stepwise.summaries == SummariesAfter(middle, date, now, all);
    RebuildOverwrites(summaries0, date, now, e + a, all);
    var atOnce := new PriceStore(logs0, summaries0);
    atOnce.Save(date, now, a + b);
    twice, once := stepwise.LogAt(date), atOnce.LogAt(date);
    twiceSummaries, onceSummaries := stepwise.summaries, atOnce.summaries;
  }
}
