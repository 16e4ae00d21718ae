/**
  The data model shared by every component of the price tracker: one
  venue's best bid/ask snapshot, and the lexicographic order on venue names
  that the per-venue grouping of the daily summary sorts by.
 */
module Quotes {

  datatype Option<T> = None | Some(value: T)

  /** A venue's snapshot. Prices are exact reals rather than floats; the
      order-book depths are absent for venues whose API does not report them. */
  datatype Quote = Quote(
    exchange: string,
    timestamp: string,
    bid: real,
    ask: real,
    bidQty: Option<real>,
    askQty: Option<real>)

  /** What reading one day's log file gives back: no file, a file that
      `json.load` rejects with a JSON decode error, or the decoded sequence
      of quotes. */
  datatype Stored = Missing | Corrupt | Log(quotes: seq<Quote>)

  /** Strict lexicographic order on strings, character by character, a proper
      prefix being smaller: the order Python's `<` gives on `str`. */
  predicate Less(a: string, b: string): (r: bool)
    ensures r ==> a != b
    ensures a < b ==> r
  {
    if |a| == 0 then |b| > 0
    else if |b| == 0 then false
    else a[0] < b[0] || (a[0] == b[0] && Less(a[1..], b[1..]))
  }

  lemma {:induction false} LessTransitive(a: string, b: string, c: string)
    requires Less(a, b) && Less(b, c)
    ensures Less(a, c)
  {
    if |a| > 0 && a[0] == b[0] && b[0] == c[0] {
      LessTransitive(a[1..], b[1..], c[1..]);
    }
  }

  lemma {:induction false} LessTotal(a: string, b: string)
    ensures a == b || Less(a, b) || Less(b, a)
  {
    if |a| > 0 && |b| > 0 && a[0] == b[0] {
      LessTotal(a[1..], b[1..]);
      if a[1..] == b[1..] {
        assert a == [a[0]] + a[1..] && b == [b[0]] + b[1..];
      }
    }
  }
}
