/**
  The collector: every venue adapter is asked once, in a fixed order, and the
  successful snapshots are kept in that order. An adapter's network request
  and response parsing are outside the model; what it hands back is an
  `Option<Quote>` (`None` for any failure it caught).
 */
module Collector {
  import opened Quotes

  /** The venues in the order the collector asks them. */
  const Registry: seq<string> := ["Binance", "Coinbase", "Kraken", "Huobi", "FTX"]

  /** The successful outcomes, in order. */
  function Successful(outcomes: seq<Option<Quote>>): (r: seq<Quote>)
    ensures |r| <= |outcomes|
  {
    if outcomes == [] then []
    else
      var last := outcomes[|outcomes| - 1];
      Successful(outcomes[..|outcomes| - 1]) + (if last.Some? then [last.value] else [])
  }

  /** The positions of the successful outcomes, in order. */
  function Origins(outcomes: seq<Option<Quote>>): seq<nat>
  {
    if outcomes == [] then []
    else
      Origins(outcomes[..|outcomes| - 1]) + (if outcomes[|outcomes| - 1].Some? then [|outcomes| - 1] else [])
  }

  /** An adapter outcome that, when it succeeds, is labelled with its venue. */
  predicate FromVenue(outcome: Option<Quote>, venue: string)
  {
    outcome.Some? ==> outcome.value.exchange == venue
  }

  /** The filter keeps exactly the successful outcomes, in their order: the
      k-th kept quote is the value of the k-th successful outcome, positions
      strictly increase, and no successful outcome is skipped. */
  lemma {:induction false} SuccessfulAreExactlyTheSomes(outcomes: seq<Option<Quote>>)
    ensures |Origins(outcomes)| == |Successful(outcomes)|
    ensures forall k :: 0 <= k < |Origins(outcomes)| ==>
      Origins(outcomes)[k] < |outcomes| && outcomes[Origins(outcomes)[k]] == Some(Successful(outcomes)[k])
    ensures forall k, l :: 0 <= k < l < |Origins(outcomes)| ==> Origins(outcomes)[k] < Origins(outcomes)[l]
    ensures forall i :: 0 <= i < |outcomes| && outcomes[i].Some? ==> i in Origins(outcomes)
  {
    if outcomes != [] {
      var init := outcomes[..|outcomes| - 1];
      SuccessfulAreExactlyTheSomes(init);
      assert forall i :: 0 <= i < |init| ==> init[i] == outcomes[i];
    }
  }

  /** No quote exactly when every adapter failed. */
  lemma {:induction false} SuccessfulEmptyIffAllFailed(outcomes: seq<Option<Quote>>)
    ensures Successful(outcomes) == [] <==> forall i :: 0 <= i < |outcomes| ==> outcomes[i].None?
  {
    if outcomes != [] {
      var init := outcomes[..|outcomes| - 1];
      SuccessfulEmptyIffAllFailed(init);
      assert forall i :: 0 <= i < |init| ==> init[i] == outcomes[i];
    }
  }

  /** When every adapter labels its quote with its own venue, the collected
      venues follow the registration order, so no venue appears twice. */
  lemma CollectedInRegistryOrder(outcomes: seq<Option<Quote>>)
    requires |outcomes| == |Registry|
    requires forall i :: 0 <= i < |Registry| ==> FromVenue(outcomes[i], Registry[i])
    ensures |Origins(outcomes)| == |Successful(outcomes)|
    ensures forall k :: 0 <= k < |Successful(outcomes)| ==> Origins(outcomes)[k] < |Registry|
    ensures forall k :: 0 <= k < |Successful(outcomes)| ==>
      Successful(outcomes)[k].exchange == Registry[Origins(outcomes)[k]]
    ensures forall k, l :: 0 <= k < l < |Successful(outcomes)| ==>
      Origins(outcomes)[k] < Origins(outcomes)[l] &&
      Successful(outcomes)[k].exchange != Successful(outcomes)[l].exchange
  {
    SuccessfulAreExactlyTheSomes(outcomes);
  }

  /** Asks the five adapters in order and appends each success to the result. */
  method CollectAll(binance: Option<Quote>, coinbase: Option<Quote>, kraken: Option<Quote>,
                    huobi: Option<Quote>, ftx: Option<Quote>)
    returns (collected: seq<Quote>)
    ensures collected == Successful([binance, coinbase, kraken, huobi, ftx])
    ensures |collected| <= |Registry|
    ensures collected == [] <==> binance.None? && coinbase.None? && kraken.None? && huobi.None? && ftx.None?
  {
    ghost var outcomes := [binance, coinbase, kraken, huobi, ftx];
    collected := [];
    if binance.Some? {
      collected := collected + [binance.value];
    }
    assert collected == Successful(outcomes[..1]);
    if coinbase.Some? {
      collected := collected + [coinbase.value];
    }
    assert outcomes[..2][..1] == outcomes[..1];
    assert collected == Successful(outcomes[..2]);
    if kraken.Some? {
      collected := collected + [kraken.value];
    }
    assert outcomes[..3][..2] == outcomes[..2];
    assert collected == Successful(outcomes[..3]);
    if huobi.Some? {
      collected := collected + [huobi.value];
    }
    assert outcomes[..4][..3] == outcomes[..3];
    assert collected == Successful(outcomes[..4]);
    if ftx.Some? {
      collected := collected + [ftx.value];
    }
    assert outcomes[..5][..4] == outcomes[..4];
    assert outcomes[..5] == outcomes;
    SuccessfulEmptyIffAllFailed(outcomes);
    assert outcomes[0] == binance && outcomes[1] == coinbase && outcomes[2] == kraken;
    assert outcomes[3] == huobi && outcomes[4] == ftx;
  }
}
