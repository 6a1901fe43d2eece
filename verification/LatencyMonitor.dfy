/** The latency monitor: unsigned differences of three timestamps. */
module LatencyMonitor {
  import opened Words
  import opened MarketData

  datatype LatencyRecord = LatencyRecord(queueNs: U64, networkNs: U64, totalNs: U64)

  /** A message handed to the client, and when. */
  datatype Delivered = Delivered(m: Message, at: U64)

  function RecordOf(m: Message, received: U64): LatencyRecord {
    LatencyRecord(Minus(m.disseminated, m.enqueued), Minus(received, m.disseminated), Minus(received, m.enqueued))
  }

  /** From the message's enqueue time, the record's parts lead to its dissemination and on to its reception, and the
      total leads there directly, on a clock that wraps at 2^64. */
  ghost predicate Measures(r: LatencyRecord, m: Message, received: U64) {
    && Word(m.enqueued + r.queueNs) == m.disseminated
    && Word(m.disseminated + r.networkNs) == received
    && Word(m.enqueued + r.totalNs) == received
  }

  /** Adding a word to the earlier reading gives the later one exactly for their word difference. */
  lemma MinusIsTheDistance(earlier: U64, later: U64, d: U64)
    ensures Word(earlier + d) == later <==> d == Minus(later, earlier)
  {
    var k := if later < earlier then later - earlier + TwoTo64 else later - earlier;
    assert Minus(later, earlier) == k;
    assert Word(earlier + d) == if earlier + d < TwoTo64 then earlier + d else earlier + d - TwoTo64;
  }

  /** There is just one record that measures a delivery, and that is the one the monitor computes. */
  lemma MeasuresIff(r: LatencyRecord, m: Message, received: U64)
    ensures Measures(r, m, received) <==> r == RecordOf(m, received)
  {
    MinusIsTheDistance(m.enqueued, m.disseminated, r.queueNs);
    MinusIsTheDistance(m.disseminated, received, r.networkNs);
    MinusIsTheDistance(m.enqueued, received, r.totalNs);
  }

  /** The records of one kind of message, in order of delivery. */
  ghost function Records(ds: seq<Delivered>, quotes: bool): seq<LatencyRecord> {
    if ds == [] then []
    else
      var last := ds[|ds| - 1];
      Records(ds[..|ds| - 1], quotes) + if last.m.Quote? == quotes then [RecordOf(last.m, last.at)] else []
  }

  lemma RecordsSnoc(ds: seq<Delivered>, d: Delivered, quotes: bool)
    ensures Records(ds + [d], quotes) == Records(ds, quotes) + if d.m.Quote? == quotes then [RecordOf(d.m, d.at)] else []
  {
    assert (ds + [d])[..|ds|] == ds;
  }

  /** Deliveries of one kind. */
  function OfKind(ds: seq<Delivered>, quotes: bool): seq<Delivered> {
    if ds == [] then []
    else OfKind(ds[..|ds| - 1], quotes) + if ds[|ds| - 1].m.Quote? == quotes then [ds[|ds| - 1]] else []
  }

  /** The i-th record measures the i-th delivery of its kind, and there are no others. */
  lemma {:induction false} RecordsMeasure(ds: seq<Delivered>, quotes: bool)
    ensures |Records(ds, quotes)| == |OfKind(ds, quotes)|
    ensures forall i :: 0 <= i < |Records(ds, quotes)| ==>
              Measures(Records(ds, quotes)[i], OfKind(ds, quotes)[i].m, OfKind(ds, quotes)[i].at)
  {
    if ds != [] {
      var last := ds[|ds| - 1];
      RecordsMeasure(ds[..|ds| - 1], quotes);
      MeasuresIff(RecordOf(last.m, last.at), last.m, last.at);
    }
  }

  class LatencyMonitor {
    var quoteLatencies: seq<LatencyRecord>
    var tradeLatencies: seq<LatencyRecord>

    constructor ()
      ensures quoteLatencies == [] && tradeLatencies == []
    {
      quoteLatencies, tradeLatencies := [], [];
    }

    /** One record is appended, and it measures this quote. */
    method OnQuote(quote: Message, received: U64)
      requires quote.Quote?
      modifies this`quoteLatencies
      ensures |quoteLatencies| == |old(quoteLatencies)| + 1 && old(quoteLatencies) < quoteLatencies
      ensures Measures(quoteLatencies[|quoteLatencies| - 1], quote, received)
    {
      quoteLatencies := quoteLatencies + [RecordOf(quote, received)];
      MeasuresIff(RecordOf(quote, received), quote, received);
    }

    /** One record is appended, and it measures this trade. */
    method OnTrade(trade: Message, received: U64)
      requires trade.Trade?
      modifies this`tradeLatencies
      ensures |tradeLatencies| == |old(tradeLatencies)| + 1 && old(tradeLatencies) < tradeLatencies
      ensures Measures(tradeLatencies[|tradeLatencies| - 1], trade, received)
    {
      tradeLatencies := tradeLatencies + [RecordOf(trade, received)];
      MeasuresIff(RecordOf(trade, received), trade, received);
    }

    /** The client's two callbacks over a run of deliveries: each message goes to the callback of its kind. */
    method Replay(ds: seq<Delivered>)
      modifies this
      ensures quoteLatencies == old(quoteLatencies) + Records(ds, true)
      ensures tradeLatencies == old(tradeLatencies) + Records(ds, false)
    {
      for i := 0 to |ds|
        invariant quoteLatencies == old(quoteLatencies) + Records(ds[..i], true)
        invariant tradeLatencies == old(tradeLatencies) + Records(ds[..i], false)
      {
        var d := ds[i];
        assert ds[..i + 1] == ds[..i] + [d];
        RecordsSnoc(ds[..i], d, true);
        RecordsSnoc(ds[..i], d, false);
        if d.m.Quote? {
          OnQuote(d.m, d.at);
          MeasuresIff(quoteLatencies[|quoteLatencies| - 1], d.m, d.at);
          assert quoteLatencies == old(quoteLatencies) + (Records(ds[..i], true) + [RecordOf(d.m, d.at)]);
        } else {
          OnTrade(d.m, d.at);
          MeasuresIff(tradeLatencies[|tradeLatencies| - 1], d.m, d.at);
          assert tradeLatencies == old(tradeLatencies) + (Records(ds[..i], false) + [RecordOf(d.m, d.at)]);
        }
      }
      assert ds[..|ds|] == ds;
    }
  }

  ghost predicate Causal(m: Message, received: U64) { m.enqueued <= m.disseminated <= received }

  /** A difference wraps exactly when its timestamps are out of order. */
  lemma DifferenceExactIff(later: U64, earlier: U64)
    ensures Minus(later, earlier) == later - earlier <==> earlier <= later
  {
  }

  lemma MinusByCases(later: U64, earlier: U64)
    ensures Minus(later, earlier) == if earlier <= later then later - earlier else later - earlier + TwoTo64
  {
  }

  lemma WordByCases(a: U64, b: U64)
    ensures Word(a + b) == if a + b < TwoTo64 then a + b else a + b - TwoTo64
  {
  }

  /** The differences are true durations exactly for causally ordered timestamps; then the parts add up as naturals.
      In every case they add up modulo 2^64. */
  lemma RecordAddsUp(r: LatencyRecord, m: Message, received: U64)
    requires Measures(r, m, received)
    ensures Causal(m, received) <==> r.queueNs == m.disseminated - m.enqueued && r.networkNs == received - m.disseminated
    ensures Causal(m, received) ==> r.totalNs == r.queueNs + r.networkNs == received - m.enqueued
    ensures r.totalNs == Word(r.queueNs + r.networkNs)
  {
    MeasuresIff(r, m, received);
    MinusByCases(m.disseminated, m.enqueued);
    MinusByCases(received, m.disseminated);
    MinusByCases(received, m.enqueued);
    WordByCases(r.queueNs, r.networkNs);
  }
}
