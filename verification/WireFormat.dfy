/** Datagrams: what the disseminator puts on the wire and what the feed handler makes of it. */
module WireFormat {
  import opened Wrappers
  import opened MarketData

  // ---------- encoder ----------

  function Tag(m: Message): Byte { if m.Quote? then 'Q' as int else 'T' as int }

  /** The ten topic bytes: kind, colon, symbol. */
  function Topic(m: Message): (b: Bytes)
    ensures |b| == TopicSize
  {
    [Tag(m), ':' as int] + m.symbol
  }

  /** The object representation of the struct.  A Trade has four padding bytes after its 32-bit size, and they
      can hold anything. */
  function Payload(m: Message, pad: Bytes): (b: Bytes)
    requires |pad| == 4
    ensures |b| == if m.Quote? then QuoteSize else TradeSize
  {
    match m
    case Quote(symbol, bidPrice, askPrice, bidSize, askSize, enqueued, disseminated) =>
      symbol + Word64(bidPrice) + Word64(askPrice) + Word32(bidSize) + Word32(askSize)
      + Word64(enqueued) + Word64(disseminated)
    case Trade(symbol, price, size, enqueued, disseminated) =>
      symbol + Word64(price) + Word32(size) + pad + Word64(enqueued) + Word64(disseminated)
  }

  function Datagram(m: Message, pad: Bytes): Bytes
    requires |pad| == 4
  {
    Topic(m) + Payload(m, pad)
  }

  // ---------- decoder ----------

  function ReadQuote(b: Bytes): Message
    requires |b| == QuoteSize
  {
    Quote(b[0..8], Read64(b, 8), Read64(b, 16), Read32(b, 24), Read32(b, 28), Read64(b, 32), Read64(b, 40))
  }

  function ReadTrade(b: Bytes): Message
    requires |b| == TradeSize
  {
    Trade(b[0..8], Read64(b, 8), Read32(b, 16), Read64(b, 24), Read64(b, 32))
  }

  const BufferSize: nat := 1024

  /** recvfrom cuts a datagram that does not fit the buffer. */
  function Received(d: Bytes): Bytes {
    if |d| <= BufferSize then d else d[..BufferSize]
  }

  /** What one received datagram delivers to a client with the given subscriptions. */
  function Decode(b: Bytes, subscriptions: set<U64>): Option<Message> {
    if |b| < TopicSize then None
    else if Read64(b, 2) !in subscriptions then None
    else
      var payload := b[TopicSize..];
      if b[0] == 'Q' as int && |payload| == QuoteSize then Some(ReadQuote(payload))
      else if b[0] == 'T' as int && |payload| == TradeSize then Some(ReadTrade(payload))
      else None
  }

  // ---------- packed symbols ----------

  /** The first eight bytes of a name, filled up with zeros. */
  function Pad8(name: Bytes): (b: Symbol)
    ensures |name| >= 8 ==> b == name[..8]
    ensures |name| <= 8 ==> name <= b && forall i :: |name| <= i < 8 ==> b[i] == 0
  {
    if |name| >= 8 then name[..8] else name + seq(8 - |name|, _ => 0)
  }

  function Pack(name: Bytes): U64 { Read64(Pad8(name), 0) }

  lemma PackInjective(a: Bytes, b: Bytes)
    ensures Pack(a) == Pack(b) <==> Pad8(a) == Pad8(b)
  {
    assert Pad8(a)[0..8] == Pad8(a) && Pad8(b)[0..8] == Pad8(b);
  }

  // ---------- round trips ----------

  /** Where each field lies, and that the fields read back one by one. */
  lemma PayloadFields(m: Message, pad: Bytes)
    requires |pad| == 4
    ensures var b := Payload(m, pad);
            match m
            case Quote(symbol, bidPrice, askPrice, bidSize, askSize, enqueued, disseminated) =>
              && b[0..8] == symbol && b[8..16] == Word64(bidPrice) && b[16..24] == Word64(askPrice)
              && b[24..28] == Word32(bidSize) && b[28..32] == Word32(askSize)
              && b[32..40] == Word64(enqueued) && b[40..48] == Word64(disseminated)
              && ReadQuote(b) == m
            case Trade(symbol, price, size, enqueued, disseminated) =>
              && b[0..8] == symbol && b[8..16] == Word64(price) && b[16..20] == Word32(size) && b[20..24] == pad
              && b[24..32] == Word64(enqueued) && b[32..40] == Word64(disseminated)
              && ReadTrade(b) == m
  {
    var b := Payload(m, pad);
    assert b[0..8] == m.symbol;
    match m
    case Quote(symbol, bidPrice, askPrice, bidSize, askSize, enqueued, disseminated) =>
      assert b[8..16] == Word64(bidPrice) && b[16..24] == Word64(askPrice);
      assert b[24..28] == Word32(bidSize) && b[28..32] == Word32(askSize);
      assert b[32..40] == Word64(enqueued);
      assert b[40..48] == b[40..] == Word64(disseminated);
    case Trade(symbol, price, size, enqueued, disseminated) =>
      assert b[8..16] == Word64(price) && b[16..20] == Word32(size) && b[20..24] == pad;
      assert b[24..32] == Word64(enqueued);
      assert b[32..40] == b[32..] == Word64(disseminated);
  }

  /** Encode, send, receive, decode: the message comes back whole exactly to those subscribed to its symbol. */
  lemma WireRoundTrip(m: Message, pad: Bytes, subscriptions: set<U64>)
    requires |pad| == 4
    ensures Decode(Received(Datagram(m, pad)), subscriptions)
            == if Pack(m.symbol) in subscriptions then Some(m) else None
  {
    var d := Datagram(m, pad);
    assert d[..TopicSize] == Topic(m) && d[TopicSize..] == Payload(m, pad);
    assert d[2..10] == Topic(m)[2..10];
    assert Topic(m)[2..10] == m.symbol;
    assert Pad8(m.symbol) == m.symbol == m.symbol[0..8];
    PayloadFields(m, pad);
  }

  /** A quote's bytes are exactly its fields. */
  lemma QuoteBytes(p: Bytes, pad: Bytes)
    requires |p| == QuoteSize && |pad| == 4
    ensures Payload(ReadQuote(p), pad) == p
  {
    assert p[0..8] + p[8..16] == p[..16];
    assert p[..16] + p[16..24] == p[..24];
    assert p[..24] + p[24..28] == p[..28];
    assert p[..28] + p[28..32] == p[..32];
    assert p[..32] + p[32..40] == p[..40];
    assert p[..40] + p[40..48] == p;
  }

  /** A trade's bytes are its fields and four bytes of padding. */
  lemma TradeBytes(p: Bytes)
    requires |p| == TradeSize
    ensures Payload(ReadTrade(p), p[20..24]) == p
  {
    assert p[0..8] + p[8..16] == p[..16];
    assert p[..16] + p[16..20] == p[..20];
    assert p[..20] + p[20..24] == p[..24];
    assert p[..24] + p[24..32] == p[..32];
    assert p[..32] + p[32..40] == p;
  }

  ghost predicate Encodes(m: Message, p: Bytes) {
    exists pad: Bytes :: |pad| == 4 && p == Payload(m, pad)
  }

  /** The other way round: anything with another combination of tag and length is delivered as nothing, and
      whatever is delivered was, byte for byte after the topic, the encoding of just that message. */
  lemma DeliveredIsEncoding(b: Bytes, subscriptions: set<U64>)
    ensures var d := Decode(b, subscriptions);
            && (d.Some? <==>
                  && (|b| >= 10 && Read64(b, 2) in subscriptions)
                  && ((b[0] == 'Q' as int && |b| == 58) || (b[0] == 'T' as int && |b| == 50)))
            && (d.Some? ==> b[0] == Tag(d.value) && Encodes(d.value, b[TopicSize..]))
  {
    var d := Decode(b, subscriptions);
    if d.Some? {
      var p := b[TopicSize..];
      if d.value.Quote? {
        QuoteBytes(p, [0, 0, 0, 0]);
      } else {
        TradeBytes(p);
      }
    }
  }

  /** The receive buffer is large enough: cutting a longer datagram never turns it into something to deliver, nor
      spoils one. */
  lemma CutNeverMatters(d: Bytes, subscriptions: set<U64>)
    ensures Decode(Received(d), subscriptions) == Decode(d, subscriptions)
  {
    DeliveredIsEncoding(d, subscriptions);
    DeliveredIsEncoding(Received(d), subscriptions);
  }

  /** The filter looks at the topic's symbol, not the payload's.  For a delivered datagram the two agree
      exactly when the bytes do; the encoder always makes them agree. */
  lemma DeliveredSymbolSubscribed(b: Bytes, subscriptions: set<U64>)
    requires Decode(b, subscriptions).Some?
    ensures var m := Decode(b, subscriptions).value;
            Pack(m.symbol) == Read64(b, 2) <==> b[2..10] == b[10..18]
  {
    var m := Decode(b, subscriptions).value;
    assert m.symbol == b[10..18] == Pad8(m.symbol)[0..8];
    FromBytesInjective(b[2..10], b[10..18]);
  }
}
