/** The disseminator's worker: take a message, stamp it, build the topic in a reused buffer, send. */
module Disseminator {
  import opened MarketData
  import opened WireFormat

  function Stamped(m: Message, now: U64): Message { m.(disseminated := now) }

  /** memcpy(dst + at, src, |src|) */
  method MemCpy(dst: array<Byte>, at: nat, src: Bytes)
    requires at + |src| <= dst.Length
    modifies dst
    ensures dst[..] == old(dst[..at]) + src + old(dst[at + |src|..])
  {
    for i := 0 to |src|
      invariant dst[..] == old(dst[..at]) + src[..i] + old(dst[at + i..])
    {
      ghost var before := dst[..];
      dst[at + i] := src[i];
      assert dst[..] == before[at + i := src[i]];
    }
  }

  /** What one successful queue pop hands over, the clock reading that stamps it, and what happens to be in the
      padding of the struct. */
  datatype Popped = Popped(m: Message, now: U64, pad: Bytes)

  function Sent(p: Popped): Bytes
    requires |p.pad| == 4
  {
    Datagram(Stamped(p.m, p.now), p.pad)
  }

  /** What goes over the wire for message m sent at time now, byte by byte; four bytes of a trade are padding. */
  ghost predicate Carries(d: Bytes, m: Message, now: U64) {
    match m
    case Quote(symbol, bidPrice, askPrice, bidSize, askSize, enqueued, _) =>
      && |d| == 58 && d[0] == 'Q' as int && d[1] == ':' as int && d[2..10] == symbol && d[10..18] == symbol
      && d[18..26] == Word64(bidPrice) && d[26..34] == Word64(askPrice)
      && d[34..38] == Word32(bidSize) && d[38..42] == Word32(askSize)
      && d[42..50] == Word64(enqueued) && d[50..58] == Word64(now)
    case Trade(symbol, price, size, enqueued, _) =>
      && |d| == 50 && d[0] == 'T' as int && d[1] == ':' as int && d[2..10] == symbol && d[10..18] == symbol
      && d[18..26] == Word64(price) && d[26..30] == Word32(size)
      && d[34..42] == Word64(enqueued) && d[42..50] == Word64(now)
  }

  /** A byte range of the payload, counted from the start of the datagram. */
  lemma InDatagram(topic: Bytes, payload: Bytes, from: nat, to: nat)
    requires |topic| == TopicSize && from <= to <= |payload|
    ensures (topic + payload)[TopicSize + from..TopicSize + to] == payload[from..to]
  {
  }

  lemma QuoteCarried(m: Message, now: U64, pad: Bytes)
    requires m.Quote? && |pad| == 4
    ensures Carries(Datagram(Stamped(m, now), pad), m, now)
  {
    var s := Stamped(m, now);
    var b := Payload(s, pad);
    PayloadFields(s, pad);
    assert Topic(s)[2..10] == Datagram(s, pad)[2..10] == m.symbol;
    InDatagram(Topic(s), b, 0, 8);
    InDatagram(Topic(s), b, 8, 16);
    InDatagram(Topic(s), b, 16, 24);
    InDatagram(Topic(s), b, 24, 28);
    InDatagram(Topic(s), b, 28, 32);
    InDatagram(Topic(s), b, 32, 40);
    InDatagram(Topic(s), b, 40, 48);
  }

  lemma TradeCarried(m: Message, now: U64, pad: Bytes)
    requires m.Trade? && |pad| == 4
    ensures Carries(Datagram(Stamped(m, now), pad), m, now)
  {
    var s := Stamped(m, now);
    var b := Payload(s, pad);
    PayloadFields(s, pad);
    assert Topic(s)[2..10] == Datagram(s, pad)[2..10] == m.symbol;
    InDatagram(Topic(s), b, 0, 8);
    InDatagram(Topic(s), b, 8, 16);
    InDatagram(Topic(s), b, 16, 20);
    InDatagram(Topic(s), b, 24, 32);
    InDatagram(Topic(s), b, 32, 40);
  }

  class UdpDisseminator {
    const topicBuf: array<Byte>

    ghost predicate Valid()
      reads topicBuf
    {
      topicBuf.Length == TopicSize && topicBuf[1] == ':' as int
    }

    constructor ()
      ensures Valid() && fresh(topicBuf)
    {
      topicBuf := new Byte[TopicSize];
      new;
      topicBuf[1] := ':' as int;
    }

    /** send_impl: both parts are copied into one local buffer, of which only the used part is sent. */
    method SendImpl(payload: Bytes) returns (sent: Bytes)
      requires Valid() && |payload| <= QuoteSize
      ensures sent == topicBuf[..] + payload
    {
      var datagram := new Byte[TopicSize + QuoteSize];
      MemCpy(datagram, 0, topicBuf[..]);
      assert datagram[..TopicSize] == topicBuf[..];
      MemCpy(datagram, TopicSize, payload);
      assert datagram[..TopicSize] == topicBuf[..];
      sent := datagram[..TopicSize + |payload|];
    }

    /** Kind and symbol go into the buffer; the colon is already there. */
    method BuildTopic(m: Message)
      requires Valid()
      modifies topicBuf
      ensures topicBuf[..] == Topic(m)
    {
      topicBuf[0] := Tag(m);
      assert topicBuf[..2] == [Tag(m), ':' as int];
      MemCpy(topicBuf, 2, m.symbol);
    }

    /** run_loop for the messages its pops return, until a pop fails.  Whatever the previous message left in the
        topic buffer, each datagram is that of the message at hand. */
    method RunLoop(pops: seq<Popped>) returns (sent: seq<Bytes>)
      requires Valid() && forall i :: 0 <= i < |pops| ==> |pops[i].pad| == 4
      modifies topicBuf
      ensures Valid()
      ensures |sent| == |pops| && forall i :: 0 <= i < |pops| ==> sent[i] == Sent(pops[i])
      ensures forall i :: 0 <= i < |pops| ==> Carries(sent[i], pops[i].m, pops[i].now)
    {
      sent := [];
      for i := 0 to |pops|
        invariant Valid()
        invariant |sent| == i && forall j :: 0 <= j < i ==> sent[j] == Sent(pops[j])
      {
        var payload := Stamped(pops[i].m, pops[i].now);
        BuildTopic(payload);
        var datagram := SendImpl(Payload(payload, pops[i].pad));
        sent := sent + [datagram];
      }
      forall i | 0 <= i < |pops| ensures Carries(sent[i], pops[i].m, pops[i].now) {
        if pops[i].m.Quote? {
          QuoteCarried(pops[i].m, pops[i].now, pops[i].pad);
        } else {
          TradeCarried(pops[i].m, pops[i].now, pops[i].pad);
        }
      }
    }
  }
}
