/** Market data messages and their bytes: little-endian, laid out as the 64-bit ABI lays out the structs.
    Prices are carried as the 64 bits of the double. */
module MarketData {
  import opened Words

  type Byte = x: int | 0 <= x < 256

  type Bytes = seq<Byte>

  type U64 = x: int | 0 <= x < TwoTo64

  type U32 = x: int | 0 <= x < 0x1_0000_0000

  type Symbol = s: Bytes | |s| == 8 witness [0, 0, 0, 0, 0, 0, 0, 0]

  datatype Message =
    | Quote(symbol: Symbol, bidPrice: U64, askPrice: U64, bidSize: U32, askSize: U32, enqueued: U64, disseminated: U64)
    | Trade(symbol: Symbol, price: U64, size: U32, enqueued: U64, disseminated: U64)

  /** The same kind, symbol, prices and sizes. */
  ghost predicate SameMarket(a: Message, b: Message) {
    && a.symbol == b.symbol
    && match a
       case Quote(_, bid, ask, bidSize, askSize, _, _) =>
         b.Quote? && b.bidPrice == bid && b.askPrice == ask && b.bidSize == bidSize && b.askSize == askSize
       case Trade(_, price, size, _, _) => b.Trade? && b.price == price && b.size == size
  }

  /** Message b is a as it enters the queue at time t. */
  ghost predicate EnqueuedAt(a: Message, b: Message, t: nat) {
    SameMarket(a, b) && b.enqueued == t && b.disseminated == a.disseminated
  }

  /** Message b is a as it is sent at time t. */
  ghost predicate DisseminatedAt(a: Message, b: Message, t: nat) {
    SameMarket(a, b) && b.enqueued == a.enqueued && b.disseminated == t
  }

  const QuoteSize: nat := 48
  const TradeSize: nat := 40
  const TopicSize: nat := 10

  // ---------- little-endian numbers ----------

  function Pow256(n: nat): nat {
    if n == 0 then 1 else 256 * Pow256(n - 1)
  }

  function ToBytes(x: nat, n: nat): (b: Bytes)
    ensures |b| == n
  {
    if n == 0 then [] else [x % 256] + ToBytes(x / 256, n - 1)
  }

  function FromBytes(b: Bytes): (x: nat)
    ensures x < Pow256(|b|)
  {
    if b == [] then 0 else b[0] + 256 * FromBytes(b[1..])
  }

  /** Digit i of a number to base 256, the lowest being digit 0. */
  function Digit(x: nat, i: nat): nat {
    if i == 0 then x % 256 else Digit(x / 256, i - 1)
  }

  /** Little-endian: byte i is digit i. */
  lemma {:induction false} ByteOf(x: nat, n: nat, i: nat)
    requires i < n
    ensures ToBytes(x, n)[i] == Digit(x, i)
  {
    if i > 0 {
      ByteOf(x / 256, n - 1, i - 1);
    }
  }

  lemma {:induction false} NumberRoundTrip(x: nat, n: nat)
    requires x < Pow256(n)
    ensures FromBytes(ToBytes(x, n)) == x
  {
    if n > 0 {
      NumberRoundTrip(x / 256, n - 1);
      assert ToBytes(x, n)[1..] == ToBytes(x / 256, n - 1);
    }
  }

  lemma LowestDigit(d: Byte, rest: nat)
    ensures (d + 256 * rest) % 256 == d && (d + 256 * rest) / 256 == rest
  {
  }

  lemma {:induction false} BytesRoundTrip(b: Bytes)
    ensures ToBytes(FromBytes(b), |b|) == b
  {
    if b != [] {
      BytesRoundTrip(b[1..]);
      LowestDigit(b[0], FromBytes(b[1..]));
      assert b == [b[0]] + b[1..];
    }
  }

  /** Equal length and equal number means equal bytes. */
  lemma FromBytesInjective(a: Bytes, b: Bytes)
    requires |a| == |b|
    ensures FromBytes(a) == FromBytes(b) <==> a == b
  {
    BytesRoundTrip(a);
    BytesRoundTrip(b);
  }

  lemma Widths()
    ensures Pow256(4) == 0x1_0000_0000 && Pow256(8) == TwoTo64
  {
    assert Pow256(2) == 0x1_0000;
    assert Pow256(4) == 0x1_0000_0000;
    assert Pow256(6) == 0x1_0000_0000_0000;
  }

  function Word64(x: U64): (b: Bytes)
    ensures |b| == 8 && FromBytes(b) == x
  {
    Widths();
    NumberRoundTrip(x, 8);
    ToBytes(x, 8)
  }

  function Word32(x: U32): (b: Bytes)
    ensures |b| == 4 && FromBytes(b) == x
  {
    Widths();
    NumberRoundTrip(x, 4);
    ToBytes(x, 4)
  }

  function Read64(b: Bytes, at: nat): (x: U64)
    requires at + 8 <= |b|
    ensures Word64(x) == b[at..at + 8]
  {
    Widths();
    BytesRoundTrip(b[at..at + 8]);
    FromBytes(b[at..at + 8])
  }

  function Read32(b: Bytes, at: nat): (x: U32)
    requires at + 4 <= |b|
    ensures Word32(x) == b[at..at + 4]
  {
    Widths();
    BytesRoundTrip(b[at..at + 4]);
    FromBytes(b[at..at + 4])
  }
}
