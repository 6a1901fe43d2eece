/** Unsigned 64-bit arithmetic: `std::size_t` and `uint64_t`. */
module Words {
  import opened Slots

  const TwoTo64: nat := 0x1_0000_0000_0000_0000

  function Word(x: nat): (w: nat)
    ensures w < TwoTo64
  {
    x % TwoTo64
  }

  /** a - b as the machine computes it. */
  function Minus(a: nat, b: nat): (w: nat)
    ensures w < TwoTo64
  {
    (a - b) % TwoTo64
  }

  /** The difference of two wrapped counters is the true difference while that fits a word. */
  lemma MinusWords(a: nat, b: nat)
    requires b <= a < b + TwoTo64
    ensures Minus(Word(a), Word(b)) == a - b
  {
    var qa, qb := a / TwoTo64, b / TwoTo64;
    assert Word(a) - Word(b) == (qb - qa) * TwoTo64 + (a - b);
    ModUnique(Word(a) - Word(b), TwoTo64, qb - qa, a - b);
  }

  lemma MinusInOrder(a: nat, b: nat)
    requires b <= a < TwoTo64
    ensures Minus(a, b) == a - b
  {
  }

  lemma WordsEqual(a: nat, b: nat)
    requires b <= a < b + TwoTo64
    ensures Word(a) == Word(b) <==> a == b
  {
    MinusWords(a, b);
  }

  lemma WordSucc(a: nat)
    ensures Word(Word(a) + 1) == Word(a + 1)
  {
  }

  lemma WordAdd(a: nat, b: nat)
    requires b < TwoTo64
    ensures Word(Word(a) + b) == Word(a + b)
  {
  }

  /** A wrapped counter picks the right slot for every count exactly when the capacity divides 2^64. */
  lemma IndexSurvivesWrapIff(cap: nat)
    requires 0 < cap
    ensures (forall a: nat :: Idx(Word(a), cap) == Idx(a, cap)) <==> TwoTo64 % cap == 0
  {
    if TwoTo64 % cap == 0 {
      forall a: nat ensures Idx(Word(a), cap) == Idx(a, cap) { IndexSurvivesWrap(a, cap); }
    } else {
      assert Idx(Word(TwoTo64), cap) == 0 != Idx(TwoTo64, cap);
    }
  }

  lemma IndexSurvivesWrap(a: nat, cap: nat)
    requires 0 < cap && TwoTo64 % cap == 0
    ensures Idx(Word(a), cap) == Idx(a, cap)
  {
    var q, k, r := a / TwoTo64, TwoTo64 / cap, Word(a);
    assert TwoTo64 == k * cap;
    assert q * TwoTo64 == (q * k) * cap by { MulAssoc(q, k, cap); }
    assert a == (q * k) * cap + (r / cap) * cap + r % cap;
    assert (q * k) * cap + (r / cap) * cap == (q * k + r / cap) * cap;
    ModUnique(a, cap, q * k + r / cap, r % cap);
  }

  lemma MulAssoc(a: nat, b: nat, c: nat)
    ensures a * (b * c) == (a * b) * c
  {
  }
}
