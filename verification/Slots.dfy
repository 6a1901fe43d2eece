/** The ring's raw storage: a slot either holds a constructed element or is uninitialised memory. */
module Slots {
  import opened Wrappers

  datatype Slot<+T> = Raw | Live(value: T)

  /** The slot that element number i lives in. */
  function Idx(i: nat, cap: nat): (k: nat)
    requires 0 < cap
    ensures k < cap
  {
    i % cap
  }

  /** Elements less than a full turn apart never share a slot. */
  lemma IdxDistinct(i: nat, j: nat, cap: nat)
    requires 0 < cap && i < j < i + cap
    ensures Idx(i, cap) != Idx(j, cap)
  {
    if i % cap == j % cap {
      var q := j / cap - i / cap;
      assert q * cap == j - i by {
        assert j == (j / cap) * cap + j % cap && i == (i / cap) * cap + i % cap;
      }
      MultipleBounds(q, cap);
    }
  }

  /** A non-zero multiple of m is at least m away from zero. */
  lemma MultipleBounds(q: int, m: nat)
    ensures 1 <= q ==> m <= q * m
    ensures q <= -1 ==> q * m + m <= 0
  {
    if 1 <= q {
      assert 0 <= (q - 1) * m;
    } else if q <= -1 {
      assert (q + 1) * m <= 0;
    }
  }

  /** One full turn later the same slot comes up again. */
  lemma IdxTurn(i: nat, cap: nat)
    requires 0 < cap
    ensures Idx(i + cap, cap) == Idx(i, cap)
  {
    assert i == (i / cap) * cap + i % cap;
    assert i + cap == (i / cap + 1) * cap + i % cap;
    ModUnique(i + cap, cap, i / cap + 1, i % cap);
  }

  /** Quotient and remainder are unique. */
  lemma ModUnique(x: int, m: nat, q: int, r: nat)
    requires 0 < m && x == q * m + r && r < m
    ensures x % m == r && x / m == q
  {
    var d := x / m - q;
    assert d * m == r - x % m by {
      assert x == (x / m) * m + x % m;
    }
    MultipleBounds(d, m);
  }

  /** Every slot is the slot of exactly one element in a window of one full turn. */
  lemma WindowCovers(lo: nat, cap: nat, k: nat) returns (i: nat)
    requires k < cap
    ensures lo <= i < lo + cap && Idx(i, cap) == k
  {
    var q := lo / cap;
    assert lo == q * cap + lo % cap;
    if lo % cap <= k {
      i := q * cap + k;
      ModUnique(i, cap, q, k);
    } else {
      i := q * cap + cap + k;
      assert i == (q + 1) * cap + k;
      ModUnique(i, cap, q + 1, k);
    }
  }

  // ---------- the destructor ----------

  /** What the destructor's loop makes of the slots: it destroys elements r, r+1, ... up to w.
      None when it would destroy a raw slot. */
  ghost function DestroyRange<T>(slots: seq<Slot<T>>, r: nat, w: nat): (left: Option<seq<Slot<T>>>)
    requires 0 < |slots|
    decreases w - r
  {
    if w <= r then Some(slots)
    else if slots[Idx(r, |slots|)].Raw? then None
    else DestroyRange(slots[Idx(r, |slots|) := Raw], r + 1, w)
  }

  /** When exactly elements [r, w) are live, the loop destroys those and nothing else. */
  lemma {:induction false} DestroyRangeEmpties<T>(slots: seq<Slot<T>>, r: nat, w: nat, n: nat)
    requires 0 < n == |slots| && r <= w <= r + n
    requires forall i :: r <= i < w ==> slots[Idx(i, n)].Live?
    requires forall i :: w <= i < r + n ==> slots[Idx(i, n)].Raw?
    ensures DestroyRange(slots, r, w) == Some(seq(n, _ => Raw))
    decreases w - r
  {
    if r == w {
      forall k | 0 <= k < n
        ensures slots[k] == Raw
      {
        var i := WindowCovers(r, n, k);
      }
      assert slots == seq(n, _ => Raw);
    } else {
      var rest := slots[Idx(r, n) := Raw];
      forall i | r < i < r + n + 1
        ensures rest[Idx(i, n)] == if i < r + n then slots[Idx(i, n)] else Raw
      {
        if i < r + n {
          IdxDistinct(r, i, n);
        } else {
          IdxTurn(r, n);
        }
      }
      DestroyRangeEmpties(rest, r + 1, w, n);
    }
  }
}
