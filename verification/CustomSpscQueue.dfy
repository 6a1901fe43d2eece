/** CustomSpscQueue as an object: the array of slots and two 64-bit counters, used by one thread at a time. */
module CustomSpscQueues {
  import opened Wrappers
  import opened Slots
  import opened Words
  import opened WordRing

  lemma CountOn(a: nat, n: nat, cap: nat)
    requires 0 < cap && n < TwoTo64 && (Wrappable(cap) || a < TwoTo64)
    ensures Idx(Word(a) + n, cap) == Idx(a + n, cap)
  {
    if Wrappable(cap) {
      WordAdd(a, n);
      IndexSurvivesWrap(Word(a) + n, cap);
      IndexSurvivesWrap(a + n, cap);
    }
  }

  class CustomSpscQueue<T(0)> {
    const capacity: nat
    var read_: nat
    var write_: nat
    const data_: array<Slot<T>>
    ghost var contents: seq<T>  // what has been pushed and not popped, oldest first
    ghost var taken: nat        // how many elements have ever been popped

    /** Element number j lives in slot Idx(j); all slots not of a current element are raw.  A capacity that does not
        divide 2^64 works until the counters wrap. */
    ghost predicate Valid()
      reads this, data_
    {
      && capacity < TwoTo64 && data_.Length == capacity
      && |contents| <= capacity
      && read_ == Word(taken) && write_ == Word(taken + |contents|)
      && (Wrappable(capacity) || taken + |contents| <= TwoTo64)
      && (forall j :: taken <= j < taken + |contents| ==> data_[Idx(j, capacity)] == Live(contents[j - taken]))
      && (0 < capacity ==> forall j :: taken + |contents| <= j < taken + capacity ==> data_[Idx(j, capacity)] == Raw)
    }

    constructor (capacity: nat)
      requires capacity < TwoTo64
      ensures Valid() && fresh(data_) && this.capacity == capacity && contents == [] && taken == 0
    {
      this.capacity := capacity;
      read_, write_ := 0, 0;
      data_ := new Slot<T>[capacity](_ => Raw);
      contents, taken := [], 0;
    }

    /** The word difference of the counters is the number of elements, wherever they have wrapped to. */
    lemma Size()
      requires Valid()
      ensures Minus(write_, read_) == |contents|
      ensures read_ == write_ <==> contents == []
    {
      MinusWords(taken + |contents|, taken);
    }

    /** The word of a counter picks the slot of the true count. */
    lemma RightSlot(n: nat)
      requires 0 < capacity < TwoTo64 && (Wrappable(capacity) || n < TwoTo64)
      ensures Idx(Word(n), capacity) == Idx(n, capacity)
    {
      if Wrappable(capacity) {
        IndexSurvivesWrap(n, capacity);
      }
    }

    /** Succeeds exactly when there is room; then builds into the one slot `write_` points at, which was raw. */
    method Push(item: T) returns (ok: bool)
      requires Valid() && (Wrappable(capacity) || taken + |contents| < TwoTo64)
      modifies this`write_, this`contents, data_
      ensures Valid()
      ensures ok <==> |old(contents)| < capacity
      ensures ok ==>
                && contents == old(contents) + [item] && write_ == Word(old(write_) + 1)
                && old(data_[Idx(write_, capacity)]).Raw?
                && data_[..] == old(data_[..])[old(Idx(write_, capacity)) := Live(item)]
      ensures !ok ==> contents == old(contents) && write_ == old(write_) && data_[..] == old(data_[..])
    {
      var w := write_;
      var r := read_;
      Size();
      if Minus(w, r) == capacity {
        return false;
      }
      ghost var end := taken + |contents|;
      var k := Idx(w, capacity);
      RightSlot(end);
      assert data_[k] == Raw;  // nothing live is built over
      forall j | taken <= j < taken + capacity && j != end
        ensures Idx(j, capacity) != k
      {
        if j < end { IdxDistinct(j, end, capacity); } else { IdxDistinct(end, j, capacity); }
      }
      data_[k] := Live(item);
      write_ := Word(w + 1);
      contents := contents + [item];
      WordSucc(end);
      return true;
    }

    /** Fails exactly on an empty queue; otherwise moves out of the one slot `read_` points at, and leaves it raw. */
    method Pop() returns (result: Option<T>)
      requires Valid()
      modifies this`read_, this`contents, this`taken, data_
      ensures Valid()
      ensures result.Some? <==> old(contents) != []
      ensures result.Some? ==>
                && [result.value] + contents == old(contents) && taken == old(taken) + 1
                && read_ == Word(old(read_) + 1) && 0 < capacity
                && old(data_[Idx(read_, capacity)]) == Live(result.value)
                && data_[..] == old(data_[..])[old(Idx(read_, capacity)) := Raw]
      ensures result.None? ==>
                contents == [] && taken == old(taken) && read_ == old(read_) && data_[..] == old(data_[..])
    {
      var r := read_;
      var w := write_;
      Size();
      if r == w {
        return None;
      }
      var idx := Idx(r, capacity);
      RightSlot(taken);
      assert data_[Idx(taken, capacity)] == Live(contents[0]);  // nothing raw is read
      var item := data_[idx].value;
      forall j | taken < j < taken + capacity
        ensures Idx(j, capacity) != idx
      {
        IdxDistinct(taken, j, capacity);
      }
      IdxTurn(taken, capacity);
      data_[idx] := Raw;
      read_ := Word(r + 1);
      WordSucc(taken);
      contents, taken := contents[1..], taken + 1;
      return Some(item);
    }

    /** `empty()` compares the counters as words. */
    method IsEmpty() returns (yes: bool)
      requires Valid()
      ensures yes <==> contents == []
    {
      Size();
      yes := read_ == write_;
    }

    /** The destructor compares the counters as words, too: it destroys every element left and only those
        when `read_ <= write_`, and otherwise (the counters have wrapped apart) destroys nothing at all. */
    method Destructor()
      requires Valid()
      modifies data_
      ensures read_ <= write_ ==> data_[..] == seq(capacity, _ => Raw)
      ensures write_ < read_ ==> data_[..] == old(data_[..])
      ensures (forall k :: 0 <= k < capacity ==> data_[k] == Raw) <==> read_ <= write_
    {
      var r, w := read_, write_;
      LeftToDestroy();
      while r < w
        invariant r <= w || w < read_ == r
        invariant r < w ==> 0 < capacity
        invariant 0 < capacity ==> DestroyRange(old(data_[..]), read_, w) == DestroyRange(data_[..], r, w)
        invariant w < read_ ==> data_[..] == old(data_[..])
      {
        var k := Idx(r, capacity);
        assert data_[..][k].Live?;  // nothing raw is destroyed
        ghost var before := data_[..];
        data_[k] := Raw;
        assert data_[..] == before[k := Raw];
        r := r + 1;
      }
      if w < read_ {
        assert Live(contents[0]) == data_[..][Idx(taken, capacity)];
      } else {
        assert data_[..] == seq(capacity, _ => Raw);
      }
    }

    /** Counting on from the word `read_` leads to the same slots as from the true number of pops: the first
        |contents| of them are live, the rest of the turn is raw. */
    lemma SameSlot(n: nat)
      requires Valid() && n < capacity && (Wrappable(capacity) || taken < TwoTo64)
      ensures Idx(read_ + n, capacity) == Idx(taken + n, capacity)
      ensures data_[Idx(read_ + n, capacity)].Live? <==> n < |contents|
    {
      CountOn(taken, n, capacity);
      assert data_[Idx(taken + n, capacity)].Live? <==> n < |contents|;
    }

    /** An empty queue has no live slot. */
    lemma AllRaw()
      requires Valid() && contents == []
      ensures data_[..] == seq(capacity, _ => Raw)
    {
      forall k | 0 <= k < capacity
        ensures data_[k] == Raw
      {
        var j := WindowCovers(taken, capacity, k);
      }
    }

    /** When the words are in order, the slots from `read_` to `write_` are the live ones; when they are not,
        something is live. */
    lemma LeftToDestroy()
      requires Valid()
      ensures read_ < write_ ==> 0 < capacity
      ensures 0 < capacity && read_ <= write_ ==> DestroyRange(data_[..], read_, write_) == Some(seq(capacity, _ => Raw))
      ensures write_ < read_ ==> 0 < |contents|
    {
      Size();
      if contents == [] {
        AllRaw();
      } else if read_ <= write_ {
        MinusInOrder(write_, read_);
        var slots := data_[..];
        forall i | read_ <= i < read_ + capacity
          ensures slots[Idx(i, capacity)].Live? <==> i < write_
        {
          SameSlot(i - read_);
        }
        DestroyRangeEmpties(slots, read_, write_, capacity);
      }
    }
  }
}
