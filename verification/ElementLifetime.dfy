/** Every element constructed in a ring is destroyed exactly once. */
module ElementLifetime {
  import opened Wrappers
  import opened Slots
  import opened SpscRing
  import opened Words
  import opened WordRing
  import opened EmptyCheck
  import opened Linearizability

  ghost predicate Quiescent<T>(s: Ring<T>) { s.p.PIdle? && s.c.CIdle? }

  ghost function Constructions<T>(acts: seq<Action<T>>): nat {
    if acts == [] then 0
    else Constructions(acts[..|acts| - 1]) + if acts[|acts| - 1].Construct? then 1 else 0
  }

  ghost function Destructions<T>(acts: seq<Action<T>>): nat {
    if acts == [] then 0
    else Destructions(acts[..|acts| - 1]) + if acts[|acts| - 1].Destroy? then 1 else 0
  }

  lemma StepCounts<T>(s: Ring<T>, a: Action<T>)
    requires Inv(s) && Enabled(s, a)
    ensures Hi(Apply(s, a)) == Hi(s) + if a.Construct? then 1 else 0
    ensures Lo(Apply(s, a)) == Lo(s) + if a.Destroy? then 1 else 0
  {
    if a.MoveOut? {
      assert LiveAt(s, s.read);
    }
  }

  lemma {:induction false} CountsMatch<T>(cap: nat, states: seq<Ring<T>>, acts: seq<Action<T>>, n: nat)
    requires 0 < cap && IsRun(cap, states, acts) && n <= |acts|
    ensures Constructions(acts[..n]) == Hi(states[n])
    ensures Destructions(acts[..n]) == Lo(states[n])
  {
    if n > 0 {
      CountsMatch(cap, states, acts, n - 1);
      RunInv(cap, states, acts, n - 1);
      StepCounts(states[n - 1], acts[n - 1]);
      assert acts[..n][..n - 1] == acts[..n - 1];
    }
  }

  /** At the end of a run that leaves both threads idle, the destructor finds exactly the elements not yet
      destroyed, meets no raw slot, and leaves nothing live: constructions and destructions balance. */
  lemma EachElementDestroyedOnce<T>(cap: nat, states: seq<Ring<T>>, acts: seq<Action<T>>)
    requires 0 < cap && IsRun(cap, states, acts) && Quiescent(states[|acts|])
    ensures var s := states[|acts|];
            && |s.slots| == cap
            && Constructions(acts) == Destructions(acts) + (s.write - s.read)
            && DestroyRange(s.slots, s.read, s.write) == Some(seq(cap, _ => Raw))
  {
    var s := states[|acts|];
    RunInv(cap, states, acts, |acts|);
    RunCap(cap, states, acts, |acts|);
    CountsMatch(cap, states, acts, |acts|);
    assert acts[..|acts|] == acts;
    forall i | s.read <= i < s.write ensures s.slots[Idx(i, cap)].Live? { assert LiveAt(s, i); }
    forall i | s.write <= i < s.read + cap ensures s.slots[Idx(i, cap)].Raw? { assert RawAt(s, i); }
    DestroyRangeEmpties(s.slots, s.read, s.write, cap);
  }

  // ---------- with 64-bit counters ----------

  lemma WrappedActions<T>(acts: seq<Action<T>>, aa: seq<Action<T>>)
    requires |acts| == |aa| && forall i :: 0 <= i < |acts| ==> acts[i] == WrapA(aa[i])
    ensures Constructions(acts) == Constructions(aa) && Destructions(acts) == Destructions(aa)
  {
    if acts != [] {
      WrappedActions(acts[..|acts| - 1], aa[..|aa| - 1]);
    }
  }

  /** The n-th slot from the word `read_` on is the n-th from the true count on. */
  lemma WordSlot<T>(u: Ring<T>, n: nat)
    requires Inv(u) && Wrappable(u.cap) && Quiescent(u) && n < u.cap
    ensures u.slots[Idx(Word(u.read) + n, u.cap)].Live? <==> n < u.write - u.read
  {
    WordAdd(u.read, n);
    IndexSurvivesWrap(Word(u.read) + n, u.cap);
    IndexSurvivesWrap(u.read + n, u.cap);
    if n < u.write - u.read {
      assert LiveAt(u, u.read + n);
    } else {
      assert RawAt(u, u.read + n);
    }
  }

  lemma WordRange<T>(u: Ring<T>)
    requires Inv(u) && Wrappable(u.cap) && Quiescent(u)
    ensures var r, w := Word(u.read), Word(u.write);
            && (r <= w ==> DestroyRange(u.slots, r, w) == Some(seq(u.cap, _ => Raw)))
            && (w < r ==> DestroyRange(u.slots, r, w) == Some(u.slots) && u.slots[Idx(r, u.cap)].Live?)
  {
    var r, w := Word(u.read), Word(u.write);
    MinusWords(u.write, u.read);
    if r <= w {
      MinusInOrder(w, r);
      forall i | r <= i < r + u.cap
        ensures u.slots[Idx(i, u.cap)].Live? <==> i < w
      {
        WordSlot(u, i - r);
      }
      DestroyRangeEmpties(u.slots, r, w, u.cap);
    } else {
      WordSlot(u, 0);
    }
  }

  /** At the end of any 64-bit run that leaves both threads idle: constructions and destructions differ by the word
      difference of the counters, and the destructor makes up for just that, leaving nothing live, exactly when
      the words are in order.  Otherwise it destroys nothing although there is something left. */
  lemma EachElementDestroyedOnce64<T>(cap: nat, states: seq<Ring64<T>>, acts: seq<Action<T>>)
    requires Wrappable(cap) && IsRun64(cap, states, acts)
    requires states[|acts|].p.PIdle? && states[|acts|].c.CIdle?
    ensures var s := states[|acts|];
            && |s.slots| == cap
            && Constructions(acts) == Destructions(acts) + Minus(s.write, s.read)
            && (DestroyRange(s.slots, s.read, s.write) == Some(seq(cap, _ => Raw)) <==> s.read <= s.write)
            && (s.write < s.read ==> DestroyRange(s.slots, s.read, s.write) == Some(s.slots))
  {
    var ss, aa := RunUnwraps(cap, states, acts);
    var u := ss[|aa|];
    RunInv(cap, ss, aa, |aa|);
    RunCap(cap, ss, aa, |aa|);
    EachElementDestroyedOnce(cap, ss, aa);
    WrappedActions(acts, aa);
    MinusWords(u.write, u.read);
    assert states[|acts|] == Wrap(u);
    WordRange(u);
    if Word(u.write) < Word(u.read) {
      assert seq(cap, _ => Slot<T>.Raw)[Idx(Word(u.read), cap)] == Raw;
    }
  }

  /** n pushes, each followed by a pop. */
  lemma {:induction false} Cycle<T>(cap: nat, n: nat, item: T) returns (states: seq<Ring<T>>, acts: seq<Action<T>>)
    requires 0 < cap
    ensures IsRun(cap, states, acts) && AllFresh(states, acts) && Quiescent(states[|acts|])
    ensures |states[|acts|].pushed| == |states[|acts|].popped| == n
    decreases n
  {
    if n == 0 {
      states, acts := [Init(cap)], [];
    } else {
      var ss0, aa0 := Cycle(cap, n - 1, item);
      var ss1, aa1 := WholePush(cap, ss0, aa0, item);
      states, acts := WholePop(cap, ss1, aa1);
    }
  }

  /** The bad end is reachable, for every capacity in use, if only by 2^64 pushes: after 2^64 - 1 elements have
      passed through, one more push leaves `write_` at zero and an element that the destructor does not find. */
  lemma ElementLeftBehind<T>(cap: nat, item: T) returns (states: seq<Ring64<T>>, acts: seq<Action<T>>)
    requires Wrappable(cap)
    ensures IsRun64(cap, states, acts)
    ensures var s := states[|acts|];
            && s.p.PIdle? && s.c.CIdle? && s.write == 0 < s.read == TwoTo64 - 1
            && |s.slots| == cap && DestroyRange(s.slots, s.read, s.write) == Some(s.slots)
            && exists k :: 0 <= k < cap && s.slots[k].Live?
  {
    var ss0, aa0 := Cycle(cap, TwoTo64 - 1, item);
    var ss, aa := WholePush(cap, ss0, aa0, item);
    RunInv(cap, ss, aa, |aa|);
    RunCap(cap, ss, aa, |aa|);
    RunWraps(cap, ss, aa);
    states, acts := seq(|ss|, i requires 0 <= i < |ss| => Wrap(ss[i])), seq(|aa|, i requires 0 <= i < |aa| => WrapA(aa[i]));
    assert states[|acts|] == Wrap(ss[|aa|]);
    WordRange(ss[|aa|]);
  }
}
