/** `empty()` loads two counters one after the other; is its answer ever the truth? */
module EmptyCheck {
  import opened SpscRing
  import opened Linearizability

  ghost predicate Empty<T>(s: Ring<T>) { s.pushed == s.popped }

  /** A third thread's two loads return what is current: `read_` in state s, `write_` in state t. */
  ghost predicate CurrentLoads<T>(s: Ring<T>, t: Ring<T>, r: nat, w: nat) { r == s.read && w == t.write }

  lemma CountersStep<T>(s: Ring<T>, a: Action<T>)
    requires Inv(s) && Enabled(s, a)
    ensures s.read <= Apply(s, a).read && s.write <= Apply(s, a).write
    ensures s.write < Apply(s, a).write ==> !Empty(Apply(s, a))
  {
    StepInv(s, a);
  }

  /** Counters only grow along a run. */
  lemma {:induction false} CountersGrow<T>(cap: nat, states: seq<Ring<T>>, acts: seq<Action<T>>, i: nat, j: nat)
    requires 0 < cap && IsRun(cap, states, acts) && i <= j <= |acts|
    ensures states[i].read <= states[j].read && states[i].write <= states[j].write
    decreases j - i
  {
    if i < j {
      CountersGrow(cap, states, acts, i, j - 1);
      RunInv(cap, states, acts, j - 1);
      CountersStep(states[j - 1], acts[j - 1]);
    }
  }

  /** `empty()` called by a third thread, loading `read_` in state i and `write_` in a later state j, both
      current: its answer is the truth about the queue in some state between the two loads. */
  lemma EmptyReadFirst<T>(cap: nat, states: seq<Ring<T>>, acts: seq<Action<T>>, i: nat, j: nat, r: nat, w: nat)
    returns (k: nat)
    requires 0 < cap && IsRun(cap, states, acts) && i <= j <= |acts|
    requires CurrentLoads(states[i], states[j], r, w)
    ensures i <= k <= j
    ensures Empty(states[k]) <==> r == w
  {
    CountersGrow(cap, states, acts, i, j);
    RunInv(cap, states, acts, i);
    RunInv(cap, states, acts, j);
    if states[i].read == states[j].write || states[i].read < states[i].write {
      k := i;
    } else {
      k := FirstPush(cap, states, acts, i, j);
    }
  }

  /** If `write_` moved between states i and j, some state in between held an element. */
  lemma {:induction false} FirstPush<T>(cap: nat, states: seq<Ring<T>>, acts: seq<Action<T>>, i: nat, j: nat)
    returns (k: nat)
    requires 0 < cap && IsRun(cap, states, acts) && i <= j <= |acts|
    requires states[i].write < states[j].write
    ensures i <= k <= j && !Empty(states[k])
    decreases j - i
  {
    RunInv(cap, states, acts, j - 1);
    CountersStep(states[j - 1], acts[j - 1]);
    if states[j - 1].write == states[j].write {
      k := FirstPush(cap, states, acts, i, j - 1);
    } else {
      k := j;
    }
  }

  /** The push that first moves `write_` on from its value in state i. */
  lemma {:induction false} NextPush<T>(cap: nat, states: seq<Ring<T>>, acts: seq<Action<T>>, i: nat, j: nat)
    returns (m: nat)
    requires 0 < cap && IsRun(cap, states, acts) && i <= j <= |acts|
    requires states[i].write < states[j].write
    ensures i <= m < j && acts[m].StoreWrite? && states[m].write == states[i].write
    decreases j - i
  {
    CountersGrow(cap, states, acts, i, j - 1);
    if states[i].write < states[j - 1].write {
      m := NextPush(cap, states, acts, i, j - 1);
    } else {
      RunInv(cap, states, acts, j - 1);
      m := j - 1;
    }
  }

  /** If a push takes effect in state m, the queue is empty just then. */
  ghost predicate EmptyIfPushed<T>(states: seq<Ring<T>>, acts: seq<Action<T>>, i: nat, m: nat)
    requires |states| == |acts| + 1 && i <= m < |acts|
  {
    acts[m].StoreWrite? && states[m].write == states[i].write ==> states[m].read == states[i].write
  }

  /** A third thread loading `write_` first, in state i, and `read_` later, in state j, both current: its "not
      empty" is always true of some state in between; its "empty" is exactly when no push took effect meanwhile
      or the first one to do so found the queue empty. */
  lemma EmptyWriteFirst<T>(cap: nat, states: seq<Ring<T>>, acts: seq<Action<T>>, i: nat, j: nat, r: nat, w: nat)
    requires 0 < cap && IsRun(cap, states, acts) && i <= j <= |acts|
    requires CurrentLoads(states[j], states[i], r, w)
    ensures r != w ==> exists k :: i <= k <= j && !Empty(states[k])
    ensures r == w ==>
              ((exists k :: i <= k <= j && Empty(states[k])) <==> forall m :: i <= m < j ==> EmptyIfPushed(states, acts, i, m))
  {
    RunInv(cap, states, acts, i);
    RunInv(cap, states, acts, j);
    CountersGrow(cap, states, acts, i, j);
    if states[j].read != states[i].write {
      if states[j].read < states[i].write {
        assert !Empty(states[i]);
      } else {
        var k := FirstPush(cap, states, acts, i, j);
      }
    } else {
      if k :| i <= k <= j && Empty(states[k]) {
        forall m | i <= m < j
          ensures EmptyIfPushed(states, acts, i, m)
        {
          EmptyBeforePush(cap, states, acts, i, j, k, m);
        }
      }
      if forall m :: i <= m < j ==> EmptyIfPushed(states, acts, i, m) {
        var k := j;
        if states[i].write < states[j].write {
          k := NextPush(cap, states, acts, i, j);
          assert EmptyIfPushed(states, acts, i, k);
        }
        RunInv(cap, states, acts, k);
        assert Empty(states[k]);
      }
    }
  }

  lemma EmptyBeforePush<T>(cap: nat, states: seq<Ring<T>>, acts: seq<Action<T>>, i: nat, j: nat, k: nat, m: nat)
    requires 0 < cap && IsRun(cap, states, acts) && i <= j <= |acts| && i <= k <= j && i <= m < j
    requires states[j].read == states[i].write && Empty(states[k])
    ensures EmptyIfPushed(states, acts, i, m)
  {
    if acts[m].StoreWrite? && states[m].write == states[i].write {
      RunInv(cap, states, acts, k);
      RunInv(cap, states, acts, m);
      CountersGrow(cap, states, acts, i, k);
      CountersGrow(cap, states, acts, k, j);
      if k <= m {
        CountersGrow(cap, states, acts, k, m);
      } else {
        CountersGrow(cap, states, acts, m + 1, k);
      }
    }
  }

  /** What the consumer's load of `write_` may return. */
  ghost predicate ConsumerMaySee<T>(s: Ring<T>, v: nat) { s.seenWrite <= v <= s.write }

  /** What the producer's load of `read_` may return. */
  ghost predicate ProducerMaySee<T>(s: Ring<T>, v: nat) { s.seenRead <= v <= s.read }

  /** From the consumer's own thread, stale loads included.  It runs from state i to state j and loads `write_`, as
      v, in a state k in between; `read_` stands still, so it makes no difference which operand is loaded first.
      "Not empty" is always true; the answer is exact at state k unless v is stale and equal to `read_`; and a
      wrong answer is possible exactly when the consumer's last view of a non-empty queue was an empty one. */
  lemma EmptyFromConsumer<T>(cap: nat, states: seq<Ring<T>>, acts: seq<Action<T>>, i: nat, k: nat, j: nat, v: nat)
    requires 0 < cap && IsRun(cap, states, acts) && i <= k <= j <= |acts|
    requires forall n :: i <= n < j ==> !acts[n].StoreRead?
    requires ConsumerMaySee(states[k], v)
    ensures states[i].read == states[k].read == states[j].read
    ensures v != states[k].read ==> !Empty(states[k])
    ensures (v == states[k].read <==> Empty(states[k])) <==> v == states[k].write || v != states[k].read
    ensures (exists u :: ConsumerMaySee(states[k], u) && (u == states[k].read) != Empty(states[k]))
            <==> states[k].seenWrite == states[k].read < states[k].write
  {
    ReadStill(cap, states, acts, i, k);
    ReadStill(cap, states, acts, k, j);
    RunInv(cap, states, acts, k);
    assert ConsumerMaySee(states[k], states[k].seenWrite);
  }

  lemma {:induction false} ReadStill<T>(cap: nat, states: seq<Ring<T>>, acts: seq<Action<T>>, i: nat, j: nat)
    requires 0 < cap && IsRun(cap, states, acts) && i <= j <= |acts|
    requires forall k :: i <= k < j ==> !acts[k].StoreRead?
    ensures states[i].read == states[j].read
    decreases j - i
  {
    if i < j {
      ReadStill(cap, states, acts, i, j - 1);
    }
  }

  /** From the producer's own thread it is `write_` that stands still, and the load of `read_` that may be stale.
      Here "empty" is always true, and "not empty" is wrong exactly when the load is stale and the queue empty. */
  lemma EmptyFromProducer<T>(cap: nat, states: seq<Ring<T>>, acts: seq<Action<T>>, i: nat, k: nat, j: nat, v: nat)
    requires 0 < cap && IsRun(cap, states, acts) && i <= k <= j <= |acts|
    requires forall n :: i <= n < j ==> !acts[n].StoreWrite?
    requires ProducerMaySee(states[k], v)
    ensures states[i].write == states[k].write == states[j].write
    ensures v == states[k].write ==> Empty(states[k])
    ensures (v == states[k].write <==> Empty(states[k])) <==> v == states[k].read || !Empty(states[k])
    ensures (exists u :: ProducerMaySee(states[k], u) && (u == states[k].write) != Empty(states[k]))
            <==> Empty(states[k]) && states[k].seenRead < states[k].read
  {
    WriteStill(cap, states, acts, i, k);
    WriteStill(cap, states, acts, k, j);
    RunInv(cap, states, acts, k);
    assert ProducerMaySee(states[k], states[k].seenRead);
  }

  lemma {:induction false} WriteStill<T>(cap: nat, states: seq<Ring<T>>, acts: seq<Action<T>>, i: nat, j: nat)
    requires 0 < cap && IsRun(cap, states, acts) && i <= j <= |acts|
    requires forall k :: i <= k < j ==> !acts[k].StoreWrite?
    ensures states[i].write == states[j].write
    decreases j - i
  {
    if i < j {
      WriteStill(cap, states, acts, i, j - 1);
    }
  }

  // ---------- building concrete runs ----------

  /** One more step of a sequentially consistent run. */
  lemma Extend<T>(cap: nat, states: seq<Ring<T>>, acts: seq<Action<T>>, a: Action<T>) returns (t: Ring<T>)
    requires 0 < cap && IsRun(cap, states, acts) && AllFresh(states, acts)
    requires Enabled(states[|acts|], a) && Fresh(states[|acts|], a)
    ensures Inv(states[|acts|]) && t == Apply(states[|acts|], a) && Inv(t) && t.cap == cap
    ensures IsRun(cap, states + [t], acts + [a]) && AllFresh(states + [t], acts + [a])
  {
    RunInv(cap, states, acts, |acts|);
    RunCap(cap, states, acts, |acts|);
    StepInv(states[|acts|], a);
    t := Apply(states[|acts|], a);
    RunSnoc(cap, states, acts, a);
    var ss, aa := states + [t], acts + [a];
    forall i | 0 <= i < |aa|
      ensures Fresh(ss[i], aa[i])
    {
      if i < |acts| {
        assert Fresh(states[i], acts[i]);
      }
    }
  }

  /** What an uninterrupted operation adds to a run. */
  ghost predicate Continues<T>(cap: nat, states: seq<Ring<T>>, acts: seq<Action<T>>,
                               states': seq<Ring<T>>, acts': seq<Action<T>>) {
    IsRun(cap, states', acts') && |states| == |acts| + 1 && AllFresh(states', acts') && states <= states'
  }

  /** The producer up to the point where it has seen room. */
  lemma PushBegins<T>(cap: nat, states: seq<Ring<T>>, acts: seq<Action<T>>, item: T)
    returns (states': seq<Ring<T>>, acts': seq<Action<T>>)
    requires 0 < cap && IsRun(cap, states, acts) && AllFresh(states, acts)
    requires var s := states[|acts|]; s.p.PIdle? && |s.pushed| - |s.popped| < cap
    ensures Continues(cap, states, acts, states', acts') && |states'| == |states| + 2
    ensures var s, t := states[|acts|], states'[|acts'|];
            t == s.(p := PGotRead(item, s.write), seenRead := s.read)
    ensures var s, t := states[|acts|], states'[|states|]; t == s.(p := PGotWrite(item, s.write))
    ensures acts' == acts + [PushCall(item), LoadRead(states[|acts|].read)]
  {
    var s := states[|acts|];
    var s1 := Extend(cap, states, acts, PushCall(item));
    var s2 := Extend(cap, states + [s1], acts + [PushCall(item)], LoadRead(s.read));
    states', acts' := states + [s1] + [s2], acts + [PushCall(item)] + [LoadRead(s.read)];
  }

  /** The rest: construct, publish, return. */
  lemma PushEnds<T>(cap: nat, states: seq<Ring<T>>, acts: seq<Action<T>>)
    returns (states': seq<Ring<T>>, acts': seq<Action<T>>)
    requires 0 < cap && IsRun(cap, states, acts) && AllFresh(states, acts) && states[|acts|].p.PGotRead?
    ensures Continues(cap, states, acts, states', acts')
    ensures var s, t := states[|acts|], states'[|acts'|];
            t.p.PIdle? && t.c == s.c && t.pushed == s.pushed + [s.p.item] && t.popped == s.popped
            && t.seenRead == s.seenRead
    ensures acts' == acts + [Construct, StoreWrite, PushReturn]
    ensures forall k :: |states| <= k < |states'| ==>
              states'[k].popped == states[|acts|].popped && |states[|acts|].pushed| <= |states'[k].pushed|
  {
    var s3 := Extend(cap, states, acts, Construct);
    var ss, aa := states + [s3], acts + [Construct];
    var s4 := Extend(cap, ss, aa, StoreWrite);
    ss, aa := ss + [s4], aa + [StoreWrite];
    var s5 := Extend(cap, ss, aa, PushReturn);
    states', acts' := ss + [s5], aa + [PushReturn];
  }

  /** A push that runs without interruption on a ring with room appends its item. */
  lemma WholePush<T>(cap: nat, states: seq<Ring<T>>, acts: seq<Action<T>>, item: T)
    returns (states': seq<Ring<T>>, acts': seq<Action<T>>)
    requires 0 < cap && IsRun(cap, states, acts) && AllFresh(states, acts)
    requires var s := states[|acts|]; s.p.PIdle? && |s.pushed| - |s.popped| < cap
    ensures Continues(cap, states, acts, states', acts')
    ensures var s, t := states[|acts|], states'[|acts'|];
            t.p.PIdle? && t.c == s.c && t.pushed == s.pushed + [item] && t.popped == s.popped
            && t.seenRead == s.read
    ensures acts' == acts + [PushCall(item), LoadRead(states[|acts|].read), Construct, StoreWrite, PushReturn]
    ensures forall k :: |states| <= k < |states'| ==>
              states'[k].popped == states[|acts|].popped && |states[|acts|].pushed| <= |states'[k].pushed|
  {
    var ss, aa := PushBegins(cap, states, acts, item);
    states', acts' := PushEnds(cap, ss, aa);
    assert states'[..|ss|] == ss;
  }

  lemma PopBegins<T>(cap: nat, states: seq<Ring<T>>, acts: seq<Action<T>>)
    returns (states': seq<Ring<T>>, acts': seq<Action<T>>)
    requires 0 < cap && IsRun(cap, states, acts) && AllFresh(states, acts)
    requires var s := states[|acts|]; s.c.CIdle? && |s.popped| < |s.pushed|
    ensures Continues(cap, states, acts, states', acts') && states'[|acts'|].c.CGotWrite?
    ensures forall k :: |states| <= k < |states'| ==>
              states'[k].pushed == states[|acts|].pushed && states'[k].popped == states[|acts|].popped
              && states'[k].p == states[|acts|].p && states'[k].seenRead == states[|acts|].seenRead
  {
    RunInv(cap, states, acts, |acts|);
    var s := states[|acts|];
    var s1 := Extend(cap, states, acts, PopCall);
    var s2 := Extend(cap, states + [s1], acts + [PopCall], LoadWrite(s.write));
    states', acts' := states + [s1] + [s2], acts + [PopCall] + [LoadWrite(s.write)];
  }

  lemma PopTakes<T>(cap: nat, states: seq<Ring<T>>, acts: seq<Action<T>>)
    returns (states': seq<Ring<T>>, acts': seq<Action<T>>)
    requires 0 < cap && IsRun(cap, states, acts) && AllFresh(states, acts) && states[|acts|].c.CGotWrite?
    ensures Continues(cap, states, acts, states', acts') && states'[|acts'|].c.CDestroyed?
    ensures forall k :: |states| <= k < |states'| ==>
              states'[k].pushed == states[|acts|].pushed && states'[k].popped == states[|acts|].popped
              && states'[k].p == states[|acts|].p && states'[k].seenRead == states[|acts|].seenRead
  {
    RunInv(cap, states, acts, |acts|);
    assert LiveAt(states[|acts|], states[|acts|].read);
    var s3 := Extend(cap, states, acts, MoveOut);
    var s4 := Extend(cap, states + [s3], acts + [MoveOut], Destroy);
    states', acts' := states + [s3] + [s4], acts + [MoveOut] + [Destroy];
  }

  lemma PopEnds<T>(cap: nat, states: seq<Ring<T>>, acts: seq<Action<T>>)
    returns (states': seq<Ring<T>>, acts': seq<Action<T>>)
    requires 0 < cap && IsRun(cap, states, acts) && AllFresh(states, acts) && states[|acts|].c.CDestroyed?
    ensures Continues(cap, states, acts, states', acts')
    ensures var s, t := states[|acts|], states'[|acts'|];
            |s.popped| < |s.pushed| && t.c.CIdle? && t.p == s.p && t.pushed == s.pushed
            && t.popped == s.popped + [s.pushed[|s.popped|]] && t.seenRead == s.seenRead
    ensures forall k :: |states| <= k < |states'| ==>
              states'[k].pushed == states[|acts|].pushed && |states'[k].popped| <= |states[|acts|].popped| + 1
  {
    RunInv(cap, states, acts, |acts|);
    var s5 := Extend(cap, states, acts, StoreRead);
    var s6 := Extend(cap, states + [s5], acts + [StoreRead], PopReturn);
    states', acts' := states + [s5] + [s6], acts + [StoreRead] + [PopReturn];
  }

  /** A pop that runs without interruption on a non-empty ring hands back the oldest item. */
  lemma WholePop<T>(cap: nat, states: seq<Ring<T>>, acts: seq<Action<T>>)
    returns (states': seq<Ring<T>>, acts': seq<Action<T>>)
    requires 0 < cap && IsRun(cap, states, acts) && AllFresh(states, acts)
    requires var s := states[|acts|]; s.c.CIdle? && |s.popped| < |s.pushed|
    ensures Continues(cap, states, acts, states', acts')
    ensures var s, t := states[|acts|], states'[|acts'|];
            t.c.CIdle? && t.p == s.p && t.pushed == s.pushed && t.popped == s.popped + [s.pushed[|s.popped|]]
            && t.seenRead == s.seenRead
    ensures forall k :: |states| <= k < |states'| ==>
              states'[k].pushed == states[|acts|].pushed && |states'[k].popped| <= |states[|acts|].popped| + 1
  {
    var s1, a1 := PopBegins(cap, states, acts);
    var s2, a2 := PopTakes(cap, s1, a1);
    assert s2[..|s1|] == s1;
    states', acts' := PopEnds(cap, s2, a2);
    assert states'[..|s2|] == s2;
  }

  /** Loading `write_` first is different for a third thread: after one push it loads `write_`; then comes a
      second push and a pop; the `read_` it loads now is equal, yet no state in between was empty. */
  lemma EmptyWriteFirstIsWrong(cap: nat)
    returns (states: seq<Ring<int>>, acts: seq<Action<int>>, i: nat, j: nat)
    requires 2 <= cap
    ensures IsRun(cap, states, acts) && AllFresh(states, acts) && i <= j <= |acts|
    ensures states[j].read == states[i].write
    ensures forall k :: i <= k <= j ==> !Empty(states[k])
  {
    var ss1, aa1 := WholePush<int>(cap, [Init<int>(cap)], [], 7);
    i := |aa1|;
    var ss2, aa2 := WholePush(cap, ss1, aa1, 8);
    states, acts := WholePop(cap, ss2, aa2);
    j := |acts|;
    RunInv(cap, states, acts, i);
    RunInv(cap, states, acts, j);
    forall k | i <= k <= j
      ensures !Empty(states[k])
    {
      if i < k < |ss2| {
        assert states[k] == ss2[k];
      } else if i == k {
        assert states[k] == ss1[i];
      }
    }
  }
}
