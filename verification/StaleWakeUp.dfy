/** Why the wake-up protocol needs more than release/acquire: the consumer's second ring pop loads `write_` with
    acquire only, after its store of the flag, and the producer loads the flag relaxed, after its store of
    `write_`.  Nothing orders the two pairs, so that one load may still return an old value. */
module StaleWakeUp {
  import opened SpscRing
  import opened WaitableSpscQueue

  /** The consumer inside its second ring pop, about to load `write_`, with the flag set. */
  ghost predicate AtSecondLoad<T>(s: State<T>) {
    Invariant(s) && s.pop.SecondPop? && s.ring.c.CGotRead? && s.sleeping
  }

  ghost function AfterLoad<T>(s: State<T>, v: nat): State<T>
    requires AtSecondLoad(s) && s.ring.seenWrite <= v <= s.ring.write
  {
    s.(ring := Apply(s.ring, LoadWrite(v)))
  }

  /** An "empty" answer of the second pop loses a wake-up exactly when the load was stale and the producer has
      already looked at the flag. */
  lemma StaleAnswerLosesWakeUpIff<T>(s: State<T>, v: nat)
    requires AtSecondLoad(s) && s.ring.seenWrite <= v <= s.ring.write && v == s.ring.c.r
    ensures !NoLostWakeUp(AfterLoad(s, v)) <==> v < s.ring.write && !ProducerOwesWakeUp(s)
  {
    StepInv(s.ring, LoadWrite(v));
  }

  lemma Extend<T>(cap: nat, states: seq<State<T>>, steps: seq<Step<T>>, x: Step<T>)
    returns (states': seq<State<T>>, steps': seq<Step<T>>)
    requires 0 < cap && IsRunOf(cap, states, steps) && CanStep(states[|steps|], x)
    ensures Invariant(states[|steps|]) && IsRunOf(cap, states', steps')
    ensures |steps'| == |steps| + 1 && states'[|steps'|] == Do(states[|steps|], x)
  {
    RunInvariant(cap, states, steps, |steps|);
    states', steps' := states + [Do(states[|steps|], x)], steps + [x];
  }

  lemma EnterPop<T>(cap: nat) returns (states: seq<State<T>>, steps: seq<Step<T>>)
    requires 0 < cap
    ensures IsRunOf(cap, states, steps)
    ensures states[|steps|] == Start<T>(cap).(registered := true, pop := FirstPop)
  {
    states, steps := [Start(cap)], [];
    states, steps := Extend(cap, states, steps, PopEnter);
    states, steps := Extend(cap, states, steps, CheckStop);
  }

  /** The consumer enters `pop` on an empty queue and fails its first ring pop. */
  lemma FirstPopFails<T>(cap: nat) returns (states: seq<State<T>>, steps: seq<Step<T>>)
    requires 0 < cap
    ensures IsRunOf(cap, states, steps)
    ensures states[|steps|] == Start<T>(cap).(registered := true, pop := StoreTrue, emptyPops := 1)
  {
    states, steps := EnterPop(cap);
    states, steps := Extend(cap, states, steps, PopRing(PopCall));
    states, steps := Extend(cap, states, steps, PopRing(LoadWrite(0)));
    states, steps := Extend(cap, states, steps, PopLeave);
  }

  /** A whole push that finds the flag not set. */
  lemma PushUnseen<T>(cap: nat, item: T, states0: seq<State<T>>, steps0: seq<Step<T>>)
    returns (states: seq<State<T>>, steps: seq<Step<T>>)
    requires 0 < cap && IsRunOf(cap, states0, steps0)
    requires states0[|steps0|] == Start<T>(cap).(registered := true, pop := StoreTrue, emptyPops := 1)
    ensures IsRunOf(cap, states, steps)
    ensures var s, t := states0[|steps0|], states[|steps|];
            t == s.(ring := t.ring) && t.ring.pushed == [item] && t.ring.popped == [] && t.ring.c.CIdle?
            && t.ring.seenWrite == t.ring.read == 0 && t.ring.write == 1
  {
    states, steps := Extend(cap, states0, steps0, PushEnter(item));
    states, steps := Extend(cap, states, steps, PushRing(LoadRead(0)));
    states, steps := Extend(cap, states, steps, PushRing(Construct));
    states, steps := Extend(cap, states, steps, PushRing(StoreWrite));
    states, steps := Extend(cap, states, steps, PushLeave);
    states, steps := Extend(cap, states, steps, LoadFlag);
  }

  /** The situation is reachable, for every capacity and item: an item is in the ring, its push is over and has
      left the flag alone, no stop is under way, and the consumer is about to load `write_` for the second time.
      If that load returns the 0 it returned before, the consumer goes to sleep on a non-empty queue. */
  lemma WakeUpCanBeLost<T>(cap: nat, item: T) returns (states: seq<State<T>>, steps: seq<Step<T>>)
    requires 0 < cap
    ensures IsRunOf(cap, states, steps)
    ensures var s := states[|steps|];
            && AtSecondLoad(s) && s.push.PushIdle? && s.stopper.StopIdle? && s.ring.pushed == [item]
            && s.ring.seenWrite == 0 == s.ring.c.r < s.ring.write
            && !NoLostWakeUp(AfterLoad(s, 0)) && PastSecondPop(AfterLoad(s, 0)) && NonEmpty(AfterLoad(s, 0))
  {
    states, steps := FirstPopFails(cap);
    states, steps := PushUnseen(cap, item, states, steps);
    states, steps := Extend(cap, states, steps, SetFlag);
    states, steps := Extend(cap, states, steps, PopRing(PopCall));
    RunInvariant(cap, states, steps, |steps|);
    StaleAnswerLosesWakeUpIff(states[|steps|], 0);
  }
}
