/** What a stop request does for `WaitableSpscQueue::pop` while the producer does whatever it likes. */
module StopWakeUp {
  import opened Wrappers
  import opened SpscRing
  import opened WaitableSpscQueue
  import opened WakeUp

  ghost predicate IsPopStep<T>(x: Step<T>) {
    || x.PopEnter? || x.RunInlineStore? || x.RunInlineNotify? || x.CheckStop? || x.PopRing? || x.PopLeave?
    || x.SetFlag? || x.Clear? || x.WaitLoad? || x.Wake? || x.PopReturns?
  }

  /** How many of steps i to j - 1 are the consumer's. */
  ghost function PopSteps<T>(steps: seq<Step<T>>, i: nat, j: nat): nat
    requires i <= j <= |steps|
  {
    if i == j then 0 else PopSteps(steps, i, j - 1) + if IsPopStep(steps[j - 1]) then 1 else 0
  }

  // ---------- outside the window: pop always returns ----------

  /** The stop request and its callback are over, and this `pop` will not set the flag again. */
  ghost predicate Leaving<T>(s: State<T>) {
    s.stopper.StopDone? && !s.pop.PopIdle? && !ArmedForGood(s)
  }

  lemma LeavingStep<T>(s: State<T>, x: Step<T>)
    requires Invariant(s) && Leaving(s) && CanStep(s, x) && !x.PopReturns?
    ensures Leaving(Do(s, x))
    ensures Rank(Do(s, x)) + (if IsPopStep(x) then 1 else 0) <= Rank(s)
  {
    if x.PopRing? && x.b.MoveOut? {
      assert LiveAt(s.ring, s.ring.read);
    }
  }

  lemma LeavingRank<T>(s: State<T>)
    requires Leaving(s)
    ensures Rank(s) <= 15
  {
  }

  /** What LeavingStep says of one step of a run. */
  ghost predicate Nearer<T>(s: State<T>, x: Step<T>, t: State<T>) {
    Leaving(s) ==> Leaving(t) && Rank(t) + (if IsPopStep(x) then 1 else 0) <= Rank(s)
  }

  lemma {:induction false} NearerThroughout<T>(states: seq<State<T>>, steps: seq<Step<T>>, i: nat, j: nat)
    requires |states| == |steps| + 1 && i <= j <= |steps| && Leaving(states[i])
    requires forall k :: i <= k < j ==> Nearer(states[k], steps[k], states[k + 1])
    ensures Leaving(states[j]) && PopSteps(steps, i, j) + Rank(states[j]) <= Rank(states[i])
    decreases j - i
  {
    if i < j {
      NearerThroughout(states, steps, i, j - 1);
      assert Nearer(states[j - 1], steps[j - 1], states[j]);
    }
  }

  /** Whatever the producer does in between, the consumer takes at most Rank steps before `pop` returns. */
  lemma StopExits<T>(cap: nat, states: seq<State<T>>, steps: seq<Step<T>>, i: nat, j: nat)
    requires 0 < cap && IsRunOf(cap, states, steps) && i <= j <= |steps| && Leaving(states[i])
    requires forall k :: i <= k < j ==> !steps[k].PopReturns?
    ensures Leaving(states[j])
    ensures PopSteps(steps, i, j) + Rank(states[j]) <= Rank(states[i]) <= 15
  {
    LeavingRank(states[i]);
    forall k | i <= k < j
      ensures Nearer(states[k], steps[k], states[k + 1])
    {
      WaitableSpscQueue.RunStep(cap, states, steps, k);
      if Leaving(states[k]) {
        LeavingStep(states[k], steps[k]);
      }
    }
    NearerThroughout(states, steps, i, j);
  }

  /** And it is never stuck: it has a step to take, and where that would be a wake-up without reason, a
      notification is pending. */
  lemma LeavingNeverStuck<T>(s: State<T>)
    requires Invariant(s) && Leaving(s)
    ensures CanStep(s, Next(s)) && IsPopStep(Next(s))
    ensures s.pop.Blocked? ==> CanStep(s, NotifyOne) && Do(s, NotifyOne).pop.Wait?
  {
  }

  /** A stop whose callback did not store inside the window always ends `pop`, however busy the producer. */
  lemma StopOutsideWindowWakes<T>(cap: nat, states: seq<State<T>>, steps: seq<Step<T>>, i: nat, j: nat)
    requires 0 < cap && IsRunOf(cap, states, steps) && i <= j <= |steps|
    requires states[i].stopper.StopDone? && !states[i].clearedInWindow && !states[i].pop.PopIdle?
    requires forall k :: i <= k < j ==> !steps[k].PopReturns?
    ensures Invariant(states[j]) && Leaving(states[j])
    ensures PopSteps(steps, i, j) < 15 && CanStep(states[j], Next(states[j]))
  {
    RunInvariant(cap, states, steps, i);
    StopExits(cap, states, steps, i, j);
    RunInvariant(cap, states, steps, j);
    LeavingNeverStuck(states[j]);
  }

  // ---------- inside the window ----------

  /** A continuation: steps of any threads from state s on. */
  ghost predicate IsPath<T>(s: State<T>, states: seq<State<T>>, steps: seq<Step<T>>) {
    && |states| == |steps| + 1 && states[0] == s
    && (forall i :: 0 <= i < |steps| ==>
          WellFormed(states[i].ring) && CanStep(states[i], steps[i]) && states[i + 1] == Do(states[i], steps[i]))
  }

  ghost predicate NoPushSucceeds<T>(steps: seq<Step<T>>) {
    forall i :: 0 <= i < |steps| ==> steps[i] != PushRing(StoreWrite)
  }

  /** `pop` can still return without a further push taking effect. */
  ghost predicate CanStillReturn<T(!new)>(s: State<T>) {
    exists states: seq<State<T>>, steps: seq<Step<T>> ::
      IsPath(s, states, steps) && NoPushSucceeds(steps) && states[|steps|].pop.PopIdle?
  }

  /** The flag is set or about to be, there is nothing to return, and no push is going to look at the flag. */
  ghost predicate Stranded<T>(s: State<T>) {
    && s.stopper.StopDone? && InLoop(s)
    && ArmedForGood(s) && !NonEmpty(s) && !Holds(s) && !ProducerOwesWakeUp(s)
  }

  lemma StrandedStep<T>(s: State<T>, x: Step<T>)
    requires Invariant(s) && Stranded(s) && CanStep(s, x) && x != PushRing(StoreWrite)
    ensures Invariant(Do(s, x)) && Stranded(Do(s, x))
  {
    StepInvariant(s, x);
  }

  lemma {:induction false} StrandedForEver<T>(s: State<T>, states: seq<State<T>>, steps: seq<Step<T>>, n: nat)
    requires Invariant(s) && Stranded(s) && IsPath(s, states, steps) && NoPushSucceeds(steps) && n <= |steps|
    ensures Invariant(states[n]) && Stranded(states[n])
    decreases n
  {
    if n > 0 {
      StrandedForEver(s, states, steps, n - 1);
      StrandedStep(states[n - 1], steps[n - 1]);
    }
  }

  /** A schedule that brings `pop` home: the consumer, except where it waits for the producer's look at the flag. */
  ghost function Helped<T>(s: State<T>): Step<T>
    requires Inv(s.ring) && !s.pop.PopIdle?
  {
    if (s.pop.Wait? || s.pop.Blocked?) && s.sleeping then
      if s.push.PushInRing? then PushLeave else if s.push.PushLoadsFlag? then LoadFlag else StoreFalse
    else if s.pop.Blocked? then NotifyOne
    else Next(s)
  }

  ghost function StepsOwed<T>(s: State<T>): nat {
    if !s.sleeping then 0 else
      match s.push
      case PushInRing => 3
      case PushLoadsFlag => 2
      case PushStoresFalse => 1
      case _ => 0
  }

  ghost function HelpedRank<T>(s: State<T>): nat {
    match s.pop
    case PopIdle => 0
    case Return(_) => 1
    case Check => 2
    case ClearFlag(_) => 2
    case InlineNotify => 3
    case InlineStore => 4
    case Wait => 3 + StepsOwed(s)
    case Blocked => 4 + StepsOwed(s)
    case SecondPop => RingRank(s.ring.c) + 7
    case StoreTrue => 14
    case FirstPop => RingRank(s.ring.c) + 14
  }

  ghost predicate Rescuable<T>(s: State<T>) {
    Invariant(s) && s.stopper.StopDone? && !s.pop.PopIdle? && !Stranded(s)
  }

  lemma HelpedRingRank<T>(s: State<T>)
    requires Inv(s.ring) && !s.pop.PopIdle? && Helped(s).PopRing?
    ensures CanStep(s, Helped(s)) && HelpedRank(Do(s, Helped(s))) < HelpedRank(s)
  {
    if s.ring.c.CGotWrite? {
      assert LiveAt(s.ring, s.ring.read);
    }
  }

  lemma HelpedRingKeeps<T>(s: State<T>)
    requires Rescuable(s) && Helped(s).PopRing? && CanStep(s, Helped(s))
    ensures Rescuable(Do(s, Helped(s)))
  {
    StepInvariant(s, Helped(s));
  }

  lemma HelpedOutsideRing<T>(s: State<T>)
    requires Rescuable(s) && !Helped(s).PopRing?
    ensures CanStep(s, Helped(s)) && HelpedRank(Do(s, Helped(s))) < HelpedRank(s)
    ensures Do(s, Helped(s)).pop.PopIdle? || !Stranded(Do(s, Helped(s)))
    ensures Do(s, Helped(s)).stopper == s.stopper
  {
  }

  lemma HelpedStep<T>(s: State<T>)
    requires Rescuable(s)
    ensures CanStep(s, Helped(s)) && Helped(s) != PushRing(StoreWrite)
    ensures HelpedRank(Do(s, Helped(s))) < HelpedRank(s)
    ensures Do(s, Helped(s)).pop.PopIdle? || Rescuable(Do(s, Helped(s)))
  {
    if Helped(s).PopRing? {
      HelpedRingRank(s);
      HelpedRingKeeps(s);
    } else {
      HelpedOutsideRing(s);
      StepInvariant(s, Helped(s));
    }
  }

  lemma {:induction false} Rescue<T>(s: State<T>) returns (states: seq<State<T>>, steps: seq<Step<T>>)
    requires Rescuable(s)
    ensures IsPath(s, states, steps) && NoPushSucceeds(steps) && states[|steps|].pop.PopIdle?
    decreases HelpedRank(s)
  {
    HelpedStep(s);
    var x, t := Helped(s), Do(s, Helped(s));
    states, steps := [t], [];
    if !t.pop.PopIdle? {
      states, steps := Rescue(t);
    }
    states, steps := [s] + states, [x] + steps;
  }

  /** Stop wake-up, in every reachable state, whatever the producer is doing: once the stop request and its
      callback are over, a consumer still in the loop cannot return without a further push exactly when, in this
      very iteration, the callback stored false after the stop check and before the store of true, the flag is
      set or about to be, the ring is empty, and no push has still to look at the flag.  Where the consumer
      waits, both ring pops of the iteration have come back empty. */
  lemma StrandedIffWindow<T(!new)>(cap: nat, states: seq<State<T>>, steps: seq<Step<T>>, i: nat)
    requires 0 < cap && IsRunOf(cap, states, steps) && i <= |steps|
    requires states[i].stopper.StopDone? && InLoop(states[i])
    ensures var s := states[i];
            !CanStillReturn(s)
            <==> s.clearedInWindow && ArmedForGood(s) && !NonEmpty(s) && !Holds(s) && !ProducerOwesWakeUp(s)
    ensures states[i].pop.Wait? || states[i].pop.Blocked? ==> states[i].emptyPops == 2
  {
    RunInvariant(cap, states, steps, i);
    var s := states[i];
    if Stranded(s) {
      forall ss: seq<State<T>>, xs: seq<Step<T>> | IsPath(s, ss, xs) && NoPushSucceeds(xs)
        ensures !ss[|xs|].pop.PopIdle?
      {
        StrandedForEver(s, ss, xs, |xs|);
      }
    } else {
      var ss, xs := Rescue(s);
    }
  }

  /** The window is real: enter `pop`, pass the stop check; now the stop is requested and its callback stores
      and notifies; from here the consumer cannot return until another push succeeds. */
  lemma TheOneTrace<T(!new)>(cap: nat) returns (states: seq<State<T>>, steps: seq<Step<T>>)
    requires 0 < cap
    ensures steps == [PopEnter, CheckStop, RequestStop, CallbackStore, CallbackNotify]
    ensures IsRunOf(cap, states, steps)
    ensures states[5].stopper.StopDone? && states[5].clearedInWindow && !CanStillReturn(states[5])
  {
    InitInv<T>(cap);
    var s := Start<T>(cap);
    var inside := s.(registered := true, pop := FirstPop);
    steps := [PopEnter, CheckStop, RequestStop, CallbackStore, CallbackNotify];
    states := [s, s.(registered := true, pop := Check), inside,
               inside.(stop := true, stopper := CallbackStores),
               inside.(stop := true, stopper := CallbackNotifies, clearedInWindow := true),
               inside.(stop := true, stopper := StopDone, clearedInWindow := true)];
    StrandedIffWindow(cap, states, steps, 5);
  }

  // ---------- after a stop ----------

  /** A `pop` entered after a stop runs the callback itself, its store and its notification, and then returns false
      at its first check, whatever the ring holds; its own steps leave no other way. */
  lemma PopAfterStop<T>(s: State<T>) returns (states: seq<State<T>>, steps: seq<Step<T>>)
    requires Invariant(s) && s.stop && s.pop.PopIdle?
    ensures IsPath(s, states, steps) && steps == [PopEnter, RunInlineStore, RunInlineNotify, CheckStop]
    ensures states[4] == s.(sleeping := false, pop := Return(None))
    ensures forall k :: 1 <= k < 4 ==> !states[k].pop.PopIdle? && Inv(states[k].ring) && Next(states[k]) == steps[k]
  {
    steps := [PopEnter, RunInlineStore, RunInlineNotify, CheckStop];
    states := [s, s.(pop := InlineStore), s.(sleeping := false, pop := InlineNotify),
               s.(sleeping := false, pop := Check), s.(sleeping := false, pop := Return(None))];
  }
}
