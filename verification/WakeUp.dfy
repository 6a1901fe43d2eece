/** No wake-up is lost, and when `WaitableSpscQueue::pop` returns while the other threads are quiet. */
module WakeUp {
  import opened Wrappers
  import opened SpscRing
  import opened WaitableSpscQueue

  /** No lost wake-up, over all runs: an armed flag over a non-empty ring means the producer is still about to
      look at it; a consumer blocked behind a cleared flag is owed a notification; the flag is only ever true
      between the consumer's store of true and its way out. */
  lemma NoLostWakeUpInAnyRun<T>(cap: nat, states: seq<State<T>>, steps: seq<Step<T>>)
    requires 0 < cap && IsRunOf(cap, states, steps)
    ensures forall i :: 0 <= i < |states| ==> NoLostWakeUp(states[i]) && FlagBracketed(states[i])
  {
    forall i | 0 <= i < |states| ensures Invariant(states[i]) {
      RunInvariant(cap, states, steps, i);
    }
  }

  /** Only the consumer has anything left to do: the producer is outside `push`, and either no stop was ever
      requested or the request and its callback are over. */
  ghost predicate Quiet<T>(s: State<T>) {
    Invariant(s) && s.push.PushIdle? && (s.stopper.StopIdle? || s.stopper.StopDone?) && !s.pop.PopIdle?
  }

  /** The step the consumer takes next; there is exactly one. */
  ghost function Next<T>(s: State<T>): Step<T>
    requires Inv(s.ring) && !s.pop.PopIdle?
  {
    match s.pop
    case InlineStore => RunInlineStore
    case InlineNotify => RunInlineNotify
    case Check => CheckStop
    case StoreTrue => SetFlag
    case ClearFlag(_) => Clear
    case Wait => WaitLoad
    case Blocked => Wake
    case Return(_) => PopReturns
    case _ =>
      match s.ring.c
      case CIdle => PopRing(PopCall)
      case CGotRead(_) => PopRing(LoadWrite(s.ring.write))
      case CGotWrite(_) => PopRing(MoveOut)
      case CMoved(_, _) => PopRing(Destroy)
      case CDestroyed(_, _) => PopRing(StoreRead)
      case CDone(_) => PopLeave
  }

  lemma NextIsTheOnlyStep<T>(s: State<T>, x: Step<T>)
    requires Quiet(s)
    ensures CanStep(s, Next(s))
    ensures CanStep(s, x) && (x.PopEnter? || x.RunInlineStore? || x.RunInlineNotify? || x.CheckStop? || x.PopRing?
                              || x.PopLeave? || x.SetFlag? || x.Clear? || x.WaitLoad? || x.Wake? || x.PopReturns?)
            ==> x == Next(s)
  {
  }

  ghost predicate Holds<T>(s: State<T>) { s.ring.c.CDone? && s.ring.c.result.Some? }

  /** Past the stop check of an iteration that will end with the flag set and nobody left to clear it. */
  ghost predicate ArmedForGood<T>(s: State<T>) {
    s.pop.FirstPop? || s.pop.StoreTrue? || (s.sleeping && !s.pop.ClearFlag?)
  }

  /** The exact condition for `pop` to return without any help. */
  ghost predicate WillReturn<T>(s: State<T>) {
    || s.pop.Return? || s.pop.ClearFlag?
    || NonEmpty(s) || Holds(s)
    || (s.stop && !ArmedForGood(s))
  }

  /** Steps left inside a ring pop. */
  ghost function RingRank<T>(c: Consumer<T>): nat {
    match c
    case CIdle => 6
    case CGotRead(_) => 5
    case CGotWrite(_) => 4
    case CMoved(_, _) => 3
    case CDestroyed(_, _) => 2
    case CDone(_) => 1
  }

  /** Bounds the consumer's remaining steps where it will return. */
  ghost function Rank<T>(s: State<T>): nat {
    match s.pop
    case PopIdle => 0
    case Return(_) => 1
    case ClearFlag(_) => 2
    case FirstPop => if s.ring.c == CDone(None) then 17 else RingRank(s.ring.c) + 1
    case Check => 8
    case Wait => 9
    case InlineNotify => 9
    case InlineStore => 10
    case SecondPop => RingRank(s.ring.c) + 9
    case StoreTrue => 16
    case Blocked => 10
  }

  ghost function Advance<T>(s: State<T>): State<T>
    requires Quiet(s)
  {
    NextIsTheOnlyStep(s, Next(s));
    Do(s, Next(s))
  }

  lemma OnlyConsumerMoves<T>(s: State<T>, x: Step<T>)
    requires WellFormed(s.ring) && CanStep(s, x) && s.push.PushIdle?
    requires Inv(s.ring) && !s.pop.PopIdle? && x == Next(s)
    ensures Do(s, x).push == s.push && Do(s, x).stopper == s.stopper
  {
  }

  lemma AdvanceQuiet<T>(s: State<T>)
    requires Quiet(s)
    ensures Invariant(Advance(s)) && Advance(s).push.PushIdle? && Advance(s).stopper == s.stopper
    ensures !Advance(s).pop.PopIdle? ==> Quiet(Advance(s))
  {
    NextIsTheOnlyStep(s, Next(s));
    StepInvariant(s, Next(s));
    OnlyConsumerMoves(s, Next(s));
  }

  /** Inside the ring: a pop step brings the return nearer and keeps what there is to return. */
  lemma RingPopReturning<T>(s: State<T>)
    requires Quiet(s) && WillReturn(s) && Next(s).PopRing?
    ensures Rank(Advance(s)) < Rank(s) && WillReturn(Advance(s)) && !Advance(s).pop.PopIdle?
  {
    AdvanceQuiet(s);
    match s.ring.c
    case CGotWrite(_) =>
      assert LiveAt(s.ring, s.ring.read);
    case CGotRead(_) =>
      assert Advance(s).ring == Apply(s.ring, LoadWrite(s.ring.write));
    case CDestroyed(_, _) =>
      assert Holds(Advance(s));
    case _ =>
  }

  lemma AdvanceReturning<T>(s: State<T>)
    requires Quiet(s) && WillReturn(s)
    ensures Rank(Advance(s)) < Rank(s)
    ensures Advance(s).pop.PopIdle? || WillReturn(Advance(s))
  {
    if Next(s).PopRing? {
      RingPopReturning(s);
    } else {
      AdvanceQuiet(s);
    }
  }

  lemma AdvanceSleeping<T>(s: State<T>)
    requires Quiet(s) && !WillReturn(s)
    ensures !Advance(s).pop.PopIdle? && !WillReturn(Advance(s))
  {
    AdvanceQuiet(s);
  }

  /** The state after n more steps of the consumer, stopping when `pop` has returned. */
  ghost function After<T>(s: State<T>, n: nat): State<T>
    requires Quiet(s)
    decreases n
  {
    AdvanceQuiet(s);
    if n == 0 then s
    else if Advance(s).pop.PopIdle? then Advance(s)
    else After(Advance(s), n - 1)
  }

  ghost predicate ReturnsWithin<T>(s: State<T>, n: nat)
    requires Quiet(s)
  {
    After(s, n).pop.PopIdle?
  }

  lemma {:induction false} Returning<T>(s: State<T>, n: nat)
    requires Quiet(s) && WillReturn(s) && Rank(s) <= n
    ensures ReturnsWithin(s, n)
    decreases n
  {
    AdvanceQuiet(s);
    AdvanceReturning(s);
    if !Advance(s).pop.PopIdle? {
      Returning(Advance(s), n - 1);
    }
  }

  lemma {:induction false} SleepingForEver<T>(s: State<T>, n: nat)
    requires Quiet(s) && !WillReturn(s)
    ensures !ReturnsWithin(s, n)
    decreases n
  {
    AdvanceQuiet(s);
    AdvanceSleeping(s);
    if n > 0 {
      SleepingForEver(Advance(s), n - 1);
    }
  }

  /** Left to itself, `pop` returns exactly when there is something to return or a stop was requested whose
      callback did not store its false too early; and then it takes at most 17 steps of its own. */
  lemma PopReturnsIff<T>(s: State<T>)
    requires Quiet(s)
    ensures (exists n :: ReturnsWithin(s, n)) <==> WillReturn(s)
    ensures WillReturn(s) ==> ReturnsWithin(s, 17)
  {
    if WillReturn(s) {
      Returning(s, 17);
    } else {
      forall n: nat ensures !ReturnsWithin(s, n) { SleepingForEver(s, n); }
    }
  }
}
