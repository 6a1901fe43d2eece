/** The busy loop gets its answer: an element if there is one, none after a stop. */
module SpinProgress {
  import opened Wrappers
  import opened SpscRing
  import opened SpinSpscQueue
  import opened WakeUp
  import opened PushProgress

  /** The step the consumer takes next. */
  ghost function SpinNext<T>(s: SpinState<T>): SpinStep<T> {
    match s.pop
    case SpinIdle => SpinEnter
    case SpinReturn(_) => SpinReturns
    case SpinCheck => SpinCheckStop
    case SpinPop =>
      match s.ring.c
      case CIdle => SpinRing(PopCall)
      case CGotRead(_) => SpinRing(LoadWrite(s.ring.write))
      case CGotWrite(_) => SpinRing(MoveOut)
      case CMoved(_, _) => SpinRing(Destroy)
      case CDestroyed(_, _) => SpinRing(StoreRead)
      case CDone(_) => SpinLeave
  }

  lemma SpinAlwaysMoves<T>(s: SpinState<T>)
    requires SpinInvariant(s)
    ensures CanSpin(s, SpinNext(s)) && IsSpinPopStep(SpinNext(s))
  {
  }

  /** The busy loop is never stuck. */
  lemma SpinNeverStuck<T>(cap: nat, states: seq<SpinState<T>>, steps: seq<SpinStep<T>>, i: nat)
    requires 0 < cap && IsSpinRun(cap, states, steps) && i <= |steps|
    ensures CanSpin(states[i], SpinNext(states[i]))
  {
    SpinRunInvariant(cap, states, steps, i);
  }

  // ---------- left to itself ----------

  ghost predicate HasItem<T>(r: Ring<T>) { |r.popped| < |r.pushed| }

  /** The oldest item in the ring. */
  ghost function Oldest<T>(r: Ring<T>): T
    requires HasItem(r)
  {
    r.pushed[|r.popped|]
  }

  /** A ring pop under way has not come back empty, so it will find what there is. */
  ghost predicate StillLooking<T>(s: SpinState<T>) { s.pop.SpinPop? && !s.ring.c.CDone? }

  /** The item that `pop` will hand back if nothing is pushed from now on. */
  ghost function Answer<T>(s: SpinState<T>): Option<T> {
    if s.pop.SpinReturn? then s.pop.result
    else if s.pop.SpinPop? && s.ring.c.CDone? && s.ring.c.result.Some? then s.ring.c.result
    else if HasItem(s.ring) && (StillLooking(s) || !s.stop) then Some(Oldest(s.ring))
    else None
  }

  /** The exact condition for `pop` to return without any help. */
  ghost predicate WillAnswer<T>(s: SpinState<T>) { s.pop.SpinReturn? || Answer(s).Some? || s.stop }

  /** Bounds the consumer's steps up to its answer. */
  ghost function AnswerRank<T>(s: SpinState<T>): nat {
    match s.pop
    case SpinIdle => 0
    case SpinReturn(_) => 0
    case SpinCheck => if s.stop then 1 else 7
    case SpinPop =>
      if s.ring.c == CDone(None) then (if s.stop then 2 else 8)
      else if Answer(s).Some? then RingRank(s.ring.c)
      else if s.ring.c.CIdle? then 4 else 3
  }

  ghost predicate Waiting<T>(s: SpinState<T>) {
    SpinInvariant(s) && !s.pop.SpinIdle? && !s.pop.SpinReturn?
  }

  ghost function SpinAdvance<T>(s: SpinState<T>): SpinState<T>
    requires Waiting(s)
  {
    Spin(s, SpinNext(s))
  }

  lemma SpinAdvanceKeeps<T>(s: SpinState<T>)
    requires Waiting(s)
    ensures CanSpin(s, SpinNext(s))
    ensures SpinInvariant(SpinAdvance(s)) && !SpinAdvance(s).pop.SpinIdle? && SpinAdvance(s).stop == s.stop
  {
    SpinKeepsInvariant(s, SpinNext(s));
  }

  /** The state after n more steps of the consumer, stopping when `pop` is about to return. */
  ghost function SpinAfter<T>(s: SpinState<T>, n: nat): SpinState<T>
    requires SpinInvariant(s) && !s.pop.SpinIdle?
    decreases n
  {
    if n == 0 || s.pop.SpinReturn? then s
    else
      SpinAdvanceKeeps(s);
      SpinAfter(SpinAdvance(s), n - 1)
  }

  lemma AdvanceAnswers<T>(s: SpinState<T>)
    requires Waiting(s) && WillAnswer(s)
    ensures Answer(SpinAdvance(s)) == Answer(s) && WillAnswer(SpinAdvance(s))
    ensures AnswerRank(SpinAdvance(s)) < AnswerRank(s)
  {
    if s.pop.SpinPop? && s.ring.c.CGotWrite? {
      assert LiveAt(s.ring, s.ring.read);
    }
  }

  lemma AdvanceWaits<T>(s: SpinState<T>)
    requires Waiting(s) && !WillAnswer(s)
    ensures Waiting(SpinAdvance(s)) && !WillAnswer(SpinAdvance(s))
  {
    SpinAdvanceKeeps(s);
  }

  lemma {:induction false} Answering<T>(s: SpinState<T>, n: nat)
    requires SpinInvariant(s) && !s.pop.SpinIdle? && WillAnswer(s) && AnswerRank(s) <= n
    ensures SpinAfter(s, n).pop == SpinReturn(Answer(s))
    decreases n
  {
    if !s.pop.SpinReturn? {
      SpinAdvanceKeeps(s);
      AdvanceAnswers(s);
      Answering(SpinAdvance(s), n - 1);
    }
  }

  lemma {:induction false} SpinningForEver<T>(s: SpinState<T>, n: nat)
    requires SpinInvariant(s) && !s.pop.SpinIdle? && !WillAnswer(s)
    ensures !SpinAfter(s, n).pop.SpinReturn?
    decreases n
  {
    if n > 0 {
      SpinAdvanceKeeps(s);
      AdvanceWaits(s);
      SpinningForEver(SpinAdvance(s), n - 1);
    }
  }

  /** Left to itself in any state of any run, the busy loop comes to an answer exactly when there is an element, or has
      been taken one, or a stop was requested; it takes at most eight steps; and the answer is the element taken, else the
      oldest in the ring, unless a stop check comes first. */
  lemma SpinPopReturnsIff<T>(s: SpinState<T>)
    requires SpinInvariant(s) && !s.pop.SpinIdle?
    ensures (exists n :: SpinAfter(s, n).pop.SpinReturn?) <==> WillAnswer(s)
    ensures WillAnswer(s) ==> SpinAfter(s, 8).pop == SpinReturn(Answer(s))
  {
    if WillAnswer(s) {
      Answering(s, 8);
    } else {
      forall n: nat ensures !SpinAfter(s, n).pop.SpinReturn? { SpinningForEver(s, n); }
    }
  }

  /** In particular: without a stop, a `pop` that finds the ring non-empty returns true with its oldest item. */
  lemma SpinPopTakesOldest<T>(s: SpinState<T>)
    requires SpinInvariant(s) && s.pop.SpinCheck? && !s.stop && HasItem(s.ring)
    ensures SpinAfter(s, 8).pop == SpinReturn(Some(s.ring.pushed[|s.ring.popped|]))
  {
    SpinPopReturnsIff(s);
  }

  // ---------- push ----------

  /** The step the producer takes next inside `push`. */
  ghost function SpinPushNext<T>(s: SpinState<T>): SpinStep<T> {
    match s.ring.p
    case PGotWrite(_, _) => SpinPush(LoadRead(s.ring.read))
    case PGotRead(_, _) => SpinPush(Construct)
    case PBuilt(_, _) => SpinPush(StoreWrite)
    case _ => SpinPush(PushReturn)
  }

  ghost function SpinPushAfter<T>(s: SpinState<T>, n: nat): SpinState<T>
    requires SpinInvariant(s)
    decreases n
  {
    if n == 0 || s.ring.p.PIdle? then s
    else
      SpinKeepsInvariant(s, SpinPushNext(s));
      SpinPushAfter(Spin(s, SpinPushNext(s)), n - 1)
  }

  ghost function SpinPushRank<T>(p: Producer<T>): nat {
    match p
    case PIdle => 0
    case PDone(_) => 1
    case PBuilt(_, _) => 2
    case PGotRead(_, _) => 3
    case PGotWrite(_, _) => 4
  }

  /** Left to itself a push finishes within four steps of its call, with its element in the ring if there was room. */
  lemma {:induction false} SpinPushFinishes<T>(s: SpinState<T>, n: nat)
    requires SpinInvariant(s) && SpinPushRank(s.ring.p) <= n
    ensures var t := SpinPushAfter(s, n);
            && SpinInvariant(t) && t.ring.p.PIdle?
            && t.ring.pushed == s.ring.pushed + ToCome(s.ring) && t.ring.popped == s.ring.popped
            && t.pop == s.pop && t.stop == s.stop
    decreases n
  {
    if s.ring.p.PIdle? {
      assert s.ring.pushed + ToCome(s.ring) == s.ring.pushed;
    } else {
      SpinKeepsInvariant(s, SpinPushNext(s));
      RingPushKeeps(s.ring, SpinPushNext(s).a);
      SpinPushFinishes(Spin(s, SpinPushNext(s)), n - 1);
    }
  }

  /** Push, then pop: with room and without a stop, `pop` returns true with what has been in the queue longest. */
  lemma SpinHandsOver<T>(s: SpinState<T>, item: T)
    requires SpinInvariant(s) && s.ring.p.PIdle? && s.pop.SpinIdle? && !s.stop
    requires |s.ring.pushed| - |s.ring.popped| < s.ring.cap
    ensures CanSpin(s, SpinPush(PushCall(item))) && SpinInvariant(Spin(s, SpinPush(PushCall(item))))
    ensures var t := SpinPushAfter(Spin(s, SpinPush(PushCall(item))), 4);
            && CanSpin(t, SpinEnter) && SpinInvariant(Spin(t, SpinEnter))
            && SpinAfter(Spin(t, SpinEnter), 8).pop
               == SpinReturn(Some((s.ring.pushed + [item])[|s.ring.popped|]))
  {
    var u := Spin(s, SpinPush(PushCall(item)));
    SpinKeepsInvariant(s, SpinPush(PushCall(item)));
    SpinPushFinishes(u, 4);
    var t := SpinPushAfter(u, 4);
    SpinPopTakesOldest(Spin(t, SpinEnter));
  }

  // ---------- after a stop ----------

  /** A stop request is recorded at once, and a `pop` entered afterwards returns false, whatever the ring holds. */
  lemma SpinPopAfterStop<T>(s: SpinState<T>)
    requires SpinInvariant(s) && s.pop.SpinIdle?
    ensures CanSpin(s, SpinRequestStop) && CanSpin(Spin(s, SpinRequestStop), SpinEnter)
    ensures var t := Spin(Spin(s, SpinRequestStop), SpinEnter);
            SpinInvariant(t) && SpinAfter(t, 8).pop == SpinReturn(None)
  {
    SpinPopReturnsIff(Spin(Spin(s, SpinRequestStop), SpinEnter));
  }


  ghost predicate IsSpinPopStep<T>(x: SpinStep<T>) {
    x.SpinEnter? || x.SpinCheckStop? || x.SpinRing? || x.SpinLeave? || x.SpinReturns?
  }

  ghost function SpinPopSteps<T>(steps: seq<SpinStep<T>>, i: nat, j: nat): nat
    requires i <= j <= |steps|
  {
    if i == j then 0 else SpinPopSteps(steps, i, j - 1) + if IsSpinPopStep(steps[j - 1]) then 1 else 0
  }

  ghost function SpinRank<T>(s: SpinState<T>): nat {
    match s.pop
    case SpinIdle => 0
    case SpinReturn(_) => 1
    case SpinCheck => 2
    case SpinPop => RingRank(s.ring.c) + 2
  }

  lemma SpinLeavingStep<T>(s: SpinState<T>, x: SpinStep<T>)
    requires SpinInvariant(s) && s.stop && !s.pop.SpinIdle? && CanSpin(s, x) && !x.SpinReturns?
    ensures var t := Spin(s, x); t.stop && !t.pop.SpinIdle?
    ensures 0 < SpinRank(Spin(s, x)) && SpinRank(Spin(s, x)) + (if IsSpinPopStep(x) then 1 else 0) <= SpinRank(s)
  {
    if x.SpinRing? && x.b.MoveOut? {
      assert LiveAt(s.ring, s.ring.read);
    }
  }

  ghost predicate SpinNearer<T>(s: SpinState<T>, x: SpinStep<T>, t: SpinState<T>) {
    s.stop && !s.pop.SpinIdle? ==>
      t.stop && !t.pop.SpinIdle? && SpinRank(t) + (if IsSpinPopStep(x) then 1 else 0) <= SpinRank(s)
  }

  lemma {:induction false} SpinNearerThroughout<T>(states: seq<SpinState<T>>, steps: seq<SpinStep<T>>, i: nat, j: nat)
    requires |states| == |steps| + 1 && i <= j <= |steps| && states[i].stop && !states[i].pop.SpinIdle?
    requires forall k :: i <= k < j ==> SpinNearer(states[k], steps[k], states[k + 1])
    ensures states[j].stop && !states[j].pop.SpinIdle?
    ensures SpinPopSteps(steps, i, j) + SpinRank(states[j]) <= SpinRank(states[i])
    decreases j - i
  {
    if i < j {
      SpinNearerThroughout(states, steps, i, j - 1);
      assert SpinNearer(states[j - 1], steps[j - 1], states[j]);
    }
  }

  /** Once a stop is requested the busy loop takes at most seven more steps and then returns. */
  lemma SpinStopExits<T>(cap: nat, states: seq<SpinState<T>>, steps: seq<SpinStep<T>>, i: nat, j: nat)
    requires 0 < cap && IsSpinRun(cap, states, steps) && i <= j <= |steps|
    requires states[i].stop && !states[i].pop.SpinIdle?
    requires forall k :: i <= k < j ==> !steps[k].SpinReturns?
    ensures states[j].stop && !states[j].pop.SpinIdle?
    ensures SpinPopSteps(steps, i, j) + SpinRank(states[j]) <= SpinRank(states[i]) <= 8 && 0 < SpinRank(states[j])
  {
    SpinRankBound(states[i]);
    forall k | i <= k < j
      ensures SpinNearer(states[k], steps[k], states[k + 1])
    {
      SpinRunStep(cap, states, steps, k);
      if states[k].stop && !states[k].pop.SpinIdle? {
        SpinLeavingStep(states[k], steps[k]);
      }
    }
    SpinNearerThroughout(states, steps, i, j);
    SpinRankBound(states[j]);
  }

  lemma SpinRankBound<T>(s: SpinState<T>)
    requires !s.pop.SpinIdle?
    ensures 0 < SpinRank(s) <= 8
  {
  }
}
