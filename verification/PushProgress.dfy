/** `WaitableSpscQueue::push` never waits, and brings a waiting consumer back. */
module PushProgress {
  import opened SpscRing
  import opened WaitableSpscQueue
  import opened WakeUp

  ghost predicate IsPushStep<T>(x: Step<T>) {
    x.PushEnter? || x.PushRing? || x.PushLeave? || x.LoadFlag? || x.StoreFalse? || x.NotifyOne?
  }

  /** The step the producer takes next inside `push`; there is exactly one. */
  ghost function PushNext<T>(s: State<T>): Step<T>
    requires !s.push.PushIdle?
  {
    match s.push
    case PushInRing =>
      (match s.ring.p
       case PGotWrite(_, _) => PushRing(LoadRead(s.ring.read))
       case PGotRead(_, _) => PushRing(Construct)
       case PBuilt(_, _) => PushRing(StoreWrite)
       case _ => PushLeave)
    case PushLoadsFlag => LoadFlag
    case PushStoresFalse => StoreFalse
    case _ => NotifyOne
  }

  lemma PushNeverStuck<T>(s: State<T>, x: Step<T>)
    requires Invariant(s) && !s.push.PushIdle?
    ensures CanStep(s, PushNext(s))
    ensures CanStep(s, x) && IsPushStep(x) ==> x == PushNext(s)
  {
  }

  ghost function PushRank<T>(s: State<T>): nat {
    match s.push
    case PushIdle => 0
    case PushNotifies => 1
    case PushStoresFalse => 2
    case PushLoadsFlag => 3
    case PushInRing =>
      match s.ring.p
      case PIdle => 4
      case PDone(_) => 4
      case PBuilt(_, _) => 5
      case PGotRead(_, _) => 6
      case PGotWrite(_, _) => 7
  }

  // ---------- whatever the others do ----------

  ghost function PushSteps<T>(steps: seq<Step<T>>, i: nat, j: nat): nat
    requires i <= j <= |steps|
  {
    if i == j then 0 else PushSteps(steps, i, j - 1) + if IsPushStep(steps[j - 1]) then 1 else 0
  }

  ghost predicate PushNearer<T>(s: State<T>, x: Step<T>, t: State<T>) {
    PushRank(t) + (if IsPushStep(x) then 1 else 0) <= PushRank(s)
  }

  lemma PushNearerStep<T>(s: State<T>, x: Step<T>)
    requires Invariant(s) && CanStep(s, x) && !x.PushEnter?
    ensures PushNearer(s, x, Do(s, x))
  {
    if x.PopRing? && x.b.MoveOut? {
      assert LiveAt(s.ring, s.ring.read);
    }
  }

  lemma {:induction false} PushNearerThroughout<T>(states: seq<State<T>>, steps: seq<Step<T>>, i: nat, j: nat)
    requires |states| == |steps| + 1 && i <= j <= |steps|
    requires forall k :: i <= k < j ==> PushNearer(states[k], steps[k], states[k + 1])
    ensures PushSteps(steps, i, j) + PushRank(states[j]) <= PushRank(states[i])
    decreases j - i
  {
    if i < j {
      PushNearerThroughout(states, steps, i, j - 1);
      assert PushNearer(states[j - 1], steps[j - 1], states[j]);
    }
  }

  /** Push is wait-free: after its entry it takes at most seven steps, whatever consumer and stopper do. */
  lemma PushIsWaitFree<T>(cap: nat, states: seq<State<T>>, steps: seq<Step<T>>, i: nat, j: nat)
    requires 0 < cap && IsRunOf(cap, states, steps) && i <= j <= |steps|
    requires forall k :: i <= k < j ==> !steps[k].PushEnter?
    ensures PushSteps(steps, i, j) + PushRank(states[j]) <= PushRank(states[i]) <= 7
    ensures PushRank(states[j]) == 0 <==> states[j].push.PushIdle?
  {
    forall k | i <= k < j
      ensures PushNearer(states[k], steps[k], states[k + 1])
    {
      WaitableSpscQueue.RunStep(cap, states, steps, k);
      PushNearerStep(states[k], steps[k]);
    }
    PushNearerThroughout(states, steps, i, j);
  }

  // ---------- left to itself ----------

  /** The element that a push under way will still put into the ring. */
  ghost function ToCome<T>(r: Ring<T>): seq<T> {
    if r.p.PGotRead? || r.p.PBuilt? then [r.p.item]
    else if r.p.PGotWrite? && |r.pushed| - |r.popped| < r.cap then [r.p.item]
    else []
  }

  /** The push has put its element in or will, and has not passed its look at the flag. */
  ghost predicate WillLook<T>(s: State<T>) { ToCome(s.ring) != [] || ProducerOwesWakeUp(s) }

  ghost predicate WillNotify<T>(s: State<T>) {
    s.push.PushStoresFalse? || s.push.PushNotifies? || (s.sleeping && WillLook(s))
  }

  /** What a push leaves behind when nobody else moves. */
  ghost predicate PushLeaves<T>(s: State<T>, t: State<T>) {
    && t.ring.pushed == s.ring.pushed + ToCome(s.ring) && t.ring.popped == s.ring.popped && t.ring.c == s.ring.c
    && t.sleeping == (s.sleeping && !WillLook(s))
    && t.pop == (if s.pop.Blocked? && WillNotify(s) then Wait else s.pop)
    && t.stop == s.stop && t.stopper == s.stopper
  }

  /** What the ring will have been handed is settled from the call on. */
  lemma RingPushKeeps<T>(r: Ring<T>, a: Action<T>)
    requires Inv(r) && Enabled(r, a)
    requires a == LoadRead(r.read) || a == Construct || a == StoreWrite || a == PushReturn
    ensures var u := Apply(r, a); u.pushed + ToCome(u) == r.pushed + ToCome(r) && u.popped == r.popped && u.c == r.c
  {
  }

  lemma PushNextRing<T>(s: State<T>)
    requires Invariant(s) && !s.push.PushIdle? && CanStep(s, PushNext(s))
    ensures var u := Do(s, PushNext(s));
            && u.ring.pushed + ToCome(u.ring) == s.ring.pushed + ToCome(s.ring)
            && u.ring.popped == s.ring.popped && u.ring.c == s.ring.c
  {
    var a := RingStep(s, PushNext(s));
    if a.Some? {
      RingPushKeeps(s.ring, a.value);
    }
  }

  lemma PushNextFlag<T>(s: State<T>)
    requires Invariant(s) && !s.push.PushIdle? && CanStep(s, PushNext(s))
    ensures var u := Do(s, PushNext(s));
            && u.stop == s.stop && u.stopper == s.stopper
            && (u.sleeping && !WillLook(u)) == (s.sleeping && !WillLook(s))
            && (if u.pop.Blocked? && WillNotify(u) then Wait else u.pop)
               == (if s.pop.Blocked? && WillNotify(s) then Wait else s.pop)
  {
  }

  ghost function PushAfter<T>(s: State<T>, n: nat): State<T>
    requires Invariant(s)
    decreases n
  {
    if n == 0 || s.push.PushIdle? then s
    else
      PushNeverStuck(s, PushNext(s));
      StepInvariant(s, PushNext(s));
      PushAfter(Do(s, PushNext(s)), n - 1)
  }

  /** From any state of any run the push under way finishes within seven steps of its own: its element is in the ring if
      there was room, the flag is down if it still had to look at it, and a consumer blocked on it is awake. */
  lemma {:induction false} PushFinishes<T>(s: State<T>, n: nat)
    requires Invariant(s) && PushRank(s) <= n
    ensures Invariant(PushAfter(s, n)) && PushAfter(s, n).push.PushIdle? && PushLeaves(s, PushAfter(s, n))
    decreases n
  {
    if s.push.PushIdle? {
      assert s.ring.pushed + ToCome(s.ring) == s.ring.pushed;
    } else {
      PushNeverStuck(s, PushNext(s));
      StepInvariant(s, PushNext(s));
      PushNearerStep(s, PushNext(s));
      PushFinishes(Do(s, PushNext(s)), n - 1);
      PushNextRing(s);
      PushNextFlag(s);
    }
  }

  /** However the consumer got to sleep, after the window included: a push of any item to a queue with room ends with
      the item in the ring and the consumer on its way out of `pop`. */
  lemma PushBringsPopBack<T>(s: State<T>, item: T)
    requires Invariant(s) && s.push.PushIdle? && !s.pop.PopIdle?
    requires s.stopper.StopIdle? || s.stopper.StopDone?
    requires |s.ring.pushed| - |s.ring.popped| < s.ring.cap
    ensures CanStep(s, PushEnter(item)) && Invariant(Do(s, PushEnter(item)))
    ensures var t := PushAfter(Do(s, PushEnter(item)), 7);
            && t.ring.pushed == s.ring.pushed + [item] && t.ring.popped == s.ring.popped
            && Quiet(t) && WillReturn(t) && ReturnsWithin(t, 17)
  {
    StepInvariant(s, PushEnter(item));
    var u := Do(s, PushEnter(item));
    PushFinishes(u, 7);
    PopReturnsIff(PushAfter(u, 7));
  }
}
