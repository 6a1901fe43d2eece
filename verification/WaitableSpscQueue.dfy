/** WaitableSpscQueue: three threads (producer, consumer, whoever requests the stop) around one ring, one
    flag and one stop token, interleaved one access at a time under sequential consistency. */
module WaitableSpscQueue {
  import opened Wrappers
  import opened SpscRing
  import Lin = Linearizability

  /** The producer inside `push`. */
  datatype PushPc = PushIdle | PushInRing | PushLoadsFlag | PushStoresFalse | PushNotifies

  /** The consumer inside `pop`; the first two follow the callback being run on registration. */
  datatype PopPc<+T> =
    | PopIdle
    | InlineStore | InlineNotify
    | Check                         // while (!stoken.stop_requested())
    | FirstPop
    | StoreTrue
    | SecondPop
    | ClearFlag(item: T)
    | Wait                          // about to load the flag in wait(true)
    | Blocked
    | Return(result: Option<T>)     // about to deregister the callback and return

  /** The thread requesting the stop, running the callback if one is registered. */
  datatype StopPc = StopIdle | CallbackStores | CallbackNotifies | StopDone

  /** emptyPops counts the failed ring pops of the current loop iteration; clearedInWindow says whether the
      callback's store of false fell between this iteration's stop check and its store of true. */
  datatype State<T> = State(
    ring: Ring<T>, sleeping: bool, stop: bool, registered: bool,
    push: PushPc, pop: PopPc<T>, stopper: StopPc,
    emptyPops: nat, clearedInWindow: bool)

  datatype Step<+T> =
    | PushEnter(item: T) | PushRing(a: Action<T>) | PushLeave
    | LoadFlag | StoreFalse | NotifyOne
    | PopEnter | RunInlineStore | RunInlineNotify | CheckStop
    | PopRing(b: Action<T>) | PopLeave | SetFlag | Clear | WaitLoad | Wake | PopReturns
    | RequestStop | CallbackStore | CallbackNotify

  ghost function Start<T>(cap: nat): State<T> {
    State(Init(cap), false, false, false, PushIdle, PopIdle, StopIdle, 0, false)
  }

  ghost predicate CanStep<T>(s: State<T>, x: Step<T>) {
    match x
    case PushEnter(_) => s.push.PushIdle? && Enabled(s.ring, PushCall(x.item))
    case PushRing(a) =>
      s.push.PushInRing? && (a.LoadRead? || a.Construct? || a.StoreWrite?) && Enabled(s.ring, a) && Lin.Fresh(s.ring, a)
    case PushLeave => s.push.PushInRing? && s.ring.p.PDone?
    case LoadFlag => s.push.PushLoadsFlag?
    case StoreFalse => s.push.PushStoresFalse?
    case NotifyOne => s.push.PushNotifies?
    case PopEnter => s.pop.PopIdle?
    case RunInlineStore => s.pop.InlineStore?
    case RunInlineNotify => s.pop.InlineNotify?
    case CheckStop => s.pop.Check?
    case PopRing(b) =>
      && (s.pop.FirstPop? || s.pop.SecondPop?)
      && (b.PopCall? || b.LoadWrite? || b.MoveOut? || b.Destroy? || b.StoreRead?)
      && Enabled(s.ring, b) && Lin.Fresh(s.ring, b)
    case PopLeave => (s.pop.FirstPop? || s.pop.SecondPop?) && s.ring.c.CDone?
    case SetFlag => s.pop.StoreTrue?
    case Clear => s.pop.ClearFlag?
    case WaitLoad => s.pop.Wait?
    case Wake => s.pop.Blocked?
    case PopReturns => s.pop.Return? && !s.stopper.CallbackStores? && !s.stopper.CallbackNotifies?
    case RequestStop => s.stopper.StopIdle?
    case CallbackStore => s.stopper.CallbackStores?
    case CallbackNotify => s.stopper.CallbackNotifies?
  }

  /** A notification unblocks a blocked consumer; it will load the flag again. */
  ghost function Notified<T>(s: State<T>): State<T> {
    if s.pop.Blocked? then s.(pop := Wait) else s
  }

  ghost function Do<T>(s: State<T>, x: Step<T>): State<T>
    requires WellFormed(s.ring) && CanStep(s, x)
  {
    match x
    case PushEnter(item) => s.(ring := Apply(s.ring, PushCall(item)), push := PushInRing)
    case PushRing(a) => s.(ring := Apply(s.ring, a))
    case PushLeave =>
      s.(ring := Apply(s.ring, PushReturn), push := if s.ring.p.ok then PushLoadsFlag else PushIdle)
    case LoadFlag => s.(push := if s.sleeping then PushStoresFalse else PushIdle)
    case StoreFalse => s.(sleeping := false, push := PushNotifies)
    case NotifyOne => Notified(s).(push := PushIdle)
    case PopEnter => if s.stop then s.(pop := InlineStore) else s.(registered := true, pop := Check)
    case RunInlineStore => s.(sleeping := false, pop := InlineNotify)
    case RunInlineNotify => s.(pop := Check)
    case CheckStop =>
      if s.stop then s.(pop := Return(None)) else s.(pop := FirstPop, emptyPops := 0, clearedInWindow := false)
    case PopRing(b) => s.(ring := Apply(s.ring, b))
    case PopLeave =>
      var t := s.(ring := Apply(s.ring, PopReturn));
      (match s.ring.c.result
       case Some(item) => t.(pop := if s.pop.FirstPop? then Return(Some(item)) else ClearFlag(item))
       case None => t.(pop := if s.pop.FirstPop? then StoreTrue else Wait, emptyPops := s.emptyPops + 1))
    case SetFlag => s.(sleeping := true, pop := SecondPop)
    case Clear => s.(sleeping := false, pop := Return(Some(s.pop.item)))
    case WaitLoad => s.(pop := if s.sleeping then Blocked else Check)
    case Wake => s.(pop := Wait)
    case PopReturns => s.(registered := false, pop := PopIdle)
    case RequestStop => s.(stop := true, stopper := if s.registered then CallbackStores else StopDone)
    case CallbackStore =>
      s.(sleeping := false, stopper := CallbackNotifies, clearedInWindow := s.pop.FirstPop? || s.pop.StoreTrue?)
    case CallbackNotify => Notified(s).(stopper := StopDone)
  }

  // ---------- invariant ----------

  ghost predicate NonEmpty<T>(s: State<T>) { s.ring.popped != s.ring.pushed }

  /** The consumer's second ring pop of this iteration has come back empty. */
  ghost predicate PastSecondPop<T>(s: State<T>) {
    s.pop.Wait? || s.pop.Blocked? || (s.pop.SecondPop? && s.ring.c == CDone(None))
  }

  /** A push has published its element and has still to look at the flag, or to clear it. */
  ghost predicate ProducerOwesWakeUp<T>(s: State<T>) {
    s.push.PushLoadsFlag? || s.push.PushStoresFalse? || (s.push.PushInRing? && s.ring.p == PDone(true))
  }

  ghost predicate InLoop<T>(s: State<T>) {
    s.pop.FirstPop? || s.pop.StoreTrue? || s.pop.SecondPop? || s.pop.ClearFlag? || s.pop.Wait? || s.pop.Blocked?
  }

  ghost predicate CallbackHasStored<T>(s: State<T>) { s.stopper.CallbackNotifies? || s.stopper.StopDone? }

  /** The two stores to the flag that the consumer makes bracket every moment it is true. */
  ghost predicate FlagBracketed<T>(s: State<T>) {
    s.sleeping ==> s.pop.SecondPop? || s.pop.ClearFlag? || s.pop.Wait? || s.pop.Blocked?
  }

  ghost predicate NoLostWakeUp<T>(s: State<T>) {
    && (PastSecondPop(s) && s.sleeping && NonEmpty(s) ==> ProducerOwesWakeUp(s))
    && (s.pop.Blocked? && !s.sleeping ==> s.push.PushNotifies? || s.stopper.CallbackNotifies?)
  }

  /** Once the callback has stored, only a store inside the window can leave the flag to be true later. */
  ghost predicate WindowOnly<T>(s: State<T>) {
    CallbackHasStored(s) && (s.pop.FirstPop? || s.pop.StoreTrue? || s.sleeping) ==> s.clearedInWindow
  }

  ghost predicate Bookkeeping<T>(s: State<T>) {
    && (s.push.PushInRing? <==> !s.ring.p.PIdle?)
    && (!s.pop.FirstPop? && !s.pop.SecondPop? ==> s.ring.c.CIdle?)
    && (s.stop <==> !s.stopper.StopIdle?)
    && (s.stopper.CallbackStores? || s.stopper.CallbackNotifies? ==> s.registered)
    && (InLoop(s) ==> s.registered)
    && (s.pop.Check? ==> s.registered || s.stop)
    && (s.pop.PopIdle? ==> !s.registered)
    && (s.pop.InlineStore? || s.pop.InlineNotify? ==> s.stop && !s.registered)
    && (s.pop.FirstPop? ==> s.emptyPops == 0)
    && (s.pop.StoreTrue? || s.pop.SecondPop? ==> s.emptyPops == 1)
    && (s.pop.Wait? || s.pop.Blocked? ==> s.emptyPops == 2)
  }

  ghost predicate Invariant<T>(s: State<T>) {
    Inv(s.ring) && Bookkeeping(s) && FlagBracketed(s) && NoLostWakeUp(s) && WindowOnly(s)
  }

  lemma StartInvariant<T>(cap: nat)
    requires 0 < cap
    ensures Invariant(Start<T>(cap))
  {
    InitInv<T>(cap);
  }

  /** The ring step behind a step of the protocol, if there is one. */
  ghost function RingStep<T>(s: State<T>, x: Step<T>): Option<Action<T>> {
    match x
    case PushEnter(item) => Some(PushCall(item))
    case PushRing(a) => Some(a)
    case PushLeave => Some(PushReturn)
    case PopRing(b) => Some(b)
    case PopLeave => Some(PopReturn)
    case _ => None
  }

  lemma RingPart<T>(s: State<T>, x: Step<T>)
    requires Invariant(s) && CanStep(s, x)
    ensures match RingStep(s, x)
            case Some(a) => Enabled(s.ring, a) && Lin.Fresh(s.ring, a) && Do(s, x).ring == Apply(s.ring, a)
            case None => Do(s, x).ring == s.ring
    ensures Inv(Do(s, x).ring)
  {
    var r := RingStep(s, x);
    if r.Some? {
      StepInv(s.ring, r.value);
    }
  }

  lemma ProducerInvariant<T>(s: State<T>, x: Step<T>)
    requires Invariant(s) && CanStep(s, x)
    requires x.PushEnter? || x.PushRing? || x.PushLeave? || x.LoadFlag? || x.StoreFalse? || x.NotifyOne?
    ensures Invariant(Do(s, x))
  {
    RingPart(s, x);
  }

  lemma ConsumerRingInvariant<T>(s: State<T>, x: Step<T>)
    requires Invariant(s) && CanStep(s, x)
    requires x.PopRing? || x.PopLeave?
    ensures Invariant(Do(s, x))
  {
    RingPart(s, x);
  }

  /** Every step of every thread keeps the invariant. */
  lemma StepInvariant<T>(s: State<T>, x: Step<T>)
    requires Invariant(s) && CanStep(s, x)
    ensures Invariant(Do(s, x))
  {
    if x.PushEnter? || x.PushRing? || x.PushLeave? || x.LoadFlag? || x.StoreFalse? || x.NotifyOne? {
      ProducerInvariant(s, x);
    } else if x.PopRing? || x.PopLeave? {
      ConsumerRingInvariant(s, x);
    }
  }

  // ---------- whole runs ----------

  ghost predicate IsRunOf<T>(cap: nat, states: seq<State<T>>, steps: seq<Step<T>>) {
    && |states| == |steps| + 1
    && states[0] == Start(cap)
    && (forall i :: 0 <= i < |steps| ==>
          WellFormed(states[i].ring) && CanStep(states[i], steps[i]) && states[i + 1] == Do(states[i], steps[i]))
  }

  lemma {:induction false} RunInvariant<T>(cap: nat, states: seq<State<T>>, steps: seq<Step<T>>, n: nat)
    requires 0 < cap && IsRunOf(cap, states, steps) && n <= |steps|
    ensures Invariant(states[n])
  {
    if n == 0 {
      StartInvariant<T>(cap);
    } else {
      RunInvariant(cap, states, steps, n - 1);
      StepInvariant(states[n - 1], steps[n - 1]);
    }
  }

  lemma RunStep<T>(cap: nat, states: seq<State<T>>, steps: seq<Step<T>>, n: nat)
    requires 0 < cap && IsRunOf(cap, states, steps) && n < |steps|
    ensures Invariant(states[n]) && CanStep(states[n], steps[n]) && states[n + 1] == Do(states[n], steps[n])
  {
    RunInvariant(cap, states, steps, n);
  }
}
