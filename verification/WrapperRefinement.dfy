/** Both wrappers are the stoppable blocking FIFO. */
module WrapperRefinement {
  import opened Wrappers
  import opened SpscRing
  import opened AtomicFifo
  import opened StoppableFifo
  import Lin = Linearizability
  import W = WaitableSpscQueue
  import S = SpinSpscQueue

  /** A ring pop that found nothing leaves the wrapper's pop pending. */
  ghost function PendingPop<T>(c: Consumer<T>): PopState<T> {
    if c.CDone? && c.result.Some? then PopDone(c.result) else PopCalled
  }

  /** No more taken than put in. */
  ghost predicate Counted<T>(r: Ring<T>) { |r.popped| <= |r.pushed| }

  ghost function Items<T>(r: Ring<T>): seq<T>
    requires Counted(r)
  {
    r.pushed[|r.popped|..]
  }

  /** A ring step that belongs to a push, as the FIFO sees it. */
  lemma PushPart<T>(r: Ring<T>, a: Action<T>)
    requires Inv(r) && Enabled(r, a) && Lin.Fresh(r, a)
    requires a.PushCall? || a.LoadRead? || a.Construct? || a.StoreWrite? || a.PushReturn?
    ensures Inv(Apply(r, a)) && Apply(r, a).c == r.c
    ensures forall c :: AtomicFifo.Step(Lin.Abs(r).(c := c), Lin.EventOf(r, a), Lin.Abs(Apply(r, a)).(c := c))
  {
    Lin.StepRefines(r, a);
  }

  /** A ring step that belongs to a pop takes an item out exactly at its store. */
  lemma PopPart<T>(r: Ring<T>, b: Action<T>)
    requires Inv(r) && Enabled(r, b) && Lin.Fresh(r, b)
    requires b.PopCall? || b.LoadWrite? || b.MoveOut? || b.Destroy? || b.StoreRead? || b.PopReturn?
    ensures Inv(Apply(r, b)) && Apply(r, b).p == r.p && Apply(r, b).cap == r.cap
    ensures b.StoreRead? ==>
              && Items(r) != [] && Items(Apply(r, b)) == Items(r)[1..]
              && PendingPop(r.c) == PopCalled && PendingPop(Apply(r, b).c) == PopDone(Some(Items(r)[0]))
    ensures !b.StoreRead? ==> Items(Apply(r, b)) == Items(r)
    ensures !b.StoreRead? && !b.PopReturn? ==> PendingPop(Apply(r, b).c) == PendingPop(r.c) == PopCalled
  {
    StepInv(r, b);
    if b.MoveOut? {
      assert LiveAt(r, r.read);
    } else if b.StoreRead? {
      Lin.StepRefines(r, b);
    }
  }

  // ---------- the waitable queue ----------

  ghost function AbsWaitable<T>(s: W.State<T>): Blocking<T>
    requires Counted(s.ring)
  {
    Blocking(
      Fifo(
        s.ring.cap, Items(s.ring),
        (match s.push
         case PushIdle => PushIdle
         case PushInRing => Lin.Abs(s.ring).p
         case _ => PushDone(true)),
        (match s.pop
         case PopIdle => PopIdle
         case Return(result) => PopDone(result)
         case ClearFlag(item) => PopDone(Some(item))
         case FirstPop => PendingPop(s.ring.c)
         case SecondPop => PendingPop(s.ring.c)
         case _ => PopCalled)),
      s.stop)
  }

  /** A push takes effect in the ring and returns after its look at the flag; a pop takes effect in the ring
      or at the stop check that ends it. */
  ghost function WaitableEffect<T>(s: W.State<T>, x: W.Step<T>): Effect<T>
    requires W.CanStep(s, x)
  {
    match x
    case PushEnter(item) => Of(CallPush(item))
    case PushRing(a) => Of(Lin.EventOf(s.ring, a))
    case PushLeave => if s.ring.p.ok then Of(Internal) else Of(ReturnPush(false))
    case LoadFlag => if s.sleeping then Of(Internal) else Of(ReturnPush(true))
    case NotifyOne => Of(ReturnPush(true))
    case PopEnter => Of(CallPop)
    case CheckStop => if s.stop then GiveUp else Of(Internal)
    case PopRing(b) => if b.StoreRead? then Of(PopEffect) else Of(Internal)
    case PopReturns => Of(ReturnPop(s.pop.result))
    case RequestStop => StoppableFifo.RequestStop
    case _ => Of(Internal)
  }

  /** The producer's steps inside the ring. */
  lemma WaitablePushRefines<T>(s: W.State<T>, x: W.Step<T>)
    requires W.Invariant(s) && W.CanStep(s, x) && W.Invariant(W.Do(s, x))
    requires x.PushEnter? || x.PushRing? || x.PushLeave?
    ensures BlockingStep(AbsWaitable(s), WaitableEffect(s, x), AbsWaitable(W.Do(s, x)))
  {
    PushPart(s.ring, W.RingStep(s, x).value);
    var c := AbsWaitable(s).fifo.c;
    assert AbsWaitable(W.Do(s, x)).fifo.c == c;
    assert AbsWaitable(s).fifo == Lin.Abs(s.ring).(c := c);
    if !x.PushLeave? {
      assert AbsWaitable(W.Do(s, x)).fifo == Lin.Abs(W.Do(s, x).ring).(c := c);
    }
  }

  /** The consumer's steps inside the ring. */
  lemma WaitablePopRefines<T>(s: W.State<T>, b: Action<T>)
    requires W.Invariant(s) && W.CanStep(s, W.PopRing(b)) && W.Invariant(W.Do(s, W.PopRing(b)))
    ensures BlockingStep(AbsWaitable(s), WaitableEffect(s, W.PopRing(b)), AbsWaitable(W.Do(s, W.PopRing(b))))
  {
    PopPart(s.ring, b);
    var t := W.Do(s, W.PopRing(b));
    assert AbsWaitable(t).fifo.p == AbsWaitable(s).fifo.p;
    assert AbsWaitable(t).fifo.c == PendingPop(t.ring.c) && AbsWaitable(s).fifo.c == PendingPop(s.ring.c);
  }

  lemma WaitablePopLeaveRefines<T>(s: W.State<T>)
    requires W.Invariant(s) && W.CanStep(s, W.PopLeave) && W.Invariant(W.Do(s, W.PopLeave))
    ensures AbsWaitable(W.Do(s, W.PopLeave)) == AbsWaitable(s)
  {
    PopPart(s.ring, PopReturn);
  }

  ghost predicate OfProducer<T>(x: W.Step<T>) { x.LoadFlag? || x.StoreFalse? || x.NotifyOne? }

  /** The producer's look at the flag, and what follows. */
  lemma WaitableWakeRefines<T>(s: W.State<T>, x: W.Step<T>)
    requires WellFormed(s.ring) && Counted(s.ring) && W.CanStep(s, x) && OfProducer(x)
    ensures BlockingStep(AbsWaitable(s), WaitableEffect(s, x), AbsWaitable(W.Do(s, x)))
  {
  }

  ghost predicate Silent<T>(x: W.Step<T>) {
    x.RunInlineStore? || x.RunInlineNotify? || x.SetFlag? || x.Clear? || x.WaitLoad? || x.Wake?
    || x.CallbackStore? || x.CallbackNotify?
  }

  /** Most steps of consumer and stopper outside the ring cannot be seen. */
  lemma WaitableSilentRefines<T>(s: W.State<T>, x: W.Step<T>)
    requires WellFormed(s.ring) && Counted(s.ring) && W.CanStep(s, x) && Silent(x)
    requires !s.pop.FirstPop? && !s.pop.SecondPop? ==> s.ring.c.CIdle?
    ensures AbsWaitable(W.Do(s, x)) == AbsWaitable(s)
  {
  }

  lemma WaitableCallRefines<T>(s: W.State<T>, x: W.Step<T>)
    requires WellFormed(s.ring) && Counted(s.ring) && W.CanStep(s, x)
    requires x.PopEnter? || x.CheckStop? || x.PopReturns? || x.RequestStop?
    requires !s.pop.FirstPop? && !s.pop.SecondPop? ==> s.ring.c.CIdle?
    ensures BlockingStep(AbsWaitable(s), WaitableEffect(s, x), AbsWaitable(W.Do(s, x)))
  {
  }

  lemma WaitableStepRefines<T>(s: W.State<T>, x: W.Step<T>)
    requires W.Invariant(s) && W.CanStep(s, x)
    ensures W.Invariant(W.Do(s, x))
    ensures BlockingStep(AbsWaitable(s), WaitableEffect(s, x), AbsWaitable(W.Do(s, x)))
  {
    W.StepInvariant(s, x);
    if x.PushEnter? || x.PushRing? || x.PushLeave? {
      WaitablePushRefines(s, x);
    } else if x.PopRing? {
      WaitablePopRefines(s, x.b);
    } else if x.PopLeave? {
      WaitablePopLeaveRefines(s);
    } else if OfProducer(x) {
      WaitableWakeRefines(s, x);
    } else if Silent(x) {
      WaitableSilentRefines(s, x);
    } else {
      WaitableCallRefines(s, x);
    }
  }

  /** Every run of the waitable queue is a run of the stoppable blocking FIFO. */
  lemma WaitableRefines<T>(cap: nat, states: seq<W.State<T>>, steps: seq<W.Step<T>>)
    requires 0 < cap && W.IsRunOf(cap, states, steps)
    ensures forall i :: 0 <= i < |states| ==> W.Invariant(states[i]) && Counted(states[i].ring)
    ensures AbsWaitable(states[0]) == Blocking(Fifo(cap, [], PushIdle, PopIdle), false)
    ensures forall i :: 0 <= i < |steps| ==>
              BlockingStep(AbsWaitable(states[i]), WaitableEffect(states[i], steps[i]), AbsWaitable(states[i + 1]))
  {
    forall i | 0 <= i < |states| ensures W.Invariant(states[i]) && Counted(states[i].ring) {
      W.RunInvariant(cap, states, steps, i);
    }
    forall i | 0 <= i < |steps|
      ensures BlockingStep(AbsWaitable(states[i]), WaitableEffect(states[i], steps[i]), AbsWaitable(states[i + 1]))
    {
      WaitableStepRefines(states[i], steps[i]);
    }
  }

  /** The specification's view of a whole run. */
  ghost function WaitableTrace<T>(states: seq<W.State<T>>): (bs: seq<Blocking<T>>)
    requires forall i :: 0 <= i < |states| ==> Counted(states[i].ring)
    ensures |bs| == |states| && forall i :: 0 <= i < |states| ==> bs[i] == AbsWaitable(states[i])
  {
    seq(|states|, i requires 0 <= i < |states| => AbsWaitable(states[i]))
  }

  ghost function WaitableEffects<T>(states: seq<W.State<T>>, steps: seq<W.Step<T>>): (es: seq<Effect<T>>)
    requires |states| == |steps| + 1 && forall i :: 0 <= i < |steps| ==> W.CanStep(states[i], steps[i])
    ensures |es| == |steps| && forall i :: 0 <= i < |steps| ==> es[i] == WaitableEffect(states[i], steps[i])
  {
    seq(|steps|, i requires 0 <= i < |steps| => WaitableEffect(states[i], steps[i]))
  }

  /** Between rings b and c item v is taken off the front; from a to b and from c to d pushes only add behind. */
  ghost predicate ItemTaken<T>(a: Ring<T>, b: Ring<T>, c: Ring<T>, d: Ring<T>, v: T)
    requires Counted(a) && Counted(b) && Counted(c) && Counted(d)
  {
    Items(a) <= Items(b) && Items(b) == [v] + Items(c) && Items(c) <= Items(d)
  }

  lemma WaitableTraceIsRun<T>(cap: nat, states: seq<W.State<T>>, steps: seq<W.Step<T>>)
    requires 0 < cap && W.IsRunOf(cap, states, steps)
    ensures forall i :: 0 <= i < |states| ==> W.Invariant(states[i]) && Counted(states[i].ring)
    ensures IsBlockingRun(WaitableTrace(states), WaitableEffects(states, steps))
  {
    WaitableRefines(cap, states, steps);
    var bs, es := WaitableTrace(states), WaitableEffects(states, steps);
    forall k | 0 <= k < |es| ensures BlockingStep(bs[k], es[k], bs[k + 1]) {
      assert bs[k] == AbsWaitable(states[k]) && bs[k + 1] == AbsWaitable(states[k + 1]);
    }
  }

  lemma OnlyPopReturns<T>(s: W.State<T>, x: W.Step<T>)
    requires W.CanStep(s, x)
    ensures PopReturnsAt(WaitableEffect(s, x)) ==> x.PopReturns?
  {
  }

  /** A call of the waitable `pop`, entered by step i and about to return in state j: false only after a stop
      request, with nothing taken from the ring; true with the item that was the oldest when it was taken. */
  lemma WaitablePopOutcome<T>(cap: nat, states: seq<W.State<T>>, steps: seq<W.Step<T>>, i: nat, j: nat)
    requires 0 < cap && W.IsRunOf(cap, states, steps) && i < j <= |steps|
    requires steps[i].PopEnter? && states[j].pop.Return?
    requires forall k :: i < k < j ==> !steps[k].PopReturns?
    ensures forall k :: 0 <= k < |states| ==> Counted(states[k].ring)
    ensures match states[j].pop.result
            case None => states[j].stop && Items(states[i].ring) <= Items(states[j].ring)
            case Some(v) => exists m ::
              i <= m < j && ItemTaken(states[i].ring, states[m].ring, states[m + 1].ring, states[j].ring, v)
  {
    WaitableTraceIsRun(cap, states, steps);
    var bs, es := WaitableTrace(states), WaitableEffects(states, steps);
    forall k | i < k < j ensures !PopReturnsAt(es[k]) {
      OnlyPopReturns(states[k], steps[k]);
    }
    assert es[i] == Of(CallPop) && bs[j].fifo.c == PopDone(states[j].pop.result);
    WholePopOutcome(bs, es, i, j);
    if states[j].pop.result.Some? {
      var v := states[j].pop.result.value;
      var m :| i <= m < j && TakenAt(bs, i, m, j, v);
      assert ItemTaken(states[i].ring, states[m].ring, states[m + 1].ring, states[j].ring, v);
    }
  }

  // ---------- the spinning queue ----------

  ghost function AbsSpin<T>(s: S.SpinState<T>): Blocking<T>
    requires Counted(s.ring)
  {
    Blocking(
      Fifo(
        s.ring.cap, Items(s.ring), Lin.Abs(s.ring).p,
        (match s.pop
         case SpinIdle => PopIdle
         case SpinReturn(result) => PopDone(result)
         case SpinCheck => PopCalled
         case SpinPop => PendingPop(s.ring.c))),
      s.stop)
  }

  ghost function SpinEffect<T>(s: S.SpinState<T>, x: S.SpinStep<T>): Effect<T>
    requires S.CanSpin(s, x)
  {
    match x
    case SpinPush(a) => Of(Lin.EventOf(s.ring, a))
    case SpinEnter => Of(CallPop)
    case SpinCheckStop => if s.stop then GiveUp else Of(Internal)
    case SpinRing(b) => if b.StoreRead? then Of(PopEffect) else Of(Internal)
    case SpinReturns => Of(ReturnPop(s.pop.result))
    case SpinRequestStop => StoppableFifo.RequestStop
    case _ => Of(Internal)
  }

  lemma SpinStepRefines<T>(s: S.SpinState<T>, x: S.SpinStep<T>)
    requires S.SpinInvariant(s) && S.CanSpin(s, x)
    ensures S.SpinInvariant(S.Spin(s, x))
    ensures BlockingStep(AbsSpin(s), SpinEffect(s, x), AbsSpin(S.Spin(s, x)))
  {
    S.SpinKeepsInvariant(s, x);
    match x
    case SpinPush(a) => PushPart(s.ring, a);
    case SpinRing(b) => PopPart(s.ring, b);
    case SpinLeave => PopPart(s.ring, PopReturn);
    case _ =>
  }

  /** Every run of the spinning queue is a run of the same object. */
  lemma SpinRefines<T>(cap: nat, states: seq<S.SpinState<T>>, steps: seq<S.SpinStep<T>>)
    requires 0 < cap && S.IsSpinRun(cap, states, steps)
    ensures forall i :: 0 <= i < |states| ==> S.SpinInvariant(states[i]) && Counted(states[i].ring)
    ensures AbsSpin(states[0]) == Blocking(Fifo(cap, [], PushIdle, PopIdle), false)
    ensures forall i :: 0 <= i < |steps| ==>
              BlockingStep(AbsSpin(states[i]), SpinEffect(states[i], steps[i]), AbsSpin(states[i + 1]))
  {
    forall i | 0 <= i < |states| ensures S.SpinInvariant(states[i]) && Counted(states[i].ring) {
      S.SpinRunInvariant(cap, states, steps, i);
    }
    forall i | 0 <= i < |steps|
      ensures BlockingStep(AbsSpin(states[i]), SpinEffect(states[i], steps[i]), AbsSpin(states[i + 1]))
    {
      SpinStepRefines(states[i], steps[i]);
    }
  }

  ghost function SpinTrace<T>(states: seq<S.SpinState<T>>): (bs: seq<Blocking<T>>)
    requires forall i :: 0 <= i < |states| ==> Counted(states[i].ring)
    ensures |bs| == |states| && forall i :: 0 <= i < |states| ==> bs[i] == AbsSpin(states[i])
  {
    seq(|states|, i requires 0 <= i < |states| => AbsSpin(states[i]))
  }

  ghost function SpinEffects<T>(states: seq<S.SpinState<T>>, steps: seq<S.SpinStep<T>>): (es: seq<Effect<T>>)
    requires |states| == |steps| + 1 && forall i :: 0 <= i < |steps| ==> S.CanSpin(states[i], steps[i])
    ensures |es| == |steps| && forall i :: 0 <= i < |steps| ==> es[i] == SpinEffect(states[i], steps[i])
  {
    seq(|steps|, i requires 0 <= i < |steps| => SpinEffect(states[i], steps[i]))
  }

  lemma SpinTraceIsRun<T>(cap: nat, states: seq<S.SpinState<T>>, steps: seq<S.SpinStep<T>>)
    requires 0 < cap && S.IsSpinRun(cap, states, steps)
    ensures forall i :: 0 <= i < |states| ==> S.SpinInvariant(states[i]) && Counted(states[i].ring)
    ensures IsBlockingRun(SpinTrace(states), SpinEffects(states, steps))
  {
    SpinRefines(cap, states, steps);
    var bs, es := SpinTrace(states), SpinEffects(states, steps);
    forall k | 0 <= k < |es| ensures BlockingStep(bs[k], es[k], bs[k + 1]) {
      assert bs[k] == AbsSpin(states[k]) && bs[k + 1] == AbsSpin(states[k + 1]);
    }
  }

  /** The same for a call of the spinning `pop`. */
  lemma SpinPopOutcome<T>(cap: nat, states: seq<S.SpinState<T>>, steps: seq<S.SpinStep<T>>, i: nat, j: nat)
    requires 0 < cap && S.IsSpinRun(cap, states, steps) && i < j <= |steps|
    requires steps[i].SpinEnter? && states[j].pop.SpinReturn?
    requires forall k :: i < k < j ==> !steps[k].SpinReturns?
    ensures forall k :: 0 <= k < |states| ==> Counted(states[k].ring)
    ensures match states[j].pop.result
            case None => states[j].stop && Items(states[i].ring) <= Items(states[j].ring)
            case Some(v) => exists m ::
              i <= m < j && ItemTaken(states[i].ring, states[m].ring, states[m + 1].ring, states[j].ring, v)
  {
    SpinTraceIsRun(cap, states, steps);
    var bs, es := SpinTrace(states), SpinEffects(states, steps);
    forall k | i < k < j ensures !PopReturnsAt(es[k]) {
      assert steps[k].SpinPush? ==> !Lin.EventOf(states[k].ring, steps[k].a).ReturnPop?;
    }
    WholePopOutcome(bs, es, i, j);
    if states[j].pop.result.Some? {
      var v := states[j].pop.result.value;
      var m :| i <= m < j && TakenAt(bs, i, m, j, v);
      assert ItemTaken(states[i].ring, states[m].ring, states[m + 1].ring, states[j].ring, v);
    }
  }
}
