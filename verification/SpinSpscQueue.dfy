/** SpinSpscQueue: the same ring behind a busy loop. */
module SpinSpscQueue {
  import opened Wrappers
  import opened SpscRing
  import Lin = Linearizability

  datatype SpinPc<+T> = SpinIdle | SpinCheck | SpinPop | SpinReturn(result: Option<T>)

  datatype SpinState<T> = SpinState(ring: Ring<T>, stop: bool, pop: SpinPc<T>)

  /** `push` only delegates, so its steps are the ring's own. */
  datatype SpinStep<+T> =
    | SpinPush(a: Action<T>)
    | SpinEnter | SpinCheckStop | SpinRing(b: Action<T>) | SpinLeave | SpinReturns | SpinRequestStop

  ghost function SpinStart<T>(cap: nat): SpinState<T> { SpinState(Init(cap), false, SpinIdle) }

  ghost predicate CanSpin<T>(s: SpinState<T>, x: SpinStep<T>) {
    match x
    case SpinPush(a) =>
      && (a.PushCall? || a.LoadRead? || a.Construct? || a.StoreWrite? || a.PushReturn?)
      && Enabled(s.ring, a) && Lin.Fresh(s.ring, a)
    case SpinEnter => s.pop.SpinIdle?
    case SpinCheckStop => s.pop.SpinCheck?
    case SpinRing(b) =>
      && s.pop.SpinPop? && (b.PopCall? || b.LoadWrite? || b.MoveOut? || b.Destroy? || b.StoreRead?)
      && Enabled(s.ring, b) && Lin.Fresh(s.ring, b)
    case SpinLeave => s.pop.SpinPop? && s.ring.c.CDone?
    case SpinReturns => s.pop.SpinReturn?
    case SpinRequestStop => true
  }

  ghost function Spin<T>(s: SpinState<T>, x: SpinStep<T>): SpinState<T>
    requires WellFormed(s.ring) && CanSpin(s, x)
  {
    match x
    case SpinPush(a) => s.(ring := Apply(s.ring, a))
    case SpinEnter => s.(pop := SpinCheck)
    case SpinCheckStop => s.(pop := if s.stop then SpinReturn(None) else SpinPop)
    case SpinRing(b) => s.(ring := Apply(s.ring, b))
    case SpinLeave =>
      s.(ring := Apply(s.ring, PopReturn),
         pop := if s.ring.c.result.Some? then SpinReturn(s.ring.c.result) else SpinCheck)
    case SpinReturns => s.(pop := SpinIdle)
    case SpinRequestStop => s.(stop := true)
  }

  ghost predicate SpinInvariant<T>(s: SpinState<T>) {
    Inv(s.ring) && (!s.pop.SpinPop? ==> s.ring.c.CIdle?)
  }

  lemma SpinKeepsInvariant<T>(s: SpinState<T>, x: SpinStep<T>)
    requires SpinInvariant(s) && CanSpin(s, x)
    ensures SpinInvariant(Spin(s, x))
  {
    match x
    case SpinPush(a) => StepInv(s.ring, a);
    case SpinRing(b) => StepInv(s.ring, b);
    case SpinLeave => StepInv(s.ring, PopReturn);
    case _ =>
  }

  ghost predicate IsSpinRun<T>(cap: nat, states: seq<SpinState<T>>, steps: seq<SpinStep<T>>) {
    && |states| == |steps| + 1
    && states[0] == SpinStart(cap)
    && (forall i :: 0 <= i < |steps| ==>
          WellFormed(states[i].ring) && CanSpin(states[i], steps[i]) && states[i + 1] == Spin(states[i], steps[i]))
  }

  lemma {:induction false} SpinRunInvariant<T>(cap: nat, states: seq<SpinState<T>>, steps: seq<SpinStep<T>>, n: nat)
    requires 0 < cap && IsSpinRun(cap, states, steps) && n <= |steps|
    ensures SpinInvariant(states[n])
  {
    if n == 0 {
      InitInv<T>(cap);
    } else {
      SpinRunInvariant(cap, states, steps, n - 1);
      SpinKeepsInvariant(states[n - 1], steps[n - 1]);
    }
  }

  lemma SpinRunStep<T>(cap: nat, states: seq<SpinState<T>>, steps: seq<SpinStep<T>>, n: nat)
    requires 0 < cap && IsSpinRun(cap, states, steps) && n < |steps|
    ensures SpinInvariant(states[n]) && CanSpin(states[n], steps[n]) && states[n + 1] == Spin(states[n], steps[n])
  {
    SpinRunInvariant(cap, states, steps, n);
  }
}
