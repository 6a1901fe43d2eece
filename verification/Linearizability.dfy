/** The ring of SpscRing against the atomic FIFO. */
module Linearizability {
  import opened Wrappers
  import opened SpscRing
  import Spec = AtomicFifo

  /** What the atomic object looks like in a given state of the ring. */
  ghost function Abs<T>(s: Ring<T>): Spec.Fifo<T>
    requires |s.popped| <= |s.pushed|
  {
    Spec.Fifo(
      s.cap, s.pushed[|s.popped|..],
      match s.p
      case PIdle => Spec.PushIdle
      case PDone(ok) => Spec.PushDone(ok)
      case _ => Spec.PushCalled(s.p.item),
      match s.c
      case CIdle => Spec.PopIdle
      case CDone(result) => Spec.PopDone(result)
      case _ => Spec.PopCalled)
  }

  /** A push takes effect at its store, or at its load of `read_` when that shows a full ring; a pop
      at its store, or at its load of `write_` when that shows an empty one. */
  ghost function EventOf<T>(s: Ring<T>, a: Action<T>): Spec.Event<T>
    requires Enabled(s, a)
  {
    match a
    case PushCall(item) => Spec.CallPush(item)
    case LoadRead(v) => if s.p.w - v == s.cap then Spec.PushEffect else Spec.Internal
    case StoreWrite => Spec.PushEffect
    case PushReturn => Spec.ReturnPush(s.p.ok)
    case PopCall => Spec.CallPop
    case LoadWrite(v) => if s.c.r == v then Spec.PopEffect else Spec.Internal
    case StoreRead => Spec.PopEffect
    case PopReturn => Spec.ReturnPop(s.c.result)
    case _ => Spec.Internal
  }

  /** Loads that return the current value, as under sequential consistency. */
  ghost predicate Fresh<T>(s: Ring<T>, a: Action<T>) {
    (a.LoadRead? ==> a.v == s.read) && (a.LoadWrite? ==> a.v == s.write)
  }

  /** One step of the ring is one step of the FIFO. */
  lemma StepRefines<T>(s: Ring<T>, a: Action<T>)
    requires Inv(s) && Enabled(s, a) && Fresh(s, a)
    ensures Inv(Apply(s, a))
    ensures Spec.Step(Abs(s), EventOf(s, a), Abs(Apply(s, a)))
  {
    StepInv(s, a);
    var t := Apply(s, a);
    if a.StoreWrite? {
      assert t.pushed[|t.popped|..] == s.pushed[|s.popped|..] + [s.p.item];
    } else if a.StoreRead? {
      assert t.pushed[|t.popped|..] == s.pushed[|s.popped|..][1..];
    } else if a.MoveOut? {
      assert LiveAt(s, s.read);
    }
  }

  /** With stale loads the only loss is that an operation may fail although it need not have. */
  lemma StaleStepRefines<T>(s: Ring<T>, a: Action<T>)
    requires Inv(s) && Enabled(s, a)
    ensures Inv(Apply(s, a))
    ensures Spec.LossyStep(Abs(s), EventOf(s, a), Abs(Apply(s, a)))
  {
    StepInv(s, a);
    if Fresh(s, a) {
      StepRefines(s, a);
    }
  }

  /** A "full" answer is the FIFO's own answer exactly when the load was fresh, and likewise for "empty". */
  lemma FailureExactIffFresh<T>(s: Ring<T>, a: Action<T>)
    requires Inv(s) && Enabled(s, a)
    requires a.LoadRead? || a.LoadWrite?
    requires EventOf(s, a) != Spec.Internal
    ensures Inv(Apply(s, a))
    ensures Spec.Step(Abs(s), EventOf(s, a), Abs(Apply(s, a))) <==> Fresh(s, a)
  {
    StepInv(s, a);
    if Fresh(s, a) {
      StepRefines(s, a);
    } else if a.LoadRead? {
      assert |Abs(s).items| == s.write - s.read < s.cap;
      assert Abs(Apply(s, a)).p == Spec.PushDone(false);
    } else {
      assert |Abs(s).items| == s.write - s.read > 0;
      assert Abs(Apply(s, a)).c == Spec.PopDone(None);
    }
  }

  ghost predicate AllFresh<T>(states: seq<Ring<T>>, acts: seq<Action<T>>)
    requires |states| == |acts| + 1
  {
    forall i :: 0 <= i < |acts| ==> Fresh(states[i], acts[i])
  }

  /** Linearizability over whole runs: every sequentially consistent run of the ring is, state by state,
      a run of the atomic FIFO with the same calls and the same returns. */
  lemma Linearizable<T>(cap: nat, states: seq<Ring<T>>, acts: seq<Action<T>>)
    requires 0 < cap && IsRun(cap, states, acts) && AllFresh(states, acts)
    ensures forall i :: 0 <= i < |states| ==> |states[i].popped| <= |states[i].pushed|
    ensures Abs(states[0]) == Spec.Fifo(cap, [], Spec.PushIdle, Spec.PopIdle)
    ensures forall i :: 0 <= i < |acts| ==>
              Spec.Step(Abs(states[i]), EventOf(states[i], acts[i]), Abs(states[i + 1]))
  {
    forall i | 0 <= i < |states| ensures |states[i].popped| <= |states[i].pushed| {
      RunInv(cap, states, acts, i);
    }
    forall i | 0 <= i < |acts|
      ensures Spec.Step(Abs(states[i]), EventOf(states[i], acts[i]), Abs(states[i + 1]))
    {
      RunInv(cap, states, acts, i);
      assert Fresh(states[i], acts[i]);
      StepRefines(states[i], acts[i]);
    }
  }

  /** The same under release/acquire, against the FIFO that may fail spuriously. */
  lemma LinearizableWithStaleLoads<T>(cap: nat, states: seq<Ring<T>>, acts: seq<Action<T>>)
    requires 0 < cap && IsRun(cap, states, acts)
    ensures forall i :: 0 <= i < |states| ==> |states[i].popped| <= |states[i].pushed|
    ensures forall i :: 0 <= i < |acts| ==>
              Spec.LossyStep(Abs(states[i]), EventOf(states[i], acts[i]), Abs(states[i + 1]))
  {
    forall i | 0 <= i < |states| ensures |states[i].popped| <= |states[i].pushed| {
      RunInv(cap, states, acts, i);
    }
    forall i | 0 <= i < |acts|
      ensures Spec.LossyStep(Abs(states[i]), EventOf(states[i], acts[i]), Abs(states[i + 1]))
    {
      RunInv(cap, states, acts, i);
      StaleStepRefines(states[i], acts[i]);
    }
  }
}
