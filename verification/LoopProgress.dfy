/** The loops around the real queues keep moving, and stopping the generator needs no help from the consumer. */
module LoopProgress {
  import opened SpscRing
  import opened MarketData
  import opened WrapperRefinement
  import opened LoopsOverQueue
  import opened PushProgress
  import opened SpinProgress
  import W = WaitableSpscQueue
  import S = SpinSpscQueue
  import WakeUp
  import Up = Upstream

  // ---------- never stuck ----------

  /** Until its thread has exited the generator has a move of its own, inside `push` or outside. */
  lemma GeneratorMoves(s: WaitableLoops) returns (x: Move<W.Step<Message>>, t: WaitableLoops)
    requires W.Invariant(s.q) && Linked(ViewWaitable(s)) && Up.WellFormed(s.u) && !s.u.gen.Off?
    ensures WaitableMove(s, x, t) && IsGenMove(x)
  {
    if s.u.gen.TryPush? {
      var w := if s.q.push.PushIdle? then W.PushEnter(s.u.gen.m) else PushNext(s.q);
      if !s.q.push.PushIdle? {
        PushNeverStuck(s.q, w);
      }
      x, t := OnQueue(w), Loops(Answered(s.u, WaitableEffect(s.q, w)), W.Do(s.q, w));
    } else {
      var y := Up.GeneratorNeverStuck(s.u);
      x, t := Own(y), s.(u := Up.Act(s.u, y));
    }
  }

  /** Until its thread has exited the disseminator has a move of its own, inside `pop` or outside, unless it waits for
      the stop callback to finish; then the callback has one. */
  lemma DisseminatorMoves(s: WaitableLoops) returns (x: Move<W.Step<Message>>, t: WaitableLoops)
    requires W.Invariant(s.q) && Linked(ViewWaitable(s)) && Up.WellFormed(s.u) && !s.u.dis.DisOff?
    ensures WaitableMove(s, x, t)
    ensures IsDisMove(x) || (x.OnQueue? && (x.e.CallbackStore? || x.e.CallbackNotify?))
  {
    if s.u.dis.Popping? {
      var w :=
        if s.q.pop.PopIdle? then W.PopEnter
        else if s.q.pop.Return? && s.q.stopper.CallbackStores? then W.CallbackStore
        else if s.q.pop.Return? && s.q.stopper.CallbackNotifies? then W.CallbackNotify
        else WakeUp.Next(s.q);
      x, t := OnQueue(w), Loops(Answered(s.u, WaitableEffect(s.q, w)), W.Do(s.q, w));
    } else {
      var y := if s.u.dis.Stamping? then Up.DisStamp else Up.DisSend([0, 0, 0, 0]);
      x, t := Own(y), s.(u := Up.Act(s.u, y));
    }
  }

  /** The disseminator can be stopped once while it runs, which is recorded at once; and when it has exited it can be
      started again, with its stop not requested. */
  lemma StopAndRestart(s: WaitableLoops) returns (t: WaitableLoops)
    requires W.Invariant(s.q) && Linked(ViewWaitable(s))
    requires if s.u.dis.DisOff? then !s.q.stopper.CallbackStores? && !s.q.stopper.CallbackNotifies?
             else s.q.stopper.StopIdle?
    ensures W.Invariant(t.q)
    ensures s.u.dis.DisOff? ==> WaitableMove(s, Restart, t) && t.u.dis.Popping? && !t.q.stop && t.q.stopper.StopIdle?
    ensures !s.u.dis.DisOff? ==> WaitableMove(s, OnQueue(W.RequestStop), t) && t.q.stop && !t.q.stopper.StopIdle?
    ensures t.q.ring == s.q.ring
  {
    if s.u.dis.DisOff? {
      t := Loops(s.u.(dis := Up.Popping), s.q.(stop := false, stopper := W.StopIdle));
      WaitableMoveSimulates(s, Restart, t);
    } else {
      t := Loops(s.u, W.Do(s.q, W.RequestStop));
      WaitableMoveSimulates(s, OnQueue(W.RequestStop), t);
    }
  }

  // ---------- stopping the generator ----------

  ghost predicate IsGenMove(x: Move<W.Step<Message>>) {
    (x.Own? && Up.IsGenStep(x.x)) || (x.OnQueue? && IsPushStep(x.e))
  }

  ghost predicate IsDisMove(x: Move<W.Step<Message>>) {
    || (x.Own? && (x.x.DisStamp? || x.x.DisSend?))
    || (x.OnQueue? && !IsPushStep(x.e) && !x.e.RequestStop? && !x.e.CallbackStore? && !x.e.CallbackNotify?)
  }

  ghost function GenMoves(moves: seq<Move<W.Step<Message>>>, i: nat, j: nat): nat
    requires i <= j <= |moves|
  {
    if i == j then 0 else GenMoves(moves, i, j - 1) + if IsGenMove(moves[j - 1]) then 1 else 0
  }

  /** The most moves the generator thread can still make once its stop is requested: a push under way is finished. */
  ghost function MovesToExit(s: WaitableLoops): nat {
    if s.u.gen.TryPush? then (if s.q.push.PushIdle? then 11 else 3 + PushRank(s.q))
    else if s.u.gen.Timestamp? then 4
    else Up.StepsToExit(s.u.gen)
  }

  ghost predicate Stopping(s: WaitableLoops) {
    W.Invariant(s.q) && Linked(ViewWaitable(s)) && s.u.current.stopRequested
  }

  ghost predicate CloserToExit(s: WaitableLoops, x: Move<W.Step<Message>>, t: WaitableLoops) {
    Stopping(s) ==>
      Stopping(t) && MovesToExit(t) + (if IsGenMove(x) then 1 else 0) <= MovesToExit(s)
  }

  lemma OwnCloser(s: WaitableLoops, y: Up.Step, t: WaitableLoops)
    requires Stopping(s) && WaitableMove(s, Own(y), t) && !y.GenStart?
    ensures t.u.current.stopRequested
    ensures MovesToExit(t) + (if Up.IsGenStep(y) then 1 else 0) <= MovesToExit(s)
  {
  }

  lemma PushCloser(s: WaitableLoops, w: W.Step<Message>, t: WaitableLoops)
    requires Stopping(s) && WaitableMove(s, OnQueue(w), t) && IsPushStep(w)
    ensures t.u.current.stopRequested && MovesToExit(t) < MovesToExit(s)
  {
    if !w.PushEnter? {
      PushNearerStep(s.q, w);
    }
  }

  lemma PopCloser(s: WaitableLoops, w: W.Step<Message>, t: WaitableLoops)
    requires Stopping(s) && WaitableMove(s, OnQueue(w), t) && !IsPushStep(w)
    ensures t.u.current.stopRequested && MovesToExit(t) <= MovesToExit(s)
  {
    PushNearerStep(s.q, w);
    PushStays(s.q, w);
  }

  /** Only the producer's own steps get it into or out of `push`. */
  lemma PushStays<T>(s: W.State<T>, w: W.Step<T>)
    requires WellFormed(s.ring) && W.CanStep(s, w) && !IsPushStep(w)
    ensures W.Do(s, w).push == s.push
  {
  }

  lemma MoveCloser(s: WaitableLoops, x: Move<W.Step<Message>>, t: WaitableLoops)
    requires WaitableMove(s, x, t) && !(x.Own? && x.x.GenStart?)
    ensures CloserToExit(s, x, t)
  {
    if Stopping(s) {
      WaitableMoveSimulates(s, x, t);
      MoveLinked(ViewWaitable(s), WaitableAsMove(s, x), ViewWaitable(t));
      match x
      case Own(y) => OwnCloser(s, y, t);
      case OnQueue(w) =>
        if IsPushStep(w) {
          PushCloser(s, w, t);
        } else {
          PopCloser(s, w, t);
        }
      case Restart =>
    }
  }

  lemma {:induction false} CloserThroughout(states: seq<WaitableLoops>, moves: seq<Move<W.Step<Message>>>, i: nat, j: nat)
    requires |states| == |moves| + 1 && i <= j <= |moves| && Stopping(states[i])
    requires forall k :: i <= k < j ==> CloserToExit(states[k], moves[k], states[k + 1])
    ensures Stopping(states[j]) && GenMoves(moves, i, j) + MovesToExit(states[j]) <= MovesToExit(states[i])
    decreases j - i
  {
    if i < j {
      CloserThroughout(states, moves, i, j - 1);
      assert CloserToExit(states[j - 1], moves[j - 1], states[j]);
    }
  }

  lemma ExitBound(s: WaitableLoops)
    requires W.Invariant(s.q)
    ensures MovesToExit(s) <= 11
    ensures MovesToExit(s) == 0 <==> s.u.gen.Off?
  {
  }

  /** With the waitable queue: from the step that requests its stop on, the generator's thread makes at most eleven more
      moves until it has exited, steps inside `push` included, even with the queue full and nobody consuming. */
  lemma WaitableStopTerminates(cap: nat, states: seq<WaitableLoops>, moves: seq<Move<W.Step<Message>>>, i: nat, j: nat)
    requires 0 < cap && IsWaitableRun(cap, states, moves) && i < j <= |moves| && moves[i] == Own(Up.GenStop)
    requires forall k :: i < k < j ==> !(moves[k].Own? && moves[k].x.GenStart?)
    ensures GenMoves(moves, i + 1, j) + MovesToExit(states[j]) <= 11
    ensures MovesToExit(states[j]) == 0 <==> states[j].u.gen.Off?
  {
    WaitableLoopsKeep(cap, states, moves, i + 1);
    assert WaitableMove(states[i], moves[i], states[i + 1]);
    forall k | i + 1 <= k < j
      ensures CloserToExit(states[k], moves[k], states[k + 1])
    {
      MoveCloser(states[k], moves[k], states[k + 1]);
    }
    CloserThroughout(states, moves, i + 1, j);
    ExitBound(states[i + 1]);
    ExitBound(states[j]);
  }

  // ---------- the spinning queue ----------

  lemma SpinGeneratorMoves(s: SpinLoops) returns (x: Move<S.SpinStep<Message>>, t: SpinLoops)
    requires S.SpinInvariant(s.q) && Linked(ViewSpin(s)) && Up.WellFormed(s.u) && !s.u.gen.Off?
    ensures SpinMove(s, x, t)
    ensures (x.Own? && Up.IsGenStep(x.x)) || (x.OnQueue? && x.e.SpinPush?)
  {
    if s.u.gen.TryPush? {
      var w := if s.q.ring.p.PIdle? then S.SpinPush(PushCall(s.u.gen.m)) else SpinPushNext(s.q);
      x, t := OnQueue(w), Loops(Answered(s.u, SpinEffect(s.q, w)), S.Spin(s.q, w));
    } else {
      var y := Up.GeneratorNeverStuck(s.u);
      x, t := Own(y), s.(u := Up.Act(s.u, y));
    }
  }

  lemma SpinDisseminatorMoves(s: SpinLoops) returns (x: Move<S.SpinStep<Message>>, t: SpinLoops)
    requires S.SpinInvariant(s.q) && Linked(ViewSpin(s)) && Up.WellFormed(s.u) && !s.u.dis.DisOff?
    ensures SpinMove(s, x, t)
    ensures (x.Own? && (x.x.DisStamp? || x.x.DisSend?)) || (x.OnQueue? && IsSpinPopStep(x.e))
  {
    if s.u.dis.Popping? {
      var w := SpinNext(s.q);
      SpinAlwaysMoves(s.q);
      x, t := OnQueue(w), Loops(Answered(s.u, SpinEffect(s.q, w)), S.Spin(s.q, w));
    } else {
      var y := if s.u.dis.Stamping? then Up.DisStamp else Up.DisSend([0, 0, 0, 0]);
      x, t := Own(y), s.(u := Up.Act(s.u, y));
    }
  }
}
