/** What a stop request does to the receive loop. */
module ReceiverStop {
  import opened SpscRing
  import opened FeedHandler
  import opened Pipeline

  ghost predicate IsReceiverStep(x: Step) {
    x.CheckStop? || x.ReceiveNothing? || x.Receive? || (x.Command? && IsPop(x.a))
  }

  /** The receiver's steps among i to j - 1, and the commands the client publishes in them. */
  ghost function ReceiverSteps(steps: seq<Step>, i: nat, j: nat): nat
    requires i <= j <= |steps|
  {
    if i == j then 0 else ReceiverSteps(steps, i, j - 1) + if IsReceiverStep(steps[j - 1]) then 1 else 0
  }

  ghost function Published(steps: seq<Step>, i: nat, j: nat): nat
    requires i <= j <= |steps|
  {
    if i == j then 0 else Published(steps, i, j - 1) + if steps[j - 1] == Command(StoreWrite) then 1 else 0
  }

  /** Steps left in a drain with n commands published and not taken. */
  ghost function DrainRank(c: Consumer<SubCommand>, n: nat): nat {
    match c
    case CIdle => 6 * n + 5
    case CGotRead(_) => 6 * n + 4
    case CGotWrite(_) => 6 * n + 3
    case CMoved(_, _) => 6 * n + 2
    case CDestroyed(_, _) => 6 * n + 1
    case CDone(result) => if result.Some? then 6 * n + 6 else 3
  }

  ghost function Left(r: Ring<SubCommand>): nat
    requires Inv(r)
  {
    r.write - r.read
  }

  ghost function ReceiverRank(s: State): nat
    requires Inv(s.commands)
  {
    match s.receiver
    case NotRunning => 0
    case LoopTop => 1
    case Receiving => 2
    case Draining => DrainRank(s.commands.c, Left(s.commands))
  }

  ghost predicate Stopping(s: State) { Invariant(s) && s.stop }

  ghost predicate ReceiverNearer(s: State, x: Step, t: State) {
    Stopping(s) ==>
      && Stopping(t)
      && ReceiverRank(t) + (if IsReceiverStep(x) then 1 else 0)
         <= ReceiverRank(s) + if x == Command(StoreWrite) then 6 else 0
  }

  /** Inside the ring: a pop step brings the drain nearer to its end, and a push adds at most one more command. */
  lemma RingNearer(r: Ring<SubCommand>, a: Action<SubCommand>)
    requires Inv(r) && Enabled(r, a) && !a.PopReturn?
    ensures Inv(Apply(r, a))
    ensures DrainRank(Apply(r, a).c, Left(Apply(r, a))) + (if IsPop(a) then 1 else 0)
            <= DrainRank(r.c, Left(r)) + if a.StoreWrite? then 6 else 0
  {
    StepInv(r, a);
    if a.MoveOut? {
      assert LiveAt(r, r.read);
    }
  }

  lemma CommandNearer(s: State, a: Action<SubCommand>)
    requires Invariant(s) && s.stop && Able(s, Command(a))
    ensures Inv(Apply(s.commands, a))
    ensures ReceiverRank(Act(s, Command(a))) + (if IsPop(a) then 1 else 0)
            <= ReceiverRank(s) + if a.StoreWrite? then 6 else 0
  {
    StepInv(s.commands, a);
    if !a.PopReturn? {
      RingNearer(s.commands, a);
    }
  }

  lemma StepNearer(s: State, x: Step)
    requires Invariant(s) && Able(s, x) && !x.StartLoop?
    ensures ReceiverNearer(s, x, Act(s, x))
  {
    StepKeepsInvariant(s, x);
    if x.Command? && s.stop {
      CommandNearer(s, x.a);
    }
  }

  lemma {:induction false} NearerThroughout(states: seq<State>, steps: seq<Step>, i: nat, j: nat)
    requires |states| == |steps| + 1 && i <= j <= |steps| && Stopping(states[i])
    requires forall k :: i <= k < j ==> ReceiverNearer(states[k], steps[k], states[k + 1])
    ensures Stopping(states[j])
    ensures ReceiverSteps(steps, i, j) + ReceiverRank(states[j])
            <= ReceiverRank(states[i]) + 6 * Published(steps, i, j)
    decreases j - i
  {
    if i < j {
      NearerThroughout(states, steps, i, j - 1);
      assert ReceiverNearer(states[j - 1], steps[j - 1], states[j]);
    }
  }

  /** From the step that requests it on, the loop takes at most 774 more steps until it has exited, and six more for
      each command the client still publishes: the drain does not look at the stop token, and 128 commands may be
      waiting. */
  lemma ReceiverStops(cap: nat, states: seq<State>, steps: seq<Step>, i: nat, j: nat)
    requires Pipeline.IsRun(cap, states, steps) && i < j <= |steps| && steps[i].RequestStop?
    requires forall k :: i < k < j ==> !steps[k].StartLoop?
    ensures Invariant(states[j]) && states[j].stop
    ensures ReceiverSteps(steps, i + 1, j) + ReceiverRank(states[j]) <= 774 + 6 * Published(steps, i + 1, j)
    ensures ReceiverRank(states[j]) == 0 <==> states[j].receiver.NotRunning?
  {
    StopIsRecorded(cap, states, steps, i);
    RankBound(cap, states, steps, i + 1);
    AllNearer(cap, states, steps, i + 1, j);
    NearerThroughout(states, steps, i + 1, j);
    RankBound(cap, states, steps, j);
  }

  lemma StopIsRecorded(cap: nat, states: seq<State>, steps: seq<Step>, i: nat)
    requires Pipeline.IsRun(cap, states, steps) && i < |steps| && steps[i].RequestStop?
    ensures states[i + 1].stop
  {
    assert states[i + 1] == Act(states[i], steps[i]);
  }

  lemma AllNearer(cap: nat, states: seq<State>, steps: seq<Step>, i: nat, j: nat)
    requires Pipeline.IsRun(cap, states, steps) && i <= j <= |steps|
    requires forall k :: i <= k < j ==> !steps[k].StartLoop?
    ensures forall k :: i <= k < j ==> ReceiverNearer(states[k], steps[k], states[k + 1])
  {
    forall k | i <= k < j
      ensures ReceiverNearer(states[k], steps[k], states[k + 1])
    {
      RunKeepsInvariant(cap, states, steps, k);
      StepNearer(states[k], steps[k]);
    }
  }

  lemma {:induction false} CommandsCap(cap: nat, states: seq<State>, steps: seq<Step>, n: nat)
    requires Pipeline.IsRun(cap, states, steps) && n <= |steps|
    ensures states[n].commands.cap == 128
  {
    if n > 0 {
      CommandsCap(cap, states, steps, n - 1);
      assert states[n] == Act(states[n - 1], steps[n - 1]);
    }
  }

  lemma RankBound(cap: nat, states: seq<State>, steps: seq<Step>, n: nat)
    requires Pipeline.IsRun(cap, states, steps) && n <= |steps|
    ensures Invariant(states[n]) && ReceiverRank(states[n]) <= 774
    ensures ReceiverRank(states[n]) == 0 <==> states[n].receiver.NotRunning?
  {
    RunKeepsInvariant(cap, states, steps, n);
    CommandsCap(cap, states, steps, n);
    var r := states[n].commands;
    assert r.write <= r.seenRead + r.cap <= r.read + 128;
    assert r.c.CDestroyed? || r.c.CMoved? || r.c.CGotWrite? ==> r.read < r.write;
  }

  /** Until it has exited the loop always has a step to take. */
  lemma ReceiverNeverStuck(s: State) returns (x: Step)
    requires Invariant(s) && !s.receiver.NotRunning?
    ensures IsReceiverStep(x) && Able(s, x)
  {
    match s.receiver
    case LoopTop => x := CheckStop;
    case Receiving => x := ReceiveNothing;
    case Draining =>
      match s.commands.c
      case CIdle => x := Command(PopCall);
      case CGotRead(_) => x := Command(LoadWrite(s.commands.write));
      case CGotWrite(_) => x := Command(MoveOut);
      case CMoved(_, _) => x := Command(Destroy);
      case CDestroyed(_, _) => x := Command(StoreRead);
      case CDone(_) => x := Command(PopReturn);
  }

  lemma StepRuns(s: State, x: Step)
    requires WellFormedState(s) && Able(s, x) && !x.RequestStop? && !s.receiver.NotRunning? && !s.stop
    ensures !Act(s, x).receiver.NotRunning? && !Act(s, x).stop
  {
  }

  /** The receive loop runs until it is stopped. */
  lemma {:induction false} ReceiverRunsUntilStopped(cap: nat, states: seq<State>, steps: seq<Step>, i: nat, j: nat)
    requires Pipeline.IsRun(cap, states, steps) && i < j <= |steps| && steps[i].StartLoop?
    requires forall k :: i < k < j ==> !steps[k].RequestStop?
    ensures !states[j].receiver.NotRunning? && !states[j].stop
    decreases j - i
  {
    if i + 1 < j {
      ReceiverRunsUntilStopped(cap, states, steps, i, j - 1);
      var s, x := states[j - 1], steps[j - 1];
      StepRuns(s, x);
      assert states[j] == Act(s, x);
    }
  }
}
