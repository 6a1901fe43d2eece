/** What whole turns of the receive loop do. */
module ReceiverTurns {
  import opened Wrappers
  import opened SpscRing
  import opened FeedHandler
  import opened WireFormat
  import opened LatencyMonitor
  import opened Pipeline

  ghost predicate Leads(s: State, x: Step, t: State) { WellFormedState(s) && Able(s, x) && t == Act(s, x) }

  /** Steps from state s on. */
  ghost predicate IsPath(s: State, states: seq<State>, steps: seq<Step>) {
    && |states| == |steps| + 1 && states[0] == s
    && forall i :: 0 <= i < |steps| ==> Leads(states[i], steps[i], states[i + 1])
  }

  /** Whenever the loop does not run it can be started, with nobody subscribed, and stopped again at once. */
  lemma EmptyLoop(s: State) returns (states: seq<State>)
    requires WellFormedState(s) && s.receiver.NotRunning?
    ensures IsPath(s, states, [StartLoop, RequestStop, CheckStop])
    ensures states[3] == s.(stop := true, subscriptions := {}, entered := |s.commands.popped|)
  {
    var t := s.(subscriptions := {}, entered := |s.commands.popped|);
    states := [s, t.(receiver := LoopTop, stop := false), t.(receiver := LoopTop, stop := true), t.(stop := true)];
  }

  lemma Then(s: State, states: seq<State>, steps: seq<Step>, x: Step) returns (states': seq<State>, steps': seq<Step>)
    requires IsPath(s, states, steps) && WellFormedState(states[|steps|]) && Able(states[|steps|], x)
    ensures IsPath(s, states', steps') && steps' == steps + [x]
    ensures states'[|steps'|] == Act(states[|steps|], x)
  {
    var t := Act(states[|steps|], x);
    states', steps' := states + [t], steps + [x];
    assert Leads(states[|steps|], x, t);
    forall i | 0 <= i < |steps'|
      ensures Leads(states'[i], steps'[i], states'[i + 1])
    {
      if i < |steps| {
        assert states'[i] == states[i] && steps'[i] == steps[i] && states'[i + 1] == states[i + 1];
      }
    }
  }

  /** One step of a pop of the command ring, short of its return. */
  lemma ThenPop(s: State, states: seq<State>, steps: seq<Step>, a: Action<SubCommand>)
    returns (states': seq<State>, steps': seq<Step>)
    requires IsPath(s, states, steps)
    requires var l := states[|steps|];
             WellFormedState(l) && l.receiver.Draining? && Inv(l.commands) && Enabled(l.commands, a)
    requires IsPop(a) && !a.PopReturn?
    ensures IsPath(s, states', steps') && steps' == steps + [Command(a)]
    ensures var l, t := states[|steps|], states'[|steps'|];
            t == l.(commands := Apply(l.commands, a)) && Inv(t.commands) && WellFormedState(t)
  {
    var l := states[|steps|];
    StepInv(l.commands, a);
    states', steps' := Then(s, states, steps, Command(a));
  }

  /** With no command waiting, a drain finds that out at once. */
  lemma EmptyDrain(s: State) returns (states: seq<State>, steps: seq<Step>)
    requires Invariant(s) && s.receiver.Draining? && s.commands.c.CIdle? && s.commands.popped == s.commands.pushed
    ensures IsPath(s, states, steps)
    ensures steps == [Command(PopCall), Command(LoadWrite(s.commands.write)), Command(PopReturn)]
    ensures states[3] == s.(receiver := Receiving, commands := s.commands.(seenWrite := s.commands.write))
  {
    states, steps := ThenPop(s, [s], [], PopCall);
    states, steps := ThenPop(s, states, steps, LoadWrite(s.commands.write));
    assert states[2].commands == s.commands.(seenWrite := s.commands.write, c := CDone(None));
    states, steps := Then(s, states, steps, Command(PopReturn));
  }

  /** A reception: a datagram for a subscribed symbol goes to the client with the time of its reception, any other one
      nowhere, and either way the loop starts its next turn. */
  lemma Reception(s: State, k: nat) returns (states: seq<State>)
    requires Invariant(s) && s.receiver.Receiving? && k < |s.up.sent|
    ensures IsPath(s, states, [Receive(k)])
    ensures var t := states[1];
            && t.up == s.up && t.subscriptions == s.subscriptions && t.receiver.LoopTop? && t.stop == s.stop
            && t.commands == s.commands
            && t.delivered == s.delivered + if Pack(s.up.sent[k].symbol) in s.subscriptions
                                            then [Delivered(s.up.sent[k], s.up.clock)] else []
  {
    ReceptionStep(s, k);
    states := [s, Act(s, Receive(k))];
  }

  lemma ReceptionStep(s: State, k: nat)
    requires Invariant(s) && s.receiver.Receiving? && k < |s.up.sent|
    ensures var t := Act(s, Receive(k));
            && t.up == s.up && t.subscriptions == s.subscriptions && t.receiver.LoopTop? && t.stop == s.stop
            && t.commands == s.commands
            && t.delivered == s.delivered + if Pack(s.up.sent[k].symbol) in s.subscriptions
                                            then [Delivered(s.up.sent[k], s.up.clock)] else []
  {
    ArrivalDecoded(s, k);
  }

  /** With commands waiting, the drain takes and obeys the oldest one and goes on. */
  lemma DrainOne(s: State) returns (states: seq<State>, steps: seq<Step>)
    requires WellFormedState(s) && Inv(s.commands) && s.receiver.Draining? && s.commands.c.CIdle?
    requires |s.commands.popped| < |s.commands.pushed|
    ensures steps == [Command(PopCall), Command(LoadWrite(s.commands.write)), Command(MoveOut), Command(Destroy),
                      Command(StoreRead), Command(PopReturn)]
    ensures IsPath(s, states, steps)
    ensures var t := states[6];
            var cmd := s.commands.pushed[|s.commands.popped|];
            && t.commands.popped == s.commands.popped + [cmd] && t.commands.pushed == s.commands.pushed
            && t.subscriptions == (if cmd.isSubscribe then s.subscriptions + {cmd.id} else s.subscriptions - {cmd.id})
            && t == s.(commands := t.commands, subscriptions := t.subscriptions)
            && t.commands.c.CIdle? && t.commands.p == s.commands.p && t.commands.cap == s.commands.cap
            && WellFormedState(t) && Inv(t.commands)
  {
    states, steps := TakeOne(s);
    StepInv(states[5].commands, PopReturn);
    states, steps := Then(s, states, steps, Command(PopReturn));
  }

  /** The ring's own part of it. */
  lemma RingFinds(r: Ring<SubCommand>)
    requires Inv(r) && r.c.CIdle? && |r.popped| < |r.pushed|
    ensures var u := Apply(r, PopCall);
            && Enabled(u, LoadWrite(r.write))
            && Apply(u, LoadWrite(r.write)) == r.(seenWrite := r.write, c := CGotWrite(r.read))
  {
  }

  lemma RingTakes(r: Ring<SubCommand>)
    requires Inv(r) && r.c.CGotWrite?
    ensures |r.popped| < |r.pushed|
    ensures Apply(r, MoveOut) == r.(c := CMoved(r.read, r.pushed[|r.popped|]))
  {
    assert LiveAt(r, r.read);
  }

  lemma TakeOne(s: State) returns (states: seq<State>, steps: seq<Step>)
    requires WellFormedState(s) && Inv(s.commands) && s.receiver.Draining? && s.commands.c.CIdle?
    requires |s.commands.popped| < |s.commands.pushed|
    ensures steps == [Command(PopCall), Command(LoadWrite(s.commands.write)), Command(MoveOut), Command(Destroy),
                      Command(StoreRead)]
    ensures IsPath(s, states, steps)
    ensures var t := states[5];
            var cmd := s.commands.pushed[|s.commands.popped|];
            && t == s.(commands := t.commands) && Inv(t.commands) && t.commands.c == CDone(Some(cmd))
            && t.commands.popped == s.commands.popped + [cmd] && t.commands.pushed == s.commands.pushed
            && t.commands.p == s.commands.p && t.commands.cap == s.commands.cap && WellFormedState(t)
  {
    RingFinds(s.commands);
    states, steps := ThenPop(s, [s], [], PopCall);
    states, steps := ThenPop(s, states, steps, LoadWrite(s.commands.write));
    RingTakes(states[2].commands);
    states, steps := ThenPop(s, states, steps, MoveOut);
    states, steps := FinishTake(s, states, steps);
  }

  lemma FinishTake(s: State, states0: seq<State>, steps0: seq<Step>) returns (states: seq<State>, steps: seq<Step>)
    requires IsPath(s, states0, steps0)
    requires var l := states0[|steps0|];
             WellFormedState(l) && l.receiver.Draining? && Inv(l.commands) && l.commands.c.CMoved?
    ensures IsPath(s, states, steps) && steps == steps0 + [Command(Destroy), Command(StoreRead)]
    ensures var l, t := states0[|steps0|], states[|steps|];
            && t == l.(commands := t.commands) && Inv(t.commands) && t.commands.c == CDone(Some(l.commands.c.item))
            && t.commands.popped == l.commands.popped + [l.commands.c.item] && t.commands.pushed == l.commands.pushed
            && t.commands.p == l.commands.p && t.commands.cap == l.commands.cap && WellFormedState(t)
  {
    states, steps := ThenPop(s, states0, steps0, Destroy);
    states, steps := ThenPop(s, states, steps, StoreRead);
  }

  // ---------- a client that never stops calling ----------

  lemma ThenPush(s: State, states: seq<State>, steps: seq<Step>, a: Action<SubCommand>)
    returns (states': seq<State>, steps': seq<Step>)
    requires IsPath(s, states, steps)
    requires var l := states[|steps|]; WellFormedState(l) && Inv(l.commands) && Enabled(l.commands, a)
    requires !IsPop(a)
    ensures IsPath(s, states', steps') && steps' == steps + [Command(a)]
    ensures var l, t := states[|steps|], states'[|steps'|];
            t == l.(commands := Apply(l.commands, a)) && Inv(t.commands) && WellFormedState(t)
  {
    var l := states[|steps|];
    StepInv(l.commands, a);
    states', steps' := Then(s, states, steps, Command(a));
  }

  /** A whole call of the client, with room in the queue. */
  lemma ClientCall(s: State, cmd: SubCommand) returns (states: seq<State>, steps: seq<Step>)
    requires WellFormedState(s) && Inv(s.commands) && s.commands.p.PIdle?
    requires |s.commands.pushed| - |s.commands.popped| < s.commands.cap
    ensures IsPath(s, states, steps) && |steps| == 5
    ensures var t := states[5];
            && t == s.(commands := t.commands) && WellFormedState(t) && Inv(t.commands)
            && t.commands.pushed == s.commands.pushed + [cmd] && t.commands.popped == s.commands.popped
            && t.commands.p.PIdle? && t.commands.c == s.commands.c && t.commands.cap == s.commands.cap
  {
    RingHasRoom(s.commands, cmd);
    states, steps := ThenPush(s, [s], [], PushCall(cmd));
    states, steps := ThenPush(s, states, steps, LoadRead(s.commands.read));
    states, steps := FinishCall(s, states, steps);
  }

  lemma RingHasRoom(r: Ring<SubCommand>, cmd: SubCommand)
    requires Inv(r) && r.p.PIdle? && |r.pushed| - |r.popped| < r.cap
    ensures var u := Apply(r, PushCall(cmd));
            && Enabled(u, LoadRead(r.read))
            && Apply(u, LoadRead(r.read)) == r.(seenRead := r.read, p := PGotRead(cmd, r.write))
  {
  }

  lemma FinishCall(s: State, states0: seq<State>, steps0: seq<Step>) returns (states: seq<State>, steps: seq<Step>)
    requires IsPath(s, states0, steps0)
    requires var l := states0[|steps0|]; WellFormedState(l) && Inv(l.commands) && l.commands.p.PGotRead?
    ensures IsPath(s, states, steps) && |steps| == |steps0| + 3
    ensures var l, t := states0[|steps0|], states[|steps|];
            && t == l.(commands := t.commands) && WellFormedState(t) && Inv(t.commands)
            && t.commands.pushed == l.commands.pushed + [l.commands.p.item] && t.commands.popped == l.commands.popped
            && t.commands.p.PIdle? && t.commands.c == l.commands.c && t.commands.cap == l.commands.cap
  {
    states, steps := ThenPush(s, states0, steps0, Construct);
    states, steps := ThenPush(s, states, steps, StoreWrite);
    states, steps := ThenPush(s, states, steps, PushReturn);
  }

  lemma Concat(s: State, states1: seq<State>, steps1: seq<Step>, states2: seq<State>, steps2: seq<Step>)
    returns (states: seq<State>, steps: seq<Step>)
    requires IsPath(s, states1, steps1) && IsPath(states1[|steps1|], states2, steps2)
    ensures IsPath(s, states, steps) && steps == steps1 + steps2 && states[|steps|] == states2[|steps2|]
  {
    states, steps := states1 + states2[1..], steps1 + steps2;
    forall i | 0 <= i < |steps|
      ensures Leads(states[i], steps[i], states[i + 1])
    {
      var n := |steps1|;
      if i < n {
        assert Leads(states1[i], steps1[i], states1[i + 1]);
      } else {
        assert Leads(states2[i - n], steps2[i - n], states2[i - n + 1]);
      }
    }
  }

  /** However long: if the client makes a call for every command taken, the loop is still in the same drain after n
      calls, although its stop was requested before. */
  lemma {:induction false} DrainWithoutEnd(s: State, cmd: SubCommand, n: nat) returns (states: seq<State>, steps: seq<Step>)
    requires WellFormedState(s) && Inv(s.commands) && s.receiver.Draining? && s.stop
    requires s.commands.c.CIdle? && s.commands.p.PIdle?
    requires |s.commands.pushed| - |s.commands.popped| < s.commands.cap
    ensures IsPath(s, states, steps) && |steps| == 11 * n
    ensures var t := states[11 * n]; t.receiver.Draining? && t.stop
    ensures |states[11 * n].commands.popped| == |s.commands.popped| + n
    decreases n
  {
    if n == 0 {
      states, steps := [s], [];
    } else {
      var ss1, xs1 := ClientCall(s, cmd);
      var ss2, xs2 := DrainOne(ss1[5]);
      var ss3, xs3 := DrainWithoutEnd(ss2[6], cmd, n - 1);
      var ss, xs := Concat(ss1[5], ss2, xs2, ss3, xs3);
      states, steps := Concat(s, ss1, xs1, ss, xs);
    }
  }
}
