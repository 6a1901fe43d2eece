/** What whole turns of the generator's and the disseminator's loops do, and what time they write. */
module Turns {
  import opened Words
  import opened MarketData
  import opened BaseGenerator
  import opened Upstream

  ghost predicate Leads(s: State, x: Step, t: State) { WellFormed(s) && Able(s, x) && t == Act(s, x) }

  /** Steps from state s on. */
  ghost predicate IsPath(s: State, states: seq<State>, steps: seq<Step>) {
    && |states| == |steps| + 1 && states[0] == s
    && forall i :: 0 <= i < |steps| ==> Leads(states[i], steps[i], states[i + 1])
  }

  /** Four steps, one by one. */
  lemma FourSteps(s: State, a: State, b: State, c: State, d: State, x: Step, y: Step, z: Step, w: Step)
    requires Leads(s, x, a) && Leads(a, y, b) && Leads(b, z, c) && Leads(c, w, d)
    ensures IsPath(s, [s, a, b, c, d], [x, y, z, w])
  {
  }

  lemma Concat(s: State, states1: seq<State>, steps1: seq<Step>, states2: seq<State>, steps2: seq<Step>)
    requires IsPath(s, states1, steps1) && IsPath(states1[|steps1|], states2, steps2)
    ensures IsPath(s, states1 + states2[1..], steps1 + steps2)
  {
    var states, steps := states1 + states2[1..], steps1 + steps2;
    forall i | 0 <= i < |steps|
      ensures Leads(states[i], steps[i], states[i + 1])
    {
      var n := |steps1|;
      if i < n {
        assert Leads(states1[i], steps1[i], states1[i + 1]);
      } else {
        assert Leads(states2[i - n], steps2[i - n], states2[i - n + 1]);
      }
    }
  }

  // ---------- turns ----------

  /** With a message due, room in the queue and no stop requested, one turn generates a message, writes the time into
      it and puts it at the end of the queue; the next one is due an interval later. */
  lemma GenTurn(s: State, m: Message, now: nat) returns (states: seq<State>, steps: seq<Step>, made: Message)
    requires WellFormed(s) && s.gen.CheckStop? && !s.current.stopRequested
    requires s.next <= s.clock <= now < TwoTo64 && |s.queue| < s.cap
    ensures steps == [GenCheck, GenRead, GenMake(m), Tick(now), GenStamp, GenRetry, GenPush, GenAdvance]
    ensures IsPath(s, states, steps) && EnqueuedAt(m, made, now)
    ensures states[8] == s.(clock := now, queue := s.queue + [made], next := s.next + s.interval,
                            current := s.current.(made := s.current.made + [made]))
  {
    made := Stamp(m, now);
    var drawn := s.(clock := now, gen := Timestamp(m));
    var ss1 := Draw(s, m, now);
    var ss2 := Place(drawn);
    Concat(s, ss1, [GenCheck, GenRead, GenMake(m), Tick(now)], ss2, [GenStamp, GenRetry, GenPush, GenAdvance]);
    states, steps := ss1 + ss2[1..], [GenCheck, GenRead, GenMake(m), Tick(now)] + [GenStamp, GenRetry, GenPush, GenAdvance];
  }

  lemma Draw(s: State, m: Message, now: nat) returns (states: seq<State>)
    requires WellFormed(s) && s.gen.CheckStop? && !s.current.stopRequested && s.next <= s.clock <= now < TwoTo64
    ensures IsPath(s, states, [GenCheck, GenRead, GenMake(m), Tick(now)])
    ensures states[4] == s.(clock := now, gen := Timestamp(m))
  {
    var a, b, c, d := s.(gen := ReadClock), s.(gen := Make), s.(gen := Timestamp(m)), s.(clock := now, gen := Timestamp(m));
    FourSteps(s, a, b, c, d, GenCheck, GenRead, GenMake(m), Tick(now));
    states := [s, a, b, c, d];
  }

  lemma Place(s: State) returns (states: seq<State>)
    requires WellFormed(s) && s.gen.Timestamp? && !s.current.stopRequested && |s.queue| < s.cap
    ensures IsPath(s, states, [GenStamp, GenRetry, GenPush, GenAdvance])
    ensures var made := Stamp(s.gen.m, s.clock);
            states[4] == s.(gen := CheckStop, queue := s.queue + [made], next := s.next + s.interval,
                            current := s.current.(made := s.current.made + [made]))
  {
    var made := Stamp(s.gen.m, s.clock);
    var t := s.(current := s.current.(made := s.current.made + [made]));
    var u := t.(queue := s.queue + [made]);
    var a, b, c, d := t.(gen := Retry(made)), t.(gen := TryPush(made)), u.(gen := Advance),
                      u.(gen := CheckStop, next := s.next + s.interval);
    FourSteps(s, a, b, c, d, GenStamp, GenRetry, GenPush, GenAdvance);
    states := [s, a, b, c, d];
  }

  /** With nothing due a turn changes nothing. */
  lemma IdleTurn(s: State) returns (states: seq<State>)
    requires WellFormed(s) && s.gen.CheckStop? && !s.current.stopRequested && s.clock < s.next
    ensures IsPath(s, states, [GenCheck, GenRead]) && states[2] == s
  {
    states := [s, s.(gen := ReadClock), s];
  }

  /** With a full queue the retry loop goes round and changes nothing. */
  lemma RetryTurn(s: State) returns (states: seq<State>)
    requires WellFormed(s) && s.gen.Retry? && !s.current.stopRequested && s.cap <= |s.queue|
    ensures IsPath(s, states, [GenRetry, GenPush]) && states[2] == s
  {
    states := [s, s.(gen := TryPush(s.gen.m)), s];
  }

  /** A turn of the disseminator takes the oldest message, writes the time into it and sends it. */
  lemma DisTurn(s: State, now: nat, pad: Bytes) returns (states: seq<State>, steps: seq<Step>, sent: Message)
    requires WellFormed(s) && s.dis.Popping? && s.queue != [] && s.clock <= now < TwoTo64 && |pad| == 4
    ensures steps == [DisPop, Tick(now), DisStamp, DisSend(pad)]
    ensures IsPath(s, states, steps) && DisseminatedAt(s.queue[0], sent, now)
    ensures states[4] == s.(clock := now, queue := s.queue[1..], sent := s.sent + [sent], pads := s.pads + [pad])
  {
    steps := [DisPop, Tick(now), DisStamp, DisSend(pad)];
    sent := D.Stamped(s.queue[0], now);
    var t := s.(queue := s.queue[1..]);
    var a, b := t.(dis := Stamping(s.queue[0])), t.(clock := now, dis := Stamping(s.queue[0]));
    var c, d := t.(clock := now, dis := Sending(sent)),
                t.(clock := now, sent := s.sent + [sent], pads := s.pads + [pad]);
    FourSteps(s, a, b, c, d, DisPop, Tick(now), DisStamp, DisSend(pad));
    states := [s, a, b, c, d];
  }

  // ---------- what is written, in any interleaving ----------

  /** Between a message's generation and its timestamp the generator holds just that message. */
  lemma {:induction false} HoldsMade(cap: nat, states: seq<State>, steps: seq<Step>, i: nat, j: nat)
    requires IsRun(cap, states, steps) && i < j <= |steps| && steps[i].GenMake?
    requires forall k :: i < k < j ==> !steps[k].GenMake?
    ensures states[j].gen.Timestamp? ==> states[j].gen.m == steps[i].m
    decreases j - i
  {
    if i + 1 < j {
      HoldsMade(cap, states, steps, i, j - 1);
    }
  }

  /** What a session adds to its messages is the message last generated, with the clock's reading as its enqueue time. */
  lemma EnqueueTime(cap: nat, states: seq<State>, steps: seq<Step>, i: nat, j: nat)
    requires IsRun(cap, states, steps) && i < j < |steps| && steps[i].GenMake? && steps[j].GenStamp?
    requires forall k :: i < k < j ==> !steps[k].GenMake?
    ensures var before, after := states[j].current.made, states[j + 1].current.made;
            before < after && |after| == |before| + 1
            && EnqueuedAt(steps[i].m, after[|before|], states[j].clock)
  {
    HoldsMade(cap, states, steps, i, j);
  }

  lemma {:induction false} HoldsPopped(cap: nat, states: seq<State>, steps: seq<Step>, i: nat, j: nat)
    requires IsRun(cap, states, steps) && i < j <= |steps| && steps[i].DisPop?
    requires forall k :: i < k < j ==> !steps[k].DisPop?
    ensures states[j].dis.Stamping? ==> states[j].dis.m == states[i].queue[0]
    decreases j - i
  {
    if i + 1 < j {
      HoldsPopped(cap, states, steps, i, j - 1);
    }
  }

  /** What the disseminator is about to send is the message it popped, with the clock's reading as its dissemination
      time. */
  lemma DisseminateTime(cap: nat, states: seq<State>, steps: seq<Step>, i: nat, j: nat)
    requires IsRun(cap, states, steps) && i < j < |steps| && steps[i].DisPop? && steps[j].DisStamp?
    requires forall k :: i < k < j ==> !steps[k].DisPop?
    ensures states[j + 1].dis.Sending? && states[i].queue != []
    ensures DisseminatedAt(states[i].queue[0], states[j + 1].dis.m, states[j].clock)
  {
    HoldsPopped(cap, states, steps, i, j);
  }

  /** The clock readings of the first n steps at which the generator, or the disseminator, wrote a time. */
  ghost function GenReadings(states: seq<State>, steps: seq<Step>, n: nat): set<nat>
    requires n <= |steps| < |states|
  {
    if n == 0 then {}
    else GenReadings(states, steps, n - 1) + if steps[n - 1].GenStamp? then {states[n - 1].clock} else {}
  }

  ghost function DisReadings(states: seq<State>, steps: seq<Step>, n: nat): set<nat>
    requires n <= |steps| < |states|
  {
    if n == 0 then {}
    else DisReadings(states, steps, n - 1) + if steps[n - 1].DisStamp? then {states[n - 1].clock} else {}
  }

  /** Every time on its way is a reading that was taken for it. */
  ghost predicate TimesRead(s: State, gens: set<nat>, diss: set<nat>) {
    && (forall i :: 0 <= i < |s.queue| ==> s.queue[i].enqueued in gens)
    && (Awaiting(s.gen) != [] ==> s.gen.m.enqueued in gens)
    && (InFlight(s.dis) != [] ==> s.dis.m.enqueued in gens)
    && (s.dis.Sending? ==> s.dis.m.disseminated in diss)
    && (forall i :: 0 <= i < |s.sent| ==> s.sent[i].enqueued in gens && s.sent[i].disseminated in diss)
  }

  lemma TimesReadStep(s: State, x: Step, gens: set<nat>, diss: set<nat>)
    requires WellFormed(s) && Able(s, x) && TimesRead(s, gens, diss)
    ensures TimesRead(Act(s, x), gens + (if x.GenStamp? then {s.clock} else {}),
                      diss + if x.DisStamp? then {s.clock} else {})
  {
  }

  /** In every state of every run: the two times in each message sent are readings of the clock taken at a generator's
      and at a disseminator's timestamp step. */
  lemma {:induction false} SentTimesWereRead(cap: nat, states: seq<State>, steps: seq<Step>, n: nat)
    requires IsRun(cap, states, steps) && n <= |steps|
    ensures TimesRead(states[n], GenReadings(states, steps, n), DisReadings(states, steps, n))
  {
    if n > 0 {
      SentTimesWereRead(cap, states, steps, n - 1);
      TimesReadStep(states[n - 1], steps[n - 1], GenReadings(states, steps, n - 1), DisReadings(states, steps, n - 1));
    }
  }

  // ---------- after a stop ----------

  /** The message a turn past its stop check may still generate. */
  ghost function Unfinished(g: GenPc): nat { if g.ReadClock? || g.Make? || g.Timestamp? then 1 else 0 }

  lemma UnfinishedStep(s: State, x: Step)
    requires WellFormed(s) && Able(s, x) && s.current.stopRequested && !x.GenStart?
    ensures Act(s, x).current.stopRequested
    ensures Unfinished(Act(s, x).gen) + (if x.GenStamp? then 1 else 0) <= Unfinished(s.gen)
  {
  }

  /** From the stop request on, a session generates at most the message of the turn it is in. */
  lemma {:induction false} AtMostOneMore(cap: nat, states: seq<State>, steps: seq<Step>, i: nat, j: nat)
    requires IsRun(cap, states, steps) && i < j <= |steps| && steps[i].GenStop?
    requires forall k :: i < k < j ==> !steps[k].GenStart?
    ensures Stamps(steps, i + 1, j) + Unfinished(states[j].gen) <= Unfinished(states[i].gen)
    ensures states[j].current.stopRequested
    decreases j - i
  {
    if i + 1 < j {
      AtMostOneMore(cap, states, steps, i, j - 1);
      var s, x := states[j - 1], steps[j - 1];
      UnfinishedStep(s, x);
      assert states[j] == Act(s, x);
    }
  }

  /** Whenever no session runs one can be started, and stopped again at once: it then generates nothing and leaves all
      messages where they are. */
  lemma EmptySession(s: State, interval: nat) returns (states: seq<State>)
    requires WellFormed(s) && s.gen.Off?
    ensures IsPath(s, states, [GenStart(interval), GenStop, GenCheck])
    ensures states[3] == s.(past := s.past + [s.current], current := Session([], true, false),
                            start := s.clock, next := s.clock, interval := interval)
  {
    var t := s.(past := s.past + [s.current], start := s.clock, next := s.clock, interval := interval);
    states := [s, t.(gen := CheckStop, current := Session([], false, false)),
               t.(gen := CheckStop, current := Session([], true, false)),
               t.(current := Session([], true, false))];
  }

  /** The same for the disseminator. */
  lemma EmptyDissemination(s: State) returns (states: seq<State>)
    requires WellFormed(s) && s.dis.DisOff?
    ensures IsPath(s, states, [DisStart, DisStop, DisQuit]) && states[3] == s.(disStop := true)
  {
    states := [s, s.(dis := Popping, disStop := false), s.(dis := Popping, disStop := true), s.(disStop := true)];
  }

  /** A session stopped before its first check generates nothing. */
  lemma StoppedAtOnce(cap: nat, states: seq<State>, steps: seq<Step>, i: nat, j: nat)
    requires IsRun(cap, states, steps) && 0 < i < j <= |steps| && steps[i - 1].GenStart? && steps[i].GenStop?
    requires forall k :: i < k < j ==> !steps[k].GenStart?
    ensures Stamps(steps, i + 1, j) == 0
  {
    AtMostOneMore(cap, states, steps, i, j);
    assert states[i].gen.CheckStop?;
  }

  /** The generator is off only before its first session or after a stop request; so is every session but the current
      one. */
  lemma OffOnlyWhenStopped(cap: nat, states: seq<State>, steps: seq<Step>, i: nat, j: nat)
    requires IsRun(cap, states, steps) && i < j <= |steps| && steps[i].GenStart? && states[j].gen.Off?
    ensures states[j].current.stopRequested
    ensures forall k :: 0 < k < |states[j].past| ==> states[j].past[k].stopRequested
  {
    RunKeepsInvariant(cap, states, steps, j);
    PastGrows(cap, states, steps, i + 1, j);
  }

  lemma {:induction false} PastGrows(cap: nat, states: seq<State>, steps: seq<Step>, i: nat, j: nat)
    requires IsRun(cap, states, steps) && i <= j <= |steps|
    ensures |states[i].past| <= |states[j].past|
    decreases j - i
  {
    if i < j {
      PastGrows(cap, states, steps, i, j - 1);
    }
  }

  // ---------- without a stop ----------

  lemma GenStepRuns(s: State, x: Step)
    requires WellFormed(s) && Able(s, x) && !x.GenStop? && !s.gen.Off? && !s.current.stopRequested
    ensures !Act(s, x).gen.Off? && !Act(s, x).current.stopRequested
  {
  }

  /** A generator session runs until it is stopped. */
  lemma {:induction false} GeneratorRunsUntilStopped(cap: nat, states: seq<State>, steps: seq<Step>, i: nat, j: nat)
    requires IsRun(cap, states, steps) && i < j <= |steps| && steps[i].GenStart?
    requires forall k :: i < k < j ==> !steps[k].GenStop?
    ensures !states[j].gen.Off? && !states[j].current.stopRequested
    decreases j - i
  {
    if i + 1 < j {
      GeneratorRunsUntilStopped(cap, states, steps, i, j - 1);
      var s, x := states[j - 1], steps[j - 1];
      GenStepRuns(s, x);
      assert states[j] == Act(s, x);
    }
  }

  lemma DisStepRuns(s: State, x: Step)
    requires WellFormed(s) && Able(s, x) && !x.DisStop? && !s.dis.DisOff? && !s.disStop
    ensures !Act(s, x).dis.DisOff? && !Act(s, x).disStop
  {
  }

  /** And so does the disseminator's. */
  lemma {:induction false} DisseminatorRunsUntilStopped(cap: nat, states: seq<State>, steps: seq<Step>, i: nat, j: nat)
    requires IsRun(cap, states, steps) && i < j <= |steps| && steps[i].DisStart?
    requires forall k :: i < k < j ==> !steps[k].DisStop?
    ensures !states[j].dis.DisOff? && !states[j].disStop
    decreases j - i
  {
    if i + 1 < j {
      DisseminatorRunsUntilStopped(cap, states, steps, i, j - 1);
      var s, x := states[j - 1], steps[j - 1];
      DisStepRuns(s, x);
      assert states[j] == Act(s, x);
    }
  }
}
