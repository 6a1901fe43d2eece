/** Generator, queue and disseminator, interleaved step by step under one steady clock.  The queue is the atomic
    bounded FIFO that both wrappers refine. */
module Upstream {
  import opened Words
  import opened MarketData
  import opened BaseGenerator
  import D = Disseminator

  /** The generator thread inside generation_loop. */
  datatype GenPc =
    | Off | CheckStop | ReadClock | Make
    | Timestamp(m: Message)
    | Retry(m: Message)  // while (!stop_requested && ...
    | TryPush(m: Message)
    | Advance

  /** The disseminator thread inside run_loop. */
  datatype DisPc = DisOff | Popping | Stamping(m: Message) | Sending(m: Message)

  /** One start-to-stop session of the generator: what it generated, whether its stop was requested, and whether
      the last message was given up. */
  datatype Session = Session(made: seq<Message>, stopRequested: bool, gaveUpLast: bool)

  /** Everything up to the network.  pads[i] is what was in the padding of sent[i]. */
  datatype State = State(
    clock: nat, cap: nat, queue: seq<Message>,
    gen: GenPc, past: seq<Session>, current: Session, start: nat, next: nat, interval: nat,
    dis: DisPc, disStop: bool, sent: seq<Message>, pads: seq<Bytes>)

  datatype Step =
    | Tick(to: nat)
    | GenStart(interval: nat) | GenStop
    | GenCheck | GenRead | GenMake(m: Message) | GenStamp | GenRetry | GenPush | GenAdvance
    | DisStart | DisStop | DisPop | DisQuit | DisStamp | DisSend(pad: Bytes)

  const Fresh: Session := Session([], false, false)

  /** Before the first start the current session is an empty one. */
  ghost function Begin(cap: nat): State {
    State(0, cap, [], Off, [], Fresh, 0, 0, 0, DisOff, false, [], [])
  }

  ghost predicate Able(s: State, x: Step) {
    match x
    case Tick(to) => s.clock <= to < TwoTo64
    case GenStart(_) => s.gen.Off?
    case GenStop => !s.gen.Off?
    case GenCheck => s.gen.CheckStop?
    case GenRead => s.gen.ReadClock?
    case GenMake(_) => s.gen.Make?
    case GenStamp => s.gen.Timestamp?
    case GenRetry => s.gen.Retry?
    case GenPush => s.gen.TryPush?
    case GenAdvance => s.gen.Advance?
    case DisStart => s.dis.DisOff?
    case DisStop => !s.dis.DisOff?
    case DisPop => s.dis.Popping? && s.queue != []
    case DisQuit => s.dis.Popping? && s.disStop
    case DisStamp => s.dis.Stamping?
    case DisSend(pad) => s.dis.Sending? && |pad| == 4
  }

  /** Fields that only make sense together. */
  ghost predicate WellFormed(s: State) {
    && s.clock < TwoTo64
    && |s.pads| == |s.sent| && (forall i :: 0 <= i < |s.pads| ==> |s.pads[i]| == 4)
  }

  ghost function Act(s: State, x: Step): State
    requires WellFormed(s) && Able(s, x)
  {
    match x
    case Tick(to) => s.(clock := to)
    case GenStart(interval) =>
      s.(gen := CheckStop, past := s.past + [s.current], current := Fresh,
         start := s.clock, next := s.clock, interval := interval)
    case GenStop => s.(current := s.current.(stopRequested := true))
    case GenCheck => s.(gen := if s.current.stopRequested then Off else ReadClock)
    case GenRead => s.(gen := if s.clock >= s.next then Make else CheckStop)
    case GenMake(m) => s.(gen := Timestamp(m))
    case GenStamp =>
      var m := Stamp(s.gen.m, s.clock);
      s.(current := s.current.(made := s.current.made + [m]), gen := Retry(m))
    case GenRetry =>
      if s.current.stopRequested then s.(current := s.current.(gaveUpLast := true), gen := Advance)
      else s.(gen := TryPush(s.gen.m))
    case GenPush =>
      if |s.queue| < s.cap then s.(queue := s.queue + [s.gen.m], gen := Advance) else s.(gen := Retry(s.gen.m))
    case GenAdvance => s.(next := s.next + s.interval, gen := CheckStop)
    case DisStart => s.(dis := Popping, disStop := false)
    case DisStop => s.(disStop := true)
    case DisPop => s.(queue := s.queue[1..], dis := Stamping(s.queue[0]))
    case DisQuit => s.(dis := DisOff)
    case DisStamp => s.(dis := Sending(D.Stamped(s.dis.m, s.clock)))
    case DisSend(pad) => s.(sent := s.sent + [s.dis.m], pads := s.pads + [pad], dis := Popping)
  }

  // ---------- conservation ----------

  /** What a session puts into the queue: everything it generated, except a last message given up. */
  ghost function KeptBy(c: Session): seq<Message> {
    if c.gaveUpLast && c.made != [] then c.made[..|c.made| - 1] else c.made
  }

  ghost function KeptByAll(sessions: seq<Session>): seq<Message> {
    if sessions == [] then [] else KeptByAll(sessions[..|sessions| - 1]) + KeptBy(sessions[|sessions| - 1])
  }

  ghost function Kept(s: State): seq<Message> { KeptByAll(s.past) + KeptBy(s.current) }

  /** Everything on its way or sent, oldest first. */
  ghost function Underway(s: State): seq<Message> {
    s.sent + InFlight(s.dis) + s.queue + Awaiting(s.gen)
  }

  ghost function Awaiting(g: GenPc): seq<Message> {
    if g.Retry? || g.TryPush? then [g.m] else []
  }

  ghost function InFlight(d: DisPc): seq<Message> {
    if d.Stamping? || d.Sending? then [d.m] else []
  }

  ghost function BareOne(m: Message): Message { m.(disseminated := 0) }

  /** Messages with the disseminator's timestamp left out of account. */
  ghost function Bare(ms: seq<Message>): (bs: seq<Message>)
    ensures |bs| == |ms| && forall i :: 0 <= i < |ms| ==> bs[i] == BareOne(ms[i])
  {
    seq(|ms|, i requires 0 <= i < |ms| => BareOne(ms[i]))
  }

  /** Every message not given up is in exactly one place, in generation order: sent, in the disseminator's hands,
      queued, or about to be pushed. */
  ghost predicate Conserved(s: State) { Bare(Kept(s)) == Bare(Underway(s)) }

  ghost predicate GaveUpRightly(c: Session) { c.gaveUpLast ==> c.stopRequested && c.made != [] }

  /** A session gives up at most its last message, and only once its stop was requested; and it ends only then. */
  ghost predicate SessionsSound(s: State) {
    && (forall i :: 0 <= i < |s.past| ==> GaveUpRightly(s.past[i]))
    && (forall i :: 0 < i < |s.past| ==> s.past[i].stopRequested)
    && (s.gen.Off? ==> s.current.stopRequested || s.past == [])
    && GaveUpRightly(s.current)
    && (s.current.gaveUpLast ==> s.gen.Advance? || s.gen.CheckStop? || s.gen.Off?)
    && (Awaiting(s.gen) != [] ==> s.current.made != [] && s.current.made[|s.current.made| - 1] == s.gen.m)
  }

  /** The loop body between a message's timestamp and the end of the turn. */
  ghost predicate AfterStamp(g: GenPc) { g.Retry? || g.TryPush? || g.Advance? }

  ghost predicate Pacing(s: State) {
    !s.gen.Off? ==>
      var ticks := |s.current.made|;
      && Paced(s.start, s.interval, ticks, s.clock)
      && (if AfterStamp(s.gen) then 0 < ticks && s.next == s.start + (ticks - 1) * s.interval
          else s.next == s.start + ticks * s.interval)
      && (s.gen.Make? || s.gen.Timestamp? ==> s.next <= s.clock)
  }

  ghost predicate TimestampsSound(s: State) {
    && (forall i :: 0 <= i < |s.queue| ==> s.queue[i].enqueued <= s.clock)
    && (Awaiting(s.gen) != [] ==> s.gen.m.enqueued <= s.clock)
    && (s.dis.Stamping? ==> s.dis.m.enqueued <= s.clock)
    && (s.dis.Sending? ==> s.dis.m.enqueued <= s.dis.m.disseminated <= s.clock)
    && (forall i :: 0 <= i < |s.sent| ==> s.sent[i].enqueued <= s.sent[i].disseminated <= s.clock)
  }

  ghost predicate Invariant(s: State) {
    WellFormed(s) && Conserved(s) && SessionsSound(s) && Pacing(s) && TimestampsSound(s)
  }

  lemma BareInit(a: seq<Message>, b: seq<Message>, m: Message)
    requires Bare(a + [m]) == Bare(b + [m])
    ensures Bare(a) == Bare(b)
  {
    assert |a| == |a + [m]| - 1 == |Bare(a + [m])| - 1 == |b|;
    forall i | 0 <= i < |a| ensures Bare(a)[i] == Bare(b)[i] {
      assert Bare(a + [m])[i] == Bare(b + [m])[i];
    }
  }

  lemma BareSnoc(a: seq<Message>, b: seq<Message>, m: Message)
    requires Bare(a) == Bare(b)
    ensures Bare(a + [m]) == Bare(b + [m])
  {
    assert |Bare(a)| == |Bare(b)|;
    forall i | 0 <= i < |a| ensures BareOne(a[i]) == BareOne(b[i]) {
      assert Bare(a)[i] == Bare(b)[i];
    }
  }

  /** Generating adds a message on both sides; `earlier` are the messages of the sessions before. */
  lemma StampConserves(s: State, earlier: seq<Message>)
    requires WellFormed(s) && SessionsSound(s) && Able(s, GenStamp)
    requires Bare(earlier + KeptBy(s.current)) == Bare(Underway(s))
    ensures Bare(earlier + KeptBy(Act(s, GenStamp).current)) == Bare(Underway(Act(s, GenStamp)))
  {
    var t := Act(s, GenStamp);
    assert !s.current.gaveUpLast;
    assert earlier + KeptBy(t.current) == (earlier + KeptBy(s.current)) + [t.gen.m];
    assert Underway(t) == Underway(s) + [t.gen.m];
    BareSnoc(earlier + KeptBy(s.current), Underway(s), t.gen.m);
  }

  /** Giving up takes the same message from both. */
  lemma GiveUpConserves(s: State, earlier: seq<Message>)
    requires WellFormed(s) && SessionsSound(s) && Able(s, GenRetry) && s.current.stopRequested
    requires Bare(earlier + KeptBy(s.current)) == Bare(Underway(s))
    ensures Bare(earlier + KeptBy(Act(s, GenRetry).current)) == Bare(Underway(Act(s, GenRetry)))
  {
    var t := Act(s, GenRetry);
    assert !s.current.gaveUpLast;
    assert s.current.made == KeptBy(t.current) + [s.gen.m];
    assert earlier + KeptBy(s.current) == (earlier + KeptBy(t.current)) + [s.gen.m];
    assert Underway(s) == Underway(t) + [s.gen.m];
    BareInit(earlier + KeptBy(t.current), Underway(t), s.gen.m);
  }

  lemma ConservedByGenerator(s: State, x: Step)
    requires WellFormed(s) && Conserved(s) && SessionsSound(s) && Able(s, x) && (x.GenStamp? || x.GenRetry?)
    ensures Conserved(Act(s, x))
  {
    if x.GenStamp? {
      StampConserves(s, KeptByAll(s.past));
    } else if s.current.stopRequested {
      GiveUpConserves(s, KeptByAll(s.past));
    } else {
      UnderwayOf(s, Act(s, x));
    }
  }

  lemma UnderwayOf(s: State, t: State)
    requires t.sent == s.sent && t.dis == s.dis && t.queue == s.queue && Awaiting(t.gen) == Awaiting(s.gen)
    ensures Underway(t) == Underway(s)
  {
  }

  lemma KeptUnchanged(s: State, x: Step)
    requires WellFormed(s) && Able(s, x) && !x.GenStamp? && !x.GenRetry?
    ensures Kept(Act(s, x)) == Kept(s)
  {
    if x.GenStart? {
      assert (s.past + [s.current])[..|s.past|] == s.past;
      assert KeptBy(Fresh) == [];
    }
  }

  /** A step that hands a message on, changing no message but the one being stamped. */
  lemma UnderwayMoves(s: State, x: Step)
    requires WellFormed(s) && Able(s, x)
    requires x.GenPush? || x.DisPop? || x.DisStamp? || x.DisSend?
    ensures Bare(Underway(Act(s, x))) == Bare(Underway(s))
  {
    var t := Act(s, x);
    if x.DisStamp? {
      var rest := s.queue + Awaiting(s.gen);
      assert Underway(s) == s.sent + [s.dis.m] + rest && Underway(t) == s.sent + [t.dis.m] + rest;
      assert BareOne(t.dis.m) == BareOne(s.dis.m);
    } else {
      assert Underway(t) == Underway(s);
    }
  }

  lemma UnderwayStays(s: State, x: Step)
    requires WellFormed(s) && Able(s, x) && !x.GenStamp? && !x.GenRetry?
    requires !x.GenPush? && !x.DisPop? && !x.DisStamp? && !x.DisSend?
    ensures Underway(Act(s, x)) == Underway(s)
  {
    var t := Act(s, x);
    assert t.sent == s.sent && t.queue == s.queue;
    assert InFlight(t.dis) == InFlight(s.dis) && Awaiting(t.gen) == Awaiting(s.gen);
  }

  /** Every other step only moves messages along. */
  lemma ConservedByTransport(s: State, x: Step)
    requires WellFormed(s) && Conserved(s) && Able(s, x) && !x.GenStamp? && !x.GenRetry?
    ensures Conserved(Act(s, x))
  {
    KeptUnchanged(s, x);
    if x.GenPush? || x.DisPop? || x.DisStamp? || x.DisSend? {
      UnderwayMoves(s, x);
    } else {
      UnderwayStays(s, x);
    }
  }

  /** Within a session: the ones before it stay as they were. */
  lemma SessionsByGenerator(s: State, x: Step)
    requires WellFormed(s) && SessionsSound(s) && Able(s, x) && IsGenStep(x)
    ensures SessionsSound(Act(s, x))
  {
    assert Act(s, x).past == s.past;
  }

  lemma SessionsByStartOrStop(s: State, x: Step)
    requires WellFormed(s) && SessionsSound(s) && Able(s, x) && (x.GenStart? || x.GenStop?)
    ensures SessionsSound(Act(s, x))
  {
  }

  lemma SessionsStep(s: State, x: Step)
    requires WellFormed(s) && SessionsSound(s) && Able(s, x)
    ensures WellFormed(Act(s, x)) && SessionsSound(Act(s, x))
  {
    if IsGenStep(x) {
      SessionsByGenerator(s, x);
    } else if x.GenStart? || x.GenStop? {
      SessionsByStartOrStop(s, x);
    } else {
      assert Act(s, x).past == s.past && Act(s, x).current == s.current && Act(s, x).gen == s.gen;
    }
  }

  lemma PacingStep(s: State, x: Step)
    requires WellFormed(s) && Pacing(s) && Able(s, x)
    ensures Pacing(Act(s, x))
  {
    if x.GenAdvance? {
      var ticks := |s.current.made|;
      assert ticks * s.interval == (ticks - 1) * s.interval + s.interval;
    }
  }

  /** A generator step can only add what it has just stamped. */
  lemma TimestampsByGenerator(s: State, x: Step)
    requires WellFormed(s) && TimestampsSound(s) && Able(s, x) && IsGenStep(x)
    ensures TimestampsSound(Act(s, x))
  {
  }

  lemma TimestampsStep(s: State, x: Step)
    requires WellFormed(s) && TimestampsSound(s) && Able(s, x)
    ensures TimestampsSound(Act(s, x))
  {
    if IsGenStep(x) {
      TimestampsByGenerator(s, x);
    }
  }

  lemma StepKeepsInvariant(s: State, x: Step)
    requires Invariant(s) && Able(s, x)
    ensures Invariant(Act(s, x))
  {
    if x.GenStamp? || x.GenRetry? {
      ConservedByGenerator(s, x);
    } else {
      ConservedByTransport(s, x);
    }
    SessionsStep(s, x);
    PacingStep(s, x);
    TimestampsStep(s, x);
  }

  /** The clock never goes back and nothing sent is ever unsent. */
  lemma SentGrows(s: State, x: Step)
    requires WellFormed(s) && Able(s, x)
    ensures s.clock <= Act(s, x).clock && s.sent <= Act(s, x).sent
  {
  }

  // ---------- whole runs ----------

  ghost predicate IsRun(cap: nat, states: seq<State>, steps: seq<Step>) {
    && |states| == |steps| + 1
    && states[0] == Begin(cap)
    && (forall i :: 0 <= i < |steps| ==>
          WellFormed(states[i]) && Able(states[i], steps[i]) && states[i + 1] == Act(states[i], steps[i]))
  }

  lemma {:induction false} RunKeepsInvariant(cap: nat, states: seq<State>, steps: seq<Step>, n: nat)
    requires IsRun(cap, states, steps) && n <= |steps|
    ensures Invariant(states[n])
  {
    if n > 0 {
      RunKeepsInvariant(cap, states, steps, n - 1);
      StepKeepsInvariant(states[n - 1], steps[n - 1]);
    }
  }

  /** A run can go on with any step that is possible in its last state. */
  lemma RunSnoc(cap: nat, states: seq<State>, steps: seq<Step>, x: Step)
    requires IsRun(cap, states, steps) && WellFormed(states[|steps|]) && Able(states[|steps|], x)
    ensures IsRun(cap, states + [Act(states[|steps|], x)], steps + [x])
  {
    var ss, xs := states + [Act(states[|steps|], x)], steps + [x];
    forall i | 0 <= i < |xs|
      ensures WellFormed(ss[i]) && Able(ss[i], xs[i]) && ss[i + 1] == Act(ss[i], xs[i])
    {
      assert i < |steps| ==> ss[i] == states[i] && xs[i] == steps[i] && ss[i + 1] == states[i + 1];
    }
  }

  /** Conservation and order, in every state of every run. */
  lemma Conservation(cap: nat, states: seq<State>, steps: seq<Step>)
    requires IsRun(cap, states, steps)
    ensures forall i :: 0 <= i < |states| ==> Conserved(states[i]) && SessionsSound(states[i])
  {
    forall i | 0 <= i < |states| ensures Invariant(states[i]) {
      RunKeepsInvariant(cap, states, steps, i);
    }
  }

  /** Shut down the way run_benchmark_pipeline does it: generator stopped, then disseminator.  All that was kept
      has been sent, in order, except what a stopped pop left in the queue. */
  lemma AfterShutdown(cap: nat, states: seq<State>, steps: seq<Step>, i: nat)
    requires IsRun(cap, states, steps) && i <= |steps| && states[i].gen.Off? && states[i].dis.DisOff?
    ensures Bare(Kept(states[i])) == Bare(states[i].sent + states[i].queue)
    ensures |states[i].sent| + |states[i].queue| == |Kept(states[i])|
  {
    RunKeepsInvariant(cap, states, steps, i);
    assert Underway(states[i]) == states[i].sent + states[i].queue;
  }

  /** How many messages steps i to j - 1 generate. */
  ghost function Stamps(steps: seq<Step>, i: nat, j: nat): nat
    requires i <= j <= |steps|
  {
    if i == j then 0 else Stamps(steps, i, j - 1) + if steps[j - 1].GenStamp? then 1 else 0
  }

  lemma CountStep(s: State, x: Step)
    requires WellFormed(s) && Able(s, x) && !x.GenStart?
    ensures Act(s, x).start == s.start && Act(s, x).interval == s.interval
    ensures |Act(s, x).current.made| == |s.current.made| + if x.GenStamp? then 1 else 0
  {
  }

  /** A session remembers its first clock reading and its interval, and counts its messages. */
  lemma {:induction false} SessionCounts(cap: nat, states: seq<State>, steps: seq<Step>, i: nat, j: nat)
    requires IsRun(cap, states, steps) && i < j <= |steps| && steps[i].GenStart?
    requires forall k :: i < k < j ==> !steps[k].GenStart?
    ensures states[j].start == states[i].clock && states[j].interval == steps[i].interval
    ensures |states[j].current.made| == Stamps(steps, i + 1, j)
    decreases j - i
  {
    if i + 1 < j {
      SessionCounts(cap, states, steps, i, j - 1);
      var s, x := states[j - 1], steps[j - 1];
      CountStep(s, x);
      assert states[j] == Act(s, x);
    }
  }

  /** No drift in the running pipeline, for a session begun in step i with any interval: a clock reading finds nothing
      due exactly when one message per full interval since the start has been generated, and one more, however long
      pushes had to wait. */
  lemma PacingInRun(cap: nat, states: seq<State>, steps: seq<Step>, i: nat, j: nat, interval: nat)
    requires IsRun(cap, states, steps) && i < j < |steps|
    requires steps[i] == GenStart(interval) && 0 < interval && steps[j].GenRead?
    requires forall k :: i < k < j ==> !steps[k].GenStart?
    ensures states[i].clock <= states[j].clock
    ensures states[j + 1].gen.CheckStop?
            <==> Stamps(steps, i + 1, j) == (states[j].clock - states[i].clock) / interval + 1
  {
    SessionCounts(cap, states, steps, i, j);
    RunKeepsInvariant(cap, states, steps, j);
    var s := states[j];
    IdleIffCaughtUp(s.start, s.interval, |s.current.made|, s.clock);
  }

  // ---------- stopping the generator ----------

  ghost predicate IsGenStep(x: Step) {
    x.GenCheck? || x.GenRead? || x.GenMake? || x.GenStamp? || x.GenRetry? || x.GenPush? || x.GenAdvance?
  }

  /** The most steps the generator thread can still take once its stop is requested. */
  ghost function StepsToExit(g: GenPc): nat {
    match g
    case Off => 0
    case CheckStop => 1
    case Advance => 2
    case Retry(_) => 3
    case TryPush(_) => 4
    case Timestamp(_) => 4
    case Make => 5
    case ReadClock => 6
  }

  /** How many of steps i to j - 1 are the generator's. */
  ghost function GenSteps(steps: seq<Step>, i: nat, j: nat): nat
    requires i <= j <= |steps|
  {
    if i == j then 0 else GenSteps(steps, i, j - 1) + if IsGenStep(steps[j - 1]) then 1 else 0
  }

  /** Until it is off, the generator always has a step to take, whatever the queue and the other threads do. */
  lemma GeneratorNeverStuck(s: State) returns (x: Step)
    requires !s.gen.Off?
    ensures IsGenStep(x) && Able(s, x)
  {
    match s.gen
    case CheckStop => x := GenCheck;
    case ReadClock => x := GenRead;
    case Make => x := GenMake(Trade([0, 0, 0, 0, 0, 0, 0, 0], 0, 0, 0, 0));
    case Timestamp(_) => x := GenStamp;
    case Retry(_) => x := GenRetry;
    case TryPush(_) => x := GenPush;
    case Advance => x := GenAdvance;
  }

  /** Stop terminates: from the step that requests it on, the session's thread takes at most six more steps until it
      has exited, even with the queue full and nobody consuming. */
  lemma {:induction false} StopTerminates(cap: nat, states: seq<State>, steps: seq<Step>, i: nat, j: nat)
    requires IsRun(cap, states, steps) && i < j <= |steps| && steps[i].GenStop?
    requires forall k :: i < k < j ==> !steps[k].GenStart?
    ensures states[j].current.stopRequested
    ensures GenSteps(steps, i + 1, j) + StepsToExit(states[j].gen) <= 6
    ensures GenSteps(steps, i + 1, j) == 6 ==> states[j].gen.Off?
    decreases j - i
  {
    if i + 1 < j {
      StopTerminates(cap, states, steps, i, j - 1);
      AfterStopStep(states[j - 1], steps[j - 1]);
    }
  }

  lemma AfterStopStep(s: State, x: Step)
    requires WellFormed(s) && Able(s, x) && s.current.stopRequested && !x.GenStart?
    ensures Act(s, x).current.stopRequested
    ensures StepsToExit(Act(s, x).gen) + (if IsGenStep(x) then 1 else 0) <= StepsToExit(s.gen)
  {
  }
}
