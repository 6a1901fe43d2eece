/** The whole run: what Upstream sends crosses a network that may lose, repeat and reorder, and reaches the feed
    handler's filter, the client and the latency monitor, all under the same clock, while the client's subscription
    commands come in through their own ring. */
module Pipeline {
  import opened Wrappers
  import opened Words
  import opened SpscRing
  import opened WordRing
  import opened MarketData
  import opened WireFormat
  import opened LatencyMonitor
  import opened FeedHandler
  import opened SubscriptionLog
  import Up = Upstream
  import T = Turns

  /** The receiver thread inside receive_loop_impl. */
  datatype Receiver = NotRunning | LoopTop | Draining | Receiving

  /** stop: the receive loop's stop has been requested; entered: how many commands had been taken when the loop was
      entered; sources[i]: which of the sent datagrams delivered[i] came from. */
  datatype State = State(
    up: Up.State, commands: Ring<SubCommand>, receiver: Receiver, stop: bool, subscriptions: set<U64>, entered: nat,
    delivered: seq<Delivered>, sources: seq<nat>, quotes: seq<LatencyRecord>, trades: seq<LatencyRecord>)

  /** Any sent datagram may arrive at any later time, any number of times. */
  datatype Step =
    | Send(x: Up.Step)
    | Command(a: Action<SubCommand>)
    | StartLoop | RequestStop | CheckStop | ReceiveNothing | Receive(k: nat)

  ghost function Begin(cap: nat): State {
    State(Up.Begin(cap), Init(CommandCapacity), NotRunning, false, {}, 0, [], [], [], [])
  }

  ghost predicate IsPop(a: Action<SubCommand>) {
    a.PopCall? || a.LoadWrite? || a.MoveOut? || a.Destroy? || a.StoreRead? || a.PopReturn?
  }

  ghost predicate Able(s: State, x: Step) {
    match x
    case Send(u) => Up.Able(s.up, u)
    case Command(a) => Enabled(s.commands, a) && (IsPop(a) ==> s.receiver.Draining?)
    case StartLoop => s.receiver.NotRunning?
    case RequestStop => !s.receiver.NotRunning?
    case CheckStop => s.receiver.LoopTop?
    case ReceiveNothing => s.receiver.Receiving?
    case Receive(k) => s.receiver.Receiving? && k < |s.up.sent|
  }

  ghost function Arrive(s: State, k: nat, result: Option<Message>): State
    requires s.up.clock < TwoTo64
  {
    match result
    case None => s
    case Some(m) =>
      var t := s.(delivered := s.delivered + [Delivered(m, s.up.clock)], sources := s.sources + [k]);
      if m.Quote? then t.(quotes := s.quotes + [RecordOf(m, s.up.clock)])
      else t.(trades := s.trades + [RecordOf(m, s.up.clock)])
  }

  ghost predicate WellFormedState(s: State) { Up.WellFormed(s.up) && WellFormed(s.commands) }

  ghost function Act(s: State, x: Step): State
    requires WellFormedState(s) && Able(s, x)
  {
    match x
    case Send(u) => s.(up := Up.Act(s.up, u))
    case Command(a) =>
      s.(commands := Apply(s.commands, a), subscriptions := ObeyResult(s.subscriptions, s.commands, a),
         receiver := if a.PopReturn? && s.commands.c.result.None? then Receiving else s.receiver)
    case StartLoop => s.(receiver := LoopTop, stop := false, subscriptions := {}, entered := |s.commands.popped|)
    case RequestStop => s.(stop := true)
    case CheckStop => s.(receiver := if s.stop then NotRunning else Draining)
    case ReceiveNothing => s.(receiver := LoopTop)
    case Receive(k) =>
      Arrive(s, k, Decode(Received(Datagram(s.up.sent[k], s.up.pads[k])), s.subscriptions)).(receiver := LoopTop)
  }

  /** What was delivered is a sent message, unaltered, received no earlier than it was sent. */
  ghost predicate Genuine(up: Up.State, d: Delivered, source: nat) {
    source < |up.sent| && d.m == up.sent[source] && Causal(d.m, d.at) && d.at <= up.clock
  }

  ghost predicate DeliveriesSound(s: State) {
    && |s.sources| == |s.delivered|
    && (forall i :: 0 <= i < |s.delivered| ==> Genuine(s.up, s.delivered[i], s.sources[i]))
    && s.quotes == Records(s.delivered, true) && s.trades == Records(s.delivered, false)
  }

  /** While the loop runs, its set is the fold of the commands it has been handed since it was entered; and when it
      comes to receive, those are all the commands it could see. */
  ghost predicate SubscriptionsSound(s: State) {
    && Inv(s.commands)
    && (!s.receiver.Draining? ==> s.commands.c.CIdle?)
    && (s.receiver.Receiving? ==> s.commands.seenWrite == s.commands.read)
    && (!s.receiver.NotRunning? ==>
          && s.entered <= |Obeyed(s.commands)|
          && s.subscriptions == ObeyAll({}, Obeyed(s.commands)[s.entered..]))
  }

  ghost predicate Invariant(s: State) {
    Up.Invariant(s.up) && DeliveriesSound(s) && SubscriptionsSound(s)
  }

  lemma DeliveryIsSound(s: State, k: nat)
    requires Up.WellFormed(s.up) && Up.TimestampsSound(s.up) && DeliveriesSound(s) && k < |s.up.sent|
    ensures DeliveriesSound(Arrive(s, k, Some(s.up.sent[k])))
  {
    var m, t := s.up.sent[k], Arrive(s, k, Some(s.up.sent[k]));
    var d := Delivered(m, s.up.clock);
    assert Genuine(s.up, d, k);
    assert t.delivered == s.delivered + [d];
    RecordsSnoc(s.delivered, d, true);
    RecordsSnoc(s.delivered, d, false);
  }

  /** What arrives is delivered as it was sent exactly when the filter lets it through. */
  lemma ArrivalDecoded(s: State, k: nat)
    requires Invariant(s) && Able(s, Receive(k))
    ensures Act(s, Receive(k))
            == (if Pack(s.up.sent[k].symbol) in s.subscriptions then Arrive(s, k, Some(s.up.sent[k])) else s)
               .(receiver := LoopTop)
  {
    WireRoundTrip(s.up.sent[k], s.up.pads[k], s.subscriptions);
  }

  lemma ArriveKeepsInvariant(s: State, k: nat)
    requires Invariant(s) && Able(s, Receive(k))
    ensures Invariant(Act(s, Receive(k)))
  {
    ArrivalDecoded(s, k);
    DeliveryIsSound(s, k);
  }

  lemma SendKeepsInvariant(s: State, u: Up.Step)
    requires Invariant(s) && Able(s, Send(u))
    ensures Invariant(Act(s, Send(u)))
  {
    Up.StepKeepsInvariant(s.up, u);
    Up.SentGrows(s.up, u);
    forall i | 0 <= i < |s.delivered| ensures Genuine(Up.Act(s.up, u), s.delivered[i], s.sources[i]) {
      assert Genuine(s.up, s.delivered[i], s.sources[i]);
    }
  }

  lemma CommandKeepsSubscriptions(s: State, a: Action<SubCommand>)
    requires SubscriptionsSound(s) && WellFormedState(s) && Able(s, Command(a))
    ensures SubscriptionsSound(Act(s, Command(a)))
  {
    StepInv(s.commands, a);
    if !s.receiver.NotRunning? {
      ObeyStep(s.commands, a, s.entered, s.subscriptions);
    }
  }

  lemma LoopKeepsSubscriptions(s: State, x: Step)
    requires SubscriptionsSound(s) && WellFormedState(s) && Able(s, x) && !x.Command? && !x.Send? && !x.Receive?
    ensures SubscriptionsSound(Act(s, x))
  {
    assert Obeyed(s.commands)[|Obeyed(s.commands)|..] == [];
  }

  lemma StepKeepsInvariant(s: State, x: Step)
    requires Invariant(s) && Able(s, x)
    ensures Invariant(Act(s, x))
  {
    match x
    case Send(u) => SendKeepsInvariant(s, u);
    case Receive(k) => ArriveKeepsInvariant(s, k);
    case Command(a) => CommandKeepsSubscriptions(s, a);
    case _ => LoopKeepsSubscriptions(s, x);
  }

  ghost predicate IsRun(cap: nat, states: seq<State>, steps: seq<Step>) {
    && |states| == |steps| + 1
    && states[0] == Begin(cap)
    && (forall i :: 0 <= i < |steps| ==>
          WellFormedState(states[i]) && Able(states[i], steps[i]) && states[i + 1] == Act(states[i], steps[i]))
  }

  lemma {:induction false} RunKeepsInvariant(cap: nat, states: seq<State>, steps: seq<Step>, n: nat)
    requires IsRun(cap, states, steps) && n <= |steps|
    ensures Invariant(states[n])
  {
    if n == 0 {
      InitInv<SubCommand>(CommandCapacity);
    } else {
      RunKeepsInvariant(cap, states, steps, n - 1);
      StepKeepsInvariant(states[n - 1], steps[n - 1]);
    }
  }

  // ---------- the parts ----------

  /** What the first n steps do upstream, and on the command ring. */
  ghost function Sends(steps: seq<Step>, n: nat): seq<Up.Step>
    requires n <= |steps|
  {
    if n == 0 then [] else Sends(steps, n - 1) + if steps[n - 1].Send? then [steps[n - 1].x] else []
  }

  ghost function Commands(steps: seq<Step>, n: nat): seq<Action<SubCommand>>
    requires n <= |steps|
  {
    if n == 0 then [] else Commands(steps, n - 1) + if steps[n - 1].Command? then [steps[n - 1].a] else []
  }

  /** Upstream runs as it would alone: what is proved of its runs holds in the whole run. */
  lemma {:induction false} UpstreamPart(cap: nat, states: seq<State>, steps: seq<Step>, n: nat) returns (us: seq<Up.State>)
    requires IsRun(cap, states, steps) && n <= |steps|
    ensures Up.IsRun(cap, us, Sends(steps, n)) && us[|Sends(steps, n)|] == states[n].up
  {
    if n == 0 {
      us := [Up.Begin(cap)];
    } else {
      us := UpstreamPart(cap, states, steps, n - 1);
      UpPartStep(states[n - 1], steps[n - 1]);
      if steps[n - 1].Send? {
        Up.RunSnoc(cap, us, Sends(steps, n - 1), steps[n - 1].x);
        us := us + [Up.Act(states[n - 1].up, steps[n - 1].x)];
      }
    }
  }

  lemma UpPartStep(s: State, x: Step)
    requires WellFormedState(s) && Able(s, x)
    ensures Act(s, x).up == if x.Send? then Up.Act(s.up, x.x) else s.up
  {
  }

  /** And so does the command ring. */
  lemma {:induction false} CommandPart(cap: nat, states: seq<State>, steps: seq<Step>, n: nat)
    returns (rs: seq<Ring<SubCommand>>)
    requires IsRun(cap, states, steps) && n <= |steps|
    ensures SpscRing.IsRun(CommandCapacity, rs, Commands(steps, n)) && rs[|Commands(steps, n)|] == states[n].commands
  {
    if n == 0 {
      rs := [Init(CommandCapacity)];
    } else {
      rs := CommandPart(cap, states, steps, n - 1);
      RingPartStep(states[n - 1], steps[n - 1]);
      if steps[n - 1].Command? {
        SpscRing.RunSnoc(CommandCapacity, rs, Commands(steps, n - 1), steps[n - 1].a);
        rs := rs + [Apply(states[n - 1].commands, steps[n - 1].a)];
      }
    }
  }

  lemma RingPartStep(s: State, x: Step)
    requires WellFormedState(s) && Able(s, x)
    ensures Act(s, x).commands == if x.Command? then Apply(s.commands, x.a) else s.commands
  {
  }

  // ---------- causality ----------

  /** The clock readings of the first n steps at which the generator, or the disseminator, wrote a time. */
  ghost function GenReadings(states: seq<State>, steps: seq<Step>, n: nat): set<nat>
    requires n <= |steps| < |states|
  {
    if n == 0 then {}
    else GenReadings(states, steps, n - 1) + if steps[n - 1] == Send(Up.GenStamp) then {states[n - 1].up.clock} else {}
  }

  ghost function DisReadings(states: seq<State>, steps: seq<Step>, n: nat): set<nat>
    requires n <= |steps| < |states|
  {
    if n == 0 then {}
    else DisReadings(states, steps, n - 1) + if steps[n - 1] == Send(Up.DisStamp) then {states[n - 1].up.clock} else {}
  }

  lemma {:induction false} SentTimesWereRead(cap: nat, states: seq<State>, steps: seq<Step>, n: nat)
    requires IsRun(cap, states, steps) && n <= |steps|
    ensures T.TimesRead(states[n].up, GenReadings(states, steps, n), DisReadings(states, steps, n))
  {
    if n > 0 {
      SentTimesWereRead(cap, states, steps, n - 1);
      TimesReadStep(states[n - 1], steps[n - 1], GenReadings(states, steps, n - 1), DisReadings(states, steps, n - 1));
    }
  }

  lemma TimesReadStep(s: State, x: Step, gens: set<nat>, diss: set<nat>)
    requires WellFormedState(s) && Able(s, x) && T.TimesRead(s.up, gens, diss)
    ensures T.TimesRead(Act(s, x).up, gens + (if x == Send(Up.GenStamp) then {s.up.clock} else {}),
                        diss + if x == Send(Up.DisStamp) then {s.up.clock} else {})
  {
    if x.Send? {
      T.TimesReadStep(s.up, x.x, gens, diss);
    } else {
      assert Act(s, x).up == s.up;
    }
  }

  /** Timestamp causality, in every state of every run: what is delivered was sent, unaltered, its timestamps are
      readings of the clock taken at a generator's and at a disseminator's timestamp step, and in order, so any record
      that measures it holds true durations that add up; and the monitor holds just the records of the deliveries. */
  lemma Causality(cap: nat, states: seq<State>, steps: seq<Step>, i: nat, k: nat, r: LatencyRecord)
    requires IsRun(cap, states, steps) && i <= |steps| && k < |states[i].delivered|
    requires Measures(r, states[i].delivered[k].m, states[i].delivered[k].at)
    ensures var d := states[i].delivered[k];
            && d.m in states[i].up.sent
            && d.m.enqueued <= d.m.disseminated <= d.at <= states[i].up.clock
            && r.queueNs == d.m.disseminated - d.m.enqueued && r.networkNs == d.at - d.m.disseminated
            && r.totalNs == r.queueNs + r.networkNs
            && d.m.enqueued in GenReadings(states, steps, i) && d.m.disseminated in DisReadings(states, steps, i)
    ensures states[i].quotes == Records(states[i].delivered, true)
    ensures states[i].trades == Records(states[i].delivered, false)
  {
    RunKeepsInvariant(cap, states, steps, i);
    var d := states[i].delivered[k];
    assert Genuine(states[i].up, d, states[i].sources[k]);
    RecordAddsUp(r, d.m, d.at);
    SentTimesWereRead(cap, states, steps, i);
  }

  /** The commands in force when the loop receives: all it has seen published since it was entered. */
  ghost function InForce(s: State): seq<SubCommand>
    requires Invariant(s) && s.receiver.Receiving?
  {
    s.commands.pushed[s.entered..s.commands.seenWrite]
  }

  lemma SetInForce(s: State)
    requires Invariant(s) && s.receiver.Receiving?
    ensures s.subscriptions == ObeyAll({}, InForce(s))
  {
    assert Obeyed(s.commands) == s.commands.popped == s.commands.pushed[..s.commands.seenWrite];
    assert Obeyed(s.commands)[s.entered..] == InForce(s);
  }

  /** What a step hands to the client. */
  ghost function Handed(s: State, x: Step): seq<Delivered>
    requires Invariant(s) && Able(s, x)
  {
    if x.Receive? && Pack(s.up.sent[x.k].symbol) in ObeyAll({}, InForce(s))
    then [Delivered(s.up.sent[x.k], s.up.clock)] else []
  }

  lemma StepHands(s: State, x: Step)
    requires Invariant(s) && Able(s, x)
    ensures Act(s, x).delivered == s.delivered + Handed(s, x)
  {
    if x.Receive? {
      SetInForce(s);
      ArrivalDecoded(s, x.k);
    }
  }

  /** The filter, at every step of every run: the client is handed something exactly when a datagram arrives whose
      symbol is in the fold of all the commands the drain before it could see, and then it is handed the message that
      was sent. */
  lemma FilterRespected(cap: nat, states: seq<State>, steps: seq<Step>, i: nat)
    requires IsRun(cap, states, steps) && i < |steps|
    ensures Invariant(states[i]) && states[i + 1].delivered == states[i].delivered + Handed(states[i], steps[i])
  {
    RunKeepsInvariant(cap, states, steps, i);
    StepHands(states[i], steps[i]);
  }

  /** No later load in between. */
  ghost predicate SeesNoMore(r: Ring<SubCommand>, u: Ring<SubCommand>) {
    u.seenWrite == r.seenWrite && r.pushed <= u.pushed
  }

  lemma RingSees(r: Ring<SubCommand>, a: Action<SubCommand>)
    requires WellFormed(r) && Enabled(r, a) && !a.LoadWrite?
    ensures SeesNoMore(r, Apply(r, a))
  {
  }

  lemma StepSees(s: State, x: Step)
    requires WellFormedState(s) && Able(s, x) && !(x.Command? && x.a.LoadWrite?)
    ensures SeesNoMore(s.commands, Act(s, x).commands)
  {
    if x.Command? {
      RingSees(s.commands, x.a);
    } else {
      assert Act(s, x).commands == s.commands;
    }
  }

  lemma {:induction false} SeesNoMoreThroughout(states: seq<State>, i: nat, j: nat)
    requires i <= j < |states|
    requires forall k :: i <= k < j ==> SeesNoMore(states[k].commands, states[k + 1].commands)
    ensures SeesNoMore(states[i].commands, states[j].commands)
    decreases j - i
  {
    if i < j {
      SeesNoMoreThroughout(states, i, j - 1);
    }
  }

  /** Which commands those are: between the drain's last load and the reception, the loop looks no further. */
  lemma SeenUpTo(cap: nat, states: seq<State>, steps: seq<Step>, i: nat, j: nat, v: nat)
    requires IsRun(cap, states, steps) && i < j <= |steps| && steps[i] == Command(LoadWrite(v))
    requires forall k :: i < k < j && steps[k].Command? ==> !steps[k].a.LoadWrite?
    ensures states[j].commands.seenWrite == v && states[i].commands.pushed <= states[j].commands.pushed
  {
    forall k | i + 1 <= k < j
      ensures SeesNoMore(states[k].commands, states[k + 1].commands)
    {
      StepSees(states[k], steps[k]);
    }
    SeesNoMoreThroughout(states, i + 1, j);
    assert states[i + 1] == Act(states[i], Command(LoadWrite(v)));
  }

  /** If that load was current, every command published before it is in force. */
  lemma CurrentDrainObeysAll(cap: nat, states: seq<State>, steps: seq<Step>, i: nat, j: nat, v: nat)
    requires IsRun(cap, states, steps) && i < j < |steps| && steps[i] == Command(LoadWrite(v)) && steps[j].Receive?
    requires forall k :: i < k < j && steps[k].Command? ==> !steps[k].a.LoadWrite?
    requires v == states[i].commands.write
    ensures Invariant(states[j]) && states[j].entered <= |states[i].commands.pushed|
    ensures InForce(states[j]) == states[i].commands.pushed[states[j].entered..]
  {
    SeenUpTo(cap, states, steps, i, j, v);
    RunKeepsInvariant(cap, states, steps, i);
    RunKeepsInvariant(cap, states, steps, j);
  }
}
