/** Generator and disseminator around the queue they really share: calls, steps inside the queue, and returns, all
    interleaved.  Seen from outside it is Upstream, whose queue is one atomic step. */
module LoopsOverQueue {
  import opened Wrappers
  import opened SpscRing
  import opened MarketData
  import opened AtomicFifo
  import opened StoppableFifo
  import opened WrapperRefinement
  import W = WaitableSpscQueue
  import S = SpinSpscQueue
  import Up = Upstream

  /** `u` holds the loops (its queue field is not used); TryPush and Popping last as long as the call does. */
  datatype Loops<+Q> = Loops(u: Up.State, q: Q)

  datatype Move<+E> = Own(x: Up.Step) | Restart | OnQueue(e: E)

  /** The loops' steps outside the queue. */
  ghost predicate IsOwn(u: Up.State, x: Up.Step) {
    && !x.GenPush? && !x.DisStart? && !x.DisStop? && !x.DisPop? && !x.DisQuit?
    && Up.WellFormed(u) && Up.Able(u, x)
  }

  /** Who may call the queue when, and with what. */
  ghost predicate MayCall(u: Up.State, e: Effect<Message>) {
    match e
    case Of(CallPush(m)) => u.gen == Up.TryPush(m)
    case Of(CallPop) => u.dis.Popping?
    case RequestStop => !u.dis.DisOff?
    case _ => true
  }

  /** What the loops do with an answer. */
  ghost function Answered(u: Up.State, e: Effect<Message>): Up.State {
    match e
    case Of(ReturnPush(ok)) =>
      if u.gen.TryPush? then u.(gen := if ok then Up.Advance else Up.Retry(u.gen.m)) else u
    case Of(ReturnPop(result)) => u.(dis := if result.Some? then Up.Stamping(result.value) else Up.DisOff)
    case _ => u
  }

  // ---------- around the specification object ----------

  ghost predicate LoopsStep(s: Loops<Blocking<Message>>, x: Move<Effect<Message>>, t: Loops<Blocking<Message>>) {
    match x
    case Own(y) => IsOwn(s.u, y) && t == s.(u := Up.Act(s.u, y))
    case Restart => s.u.dis.DisOff? && t == Loops(s.u.(dis := Up.Popping), s.q.(stopped := false))
    case OnQueue(e) => MayCall(s.u, e) && BlockingStep(s.q, e, t.q) && t.u == Answered(s.u, e)
  }

  /** Calls under way belong to the loops, and nobody gives up without a stop. */
  ghost predicate Linked(s: Loops<Blocking<Message>>) {
    && (!s.q.fifo.p.PushIdle? ==> s.u.gen.TryPush?)
    && (s.q.fifo.p.PushCalled? ==> s.u.gen.m == s.q.fifo.p.item)
    && (!s.q.fifo.c.PopIdle? ==> s.u.dis.Popping?)
    && (s.q.fifo.c == PopDone(None) ==> s.q.stopped)
  }

  /** A call that has taken effect counts as returned. */
  ghost function AsUpstream(s: Loops<Blocking<Message>>): Up.State {
    var f := s.q.fifo;
    s.u.(cap := f.cap, queue := f.items, disStop := s.q.stopped,
         gen := if s.u.gen.TryPush? && f.p.PushDone? then (if f.p.ok then Up.Advance else Up.Retry(s.u.gen.m)) else s.u.gen,
         dis := if s.u.dis.Popping? && f.c.PopDone?
                then (if f.c.result.Some? then Up.Stamping(f.c.result.value) else Up.DisOff) else s.u.dis)
  }

  /** The step of Upstream behind a move, if there is one. */
  ghost function UpstreamStep(s: Loops<Blocking<Message>>, x: Move<Effect<Message>>): Option<Up.Step> {
    match x
    case Own(y) => Some(y)
    case Restart => Some(Up.DisStart)
    case OnQueue(Of(PushEffect)) => Some(Up.GenPush)
    case OnQueue(Of(PopEffect)) => Some(Up.DisPop)
    case OnQueue(GiveUp) => Some(Up.DisQuit)
    case OnQueue(RequestStop) => if s.q.fifo.c == PopDone(None) then None else Some(Up.DisStop)
    case _ => None
  }

  /** Able, and this is where it leads; without a step nothing changes. */
  ghost predicate Simulates(a: Up.State, y: Option<Up.Step>, b: Up.State) {
    match y
    case Some(z) => Up.WellFormed(a) && Up.Able(a, z) && b == Up.Act(a, z)
    case None => b == a
  }

  ghost predicate OfPush(e: Effect<Message>) {
    e.Of? && (e.event.CallPush? || e.event.PushEffect? || e.event.ReturnPush?)
  }

  lemma PushMoveSimulates(s: Loops<Blocking<Message>>, e: Effect<Message>, t: Loops<Blocking<Message>>)
    requires Linked(s) && LoopsStep(s, OnQueue(e), t) && Up.WellFormed(AsUpstream(s)) && OfPush(e)
    ensures Linked(t) && Simulates(AsUpstream(s), UpstreamStep(s, OnQueue(e)), AsUpstream(t))
  {
  }

  lemma PopMoveSimulates(s: Loops<Blocking<Message>>, e: Effect<Message>, t: Loops<Blocking<Message>>)
    requires Linked(s) && LoopsStep(s, OnQueue(e), t) && Up.WellFormed(AsUpstream(s)) && !OfPush(e)
    ensures Linked(t) && Simulates(AsUpstream(s), UpstreamStep(s, OnQueue(e)), AsUpstream(t))
  {
  }

  lemma OwnMoveSimulates(s: Loops<Blocking<Message>>, y: Up.Step, t: Loops<Blocking<Message>>)
    requires Linked(s) && LoopsStep(s, Own(y), t) && Up.WellFormed(AsUpstream(s))
    ensures Linked(t) && Simulates(AsUpstream(s), Some(y), AsUpstream(t))
  {
  }

  /** Every move is a step of Upstream, or none. */
  lemma MoveSimulates(s: Loops<Blocking<Message>>, x: Move<Effect<Message>>, t: Loops<Blocking<Message>>)
    requires Linked(s) && LoopsStep(s, x, t) && Up.WellFormed(AsUpstream(s))
    ensures Linked(t) && Simulates(AsUpstream(s), UpstreamStep(s, x), AsUpstream(t))
  {
    match x
    case Own(y) => OwnMoveSimulates(s, y, t);
    case OnQueue(e) =>
      if OfPush(e) {
        PushMoveSimulates(s, e, t);
      } else {
        PopMoveSimulates(s, e, t);
      }
    case Restart =>
  }

  lemma MoveLinked(s: Loops<Blocking<Message>>, x: Move<Effect<Message>>, t: Loops<Blocking<Message>>)
    requires Linked(s) && LoopsStep(s, x, t)
    ensures Linked(t)
  {
  }

  /** So it keeps all that Upstream keeps. */
  lemma MoveKeepsInvariant(s: Loops<Blocking<Message>>, x: Move<Effect<Message>>, t: Loops<Blocking<Message>>)
    requires Linked(s) && LoopsStep(s, x, t) && Up.Invariant(AsUpstream(s))
    ensures Linked(t) && Up.Invariant(AsUpstream(t))
  {
    MoveSimulates(s, x, t);
    if UpstreamStep(s, x).Some? {
      Up.StepKeepsInvariant(AsUpstream(s), UpstreamStep(s, x).value);
    }
  }

  // ---------- around the waitable queue ----------

  type WaitableLoops = Loops<W.State<Message>>

  /** A new disseminator session comes with a new stop token. */
  ghost predicate WaitableMove(s: WaitableLoops, x: Move<W.Step<Message>>, t: WaitableLoops) {
    match x
    case Own(y) => IsOwn(s.u, y) && t == s.(u := Up.Act(s.u, y))
    case Restart =>
      && s.u.dis.DisOff? && (s.q.stopper.StopIdle? || s.q.stopper.StopDone?)
      && t == Loops(s.u.(dis := Up.Popping), s.q.(stop := false, stopper := W.StopIdle))
    case OnQueue(w) =>
      && WellFormed(s.q.ring) && W.CanStep(s.q, w) && MayCall(s.u, WaitableEffect(s.q, w))
      && t == Loops(Answered(s.u, WaitableEffect(s.q, w)), W.Do(s.q, w))
  }

  ghost function ViewWaitable(s: WaitableLoops): Loops<Blocking<Message>>
    requires W.Invariant(s.q)
  {
    Loops(s.u, AbsWaitable(s.q))
  }

  ghost function WaitableAsMove(s: WaitableLoops, x: Move<W.Step<Message>>): Move<Effect<Message>>
    requires x.OnQueue? ==> W.CanStep(s.q, x.e)
  {
    match x
    case Own(y) => Own(y)
    case Restart => Restart
    case OnQueue(w) => OnQueue(WaitableEffect(s.q, w))
  }

  lemma NewToken<T>(q: W.State<T>)
    requires W.Invariant(q) && q.pop.PopIdle? && (q.stopper.StopIdle? || q.stopper.StopDone?)
    ensures var t := q.(stop := false, stopper := W.StopIdle);
            W.Invariant(t) && AbsWaitable(t) == AbsWaitable(q).(stopped := false)
  {
  }

  lemma WaitableMoveSimulates(s: WaitableLoops, x: Move<W.Step<Message>>, t: WaitableLoops)
    requires W.Invariant(s.q) && Linked(ViewWaitable(s)) && WaitableMove(s, x, t)
    ensures W.Invariant(t.q) && LoopsStep(ViewWaitable(s), WaitableAsMove(s, x), ViewWaitable(t))
  {
    match x
    case Own(_) =>
    case Restart =>
      assert ViewWaitable(s).q.fifo.c.PopIdle?;
      NewToken(s.q);
    case OnQueue(w) => WaitableStepRefines(s.q, w);
  }

  ghost predicate IsWaitableRun(cap: nat, states: seq<WaitableLoops>, moves: seq<Move<W.Step<Message>>>) {
    && |states| == |moves| + 1
    && states[0] == Loops(Up.Begin(cap), W.Start(cap))
    && (forall i :: 0 <= i < |moves| ==> WaitableMove(states[i], moves[i], states[i + 1]))
  }

  lemma BeginLinked(cap: nat, q: Blocking<Message>)
    requires q == Blocking(Fifo(cap, [], PushIdle, PopIdle), false)
    ensures Linked(Loops(Up.Begin(cap), q)) && Up.Invariant(AsUpstream(Loops(Up.Begin(cap), q)))
  {
    assert AsUpstream(Loops(Up.Begin(cap), q)) == Up.Begin(cap);
  }

  /** With the waitable queue itself between the loops, in every state of every run: its wake-up protocol holds, and so
      does all that Upstream keeps: conservation and order of the messages, pacing, sessions, timestamps. */
  lemma {:induction false} WaitableLoopsKeep(cap: nat, states: seq<WaitableLoops>, moves: seq<Move<W.Step<Message>>>, n: nat)
    requires 0 < cap && IsWaitableRun(cap, states, moves) && n <= |moves|
    ensures W.Invariant(states[n].q) && Linked(ViewWaitable(states[n]))
    ensures Up.Invariant(AsUpstream(ViewWaitable(states[n])))
  {
    if n == 0 {
      W.StartInvariant<Message>(cap);
      BeginLinked(cap, AbsWaitable(W.Start<Message>(cap)));
    } else {
      var s, x, t := states[n - 1], moves[n - 1], states[n];
      WaitableLoopsKeep(cap, states, moves, n - 1);
      assert WaitableMove(s, x, t);
      WaitableMoveSimulates(s, x, t);
      MoveKeepsInvariant(ViewWaitable(s), WaitableAsMove(s, x), ViewWaitable(t));
    }
  }

  /** What a thread inside a queue call holds: the item the consumer has taken out of the ring. */
  ghost function Held(q: W.State<Message>): seq<Message> {
    match q.pop
    case Return(Some(m)) => [m]
    case ClearFlag(m) => [m]
    case FirstPop => (if q.ring.c.CDone? && q.ring.c.result.Some? then [q.ring.c.result.value] else [])
    case SecondPop => (if q.ring.c.CDone? && q.ring.c.result.Some? then [q.ring.c.result.value] else [])
    case _ => []
  }

  /** The message the generator has still to get into the ring. */
  ghost function Outside(u: Up.State, q: W.State<Message>): seq<Message> {
    if u.gen.Retry? || (u.gen.TryPush? && (q.push.PushIdle? || (q.push.PushInRing? && q.ring.p != PDone(true))))
    then [u.gen.m] else []
  }

  /** Conservation spelt out for the real queue: sent, in the disseminator's hands or taken out for it, in the ring, and
      with the generator, in generation order. */
  lemma WaitableConservation(cap: nat, states: seq<WaitableLoops>, moves: seq<Move<W.Step<Message>>>, n: nat)
    requires 0 < cap && IsWaitableRun(cap, states, moves) && n <= |moves|
    ensures Counted(states[n].q.ring)
    ensures var u, q := states[n].u, states[n].q;
            Up.Bare(Up.Kept(u))
            == Up.Bare(u.sent + Up.InFlight(u.dis) + Held(q) + Items(q.ring) + Outside(u, q))
  {
    WaitableLoopsKeep(cap, states, moves, n);
    var u, q := states[n].u, states[n].q;
    var a := AsUpstream(ViewWaitable(states[n]));
    assert Up.Kept(a) == Up.Kept(u);
    assert Up.InFlight(a.dis) == Up.InFlight(u.dis) + Held(q);
    assert Up.Awaiting(a.gen) == Outside(u, q);
    assert u.sent + Up.InFlight(a.dis) == u.sent + Up.InFlight(u.dis) + Held(q);
  }

  // ---------- around the spinning queue ----------

  type SpinLoops = Loops<S.SpinState<Message>>

  ghost predicate SpinMove(s: SpinLoops, x: Move<S.SpinStep<Message>>, t: SpinLoops) {
    match x
    case Own(y) => IsOwn(s.u, y) && t == s.(u := Up.Act(s.u, y))
    case Restart => s.u.dis.DisOff? && t == Loops(s.u.(dis := Up.Popping), s.q.(stop := false))
    case OnQueue(w) =>
      && WellFormed(s.q.ring) && S.CanSpin(s.q, w) && MayCall(s.u, SpinEffect(s.q, w))
      && t == Loops(Answered(s.u, SpinEffect(s.q, w)), S.Spin(s.q, w))
  }

  ghost function ViewSpin(s: SpinLoops): Loops<Blocking<Message>>
    requires S.SpinInvariant(s.q)
  {
    Loops(s.u, AbsSpin(s.q))
  }

  ghost function SpinAsMove(s: SpinLoops, x: Move<S.SpinStep<Message>>): Move<Effect<Message>>
    requires x.OnQueue? ==> S.CanSpin(s.q, x.e)
  {
    match x
    case Own(y) => Own(y)
    case Restart => Restart
    case OnQueue(w) => OnQueue(SpinEffect(s.q, w))
  }

  ghost predicate IsSpinRun(cap: nat, states: seq<SpinLoops>, moves: seq<Move<S.SpinStep<Message>>>) {
    && |states| == |moves| + 1
    && states[0] == Loops(Up.Begin(cap), S.SpinStart(cap))
    && (forall i :: 0 <= i < |moves| ==> SpinMove(states[i], moves[i], states[i + 1]))
  }

  /** The same with the spinning queue between the loops. */
  lemma {:induction false} SpinLoopsKeep(cap: nat, states: seq<SpinLoops>, moves: seq<Move<S.SpinStep<Message>>>, n: nat)
    requires 0 < cap && IsSpinRun(cap, states, moves) && n <= |moves|
    ensures S.SpinInvariant(states[n].q) && Linked(ViewSpin(states[n]))
    ensures Up.Invariant(AsUpstream(ViewSpin(states[n])))
  {
    if n == 0 {
      InitInv<Message>(cap);
      BeginLinked(cap, AbsSpin(S.SpinStart<Message>(cap)));
    } else {
      var s, x, t := states[n - 1], moves[n - 1], states[n];
      SpinLoopsKeep(cap, states, moves, n - 1);
      assert SpinMove(s, x, t);
      if x.OnQueue? {
        SpinStepRefines(s.q, x.e);
      }
      MoveKeepsInvariant(ViewSpin(s), SpinAsMove(s, x), ViewSpin(t));
    }
  }
}
