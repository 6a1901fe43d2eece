/** What both queue wrappers promise: a bounded FIFO whose `pop` blocks until there is an element, and may
    give up only once a stop has been requested. */
module StoppableFifo {
  import opened Wrappers
  import opened AtomicFifo

  datatype Blocking<T> = Blocking(fifo: Fifo<T>, stopped: bool)

  datatype Effect<+T> = Of(event: Event<T>) | GiveUp | RequestStop

  ghost predicate BlockingStep<T>(s: Blocking<T>, e: Effect<T>, t: Blocking<T>) {
    match e
    case Of(event) =>
      && t.stopped == s.stopped && Step(s.fifo, event, t.fifo)
      && (event.PopEffect? ==> s.fifo.items != [])
    case GiveUp =>
      && s.stopped && s.fifo.c.PopCalled?
      && t == s.(fifo := s.fifo.(c := PopDone(None)))
    case RequestStop => t == s.(stopped := true)
  }

  /** states[i] --effects[i]--> states[i+1] */
  ghost predicate IsBlockingRun<T>(states: seq<Blocking<T>>, effects: seq<Effect<T>>) {
    && |states| == |effects| + 1
    && (forall i :: 0 <= i < |effects| ==> BlockingStep(states[i], effects[i], states[i + 1]))
  }

  /** While a pop is under way nothing leaves the queue. */
  lemma {:induction false} PendingPopKeepsItems<T>(states: seq<Blocking<T>>, effects: seq<Effect<T>>, i: nat, j: nat)
    requires IsBlockingRun(states, effects) && i <= j <= |effects|
    requires forall k :: i <= k <= j ==> states[k].fifo.c.PopCalled?
    ensures states[i].fifo.items <= states[j].fifo.items
    decreases j - i
  {
    if i < j {
      PendingPopKeepsItems(states, effects, i, j - 1);
      assert BlockingStep(states[j - 1], effects[j - 1], states[j]);
    }
  }

  /** A pop pending from state i on that completes in state j + 1: empty-handed only if a stop was requested,
      and then everything that was queued still is; otherwise with the oldest item at the time. */
  lemma PopOutcome<T>(states: seq<Blocking<T>>, effects: seq<Effect<T>>, i: nat, j: nat)
    requires IsBlockingRun(states, effects) && i <= j < |effects|
    requires forall k :: i <= k <= j ==> states[k].fifo.c.PopCalled?
    requires states[j + 1].fifo.c.PopDone?
    ensures var before, after, result := states[i].fifo.items, states[j + 1].fifo.items, states[j + 1].fifo.c.result;
            if result == None then states[j].stopped && before <= after
            else states[j].fifo.items == [result.value] + after && (before != [] ==> result.value == before[0])
  {
    PendingPopKeepsItems(states, effects, i, j);
    assert BlockingStep(states[j], effects[j], states[j + 1]);
  }

  /** Step m takes item v off the front; before it the queue has only grown since state i, and after it only
      grown up to state j. */
  ghost predicate TakenAt<T>(states: seq<Blocking<T>>, i: nat, m: nat, j: nat, v: T)
    requires i <= m < j < |states|
  {
    && states[i].fifo.items <= states[m].fifo.items
    && states[m].fifo.items == [v] + states[m + 1].fifo.items
    && states[m + 1].fifo.items <= states[j].fifo.items
  }

  /** How far a pop called in step i has come by state j. */
  ghost predicate PopProgress<T>(states: seq<Blocking<T>>, i: nat, j: nat)
    requires i <= j < |states|
  {
    match states[j].fifo.c
    case PopIdle => false
    case PopCalled => states[i].fifo.items <= states[j].fifo.items
    case PopDone(None) => states[j].stopped && states[i].fifo.items <= states[j].fifo.items
    case PopDone(Some(v)) => exists m :: i <= m < j && TakenAt(states, i, m, j, v)
  }

  ghost predicate PopReturnsAt<T>(e: Effect<T>) { e.Of? && e.event.ReturnPop? }

  lemma PopProgressStep<T>(states: seq<Blocking<T>>, effects: seq<Effect<T>>, i: nat, j: nat)
    requires IsBlockingRun(states, effects) && i <= j < |effects| && !PopReturnsAt(effects[j])
    requires PopProgress(states, i, j)
    ensures PopProgress(states, i, j + 1)
  {
    assert BlockingStep(states[j], effects[j], states[j + 1]);
    if states[j].fifo.c.PopDone? && states[j].fifo.c.result.Some? {
      var v := states[j].fifo.c.result.value;
      var m :| i <= m < j && TakenAt(states, i, m, j, v);
      assert TakenAt(states, i, m, j + 1, v);
    } else if states[j + 1].fifo.c.PopDone? && states[j + 1].fifo.c.result.Some? {
      assert TakenAt(states, i, j, j + 1, states[j + 1].fifo.c.result.value);
    }
  }

  /** A whole pop, from its call in step i to its return in step j: empty-handed only if a stop was requested, with
      nothing taken; otherwise with the item that was the oldest when one step in between took it. */
  lemma {:induction false} WholePopOutcome<T>(states: seq<Blocking<T>>, effects: seq<Effect<T>>, i: nat, j: nat)
    requires IsBlockingRun(states, effects) && i < j <= |effects| && effects[i] == Of(CallPop)
    requires forall k :: i < k < j ==> !PopReturnsAt(effects[k])
    ensures PopProgress(states, i, j)
    decreases j
  {
    if j == i + 1 {
      assert BlockingStep(states[i], effects[i], states[j]);
    } else {
      WholePopOutcome(states, effects, i, j - 1);
      PopProgressStep(states, effects, i, j - 1);
    }
  }
}
