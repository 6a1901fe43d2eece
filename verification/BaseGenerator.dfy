/** The generator: its rate, and the paced loop that turns clock readings into messages. */
module BaseGenerator {
  import opened Wrappers
  import opened MarketData
  import opened WordRing
  import opened CustomSpscQueues

  const Billion: nat := 1_000_000_000

  /** One turn of the outer loop: the clock reading, the message that would be generated, the reading that stamps it,
      and for each attempt to push it how many messages the consumer has taken since the one before.  A stop is
      seen when the attempts are used up. */
  datatype Poll = Poll(now: nat, m: Message, stamp: U64, attempts: seq<nat>)

  function Stamp(m: Message, now: U64): Message { m.(enqueued := now) }

  /** The messages generated over some turns of a session begun at `start`: one for each turn whose reading has
      reached the next due time, which moves on by one interval for every message. */
  function Generated(start: nat, interval: nat, polls: seq<Poll>): seq<Message> {
    if polls == [] then []
    else
      var before := Generated(start, interval, polls[..|polls| - 1]);
      var last := polls[|polls| - 1];
      before + if start + |before| * interval <= last.now then [Stamp(last.m, last.stamp)] else []
  }

  /** The turns that generate a message. */
  function DuePolls(start: nat, interval: nat, polls: seq<Poll>): seq<Poll> {
    if polls == [] then []
    else
      var before := DuePolls(start, interval, polls[..|polls| - 1]);
      before + if start + |before| * interval <= polls[|polls| - 1].now then [polls[|polls| - 1]] else []
  }

  /** One message for each due turn: its own, with the reading that stamps it as enqueue time. */
  ghost predicate MadeBy(due: seq<Poll>, made: seq<Message>) {
    |made| == |due| && forall i :: 0 <= i < |due| ==> EnqueuedAt(due[i].m, made[i], due[i].stamp)
  }

  lemma {:induction false} GeneratedByPolls(start: nat, interval: nat, polls: seq<Poll>)
    ensures MadeBy(DuePolls(start, interval, polls), Generated(start, interval, polls))
  {
    if polls != [] {
      GeneratedByPolls(start, interval, polls[..|polls| - 1]);
    }
  }

  /** Some attempt to push finds room: there was some already, or the consumer makes some first. */
  ghost predicate FindsRoom(queued: nat, capacity: nat, attempts: seq<nat>) {
    attempts != [] && (queued < capacity || exists k :: 0 <= k < |attempts| && 0 < attempts[k])
  }

  class BaseGenerator {
    var messagesPerSec: U32
    var interval: nat
    var joinable: bool         // the thread has been started and not joined
    var requested: seq<bool>   // of each session so far, whether its stop was requested

    /** At most the last session runs, and every other one has been told to stop. */
    ghost predicate Valid()
      reads this
    {
      && (messagesPerSec != 0 ==> IsInterval(interval, messagesPerSec))
      && (joinable ==> requested != [])
      && forall i :: 0 <= i < |requested| ==> (!requested[i] <==> joinable && i == |requested| - 1)
    }

    constructor ()
      ensures Valid() && messagesPerSec == 0 && interval == 0 && !joinable && requested == []
    {
      messagesPerSec, interval, joinable, requested := 0, 0, false, [];
    }

    method SetRate(rate: U32) returns (r: Result<()>)
      requires Valid()
      modifies this`messagesPerSec, this`interval
      ensures Valid()
      ensures r.Ok? <==> 1 <= rate
      ensures r.Ok? ==> messagesPerSec == rate && IsInterval(interval, rate)
      ensures r.Err? ==> unchanged(this)
    {
      if rate < 1 {
        return Err("Rate must be > 0");
      }
      messagesPerSec := rate;
      interval := Billion / rate;
      IntervalOfRate(rate);
      return Ok(());
    }

    /** Refused without a rate.  Otherwise a session runs afterwards: the one that did already, undisturbed, or a new
        one, whose stop nobody has requested. */
    method Start() returns (r: Result<()>)
      requires Valid()
      modifies this`joinable, this`requested
      ensures Valid()
      ensures r.Ok? <==> messagesPerSec != 0
      ensures r.Err? ==> unchanged(this)
      ensures r.Ok? ==> joinable && !requested[|requested| - 1]
      ensures r.Ok? ==> |requested| == |old(requested)| + if old(joinable) then 0 else 1
      ensures old(requested) <= requested
    {
      if messagesPerSec == 0 {
        return Err("Generator rate has not been configured.");
      }
      if !joinable {
        requested := requested + [false];
        joinable := true;
      }
      return Ok(());
    }

    /** Afterwards every session so far has been told to stop and none runs; earlier ones are left alone, and there
        is nothing to do a second time. */
    method Stop()
      requires Valid()
      modifies this`joinable, this`requested
      ensures Valid() && !joinable
      ensures |requested| == |old(requested)|
      ensures forall i :: 0 <= i < |requested| ==> requested[i]
      ensures forall i :: 0 <= i < |requested| - 1 ==> requested[i] == old(requested[i])
      ensures !old(joinable) ==> unchanged(this)
    {
      if joinable {
        requested := requested[|requested| - 1 := true];
        joinable := false;
      }
    }

    /** The consumer takes some messages, then one attempt to push.  Refused exactly when the queue was full and
        the consumer took nothing. */
    method Attempt(queue: CustomSpscQueue<Message>, msg: Message, n: nat) returns (ok: bool, taken: seq<Message>)
      requires queue.Valid() && Wrappable(queue.capacity)
      modifies queue, queue.data_
      ensures queue.Valid()
      ensures taken + queue.contents == old(queue.contents) + if ok then [msg] else []
      ensures ok <==> |old(queue.contents)| < queue.capacity || 0 < n
      ensures !ok ==> queue.contents == old(queue.contents)
    {
      taken := Consume(queue, n);
      ghost var left := queue.contents;
      ok := queue.Push(msg);
      assert taken + (left + [msg]) == (taken + left) + [msg];
    }

    /** while (!stop_requested && !push), with the consumer working in between.  The message is pushed exactly when
        some attempt finds room; what the consumer took and what is still queued is what was queued before, and
        the message if pushed. */
    method PushOrGiveUp(queue: CustomSpscQueue<Message>, msg: Message, attempts: seq<nat>)
      returns (ok: bool, taken: seq<Message>)
      requires queue.Valid() && Wrappable(queue.capacity)
      modifies queue, queue.data_
      ensures queue.Valid()
      ensures taken + queue.contents == old(queue.contents) + if ok then [msg] else []
      ensures ok <==> FindsRoom(|old(queue.contents)|, queue.capacity, attempts)
      ensures !ok ==> taken == []
    {
      ghost var before := queue.contents;
      ok, taken := false, [];
      var i := 0;
      while i < |attempts| && !ok
        invariant i <= |attempts| && queue.Valid()
        invariant taken + queue.contents == before + if ok then [msg] else []
        invariant !ok ==> taken == [] && queue.contents == before && forall k :: 0 <= k < i ==> attempts[k] == 0
        invariant !ok && 0 < i ==> |before| == queue.capacity
        invariant ok ==> FindsRoom(|before|, queue.capacity, attempts)
        decreases |attempts| - i, !ok
      {
        ok, taken := Attempt(queue, msg, attempts[i]);
        i := i + 1;
      }
    }

    /** The loop body: with the next message due, generate, stamp and push it or give it up. */
    method TakeTurn(queue: CustomSpscQueue<Message>, next: nat, poll: Poll)
      returns (pushed: seq<Message>, dropped: seq<Message>, next': nat, taken: seq<Message>)
      requires queue.Valid() && Wrappable(queue.capacity)
      modifies queue, queue.data_
      ensures queue.Valid()
      ensures pushed + dropped == if next <= poll.now then [Stamp(poll.m, poll.stamp)] else []
      ensures MadeBy(if next <= poll.now then [poll] else [], pushed + dropped)
      ensures pushed != [] <==> next <= poll.now && FindsRoom(|old(queue.contents)|, queue.capacity, poll.attempts)
      ensures next' == if next <= poll.now then next + interval else next
      ensures dropped != [] ==> poll.attempts == [] || |queue.contents| == queue.capacity
      ensures |pushed| + |dropped| <= 1
      ensures taken + queue.contents == old(queue.contents) + pushed
    {
      pushed, dropped, next', taken := [], [], next, [];
      if poll.now >= next {
        var msg := Stamp(poll.m, poll.stamp);
        var ok;
        ok, taken := PushOrGiveUp(queue, msg, poll.attempts);
        if ok {
          pushed := [msg];
        } else {
          dropped := [msg];
        }
        next' := next + interval;
      }
    }

    /** generation_loop over the turns of one session, on the real queue.  Giving a message up takes a stop, so the
        loop ends with that turn; otherwise it takes all turns. */
    method GenerationLoop(queue: CustomSpscQueue<Message>, start: nat, polls: seq<Poll>)
      returns (pushed: seq<Message>, dropped: seq<Message>, next: nat, taken: seq<Message>, turns: nat)
      requires queue.Valid() && Wrappable(queue.capacity)
      modifies queue, queue.data_
      ensures queue.Valid() && turns <= |polls|
      ensures pushed + dropped == Generated(start, interval, polls[..turns])
      ensures MadeBy(DuePolls(start, interval, polls[..turns]), pushed + dropped)
      ensures |dropped| <= 1 && (dropped == [] ==> turns == |polls|)
      ensures dropped != [] ==> 0 < turns && (polls[turns - 1].attempts == [] || |queue.contents| == queue.capacity)
      ensures next == start + |Generated(start, interval, polls[..turns])| * interval
      ensures taken + queue.contents == old(queue.contents) + pushed
    {
      pushed, dropped, next, taken, turns := [], [], start, [], 0;
      ghost var done, before := polls[..0], queue.contents;
      while turns < |polls| && dropped == []
        invariant turns <= |polls| && done == polls[..turns] && queue.Valid()
        invariant SoFar(start, interval, done, pushed + dropped, next)
        invariant |dropped| <= 1
        invariant dropped != [] ==>
                    0 < turns && (polls[turns - 1].attempts == [] || |queue.contents| == queue.capacity)
        invariant taken + queue.contents == before + pushed
        decreases |polls| - turns
      {
        var poll := polls[turns];
        assert polls[..turns + 1] == polls[..turns] + [poll];
        ghost var soFar, mid := pushed + dropped, queue.contents;
        TurnAdds(start, interval, done, poll, soFar, next);
        var more, given, out;
        more, given, next, out := TakeTurn(queue, next, poll);
        Assoc(pushed, more, given);
        Assoc(taken, out, queue.contents);
        Assoc(taken, mid, more);
        Assoc(before, pushed, more);
        pushed, dropped, taken := pushed + more, given, taken + out;
        done := done + [poll];
        turns := turns + 1;
      }
      assert polls[..|polls|] == polls;
      GeneratedByPolls(start, interval, polls[..turns]);
    }
  }

  lemma Assoc(a: seq<Message>, b: seq<Message>, c: seq<Message>)
    ensures (a + b) + c == a + (b + c)
  {
  }

  /** What a session has generated, and when the next message is due. */
  ghost predicate SoFar(start: nat, interval: nat, polls: seq<Poll>, made: seq<Message>, next: nat) {
    made == Generated(start, interval, polls) && next == start + |made| * interval
  }

  lemma TurnAdds(start: nat, interval: nat, polls: seq<Poll>, poll: Poll, made: seq<Message>, next: nat)
    requires SoFar(start, interval, polls, made, next)
    ensures SoFar(start, interval, polls + [poll],
                  made + if next <= poll.now then [Stamp(poll.m, poll.stamp)] else [],
                  if next <= poll.now then next + interval else next)
  {
    assert (polls + [poll])[..|polls|] == polls;
    NextDue(start, interval, |made| + 1);
  }

  lemma NextDue(start: nat, interval: nat, ticks: nat)
    requires 0 < ticks
    ensures start + (ticks - 1) * interval + interval == start + ticks * interval
  {
  }

  /** The consumer takes up to n messages. */
  method Consume(queue: CustomSpscQueue<Message>, n: nat) returns (taken: seq<Message>)
    requires queue.Valid()
    modifies queue, queue.data_
    ensures queue.Valid() && taken + queue.contents == old(queue.contents)
    ensures |taken| == if n <= |old(queue.contents)| then n else |old(queue.contents)|
  {
    taken := [];
    var i := 0;
    while i < n
      invariant i <= n && queue.Valid() && taken + queue.contents == old(queue.contents)
      invariant |taken| == if i <= |old(queue.contents)| then i else |old(queue.contents)|
    {
      var m := queue.Pop();
      if m.None? {
        return;
      }
      taken := taken + [m.value];
      i := i + 1;
    }
  }

  // ---------- pacing ----------

  /** Every tick so far was due when it was taken. */
  ghost predicate Paced(start: nat, interval: nat, ticks: nat, now: nat) {
    start <= now && (0 < ticks ==> start + (ticks - 1) * interval <= now)
  }

  /** The loop finds nothing due exactly when it has taken one tick per full interval, and the one at the start. */
  lemma IdleIffCaughtUp(start: nat, interval: nat, ticks: nat, now: nat)
    requires 0 < interval && Paced(start, interval, ticks, now)
    ensures ticks <= (now - start) / interval + 1
    ensures now < start + ticks * interval <==> ticks == (now - start) / interval + 1
  {
    var q := (now - start) / interval;
    assert q * interval <= now - start < (q + 1) * interval by {
      assert now - start == q * interval + (now - start) % interval;
      assert (q + 1) * interval == q * interval + interval;
    }
    if q + 1 < ticks {
      MulMonotone(q + 1, ticks - 1, interval);
    } else {
      MulMonotone(ticks, q + 1, interval);
      if ticks <= q {
        MulMonotone(ticks, q, interval);
      }
    }
  }

  lemma MulMonotone(a: nat, b: nat, m: nat)
    requires a <= b
    ensures a * m <= b * m
  {
    assert b * m - a * m == (b - a) * m;
  }

  /** A steady clock: readings never go back. */
  ghost predicate Steady(start: nat, polls: seq<Poll>) {
    && (forall i :: 0 <= i < |polls| ==> start <= polls[i].now)
    && (forall i, j :: 0 <= i < j < |polls| ==> polls[i].now <= polls[j].now)
  }

  lemma {:induction false} AlwaysPaced(start: nat, interval: nat, polls: seq<Poll>, now: nat)
    requires Steady(start, polls) && start <= now && forall i :: 0 <= i < |polls| ==> polls[i].now <= now
    ensures Paced(start, interval, |Generated(start, interval, polls)|, now)
  {
    if polls != [] {
      AlwaysPaced(start, interval, polls[..|polls| - 1], now);
    }
  }

  lemma NeverAhead(start: nat, interval: nat, polls: seq<Poll>, now: nat)
    requires 0 < interval && Steady(start, polls)
    requires start <= now && forall i :: 0 <= i < |polls| ==> polls[i].now <= now
    ensures |Generated(start, interval, polls)| <= (now - start) / interval + 1
  {
    AlwaysPaced(start, interval, polls, now);
    IdleIffCaughtUp(start, interval, |Generated(start, interval, polls)|, now);
  }

  lemma IdleIffNotDue(start: nat, interval: nat, polls: seq<Poll>)
    requires polls != []
    ensures var before := Generated(start, interval, polls[..|polls| - 1]);
            Generated(start, interval, polls) == before <==> polls[|polls| - 1].now < start + |before| * interval
  {
  }

  lemma PacedBefore(start: nat, interval: nat, polls: seq<Poll>)
    requires polls != [] && Steady(start, polls)
    ensures Paced(start, interval, |Generated(start, interval, polls[..|polls| - 1])|, polls[|polls| - 1].now)
  {
    AlwaysPaced(start, interval, polls[..|polls| - 1], polls[|polls| - 1].now);
  }

  lemma NeverAheadAfter(start: nat, interval: nat, polls: seq<Poll>)
    requires 0 < interval && polls != [] && Steady(start, polls)
    ensures |Generated(start, interval, polls)| <= (polls[|polls| - 1].now - start) / interval + 1
  {
    NeverAhead(start, interval, polls, polls[|polls| - 1].now);
  }

  /** No drift, full catch-up: whatever stalls came before, a turn that finds nothing due has seen exactly one
      message per full interval since the start, and one more; and no turn has ever seen more than that. */
  lemma NoDrift(start: nat, interval: nat, polls: seq<Poll>)
    requires 0 < interval && polls != [] && Steady(start, polls)
    ensures var T := polls[|polls| - 1].now - start;
            var before, after := Generated(start, interval, polls[..|polls| - 1]), Generated(start, interval, polls);
            && |after| <= T / interval + 1
            && (after == before <==> |before| == T / interval + 1)
  {
    var before, now := Generated(start, interval, polls[..|polls| - 1]), polls[|polls| - 1].now;
    var idle := now < start + |before| * interval;
    NeverAheadAfter(start, interval, polls);
    assert (Generated(start, interval, polls) == before) == idle by { IdleIffNotDue(start, interval, polls); }
    assert idle == (|before| == (now - start) / interval + 1) by {
      PacedBefore(start, interval, polls);
      IdleIffCaughtUp(start, interval, |before|, now);
    }
  }

  // ---------- the rate ----------

  /** The whole number of nanoseconds that fits a message's share of a second. */
  ghost predicate IsInterval(interval: nat, rate: nat) {
    rate * interval <= Billion < rate * (interval + 1)
  }

  lemma IntervalOfRate(rate: nat)
    requires 1 <= rate
    ensures IsInterval(Billion / rate, rate)
    ensures Billion / rate == 0 <==> Billion < rate
  {
    var q := Billion / rate;
    assert Billion == rate * q + Billion % rate;
    assert rate * (q + 1) == rate * q + rate;
    if q == 0 {
      assert rate * q == 0;
    } else {
      MulMonotone(1, q, rate);
    }
  }

  /** Above a billion a second there is no pacing at all: every turn of the loop generates. */
  lemma {:induction false} UnpacedAboveBillion(start: nat, polls: seq<Poll>)
    requires Steady(start, polls)
    ensures |Generated(start, 0, polls)| == |polls|
  {
    if polls != [] {
      UnpacedAboveBillion(start, polls[..|polls| - 1]);
    }
  }

  /** What truncation does to the rate: T nanoseconds in, an idle loop has kept up with the requested pace, and
      the excess over it is below a factor (interval + 1) / interval, plus one message. */
  lemma RateBounds(rate: nat, interval: nat, T: nat, ticks: nat)
    requires 1 <= rate <= Billion && IsInterval(interval, rate)
    ensures 0 < interval
    ensures ticks == T / interval + 1 ==> T * rate / Billion + 1 <= ticks
    ensures 0 < T && ticks <= T / interval + 1 ==> (ticks - 1) * interval * Billion < T * rate * (interval + 1)
  {
    assert interval == 0 ==> rate * (interval + 1) == rate;
    var q := T / interval;
    assert q * interval <= T < (q + 1) * interval by {
      assert T == q * interval + T % interval;
      assert (q + 1) * interval == q * interval + interval;
    }
    KeepsUp(rate, interval, T, q);
    if 0 < T && ticks <= q + 1 {
      Excess(rate, interval, T, q, ticks);
    }
  }

  /** Both together: the pace of a session at any rate up to a billion a second. */
  lemma PaceOfRate(start: nat, rate: nat, polls: seq<Poll>)
    requires 1 <= rate <= Billion && polls != [] && Steady(start, polls)
    ensures var interval := Billion / rate;
            var T := polls[|polls| - 1].now - start;
            var before, after := Generated(start, interval, polls[..|polls| - 1]), Generated(start, interval, polls);
            && (after == before ==> T * rate / Billion + 1 <= |after|)
            && (0 < T ==> (|after| - 1) * interval * Billion < T * rate * (interval + 1))
  {
    var interval, T := Billion / rate, polls[|polls| - 1].now - start;
    IntervalOfRate(rate);
    RateBounds(rate, interval, T, |Generated(start, interval, polls)|);
    NoDrift(start, interval, polls);
  }

  lemma KeepsUp(rate: nat, interval: nat, T: nat, q: nat)
    requires 1 <= rate && 0 < interval && rate * interval <= Billion && T < (q + 1) * interval
    ensures T * rate / Billion <= q
  {
    StrictMul(T, (q + 1) * interval, rate);
    Shuffle(q + 1, interval, rate);
    MulMonotone(rate * interval, Billion, q + 1);
    DivBelow(T * rate, q + 1, Billion);
  }

  lemma DivBelow(x: nat, n: nat, m: nat)
    requires 0 < m && x < n * m
    ensures x / m < n
  {
    assert x == (x / m) * m + x % m;
    if n <= x / m {
      MulMonotone(n, x / m, m);
    }
  }

  lemma Excess(rate: nat, interval: nat, T: nat, q: nat, ticks: nat)
    requires 0 < T && 0 < interval && Billion < rate * (interval + 1) && q * interval <= T && ticks <= q + 1
    ensures (ticks - 1) * interval * Billion < T * rate * (interval + 1)
  {
    assert (ticks - 1) * interval <= T by {
      if 0 < ticks { MulMonotone(ticks - 1, q, interval); } else { assert (ticks - 1) * interval <= 0; }
    }
    var a := (ticks - 1) * interval;
    assert a * Billion <= T * Billion by {
      if 0 <= a { MulMonotone(a, T, Billion); }
    }
    StrictMul(Billion, rate * (interval + 1), T);
    assert (rate * (interval + 1)) * T == T * rate * (interval + 1) by { Shuffle(rate, interval + 1, T); }
  }

  lemma StrictMul(a: nat, b: nat, m: nat)
    requires a < b && 0 < m
    ensures a * m < b * m
  {
    MulMonotone(a + 1, b, m);
    assert (a + 1) * m == a * m + m;
  }

  lemma Shuffle(a: nat, b: nat, c: nat)
    ensures (a * b) * c == (c * b) * a
    ensures (a * b) * c == (c * a) * b
  {
  }
}
