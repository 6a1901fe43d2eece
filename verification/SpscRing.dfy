/** CustomSpscQueue under two threads, one atomic access or slot access per step.

    Counters are unbounded here (WordRing brings them back to 64 bits).  An acquire load may
    return any value between the one its thread last saw and the current one. */
module SpscRing {
  import opened Wrappers
  import opened Slots

  /** Where the producer is inside `push`; the arguments are its local variables. */
  datatype Producer<+T> =
    | PIdle
    | PGotWrite(item: T, w: nat)  // own counter loaded
    | PGotRead(item: T, w: nat)   // consumer's counter loaded, room was seen
    | PBuilt(item: T, w: nat)     // element constructed, not yet published
    | PDone(ok: bool)

  /** Where the consumer is inside `pop`. */
  datatype Consumer<+T> =
    | CIdle
    | CGotRead(r: nat)
    | CGotWrite(r: nat)           // producer's counter loaded, an element was seen
    | CMoved(r: nat, item: T)
    | CDestroyed(r: nat, item: T) // slot raw again, not yet handed back
    | CDone(result: Option<T>)

  /** The shared memory, both threads, and bookkeeping that no code reads.

      - seenRead, seenWrite: the value each thread's last acquire load returned;
      - published[k]: the counter value whose store publishes the last access to slot k;
      - fault: an element was built over a live one, or a raw slot was moved from or destroyed;
      - race: a slot was touched before the other thread's last access to it was observed;
      - pushed, popped: everything ever published and everything ever taken. */
  datatype Ring<T> = Ring(
    cap: nat, slots: seq<Slot<T>>, read: nat, write: nat,
    p: Producer<T>, c: Consumer<T>,
    seenRead: nat, seenWrite: nat, published: seq<nat>,
    fault: bool, race: bool, pushed: seq<T>, popped: seq<T>)

  datatype Action<+T> =
    | PushCall(item: T) | LoadRead(v: nat) | Construct | StoreWrite | PushReturn
    | PopCall | LoadWrite(v: nat) | MoveOut | Destroy | StoreRead | PopReturn

  ghost function Init<T>(cap: nat): Ring<T> {
    Ring(cap, seq(cap, _ => Raw), 0, 0, PIdle, CIdle, 0, 0, seq(cap, _ => 0), false, false, [], [])
  }

  ghost predicate WellFormed<T>(s: Ring<T>) {
    0 < s.cap == |s.slots| == |s.published|
  }

  ghost predicate Enabled<T>(s: Ring<T>, a: Action<T>) {
    match a
    case PushCall(_) => s.p.PIdle?
    case LoadRead(v) => s.p.PGotWrite? && s.seenRead <= v <= s.read
    case Construct => s.p.PGotRead?
    case StoreWrite => s.p.PBuilt?
    case PushReturn => s.p.PDone?
    case PopCall => s.c.CIdle?
    case LoadWrite(v) => s.c.CGotRead? && s.seenWrite <= v <= s.write
    case MoveOut => s.c.CGotWrite?
    case Destroy => s.c.CMoved?
    case StoreRead => s.c.CDestroyed?
    case PopReturn => s.c.CDone?
  }

  ghost function Apply<T>(s: Ring<T>, a: Action<T>): Ring<T>
    requires WellFormed(s) && Enabled(s, a)
  {
    match a
    case PushCall(item) => s.(p := PGotWrite(item, s.write))
    case LoadRead(v) =>
      s.(seenRead := v, p := if s.p.w - v == s.cap then PDone(false) else PGotRead(s.p.item, s.p.w))
    case Construct =>
      var k := Idx(s.p.w, s.cap);
      s.(fault := s.fault || s.slots[k].Live?, race := s.race || s.seenRead < s.published[k],
         slots := s.slots[k := Live(s.p.item)], published := s.published[k := s.p.w + 1],
         p := PBuilt(s.p.item, s.p.w))
    case StoreWrite => s.(write := s.p.w + 1, pushed := s.pushed + [s.p.item], p := PDone(true))
    case PushReturn => s.(p := PIdle)
    case PopCall => s.(c := CGotRead(s.read))
    case LoadWrite(v) =>
      s.(seenWrite := v, c := if s.c.r == v then CDone(None) else CGotWrite(s.c.r))
    case MoveOut =>
      var k := Idx(s.c.r, s.cap);
      if s.slots[k].Raw? then s.(fault := true)
      else s.(race := s.race || s.seenWrite < s.published[k], c := CMoved(s.c.r, s.slots[k].value))
    case Destroy =>
      var k := Idx(s.c.r, s.cap);
      s.(fault := s.fault || s.slots[k].Raw?, race := s.race || s.seenWrite < s.published[k],
         slots := s.slots[k := Raw], published := s.published[k := s.c.r + 1],
         c := CDestroyed(s.c.r, s.c.item))
    case StoreRead => s.(read := s.c.r + 1, popped := s.popped + [s.c.item], c := CDone(Some(s.c.item)))
    case PopReturn => s.(c := CIdle)
  }

  // ---------- the view invariant ----------

  /** Elements [Lo, Hi) are constructed: Lo runs ahead of `read_` between a destroy and its store,
      Hi ahead of `write_` between a construction and its store. */
  ghost function Lo<T>(s: Ring<T>): nat { s.read + if s.c.CDestroyed? then 1 else 0 }

  ghost function Hi<T>(s: Ring<T>): nat { s.write + if s.p.PBuilt? then 1 else 0 }

  /** All elements ever constructed, in order. */
  ghost function Built<T>(s: Ring<T>): seq<T> { s.pushed + if s.p.PBuilt? then [s.p.item] else [] }

  /** The counter value that publishes the destruction of the previous owner of element i's slot. */
  ghost function FreedAt(i: nat, cap: nat): nat { if i < cap then 0 else i - cap + 1 }

  ghost predicate LiveAt<T>(s: Ring<T>, i: nat)
    requires WellFormed(s) && i < |Built(s)|
  {
    s.slots[Idx(i, s.cap)] == Live(Built(s)[i]) && s.published[Idx(i, s.cap)] == i + 1
  }

  ghost predicate RawAt<T>(s: Ring<T>, i: nat)
    requires WellFormed(s)
  {
    s.slots[Idx(i, s.cap)] == Raw && s.published[Idx(i, s.cap)] == FreedAt(i, s.cap)
  }

  ghost predicate SlotsMatch<T>(s: Ring<T>)
    requires WellFormed(s) && Hi(s) == |Built(s)|
  {
    && (forall i :: Lo(s) <= i < Hi(s) ==> LiveAt(s, i))
    && (forall i :: Hi(s) <= i < Lo(s) + s.cap ==> RawAt(s, i))
  }

  /** Each thread's stale view of the other's counter is still on the safe side. */
  ghost predicate ViewsSafe<T>(s: Ring<T>) {
    s.seenRead <= s.read <= s.seenWrite <= s.write <= s.seenRead + s.cap
  }

  ghost predicate ThreadsMatch<T>(s: Ring<T>) {
    && (s.p.PGotWrite? ==> s.p.w == s.write)
    && (s.p.PGotRead? || s.p.PBuilt? ==> s.p.w == s.write < s.seenRead + s.cap)
    && (s.c.CGotRead? ==> s.c.r == s.read)
    && (s.c.CGotWrite? ==> s.c.r == s.read < s.seenWrite)
    && (s.c.CMoved? || s.c.CDestroyed? ==>
          s.c.r == s.read < s.seenWrite && s.read < |s.pushed| && s.c.item == s.pushed[s.read])
    && (s.c.CDone? && s.c.result.Some? ==> 0 < |s.popped| && s.c.result.value == s.popped[|s.popped| - 1])
    && (s.c.CDone? && s.c.result.None? ==> s.seenWrite == s.read)
  }

  ghost predicate Inv<T>(s: Ring<T>) {
    && WellFormed(s)
    && !s.fault && !s.race
    && s.write == |s.pushed| && s.read == |s.popped| && s.popped <= s.pushed
    && ViewsSafe(s) && ThreadsMatch(s) && SlotsMatch(s)
  }

  lemma InitInv<T>(cap: nat)
    requires 0 < cap
    ensures Inv(Init<T>(cap))
  {
    forall i | 0 <= i < cap
      ensures RawAt(Init<T>(cap), i)
    {
    }
  }

  /** Steps that touch neither a slot nor a counter's pending end keep the slots as they were. */
  lemma SlotsFrame<T>(s: Ring<T>, t: Ring<T>)
    requires WellFormed(s) && WellFormed(t) && Hi(s) == |Built(s)| && SlotsMatch(s)
    requires t.cap == s.cap && t.slots == s.slots && t.published == s.published
    requires Lo(t) == Lo(s) && Hi(t) == Hi(s) && Built(t) == Built(s)
    ensures SlotsMatch(t)
  {
    forall i | Lo(t) <= i < Hi(t) ensures LiveAt(t, i) { assert LiveAt(s, i); }
    forall i | Hi(t) <= i < Lo(t) + t.cap ensures RawAt(t, i) { assert RawAt(s, i); }
  }

  lemma ConstructInv<T>(s: Ring<T>)
    requires Inv(s) && Enabled(s, Construct)
    ensures Inv(Apply(s, Construct))
  {
    var t := Apply(s, Construct);
    var w := s.write;
    assert RawAt(s, w);
    forall i | Lo(t) <= i < Hi(t)
      ensures LiveAt(t, i)
    {
      if i < w {
        assert LiveAt(s, i);
        IdxDistinct(i, w, s.cap);
      }
    }
    forall i | Hi(t) <= i < Lo(t) + t.cap
      ensures RawAt(t, i)
    {
      assert RawAt(s, i);
      IdxDistinct(w, i, s.cap);
    }
  }

  lemma MoveOutInv<T>(s: Ring<T>)
    requires Inv(s) && Enabled(s, MoveOut)
    ensures Inv(Apply(s, MoveOut))
  {
    assert LiveAt(s, s.read);
    SlotsFrame(s, Apply(s, MoveOut));
  }

  lemma DestroyInv<T>(s: Ring<T>)
    requires Inv(s) && Enabled(s, Destroy)
    ensures Inv(Apply(s, Destroy))
  {
    var t := Apply(s, Destroy);
    var r := s.read;
    assert LiveAt(s, r);
    forall i | Lo(t) <= i < Hi(t)
      ensures LiveAt(t, i)
    {
      assert LiveAt(s, i);
      IdxDistinct(r, i, s.cap);
    }
    forall i | Hi(t) <= i < Lo(t) + t.cap
      ensures RawAt(t, i)
    {
      if i < r + s.cap {
        assert RawAt(s, i);
        IdxDistinct(r, i, s.cap);
      } else {
        IdxTurn(r, s.cap);
      }
    }
  }

  /** Every step of either thread, stale loads included, keeps the invariant. */
  lemma StepInv<T>(s: Ring<T>, a: Action<T>)
    requires Inv(s) && Enabled(s, a)
    ensures Inv(Apply(s, a))
  {
    match a
    case Construct => ConstructInv(s);
    case MoveOut => MoveOutInv(s);
    case Destroy => DestroyInv(s);
    case StoreWrite => SlotsFrame(s, Apply(s, a));
    case StoreRead => SlotsFrame(s, Apply(s, a));
    case _ => LocalInv(s, a);
  }

  /** Calls, loads and returns move nothing but the thread itself and what it has seen. */
  lemma LocalInv<T>(s: Ring<T>, a: Action<T>)
    requires Inv(s) && Enabled(s, a)
    requires !a.Construct? && !a.StoreWrite? && !a.MoveOut? && !a.Destroy? && !a.StoreRead?
    ensures Inv(Apply(s, a))
  {
    SlotsFrame(s, Apply(s, a));
  }

  // ---------- whole runs ----------

  /** states[i] --acts[i]--> states[i+1], from an empty ring. */
  ghost predicate IsRun<T>(cap: nat, states: seq<Ring<T>>, acts: seq<Action<T>>) {
    && |states| == |acts| + 1
    && states[0] == Init(cap)
    && (forall i :: 0 <= i < |acts| ==>
          WellFormed(states[i]) && Enabled(states[i], acts[i]) && states[i + 1] == Apply(states[i], acts[i]))
  }

  /** A run can go on with any step enabled in its last state. */
  lemma RunSnoc<T>(cap: nat, states: seq<Ring<T>>, acts: seq<Action<T>>, a: Action<T>)
    requires IsRun(cap, states, acts) && WellFormed(states[|acts|]) && Enabled(states[|acts|], a)
    ensures IsRun(cap, states + [Apply(states[|acts|], a)], acts + [a])
  {
    var ss, aa := states + [Apply(states[|acts|], a)], acts + [a];
    forall i | 0 <= i < |aa|
      ensures WellFormed(ss[i]) && Enabled(ss[i], aa[i]) && ss[i + 1] == Apply(ss[i], aa[i])
    {
      assert i < |acts| ==> ss[i] == states[i] && aa[i] == acts[i];
    }
  }

  lemma {:induction false} RunInv<T>(cap: nat, states: seq<Ring<T>>, acts: seq<Action<T>>, n: nat)
    requires 0 < cap && IsRun(cap, states, acts) && n <= |acts|
    ensures Inv(states[n])
  {
    if n == 0 {
      InitInv<T>(cap);
    } else {
      RunInv(cap, states, acts, n - 1);
      StepInv(states[n - 1], acts[n - 1]);
    }
  }

  /** Any step of a run, from a state in which the invariant holds. */
  lemma RunStep<T>(cap: nat, states: seq<Ring<T>>, acts: seq<Action<T>>, n: nat)
    requires 0 < cap && IsRun(cap, states, acts) && n < |acts|
    ensures Inv(states[n]) && Enabled(states[n], acts[n]) && states[n + 1] == Apply(states[n], acts[n])
  {
    RunInv(cap, states, acts, n);
  }

  /** Release/acquire safety over whole runs: no slot is ever built over, read or destroyed wrongly,
      every slot access is ordered after the other thread's last one, both views stay safe, and what
      has been popped is a prefix of what has been pushed, never more than a capacity behind. */
  lemma RunSafe<T>(cap: nat, states: seq<Ring<T>>, acts: seq<Action<T>>)
    requires 0 < cap && IsRun(cap, states, acts)
    ensures forall i :: 0 <= i < |states| ==>
              && !states[i].fault && !states[i].race
              && states[i].write - states[i].seenRead <= cap
              && states[i].read <= states[i].seenWrite
              && states[i].popped <= states[i].pushed
              && |states[i].pushed| - |states[i].popped| <= cap
  {
    forall i | 0 <= i < |states|
      ensures Inv(states[i]) && states[i].cap == cap
    {
      RunInv(cap, states, acts, i);
      RunCap(cap, states, acts, i);
    }
  }

  lemma {:induction false} RunCap<T>(cap: nat, states: seq<Ring<T>>, acts: seq<Action<T>>, n: nat)
    requires IsRun(cap, states, acts) && n <= |acts|
    ensures states[n].cap == cap
  {
    if n > 0 {
      RunCap(cap, states, acts, n - 1);
    }
  }
}
