/** CustomSpscQueue as it is: the counters are 64-bit words that wrap around. */
module WordRing {
  import opened Wrappers
  import opened Slots
  import opened SpscRing
  import opened Words

  /** The program's own state.  `fault` records construction over a live slot and use of a raw one. */
  datatype Ring64<T> = Ring64(
    cap: nat, slots: seq<Slot<T>>, read: nat, write: nat, p: Producer<T>, c: Consumer<T>,
    seenRead: nat, seenWrite: nat, fault: bool)

  ghost function Init64<T>(cap: nat): Ring64<T> {
    Ring64(cap, seq(cap, _ => Raw), 0, 0, PIdle, CIdle, 0, 0, false)
  }

  ghost predicate Enabled64<T>(s: Ring64<T>, a: Action<T>) {
    match a
    case PushCall(_) => s.p.PIdle?
    case LoadRead(v) => s.p.PGotWrite? && v < TwoTo64 && Minus(v, s.seenRead) <= Minus(s.read, s.seenRead)
    case Construct => s.p.PGotRead?
    case StoreWrite => s.p.PBuilt?
    case PushReturn => s.p.PDone?
    case PopCall => s.c.CIdle?
    case LoadWrite(v) => s.c.CGotRead? && v < TwoTo64 && Minus(v, s.seenWrite) <= Minus(s.write, s.seenWrite)
    case MoveOut => s.c.CGotWrite?
    case Destroy => s.c.CMoved?
    case StoreRead => s.c.CDestroyed?
    case PopReturn => s.c.CDone?
  }

  ghost function Apply64<T>(s: Ring64<T>, a: Action<T>): Ring64<T>
    requires 0 < s.cap == |s.slots| && Enabled64(s, a)
  {
    match a
    case PushCall(item) => s.(p := PGotWrite(item, s.write))
    case LoadRead(v) =>
      s.(seenRead := v, p := if Minus(s.p.w, v) == s.cap then PDone(false) else PGotRead(s.p.item, s.p.w))
    case Construct =>
      var k := Idx(s.p.w, s.cap);
      s.(fault := s.fault || s.slots[k].Live?, slots := s.slots[k := Live(s.p.item)], p := PBuilt(s.p.item, s.p.w))
    case StoreWrite => s.(write := Word(s.p.w + 1), p := PDone(true))
    case PushReturn => s.(p := PIdle)
    case PopCall => s.(c := CGotRead(s.read))
    case LoadWrite(v) => s.(seenWrite := v, c := if s.c.r == v then CDone(None) else CGotWrite(s.c.r))
    case MoveOut =>
      var k := Idx(s.c.r, s.cap);
      if s.slots[k].Raw? then s.(fault := true) else s.(c := CMoved(s.c.r, s.slots[k].value))
    case Destroy =>
      var k := Idx(s.c.r, s.cap);
      s.(fault := s.fault || s.slots[k].Raw?, slots := s.slots[k := Raw], c := CDestroyed(s.c.r, s.c.item))
    case StoreRead => s.(read := Word(s.c.r + 1), c := CDone(Some(s.c.item)))
    case PopReturn => s.(c := CIdle)
  }

  // ---------- wrapping the unbounded ring ----------

  ghost function WrapP<T>(p: Producer<T>): Producer<T> {
    match p
    case PGotWrite(item, w) => PGotWrite(item, Word(w))
    case PGotRead(item, w) => PGotRead(item, Word(w))
    case PBuilt(item, w) => PBuilt(item, Word(w))
    case _ => p
  }

  ghost function WrapC<T>(c: Consumer<T>): Consumer<T> {
    match c
    case CGotRead(r) => CGotRead(Word(r))
    case CGotWrite(r) => CGotWrite(Word(r))
    case CMoved(r, item) => CMoved(Word(r), item)
    case CDestroyed(r, item) => CDestroyed(Word(r), item)
    case _ => c
  }

  ghost function Wrap<T>(s: Ring<T>): Ring64<T> {
    Ring64(s.cap, s.slots, Word(s.read), Word(s.write), WrapP(s.p), WrapC(s.c),
           Word(s.seenRead), Word(s.seenWrite), s.fault)
  }

  ghost function WrapA<T>(a: Action<T>): Action<T> {
    match a
    case LoadRead(v) => LoadRead(Word(v))
    case LoadWrite(v) => LoadWrite(Word(v))
    case _ => a
  }

  ghost predicate Wrappable(cap: nat) {
    0 < cap < TwoTo64 && TwoTo64 % cap == 0
  }

  /** The word difference of two views that are at most a capacity apart is the true one. */
  lemma LoadReadWraps<T>(s: Ring<T>, v: nat)
    requires Inv(s) && Wrappable(s.cap) && Enabled(s, LoadRead(v))
    ensures Enabled64(Wrap(s), LoadRead(Word(v)))
    ensures Apply64(Wrap(s), LoadRead(Word(v))) == Wrap(Apply(s, LoadRead(v)))
  {
    MinusWords(v, s.seenRead);
    MinusWords(s.read, s.seenRead);
    MinusWords(s.p.w, v);
  }

  lemma LoadWriteWraps<T>(s: Ring<T>, v: nat)
    requires Inv(s) && Wrappable(s.cap) && Enabled(s, LoadWrite(v))
    ensures Enabled64(Wrap(s), LoadWrite(Word(v)))
    ensures Apply64(Wrap(s), LoadWrite(Word(v))) == Wrap(Apply(s, LoadWrite(v)))
  {
    MinusWords(v, s.seenWrite);
    MinusWords(s.write, s.seenWrite);
    WordsEqual(v, s.c.r);
  }

  /** Every step of the unbounded ring is the same step of the 64-bit one. */
  lemma StepWraps<T>(s: Ring<T>, a: Action<T>)
    requires Inv(s) && Wrappable(s.cap) && Enabled(s, a)
    ensures Enabled64(Wrap(s), WrapA(a))
    ensures Apply64(Wrap(s), WrapA(a)) == Wrap(Apply(s, a))
  {
    match a
    case LoadRead(v) => LoadReadWraps(s, v);
    case LoadWrite(v) => LoadWriteWraps(s, v);
    case Construct => IndexSurvivesWrap(s.p.w, s.cap);
    case MoveOut => IndexSurvivesWrap(s.c.r, s.cap);
    case Destroy => IndexSurvivesWrap(s.c.r, s.cap);
    case StoreWrite => WordSucc(s.p.w);
    case StoreRead => WordSucc(s.c.r);
    case _ =>
  }

  /** Conversely, every step of the 64-bit ring comes from a step of the unbounded one. */
  lemma StepUnwraps<T>(s: Ring<T>, b: Action<T>) returns (a: Action<T>)
    requires Inv(s) && Wrappable(s.cap) && Enabled64(Wrap(s), b)
    ensures Enabled(s, a) && WrapA(a) == b
  {
    match b
    case LoadRead(v) =>
      var d := Minus(v, Word(s.seenRead));
      MinusWords(s.read, s.seenRead);
      StepBack(v, s.seenRead);
      a := LoadRead(s.seenRead + d);
    case LoadWrite(v) =>
      var d := Minus(v, Word(s.seenWrite));
      MinusWords(s.write, s.seenWrite);
      StepBack(v, s.seenWrite);
      a := LoadWrite(s.seenWrite + d);
    case _ =>
      a := b;
  }

  /** Both together. */
  lemma UnwrappedStep<T>(s: Ring<T>, b: Action<T>) returns (a: Action<T>, t: Ring<T>)
    requires Inv(s) && Wrappable(s.cap) && Enabled64(Wrap(s), b)
    ensures Enabled(s, a) && WrapA(a) == b && t == Apply(s, a) && Wrap(t) == Apply64(Wrap(s), b)
  {
    a := StepUnwraps(s, b);
    StepWraps(s, a);
    t := Apply(s, a);
  }

  /** Adding a word difference back gives the word again. */
  lemma StepBack(v: nat, base: nat)
    requires v < TwoTo64
    ensures Word(base + Minus(v, Word(base))) == v
  {
  }

  ghost predicate IsRun64<T>(cap: nat, states: seq<Ring64<T>>, acts: seq<Action<T>>) {
    && |states| == |acts| + 1
    && states[0] == Init64(cap)
    && (forall i :: 0 <= i < |acts| ==>
          && 0 < states[i].cap == |states[i].slots|
          && Enabled64(states[i], acts[i]) && states[i + 1] == Apply64(states[i], acts[i]))
  }

  /** Step-for-step simulation over whole runs, across any number of wrap-arounds. */
  lemma {:induction false} RunUnwraps<T>(cap: nat, states: seq<Ring64<T>>, acts: seq<Action<T>>)
    returns (ss: seq<Ring<T>>, aa: seq<Action<T>>)
    requires Wrappable(cap) && IsRun64(cap, states, acts)
    ensures IsRun(cap, ss, aa) && |aa| == |acts|
    ensures forall i :: 0 <= i < |states| ==> states[i] == Wrap(ss[i])
    ensures forall i :: 0 <= i < |acts| ==> acts[i] == WrapA(aa[i])
    decreases |acts|
  {
    var n := |acts|;
    if n == 0 {
      ss, aa := [Init(cap)], [];
    } else {
      assert IsRun64(cap, states[..n], acts[..n - 1]);
      ss, aa := RunUnwraps(cap, states[..n], acts[..n - 1]);
      RunInv(cap, ss, aa, n - 1);
      RunCap(cap, ss, aa, n - 1);
      assert states[n - 1] == states[..n][n - 1] == Wrap(ss[n - 1]);
      var a, t := UnwrappedStep(ss[n - 1], acts[n - 1]);
      RunSnoc(cap, ss, aa, a);
      ss, aa := ss + [t], aa + [a];
    }
  }

  /** Every run of the unbounded ring, wrapped, is a run of the 64-bit ring. */
  lemma RunWraps<T>(cap: nat, ss: seq<Ring<T>>, aa: seq<Action<T>>)
    requires Wrappable(cap) && IsRun(cap, ss, aa)
    ensures IsRun64(cap, seq(|ss|, i requires 0 <= i < |ss| => Wrap(ss[i])),
                    seq(|aa|, i requires 0 <= i < |aa| => WrapA(aa[i])))
  {
    forall i | 0 <= i < |aa|
      ensures Inv(ss[i]) && Enabled64(Wrap(ss[i]), WrapA(aa[i]))
      ensures Apply64(Wrap(ss[i]), WrapA(aa[i])) == Wrap(ss[i + 1])
    {
      RunInv(cap, ss, aa, i);
      RunCap(cap, ss, aa, i);
      StepWraps(ss[i], aa[i]);
    }
  }

  /** Both threads' views, as word differences, stay within one capacity. */
  ghost predicate ViewsSafe64<T>(s: Ring64<T>) {
    && Minus(s.write, s.seenRead) <= s.cap
    && Minus(s.seenWrite, s.read) <= Minus(s.write, s.read) <= s.cap
  }

  lemma ViewsWrap<T>(s: Ring<T>)
    requires Inv(s) && Wrappable(s.cap)
    ensures ViewsSafe64(Wrap(s)) && !Wrap(s).fault
  {
    MinusWords(s.write, s.seenRead);
    MinusWords(s.seenWrite, s.read);
    MinusWords(s.write, s.read);
  }

  /** So the 64-bit ring itself never touches a slot wrongly, its views stay safe, and its pops hand back in order
      what its pushes put in, at most a capacity behind.  Races are a matter of the bookkeeping, which only the
      unbounded run keeps: it is race-free too. */
  lemma RunSafe64<T>(cap: nat, states: seq<Ring64<T>>, acts: seq<Action<T>>)
    returns (ss: seq<Ring<T>>, aa: seq<Action<T>>)
    requires Wrappable(cap) && IsRun64(cap, states, acts)
    ensures IsRun(cap, ss, aa) && |ss| == |states|
    ensures forall i :: 0 <= i < |states| ==> states[i] == Wrap(ss[i]) && !ss[i].race
    ensures forall i :: 0 <= i < |states| ==> !states[i].fault && ViewsSafe64(states[i])
    ensures forall n :: 0 <= n <= |acts| ==>
              && Pops(states, acts, n) <= Pushes(states, acts, n)
              && |Pushes(states, acts, n)| - |Pops(states, acts, n)| <= cap
  {
    ss, aa := RunUnwraps(cap, states, acts);
    RunSafe(cap, ss, aa);
    forall i | 0 <= i < |states|
      ensures !states[i].fault && ViewsSafe64(states[i])
    {
      RunInv(cap, ss, aa, i);
      RunCap(cap, ss, aa, i);
      ViewsWrap(ss[i]);
    }
    forall n | 0 <= n <= |acts|
      ensures Pushes(states, acts, n) == ss[n].pushed && Pops(states, acts, n) == ss[n].popped
    {
      HistoriesMatch(cap, states, acts, ss, aa, n);
    }
  }

  /** The item a step publishes, if it publishes one. */
  ghost function PushBy<T>(s: Ring64<T>, a: Action<T>): seq<T>
    requires Enabled64(s, a)
  {
    if a.StoreWrite? then [s.p.item] else []
  }

  /** The item a step hands back, if it hands one back. */
  ghost function PopBy<T>(s: Ring64<T>, a: Action<T>): seq<T>
    requires Enabled64(s, a)
  {
    if a.StoreRead? then [s.c.item] else []
  }

  /** What the first n steps of a run push. */
  ghost function Pushes<T>(states: seq<Ring64<T>>, acts: seq<Action<T>>, n: nat): seq<T>
    requires |states| == |acts| + 1 && n <= |acts|
    requires forall i :: 0 <= i < |acts| ==> Enabled64(states[i], acts[i])
  {
    if n == 0 then [] else Pushes(states, acts, n - 1) + PushBy(states[n - 1], acts[n - 1])
  }

  ghost function Pops<T>(states: seq<Ring64<T>>, acts: seq<Action<T>>, n: nat): seq<T>
    requires |states| == |acts| + 1 && n <= |acts|
    requires forall i :: 0 <= i < |acts| ==> Enabled64(states[i], acts[i])
  {
    if n == 0 then [] else Pops(states, acts, n - 1) + PopBy(states[n - 1], acts[n - 1])
  }

  lemma StepHistory<T>(s: Ring<T>, a: Action<T>)
    requires Inv(s) && Enabled(s, a) && Enabled64(Wrap(s), WrapA(a))
    ensures Apply(s, a).pushed == s.pushed + PushBy(Wrap(s), WrapA(a))
    ensures Apply(s, a).popped == s.popped + PopBy(Wrap(s), WrapA(a))
  {
  }

  lemma {:induction false} HistoriesMatch<T>(cap: nat, states: seq<Ring64<T>>, acts: seq<Action<T>>,
                                             ss: seq<Ring<T>>, aa: seq<Action<T>>, n: nat)
    requires Wrappable(cap) && IsRun64(cap, states, acts) && IsRun(cap, ss, aa) && n <= |aa| == |acts|
    requires forall i :: 0 <= i < |states| ==> states[i] == Wrap(ss[i])
    requires forall i :: 0 <= i < |acts| ==> acts[i] == WrapA(aa[i])
    ensures Pushes(states, acts, n) == ss[n].pushed && Pops(states, acts, n) == ss[n].popped
  {
    if n > 0 {
      HistoriesMatch(cap, states, acts, ss, aa, n - 1);
      RunInv(cap, ss, aa, n - 1);
      assert states[n - 1] == Wrap(ss[n - 1]) && acts[n - 1] == WrapA(aa[n - 1]);
      StepHistory(ss[n - 1], aa[n - 1]);
    }
  }

  // ---------- the capacities in use ----------

  /** dispatch_size: the queue sizes the program can be started with. */
  function DispatchSize(size: nat): (r: Result<nat>)
  {
    if size in {128, 512, 1024, 4096, 16384, 65536} then Ok(size)
    else Err("Unsupported queue size. Allowed: 128, 512, 1024, 4096, 16384, 65536")
  }

  /** The feed handler's command queue. */
  const CommandCapacity: nat := 128

  lemma CapacitiesInUseWrap(size: nat)
    ensures DispatchSize(size).Ok? ==> DispatchSize(size).value == size && Wrappable(size)
    ensures DispatchSize(size).Ok?
            <==> size == 128 || size == 512 || size == 1024 || size == 4096 || size == 16384 || size == 65536
    ensures Wrappable(CommandCapacity)
  {
  }
}
