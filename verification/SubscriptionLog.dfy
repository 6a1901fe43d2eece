/** The command queue with the client and the receiver running side by side, stale loads included. */
module SubscriptionLog {
  import opened Wrappers
  import opened MarketData
  import opened SpscRing
  import opened Linearizability
  import opened EmptyCheck
  import opened WordRing
  import opened FeedHandler

  /** Every subscribe and unsubscribe call made in the first n steps, in order. */
  ghost function Issued(acts: seq<Action<SubCommand>>, n: nat): seq<SubCommand>
    requires n <= |acts|
  {
    if n == 0 then [] else Issued(acts, n - 1) + IssuedBy(acts[n - 1])
  }

  ghost function IssuedBy(a: Action<SubCommand>): seq<SubCommand> { if a.PushCall? then [a.item] else [] }

  /** The command of a call that has neither been refused nor taken effect yet. */
  ghost function Pending(p: Producer<SubCommand>): seq<SubCommand> {
    if p.PGotWrite? || p.PGotRead? || p.PBuilt? then [p.item] else []
  }

  /** This load makes push give up; nobody looks at its answer. */
  ghost predicate Refuses(s: Ring<SubCommand>, a: Action<SubCommand>) {
    a.LoadRead? && s.p.PGotWrite? && s.p.w - a.v == s.cap
  }

  ghost function Refusals(states: seq<Ring<SubCommand>>, acts: seq<Action<SubCommand>>, n: nat): nat
    requires n <= |acts| && |states| == |acts| + 1
  {
    if n == 0 then 0 else Refusals(states, acts, n - 1) + if Refuses(states[n - 1], acts[n - 1]) then 1 else 0
  }

  /** The receiver's local set in state n, for a receive loop entered in state b: each command a pop hands back
      is obeyed at once. */
  ghost function Local(states: seq<Ring<SubCommand>>, acts: seq<Action<SubCommand>>, b: nat, n: nat): set<U64>
    requires b <= n <= |acts| && |states| == |acts| + 1
  {
    if n == b then {} else ObeyResult(Local(states, acts, b, n - 1), states[n - 1], acts[n - 1])
  }

  ghost function ObeyResult(local: set<U64>, s: Ring<SubCommand>, a: Action<SubCommand>): set<U64> {
    if a.PopReturn? && s.c.CDone? && s.c.result.Some? then Obey(local, s.c.result.value) else local
  }

  /** Popped and handed back to the loop. */
  ghost function Obeyed(s: Ring<SubCommand>): seq<SubCommand> {
    if s.c.CDone? && s.c.result.Some? && s.popped != [] then s.popped[..|s.popped| - 1] else s.popped
  }

  // ---------- the set follows the queue ----------

  /** The command a step hands back to the loop, if it hands one back. */
  ghost function HandedBack(s: Ring<SubCommand>, a: Action<SubCommand>): seq<SubCommand> {
    if a.PopReturn? && s.c.CDone? && s.c.result.Some? then [s.c.result.value] else []
  }

  lemma HandBackStep(s: Ring<SubCommand>, a: Action<SubCommand>)
    requires Inv(s) && Enabled(s, a)
    ensures Obeyed(Apply(s, a)) == Obeyed(s) + HandedBack(s, a)
  {
  }

  /** obeyed: what was handed back before; the part from `from` on is what the local set is the fold of. */
  lemma FoldStep(obeyed: seq<SubCommand>, from: nat, local: set<U64>, s: Ring<SubCommand>, a: Action<SubCommand>)
    requires from <= |obeyed| && local == ObeyAll({}, obeyed[from..])
    ensures ObeyResult(local, s, a) == ObeyAll({}, (obeyed + HandedBack(s, a))[from..])
  {
    assert (obeyed + HandedBack(s, a))[from..] == obeyed[from..] + HandedBack(s, a);
    if HandedBack(s, a) != [] {
      ObeyAllSnoc({}, obeyed[from..], s.c.result.value);
    } else {
      assert obeyed[from..] + [] == obeyed[from..];
    }
  }

  lemma ObeyStep(s: Ring<SubCommand>, a: Action<SubCommand>, from: nat, local: set<U64>)
    requires Inv(s) && Enabled(s, a)
    requires from <= |Obeyed(s)| && local == ObeyAll({}, Obeyed(s)[from..])
    ensures from <= |Obeyed(Apply(s, a))| && ObeyResult(local, s, a) == ObeyAll({}, Obeyed(Apply(s, a))[from..])
  {
    HandBackStep(s, a);
    FoldStep(Obeyed(s), from, local, s, a);
  }

  lemma {:induction false} FoldsThroughout(states: seq<Ring<SubCommand>>, acts: seq<Action<SubCommand>>, b: nat, n: nat,
                                           from: nat)
    requires b <= n <= |acts| && |states| == |acts| + 1 && from == |Obeyed(states[b])|
    requires forall k :: b <= k < n ==> Obeyed(states[k + 1]) == Obeyed(states[k]) + HandedBack(states[k], acts[k])
    ensures from <= |Obeyed(states[n])| && Local(states, acts, b, n) == ObeyAll({}, Obeyed(states[n])[from..])
    decreases n
  {
    if n > b {
      FoldsThroughout(states, acts, b, n - 1, from);
      FoldStep(Obeyed(states[n - 1]), from, Local(states, acts, b, n - 1), states[n - 1], acts[n - 1]);
    }
  }

  /** In every state of every interleaving the local set is the fold, in order, of the commands handed back since
      the loop was entered. */
  lemma SetFollowsQueue(states: seq<Ring<SubCommand>>, acts: seq<Action<SubCommand>>, b: nat, n: nat)
    requires IsRun(CommandCapacity, states, acts) && b <= n <= |acts| && states[b].c.CIdle?
    ensures |states[b].popped| <= |Obeyed(states[n])|
    ensures Local(states, acts, b, n) == ObeyAll({}, Obeyed(states[n])[|states[b].popped|..])
  {
    forall k | b <= k < n
      ensures Obeyed(states[k + 1]) == Obeyed(states[k]) + HandedBack(states[k], acts[k])
    {
      RunStep(CommandCapacity, states, acts, k);
      HandBackStep(states[k], acts[k]);
    }
    FoldsThroughout(states, acts, b, n, |states[b].popped|);
  }

  lemma DrainEnds(s: Ring<SubCommand>, v: nat, t: Ring<SubCommand>, from: nat)
    requires Inv(s) && Enabled(s, LoadWrite(v)) && t == Apply(s, LoadWrite(v)) && t.c == CDone(None)
    requires from <= |Obeyed(t)|
    ensures from <= v <= |s.pushed| && Obeyed(t)[from..] == s.pushed[from..v]
    ensures Fresh(s, LoadWrite(v)) ==> v == |s.pushed|
  {
    assert Obeyed(t) == s.pushed[..v];
  }

  /** A drain ends with a pop that finds nothing: then the set is the fold of all that was accepted up to the value
      that pop's load returned; all that was accepted by then, if it was the current one. */
  lemma SetAfterDrain(states: seq<Ring<SubCommand>>, acts: seq<Action<SubCommand>>, b: nat, n: nat, v: nat)
    requires IsRun(CommandCapacity, states, acts) && b <= n < |acts| && states[b].c.CIdle?
    requires acts[n] == LoadWrite(v) && states[n + 1].c == CDone(None)
    ensures |states[b].popped| <= v <= |states[n].pushed|
    ensures Local(states, acts, b, n + 1) == ObeyAll({}, states[n].pushed[|states[b].popped|..v])
    ensures Fresh(states[n], acts[n]) ==> v == |states[n].pushed|
  {
    SetFollowsQueue(states, acts, b, n + 1);
    RunInv(CommandCapacity, states, acts, n);
    DrainEnds(states[n], v, states[n + 1], |states[b].popped|);
  }

  // ---------- what is lost ----------

  ghost predicate Subsequence(a: seq<SubCommand>, b: seq<SubCommand>) {
    if a == [] then true
    else if b == [] then false
    else if a[|a| - 1] == b[|b| - 1] && Subsequence(a[..|a| - 1], b[..|b| - 1]) then true
    else Subsequence(a, b[..|b| - 1])
  }

  lemma SubsequenceSnoc(a: seq<SubCommand>, b: seq<SubCommand>, cmd: SubCommand)
    requires Subsequence(a, b)
    ensures Subsequence(a + [cmd], b + [cmd]) && Subsequence(a, b + [cmd])
  {
    assert (a + [cmd])[..|a|] == a && (b + [cmd])[..|b|] == b;
  }

  lemma {:induction false} SubsequenceInit(a: seq<SubCommand>, cmd: SubCommand, b: seq<SubCommand>)
    requires Subsequence(a + [cmd], b)
    ensures Subsequence(a, b)
  {
    var init, last := b[..|b| - 1], b[|b| - 1];
    assert b == init + [last] && (a + [cmd])[..|a|] == a;
    if !Subsequence(a, init) {
      SubsequenceInit(a, cmd, init);
    }
    SubsequenceSnoc(a, init, last);
  }

  /** What was accepted, and what is pending, is what was issued, less what was refused, in order. */
  ghost predicate LogSound(s: Ring<SubCommand>, issued: seq<SubCommand>, refused: nat) {
    var kept := s.pushed + Pending(s.p);
    && Subsequence(kept, issued)
    && |issued| == |kept| + refused
    && (refused == 0 ==> kept == issued)
  }

  lemma LogStep(s: Ring<SubCommand>, a: Action<SubCommand>, issued: seq<SubCommand>, refused: nat)
    requires Inv(s) && Enabled(s, a) && LogSound(s, issued, refused)
    ensures LogSound(Apply(s, a), issued + IssuedBy(a), refused + if Refuses(s, a) then 1 else 0)
  {
    var t := Apply(s, a);
    var kept := s.pushed + Pending(s.p);
    if a.PushCall? {
      assert t.pushed + Pending(t.p) == kept + [a.item];
      SubsequenceSnoc(kept, issued, a.item);
    } else if Refuses(s, a) {
      assert t.pushed + Pending(t.p) == s.pushed;
      SubsequenceInit(s.pushed, s.p.item, issued);
    } else {
      assert t.pushed + Pending(t.p) == kept;
    }
    assert !a.PushCall? ==> issued + IssuedBy(a) == issued;
  }

  /** In every state of every interleaving: the accepted commands and the pending one are a subsequence of the issued
      ones, and the rest is what loads of a full-looking queue refused. */
  lemma {:induction false} AcceptedOfIssued(states: seq<Ring<SubCommand>>, acts: seq<Action<SubCommand>>, n: nat)
    requires IsRun(CommandCapacity, states, acts) && n <= |acts|
    ensures LogSound(states[n], Issued(acts, n), Refusals(states, acts, n))
  {
    if n > 0 {
      AcceptedOfIssued(states, acts, n - 1);
      RunStep(CommandCapacity, states, acts, n - 1);
      var s, a := states[n - 1], acts[n - 1];
      LogStep(s, a, Issued(acts, n - 1), Refusals(states, acts, n - 1));
      assert Issued(acts, n) == Issued(acts, n - 1) + IssuedBy(a);
    }
  }

  lemma {:induction false} NoRefusals(states: seq<Ring<SubCommand>>, acts: seq<Action<SubCommand>>, n: nat)
    requires n <= |acts| && |states| == |acts| + 1
    ensures Refusals(states, acts, n) == 0 <==> forall k :: 0 <= k < n ==> !Refuses(states[k], acts[k])
  {
    if n > 0 {
      NoRefusals(states, acts, n - 1);
    }
  }

  /** No command is lost exactly when no call has loaded a `read_` a full capacity behind `write_`. */
  lemma AllAcceptedIff(states: seq<Ring<SubCommand>>, acts: seq<Action<SubCommand>>, n: nat)
    requires IsRun(CommandCapacity, states, acts) && n <= |acts|
    ensures states[n].pushed + Pending(states[n].p) == Issued(acts, n)
            <==> forall k :: 0 <= k < n ==> !Refuses(states[k], acts[k])
  {
    AcceptedOfIssued(states, acts, n);
    NoRefusals(states, acts, n);
  }

  /** A call can be refused exactly when, as far as the client has seen, 128 commands are outstanding; and only if
      its load shows it nothing newer. */
  lemma RefusalPossibleIff(s: Ring<SubCommand>)
    requires Inv(s) && s.p.PGotWrite?
    ensures (exists v :: Enabled(s, LoadRead(v)) && Refuses(s, LoadRead(v))) <==> s.write - s.seenRead == s.cap
    ensures forall v :: Enabled(s, LoadRead(v)) && Refuses(s, LoadRead(v)) ==> v == s.seenRead
  {
    assert Enabled(s, LoadRead(s.seenRead));
  }

  /** Where all loads are current, none is lost exactly when no call was made with 128 outstanding. */
  lemma AllAcceptedIffFresh(states: seq<Ring<SubCommand>>, acts: seq<Action<SubCommand>>, n: nat)
    requires IsRun(CommandCapacity, states, acts) && n <= |acts| && AllFresh(states, acts)
    ensures states[n].pushed + Pending(states[n].p) == Issued(acts, n)
            <==> forall k :: 0 <= k < n && acts[k].LoadRead? ==> |states[k].pushed| - |states[k].popped| < CommandCapacity
  {
    AllAcceptedIff(states, acts, n);
    forall k | 0 <= k < n && acts[k].LoadRead?
      ensures Refuses(states[k], acts[k]) <==> |states[k].pushed| - |states[k].popped| >= CommandCapacity
    {
      RunInv(CommandCapacity, states, acts, k);
      RunCap(CommandCapacity, states, acts, k);
      assert Fresh(states[k], acts[k]);
    }
  }

  // ---------- two losses ----------

  lemma {:induction false} IssuedPrefix(acts: seq<Action<SubCommand>>, more: seq<Action<SubCommand>>, n: nat)
    requires n <= |acts|
    ensures Issued(acts + more, n) == Issued(acts, n)
  {
    if n > 0 {
      IssuedPrefix(acts, more, n - 1);
      assert (acts + more)[n - 1] == acts[n - 1];
    }
  }

  /** A call adds its command, whatever the steps after its first are. */
  lemma {:induction false} IssuedByCall(acts: seq<Action<SubCommand>>, cmd: SubCommand, rest: seq<Action<SubCommand>>)
    requires forall k :: 0 <= k < |rest| ==> !rest[k].PushCall?
    ensures var all := acts + ([PushCall(cmd)] + rest); Issued(all, |all|) == Issued(acts, |acts|) + [cmd]
    decreases |rest|
  {
    var all := acts + ([PushCall(cmd)] + rest);
    if rest == [] {
      IssuedPrefix(acts, [PushCall(cmd)] + rest, |acts|);
      assert all[|acts|] == PushCall(cmd);
    } else {
      var init, last := rest[..|rest| - 1], rest[|rest| - 1];
      IssuedByCall(acts, cmd, init);
      var before := acts + ([PushCall(cmd)] + init);
      assert all == before + [last];
      IssuedPrefix(before, [last], |before|);
    }
  }

  /** n calls, one after the other, while the receiver is elsewhere. */
  lemma {:induction false} IssueMany(cmd: SubCommand, n: nat)
    returns (states: seq<Ring<SubCommand>>, acts: seq<Action<SubCommand>>)
    requires n <= CommandCapacity
    ensures IsRun(CommandCapacity, states, acts) && AllFresh(states, acts)
    ensures var s := states[|acts|];
            s.p.PIdle? && s.c.CIdle? && |s.pushed| == n && s.popped == [] && s.seenRead == 0
    ensures |Issued(acts, |acts|)| == n
    decreases n
  {
    if n == 0 {
      states, acts := [Init(CommandCapacity)], [];
    } else {
      var ss, aa := IssueMany(cmd, n - 1);
      RunInv(CommandCapacity, ss, aa, |aa|);
      states, acts := WholePush(CommandCapacity, ss, aa, cmd);
      var rest := [LoadRead(ss[|aa|].read), Construct, StoreWrite, PushReturn];
      assert acts == aa + ([PushCall(cmd)] + rest);
      IssuedByCall(aa, cmd, rest);
    }
  }

  /** One more call, whose load returns the oldest value it may. */
  lemma RefusedCall(states0: seq<Ring<SubCommand>>, acts0: seq<Action<SubCommand>>, cmd: SubCommand)
    returns (states: seq<Ring<SubCommand>>, acts: seq<Action<SubCommand>>)
    requires IsRun(CommandCapacity, states0, acts0) && states0[|acts0|].p.PIdle?
    requires |states0[|acts0|].pushed| == CommandCapacity && states0[|acts0|].seenRead == 0
    ensures IsRun(CommandCapacity, states, acts) && acts == acts0 + [PushCall(cmd), LoadRead(0)]
    ensures states == states0 + states[|states0|..]
    ensures states[|acts|] == states0[|acts0|].(p := PDone(false))
    ensures Issued(acts, |acts|) == Issued(acts0, |acts0|) + [cmd]
  {
    var s0 := states0[|acts0|];
    RunInv(CommandCapacity, states0, acts0, |acts0|);
    RunCap(CommandCapacity, states0, acts0, |acts0|);
    var s1 := Apply(s0, PushCall(cmd));
    RunSnoc(CommandCapacity, states0, acts0, PushCall(cmd));
    var ss, aa := states0 + [s1], acts0 + [PushCall(cmd)];
    var s2 := Apply(s1, LoadRead(0));
    RunSnoc(CommandCapacity, ss, aa, LoadRead(0));
    states, acts := ss + [s2], aa + [LoadRead(0)];
    IssuedByCall(acts0, cmd, [LoadRead(0)]);
    assert acts == acts0 + ([PushCall(cmd)] + [LoadRead(0)]);
  }

  /** 129 calls in a row: the last one is lost, current loads or not. */
  lemma OneHundredAndTwentyNine(cmd: SubCommand)
    returns (states: seq<Ring<SubCommand>>, acts: seq<Action<SubCommand>>)
    ensures IsRun(CommandCapacity, states, acts) && AllFresh(states, acts)
    ensures |Issued(acts, |acts|)| == 129 && |states[|acts|].pushed| == 128 && states[|acts|].p == PDone(false)
  {
    var ss, aa := IssueMany(cmd, CommandCapacity);
    RunInv(CommandCapacity, ss, aa, |aa|);
    states, acts := RefusedCall(ss, aa, cmd);
    forall i | 0 <= i < |acts| ensures Fresh(states[i], acts[i]) {
      if i < |aa| {
        assert Fresh(ss[i], aa[i]);
        assert states[i] == ss[i];
      }
    }
  }

  lemma {:induction false} PopAll(states0: seq<Ring<SubCommand>>, acts0: seq<Action<SubCommand>>)
    returns (states: seq<Ring<SubCommand>>, acts: seq<Action<SubCommand>>)
    requires IsRun(CommandCapacity, states0, acts0) && AllFresh(states0, acts0)
    requires states0[|acts0|].c.CIdle? && |states0[|acts0|].popped| <= |states0[|acts0|].pushed|
    ensures IsRun(CommandCapacity, states, acts) && AllFresh(states, acts)
    ensures var s, t := states0[|acts0|], states[|acts|];
            t.p == s.p && t.c.CIdle? && t.pushed == s.pushed && |t.popped| == |s.pushed| && t.seenRead == s.seenRead
    decreases |states0[|acts0|].pushed| - |states0[|acts0|].popped|
  {
    var s := states0[|acts0|];
    states, acts := states0, acts0;
    if |s.popped| < |s.pushed| {
      var ss, aa := WholePop(CommandCapacity, states0, acts0);
      states, acts := PopAll(ss, aa);
    }
  }

  /** A call made on an empty queue can be lost as well: the client filled it once, the receiver has since drained
      it, and the client's load does not show that yet. */
  lemma LostOnAnEmptyQueue(cmd: SubCommand)
    returns (states: seq<Ring<SubCommand>>, acts: seq<Action<SubCommand>>)
    ensures IsRun(CommandCapacity, states, acts)
    ensures states[|acts|].pushed == states[|acts|].popped && states[|acts|].p == PDone(false)
    ensures states[|acts|].pushed + Pending(states[|acts|].p) != Issued(acts, |acts|)
  {
    var s1, a1 := IssueMany(cmd, CommandCapacity);
    RunInv(CommandCapacity, s1, a1, |a1|);
    var s2, a2 := PopAll(s1, a1);
    states, acts := RefusedCall(s2, a2, cmd);
    RunInv(CommandCapacity, states, acts, |acts|);
    RunCap(CommandCapacity, states, acts, |acts| - 1);
    AllAcceptedIff(states, acts, |acts|);
    assert states[|acts| - 1].p.PGotWrite?;
    assert Refuses(states[|acts| - 1], acts[|acts| - 1]);
  }
}
