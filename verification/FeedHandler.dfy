/** UdpFeedHandler: the client's subscribe and unsubscribe calls, and the receive loop. */
module FeedHandler {
  import opened MarketData
  import opened WireFormat
  import opened Symbols
  import opened WordRing
  import opened CustomSpscQueues

  datatype SubCommand = SubCommand(isSubscribe: bool, id: U64)

  function Obey(subscriptions: set<U64>, cmd: SubCommand): set<U64> {
    if cmd.isSubscribe then subscriptions + {cmd.id} else subscriptions - {cmd.id}
  }

  function ObeyAll(subscriptions: set<U64>, cmds: seq<SubCommand>): set<U64> {
    if cmds == [] then subscriptions else Obey(ObeyAll(subscriptions, cmds[..|cmds| - 1]), cmds[|cmds| - 1])
  }

  /** i is the position of the last command about a symbol. */
  ghost predicate LastAbout(cmds: seq<SubCommand>, id: U64, i: nat) {
    i < |cmds| && cmds[i].id == id && forall j :: i < j < |cmds| ==> cmds[j].id != id
  }

  /** The last command about a symbol wins, wherever it is. */
  lemma {:induction false} LastCommandWins(subscriptions: set<U64>, cmds: seq<SubCommand>, id: U64, i: nat)
    requires LastAbout(cmds, id, i)
    ensures id in ObeyAll(subscriptions, cmds) <==> cmds[i].isSubscribe
  {
    if i < |cmds| - 1 {
      LastCommandWins(subscriptions, cmds[..|cmds| - 1], id, i);
    }
  }

  /** A symbol nobody mentioned keeps its status. */
  lemma {:induction false} UnmentionedKept(subscriptions: set<U64>, cmds: seq<SubCommand>, id: U64)
    requires forall i :: 0 <= i < |cmds| ==> cmds[i].id != id
    ensures id in ObeyAll(subscriptions, cmds) <==> id in subscriptions
  {
    if cmds != [] {
      UnmentionedKept(subscriptions, cmds[..|cmds| - 1], id);
    }
  }

  lemma ObeyAllSnoc(subscriptions: set<U64>, cmds: seq<SubCommand>, cmd: SubCommand)
    ensures ObeyAll(subscriptions, cmds + [cmd]) == Obey(ObeyAll(subscriptions, cmds), cmd)
  {
    assert (cmds + [cmd])[..|cmds|] == cmds;
  }

  /** What one call of recvfrom returns: nothing waiting or an error, or a datagram. */
  datatype Reception = Nothing | Packet(bytes: Bytes)

  function Delivery(r: Reception, subscriptions: set<U64>): seq<Message> {
    if r.Nothing? then [] else
      match Decode(Received(r.bytes), subscriptions)
      case None => []
      case Some(m) => [m]
  }

  datatype ClientCall = ClientCall(isSubscribe: bool, symbol: Bytes)

  /** One turn of the receive loop: the calls the client makes before it, and what its recvfrom returns. */
  datatype Turn = Turn(calls: seq<ClientCall>, reception: Reception)

  function Commands(calls: seq<ClientCall>): (cmds: seq<SubCommand>)
    ensures |cmds| == |calls|
  {
    seq(|calls|, i requires 0 <= i < |calls| => SubCommand(calls[i].isSubscribe, Pack(calls[i].symbol)))
  }

  /** The commands obeyed in a number of turns: all that waited before the first, and of each turn's calls as many as
      the queue has room for. */
  function ObeyedIn(waiting: seq<SubCommand>, turns: seq<Turn>): seq<SubCommand> {
    if turns == [] then []
    else
      var queued := if |turns| == 1 then waiting else [];
      ObeyedIn(waiting, turns[..|turns| - 1]) + FirstCommands(queued + Commands(turns[|turns| - 1].calls))
  }

  /** What is delivered: each turn's datagram, if it decodes under the fold of all commands obeyed so far. */
  function Deliveries(waiting: seq<SubCommand>, turns: seq<Turn>): seq<Message> {
    if turns == [] then []
    else
      Deliveries(waiting, turns[..|turns| - 1])
      + Delivery(turns[|turns| - 1].reception, ObeyAll({}, ObeyedIn(waiting, turns)))
  }

  lemma {:induction false} ObeyAllConcat(subscriptions: set<U64>, a: seq<SubCommand>, b: seq<SubCommand>)
    ensures ObeyAll(subscriptions, a + b) == ObeyAll(ObeyAll(subscriptions, a), b)
  {
    if b == [] {
      assert a + b == a;
    } else {
      var init, last := b[..|b| - 1], b[|b| - 1];
      ObeyAllConcat(subscriptions, a, init);
      assert a + b == (a + init) + [last];
      ObeyAllSnoc(subscriptions, a + init, last);
    }
  }

  /** A client that stays silent while the loop runs: the set is the same in every turn. */
  lemma {:induction false} SilentClient(waiting: seq<SubCommand>, turns: seq<Turn>)
    requires |waiting| <= CommandCapacity && turns != []
    requires forall i :: 0 <= i < |turns| ==> turns[i].calls == []
    ensures ObeyedIn(waiting, turns) == waiting
  {
    assert Commands([]) == [];
    if |turns| == 1 {
      assert ObeyedIn(waiting, turns) == [] + FirstCommands(waiting + []);
    } else {
      SilentClient(waiting, turns[..|turns| - 1]);
    }
  }

  class UdpFeedHandler {
    const commandQueue: CustomSpscQueue<SubCommand>

    ghost predicate Valid()
      reads this, commandQueue, commandQueue.data_
    {
      commandQueue.Valid() && commandQueue.capacity == CommandCapacity
    }

    constructor ()
      ensures Valid() && fresh(commandQueue) && fresh(commandQueue.data_) && commandQueue.contents == []
    {
      CapacitiesInUseWrap(0);
      commandQueue := new CustomSpscQueue<SubCommand>(CommandCapacity);
    }

    /** The command is dropped silently when the queue is full: nobody looks at push's answer. */
    method Subscribe(symbol: Bytes)
      requires Valid()
      modifies commandQueue, commandQueue.data_
      ensures Valid()
      ensures commandQueue.contents == Accept(old(commandQueue.contents), SubCommand(true, Pack(symbol)))
    {
      var _ := commandQueue.Push(SubCommand(true, Pack(symbol)));
    }

    method Unsubscribe(symbol: Bytes)
      requires Valid()
      modifies commandQueue, commandQueue.data_
      ensures Valid()
      ensures commandQueue.contents == Accept(old(commandQueue.contents), SubCommand(false, Pack(symbol)))
    {
      var _ := commandQueue.Push(SubCommand(false, Pack(symbol)));
    }

    /** The inner loop of receive_loop_impl: obey every queued command, in order. */
    method Drain(before: set<U64>) returns (subscriptions: set<U64>)
      requires Valid()
      modifies commandQueue, commandQueue.data_
      ensures Valid() && commandQueue.contents == []
      ensures subscriptions == ObeyAll(before, old(commandQueue.contents))
    {
      ghost var queued, done := commandQueue.contents, [];
      subscriptions := before;
      var cmd := commandQueue.Pop();
      while cmd.Some?
        invariant Valid()
        invariant cmd.Some? ==> queued == done + [cmd.value] + commandQueue.contents
        invariant cmd.None? ==> queued == done && commandQueue.contents == []
        invariant subscriptions == ObeyAll(before, done)
        decreases |queued| - |done|
      {
        ObeyAllSnoc(before, done, cmd.value);
        if cmd.value.isSubscribe {
          subscriptions := subscriptions + {cmd.value.id};
        } else {
          subscriptions := subscriptions - {cmd.value.id};
        }
        done := done + [cmd.value];
        cmd := commandQueue.Pop();
      }
    }

    method Call(call: ClientCall)
      requires Valid()
      modifies commandQueue, commandQueue.data_
      ensures Valid()
      ensures commandQueue.contents
              == Accept(old(commandQueue.contents), SubCommand(call.isSubscribe, Pack(call.symbol)))
    {
      if call.isSubscribe {
        Subscribe(call.symbol);
      } else {
        Unsubscribe(call.symbol);
      }
    }

    /** The client's calls of one turn. */
    method Calls(calls: seq<ClientCall>)
      requires Valid()
      modifies commandQueue, commandQueue.data_
      ensures Valid()
      ensures commandQueue.contents == FirstCommands(old(commandQueue.contents) + Commands(calls))
    {
      ghost var before := commandQueue.contents;
      assert before + Commands([]) == before;
      for i := 0 to |calls|
        invariant Valid()
        invariant commandQueue.contents == FirstCommands(before + Commands(calls[..i]))
      {
        CommandsSnoc(before, calls[..i], calls[i]);
        assert calls[..i + 1] == calls[..i] + [calls[i]];
        Call(calls[i]);
      }
      assert calls[..|calls|] == calls;
    }

    /** One turn: drain, then receive. */
    method TakeTurn(before: set<U64>, turn: Turn) returns (local: set<U64>, delivered: seq<Message>)
      requires Valid()
      modifies commandQueue, commandQueue.data_
      ensures Valid() && commandQueue.contents == []
      ensures local == ObeyAll(before, FirstCommands(old(commandQueue.contents) + Commands(turn.calls)))
      ensures delivered == Delivery(turn.reception, local)
    {
      Calls(turn.calls);
      local := Drain(before);
      delivered := [];
      if turn.reception.Packet? {
        var m := Decode(Received(turn.reception.bytes), local);
        if m.Some? {
          delivered := [m.value];
        }
      }
    }

    /** receive_loop_impl over a run of turns: a message is delivered exactly when it decodes under the subscriptions
        that the commands obeyed up to its turn lead to. */
    method ReceiveLoop(turns: seq<Turn>) returns (delivered: seq<Message>)
      requires Valid()
      modifies commandQueue, commandQueue.data_
      ensures Valid()
      ensures delivered == Deliveries(old(commandQueue.contents), turns)
      ensures turns != [] ==> commandQueue.contents == []
    {
      var local: set<U64> := {};
      delivered := [];
      ghost var waiting, done := commandQueue.contents, turns[..0];
      for i := 0 to |turns|
        invariant Valid()
        invariant done == turns[..i]
        invariant commandQueue.contents == if done == [] then waiting else []
        invariant UpTo(waiting, done, local, delivered)
      {
        assert turns[..i + 1] == turns[..i] + [turns[i]];
        ghost var queued, before := commandQueue.contents, local;
        var got;
        local, got := TakeTurn(local, turns[i]);
        TurnDone(waiting, done, before, delivered, turns[i], queued, local);
        delivered := delivered + got;
        done := done + [turns[i]];
      }
      assert done == turns;
    }
  }

  /** The receiver's set and what has been delivered after some turns. */
  ghost predicate UpTo(waiting: seq<SubCommand>, turns: seq<Turn>, local: set<U64>, delivered: seq<Message>) {
    local == ObeyAll({}, ObeyedIn(waiting, turns)) && delivered == Deliveries(waiting, turns)
  }

  lemma TurnDone(waiting: seq<SubCommand>, turns: seq<Turn>, local: set<U64>, delivered: seq<Message>,
                 turn: Turn, queued: seq<SubCommand>, after: set<U64>)
    requires UpTo(waiting, turns, local, delivered)
    requires queued == if turns == [] then waiting else []
    requires after == ObeyAll(local, FirstCommands(queued + Commands(turn.calls)))
    ensures UpTo(waiting, turns + [turn], after, delivered + Delivery(turn.reception, after))
  {
    assert (turns + [turn])[..|turns|] == turns;
    ObeyAllConcat({}, ObeyedIn(waiting, turns), FirstCommands(queued + Commands(turn.calls)));
  }

  function Accept(queued: seq<SubCommand>, cmd: SubCommand): seq<SubCommand> {
    if |queued| < CommandCapacity then queued + [cmd] else queued
  }

  function Subscriptions(names: seq<Bytes>): seq<SubCommand> {
    seq(|names|, i requires 0 <= i < |names| => SubCommand(true, Pack(names[i])))
  }

  function FirstCommands(cmds: seq<SubCommand>): seq<SubCommand> {
    if |cmds| <= CommandCapacity then cmds else cmds[..CommandCapacity]
  }

  lemma CommandsSnoc(before: seq<SubCommand>, calls: seq<ClientCall>, call: ClientCall)
    ensures FirstCommands(before + Commands(calls + [call]))
            == Accept(FirstCommands(before + Commands(calls)), SubCommand(call.isSubscribe, Pack(call.symbol)))
  {
    assert before + Commands(calls + [call])
        == (before + Commands(calls)) + [SubCommand(call.isSubscribe, Pack(call.symbol))];
  }

  lemma SubscriptionsSnoc(before: seq<SubCommand>, names: seq<Bytes>, name: Bytes)
    ensures FirstCommands(before + Subscriptions(names + [name]))
            == Accept(FirstCommands(before + Subscriptions(names)), SubCommand(true, Pack(name)))
  {
    assert before + Subscriptions(names + [name]) == (before + Subscriptions(names)) + [SubCommand(true, Pack(name))];
  }

  /** The subscription loop of run_benchmark_pipeline, reading the tickers file again.  Where the receiver does
      not drain in the meantime, only the first 128 commands get through. */
  method SubscribeAll(handler: UdpFeedHandler, lines: seq<Bytes>) returns (count: nat)
    requires handler.Valid()
    modifies handler.commandQueue, handler.commandQueue.data_
    ensures handler.Valid()
    ensures count == |Tickers(lines)|
    ensures handler.commandQueue.contents
            == FirstCommands(old(handler.commandQueue.contents) + Subscriptions(Tickers(lines)))
  {
    count := 0;
    ghost var before, names := handler.commandQueue.contents, Tickers(lines[..0]);
    assert before + Subscriptions([]) == before;
    for i := 0 to |lines|
      invariant handler.Valid()
      invariant names == Tickers(lines[..i]) && count == |names|
      invariant handler.commandQueue.contents == FirstCommands(before + Subscriptions(names))
    {
      assert lines[..i + 1] == lines[..i] + [lines[i]];
      TickersSnoc(lines[..i], lines[i]);
      var sym := ReadLine(lines[i]);
      if sym != [] && |sym| < 9 {
        SubscriptionsSnoc(before, names, sym);
        handler.Subscribe(sym);
        count := count + 1;
        names := names + [sym];
      }
    }
    assert lines[..|lines|] == lines;
  }

  // ---------- end to end ----------

  ghost predicate SubscribedTo(names: seq<Bytes>, s: Bytes) { exists i :: 0 <= i < |names| && Prefix(names[i], 8) == s }

  ghost predicate PackedAmong(names: seq<Bytes>, id: U64) { exists i :: 0 <= i < |names| && Pack(names[i]) == id }

  lemma PackedAmongSnoc(names: seq<Bytes>, name: Bytes, id: U64)
    ensures PackedAmong(names + [name], id) <==> PackedAmong(names, id) || Pack(name) == id
  {
    var all := names + [name];
    assert all[|names|] == name;
    if PackedAmong(names, id) {
      var i :| 0 <= i < |names| && Pack(names[i]) == id;
      assert all[i] == names[i];
    }
  }

  lemma {:induction false} PackedSubscriptions(names: seq<Bytes>, id: U64)
    ensures id in ObeyAll({}, Subscriptions(names)) <==> PackedAmong(names, id)
  {
    if names != [] {
      var init, last := names[..|names| - 1], names[|names| - 1];
      PackedSubscriptions(init, id);
      PackedAmongSnoc(init, last, id);
      ObeySubscriptionsSnoc(init, last);
      assert names == init + [last];
    }
  }

  lemma ObeySubscriptionsSnoc(names: seq<Bytes>, name: Bytes)
    ensures ObeyAll({}, Subscriptions(names + [name])) == ObeyAll({}, Subscriptions(names)) + {Pack(name)}
  {
    assert Subscriptions(names + [name]) == Subscriptions(names) + [SubCommand(true, Pack(name))];
    ObeyAllSnoc({}, Subscriptions(names), SubCommand(true, Pack(name)));
  }

  /** A message generated for ticker s, sent, received and filtered for a client who subscribed to the given
      names is delivered, whole, exactly when the first seven bytes of s are among them. */
  lemma EndToEnd(s: Bytes, m: Message, pad: Bytes, names: seq<Bytes>)
    requires NulFree(s) && m.symbol == Published(s) && |pad| == 4
    requires forall i :: 0 <= i < |names| ==> NulFree(names[i])
    ensures Delivery(Packet(Datagram(m, pad)), ObeyAll({}, Subscriptions(names)))
            == if SubscribedTo(names, Prefix(s, 7)) then [m] else []
  {
    WireRoundTrip(m, pad, ObeyAll({}, Subscriptions(names)));
    PackedSubscriptions(names, Pack(m.symbol));
    assert Pad8(m.symbol) == m.symbol;
    forall i | 0 <= i < |names|
      ensures Pack(names[i]) == Pack(m.symbol) <==> Prefix(names[i], 8) == Prefix(s, 7)
    {
      FilterExact(s, names[i]);
    }
  }
}
