/** When the requests of the serial device end in the order in which they moved their bytes. */
module SerialOrder {
  import opened Lists
  import opened Machine
  import opened SerialQueue
  import opened SerialRuns
  import H = SerialHistory

  lemma HistoriesOk(s: State)
    requires Inv(s)
    ensures H.Ok(s.taken) && H.Ok(s.given) && H.Once(s.taken.log) && H.Once(s.given.log)
  {
  }

  lemma Rest(nodes: seq<nat>)
    requires nodes != [] && NoRepeats(nodes)
    ensures NoRepeats(nodes[1..]) && nodes[0] !in nodes[1..]
    ensures forall x :: x in nodes[1..] ==> x in nodes
  {
  }

  // ---------------------------------------------------------------- reads

  /** The call ends its request as the oldest open one, and nobody ended it before; an interrupt
      serves a read only while no call is open. */
  predicate ReadInTurn(s: State, op: Op) {
    match op
    case EndServed(id) =>
      id in s.taken.open && id in s.q.reqs ==> !s.q.reqs[id].done && s.taken.open[id] == |s.taken.ends|
    case ReceiveInterrupt(bytes) => s.taken.open == map[] || NobodyTakes(Stored(s, bytes), s.q.input)
    case _ => true
  }

  predicate ReadsInTurn(s: State, ops: seq<Op>)
    decreases |ops|
  {
    ops == [] || (ReadInTurn(s, ops[0]) && ReadsInTurn(Next(s, ops[0]), ops[1..]))
  }

  predicate NobodyTakes(s: State, nodes: seq<nat>) {
    forall x :: x in nodes ==> !CanTake(s, x)
  }

  lemma TakenOrdered(s: State, id: nat)
    requires Inv(s)
    ensures H.Ordered(Taken(s, id).taken) <==> H.Ordered(s.taken)
    ensures !CanTake(s, id) ==> Taken(s, id).taken == s.taken
    ensures CanTake(s, id) ==>
              && |Taken(s, id).taken.log| == |s.taken.log| + 1 && Taken(s, id).taken.ends == s.taken.ends
              && Taken(s, id).taken.open == s.taken.open[id := |s.taken.log|] && id !in s.taken.open
  {
    hide Ok, StreamsOk, H.Ordered;
    if CanTake(s, id) {
      assert id in s.taken.open ==> OpenOk(s.taken, s.q.reqs, id, CMD_READ);
      H.TookOrdered(s.taken, id, s.q.reqs[id].round, Taken(s, id).taken.log[|s.taken.log|].bytes);
    }
  }

  lemma ServedReadOrdered(s: State, id: nat)
    requires Inv(s)
    ensures H.Ordered(Served(s, id).taken) <==> H.Ordered(s.taken) && ReadInTurn(s, EndServed(id))
    ensures Served(s, id).taken.log == s.taken.log
    ensures Served(s, id).taken.open == s.taken.open - {id}
  {
    hide Ok, StreamsOk, H.Ordered, EndWith;
    assert id in s.taken.open ==> OpenOk(s.taken, s.q.reqs, id, CMD_READ);
    assert id in s.given.open ==> OpenOk(s.given, s.q.reqs, id, CMD_WRITE);
    if id in s.taken.open {
      H.ClosedOrdered(s.taken, id, !s.q.reqs[id].done);
    }
  }

  /** A read that is served without interruption is in turn when no call is open. */
  lemma ReadWholeOrdered(s: State, id: nat)
    requires Inv(s) && id in s.q.reqs && !s.q.reqs[id].done
    ensures var t := ReadWhole(s, id);
            && t.taken.open == s.taken.open
            && (!CanTake(s, id) ==> t.taken == s.taken)
            && (CanTake(s, id) ==> |t.taken.log| > |s.taken.log|)
            && (H.Ordered(t.taken) <==> H.Ordered(s.taken) && (s.taken.open == map[] || !CanTake(s, id)))
  {
    hide Ok, StreamsOk, MarkedOk, HistoryOk, H.Ordered, Served;
    TakenOrdered(s, id);
    if CanTake(s, id) {
      var u := Taken(s, id);
      TakenKeepsInv(s, id);
      ServedReadOrdered(u, id);
      assert u.taken.open - {id} == s.taken.open;
      if H.Ordered(s.taken) {
        HistoriesOk(s);
        H.AllEnded(s.taken);
      }
    }
  }

  /** The requests of the queue that are behind one stay in it while that one is served. */
  lemma ReadWholeQueue(s: State, id: nat)
    requires Inv(s) && id in s.q.input
    ensures var t := ReadWhole(s, id);
            && Inv(t) && t.q.input == if CanTake(s, id) then Removed(s.q.input, id) else s.q.input
    ensures id in s.q.reqs && !s.q.reqs[id].done
  {
    assert Waits(s.q, id);
    hide Ok, StreamsOk, MarkedOk, HistoryOk, Served;
    TakenKeepsInv(s, id);
    if CanTake(s, id) {
      ServedEnds(Taken(s, id), id);
    }
  }

  lemma {:induction false} ReadAllOrdered(s: State, nodes: seq<nat>)
    requires Inv(s) && NoRepeats(nodes) && forall x :: x in nodes ==> x in s.q.input
    ensures var t := ReadAll(s, nodes);
            && t.taken.open == s.taken.open
            && (H.Ordered(t.taken) <==> H.Ordered(s.taken) && (s.taken.open == map[] || NobodyTakes(s, nodes)))
    decreases |nodes|
  {
    hide Inv, H.Ordered, ReadWhole, CanTake;
    if nodes != [] {
      var id, t := nodes[0], ReadWhole(s, nodes[0]);
      ReadWholeQueue(s, id);
      ReadWholeOrdered(s, id);
      Rest(nodes);
      ReadAllOrdered(t, nodes[1..]);
      if !CanTake(s, id) {
        NobodyTakesRest(s, nodes);
      }
    }
  }

  lemma NobodyTakesRest(s: State, nodes: seq<nat>)
    requires nodes != [] && !CanTake(s, nodes[0])
    ensures NobodyTakes(ReadWhole(s, nodes[0]), nodes[1..]) <==> NobodyTakes(s, nodes)
  {
    var id, t := nodes[0], ReadWhole(s, nodes[0]);
    assert nodes == [id] + nodes[1..];
    assert forall x :: CanTake(t, x) == CanTake(s, x);
  }

  lemma ReadStepOrdered(s: State, op: Op)
    requires Inv(s) && Legal(s, op)
    ensures H.Ordered(Next(s, op).taken) <==> H.Ordered(s.taken) && ReadInTurn(s, op)
  {
    hide Ok, StreamsOk, MarkedOk, HistoryOk, H.Ordered, Taken, Served;
    match op
    case Take(id) => TakenOrdered(s, id);
    case EndServed(id) => ServedReadOrdered(s, id);
    case ReceiveInterrupt(bytes) => ReceivedOrdered(s, bytes);
    case TransmitInterrupt => TransmittedTakesNothing(s);
    case _ =>
  }

  /** Over every run, whatever it interleaves: reads end in the order in which they moved bytes, and none of
      them is lost, exactly when every step of the run is in turn. */
  lemma {:induction false} ReadsInOrderIff(s: State, ops: seq<Op>)
    requires Inv(s) && AllLegal(s, ops)
    ensures H.Ordered(Run(s, ops).taken) <==> H.Ordered(s.taken) && ReadsInTurn(s, ops)
    decreases |ops|
  {
    hide Inv, Next, H.Ordered, Legal, ReadInTurn;
    if ops != [] {
      NextKeepsInv(s, ops[0]);
      ReadStepOrdered(s, ops[0]);
      ReadsInOrderIff(Next(s, ops[0]), ops[1..]);
    }
  }

  // ---------------------------------------------------------------- writes

  /** The call ends its request as the oldest open one, and nobody ended it before; an interrupt
      serves a write only while no call is open. */
  predicate WriteInTurn(s: State, op: Op) {
    match op
    case EndServed(id) =>
      id in s.given.open && id in s.q.reqs ==> !s.q.reqs[id].done && s.given.open[id] == |s.given.ends|
    case TransmitInterrupt => s.out == [] || s.given.open == map[] || NobodyGives(Sent(s), s.q.output)
    case _ => true
  }

  predicate WritesInTurn(s: State, ops: seq<Op>)
    decreases |ops|
  {
    ops == [] || (WriteInTurn(s, ops[0]) && WritesInTurn(Next(s, ops[0]), ops[1..]))
  }

  predicate NobodyGives(s: State, nodes: seq<nat>) {
    forall x :: x in nodes ==> !CanPut(s, x)
  }

  lemma PutOrdered(s: State, id: nat)
    requires Inv(s)
    ensures H.Ordered(Put(s, id).given) <==> H.Ordered(s.given)
    ensures !CanPut(s, id) ==> Put(s, id).given == s.given
    ensures CanPut(s, id) ==>
              && |Put(s, id).given.log| == |s.given.log| + 1 && Put(s, id).given.ends == s.given.ends
              && Put(s, id).given.open == s.given.open[id := |s.given.log|] && id !in s.given.open
  {
    hide Ok, StreamsOk, H.Ordered;
    if CanPut(s, id) {
      assert id in s.given.open ==> OpenOk(s.given, s.q.reqs, id, CMD_WRITE);
      H.TookOrdered(s.given, id, s.q.reqs[id].round, Put(s, id).given.log[|s.given.log|].bytes);
    }
  }

  lemma ServedWriteOrdered(s: State, id: nat)
    requires Inv(s)
    ensures H.Ordered(Served(s, id).given) <==> H.Ordered(s.given) && WriteInTurn(s, EndServed(id))
    ensures Served(s, id).given.log == s.given.log
    ensures Served(s, id).given.open == s.given.open - {id}
  {
    hide Ok, StreamsOk, H.Ordered, EndWith;
    assert id in s.given.open ==> OpenOk(s.given, s.q.reqs, id, CMD_WRITE);
    assert id in s.taken.open ==> OpenOk(s.taken, s.q.reqs, id, CMD_READ);
    if id in s.given.open {
      H.ClosedOrdered(s.given, id, !s.q.reqs[id].done);
    }
  }

  /** A write that is served without interruption is in turn when no call is open. */
  lemma WriteWholeOrdered(s: State, id: nat)
    requires Inv(s) && id in s.q.reqs && !s.q.reqs[id].done
    ensures var t := WriteWhole(s, id);
            && t.given.open == s.given.open
            && (!CanPut(s, id) ==> t.given == s.given)
            && (CanPut(s, id) ==> |t.given.log| > |s.given.log|)
            && (H.Ordered(t.given) <==> H.Ordered(s.given) && (s.given.open == map[] || !CanPut(s, id)))
  {
    hide Ok, StreamsOk, MarkedOk, HistoryOk, H.Ordered, Served;
    PutOrdered(s, id);
    if CanPut(s, id) {
      var u := Put(s, id);
      PutKeepsInv(s, id);
      ServedWriteOrdered(u, id);
      assert u.given.open - {id} == s.given.open;
      if H.Ordered(s.given) {
        HistoriesOk(s);
        H.AllEnded(s.given);
      }
    }
  }

  /** The requests of the queue that are behind one stay in it while that one is served. */
  lemma WriteWholeQueue(s: State, id: nat)
    requires Inv(s) && id in s.q.output
    ensures var t := WriteWhole(s, id);
            && Inv(t) && t.q.output == if CanPut(s, id) then Removed(s.q.output, id) else s.q.output
    ensures id in s.q.reqs && !s.q.reqs[id].done
  {
    assert Waits(s.q, id);
    hide Ok, StreamsOk, MarkedOk, HistoryOk, Served;
    PutKeepsInv(s, id);
    if CanPut(s, id) {
      ServedEnds(Put(s, id), id);
    }
  }

  lemma {:induction false} WriteAllOrdered(s: State, nodes: seq<nat>)
    requires Inv(s) && NoRepeats(nodes) && forall x :: x in nodes ==> x in s.q.output
    ensures var t := WriteAll(s, nodes);
            && t.given.open == s.given.open
            && (H.Ordered(t.given) <==> H.Ordered(s.given) && (s.given.open == map[] || NobodyGives(s, nodes)))
    decreases |nodes|
  {
    hide Inv, H.Ordered, WriteWhole, CanPut;
    if nodes != [] {
      var id, t := nodes[0], WriteWhole(s, nodes[0]);
      WriteWholeQueue(s, id);
      WriteWholeOrdered(s, id);
      Rest(nodes);
      WriteAllOrdered(t, nodes[1..]);
      if !CanPut(s, id) {
        NobodyGivesRest(s, nodes);
      }
    }
  }

  lemma NobodyGivesRest(s: State, nodes: seq<nat>)
    requires nodes != [] && !CanPut(s, nodes[0])
    ensures NobodyGives(WriteWhole(s, nodes[0]), nodes[1..]) <==> NobodyGives(s, nodes)
  {
    var id, t := nodes[0], WriteWhole(s, nodes[0]);
    assert nodes == [id] + nodes[1..];
    assert forall x :: CanPut(t, x) == CanPut(s, x);
  }

  lemma WriteStepOrdered(s: State, op: Op)
    requires Inv(s) && Legal(s, op)
    ensures H.Ordered(Next(s, op).given) <==> H.Ordered(s.given) && WriteInTurn(s, op)
  {
    hide Ok, StreamsOk, MarkedOk, HistoryOk, H.Ordered, Put, Served;
    match op
    case Give(id) => PutOrdered(s, id);
    case EndServed(id) => ServedWriteOrdered(s, id);
    case TransmitInterrupt => TransmittedOrdered(s);
    case ReceiveInterrupt(bytes) => ReceivedGivesNothing(s, bytes);
    case _ =>
  }

  /** Over every run, whatever it interleaves: writes end in the order in which they moved bytes, and none of
      them is lost, exactly when every step of the run is in turn. */
  lemma {:induction false} WritesInOrderIff(s: State, ops: seq<Op>)
    requires Inv(s) && AllLegal(s, ops)
    ensures H.Ordered(Run(s, ops).given) <==> H.Ordered(s.given) && WritesInTurn(s, ops)
    decreases |ops|
  {
    hide Inv, Next, H.Ordered, Legal, WriteInTurn;
    if ops != [] {
      NextKeepsInv(s, ops[0]);
      WriteStepOrdered(s, ops[0]);
      WritesInOrderIff(Next(s, ops[0]), ops[1..]);
    }
  }

  lemma ReceivedOrdered(s: State, bytes: seq<byte>)
    requires Inv(s)
    ensures H.Ordered(Received(s, bytes).taken)
            <==> H.Ordered(s.taken) && ReadInTurn(s, ReceiveInterrupt(bytes))
  {
    hide StreamsOk, MarkedOk, HistoryOk, H.Ordered, ReadAll;
    StoredKeepsInv(s, bytes);
    ReadAllOrdered(Stored(s, bytes), s.q.input);
  }

  lemma TransmittedOrdered(s: State)
    requires Inv(s)
    ensures H.Ordered(Transmitted(s).given) <==> H.Ordered(s.given) && WriteInTurn(s, TransmitInterrupt)
  {
    hide StreamsOk, MarkedOk, HistoryOk, H.Ordered, WriteAll;
    if s.out != [] {
      SentKeepsInv(s);
      WriteAllOrdered(Sent(s), s.q.output);
    }
  }

  lemma {:induction false} ReadAllGivesNothing(s: State, nodes: seq<nat>)
    requires Inv(s) && NoRepeats(nodes) && forall x :: x in nodes ==> x in s.q.input
    ensures ReadAll(s, nodes).given == s.given
    decreases |nodes|
  {
    hide Inv, CanTake, ReadWhole;
    if nodes != [] {
      ReadWholeQueue(s, nodes[0]);
      ReadWholeGivesNothing(s, nodes[0]);
      Rest(nodes);
      ReadAllGivesNothing(ReadWhole(s, nodes[0]), nodes[1..]);
    }
  }

  lemma ReadWholeGivesNothing(s: State, id: nat)
    requires Inv(s)
    ensures ReadWhole(s, id).given == s.given
  {
    hide EndWith;
  }

  lemma {:induction false} WriteAllTakesNothing(s: State, nodes: seq<nat>)
    requires Inv(s) && NoRepeats(nodes) && forall x :: x in nodes ==> x in s.q.output
    ensures WriteAll(s, nodes).taken == s.taken
    decreases |nodes|
  {
    hide Inv, CanPut, WriteWhole;
    if nodes != [] {
      WriteWholeQueue(s, nodes[0]);
      WriteWholeTakesNothing(s, nodes[0]);
      Rest(nodes);
      WriteAllTakesNothing(WriteWhole(s, nodes[0]), nodes[1..]);
    }
  }

  lemma WriteWholeTakesNothing(s: State, id: nat)
    requires Inv(s)
    ensures WriteWhole(s, id).taken == s.taken
  {
    hide EndWith, Ok, StreamsOk;
    assert id in s.taken.open ==> OpenOk(s.taken, s.q.reqs, id, CMD_READ);
  }

  lemma ReceivedGivesNothing(s: State, bytes: seq<byte>)
    requires Inv(s)
    ensures Received(s, bytes).given == s.given
  {
    hide StreamsOk, MarkedOk, HistoryOk, ReadAll;
    StoredKeepsInv(s, bytes);
    ReadAllGivesNothing(Stored(s, bytes), s.q.input);
  }

  lemma TransmittedTakesNothing(s: State)
    requires Inv(s)
    ensures Transmitted(s).taken == s.taken
  {
    hide StreamsOk, MarkedOk, HistoryOk, WriteAll;
    if s.out != [] {
      SentKeepsInv(s);
      WriteAllTakesNothing(Sent(s), s.q.output);
    }
  }

  // ---------------------------------------------------------------- what a client sees

  /** Completed reads, in the order in which they were completed, are all that took bytes, in the
      order in which they took them, exactly when every step was in turn and no call is open. */
  lemma CompletedReadsIff(ops: seq<Op>)
    requires AllLegal(START, ops)
    ensures var t := Run(START, ops);
            && Inv(t) && (H.Completed(t.taken) == t.taken.log <==> ReadsInTurn(START, ops) && t.taken.open == map[])
            && (H.Completed(t.taken) == t.taken.log ==> t.accepted == H.Joined(H.Completed(t.taken)) + t.ring)
  {
    hide Ok, MarkedOk, ReadsInTurn, AllLegal, Run;
    StartOk();
    RunKeepsInv(START, ops);
    ReadsInOrderIff(START, ops);
    H.CompletedIsLog(Run(START, ops).taken);
  }

  lemma CompletedWritesIff(ops: seq<Op>)
    requires AllLegal(START, ops)
    ensures var t := Run(START, ops);
            && Inv(t) && (H.Completed(t.given) == t.given.log <==> WritesInTurn(START, ops) && t.given.open == map[])
            && (H.Completed(t.given) == t.given.log ==> t.sent + t.out == H.Joined(H.Completed(t.given)))
  {
    hide Ok, MarkedOk, WritesInTurn, AllLegal, Run;
    StartOk();
    RunKeepsInv(START, ops);
    WritesInOrderIff(START, ops);
    H.CompletedIsLog(Run(START, ops).given);
  }

  /** A request for one byte. */
  function OneByte(): Request {
    IOStdReq(CMD_READ, 1, [0], 0, NoError, false, false, false, false, false, 0, 0)
  }

  /** A read that another one overtakes: between the section that takes a byte for the first and
      the one that ends it, an interrupt takes a byte for the second and ends that. */
  function Overtaking(a: nat, b: nat, x: byte, y: byte): seq<Op> {
    [ReceiveInterrupt([x]), BeginIO(a, OneByte()), Take(a), BeginIO(b, OneByte()), ReceiveInterrupt([y]), EndServed(a)]
  }

  /** A read that took the only byte and is still to be ended. */
  function InService(a: nat, x: byte): State {
    Taken(Begun(Received(START, [x]), a, OneByte()), a)
  }

  lemma InServiceIs(a: nat, x: byte)
    ensures var s := InService(a, x);
            && s.taken == H.History([H.Moved(a, 0, [x])], map[a := 0], []) && s.ring == [] && s.accepted == [x]
            && s.q.input == [a] && s.q.output == [] && s.given == H.NOTHING && s.q.reqs.Keys == {a}
            && s.q.reqs[a].servicing && s.q.reqs[a].current && !s.q.reqs[a].done && s.q.reqs[a].command == CMD_READ
  {
    var s1 := Received(START, [x]);
    assert s1 == START.(ring := [x], accepted := [x]);
    var s2 := Begun(s1, a, OneByte());
    assert s2.q.reqs[a] == OneByte().(current := true) && s2.q.input == [a] && CanTake(s2, a);
    var s3 := Taken(s2, a);
    assert [x][..1] == [x] && s3.taken == H.Took(H.NOTHING, a, 0, [x]);
    assert H.Took(H.NOTHING, a, 0, [x]) == H.History([H.Moved(a, 0, [x])], map[a := 0], []);
  }

  lemma ReadBoth(s: State, a: nat, b: nat)
    ensures ReadAll(s, [a, b]) == ReadWhole(ReadWhole(s, a), b)
  {
    assert [a, b][1..] == [b] && [b][1..] == [];
    assert ReadAll(ReadWhole(s, a), [b]) == ReadAll(ReadWhole(ReadWhole(s, a), b), []);
  }

  lemma RunFirst(s: State, op: Op, rest: seq<Op>)
    ensures Run(s, [op] + rest) == Run(Next(s, op), rest)
    ensures AllLegal(s, [op] + rest) <==> Legal(s, op) && AllLegal(Next(s, op), rest)
  {
    assert ([op] + rest)[1..] == rest;
  }

  /** What the run does is what its steps do. */
  lemma OvertakingRuns(a: nat, b: nat, x: byte, y: byte)
    ensures var s := Begun(InService(a, x), b, OneByte());
            && Run(START, Overtaking(a, b, x, y)) == Served(Received(s, [y]), a)
            && (AllLegal(START, Overtaking(a, b, x, y)) <==>
                  && Legal(Received(START, [x]), BeginIO(a, OneByte()))
                  && Legal(InService(a, x), BeginIO(b, OneByte())))
  {
    hide Received, Begun, Taken, Served;
    var s1 := Received(START, [x]);
    var s2 := Begun(s1, a, OneByte());
    var s3 := Taken(s2, a);
    var s4 := Begun(s3, b, OneByte());
    var s5 := Received(s4, [y]);
    var o2, o3, o4 := BeginIO(a, OneByte()), Take(a), BeginIO(b, OneByte());
    var o5, o6 := ReceiveInterrupt([y]), EndServed(a);
    RunFirst(START, ReceiveInterrupt([x]), [o2, o3, o4, o5, o6]);
    RunFirst(s1, o2, [o3, o4, o5, o6]);
    RunFirst(s2, o3, [o4, o5, o6]);
    RunFirst(s3, o4, [o5, o6]);
    RunFirst(s4, o5, [o6]);
    RunFirst(s5, o6, []);
    assert Overtaking(a, b, x, y) == [ReceiveInterrupt([x])] + [o2, o3, o4, o5, o6];
    assert [o2] + [o3, o4, o5, o6] == [o2, o3, o4, o5, o6];
    assert [o3] + [o4, o5, o6] == [o3, o4, o5, o6];
    assert [o4] + [o5, o6] == [o4, o5, o6] && [o5] + [o6] == [o5, o6] && [o6] + [] == [o6];
  }

  lemma OvertakingServes(a: nat, b: nat, x: byte, y: byte, s: State, t: State)
    requires a != b && t == Received(s, [y])
    requires s.taken == H.History([H.Moved(a, 0, [x])], map[a := 0], []) && s.ring == [] && s.accepted == [x]
    requires s.q.input == [a, b] && a in s.q.reqs && b in s.q.reqs && s.q.reqs[a].servicing && !s.q.reqs[a].done
    requires s.q.reqs[b] == OneByte().(queued := true)
    ensures t.taken == H.History([H.Moved(a, 0, [x]), H.Moved(b, 0, [y])], map[a := 0], [1])
    ensures t.accepted == [x, y] && a in t.q.reqs && !t.q.reqs[a].done
  {
    var u := Stored(s, [y]);
    assert u == s.(ring := [y], accepted := [x, y]);
    assert ReadWhole(u, a) == u;
    ReadBoth(u, a, b);
    var v := Taken(u, b);
    assert CanTake(u, b) && [y][..1] == [y];
    assert v.taken == H.Took(s.taken, b, 0, [y]);
    assert v.taken == H.History([H.Moved(a, 0, [x]), H.Moved(b, 0, [y])], map[a := 0, b := 1], []);
    assert (map[a := 0, b := 1] - {b}) == map[a := 0];
  }

  lemma OvertakenRead(a: nat, b: nat, x: byte, y: byte)
    requires a != b
    ensures AllLegal(START, Overtaking(a, b, x, y))
    ensures var t := Run(START, Overtaking(a, b, x, y));
            && t.accepted == [x, y] && t.taken.open == map[] && t.taken.ends == [1, 0]
            && t.taken.log == [H.Moved(a, 0, [x]), H.Moved(b, 0, [y])]
            && H.Completed(t.taken) == [H.Moved(b, 0, [y]), H.Moved(a, 0, [x])]
  {
    var s := Begun(InService(a, x), b, OneByte());
    InServiceIs(a, x);
    OvertakingServes(a, b, x, y, s, Received(s, [y]));
    hide Received, Run, AllLegal, ReadAll;
    OvertakingRuns(a, b, x, y);
  }

  /** A read that is aborted in the same place: its byte is in no completed read and in no ring, and
      its request is done while the call is still to end it. */
  lemma AbortedRead(a: nat, x: byte)
    ensures var ops := [ReceiveInterrupt([x]), BeginIO(a, OneByte()), Take(a), EndCommand(a, Aborted)];
            var s, t := Run(START, ops), Run(START, ops + [EndServed(a)]);
            && AllLegal(START, ops + [EndServed(a)])
            && a in s.q.reqs && s.q.reqs[a].done && s.q.reqs[a].error == Aborted && a in s.taken.open
            && t.accepted == [x] && t.ring == [] && t.taken.open == map[] && t.taken.ends == []
  {
    InServiceIs(a, x);
    var s3 := InService(a, x);
    var s4 := EndedBy(s3, a, Aborted);
    AbortingRuns(a, x);
    assert (map[a := 0] - {a}) == map[];
  }

  lemma AbortingRuns(a: nat, x: byte)
    ensures var ops := [ReceiveInterrupt([x]), BeginIO(a, OneByte()), Take(a), EndCommand(a, Aborted)];
            var s3 := InService(a, x);
            && Run(START, ops) == EndedBy(s3, a, Aborted)
            && Run(START, ops + [EndServed(a)]) == Served(EndedBy(s3, a, Aborted), a)
            && (AllLegal(START, ops + [EndServed(a)]) <==> Legal(Received(START, [x]), BeginIO(a, OneByte())))
  {
    hide Received, Begun, Taken, Served, EndedBy;
    var o1, o2, o3, o4, o5 :=
      ReceiveInterrupt([x]), BeginIO(a, OneByte()), Take(a), EndCommand(a, Aborted), EndServed(a);
    var s1 := Received(START, [x]);
    var s2 := Begun(s1, a, OneByte());
    var s3 := Taken(s2, a);
    var s4 := EndedBy(s3, a, Aborted);
    RunFirst(START, o1, [o2, o3, o4]);
    RunFirst(s1, o2, [o3, o4]);
    RunFirst(s2, o3, [o4]);
    RunFirst(s3, o4, []);
    RunFirst(START, o1, [o2, o3, o4, o5]);
    RunFirst(s1, o2, [o3, o4, o5]);
    RunFirst(s2, o3, [o4, o5]);
    RunFirst(s3, o4, [o5]);
    RunFirst(s4, o5, []);
    assert [o1] + [o2, o3, o4] == [o1, o2, o3, o4] && [o2] + [o3, o4] == [o2, o3, o4] && [o3] + [o4] == [o3, o4];
    assert [o4] + [] == [o4] && [o5] + [] == [o5] && [o4] + [o5] == [o4, o5] && [o3] + [o4, o5] == [o3, o4, o5];
    assert [o2] + [o3, o4, o5] == [o2, o3, o4, o5] && [o1] + [o2, o3, o4, o5] == [o1, o2, o3, o4] + [o5];
  }
}
