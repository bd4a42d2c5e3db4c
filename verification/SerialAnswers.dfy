/** What becomes of a request of the serial device: how often it is served and answered, and what
    it reports. */
module SerialAnswers {
  import opened Lists
  import opened Machine
  import opened SerialQueue
  import opened SerialRuns
  import O = SerialOrder
  import H = SerialHistory

  // ---------------------------------------------------------------- one answer

  /** The answer that a request has, if it has one, and how often it was begun. */
  predicate SameAnswer(r: Request, t: Request) {
    && t.command == r.command && t.round == r.round && (!Queueing(r) ==> t.quick == r.quick)
    && (r.done ==> t.done && t.error == r.error && t.replies == r.replies)
  }

  ghost predicate AnswersStay(q: Queues, t: Queues, but: set<nat>) {
    forall x {:trigger t.reqs[x]} {:trigger q.reqs[x]} :: x in q.reqs && x !in but ==>
      x in t.reqs && SameAnswer(q.reqs[x], t.reqs[x])
  }

  lemma AnswersStayOn(q: Queues, t: Queues, u: Queues, but: set<nat>)
    requires AnswersStay(q, t, but) && AnswersStay(t, u, but)
    ensures AnswersStay(q, u, but)
  {
    forall x | x in q.reqs && x !in but
      ensures x in u.reqs && SameAnswer(q.reqs[x], u.reqs[x])
    {
      assert x in t.reqs && SameAnswer(q.reqs[x], t.reqs[x]);
    }
  }

  lemma EndAnswers(q: Queues, error: Error, id: nat)
    requires id in q.reqs
    ensures AnswersStay(q, End(q, error, id), {})
  {
  }

  lemma ServedAnswers(s: State, id: nat)
    ensures AnswersStay(s.q, Served(s, id).q, {})
  {
    hide End, AnswersStay;
    if id in s.q.reqs && (id in s.taken.open || id in s.given.open) {
      var n := if id in s.taken.open then |Bytes(s.taken, id)| else |Bytes(s.given, id)|;
      var r := s.q.reqs[id].(actual := n);
      WithAnswers(s.q, id, r);
      EndAnswers(With(s.q, id, r), NoError, id);
      AnswersStayOn(s.q, With(s.q, id, r), Served(s, id).q, {});
      return;
    }
    SameAnswers(s.q);
  }

  lemma SameAnswers(q: Queues)
    ensures AnswersStay(q, q, {})
  {
  }

  lemma WithAnswers(q: Queues, id: nat, r: Request)
    requires id in q.reqs && SameAnswer(q.reqs[id], r)
    ensures AnswersStay(q, With(q, id, r), {})
  {
  }

  lemma TakenAnswers(s: State, id: nat)
    ensures AnswersStay(s.q, Taken(s, id).q, {})
  {
  }

  lemma PutAnswers(s: State, id: nat)
    ensures AnswersStay(s.q, Put(s, id).q, {})
  {
  }

  lemma {:induction false} ReadAllAnswers(s: State, nodes: seq<nat>)
    ensures AnswersStay(s.q, ReadAll(s, nodes).q, {})
    decreases |nodes|
  {
    hide Taken, Served, AnswersStay;
    if nodes == [] {
      SameAnswers(s.q);
    } else {
      var t := ReadWhole(s, nodes[0]);
      TakenAnswers(s, nodes[0]);
      ServedAnswers(Taken(s, nodes[0]), nodes[0]);
      AnswersStayOn(s.q, Taken(s, nodes[0]).q, Served(Taken(s, nodes[0]), nodes[0]).q, {});
      ReadAllAnswers(t, nodes[1..]);
      AnswersStayOn(s.q, t.q, ReadAll(t, nodes[1..]).q, {});
    }
  }

  lemma {:induction false} WriteAllAnswers(s: State, nodes: seq<nat>)
    ensures AnswersStay(s.q, WriteAll(s, nodes).q, {})
    decreases |nodes|
  {
    hide Put, Served, AnswersStay;
    if nodes == [] {
      SameAnswers(s.q);
    } else {
      var t := WriteWhole(s, nodes[0]);
      PutAnswers(s, nodes[0]);
      ServedAnswers(Put(s, nodes[0]), nodes[0]);
      AnswersStayOn(s.q, Put(s, nodes[0]).q, Served(Put(s, nodes[0]), nodes[0]).q, {});
      WriteAllAnswers(t, nodes[1..]);
      AnswersStayOn(s.q, t.q, WriteAll(t, nodes[1..]).q, {});
    }
  }

  /** The requests that a step begins. */
  function Begins(op: Op): set<nat> {
    if op.BeginIO? then {op.id} else {}
  }

  lemma BegunAnswers(s: State, id: nat, r: Request)
    ensures AnswersStay(s.q, Begun(s, id, r).q, {id})
  {
  }

  lemma NextAnswers(s: State, op: Op)
    ensures AnswersStay(s.q, Next(s, op).q, Begins(op))
  {
    hide Begun, Taken, Put, Served, End, ReadAll, WriteAll, AnswersStay;
    match op
    case BeginIO(id, r) => BegunAnswers(s, id, r);
    case Take(id) => TakenAnswers(s, id);
    case Give(id) => PutAnswers(s, id);
    case EndServed(id) => ServedAnswers(s, id);
    case EndCommand(id, error) =>
      if id in s.q.reqs {
        EndAnswers(s.q, error, id);
      } else {
        SameAnswers(s.q);
      }
    case Clear => SameAnswers(s.q);
    case SetStopped(on) => SameAnswers(s.q);
    case ReceiveInterrupt(bytes) => ReadAllAnswers(Stored(s, bytes), s.q.input);
    case TransmitInterrupt =>
      SameAnswers(s.q);
      WriteAllAnswers(Sent(s), s.q.output);
  }

  lemma NotWaiting(q: Queues, id: nat)
    requires Ok(q) && id in q.reqs && q.reqs[id].done
    ensures !InQueue(q, id) && q.reqs[id].replies == if q.reqs[id].quick then 0 else 1
  {
    assert InQueue(q, id) ==> Waits(q, id);
  }

  /** A request that is done keeps its answer, and the number of its replies, until it is begun anew. */
  lemma {:induction false} AnsweredOnce(s: State, ops: seq<Op>, id: nat)
    requires Inv(s) && AllLegal(s, ops) && id in s.q.reqs && s.q.reqs[id].done
    requires forall op :: op in ops ==> !(op.BeginIO? && op.id == id)
    ensures var q := Run(s, ops).q;
            && id in q.reqs && q.reqs[id].done && q.reqs[id].error == s.q.reqs[id].error
            && q.reqs[id].replies == s.q.reqs[id].replies == if s.q.reqs[id].quick then 0 else 1
    decreases |ops|
  {
    NotWaiting(s.q, id);
    hide Inv, Next, Legal, Ok;
    if ops != [] {
      assert ops[0] in ops;
      NextAnswers(s, ops[0]);
      NextKeepsInv(s, ops[0]);
      AnsweredOnce(Next(s, ops[0]), ops[1..], id);
    }
  }

  // ---------------------------------------------------------------- served once

  /** IOF_SERVICING is set exactly when the request has moved bytes since it was begun. */
  lemma MarkIff(s: State, id: nat)
    requires Inv(s) && id in s.q.reqs && Queueing(s.q.reqs[id])
    ensures var r := s.q.reqs[id];
            r.servicing <==> H.Has(if r.command == CMD_READ then s.taken.log else s.given.log, id, r.round)
  {
    hide Ok, StreamsOk, MarkedOk;
    var r := s.q.reqs[id];
    if r.command == CMD_READ {
      MarkIn(s.taken, s.q.reqs, id);
    } else {
      MarkIn(s.given, s.q.reqs, id);
    }
  }

  lemma MarkIn(h: H.History, reqs: map<nat, Request>, id: nat)
    requires id in reqs && HistoryOk(h, reqs, reqs[id].command)
    ensures reqs[id].servicing <==> H.Has(h.log, id, reqs[id].round)
  {
    assert MarkOk(h, id, reqs[id]);
    forall p | 0 <= p < |h.log| && h.log[p].id == id && h.log[p].round == reqs[id].round
      ensures reqs[id].servicing
    {
      assert RoundOk(reqs, h.log[p]);
    }
  }

  /** Between two BeginIOs no request moves bytes twice; without the test of IOF_SERVICING a section
      would break that exactly for the requests that are marked. */
  lemma GuardIsNeeded(s: State, id: nat, bytes: seq<byte>)
    requires Inv(s) && id in s.q.reqs && s.q.reqs[id].command == CMD_READ
    ensures H.Once(s.taken.log) && H.Once(s.given.log)
    ensures H.Once(H.Took(s.taken, id, s.q.reqs[id].round, bytes).log) <==> !s.q.reqs[id].servicing
  {
    MarkIff(s, id);
    H.TookOnceIff(s.taken, id, s.q.reqs[id].round, bytes);
  }

  /** A read that reports success was served in this round, ended well, and has all the bytes it asked for. */
  lemma SuccessIsServed(s: State, id: nat) returns (p: nat)
    requires Inv(s) && id in s.q.reqs && s.q.reqs[id].command == CMD_READ
    requires s.q.reqs[id].done && s.q.reqs[id].error == NoError
    ensures p in s.taken.ends && p < |s.taken.log|
    ensures var r := s.q.reqs[id];
            && r.actual == r.length && s.taken.log[p] == H.Moved(id, r.round, r.data[..r.length])
  {
    hide Ok, StreamsOk, MarkedOk;
    assert Honest(s.taken, id, s.q.reqs[id]);
    var k: nat :| Got(s.taken, id, s.q.reqs[id], k);
    p := s.taken.ends[k];
  }

  // ---------------------------------------------------------------- requests that are ended early

  /** A read that is aborted, by AbortIO or by Flush, took bytes, which nobody gets, exactly when it
      was marked: between the two sections of a call that serves it. */
  lemma AbortLosesIff(s: State, id: nat)
    requires Inv(s) && id in s.q.reqs && s.q.reqs[id].command == CMD_READ && !s.q.reqs[id].done
    ensures var t := EndedBy(s, id, Aborted);
            && id in t.q.reqs && t.q.reqs[id].done && t.q.reqs[id].error == Aborted
            && (H.Has(t.taken.log, id, t.q.reqs[id].round) <==> s.q.reqs[id].servicing)
            && (s.q.reqs[id].servicing <==> id in s.taken.open)
  {
    hide StreamsOk, End;
    EndKeepsOk(s.q, Aborted, id);
    MarkIff(s, id);
    assert id in s.taken.open ==> OpenOk(s.taken, s.q.reqs, id, CMD_READ);
    assert id in s.given.open ==> OpenOk(s.given, s.q.reqs, id, CMD_WRITE);
  }

  /** A call that comes to its section when its request is done already, but was never served, takes
      bytes that nobody gets. */
  lemma ReadCountsIff(s: State, id: nat)
    requires Inv(s) && CanTake(s, id)
    ensures var t := ReadWhole(s, id);
            && |t.taken.log| == |s.taken.log| + 1
            && (s.q.reqs[id].done ==> t.taken.ends == s.taken.ends)
            && (!s.q.reqs[id].done ==> t.taken.ends == s.taken.ends + [|s.taken.log|])
  {
    hide Ok, StreamsOk, MarkedOk, HistoryOk, EndWith;
  }

  /** A request that is begun anew while a call that served it before is still open is ended at
      once, with success and without having moved a byte; when no call is open it waits. */
  lemma ReuseIff(s: State, id: nat, r: Request)
    requires Inv(s) && id in s.q.reqs && s.q.reqs[id].done && Queueing(r)
    ensures var t := Served(Begun(s, id, r), id);
            && id in t.q.reqs
            && (t.q.reqs[id].done && t.q.reqs[id].error == NoError <==> id in s.taken.open || id in s.given.open)
            && !H.Has(t.taken.log, id, t.q.reqs[id].round) && !H.Has(t.given.log, id, t.q.reqs[id].round)
  {
    hide StreamsOk, MarkedOk, EndWith;
    var u := Begun(s, id, r);
    BeginKeepsOk(s.q, id, r);
    NewRound(s.taken, s.q.reqs, id, CMD_READ);
    NewRound(s.given, s.q.reqs, id, CMD_WRITE);
    if id in s.taken.open {
      EndWithIs(u.q, id, |Bytes(u.taken, id)|);
    } else if id in s.given.open {
      EndWithIs(u.q, id, |Bytes(u.given, id)|);
    }
  }

  lemma NewRound(h: H.History, reqs: map<nat, Request>, id: nat, cmd: nat)
    requires HistoryOk(h, reqs, cmd) && id in reqs
    ensures !H.Has(h.log, id, reqs[id].round + 1)
  {
    forall p | 0 <= p < |h.log|
      ensures !(h.log[p].id == id && h.log[p].round == reqs[id].round + 1)
    {
      assert RoundOk(reqs, h.log[p]);
    }
  }

  // ---------------------------------------------------------------- interrupts serve everybody

  /** Whether the request can be served depends on these. */
  predicate SameNeeds(r: Request, t: Request) {
    t.command == r.command && t.length == r.length && (r.servicing ==> t.servicing)
  }

  ghost predicate NeedsStay(q: Queues, t: Queues) {
    t.reqs.Keys == q.reqs.Keys && forall x {:trigger t.reqs[x]} :: x in q.reqs ==> SameNeeds(q.reqs[x], t.reqs[x])
  }

  lemma EndNeeds(q: Queues, error: Error, id: nat)
    requires id in q.reqs
    ensures NeedsStay(q, End(q, error, id))
  {
    hide Removed;
    var t := End(q, error, id);
    forall x {:trigger t.reqs[x]} | x in q.reqs
      ensures SameNeeds(q.reqs[x], t.reqs[x])
    {
    }
  }

  lemma EndWithNeeds(q: Queues, id: nat, actual: nat)
    requires id in q.reqs
    ensures NeedsStay(q, EndWith(q, id, actual))
  {
    var r := q.reqs[id].(actual := actual);
    EndNeeds(With(q, id, r), NoError, id);
    var t := EndWith(q, id, actual);
    forall x {:trigger t.reqs[x]} | x in q.reqs
      ensures SameNeeds(q.reqs[x], t.reqs[x])
    {
      assert SameNeeds(With(q, id, r).reqs[x], t.reqs[x]);
    }
  }

  lemma ServedNeeds(s: State, id: nat)
    ensures NeedsStay(s.q, Served(s, id).q) && Served(s, id).ring == s.ring && Served(s, id).out == s.out
    ensures Served(s, id).idle == s.idle
  {
    hide EndWith;
    if id in s.q.reqs && id in s.taken.open {
      EndWithNeeds(s.q, id, |Bytes(s.taken, id)|);
    } else if id in s.q.reqs && id in s.given.open {
      EndWithNeeds(s.q, id, |Bytes(s.given, id)|);
    }
  }

  /** Who cannot be served now cannot be served after another read either. */
  lemma ReadWholeStarves(s: State, id: nat, x: nat)
    requires !CanTake(s, x)
    ensures !CanTake(ReadWhole(s, id), x)
  {
    hide Served;
    ServedNeeds(Taken(s, id), id);
  }

  lemma {:induction false} ReadAllStarves(s: State, nodes: seq<nat>, x: nat)
    requires !CanTake(s, x)
    ensures !CanTake(ReadAll(s, nodes), x)
    decreases |nodes|
  {
    hide ReadWhole, CanTake;
    if nodes != [] {
      ReadWholeStarves(s, nodes[0], x);
      ReadAllStarves(ReadWhole(s, nodes[0]), nodes[1..], x);
    }
  }

  lemma WriteWholeStarves(s: State, id: nat, x: nat)
    requires Inv(s) && !s.idle && !CanPut(s, x)
    ensures !WriteWhole(s, id).idle && !CanPut(WriteWhole(s, id), x)
  {
    hide Served, Ok, HistoryOk, MarkedOk;
    ServedNeeds(Put(s, id), id);
  }

  lemma {:induction false} WriteAllStarves(s: State, nodes: seq<nat>, x: nat)
    requires Inv(s) && !s.idle && !CanPut(s, x)
    ensures !CanPut(WriteAll(s, nodes), x)
    decreases |nodes|
  {
    hide WriteWhole, Inv, CanPut, Served, Put;
    if nodes != [] {
      WriteWholeStarves(s, nodes[0], x);
      WriteWholeKeepsInv(s, nodes[0]);
      WriteAllStarves(WriteWhole(s, nodes[0]), nodes[1..], x);
    }
  }

  lemma WriteWholeKeepsInv(s: State, id: nat)
    requires Inv(s)
    ensures Inv(WriteWhole(s, id))
  {
    hide Inv, Put, Served, CanPut;
    PutKeepsInv(s, id);
    ServedKeepsInv(Put(s, id), id);
  }

  /** The request was served and has its answer. */
  predicate Succeeded(q: Queues, id: nat) {
    id in q.reqs && q.reqs[id].done && q.reqs[id].error == NoError
  }

  lemma ReadWholeSucceeds(s: State, id: nat)
    requires Inv(s) && id in s.q.input && CanTake(s, id)
    ensures Succeeded(ReadWhole(s, id).q, id)
  {
    assert Waits(s.q, id);
    hide Ok, HistoryOk, MarkedOk, StreamsOk, Served;
    TakenKeepsInv(s, id);
    ServedEnds(Taken(s, id), id);
  }

  lemma WriteWholeSucceeds(s: State, id: nat)
    requires Inv(s) && id in s.q.output && CanPut(s, id)
    ensures Succeeded(WriteWhole(s, id).q, id)
  {
    assert Waits(s.q, id);
    hide Ok, HistoryOk, MarkedOk, StreamsOk, Served;
    PutKeepsInv(s, id);
    ServedEnds(Put(s, id), id);
  }

  /** Of these requests the ones that left their queue were served, and for the others it holds. */
  ghost predicate LeftServed(nodes: seq<nat>, q: Queues, queue: seq<nat>) {
    forall x :: x in nodes && x !in queue ==> Succeeded(q, x)
  }

  lemma {:induction false} ReadAllServes(s: State, nodes: seq<nat>)
    requires Inv(s) && NoRepeats(nodes) && forall x :: x in nodes ==> x in s.q.input
    ensures var t := ReadAll(s, nodes);
            && LeftServed(nodes, t.q, t.q.input)
            && (forall x :: x in s.q.input && x !in nodes ==> x in t.q.input)
            && (forall x :: x in t.q.input ==> x in s.q.input)
            && (forall x :: x in nodes && x in t.q.input ==> !CanTake(t, x))
    decreases |nodes|
  {
    hide Inv, CanTake, ReadWhole;
    if nodes != [] {
      var id, u, t := nodes[0], ReadWhole(s, nodes[0]), ReadAll(s, nodes);
      O.ReadWholeQueue(s, id);
      O.Rest(nodes);
      ReadAllServes(u, nodes[1..]);
      assert t == ReadAll(u, nodes[1..]);
      if CanTake(s, id) {
        ReadWholeSucceeds(s, id);
        ReadAllAnswers(u, nodes[1..]);
        ReadAllSucceeded(u, nodes[1..], id);
      } else {
        ReadWholeStarves(s, id, id);
        ReadAllStarves(u, nodes[1..], id);
      }
      assert nodes == [id] + nodes[1..];
    }
  }

  lemma ReadAllSucceeded(s: State, nodes: seq<nat>, id: nat)
    requires Succeeded(s.q, id)
    ensures Succeeded(ReadAll(s, nodes).q, id)
  {
    ReadAllAnswers(s, nodes);
    assert SameAnswer(s.q.reqs[id], ReadAll(s, nodes).q.reqs[id]);
  }

  lemma WriteAllSucceeded(s: State, nodes: seq<nat>, id: nat)
    requires Succeeded(s.q, id)
    ensures Succeeded(WriteAll(s, nodes).q, id)
  {
    WriteAllAnswers(s, nodes);
    assert SameAnswer(s.q.reqs[id], WriteAll(s, nodes).q.reqs[id]);
  }

  lemma {:induction false} WriteAllServes(s: State, nodes: seq<nat>)
    requires Inv(s) && !s.idle && NoRepeats(nodes) && forall x :: x in nodes ==> x in s.q.output
    ensures var t := WriteAll(s, nodes);
            && LeftServed(nodes, t.q, t.q.output)
            && (forall x :: x in s.q.output && x !in nodes ==> x in t.q.output)
            && (forall x :: x in t.q.output ==> x in s.q.output)
            && (forall x :: x in nodes && x in t.q.output ==> !CanPut(t, x))
    decreases |nodes|
  {
    hide Inv, CanPut, WriteWhole;
    if nodes != [] {
      var id, u, t := nodes[0], WriteWhole(s, nodes[0]), WriteAll(s, nodes);
      O.WriteWholeQueue(s, id);
      O.Rest(nodes);
      WriteWholeBusy(s, id);
      WriteAllServes(u, nodes[1..]);
      assert t == WriteAll(u, nodes[1..]);
      if CanPut(s, id) {
        WriteWholeSucceeds(s, id);
        WriteAllSucceeded(u, nodes[1..], id);
      } else {
        WriteWholeStarves(s, id, id);
        WriteAllStarves(u, nodes[1..], id);
      }
      assert nodes == [id] + nodes[1..];
    }
  }

  lemma WriteWholeBusy(s: State, id: nat)
    requires !s.idle
    ensures !WriteWhole(s, id).idle
  {
    hide Served;
    ServedNeeds(Put(s, id), id);
  }

  /** Reads do not change what came in, or the output side. */
  lemma {:induction false} ReadAllFrame(s: State, nodes: seq<nat>)
    requires Inv(s) && NoRepeats(nodes) && forall x :: x in nodes ==> x in s.q.input
    ensures var t := ReadAll(s, nodes);
            && t.accepted == s.accepted && t.overruns == s.overruns && t.stopped == s.stopped
            && t.out == s.out && t.sent == s.sent && t.idle == s.idle && t.q.output == s.q.output
    decreases |nodes|
  {
    hide Inv, CanTake, ReadWhole;
    if nodes != [] {
      ReadWholeFrame(s, nodes[0]);
      O.ReadWholeQueue(s, nodes[0]);
      O.Rest(nodes);
      ReadAllFrame(ReadWhole(s, nodes[0]), nodes[1..]);
    }
  }

  lemma ReadWholeFrame(s: State, id: nat)
    requires Inv(s) && id in s.q.input
    ensures var t := ReadWhole(s, id);
            && t.accepted == s.accepted && t.overruns == s.overruns && t.stopped == s.stopped
            && t.out == s.out && t.sent == s.sent && t.idle == s.idle && t.q.output == s.q.output
  {
    assert id !in s.q.output by {
      assert Waits(s.q, id);
    }
    RemovedNothing(s.q.output, id);
    hide Ok, HistoryOk, MarkedOk, StreamsOk, Served;
    ServedFrame(Taken(s, id), id);
    TakenKeepsInv(s, id);
    if CanTake(s, id) {
      ServedEnds(Taken(s, id), id);
    }
  }

  lemma ServedFrame(s: State, id: nat)
    ensures var t := Served(s, id);
            && t.accepted == s.accepted && t.overruns == s.overruns && t.stopped == s.stopped
            && t.out == s.out && t.sent == s.sent && t.idle == s.idle && t.ring == s.ring
  {
    hide EndWith;
  }

  /** After an interrupt for received data the reads that left the queue were served. What waits
      is being served by a call, or asks for more than the ring holds. */
  lemma ReceivedServes(s: State, bytes: seq<byte>)
    requires Inv(s)
    ensures var t := Received(s, bytes);
            && Inv(t) && LeftServed(s.q.input, t.q, t.q.input)
            && |s.ring| <= UART_BUFLEN
            && (var n := if |bytes| < UART_BUFLEN - |s.ring| then |bytes| else UART_BUFLEN - |s.ring|;
                t.accepted == s.accepted + bytes[..n] && t.overruns == s.overruns + (|bytes| - n))
            && (forall x :: x in t.q.input ==> x in s.q.input && x in t.q.reqs)
            && (forall x :: x in t.q.input ==>
                  t.q.reqs[x].servicing || t.ring == [] || t.q.reqs[x].length > |t.ring|)
  {
    assert |s.ring| <= UART_BUFLEN;
    hide StreamsOk, MarkedOk, HistoryOk, ReadAll;
    var u, t := Stored(s, bytes), Received(s, bytes);
    StoredKeepsInv(s, bytes);
    ReadAllServes(u, s.q.input);
    ReadAllFrame(u, s.q.input);
    ReadAllKeepsInv(u, s.q.input);
    forall x | x in t.q.input
      ensures x in t.q.reqs && (t.q.reqs[x].servicing || t.ring == [] || t.q.reqs[x].length > |t.ring|)
    {
      assert Waits(t.q, x) && !CanTake(t, x);
    }
  }

  /** After an interrupt that sent something, what waits is being served or the ring is full. The
      device is idle after one that found nothing to send, and only then. */
  lemma TransmittedServes(s: State)
    requires Inv(s)
    ensures var t := Transmitted(s);
            && Inv(t) && (t.idle <==> s.out == [])
            && (s.out == [] ==> t == s.(idle := true))
            && (s.out != [] ==>
                  && LeftServed(s.q.output, t.q, t.q.output)
                  && (var n := if |s.out| < UART_FIFO_LEN then |s.out| else UART_FIFO_LEN;
                      t.sent == s.sent + s.out[..n] && s.out[n..] <= t.out)
                  && (forall x :: x in t.q.output ==> x in s.q.output && x in t.q.reqs)
                  && (forall x :: x in t.q.output ==> t.q.reqs[x].servicing || |t.out| == UART_BUFLEN))
  {
    TransmittedKeepsInv(s);
    if s.out != [] {
      SendingServes(s);
      WriteAllSent(Sent(s), s.q.output);
    }
  }

  lemma {:induction false} WriteAllSent(s: State, nodes: seq<nat>)
    requires !s.idle
    ensures WriteAll(s, nodes).sent == s.sent && s.out <= WriteAll(s, nodes).out
    decreases |nodes|
  {
    hide WriteWhole;
    if nodes != [] {
      WriteWholeBusy(s, nodes[0]);
      WriteWholeSent(s, nodes[0]);
      WriteAllSent(WriteWhole(s, nodes[0]), nodes[1..]);
    }
  }

  lemma WriteWholeSent(s: State, id: nat)
    requires !s.idle
    ensures WriteWhole(s, id).sent == s.sent && s.out <= WriteWhole(s, id).out
  {
    hide Served;
    ServedFrame(Put(s, id), id);
  }

  lemma SendingServes(s: State)
    requires Inv(s) && s.out != []
    ensures var t := Transmitted(s);
            && !t.idle && LeftServed(s.q.output, t.q, t.q.output)
            && (forall x :: x in t.q.output ==> x in s.q.output && x in t.q.reqs)
            && (forall x :: x in t.q.output ==> t.q.reqs[x].servicing || |t.out| == UART_BUFLEN)
  {
    hide MarkedOk, HistoryOk, WriteAll;
    var u, t := Sent(s), Transmitted(s);
    SentKeepsInv(s);
    WriteAllServes(u, s.q.output);
    WriteAllBusy(u, s.q.output);
    WriteAllKeepsInv(u, s.q.output);
    forall x | x in t.q.output
      ensures x in t.q.reqs && (t.q.reqs[x].servicing || |t.out| == UART_BUFLEN)
    {
      assert Waits(t.q, x) && !CanPut(t, x);
    }
  }

  lemma {:induction false} WriteAllBusy(s: State, nodes: seq<nat>)
    requires !s.idle
    ensures !WriteAll(s, nodes).idle
    decreases |nodes|
  {
    hide WriteWhole;
    if nodes != [] {
      WriteWholeBusy(s, nodes[0]);
      WriteAllBusy(WriteWhole(s, nodes[0]), nodes[1..]);
    }
  }
}
