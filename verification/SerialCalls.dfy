/** Whole commands of the serial device, when nothing comes between their sections. */
module SerialCalls {
  import opened Lists
  import opened Machine
  import opened SerialAnswers
  import opened SerialQueue
  import opened SerialRuns
  import H = SerialHistory
  import O = SerialOrder

  /** The loops of Flush. */
  function AbortAll(s: State, nodes: seq<nat>): State
    decreases |nodes|
  {
    if nodes == [] then s else AbortAll(EndedBy(s, nodes[0], Aborted), nodes[1..])
  }

  function Flushed(s: State): State {
    AbortAll(AbortAll(s, s.q.input), s.q.output)
  }

  /** What Start does with the queues: the head of the input queue is tried again, or that of the
      output queue when there is none. */
  function Retried(s: State): State {
    if s.q.input != [] then ReadWhole(s, s.q.input[0])
    else if s.q.output != [] then WriteWhole(s, s.q.output[0])
    else s
  }

  function Started(s: State, id: nat): State {
    EndedBy(Retried(s.(stopped := false)), id, NoError)
  }

  function Stopped(s: State, id: nat): State {
    EndedBy(s.(stopped := true), id, NoError)
  }

  function Reset(s: State, id: nat): State {
    Started(EndedBy(Flushed(Stopped(s, id)), id, NoError), id)
  }

  /** commandVector for the commands that do not queue. */
  function Commanded(s: State, id: nat, command: nat): State {
    if command == CMD_RESET then Reset(s, id)
    else if command == CMD_CLEAR then EndedBy(Cleared(s), id, NoError)
    else if command == CMD_STOP then Stopped(s, id)
    else if command == CMD_START then Started(s, id)
    else if command == CMD_FLUSH then EndedBy(Flushed(s), id, NoError)
    else EndedBy(s, id, NoCommand)
  }

  /** ser_BeginIO: a read or a write joins its queue, and runs when it is the first there; all other
      commands run at once. */
  function Called(s: State, id: nat, r: Request): State {
    var t := Begun(s, id, r);
    if !Queueing(r) then Commanded(t, id, r.command)
    else if id !in t.q.reqs || !t.q.reqs[id].current then t
    else if r.command == CMD_READ then ReadWhole(t, id)
    else WriteWhole(t, id)
  }

  // ---------------------------------------------------------------- Flush

  predicate WasAborted(q: Queues, id: nat) {
    id in q.reqs && q.reqs[id].done && q.reqs[id].error == Aborted
  }

  ghost predicate AllAborted(nodes: seq<nat>, q: Queues) {
    forall x :: x in nodes ==> WasAborted(q, x)
  }

  /** Requests that are in no queue stay as they are. */
  ghost predicate IdleStay(q: Queues, t: Queues) {
    forall x {:trigger t.reqs[x]} {:trigger q.reqs[x]} :: x in q.reqs && !InQueue(q, x) ==>
      x in t.reqs && !InQueue(t, x) && t.reqs[x] == q.reqs[x]
  }

  lemma IdleStayOn(q: Queues, t: Queues, u: Queues)
    requires IdleStay(q, t) && IdleStay(t, u)
    ensures IdleStay(q, u)
  {
    forall x | x in q.reqs && !InQueue(q, x)
      ensures x in u.reqs && !InQueue(u, x) && u.reqs[x] == q.reqs[x]
    {
      assert x in t.reqs && !InQueue(t, x) && t.reqs[x] == q.reqs[x];
    }
  }

  lemma EndIdleStay(q: Queues, error: Error, id: nat, t: Queues)
    requires Ended(q, error, id, t) && InQueue(q, id)
    ensures IdleStay(q, t)
  {
    forall x | x in q.reqs && !InQueue(q, x)
      ensures x in t.reqs && !InQueue(t, x) && t.reqs[x] == q.reqs[x]
    {
      assert SameOrCurrent(q, x, t.reqs[x]);
    }
  }

  predicate OnlyQueues(s: State, t: State) {
    t == s.(q := t.q)
  }

  lemma {:induction false} AbortReads(s: State)
    requires Inv(s)
    ensures var t := AbortAll(s, s.q.input);
            && Inv(t) && OnlyQueues(s, t) && t.q.input == [] && t.q.output == s.q.output
            && AllAborted(s.q.input, t.q) && AnswersStay(s.q, t.q, {}) && IdleStay(s.q, t.q)
    decreases |s.q.input|
  {
    if s.q.input == [] {
      SameAnswers(s.q);
    } else {
      var id := s.q.input[0];
      var t := EndedBy(s, id, Aborted);
      AbortHead(s, s.q.input);
      AbortReads(t);
      AbortedStays(t.q, AbortAll(t, t.q.input).q, id);
      hide Inv, EndedBy;
      AnswersStayOn(s.q, t.q, AbortAll(t, t.q.input).q, {});
      IdleStayOn(s.q, t.q, AbortAll(t, t.q.input).q);
      assert s.q.input == [id] + t.q.input;
    }
  }

  lemma {:induction false} AbortWrites(s: State)
    requires Inv(s)
    ensures var t := AbortAll(s, s.q.output);
            && Inv(t) && OnlyQueues(s, t) && t.q.output == [] && t.q.input == s.q.input
            && AllAborted(s.q.output, t.q) && AnswersStay(s.q, t.q, {}) && IdleStay(s.q, t.q)
    decreases |s.q.output|
  {
    if s.q.output == [] {
      SameAnswers(s.q);
    } else {
      var id := s.q.output[0];
      var t := EndedBy(s, id, Aborted);
      AbortHead(s, s.q.output);
      AbortWrites(t);
      AbortedStays(t.q, AbortAll(t, t.q.output).q, id);
      hide Inv, EndedBy;
      AnswersStayOn(s.q, t.q, AbortAll(t, t.q.output).q, {});
      IdleStayOn(s.q, t.q, AbortAll(t, t.q.output).q);
      assert s.q.output == [id] + t.q.output;
    }
  }

  /** A request that waits is in one queue. */
  lemma InOneQueue(q: Queues, id: nat)
    requires Ok(q) && InQueue(q, id)
    ensures id in q.reqs && !q.reqs[id].done && !(id in q.input && id in q.output)
    ensures Removed(q.input, id) == (if id in q.input then Removed(q.input, id) else q.input)
    ensures Removed(q.output, id) == (if id in q.output then Removed(q.output, id) else q.output)
  {
    assert id in q.input ==> Waits(q, id);
    assert id in q.output ==> Waits(q, id);
    if id !in q.input {
      RemovedNothing(q.input, id);
    }
    if id !in q.output {
      RemovedNothing(q.output, id);
    }
  }

  /** The head of a queue is aborted, and the other queue is as before. */
  lemma AbortHead(s: State, queue: seq<nat>)
    requires Inv(s) && queue != [] && (queue == s.q.input || queue == s.q.output)
    ensures var id, t := queue[0], EndedBy(s, queue[0], Aborted);
            && Inv(t) && OnlyQueues(s, t) && WasAborted(t.q, id) && AnswersStay(s.q, t.q, {}) && IdleStay(s.q, t.q)
            && (queue == s.q.input ==> t.q.input == queue[1..] && t.q.output == s.q.output)
            && (queue == s.q.output ==> t.q.output == queue[1..] && t.q.input == s.q.input)
  {
    var id := queue[0];
    assert Ok(s.q) && NoRepeats(queue) && InQueue(s.q, id);
    hide Ok, StreamsOk, MarkedOk, HistoryOk, End, Ended, Removed, NoRepeats, AnswersStay;
    InOneQueue(s.q, id);
    HeadRemoved(queue);
    EndKeepsOk(s.q, Aborted, id);
    EndedByKeepsInv(s, id, Aborted);
    EndAnswers(s.q, Aborted, id);
    EndIdleStay(s.q, Aborted, id, End(s.q, Aborted, id));
  }

  lemma AbortedStays(q: Queues, t: Queues, id: nat)
    requires WasAborted(q, id) && AnswersStay(q, t, {})
    ensures WasAborted(t, id)
  {
    assert SameAnswer(q.reqs[id], t.reqs[id]);
  }

  /** Flush empties both queues: whatever waited ends as aborted, and no byte is moved. */
  lemma FlushedIs(s: State)
    requires Inv(s)
    ensures var t := Flushed(s);
            && Inv(t) && OnlyQueues(s, t) && t.q.input == t.q.output == [] && AnswersStay(s.q, t.q, {})
            && IdleStay(s.q, t.q)
            && AllAborted(s.q.input, t.q) && AllAborted(s.q.output, t.q)
  {
    hide Inv, AllAborted, AbortAll;
    var u := AbortAll(s, s.q.input);
    AbortReads(s);
    AbortWrites(u);
    AllAbortedStay(s.q.input, u.q, Flushed(s).q);
    AnswersStayOn(s.q, u.q, Flushed(s).q, {});
    IdleStayOn(s.q, u.q, Flushed(s).q);
  }

  lemma AllAbortedStay(nodes: seq<nat>, q: Queues, t: Queues)
    requires AllAborted(nodes, q) && AnswersStay(q, t, {})
    ensures AllAborted(nodes, t)
  {
    forall x | x in nodes
      ensures WasAborted(t, x)
    {
      assert WasAborted(q, x) && SameAnswer(q.reqs[x], t.reqs[x]);
    }
  }

  // ---------------------------------------------------------------- whole commands

  lemma ReadWholeKeeps(s: State, id: nat)
    requires Inv(s)
    ensures Inv(ReadWhole(s, id)) && AnswersStay(s.q, ReadWhole(s, id).q, {})
  {
    hide Inv, Taken, Served, CanTake, AnswersStay;
    var t := Taken(s, id);
    TakenKeepsInv(s, id);
    ServedKeepsInv(t, id);
    TakenAnswers(s, id);
    ServedAnswers(t, id);
    AnswersStayOn(s.q, t.q, Served(t, id).q, {});
  }

  lemma WriteWholeKeeps(s: State, id: nat)
    requires Inv(s)
    ensures Inv(WriteWhole(s, id)) && AnswersStay(s.q, WriteWhole(s, id).q, {})
  {
    hide Inv, Put, Served, CanPut, AnswersStay;
    var t := Put(s, id);
    PutKeepsInv(s, id);
    ServedKeepsInv(t, id);
    PutAnswers(s, id);
    ServedAnswers(t, id);
    AnswersStayOn(s.q, t.q, Served(t, id).q, {});
  }

  lemma WriteIsNotTaken(s: State, id: nat)
    requires Inv(s) && id in s.q.reqs && s.q.reqs[id].command == CMD_WRITE
    ensures id !in s.taken.open
  {
    forall x | x in s.taken.open
      ensures x != id
    {
      assert OpenOk(s.taken, s.q.reqs, x, CMD_READ);
    }
  }

  /** The requests are of the kind they were. */
  ghost predicate AllOfKind(nodes: seq<nat>, q: Queues, command: nat) {
    forall x :: x in nodes ==> x in q.reqs && q.reqs[x].command == command
  }

  lemma ReadKinds(s: State, id: nat, nodes: seq<nat>, command: nat)
    requires AllOfKind(nodes, s.q, command)
    ensures AllOfKind(nodes, ReadWhole(s, id).q, command)
  {
    hide Served;
    ServedNeeds(Taken(s, id), id);
  }

  lemma WriteKinds(s: State, id: nat, nodes: seq<nat>, command: nat)
    requires AllOfKind(nodes, s.q, command)
    ensures AllOfKind(nodes, WriteWhole(s, id).q, command)
  {
    hide Served;
    ServedNeeds(Put(s, id), id);
  }

  lemma QueueKinds(s: State)
    requires Inv(s)
    ensures AllOfKind(s.q.input, s.q, CMD_READ) && AllOfKind(s.q.output, s.q, CMD_WRITE)
  {
    forall x | x in s.q.input || x in s.q.output
      ensures x in s.q.reqs
    {
      assert Waits(s.q, x);
    }
  }

  /** What a whole command keeps: the invariant, every answer, and the request stays known. */
  ghost predicate Keeps(s: State, t: State) {
    Inv(t) && AnswersStay(s.q, t.q, {})
  }

  lemma KeepsOn(s: State, t: State, u: State)
    requires Keeps(s, t) && Keeps(t, u)
    ensures Keeps(s, u)
  {
    hide Inv, AnswersStay;
    AnswersStayOn(s.q, t.q, u.q, {});
  }

  lemma EndedByKeeps(s: State, id: nat, error: Error)
    requires Inv(s) && id in s.q.reqs && (error != Aborted ==> !Queueing(s.q.reqs[id]))
    ensures Keeps(s, EndedBy(s, id, error)) && OnlyQueues(s, EndedBy(s, id, error))
    ensures id in EndedBy(s, id, error).q.reqs && EndedBy(s, id, error).q.reqs[id].done
    ensures !s.q.reqs[id].done ==> EndedBy(s, id, error).q.reqs[id].error == error
    ensures EndedBy(s, id, error).q.input == Removed(s.q.input, id)
    ensures EndedBy(s, id, error).q.output == Removed(s.q.output, id)
  {
    EndedByKeepsInv(s, id, error);
    hide StreamsOk, MarkedOk, HistoryOk, Ok, AnswersStay, End;
    EndKeepsOk(s.q, error, id);
    EndAnswers(s.q, error, id);
  }

  lemma QuickIsIdle(s: State, id: nat)
    requires Inv(s) && id in s.q.reqs && !Queueing(s.q.reqs[id])
    ensures !InQueue(s.q, id)
  {
  }

  lemma IdleStays(q: Queues, t: Queues, id: nat)
    requires IdleStay(q, t) && id in q.reqs && !InQueue(q, id)
    ensures id in t.reqs && t.reqs[id] == q.reqs[id]
  {
  }

  /** The end of a command that does not queue leaves the queues alone. */
  lemma QuickEnds(s: State, id: nat, error: Error)
    requires Inv(s) && id in s.q.reqs && !Queueing(s.q.reqs[id])
    ensures var t := EndedBy(s, id, error);
            && Keeps(s, t) && OnlyQueues(s, t) && id in t.q.reqs && t.q.reqs[id].done
            && (!s.q.reqs[id].done ==> t.q.reqs[id].error == error)
            && t.q.input == s.q.input && t.q.output == s.q.output
  {
    assert !InQueue(s.q, id);
    RemovedNothing(s.q.input, id);
    RemovedNothing(s.q.output, id);
    hide Inv, EndedBy;
    EndedByKeeps(s, id, error);
  }

  lemma RetriedKeeps(s: State)
    requires Inv(s)
    ensures Keeps(s, Retried(s))
  {
    hide Inv, ReadWhole, WriteWhole, AnswersStay;
    SameAnswers(s.q);
    if s.q.input != [] {
      ReadWholeKeeps(s, s.q.input[0]);
    } else if s.q.output != [] {
      WriteWholeKeeps(s, s.q.output[0]);
    }
  }

  /** Start serves the head of the input queue exactly when nobody serves it yet and its bytes are
      there; the output queue is looked at only when no read waits. */
  lemma RetriedIs(s: State)
    requires Inv(s)
    ensures var t := Retried(s);
            && (s.q.input != [] && CanTake(s, s.q.input[0]) ==>
                  t.q.input == s.q.input[1..] && Succeeded(t.q, s.q.input[0]))
            && (s.q.input != [] && !CanTake(s, s.q.input[0]) ==> t.q.input == s.q.input && t.taken == s.taken)
            && (s.q.input != [] ==> t.out == s.out && t.sent == s.sent && t.q.output == s.q.output)
            && (s.q.input == [] ==> t.ring == s.ring && t.taken == s.taken)
            && (s.q.input == [] && s.q.output != [] && CanPut(s, s.q.output[0]) ==>
                  t.q.output == s.q.output[1..] && Succeeded(t.q, s.q.output[0]))
            && (s.q.input == [] && s.q.output != [] && !CanPut(s, s.q.output[0]) ==>
                  t.q.output == s.q.output && t.given == s.given)
  {
    if s.q.input != [] {
      HeadIsRead(s);
    } else if s.q.output != [] {
      HeadIsWritten(s);
    }
  }

  lemma HeadIsRead(s: State)
    requires Inv(s) && s.q.input != []
    ensures var id, t := s.q.input[0], ReadWhole(s, s.q.input[0]);
            && (CanTake(s, id) ==> t.q.input == s.q.input[1..] && Succeeded(t.q, id))
            && (!CanTake(s, id) ==> t.q.input == s.q.input && t.taken == s.taken)
            && t.out == s.out && t.sent == s.sent && t.q.output == s.q.output
  {
    var id := s.q.input[0];
    HeadRemoved(s.q.input);
    assert id in s.q.reqs by {
      assert Waits(s.q, id);
    }
    hide Inv, Served, Removed, NoRepeats;
    O.ReadWholeQueue(s, id);
    ReadWholeFrame(s, id);
    if CanTake(s, id) {
      ReadWholeSucceeds(s, id);
    }
  }

  lemma HeadIsWritten(s: State)
    requires Inv(s) && s.q.output != []
    ensures var id, t := s.q.output[0], WriteWhole(s, s.q.output[0]);
            && (CanPut(s, id) ==> t.q.output == s.q.output[1..] && Succeeded(t.q, id))
            && (!CanPut(s, id) ==> t.q.output == s.q.output && t.given == s.given)
            && t.ring == s.ring && t.taken == s.taken
  {
    var id := s.q.output[0];
    HeadRemoved(s.q.output);
    assert id in s.q.reqs by {
      assert Waits(s.q, id);
    }
    O.WriteWholeTakesNothing(s, id);
    hide Inv, Served, Removed, NoRepeats;
    O.WriteWholeQueue(s, id);
    ServedFrame(Put(s, id), id);
    if CanPut(s, id) {
      WriteWholeSucceeds(s, id);
    }
  }

  lemma AnswerStays(q: Queues, t: Queues, id: nat)
    requires AnswersStay(q, t, {}) && id in q.reqs
    ensures id in t.reqs && SameAnswer(q.reqs[id], t.reqs[id])
  {
  }

  /** What the commands that do not queue do besides ending their request. */
  ghost predicate CommandDone(s: State, id: nat, command: nat, t: State) {
    && Keeps(s, t) && id in t.q.reqs && t.q.reqs[id].done
    && t.q.reqs[id].error == (if command in KNOWN_COMMANDS then NoError else NoCommand)
    && (command == CMD_CLEAR ==>
          && t == s.(ring := [], q := t.q, accepted := H.Joined(s.taken.log))
          && t.q.input == s.q.input && t.q.output == s.q.output)
    && (command == CMD_STOP ==>
          t == s.(stopped := true, q := t.q) && t.q.input == s.q.input && t.q.output == s.q.output)
    && (command == CMD_FLUSH ==> OnlyQueues(s, t))
    && (command == CMD_RESET ==> t == s.(stopped := false, q := t.q))
    && (command == CMD_FLUSH || command == CMD_RESET ==>
          t.q.input == t.q.output == [] && AllAborted(s.q.input, t.q) && AllAborted(s.q.output, t.q))
    && (command == CMD_START ==>
          var u := Retried(s.(stopped := false));
          t == u.(q := t.q) && t.q.input == u.q.input && t.q.output == u.q.output && Keeps(u, t))
    && (command !in KNOWN_COMMANDS ==> OnlyQueues(s, t) && t.q.input == s.q.input && t.q.output == s.q.output)
  }

  lemma CommandedIs(s: State, id: nat, command: nat)
    requires Inv(s) && id in s.q.reqs && !s.q.reqs[id].done && !Queueing(s.q.reqs[id])
    requires command != CMD_READ && command != CMD_WRITE
    ensures CommandDone(s, id, command, Commanded(s, id, command))
  {
    hide Inv, EndedBy, Flushed, Retried, Cleared, Keeps, AllAborted;
    if command == CMD_RESET {
      ResetIs(s, id);
    } else if command == CMD_CLEAR {
      ClearIs(s, id);
    } else if command == CMD_STOP {
      StoppedIs(s, id);
    } else if command == CMD_START {
      StartedIs(s, id);
    } else if command == CMD_FLUSH {
      FlushIs(s, id);
    } else {
      QuickEnds(s, id, NoCommand);
    }
  }

  lemma ClearIs(s: State, id: nat)
    requires Inv(s) && id in s.q.reqs && !s.q.reqs[id].done && !Queueing(s.q.reqs[id])
    ensures CommandDone(s, id, CMD_CLEAR, Commanded(s, id, CMD_CLEAR))
  {
    ClearedKeepsInv(s);
    assert Cleared(s) == s.(ring := [], accepted := H.Joined(s.taken.log));
    hide Inv, EndedBy, Flushed, Retried, Cleared, AllAborted;
    QuickEnds(Cleared(s), id, NoError);
  }

  lemma StoppedIs(s: State, id: nat)
    requires Inv(s) && id in s.q.reqs && !s.q.reqs[id].done && !Queueing(s.q.reqs[id])
    ensures CommandDone(s, id, CMD_STOP, Commanded(s, id, CMD_STOP))
  {
    assert Inv(s.(stopped := true));
    hide Inv, EndedBy, Flushed, Retried, Cleared, AllAborted;
    QuickEnds(s.(stopped := true), id, NoError);
  }

  lemma FlushIs(s: State, id: nat)
    requires Inv(s) && id in s.q.reqs && !s.q.reqs[id].done && !Queueing(s.q.reqs[id])
    ensures CommandDone(s, id, CMD_FLUSH, Commanded(s, id, CMD_FLUSH))
  {
    hide Inv, EndedBy, Flushed, Retried, Cleared, AllAborted, AnswersStay, InQueue, IdleStay;
    QuickIsIdle(s, id);
    FlushedIs(s);
    var u := Flushed(s);
    IdleStays(s.q, u.q, id);
    QuickEnds(u, id, NoError);
    KeepsOn(s, u, EndedBy(u, id, NoError));
    AllAbortedStay(s.q.input, u.q, EndedBy(u, id, NoError).q);
    AllAbortedStay(s.q.output, u.q, EndedBy(u, id, NoError).q);
  }

  lemma WholeIdle(s: State, id: nat, read: bool)
    requires Inv(s) && InQueue(s.q, id)
    ensures IdleStay(s.q, if read then ReadWhole(s, id).q else WriteWhole(s, id).q)
  {
    hide StreamsOk, MarkedOk, HistoryOk, Ok, Ended, EndWith;
    var u := if read then Taken(s, id) else Put(s, id);
    TakenKeepsInv(s, id);
    PutKeepsInv(s, id);
    assert IdleStay(s.q, u.q);
    ServedIdle(u, id);
    IdleStayOn(s.q, u.q, Served(u, id).q);
  }

  lemma ServedIdle(s: State, id: nat)
    requires Inv(s) && InQueue(s.q, id)
    ensures IdleStay(s.q, Served(s, id).q)
  {
    hide StreamsOk, MarkedOk, HistoryOk, Ok, EndWith;
    if id in s.q.reqs && (id in s.taken.open || id in s.given.open) {
      var n := |Bytes(if id in s.taken.open then s.taken else s.given, id)|;
      EndWithIs(s.q, id, n);
      var t := Served(s, id).q;
      forall x | x in s.q.reqs && !InQueue(s.q, x)
        ensures x in t.reqs && !InQueue(t, x) && t.reqs[x] == s.q.reqs[x]
      {
        assert SameOrCurrent(s.q, x, t.reqs[x]);
      }
    }
  }

  lemma RetriedIdle(s: State)
    requires Inv(s)
    ensures IdleStay(s.q, Retried(s).q)
  {
    hide Inv, ReadWhole, WriteWhole;
    if s.q.input != [] {
      WholeIdle(s, s.q.input[0], true);
    } else if s.q.output != [] {
      WholeIdle(s, s.q.output[0], false);
    }
  }

  lemma StartedIs(s: State, id: nat)
    requires Inv(s) && id in s.q.reqs && !s.q.reqs[id].done && !Queueing(s.q.reqs[id])
    ensures CommandDone(s, id, CMD_START, Commanded(s, id, CMD_START))
  {
    hide Inv, EndedBy, Flushed, Retried, Cleared, AllAborted, AnswersStay, InQueue, IdleStay;
    var s0 := s.(stopped := false);
    StaysStarted(s);
    QuickIsIdle(s0, id);
    var u := Retried(s0);
    RetriedKeeps(s0);
    RetriedIdle(s0);
    IdleStays(s.q, u.q, id);
    QuickEnds(u, id, NoError);
    KeepsOn(s0, u, EndedBy(u, id, NoError));
  }

  lemma StartedKeeps(s: State, id: nat)
    requires Inv(s) && id in s.q.reqs && !Queueing(s.q.reqs[id])
    ensures Inv(s.(stopped := false)) && id in Retried(s.(stopped := false)).q.reqs && Inv(Started(s, id))
  {
    StaysStarted(s);
    hide Inv, EndedBy, Retried, AnswersStay;
    var t := s.(stopped := false);
    RetriedKeeps(t);
    AnswerStays(t.q, Retried(t).q, id);
    QuickEnds(Retried(t), id, NoError);
  }

  /** After Flush nothing is left for Start to try again. */
  lemma ResetIs(s: State, id: nat)
    requires Inv(s) && id in s.q.reqs && !s.q.reqs[id].done && !Queueing(s.q.reqs[id])
    ensures CommandDone(s, id, CMD_RESET, Commanded(s, id, CMD_RESET))
  {
    hide Inv, EndedBy, Flushed, Cleared, AllAborted, AnswersStay;
    var s1 := Stopped(s, id);
    var s2 := Flushed(s1);
    var s3 := EndedBy(s2, id, NoError);
    StoppedIs(s, id);
    FlushedIs(s1);
    KeepsOn(s, s1, s2);
    AnswerStays(s.q, s1.q, id);
    AnswerStays(s1.q, s2.q, id);
    QuickEnds(s2, id, NoError);
    EndOfDone(s2, id, NoError);
    assert s3 == s2;
    StaysStarted(s3);
    QuickEnds(s3.(stopped := false), id, NoError);
    EndOfDone(s3.(stopped := false), id, NoError);
  }

  lemma StaysStarted(s: State)
    requires Inv(s)
    ensures Inv(s.(stopped := false))
  {
  }

  // ---------------------------------------------------------------- ser_BeginIO

  lemma AnswersBut(q: Queues, t: Queues, u: Queues, id: nat)
    requires AnswersStay(q, t, {id}) && AnswersStay(t, u, {})
    ensures AnswersStay(q, u, {id})
  {
    forall x | x in q.reqs && x !in {id}
      ensures x in u.reqs && SameAnswer(q.reqs[x], u.reqs[x])
    {
      assert x in t.reqs && SameAnswer(q.reqs[x], t.reqs[x]);
    }
  }

  /** The request as it was begun. */
  lemma BegunIs(s: State, id: nat, r: Request)
    requires Inv(s) && Legal(s, BeginIO(id, r))
    ensures var t := Begun(s, id, r);
            && Inv(t) && OnlyQueues(s, t) && AnswersStay(s.q, t.q, {id}) && id in t.q.reqs
            && t.q.input == (if r.command == CMD_READ then s.q.input + [id] else s.q.input)
            && t.q.output == (if r.command == CMD_WRITE then s.q.output + [id] else s.q.output)
    ensures var t, u := Begun(s, id, r), Begun(s, id, r).q.reqs[id];
            && u.command == r.command && u.length == r.length && u.data == r.data && !u.done && !u.servicing
            && (r.command == CMD_READ ==> (u.current <==> s.q.input == []))
            && (r.command == CMD_WRITE ==> (u.current <==> s.q.output == []))
  {
    BegunKeepsInv(s, id, r);
    hide Inv, Ok;
    BeginKeepsOk(s.q, id, r);
    BegunAnswers(s, id, r);
  }

  /** A whole ser_BeginIO keeps the invariant and the answers of all other requests. */
  lemma CalledKeeps(s: State, id: nat, r: Request)
    requires Inv(s) && Legal(s, BeginIO(id, r))
    ensures Inv(Called(s, id, r)) && AnswersStay(s.q, Called(s, id, r).q, {id})
    ensures Keeps(Begun(s, id, r), Called(s, id, r))
  {
    hide Inv, Begun, Commanded, ReadWhole, WriteWhole, AnswersStay, Legal;
    var t := Begun(s, id, r);
    BegunIs(s, id, r);
    if !Queueing(r) {
      CommandedIs(t, id, r.command);
    } else if r.command == CMD_READ {
      ReadWholeKeeps(t, id);
    } else {
      WriteWholeKeeps(t, id);
    }
    SameAnswers(t.q);
    AnswersBut(s.q, t.q, Called(s, id, r).q, id);
  }

  /** A read is served at once exactly when it is the first and its bytes are there; any other is
      the last in its queue. */
  lemma ReadCalledIs(s: State, id: nat, r: Request)
    requires Inv(s) && Legal(s, BeginIO(id, r)) && r.command == CMD_READ
    ensures var t := Called(s, id, r);
            if s.q.input == [] && s.ring != [] && r.length <= |s.ring| then
              && t.q.input == [] && Succeeded(t.q, id) && t.ring == s.ring[r.length..]
              && t.q.reqs[id].length == t.q.reqs[id].actual == r.length
              && t.q.reqs[id].data == s.ring[..r.length] + r.data[r.length..]
            else
              t.q.input == s.q.input + [id] && t.ring == s.ring && t.taken == s.taken
  {
    hide Inv, Begun, Commanded, Served, Legal;
    var t := Begun(s, id, r);
    BegunIs(s, id, r);
    if s.q.input == [] && s.ring != [] && r.length <= |s.ring| {
      ReadsAtOnce(t, id);
      assert [id] == [] + [id];
    }
  }

  lemma OneRemoved(id: nat)
    ensures Removed([id], id) == []
  {
  }

  lemma ReadsAtOnce(s: State, id: nat)
    requires Inv(s) && s.q.input == [id] && CanTake(s, id) && !s.q.reqs[id].done
    ensures var r, t := s.q.reqs[id], ReadWhole(s, id);
            && t.q.input == [] && Succeeded(t.q, id) && t.ring == s.ring[r.length..]
            && t.q.reqs[id].length == t.q.reqs[id].actual == r.length
            && t.q.reqs[id].data == s.ring[..r.length] + r.data[r.length..]
  {
    var u, t := Taken(s, id), ReadWhole(s, id);
    TakenKeepsInv(s, id);
    assert Bytes(u.taken, id) == s.ring[..s.q.reqs[id].length];
    OneRemoved(id);
    hide StreamsOk, MarkedOk, HistoryOk, Ok, EndWith, Bytes, Removed, SameOrCurrent;
    EndWithIs(u.q, id, |Bytes(u.taken, id)|);
    assert t.q == EndWith(u.q, id, s.q.reqs[id].length);
  }

  /** The call of a write comes down to Write when it is the first. */
  lemma WriteCalled(s: State, id: nat, r: Request)
    requires Inv(s) && Legal(s, BeginIO(id, r)) && r.command == CMD_WRITE
    ensures var t := Begun(s, id, r);
            && (s.q.output == [] ==> CanPut(t, id) == (|s.out| != UART_BUFLEN) && Called(s, id, r) == WriteWhole(t, id))
            && (s.q.output != [] ==> Called(s, id, r) == t)
            && (!CanPut(t, id) ==> WriteWhole(t, id) == t.(q := WriteWhole(t, id).q))
            && (!CanPut(t, id) ==> WriteWhole(t, id).q.output == t.q.output)
  {
    hide Inv, Begun, Commanded, Served, Legal, AnswersStay;
    BegunIs(s, id, r);
  }

  /** A write is served at once exactly when it is the first and there is room; it hands over as
      many bytes as there is room for. */
  lemma WriteCalledIs(s: State, id: nat, r: Request)
    requires Inv(s) && Legal(s, BeginIO(id, r)) && r.command == CMD_WRITE
    ensures |s.out| <= UART_BUFLEN
    ensures var t, free := Called(s, id, r), UART_BUFLEN - |s.out| + if s.idle then 1 else 0;
            var n := if r.length < free then r.length else free;
            if s.q.output == [] && |s.out| < UART_BUFLEN then
              && t.q.output == [] && Succeeded(t.q, id) && t.q.reqs[id].actual == n
              && t.sent + t.out == s.sent + s.out + r.data[..n] && t.q.reqs[id].data == r.data
            else
              t.q.output == s.q.output + [id] && t.out == s.out && t.given == s.given
  {
    assert |s.out| <= UART_BUFLEN;
    hide Inv, StreamsOk, Begun, Commanded, Legal, AnswersStay, Called, Put;
    var t := Begun(s, id, r);
    WriteCalled(s, id, r);
    BegunIs(s, id, r);
    if s.q.output == [] && |s.out| < UART_BUFLEN {
      WritesAtOnce(t, id);
      assert [id] == [] + [id];
    }
  }

  lemma WritesAtOnce(s: State, id: nat)
    requires Inv(s) && s.q.output == [id] && CanPut(s, id) && !s.q.reqs[id].done
    ensures var r, t, n := s.q.reqs[id], WriteWhole(s, id), Min(s.q.reqs[id].length, Room(s));
            && t.q.output == [] && Succeeded(t.q, id) && t.q.reqs[id].actual == n
            && t.sent + t.out == s.sent + s.out + r.data[..n] && t.q.reqs[id].data == r.data
  {
    hide Inv, Put, Served, EndWith, Removed, SameOrCurrent;
    var n := Min(s.q.reqs[id].length, Room(s));
    PutIs(s, id);
    OneRemoved(id);
    ServedWriteIs(Put(s, id), id, n);
  }

  /** The section of Write, when there is room. */
  lemma PutIs(s: State, id: nat)
    requires Inv(s) && CanPut(s, id)
    ensures var r, u, n := s.q.reqs[id], Put(s, id), Min(s.q.reqs[id].length, Room(s));
            && Inv(u) && u.q == With(s.q, id, r.(servicing := true)) && id !in u.taken.open && id in u.given.open
            && |Bytes(u.given, id)| == n && u.sent + u.out == s.sent + s.out + r.data[..n]
  {
    PutKeepsInv(s, id);
    WriteIsNotTaken(s, id);
    hide MarkedOk, HistoryOk, Ok;
    PushedStreams(s, s.q.reqs[id].data[..Min(s.q.reqs[id].length, Room(s))]);
  }

  /** The rest of Write. */
  lemma ServedWriteIs(s: State, id: nat, n: nat)
    requires Inv(s) && id in s.q.reqs && id !in s.taken.open && id in s.given.open && n == |Bytes(s.given, id)|
    ensures EndedWith(s.q, id, n, Served(s, id).q) && Served(s, id).sent == s.sent && Served(s, id).out == s.out
  {
    hide StreamsOk, MarkedOk, HistoryOk, Ok, EndWith, EndedWith;
    EndWithIs(s.q, id, n);
  }

  /** All other commands run at once, and are done. */
  lemma CommandCalledIs(s: State, id: nat, r: Request)
    requires Inv(s) && Legal(s, BeginIO(id, r)) && !Queueing(r)
    ensures CommandDone(Begun(s, id, r), id, r.command, Called(s, id, r))
    ensures var q := Called(s, id, r).q;
            id in q.reqs && q.reqs[id].done && q.reqs[id].replies == if r.quick then 0 else 1
  {
    hide Inv, Begun, Commanded, Legal, Keeps;
    BegunIs(s, id, r);
    CommandedIs(Begun(s, id, r), id, r.command);
    CommandReplies(s, id, r, Called(s, id, r));
  }

  /** After BeginIO the request has its one reply when it is done, unless it is quick. */
  lemma CalledReplies(s: State, id: nat, r: Request)
    requires Inv(s) && Legal(s, BeginIO(id, r))
    ensures var q := Called(s, id, r).q;
            && id in q.reqs
            && (!Queueing(r) ==> q.reqs[id].done && q.reqs[id].replies == if r.quick then 0 else 1)
            && (Queueing(r) ==> q.reqs[id].replies == if q.reqs[id].done then 1 else 0)
  {
    hide Inv, Begun, Called, Legal, CommandDone;
    BegunIs(s, id, r);
    if !Queueing(r) {
      CommandCalledIs(s, id, r);
      return;
    }
    CalledKeeps(s, id, r);
    QueuedReplies(s, id, r, Called(s, id, r));
  }

  lemma QueuedReplies(s: State, id: nat, r: Request, t: State)
    requires Inv(s) && Legal(s, BeginIO(id, r)) && Queueing(r) && Keeps(Begun(s, id, r), t)
    ensures id in t.q.reqs && t.q.reqs[id].replies == if t.q.reqs[id].done then 1 else 0
  {
    BeginKeepsOk(s.q, id, r);
    assert Ok(t.q);
    hide Inv, AnswersStay, Begin, Ok;
    AnswerStays(Begun(s, id, r).q, t.q, id);
    RepliesAre(t.q, id);
  }

  lemma CommandReplies(s: State, id: nat, r: Request, t: State)
    requires Inv(s) && Legal(s, BeginIO(id, r)) && !Queueing(r)
    requires Keeps(Begun(s, id, r), t) && id in t.q.reqs && t.q.reqs[id].done
    ensures t.q.reqs[id].replies == if r.quick then 0 else 1
  {
    BeginKeepsOk(s.q, id, r);
    RepliesAre(t.q, id);
    hide Inv, AnswersStay, Begin;
    AnswerStays(Begun(s, id, r).q, t.q, id);
  }
}
