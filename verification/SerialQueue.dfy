/** The requests of the serial device and their two queues (devicehelper.h). A request is a
    record in memory that its number stands for. */
module SerialQueue {
  import opened Lists
  import opened Machine

  const CMD_RESET := 1
  const CMD_READ := 2
  const CMD_WRITE := 3
  const CMD_CLEAR := 5
  const CMD_STOP := 6
  const CMD_START := 7
  const CMD_FLUSH := 8
  const UART_MAX_COMMANDS := 15

  /** The commands that do something. */
  const KNOWN_COMMANDS := {CMD_RESET, CMD_READ, CMD_WRITE, CMD_CLEAR, CMD_STOP, CMD_START, CMD_FLUSH}

  datatype Error = NoError | Aborted | NoCommand

  /** struct IOStdReq with its flags one by one, the number of replies since the last BeginIO, and
      the number of times it was begun before that. */
  datatype IOStdReq = IOStdReq(command: nat, length: nat, data: seq<byte>, actual: nat, error: Error, quick: bool,
                               current: bool, queued: bool, servicing: bool, done: bool, replies: nat, round: nat)

  /** The buffer holds what the request is about. */
  type Request = r: IOStdReq | r.length <= |r.data|
    witness IOStdReq(0, 0, [], 0, NoError, false, false, false, false, true, 0, 0)

  datatype Queues = Queues(reqs: map<nat, Request>, input: seq<nat>, output: seq<nat>)

  function With(s: Queues, id: nat, r: Request): Queues {
    s.(reqs := s.reqs[id := r])
  }

  predicate InQueue(s: Queues, id: nat) {
    id in s.input || id in s.output
  }

  predicate Queueing(r: Request) {
    r.command == CMD_READ || r.command == CMD_WRITE
  }

  /** A request that waits is not done and has a place; its reply is still to come. */
  predicate Waits(s: Queues, id: nat) {
    && id in s.reqs && !s.reqs[id].done && (s.reqs[id].current || s.reqs[id].queued)
    && s.reqs[id].replies == 0 && !s.reqs[id].quick
  }

  /** A command that does not queue, between its BeginIO and its end. */
  predicate Idle(r: Request) {
    !r.done && !r.current && !r.queued && r.replies == 0 && !Queueing(r)
  }

  /** A request that is done got one reply, or none when it was quick, which a read or a write never is. */
  predicate Answered(r: Request) {
    r.done && r.replies == (if r.quick then 0 else 1) && (Queueing(r) ==> !r.quick)
  }

  /** Queued requests wait, all others were answered, or run without a queue, and the head of a
      queue is the current request. */
  ghost predicate Ok(s: Queues) {
    && NoRepeats(s.input) && NoRepeats(s.output)
    && (forall id :: id in s.input ==> Waits(s, id) && s.reqs[id].command == CMD_READ)
    && (forall id :: id in s.output ==> Waits(s, id) && s.reqs[id].command == CMD_WRITE)
    && (forall id {:trigger s.reqs[id]} :: id in s.reqs && !InQueue(s, id) ==>
          Answered(s.reqs[id]) || Idle(s.reqs[id]))
    && (s.input != [] ==> s.input[0] in s.reqs && s.reqs[s.input[0]].current)
    && (s.output != [] ==> s.output[0] in s.reqs && s.reqs[s.output[0]].current)
  }

  // ---------------------------------------------------------------- EndCommandQueue

  /** The request with IOF_DONE set, its error stored, and a reply unless it was quick. */
  function Finished(r: Request, error: Error): Request {
    r.(done := true, error := error, replies := if r.quick then r.replies else r.replies + 1)
  }

  /** The new head of a queue becomes the current request. */
  function Promoted(reqs: map<nat, Request>, q: seq<nat>): map<nat, Request> {
    if q != [] && q[0] in reqs then reqs[q[0] := reqs[q[0]].(current := true)] else reqs
  }

  /** EndCommandQueue */
  function End(s: Queues, error: Error, id: nat): Queues
    requires id in s.reqs
  {
    var r := s.reqs[id];
    if r.done then s
    else
      var reqs := s.reqs[id := Finished(r, error)];
      if !r.current && !r.queued then s.(reqs := reqs)
      else if r.command == CMD_READ then
        var q := Removed(s.input, id);
        Queues(Promoted(reqs, q), q, s.output)
      else
        var q := Removed(s.output, id);
        Queues(Promoted(reqs, q), s.input, q)
  }

  /** What EndCommandQueue does, request by request: whoever is not done is done then, with this error
      and one more reply unless it is quick. It leaves its queue, and a new head of that queue becomes
      the current request. */
  lemma EndReplies(s: Queues, error: Error, id: nat)
    requires id in s.reqs
    ensures var t := End(s, error, id);
            && t.reqs.Keys == s.reqs.Keys && t.reqs[id].done
            && (s.reqs[id].done ==> t == s)
            && (!s.reqs[id].done ==>
                  && t.reqs[id].error == error && t.reqs[id].quick == s.reqs[id].quick
                  && t.reqs[id].replies == s.reqs[id].replies + if s.reqs[id].quick then 0 else 1)
  {
    hide Promoted, Finished;
    var r := s.reqs[id];
    FinishedIs(r, error);
    if !r.done && (r.current || r.queued) {
      var q := Removed(if r.command == CMD_READ then s.input else s.output, id);
      PromotedOthers(s.reqs[id := Finished(r, error)], q, id);
    }
  }

  lemma FinishedIs(r: Request, error: Error)
    ensures var t := Finished(r, error);
            t.done && t.error == error && t.quick == r.quick && t.replies == r.replies + if r.quick then 0 else 1
  {
  }

  lemma PromotedOthers(reqs: map<nat, Request>, q: seq<nat>, id: nat)
    requires id in reqs && id !in q
    ensures Promoted(reqs, q).Keys == reqs.Keys && Promoted(reqs, q)[id] == reqs[id]
  {
  }

  /** The other requests and the queues. */
  lemma EndMoves(s: Queues, error: Error, id: nat)
    requires id in s.reqs && !s.reqs[id].done
    ensures var t, r := End(s, error, id), s.reqs[id];
            && t.reqs.Keys == s.reqs.Keys
            && (forall x {:trigger t.reqs[x]} :: x in s.reqs && x != id ==>
                  t.reqs[x] == s.reqs[x] || t.reqs[x] == s.reqs[x].(current := true))
            && (!r.current && !r.queued ==> t.input == s.input && t.output == s.output)
            && (r.current || r.queued ==>
                  if r.command == CMD_READ then id !in t.input && t.output == s.output
                  else id !in t.output && t.input == s.input)
  {
  }

  /** The ended request, the places in the queues, and the other requests. */
  ghost predicate Ended(s: Queues, error: Error, id: nat, t: Queues) {
    && id in s.reqs && t.reqs.Keys == s.reqs.Keys && id in t.reqs && t.reqs[id] == Finished(s.reqs[id], error)
    && t.input == Removed(s.input, id) && t.output == Removed(s.output, id)
    && (t.input != [] && t.input != s.input ==> t.input[0] in t.reqs && t.reqs[t.input[0]].current)
    && (t.output != [] && t.output != s.output ==> t.output[0] in t.reqs && t.reqs[t.output[0]].current)
    && forall x {:trigger t.reqs[x]} :: x in s.reqs && x != id ==> SameOrCurrent(s, x, t.reqs[x])
  }

  /** Another request changes only when it becomes the current one. */
  predicate SameOrCurrent(s: Queues, x: nat, r: Request) {
    x in s.reqs && (r == s.reqs[x] || (r == s.reqs[x].(current := true) && InQueue(s, x)))
  }

  lemma EndInput(s: Queues, error: Error, id: nat)
    requires Ok(s) && id in s.input
    ensures id in s.reqs && Ended(s, error, id, End(s, error, id))
  {
    assert Waits(s, id);
    assert id !in s.output;
    RemovedNothing(s.output, id);
  }

  lemma EndOutput(s: Queues, error: Error, id: nat)
    requires Ok(s) && id in s.output
    ensures id in s.reqs && Ended(s, error, id, End(s, error, id))
  {
    assert Waits(s, id);
    assert id !in s.input;
    RemovedNothing(s.input, id);
  }

  lemma EndIdle(s: Queues, error: Error, id: nat)
    requires id in s.reqs && Idle(s.reqs[id]) && !InQueue(s, id)
    ensures Ended(s, error, id, End(s, error, id))
  {
    RemovedNothing(s.input, id);
    RemovedNothing(s.output, id);
  }

  lemma EndIs(s: Queues, error: Error, id: nat)
    requires Ok(s) && id in s.reqs && !s.reqs[id].done
    ensures Ended(s, error, id, End(s, error, id))
  {
    hide End, Ended, Removed;
    if id in s.input {
      EndInput(s, error, id);
      return;
    }
    if id in s.output {
      EndOutput(s, error, id);
      return;
    }
    EndIdle(s, error, id);
  }

  lemma EndedKeepsOk(s: Queues, error: Error, id: nat, t: Queues)
    requires Ok(s) && id in s.reqs && !s.reqs[id].done && Ended(s, error, id, t)
    ensures Ok(t)
  {
    RemovedNoRepeats(s.input, id);
    RemovedNoRepeats(s.output, id);
    forall x | InQueue(t, x)
      ensures Waits(t, x) && t.reqs[x].command == s.reqs[x].command
    {
      assert x != id && InQueue(s, x) && Waits(s, x) && x in t.reqs;
      assert SameOrCurrent(s, x, t.reqs[x]);
    }
    forall x {:trigger t.reqs[x]} | x in t.reqs && !InQueue(t, x)
      ensures Answered(t.reqs[x]) || Idle(t.reqs[x])
    {
      assert InQueue(s, id) ==> Waits(s, id);
      assert x != id ==> !InQueue(s, x) && SameOrCurrent(s, x, t.reqs[x]);
    }
  }

  /** How often a request was answered since it was begun: never before it is done, and then once,
      or not at all when it was quick. No read and no write is quick. */
  lemma RepliesAre(s: Queues, id: nat)
    requires Ok(s) && id in s.reqs
    ensures !s.reqs[id].done ==> s.reqs[id].replies == 0
    ensures s.reqs[id].done && !s.reqs[id].quick ==> s.reqs[id].replies == 1
    ensures s.reqs[id].done && s.reqs[id].quick ==> s.reqs[id].replies == 0
    ensures s.reqs[id].command == CMD_READ || s.reqs[id].command == CMD_WRITE ==> !s.reqs[id].quick
  {
    assert InQueue(s, id) ==> Waits(s, id);
  }

  /** Ending a request takes it out of its queue and answers it once, unless it is quick; a request
      that is done already stays as it is. */
  lemma EndKeepsOk(s: Queues, error: Error, id: nat)
    requires Ok(s) && id in s.reqs
    ensures Ok(End(s, error, id)) && id in End(s, error, id).reqs && End(s, error, id).reqs[id].done
    ensures End(s, error, id).input == Removed(s.input, id) && End(s, error, id).output == Removed(s.output, id)
    ensures !s.reqs[id].done ==> Ended(s, error, id, End(s, error, id))
    ensures !s.reqs[id].done ==>
              var r := End(s, error, id).reqs[id];
              r.error == error && r.quick == s.reqs[id].quick && r.replies == if r.quick then 0 else 1
  {
    if s.reqs[id].done {
      DoneIsOut(s, id);
      RemovedNothing(s.input, id);
      RemovedNothing(s.output, id);
      return;
    }
    hide End, Ok, Ended, Finished;
    EndIs(s, error, id);
    EndedKeepsOk(s, error, id, End(s, error, id));
    EndedIs(s, error, id, End(s, error, id));
    EndReplies(s, error, id);
    RepliesAre(s, id);
  }

  lemma DoneIsOut(s: Queues, id: nat)
    requires Ok(s) && id in s.reqs && s.reqs[id].done
    ensures id !in s.input && id !in s.output
  {
    assert id in s.input ==> Waits(s, id);
    assert id in s.output ==> Waits(s, id);
  }

  lemma EndedIs(s: Queues, error: Error, id: nat, t: Queues)
    requires Ended(s, error, id, t)
    ensures id in t.reqs && t.input == Removed(s.input, id) && t.output == Removed(s.output, id)
  {
  }

  // ---------------------------------------------------------------- QueueCommandQueue

  /** QueueCommandQueue for a read or a write. */
  function Enqueue(s: Queues, id: nat): Queues
    requires id in s.reqs
  {
    var r := s.reqs[id];
    if r.command == CMD_READ then
      Queues(s.reqs[id := r.(current := s.input == [], queued := s.input != [])], s.input + [id], s.output)
    else
      Queues(s.reqs[id := r.(current := s.output == [], queued := s.output != [])], s.input, s.output + [id])
  }

  /** The request as ser_BeginIO finds it after clearing its flags. */
  function Fresh(s: Queues, id: nat, r: Request): Request {
    r.(queued := false, current := false, servicing := false, done := false, error := NoError, replies := 0,
       quick := r.quick && !Queueing(r), round := if id in s.reqs then s.reqs[id].round + 1 else 0)
  }

  /** The first section of ser_BeginIO: a read or a write joins its queue. */
  function Begin(s: Queues, id: nat, r: Request): Queues {
    if Queueing(r) then Enqueue(With(s, id, Fresh(s, id, r)), id) else With(s, id, Fresh(s, id, r))
  }

  /** A request that is begun is in no queue yet. */
  lemma NotQueued(s: Queues, id: nat)
    requires Ok(s) && (id in s.reqs ==> s.reqs[id].done)
    ensures !InQueue(s, id)
  {
    assert InQueue(s, id) ==> Waits(s, id);
  }

  lemma EnqueueRead(s: Queues, id: nat, r: Request)
    requires Ok(s) && !InQueue(s, id) && r.command == CMD_READ && !r.done && r.replies == 0 && !r.quick
    ensures Ok(Enqueue(With(s, id, r), id))
  {
    hide Answered, Idle;
    AppendedNoRepeats(s.input, id);
    hide NoRepeats;
    var t := Enqueue(With(s, id, r), id);
    assert forall x :: x in s.reqs && x != id ==> t.reqs[x] == s.reqs[x];
  }

  lemma EnqueueWrite(s: Queues, id: nat, r: Request)
    requires Ok(s) && !InQueue(s, id) && r.command == CMD_WRITE && !r.done && r.replies == 0 && !r.quick
    ensures Ok(Enqueue(With(s, id, r), id))
  {
    hide Answered, Idle;
    AppendedNoRepeats(s.output, id);
    hide NoRepeats;
    var t := Enqueue(With(s, id, r), id);
    assert forall x :: x in s.reqs && x != id ==> t.reqs[x] == s.reqs[x];
  }

  lemma EnqueueKeepsOk(s: Queues, id: nat, r: Request)
    requires Ok(s) && !InQueue(s, id) && Queueing(r) && !r.done && r.replies == 0 && !r.quick
    ensures Ok(Enqueue(With(s, id, r), id))
  {
    hide Ok;
    if r.command == CMD_READ {
      EnqueueRead(s, id, r);
      return;
    }
    EnqueueWrite(s, id, r);
  }

  lemma ArriveKeepsOk(s: Queues, id: nat, r: Request)
    requires Ok(s) && !InQueue(s, id) && Idle(r)
    ensures Ok(With(s, id, r))
  {
    var t := With(s, id, r);
    forall x {:trigger t.reqs[x]} | x in t.reqs && !InQueue(t, x)
      ensures Answered(t.reqs[x]) || Idle(t.reqs[x])
    {
      assert x != id ==> !InQueue(s, x) && t.reqs[x] == s.reqs[x];
    }
  }

  lemma BegunRequest(s: Queues, id: nat, r: Request)
    ensures id in Begin(s, id, r).reqs
    ensures var t := Begin(s, id, r).reqs[id];
            && !t.done && t.error == NoError && t.replies == 0 && !t.servicing
            && t.quick == (r.quick && r.command != CMD_READ && r.command != CMD_WRITE)
            && t.command == r.command && t.length == r.length && t.data == r.data
            && (r.command == CMD_READ ==> t.current == (s.input == []) && t.queued == (s.input != []))
            && (r.command == CMD_WRITE ==> t.current == (s.output == []) && t.queued == (s.output != []))
  {
  }

  lemma BegunQueues(s: Queues, id: nat, r: Request)
    ensures Begin(s, id, r).reqs.Keys == s.reqs.Keys + {id}
    ensures Begin(s, id, r).input == (if r.command == CMD_READ then s.input + [id] else s.input)
    ensures Begin(s, id, r).output == (if r.command == CMD_WRITE then s.output + [id] else s.output)
    ensures forall x :: x in s.reqs && x != id ==> Begin(s, id, r).reqs[x] == s.reqs[x]
  {
  }

  /** A request may be begun when it is new or done; it joins its queue as the last. */
  lemma BeginKeepsOk(s: Queues, id: nat, r: Request)
    requires Ok(s) && (id in s.reqs ==> s.reqs[id].done)
    ensures Ok(Begin(s, id, r)) && Begin(s, id, r).reqs.Keys == s.reqs.Keys + {id}
    ensures Begin(s, id, r).input == (if r.command == CMD_READ then s.input + [id] else s.input)
    ensures Begin(s, id, r).output == (if r.command == CMD_WRITE then s.output + [id] else s.output)
    ensures forall x :: x in s.reqs && x != id ==> Begin(s, id, r).reqs[x] == s.reqs[x]
    ensures var t := Begin(s, id, r).reqs[id];
            && !t.done && t.error == NoError && t.replies == 0 && !t.servicing
            && t.quick == (r.quick && r.command != CMD_READ && r.command != CMD_WRITE)
            && t.command == r.command && t.length == r.length && t.data == r.data
            && (r.command == CMD_READ ==> t.current == (s.input == []) && t.queued == (s.input != []))
            && (r.command == CMD_WRITE ==> t.current == (s.output == []) && t.queued == (s.output != []))
  {
    hide Ok, Begin;
    BegunRequest(s, id, r);
    BegunQueues(s, id, r);
    BegunOk(s, id, r);
  }

  lemma BegunOk(s: Queues, id: nat, r: Request)
    requires Ok(s) && (id in s.reqs ==> s.reqs[id].done)
    ensures Ok(Begin(s, id, r))
  {
    hide Ok;
    NotQueued(s, id);
    if Queueing(r) {
      EnqueueKeepsOk(s, id, Fresh(s, id, r));
      return;
    }
    ArriveKeepsOk(s, id, Fresh(s, id, r));
  }

  /** The data of a request, and whether it is being serviced, are no concern of the queues. */
  predicate SameButData(r: Request, t: Request) {
    && r.command == t.command && r.current == t.current && r.queued == t.queued && r.done == t.done
    && r.replies == t.replies && r.quick == t.quick
  }

  lemma DataKeepsOk(s: Queues, id: nat, r: Request)
    requires Ok(s) && id in s.reqs && SameButData(s.reqs[id], r)
    ensures Ok(With(s, id, r))
  {
    var t := With(s, id, r);
    forall x {:trigger t.reqs[x]} | x in t.reqs && !InQueue(t, x)
      ensures Answered(t.reqs[x]) || Idle(t.reqs[x])
    {
      assert Answered(s.reqs[x]) || Idle(s.reqs[x]);
    }
  }
}
