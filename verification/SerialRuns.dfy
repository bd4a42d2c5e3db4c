/** The serial device as a machine whose steps are the sections between Disable and Restore and
    the interrupts. A run is any sequence of them: the sections of several calls interleave. */
module SerialRuns {
  import opened Lists
  import opened Machine
  import opened SerialQueue
  import H = SerialHistory

  const UART_BUFLEN := 10240
  const UART_FIFO_LEN := 16

  /** The rings as the bytes they hold. `accepted` are the bytes from the UART that CMD_CLEAR did
      not drop, `sent` those given to it. */
  datatype State = State(q: Queues, ring: seq<byte>, out: seq<byte>, idle: bool, stopped: bool, overruns: nat,
                         accepted: seq<byte>, sent: seq<byte>, taken: H.History, given: H.History)

  const START := State(Queues(map[], [], []), [], [], true, false, 0, [], [], H.NOTHING, H.NOTHING)

  // ---------------------------------------------------------------- sections

  /** ser_BeginIO up to the end of QueueCommandQueue. */
  function Begun(s: State, id: nat, r: Request): State {
    s.(q := Begin(s.q, id, r))
  }

  predicate CanTake(s: State, id: nat) {
    && id in s.q.reqs
    && var r := s.q.reqs[id];
    && r.command == CMD_READ && !r.servicing && s.ring != [] && r.length <= |s.ring|
  }

  /** The section of Read: all the bytes it asks for, or none. */
  function Taken(s: State, id: nat): State {
    if id !in s.q.reqs || s.q.reqs[id].command != CMD_READ || s.q.reqs[id].servicing then s
    else if !CanTake(s, id) then Unserved(s, id)
    else
      var r := s.q.reqs[id];
      var bytes := s.ring[..r.length];
      s.(q := With(s.q, id, r.(servicing := true, data := bytes + r.data[r.length..])),
         ring := s.ring[r.length..], taken := H.Took(s.taken, id, r.round, bytes))
  }

  /** A request that has to wait is no longer quick. */
  function Unserved(s: State, id: nat): State
    requires id in s.q.reqs
  {
    s.(q := With(s.q, id, s.q.reqs[id].(servicing := false, quick := false)))
  }

  predicate CanPut(s: State, id: nat) {
    && id in s.q.reqs
    && var r := s.q.reqs[id];
    && r.command == CMD_WRITE && !r.servicing && |s.out| != UART_BUFLEN
  }

  /** How many bytes the output side takes: one goes straight to an idle UART. */
  function Room(s: State): nat {
    (if |s.out| < UART_BUFLEN then UART_BUFLEN - |s.out| else 0) + if s.idle then 1 else 0
  }

  function Min(a: nat, b: nat): (m: nat)
    ensures m <= a && m <= b && (m == a || m == b)
  {
    if a <= b then a else b
  }

  /** Bytes for the output side, the first one for the UART itself when it is idle. */
  function Pushed(s: State, bytes: seq<byte>): State {
    if s.idle && bytes != [] then s.(idle := false, sent := s.sent + [bytes[0]], out := s.out + bytes[1..])
    else s.(out := s.out + bytes)
  }

  /** The section of Write: as many bytes as there is room for, or none. */
  function Put(s: State, id: nat): State {
    if id !in s.q.reqs || s.q.reqs[id].command != CMD_WRITE || s.q.reqs[id].servicing then s
    else if !CanPut(s, id) then Unserved(s, id)
    else
      var r := s.q.reqs[id];
      var bytes := r.data[..Min(r.length, Room(s))];
      Pushed(s, bytes).(q := With(s.q, id, r.(servicing := true)), given := H.Took(s.given, id, r.round, bytes))
  }

  /** The bytes that the open call moved for this request. */
  function Bytes(h: H.History, id: nat): seq<byte> {
    if id in h.open && h.open[id] < |h.log| then h.log[h.open[id]].bytes else []
  }

  /** The request with io_Actual, after EndCommandQueue. */
  function EndWith(q: Queues, id: nat, actual: nat): Queues
    requires id in q.reqs
  {
    End(With(q, id, q.reqs[id].(actual := actual)), NoError, id)
  }

  /** The rest of Read or Write, for a request that moved bytes. */
  function Served(s: State, id: nat): State {
    if id !in s.q.reqs then s
    else if id in s.taken.open then
      s.(q := EndWith(s.q, id, |Bytes(s.taken, id)|), taken := H.Closed(s.taken, id, !s.q.reqs[id].done))
    else if id in s.given.open then
      s.(q := EndWith(s.q, id, |Bytes(s.given, id)|), given := H.Closed(s.given, id, !s.q.reqs[id].done))
    else s
  }

  /** EndCommandQueue from anywhere else: AbortIO, Flush, and the end of the quick commands. */
  function EndedBy(s: State, id: nat, error: Error): State {
    if id in s.q.reqs then s.(q := End(s.q, error, id)) else s
  }

  /** The section of Clear drops what is in the input ring. */
  function Cleared(s: State): State {
    s.(ring := [], accepted := if |s.ring| <= |s.accepted| then s.accepted[..|s.accepted| - |s.ring|] else [])
  }

  // ---------------------------------------------------------------- interrupts

  /** Read without interruption. */
  function ReadWhole(s: State, id: nat): State {
    if CanTake(s, id) then Served(Taken(s, id), id) else Taken(s, id)
  }

  /** Write without interruption. */
  function WriteWhole(s: State, id: nat): State {
    if CanPut(s, id) then Served(Put(s, id), id) else Put(s, id)
  }

  /** process_messages, which runs within an interrupt. */
  function ReadAll(s: State, nodes: seq<nat>): State
    decreases |nodes|
  {
    if nodes == [] then s else ReadAll(ReadWhole(s, nodes[0]), nodes[1..])
  }

  function WriteAll(s: State, nodes: seq<nat>): State
    decreases |nodes|
  {
    if nodes == [] then s else WriteAll(WriteWhole(s, nodes[0]), nodes[1..])
  }

  function Space(s: State): nat {
    if |s.ring| < UART_BUFLEN then UART_BUFLEN - |s.ring| else 0
  }

  /** The bytes of the UART go to the ring while there is space, the rest is lost. */
  function Stored(s: State, bytes: seq<byte>): State {
    var n := Min(|bytes|, Space(s));
    s.(ring := s.ring + bytes[..n], accepted := s.accepted + bytes[..n], overruns := s.overruns + (|bytes| - n))
  }

  function Received(s: State, bytes: seq<byte>): State {
    ReadAll(Stored(s, bytes), s.q.input)
  }

  /** Bytes of the ring go to the UART, as many as its FIFO holds. */
  function Sent(s: State): State {
    var n := Min(UART_FIFO_LEN, |s.out|);
    s.(sent := s.sent + s.out[..n], out := s.out[n..])
  }

  function Transmitted(s: State): State {
    if s.out == [] then s.(idle := true) else WriteAll(Sent(s), s.q.output)
  }

  // ---------------------------------------------------------------- runs

  datatype Op =
    | BeginIO(id: nat, r: Request)
    | Take(id: nat)
    | Give(id: nat)
    | EndServed(id: nat)
    | EndCommand(id: nat, error: Error)
    | Clear
    | SetStopped(on: bool)
    | ReceiveInterrupt(bytes: seq<byte>)
    | TransmitInterrupt

  function Next(s: State, op: Op): State {
    match op
    case BeginIO(id, r) => Begun(s, id, r)
    case Take(id) => Taken(s, id)
    case Give(id) => Put(s, id)
    case EndServed(id) => Served(s, id)
    case EndCommand(id, error) => EndedBy(s, id, error)
    case Clear => Cleared(s)
    case SetStopped(on) => s.(stopped := on)
    case ReceiveInterrupt(bytes) => Received(s, bytes)
    case TransmitInterrupt => Transmitted(s)
  }

  function Run(s: State, ops: seq<Op>): State
    decreases |ops|
  {
    if ops == [] then s else Run(Next(s, ops[0]), ops[1..])
  }

  /** A request is begun when it is new or done, and no call that moved bytes for it is still to
      end it. EndCommandQueue reports success only where nothing was to be moved. */
  predicate Legal(s: State, op: Op) {
    && (op.BeginIO? ==> (op.id in s.q.reqs ==> s.q.reqs[op.id].done)
                        && op.id !in s.taken.open && op.id !in s.given.open)
    && (op.EndCommand? && op.error != Aborted && op.id in s.q.reqs ==> !Queueing(s.q.reqs[op.id]))
  }

  predicate AllLegal(s: State, ops: seq<Op>)
    decreases |ops|
  {
    ops == [] || (Legal(s, ops[0]) && AllLegal(Next(s, ops[0]), ops[1..]))
  }

  // ---------------------------------------------------------------- the invariant

  /** Both streams are first in, first out: the bytes that reads took, in the order in which they
      took them, and what is still in the ring are what came in, and so for the writes. The idle flag means that
      nothing is left to send. */
  ghost predicate StreamsOk(s: State) {
    && s.accepted == H.Joined(s.taken.log) + s.ring
    && H.Joined(s.given.log) == s.sent + s.out
    && (s.idle ==> s.out == [])
    && |s.ring| <= UART_BUFLEN && |s.out| <= UART_BUFLEN
  }

  /** A request with an open call was marked, and holds the bytes that the call moved. */
  predicate OpenOk(h: H.History, reqs: map<nat, Request>, id: nat, cmd: nat) {
    && id in reqs && H.PlaceOk(h, id)
    && var r, m := reqs[id], h.log[h.open[id]];
    && r.command == cmd && r.servicing && m.round == r.round && |m.bytes| <= r.length
    && (cmd == CMD_READ ==> |m.bytes| == r.length) && r.data[..|m.bytes|] == m.bytes
  }

  /** The request ended well as the k-th, with these bytes. */
  predicate Got(h: H.History, id: nat, r: Request, k: nat) {
    && k < |h.ends| && h.ends[k] < |h.log|
    && var m := h.log[h.ends[k]];
    && m.id == id && m.round == r.round && r.actual == |m.bytes| <= r.length && r.data[..r.actual] == m.bytes
    && (r.command == CMD_READ ==> r.actual == r.length)
  }

  /** Whoever reports success got what it reports. */
  ghost predicate Honest(h: H.History, id: nat, r: Request) {
    r.done && r.error == NoError ==> r.servicing && exists k :: Got(h, id, r, k)
  }

  /** A place in the history belongs to an earlier round, or to this one, and then the request is
      marked as being serviced. */
  predicate RoundOk(reqs: map<nat, Request>, m: H.Moved) {
    && m.id in reqs && m.round <= reqs[m.id].round
    && (m.round == reqs[m.id].round ==> reqs[m.id].servicing)
  }

  /** A marked request moved bytes in this round. */
  ghost predicate MarkOk(h: H.History, id: nat, r: Request) {
    r.servicing ==> H.Has(h.log, id, r.round)
  }

  ghost predicate HistoryOk(h: H.History, reqs: map<nat, Request>, cmd: nat) {
    && H.Ok(h) && H.Once(h.log)
    && (forall p {:trigger h.log[p]} :: 0 <= p < |h.log| ==> RoundOk(reqs, h.log[p]))
    && (forall id {:trigger MarkOk(h, id, reqs[id])} ::
          id in reqs && reqs[id].command == cmd ==> MarkOk(h, id, reqs[id]))
    && (forall id {:trigger OpenOk(h, reqs, id, cmd)} {:trigger h.open[id]} ::
          id in h.open ==> OpenOk(h, reqs, id, cmd))
    && (forall id {:trigger Honest(h, id, reqs[id])} ::
          id in reqs && reqs[id].command == cmd ==> Honest(h, id, reqs[id]))
  }

  /** A request that waits and is marked has an open call. */
  ghost predicate MarkedOk(s: State) {
    forall id {:trigger s.q.reqs[id]} :: id in s.q.reqs && !s.q.reqs[id].done && s.q.reqs[id].servicing ==>
      id in s.taken.open || id in s.given.open
  }

  ghost predicate Inv(s: State) {
    && Ok(s.q) && StreamsOk(s) && MarkedOk(s)
    && HistoryOk(s.taken, s.q.reqs, CMD_READ) && HistoryOk(s.given, s.q.reqs, CMD_WRITE)
  }

  // ---------------------------------------------------------------- changes to requests

  /** A request that changed, but not in what the histories say of it. */
  predicate Kept(r: Request, t: Request) {
    && t.command == r.command && t.length == r.length && t.data == r.data && t.servicing == r.servicing
    && t.round == r.round && (!t.done ==> !r.done)
    && (t.done && t.error == NoError && Queueing(t) ==> r.done && r.error == NoError && t.actual == r.actual)
  }

  /** The same for one kind of request; a request of the other kind may also have been marked. */
  predicate KeptFor(r: Request, t: Request, cmd: nat) {
    && t.command == r.command && t.round == r.round && (r.servicing ==> t.servicing)
    && (r.command == cmd ==> Kept(r, t))
  }

  ghost predicate AllKept(reqs: map<nat, Request>, t: map<nat, Request>, cmd: nat) {
    t.Keys == reqs.Keys && forall x {:trigger t[x]} :: x in reqs ==> KeptFor(reqs[x], t[x], cmd)
  }

  lemma KeptHistory(h: H.History, reqs: map<nat, Request>, t: map<nat, Request>, cmd: nat)
    requires HistoryOk(h, reqs, cmd) && AllKept(reqs, t, cmd) && (cmd == CMD_READ || cmd == CMD_WRITE)
    ensures HistoryOk(h, t, cmd)
  {
    forall p | 0 <= p < |h.log|
      ensures RoundOk(t, h.log[p])
    {
      assert RoundOk(reqs, h.log[p]) && KeptFor(reqs[h.log[p].id], t[h.log[p].id], cmd);
    }
    forall id | id in h.open
      ensures OpenOk(h, t, id, cmd)
    {
      assert OpenOk(h, reqs, id, cmd) && KeptFor(reqs[id], t[id], cmd);
    }
    forall id {:trigger Honest(h, id, t[id])} {:trigger MarkOk(h, id, t[id])} | id in t && t[id].command == cmd
      ensures Honest(h, id, t[id]) && MarkOk(h, id, t[id])
    {
      assert MarkOk(h, id, reqs[id]);
      assert KeptFor(reqs[id], t[id], cmd) && Honest(h, id, reqs[id]);
      if k :| Got(h, id, reqs[id], k) && t[id].done && t[id].error == NoError {
        assert Got(h, id, t[id], k);
      }
    }
  }

  /** A request that is begun anew has no open call. */
  lemma BegunHistory(h: H.History, reqs: map<nat, Request>, id: nat, r: Request, cmd: nat)
    requires HistoryOk(h, reqs, cmd) && id !in h.open && !r.done && !r.servicing
    requires id in reqs ==> r.round > reqs[id].round
    ensures HistoryOk(h, reqs[id := r], cmd)
  {
    var t := reqs[id := r];
    forall p | 0 <= p < |h.log|
      ensures RoundOk(t, h.log[p])
    {
      assert RoundOk(reqs, h.log[p]);
    }
    forall x | x in h.open
      ensures OpenOk(h, t, x, cmd)
    {
      assert OpenOk(h, reqs, x, cmd);
    }
    forall x {:trigger Honest(h, x, t[x])} {:trigger MarkOk(h, x, t[x])} | x in t && t[x].command == cmd
      ensures Honest(h, x, t[x]) && MarkOk(h, x, t[x])
    {
      assert x != id ==> Honest(h, x, reqs[x]) && MarkOk(h, x, reqs[x]);
    }
  }

  /** The request that is not marked moves bytes and is marked. */
  lemma TookHistory(h: H.History, reqs: map<nat, Request>, id: nat, r: Request, bytes: seq<byte>, cmd: nat)
    requires HistoryOk(h, reqs, cmd) && id in reqs && !reqs[id].servicing && reqs[id].command == cmd == r.command
    requires r.servicing && r.round == reqs[id].round && r.done == reqs[id].done && r.error == reqs[id].error
    requires |bytes| <= r.length && r.data[..|bytes|] == bytes && (cmd == CMD_READ ==> |bytes| == r.length)
    ensures HistoryOk(H.Took(h, id, r.round, bytes), reqs[id := r], cmd)
  {
    var t, h' := reqs[id := r], H.Took(h, id, r.round, bytes);
    assert id !in h.open by {
      assert id in h.open ==> OpenOk(h, reqs, id, cmd);
    }
    H.TookKeepsOk(h, id, r.round, bytes);
    TookOnce(h, reqs, id, r.round, bytes);
    forall p | 0 <= p < |h'.log|
      ensures RoundOk(t, h'.log[p])
    {
      if p < |h.log| {
        assert h'.log[p] == h.log[p] && RoundOk(reqs, h.log[p]);
      }
    }
    forall x | x in h'.open
      ensures OpenOk(h', t, x, cmd)
    {
      assert x != id ==> OpenOk(h, reqs, x, cmd);
    }
    TookHonest(h, reqs, id, r, bytes, cmd);
  }

  /** A request that is not marked has not moved bytes in this round. */
  lemma TookOnce(h: H.History, reqs: map<nat, Request>, id: nat, round: nat, bytes: seq<byte>)
    requires H.Once(h.log) && id in reqs && !reqs[id].servicing && round == reqs[id].round
    requires forall p {:trigger h.log[p]} :: 0 <= p < |h.log| ==> RoundOk(reqs, h.log[p])
    ensures H.Once(H.Took(h, id, round, bytes).log)
  {
    forall p | 0 <= p < |h.log|
      ensures h.log[p].id == id ==> h.log[p].round != round
    {
      assert RoundOk(reqs, h.log[p]);
    }
    H.TookOnceIff(h, id, round, bytes);
  }

  lemma TookHonest(h: H.History, reqs: map<nat, Request>, id: nat, r: Request, bytes: seq<byte>, cmd: nat)
    requires HistoryOk(h, reqs, cmd) && id in reqs && !reqs[id].servicing && reqs[id].command == cmd == r.command
    requires r.done == reqs[id].done && r.error == reqs[id].error
    ensures var t, h' := reqs[id := r], H.Took(h, id, r.round, bytes);
            && (forall x {:trigger Honest(h', x, t[x])} :: x in t && t[x].command == cmd ==> Honest(h', x, t[x]))
            && (forall x {:trigger MarkOk(h', x, t[x])} :: x in t && t[x].command == cmd ==> MarkOk(h', x, t[x]))
  {
    var t, h' := reqs[id := r], H.Took(h, id, r.round, bytes);
    assert h'.log[|h.log|] == H.Moved(id, r.round, bytes);
    forall x {:trigger Honest(h', x, t[x])} {:trigger MarkOk(h', x, t[x])} | x in t && t[x].command == cmd
      ensures Honest(h', x, t[x]) && MarkOk(h', x, t[x])
    {
      assert Honest(h, x, reqs[x]) && MarkOk(h, x, reqs[x]);
      if k :| x != id && Got(h, x, reqs[x], k) {
        assert Got(h', x, t[x], k);
      }
      if p :| x != id && 0 <= p < |h.log| && h.log[p].id == x && h.log[p].round == reqs[x].round {
        assert h'.log[p] == h.log[p];
      }
    }
  }

  /** Two calls for one request in one round cannot be: what is open has not ended well. */
  lemma OpenIsNotOver(h: H.History, reqs: map<nat, Request>, id: nat, cmd: nat)
    requires HistoryOk(h, reqs, cmd) && id in h.open
    ensures id in reqs && !(reqs[id].done && reqs[id].error == NoError)
  {
    assert OpenOk(h, reqs, id, cmd) && Honest(h, id, reqs[id]);
  }

  /** The request as its call leaves it: ended well, or as it was when it had been ended before. */
  predicate ClosedAs(h: H.History, r: Request, id: nat, t: Request, well: bool) {
    && t.command == r.command && t.length == r.length && t.data == r.data && t.servicing == r.servicing
    && t.round == r.round && t.actual == |Bytes(h, id)| && t.done && well == !r.done
    && t.error == if well then NoError else r.error
  }

  lemma ClosedHistory(h: H.History, reqs: map<nat, Request>, id: nat, t: map<nat, Request>, well: bool, cmd: nat)
    requires HistoryOk(h, reqs, cmd) && id in h.open && t.Keys == reqs.Keys && (cmd == CMD_READ || cmd == CMD_WRITE)
    requires id in reqs && ClosedAs(h, reqs[id], id, t[id], well)
    requires forall x {:trigger t[x]} :: x in reqs && x != id ==> KeptFor(reqs[x], t[x], cmd)
    ensures HistoryOk(H.Closed(h, id, well), t, cmd)
  {
    var h' := H.Closed(h, id, well);
    H.ClosedKeepsOk(h, id, well);
    OpenIsNotOver(h, reqs, id, cmd);
    assert OpenOk(h, reqs, id, cmd);
    forall p | 0 <= p < |h.log|
      ensures RoundOk(t, h.log[p])
    {
      assert RoundOk(reqs, h.log[p]);
      assert h.log[p].id != id ==> KeptFor(reqs[h.log[p].id], t[h.log[p].id], cmd);
    }
    forall x | x in h'.open
      ensures OpenOk(h', t, x, cmd)
    {
      assert OpenOk(h, reqs, x, cmd) && KeptFor(reqs[x], t[x], cmd);
    }
    forall x {:trigger Honest(h', x, t[x])} {:trigger MarkOk(h', x, t[x])} | x in t && t[x].command == cmd
      ensures Honest(h', x, t[x]) && MarkOk(h', x, t[x])
    {
      assert MarkOk(h, x, reqs[x]);
      assert x != id ==> KeptFor(reqs[x], t[x], cmd);
      ClosedHonest(h, reqs, id, t, well, cmd, x);
    }
  }

  lemma ClosedHonest(h: H.History, reqs: map<nat, Request>, id: nat, t: map<nat, Request>, well: bool, cmd: nat, x: nat)
    requires id in h.open && t.Keys == reqs.Keys && (cmd == CMD_READ || cmd == CMD_WRITE)
    requires id in reqs && ClosedAs(h, reqs[id], id, t[id], well) && OpenOk(h, reqs, id, cmd)
    requires !(reqs[id].done && reqs[id].error == NoError)
    requires x in t && t[x].command == cmd && (x != id ==> KeptFor(reqs[x], t[x], cmd) && Honest(h, x, reqs[x]))
    ensures Honest(H.Closed(h, id, well), x, t[x])
  {
    var h' := H.Closed(h, id, well);
    if x == id {
      if well {
        assert Got(h', id, t[id], |h.ends|);
      }
      return;
    }
    if k :| Got(h, x, reqs[x], k) && t[x].done && t[x].error == NoError {
      assert Got(h', x, t[x], k);
    }
  }

  // ---------------------------------------------------------------- steps

  lemma BegunKeepsInv(s: State, id: nat, r: Request)
    requires Inv(s) && Legal(s, BeginIO(id, r))
    ensures Inv(Begun(s, id, r))
  {
    hide Ok;
    var t := Begun(s, id, r);
    BeginKeepsOk(s.q, id, r);
    assert t.q.reqs == s.q.reqs[id := t.q.reqs[id]];
    BegunHistory(s.taken, s.q.reqs, id, t.q.reqs[id], CMD_READ);
    BegunHistory(s.given, s.q.reqs, id, t.q.reqs[id], CMD_WRITE);
  }

  lemma UnservedKeepsInv(s: State, id: nat)
    requires Inv(s) && id in s.q.reqs && !s.q.reqs[id].servicing && Queueing(s.q.reqs[id])
    ensures Inv(Unserved(s, id))
  {
    hide Ok, HistoryOk, StreamsOk;
    var r := s.q.reqs[id].(servicing := false, quick := false);
    RepliesAre(s.q, id);
    assert r == s.q.reqs[id] && s.q.reqs[id := r] == s.q.reqs && Unserved(s, id) == s;
  }

  lemma TakenKeepsInv(s: State, id: nat)
    requires Inv(s)
    ensures Inv(Taken(s, id))
  {
    hide Ok, HistoryOk, StreamsOk, MarkedOk;
    if CanTake(s, id) {
      TookKeepsInv(s, id);
      return;
    }
    if id in s.q.reqs && !s.q.reqs[id].servicing && s.q.reqs[id].command == CMD_READ {
      UnservedKeepsInv(s, id);
    }
  }

  lemma TookKeepsInv(s: State, id: nat)
    requires Inv(s) && CanTake(s, id)
    ensures Inv(Taken(s, id))
  {
    hide Ok, HistoryOk;
    var t, r := Taken(s, id), s.q.reqs[id];
    var bytes := s.ring[..r.length];
    DataKeepsOk(s.q, id, t.q.reqs[id]);
    assert t.q.reqs[id].data[..r.length] == bytes;
    TookHistory(s.taken, s.q.reqs, id, t.q.reqs[id], bytes, CMD_READ);
    KeptHistory(s.given, s.q.reqs, t.q.reqs, CMD_WRITE);
    H.JoinedMore(s.taken.log, H.Moved(id, r.round, bytes));
    assert s.ring == bytes + s.ring[r.length..];
  }

  lemma PutKeepsInv(s: State, id: nat)
    requires Inv(s)
    ensures Inv(Put(s, id))
  {
    hide Ok, HistoryOk, StreamsOk, MarkedOk;
    if CanPut(s, id) {
      GaveKeepsInv(s, id);
      return;
    }
    if id in s.q.reqs && !s.q.reqs[id].servicing && s.q.reqs[id].command == CMD_WRITE {
      UnservedKeepsInv(s, id);
    }
  }

  lemma PushedStreams(s: State, bytes: seq<byte>)
    requires StreamsOk(s) && |bytes| <= Room(s)
    ensures Pushed(s, bytes).sent + Pushed(s, bytes).out == s.sent + s.out + bytes
    ensures |Pushed(s, bytes).out| <= UART_BUFLEN && (Pushed(s, bytes).idle ==> Pushed(s, bytes).out == [])
  {
    if s.idle && bytes != [] {
      assert bytes == [bytes[0]] + bytes[1..];
    }
  }

  lemma GaveKeepsInv(s: State, id: nat)
    requires Inv(s) && CanPut(s, id)
    ensures Inv(Put(s, id))
  {
    hide Ok, HistoryOk;
    var t, r := Put(s, id), s.q.reqs[id];
    var bytes := r.data[..Min(r.length, Room(s))];
    DataKeepsOk(s.q, id, t.q.reqs[id]);
    TookHistory(s.given, s.q.reqs, id, t.q.reqs[id], bytes, CMD_WRITE);
    KeptHistory(s.taken, s.q.reqs, t.q.reqs, CMD_READ);
    H.JoinedMore(s.given.log, H.Moved(id, r.round, bytes));
    PushedStreams(s, bytes);
  }

  /** No request was marked, and what was done still is. */
  ghost predicate SameMarks(reqs: map<nat, Request>, t: map<nat, Request>) {
    && t.Keys == reqs.Keys
    && forall x {:trigger t[x]} :: x in reqs ==> t[x].servicing == reqs[x].servicing && (reqs[x].done ==> t[x].done)
  }

  lemma EndedKept(q: Queues, id: nat, error: Error, t: Queues)
    requires id in q.reqs && Ended(q, error, id, t) && !q.reqs[id].done
    requires error != NoError || !Queueing(q.reqs[id])
    ensures AllKept(q.reqs, t.reqs, CMD_READ) && AllKept(q.reqs, t.reqs, CMD_WRITE) && SameMarks(q.reqs, t.reqs)
  {
    forall x | x in q.reqs
      ensures KeptFor(q.reqs[x], t.reqs[x], CMD_READ) && KeptFor(q.reqs[x], t.reqs[x], CMD_WRITE)
      ensures t.reqs[x].servicing == q.reqs[x].servicing && (q.reqs[x].done ==> t.reqs[x].done)
    {
      assert x != id ==> SameOrCurrent(q, x, t.reqs[x]);
    }
  }

  lemma EndedByKeepsInv(s: State, id: nat, error: Error)
    requires Inv(s) && Legal(s, EndCommand(id, error))
    ensures Inv(EndedBy(s, id, error))
  {
    hide Ok, HistoryOk, End, Ended;
    if id !in s.q.reqs || s.q.reqs[id].done {
      EndOfDone(s, id, error);
      return;
    }
    var t := EndedBy(s, id, error);
    EndKeepsOk(s.q, error, id);
    EndedKept(s.q, id, error, t.q);
    KeptHistory(s.taken, s.q.reqs, t.q.reqs, CMD_READ);
    KeptHistory(s.given, s.q.reqs, t.q.reqs, CMD_WRITE);
  }

  lemma EndOfDone(s: State, id: nat, error: Error)
    requires id in s.q.reqs ==> s.q.reqs[id].done
    ensures EndedBy(s, id, error) == s
  {
  }

  lemma ClearedKeepsInv(s: State)
    requires Inv(s)
    ensures Inv(Cleared(s)) && Cleared(s).accepted == H.Joined(s.taken.log)
  {
    hide Ok, HistoryOk;
    assert s.accepted[..|s.accepted| - |s.ring|] == H.Joined(s.taken.log);
  }

  /** What EndCommandQueue for an open request changes. */
  ghost predicate EndedWith(q: Queues, id: nat, actual: nat, t: Queues) {
    && id in q.reqs && t.reqs.Keys == q.reqs.Keys && id in t.reqs
    && t.reqs[id] == (var r := q.reqs[id].(actual := actual); if r.done then r else Finished(r, NoError))
    && t.input == Removed(q.input, id) && t.output == Removed(q.output, id)
    && forall x {:trigger t.reqs[x]} :: x in q.reqs && x != id ==> SameOrCurrent(q, x, t.reqs[x])
  }

  lemma EndWithIs(q: Queues, id: nat, actual: nat)
    requires Ok(q) && id in q.reqs
    ensures Ok(EndWith(q, id, actual)) && EndedWith(q, id, actual, EndWith(q, id, actual))
  {
    hide Ok, End, Finished;
    var r := q.reqs[id].(actual := actual);
    DataKeepsOk(q, id, r);
    EndKeepsOk(With(q, id, r), NoError, id);
    if r.done {
      EndOfDoneQueue(With(q, id, r), id);
      return;
    }
    var t := EndWith(q, id, actual);
    forall x {:trigger t.reqs[x]} | x in q.reqs && x != id
      ensures SameOrCurrent(q, x, t.reqs[x])
    {
      assert SameOrCurrent(With(q, id, r), x, t.reqs[x]);
    }
  }

  lemma EndOfDoneQueue(q: Queues, id: nat)
    requires id in q.reqs && q.reqs[id].done
    ensures End(q, NoError, id) == q
  {
  }

  /** For the histories the request is closed, and the others are as before. */
  lemma EndedWithKept(q: Queues, id: nat, actual: nat, t: Queues, h: H.History, cmd: nat)
    requires EndedWith(q, id, actual, t) && actual == |Bytes(h, id)|
    ensures id in t.reqs && t.reqs[id].done && t.reqs.Keys == q.reqs.Keys
    ensures ClosedAs(h, q.reqs[id], id, t.reqs[id], !q.reqs[id].done) && SameMarks(q.reqs, t.reqs)
    ensures forall x {:trigger t.reqs[x]} :: x in q.reqs && x != id ==> KeptFor(q.reqs[x], t.reqs[x], cmd)
    ensures q.reqs[id].command != cmd ==> AllKept(q.reqs, t.reqs, cmd)
  {
    forall x {:trigger t.reqs[x]} | x in q.reqs && x != id
      ensures KeptFor(q.reqs[x], t.reqs[x], cmd) && t.reqs[x].servicing == q.reqs[x].servicing
      ensures q.reqs[x].done ==> t.reqs[x].done
    {
      assert SameOrCurrent(q, x, t.reqs[x]);
    }
  }

  /** Closing the call of a request that is now done leaves no mark without a call. */
  lemma ClosedMarks(s: State, t: State, id: nat)
    requires MarkedOk(s) && SameMarks(s.q.reqs, t.q.reqs) && id in t.q.reqs && t.q.reqs[id].done
    requires t.taken.open == s.taken.open - {id} || t.taken.open == s.taken.open
    requires t.given.open == s.given.open - {id} || t.given.open == s.given.open
    ensures MarkedOk(t)
  {
  }

  lemma ServedKeepsInv(s: State, id: nat)
    requires Inv(s)
    ensures Inv(Served(s, id))
  {
    hide Ok, HistoryOk, StreamsOk, MarkedOk, EndWith;
    if id !in s.q.reqs {
      return;
    }
    if id in s.taken.open {
      ReadServedKeepsInv(s, id);
    } else if id in s.given.open {
      WriteServedKeepsInv(s, id);
    }
  }

  lemma ServedStreams(s: State, id: nat)
    requires StreamsOk(s)
    ensures StreamsOk(Served(s, id))
  {
    hide EndWith;
  }

  lemma ReadServedKeepsInv(s: State, id: nat)
    requires Inv(s) && id in s.q.reqs && id in s.taken.open
    ensures Inv(Served(s, id))
  {
    var t, n := Served(s, id), |Bytes(s.taken, id)|;
    assert OpenOk(s.taken, s.q.reqs, id, CMD_READ);
    assert s.q.reqs[id].command == CMD_READ;
    hide Ok, EndWith, EndedWith, HistoryOk, MarkedOk, StreamsOk, Bytes, ClosedAs, OpenOk, KeptFor, AllKept, SameMarks;
    ServedStreams(s, id);
    EndWithIs(s.q, id, n);
    EndedWithKept(s.q, id, n, t.q, s.taken, CMD_READ);
    EndedWithKept(s.q, id, n, t.q, s.taken, CMD_WRITE);
    ClosedHistory(s.taken, s.q.reqs, id, t.q.reqs, !s.q.reqs[id].done, CMD_READ);
    KeptHistory(s.given, s.q.reqs, t.q.reqs, CMD_WRITE);
    ClosedMarks(s, t, id);
  }

  lemma WriteServedKeepsInv(s: State, id: nat)
    requires Inv(s) && id in s.q.reqs && id in s.given.open && id !in s.taken.open
    ensures Inv(Served(s, id))
  {
    var t, n := Served(s, id), |Bytes(s.given, id)|;
    assert OpenOk(s.given, s.q.reqs, id, CMD_WRITE);
    assert s.q.reqs[id].command == CMD_WRITE;
    hide Ok, EndWith, EndedWith, HistoryOk, MarkedOk, StreamsOk, Bytes, ClosedAs, OpenOk, KeptFor, AllKept, SameMarks;
    ServedStreams(s, id);
    EndWithIs(s.q, id, n);
    EndedWithKept(s.q, id, n, t.q, s.given, CMD_WRITE);
    EndedWithKept(s.q, id, n, t.q, s.given, CMD_READ);
    ClosedHistory(s.given, s.q.reqs, id, t.q.reqs, !s.q.reqs[id].done, CMD_WRITE);
    KeptHistory(s.taken, s.q.reqs, t.q.reqs, CMD_READ);
    ClosedMarks(s, t, id);
  }

  /** The call takes the request out of its queue, and its end is a success unless it was ended before. */
  lemma ServedEnds(s: State, id: nat)
    requires Inv(s) && id in s.q.reqs && (id in s.taken.open || id in s.given.open)
    ensures var t := Served(s, id);
            && Inv(t) && id in t.q.reqs && t.q.reqs[id].done && (!s.q.reqs[id].done ==> t.q.reqs[id].error == NoError)
            && t.q.input == Removed(s.q.input, id) && t.q.output == Removed(s.q.output, id)
  {
    hide Ok, HistoryOk, MarkedOk, StreamsOk, EndWith;
    ServedKeepsInv(s, id);
    EndWithIs(s.q, id, |Bytes(if id in s.taken.open then s.taken else s.given, id)|);
  }

  lemma StoredKeepsInv(s: State, bytes: seq<byte>)
    requires Inv(s)
    ensures Inv(Stored(s, bytes))
  {
    hide Ok, HistoryOk;
  }

  lemma SentKeepsInv(s: State)
    requires Inv(s)
    ensures Inv(Sent(s))
  {
    hide Ok, HistoryOk;
    assert s.out == s.out[..Min(UART_FIFO_LEN, |s.out|)] + s.out[Min(UART_FIFO_LEN, |s.out|)..];
  }

  lemma {:induction false} ReadAllKeepsInv(s: State, nodes: seq<nat>)
    requires Inv(s)
    ensures Inv(ReadAll(s, nodes))
    decreases |nodes|
  {
    hide Inv, Taken, Served, CanTake;
    if nodes != [] {
      TakenKeepsInv(s, nodes[0]);
      ServedKeepsInv(Taken(s, nodes[0]), nodes[0]);
      ReadAllKeepsInv(ReadWhole(s, nodes[0]), nodes[1..]);
    }
  }

  lemma {:induction false} WriteAllKeepsInv(s: State, nodes: seq<nat>)
    requires Inv(s)
    ensures Inv(WriteAll(s, nodes))
    decreases |nodes|
  {
    hide Inv, Put, Served, CanPut;
    if nodes != [] {
      PutKeepsInv(s, nodes[0]);
      ServedKeepsInv(Put(s, nodes[0]), nodes[0]);
      WriteAllKeepsInv(WriteWhole(s, nodes[0]), nodes[1..]);
    }
  }

  lemma TransmittedKeepsInv(s: State)
    requires Inv(s)
    ensures Inv(Transmitted(s))
  {
    hide Ok, HistoryOk, WriteAll, Sent;
    if s.out != [] {
      SentKeepsInv(s);
      WriteAllKeepsInv(Sent(s), s.q.output);
    }
  }

  /** Every section and every interrupt keeps the invariant, wherever the other calls are. */
  lemma NextKeepsInv(s: State, op: Op)
    requires Inv(s) && Legal(s, op)
    ensures Inv(Next(s, op))
  {
    hide Ok, HistoryOk, Begun, Taken, Put, Served, EndedBy, Cleared, Transmitted, ReadAll, Stored;
    match op
    case BeginIO(id, r) => BegunKeepsInv(s, id, r);
    case Take(id) => TakenKeepsInv(s, id);
    case Give(id) => PutKeepsInv(s, id);
    case EndServed(id) => ServedKeepsInv(s, id);
    case EndCommand(id, error) => EndedByKeepsInv(s, id, error);
    case Clear => ClearedKeepsInv(s);
    case SetStopped(on) =>
    case ReceiveInterrupt(bytes) =>
      StoredKeepsInv(s, bytes);
      ReadAllKeepsInv(Stored(s, bytes), s.q.input);
    case TransmitInterrupt => TransmittedKeepsInv(s);
  }

  lemma StartOk()
    ensures Inv(START)
  {
  }

  /** And so does every run. */
  lemma {:induction false} RunKeepsInv(s: State, ops: seq<Op>)
    requires Inv(s) && AllLegal(s, ops)
    ensures Inv(Run(s, ops))
    decreases |ops|
  {
    hide Inv, Next;
    if ops != [] {
      NextKeepsInv(s, ops[0]);
      RunKeepsInv(Next(s, ops[0]), ops[1..]);
    }
  }
}
