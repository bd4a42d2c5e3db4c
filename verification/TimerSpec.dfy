/** The delay and alarm requests of the timer device: what a tick, a new request and an abort
    do to them, and what follows for whole runs. */
module TimerSpec {
  import opened Lists
  import opened Machine

  const HALF := 0x8000_0000

  const UNIT_MICROHZ := 0
  const UNIT_VBLANK := 1
  const UNIT_ECLOCK := 2
  const UNIT_WAITUNTIL := 3
  const UNIT_WAITECLOCK := 4
  const UNIT_MAX := 5

  /** 1000000 / TICK, in microseconds. */
  const VBLANK_MICRO := 7812

  // ---------------------------------------------------------------- times

  /** struct TimeVal */
  datatype TimeVal = TimeVal(secs: nat, micro: nat)
  {
    /** The whole time in microseconds. */
    function Us(): nat {
      1_000_000 * secs + micro
    }

    predicate Normal() {
      micro < 1_000_000 && secs < WORD
    }
  }

  const ZERO := TimeVal(0, 0)

  function Normalised(us: nat): TimeVal {
    TimeVal(us / 1_000_000, us % 1_000_000)
  }

  /** There is one normal form of a time. */
  lemma NormalIsUnique(t: TimeVal)
    requires t.Normal()
    ensures t == Normalised(t.Us())
  {
  }

  /** FastAddTime of a tick: one carry at most. */
  function FastAdd(d: TimeVal, micro: nat): TimeVal {
    if d.micro + micro > 999_999
      then TimeVal((d.secs + 1) % WORD, d.micro + micro - 1_000_000) else TimeVal(d.secs, d.micro + micro)
  }

  /** The test of the tick handler. */
  predicate Expired(t: TimeVal, now: TimeVal) {
    t.secs < now.secs || (t.secs <= now.secs && t.micro < now.micro)
  }

  /** On normal times it means earlier. */
  lemma ExpiredIsEarlier(t: TimeVal, now: TimeVal)
    requires t.Normal() && now.Normal()
    ensures Expired(t, now) <==> t.Us() < now.Us()
  {
  }

  /** A difference of two 32-bit numbers as the source stores it in an INT32. */
  function Wrapped(diff: int): int {
    if diff < -HALF then diff + WORD else if diff >= HALF then diff - WORD else diff
  }

  /** timer_CmpTime */
  function CmpTime(src: TimeVal, dest: TimeVal): (r: int)
    ensures r == -1 || r == 0 || r == 1
  {
    var diff := Wrapped(if dest.secs == src.secs then src.micro - dest.micro else src.secs - dest.secs);
    if diff < 0 then -1 else if diff > 0 then 1 else 0
  }

  /** The comparison is right exactly when the seconds are less than 2^31 apart, with 2^31
      itself allowed downwards. */
  lemma CmpTimeRight(src: TimeVal, dest: TimeVal)
    requires src.Normal() && dest.Normal()
    ensures -HALF <= src.secs - dest.secs < HALF <==>
            (CmpTime(src, dest) < 0 <==> src.Us() < dest.Us()) && (CmpTime(src, dest) > 0 <==> src.Us() > dest.Us())
  {
  }

  // ---------------------------------------------------------------- requests

  datatype Error = NoError | Aborted

  /** struct TimeRequest: `replied` is the node type NT_REPLYMSG, `replies` counts ReplyMsg. */
  datatype TimeRequest = TimeRequest(unit: nat, time: TimeVal, quick: bool, replied: bool, replies: nat, error: Error)

  datatype Timer = Timer(current: TimeVal, elapsed: TimeVal, queues: seq<seq<nat>>, reqs: map<nat, TimeRequest>)
  {
    predicate Waiting(id: nat)
    {
      id in reqs && reqs[id].unit < |queues| && id in queues[reqs[id].unit]
    }

    /** The clock that a unit goes by. */
    function Clock(unit: nat): TimeVal {
      if unit == UNIT_VBLANK || unit == UNIT_ECLOCK then elapsed else current
    }
  }

  predicate IsDelay(unit: nat) {
    unit == UNIT_VBLANK || unit == UNIT_ECLOCK
  }

  predicate IsAlarm(unit: nat) {
    unit == UNIT_WAITUNTIL || unit == UNIT_WAITECLOCK
  }

  /** A request in the queue of its unit: its answer is to come, and its time is not over. */
  predicate RequestOk(s: Timer, unit: nat, id: nat) {
    && id in s.reqs && s.reqs[id].unit == unit && (IsDelay(unit) || IsAlarm(unit))
    && !s.reqs[id].replied && s.reqs[id].replies == 0 && !s.reqs[id].quick
    && s.reqs[id].time.Normal() && s.reqs[id].time.Us() >= s.Clock(unit).Us()
  }

  /** A request that does not wait got one reply, or none when it is quick. */
  predicate Over(r: TimeRequest) {
    (r.replied || r.quick) && r.replies == if r.quick then 0 else 1
  }

  ghost predicate Ok(s: Timer) {
    && s.current.Normal() && s.elapsed.Normal() && |s.queues| == UNIT_MAX
    && (forall unit :: 0 <= unit < UNIT_MAX ==> NoRepeats(s.queues[unit]))
    && (forall unit, id {:trigger RequestOk(s, unit, id)} :: 0 <= unit < UNIT_MAX && id in s.queues[unit] ==>
          RequestOk(s, unit, id))
    && (forall id {:trigger s.Waiting(id)} :: id in s.reqs && !s.Waiting(id) ==> Over(s.reqs[id]))
  }

  /** The request is answered: its time is cleared and ReplyMsg called. */
  function Answered(r: TimeRequest): TimeRequest {
    r.(time := ZERO, error := NoError, replied := true, replies := r.replies + 1)
  }

  /** A request that the tick takes out of its queue. */
  predicate Due(s: Timer, id: nat) {
    s.Waiting(id) && s.reqs[id].unit != UNIT_MICROHZ && Expired(s.reqs[id].time, s.Clock(s.reqs[id].unit))
  }

  function Kept(s: Timer, q: seq<nat>): (r: seq<nat>)
    ensures forall id :: id in r <==> id in q && !Due(s, id)
  {
    if q == [] then [] else if Due(s, q[0]) then Kept(s, q[1..]) else [q[0]] + Kept(s, q[1..])
  }

  lemma {:induction false} KeptNoRepeats(s: Timer, q: seq<nat>)
    requires NoRepeats(q)
    ensures NoRepeats(Kept(s, q))
  {
    if q != [] {
      KeptNoRepeats(s, q[1..]);
      assert q[0] !in q[1..];
    }
  }

  lemma {:induction false} KeptAppend(s: Timer, q: seq<nat>, id: nat)
    ensures Kept(s, q + [id]) == Kept(s, q) + if Due(s, id) then [] else [id]
  {
    if q != [] {
      KeptAppend(s, q[1..], id);
      assert (q + [id])[1..] == q[1..] + [id];
    } else {
      assert q + [id] == [id];
    }
  }

  lemma {:induction false} KeptAll(s: Timer, q: seq<nat>)
    requires forall id :: id in q ==> !Due(s, id)
    ensures Kept(s, q) == q
  {
    if q != [] {
      KeptAll(s, q[1..]);
    }
  }

  /** The requests when the loop of the tick has done the units below `unit`. */
  function AnsweredBelow(s: Timer, unit: nat): map<nat, TimeRequest> {
    map id | id in s.reqs :: if Due(s, id) && s.reqs[id].unit < unit then Answered(s.reqs[id]) else s.reqs[id]
  }

  /** The clocks after a tick. */
  function Advanced(s: Timer): Timer {
    s.(current := FastAdd(s.current, VBLANK_MICRO), elapsed := FastAdd(s.elapsed, VBLANK_MICRO))
  }

  /** TimerVBLIRQServer: every request that is due is answered, in all units but one. */
  function Tick(s: Timer): Timer {
    var t := Advanced(s);
    t.(queues := seq(|s.queues|, unit requires 0 <= unit < |s.queues| => Kept(t, s.queues[unit])),
       reqs := map id | id in s.reqs :: if Due(t, id) then Answered(s.reqs[id]) else s.reqs[id])
  }

  lemma TickIs(s: Timer, queues: seq<seq<nat>>, reqs: map<nat, TimeRequest>)
    requires Ok(s) && |queues| == UNIT_MAX && reqs == AnsweredBelow(Advanced(s), UNIT_MAX)
    requires forall u :: 0 <= u < UNIT_MAX ==> queues[u] == Kept(Advanced(s), s.queues[u])
    ensures Tick(s) == Advanced(s).(queues := queues, reqs := reqs)
  {
    hide FastAdd, Kept;
    assert queues == Tick(s).queues;
  }

  /** AddDelay: the time of the request becomes a point on the Elapsed clock. */
  function AddDelay(s: Timer, id: nat, unit: nat, delay: TimeVal): Timer
    requires unit < |s.queues|
  {
    var r := TimeRequest(unit, Normalised(s.elapsed.Us() + delay.Us()), false, false, 0, NoError);
    s.(reqs := s.reqs[id := r], queues := s.queues[unit := s.queues[unit] + [id]])
  }

  /** AddAlarm: a time that is over is answered at once. */
  function AddAlarm(s: Timer, id: nat, unit: nat, time: TimeVal, quick: bool): Timer
    requires unit < |s.queues|
  {
    if CmpTime(s.current, time) >= 0 then
      s.(reqs := s.reqs[id := TimeRequest(unit, ZERO, quick, !quick, if quick then 0 else 1, NoError)])
    else
      s.(reqs := s.reqs[id := TimeRequest(unit, time, false, false, 0, NoError)],
         queues := s.queues[unit := s.queues[unit] + [id]])
  }

  /** The queue and the requests when the loop has done the first `i` nodes of a queue. */
  function QueueAfter(s: Timer, nodes: seq<nat>, i: nat): seq<nat>
    requires i <= |nodes|
  {
    if i == 0 then nodes
    else if Due(s, nodes[i - 1]) then Removed(QueueAfter(s, nodes, i - 1), nodes[i - 1])
    else QueueAfter(s, nodes, i - 1)
  }

  function RequestsAfter(s: Timer, before: map<nat, TimeRequest>, nodes: seq<nat>, i: nat): map<nat, TimeRequest>
    requires i <= |nodes|
  {
    if i == 0 then before
    else
      var r := RequestsAfter(s, before, nodes, i - 1);
      if Due(s, nodes[i - 1]) then r[nodes[i - 1] := Answered(s.reqs[nodes[i - 1]])] else r
  }

  /** The loop leaves the queue without the requests that are due. */
  lemma KeptRemoved(kept: seq<nat>, id: nat, rest: seq<nat>)
    requires id !in kept && id !in rest
    ensures Removed(kept + ([id] + rest), id) == kept + [] + rest && kept + ([id] + rest) == kept + [id] + rest
  {
    RemovedBetween(kept, id, rest);
    assert kept + ([id] + rest) == kept + [id] + rest && kept + [] == kept;
  }

  lemma NodeOnce(nodes: seq<nat>, i: nat)
    requires NoRepeats(nodes) && i < |nodes|
    ensures nodes[i] !in nodes[..i] && nodes[i] !in nodes[i + 1..]
  {
  }

  lemma QueueStep(s: Timer, nodes: seq<nat>, i: nat, kept: seq<nat>)
    requires 0 < i <= |nodes| && QueueAfter(s, nodes, i - 1) == kept + nodes[i - 1..]
    requires nodes[i - 1] !in kept && nodes[i - 1] !in nodes[i..]
    ensures QueueAfter(s, nodes, i) == kept + (if Due(s, nodes[i - 1]) then [] else [nodes[i - 1]]) + nodes[i..]
  {
    hide Due, Removed;
    assert nodes[i - 1..] == [nodes[i - 1]] + nodes[i..];
    KeptRemoved(kept, nodes[i - 1], nodes[i..]);
  }

  lemma {:induction false} QueueIsKept(s: Timer, nodes: seq<nat>, i: nat)
    requires NoRepeats(nodes) && i <= |nodes|
    ensures QueueAfter(s, nodes, i) == Kept(s, nodes[..i]) + nodes[i..]
  {
    assert Kept(s, []) == [];
    hide Kept, Due, NoRepeats, Removed;
    if i == 0 {
      assert nodes[..0] == [] && nodes[0..] == nodes;
    } else {
      hide QueueAfter;
      QueueIsKept(s, nodes, i - 1);
      assert nodes[..i] == nodes[..i - 1] + [nodes[i - 1]];
      KeptAppend(s, nodes[..i - 1], nodes[i - 1]);
      NodeOnce(nodes, i - 1);
      QueueStep(s, nodes, i, Kept(s, nodes[..i - 1]));
    }
  }

  /** And it answers exactly those. */
  lemma {:induction false} RequestsAreAnswered(s: Timer, before: map<nat, TimeRequest>, nodes: seq<nat>, i: nat,
                                               id: nat)
    requires i <= |nodes| && before.Keys == s.reqs.Keys && id in s.reqs
    ensures RequestsAfter(s, before, nodes, i).Keys == s.reqs.Keys
    ensures RequestsAfter(s, before, nodes, i)[id] == if id in nodes[..i]
              && Due(s, id) then Answered(s.reqs[id]) else before[id]
  {
    if i > 0 {
      RequestsAreAnswered(s, before, nodes, i - 1, id);
      assert nodes[..i] == nodes[..i - 1] + [nodes[i - 1]];
    }
  }

  /** timer_AbortIO of a request that waits; one that was answered stays as it is. */
  function Abort(s: Timer, id: nat): Timer
    requires id in s.reqs && s.reqs[id].unit < |s.queues|
  {
    var r := s.reqs[id];
    if r.replied then s
    else
      s.(reqs := s.reqs[id := r.(error := Aborted, replied := !r.quick,
                                 replies := if r.quick then r.replies else r.replies + 1)],
         queues := s.queues[r.unit := Removed(s.queues[r.unit], id)])
  }

  // ---------------------------------------------------------------- steps

  datatype Op =
    | TickOp
    | DelayOp(id: nat, unit: nat, delay: TimeVal)
    | AlarmOp(id: nat, unit: nat, time: TimeVal, quick: bool)
    | AbortOp(id: nat)

  /** The range in which nothing overflows, and what a caller may ask for: a request is begun
      while it does not wait, and aborted while it waits or after it was answered. */
  predicate Allowed(s: Timer, op: Op) {
    && |s.queues| == UNIT_MAX
    && match op
       case TickOp => s.current.secs + 1 < WORD && s.elapsed.secs + 1 < WORD
       case DelayOp(id, unit, delay) =>
         !s.Waiting(id) && IsDelay(unit) && s.elapsed.micro + delay.micro < WORD
           && (s.elapsed.Us() + delay.Us()) / 1_000_000 < WORD
       case AlarmOp(id, unit, time, quick) =>
         !s.Waiting(id) && IsAlarm(unit) && time.Normal() && -HALF <= s.current.secs - time.secs < HALF
       case AbortOp(id) => id in s.reqs && (s.Waiting(id) || (s.reqs[id].replied && s.reqs[id].unit < UNIT_MAX))
  }

  function Next(s: Timer, op: Op): Timer
    requires Allowed(s, op)
  {
    match op
    case TickOp => Tick(s)
    case DelayOp(id, unit, delay) => AddDelay(s, id, unit, delay)
    case AlarmOp(id, unit, time, quick) => AddAlarm(s, id, unit, time, quick)
    case AbortOp(id) => Abort(s, id)
  }

  /** A tick adds 7812 microseconds to both clocks. */
  lemma TickAdds(t: TimeVal)
    requires t.Normal() && t.secs + 1 < WORD
    ensures FastAdd(t, VBLANK_MICRO).Normal() && FastAdd(t, VBLANK_MICRO).Us() == t.Us() + VBLANK_MICRO
  {
  }

  /** A tick on one request: it is answered when its time lies before the new time of its clock. */
  lemma TickOnRequest(s: Timer, unit: nat, id: nat)
    requires Ok(s) && Allowed(s, TickOp) && unit < UNIT_MAX && id in s.queues[unit]
    ensures RequestOk(s, unit, id) && s.Waiting(id)
    ensures Due(Advanced(s), id) <==> s.reqs[id].time.Us() < s.Clock(unit).Us() + VBLANK_MICRO
    ensures id in Tick(s).reqs && (id in Tick(s).queues[unit] <==> !Due(Advanced(s), id))
    ensures Tick(s).reqs[id] == if Due(Advanced(s), id) then Answered(s.reqs[id]) else s.reqs[id]
    ensures Tick(s).reqs[id] ==
            if s.reqs[id].time.Us() < s.Clock(unit).Us() + VBLANK_MICRO
              then TimeRequest(unit, TimeVal(0, 0), false, true, 1, NoError) else s.reqs[id]
  {
    var t := Advanced(s);
    assert RequestOk(s, unit, id);
    TickAdds(s.current);
    TickAdds(s.elapsed);
    ExpiredIsEarlier(s.reqs[id].time, t.Clock(unit));
  }

  /** The queues keep their order. */
  lemma {:induction false} KeptInOrder(s: Timer, q: seq<nat>, i: nat, j: nat) returns (k: nat, l: nat)
    requires i < j < |Kept(s, q)|
    ensures k < l < |q| && q[k] == Kept(s, q)[i] && q[l] == Kept(s, q)[j]
  {
    if !Due(s, q[0]) && i == 0 {
      assert Kept(s, q)[j] in q[1..];
      var m :| 0 <= m < |q[1..]| && q[1..][m] == Kept(s, q)[j];
      return 0, m + 1;
    }
    var d := if Due(s, q[0]) then 0 else 1;
    k, l := KeptInOrder(s, q[1..], i - d, j - d);
    k, l := k + 1, l + 1;
  }

  lemma TickKeepsOk(s: Timer)
    requires Ok(s) && Allowed(s, TickOp)
    ensures Ok(Tick(s))
  {
    var t := Tick(s);
    TickAdds(s.current);
    TickAdds(s.elapsed);
    forall unit | 0 <= unit < UNIT_MAX
      ensures NoRepeats(t.queues[unit])
    {
      KeptNoRepeats(Advanced(s), s.queues[unit]);
    }
    forall unit, id {:trigger RequestOk(t, unit, id)} | 0 <= unit < UNIT_MAX && id in t.queues[unit]
      ensures RequestOk(t, unit, id)
    {
      TickOnRequest(s, unit, id);
    }
    forall id {:trigger t.Waiting(id)} | id in t.reqs && !t.Waiting(id)
      ensures Over(t.reqs[id])
    {
      if s.Waiting(id) {
        TickOnRequest(s, s.reqs[id].unit, id);
      }
    }
  }

  /** A request joins the queue of its unit. */
  lemma JoinKeepsOk(s: Timer, id: nat, r: TimeRequest)
    requires Ok(s) && !s.Waiting(id) && r.unit < UNIT_MAX
    requires (IsDelay(r.unit) || IsAlarm(r.unit)) && !r.replied && r.replies == 0 && !r.quick
    requires r.time.Normal() && r.time.Us() >= s.Clock(r.unit).Us()
    ensures Ok(s.(reqs := s.reqs[id := r], queues := s.queues[r.unit := s.queues[r.unit] + [id]]))
  {
    var t := s.(reqs := s.reqs[id := r], queues := s.queues[r.unit := s.queues[r.unit] + [id]]);
    forall unit | 0 <= unit < UNIT_MAX
      ensures id !in s.queues[unit]
    {
      assert id in s.queues[unit] ==> RequestOk(s, unit, id) && s.Waiting(id);
    }
    forall unit, x {:trigger RequestOk(t, unit, x)} | 0 <= unit < UNIT_MAX && x in t.queues[unit]
      ensures RequestOk(t, unit, x)
    {
      assert x != id ==> RequestOk(s, unit, x);
    }
    forall x {:trigger t.Waiting(x)} | x in t.reqs && !t.Waiting(x)
      ensures Over(t.reqs[x])
    {
      assert x != id && !s.Waiting(x);
    }
  }

  /** A request that is answered at once, or an answer that is counted, stays out of the queues. */
  lemma OutsideKeepsOk(s: Timer, id: nat, r: TimeRequest)
    requires Ok(s) && !s.Waiting(id) && Over(r)
    ensures Ok(s.(reqs := s.reqs[id := r]))
  {
    var t := s.(reqs := s.reqs[id := r]);
    forall unit | 0 <= unit < UNIT_MAX
      ensures id !in s.queues[unit]
    {
      assert id in s.queues[unit] ==> RequestOk(s, unit, id) && s.Waiting(id);
    }
    forall unit, x {:trigger RequestOk(t, unit, x)} | 0 <= unit < UNIT_MAX && x in t.queues[unit]
      ensures RequestOk(t, unit, x)
    {
      assert RequestOk(s, unit, x);
    }
    forall x {:trigger t.Waiting(x)} | x in t.reqs && !t.Waiting(x)
      ensures Over(t.reqs[x])
    {
      assert x != id ==> !s.Waiting(x);
    }
  }

  lemma AbortKeepsOk(s: Timer, id: nat)
    requires Ok(s) && Allowed(s, AbortOp(id)) && s.Waiting(id)
    ensures Ok(Abort(s, id)) && !Abort(s, id).Waiting(id)
    ensures var t := Abort(s, id);
            && t.reqs == s.reqs[id := s.reqs[id].(error := Aborted, replied := true, replies := 1)]
            && t.current == s.current && t.elapsed == s.elapsed
            && forall unit :: 0 <= unit < UNIT_MAX ==> t.queues[unit] == Removed(s.queues[unit], id)
  {
    var t, u := Abort(s, id), s.reqs[id].unit;
    assert RequestOk(s, u, id);
    RemovedNoRepeats(s.queues[u], id);
    forall unit | 0 <= unit < UNIT_MAX && unit != u
      ensures Removed(s.queues[unit], id) == s.queues[unit]
    {
      assert id in s.queues[unit] ==> RequestOk(s, unit, id);
      RemovedNothing(s.queues[unit], id);
    }
    forall unit, x {:trigger RequestOk(t, unit, x)} | 0 <= unit < UNIT_MAX && x in t.queues[unit]
      ensures RequestOk(t, unit, x)
    {
      assert RequestOk(s, unit, x);
    }
    forall x {:trigger t.Waiting(x)} | x in t.reqs && !t.Waiting(x)
      ensures Over(t.reqs[x])
    {
      assert x != id ==> !s.Waiting(x);
    }
  }

  lemma DelayTime(s: Timer, delay: TimeVal)
    requires s.elapsed.Normal() && (s.elapsed.Us() + delay.Us()) / 1_000_000 < WORD
    ensures Normalised(s.elapsed.Us() + delay.Us()).Normal()
    ensures Normalised(s.elapsed.Us() + delay.Us()).Us() == s.elapsed.Us() + delay.Us()
  {
  }

  lemma DelayKeepsOk(s: Timer, id: nat, unit: nat, delay: TimeVal)
    requires Ok(s) && Allowed(s, DelayOp(id, unit, delay))
    ensures Ok(AddDelay(s, id, unit, delay))
  {
    DelayTime(s, delay);
    JoinKeepsOk(s, id, TimeRequest(unit, Normalised(s.elapsed.Us() + delay.Us()), false, false, 0, NoError));
  }

  lemma AlarmKeepsOk(s: Timer, id: nat, unit: nat, time: TimeVal, quick: bool)
    requires Ok(s) && Allowed(s, AlarmOp(id, unit, time, quick))
    ensures Ok(AddAlarm(s, id, unit, time, quick))
  {
    CmpTimeRight(s.current, time);
    if CmpTime(s.current, time) >= 0 {
      OutsideKeepsOk(s, id, TimeRequest(unit, ZERO, quick, !quick, if quick then 0 else 1, NoError));
    } else {
      JoinKeepsOk(s, id, TimeRequest(unit, time, false, false, 0, NoError));
    }
  }

  /** Every step keeps the order of things. */
  lemma NextKeepsOk(s: Timer, op: Op)
    requires Ok(s) && Allowed(s, op)
    ensures Ok(Next(s, op))
  {
    match op
    case TickOp =>
      TickKeepsOk(s);
    case DelayOp(id, unit, delay) =>
      DelayKeepsOk(s, id, unit, delay);
    case AlarmOp(id, unit, time, quick) =>
      AlarmKeepsOk(s, id, unit, time, quick);
    case AbortOp(id) =>
      if s.Waiting(id) {
        AbortKeepsOk(s, id);
      }
  }

  // ---------------------------------------------------------------- whole runs

  predicate AllAllowed(s: Timer, ops: seq<Op>)
    decreases |ops|
  {
    ops == [] || (Allowed(s, ops[0]) && AllAllowed(Next(s, ops[0]), ops[1..]))
  }

  function Run(s: Timer, ops: seq<Op>): Timer
    requires AllAllowed(s, ops)
    decreases |ops|
  {
    if ops == [] then s else Run(Next(s, ops[0]), ops[1..])
  }

  function Ticks(ops: seq<Op>): nat {
    if ops == [] then 0 else (if ops[0].TickOp? then 1 else 0) + Ticks(ops[1..])
  }

  /** The operation is about another request. */
  predicate NotAbout(op: Op, id: nat) {
    match op
    case TickOp => true
    case DelayOp(x, unit, delay) => x != id
    case AlarmOp(x, unit, time, quick) => x != id
    case AbortOp(x) => x != id
  }

  /** After any run Elapsed has gone up by 7812 microseconds a tick. */
  lemma {:induction false} ElapsedCountsTicks(s: Timer, ops: seq<Op>)
    requires Ok(s) && AllAllowed(s, ops)
    ensures Ok(Run(s, ops)) && Run(s, ops).elapsed == Normalised(s.elapsed.Us() + VBLANK_MICRO * Ticks(ops))
    decreases |ops|
  {
    if ops == [] {
      NormalIsUnique(s.elapsed);
    } else {
      var t := Next(s, ops[0]);
      NextKeepsOk(s, ops[0]);
      if ops[0].TickOp? {
        TickAdds(s.elapsed);
      }
      assert t.elapsed.Us() == s.elapsed.Us() + if ops[0].TickOp? then VBLANK_MICRO else 0;
      ElapsedCountsTicks(t, ops[1..]);
    }
  }

  /** And so has the system time. */
  lemma {:induction false} CurrentCountsTicks(s: Timer, ops: seq<Op>)
    requires Ok(s) && AllAllowed(s, ops)
    ensures Ok(Run(s, ops)) && Run(s, ops).current == Normalised(s.current.Us() + VBLANK_MICRO * Ticks(ops))
    decreases |ops|
  {
    if ops == [] {
      NormalIsUnique(s.current);
    } else {
      var t := Next(s, ops[0]);
      NextKeepsOk(s, ops[0]);
      if ops[0].TickOp? {
        TickAdds(s.current);
      }
      assert t.current.Us() == s.current.Us() + if ops[0].TickOp? then VBLANK_MICRO else 0;
      CurrentCountsTicks(t, ops[1..]);
    }
  }

  /** A request waits as it was, or was answered once. */
  predicate WaitsOrAnswered(s: Timer, id: nat, t: Timer)
    requires id in s.reqs
  {
    if s.reqs[id].time.Us() < t.Clock(s.reqs[id].unit).Us() then
      && !t.Waiting(id) && id in t.reqs
      && t.reqs[id] == TimeRequest(s.reqs[id].unit, TimeVal(0, 0), false, true, 1, NoError)
    else t.Waiting(id) && t.reqs[id] == s.reqs[id]
  }

  /** A request that waits is untouched by a step about another one, unless it falls due. */
  lemma StepOnWaiting(s: Timer, op: Op, id: nat)
    requires Ok(s) && Allowed(s, op) && NotAbout(op, id) && s.Waiting(id)
    ensures WaitsOrAnswered(s, id, Next(s, op))
  {
    assert RequestOk(s, s.reqs[id].unit, id);
    if op.TickOp? {
      TickOnRequest(s, s.reqs[id].unit, id);
      TickAdds(s.elapsed);
      TickAdds(s.current);
    }
  }

  lemma StepOnAnswered(s: Timer, op: Op, id: nat)
    requires Ok(s) && Allowed(s, op) && NotAbout(op, id) && !s.Waiting(id) && id in s.reqs
    ensures !Next(s, op).Waiting(id) && id in Next(s, op).reqs && Next(s, op).reqs[id] == s.reqs[id]
  {
  }

  lemma {:induction false} AnsweredStays(s: Timer, ops: seq<Op>, id: nat)
    requires Ok(s) && AllAllowed(s, ops) && (forall op :: op in ops ==> NotAbout(op, id)) && !s.Waiting(id)
    requires id in s.reqs
    ensures !Run(s, ops).Waiting(id) && id in Run(s, ops).reqs && Run(s, ops).reqs[id] == s.reqs[id]
    decreases |ops|
  {
    if ops != [] {
      assert ops[0] in ops;
      StepOnAnswered(s, ops[0], id);
      NextKeepsOk(s, ops[0]);
      AnsweredStays(Next(s, ops[0]), ops[1..], id);
    }
  }

  /** A request that nobody touches is answered exactly once, and that as soon as its clock is
      behind its time: after every run it is answered if its clock is later, and waits if not.
      The clock of a delay is Elapsed, that of an alarm the system time. */
  lemma {:induction false} AnsweredInTime(s: Timer, ops: seq<Op>, id: nat)
    requires Ok(s) && AllAllowed(s, ops) && (forall op :: op in ops ==> NotAbout(op, id)) && s.Waiting(id)
    ensures WaitsOrAnswered(s, id, Run(s, ops))
    decreases |ops|
  {
    if ops == [] {
      assert RequestOk(s, s.reqs[id].unit, id);
    } else {
      var t, unit := Next(s, ops[0]), s.reqs[id].unit;
      assert ops[0] in ops;
      StepOnWaiting(s, ops[0], id);
      NextKeepsOk(s, ops[0]);
      if s.reqs[id].time.Us() < t.Clock(unit).Us() {
        AnsweredStays(t, ops[1..], id);
        ClockUs(t, ops[1..], unit);
      } else {
        AnsweredInTime(t, ops[1..], id);
      }
    }
  }

  lemma ClockUs(s: Timer, ops: seq<Op>, unit: nat)
    requires Ok(s) && AllAllowed(s, ops)
    ensures Run(s, ops).Clock(unit).Us() == s.Clock(unit).Us() + VBLANK_MICRO * Ticks(ops)
  {
    ElapsedCountsTicks(s, ops);
    CurrentCountsTicks(s, ops);
  }

  /** A delay that was just requested waits until its time from now. */
  lemma AddedWaits(s: Timer, id: nat, unit: nat, delay: TimeVal)
    requires Ok(s) && Allowed(s, DelayOp(id, unit, delay))
    ensures var t := AddDelay(s, id, unit, delay);
            && Ok(t) && t.Waiting(id) && t.reqs[id].unit == unit && t.reqs[id].replies == 0
            && t.reqs[id].time.Us() == s.elapsed.Us() + delay.Us() && t.Clock(unit) == s.elapsed
            && t.reqs[id].time.micro < 1_000_000 && !t.reqs[id].quick && !t.reqs[id].replied
            && t.reqs[id].error == NoError && t.queues == s.queues[unit := s.queues[unit] + [id]]
            && t.current == s.current && t.elapsed == s.elapsed && t.reqs == s.reqs[id := t.reqs[id]]
  {
    NextKeepsOk(s, DelayOp(id, unit, delay));
    DelayTime(s, delay);
    var t := AddDelay(s, id, unit, delay);
    assert t.queues[unit][|s.queues[unit]|] == id;
  }

  /** From the request on: a delay of `delay` is answered by the first tick after which more
      than that has elapsed, however many other requests there are. */
  lemma DelayFromRequest(s: Timer, id: nat, unit: nat, delay: TimeVal, ops: seq<Op>)
    requires Ok(s) && Allowed(s, DelayOp(id, unit, delay))
    requires AllAllowed(AddDelay(s, id, unit, delay), ops) && forall op :: op in ops ==> NotAbout(op, id)
    ensures var t := Run(AddDelay(s, id, unit, delay), ops);
            && (t.Waiting(id) <==> VBLANK_MICRO * Ticks(ops) <= delay.Us())
            && id in t.reqs && t.reqs[id].replies == if t.Waiting(id) then 0 else 1
  {
    var s1 := AddDelay(s, id, unit, delay);
    AddedWaits(s, id, unit, delay);
    hide Ok, AddDelay, Normalised, TimeVal.Us, Run, Allowed;
    AnsweredInTime(s1, ops, id);
    ClockUs(s1, ops, unit);
  }

  /** An alarm for a time that is still to come waits. */
  lemma AlarmWaits(s: Timer, id: nat, unit: nat, time: TimeVal, quick: bool)
    requires Ok(s) && Allowed(s, AlarmOp(id, unit, time, quick)) && s.current.Us() < time.Us()
    ensures var t := AddAlarm(s, id, unit, time, quick);
            && Ok(t) && t.Waiting(id) && t.reqs[id].unit == unit && t.reqs[id].replies == 0
            && t.reqs[id].time == time && t.Clock(unit) == s.current
            && !t.reqs[id].quick && !t.reqs[id].replied && t.reqs[id].error == NoError
            && t.queues == s.queues[unit := s.queues[unit] + [id]]
            && t.current == s.current && t.elapsed == s.elapsed && t.reqs == s.reqs[id := t.reqs[id]]
  {
    NextKeepsOk(s, AlarmOp(id, unit, time, quick));
    CmpTimeRight(s.current, time);
    var t := AddAlarm(s, id, unit, time, quick);
    assert t.queues[unit][|s.queues[unit]|] == id;
  }

  /** From the request on: an alarm is answered by the first tick after which the system time is
      later than its time, and at once when its time is not to come any more. */
  lemma AlarmFromRequest(s: Timer, id: nat, unit: nat, time: TimeVal, quick: bool, ops: seq<Op>)
    requires Ok(s) && Allowed(s, AlarmOp(id, unit, time, quick))
    requires AllAllowed(AddAlarm(s, id, unit, time, quick), ops) && forall op :: op in ops ==> NotAbout(op, id)
    ensures var t := Run(AddAlarm(s, id, unit, time, quick), ops);
            && (t.Waiting(id) <==>
                  s.current.Us() < time.Us() && s.current.Us() + VBLANK_MICRO * Ticks(ops) <= time.Us())
            && id in t.reqs
            && t.reqs[id].replies == if t.Waiting(id) || (quick && time.Us() <= s.current.Us()) then 0 else 1
  {
    var s1 := AddAlarm(s, id, unit, time, quick);
    if s.current.Us() < time.Us() {
      AlarmWaits(s, id, unit, time, quick);
      hide Ok, AddAlarm, Normalised, TimeVal.Us, Run, Allowed;
      AnsweredInTime(s1, ops, id);
      ClockUs(s1, ops, unit);
      return;
    }
    AlarmIsOver(s, id, unit, time, quick);
    hide Ok, AddAlarm, Normalised, TimeVal.Us, Run, Allowed;
    AnsweredStays(s1, ops, id);
  }

  lemma AlarmIsOver(s: Timer, id: nat, unit: nat, time: TimeVal, quick: bool)
    requires Ok(s) && Allowed(s, AlarmOp(id, unit, time, quick)) && time.Us() <= s.current.Us()
    ensures var t := AddAlarm(s, id, unit, time, quick);
            && Ok(t) && !t.Waiting(id) && id in t.reqs && t.reqs[id].replies == (if quick then 0 else 1)
            && t == s.(reqs := s.reqs[id := TimeRequest(unit, TimeVal(0, 0), quick, !quick, if quick then 0 else 1,
                                                       NoError)])
  {
    NextKeepsOk(s, AlarmOp(id, unit, time, quick));
    CmpTimeRight(s.current, time);
    var t := AddAlarm(s, id, unit, time, quick);
    assert id in s.queues[unit] ==> RequestOk(s, unit, id) && s.Waiting(id);
  }
}
