/** The code of the timer device, against TimerSpec. */
module TimerDevice {
  import opened Lists
  import opened Machine
  import opened TimerSpec

  /** struct TimerBase, with the memory of the requests. */
  class TimerBase {
    var current: TimeVal
    var elapsed: TimeVal
    var queues: seq<seq<nat>>
    var reqs: map<nat, TimeRequest>

    constructor (now: TimeVal)
      requires now.Normal()
      ensures View() == Timer(now, ZERO, [[], [], [], [], []], map[]) && Ok(View())
    {
      current, elapsed, queues, reqs := now, ZERO, [[], [], [], [], []], map[];
    }

    ghost function View(): Timer
      reads this
    {
      Timer(current, elapsed, queues, reqs)
    }

    /** timer_AddTime */
    static method AddTime(src: TimeVal, dst: TimeVal) returns (sum: TimeVal)
      requires src.micro + dst.micro < WORD && (src.Us() + dst.Us()) / 1_000_000 < WORD
      ensures sum == Normalised(src.Us() + dst.Us())
      ensures sum.micro < 1_000_000
      ensures 1_000_000 * sum.secs + sum.micro == 1_000_000 * (src.secs + dst.secs) + src.micro + dst.micro
    {
      sum := TimeVal(dst.secs + src.secs, dst.micro + src.micro);
      while sum.micro > 999_999
        invariant sum.Us() == src.Us() + dst.Us()
        decreases sum.micro
      {
        sum := TimeVal(sum.secs + 1, sum.micro - 1_000_000);
      }
    }

    /** AddDelay */
    method AddDelay(id: nat, unit: nat, delay: TimeVal)
      requires Ok(View()) && Allowed(View(), DelayOp(id, unit, delay))
      modifies this`reqs, this`queues
      ensures View() == Next(old(View()), DelayOp(id, unit, delay)) && Ok(View())
    {
      NextKeepsOk(View(), DelayOp(id, unit, delay));
      var time := AddTime(elapsed, delay);
      reqs := reqs[id := TimeRequest(unit, time, false, false, 0, NoError)];
      QueueRequest(id, unit);
    }

    /** INTERN_QueueRequest */
    method QueueRequest(id: nat, unit: nat)
      requires unit < |queues|
      modifies this`queues
      ensures queues == old(queues)[unit := old(queues)[unit] + [id]]
    {
      queues := queues[unit := queues[unit] + [id]];
    }

    /** AddAlarm */
    method AddAlarm(id: nat, unit: nat, time: TimeVal, quick: bool)
      requires Ok(View()) && Allowed(View(), AlarmOp(id, unit, time, quick))
      modifies this`reqs, this`queues
      ensures View() == Next(old(View()), AlarmOp(id, unit, time, quick)) && Ok(View())
    {
      NextKeepsOk(View(), AlarmOp(id, unit, time, quick));
      if CmpTime(current, time) >= 0 {
        reqs := reqs[id := TimeRequest(unit, ZERO, quick, !quick, if quick then 0 else 1, NoError)];
        return;
      }
      reqs := reqs[id := TimeRequest(unit, time, false, false, 0, NoError)];
      QueueRequest(id, unit);
    }

    /** timer_AbortIO */
    method AbortIO(id: nat)
      requires Ok(View()) && Allowed(View(), AbortOp(id))
      modifies this`reqs, this`queues
      ensures View() == Next(old(View()), AbortOp(id)) && Ok(View())
      ensures old(View().Waiting(id)) ==>
                && reqs == old(reqs)[id := old(reqs)[id].(error := Aborted, replied := true, replies := 1)]
                && |queues| == UNIT_MAX == |old(queues)|
                && forall unit :: 0 <= unit < UNIT_MAX ==> queues[unit] == Removed(old(queues)[unit], id)
      ensures !old(View().Waiting(id)) ==> View() == old(View())
    {
      NextKeepsOk(View(), AbortOp(id));
      if View().Waiting(id) {
        AbortKeepsOk(View(), id);
      }
      var r := reqs[id];
      if r.replied {
        return;
      }
      var q := Remove(queues[r.unit], id);
      queues := queues[r.unit := q];
      reqs := reqs[id := r.(error := Aborted, replied := !r.quick,
                            replies := if r.quick then r.replies else r.replies + 1)];
    }

    /** The body of the loops of the tick handler, for one node of the queue of a unit. `t` is
        the device before the tick, with its clocks advanced. */
    method AnswerIfDue(unit: nat, id: nat, ghost t: Timer)
      requires unit < |queues| && unit != UNIT_MICROHZ && current == t.current && elapsed == t.elapsed
      requires id in reqs && t.Waiting(id) && t.reqs[id].unit == unit && reqs[id] == t.reqs[id]
      modifies this`reqs, this`queues
      ensures queues == if Due(t, id) then old(queues)[unit := Removed(old(queues)[unit], id)] else old(queues)
      ensures reqs == if Due(t, id) then old(reqs)[id := Answered(t.reqs[id])] else old(reqs)
    {
      var now := if unit == UNIT_VBLANK || unit == UNIT_ECLOCK then elapsed else current;
      var time := reqs[id].time;
      if time.secs < now.secs || (time.secs <= now.secs && time.micro < now.micro) {
        var q := Remove(queues[unit], id);
        queues := queues[unit := q];
        var r := reqs[id].(time := ZERO, error := NoError);
        reqs := reqs[id := r.(replied := true, replies := r.replies + 1)];
      }
    }

    /** The loop of the tick handler over one queue. */
    method AnswerUnit(unit: nat, ghost t: Timer)
      requires unit < |queues| && unit != UNIT_MICROHZ && current == t.current && elapsed == t.elapsed
      requires NoRepeats(queues[unit])
      requires forall id :: id in queues[unit] ==>
                 t.Waiting(id) && t.reqs[id].unit == unit && id in reqs && reqs[id] == t.reqs[id]
      modifies this`reqs, this`queues
      ensures queues == old(queues)[unit := QueueAfter(t, old(queues)[unit], |old(queues)[unit]|)]
      ensures reqs == RequestsAfter(t, old(reqs), old(queues)[unit], |old(queues)[unit]|)
    {
      var nodes := queues[unit];
      ghost var before, queues0 := reqs, queues;
      var i := 0;
      while i < |nodes|
        invariant 0 <= i <= |nodes| && unit < |queues| == |queues0|
        invariant queues == queues0[unit := QueueAfter(t, nodes, i)]
        invariant reqs == RequestsAfter(t, before, nodes, i)
        invariant forall j :: i <= j < |nodes| ==> nodes[j] in reqs && reqs[nodes[j]] == t.reqs[nodes[j]]
      {
        AnswerIfDue(unit, nodes[i], t);
        i := i + 1;
      }
    }

    /** The loop of the tick handler over one unit; UNIT_MICROHZ has none. */
    method AnswerOneUnit(unit: nat, ghost s: Timer, ghost t: Timer)
      requires Ok(s) && t == Advanced(s) && unit < UNIT_MAX == |queues| && current == t.current && elapsed == t.elapsed
      requires queues[unit] == t.queues[unit] && reqs == AnsweredBelow(t, unit)
      modifies this`reqs, this`queues
      ensures queues == old(queues)[unit := Kept(t, t.queues[unit])] && reqs == AnsweredBelow(t, unit + 1)
    {
      hide Ok, Kept, FastAdd, AnsweredBelow, QueueAfter, RequestsAfter;
      UnitReady(s, t, unit);
      if unit != UNIT_MICROHZ {
        AnswerUnit(unit, t);
      }
    }

    /** The loops over all units. */
    method AnswerUnits(ghost s: Timer, ghost t: Timer)
      requires Ok(s) && t == Advanced(s) && View() == t
      modifies this`reqs, this`queues
      ensures |queues| == UNIT_MAX && forall u :: 0 <= u < UNIT_MAX ==> queues[u] == Kept(t, t.queues[u])
      ensures reqs == AnsweredBelow(t, UNIT_MAX)
    {
      assert AnsweredBelow(t, 0) == t.reqs && |queues| == UNIT_MAX;
      hide Ok, Kept, FastAdd, AnsweredBelow;
      var unit := 0;
      while unit < UNIT_MAX
        invariant 0 <= unit <= UNIT_MAX && |queues| == UNIT_MAX
        invariant forall u :: 0 <= u < unit ==> queues[u] == Kept(t, t.queues[u])
        invariant forall u :: unit <= u < UNIT_MAX ==> queues[u] == t.queues[u]
        invariant reqs == AnsweredBelow(t, unit)
      {
        AnswerOneUnit(unit, s, t);
        unit := unit + 1;
      }
    }

    /** TimerVBLIRQServer */
    method VBLTick()
      requires Ok(View()) && Allowed(View(), TickOp)
      modifies this
      ensures View() == Next(old(View()), TickOp) && Ok(View())
    {
      hide Ok, Kept, FastAdd, AnsweredBelow, Tick;
      ghost var s := View();
      NextKeepsOk(s, TickOp);
      current := FastAdd(current, VBLANK_MICRO);
      elapsed := FastAdd(elapsed, VBLANK_MICRO);
      AnswerUnits(s, View());
      TickIs(s, queues, reqs);
    }
  }

  /** What the loop needs of the queue it comes to, and what it leaves for the next one. */
  lemma UnitReady(s: Timer, t: Timer, unit: nat)
    requires Ok(s) && t == Advanced(s) && unit < UNIT_MAX
    ensures var q, before := t.queues[unit], AnsweredBelow(t, unit);
            && NoRepeats(q)
              && (forall id :: id in q ==>
                    t.Waiting(id) && t.reqs[id].unit == unit && id in before && before[id] == t.reqs[id])
            && QueueAfter(t, q, |q|) == Kept(t, q)
            && RequestsAfter(t, before, q, |q|) == AnsweredBelow(t, unit + 1)
            && (unit == UNIT_MICROHZ ==> Kept(t, q) == q && before == AnsweredBelow(t, unit + 1))
  {
    var q, before := t.queues[unit], AnsweredBelow(t, unit);
    forall id | id in q
      ensures t.Waiting(id) && t.reqs[id].unit == unit
    {
      assert RequestOk(s, unit, id);
    }
    QueueIsKept(t, q, |q|);
    assert q[..|q|] == q && q[|q|..] == [] && Kept(t, q) + [] == Kept(t, q);
    UnitAnswered(t, unit);
    if unit == UNIT_MICROHZ {
      KeptAll(t, q);
    }
  }

  lemma UnitAnswered(t: Timer, unit: nat)
    requires unit < |t.queues| && forall id :: id in t.queues[unit] ==> id in t.reqs && t.reqs[id].unit == unit
    ensures RequestsAfter(t, AnsweredBelow(t, unit), t.queues[unit], |t.queues[unit]|) == AnsweredBelow(t, unit + 1)
  {
    var q, before, after := t.queues[unit], AnsweredBelow(t, unit), AnsweredBelow(t, unit + 1);
    assert q[..|q|] == q;
    var got := RequestsAfter(t, before, q, |q|);
    forall id
      ensures id in got <==> id in after
      ensures id in after ==> got[id] == after[id]
    {
      if id in t.reqs {
        RequestsAreAnswered(t, before, q, |q|, id);
      } else {
        SameKeys(t, before, q, |q|);
      }
    }
  }

  lemma {:induction false} SameKeys(t: Timer, before: map<nat, TimeRequest>, nodes: seq<nat>, i: nat)
    requires i <= |nodes| && before.Keys == t.reqs.Keys
    ensures RequestsAfter(t, before, nodes, i).Keys == t.reqs.Keys
  {
    if i > 0 {
      SameKeys(t, before, nodes, i - 1);
    }
  }
}
