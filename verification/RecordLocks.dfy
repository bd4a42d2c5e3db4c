/** Byte-range record locks of the RAM handler: two lists for each file, the records held
    and the requests waiting. Offsets and lengths are 32 bits wide and their sum wraps. */
module RecordLocks {
  import opened Lists
  import opened Machine
  import opened RamTypes

  const REC_EXCLUSIVE := 0
  const REC_EXCLUSIVE_IMMED := 1

  /** struct rlock, and the arguments of a request. */
  datatype Record = Record(lock: RamLock, offset: Word, length: Word, mode: Word)
  {
    /** The end as the source computes it. */
    function Top(): Word {
      (offset + length) % WORD
    }

    predicate InRange() {
      offset + length < WORD
    }

    predicate Exclusive() {
      mode <= REC_EXCLUSIVE_IMMED
    }

    predicate Immediate() {
      mode % 2 == 1
    }
  }

  /** struct rlock_wait, with the number of the packet that waits. */
  datatype Waiter = Waiter(record: Record, packet: nat)

  /** What goes back to the sender of a packet. */
  datatype Reply = Granted(packet: nat) | TimedOut(packet: nat)

  /** The test of rh_FindRLock on one held record. */
  predicate Clash(held: Record, want: Record) {
    && held.lock != want.lock && held.offset < want.Top() && held.Top() > want.offset
    && (want.Exclusive() || held.Exclusive())
  }

  /** What the test stands for, without wrap-around. */
  predicate Overlap(a: Record, b: Record) {
    a.offset < b.offset + b.length && b.offset < a.offset + a.length
  }

  predicate Conflict(a: Record, b: Record) {
    a.lock != b.lock && Overlap(a, b) && (a.Exclusive() || b.Exclusive())
  }

  predicate Holds(r: Record, byte: int) {
    r.offset <= byte < r.offset + r.length
  }

  /** The modes: 0 and 1 exclude, 2 and 3 share; 1 and 3 do not wait. */
  lemma ModesAre(r: Record)
    ensures r.mode == REC_EXCLUSIVE ==> r.Exclusive() && !r.Immediate()
    ensures r.mode == REC_EXCLUSIVE_IMMED ==> r.Exclusive() && r.Immediate()
    ensures r.mode == 2 ==> !r.Exclusive() && !r.Immediate()
    ensures r.mode == 3 ==> !r.Exclusive() && r.Immediate()
    ensures REC_EXCLUSIVE == 0 && REC_EXCLUSIVE_IMMED == 1
  {
  }

  /** When nothing wraps, records of different handles clash that have overlapping ranges and are
      not both for sharing. */
  lemma ClashIs(held: Record, want: Record)
    requires held.offset + held.length < WORD && want.offset + want.length < WORD
    ensures Clash(held, want) <==>
              && held.lock != want.lock
              && held.offset < want.offset + want.length && want.offset < held.offset + held.length
              && (held.mode in {0, 1} || want.mode in {0, 1})
  {
  }

  /** For records that are not empty, overlapping means having a byte in common. */
  lemma OverlapIsSharedByte(a: Record, b: Record)
    requires a.length > 0 && b.length > 0
    ensures Overlap(a, b) <==> exists byte :: Holds(a, byte) && Holds(b, byte)
  {
    if Overlap(a, b) {
      var byte := if a.offset < b.offset then b.offset else a.offset;
      assert Holds(a, byte) && Holds(b, byte);
    }
  }

  /** A record that does not wrap, or one on the very bytes that are asked for. */
  predicate Plain(held: Record, want: Record) {
    held.InRange() || (held.offset == want.offset && held.length == want.length)
  }

  /** The test is right about all such records exactly when the request does not wrap. */
  lemma DecisionRight(want: Record, other: RamLock)
    requires other != want.lock
    ensures want.InRange() <==> forall held: Record :: Plain(held, want) ==>
              (Clash(held, want) <==> Conflict(held, want))
  {
    if !want.InRange() {
      var held := Record(other, want.offset, want.length, REC_EXCLUSIVE);
      assert Plain(held, want) && !Clash(held, want) && Conflict(held, want);
    }
  }

  // ---------------------------------------------------------------- what the lists promise

  predicate Blocked(held: seq<Record>, want: Record) {
    exists i :: 0 <= i < |held| && Clash(held[i], want)
  }

  /** Records of different handles are disjoint or shared. */
  predicate Safe(held: seq<Record>) {
    forall i, j :: 0 <= i < j < |held| ==> !Conflict(held[i], held[j])
  }

  predicate AllInRange(held: seq<Record>) {
    forall r :: r in held ==> r.InRange()
  }

  predicate WaitsInRange(waits: seq<Waiter>) {
    forall w :: w in waits ==> w.record.InRange()
  }

  /** Whoever waits has a reason to. */
  predicate NoSleeper(held: seq<Record>, waits: seq<Waiter>) {
    forall w :: w in waits ==> Blocked(held, w.record)
  }

  // ---------------------------------------------------------------- the meaning of the operations

  datatype State = State(held: seq<Record>, waits: seq<Waiter>, replies: seq<Reply>)
  {
    predicate Ok() {
      AllInRange(held) && WaitsInRange(waits) && Safe(held)
    }

    /** Every packet that is still waiting or was answered, as often as that. */
    function Packets(): multiset<nat> {
      PacketsOf(waits) + Answered(replies)
    }
  }

  function PacketsOf(waits: seq<Waiter>): multiset<nat> {
    if waits == [] then multiset{} else multiset{waits[0].packet} + PacketsOf(waits[1..])
  }

  function Answered(replies: seq<Reply>): multiset<nat> {
    if replies == [] then multiset{} else multiset{replies[0].packet} + Answered(replies[1..])
  }

  /** The test of rh_Wakeup: does a waiter care about this range? */
  predicate Touched(r: Record, offset: Word, top: Word) {
    r.offset < top && r.Top() > offset
  }

  /** rh_Wakeup from waiter `i` on, when no allocation fails: each waiter in turn is granted
      its record or keeps its place. */
  function Wake(s: State, i: nat, offset: Word, top: Word): State
    requires i <= |s.waits|
    decreases |s.waits| - i
  {
    if i == |s.waits| then s
    else
      var w := s.waits[i];
      if Touched(w.record, offset, top) && !Blocked(s.held, w.record) then
        Wake(State([w.record] + s.held, s.waits[..i] + s.waits[i + 1..], s.replies + [Granted(w.packet)]), i, offset,
             top)
      else
        Wake(s, i + 1, offset, top)
  }

  /** The first held record that an unlock names, or the number of records. */
  function FirstHeld(held: seq<Record>, lock: RamLock, offset: Word, length: Word): (i: nat)
    ensures i <= |held|
    ensures i < |held| ==> held[i].lock == lock && held[i].offset == offset && held[i].length == length
    ensures forall j :: 0 <= j < i ==> !(held[j].lock == lock && held[j].offset == offset && held[j].length == length)
  {
    if held == [] || (held[0].lock == lock && held[0].offset == offset && held[0].length == length) then 0
    else 1 + FirstHeld(held[1..], lock, offset, length)
  }

  datatype Op =
    | Ask(want: Record, packet: nat)
    | Release(lock: RamLock, offset: Word, length: Word)
    | TimeOut(index: nat)

  /** One packet or one expired timer, when no allocation fails. A request that is granted or
      refused at once is answered by the caller, so it leaves no reply here. */
  function Next(s: State, op: Op): State {
    match op
    case Ask(want, packet) =>
      if !Blocked(s.held, want) then s.(held := [want] + s.held)
      else if want.Immediate() then s
      else s.(waits := s.waits + [Waiter(want, packet)])
    case Release(lock, offset, length) =>
      var i := FirstHeld(s.held, lock, offset, length);
      if i == |s.held| then s
      else Wake(s.(held := Without(s.held, i)), 0, offset, (offset + length) % WORD)
    case TimeOut(i) =>
      if i >= |s.waits| then s
      else
        var w := s.waits[i];
        var woken := Wake(s.(waits := Without(s.waits, i)), 0, w.record.offset, w.record.Top());
        woken.(replies := woken.replies + [TimedOut(w.packet)])
  }

  // ---------------------------------------------------------------- safety and wakeups

  lemma GrantKeepsSafe(held: seq<Record>, want: Record)
    requires AllInRange(held) && Safe(held) && want.InRange() && !Blocked(held, want)
    ensures AllInRange([want] + held) && Safe([want] + held)
  {
    var more := [want] + held;
    forall i, j | 0 <= i < j < |more|
      ensures !Conflict(more[i], more[j])
    {
      assert more[j] == held[j - 1] && (i > 0 ==> more[i] == held[i - 1]);
      assert held[j - 1] in held && (i == 0 ==> !Clash(held[j - 1], want));
    }
  }

  lemma SafeLess(held: seq<Record>, i: nat)
    requires i < |held|
    ensures Safe(held) ==> Safe(Without(held, i))
    ensures AllInRange(held) ==> AllInRange(Without(held, i))
  {
  }

  lemma BlockedByMore(held: seq<Record>, r: Record, want: Record)
    requires Blocked(held, want)
    ensures Blocked([r] + held, want)
  {
    var i :| 0 <= i < |held| && Clash(held[i], want);
    assert ([r] + held)[i + 1] == held[i];
  }

  /** Before waiter `i` nobody sleeps; from there on, whoever is not blocked cares about the range. */
  predicate Pending(s: State, i: nat, offset: Word, top: Word)
    requires i <= |s.waits|
  {
    forall k :: 0 <= k < |s.waits| ==>
      Blocked(s.held, s.waits[k].record) || (k >= i && Touched(s.waits[k].record, offset, top))
  }

  /** After rh_Wakeup nobody sleeps who could be granted his record. */
  lemma {:induction false} WakeLeavesNoSleeper(s: State, i: nat, offset: Word, top: Word)
    requires i <= |s.waits| && Pending(s, i, offset, top)
    ensures var t := Wake(s, i, offset, top); NoSleeper(t.held, t.waits)
    decreases |s.waits| - i
  {
    if i < |s.waits| {
      var w := s.waits[i];
      if Touched(w.record, offset, top) && !Blocked(s.held, w.record) {
        var s' := State([w.record] + s.held, s.waits[..i] + s.waits[i + 1..], s.replies + [Granted(w.packet)]);
        forall k | 0 <= k < |s'.waits|
          ensures Blocked(s'.held, s'.waits[k].record) || (k >= i && Touched(s'.waits[k].record, offset, top))
        {
          var j := if k < i then k else k + 1;
          assert s'.waits[k] == s.waits[j];
          if Blocked(s.held, s.waits[j].record) {
            BlockedByMore(s.held, w.record, s.waits[j].record);
          }
        }
        WakeLeavesNoSleeper(s', i, offset, top);
      } else {
        WakeLeavesNoSleeper(s, i + 1, offset, top);
      }
    }
  }

  /** Giving up a record can unblock only waiters that rh_Wakeup looks at. */
  lemma ReleasePends(s: State, i: nat)
    requires NoSleeper(s.held, s.waits) && i < |s.held|
    ensures Pending(s.(held := Without(s.held, i)), 0, s.held[i].offset, s.held[i].Top())
  {
    var less := Without(s.held, i);
    forall k | 0 <= k < |s.waits|
      ensures Blocked(less, s.waits[k].record) || Touched(s.waits[k].record, s.held[i].offset, s.held[i].Top())
    {
      assert s.waits[k] in s.waits;
      var j :| 0 <= j < |s.held| && Clash(s.held[j], s.waits[k].record);
      assert j < i ==> less[j] == s.held[j];
      assert j > i ==> less[j - 1] == s.held[j];
    }
  }

  /** No packet and no timer leaves a sleeper, whether ranges wrap or not. */
  lemma NextLeavesNoSleeper(s: State, op: Op)
    requires NoSleeper(s.held, s.waits)
    ensures NoSleeper(Next(s, op).held, Next(s, op).waits)
  {
    match op
    case Ask(want, packet) =>
      if !Blocked(s.held, want) {
        forall w | w in s.waits
          ensures Blocked([want] + s.held, w.record)
        {
          BlockedByMore(s.held, want, w.record);
        }
      }
    case Release(lock, offset, length) =>
      var i := FirstHeld(s.held, lock, offset, length);
      if i < |s.held| {
        ReleasePends(s, i);
        WakeLeavesNoSleeper(s.(held := Without(s.held, i)), 0, offset, s.held[i].Top());
      }
    case TimeOut(i) =>
      if i < |s.waits| {
        WakeLeavesNoSleeper(s.(waits := Without(s.waits, i)), 0, s.waits[i].record.offset, s.waits[i].record.Top());
      }
  }

  function Run(s: State, ops: seq<Op>): State
    decreases |ops|
  {
    if ops == [] then s else Run(Next(s, ops[0]), ops[1..])
  }

  /** Over every run, of any requests, no wakeup is lost. */
  lemma {:induction false} RunLeavesNoSleeper(s: State, ops: seq<Op>)
    requires NoSleeper(s.held, s.waits)
    ensures NoSleeper(Run(s, ops).held, Run(s, ops).waits)
    decreases |ops|
  {
    if ops != [] {
      NextLeavesNoSleeper(s, ops[0]);
      RunLeavesNoSleeper(Next(s, ops[0]), ops[1..]);
    }
  }

  lemma {:induction false} WakeKeepsOk(s: State, i: nat, offset: Word, top: Word)
    requires i <= |s.waits| && s.Ok()
    ensures Wake(s, i, offset, top).Ok()
    decreases |s.waits| - i
  {
    if i < |s.waits| {
      var w := s.waits[i];
      if Touched(w.record, offset, top) && !Blocked(s.held, w.record) {
        GrantKeepsSafe(s.held, w.record);
        WakeKeepsOk(State([w.record] + s.held, s.waits[..i] + s.waits[i + 1..], s.replies + [Granted(w.packet)]), i,
                    offset, top);
      } else {
        WakeKeepsOk(s, i + 1, offset, top);
      }
    }
  }

  /** The exclusion, for requests that do not wrap. */
  lemma NextKeepsOk(s: State, op: Op)
    requires s.Ok() && (op.Ask? ==> op.want.InRange())
    ensures Next(s, op).Ok()
  {
    match op
    case Ask(want, packet) =>
      if !Blocked(s.held, want) {
        GrantKeepsSafe(s.held, want);
      }
    case Release(lock, offset, length) =>
      var i := FirstHeld(s.held, lock, offset, length);
      if i < |s.held| {
        SafeLess(s.held, i);
        WakeKeepsOk(s.(held := Without(s.held, i)), 0, offset, s.held[i].Top());
      }
    case TimeOut(i) =>
      if i < |s.waits| {
        WakeKeepsOk(s.(waits := Without(s.waits, i)), 0, s.waits[i].record.offset, s.waits[i].record.Top());
      }
  }

  lemma {:induction false} RunKeepsOk(s: State, ops: seq<Op>)
    requires s.Ok() && forall op :: op in ops && op.Ask? ==> op.want.InRange()
    ensures Run(s, ops).Ok()
    decreases |ops|
  {
    if ops != [] {
      assert ops[0] in ops;
      NextKeepsOk(s, ops[0]);
      RunKeepsOk(Next(s, ops[0]), ops[1..]);
    }
  }

  /** Requests that wrap break the promise: two handles both get the same range for themselves. */
  lemma WrappingBreaksSafety(a: RamLock, b: RamLock, offset: Word, length: Word, packet: nat)
    requires a != b && offset + length >= WORD
    ensures var first, second := Record(a, offset, length, REC_EXCLUSIVE), Record(b, offset, length, REC_EXCLUSIVE);
            !Safe(Run(State([], [], []), [Ask(first, packet), Ask(second, packet + 1)]).held)
  {
    var first, second := Record(a, offset, length, REC_EXCLUSIVE), Record(b, offset, length, REC_EXCLUSIVE);
    var s0 := State([], [], []);
    var s1 := Next(s0, Ask(first, packet));
    var s2 := Next(s1, Ask(second, packet + 1));
    assert s1.held == [first] && !Clash(first, second);
    assert s2.held == [second, first] && Conflict(s2.held[0], s2.held[1]);
    var ops := [Ask(first, packet), Ask(second, packet + 1)];
    assert ops[1..] == [Ask(second, packet + 1)] && ops[1..][1..] == [];
    assert Run(s0, ops) == Run(s1, ops[1..]) == Run(s2, []);
  }

  predicate AsksOnly(ops: seq<Op>, offset: Word, length: Word) {
    forall op :: op in ops && op.Ask? ==> op.want.offset == offset && op.want.length == length
  }

  /** A range is safe for exclusive use exactly when its end fits in 32 bits: no run that asks
      for such ranges breaks the exclusion, and any other range breaks it in a run of two. */
  lemma SafeIffInRange(a: RamLock, b: RamLock, offset: Word, length: Word)
    requires a != b
    ensures offset + length < WORD <==>
            forall ops: seq<Op> :: AsksOnly(ops, offset, length) ==> Safe(Run(State([], [], []), ops).held)
  {
    if offset + length < WORD {
      forall ops: seq<Op> | AsksOnly(ops, offset, length)
        ensures Safe(Run(State([], [], []), ops).held)
      {
        RunKeepsOk(State([], [], []), ops);
      }
    } else {
      WrappingBreaksSafety(a, b, offset, length, 0);
      var ops := [Ask(Record(a, offset, length, REC_EXCLUSIVE), 0), Ask(Record(b, offset, length, REC_EXCLUSIVE), 1)];
      assert AsksOnly(ops, offset, length);
    }
  }

  /** An expired timer wakes nobody: the other waiters stay blocked, as they were. */
  lemma {:induction false} WakeOnNothing(s: State, i: nat, offset: Word, top: Word)
    requires i <= |s.waits| && NoSleeper(s.held, s.waits)
    ensures Wake(s, i, offset, top) == s
    decreases |s.waits| - i
  {
    if i < |s.waits| {
      WakeOnNothing(s, i + 1, offset, top);
    }
  }

  lemma TimeOutOnlyRemoves(s: State, i: nat)
    requires NoSleeper(s.held, s.waits) && i < |s.waits|
    ensures Next(s, TimeOut(i)) == State(s.held, Without(s.waits, i), s.replies + [TimedOut(s.waits[i].packet)])
  {
    WakeOnNothing(s.(waits := Without(s.waits, i)), 0, s.waits[i].record.offset, s.waits[i].record.Top());
  }

  // ---------------------------------------------------------------- what a wakeup does

  /** The numbers below `n` in two lists, each in order. */
  ghost predicate Parted(n: nat, left: seq<nat>, stay: seq<nat>) {
    && |left| + |stay| == n
    && (forall a, b :: 0 <= a < b < |left| ==> left[a] < left[b])
    && (forall a, b :: 0 <= a < b < |stay| ==> stay[a] < stay[b])
    && (forall a :: 0 <= a < |left| ==> left[a] < n && left[a] !in stay)
    && (forall b :: 0 <= b < |stay| ==> stay[b] < n)
  }

  lemma PartedMore(n: nat, left: seq<nat>, stay: seq<nat>)
    requires Parted(n, left, stay)
    ensures Parted(n + 1, left + [n], stay) && Parted(n + 1, left, stay + [n])
  {
  }

  /** From `s` to `t` the waiters `left` left the queue, in this order, for records that do not clash
      with those held by then, and got their replies. The waiters `stay` keep their order. Each of
      them is out of the range or clashes with a record held before or granted to a waiter before it. */
  ghost predicate Woken(s: State, t: State, offset: Word, top: Word, left: seq<nat>, stay: seq<nat>) {
    && Parted(|s.waits|, left, stay)
    && |t.held| == |left| + |s.held| && t.held[|left|..] == s.held
    && |t.replies| == |s.replies| + |left| && t.replies[..|s.replies|] == s.replies
    && (forall k :: 0 <= k < |left| ==> Left(s, t, offset, top, left, k))
    && |t.waits| == |stay| && (forall k :: 0 <= k < |stay| ==> t.waits[k] == s.waits[stay[k]])
    && (forall k :: 0 <= k < |stay| ==> Passed(s, t, offset, top, left, stay[k]))
  }

  /** Waiter `left[k]` holds its record and has its reply; nothing held by then stood against it. */
  ghost predicate Left(s: State, t: State, offset: Word, top: Word, left: seq<nat>, k: nat)
    requires k < |left| && left[k] < |s.waits|
    requires |t.held| == |left| + |s.held| && |t.replies| == |s.replies| + |left|
  {
    var w := s.waits[left[k]];
    && t.held[|left| - 1 - k] == w.record && t.replies[|s.replies| + k] == Granted(w.packet)
    && Touched(w.record, offset, top) && !Blocked(t.held[|left| - k..], w.record)
  }

  /** Waiter `x` had no reason to be granted its record when its turn came. */
  ghost predicate Passed(s: State, t: State, offset: Word, top: Word, left: seq<nat>, x: nat)
    requires x < |s.waits| && |t.held| == |left| + |s.held|
  {
    Touched(s.waits[x].record, offset, top) ==>
      exists j :: 0 <= j < |t.held| && Clash(t.held[j], s.waits[x].record) && (j < |left| ==> left[|left| - 1 - j] < x)
  }

  lemma PassedStill(s: State, u: State, s': State, r: Record, u': State, offset: Word, top: Word, left: seq<nat>,
                    x: nat, y: nat)
    requires x < |s.waits| <= |s'.waits| && s'.waits[x] == s.waits[x] && s'.held == s.held
    requires |u.held| == |left| + |s.held| && u'.held == [r] + u.held
    requires Passed(s, u, offset, top, left, x)
    ensures Passed(s', u', offset, top, left + [y], x)
  {
    if Touched(s.waits[x].record, offset, top) {
      var j :| 0 <= j < |u.held| && Clash(u.held[j], s.waits[x].record) && (j < |left| ==> left[|left| - 1 - j] < x);
      assert u'.held[j + 1] == u.held[j];
      assert j < |left| ==> (left + [y])[|left| - 1 - j] == left[|left| - 1 - j];
    }
  }

  lemma LeftStill(s: State, u: State, s': State, r: Record, g: Reply, u': State, offset: Word, top: Word,
                  left: seq<nat>, k: nat, y: nat)
    requires k < |left| && left[k] < |s.waits| <= |s'.waits| && s'.waits[left[k]] == s.waits[left[k]]
    requires s'.held == s.held && s'.replies == s.replies
    requires |u.held| == |left| + |s.held| && u'.held == [r] + u.held
    requires |u.replies| == |s.replies| + |left| && u'.replies == u.replies + [g]
    requires Left(s, u, offset, top, left, k)
    ensures Left(s', u', offset, top, left + [y], k)
  {
    assert u'.held[|left| + 1 - k..] == u.held[|left| - k..];
  }

  /** One more waiter is granted its record. */
  lemma OneLeaves(s: State, u: State, offset: Word, top: Word, left: seq<nat>, stay: seq<nat>, x: nat)
    requires x < |s.waits| && Touched(s.waits[x].record, offset, top) && !Blocked(u.held, s.waits[x].record)
    requires Woken(s.(waits := s.waits[..x]), u, offset, top, left, stay)
    ensures var w := s.waits[x];
            Woken(s.(waits := s.waits[..x + 1]),
                  State([w.record] + u.held, u.waits, u.replies + [Granted(w.packet)]), offset, top, left + [x], stay)
  {
    hide Touched, Clash, Blocked, Parted;
    var w := s.waits[x];
    var s0, s' := s.(waits := s.waits[..x]), s.(waits := s.waits[..x + 1]);
    var u' := State([w.record] + u.held, u.waits, u.replies + [Granted(w.packet)]);
    var left' := left + [x];
    PartedMore(x, left, stay);
    assert u'.held[|left'|..] == s.held;
    assert u'.held[1..] == u.held;
    InPart(x, left, stay);
    forall k | 0 <= k < |left'|
      ensures left'[k] < |s'.waits| && Left(s', u', offset, top, left', k)
    {
      if k < |left| {
        assert Left(s0, u, offset, top, left, k);
        LeftStill(s0, u, s', w.record, Granted(w.packet), u', offset, top, left, k, x);
      }
    }
    forall k | 0 <= k < |stay|
      ensures Passed(s', u', offset, top, left', stay[k])
    {
      assert Passed(s0, u, offset, top, left, stay[k]);
      PassedStill(s0, u, s', w.record, u', offset, top, left, stay[k], x);
    }
  }

  lemma InPart(n: nat, left: seq<nat>, stay: seq<nat>)
    requires Parted(n, left, stay)
    ensures forall a :: 0 <= a < |left| ==> left[a] < n
    ensures forall b :: 0 <= b < |stay| ==> stay[b] < n
  {
  }

  /** One more waiter keeps its place. */
  lemma OneStays(s: State, u: State, offset: Word, top: Word, left: seq<nat>, stay: seq<nat>, x: nat)
    requires x < |s.waits| && !(Touched(s.waits[x].record, offset, top) && !Blocked(u.held, s.waits[x].record))
    requires Woken(s.(waits := s.waits[..x]), u, offset, top, left, stay)
    ensures Woken(s.(waits := s.waits[..x + 1]), u.(waits := u.waits + [s.waits[x]]), offset, top, left, stay + [x])
  {
    hide Touched, Clash, Parted;
    var s0, s', u' := s.(waits := s.waits[..x]), s.(waits := s.waits[..x + 1]), u.(waits := u.waits + [s.waits[x]]);
    PartedMore(x, left, stay);
    InPart(x, left, stay);
    forall k | 0 <= k < |left|
      ensures Left(s', u', offset, top, left, k)
    {
      assert Left(s0, u, offset, top, left, k);
    }
    forall k | 0 <= k < |stay| + 1
      ensures Passed(s', u', offset, top, left, (stay + [x])[k])
    {
      if k < |stay| {
        assert Passed(s0, u, offset, top, left, stay[k]);
      }
    }
  }

  lemma NobodyYet(s: State, offset: Word, top: Word)
    ensures Woken(s.(waits := s.waits[..0]), s.(waits := []), offset, top, [], [])
  {
    assert s.waits[..0] == [];
  }

  /** One turn of rh_Wakeup, for a waiter that follows those that stay. */
  lemma WakeStep(s: State, w: Waiter, rest: seq<Waiter>, offset: Word, top: Word)
    ensures var all := s.(waits := s.waits + [w] + rest);
            Wake(all, |s.waits|, offset, top) ==
            if Touched(w.record, offset, top) && !Blocked(s.held, w.record) then
              Wake(State([w.record] + s.held, s.waits + rest, s.replies + [Granted(w.packet)]), |s.waits|, offset, top)
            else
              Wake(all, |s.waits| + 1, offset, top)
  {
    hide Touched, Blocked;
    var all := s.(waits := s.waits + [w] + rest);
    assert all.waits[|s.waits|] == w;
    assert all.waits[..|s.waits|] + all.waits[|s.waits| + 1..] == s.waits + rest;
  }

  /** rh_Wakeup, told by who leaves the queue and who stays. */
  lemma WakeIs(s: State, offset: Word, top: Word) returns (left: seq<nat>, stay: seq<nat>)
    ensures Woken(s, Wake(s, 0, offset, top), offset, top, left, stay)
  {
    hide Woken, Touched, Blocked, Wake;
    left, stay := [], [];
    var u, x := s.(waits := []), 0;
    NobodyYet(s, offset, top);
    assert u.(waits := u.waits + s.waits[0..]) == s;
    while x < |s.waits|
      invariant 0 <= x <= |s.waits|
      invariant Woken(s.(waits := s.waits[..x]), u, offset, top, left, stay)
      invariant Wake(u.(waits := u.waits + s.waits[x..]), |u.waits|, offset, top) == Wake(s, 0, offset, top)
    {
      var w := s.waits[x];
      WakeStep(u, w, s.waits[x + 1..], offset, top);
      assert u.waits + s.waits[x..] == u.waits + [w] + s.waits[x + 1..];
      if Touched(w.record, offset, top) && !Blocked(u.held, w.record) {
        OneLeaves(s, u, offset, top, left, stay, x);
        u := State([w.record] + u.held, u.waits, u.replies + [Granted(w.packet)]);
        left := left + [x];
      } else {
        OneStays(s, u, offset, top, left, stay, x);
        u := u.(waits := u.waits + [w]);
        stay := stay + [x];
      }
      x := x + 1;
    }
    assert s.(waits := s.waits[..x]) == s && u.(waits := u.waits + s.waits[x..]) == u;
    WakeEnds(u, offset, top);
  }

  lemma WakeEnds(s: State, offset: Word, top: Word)
    ensures Wake(s, |s.waits|, offset, top) == s
  {
  }

  // ---------------------------------------------------------------- no packet is lost

  lemma {:induction false} PacketsAt(waits: seq<Waiter>, i: nat)
    requires i < |waits|
    ensures PacketsOf(waits) == PacketsOf(Without(waits, i)) + multiset{waits[i].packet}
  {
    if i == 0 {
      assert Without(waits, 0) == waits[1..];
    } else {
      PacketsAt(waits[1..], i - 1);
      assert Without(waits, i)[1..] == Without(waits[1..], i - 1);
    }
  }

  lemma {:induction false} AnsweredMore(replies: seq<Reply>, r: Reply)
    ensures Answered(replies + [r]) == Answered(replies) + multiset{r.packet}
  {
    if replies != [] {
      AnsweredMore(replies[1..], r);
      assert (replies + [r])[1..] == replies[1..] + [r];
    }
  }

  lemma GrantKeepsPackets(s: State, i: nat)
    requires i < |s.waits|
    ensures State([s.waits[i].record] + s.held, s.waits[..i] + s.waits[i + 1..],
                  s.replies + [Granted(s.waits[i].packet)]).Packets() == s.Packets()
  {
    PacketsAt(s.waits, i);
    AnsweredMore(s.replies, Granted(s.waits[i].packet));
    hide PacketsOf, Answered;
    assert s.waits[..i] + s.waits[i + 1..] == Without(s.waits, i);
  }

  lemma {:induction false} WakeKeepsPackets(s: State, i: nat, offset: Word, top: Word)
    requires i <= |s.waits|
    ensures Wake(s, i, offset, top).Packets() == s.Packets()
    decreases |s.waits| - i
  {
    hide PacketsOf, Answered, Blocked, Touched;
    if i < |s.waits| {
      var w := s.waits[i];
      if Touched(w.record, offset, top) && !Blocked(s.held, w.record) {
        var t := State([w.record] + s.held, s.waits[..i] + s.waits[i + 1..], s.replies + [Granted(w.packet)]);
        GrantKeepsPackets(s, i);
        WakeKeepsPackets(t, i, offset, top);
      } else {
        WakeKeepsPackets(s, i + 1, offset, top);
      }
    }
  }

  lemma QueueAddsPacket(s: State, w: Waiter)
    ensures s.(waits := s.waits + [w]).Packets() == s.Packets() + multiset{w.packet}
  {
    var more := s.waits + [w];
    PacketsAt(more, |s.waits|);
    assert Without(more, |s.waits|) == s.waits;
  }

  lemma ReleaseKeepsPackets(s: State, lock: RamLock, offset: Word, length: Word)
    ensures Next(s, Release(lock, offset, length)).Packets() == s.Packets()
  {
    var i := FirstHeld(s.held, lock, offset, length);
    if i < |s.held| {
      WakeKeepsPackets(s.(held := Without(s.held, i)), 0, offset, (offset + length) % WORD);
    }
  }

  lemma TimeOutKeepsPackets(s: State, i: nat)
    requires i < |s.waits|
    ensures Next(s, TimeOut(i)).Packets() == s.Packets()
  {
    var w := s.waits[i];
    var less := s.(waits := Without(s.waits, i));
    var woken := Wake(less, 0, w.record.offset, w.record.Top());
    PacketsAt(s.waits, i);
    WakeKeepsPackets(less, 0, w.record.offset, w.record.Top());
    AnsweredMore(woken.replies, TimedOut(w.packet));
    assert Next(s, TimeOut(i)) == woken.(replies := woken.replies + [TimedOut(w.packet)]);
    assert Next(s, TimeOut(i)).Packets() == less.Packets() + multiset{w.packet};
    assert s.Packets() == less.Packets() + multiset{w.packet};
  }

  /** A packet that has to wait is answered once, later; no other packet is lost or answered twice. */
  lemma NextKeepsPackets(s: State, op: Op)
    ensures op.Ask? && Blocked(s.held, op.want) && !op.want.Immediate() ==>
              Next(s, op).Packets() == s.Packets() + multiset{op.packet}
    ensures !(op.Ask? && Blocked(s.held, op.want) && !op.want.Immediate()) ==> Next(s, op).Packets() == s.Packets()
  {
    match op
    case Ask(want, packet) =>
      QueueAddsPacket(s, Waiter(want, packet));
    case Release(lock, offset, length) =>
      ReleaseKeepsPackets(s, lock, offset, length);
    case TimeOut(i) =>
      if i < |s.waits| {
        TimeOutKeepsPackets(s, i);
      }
  }

  // ---------------------------------------------------------------- the code

  /** on_RecordList and on_WaitList of a file, and the packets sent back. `reliable` means that
      every AllocVec succeeds; otherwise each one may fail. */
  class FileRecords {
    var held: seq<Record>
    var waits: seq<Waiter>
    var replies: seq<Reply>
    const reliable: bool

    constructor (reliable: bool)
      ensures View() == State([], [], []) && this.reliable == reliable
    {
      held, waits, replies := [], [], [];
      this.reliable := reliable;
    }

    ghost function View(): State
      reads this`held, this`waits, this`replies
    {
      State(held, waits, replies)
    }

    /** rh_FindRLock: the record is granted unless one of the others forbids it. */
    method FindRLock(want: Record) returns (ok: bool)
      modifies this`held
      ensures held == if ok then [want] + old(held) else old(held)
      ensures ok ==> !Blocked(old(held), want)
      ensures reliable ==> ok == !Blocked(old(held), want)
    {
      var i := 0;
      while i < |held|
        invariant 0 <= i <= |held|
        invariant forall j :: 0 <= j < i ==> !Clash(held[j], want)
      {
        if held[i].lock != want.lock && held[i].offset < want.Top() && held[i].Top() > want.offset {
          if want.mode <= REC_EXCLUSIVE_IMMED || held[i].mode <= REC_EXCLUSIVE_IMMED {
            assert Clash(held[i], want);
            return false;
          }
        }
        i := i + 1;
      }
      var alloc: bool :| reliable ==> alloc;  // AllocVec
      if !alloc {
        return false;
      }
      held := [want] + held;
      return true;
    }

    /** rh_LockRecord and rh_RLockWaitAdd. */
    method LockRecord(gd: GlobalData, want: Record, packet: nat) returns (ok: bool)
      modifies this, gd`fileErr
      ensures reliable ==> View() == Next(old(View()), Ask(want, packet))
      ensures reliable ==> ok == !(Blocked(old(held), want) && want.Immediate())
      ensures AllInRange(old(held)) && Safe(old(held)) && want.InRange() ==> AllInRange(held) && Safe(held)
      ensures !ok && reliable ==> gd.fileErr == LockCollision
      ensures replies == old(replies)
      // by cases: granted, refused or queued
      ensures reliable && !Blocked(old(held), want) ==> ok && held == [want] + old(held) && waits == old(waits)
      ensures reliable && Blocked(old(held), want) && want.mode % 2 == 1 ==>
                !ok && held == old(held) && waits == old(waits)
      ensures reliable && Blocked(old(held), want) && want.mode % 2 == 0 ==>
                ok && held == old(held) && waits == old(waits) + [Waiter(want, packet)]
    {
      ghost var before := held;
      ok := FindRLock(want);
      if ok {
        if AllInRange(before) && Safe(before) && want.InRange() {
          GrantKeepsSafe(before, want);
        }
        return true;
      }
      if want.mode % 2 == 1 {
        gd.fileErr := LockCollision;
        return false;
      }
      var alloc: bool :| reliable ==> alloc;  // AllocVec
      if !alloc {
        return false;
      }
      waits := waits + [Waiter(want, packet)];
      return true;
    }

    /** rh_Wakeup */
    method Wakeup(offset: Word, top: Word) returns (ghost left: seq<nat>, ghost stay: seq<nat>)
      modifies this
      ensures reliable ==> View() == Wake(old(View()), 0, offset, top)
      ensures reliable ==> Woken(old(View()), View(), offset, top, left, stay)
      ensures WaitsInRange(old(waits)) && AllInRange(old(held)) && Safe(old(held)) ==>
                WaitsInRange(waits) && AllInRange(held) && Safe(held)
    {
      hide Safe, Blocked, Clash, Woken;
      ghost var end := Wake(View(), 0, offset, top);
      left, stay := WakeIs(View(), offset, top);
      ghost var safe := WaitsInRange(waits) && AllInRange(held) && Safe(held);
      var i := 0;
      while i < |waits|
        invariant 0 <= i <= |waits|
        invariant reliable ==> Wake(View(), i, offset, top) == end
        invariant safe ==> WaitsInRange(waits) && AllInRange(held) && Safe(held)
        decreases |waits| - i
      {
        var w := waits[i];
        var granted := false;
        if w.record.offset < top && w.record.Top() > offset {
          ghost var before := held;
          granted := FindRLock(w.record);
          if granted && safe {
            GrantKeepsSafe(before, w.record);
          }
        }
        if granted {
          waits := Without(waits, i);
          replies := replies + [Granted(w.packet)];
        } else {
          i := i + 1;
        }
      }
    }

    /** rh_Unlockrecord: the first record with exactly this range goes. */
    method UnlockRecord(gd: GlobalData, lock: RamLock, offset: Word, length: Word)
      returns (ok: bool, ghost left: seq<nat>, ghost stay: seq<nat>)
      modifies this, gd`fileErr
      ensures reliable ==> View() == Next(old(View()), Release(lock, offset, length))
      ensures ok <==> FirstHeld(old(held), lock, offset, length) < |old(held)|
      ensures ok <==> exists r :: r in old(held) && r.lock == lock && r.offset == offset && r.length == length
      ensures ok && reliable ==>
                var less := Without(old(held), FirstHeld(old(held), lock, offset, length));
                Woken(State(less, old(waits), old(replies)), View(), offset, (offset + length) % WORD, left, stay)
      ensures !ok ==> gd.fileErr == RecordNotLocked && View() == old(View())
      ensures WaitsInRange(old(waits)) && AllInRange(old(held)) && Safe(old(held)) ==>
                WaitsInRange(waits) && AllInRange(held) && Safe(held)
    {
      var i := 0;
      while i < |held|
        invariant 0 <= i <= |held| && View() == old(View())
        invariant FirstHeld(held, lock, offset, length) >= i
      {
        FirstHeldAt(held, lock, offset, length, i);
        if held[i].lock == lock && held[i].offset == offset && held[i].length == length {
          held := Without(held, i);
          SafeLess(old(held), i);
          left, stay := Wakeup(offset, (offset + length) % WORD);
          return true, left, stay;
        }
        i := i + 1;
      }
      gd.fileErr := RecordNotLocked;
      return false, [], [];
    }

    /** rh_KillRWait, for the waiter whose timer expired. */
    method KillRWait(i: nat) returns (ghost left: seq<nat>, ghost stay: seq<nat>)
      requires i < |waits|
      modifies this
      ensures replies != [] && replies[|replies| - 1] == TimedOut(old(waits[i].packet))
      ensures reliable ==>
                var r := old(waits[i].record);
                Woken(State(old(held), Without(old(waits), i), old(replies)),
                      View().(replies := replies[..|replies| - 1]), r.offset, (r.offset + r.length) % WORD, left, stay)
      ensures reliable ==> View() == Next(old(View()), TimeOut(i))
      ensures WaitsInRange(old(waits)) && AllInRange(old(held)) && Safe(old(held)) ==>
                WaitsInRange(waits) && AllInRange(held) && Safe(held)
    {
      var w := waits[i];
      waits := Without(waits, i);
      left, stay := Wakeup(w.record.offset, w.record.Top());
      replies := replies + [TimedOut(w.packet)];
    }
  }

  lemma {:induction false} FirstHeldAt(held: seq<Record>, lock: RamLock, offset: Word, length: Word, i: nat)
    requires i < |held| && FirstHeld(held, lock, offset, length) >= i
    ensures FirstHeld(held, lock, offset, length) == i <==>
              held[i].lock == lock && held[i].offset == offset && held[i].length == length
  {
    if i > 0 {
      FirstHeldAt(held[1..], lock, offset, length, i - 1);
    }
  }
}
