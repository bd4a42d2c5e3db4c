/** The serial device: ring buffers between the commands and the interrupt handler. A method is a
    section between Disable and Restore, an interrupt, or a command made of such sections; what
    happens when sections of several commands interleave is what the runs of SerialRuns say. */
module SerialDevice {
  import opened Lists
  import opened Machine
  import opened SerialAnswers
  import opened SerialCalls
  import opened SerialQueue
  import opened SerialRuns
  import H = SerialHistory

  // ---------------------------------------------------------------- rings

  /** The bytes in a ring buffer, oldest first. */
  function Ring(a: seq<byte>, start: nat, count: nat): (r: seq<byte>)
    requires |a| == UART_BUFLEN
    ensures |r| == count
  {
    seq(count, k requires 0 <= k < count => a[(start + k) % UART_BUFLEN])
  }

  lemma RingPush(a: seq<byte>, start: nat, count: nat, c: byte)
    requires |a| == UART_BUFLEN && count < UART_BUFLEN
    ensures Ring(a[(start + count) % UART_BUFLEN := c], start, count + 1) == Ring(a, start, count) + [c]
  {
    var b := a[(start + count) % UART_BUFLEN := c];
    forall k | 0 <= k < count
      ensures Ring(b, start, count + 1)[k] == Ring(a, start, count)[k]
    {
      assert (start + k) % UART_BUFLEN != (start + count) % UART_BUFLEN;
    }
  }

  lemma RingPop(a: seq<byte>, start: nat, count: nat)
    requires |a| == UART_BUFLEN && 0 < count && start < UART_BUFLEN
    ensures Ring(a, start, count) == [a[start]] + Ring(a, (start + 1) % UART_BUFLEN, count - 1)
  {
    var s := (start + 1) % UART_BUFLEN;
    forall k | 0 < k < count
      ensures Ring(a, start, count)[k] == Ring(a, s, count - 1)[k - 1]
    {
      assert (s + (k - 1)) % UART_BUFLEN == (start + k) % UART_BUFLEN;
    }
  }

  lemma NothingPushed(s: State)
    ensures Pushed(s, []) == s
  {
    assert s.out + [] == s.out;
  }

  lemma PushedMore(s: State, bytes: seq<byte>, c: byte)
    ensures Pushed(Pushed(s, bytes), [c]) == Pushed(s, bytes + [c])
  {
    assert s.out + bytes + [c] == s.out + (bytes + [c]);
    if bytes == [] {
      assert [] + [c] == [c] && s.out + [] == s.out;
    } else {
      assert (bytes + [c])[1..] == bytes[1..] + [c];
      assert s.out + bytes[1..] + [c] == s.out + (bytes[1..] + [c]);
    }
  }

  lemma RoomPushed(s: State, c: byte)
    requires |s.out| <= UART_BUFLEN && (s.idle || |s.out| < UART_BUFLEN)
    ensures Room(Pushed(s, [c])) == Room(s) - 1
  {
  }

  lemma ReadAllFirst(s: State, nodes: seq<nat>, i: nat)
    requires i < |nodes|
    ensures ReadAll(s, nodes[i..]) == ReadAll(ReadWhole(s, nodes[i]), nodes[i + 1..])
  {
    assert nodes[i..][1..] == nodes[i + 1..];
  }

  lemma WriteAllFirst(s: State, nodes: seq<nat>, i: nat)
    requires i < |nodes|
    ensures WriteAll(s, nodes[i..]) == WriteAll(WriteWhole(s, nodes[i]), nodes[i + 1..])
  {
    assert nodes[i..][1..] == nodes[i + 1..];
  }

  lemma AbortAllFirst(s: State, nodes: seq<nat>, i: nat)
    requires i < |nodes|
    ensures AbortAll(s, nodes[i..]) == AbortAll(EndedBy(s, nodes[i], Aborted), nodes[i + 1..])
  {
    assert nodes[i..][1..] == nodes[i + 1..];
  }

  lemma NothingLeft(s: State)
    ensures ReadAll(s, []) == WriteAll(s, []) == AbortAll(s, []) == s
  {
  }

  /** What the loops below do not change. */
  lemma SameQueue(s: State, bytes: seq<byte>)
    ensures Stored(s, bytes).q == s.q && Sent(s).q == s.q
  {
  }

  lemma SameKeys(s: State, id: nat, error: Error)
    ensures EndedBy(s, id, error).q.reqs.Keys == s.q.reqs.Keys
  {
  }

  lemma NothingStored(s: State)
    ensures Stored(s, []) == s
  {
    assert s.ring + [] == s.ring && s.accepted + [] == s.accepted;
  }

  lemma StoredMore(s: State, bytes: seq<byte>, c: byte)
    ensures Stored(Stored(s, bytes), [c]) == Stored(s, bytes + [c])
  {
    var n := Min(|bytes|, Space(s));
    if |bytes| < Space(s) {
      assert [c][..1] == [c] && bytes[..n] == bytes && (bytes + [c])[..n + 1] == bytes + [c];
      assert s.ring + bytes + [c] == s.ring + (bytes + [c]) && s.accepted + bytes + [c] == s.accepted + (bytes + [c]);
    } else {
      assert [c][..0] == [] && bytes[..n] == (bytes + [c])[..n];
      assert s.ring + bytes[..n] + [] == s.ring + bytes[..n];
      assert s.accepted + bytes[..n] + [] == s.accepted + bytes[..n];
    }
  }

  lemma DoneIsReplied(s: State, id: nat)
    requires Inv(s) && id in s.q.reqs && s.q.reqs[id].done
    ensures s.q.reqs[id].replies == if s.q.reqs[id].quick then 0 else 1
  {
    RepliesAre(s.q, id);
  }

  /** struct SerUnit, with the memory of the requests and ghost histories. */
  class SerUnit {
    const suIn: array<byte>
    const suOut: array<byte>
    var istart: nat
    var icount: nat
    var ostart: nat
    var ocount: nat
    var oidle: bool
    var isStopped: bool
    var overruns: nat
    var reqs: map<nat, Request>
    var input: seq<nat>
    var output: seq<nat>
    ghost var accepted: seq<byte>  // bytes taken from the UART that CMD_CLEAR did not drop
    ghost var sent: seq<byte>      // bytes given to the UART
    ghost var taken: H.History     // what reads took from the input ring
    ghost var given: H.History     // what writes put into the output ring or the UART

    constructor ()
      ensures Valid() && fresh(suIn) && fresh(suOut) && View() == START && Inv(View())
    {
      suIn := new byte[UART_BUFLEN];
      suOut := new byte[UART_BUFLEN];
      istart, icount, ostart, ocount, oidle, isStopped, overruns := 0, 0, 0, 0, true, false, 0;
      reqs, input, output := map[], [], [];
      accepted, sent, taken, given := [], [], H.NOTHING, H.NOTHING;
      new;
      StartOk();
    }

    ghost predicate Valid()
      reads this`istart, this`icount, this`ostart, this`ocount
    {
      && suIn.Length == UART_BUFLEN && suOut.Length == UART_BUFLEN && suIn != suOut
      && istart < UART_BUFLEN && icount <= UART_BUFLEN && ostart < UART_BUFLEN && ocount <= UART_BUFLEN
    }

    ghost function InRing(): seq<byte>
      requires Valid()
      reads this`istart, this`icount, this`ostart, this`ocount, suIn
    {
      Ring(suIn[..], istart, icount)
    }

    ghost function OutRing(): seq<byte>
      requires Valid()
      reads this`istart, this`icount, this`ostart, this`ocount, suOut
    {
      Ring(suOut[..], ostart, ocount)
    }

    ghost function Qs(): Queues
      reads this`reqs, this`input, this`output
    {
      Queues(reqs, input, output)
    }

    /** The state of the device in a run. */
    ghost function View(): State
      requires Valid()
      reads this, suIn, suOut
    {
      State(Qs(), InRing(), OutRing(), oidle, isStopped, overruns, accepted, sent, taken, given)
    }

    // -------------------------------------------------------------- devicehelper.h

    /** EndCommandQueue */
    method EndCommandQueue(error: Error, id: nat)
      requires Valid() && id in reqs
      modifies this`reqs, this`input, this`output
      ensures Valid() && View() == EndedBy(old(View()), id, error)
      ensures id in reqs && reqs[id].done
      ensures old(reqs[id].done) ==> Qs() == old(Qs())
      ensures !old(reqs[id].done) ==>
                && reqs[id].error == error
                && reqs[id].replies == old(reqs[id].replies) + if old(reqs[id].quick) then 0 else 1
    {
      hide Ring, InRing, OutRing, End;
      EndReplies(Qs(), error, id);
      EndInQueues(error, id);
    }

    method EndInQueues(error: Error, id: nat)
      requires id in reqs
      modifies this`reqs, this`input, this`output
      ensures Qs() == End(old(Qs()), error, id)
    {
      hide Finished, Promoted, Removed;
      var r := reqs[id];
      if r.done {
        return;
      }
      Reply(id, error);
      if !r.current && !r.queued {
        return;
      }
      if r.command == CMD_READ {
        input := Remove(input, id);
        MakeCurrent(input);
      } else {
        output := Remove(output, id);
        MakeCurrent(output);
      }
    }

    /** Sets IOF_DONE and the error, and counts the ReplyMsg that every way out of
        EndCommandQueue ends with, unless the request is still quick. */
    method Reply(id: nat, error: Error)
      requires id in reqs
      modifies this`reqs
      ensures reqs == old(reqs)[id := Finished(old(reqs)[id], error)]
    {
      var r := reqs[id];
      reqs := reqs[id := r.(done := true, error := error, replies := if r.quick then r.replies else r.replies + 1)];
    }

    /** The head of a queue becomes the current request. */
    method MakeCurrent(q: seq<nat>)
      modifies this`reqs
      ensures reqs == Promoted(old(reqs), q)
    {
      if q != [] && q[0] in reqs {
        reqs := reqs[q[0] := reqs[q[0]].(current := true)];
      }
    }

    /** QueueCommandQueue */
    method QueueCommandQueue(id: nat)
      requires id in reqs && reqs[id].error == NoError && Queueing(reqs[id]) && !InQueue(Qs(), id)
      modifies this`reqs, this`input, this`output
      ensures Qs() == Enqueue(old(Qs()), id)
    {
      var r: Request := reqs[id];
      if r.command == CMD_READ {
        input := input + [id];
        r := r.(current := input[0] == id, queued := input[0] != id);
      } else {
        output := output + [id];
        r := r.(current := output[0] == id, queued := output[0] != id);
      }
      reqs := reqs[id := r];
    }

    // -------------------------------------------------------------- CMD_READ

    /** The oldest byte of the input ring. */
    method TakeByte() returns (c: byte)
      requires Valid() && icount > 0
      modifies this`istart, this`icount
      ensures Valid() && old(InRing()) == [c] + InRing()
    {
      RingPop(suIn[..], istart, icount);
      c := suIn[istart];
      icount := icount - 1;
      istart := (istart + 1) % UART_BUFLEN;
    }

    lemma RingLength()
      requires Valid()
      ensures |InRing()| == icount && |OutRing()| == ocount
    {
    }

    /** The loop of Read: the oldest bytes of the ring go to the buffer. */
    method TakeBytes(len: nat) returns (data: seq<byte>)
      requires Valid() && len <= icount
      modifies this`istart, this`icount
      ensures Valid() && data == old(InRing())[..len] && InRing() == old(InRing())[len..]
    {
      hide Ring, InRing;
      data := [];
      var count := 0;
      ghost var all := InRing();
      RingLength();
      while count < len
        invariant 0 <= count <= len && |data| == count && Valid() && |InRing()| == icount
        invariant all == data + InRing() && len <= |all|
      {
        var c := TakeByte();
        data := data + [c];
        count := count + 1;
        RingLength();
        assert all == data + InRing();
      }
    }

    /** The section of Read: IOF_SERVICING keeps a second call away from a request that took its bytes. */
    method ReadSection(id: nat) returns (served: bool)
      requires Valid() && id in reqs && reqs[id].command == CMD_READ
      modifies this`reqs, this`istart, this`icount, this`taken
      ensures Valid() && View() == Taken(old(View()), id) && served == CanTake(old(View()), id)
    {
      RingLength();
      hide Ring, InRing, OutRing;
      var r := reqs[id];
      if r.servicing {
        return false;
      }
      if icount == 0 || r.length > icount {
        reqs := reqs[id := r.(servicing := false, quick := false)];
        return false;
      }
      var data := TakeBytes(r.length);
      taken := H.Took(taken, id, r.round, data);
      reqs := reqs[id := r.(servicing := true, data := data + r.data[r.length..])];
      return true;
    }

    /** What Read and Write do after their section. */
    method EndServedRead(id: nat, count: nat)
      requires Valid() && id in reqs && id in taken.open && count == |Bytes(taken, id)|
      modifies this`reqs, this`input, this`output, this`taken
      ensures Valid() && View() == Served(old(View()), id)
    {
      taken := H.Closed(taken, id, !reqs[id].done);
      reqs := reqs[id := reqs[id].(actual := count)];
      EndCommandQueue(NoError, id);
    }

    /** Read */
    method Read(id: nat)
      requires Valid() && id in reqs && reqs[id].command == CMD_READ
      modifies this`reqs, this`input, this`output, this`istart, this`icount, this`taken
      ensures Valid() && View() == ReadWhole(old(View()), id)
    {
      var served := ReadSection(id);
      if served {
        EndServedRead(id, reqs[id].length);
      }
    }

    // -------------------------------------------------------------- CMD_WRITE

    /** The loop body of Write. */
    method PutByte(ch: byte)
      requires Valid() && (oidle || ocount < UART_BUFLEN)
      modifies this`oidle, this`ocount, this`sent, suOut
      ensures Valid() && View() == Pushed(old(View()), [ch])
      ensures ocount == if old(oidle) then old(ocount) else old(ocount) + 1
    {
      if oidle {
        sent := sent + [ch];  // _HWPutC
        oidle := false;
        assert OutRing() == old(OutRing()) + [];
        return;
      }
      RingPush(suOut[..], ostart, ocount, ch);
      ghost var a := suOut[..];
      suOut[(ostart + ocount) % UART_BUFLEN] := ch;
      assert suOut[..] == a[(ostart + ocount) % UART_BUFLEN := ch];
      ocount := ocount + 1;
    }
  
    /** The loop of Write: as many bytes as there is room for. */
    method PutBytes(data: seq<byte>, len: nat) returns (count: nat)
      requires Valid() && len <= |data|
      modifies this`oidle, this`ocount, this`sent, suOut
      ensures Valid() && count == Min(len, Room(old(View()))) && View() == Pushed(old(View()), data[..count])
    {
      hide Pushed, View;
      count := 0;
      ghost var s := View();
      NothingPushed(s);
      while count < len
        invariant 0 <= count <= len && Valid() && View() == Pushed(s, data[..count])
        invariant Room(View()) == Room(s) - count
      {
        RoomIs();
        if !oidle && ocount == UART_BUFLEN {
          break;
        }
        PushedMore(s, data[..count], data[count]);
        RoomPushed(View(), data[count]);
        assert data[..count + 1] == data[..count] + [data[count]];
        PutByte(data[count]);
        count := count + 1;
      }
      RoomIs();
    }

    lemma RoomIs()
      requires Valid()
      ensures Room(View()) == UART_BUFLEN - ocount + if oidle then 1 else 0
      ensures |View().out| == ocount && View().idle == oidle
    {
    }

    /** The section of Write. */
    method WriteSection(id: nat) returns (served: bool, count: nat)
      requires Valid() && id in reqs && reqs[id].command == CMD_WRITE
      modifies this`reqs, this`oidle, this`ocount, this`sent, this`given, suOut
      ensures Valid() && View() == Put(old(View()), id) && served == CanPut(old(View()), id)
      ensures served ==> id in given.open && count == |Bytes(given, id)|
    {
      hide Pushed, Ring;
      var r := reqs[id];
      if r.servicing {
        return false, 0;
      }
      if ocount == UART_BUFLEN {
        reqs := reqs[id := r.(servicing := false, quick := false)];
        return false, 0;
      }
      count := PutBytes(r.data, r.length);
      given := H.Took(given, id, r.round, r.data[..count]);
      reqs := reqs[id := r.(servicing := true)];
      served := true;
    }

    method EndServedWrite(id: nat, count: nat)
      requires Valid() && id in reqs && id !in taken.open && id in given.open && count == |Bytes(given, id)|
      modifies this`reqs, this`input, this`output, this`given
      ensures Valid() && View() == Served(old(View()), id)
    {
      given := H.Closed(given, id, !reqs[id].done);
      reqs := reqs[id := reqs[id].(actual := count)];
      EndCommandQueue(NoError, id);
    }

    /** Write */
    method Write(id: nat)
      requires Valid() && id in reqs && reqs[id].command == CMD_WRITE && id !in taken.open
      modifies this`reqs, this`input, this`output, this`oidle, this`ocount, this`sent, this`given, suOut
      ensures Valid() && View() == WriteWhole(old(View()), id)
    {
      var served, count := WriteSection(id);
      if served {
        EndServedWrite(id, count);
      }
    }

    // -------------------------------------------------------------- serial_handler

    /** process_messages(CMD_READ): every waiting read is tried, in the order of the queue. */
    method ProcessReads()
      requires Valid() && Inv(View())
      modifies this`reqs, this`input, this`output, this`istart, this`icount, this`taken
      ensures Valid() && View() == ReadAll(old(View()), old(input)) && Inv(View())
    {
      hide Inv, ReadWhole, ReadAll, Ring, InRing, OutRing;
      var nodes := input;
      ghost var s := View();
      var i := 0;
      QueueKinds(s);
      while i < |nodes|
        invariant 0 <= i <= |nodes| && Valid() && Inv(View()) && AllOfKind(nodes, View().q, CMD_READ)
        invariant ReadAll(View(), nodes[i..]) == ReadAll(s, nodes)
      {
        ghost var t := View();
        ReadAllFirst(t, nodes, i);
        ReadWholeKeeps(t, nodes[i]);
        ReadKinds(t, nodes[i], nodes, CMD_READ);
        Read(nodes[i]);
        i := i + 1;
      }
      assert nodes[i..] == [];
      NothingLeft(View());
    }

    /** process_messages(CMD_WRITE) */
    method ProcessWrites()
      requires Valid() && Inv(View())
      modifies this`reqs, this`input, this`output, this`oidle, this`ocount, this`sent, this`given, suOut
      ensures Valid() && View() == WriteAll(old(View()), old(output)) && Inv(View())
    {
      hide Inv, WriteWhole, WriteAll, Ring, InRing, OutRing;
      var nodes := output;
      ghost var s := View();
      var i := 0;
      QueueKinds(s);
      while i < |nodes|
        invariant 0 <= i <= |nodes| && Valid() && Inv(View()) && AllOfKind(nodes, View().q, CMD_WRITE)
        invariant WriteAll(View(), nodes[i..]) == WriteAll(s, nodes)
      {
        ghost var t := View();
        WriteAllFirst(t, nodes, i);
        WriteWholeKeeps(t, nodes[i]);
        WriteKinds(t, nodes[i], nodes, CMD_WRITE);
        WriteIsNotTaken(t, nodes[i]);
        Write(nodes[i]);
        i := i + 1;
      }
      assert nodes[i..] == [];
      NothingLeft(View());
    }

    /** A byte from the UART: into the ring, or lost when the ring is full. */
    method StoreByte(c: byte)
      requires Valid()
      modifies this`icount, this`accepted, this`overruns, suIn
      ensures Valid() && View() == Stored(old(View()), [c])
    {
      if icount >= UART_BUFLEN {
        overruns := overruns + 1;
        assert View() == Stored(old(View()), [c]) by {
          assert [c][..0] == [];
        }
        return;
      }
      RingPush(suIn[..], istart, icount, c);
      ghost var a := suIn[..];
      suIn[(istart + icount) % UART_BUFLEN] := c;
      assert suIn[..] == a[(istart + icount) % UART_BUFLEN := c];
      icount := icount + 1;
      accepted := accepted + [c];
      assert [c][..1] == [c];
    }

    /** The receive loop of the handler. */
    method StoreBytes(bytes: seq<byte>)
      requires Valid()
      modifies this`icount, this`accepted, this`overruns, suIn
      ensures Valid() && View() == Stored(old(View()), bytes)
    {
      hide Stored, View;
      ghost var s := View();
      var i := 0;
      NothingStored(s);
      while i < |bytes|
        invariant 0 <= i <= |bytes| && Valid() && View() == Stored(s, bytes[..i])
      {
        StoredMore(s, bytes[..i], bytes[i]);
        assert bytes[..i + 1] == bytes[..i] + [bytes[i]];
        StoreByte(bytes[i]);
        i := i + 1;
      }
      assert bytes[..i] == bytes;
    }

    /** The interrupt for received data: `bytes` are what the UART holds. */
    method ReceiveInterrupt(bytes: seq<byte>)
      requires Valid() && Inv(View())
      modifies this`reqs, this`input, this`output, this`istart, this`icount, this`taken
      modifies this`accepted, this`overruns, suIn
      ensures Valid() && View() == Received(old(View()), bytes) && Inv(View())
    {
      hide Inv, Stored, ReadAll;
      StoredKeepsInv(View(), bytes);
      SameQueue(View(), bytes);
      StoreBytes(bytes);
      ProcessReads();
    }

    /** One byte of the ring goes to the UART. */
    method SendByte()
      requires Valid() && ocount > 0
      modifies this`ostart, this`ocount, this`sent
      ensures Valid() && ocount == old(ocount) - 1 && |old(OutRing())| > 0
      ensures View() == old(View()).(sent := old(sent) + [old(OutRing())[0]], out := old(OutRing())[1..])
    {
      RingPop(suOut[..], ostart, ocount);
      ocount := ocount - 1;
      sent := sent + [suOut[ostart]];
      ostart := (ostart + 1) % UART_BUFLEN;
    }

    /** The transmit loop of the handler: at most as many bytes as the FIFO holds. */
    method SendBytes()
      requires Valid() && ocount > 0
      modifies this`ostart, this`ocount, this`sent
      ensures Valid() && View() == Sent(old(View()))
    {
      hide Ring, InRing, OutRing;
      ghost var s := View();
      RingLength();
      SendByte();
      RingLength();
      var count := 1;
      while count < UART_FIFO_LEN && ocount > 0
        invariant 1 <= count <= UART_FIFO_LEN && Valid() && count <= |s.out| && ocount == |s.out| - count
        invariant View() == s.(sent := s.sent + s.out[..count], out := s.out[count..])
      {
        assert s.out[..count + 1] == s.out[..count] + [s.out[count..][0]] && s.out[count..][1..] == s.out[count + 1..];
        SendByte();
        RingLength();
        count := count + 1;
      }
    }

    /** The interrupt for an empty transmitter. */
    method TransmitInterrupt()
      requires Valid() && Inv(View())
      modifies this`reqs, this`input, this`output, this`ostart, this`oidle, this`ocount, this`sent, this`given, suOut
      ensures Valid() && View() == Transmitted(old(View())) && Inv(View())
    {
      TransmittedKeepsInv(View());
      RingLength();
      hide Inv, Sent, WriteAll, Ring, InRing, OutRing;
      if ocount == 0 {
        oidle := true;
        return;
      }
      SentKeepsInv(View());
      SameQueue(View(), []);
      SendBytes();
      ProcessWrites();
    }

    // -------------------------------------------------------------- the quick commands

    /** The section of Clear. */
    method ClearSection()
      requires Valid()
      modifies this`istart, this`icount, this`accepted
      ensures Valid() && View() == Cleared(old(View()))
    {
      hide Ring, Inv;
      accepted := if icount <= |accepted| then accepted[..|accepted| - icount] else [];
      icount, istart := 0, 0;
    }

    /** The loops of Flush: every request of a queue is aborted. */
    method AbortQueue(nodes: seq<nat>)
      requires Valid() && forall x :: x in nodes ==> x in reqs
      modifies this`reqs, this`input, this`output
      ensures Valid() && View() == AbortAll(old(View()), nodes)
    {
      hide EndedBy, AbortAll, Ring, InRing, OutRing;
      ghost var s := View();
      var i := 0;
      while i < |nodes|
        invariant 0 <= i <= |nodes| && Valid() && AbortAll(View(), nodes[i..]) == AbortAll(s, nodes)
        invariant reqs.Keys == old(reqs.Keys)
      {
        AbortAllFirst(View(), nodes, i);
        SameKeys(View(), nodes[i], Aborted);
        EndCommandQueue(Aborted, nodes[i]);
        i := i + 1;
      }
      assert nodes[i..] == [];
      NothingLeft(View());
    }

    /** What Flush does before it ends its own request. */
    method FlushQueues()
      requires Valid() && Inv(View())
      modifies this`reqs, this`input, this`output
      ensures Valid() && View() == Flushed(old(View())) && Inv(View())
    {
      ghost var s := View();
      QueueKinds(s);
      AbortReads(s);
      hide Inv, AbortAll, Ring, InRing, OutRing;
      AbortQueue(input);
      QueueKinds(View());
      AbortWrites(View());
      AbortQueue(output);
    }

    /** What Start does with the queues. */
    method RetryHead()
      requires Valid() && Inv(View())
      modifies this`reqs, this`input, this`output, this`istart, this`icount, this`taken
      modifies this`oidle, this`ocount, this`sent, this`given, suOut
      ensures Valid() && View() == Retried(old(View())) && Inv(View())
    {
      QueueKinds(View());
      RetriedKeeps(View());
      hide Inv, ReadWhole, WriteWhole, Ring, InRing, OutRing;
      if input != [] {
        Read(input[0]);
        return;
      }
      if output != [] {
        WriteIsNotTaken(View(), output[0]);
        Write(output[0]);
      }
    }
  
    /** Stop */
    method Stop(id: nat)
      requires Valid() && Inv(View()) && id in reqs && !Queueing(reqs[id])
      modifies this`reqs, this`input, this`output, this`isStopped
      ensures Valid() && View() == Stopped(old(View()), id) && Inv(View())
      ensures id in reqs && !Queueing(reqs[id]) && input == old(input) && output == old(output)
    {
      ghost var s := View();
      assert Inv(s.(stopped := true));
      hide Inv, EndedBy, Ring, InRing, OutRing;
      QuickEnds(s.(stopped := true), id, NoError);
      AnswerStays(s.q, Stopped(s, id).q, id);
      isStopped := true;
      EndCommandQueue(NoError, id);
    }

    /** Flush: whatever waits ends as aborted, and no byte is moved. */
    method Flush(id: nat)
      requires Valid() && Inv(View()) && id in reqs && !Queueing(reqs[id])
      modifies this`reqs, this`input, this`output
      ensures Valid() && View() == EndedBy(Flushed(old(View())), id, NoError) && Inv(View())
      ensures id in reqs && !Queueing(reqs[id]) && input == output == []
      ensures AllAborted(old(input), Qs()) && AllAborted(old(output), Qs())
    {
      hide Inv, EndedBy, Flushed, AllAborted, AnswersStay, Ring, InRing, OutRing;
      ghost var s := View();
      FlushedIs(s);
      AnswerStays(s.q, Flushed(s).q, id);
      FlushQueues();
      ghost var u := View();
      QuickEnds(u, id, NoError);
      AnswerStays(u.q, EndedBy(u, id, NoError).q, id);
      AllAbortedStay(s.q.input, u.q, EndedBy(u, id, NoError).q);
      AllAbortedStay(s.q.output, u.q, EndedBy(u, id, NoError).q);
      EndCommandQueue(NoError, id);
    }

    /** Start: the head of the input queue is tried again, or that of the output queue. */
    method Start(id: nat)
      requires Valid() && Inv(View()) && id in reqs && !Queueing(reqs[id])
      modifies this`reqs, this`input, this`output, this`isStopped, this`istart, this`icount, this`taken
      modifies this`oidle, this`ocount, this`sent, this`given, suOut
      ensures Valid() && View() == Started(old(View()), id) && Inv(View())
    {
      StartedKeeps(View(), id);
      hide Inv, EndedBy, Retried, Ring, InRing, OutRing, Queueing;
      isStopped := false;
      RetryHead();
      EndCommandQueue(NoError, id);
    }

    /** Reset */
    method Reset(id: nat)
      requires Valid() && Inv(View()) && id in reqs && !Queueing(reqs[id])
      modifies this`reqs, this`input, this`output, this`isStopped, this`istart, this`icount, this`taken
      modifies this`oidle, this`ocount, this`sent, this`given, suOut
      ensures Valid() && View() == SerialCalls.Reset(old(View()), id) && Inv(View())
    {
      hide Inv, Stopped, Flushed, Started, EndedBy;
      Stop(id);
      Flush(id);
      Start(id);
    }

    /** Clear: the input ring is emptied. */
    method Clear(id: nat)
      requires Valid() && Inv(View()) && id in reqs && !Queueing(reqs[id])
      modifies this`reqs, this`input, this`output, this`istart, this`icount, this`accepted
      ensures Valid() && View() == EndedBy(Cleared(old(View())), id, NoError) && Inv(View())
    {
      ClearedKeepsInv(View());
      QuickEnds(Cleared(View()), id, NoError);
      hide Inv, Cleared, EndedBy;
      ClearSection();
      EndCommandQueue(NoError, id);
    }

    // -------------------------------------------------------------- BeginIO, AbortIO

    /** ser_AbortIO: the request ends in no queue, and once it is done nothing more happens to it. */
    method AbortIO(id: nat)
      requires Valid() && Inv(View()) && id in reqs
      modifies this`reqs, this`input, this`output
      ensures Valid() && View() == EndedBy(old(View()), id, Aborted) && Inv(View())
      ensures id in reqs && reqs[id].done && AnswersStay(old(Qs()), Qs(), {})
      ensures input == Removed(old(input), id) && output == Removed(old(output), id)
      ensures !old(reqs[id].done) ==> reqs[id].error == Aborted
      ensures old(reqs[id].done) ==> reqs == old(reqs)
      ensures reqs[id].replies == if reqs[id].quick then 0 else 1
    {
      EndedByKeeps(View(), id, Aborted);
      DoneIsReplied(EndedBy(View(), id, Aborted), id);
      hide Inv, AnswersStay, Ring, InRing, OutRing;
      EndCommandQueue(Aborted, id);
    }

    /** The start of ser_BeginIO: the flags of the request are cleared. */
    method Arrive(id: nat, r: Request)
      modifies this`reqs
      ensures Qs() == With(old(Qs()), id, Fresh(old(Qs()), id, r))
    {
      var round := if id in reqs then reqs[id].round + 1 else 0;
      var quick := r.quick && r.command != CMD_READ && r.command != CMD_WRITE;
      reqs := reqs[id := r.(queued := false, current := false, servicing := false, done := false, error := NoError,
                            replies := 0, quick := quick, round := round)];
    }

    /** The first section: after that a read or a write joins its queue. */
    method BeginSection(id: nat, r: Request)
      requires Valid() && Ok(Qs()) && (id in reqs ==> reqs[id].done)
      modifies this`reqs, this`input, this`output
      ensures Valid() && View() == Begun(old(View()), id, r)
    {
      NotQueued(Qs(), id);
      hide Ok, Ring, InRing, OutRing, Enqueue;
      Arrive(id, r);
      if r.command == CMD_READ || r.command == CMD_WRITE {
        QueueCommandQueue(id);
      }
    }

    /** commandVector for the commands that do not queue. */
    method RunCommand(id: nat, command: nat)
      requires Valid() && Inv(View()) && id in reqs && !reqs[id].done && !Queueing(reqs[id])
      requires command != CMD_READ && command != CMD_WRITE
      modifies this`reqs, this`input, this`output, this`isStopped, this`istart, this`icount, this`taken, this`accepted
      modifies this`oidle, this`ocount, this`sent, this`given, suOut
      ensures Valid() && View() == Commanded(old(View()), id, command)
    {
      hide Inv, Flushed, Started, Stopped, EndedBy, Cleared, SerialCalls.Reset;
      if command == CMD_RESET {
        Reset(id);
      } else if command == CMD_CLEAR {
        Clear(id);
      } else if command == CMD_STOP {
        Stop(id);
      } else if command == CMD_START {
        Start(id);
      } else if command == CMD_FLUSH {
        Flush(id);
      } else {
        EndCommandQueue(NoCommand, id);
      }
    }

    /** ser_BeginIO. A read or a write joins its queue, and runs when it is the first there; all
        other commands run at once. */
    method BeginIO(id: nat, r: Request)
      requires Valid() && Inv(View()) && Legal(View(), Op.BeginIO(id, r))
      requires r.command <= CMD_FLUSH || r.command > UART_MAX_COMMANDS
      modifies this`reqs, this`input, this`output, this`isStopped, this`istart, this`icount, this`taken, this`accepted
      modifies this`oidle, this`ocount, this`sent, this`given, suOut
      ensures Valid() && View() == Called(old(View()), id, r) && Inv(View())
      ensures AnswersStay(old(Qs()), Qs(), {id})
      ensures id in reqs
      ensures !Queueing(r) ==> reqs[id].done && reqs[id].replies == if r.quick then 0 else 1
      ensures Queueing(r) ==> reqs[id].replies == if reqs[id].done then 1 else 0
    {
      assert Ok(Qs());
      BegunIs(View(), id, r);
      CalledReplies(View(), id, r);
      hide Inv, Ok, Begun, Commanded, ReadWhole, WriteWhole, AnswersStay, Legal, Ring, InRing, OutRing;
      CalledKeeps(View(), id, r);
      BeginSection(id, r);
      if r.command == CMD_READ {
        if reqs[id].current {
          Read(id);
        }
      } else if r.command == CMD_WRITE {
        if reqs[id].current {
          WriteIsNotTaken(View(), id);
          Write(id);
        }
      } else {
        RunCommand(id, r.command);
      }
    }
  }
}
