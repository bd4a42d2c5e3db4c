/** Ghost histories of the serial device: which requests moved bytes, in which order, and in
    which order they ended. */
module SerialHistory {
  import opened Machine

  /** The bytes moved for a request that had been begun `round` times before. */
  datatype Moved = Moved(id: nat, round: nat, bytes: seq<byte>)

  /** What was moved, in order; the places in `log` of requests that moved bytes and were not
      ended by the same call yet; and the places of those that ended well, in that order. */
  datatype History = History(log: seq<Moved>, open: map<nat, nat>, ends: seq<nat>)

  const NOTHING := History([], map[], [])

  /** All the bytes of a history. */
  function Joined(log: seq<Moved>): seq<byte> {
    if log == [] then [] else Joined(log[..|log| - 1]) + log[|log| - 1].bytes
  }

  lemma JoinedMore(log: seq<Moved>, m: Moved)
    ensures Joined(log + [m]) == Joined(log) + m.bytes
  {
    assert (log + [m])[..|log|] == log;
  }

  /** A request moves bytes, and still has to be ended. */
  function Took(h: History, id: nat, round: nat, bytes: seq<byte>): History {
    History(h.log + [Moved(id, round, bytes)], h.open[id := |h.log|], h.ends)
  }

  /** The call that moved bytes for the request ends it, or finds that it was ended before. */
  function Closed(h: History, id: nat, well: bool): History
    requires id in h.open
  {
    History(h.log, h.open - {id}, if well then h.ends + [h.open[id]] else h.ends)
  }

  predicate PlaceOk(h: History, id: nat) {
    id in h.open && h.open[id] < |h.log| && h.log[h.open[id]].id == id
  }

  ghost predicate Ok(h: History) {
    && (forall id :: id in h.open ==> PlaceOk(h, id))
    && (forall k {:trigger h.ends[k]} :: 0 <= k < |h.ends| ==> h.ends[k] < |h.log|)
    && (forall k, id {:trigger h.ends[k], h.open[id]} :: 0 <= k < |h.ends| && id in h.open ==> h.ends[k] != h.open[id])
  }

  /** Requests ended in the order in which they moved bytes, and none was lost: the first
      places ended, and those behind them are open. */
  ghost predicate Ordered(h: History) {
    && (forall k {:trigger h.ends[k]} :: 0 <= k < |h.ends| ==> h.ends[k] == k)
    && (forall p {:trigger IsOpen(h, p)} :: |h.ends| <= p < |h.log| ==> IsOpen(h, p))
  }

  ghost predicate IsOpen(h: History, p: nat) {
    exists id :: id in h.open && h.open[id] == p
  }

  lemma EndsFit(h: History)
    requires Ok(h) && Ordered(h)
    ensures |h.ends| <= |h.log|
  {
    if h.ends != [] {
      assert h.ends[|h.ends| - 1] == |h.ends| - 1;
    }
  }

  lemma TookKeepsOk(h: History, id: nat, round: nat, bytes: seq<byte>)
    requires Ok(h) && id !in h.open
    ensures Ok(Took(h, id, round, bytes))
  {
    var t := Took(h, id, round, bytes);
    forall x | x in t.open
      ensures PlaceOk(t, x)
    {
      assert x != id ==> PlaceOk(h, x);
    }
  }

  lemma ClosedKeepsOk(h: History, id: nat, well: bool)
    requires Ok(h) && id in h.open
    ensures Ok(Closed(h, id, well))
  {
    var t := Closed(h, id, well);
    assert PlaceOk(h, id);
    forall x | x in t.open
      ensures PlaceOk(t, x) && t.open[x] != h.open[id]
    {
      assert PlaceOk(h, x);
    }
  }

  /** Moving bytes does not change the order. */
  lemma TookOrdered(h: History, id: nat, round: nat, bytes: seq<byte>)
    requires Ok(h) && id !in h.open
    ensures Ordered(Took(h, id, round, bytes)) <==> Ordered(h)
  {
    var t := Took(h, id, round, bytes);
    assert t.open[id] == |h.log|;
    forall p | 0 <= p < |h.log|
      ensures IsOpen(t, p) <==> IsOpen(h, p)
    {
      if x :| x in h.open && h.open[x] == p {
        assert x != id && t.open[x] == p;
      }
      if x :| x in t.open && t.open[x] == p {
        assert x != id && h.open[x] == p;
      }
    }
    assert IsOpen(t, |h.log|);
    if Ordered(h) {
      EndsFit(h);
    }
    if Ordered(t) && h.ends != [] {
      assert t.ends[|h.ends| - 1] == |h.ends| - 1;
    }
  }

  /** The end of a request keeps the order exactly when it ends well, as the oldest open one. */
  lemma ClosedOrdered(h: History, id: nat, well: bool)
    requires Ok(h) && id in h.open
    ensures Ordered(Closed(h, id, well)) <==> Ordered(h) && well && h.open[id] == |h.ends|
  {
    var t := Closed(h, id, well);
    assert PlaceOk(h, id);
    forall p | 0 <= p < |h.log| && p != h.open[id]
      ensures IsOpen(t, p) <==> IsOpen(h, p)
    {
      if x :| x in h.open && h.open[x] == p {
        assert x in t.open && t.open[x] == p;
      }
    }
    assert !IsOpen(t, h.open[id]) by {
      forall x | x in t.open
        ensures t.open[x] != h.open[id]
      {
        assert PlaceOk(h, x);
      }
    }
    assert IsOpen(h, h.open[id]);
    if Ordered(t) {
      ClosedWasOrdered(h, id, well);
    }
    if Ordered(h) && well && h.open[id] == |h.ends| {
      forall k | 0 <= k < |t.ends|
        ensures t.ends[k] == k
      {
        assert k < |h.ends| ==> h.ends[k] == k;
      }
    }
  }

  lemma ClosedWasOrdered(h: History, id: nat, well: bool)
    requires Ok(h) && id in h.open && Ordered(Closed(h, id, well))
    requires !IsOpen(Closed(h, id, well), h.open[id]) && IsOpen(h, h.open[id])
    requires forall p :: 0 <= p < |h.log| && p != h.open[id] ==> (IsOpen(Closed(h, id, well), p) <==> IsOpen(h, p))
    ensures Ordered(h) && well && h.open[id] == |h.ends|
  {
    var t, p := Closed(h, id, well), h.open[id];
    assert PlaceOk(h, id);
    assert p < |t.ends| && t.ends[p] == p;
    if p < |h.ends| {
      assert false;
    }
    forall k | 0 <= k < |h.ends|
      ensures h.ends[k] == k
    {
      assert t.ends[k] == k;
    }
  }

  /** What is open comes behind what has ended. */
  lemma OpenBehind(h: History, id: nat)
    requires Ok(h) && Ordered(h) && id in h.open
    ensures |h.ends| <= h.open[id] < |h.log|
  {
    assert PlaceOk(h, id);
    var p := h.open[id];
    if p < |h.ends| {
      EndDiffers(h, id, p);
      assert false;
    }
  }

  lemma EndDiffers(h: History, id: nat, k: nat)
    requires Ok(h) && Ordered(h) && id in h.open && k < |h.ends|
    ensures h.open[id] != k
  {
    assert h.ends[k] == k;
  }

  /** When nothing is open, and only then, as many ended as moved bytes, if the order is kept. */
  lemma AllEnded(h: History)
    requires Ok(h) && Ordered(h)
    ensures h.open == map[] <==> |h.ends| == |h.log|
  {
    EndsFit(h);
    if h.open == map[] {
      assert |h.ends| < |h.log| ==> IsOpen(h, |h.ends|);
      return;
    }
    var id :| id in h.open;
    OpenBehind(h, id);
  }

  // ---------------------------------------------------------------- completed requests

  /** What the requests that ended well moved, in the order in which they ended. */
  function Completed(h: History): seq<Moved>
    requires forall k {:trigger h.ends[k]} :: 0 <= k < |h.ends| ==> h.ends[k] < |h.log|
  {
    seq(|h.ends|, k requires 0 <= k < |h.ends| => h.log[h.ends[k]])
  }

  /** Between two BeginIOs a request moves bytes once at most. */
  ghost predicate Once(log: seq<Moved>) {
    forall p, q {:trigger log[p], log[q]} :: 0 <= p < q < |log| && log[p].id == log[q].id ==>
      log[p].round != log[q].round
  }

  /** The requests that ended well are those that moved bytes, in the same order, exactly when
      the order was kept and no call is open. */
  lemma CompletedIsLog(h: History)
    requires Ok(h) && Once(h.log)
    ensures Completed(h) == h.log <==> Ordered(h) && h.open == map[]
  {
    if Ordered(h) && h.open == map[] {
      AllEnded(h);
    }
    if Completed(h) == h.log {
      forall k | 0 <= k < |h.ends|
        ensures h.ends[k] == k
      {
        assert Completed(h)[k] == h.log[h.ends[k]] == h.log[k];
      }
      assert Ordered(h);
      AllEnded(h);
    }
  }

  /** A request that moves bytes a second time between two BeginIOs breaks that. */
  lemma TookOnceIff(h: History, id: nat, round: nat, bytes: seq<byte>)
    requires Once(h.log)
    ensures Once(Took(h, id, round, bytes).log) <==> !Has(h.log, id, round)
  {
    var t := Took(h, id, round, bytes).log;
    assert t[|h.log|].id == id && t[|h.log|].round == round;
    assert forall p :: 0 <= p < |h.log| ==> t[p] == h.log[p];
  }

  /** The request moved bytes in this round. */
  ghost predicate Has(log: seq<Moved>, id: nat, round: nat) {
    exists p :: 0 <= p < |log| && log[p].id == id && log[p].round == round
  }
}
