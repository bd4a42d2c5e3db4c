/** Linked lists without repeats, as sequences. */
module Lists {

  ghost predicate NoRepeats<T>(q: seq<T>) {
    forall i, j :: 0 <= i < j < |q| ==> q[i] != q[j]
  }

  /** What is left after element `i` leaves a list. */
  function Without<T>(q: seq<T>, i: nat): (r: seq<T>)
    requires i < |q|
    ensures |r| == |q| - 1
    ensures forall n :: n in r ==> n in q
    ensures forall j :: 0 <= j < |r| ==> r[j] == q[if j < i then j else j + 1]
  {
    q[..i] + q[i + 1..]
  }

  /** Just this element is gone. */
  lemma WithoutFacts<T>(q: seq<T>, i: nat)
    requires i < |q| && NoRepeats(q)
    ensures NoRepeats(Without(q, i)) && q[i] !in Without(q, i)
    ensures forall n :: n in Without(q, i) <==> n in q && n != q[i]
  {
    var r := Without(q, i);
    forall n | n in q && n != q[i]
      ensures n in r
    {
      var j :| 0 <= j < |q| && q[j] == n;
      assert r[if j < i then j else j - 1] == n;
    }
  }

  lemma AppendedNoRepeats<T>(q: seq<T>, x: T)
    requires NoRepeats(q) && x !in q
    ensures NoRepeats(q + [x])
  {
  }

  function Removed(q: seq<nat>, id: nat): (r: seq<nat>)
    ensures forall x :: x in r <==> x in q && x != id
    ensures q != [] && q[0] != id ==> r != [] && r[0] == q[0]
  {
    if q == [] then [] else if q[0] == id then Removed(q[1..], id) else [q[0]] + Removed(q[1..], id)
  }

  lemma {:induction false} RemovedNoRepeats(q: seq<nat>, id: nat)
    requires NoRepeats(q)
    ensures NoRepeats(Removed(q, id))
  {
    if q != [] {
      RemovedNoRepeats(q[1..], id);
      assert q[0] !in q[1..];
    }
  }

  lemma {:induction false} RemovedNothing(q: seq<nat>, id: nat)
    requires id !in q
    ensures Removed(q, id) == q
  {
    if q != [] {
      RemovedNothing(q[1..], id);
    }
  }

  lemma {:induction false} RemovedBetween(a: seq<nat>, id: nat, b: seq<nat>)
    requires id !in a && id !in b
    ensures Removed(a + [id] + b, id) == a + b
  {
    if a == [] {
      assert a + [id] + b == [id] + b;
      RemovedNothing(b, id);
      assert a + b == b;
    } else {
      RemovedBetween(a[1..], id, b);
      assert (a + [id] + b)[1..] == a[1..] + [id] + b;
      assert [a[0]] + (a[1..] + b) == a + b;
    }
  }

  lemma HeadRemoved(q: seq<nat>)
    requires q != [] && NoRepeats(q)
    ensures Removed(q, q[0]) == q[1..]
  {
    assert q[0] !in q[1..];
    RemovedNothing(q[1..], q[0]);
  }

  /** Remove of a node from its list. */
  method Remove(q: seq<nat>, id: nat) returns (r: seq<nat>)
    ensures r == Removed(q, id)
  {
    var i := 0;
    r := [];
    while i < |q|
      invariant 0 <= i <= |q| && Removed(q, id) == r + Removed(q[i..], id)
    {
      assert q[i..][1..] == q[i + 1..];
      if q[i] != id {
        r := r + [q[i]];
      }
      i := i + 1;
    }
  }
}
