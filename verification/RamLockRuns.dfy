/** Whole runs of the lock table, on values: a lock is its identity, the object it is on and
    its access mode. The decisions are made as the source makes them, by looking at the first
    lock on an object only; module RamLocks shows that its methods make these steps. */
module RamLockRuns {
  import opened Lists
  import opened RamTypes

  datatype Lock = Lock(id: RamLock, key: ObjNode, access: int)

  datatype Op =
    | Get(id: RamLock, key: ObjNode, access: int)
    | Check(id: RamLock)
    | Free(id: RamLock)
    | Change(id: RamLock, newmode: int)

  /** The table `locks` as values. */
  ghost function View(locks: seq<RamLock>): (view: seq<Lock>)
    reads locks`access
    ensures |view| == |locks|
    ensures forall i :: 0 <= i < |locks| ==> view[i] == Lock(locks[i], locks[i].key, locks[i].access)
  {
    if locks == [] then [] else [Lock(locks[0], locks[0].key, locks[0].access)] + View(locks[1..])
  }

  /** The index of the first lock on `key`, or the length of the list. */
  function FirstOn(locks: seq<Lock>, key: ObjNode): (i: nat)
    ensures i <= |locks| && (i < |locks| ==> locks[i].key == key)
    ensures forall j :: 0 <= j < i ==> locks[j].key != key
  {
    if locks == [] then 0 else if locks[0].key == key then 0 else 1 + FirstOn(locks[1..], key)
  }

  /** The index of the lock `id`, or the length of the list. */
  function Find(locks: seq<Lock>, id: RamLock): (i: nat)
    ensures i <= |locks| && (i < |locks| ==> locks[i].id == id)
    ensures forall j :: 0 <= j < i ==> locks[j].id != id
  {
    if locks == [] then 0 else if locks[0].id == id then 0 else 1 + Find(locks[1..], id)
  }

  function Apply(locks: seq<Lock>, op: Op): seq<Lock> {
    match op
    case Get(id, key, access) =>
      var i := FirstOn(locks, key);
      if i < |locks| && (locks[i].access == EXCLUSIVE_LOCK || access == EXCLUSIVE_LOCK) then locks
      else if Find(locks, id) < |locks| then locks
      else [Lock(id, key, access)] + locks
    case Check(id) =>
      var i := Find(locks, id);
      if i == |locks| then locks else [locks[i]] + Without(locks, i)
    case Free(id) =>
      var i := Find(locks, id);
      if i == |locks| then locks else Without(locks, i)
    case Change(id, newmode) =>
      var i := Find(locks, id);
      if i == |locks| then locks
      else if newmode == EXCLUSIVE_LOCK && locks[i].access != EXCLUSIVE_LOCK
              && (exists j :: 0 <= j < |locks| && j != i && locks[j].key == locks[i].key) then locks
      else locks[i := locks[i].(access := newmode)]
  }

  function Run(ops: seq<Op>): seq<Lock> {
    if ops == [] then [] else Apply(Run(ops[..|ops| - 1]), ops[|ops| - 1])
  }

  /** An object has one exclusive lock, or any number of shared ones. */
  ghost predicate Exclusive(locks: seq<Lock>) {
    forall i, j :: 0 <= i < |locks| && 0 <= j < |locks| && i != j && locks[i].key == locks[j].key ==>
      locks[i].access != EXCLUSIVE_LOCK && locks[j].access != EXCLUSIVE_LOCK
  }

  ghost predicate Distinct(locks: seq<Lock>) {
    forall i, j :: 0 <= i < j < |locks| ==> locks[i].id != locks[j].id
  }

  ghost predicate Ok(locks: seq<Lock>) {
    Exclusive(locks) && Distinct(locks)
  }

  lemma WithoutKeeps(locks: seq<Lock>, i: nat)
    requires Ok(locks) && i < |locks|
    ensures Ok(Without(locks, i))
    ensures forall j :: 0 <= j < |locks| - 1 ==> Without(locks, i)[j] == locks[if j < i then j else j + 1]
  {
    var r := Without(locks, i);
    assert forall j :: 0 <= j < |r| ==> r[j] == locks[if j < i then j else j + 1];
  }

  lemma InFrontKeeps(l: Lock, locks: seq<Lock>)
    requires Ok(locks)
    requires forall j :: 0 <= j < |locks| ==> locks[j].id != l.id
    requires forall j :: 0 <= j < |locks| && locks[j].key == l.key ==>
               locks[j].access != EXCLUSIVE_LOCK && l.access != EXCLUSIVE_LOCK
    ensures Ok([l] + locks)
  {
    var r := [l] + locks;
    assert forall j :: 0 < j < |r| ==> r[j] == locks[j - 1];
  }

  lemma ChangeKeeps(locks: seq<Lock>, i: nat, newmode: int)
    requires Ok(locks) && i < |locks|
    requires newmode == EXCLUSIVE_LOCK && locks[i].access != EXCLUSIVE_LOCK ==>
               forall j :: 0 <= j < |locks| && j != i ==> locks[j].key != locks[i].key
    ensures Ok(locks[i := locks[i].(access := newmode)])
  {
  }

  lemma ApplyKeeps(locks: seq<Lock>, op: Op)
    requires Ok(locks)
    ensures Ok(Apply(locks, op))
  {
    match op
    case Get(id, key, access) =>
      if Apply(locks, op) != locks {
        assert FirstOn(locks, key) < |locks| ==> locks[FirstOn(locks, key)].access != EXCLUSIVE_LOCK;
        InFrontKeeps(Lock(id, key, access), locks);
      }
    case Check(id) =>
      var i := Find(locks, id);
      if i < |locks| {
        WithoutKeeps(locks, i);
        InFrontKeeps(locks[i], Without(locks, i));
      }
    case Free(id) =>
      if Find(locks, id) < |locks| {
        WithoutKeeps(locks, Find(locks, id));
      }
    case Change(id, newmode) =>
      if Find(locks, id) < |locks| && Apply(locks, op) != locks {
        ChangeKeeps(locks, Find(locks, id), newmode);
      }
  }

  /** Reader/writer exclusion in every state any run can reach. */
  lemma {:induction false} RunKeeps(ops: seq<Op>)
    ensures Ok(Run(ops))
  {
    if ops != [] {
      RunKeeps(ops[..|ops| - 1]);
      ApplyKeeps(Run(ops[..|ops| - 1]), ops[|ops| - 1]);
    }
  }

  /** In such a state a new lock is granted exactly when no lock on the object stands against it. */
  lemma GrantedIffFree(ops: seq<Op>, id: RamLock, key: ObjNode, access: int)
    requires forall j :: 0 <= j < |Run(ops)| ==> Run(ops)[j].id != id
    ensures Apply(Run(ops), Get(id, key, access)) != Run(ops) <==>
            forall j :: 0 <= j < |Run(ops)| && Run(ops)[j].key == key ==>
              Run(ops)[j].access != EXCLUSIVE_LOCK && access != EXCLUSIVE_LOCK
  {
    RunKeeps(ops);
    var locks := Run(ops);
    var first := FirstOn(locks, key);
    if first < |locks| {
      assert forall j :: 0 <= j < |locks| && locks[j].key == key && j != first ==> locks[j].access != EXCLUSIVE_LOCK;
    }
    assert |[Lock(id, key, access)] + locks| != |locks|;
  }

  /** Looking a lock up only permutes the table. */
  lemma CheckPermutes(locks: seq<Lock>, id: RamLock)
    ensures multiset(Apply(locks, Check(id))) == multiset(locks)
  {
    var i := Find(locks, id);
    if i < |locks| {
      assert locks == locks[..i] + [locks[i]] + locks[i + 1..];
    }
  }
}
