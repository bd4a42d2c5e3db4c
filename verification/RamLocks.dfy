/** rh_CheckLock, rh_FindLock, rh_GetLock, rh_FreeLock and rh_ChangeLock of the RAM handler:
    the table of shared and exclusive locks, a linked list whose last used lock comes first. */
module RamLocks {
  import opened Lists
  import opened RamTypes
  import Runs = RamLockRuns

  // ---------------------------------------------------------------- representation

  function LockAfter(locks: seq<RamLock>, i: nat): RamLock?
    requires i < |locks|
  {
    if i + 1 < |locks| then locks[i + 1] else null
  }

  /** The lock list from `head` is `locks`. */
  ghost predicate LockListOk(head: RamLock?, locks: seq<RamLock>)
    reads locks`next
  {
    && head == (if locks == [] then null else locks[0])
    && (forall i {:trigger locks[i].next} :: 0 <= i < |locks| ==> locks[i].next == LockAfter(locks, i))
    && NoRepeats(locks)
  }

  /** An object has one exclusive lock, or any number of shared ones. */
  ghost predicate Exclusion(locks: seq<RamLock>)
    reads locks`access
  {
    forall i, j :: 0 <= i < j < |locks| && locks[i].key == locks[j].key ==>
      locks[i].access != EXCLUSIVE_LOCK && locks[j].access != EXCLUSIVE_LOCK
  }

  ghost predicate TableOk(gd: GlobalData)
    reads gd`lockList, gd`locks, gd.locks`next, gd.locks`access
  {
    LockListOk(gd.lockList, gd.locks) && Exclusion(gd.locks)
  }

  /** A lock on `key` with `access` would break the exclusion. */
  ghost predicate Conflicts(locks: seq<RamLock>, key: ObjNode, access: int)
    reads locks`access
  {
    exists l :: l in locks && l.key == key && (l.access == EXCLUSIVE_LOCK || access == EXCLUSIVE_LOCK)
  }

  // ---------------------------------------------------------------- operations

  /** The walk along the list to `lock`, or to the end; `last` is the element before. */
  method Walk(gd: GlobalData, lock: RamLock) returns (last: RamLock?, p: RamLock?, ghost i: nat)
    requires LockListOk(gd.lockList, gd.locks)
    ensures i <= |gd.locks| && lock !in gd.locks[..i]
    ensures p == if i < |gd.locks| then gd.locks[i] else null
    ensures last == if i > 0 then gd.locks[i - 1] else null
    ensures p == null || p == lock
  {
    p, last, i := gd.lockList, null, 0;
    while p != null && p != lock
      invariant i <= |gd.locks| && p == if i < |gd.locks| then gd.locks[i] else null
      invariant last == if i > 0 then gd.locks[i - 1] else null
      invariant lock !in gd.locks[..i]
      decreases |gd.locks| - i
    {
      assert p.next == LockAfter(gd.locks, i);
      last := p;
      p, i := p.next, i + 1;
    }
  }

  /** Taking a lock out of the list, or to its front, keeps the exclusion. */
  lemma ExclusionWithout(locks: seq<RamLock>, i: nat)
    requires Exclusion(locks) && i < |locks|
    ensures Exclusion(Without(locks, i)) && Exclusion([locks[i]] + Without(locks, i))
  {
  }

  lemma AfterWithout(locks: seq<RamLock>, i: nat, j: nat)
    requires i < |locks| && j < |locks| - 1
    ensures Without(locks, i)[j] == locks[if j < i then j else j + 1]
    ensures LockAfter(Without(locks, i), j) == if j + 1 == i
              then LockAfter(locks, i) else LockAfter(locks, if j < i then j else j + 1)
  {
  }

  /** The three assignments of rh_CheckLock that move element `i` to the front. */
  method ToFront(gd: GlobalData, last: RamLock, p: RamLock, ghost i: nat)
    requires TableOk(gd) && 0 < i < |gd.locks| && p == gd.locks[i] && last == gd.locks[i - 1]
    modifies gd`lockList, gd`locks, last`next, p`next
    ensures TableOk(gd) && gd.locks == [p] + Without(old(gd.locks), i)
  {
    ghost var before := gd.locks;
    assert p.next == LockAfter(before, i);
    ExclusionWithout(before, i);
    last.next := p.next;
    p.next := gd.lockList;
    gd.lockList := p;
    gd.locks := [p] + Without(before, i);
    forall j {:trigger gd.locks[j].next} | 0 <= j < |gd.locks|
      ensures gd.locks[j].next == LockAfter(gd.locks, j)
    {
      if j > 0 {
        AfterWithout(before, i, j - 1);
      }
    }
  }

  /** The assignment of rh_FreeLock that takes element `i` out. */
  method Unlink(gd: GlobalData, last: RamLock?, p: RamLock, ghost i: nat)
    requires TableOk(gd) && i < |gd.locks| && p == gd.locks[i] && last == if i > 0 then gd.locks[i - 1] else null
    modifies gd`lockList, gd`locks, gd.locks`next
    ensures TableOk(gd) && gd.locks == Without(old(gd.locks), i)
  {
    ghost var before := gd.locks;
    assert p.next == LockAfter(before, i);
    ExclusionWithout(before, i);
    if last != null {
      last.next := p.next;
    } else {
      gd.lockList := p.next;
    }
    gd.locks := Without(before, i);
    forall j {:trigger gd.locks[j].next} | 0 <= j < |gd.locks|
      ensures gd.locks[j].next == LockAfter(gd.locks, j)
    {
      AfterWithout(before, i, j);
    }
  }

  /** On a list without repeats, finding a lock by its identity is finding it. */
  lemma FindIs(locks: seq<RamLock>, lock: RamLock, i: nat)
    requires i <= |locks| && lock !in locks[..i] && (i < |locks| ==> locks[i] == lock)
    ensures Runs.Find(Runs.View(locks), lock) == i
  {
    assert forall j :: 0 <= j < i ==> locks[j] == locks[..i][j];
  }

  lemma ViewWithout(locks: seq<RamLock>, i: nat)
    requires i < |locks|
    ensures Runs.View(Without(locks, i)) == Without(Runs.View(locks), i)
  {
    hide NoRepeats;
    var r, view := Without(locks, i), Runs.View(locks);
    forall j | 0 <= j < |r|
      ensures Runs.View(r)[j] == Without(view, i)[j]
    {
      assert r[j] == locks[if j < i then j else j + 1];
    }
  }

  /** Moving a lock to the front is what Check means. */
  lemma CheckIs(locks: seq<RamLock>, i: nat, now: seq<RamLock>)
    requires i < |locks| && locks[i] !in locks[..i] && now == [locks[i]] + Without(locks, i)
    ensures Runs.View(now) == Runs.Apply(Runs.View(locks), Runs.Check(locks[i]))
  {
    hide NoRepeats;
    FindIs(locks, locks[i], i);
    ViewWithout(locks, i);
    assert Runs.View(now) == [Runs.View(locks)[i]] + Runs.View(Without(locks, i));
  }

  /** Taking a lock out is what Free means. */
  lemma FreeIs(locks: seq<RamLock>, i: nat)
    requires i < |locks| && locks[i] !in locks[..i]
    ensures Runs.View(Without(locks, i)) == Runs.Apply(Runs.View(locks), Runs.Free(locks[i]))
  {
    FindIs(locks, locks[i], i);
    ViewWithout(locks, i);
  }

  /** A lock that is not in the table concerns nobody. */
  lemma AbsentIs(locks: seq<RamLock>, lock: RamLock, newmode: int)
    requires lock !in locks
    ensures var view := Runs.View(locks);
            Runs.Apply(view, Runs.Check(lock)) == Runs.Apply(view, Runs.Free(lock))
            == Runs.Apply(view, Runs.Change(lock, newmode)) == view
  {
    FindIs(locks, lock, |locks|);
  }

  /** rh_CheckLock: the object a lock stands for; the lock is moved to the front of the list. */
  method CheckLock(gd: GlobalData, lock: RamLock?) returns (key: ObjNode?)
    requires TableOk(gd)
    modifies gd`lockList, gd`locks, gd`fileErr, gd.locks`next
    ensures TableOk(gd)
    ensures lock == null ==> key == gd.root && gd.locks == old(gd.locks) && gd.fileErr == old(gd.fileErr)
    ensures lock != null && lock !in old(gd.locks) ==>
              key == null && gd.fileErr == InvalidLock && gd.locks == old(gd.locks)
    ensures lock != null && lock in old(gd.locks) ==> key == lock.key && gd.fileErr == old(gd.fileErr)
    ensures forall i :: 0 <= i < |old(gd.locks)| && old(gd.locks)[i] == lock ==>
              gd.locks == [lock] + Without(old(gd.locks), i)
    ensures forall l :: l in gd.locks <==> l in old(gd.locks)
    ensures key != null && lock != null ==> gd.locks != [] && gd.locks[0] == lock
    ensures lock != null ==> Runs.View(gd.locks) == Runs.Apply(old(Runs.View(gd.locks)), Runs.Check(lock))
  {
    hide Runs.Apply, Runs.View;
    if lock == null {
      return gd.root;
    }
    var last, p;
    ghost var i;
    last, p, i := Walk(gd, lock);
    if p == null {
      AbsentIs(gd.locks, lock, 0);
      gd.fileErr := InvalidLock;
      return null;
    }
    if last != null {
      ToFront(gd, last, p, i);
    }
    CheckIs(old(gd.locks), i, gd.locks);
    return lock.key;
  }

  /** rh_FindLock: the first lock on `node`. */
  method FindLock(gd: GlobalData, node: ObjNode) returns (p: RamLock?, ghost i: nat)
    requires LockListOk(gd.lockList, gd.locks)
    ensures i <= |gd.locks| && p == if i < |gd.locks| then gd.locks[i] else null
    ensures p != null ==> p.key == node
    ensures forall j :: 0 <= j < i ==> gd.locks[j].key != node
  {
    p, i := gd.lockList, 0;
    while p != null && p.key != node
      invariant i <= |gd.locks| && p == if i < |gd.locks| then gd.locks[i] else null
      invariant forall j :: 0 <= j < i ==> gd.locks[j].key != node
      decreases |gd.locks| - i
    {
      assert p.next == LockAfter(gd.locks, i);
      p, i := p.next, i + 1;
    }
  }

  /** Testing the first lock on an object decides for all of them. */
  lemma FirstMatchDecides(locks: seq<RamLock>, i: nat, key: ObjNode, access: int)
    requires Exclusion(locks)
    requires i < |locks| && locks[i].key == key && forall j :: 0 <= j < i ==> locks[j].key != key
    ensures Conflicts(locks, key, access) <==> locks[i].access == EXCLUSIVE_LOCK || access == EXCLUSIVE_LOCK
  {
    assert locks[i] in locks;
  }

  lemma FirstOnIs(locks: seq<RamLock>, i: nat, key: ObjNode)
    requires i <= |locks| && (i < |locks| ==> locks[i].key == key)
    requires forall j :: 0 <= j < i ==> locks[j].key != key
    ensures Runs.FirstOn(Runs.View(locks), key) == i
  {
    assert forall j :: 0 <= j < i ==> Runs.View(locks)[j].key == locks[j].key;
  }

  /** A lock that nothing stands against becomes the new head. */
  lemma GetIs(locks: seq<RamLock>, i: nat, lock: RamLock)
    requires i <= |locks| && (i < |locks| ==> locks[i].key == lock.key)
    requires forall j :: 0 <= j < i ==> locks[j].key != lock.key
    requires i < |locks| ==> locks[i].access != EXCLUSIVE_LOCK && lock.access != EXCLUSIVE_LOCK
    requires lock !in locks
    ensures Runs.View([lock] + locks) == Runs.Apply(Runs.View(locks), Runs.Get(lock, lock.key, lock.access))
  {
    FirstOnIs(locks, i, lock.key);
    FindIs(locks, lock, |locks|);
  }

  /** A request that the exclusion forbids leaves the table as it is. */
  lemma RefusedIs(locks: seq<RamLock>, lock: RamLock, key: ObjNode, access: int)
    requires Exclusion(locks) && Conflicts(locks, key, access)
    ensures Runs.Apply(Runs.View(locks), Runs.Get(lock, key, access)) == Runs.View(locks)
  {
    var view := Runs.View(locks);
    var i := Runs.FirstOn(view, key);
    var l :| l in locks && l.key == key && (l.access == EXCLUSIVE_LOCK || access == EXCLUSIVE_LOCK);
    var j :| 0 <= j < |locks| && locks[j] == l;
    assert view[j].key == key && i <= j;
    assert i < j ==> locks[i].key == locks[j].key;
  }

  /** A new head that nothing stands against keeps the table in order. */
  lemma HeadJoins(locks: seq<RamLock>, lock: RamLock)
    requires LockListOk(lock.next, locks) && Exclusion(locks) && lock !in locks
    requires !Conflicts(locks, lock.key, lock.access)
    ensures LockListOk(lock, [lock] + locks) && Exclusion([lock] + locks)
  {
    var more := [lock] + locks;
    assert forall j :: 0 < j < |more| ==> more[j] == locks[j - 1] && more[j] in locks;
  }

  /** The allocation at the end of rh_GetLock, when nothing stands against the lock; `i` is the
      first lock on the same object. */
  method Grant(gd: GlobalData, ptr: ObjNode, access: int, ghost i: nat) returns (lock: RamLock?)
    requires TableOk(gd) && !Conflicts(gd.locks, ptr, access)
    requires i <= |gd.locks| && (i < |gd.locks| ==> gd.locks[i].key == ptr)
    requires forall j :: 0 <= j < i ==> gd.locks[j].key != ptr
    modifies gd`lockList, gd`locks, gd`fileErr
    ensures TableOk(gd)
    ensures lock == null ==> gd.locks == old(gd.locks) && gd.fileErr == NoFreeStore && !gd.reliable
    ensures lock != null ==> fresh(lock) && gd.locks == [lock] + old(gd.locks) && gd.fileErr == old(gd.fileErr)
    ensures lock != null ==> lock.key == ptr && lock.access == access && !lock.modified
    ensures lock != null ==> lock.block == ptr.data && lock.offset == FIRSTBUFFPOS && lock.cpos == 0 && lock.index == 0
    ensures lock != null ==> Runs.View(gd.locks) == Runs.Apply(old(Runs.View(gd.locks)), Runs.Get(lock, ptr, access))
  {
    hide Runs.Apply, Runs.View, Exclusion;
    assert i < |gd.locks| ==>
      gd.locks[i] in gd.locks && gd.locks[i].access != EXCLUSIVE_LOCK && access != EXCLUSIVE_LOCK;
    var alloc: bool :| gd.reliable ==> alloc;  // AllocVec
    if !alloc {
      gd.fileErr := NoFreeStore;
      return null;
    }
    lock := new RamLock(ptr, access);
    GetIs(gd.locks, i, lock);
    lock.next := gd.lockList;
    gd.lockList := lock;
    HeadJoins(gd.locks, lock);
    gd.locks := [lock] + gd.locks;
  }

  /** rh_GetLock. A lock is refused exactly when it would break the exclusion, or when it
      cannot be allocated. */
  method GetLock(gd: GlobalData, ptr: ObjNode, access: int) returns (lock: RamLock?)
    requires TableOk(gd)
    modifies gd`lockList, gd`locks, gd`fileErr
    ensures TableOk(gd)
    ensures old(Conflicts(gd.locks, ptr, access)) ==> lock == null && gd.fileErr == ObjectInUse
    ensures lock == null ==> gd.locks == old(gd.locks)
    ensures lock == null && !old(Conflicts(gd.locks, ptr, access)) ==> gd.fileErr == NoFreeStore && !gd.reliable
    ensures lock != null ==> fresh(lock) && gd.locks == [lock] + old(gd.locks) && gd.fileErr == old(gd.fileErr)
    ensures lock != null ==> lock.key == ptr && lock.access == access && !lock.modified
    ensures lock != null ==> lock.block == ptr.data && lock.offset == FIRSTBUFFPOS && lock.cpos == 0 && lock.index == 0
    ensures lock != null ==> Runs.View(gd.locks) == Runs.Apply(old(Runs.View(gd.locks)), Runs.Get(lock, ptr, access))
  {
    hide Runs.Apply, Runs.View;
    var p;
    ghost var i;
    p, i := FindLock(gd, ptr);
    if p != null {
      FirstMatchDecides(gd.locks, i, ptr, access);
    }
    if p != null && (p.access == EXCLUSIVE_LOCK || access == EXCLUSIVE_LOCK) {
      gd.fileErr := ObjectInUse;
      return null;
    }
    lock := Grant(gd, ptr, access, i);
  }

  /** The part of rh_FreeLock that concerns the table. */
  method TakeOut(gd: GlobalData, lock: RamLock) returns (ok: bool)
    requires TableOk(gd)
    modifies gd`lockList, gd`locks, gd`fileErr, gd.locks`next
    ensures TableOk(gd)
    ensures ok <==> lock in old(gd.locks)
    ensures !ok ==> gd.locks == old(gd.locks) && gd.fileErr == InvalidLock
    ensures ok ==> gd.fileErr == old(gd.fileErr)
    ensures ok ==> forall l :: l in gd.locks <==> l in old(gd.locks) && l != lock
    ensures forall i :: 0 <= i < |old(gd.locks)| && old(gd.locks)[i] == lock ==> gd.locks == Without(old(gd.locks), i)
    ensures Runs.View(gd.locks) == Runs.Apply(old(Runs.View(gd.locks)), Runs.Free(lock))
  {
    hide Runs.Apply, Runs.View;
    var last, p;
    ghost var i;
    last, p, i := Walk(gd, lock);
    if p == null {
      AbsentIs(gd.locks, lock, 0);
      gd.fileErr := InvalidLock;
      return false;
    }
    Unlink(gd, last, p, i);
    WithoutFacts(old(gd.locks), i);
    FreeIs(old(gd.locks), i);
    return true;
  }

  /** The end of rh_FreeLock. */
  method ClearArchive(lock: RamLock)
    modifies lock`modified, lock.key`protection
    ensures !lock.modified
    ensures old(lock.modified) ==> lock.key.protection == old(lock.key.protection).(archive := false)
    ensures !old(lock.modified) ==> lock.key.protection == old(lock.key.protection)
  {
    if lock.modified {
      lock.modified := false;
      lock.key.protection := lock.key.protection.(archive := false);
    }
  }

  /** The object of a lock, as a set. */
  ghost function KeyOf(lock: RamLock?): (keys: set<ObjNode>)
    ensures lock != null ==> keys == {lock.key}
  {
    if lock == null then {} else {lock.key}
  }

  /** rh_FreeLock: no lock at all is freed at once; a handle that changed its object clears
      the archive bit. */
  method FreeLock(gd: GlobalData, lock: RamLock?) returns (ok: bool)
    requires TableOk(gd)
    modifies gd`lockList, gd`locks, gd`fileErr, gd.locks`next, gd.locks`modified, KeyOf(lock)`protection
    ensures TableOk(gd)
    ensures ok <==> lock == null || lock in old(gd.locks)
    ensures !ok ==> gd.fileErr == InvalidLock
    ensures ok ==> gd.fileErr == old(gd.fileErr)
    ensures !ok || lock == null ==> gd.locks == old(gd.locks)
    ensures ok && lock != null && old(lock.modified) ==>
              lock.key.protection == old(lock.key.protection).(archive := false)
    ensures lock != null && !(ok && old(lock.modified)) ==> lock.key.protection == old(lock.key.protection)
    ensures ok && lock != null ==> forall l :: l in gd.locks <==> l in old(gd.locks) && l != lock
    ensures forall i :: 0 <= i < |old(gd.locks)| && old(gd.locks)[i] == lock ==> gd.locks == Without(old(gd.locks), i)
    ensures lock != null ==> Runs.View(gd.locks) == Runs.Apply(old(Runs.View(gd.locks)), Runs.Free(lock))
  {
    hide Runs.Apply, Runs.View;
    if lock == null {
      return true;
    }
    ok := TakeOut(gd, lock);
    if !ok {
      return false;
    }
    ClearArchive(lock);
    return true;
  }

  ghost predicate SoleHolder(locks: seq<RamLock>, lock: RamLock) {
    forall l :: l in locks && l.key == lock.key ==> l == lock
  }

  /** The loop of rh_ChangeLock. */
  method IsSoleHolder(gd: GlobalData, lock: RamLock) returns (sole: bool)
    requires LockListOk(gd.lockList, gd.locks)
    ensures sole <==> SoleHolder(gd.locks, lock)
  {
    var p := gd.lockList;
    ghost var i := 0;
    while p != null
      invariant 0 <= i <= |gd.locks| && p == if i < |gd.locks| then gd.locks[i] else null
      invariant forall j :: 0 <= j < i && gd.locks[j].key == lock.key ==> gd.locks[j] == lock
      decreases |gd.locks| - i
    {
      if p.key == lock.key && p != lock {
        assert p in gd.locks;
        return false;
      }
      assert p.next == LockAfter(gd.locks, i);
      p, i := p.next, i + 1;
    }
    return true;
  }

  /** What Change means for the lock that is at the front. */
  lemma FrontIs(locks: seq<RamLock>, lock: RamLock, newmode: int)
    requires locks != [] && locks[0] == lock && NoRepeats(locks)
    ensures var view := Runs.View(locks);
            Runs.Apply(view, Runs.Change(lock, newmode)) ==
            if newmode == EXCLUSIVE_LOCK && lock.access != EXCLUSIVE_LOCK && !SoleHolder(locks, lock) then view
            else view[0 := view[0].(access := newmode)]
  {
    FindIs(locks, lock, 0);
    var view := Runs.View(locks);
    if !SoleHolder(locks, lock) {
      var l :| l in locks && l.key == lock.key && l != lock;
      var j :| 0 <= j < |locks| && locks[j] == l;
      assert j != 0 && view[j].key == view[0].key;
    }
    assert forall j :: 0 < j < |locks| ==> locks[j] in locks;
  }

  /** The end of rh_ChangeLock, for the lock at the front. */
  method ChangeFront(gd: GlobalData, lock: RamLock, newmode: int) returns (ok: bool)
    requires TableOk(gd) && gd.locks != [] && gd.locks[0] == lock
    modifies gd`fileErr, lock`access
    ensures TableOk(gd)
    ensures ok <==> (newmode == EXCLUSIVE_LOCK && old(lock.access) != EXCLUSIVE_LOCK ==> SoleHolder(gd.locks, lock))
    ensures lock.access == if ok then newmode else old(lock.access)
    ensures !ok ==> gd.fileErr == ObjectInUse
    ensures Runs.View(gd.locks) == Runs.Apply(old(Runs.View(gd.locks)), Runs.Change(lock, newmode))
  {
    hide Runs.Apply, Runs.View;
    ghost var view := Runs.View(gd.locks);
    FrontIs(gd.locks, lock, newmode);
    if newmode == EXCLUSIVE_LOCK && lock.access != EXCLUSIVE_LOCK {
      var sole := IsSoleHolder(gd, lock);
      if !sole {
        gd.fileErr := ObjectInUse;
        return false;
      }
    }
    lock.access := newmode;
    assert Runs.View(gd.locks) == view[0 := view[0].(access := newmode)];
    return true;
  }

  /** rh_ChangeLock: an exclusive lock is granted only to the sole holder. */
  method ChangeLock(gd: GlobalData, lock: RamLock?, newmode: int) returns (ok: bool)
    requires TableOk(gd)
    modifies gd`lockList, gd`locks, gd`fileErr, gd.locks`next, gd.locks`access
    ensures TableOk(gd)
    ensures ok <==> && lock != null && lock in old(gd.locks)
                    && (newmode == EXCLUSIVE_LOCK && old(lock.access) != EXCLUSIVE_LOCK ==>
                          SoleHolder(old(gd.locks), lock))
    ensures ok ==> lock.access == newmode
    ensures forall l :: l in old(gd.locks) && !(ok && l == lock) ==> l.access == old(l.access)
    ensures forall l :: l in gd.locks <==> l in old(gd.locks)
    ensures lock == null ==> gd.locks == old(gd.locks)
    ensures !ok && lock != null ==>
              gd.fileErr == if lock in old(gd.locks) then ObjectInUse else InvalidLock
    ensures lock != null ==>
              && var view := Runs.Apply(old(Runs.View(gd.locks)), Runs.Check(lock));
              && Runs.View(gd.locks) == Runs.Apply(view, Runs.Change(lock, newmode))
  {
    hide Runs.Apply, Runs.View, LockListOk, Exclusion;
    if lock == null {
      return false;
    }
    var key := CheckLock(gd, lock);
    if key == null {
      AbsentIs(gd.locks, lock, newmode);
      return false;
    }
    ok := ChangeFront(gd, lock, newmode);
  }

  /** The table part of rh_FreeLock for the lock an operation took for its own use; the rest
      of rh_FreeLock concerns only locks that are marked as modified. */
  method FreeTemp(gd: GlobalData, lock: RamLock, ghost before: seq<RamLock>)
    requires TableOk(gd) && gd.locks == [lock] + before
    modifies gd`lockList, gd`locks, gd`fileErr, gd.locks`next
    ensures TableOk(gd) && gd.locks == before && gd.fileErr == old(gd.fileErr)
  {
    assert gd.locks[0] == lock && Without(gd.locks, 0) == before;
    var _ := TakeOut(gd, lock);
  }
}
